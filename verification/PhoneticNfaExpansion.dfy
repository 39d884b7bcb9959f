/** The registry of NFA state sets and the expansion of one of them (src/phonetic_nfa_wfst.rs). */
module PhoneticNfaExpansion {
  import opened Common
  import opened PhoneticNfa
  import opened PhoneticSubset
  import opened PhoneticNfaSource

  // ---------------------------------------------------------------- keys

  predicate IsLeast(m: nat, s: set<nat>) { m in s && forall x :: x in s ==> m <= x }

  lemma {:induction false} HasLeast(s: set<nat>)
    requires s != {}
    ensures exists m :: IsLeast(m, s)
  {
    var a :| a in s;
    var rest := s - {a};
    if rest == {} {
      assert s == {a};
      assert IsLeast(a, s);
    } else {
      HasLeast(rest);
      var m :| IsLeast(m, rest);
      assert s == rest + {a};
      if a <= m {
        assert IsLeast(a, s);
      } else {
        assert IsLeast(m, s);
      }
    }
  }

  function Least(s: set<nat>): (m: nat)
    requires s != {}
    ensures IsLeast(m, s)
  {
    HasLeast(s);
    var m :| m in s && IsLeast(m, s); m
  }

  ghost predicate Ascending(key: seq<nat>) { forall i, j :: 0 <= i < j < |key| ==> key[i] < key[j] }

  /** `state_set_to_key`: the sorted members identify the set. */
  function SortedKey(s: set<nat>): (key: seq<nat>)
    ensures Elements(key) == s && Ascending(key)
  {
    if s == {} then []
    else
      var m := Least(s);
      var rest := SortedKey(s - {m});
      KeyCons(s, m, rest);
      [m] + rest
  }

  lemma KeyCons(s: set<nat>, m: nat, rest: seq<nat>)
    requires IsLeast(m, s) && Elements(rest) == s - {m} && Ascending(rest)
    ensures Elements([m] + rest) == s && Ascending([m] + rest)
  {
    forall i | 0 <= i < |rest| ensures m < rest[i] {
      assert rest[i] in Elements(rest);
    }
    forall x ensures x in Elements([m] + rest) <==> x in s {
      assert x in Elements([m] + rest) <==> x == m || x in Elements(rest);
    }
  }

  lemma {:induction false} KeyInjective(a: set<nat>, b: set<nat>)
    ensures SortedKey(a) == SortedKey(b) <==> a == b
  {
    assert Elements(SortedKey(a)) == a && Elements(SortedKey(b)) == b;
  }

  // ---------------------------------------------------------------- closures of sets

  lemma {:induction false} PathThrough(nfa: Nfa, side: Side, u: nat, path: seq<nat>, s: nat, moves: seq<nat>, t: nat)
    requires FreePath(nfa, Inner, u, path, s) && FreePath(nfa, side, s, moves, t)
    ensures FreePath(nfa, side, u, path + moves, t)
    decreases |path|
  {
    if path == [] {
      assert path + moves == moves;
    } else {
      PathThrough(nfa, side, nfa.From(u)[path[0]].to, path[1..], s, moves, t);
      assert (path + moves)[1..] == path[1..] + moves;
    }
  }

  /** Taking the epsilon closure first changes nothing. */
  lemma ClosureAbsorbs(nfa: Nfa, side: Side, initial: set<nat>)
    ensures Closure(nfa, side, Closure(nfa, Inner, initial)) == Closure(nfa, side, initial)
  {
    hide Closure, FreePath;
    var inner := Closure(nfa, Inner, initial);
    var all := Closure(nfa, side, inner);
    ClosureClosed(nfa, Inner, initial);
    ClosureClosed(nfa, side, inner);
    forall t | t in all ensures Reached(nfa, side, initial, t) {
      var s, moves := ClosurePath(nfa, side, inner, t);
      var u, path := ClosurePath(nfa, Inner, initial, s);
      PathThrough(nfa, side, u, path, s, moves, t);
      assert Leads(nfa, side, u, t);
    }
    ClosureUnique(nfa, side, initial, all);
  }

  /** `start_anchor_closure`: the start state's epsilon closure, extended over start anchors. */
  method StartAnchorClosure(nfa: Nfa) returns (closure: set<nat>)
    ensures closure == InitialSet(nfa)
  {
    var inner := PositionAnchorClosure(nfa, [nfa.start], Inner);
    closure := PositionAnchorClosure(nfa, SortedKey(inner), Initial);
    assert Elements([nfa.start]) == {nfa.start};
    ClosureAbsorbs(nfa, Initial, {nfa.start});
  }

  /** `state_set_can_reach_final_through_end_anchors`. */
  method StateSetIsFinal(nfa: Nfa, states: set<nat>) returns (final: bool)
    ensures final == EndsFinal(nfa, states)
  {
    var closure := PositionAnchorClosure(nfa, SortedKey(states), Terminal);
    final := exists s :: s in closure && s in nfa.finals;
  }

  // ---------------------------------------------------------------- the registry

  datatype Registered = Registered(states: set<nat>, isFinal: bool)

  /** Keys and IDs are mutually inverse, IDs are `u32`, and finality is that of the set. */
  ghost predicate RegistryOk(nfa: Nfa, stateToId: map<seq<nat>, nat>, idToState: seq<Registered>) {
    && 1 <= |idToState| <= U32_MAX + 1 && idToState[0].states == InitialSet(nfa)
    && (forall id :: 0 <= id < |idToState| ==>
          && SortedKey(idToState[id].states) in stateToId && stateToId[SortedKey(idToState[id].states)] == id
          && idToState[id].isFinal == EndsFinal(nfa, idToState[id].states))
    && (forall key :: key in stateToId ==>
        stateToId[key] < |idToState| && SortedKey(idToState[stateToId[key]].states) == key)
  }

  ghost function SetsOf(registered: seq<Registered>): (sets: seq<set<nat>>)
    ensures |sets| == |registered| && forall i :: 0 <= i < |sets| ==> sets[i] == registered[i].states
  {
    seq(|registered|, i requires 0 <= i < |registered| => registered[i].states)
  }

  /** Every set arises by following some string. */
  ghost predicate AllArise(nfa: Nfa, sets: seq<set<nat>>) { forall i :: 0 <= i < |sets| ==> Arises(nfa, sets[i]) }

  lemma RegistryDistinct(nfa: Nfa, stateToId: map<seq<nat>, nat>, idToState: seq<Registered>)
    requires RegistryOk(nfa, stateToId, idToState)
    ensures Distinct(SetsOf(idToState))
  {
    hide EndsFinal, SortedKey;
  }

  lemma {:induction false} KeyFound(nfa: Nfa, stateToId: map<seq<nat>, nat>, idToState: seq<Registered>,
                                    states: set<nat>)
    requires RegistryOk(nfa, stateToId, idToState) && SortedKey(states) in stateToId
    ensures stateToId[SortedKey(states)] < |idToState| && idToState[stateToId[SortedKey(states)]].states == states
  {
    KeyInjective(idToState[stateToId[SortedKey(states)]].states, states);
  }

  lemma RegistryAppend(nfa: Nfa, stateToId: map<seq<nat>, nat>, idToState: seq<Registered>, r: Registered)
    requires RegistryOk(nfa, stateToId, idToState) && SortedKey(r.states) !in stateToId && |idToState| <= U32_MAX
    requires r.isFinal == EndsFinal(nfa, r.states)
    ensures RegistryOk(nfa, stateToId[SortedKey(r.states) := |idToState|], idToState + [r])
  {
    hide EndsFinal, SortedKey;
  }

  class NfaStateRegistry {
    const nfa: Nfa
    var stateToId: map<seq<nat>, nat>
    var idToState: seq<Registered>

    ghost predicate Valid()
      reads this
    {
      RegistryOk(nfa, stateToId, idToState)
    }

    /** Start anchors are folded into state 0 and never crossed later. */
    constructor (nfa: Nfa)
      ensures Valid() && this.nfa == nfa && |idToState| == 1 && AllArise(nfa, SetsOf(idToState))
    {
      ArisesStart(nfa);
      var initial := StartAnchorClosure(nfa);
      var final := StateSetIsFinal(nfa, initial);
      this.nfa := nfa;
      stateToId := map[SortedKey(initial) := 0];
      idToState := [Registered(initial, final)];
    }

    /** `get_or_create_with_key`: refused only when every `u32` is taken. */
    method GetOrCreate(states: set<nat>, isFinal: bool) returns (id: Option<nat>)
      requires Valid() && isFinal == EndsFinal(nfa, states)
      modifies this
      ensures Valid() && old(idToState) <= idToState
      ensures id.Some? ==> id.value < |idToState| && idToState[id.value].states == states
      ensures id.None? ==> |idToState| == U32_MAX + 1
      ensures old(AllArise(nfa, SetsOf(idToState))) && Arises(nfa, states) ==> AllArise(nfa, SetsOf(idToState))
    {
      hide RegistryOk, EndsFinal, SortedKey, Arises;
      var key := SortedKey(states);
      if key in stateToId {
        KeyFound(nfa, stateToId, idToState, states);
        return Some(stateToId[key]);
      }
      SizeBound(nfa, stateToId, idToState);
      if |idToState| > U32_MAX {
        return None;
      }
      RegistryAppend(nfa, stateToId, idToState, Registered(states, isFinal));
      stateToId := stateToId[key := |idToState|];
      idToState := idToState + [Registered(states, isFinal)];
      return Some(|idToState| - 1);
    }

    /** Other clones register sets of their own while the lock is free. */
    method Interfere(foreign: seq<set<nat>>)
      requires Valid()
      modifies this
      ensures Valid() && old(idToState) <= idToState
      ensures old(AllArise(nfa, SetsOf(idToState))) && AllArise(nfa, foreign) ==> AllArise(nfa, SetsOf(idToState))
    {
      hide RegistryOk, EndsFinal, Arises;
      for i := 0 to |foreign|
        invariant Valid() && old(idToState) <= idToState
        invariant old(AllArise(nfa, SetsOf(idToState))) && AllArise(nfa, foreign) ==> AllArise(nfa, SetsOf(idToState))
      {
        var final := StateSetIsFinal(nfa, foreign[i]);
        var _ := GetOrCreate(foreign[i], final);
      }
    }

    /** Under the read lock: the IDs of the targets known already, and the positions of the others. */
    method LookupTargets(pending: seq<(char, set<nat>)>) returns (resolved: seq<Option<nat>>, missing: seq<nat>)
      requires Valid()
      ensures |resolved| == |pending|
      ensures forall k :: 0 <= k < |pending| && resolved[k].Some? ==> Names(idToState, resolved[k].value, pending[k].1)
      ensures forall m :: 0 <= m < |missing| ==> missing[m] < |pending|
      ensures forall k :: 0 <= k < |pending| && resolved[k].None? ==> k in missing
    {
      hide RegistryOk, SortedKey;
      resolved, missing := [], [];
      for k := 0 to |pending|
        invariant |resolved| == k
        invariant forall i :: 0 <= i < k && resolved[i].Some? ==> Names(idToState, resolved[i].value, pending[i].1)
        invariant forall m :: 0 <= m < |missing| ==> missing[m] < k
        invariant forall i :: 0 <= i < k && resolved[i].None? ==> i in missing
      {
        var key := SortedKey(pending[k].1);
        if key in stateToId {
          KeyFound(nfa, stateToId, idToState, pending[k].1);
          resolved := resolved + [Some(stateToId[key])];
        } else {
          resolved := resolved + [None];
          missing := missing + [k];
        }
      }
    }

    /** Under the write lock: one ID for each distinct missing set. */
    method RegisterMissing(unique: seq<Registered>) returns (ids: seq<Option<nat>>)
      requires Valid() && forall u :: 0 <= u < |unique| ==> unique[u].isFinal == EndsFinal(nfa, unique[u].states)
      modifies this
      ensures Valid() && old(idToState) <= idToState && |ids| == |unique|
      ensures forall u :: 0 <= u < |unique| && ids[u].Some? ==> Names(idToState, ids[u].value, unique[u].states)
      ensures forall u :: 0 <= u < |unique| && ids[u].None? ==> |idToState| == U32_MAX + 1
      ensures old(AllArise(nfa, SetsOf(idToState))) && AllArise(nfa, SetsOf(unique)) ==>
                AllArise(nfa, SetsOf(idToState))
    {
      hide RegistryOk, EndsFinal, Arises;
      ids := [];
      for u := 0 to |unique|
        invariant Valid() && old(idToState) <= idToState && |ids| == u
        invariant forall v :: 0 <= v < u && ids[v].Some? ==> Names(idToState, ids[v].value, unique[v].states)
        invariant forall v :: 0 <= v < u && ids[v].None? ==> |idToState| == U32_MAX + 1
        invariant old(AllArise(nfa, SetsOf(idToState))) && AllArise(nfa, SetsOf(unique)) ==>
                    AllArise(nfa, SetsOf(idToState))
      {
        var id := GetOrCreate(unique[u].states, unique[u].isFinal);
        SizeBound(nfa, stateToId, idToState);
        ids := ids + [id];
      }
    }

    /**
     `resolve_transition_targets`: every target set gets the one ID that names it, whatever other clones register
     between the two lock sections; a target is left out only when the IDs are used up. If all sets concerned arise by
     following strings, the registry goes on to hold only such sets.
     */
    method ResolveTargets(pending: seq<(char, set<nat>)>, foreign: seq<set<nat>>) returns (resolved: seq<Option<nat>>)
      requires Valid()
      modifies this
      ensures Valid() && old(idToState) <= idToState && |resolved| == |pending|
      ensures forall k :: 0 <= k < |pending| && resolved[k].Some? ==> Names(idToState, resolved[k].value, pending[k].1)
      ensures forall k :: 0 <= k < |pending| && resolved[k].None? ==> |idToState| == U32_MAX + 1
      ensures old(AllArise(nfa, SetsOf(idToState))) && AllArise(nfa, foreign) && AllArise(nfa, TargetsOf(pending)) ==>
                AllArise(nfa, SetsOf(idToState))
    {
      hide RegistryOk, EndsFinal, Arises;
      var missing: seq<nat>;
      resolved, missing := LookupTargets(pending);
      if missing == [] {
        return;
      }
      var unique, uses := UniqueMissing(nfa, pending, missing);
      Interfere(foreign);
      var ids := RegisterMissing(unique);
      if AllArise(nfa, TargetsOf(pending)) { UniqueArise(nfa, pending, missing, unique, uses); }
      ghost var before := resolved;
      for m := 0 to |missing|
        invariant |resolved| == |pending|
        invariant forall k :: 0 <= k < |pending| && resolved[k].Some? ==>
                    Names(idToState, resolved[k].value, pending[k].1)
        invariant forall k :: 0 <= k < |pending| && resolved[k].None? ==> before[k].None?
        invariant forall i :: 0 <= i < m ==> resolved[missing[i]].None? ==> |idToState| == U32_MAX + 1
      {
        if ids[uses[m]].Some? {
          resolved := resolved[missing[m] := ids[uses[m]]];
        }
      }
    }
  }

  ghost predicate Names(idToState: seq<Registered>, id: nat, states: set<nat>) {
    id < |idToState| && idToState[id].states == states
  }

  lemma SizeBound(nfa: Nfa, stateToId: map<seq<nat>, nat>, idToState: seq<Registered>)
    requires RegistryOk(nfa, stateToId, idToState)
    ensures |idToState| <= U32_MAX + 1
  {
  }

  ghost function TargetsOf(pending: seq<(char, set<nat>)>): (sets: seq<set<nat>>)
    ensures |sets| == |pending| && forall i :: 0 <= i < |sets| ==> sets[i] == pending[i].1
  {
    seq(|pending|, i requires 0 <= i < |pending| => pending[i].1)
  }

  lemma UniqueArise(nfa: Nfa, pending: seq<(char, set<nat>)>, missing: seq<nat>, unique: seq<Registered>,
                    uses: seq<nat>)
    requires AllArise(nfa, TargetsOf(pending)) && |uses| == |missing|
    requires forall m :: 0 <= m < |missing| ==> missing[m] < |pending|
    requires forall m :: 0 <= m < |missing| ==> uses[m] < |unique| && unique[uses[m]].states == pending[missing[m]].1
    requires forall u :: 0 <= u < |unique| ==> u in uses
    ensures AllArise(nfa, SetsOf(unique))
  {
    hide Arises;
    forall u | 0 <= u < |unique| ensures Arises(nfa, unique[u].states) {
      assert u in uses;
      var m :| 0 <= m < |uses| && uses[m] == u;
      assert Arises(nfa, TargetsOf(pending)[missing[m]]);
    }
  }

  /** Equal missing sets share one entry; `uses` says which. */
  method UniqueMissing(nfa: Nfa, pending: seq<(char, set<nat>)>, missing: seq<nat>)
    returns (unique: seq<Registered>, uses: seq<nat>)
    requires forall m :: 0 <= m < |missing| ==> missing[m] < |pending|
    ensures |uses| == |missing|
    ensures forall m :: 0 <= m < |missing| ==> uses[m] < |unique| && unique[uses[m]].states == pending[missing[m]].1
    ensures forall u :: 0 <= u < |unique| ==> unique[u].isFinal == EndsFinal(nfa, unique[u].states)
    ensures forall u, v :: 0 <= u < v < |unique| ==> unique[u].states != unique[v].states
    ensures forall u :: 0 <= u < |unique| ==> u in uses
  {
    hide EndsFinal, SortedKey;
    unique, uses := [], [];
    var index: map<seq<nat>, nat> := map[];
    for m := 0 to |missing|
      invariant |uses| == m
      invariant forall i :: 0 <= i < m ==> uses[i] < |unique| && unique[uses[i]].states == pending[missing[i]].1
      invariant forall u :: 0 <= u < |unique| ==>
                  unique[u].isFinal == EndsFinal(nfa, unique[u].states) && SortedKey(unique[u].states) in index
      invariant forall key :: key in index ==> index[key] < |unique| && SortedKey(unique[index[key]].states) == key
      invariant forall u, v :: 0 <= u < v < |unique| ==> unique[u].states != unique[v].states
      invariant forall u :: 0 <= u < |unique| ==> u in uses
    {
      var states := pending[missing[m]].1;
      var key := SortedKey(states);
      if key in index {
        KeyInjective(unique[index[key]].states, states);
        uses := uses + [index[key]];
      } else {
        var final := StateSetIsFinal(nfa, states);
        index := index[key := |unique|];
        uses := uses + [|unique|];
        unique := unique + [Registered(states, final)];
      }
    }
  }

  // ---------------------------------------------------------------- expanding one state

  datatype Transition = Transition(from: nat, input: char, output: char, to: nat, weight: nat)

  datatype NfaConfig = NfaConfig(nfa: Nfa, alphabet: seq<char>, phoneticWeight: nat)

  /** `c` is offered by the set and leads somewhere. */
  ghost predicate Moves(cfg: NfaConfig, states: set<nat>, c: char) {
    Offered(cfg.nfa, states, cfg.alphabet, c) && Hits(cfg.nfa, states, c) != {}
  }

  ghost predicate IsMove(cfg: NfaConfig, sets: seq<set<nat>>, id: nat, t: Transition)
    requires id < |sets|
  {
    && t.from == id && t.output == t.input && t.weight == cfg.phoneticWeight && Moves(cfg, sets[id], t.input)
    && t.to < |sets| && sets[t.to] == StepSet(cfg.nfa, sets[id], t.input)
  }

  /**
   The result of expanding state `id`: an identity arc per offered character, at most one each, into the state that
   names its successor set; none is missing while IDs are left.
   */
  ghost predicate IsExpansion(cfg: NfaConfig, sets: seq<set<nat>>, id: nat, isFinal: bool, ts: seq<Transition>) {
    && id < |sets| && isFinal == EndsFinal(cfg.nfa, sets[id])
    && (forall i :: 0 <= i < |ts| ==> IsMove(cfg, sets, id, ts[i]))
    && (forall i, j :: 0 <= i < j < |ts| ==> ts[i].input != ts[j].input)
    && (|sets| <= U32_MAX ==> forall c :: Moves(cfg, sets[id], c) ==> HasInput(ts, c))
  }

  /**
   Every arc of the set that reads an offered character has its transition: one on that character into a state whose set
   holds the arc's target.
   */
  ghost predicate FollowsArcs(cfg: NfaConfig, sets: seq<set<nat>>, id: nat, ts: seq<Transition>)
    requires id < |sets|
  {
    forall s: nat, j: nat, c: char ::
      s in sets[id] && j < |cfg.nfa.From(s)| && ReadsBy(cfg.nfa.From(s)[j].via, c) &&
      (cfg.nfa.From(s)[j].via == Symbol(c) || c in cfg.alphabet) ==>
        LeadsTo(sets, ts, c, cfg.nfa.From(s)[j].to)
  }

  ghost predicate LeadsTo(sets: seq<set<nat>>, ts: seq<Transition>, c: char, target: nat) {
    exists k :: 0 <= k < |ts| && ts[k].input == ts[k].output == c && ts[k].to < |sets| && target in sets[ts[k].to]
  }

  lemma {:induction false} ArcsFollowed(cfg: NfaConfig, sets: seq<set<nat>>, id: nat, isFinal: bool,
                                        ts: seq<Transition>)
    requires IsExpansion(cfg, sets, id, isFinal, ts) && |sets| <= U32_MAX
    ensures FollowsArcs(cfg, sets, id, ts)
  {
    hide Closure, EndsFinal;
    forall s: nat, j: nat, c: char |
      s in sets[id] && j < |cfg.nfa.From(s)| && ReadsBy(cfg.nfa.From(s)[j].via, c) &&
      (cfg.nfa.From(s)[j].via == Symbol(c) || c in cfg.alphabet)
      ensures LeadsTo(sets, ts, c, cfg.nfa.From(s)[j].to)
    {
      ArcFollowed(cfg, sets, id, isFinal, ts, s, j, c);
    }
  }

  lemma {:induction false} ArcFollowed(cfg: NfaConfig, sets: seq<set<nat>>, id: nat, isFinal: bool, ts: seq<Transition>,
                                       s: nat, j: nat, c: char)
    requires IsExpansion(cfg, sets, id, isFinal, ts) && |sets| <= U32_MAX
    requires s in sets[id] && j < |cfg.nfa.From(s)| && ReadsBy(cfg.nfa.From(s)[j].via, c)
    requires cfg.nfa.From(s)[j].via == Symbol(c) || c in cfg.alphabet
    ensures LeadsTo(sets, ts, c, cfg.nfa.From(s)[j].to)
  {
    hide Closure, EndsFinal, Hits;
    var to := cfg.nfa.From(s)[j].to;
    assert Enters(cfg.nfa, s, j, c, to);
    HitsByLabel(cfg.nfa, sets[id], c, to);
    ClosureClosed(cfg.nfa, Inner, Hits(cfg.nfa, sets[id], c));
    OfferedByLabel(cfg.nfa, sets[id], cfg.alphabet, c);
    assert OffersBy(cfg.nfa.From(s)[j].via, cfg.alphabet, c);
    assert Moves(cfg, sets[id], c) && HasInput(ts, c);
    var k :| 0 <= k < |ts| && ts[k].input == c;
    assert IsMove(cfg, sets, id, ts[k]);
  }

  ghost predicate HasInput(ts: seq<Transition>, c: char) { exists i :: 0 <= i < |ts| && ts[i].input == c }

  ghost predicate IsPending(cfg: NfaConfig, states: set<nat>, p: (char, set<nat>)) {
    Moves(cfg, states, p.0) && p.1 == StepSet(cfg.nfa, states, p.0)
  }

  ghost predicate HasPending(pending: seq<(char, set<nat>)>, c: char) {
    exists i :: 0 <= i < |pending| && pending[i].0 == c
  }

  /** The closed successor set of every offered character that leads somewhere. */
  method PendingTargets(cfg: NfaConfig, states: set<nat>) returns (pending: seq<(char, set<nat>)>)
    ensures forall i :: 0 <= i < |pending| ==> IsPending(cfg, states, pending[i])
    ensures forall i, j :: 0 <= i < j < |pending| ==> pending[i].0 != pending[j].0
    ensures forall c :: Moves(cfg, states, c) ==> HasPending(pending, c)
  {
    hide Hits, Offered, Closure;
    var order := SortedKey(states);
    var chars := CollectCandidates(cfg.nfa, order, cfg.alphabet);
    var slots := CollectSuccessors(cfg.nfa, order, chars);
    pending := [];
    for i := 0 to |slots|
      invariant forall k :: 0 <= k < |pending| ==> IsPending(cfg, states, pending[k]) && pending[k].0 in chars[..i]
      invariant forall j, k :: 0 <= j < k < |pending| ==> pending[j].0 != pending[k].0
      invariant forall k :: 0 <= k < i && slots[k].1 != {} ==> HasPending(pending, chars[k])
    {
      assert chars[i] in chars && chars[i] !in chars[..i];
      ghost var before := pending;
      if slots[i].1 != {} {
        var closed := PositionAnchorClosure(cfg.nfa, SortedKey(slots[i].1), Inner);
        pending := pending + [(slots[i].0, closed)];
        assert pending[|before|].0 == chars[i];
      }
      forall k | 0 <= k < i && slots[k].1 != {} ensures HasPending(pending, chars[k]) {
        PendingGrows(before, pending, chars[k]);
      }
    }
    forall c | Moves(cfg, states, c) ensures HasPending(pending, c) {
      var k :| 0 <= k < |chars| && chars[k] == c;
    }
  }

  lemma PendingGrows(pending: seq<(char, set<nat>)>, more: seq<(char, set<nat>)>, c: char)
    requires HasPending(pending, c) && pending <= more
    ensures HasPending(more, c)
  {
    var i :| 0 <= i < |pending| && pending[i].0 == c;
    assert more[i].0 == c;
  }

  lemma PendingArise(cfg: NfaConfig, states: set<nat>, pending: seq<(char, set<nat>)>)
    requires Arises(cfg.nfa, states) && forall i :: 0 <= i < |pending| ==> IsPending(cfg, states, pending[i])
    ensures AllArise(cfg.nfa, TargetsOf(pending))
  {
    hide Arises, Moves, StepSet;
    forall i | 0 <= i < |pending| ensures Arises(cfg.nfa, pending[i].1) {
      assert IsPending(cfg, states, pending[i]);
      ArisesStep(cfg.nfa, states, pending[i].0);
    }
  }

  class PhoneticNfaWfst {
    const cfg: NfaConfig
    const registry: NfaStateRegistry

    ghost predicate Valid()
      reads this, registry
    {
      registry.Valid() && registry.nfa == cfg.nfa
    }

    constructor (nfa: Nfa, phoneticWeight: nat, alphabet: seq<char>)
      ensures Valid() && fresh(registry) && cfg.nfa == nfa && cfg.phoneticWeight == phoneticWeight
      ensures |registry.idToState| == 1 && AllArise(nfa, SetsOf(registry.idToState))
      ensures Distinct(cfg.alphabet) && forall c :: c in cfg.alphabet <==> c in alphabet
    {
      var chars := NormalizeAlphabet(alphabet);
      cfg := NfaConfig(nfa, chars, phoneticWeight);
      registry := new NfaStateRegistry(nfa);
    }

    /** `compute_nfa_transitions`; IDs that name nothing have no arcs. */
    method ComputeTransitions(id: nat, foreign: seq<set<nat>>) returns (isFinal: bool, ts: seq<Transition>)
      requires Valid()
      modifies registry
      ensures Valid() && old(registry.idToState) <= registry.idToState
      ensures old(id >= |registry.idToState|) ==> !isFinal && ts == []
      ensures old(id < |registry.idToState|) ==> IsExpansion(cfg, SetsOf(registry.idToState), id, isFinal, ts)
      ensures old(id < |registry.idToState|) && |registry.idToState| <= U32_MAX ==>
                FollowsArcs(cfg, SetsOf(registry.idToState), id, ts)
      ensures Distinct(SetsOf(registry.idToState))
      ensures old(AllArise(cfg.nfa, SetsOf(registry.idToState))) && AllArise(cfg.nfa, foreign) ==>
                AllArise(cfg.nfa, SetsOf(registry.idToState))
    {
      hide EndsFinal, Moves, StepSet, HasInput, SortedKey, Arises, FollowsArcs;
      RegistryDistinct(cfg.nfa, registry.stateToId, registry.idToState);
      if id >= |registry.idToState| {
        return false, [];
      }
      var state := registry.idToState[id];
      isFinal := state.isFinal;
      var pending := PendingTargets(cfg, state.states);
      if AllArise(cfg.nfa, SetsOf(registry.idToState)) {
        assert Arises(cfg.nfa, SetsOf(registry.idToState)[id]);
        PendingArise(cfg, state.states, pending);
      }
      var resolved := registry.ResolveTargets(pending, foreign);
      RegistryDistinct(cfg.nfa, registry.stateToId, registry.idToState);
      ts := BuildTransitions(cfg, registry.idToState, id, pending, resolved);
      if |registry.idToState| <= U32_MAX { ArcsFollowed(cfg, SetsOf(registry.idToState), id, isFinal, ts); }
    }
  }

  /** Resolved targets become identity arcs of the phonetic weight. */
  method BuildTransitions(cfg: NfaConfig, idToState: seq<Registered>, id: nat, pending: seq<(char, set<nat>)>,
                          resolved: seq<Option<nat>>)
    returns (ts: seq<Transition>)
    requires id < |idToState| && |resolved| == |pending|
    requires forall i :: 0 <= i < |pending| ==> IsPending(cfg, idToState[id].states, pending[i])
    requires forall i, j :: 0 <= i < j < |pending| ==> pending[i].0 != pending[j].0
    requires forall c :: Moves(cfg, idToState[id].states, c) ==> HasPending(pending, c)
    requires forall k :: 0 <= k < |pending| && resolved[k].Some? ==> Names(idToState, resolved[k].value, pending[k].1)
    requires forall k :: 0 <= k < |pending| && resolved[k].None? ==> |idToState| == U32_MAX + 1
    ensures forall i :: 0 <= i < |ts| ==> IsMove(cfg, SetsOf(idToState), id, ts[i])
    ensures forall i, j :: 0 <= i < j < |ts| ==> ts[i].input != ts[j].input
    ensures |idToState| <= U32_MAX ==> forall c :: Moves(cfg, idToState[id].states, c) ==> HasInput(ts, c)
  {
    hide Moves, IsMove, IsPending, Names, StepSet;
    ts := [];
    ghost var from: seq<nat> := [];
    for k := 0 to |pending|
      invariant Built(cfg, SetsOf(idToState), id, pending, k, ts, from)
      invariant |idToState| <= U32_MAX ==> |ts| == k && forall i :: 0 <= i < k ==> from[i] == i
    {
      if resolved[k].Some? {
        MoveNamed(cfg, idToState, id, pending[k], resolved[k].value);
        ts := ts + [Transition(id, pending[k].0, pending[k].0, resolved[k].value, cfg.phoneticWeight)];
        from := from + [k];
      }
    }
    if |idToState| <= U32_MAX {
      forall c | Moves(cfg, idToState[id].states, c) ensures HasInput(ts, c) {
        assert HasPending(pending, c);
        var i :| 0 <= i < |pending| && pending[i].0 == c;
        assert ts[i].input == c;
      }
    }
  }

  /** Every transition comes from one pending target, in order. */
  ghost predicate Built(cfg: NfaConfig, sets: seq<set<nat>>, id: nat, pending: seq<(char, set<nat>)>, k: nat,
                        ts: seq<Transition>, from: seq<nat>) {
    && k <= |pending| && |from| == |ts| && id < |sets|
    && (forall i :: 0 <= i < |ts| ==> from[i] < k && ts[i].input == pending[from[i]].0 && IsMove(cfg, sets, id, ts[i]))
    && (forall i, j :: 0 <= i < j < |from| ==> from[i] < from[j])
  }

  lemma MoveNamed(cfg: NfaConfig, idToState: seq<Registered>, id: nat, p: (char, set<nat>), to: nat)
    requires id < |idToState| && IsPending(cfg, idToState[id].states, p) && Names(idToState, to, p.1)
    ensures IsMove(cfg, SetsOf(idToState), id, Transition(id, p.0, p.0, to, cfg.phoneticWeight))
  {
  }

  /** `normalize_alphabet`: first occurrences, in order. */
  method NormalizeAlphabet(alphabet: seq<char>) returns (chars: seq<char>)
    ensures FirstSeen(alphabet, chars)
  {
    hide FirstSeen;
    var seen: set<char> := {};
    chars := [];
    FirstSeenNone<char>();
    for i := 0 to |alphabet|
      invariant FirstSeen(alphabet[..i], chars) && seen == set c | c in chars
    {
      FirstSeenSnoc(alphabet[..i], chars, alphabet[i]);
      assert alphabet[..i + 1] == alphabet[..i] + [alphabet[i]];
      if alphabet[i] !in seen {
        seen := seen + {alphabet[i]};
        chars := chars + [alphabet[i]];
      }
    }
    assert alphabet[..|alphabet|] == alphabet;
  }
}
