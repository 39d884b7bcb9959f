/** The language of the lazily determinised phonetic NFA, as seen by traversals through state IDs. */
module PhoneticNfaTraversal {
  import opened Common
  import opened PhoneticNfa
  import opened PhoneticSubset
  import opened PhoneticNfaSource
  import opened PhoneticNfaExpansion

  /**
   The state sets that are registered. `moment` counts lock sections, so that two expansions of one state are told apart
   even if nothing was registered in between.
   */
  datatype Snapshot = Snapshot(moment: nat, sets: seq<set<nat>>)

  /** An expansion's result and the registry when it finishes. */
  datatype Answer = Answer(at: Snapshot, isFinal: bool, ts: seq<Transition>)

  type Expander = (Snapshot, nat) -> Answer

  /** Each set is registered once, and is one that the determinised NFA has. */
  ghost predicate Sound(nfa: Nfa, sets: seq<set<nat>>) { Distinct(sets) && AllArise(nfa, sets) }

  /** What the contract of `ComputeTransitions` allows, with other clones registering such sets in between. */
  ghost predicate Permitted(cfg: NfaConfig, snap: Snapshot, id: nat, a: Answer) {
    && snap.moment < a.at.moment && snap.sets <= a.at.sets && IsExpansion(cfg, a.at.sets, id, a.isFinal, a.ts)
    && (Sound(cfg.nfa, snap.sets) ==> Sound(cfg.nfa, a.at.sets))
  }

  ghost predicate Honest(cfg: NfaConfig, expand: Expander) {
    forall snap: Snapshot, id: nat :: id < |snap.sets| ==> Permitted(cfg, snap, id, expand(snap, id))
  }

  /** A registry with the successors of a set for the given characters, and the arcs into them. */
  lemma {:induction false} RegisterFor(cfg: NfaConfig, sets: seq<set<nat>>, id: nat, chars: set<char>)
    returns (sets': seq<set<nat>>, ts: seq<Transition>)
    requires id < |sets| && forall c :: c in chars ==> Moves(cfg, sets[id], c)
    ensures sets <= sets' && (forall i :: 0 <= i < |ts| ==> IsMove(cfg, sets', id, ts[i]) && ts[i].input in chars)
    ensures forall i, j :: 0 <= i < j < |ts| ==> ts[i].input != ts[j].input
    ensures forall c :: c in chars ==> HasInput(ts, c)
    ensures Sound(cfg.nfa, sets) ==> Sound(cfg.nfa, sets')
    decreases chars
  {
    hide Moves, StepSet, Arises;
    if chars == {} {
      sets', ts := sets, [];
    } else {
      var c :| c in chars;
      var some, rest := RegisterFor(cfg, sets, id, chars - {c});
      var next := StepSet(cfg.nfa, sets[id], c);
      if AllArise(cfg.nfa, sets) { ArisesStep(cfg.nfa, sets[id], c); }
      sets' := if next in some then some else some + [next];
      var to: nat :| to < |sets'| && sets'[to] == next;
      ts := rest + [Transition(id, c, c, to, cfg.phoneticWeight)];
      forall d | d in chars ensures HasInput(ts, d) {
        if d == c {
          assert ts[|rest|].input == c;
        } else {
          assert HasInput(rest, d);
          var i :| 0 <= i < |rest| && rest[i].input == d;
          assert ts[i].input == d;
        }
      }
      forall i | 0 <= i < |ts| ensures IsMove(cfg, sets', id, ts[i]) && ts[i].input in chars {
        if i < |rest| { assert IsMove(cfg, some, id, rest[i]); }
      }
    }
  }

  /** Every state of every registry has a permitted answer. */
  lemma {:induction false} AnswerExists(cfg: NfaConfig, snap: Snapshot, id: nat) returns (a: Answer)
    requires id < |snap.sets|
    ensures Permitted(cfg, snap, id, a)
  {
    hide Moves, IsMove, EndsFinal, HasInput, Sound;
    var sets, ts := RegisterFor(cfg, snap.sets, id, set c: char | Moves(cfg, snap.sets[id], c));
    a := Answer(Snapshot(snap.moment + 1, sets), EndsFinal(cfg.nfa, sets[id]), ts);
  }

  ghost function SomeAnswer(cfg: NfaConfig, snap: Snapshot, id: nat): Answer {
    if exists a :: Permitted(cfg, snap, id, a) then
      var a :| Permitted(cfg, snap, id, a);
      a
    else Answer(snap, false, [])
  }

  /** There are honest expanders. */
  lemma {:induction false} HonestExists(cfg: NfaConfig)
    ensures exists expand: Expander :: Honest(cfg, expand)
  {
    hide Permitted;
    var expand: Expander := (snap: Snapshot, id: nat) => SomeAnswer(cfg, snap, id);
    forall snap: Snapshot, id: nat | id < |snap.sets| ensures Permitted(cfg, snap, id, expand(snap, id)) {
      var a := AnswerExists(cfg, snap, id);
    }
    assert Honest(cfg, expand);
  }

  ghost function Arrive(expand: Expander, snap: Snapshot, id: nat, picks: seq<nat>): Option<(Snapshot, nat)>
    decreases |picks|
  {
    var a := expand(snap, id);
    if picks == [] then Some((snap, id))
    else if picks[0] < |a.ts| then Arrive(expand, a.at, a.ts[picks[0]].to, picks[1..])
    else None
  }

  ghost predicate RoomAt(expand: Expander, snap: Snapshot, id: nat, picks: seq<nat>) {
    var there := Arrive(expand, snap, id, picks);
    there.Some? ==> |expand(there.value.0, there.value.1).at.sets| <= U32_MAX
  }

  /** No expansion of a traversal from here uses up the IDs. */
  ghost predicate Roomy(expand: Expander, snap: Snapshot, id: nat) { forall picks :: RoomAt(expand, snap, id, picks) }

  lemma RoomyStep(expand: Expander, snap: Snapshot, id: nat, j: nat)
    requires Roomy(expand, snap, id) && j < |expand(snap, id).ts|
    ensures Roomy(expand, expand(snap, id).at, expand(snap, id).ts[j].to)
  {
    var a := expand(snap, id);
    forall picks ensures RoomAt(expand, a.at, a.ts[j].to, picks) {
      assert RoomAt(expand, snap, id, [j] + picks);
      assert ([j] + picks)[1..] == picks;
    }
  }

  /** Following `picks` accepts, reading `w` and writing `v` at total weight `weight`. */
  ghost predicate Finds(expand: Expander, snap: Snapshot, id: nat, picks: seq<nat>, w: string, v: string, weight: nat)
    decreases |picks|
  {
    var a := expand(snap, id);
    if picks == [] then w == [] && v == [] && a.isFinal && weight == 0
    else
      && picks[0] < |a.ts| && w != [] && v != []
      && var t := a.ts[picks[0]];
         && t.input == w[0] && t.output == v[0] && t.weight <= weight
         && Finds(expand, a.at, t.to, picks[1..], w[1..], v[1..], weight - t.weight)
  }

  /** Each character is offered by the set reached before it. */
  ghost predicate OfferedAlong(cfg: NfaConfig, states: set<nat>, w: string)
    decreases |w|
  {
    w == [] || (Offered(cfg.nfa, states, cfg.alphabet, w[0]) &&
                OfferedAlong(cfg, StepSet(cfg.nfa, states, w[0]), w[1..]))
  }

  lemma {:induction false} SuffixAccepts(nfa: Nfa, states: set<nat>, w: string, i: nat)
    requires i <= |w|
    ensures SubsetAccepts(nfa, states, w, i) <==> SubsetAccepts(nfa, states, w[i..], 0)
    decreases |w| - i
  {
    hide EndsFinal, StepSet;
    if i < |w| {
      var next := StepSet(nfa, states, w[i]);
      SuffixAccepts(nfa, next, w, i + 1);
      SuffixAccepts(nfa, next, w[i..], 1);
      assert w[i..][1..] == w[i + 1..];
    }
  }

  lemma {:induction false} AcceptsCons(nfa: Nfa, states: set<nat>, w: string)
    requires w != []
    ensures SubsetAccepts(nfa, states, w, 0) <==> SubsetAccepts(nfa, StepSet(nfa, states, w[0]), w[1..], 0)
  {
    hide EndsFinal, StepSet;
    SuffixAccepts(nfa, StepSet(nfa, states, w[0]), w, 1);
  }

  lemma EmptyHits(nfa: Nfa, side: Side, c: char)
    ensures Closure(nfa, side, {}) == {} && Hits(nfa, {}, c) == {}
  {
  }

  lemma {:induction false} EmptyRejects(nfa: Nfa, w: string, i: nat)
    requires i <= |w|
    ensures !SubsetAccepts(nfa, {}, w, i)
    decreases |w| - i
  {
    hide Closure, Hits;
    if i == |w| {
      EmptyHits(nfa, Terminal, 'x');
    } else {
      EmptyHits(nfa, Inner, w[i]);
      EmptyRejects(nfa, w, i + 1);
    }
  }

  /** What honesty says of one expansion. */
  lemma ExpandStep(cfg: NfaConfig, expand: Expander, snap: Snapshot, id: nat)
    requires Honest(cfg, expand) && id < |snap.sets|
    ensures var a := expand(snap, id);
            && snap.sets <= a.at.sets && a.at.sets[id] == snap.sets[id]
            && IsExpansion(cfg, a.at.sets, id, a.isFinal, a.ts)
            && (Sound(cfg.nfa, snap.sets) ==> Sound(cfg.nfa, a.at.sets))
  {
    hide IsExpansion, Sound;
  }

  /** Wherever a traversal arrives, the registry is sound and the state is registered. */
  lemma {:induction false} ArriveInside(cfg: NfaConfig, expand: Expander, snap: Snapshot, id: nat, picks: seq<nat>)
    requires Honest(cfg, expand) && Sound(cfg.nfa, snap.sets) && id < |snap.sets|
    requires Arrive(expand, snap, id, picks).Some?
    ensures var there := Arrive(expand, snap, id, picks).value;
            Sound(cfg.nfa, there.0.sets) && there.1 < |there.0.sets|
    decreases |picks|
  {
    hide Honest, StepSet, EndsFinal, IsMove, Moves, HasInput, Sound;
    if picks != [] {
      ExpandStep(cfg, expand, snap, id);
      var a := expand(snap, id);
      MoveAt(cfg, a.at.sets, id, a.isFinal, a.ts, picks[0]);
      ArriveInside(cfg, expand, a.at, a.ts[picks[0]].to, picks[1..]);
    }
  }

  lemma SoundBounded(nfa: Nfa, sets: seq<set<nat>>)
    requires Sound(nfa, sets)
    ensures |sets| <= |Determinised(nfa)|
  {
    hide Determinised, Arises;
    forall i | 0 <= i < |sets| ensures sets[i] in Determinised(nfa) { ArisesInside(nfa, sets[i]); }
    DistinctBounded(sets, Determinised(nfa));
  }

  /** IDs last if the determinised NFA has no more states than there are IDs for them, whatever the clones do. */
  lemma {:induction false} SmallIsRoomy(cfg: NfaConfig, expand: Expander)
    requires Honest(cfg, expand) && |Determinised(cfg.nfa)| <= U32_MAX
    ensures Roomy(expand, Snapshot(0, [InitialSet(cfg.nfa)]), 0)
  {
    hide Honest, Determinised, InitialSet, Arises, IsExpansion;
    var start := Snapshot(0, [InitialSet(cfg.nfa)]);
    ArisesStart(cfg.nfa);
    forall picks ensures RoomAt(expand, start, 0, picks) {
      if Arrive(expand, start, 0, picks).Some? {
        ArriveInside(cfg, expand, start, 0, picks);
        var there := Arrive(expand, start, 0, picks).value;
        ExpandStep(cfg, expand, there.0, there.1);
        SoundBounded(cfg.nfa, expand(there.0, there.1).at.sets);
      }
    }
  }

  lemma MoveAt(cfg: NfaConfig, sets: seq<set<nat>>, id: nat, isFinal: bool, ts: seq<Transition>, j: nat)
    requires IsExpansion(cfg, sets, id, isFinal, ts) && j < |ts|
    ensures var t := ts[j];
            && t.output == t.input && t.weight == cfg.phoneticWeight && Moves(cfg, sets[id], t.input)
            && t.to < |sets| && sets[t.to] == StepSet(cfg.nfa, sets[id], t.input)
  {
    assert IsMove(cfg, sets, id, ts[j]);
  }

  /** Whatever is found is accepted, unchanged, at its length times the phonetic weight. */
  lemma {:induction false} FindsIsAccepted(cfg: NfaConfig, expand: Expander, snap: Snapshot, id: nat, picks: seq<nat>,
                                           w: string, v: string, weight: nat)
    requires Honest(cfg, expand) && id < |snap.sets| && Finds(expand, snap, id, picks, w, v, weight)
    ensures v == w && weight == |w| * cfg.phoneticWeight
    ensures SubsetAccepts(cfg.nfa, snap.sets[id], w, 0) && OfferedAlong(cfg, snap.sets[id], w)
    decreases |picks|
  {
    hide Honest, StepSet, EndsFinal, Offered, IsMove, HasInput;
    ExpandStep(cfg, expand, snap, id);
    var a := expand(snap, id);
    if picks != [] {
      hide SubsetAccepts;
      MoveAt(cfg, a.at.sets, id, a.isFinal, a.ts, picks[0]);
      var t := a.ts[picks[0]];
      FindsIsAccepted(cfg, expand, a.at, t.to, picks[1..], w[1..], v[1..], weight - t.weight);
      AcceptsCons(cfg.nfa, snap.sets[id], w);
      assert w == [w[0]] + w[1..] && v == [v[0]] + v[1..];
      OneMore(|w|, cfg.phoneticWeight);
    }
  }

  lemma OneMore(n: nat, k: nat)
    requires n > 0
    ensures n * k == k + (n - 1) * k
  {
  }

  /** A string has at most one path. */
  lemma {:induction false} PathIsUnique(cfg: NfaConfig, expand: Expander, snap: Snapshot, id: nat, picks: seq<nat>,
                                        picks': seq<nat>, w: string, v: string, v': string, weight: nat, weight': nat)
    requires Honest(cfg, expand) && id < |snap.sets|
    requires Finds(expand, snap, id, picks, w, v, weight) && Finds(expand, snap, id, picks', w, v', weight')
    ensures picks == picks'
    decreases |picks|
  {
    hide Honest, StepSet, EndsFinal, Offered, HasInput;
    ExpandStep(cfg, expand, snap, id);
    var a := expand(snap, id);
    if picks != [] && picks' != [] {
      MoveAt(cfg, a.at.sets, id, a.isFinal, a.ts, picks[0]);
      assert picks[0] == picks'[0];
      var t := a.ts[picks[0]];
      PathIsUnique(cfg, expand, a.at, t.to, picks[1..], picks'[1..], w[1..], v[1..], v'[1..], weight - t.weight,
                   weight' - t.weight);
      assert picks == [picks[0]] + picks[1..] && picks' == [picks'[0]] + picks'[1..];
    }
  }

  /** Whatever is accepted along offered characters is found. */
  lemma {:induction false} AcceptedIsFound(cfg: NfaConfig, expand: Expander, snap: Snapshot, id: nat, w: string)
    returns (picks: seq<nat>)
    requires Honest(cfg, expand) && Roomy(expand, snap, id) && id < |snap.sets|
    requires SubsetAccepts(cfg.nfa, snap.sets[id], w, 0) && OfferedAlong(cfg, snap.sets[id], w)
    ensures Finds(expand, snap, id, picks, w, w, |w| * cfg.phoneticWeight)
    decreases |w|
  {
    hide Honest, StepSet, EndsFinal, Offered, Roomy, IsMove;
    ExpandStep(cfg, expand, snap, id);
    var a := expand(snap, id);
    if w == [] {
      picks := [];
    } else {
      hide SubsetAccepts;
      AcceptsCons(cfg.nfa, snap.sets[id], w);
      assert Hits(cfg.nfa, snap.sets[id], w[0]) != {} by { StepNonEmpty(cfg.nfa, snap.sets[id], w); }
      RoomHere(expand, snap, id);
      assert HasInput(a.ts, w[0]);
      var j: nat :| j < |a.ts| && a.ts[j].input == w[0];
      MoveAt(cfg, a.at.sets, id, a.isFinal, a.ts, j);
      RoomyStep(expand, snap, id, j);
      var rest := AcceptedIsFound(cfg, expand, a.at, a.ts[j].to, w[1..]);
      picks := [j] + rest;
      OneMore(|w|, cfg.phoneticWeight);
      assert picks[1..] == rest;
    }
  }

  lemma RoomHere(expand: Expander, snap: Snapshot, id: nat)
    requires Roomy(expand, snap, id)
    ensures |expand(snap, id).at.sets| <= U32_MAX
  {
    assert RoomAt(expand, snap, id, []);
  }

  lemma {:induction false} StepNonEmpty(nfa: Nfa, states: set<nat>, w: string)
    requires w != [] && SubsetAccepts(nfa, states, w, 0)
    ensures Hits(nfa, states, w[0]) != {}
  {
    hide SubsetAccepts, Closure, Hits;
    AcceptsCons(nfa, states, w);
    if Hits(nfa, states, w[0]) == {} {
      EmptyHits(nfa, Inner, w[0]);
      EmptyRejects(nfa, w[1..], 0);
    }
  }

  /** Over the configured alphabet every accepted character is offered. */
  lemma {:induction false} AlphabetOffers(cfg: NfaConfig, states: set<nat>, w: string)
    requires (forall i :: 0 <= i < |w| ==> w[i] in cfg.alphabet) && SubsetAccepts(cfg.nfa, states, w, 0)
    ensures OfferedAlong(cfg, states, w)
    decreases |w|
  {
    hide StepSet, SubsetAccepts;
    if w != [] {
      StepNonEmpty(cfg.nfa, states, w);
      var t :| t in Hits(cfg.nfa, states, w[0]);
      var s: nat, j: nat :| s in states && j < |cfg.nfa.From(s)| && Matches(cfg.nfa.From(s)[j].via, w[0]) &&
          Target(cfg.nfa, s, j) == t;
      assert Concretizes(cfg.nfa.From(s)[j].via, cfg.alphabet, w[0]);
      AcceptsCons(cfg.nfa, states, w);
      AlphabetOffers(cfg, StepSet(cfg.nfa, states, w[0]), w[1..]);
    }
  }

  /** Some path from the start state reads `w` and writes `v` at weight `weight`. */
  ghost predicate CanFind(cfg: NfaConfig, expand: Expander, w: string, v: string, weight: nat) {
    exists picks :: Finds(expand, Snapshot(0, [InitialSet(cfg.nfa)]), 0, picks, w, v, weight)
  }

  /**
   However clones interleave: the WFST accepts `w` only as the identity, at its length times the phonetic weight, and
   only if the NFA has a run over `w` with start anchors before the first and end anchors after the last character.
   While IDs last, it accepts every such `w` whose characters are offered on the way, so every such string over the
   alphabet. They last if the determinised NFA has at most `u32::MAX` states, so for every NFA of up to 31 states.
   */
  lemma {:induction false} LanguageIsExact(cfg: NfaConfig, expand: Expander, w: string, v: string, weight: nat)
    requires Honest(cfg, expand)
    ensures CanFind(cfg, expand, w, v, weight) ==>
              v == w && weight == |w| * cfg.phoneticWeight && HasRun(cfg.nfa, w, true)
    ensures Roomy(expand, Snapshot(0, [InitialSet(cfg.nfa)]), 0) ==>
              (CanFind(cfg, expand, w, w, |w| * cfg.phoneticWeight) <==>
               HasRun(cfg.nfa, w, true) && OfferedAlong(cfg, InitialSet(cfg.nfa), w))
    ensures Roomy(expand, Snapshot(0, [InitialSet(cfg.nfa)]), 0) &&
            (forall i :: 0 <= i < |w| ==> w[i] in cfg.alphabet) ==>
              (CanFind(cfg, expand, w, w, |w| * cfg.phoneticWeight) <==> HasRun(cfg.nfa, w, true))
    ensures |Determinised(cfg.nfa)| <= U32_MAX || |NfaStates(cfg.nfa)| <= 31 ==>
              Roomy(expand, Snapshot(0, [InitialSet(cfg.nfa)]), 0)
  {
    hide Finds, Honest, Roomy, SubsetAccepts, HasRun, OfferedAlong, InitialSet, Determinised, NfaStates;
    DeterminisedBounded(cfg.nfa);
    if |Determinised(cfg.nfa)| <= U32_MAX { SmallIsRoomy(cfg, expand); }
    var initial := InitialSet(cfg.nfa);
    SubsetIsRun(cfg.nfa, w);
    forall u: string, n: nat | CanFind(cfg, expand, w, u, n)
      ensures u == w && n == |w| * cfg.phoneticWeight && HasRun(cfg.nfa, w, true) && OfferedAlong(cfg, initial, w)
    {
      var picks :| Finds(expand, Snapshot(0, [initial]), 0, picks, w, u, n);
      FindsIsAccepted(cfg, expand, Snapshot(0, [initial]), 0, picks, w, u, n);
    }
    if Roomy(expand, Snapshot(0, [initial]), 0) && HasRun(cfg.nfa, w, true) && OfferedAlong(cfg, initial, w) {
      var picks := AcceptedIsFound(cfg, expand, Snapshot(0, [initial]), 0, w);
    }
    if HasRun(cfg.nfa, w, true) && forall i :: 0 <= i < |w| ==> w[i] in cfg.alphabet {
      AlphabetOffers(cfg, initial, w);
    }
  }
}
