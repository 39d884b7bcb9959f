/** Subset semantics: what following sets of NFA states accepts is what the NFA has runs for. */
module PhoneticSubset {
  import opened Common
  import opened PhoneticNfa

  /** The states entered from `states` by reading `c`. */
  ghost function Hits(nfa: Nfa, states: set<nat>, c: char): set<nat> {
    set s: nat, j: nat | s in states && j < |nfa.From(s)| && Matches(nfa.From(s)[j].via, c) :: Target(nfa, s, j)
  }

  /** An arc with label `l` reads `c`: a symbol reads itself, a class what its test holds for, `Any` everything. */
  predicate ReadsBy(l: Label, c: char) { l == Symbol(c) || l == Any || (l.Class? && l.matches(c)) }

  /** The targets of exactly the arcs that read `c`; anchors, epsilon arcs and other assertions lead nowhere. */
  lemma HitsByLabel(nfa: Nfa, states: set<nat>, c: char, t: nat)
    ensures t in Hits(nfa, states, c) <==>
            exists s: nat, j: nat :: s in states && j < |nfa.From(s)| && Enters(nfa, s, j, c, t)
  {
    if t in Hits(nfa, states, c) {
      var s: nat, j: nat :| s in states && j < |nfa.From(s)| && Matches(nfa.From(s)[j].via, c) &&
          Target(nfa, s, j) == t;
      assert Enters(nfa, s, j, c, t);
    }
    if s: nat, j: nat :| s in states && j < |nfa.From(s)| && Enters(nfa, s, j, c, t) {
      assert Target(nfa, s, j) == t;
    }
  }

  predicate Enters(nfa: Nfa, s: nat, j: nat, c: char, t: nat)
    requires j < |nfa.From(s)|
  {
    nfa.From(s)[j].to == t && ReadsBy(nfa.From(s)[j].via, c)
  }

  ghost function StepSet(nfa: Nfa, states: set<nat>, c: char): set<nat> { Closure(nfa, Inner, Hits(nfa, states, c)) }

  /** `start_anchor_closure`. */
  ghost function InitialSet(nfa: Nfa): set<nat> { Closure(nfa, Initial, {nfa.start}) }

  /** `state_set_can_reach_final_through_end_anchors`. */
  ghost predicate EndsFinal(nfa: Nfa, states: set<nat>) {
    exists s :: s in Closure(nfa, Terminal, states) && s in nfa.finals
  }

  /** The set that reading `w` arrives at. */
  ghost function Follow(nfa: Nfa, w: string): set<nat> {
    if w == [] then InitialSet(nfa) else StepSet(nfa, Follow(nfa, w[..|w| - 1]), w[|w| - 1])
  }

  ghost predicate Arises(nfa: Nfa, states: set<nat>) { exists w :: Follow(nfa, w) == states }

  lemma ArisesStart(nfa: Nfa)
    ensures Arises(nfa, InitialSet(nfa))
  {
    assert Follow(nfa, []) == InitialSet(nfa);
  }

  lemma ArisesStep(nfa: Nfa, states: set<nat>, c: char)
    requires Arises(nfa, states)
    ensures Arises(nfa, StepSet(nfa, states, c))
  {
    hide StepSet;
    var w :| Follow(nfa, w) == states;
    assert (w + [c])[..|w|] == w;
    assert Follow(nfa, w + [c]) == StepSet(nfa, states, c);
  }

  /** The states of the NFA that a set can hold. */
  ghost function NfaStates(nfa: Nfa): set<nat> { {nfa.start} + Universe(nfa) }

  /** The states of the determinised NFA. */
  ghost function Determinised(nfa: Nfa): set<set<nat>> { set states | states <= NfaStates(nfa) && Arises(nfa, states) }

  lemma {:induction false} FollowInside(nfa: Nfa, w: string)
    ensures Follow(nfa, w) <= NfaStates(nfa)
    decreases |w|
  {
    hide Reached;
    if w != [] {
      FollowInside(nfa, w[..|w| - 1]);
      HitsInside(nfa, Follow(nfa, w[..|w| - 1]), w[|w| - 1]);
    }
  }

  lemma HitsInside(nfa: Nfa, states: set<nat>, c: char)
    ensures Hits(nfa, states, c) <= Universe(nfa)
  {
  }

  lemma {:induction false} ArisesInside(nfa: Nfa, states: set<nat>)
    requires Arises(nfa, states)
    ensures states in Determinised(nfa)
  {
    hide Follow;
    var w :| Follow(nfa, w) == states;
    FollowInside(nfa, w);
  }

  function PowerOfTwo(n: nat): nat { if n == 0 then 1 else 2 * PowerOfTwo(n - 1) }

  ghost function Omitting(sets: set<set<nat>>, x: nat): set<set<nat>> { set s | s in sets && x !in s }

  ghost function Shrunk(sets: set<set<nat>>, x: nat): set<set<nat>> { set s | s in sets && x in s :: s - {x} }

  ghost function Extended(sets: set<set<nat>>, x: nat): set<set<nat>> { set s | s in sets :: s + {x} }

  /** A set of `n` elements has at most `2^n` subsets. */
  lemma {:induction false} SubsetsBounded(u: set<nat>, subsets: set<set<nat>>)
    requires forall s :: s in subsets ==> s <= u
    ensures |subsets| <= PowerOfTwo(|u|)
    decreases |u|
  {
    hide Omitting, Shrunk, Extended;
    if u == {} {
      OnlyEmpty(subsets);
    } else {
      var x :| x in u;
      var without, within := Omitting(subsets, x), Shrunk(subsets, x);
      SplitsBy(u, subsets, x);
      SubsetsBounded(u - {x}, without);
      SubsetsBounded(u - {x}, within);
      ExtendedBounded(within, x);
      SubsetSize(subsets, without + Extended(within, x));
      assert |u| == |u - {x}| + 1;
    }
  }

  lemma OnlyEmpty(sets: set<set<nat>>)
    requires forall s :: s in sets ==> s <= {}
    ensures |sets| <= 1
  {
    var empty: set<nat> := {};
    forall s | s in sets ensures s in {empty} {
      assert s == empty;
    }
    SubsetSize(sets, {empty});
  }

  lemma SplitsBy(u: set<nat>, sets: set<set<nat>>, x: nat)
    requires forall s :: s in sets ==> s <= u
    ensures forall s :: s in Omitting(sets, x) ==> s <= u - {x}
    ensures forall s :: s in Shrunk(sets, x) ==> s <= u - {x}
    ensures sets <= Omitting(sets, x) + Extended(Shrunk(sets, x), x)
  {
    forall s | s in sets && x in s ensures s in Extended(Shrunk(sets, x), x) {
      assert s - {x} in Shrunk(sets, x) && s == (s - {x}) + {x};
    }
  }

  lemma {:induction false} ExtendedBounded(sets: set<set<nat>>, x: nat)
    ensures |Extended(sets, x)| <= |sets|
    decreases |sets|
  {
    if sets != {} {
      var a :| a in sets;
      ExtendedBounded(sets - {a}, x);
      assert Extended(sets, x) <= Extended(sets - {a}, x) + {a + {x}};
      SubsetSize(Extended(sets, x), Extended(sets - {a}, x) + {a + {x}});
    }
  }

  lemma {:induction false} PowerGrows(n: nat, m: nat)
    requires n <= m
    ensures PowerOfTwo(n) <= PowerOfTwo(m)
    decreases m
  {
    if n < m { PowerGrows(n, m - 1); }
  }

  /** An NFA of `n` states has at most `2^n` sets to follow, so 31 states never use up the IDs. */
  lemma DeterminisedBounded(nfa: Nfa)
    ensures |Determinised(nfa)| <= PowerOfTwo(|NfaStates(nfa)|)
    ensures |NfaStates(nfa)| <= 31 ==> |Determinised(nfa)| <= U32_MAX
  {
    hide Arises, NfaStates;
    SubsetsBounded(NfaStates(nfa), Determinised(nfa));
    if |NfaStates(nfa)| <= 31 {
      PowerGrows(|NfaStates(nfa)|, 31);
      assert PowerOfTwo(8) == 256;
      assert PowerOfTwo(16) == 65536;
      assert PowerOfTwo(24) == 16777216;
      assert PowerOfTwo(31) == 0x8000_0000;
    }
  }

  /** The set reached after the whole of `w[i..]` can end. */
  ghost predicate SubsetAccepts(nfa: Nfa, states: set<nat>, w: string, i: nat)
    requires i <= |w|
    decreases |w| - i
  {
    if i == |w| then EndsFinal(nfa, states) else SubsetAccepts(nfa, StepSet(nfa, states, w[i]), w, i + 1)
  }

  function SideAt(i: nat): Side { if i == 0 then Initial else Inner }

  lemma HitsMember(nfa: Nfa, states: set<nat>, c: char, s: nat, j: nat)
    requires s in states && j < |nfa.From(s)| && Matches(nfa.From(s)[j].via, c)
    ensures nfa.From(s)[j].to in Hits(nfa, states, c)
  {
    assert Target(nfa, s, j) in Hits(nfa, states, c);
  }

  /** A run from a member of the current set is accepted by the set. */
  lemma {:induction false} RunIsAccepted(nfa: Nfa, states: set<nat>, s: nat, moves: seq<nat>, w: string, i: nat,
                                         ended: bool)
    requires i <= |w| && Run(nfa, s, moves, w, i, true, ended) && Closed(nfa, SideAt(i), states)
    requires if ended then i == |w| && s in Closure(nfa, Terminal, states) else s in states
    ensures SubsetAccepts(nfa, states, w, i)
    decreases |moves|
  {
    hide Closure, Hits;
    var terminal := Closure(nfa, Terminal, states);
    ClosureClosed(nfa, Terminal, states);
    assert !ended ==> ClosedAt(nfa, SideAt(i), states, s);
    assert s in terminal;
    assert ClosedAt(nfa, Terminal, terminal, s);
    if moves != [] {
      var arc := nfa.From(s)[moves[0]];
      if arc.via.Epsilon? || StartAnchor(arc.via) {
        RunIsAccepted(nfa, states, arc.to, moves[1..], w, i, ended);
      } else if EndAnchor(arc.via) {
        RunIsAccepted(nfa, states, arc.to, moves[1..], w, i, true);
      } else {
        HitsMember(nfa, states, w[i], s, moves[0]);
        ClosureClosed(nfa, Inner, Hits(nfa, states, w[i]));
        RunIsAccepted(nfa, StepSet(nfa, states, w[i]), arc.to, moves[1..], w, i + 1, ended);
      }
    }
  }

  /** Free arcs that are allowed here can be put before a run. */
  lemma {:induction false} PrependFree(nfa: Nfa, side: Side, u: nat, path: seq<nat>, s: nat, moves: seq<nat>, w: string,
                                       i: nat)
    requires i <= |w| && FreePath(nfa, side, u, path, s) && Run(nfa, s, moves, w, i, true, false)
    requires !side.Terminal? && (side.Initial? ==> i == 0)
    ensures Run(nfa, u, path + moves, w, i, true, false)
    decreases |path|
  {
    if path == [] {
      assert path + moves == moves;
    } else {
      PrependFree(nfa, side, nfa.From(u)[path[0]].to, path[1..], s, moves, w, i);
      assert (path + moves)[1..] == path[1..] + moves;
    }
  }

  /** Free arcs at the end are a run. */
  lemma {:induction false} EndPath(nfa: Nfa, u: nat, path: seq<nat>, s: nat, w: string, ended: bool)
    requires FreePath(nfa, Terminal, u, path, s) && s in nfa.finals
    ensures Run(nfa, u, path, w, |w|, true, ended)
    decreases |path|
  {
    if path != [] {
      EndPath(nfa, nfa.From(u)[path[0]].to, path[1..], s, w, ended);
      EndPath(nfa, nfa.From(u)[path[0]].to, path[1..], s, w, true);
    }
  }

  /** What the set accepts, some member has a run for. */
  lemma {:induction false} AcceptedHasRun(nfa: Nfa, states: set<nat>, w: string, i: nat)
    returns (s: nat, moves: seq<nat>)
    requires i <= |w| && SubsetAccepts(nfa, states, w, i)
    ensures s in states && Run(nfa, s, moves, w, i, true, false)
    decreases |w| - i
  {
    hide Closure, Run;
    if i == |w| {
      var t :| t in Closure(nfa, Terminal, states) && t in nfa.finals;
      var path: seq<nat>;
      s, path := ClosurePath(nfa, Terminal, states, t);
      EndPath(nfa, s, path, t, w, false);
      moves := path;
    } else {
      var c := w[i];
      var t, rest := AcceptedHasRun(nfa, StepSet(nfa, states, c), w, i + 1);
      var u, path := ClosurePath(nfa, Inner, Hits(nfa, states, c), t);
      PrependFree(nfa, Inner, u, path, t, rest, w, i + 1);
      var j: nat;
      s, j :| s in states && j < |nfa.From(s)| && Matches(nfa.From(s)[j].via, c) && Target(nfa, s, j) == u;
      moves := [j] + (path + rest);
      ConsumeStep(nfa, s, j, path + rest, w, i);
    }
  }

  lemma {:induction false} ConsumeStep(nfa: Nfa, s: nat, j: nat, rest: seq<nat>, w: string, i: nat)
    requires i < |w| && j < |nfa.From(s)| && Matches(nfa.From(s)[j].via, w[i])
    requires Run(nfa, nfa.From(s)[j].to, rest, w, i + 1, true, false)
    ensures Run(nfa, s, [j] + rest, w, i, true, false)
  {
    assert ([j] + rest)[1..] == rest;
  }

  lemma ClosurePath(nfa: Nfa, side: Side, initial: set<nat>, t: nat) returns (s: nat, path: seq<nat>)
    requires t in Closure(nfa, side, initial)
    ensures s in initial && FreePath(nfa, side, s, path, t)
  {
    s :| s in initial && Leads(nfa, side, s, t);
    path :| FreePath(nfa, side, s, path, t);
  }

  /** For every string, the subset construction accepts exactly what the NFA has an ordered run for. */
  lemma {:induction false} SubsetIsRun(nfa: Nfa, w: string)
    ensures SubsetAccepts(nfa, InitialSet(nfa), w, 0) <==> HasRun(nfa, w, true)
    ensures w != [] ==> (SubsetAccepts(nfa, InitialSet(nfa), w, 0) <==> HasRun(nfa, w, false))
  {
    hide Closure, Run, SubsetAccepts;
    ClosureClosed(nfa, Initial, {nfa.start});
    if HasRun(nfa, w, true) {
      var moves :| Run(nfa, nfa.start, moves, w, 0, true, false);
      RunIsAccepted(nfa, InitialSet(nfa), nfa.start, moves, w, 0, false);
    }
    if SubsetAccepts(nfa, InitialSet(nfa), w, 0) {
      var s, moves := AcceptedHasRun(nfa, InitialSet(nfa), w, 0);
      var u, path := ClosurePath(nfa, Initial, {nfa.start}, s);
      PrependFree(nfa, Initial, u, path, s, moves, w, 0);
      assert Run(nfa, nfa.start, path + moves, w, 0, true, false);
    }
    if w != [] {
      forall moves
        ensures Run(nfa, nfa.start, moves, w, 0, true, false) <==> Run(nfa, nfa.start, moves, w, 0, false, false)
      {
        OrderOnlyMattersWhenEmpty(nfa, nfa.start, moves, w, 0, false);
      }
    }
  }

  /**
   On the empty string both kinds of anchor hold at the same place. An end anchor in front of a start anchor is then a
   run by position, but the two closures are taken in the fixed order start, end, so the string is not accepted.
   */
  lemma EndBeforeStartIsRejected()
    ensures var nfa := Nfa(0, {2}, [[Arc(EndOfInput, 1)], [Arc(StartOfInput, 2)]]);
            HasRun(nfa, [], false) && !HasRun(nfa, [], true) && !SubsetAccepts(nfa, InitialSet(nfa), [], 0)
  {
    var nfa := Nfa(0, {2}, [[Arc(EndOfInput, 1)], [Arc(StartOfInput, 2)]]);
    assert Run(nfa, 2, [], [], 0, false, true);
    assert [0][1..] == [] && [0, 0][1..] == [0];
    assert nfa.From(1) == [Arc(StartOfInput, 2)] && nfa.From(0) == [Arc(EndOfInput, 1)];
    assert Run(nfa, 1, [0], [], 0, false, true);
    assert Run(nfa, 0, [0, 0], [], 0, false, false);
    forall moves ensures !Run(nfa, 0, moves, [], 0, true, false) {
      if moves != [] {
        assert !Run(nfa, 1, moves[1..], [], 0, true, true);
      }
    }
    SubsetIsRun(nfa, []);
  }

  /** `t` follows `s` without reading anything, crossing any anchors. */
  ghost predicate WeakPath(nfa: Nfa, s: nat, moves: seq<nat>, t: nat)
    decreases |moves|
  {
    if moves == [] then s == t
    else
      && moves[0] < |nfa.From(s)|
      && var arc := nfa.From(s)[moves[0]];
         (arc.via.Epsilon? || StartAnchor(arc.via) || EndAnchor(arc.via)) && WeakPath(nfa, arc.to, moves[1..], t)
  }

  /** No start anchor leaves a state that an end anchor leads to without reading. */
  ghost predicate AnchorsOrdered(nfa: Nfa) {
    forall s: nat, j: nat, moves: seq<nat>, t: nat, k: nat ::
      j < |nfa.From(s)| && EndAnchor(nfa.From(s)[j].via) && WeakPath(nfa, nfa.From(s)[j].to, moves, t) &&
      k < |nfa.From(t)| ==>
        !StartAnchor(nfa.From(t)[k].via)
  }

  /** Then every run by position is ordered: the remainder of a run after an end anchor crosses no start anchor. */
  lemma {:induction false} OrderedNfaRun(nfa: Nfa, s: nat, moves: seq<nat>, ended: bool, a: nat, j: nat, path: seq<nat>)
    requires AnchorsOrdered(nfa) && Run(nfa, s, moves, [], 0, false, ended)
    requires ended ==> j < |nfa.From(a)| && EndAnchor(nfa.From(a)[j].via) && WeakPath(nfa, nfa.From(a)[j].to, path, s)
    ensures Run(nfa, s, moves, [], 0, true, ended)
    decreases |moves|
  {
    if moves != [] {
      hide AnchorsOrdered, WeakPath;
      var k := moves[0];
      var arc := nfa.From(s)[k];
      if ended {
        NoStartAfterEnd(nfa, a, j, path, s, k);
        WeakSnoc(nfa, nfa.From(a)[j].to, path, s, k);
        OrderedNfaRun(nfa, arc.to, moves[1..], true, a, j, path + [k]);
      } else if EndAnchor(arc.via) {
        WeakEmpty(nfa, arc.to);
        OrderedNfaRun(nfa, arc.to, moves[1..], true, s, k, []);
      } else {
        OrderedNfaRun(nfa, arc.to, moves[1..], false, 0, 0, []);
      }
    }
  }

  lemma {:induction false} NoStartAfterEnd(nfa: Nfa, a: nat, j: nat, path: seq<nat>, s: nat, k: nat)
    requires AnchorsOrdered(nfa) && j < |nfa.From(a)| && EndAnchor(nfa.From(a)[j].via)
    requires WeakPath(nfa, nfa.From(a)[j].to, path, s) && k < |nfa.From(s)|
    ensures !StartAnchor(nfa.From(s)[k].via)
  {
    hide WeakPath;
  }

  lemma {:induction false} WeakEmpty(nfa: Nfa, s: nat)
    ensures WeakPath(nfa, s, [], s)
  {
  }

  lemma {:induction false} WeakSnoc(nfa: Nfa, s: nat, moves: seq<nat>, t: nat, k: nat)
    requires WeakPath(nfa, s, moves, t) && k < |nfa.From(t)|
    requires var l := nfa.From(t)[k].via; l.Epsilon? || StartAnchor(l) || EndAnchor(l)
    ensures WeakPath(nfa, s, moves + [k], nfa.From(t)[k].to)
    decreases |moves|
  {
    if moves == [] {
      assert moves + [k] == [k];
    } else {
      WeakSnoc(nfa, nfa.From(s)[moves[0]].to, moves[1..], t, k);
      assert (moves + [k])[1..] == moves[1..] + [k];
    }
  }

  /** `moves` lead from `s` to a final state without reading anything, crossing any anchors in any order. */
  ghost predicate SkipsBy(nfa: Nfa, s: nat, moves: seq<nat>) {
    exists t :: WeakPath(nfa, s, moves, t) && t in nfa.finals
  }

  ghost predicate SkipsToFinal(nfa: Nfa) { exists moves :: SkipsBy(nfa, nfa.start, moves) }

  /** On the empty string, runs by position are the ways to skip to a final state. */
  lemma {:induction false} EmptyRunSkips(nfa: Nfa, s: nat, moves: seq<nat>, ended: bool)
    ensures Run(nfa, s, moves, [], 0, false, ended) <==> SkipsBy(nfa, s, moves)
    decreases |moves|
  {
    if moves == [] {
      assert WeakPath(nfa, s, moves, s);
    } else if moves[0] < |nfa.From(s)| {
      var arc := nfa.From(s)[moves[0]];
      EmptyRunSkips(nfa, arc.to, moves[1..], if EndAnchor(arc.via) then true else ended);
      EmptyRunSkips(nfa, arc.to, moves[1..], ended);
      assert forall t :: WeakPath(nfa, s, moves, t) ==> WeakPath(nfa, arc.to, moves[1..], t);
    }
  }

  lemma {:induction false} EmptyHasRun(nfa: Nfa)
    ensures HasRun(nfa, [], false) <==> SkipsToFinal(nfa)
  {
    hide Run, SkipsBy;
    forall moves ensures Run(nfa, nfa.start, moves, [], 0, false, false) <==> SkipsBy(nfa, nfa.start, moves) {
      EmptyRunSkips(nfa, nfa.start, moves, false);
    }
  }

  /**
   The subset construction decides a string by position exactly if it is not empty, or no final state can be skipped to,
   or one can be reached over the start anchors first and the end anchors after them.
   */
  lemma {:induction false} PositionsDecideExactly(nfa: Nfa, w: string)
    ensures (SubsetAccepts(nfa, InitialSet(nfa), w, 0) <==> HasRun(nfa, w, false)) <==>
            (w != [] || !SkipsToFinal(nfa) || EndsFinal(nfa, InitialSet(nfa)))
  {
    hide Run, WeakPath, Closure, SkipsToFinal, EndsFinal;
    SubsetIsRun(nfa, w);
    if w == [] {
      EmptyHasRun(nfa);
      forall moves | Run(nfa, nfa.start, moves, [], 0, true, false) ensures HasRun(nfa, [], false) {
        OrderedIsRun(nfa, nfa.start, moves, false);
      }
    }
  }

  /** For an NFA as a whole: it is decided by position on every string exactly if the empty string is. */
  lemma {:induction false} AlwaysByPosition(nfa: Nfa)
    ensures (forall w :: SubsetAccepts(nfa, InitialSet(nfa), w, 0) <==> HasRun(nfa, w, false)) <==>
            (SkipsToFinal(nfa) ==> EndsFinal(nfa, InitialSet(nfa)))
  {
    hide SubsetAccepts, HasRun, SkipsToFinal, EndsFinal, InitialSet;
    forall w: string
      ensures (SubsetAccepts(nfa, InitialSet(nfa), w, 0) <==> HasRun(nfa, w, false)) <==>
              (w != [] || !SkipsToFinal(nfa) || EndsFinal(nfa, InitialSet(nfa)))
    {
      PositionsDecideExactly(nfa, w);
    }
    PositionsDecideExactly(nfa, []);
  }

  /** Ordered anchors are enough for that: every way to skip to a final state then crosses start anchors first. */
  lemma {:induction false} OrderedAnchorsSuffice(nfa: Nfa)
    requires AnchorsOrdered(nfa)
    ensures SkipsToFinal(nfa) ==> EndsFinal(nfa, InitialSet(nfa))
    ensures forall w :: SubsetAccepts(nfa, InitialSet(nfa), w, 0) <==> HasRun(nfa, w, false)
  {
    hide SubsetAccepts, Run, AnchorsOrdered, SkipsToFinal, EndsFinal;
    SubsetIsRun(nfa, []);
    EmptyHasRun(nfa);
    forall moves | Run(nfa, nfa.start, moves, [], 0, false, false) ensures HasRun(nfa, [], true) {
      OrderedNfaRun(nfa, nfa.start, moves, false, 0, 0, []);
    }
    PositionsDecideExactly(nfa, []);
    AlwaysByPosition(nfa);
  }

  /** Ordered anchors are not necessary: here the state behind the pair of anchors is no way to a final state. */
  lemma OrderedAnchorsNotNeeded()
    ensures var nfa := Nfa(0, {0}, [[Arc(EndOfInput, 1)], [Arc(StartOfInput, 2)]]);
            !AnchorsOrdered(nfa) && forall w :: SubsetAccepts(nfa, InitialSet(nfa), w, 0) <==> HasRun(nfa, w, false)
  {
    var nfa := Nfa(0, {0}, [[Arc(EndOfInput, 1)], [Arc(StartOfInput, 2)]]);
    EndThenStart(nfa);
    StartEndsFinal(nfa);
    hide SkipsToFinal, EndsFinal, SubsetAccepts, HasRun, AnchorsOrdered, InitialSet;
    AlwaysByPosition(nfa);
  }

  lemma EndThenStart(nfa: Nfa)
    requires nfa.From(0) == [Arc(EndOfInput, 1)] && nfa.From(1) == [Arc(StartOfInput, 2)]
    ensures !AnchorsOrdered(nfa)
  {
    WeakEmpty(nfa, 1);
    if AnchorsOrdered(nfa) {
      NoStartAfterEnd(nfa, 0, 0, [], 1, 0);
    }
  }

  lemma StartEndsFinal(nfa: Nfa)
    requires nfa.start in nfa.finals
    ensures EndsFinal(nfa, InitialSet(nfa))
  {
    hide Closure;
    ClosureClosed(nfa, Initial, {nfa.start});
    ClosureClosed(nfa, Terminal, InitialSet(nfa));
  }

  lemma {:induction false} OrderedIsRun(nfa: Nfa, s: nat, moves: seq<nat>, ended: bool)
    requires Run(nfa, s, moves, [], 0, true, ended)
    ensures Run(nfa, s, moves, [], 0, false, ended)
    decreases |moves|
  {
    if moves != [] {
      var arc := nfa.From(s)[moves[0]];
      OrderedIsRun(nfa, arc.to, moves[1..], if EndAnchor(arc.via) then true else ended);
    }
  }
}
