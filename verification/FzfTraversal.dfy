/** What traversals of the fzf state source accept, through state IDs and with the registry growing underneath. */
module FzfTraversal {
  import opened Common
  import opened Dictionary
  import opened NodeRegistry
  import opened FzfCore
  import opened FzfBound
  import opened FzfWfst

  /**
   A state of the shared registry. `moment` counts lock sections, so that two expansions of one state are told apart
   even if nothing was registered in between.
   */
  datatype Snapshot = Snapshot(moment: nat, steps: seq<Step>, nodes: seq<Trie>)

  datatype Answer = Answer(at: Snapshot, isFinal: bool, ts: seq<Transition>)

  type Expander = (Snapshot, nat) -> Answer

  /** A dictionary path that the query matches. */
  ghost predicate Accepted(core: Core, root: Trie, path: string) {
    Contains(root, path) && Subsequence(core.query, FoldAll(core, path))
  }

  /** The contract of `ExpandState` for a registered state. */
  ghost predicate IsExpansion(core: Core, root: Trie, snap: Snapshot, state: nat, isFinal: bool, ts: seq<Transition>) {
    && Denotes(root, snap.steps, snap.nodes) && state < |snap.steps|
    && (isFinal <==> Accepted(core, root, PathOf(snap.steps, state)))
    && (forall j :: 0 <= j < |ts| ==> ts[j].from == state && IsArc(core, snap.steps, ts[j]))
    && (|snap.steps| <= U32_MAX ==>
          forall i :: 0 <= i < |snap.nodes[state].edges| ==> HasSymbol(ts, snap.nodes[state].edges[i].symbol))
  }

  /** What that contract allows, with arbitrary registrations of other clones in between. */
  ghost predicate Permitted(core: Core, root: Trie, snap: Snapshot, state: nat, a: Answer) {
    && snap.moment < a.at.moment && snap.steps <= a.at.steps && snap.nodes <= a.at.nodes
    && IsExpansion(core, root, a.at, state, a.isFinal, a.ts)
  }

  ghost predicate Honest(core: Core, root: Trie, expand: Expander) {
    forall snap: Snapshot, state: nat :: Denotes(root, snap.steps, snap.nodes) && state < |snap.steps| ==>
      Permitted(core, root, snap, state, expand(snap, state))
  }

  /** A registry in which the first `n` children of a node are registered. */
  lemma {:induction false} RegisterFirst(root: Trie, steps: seq<Step>, nodes: seq<Trie>, state: nat, n: nat)
    returns (steps': seq<Step>, nodes': seq<Trie>)
    requires WellFormed(root) && Denotes(root, steps, nodes) && state < |nodes| && n <= |nodes[state].edges|
    ensures Denotes(root, steps', nodes') && steps <= steps' && nodes <= nodes'
    ensures forall i :: 0 <= i < n ==> Child(state, nodes[state].edges[i].symbol) in steps'
  {
    hide WellFormed, Walk;
    if n == 0 {
      steps', nodes' := steps, nodes;
    } else {
      steps', nodes' := RegisterFirst(root, steps, nodes, state, n - 1);
      var e := nodes[state].edges[n - 1];
      if Child(state, e.symbol) !in steps' {
        DenotesSnoc(root, steps', nodes', state, n - 1);
        steps', nodes' := steps' + [Child(state, e.symbol)], nodes' + [e.child];
      }
    }
  }

  /** The arc into a registered child. */
  ghost function ArcTo(core: Core, steps: seq<Step>, state: nat, symbol: char): (t: Transition)
    requires Ordered(steps) && state < |steps| && Child(state, symbol) in steps
    ensures t.from == state && t.symbol == symbol && IsArc(core, steps, t)
  {
    var id :| 0 <= id < |steps| && steps[id] == Child(state, symbol);
    Transition(state, symbol, id, PathScore(core, PathOf(steps, id)) - PathScore(core, PathOf(steps, state)))
  }

  /** Every state of every registry has a permitted answer. */
  lemma {:induction false} AnswerExists(core: Core, root: Trie, snap: Snapshot, state: nat) returns (a: Answer)
    requires WellFormed(root) && Denotes(root, snap.steps, snap.nodes) && state < |snap.steps|
    ensures Permitted(core, root, snap, state, a)
  {
    hide WellFormed, Walk, IsArc, PathScore, Accepted;
    var edges := snap.nodes[state].edges;
    var steps, nodes := RegisterFirst(root, snap.steps, snap.nodes, state, |edges|);
    var ts := seq(|edges|, i requires 0 <= i < |edges| => ArcTo(core, steps, state, edges[i].symbol));
    forall i | 0 <= i < |edges| ensures HasSymbol(ts, edges[i].symbol) {
      assert ts[i].symbol == edges[i].symbol;
    }
    a := Answer(Snapshot(snap.moment + 1, steps, nodes), Accepted(core, root, PathOf(steps, state)), ts);
  }

  ghost function SomeAnswer(core: Core, root: Trie, snap: Snapshot, state: nat): Answer {
    if exists a :: Permitted(core, root, snap, state, a) then
      var a :| Permitted(core, root, snap, state, a);
      a
    else Answer(snap, false, [])
  }

  /** There are honest expanders. */
  lemma {:induction false} HonestExists(core: Core, root: Trie)
    requires WellFormed(root)
    ensures exists expand: Expander :: Honest(core, root, expand)
  {
    hide Permitted, Denotes, WellFormed;
    var expand: Expander := (snap: Snapshot, state: nat) => SomeAnswer(core, root, snap, state);
    forall snap: Snapshot, state: nat | Denotes(root, snap.steps, snap.nodes) && state < |snap.steps|
      ensures Permitted(core, root, snap, state, expand(snap, state))
    {
      var a := AnswerExists(core, root, snap, state);
    }
    assert Honest(core, root, expand);
  }

  ghost function Arrive(expand: Expander, snap: Snapshot, state: nat, picks: seq<nat>): Option<(Snapshot, nat)>
    decreases |picks|
  {
    var a := expand(snap, state);
    if picks == [] then Some((snap, state))
    else if picks[0] < |a.ts| then Arrive(expand, a.at, a.ts[picks[0]].to, picks[1..])
    else None
  }

  ghost predicate RoomAt(expand: Expander, snap: Snapshot, state: nat, picks: seq<nat>) {
    var there := Arrive(expand, snap, state, picks);
    there.Some? ==> |expand(there.value.0, there.value.1).at.steps| <= U32_MAX
  }

  /** No expansion of a traversal from here uses up the IDs. */
  ghost predicate Roomy(expand: Expander, snap: Snapshot, state: nat) {
    forall picks :: RoomAt(expand, snap, state, picks)
  }

  lemma {:induction false} RoomyStep(expand: Expander, snap: Snapshot, state: nat, j: nat)
    requires Roomy(expand, snap, state) && j < |expand(snap, state).ts|
    ensures Roomy(expand, expand(snap, state).at, expand(snap, state).ts[j].to)
  {
    var a := expand(snap, state);
    forall picks ensures RoomAt(expand, a.at, a.ts[j].to, picks) {
      assert RoomAt(expand, snap, state, [j] + picks);
      assert ([j] + picks)[1..] == picks;
    }
  }

  lemma {:induction false} RoomHere(expand: Expander, snap: Snapshot, state: nat)
    requires Roomy(expand, snap, state)
    ensures |expand(snap, state).at.steps| <= U32_MAX
  {
    assert RoomAt(expand, snap, state, []);
  }

  /** Following `picks` accepts, spelling `term` on both sides with deltas that sum to `weight`. */
  ghost predicate Finds(expand: Expander, snap: Snapshot, state: nat, picks: seq<nat>, term: string, weight: int)
    decreases |picks|
  {
    var a := expand(snap, state);
    if picks == [] then term == [] && a.isFinal && weight == 0
    else
      && picks[0] < |a.ts| && term != [] && a.ts[picks[0]].symbol == term[0]
      && Finds(expand, a.at, a.ts[picks[0]].to, picks[1..], term[1..], weight - a.ts[picks[0]].delta)
  }

  /** What honesty says of one expansion; the path of a state never changes. */
  lemma {:induction false} ExpandStep(core: Core, root: Trie, expand: Expander, snap: Snapshot, state: nat)
    requires Honest(core, root, expand) && Denotes(root, snap.steps, snap.nodes) && state < |snap.steps|
    ensures var a := expand(snap, state);
            && IsExpansion(core, root, a.at, state, a.isFinal, a.ts)
            && PathOf(a.at.steps, state) == PathOf(snap.steps, state) && a.at.nodes[state] == snap.nodes[state]
  {
    hide IsArc, HasSymbol, Accepted;
    PathStable(snap.steps, expand(snap, state).at.steps, state);
  }

  /** An arc leads one symbol further and carries the growth of the score. */
  lemma {:induction false} ArcStep(core: Core, root: Trie, snap: Snapshot, state: nat, isFinal: bool,
                                   ts: seq<Transition>, j: nat)
    requires IsExpansion(core, root, snap, state, isFinal, ts) && j < |ts|
    ensures var t, path := ts[j], PathOf(snap.steps, state);
            && t.to < |snap.steps| && PathOf(snap.steps, t.to) == path + [t.symbol]
            && t.delta == PathScore(core, path + [t.symbol]) - PathScore(core, path)
  {
    hide PathScore, Accepted, HasSymbol;
    assert ts[j].from == state && IsArc(core, snap.steps, ts[j]);
    assert ts[j].to != 0;
  }

  /** Whatever is found from a state extends its path to a matching term, at the growth of the score. */
  lemma {:induction false} FindsIsMatch(core: Core, root: Trie, expand: Expander, snap: Snapshot, state: nat,
                                        picks: seq<nat>, term: string, weight: int)
    requires Honest(core, root, expand) && Denotes(root, snap.steps, snap.nodes) && state < |snap.steps|
    requires Finds(expand, snap, state, picks, term, weight)
    ensures var path := PathOf(snap.steps, state);
            Accepted(core, root, path + term) && weight == PathScore(core, path + term) - PathScore(core, path)
    decreases |picks|
  {
    hide Honest, PathScore, Accepted, IsArc, HasSymbol, PathOf, Walk;
    ExpandStep(core, root, expand, snap, state);
    var a, path := expand(snap, state), PathOf(snap.steps, state);
    if picks == [] {
      assert path + [] == path;
    } else {
      ArcStep(core, root, a.at, state, a.isFinal, a.ts, picks[0]);
      var t := a.ts[picks[0]];
      FindsIsMatch(core, root, expand, a.at, t.to, picks[1..], term[1..], weight - t.delta);
      assert path + [t.symbol] + term[1..] == path + term;
    }
  }

  /** Every matching term below a state is found. */
  lemma {:induction false} MatchIsFound(core: Core, root: Trie, expand: Expander, snap: Snapshot, state: nat,
                                        term: string)
    returns (picks: seq<nat>)
    requires WellFormed(root) && Honest(core, root, expand) && Roomy(expand, snap, state)
    requires Denotes(root, snap.steps, snap.nodes) && state < |snap.steps|
    requires Accepted(core, root, PathOf(snap.steps, state) + term)
    ensures var path := PathOf(snap.steps, state);
            Finds(expand, snap, state, picks, term, PathScore(core, path + term) - PathScore(core, path))
    decreases |term|
  {
    hide Honest, Roomy, PathScore, Accepted, IsArc, PathOf, Walk, WellFormed;
    ExpandStep(core, root, expand, snap, state);
    var a, path := expand(snap, state), PathOf(snap.steps, state);
    if term == [] {
      assert path + [] == path;
      picks := [];
    } else {
      var i := NextEdge(core, root, a.at, state, term);
      RoomHere(expand, snap, state);
      assert HasSymbol(a.ts, a.at.nodes[state].edges[i].symbol);
      var j: nat :| j < |a.ts| && a.ts[j].symbol == term[0];
      ArcStep(core, root, a.at, state, a.isFinal, a.ts, j);
      RoomyStep(expand, snap, state, j);
      assert path + [term[0]] + term[1..] == path + term;
      var rest := MatchIsFound(core, root, expand, a.at, a.ts[j].to, term[1..]);
      picks := [j] + rest;
      assert picks[1..] == rest;
    }
  }

  /** Wherever a traversal arrives, the registry denotes the dictionary and the state is registered. */
  lemma {:induction false} ArriveInside(core: Core, root: Trie, expand: Expander, snap: Snapshot, state: nat,
                                        picks: seq<nat>)
    requires Honest(core, root, expand) && Denotes(root, snap.steps, snap.nodes) && state < |snap.steps|
    requires Arrive(expand, snap, state, picks).Some?
    ensures var there := Arrive(expand, snap, state, picks).value;
            Denotes(root, there.0.steps, there.0.nodes) && there.1 < |there.0.steps|
    decreases |picks|
  {
    hide Honest, PathScore, Accepted, IsArc, HasSymbol, PathOf, Walk;
    if picks != [] {
      ExpandStep(core, root, expand, snap, state);
      var a := expand(snap, state);
      ArcStep(core, root, a.at, state, a.isFinal, a.ts, picks[0]);
      ArriveInside(core, root, expand, a.at, a.ts[picks[0]].to, picks[1..]);
    }
  }

  /** IDs last if the dictionary has no more paths than there are IDs for them, whatever the clones do. */
  lemma {:induction false} SmallIsRoomy(core: Core, root: Trie, expand: Expander)
    requires Honest(core, root, expand) && |Paths(root)| <= U32_MAX
    ensures Roomy(expand, Snapshot(0, [Root], [root]), 0)
  {
    hide Honest, IsArc, Accepted, HasSymbol, Walk, PathOf;
    var start := Snapshot(0, [Root], [root]);
    StartDenotes(root);
    forall picks ensures RoomAt(expand, start, 0, picks) {
      if Arrive(expand, start, 0, picks).Some? {
        ArriveInside(core, root, expand, start, 0, picks);
        var there := Arrive(expand, start, 0, picks).value;
        ExpandStep(core, root, expand, there.0, there.1);
        var at := expand(there.0, there.1).at;
        RegistryBounded(root, at.steps, at.nodes);
      }
    }
  }

  /** The next symbol of a term below a state is one of its node's edges. */
  lemma {:induction false} NextEdge(core: Core, root: Trie, snap: Snapshot, state: nat, term: string) returns (i: nat)
    requires Denotes(root, snap.steps, snap.nodes) && state < |snap.steps| && term != []
    requires Accepted(core, root, PathOf(snap.steps, state) + term)
    ensures i < |snap.nodes[state].edges| && snap.nodes[state].edges[i].symbol == term[0]
  {
    hide Subsequence, FoldAll;
    var path := PathOf(snap.steps, state);
    WalkAppend(root, path, term);
    assert Walk(root, path) == Some(snap.nodes[state]);
    i := Find(snap.nodes[state].edges, term[0]).value;
  }

  ghost predicate CanFind(expand: Expander, root: Trie, term: string, weight: int) {
    exists picks :: Finds(expand, Snapshot(0, [Root], [root]), 0, picks, term, weight)
  }

  /**
   However clones interleave, the source accepts only matching dictionary terms, each at its exact score and no other
   weight; and while IDs last it accepts every one of them. They last in every dictionary of at most `u32::MAX` paths.
   */
  lemma {:induction false} ScoresAreExact(core: Core, root: Trie, expand: Expander, term: string, weight: int)
    requires WellFormed(root) && Honest(core, root, expand)
    ensures CanFind(expand, root, term, weight) ==>
              Accepted(core, root, term) && ColumnOf(core, term).best == Some(weight)
    ensures Roomy(expand, Snapshot(0, [Root], [root]), 0) && Accepted(core, root, term) ==>
              ColumnOf(core, term).best.Some? && CanFind(expand, root, term, ColumnOf(core, term).best.value)
    ensures |Paths(root)| <= U32_MAX ==>
              (CanFind(expand, root, term, weight) <==>
               Accepted(core, root, term) && ColumnOf(core, term).best == Some(weight))
  {
    hide Finds, Honest, Roomy, Fold, WellFormed, Subsequence, Contains;
    var start := Snapshot(0, [Root], [root]);
    StartDenotes(root);
    ScoredIffSubsequence(core, term);
    PathScoreGrows(core, [], 'a');
    assert PathOf(start.steps, 0) + term == term;
    if CanFind(expand, root, term, weight) {
      var picks :| Finds(expand, start, 0, picks, term, weight);
      FindsIsMatch(core, root, expand, start, 0, picks, term, weight);
    }
    if |Paths(root)| <= U32_MAX { SmallIsRoomy(core, root, expand); }
    if Roomy(expand, start, 0) && Accepted(core, root, term) {
      var picks := MatchIsFound(core, root, expand, start, 0, term);
    }
  }

  lemma {:induction false} StartDenotes(root: Trie)
    ensures Denotes(root, [Root], [root]) && PathOf([Root], 0) == []
  {
  }
}
