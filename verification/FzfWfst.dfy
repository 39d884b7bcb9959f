/**
 The max-plus state source over dictionary prefixes (src/fzf_state_source.rs, src/fzf_state_support.rs): arcs carry
 score deltas, which telescope to the exact score of the path.
 */
module FzfWfst {
  import opened Common
  import opened Dictionary
  import opened NodeRegistry
  import opened FzfCore
  import opened FzfBound

  datatype RegisteredState = RegisteredState(node: Trie, column: Column, pathScore: int)

  datatype Transition = Transition(from: nat, symbol: char, to: nat, delta: int)

  function ScoreOrZero(best: Option<int>): int { if best.Some? then best.value else 0 }

  /** The best complete score inside a candidate, zero while there is none. */
  function PathScore(core: Core, path: string): int { ScoreOrZero(ColumnOf(core, path).best) }

  /** Scores never fall as the candidate grows, and stay `i32`s. */
  lemma PathScoreGrows(core: Core, path: string, c: char)
    ensures 0 <= PathScore(core, path) <= PathScore(core, path + [c]) <= I32_MAX
    ensures PathScore(core, []) == 0
  {
    FoldSnoc(core, path, c);
    SaneFold(core, core.InitialColumn(), path);
    SaneAdvance(core, ColumnOf(core, path), c);
  }

  /** Each ID denotes one dictionary path, and its column is the fold of `advance` over that path. */
  ghost predicate Registered(root: Trie, core: Core, steps: seq<Step>, states: seq<RegisteredState>) {
    && Ordered(steps) && Distinct(steps) && |states| == |steps| <= U32_MAX + 1
    && forall id :: 0 <= id < |steps| ==> StateDenotes(root, core, PathOf(steps, id), states[id])
  }

  ghost predicate StateDenotes(root: Trie, core: Core, path: string, s: RegisteredState) {
    && Walk(root, path) == Some(s.node) && s.column == ColumnOf(core, path)
    && s.pathScore == PathScore(core, path)
  }

  /** A transition between two registered paths, one symbol apart, carrying the growth of the score. */
  ghost predicate IsArc(core: Core, steps: seq<Step>, t: Transition)
    requires Ordered(steps)
  {
    && t.from < |steps| && t.to < |steps| && steps[t.to] == Child(t.from, t.symbol)
    && t.delta == PathScore(core, PathOf(steps, t.to)) - PathScore(core, PathOf(steps, t.from))
  }

  /** Registering more states keeps old transitions. */
  lemma ArcStable(core: Core, steps: seq<Step>, more: seq<Step>, t: Transition)
    requires Ordered(steps) && Ordered(more) && steps <= more && IsArc(core, steps, t)
    ensures IsArc(core, more, t)
  {
    PathStable(steps, more, t.from);
    PathStable(steps, more, t.to);
  }

  /** Consecutive transitions from state 0 to `last`. */
  ghost predicate Run(core: Core, steps: seq<Step>, ts: seq<Transition>, last: nat)
    requires Ordered(steps)
    decreases |ts|
  {
    if ts == [] then last == 0
    else
      var t := ts[|ts| - 1];
      IsArc(core, steps, t) && t.to == last && Run(core, steps, ts[..|ts| - 1], t.from)
  }

  function TotalWeight(ts: seq<Transition>): int {
    if ts == [] then 0 else TotalWeight(ts[..|ts| - 1]) + ts[|ts| - 1].delta
  }

  function Labels(ts: seq<Transition>): string {
    if ts == [] then [] else Labels(ts[..|ts| - 1]) + [ts[|ts| - 1].symbol]
  }

  /**
   In every registry state: the deltas along any path are non-negative and sum to the path's exact score, and the
   path's labels are the dictionary path of its last state.
   */
  lemma {:induction false} DeltasTelescope(core: Core, steps: seq<Step>, ts: seq<Transition>, last: nat)
    requires Ordered(steps) && Run(core, steps, ts, last)
    ensures last < |steps| && Labels(ts) == PathOf(steps, last)
    ensures TotalWeight(ts) == PathScore(core, Labels(ts))
    ensures forall i :: 0 <= i < |ts| ==> 0 <= ts[i].delta <= I32_MAX
    decreases |ts|
  {
    if ts == [] {
      PathScoreGrows(core, [], 'a');
    } else {
      var t, init := ts[|ts| - 1], ts[..|ts| - 1];
      DeltasTelescope(core, steps, init, t.from);
      assert t.to != 0;
      PathScoreGrows(core, PathOf(steps, t.from), t.symbol);
      forall i | 0 <= i < |ts| ensures 0 <= ts[i].delta <= I32_MAX {
        if i < |init| { assert ts[i] == init[i]; }
      }
    }
  }

  ghost predicate HasSymbol(ts: seq<Transition>, c: char) { exists j :: 0 <= j < |ts| && ts[j].symbol == c }

  class FzfStateSource {
    const core: Core
    const root: Trie
    var childToId: map<(nat, char), nat>
    var states: seq<RegisteredState>
    ghost var steps: seq<Step>

    ghost predicate Valid()
      reads this
    {
      && WellFormed(root) && Ordered(steps) && |states| == |steps| && Registered(root, core, steps, states)
      && (forall id :: 1 <= id < |steps| ==>
            (steps[id].parent, steps[id].symbol) in childToId && childToId[(steps[id].parent, steps[id].symbol)] == id)
      && (forall key :: key in childToId ==> childToId[key] < |steps| && steps[childToId[key]] == Child(key.0, key.1))
    }

    constructor (root: Trie, core: Core)
      requires WellFormed(root)
      ensures Valid() && this.root == root && this.core == core && steps == [Root]
    {
      this.root := root;
      this.core := core;
      childToId := map[];
      states := [RegisteredState(root, core.InitialColumn(), ScoreOrZero(core.InitialColumn().best))];
      steps := [Root];
    }

    /** A known child keeps its ID; a new one gets the next, unless `u32` is exhausted. */
    method RegisterChild(parent: nat, edge: nat, column: Column) returns (id: Option<nat>)
      requires Valid() && parent < |steps| && edge < |states[parent].node.edges|
      requires column == Advance(core, states[parent].column, states[parent].node.edges[edge].symbol)
      modifies this`childToId, this`states, this`steps
      ensures Valid() && old(steps) <= steps && old(states) <= states && |steps| <= old(|steps|) + 1
      ensures id.Some? ==>
                id.value < |steps| && steps[id.value] == Child(parent, states[parent].node.edges[edge].symbol)
      ensures old(|steps|) <= U32_MAX || |steps| <= U32_MAX ==> id.Some?
    {
      hide Fold, Walk, Advance;
      var e := states[parent].node.edges[edge];
      if (parent, e.symbol) in childToId {
        return Some(childToId[(parent, e.symbol)]);
      }
      if |states| > U32_MAX {
        return None;
      }
      id := Some(|states|);
      ghost var before := steps;
      RegisterKeeps(root, core, steps, states, parent, edge);
      childToId := childToId[(parent, e.symbol) := id.value];
      states := states + [RegisteredState(e.child, column, ScoreOrZero(column.best))];
      steps := steps + [Child(parent, e.symbol)];
    }

    /** `expand_state`: an unregistered state is refused and changes nothing. */
    method ExpandState(state: nat) returns (r: Option<(bool, seq<Transition>)>)
      requires Valid()
      modifies this`childToId, this`states, this`steps
      ensures Valid() && old(steps) <= steps && old(states) <= states
      ensures r.Some? <==> state < |old(steps)|
      ensures r.None? ==> steps == old(steps) && states == old(states)
      ensures r.Some? ==>
                var path := PathOf(steps, state);
                && (r.value.0 <==> Contains(root, path) && Subsequence(core.query, FoldAll(core, path)))
                && (forall j :: 0 <= j < |r.value.1| ==>
                    r.value.1[j].from == state && IsArc(core, steps, r.value.1[j]) && r.value.1[j].delta >= 0)
                && (|steps| <= U32_MAX ==>
                      forall i :: 0 <= i < |states[state].node.edges| ==>
                          HasSymbol(r.value.1, states[state].node.edges[i].symbol))
    {
      if state >= |states| {
        return None;
      }
      var isFinal, ts := Expand(state);
      if |steps| <= U32_MAX {
        forall i | 0 <= i < |states[state].node.edges| ensures HasSymbol(ts, states[state].node.edges[i].symbol) {
          assert ts[i].symbol == states[state].node.edges[i].symbol;
        }
      }
      return Some((isFinal, ts));
    }

    /**
     `compute_registered_state`: final exactly for terms that match; one arc per edge whose child has an ID, each with
     the non-negative growth of the exact score.
     */
    method Expand(state: nat) returns (isFinal: bool, ts: seq<Transition>)
      requires Valid() && state < |steps|
      modifies this`childToId, this`states, this`steps
      ensures Valid() && old(steps) <= steps && old(states) <= states
      ensures isFinal <==> var path := PathOf(steps, state);
                           Contains(root, path) && Subsequence(core.query, FoldAll(core, path))
      ensures forall j :: 0 <= j < |ts| ==> ts[j].from == state && IsArc(core, steps, ts[j]) && ts[j].delta >= 0
      ensures old(|steps|) + |states[state].node.edges| <= U32_MAX + 1 || |steps| <= U32_MAX ==>
                && |ts| == |states[state].node.edges|
                && forall j :: 0 <= j < |ts| ==> ts[j].symbol == states[state].node.edges[j].symbol
    {
      hide Fold, Walk, Subsequence, Registered, IsArc, PathScore, Advance, Contains, FoldAll;
      var registered := states[state];
      ColumnSized(root, core, steps, states, state);
      ts := [];
      for i := 0 to |registered.node.edges|
        invariant Valid() && old(steps) <= steps && old(states) <= states
        invariant |steps| <= old(|steps|) + i
        invariant forall j :: 0 <= j < |ts| ==> ts[j].from == state && IsArc(core, steps, ts[j]) && ts[j].delta >= 0
        invariant old(|steps|) + |registered.node.edges| <= U32_MAX + 1 || |steps| <= U32_MAX ==>
                    && |ts| == i && forall j :: 0 <= j < |ts| ==> ts[j].symbol == registered.node.edges[j].symbol
      {
        var c := registered.node.edges[i].symbol;
        var column := AdvanceColumn(core, registered.column, c);
        var delta := ScoreOrZero(column.best) - registered.pathScore;
        ghost var before := steps;
        var child := RegisterChild(state, i, column);
        forall j | 0 <= j < |ts| ensures IsArc(core, steps, ts[j]) {
          ArcStable(core, before, steps, ts[j]);
        }
        if child.Some? {
          ArcOfChild(root, core, steps, states, state, c, column, child.value);
          ts := ts + [Transition(state, c, child.value, delta)];
        }
      }
      isFinal := registered.node.isFinal && registered.column.best.Some?;
      FinalMeans(root, core, steps, states, state);
    }
  }

  lemma ColumnSized(root: Trie, core: Core, steps: seq<Step>, states: seq<RegisteredState>, state: nat)
    requires Registered(root, core, steps, states) && state < |steps|
    ensures |states[state].column.cells| == |core.query|
  {
    assert StateDenotes(root, core, PathOf(steps, state), states[state]);
  }

  lemma {:induction false} RegisterKeeps(root: Trie, core: Core, steps: seq<Step>, states: seq<RegisteredState>,
                                         parent: nat, edge: nat)
    requires WellFormed(root) && Registered(root, core, steps, states) && |steps| <= U32_MAX
    requires parent < |steps| && edge < |states[parent].node.edges|
    requires Child(parent, states[parent].node.edges[edge].symbol) !in steps
    ensures var e := states[parent].node.edges[edge];
            var column := Advance(core, states[parent].column, e.symbol);
            Registered(root, core, steps + [Child(parent, e.symbol)],
                       states + [RegisteredState(e.child, column, ScoreOrZero(column.best))])
  {
    hide Fold, Walk, Advance;
    var e := states[parent].node.edges[edge];
    var column := Advance(core, states[parent].column, e.symbol);
    var more, states' :=
      steps + [Child(parent, e.symbol)], states + [RegisteredState(e.child, column, ScoreOrZero(column.best))];
    forall id | 0 <= id < |more| ensures StateDenotes(root, core, PathOf(more, id), states'[id]) {
      if id < |steps| {
        PathStable(steps, more, id);
      } else {
        PathStable(steps, more, parent);
        var path := PathOf(steps, parent);
        assert StateDenotes(root, core, path, states[parent]);
        WalkWellFormed(root, path);
        WalkEdge(root, path, states[parent].node, edge);
        FoldSnoc(core, path, e.symbol);
      }
    }
  }

  lemma ArcOfChild(root: Trie, core: Core, steps: seq<Step>, states: seq<RegisteredState>, state: nat, c: char,
                   column: Column, child: nat)
    requires Registered(root, core, steps, states) && state < |steps| && child < |steps|
    requires steps[child] == Child(state, c)
    requires column == Advance(core, states[state].column, c)
    ensures var t := Transition(state, c, child, ScoreOrZero(column.best) - states[state].pathScore);
            IsArc(core, steps, t) && t.delta >= 0
  {
    hide Fold, Walk, Advance;
    assert child != 0;
    assert StateDenotes(root, core, PathOf(steps, state), states[state]);
    FoldSnoc(core, PathOf(steps, state), c);
    PathScoreGrows(core, PathOf(steps, state), c);
  }

  lemma {:induction false} FinalMeans(root: Trie, core: Core, steps: seq<Step>, states: seq<RegisteredState>,
                                      state: nat)
    requires Registered(root, core, steps, states) && state < |steps|
    ensures states[state].node.isFinal && states[state].column.best.Some? <==>
            Contains(root, PathOf(steps, state)) && Subsequence(core.query, FoldAll(core, PathOf(steps, state)))
  {
    hide Fold, Subsequence;
    assert StateDenotes(root, core, PathOf(steps, state), states[state]);
    ScoredIffSubsequence(core, PathOf(steps, state));
  }
}
