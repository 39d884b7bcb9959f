/**
 Traversals of the lazy source that see nothing but state IDs, transitions and final weights, with the shared
 registry growing underneath them.
 */
module LevenshteinTraversal {
  import opened Common
  import opened Labels
  import opened Dictionary
  import opened NodeRegistry
  import opened LevenshteinCodec
  import opened EditDistance
  import opened LevenshteinGraph
  import opened LevenshteinSource

  /**
   A state of the shared node registry. `moment` counts lock sections, so that two expansions of one state are told
   apart even if nothing was registered in between.
   */
  datatype Snapshot = Snapshot(moment: nat, steps: seq<Step>, nodes: seq<Trie>)

  /** An expansion's result and the registry in which it finished. */
  datatype Answer = Answer(at: Snapshot, finalWeight: Option<nat>, ts: seq<Transition>)

  type Expander = (Snapshot, nat) -> Answer

  ghost predicate Means(cfg: Config, snap: Snapshot, state: nat, id: nat, s: AutomatonState) {
    StateOf(cfg.Codec(), state) == Some((id, s)) && id < |snap.nodes|
  }

  /**
   What the contract of `ExpandState` allows, for arbitrary clones: between two expansions of one traversal others may
   extend the registry, so the registry in which an expansion finishes is any extension of the one the traversal last
   saw.
   */
  ghost predicate Permitted(cfg: Config, root: Trie, snap: Snapshot, state: nat, a: Answer) {
    && snap.moment < a.at.moment && snap.steps <= a.at.steps && snap.nodes <= a.at.nodes
    && Denotes(root, a.at.steps, a.at.nodes) && IsExpansion(cfg, a.at.steps, a.at.nodes, state, a.finalWeight, a.ts)
  }

  ghost predicate Honest(cfg: Config, root: Trie, expand: Expander) {
    forall snap: Snapshot, state: nat, id: nat, s: AutomatonState ::
      Denotes(root, snap.steps, snap.nodes) && Means(cfg, snap, state, id, s) ==>
        Permitted(cfg, root, snap, state, expand(snap, state))
  }

  /** A registry in which the first `n` children of a node are accounted for. */
  lemma {:induction false} AccountFor(cfg: Config, root: Trie, steps: seq<Step>, nodes: seq<Trie>, id: nat,
                                      s: AutomatonState, n: nat)
    returns (steps': seq<Step>, nodes': seq<Trie>)
    requires WellFormed(root) && Denotes(root, steps, nodes) && id < |nodes| && n <= |nodes[id].edges|
    ensures Denotes(root, steps', nodes') && steps <= steps' && nodes <= nodes'
    ensures ChildrenAccounted(cfg, steps', id, nodes[id], s, n)
  {
    hide Denotes, ArcsAlong, NoIds, WellFormed;
    if n == 0 {
      steps', nodes' := steps, nodes;
    } else {
      var some, someNodes := AccountFor(cfg, root, steps, nodes, id, s, n - 1);
      var e := nodes[id].edges[n - 1];
      steps', nodes' := some, someNodes;
      if Child(id, e.symbol) !in some {
        DenotesLengths(root, Snapshot(0, some, someNodes));
        DenotesSnoc(root, some, someNodes, id, n - 1);
        steps', nodes' := some + [Child(id, e.symbol)], someNodes + [e.child];
      }
      AccountedKept(cfg, some, steps', id, nodes[id], s, n - 1);
    }
  }

  /** Every state of every registry has a permitted answer. */
  lemma {:induction false} AnswerExists(cfg: Config, root: Trie, snap: Snapshot, state: nat) returns (a: Answer)
    requires WellFormed(root) && Denotes(root, snap.steps, snap.nodes)
    ensures Permitted(cfg, root, snap, state, a)
  {
    hide Denotes, ChildrenAccounted, StateOf, TransitionsUpTo, EncodeArcs, FinalWeight, WellFormed;
    var k, meaning := cfg.Codec(), StateOf(cfg.Codec(), state);
    if meaning.None? || meaning.value.0 >= |snap.nodes| {
      a := Answer(snap.(moment := snap.moment + 1), None, []);
    } else {
      var (id, s) := meaning.value;
      var node := snap.nodes[id];
      var steps, nodes := AccountFor(cfg, root, snap.steps, snap.nodes, id, s, |node.edges|);
      var ts := TransitionsUpTo(cfg, steps, state, id, node, s, |node.edges|) +
          EncodeArcs(k, state, id, ArcsStaying(cfg, s));
      a := Answer(Snapshot(snap.moment + 1, steps, nodes), FinalWeight(cfg, node, s), ts);
    }
  }

  ghost function SomeAnswer(cfg: Config, root: Trie, snap: Snapshot, state: nat): Answer {
    if exists a :: Permitted(cfg, root, snap, state, a) then
      var a :| Permitted(cfg, root, snap, state, a);
      a
    else Answer(snap, None, [])
  }

  /** There are honest expanders. */
  lemma {:induction false} HonestExists(cfg: Config, root: Trie)
    requires WellFormed(root)
    ensures exists expand: Expander :: Honest(cfg, root, expand)
  {
    hide Permitted, Denotes, Means, WellFormed;
    var expand: Expander := (snap: Snapshot, state: nat) => SomeAnswer(cfg, root, snap, state);
    forall snap: Snapshot, state: nat | Denotes(root, snap.steps, snap.nodes)
      ensures Permitted(cfg, root, snap, state, expand(snap, state))
    {
      var a := AnswerExists(cfg, root, snap, state);
    }
    assert Honest(cfg, root, expand);
  }

  /**
   Following the transitions chosen by `picks` accepts, reading `input` and writing `term` at total weight `weight`.
   */
  ghost predicate Finds(expand: Expander, snap: Snapshot, state: nat, picks: seq<nat>, input: string, term: string,
                        weight: nat)
    decreases |picks|
  {
    var a := expand(snap, state);
    if picks == [] then input == [] && term == [] && a.finalWeight == Some(weight)
    else
      && picks[0] < |a.ts| && a.ts[picks[0]].weight <= weight
      && var t := a.ts[picks[0]];
         && Reads(t.input, input) && Reads(t.output, term)
         && Finds(expand, a.at, t.to, picks[1..], Rest(t.input, input), Rest(t.output, term), weight - t.weight)
  }

  /** Transition `t` is the image of `arc` from `node`, and leads to dictionary node `child`. */
  ghost predicate Images(cfg: Config, snap: Snapshot, node: Trie, t: Transition, arc: Arc, child: nat) {
    && t.output == arc.output && t.weight == arc.weight && t.input == arc.input
    && (arc.move.Descend? ==> arc.move.edge < |node.edges|)
    && Means(cfg, snap, t.to, child, arc.target) && snap.nodes[child] == Next(node, arc.move)
  }

  lemma {:induction false} TransitionsMember(cfg: Config, steps: seq<Step>, from: nat, id: nat, node: Trie,
                                             s: AutomatonState, n: nat, t: Transition)
    requires n <= |node.edges|
    ensures t in TransitionsUpTo(cfg, steps, from, id, node, s, n) <==>
            exists i :: 0 <= i < n &&
              t in EdgeTransitions(cfg.Codec(), steps, from, id, node.edges[i].symbol, ArcsAlong(cfg, node, s, i))
  {
    hide ArcsAlong, EdgeTransitions;
    if n > 0 {
      TransitionsMember(cfg, steps, from, id, node, s, n - 1, t);
    }
  }

  /** The child registered under an edge is the edge's target. */
  lemma {:induction false} ChildNode(root: Trie, snap: Snapshot, id: nat, i: nat, child: nat)
    requires WellFormed(root) && Denotes(root, snap.steps, snap.nodes) && id < |snap.nodes| && child < |snap.nodes|
    requires i < |snap.nodes[id].edges| && snap.steps[child] == Child(id, snap.nodes[id].edges[i].symbol)
    ensures snap.nodes[child] == snap.nodes[id].edges[i].child
  {
    WalkWellFormed(root, PathOf(snap.steps, id));
    WalkEdge(root, PathOf(snap.steps, id), snap.nodes[id], i);
    assert child != 0;
  }

  /** Every transition of an expansion is the image of an arc. */
  lemma TransitionHasArc(cfg: Config, root: Trie, snap: Snapshot, state: nat, id: nat, s: AutomatonState,
                         finalWeight: Option<nat>, ts: seq<Transition>, t: Transition) returns (arc: Arc, child: nat)
    requires WellFormed(root) && Denotes(root, snap.steps, snap.nodes) && Means(cfg, snap, state, id, s)
    requires IsExpansion(cfg, snap.steps, snap.nodes, state, finalWeight, ts) && t in ts
    ensures arc in Arcs(cfg, snap.nodes[id], s) && Images(cfg, snap, snap.nodes[id], t, arc, child)
  {
    hide StateId, StateOf, ArcsAlong, Denotes, Fits;
    var node, k := snap.nodes[id], cfg.Codec();
    StateOfInRange(k, state);
    TransitionsMember(cfg, snap.steps, state, id, node, s, |node.edges|, t);
    if t in EncodeArcs(k, state, id, ArcsStaying(cfg, s)) {
      EncodeArcsMember(k, state, id, ArcsStaying(cfg, s), t);
      arc :| arc in ArcsStaying(cfg, s) && StateId(k, id, arc.target).Some? &&
        t == Transition(state, arc.input, arc.output, StateId(k, id, arc.target).value, arc.weight);
      child := id;
    } else {
      var i :| 0 <= i < |node.edges| &&
          t in EdgeTransitions(k, snap.steps, state, id, node.edges[i].symbol, ArcsAlong(cfg, node, s, i));
      child := IdOf(snap.steps, Child(id, node.edges[i].symbol));
      EncodeArcsMember(k, state, child, ArcsAlong(cfg, node, s, i), t);
      arc :| arc in ArcsAlong(cfg, node, s, i) && StateId(k, child, arc.target).Some? &&
        t == Transition(state, arc.input, arc.output, StateId(k, child, arc.target).value, arc.weight);
      ArcsAlongMove(cfg, node, s, i, arc);
      DenotesLengths(root, snap);
      ChildNode(root, snap, id, i, child);
    }
    ArcIn(cfg, node, s, arc);
    ArcInRange(cfg, node, s, arc);
    StateIdRoundTrip(cfg, child, arc.target);
    assert Means(cfg, snap, t.to, child, arc.target);
  }

  lemma {:induction false} DenotesLengths(root: Trie, snap: Snapshot)
    requires Denotes(root, snap.steps, snap.nodes)
    ensures |snap.steps| == |snap.nodes| > 0 && |snap.steps| <= |Paths(root)| && snap.nodes[0] == root
  {
    RegistryBounded(root, snap.steps, snap.nodes);
    assert Walk(root, PathOf(snap.steps, 0)) == Some(snap.nodes[0]);
  }

  /** When everything fits, every arc has its image among the transitions. */
  lemma ArcHasTransition(cfg: Config, root: Trie, snap: Snapshot, state: nat, id: nat, s: AutomatonState,
                         finalWeight: Option<nat>, ts: seq<Transition>, arc: Arc) returns (t: Transition, child: nat)
    requires WellFormed(root) && Denotes(root, snap.steps, snap.nodes) && Means(cfg, snap, state, id, s)
    requires Fits(cfg, root)
    requires IsExpansion(cfg, snap.steps, snap.nodes, state, finalWeight, ts) && arc in Arcs(cfg, snap.nodes[id], s)
    ensures t in ts && Images(cfg, snap, snap.nodes[id], t, arc, child)
  {
    hide StateId, StateOf, ArcsAlong, Denotes, Fits;
    var node, k := snap.nodes[id], cfg.Codec();
    StateOfInRange(k, state);
    ArcsMember(cfg, node, s, |node.edges|, arc);
    ArcInRange(cfg, node, s, arc);
    DenotesLengths(root, snap);
    if arc.move.Descend? {
      var i := arc.move.edge;
      assert ArcsAlong(cfg, node, s, i) != [] && Accounted(cfg, snap.steps, id, node, s, i);
      NotMissing(cfg, root, snap.steps, snap.nodes, id, s, i);
      child := IdOf(snap.steps, Child(id, node.edges[i].symbol));
      StateIdTotal(cfg, root, child, arc.target);
      t := Transition(state, arc.input, arc.output, StateId(k, child, arc.target).value, arc.weight);
      EncodeArcsMember(k, state, child, ArcsAlong(cfg, node, s, i), t);
      assert t in EdgeTransitions(k, snap.steps, state, id, node.edges[i].symbol, ArcsAlong(cfg, node, s, i));
      TransitionsMember(cfg, snap.steps, state, id, node, s, |node.edges|, t);
      ChildNode(root, snap, id, i, child);
    } else {
      child := id;
      StateIdTotal(cfg, root, id, arc.target);
      t := Transition(state, arc.input, arc.output, StateId(k, id, arc.target).value, arc.weight);
      EncodeArcsMember(k, state, id, ArcsStaying(cfg, s), t);
    }
    StateIdRoundTrip(cfg, child, arc.target);
    assert Means(cfg, snap, t.to, child, arc.target);
  }

  /** What honesty says of one expansion. */
  lemma ExpandStep(cfg: Config, root: Trie, expand: Expander, snap: Snapshot, state: nat, id: nat, s: AutomatonState)
    requires Honest(cfg, root, expand) && Denotes(root, snap.steps, snap.nodes) && Means(cfg, snap, state, id, s)
    ensures var a := expand(snap, state);
            && Denotes(root, a.at.steps, a.at.nodes) && Means(cfg, a.at, state, id, s)
            && a.at.nodes[id] == snap.nodes[id]
            && IsExpansion(cfg, a.at.steps, a.at.nodes, state, a.finalWeight, a.ts)
            && a.finalWeight == FinalWeight(cfg, snap.nodes[id], s)
  {
    hide StateOf, Denotes, Arcs, Fits, FinalWeight, TransitionsUpTo;
  }

  lemma {:induction false} FoundHere(cfg: Config, node: Trie, s: AutomatonState, expand: Expander, snap: Snapshot,
                                     state: nat, input: string, term: string, weight: nat)
    requires expand(snap, state).finalWeight == FinalWeight(cfg, node, s)
    ensures Finds(expand, snap, state, [], input, term, weight) <==>
              input == [] && Accepts(cfg, node, s, [], term, weight)
  {
  }

  lemma {:induction false} FirstPick(expand: Expander, snap: Snapshot, state: nat, picks: seq<nat>, input: string,
                                     term: string, weight: nat)
    requires picks != []
    ensures var a := expand(snap, state);
            Finds(expand, snap, state, picks, input, term, weight) <==>
              && picks[0] < |a.ts| && a.ts[picks[0]].weight <= weight
              && var t := a.ts[picks[0]];
                 && Reads(t.input, input) && Reads(t.output, term)
                 && Finds(expand, a.at, t.to, picks[1..], Rest(t.input, input), Rest(t.output, term), weight - t.weight)
  {
  }

  /** What a traversal finds is an accepting path of the graph. */
  lemma {:induction false} FindsIsPath(cfg: Config, root: Trie, expand: Expander, snap: Snapshot, state: nat, id: nat,
                                       s: AutomatonState, picks: seq<nat>, input: string, term: string, weight: nat)
    returns (path: seq<Arc>)
    requires WellFormed(root) && Honest(cfg, root, expand) && Denotes(root, snap.steps, snap.nodes)
    requires Means(cfg, snap, state, id, s) && Finds(expand, snap, state, picks, input, term, weight)
    ensures Accepts(cfg, snap.nodes[id], s, path, term, weight) && Inputs(path) == input
    decreases |picks|
  {
    hide StateOf, Denotes, Arcs, FinalWeight, Honest, IsExpansion, WellFormed, Accepts, Finds;
    ExpandStep(cfg, root, expand, snap, state, id, s);
    var a := expand(snap, state);
    if picks == [] {
      FoundHere(cfg, snap.nodes[id], s, expand, snap, state, input, term, weight);
      path := [];
    } else {
      FirstPick(expand, snap, state, picks, input, term, weight);
      var t := a.ts[picks[0]];
      var arc, child := TransitionHasArc(cfg, root, a.at, state, id, s, a.finalWeight, a.ts, t);
      var rest := FindsIsPath(cfg, root, expand, a.at, t.to, child, arc.target, picks[1..],
                              Rest(t.input, input), Rest(t.output, term), weight - t.weight);
      path := [arc] + rest;
      assert path[1..] == rest;
      Prepended(cfg, snap.nodes[id], s, arc, rest, term, weight);
    }
  }

  /** Every accepting path of the graph can be found. */
  lemma {:induction false} PathIsFound(cfg: Config, root: Trie, expand: Expander, snap: Snapshot, state: nat, id: nat,
                                       s: AutomatonState, path: seq<Arc>, term: string, weight: nat)
    returns (picks: seq<nat>)
    requires WellFormed(root) && Honest(cfg, root, expand) && Denotes(root, snap.steps, snap.nodes) && Fits(cfg, root)
    requires Means(cfg, snap, state, id, s) && Accepts(cfg, snap.nodes[id], s, path, term, weight)
    ensures Finds(expand, snap, state, picks, Inputs(path), term, weight)
    decreases |path|
  {
    hide StateOf, Denotes, Arcs, FinalWeight, Honest, IsExpansion, WellFormed, Fits, Accepts, Finds;
    ExpandStep(cfg, root, expand, snap, state, id, s);
    var a := expand(snap, state);
    if path == [] {
      FoundHere(cfg, snap.nodes[id], s, expand, snap, state, [], term, weight);
      picks := [];
    } else {
      var arc := path[0];
      AcceptsFirst(cfg, snap.nodes[id], s, path, term, weight);
      var t, child := ArcHasTransition(cfg, root, a.at, state, id, s, a.finalWeight, a.ts, arc);
      var rest := PathIsFound(cfg, root, expand, a.at, t.to, child, arc.target, path[1..],
                              if arc.output.Some? then term[1..] else term, weight - arc.weight);
      var i :| 0 <= i < |a.ts| && a.ts[i] == t;
      InputsStep(path);
      picks := [i] + rest;
      assert picks[1..] == rest;
      FirstPick(expand, snap, state, picks, Inputs(path), term, weight);
    }
  }

  lemma {:induction false} AcceptsFirst(cfg: Config, node: Trie, s: AutomatonState, path: seq<Arc>, term: string,
                                        weight: nat)
    requires Accepts(cfg, node, s, path, term, weight) && path != []
    ensures var arc := path[0];
            && arc in Arcs(cfg, node, s) && arc.weight <= weight && Reads(arc.output, term)
            && (arc.move.Descend? ==> arc.move.edge < |node.edges|)
            && Accepts(cfg, Next(node, arc.move), arc.target, path[1..], Rest(arc.output, term), weight - arc.weight)
  {
    hide Arcs;
  }

  lemma {:induction false} InputsStep(path: seq<Arc>)
    requires path != []
    ensures Reads(path[0].input, Inputs(path)) && Rest(path[0].input, Inputs(path)) == Inputs(path[1..])
  {
  }

  /** Some traversal from the start state reads `input` and writes `term` at weight `weight`. */
  ghost predicate CanFind(expand: Expander, root: Trie, input: string, term: string, weight: nat) {
    exists picks :: Finds(expand, Snapshot(0, [Root], [root]), 0, picks, input, term, weight)
  }

  /**
   Lazily, through IDs, and however clones interleave: what a traversal reads is a prefix of the query, and its weight
   is that of an alignment of this prefix with a dictionary term and of deleting the rest of the query, within the
   bound; so it is never below the edit distance. When all IDs fit, every such reading is found, and every term within
   the bound is found at its edit distance while the whole query is read.
   */
  lemma {:induction false} LazySearchIsExact(cfg: Config, root: Trie, expand: Expander, term: string)
    requires WellFormed(root) && Honest(cfg, root, expand)
    ensures forall input: string, weight: nat :: CanFind(expand, root, input, term, weight) ==>
              && input <= cfg.query && Contains(root, term)
              && Distance(cfg.query, term, cfg.algorithm) <= weight <= cfg.maxDistance
    ensures forall input: string, weight: nat :: CanFind(expand, root, input, term, weight) ==>
              Reading(cfg, root, input, term, weight)
    ensures Fits(cfg, root) ==> forall input: string, weight: nat ::
              Reading(cfg, root, input, term, weight) ==> CanFind(expand, root, input, term, weight)
    ensures Fits(cfg, root) && Contains(root, term) && Distance(cfg.query, term, cfg.algorithm) <= cfg.maxDistance ==>
              CanFind(expand, root, cfg.query, term, Distance(cfg.query, term, cfg.algorithm))
  {
    hide Distance, HasPath, HasPathOver, Reading, Fits, Finds, Honest, CanFind, Contains;
    LeastWeightIsDistance(cfg, root, term);
    forall input: string, weight: nat | CanFind(expand, root, input, term, weight)
      ensures Reading(cfg, root, input, term, weight) && HasPath(cfg, root, term, weight) && input <= cfg.query
    {
      FoundIsReading(cfg, root, expand, input, term, weight);
    }
    if Fits(cfg, root) {
      forall input: string, weight: nat | Reading(cfg, root, input, term, weight)
        ensures CanFind(expand, root, input, term, weight)
      {
        ReadingIsFound(cfg, root, expand, input, term, weight);
      }
      if Contains(root, term) && Distance(cfg.query, term, cfg.algorithm) <= cfg.maxDistance {
        DistanceIsReading(cfg, root, term);
      }
    }
  }

  /** An alignment of a prefix of the query with a dictionary term, within the bound if the rest is deleted. */
  ghost predicate Reading(cfg: Config, root: Trie, input: string, term: string, weight: nat) {
    && input <= cfg.query && Contains(root, term) && |cfg.query| - |input| <= weight <= cfg.maxDistance
    && CanAlign(input, term, cfg.algorithm, weight - (|cfg.query| - |input|))
  }

  lemma {:induction false} FoundIsReading(cfg: Config, root: Trie, expand: Expander, input: string, term: string,
                                          weight: nat)
    requires WellFormed(root) && Honest(cfg, root, expand) && CanFind(expand, root, input, term, weight)
    ensures Reading(cfg, root, input, term, weight) && HasPath(cfg, root, term, weight) && input <= cfg.query
  {
    hide StateOf, Accepts, Finds, Honest, Contains;
    var start := Snapshot(0, [Root], [root]);
    StartMeans(cfg, root);
    var picks :| Finds(expand, start, 0, picks, input, term, weight);
    var path := FindsIsPath(cfg, root, expand, start, 0, 0, Normal(0, 0), picks, input, term, weight);
    assert HasPathOver(cfg, root, input, term, weight);
    PathsAreAlignments(cfg, root, input, term, weight);
  }

  lemma {:induction false} ReadingIsFound(cfg: Config, root: Trie, expand: Expander, input: string, term: string,
                                          weight: nat)
    requires WellFormed(root) && Honest(cfg, root, expand) && Fits(cfg, root)
    requires Reading(cfg, root, input, term, weight)
    ensures CanFind(expand, root, input, term, weight)
  {
    hide StateOf, Fits, Accepts, Finds, Honest, Contains;
    var start := Snapshot(0, [Root], [root]);
    StartMeans(cfg, root);
    PathsAreAlignments(cfg, root, input, term, weight);
    var path :| Accepts(cfg, root, Normal(0, 0), path, term, weight) && Inputs(path) == input;
    var picks := PathIsFound(cfg, root, expand, start, 0, 0, Normal(0, 0), path, term, weight);
  }

  /** The edit distance is the cost of an alignment of the whole query. */
  lemma {:induction false} DistanceIsReading(cfg: Config, root: Trie, term: string)
    requires Contains(root, term) && Distance(cfg.query, term, cfg.algorithm) <= cfg.maxDistance
    ensures Reading(cfg, root, cfg.query, term, Distance(cfg.query, term, cfg.algorithm))
  {
    hide Distance, Contains, Aligns;
    var edits := DistanceIsAttained(cfg.query, term, cfg.algorithm);
    assert CanAlign(cfg.query, term, cfg.algorithm, Distance(cfg.query, term, cfg.algorithm));
  }

  /** State 0 is the root before any edit. */
  lemma StartMeans(cfg: Config, root: Trie)
    ensures Means(cfg, Snapshot(0, [Root], [root]), 0, 0, Normal(0, 0))
    ensures Denotes(root, [Root], [root])
  {
    var k := cfg.Codec();
    assert k.DecodeProduct(0) == (0, 0) by { DivModUnique(0, k.MaxStates(), 0); }
    DivModUnique(0, k.NormalStates(), 0);
    DivModUnique(0, k.Stride(), 0);
  }
}
