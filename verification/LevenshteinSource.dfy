/**
 The lazy state source of src/state_source.rs: product IDs in `u32`, dictionary nodes registered on demand in a
 registry shared by clones. Each expansion is proved against the graph of LevenshteinGraph.
 */
module LevenshteinSource {
  import opened Common
  import opened Labels
  import opened Dictionary
  import opened NodeRegistry
  import opened LevenshteinCodec
  import opened EditDistance
  import opened LevenshteinGraph

  /** `encode_transition_target`: the ID of automaton state `s` at dictionary node `node`. */
  function StateId(k: Codec, node: nat, s: AutomatonState): Option<nat> {
    match k.Encode(s)
    case None => None
    case Some(a) => k.EncodeProduct(node, a)
  }

  /** What a state ID denotes. */
  function StateOf(k: Codec, id: nat): Option<(nat, AutomatonState)> {
    match k.Decode(k.DecodeProduct(id).1)
    case None => None
    case Some(s) => Some((k.DecodeProduct(id).0, s))
  }

  /** States that arcs of `cfg` can enter. */
  predicate Enterable(cfg: Config, s: AutomatonState) {
    cfg.Codec().InRange(s) && cfg.Codec().Supported(s)
  }

  /** All product IDs fit: no `u32` bound saturates and there is an ID for every dictionary path. */
  ghost predicate Fits(cfg: Config, root: Trie) {
    cfg.Codec().Unsaturated() && |Paths(root)| * cfg.Codec().MaxStates() <= U32_MAX + 1
  }

  /** IDs that are handed out denote the state they were handed out for. */
  lemma StateIdRoundTrip(cfg: Config, node: nat, s: AutomatonState)
    requires Enterable(cfg, s) && StateId(cfg.Codec(), node, s).Some?
    ensures StateOf(cfg.Codec(), StateId(cfg.Codec(), node, s).value) == Some((node, s))
  {
    DecodeAfterEncode(cfg.Codec(), s);
    ProductRoundTrip(cfg.Codec(), node, cfg.Codec().Encode(s).value);
  }

  /** When everything fits, each enterable state of each dictionary node has an ID. */
  lemma {:induction false} StateIdTotal(cfg: Config, root: Trie, node: nat, s: AutomatonState)
    requires Fits(cfg, root) && node < |Paths(root)| && Enterable(cfg, s)
    ensures StateId(cfg.Codec(), node, s).Some? && node <= U32_MAX
  {
    hide Codec.Encode, Codec.EncodeProduct, Codec.MaxStates, Codec.Decode;
    var k := cfg.Codec();
    EncodeTotal(k, s);
    DecodeAfterEncode(k, s);
    ProductTotal(k, |Paths(root)|, node, k.Encode(s).value);
  }

  // ---------------------------------------------------------------- what an expansion returns

  /** The transitions for `arcs` into dictionary node `node`; arcs whose target has no ID are dropped. */
  function EncodeArcs(k: Codec, from: nat, node: nat, arcs: seq<Arc>): seq<Transition> {
    if arcs == [] then []
    else
      var rest := EncodeArcs(k, from, node, arcs[1..]);
      match StateId(k, node, arcs[0].target)
      case None => rest
      case Some(to) => [Transition(from, arcs[0].input, arcs[0].output, to, arcs[0].weight)] + rest
  }

  ghost predicate Encodes(k: Codec, from: nat, node: nat, arc: Arc, t: Transition) {
    && StateId(k, node, arc.target).Some?
    && t == Transition(from, arc.input, arc.output, StateId(k, node, arc.target).value, arc.weight)
  }

  /** Encoding keeps the order of the arcs. */
  lemma {:induction false} EncodeKeepsOrder(k: Codec, from: nat, node: nat, arcs: seq<Arc>)
    returns (of: seq<nat>)
    ensures |of| == |EncodeArcs(k, from, node, arcs)| && forall p, q :: 0 <= p < q < |of| ==> of[p] < of[q]
    ensures forall p :: 0 <= p < |of| ==>
              of[p] < |arcs| && Encodes(k, from, node, arcs[of[p]], EncodeArcs(k, from, node, arcs)[p])
  {
    hide StateId;
    if arcs == [] {
      of := [];
    } else {
      var rest := EncodeKeepsOrder(k, from, node, arcs[1..]);
      var later := seq(|rest|, p requires 0 <= p < |rest| => rest[p] + 1);
      of := if StateId(k, node, arcs[0].target).Some? then [0] + later else later;
    }
  }

  /** Encoded transitions are exactly the arcs whose targets have IDs. */
  lemma {:induction false} EncodeArcsMember(k: Codec, from: nat, node: nat, arcs: seq<Arc>, t: Transition)
    ensures t in EncodeArcs(k, from, node, arcs) <==>
            exists arc :: arc in arcs && StateId(k, node, arc.target).Some?
                          && t == Transition(from, arc.input, arc.output, StateId(k, node, arc.target).value,
                                             arc.weight)
  {
    hide StateId;
    if arcs != [] {
      EncodeArcsMember(k, from, node, arcs[1..], t);
      assert arcs == [arcs[0]] + arcs[1..];
    }
  }

  ghost function IdOf(steps: seq<Step>, s: Step): (id: nat)
    requires s in steps
    ensures id < |steps| && steps[id] == s
  {
    var i :| 0 <= i < |steps| && steps[i] == s; i
  }

  /** Transitions along one edge: none if the child has no ID, otherwise one per encodable arc. */
  ghost function EdgeTransitions(k: Codec, steps: seq<Step>, from: nat, id: nat, symbol: char, arcs: seq<Arc>)
    : seq<Transition> {
    if Child(id, symbol) in steps then EncodeArcs(k, from, IdOf(steps, Child(id, symbol)), arcs) else []
  }

  ghost function TransitionsUpTo(cfg: Config, steps: seq<Step>, from: nat, id: nat, node: Trie, s: AutomatonState,
                                 n: nat): seq<Transition>
    requires n <= |node.edges|
  {
    if n == 0 then []
    else TransitionsUpTo(cfg, steps, from, id, node, s, n - 1)
         + EdgeTransitions(cfg.Codec(), steps, from, id, node.edges[n - 1].symbol, ArcsAlong(cfg, node, s, n - 1))
  }

  /** None of `arcs` has a target ID at dictionary node `n`. */
  ghost predicate NoIds(k: Codec, n: nat, arcs: seq<Arc>) {
    forall j :: 0 <= j < |arcs| ==> StateId(k, n, arcs[j].target).None?
  }

  /** A child is missing only if registering it now would give none of its arcs a target ID. */
  ghost predicate Accounted(cfg: Config, steps: seq<Step>, id: nat, node: Trie, s: AutomatonState, i: nat)
    requires i < |node.edges|
  {
    Child(id, node.edges[i].symbol) in steps || NoIds(cfg.Codec(), |steps|, ArcsAlong(cfg, node, s, i))
  }

  ghost predicate ChildrenAccounted(cfg: Config, steps: seq<Step>, id: nat, node: Trie, s: AutomatonState, n: nat)
    requires n <= |node.edges|
  {
    forall i :: 0 <= i < n ==> Accounted(cfg, steps, id, node, s, i)
  }

  /**
   The result of expanding `state` in a registry: the state's final weight and exactly the encodable arcs, in order;
   no child is missing that could have been registered.
   */
  ghost predicate IsExpansion(cfg: Config, steps: seq<Step>, nodes: seq<Trie>, state: nat,
                              finalWeight: Option<nat>, ts: seq<Transition>)
  {
    var meaning := StateOf(cfg.Codec(), state);
    if meaning.None? || meaning.value.0 >= |nodes| then finalWeight == None && ts == []
    else
      var (id, s) := meaning.value;
      && finalWeight == FinalWeight(cfg, nodes[id], s)
      && ts == TransitionsUpTo(cfg, steps, state, id, nodes[id], s, |nodes[id].edges|)
               + EncodeArcs(cfg.Codec(), state, id, ArcsStaying(cfg, s))
      && ChildrenAccounted(cfg, steps, id, nodes[id], s, |nodes[id].edges|)
  }

  /** Expanding `state` has a use for `step` as node number `n`: some arc along that edge then has a target ID. */
  ghost predicate HasUse(cfg: Config, nodes: seq<Trie>, state: nat, step: Step, n: nat) {
    var meaning := StateOf(cfg.Codec(), state);
    && meaning.Some? && meaning.value.0 < |nodes|
    && var (id, s) := meaning.value;
       exists i :: && 0 <= i < |nodes[id].edges| && step == Child(id, nodes[id].edges[i].symbol)
                   && !NoIds(cfg.Codec(), n, ArcsAlong(cfg, nodes[id], s, i))
  }

  /** There is a use for every node registered since `from`. */
  ghost predicate AllUsed(cfg: Config, nodes: seq<Trie>, state: nat, steps: seq<Step>, from: nat) {
    forall n :: from <= n < |steps| ==> HasUse(cfg, nodes, state, steps[n], n)
  }

  /** Later nodes have no more IDs than earlier ones, and none beyond `u32`. */
  lemma StateIdShrinks(k: Codec, n: nat, n': nat, s: AutomatonState)
    requires n <= n'
    ensures StateId(k, n', s).Some? ==> StateId(k, n, s).Some? && n' <= U32_MAX
  {
    hide Codec.Encode, Codec.MaxStates;
    if k.MaxStates() > 0 { MultiplesGrow(n, n', k.MaxStates()); }
  }

  lemma MultiplesGrow(n: nat, n': nat, m: nat)
    requires n <= n' && 0 < m
    ensures n * m <= n' * m && n' <= n' * m
  {
    assert 0 <= (n' - n) * m && 0 <= n' * (m - 1);
  }

  lemma {:induction false} NoIdsKept(k: Codec, n: nat, n': nat, arcs: seq<Arc>)
    requires n <= n'
    ensures NoIds(k, n, arcs) ==> NoIds(k, n', arcs)
    ensures n > U32_MAX ==> NoIds(k, n, arcs)
  {
    hide StateId;
    forall j | 0 <= j < |arcs|
      ensures StateId(k, n, arcs[j].target).None? ==> StateId(k, n', arcs[j].target).None?
      ensures n > U32_MAX ==> StateId(k, n, arcs[j].target).None?
    {
      StateIdShrinks(k, n, n', arcs[j].target);
      StateIdShrinks(k, n, n, arcs[j].target);
    }
  }

  /** Children stay accounted for while the registry grows. */
  lemma {:induction false} AccountedKept(cfg: Config, steps: seq<Step>, steps': seq<Step>, id: nat, node: Trie,
                                         s: AutomatonState, n: nat)
    requires steps <= steps' && n <= |node.edges| && ChildrenAccounted(cfg, steps, id, node, s, n)
    ensures ChildrenAccounted(cfg, steps', id, node, s, n)
  {
    hide ArcsAlong, NoIds;
    forall i | 0 <= i < n ensures Accounted(cfg, steps', id, node, s, i) {
      assert Accounted(cfg, steps, id, node, s, i);
      NoIdsKept(cfg.Codec(), |steps|, |steps'|, ArcsAlong(cfg, node, s, i));
    }
  }

  // ---------------------------------------------------------------- one edge

  /** If no target has an ID at the child, the edge contributes nothing. */
  lemma {:induction false} NothingPushed(k: Codec, from: nat, child: nat, arcs: seq<Arc>)
    requires NoIds(k, child, arcs)
    ensures EncodeArcs(k, from, child, arcs) == []
  {
    hide StateId;
    if arcs != [] {
      assert forall j :: 0 <= j < |arcs[1..]| ==> arcs[1..][j] == arcs[j + 1];
      NothingPushed(k, from, child, arcs[1..]);
    }
  }

  /** When everything fits, a child with an arc is not missing. */
  lemma {:induction false} NotMissing(cfg: Config, root: Trie, steps: seq<Step>, nodes: seq<Trie>, id: nat,
                                      s: AutomatonState, i: nat)
    requires Fits(cfg, root) && WellFormed(root) && Denotes(root, steps, nodes) && id < |nodes| && i < |nodes[id].edges|
    requires s.pos <= |cfg.query| && s.cost <= cfg.maxDistance
    requires ArcsAlong(cfg, nodes[id], s, i) != [] && Accounted(cfg, steps, id, nodes[id], s, i)
    ensures Child(id, nodes[id].edges[i].symbol) in steps
  {
    hide StateId, Fits, Denotes, ArcsAlong;
    if Child(id, nodes[id].edges[i].symbol) !in steps {
      MustRegister(cfg, root, steps, nodes, id, s, i);
    }
  }

  /** When everything fits, a child with an arc cannot be refused an ID. */
  lemma {:induction false} MustRegister(cfg: Config, root: Trie, steps: seq<Step>, nodes: seq<Trie>, id: nat,
                                        s: AutomatonState, i: nat)
    requires Fits(cfg, root) && WellFormed(root) && Denotes(root, steps, nodes) && id < |nodes| && i < |nodes[id].edges|
    requires s.pos <= |cfg.query| && s.cost <= cfg.maxDistance
    requires ArcsAlong(cfg, nodes[id], s, i) != [] && Child(id, nodes[id].edges[i].symbol) !in steps
    ensures |steps| <= U32_MAX && StateId(cfg.Codec(), |steps|, ArcsAlong(cfg, nodes[id], s, i)[0].target).Some?
  {
    hide StateId, Fits, Denotes;
    RoomForChild(root, steps, nodes, id, i);
    var arc := ArcsAlong(cfg, nodes[id], s, i)[0];
    assert arc in ArcsAlong(cfg, nodes[id], s, i);
    ArcsAlongMove(cfg, nodes[id], s, i, arc);
    ArcIn(cfg, nodes[id], s, arc);
    ArcInRange(cfg, nodes[id], s, arc);
    StateIdTotal(cfg, root, |steps|, arc.target);
  }

  lemma ArcsAlongMove(cfg: Config, node: Trie, s: AutomatonState, i: nat, arc: Arc)
    requires i < |node.edges| && arc in ArcsAlong(cfg, node, s, i)
    ensures arc.move == Descend(i)
  {
    hide Starts;
  }

  /** Registering one edge's child leaves the transitions of the other edges as they were. */
  lemma {:induction false} TransitionsStable(cfg: Config, before: seq<Step>, after: seq<Step>, from: nat, id: nat,
                                             node: Trie, s: AutomatonState, n: nat, i: nat)
    requires before <= after && Distinct(after) && n <= i < |node.edges| && WellFormed(node)
    requires forall step :: step in after && step !in before ==> step == Child(id, node.edges[i].symbol)
    ensures TransitionsUpTo(cfg, after, from, id, node, s, n) == TransitionsUpTo(cfg, before, from, id, node, s, n)
  {
    hide ArcsAlong, EncodeArcs;
    if n > 0 {
      TransitionsStable(cfg, before, after, from, id, node, s, n - 1, i);
      var step := Child(id, node.edges[n - 1].symbol);
      if step in before {
        assert after[IdOf(before, step)] == step;
        assert IdOf(after, step) == IdOf(before, step);
      }
    }
  }

  lemma StateOfInRange(k: Codec, state: nat)
    requires StateOf(k, state).Some?
    ensures k.InRange(StateOf(k, state).value.1)
  {
  }

  lemma {:induction false} NodeWellFormed(root: Trie, steps: seq<Step>, nodes: seq<Trie>, id: nat)
    requires WellFormed(root) && Denotes(root, steps, nodes) && id < |nodes|
    ensures WellFormed(nodes[id])
  {
    WalkWellFormed(root, PathOf(steps, id));
  }

  /** A new dictionary child still has an ID below the number of dictionary paths. */
  lemma {:induction false} RoomForChild(root: Trie, steps: seq<Step>, nodes: seq<Trie>, id: nat, i: nat)
    requires WellFormed(root) && Denotes(root, steps, nodes) && id < |nodes| && i < |nodes[id].edges|
    requires Child(id, nodes[id].edges[i].symbol) !in steps
    ensures |steps| < |Paths(root)|
  {
    DenotesSnoc(root, steps, nodes, id, i);
    RegistryBounded(root, steps + [Child(id, nodes[id].edges[i].symbol)], nodes + [nodes[id].edges[i].child]);
  }

  // ---------------------------------------------------------------- the source

  class LevenshteinStateSource {
    const cfg: Config
    const root: Trie
    const registry: DictionaryNodeRegistry<Trie>

    ghost predicate Valid()
      reads this, registry
    {
      WellFormed(root) && registry.Valid() && Denotes(root, registry.steps, registry.idToNode)
    }

    constructor (root: Trie, query: string, maxDistance: nat, algorithm: Algorithm)
      requires WellFormed(root)
      ensures Valid() && fresh(registry) && cfg == Config(query, maxDistance, algorithm) && this.root == root
      ensures registry.steps == [Root]
    {
      this.cfg := Config(query, maxDistance, algorithm);
      this.root := root;
      this.registry := new DictionaryNodeRegistry<Trie>(root);
    }

    /**
     One iteration of an edge loop: `register_dictionary_node_for_targets` gives a new child an ID exactly if some arc's
     target then has a product ID, and every arc whose target has one is pushed.
     */
    method ExpandEdge(id: nat, from: nat, s: AutomatonState, node: Trie, i: nat) returns (ts: seq<Transition>)
      requires Valid() && id < |registry.steps| && registry.idToNode[id] == node && i < |node.edges|
      modifies registry
      ensures Valid() && old(registry.idToNode) <= registry.idToNode
      ensures ts == EdgeTransitions(cfg.Codec(), registry.steps, from, id, node.edges[i].symbol,
                                    ArcsAlong(cfg, node, s, i))
      ensures var step, known := Child(id, node.edges[i].symbol), old(registry.steps);
              registry.steps ==
                if step !in known && !NoIds(cfg.Codec(), |known|, ArcsAlong(cfg, node, s, i)) then known + [step]
                else known
      ensures Accounted(cfg, registry.steps, id, node, s, i)
    {
      hide StateId, Denotes, ArcsAlong;
      var k, symbol := cfg.Codec(), node.edges[i].symbol;
      var arcs := ArcsAlong(cfg, node, s, i);
      NoIdsKept(k, |registry.steps|, |registry.steps|, arcs);
      var candidate := registry.CandidateId(id, symbol);
      if candidate.None? {
        return [];
      }
      if !exists j :: 0 <= j < |arcs| && StateId(k, candidate.value, arcs[j].target).Some? {
        NothingPushed(k, from, candidate.value, arcs);
        return [];
      }
      if Child(id, symbol) !in registry.steps {
        DenotesSnoc(root, registry.steps, registry.idToNode, id, i);
      }
      var child := registry.RegisterNode(node.edges[i].child, id, symbol);
      ts := EncodeArcs(k, from, child.value, arcs);
    }

    /**
     `expand_state`: nothing for IDs that denote no registered state, otherwise all of its arcs. A child is registered
     only if that gives some arc a target ID, and is missing only if it would not.
     */
    method ExpandState(state: nat) returns (finalWeight: Option<nat>, ts: seq<Transition>)
      requires Valid()
      modifies registry
      ensures Valid() && old(registry.steps) <= registry.steps && old(registry.idToNode) <= registry.idToNode
      ensures IsExpansion(cfg, registry.steps, registry.idToNode, state, finalWeight, ts)
      ensures AllUsed(cfg, old(registry.idToNode), state, registry.steps, old(|registry.steps|))
    {
      hide StateOf, StateId, Denotes, ArcsAlong, Codec.Decode, NoIds, HasUse, TransitionsUpTo, EncodeArcs, WellFormed;
      var k := cfg.Codec();
      var meaning := StateOf(k, state);
      if meaning.None? || meaning.value.0 >= |registry.idToNode| {
        return None, [];
      }
      var (id, s) := meaning.value;
      var node := registry.idToNode[id];
      ts := ExpandEdges(state, id, s, node);
      ts := ts + EncodeArcs(k, state, id, ArcsStaying(cfg, s));
      finalWeight := FinalWeight(cfg, node, s);
    }

    /** The loop over the edges. */
    method ExpandEdges(state: nat, id: nat, s: AutomatonState, node: Trie) returns (ts: seq<Transition>)
      requires Valid() && StateOf(cfg.Codec(), state) == Some((id, s)) && id < |registry.steps|
      requires registry.idToNode[id] == node
      modifies registry
      ensures Valid() && old(registry.steps) <= registry.steps && old(registry.idToNode) <= registry.idToNode
      ensures ts == TransitionsUpTo(cfg, registry.steps, state, id, node, s, |node.edges|)
      ensures ChildrenAccounted(cfg, registry.steps, id, node, s, |node.edges|)
      ensures AllUsed(cfg, old(registry.idToNode), state, registry.steps, old(|registry.steps|))
    {
      hide StateOf, StateId, Denotes, ArcsAlong, Codec.Decode, NoIds, AllUsed, TransitionsUpTo, EdgeTransitions,
           Accounted, ChildrenAccounted, WellFormed, StepKey;
      NodeWellFormed(root, registry.steps, registry.idToNode, id);
      LoopStart(cfg, registry.idToNode, registry.steps, state, id, node, s);
      ts := [];
      for i := 0 to |node.edges|
        invariant Valid() && old(registry.steps) <= registry.steps && old(registry.idToNode) <= registry.idToNode
        invariant ts == TransitionsUpTo(cfg, registry.steps, state, id, node, s, i)
        invariant ChildrenAccounted(cfg, registry.steps, id, node, s, i)
        invariant AllUsed(cfg, old(registry.idToNode), state, registry.steps, old(|registry.steps|))
      {
        ghost var before := registry.steps;
        var more := ExpandEdge(id, state, s, node, i);
        EdgeDone(cfg, old(registry.idToNode), old(|registry.steps|), before, registry.steps, state, id, s, i);
        ts := ts + more;
      }
    }
  }

  lemma UseHere(cfg: Config, nodes: seq<Trie>, state: nat, id: nat, s: AutomatonState, i: nat, n: nat)
    requires StateOf(cfg.Codec(), state) == Some((id, s)) && id < |nodes| && i < |nodes[id].edges|
    requires !NoIds(cfg.Codec(), n, ArcsAlong(cfg, nodes[id], s, i))
    ensures HasUse(cfg, nodes, state, Child(id, nodes[id].edges[i].symbol), n)
  {
    hide StateOf, NoIds, ArcsAlong;
  }

  lemma {:induction false} LoopStart(cfg: Config, nodes: seq<Trie>, steps: seq<Step>, state: nat, id: nat, node: Trie,
                                     s: AutomatonState)
    ensures TransitionsUpTo(cfg, steps, state, id, node, s, 0) == [] && ChildrenAccounted(cfg, steps, id, node, s, 0)
    ensures AllUsed(cfg, nodes, state, steps, |steps|)
  {
  }

  /** After the iteration for edge `i`. */
  lemma {:induction false} EdgeDone(cfg: Config, nodes: seq<Trie>, from: nat, before: seq<Step>, after: seq<Step>,
                                    state: nat, id: nat, s: AutomatonState, i: nat)
    requires StateOf(cfg.Codec(), state) == Some((id, s)) && id < |nodes| && i < |nodes[id].edges|
    requires Distinct(after) && WellFormed(nodes[id]) && Accounted(cfg, after, id, nodes[id], s, i)
    requires var step := Child(id, nodes[id].edges[i].symbol);
             after == if step !in before && !NoIds(cfg.Codec(), |before|, ArcsAlong(cfg, nodes[id], s, i))
                      then before + [step] else before
    requires AllUsed(cfg, nodes, state, before, from) && ChildrenAccounted(cfg, before, id, nodes[id], s, i)
    ensures AllUsed(cfg, nodes, state, after, from) && ChildrenAccounted(cfg, after, id, nodes[id], s, i + 1)
    ensures TransitionsUpTo(cfg, after, state, id, nodes[id], s, i + 1) ==
            TransitionsUpTo(cfg, before, state, id, nodes[id], s, i)
            + EdgeTransitions(cfg.Codec(), after, state, id, nodes[id].edges[i].symbol, ArcsAlong(cfg, nodes[id], s, i))
  {
    hide StateOf, NoIds, ArcsAlong, HasUse, TransitionsUpTo, EdgeTransitions, Accounted, WellFormed;
    if after != before {
      UseHere(cfg, nodes, state, id, s, i, |before|);
    }
    TransitionsStable(cfg, before, after, state, id, nodes[id], s, i, i);
    TransitionsNext(cfg, after, state, id, nodes[id], s, i);
    AccountedKept(cfg, before, after, id, nodes[id], s, i);
  }

  lemma {:induction false} TransitionsNext(cfg: Config, steps: seq<Step>, from: nat, id: nat, node: Trie,
                                           s: AutomatonState, i: nat)
    requires i < |node.edges|
    ensures TransitionsUpTo(cfg, steps, from, id, node, s, i + 1) ==
            TransitionsUpTo(cfg, steps, from, id, node, s, i)
            + EdgeTransitions(cfg.Codec(), steps, from, id, node.edges[i].symbol, ArcsAlong(cfg, node, s, i))
  {
    hide EdgeTransitions, ArcsAlong;
  }
}
