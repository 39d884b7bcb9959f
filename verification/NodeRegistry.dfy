/** Dense IDs for dictionary nodes, keyed by packed path steps (src/node_key.rs, src/node_registry.rs). */
module NodeRegistry {
  import opened Common
  import opened Dictionary

  const CHAR_SPAN: nat := 0x20_0000  // 2^21, room for any Unicode scalar value
  const ROOT_KEY: nat := 0xFFFF_FFFF_FFFF_FFFF

  /** `(parent << 21) | codepoint`. */
  function ChildKey(parent: nat, symbol: char): nat {
    parent * CHAR_SPAN + symbol as int
  }

  function KeyParent(key: nat): nat { key / CHAR_SPAN }

  /** Keys in numbers: the label in the low 21 bits, the parent above them, all ones for the root. */
  lemma KeysInNumbers(parent: nat, symbol: char)
    ensures ChildKey(parent, symbol) == parent * 2097152 + symbol as int
    ensures StepKey(Root) == 18446744073709551615 && StepKey(Child(parent, symbol)) == ChildKey(parent, symbol)
  {
  }

  /** Packing is invertible, and no `u32` parent packs to the reserved root key. */
  lemma ChildKeyInjective(p: nat, c: char, p': nat, c': char)
    ensures ChildKey(p, c) == ChildKey(p', c') <==> p == p' && c == c'
    ensures p <= U32_MAX ==> ChildKey(p, c) != ROOT_KEY && ChildKey(p, c) <= ROOT_KEY
    ensures KeyParent(ChildKey(p, c)) == p
  {
    assert c as int < CHAR_SPAN && c' as int < CHAR_SPAN;
    assert ChildKey(p, c) / CHAR_SPAN == p;
    assert ChildKey(p', c') / CHAR_SPAN == p';
  }

  /** IDs are `u32`: `next_registry_id(len)`. */
  function NextRegistryId(len: nat): Option<nat> {
    if len <= U32_MAX then Some(len) else None
  }

  /** One registered step: the parent's ID and the edge label that reached the node. */
  datatype Step = Root | Child(parent: nat, symbol: char)

  function StepKey(s: Step): nat {
    match s
    case Root => ROOT_KEY
    case Child(p, c) => ChildKey(p, c)
  }

  /** Steps are listed parents first: only ID 0 is the root. */
  ghost predicate Ordered(steps: seq<Step>) {
    && |steps| > 0 && steps[0] == Root
    && forall i :: 1 <= i < |steps| ==> steps[i].Child? && steps[i].parent < i
  }

  /** The label sequence that an ID denotes. */
  ghost function PathOf(steps: seq<Step>, id: nat): string
    requires Ordered(steps) && id < |steps|
  {
    if id == 0 then [] else PathOf(steps, steps[id].parent) + [steps[id].symbol]
  }

  /** Appending steps changes the meaning of no old ID. */
  lemma {:induction false} PathStable(steps: seq<Step>, more: seq<Step>, id: nat)
    requires Ordered(steps) && Ordered(more) && steps <= more && id < |steps|
    ensures PathOf(more, id) == PathOf(steps, id)
  {
    if id > 0 {
      assert steps[id] == more[id];
      PathStable(steps, more, steps[id].parent);
    }
  }

  /** Distinct steps denote distinct paths, so IDs and paths are in bijection. */
  lemma {:induction false} PathInjective(steps: seq<Step>, a: nat, b: nat)
    requires Ordered(steps) && Distinct(steps) && a < |steps| && b < |steps|
    requires PathOf(steps, a) == PathOf(steps, b)
    ensures a == b
    decreases a
  {
    if a != 0 {
      var pa, pb := PathOf(steps, a), PathOf(steps, b);
      assert pa[..|pa| - 1] == PathOf(steps, steps[a].parent);
      assert b != 0;
      assert pb[..|pb| - 1] == PathOf(steps, steps[b].parent);
      PathInjective(steps, steps[a].parent, steps[b].parent);
      assert steps[a] == steps[b];
    }
  }

  /** The node stored under each ID is the one its path reaches. */
  ghost predicate Denotes(root: Trie, steps: seq<Step>, nodes: seq<Trie>) {
    && Ordered(steps) && Distinct(steps) && |nodes| == |steps|
    && forall id :: 0 <= id < |steps| ==> Walk(root, PathOf(steps, id)) == Some(nodes[id])
  }

  /** A registry never holds more IDs than the dictionary has paths. */
  lemma {:induction false} RegistryBounded(root: Trie, steps: seq<Step>, nodes: seq<Trie>)
    requires Denotes(root, steps, nodes)
    ensures |steps| <= |Paths(root)|
  {
    var paths := seq(|steps|, i requires 0 <= i < |steps| => PathOf(steps, i));
    forall i, j | 0 <= i < j < |paths| ensures paths[i] != paths[j] {
      if paths[i] == paths[j] { PathInjective(steps, i, j); }
    }
    forall i | 0 <= i < |paths| ensures paths[i] in Paths(root) {
      WalkInPaths(root, paths[i]);
    }
    DistinctBounded(paths, Paths(root));
  }

  /** Registering the child that a registered path reaches keeps the denotation. */
  lemma {:induction false} DenotesChild(root: Trie, steps: seq<Step>, nodes: seq<Trie>, parent: nat, symbol: char,
                                        node: Trie)
    requires Denotes(root, steps, nodes) && parent < |steps| && Child(parent, symbol) !in steps
    requires Walk(root, PathOf(steps, parent) + [symbol]) == Some(node)
    ensures Denotes(root, steps + [Child(parent, symbol)], nodes + [node])
  {
    hide Walk;
    var more, nodes' := steps + [Child(parent, symbol)], nodes + [node];
    assert Ordered(more) && Distinct(more);
    forall id | 0 <= id < |more| ensures Walk(root, PathOf(more, id)) == Some(nodes'[id]) {
      if id < |steps| {
        PathStable(steps, more, id);
      } else {
        PathStable(steps, more, parent);
      }
    }
  }

  /** Registering the child along one of a node's edges keeps the denotation. */
  lemma {:induction false} DenotesSnoc(root: Trie, steps: seq<Step>, nodes: seq<Trie>, parent: nat, edge: nat)
    requires Denotes(root, steps, nodes) && parent < |steps| && WellFormed(root)
    requires edge < |nodes[parent].edges|
    requires Child(parent, nodes[parent].edges[edge].symbol) !in steps
    ensures Denotes(root, steps + [Child(parent, nodes[parent].edges[edge].symbol)],
                    nodes + [nodes[parent].edges[edge].child])
  {
    var e := nodes[parent].edges[edge];
    WalkWellFormed(root, PathOf(steps, parent));
    WalkEdge(root, PathOf(steps, parent), nodes[parent], edge);
    DenotesChild(root, steps, nodes, parent, e.symbol, e.child);
  }

  /** Key-to-ID map and ID-to-node vector, extended in place and shared by every clone of a source. */
  class DictionaryNodeRegistry<N> {
    var nodeToId: map<nat, nat>
    var idToNode: seq<N>
    ghost var steps: seq<Step>

    /** The map and the vectors are mutually inverse and every ID is a `u32`. */
    ghost predicate Valid()
      reads this
    {
      && Ordered(steps) && Distinct(steps)
      && |idToNode| == |steps| <= U32_MAX + 1
      && (forall id :: 0 <= id < |steps| ==>
            StepKey(steps[id]) in nodeToId && nodeToId[StepKey(steps[id])] == id)
      && (forall key :: key in nodeToId ==>
            nodeToId[key] < |steps| && StepKey(steps[nodeToId[key]]) == key)
    }

    constructor (root: N)
      ensures Valid() && idToNode == [root] && steps == [Root]
    {
      nodeToId := map[ROOT_KEY := 0];
      idToNode := [root];
      steps := [Root];
    }

    /** A child step is registered exactly when its key is. */
    lemma KeyRegistered(parent: nat, symbol: char)
      requires Valid() && parent <= U32_MAX
      ensures ChildKey(parent, symbol) in nodeToId <==> Child(parent, symbol) in steps
      ensures ChildKey(parent, symbol) in nodeToId ==>
                steps[nodeToId[ChildKey(parent, symbol)]] == Child(parent, symbol)
    {
      var key := ChildKey(parent, symbol);
      ChildKeyInjective(parent, symbol, parent, symbol);
      if key in nodeToId {
        var s := steps[nodeToId[key]];
        assert StepKey(s) == key;
        assert s.Child?;
        ChildKeyInjective(parent, symbol, s.parent, s.symbol);
      }
      if Child(parent, symbol) in steps {
        var i :| 0 <= i < |steps| && steps[i] == Child(parent, symbol);
        assert StepKey(steps[i]) == key;
      }
    }

    /** The ID that registering a step would give: its own if it is known, otherwise the next one while `u32` lasts. */
    method CandidateId(parent: nat, symbol: char) returns (id: Option<nat>)
      requires Valid() && parent < |steps|
      ensures Child(parent, symbol) in steps ==>
                id.Some? && id.value < |steps| && steps[id.value] == Child(parent, symbol)
      ensures Child(parent, symbol) !in steps && id.Some? ==> id.value == |steps|
      ensures id.None? <==> Child(parent, symbol) !in steps && |steps| > U32_MAX
    {
      var key := ChildKey(parent, symbol);
      KeyRegistered(parent, symbol);
      if key in nodeToId {
        return Some(nodeToId[key]);
      }
      id := NextRegistryId(|idToNode|);
    }

    /** Reuses the ID of a known step; otherwise appends one ID, unless `u32` is exhausted. */
    method RegisterNode(node: N, parent: nat, symbol: char) returns (id: Option<nat>)
      requires Valid() && parent < |steps|
      modifies this
      ensures Valid()
      ensures id.Some? ==> id.value < |steps| && steps[id.value] == Child(parent, symbol)
      ensures Child(parent, symbol) in old(steps) ==>
                id.Some? && steps == old(steps) && idToNode == old(idToNode)
      ensures Child(parent, symbol) !in old(steps) && old(|steps|) <= U32_MAX ==>
                && steps == old(steps) + [Child(parent, symbol)] && idToNode == old(idToNode) + [node]
                && id == Some(old(|steps|))
      ensures Child(parent, symbol) !in old(steps) && old(|steps|) > U32_MAX ==>
                id == None && steps == old(steps) && idToNode == old(idToNode)
    {
      var key := ChildKey(parent, symbol);
      KeyRegistered(parent, symbol);
      if key in nodeToId {
        return Some(nodeToId[key]);
      }
      id := NextRegistryId(|idToNode|);
      if id.Some? {
        nodeToId := nodeToId[key := id.value];
        idToNode := idToNode + [node];
        steps := steps + [Child(parent, symbol)];
        assert forall i :: 0 <= i < old(|steps|) ==> StepKey(steps[i]) != key;
      }
    }

    /** `commit_prepared`: append identities whose IDs were validated before. */
    method CommitPrepared(added: seq<Step>, nodes: seq<N>)
      requires Valid() && |added| == |nodes| && |steps| + |added| <= U32_MAX + 1
      requires Ordered(steps + added) && Distinct(steps + added)
      modifies this
      ensures Valid() && steps == old(steps) + added && idToNode == old(idToNode) + nodes
    {
      ghost var before, beforeNodes := steps, idToNode;
      for i := 0 to |added|
        invariant Valid() && steps == before + added[..i] && idToNode == beforeNodes + nodes[..i]
      {
        var step := added[i];
        assert (before + added)[|before| + i] == step;
        assert forall j :: 0 <= j < |before| + i ==> (before + added)[j] == steps[j];
        assert step.Child? && step.parent < |steps| && step !in steps;
        var id := RegisterNode(nodes[i], step.parent, step.symbol);
        assert added[..i + 1] == added[..i] + [step] && nodes[..i + 1] == nodes[..i] + [nodes[i]];
      }
      assert added[..|added|] == added && nodes[..|nodes|] == nodes;
    }
  }
}
