/**
 Atomic publication of one expansion (`commit_expansion` in src/generalized_computation.rs): staged nodes are
 reconciled with what other clones published meanwhile, then nodes and states appear together or not at all.
 */
module GeneralizedCommit {
  import opened Common
  import opened Labels
  import opened Dictionary
  import opened NodeRegistry
  import opened GeneralizedStaging
  import opened GeneralizedShared
  import opened GeneralizedSearch
  import GS = GeneralizedStates

  // ---------------------------------------------------------------- resolving staged references

  /** `resolved_node`. */
  function ResolveId(ref: Ref, resolved: seq<nat>): nat
    requires ref.Staged? ==> ref.index < |resolved|
  {
    match ref
    case Registered(id) => id
    case Staged(k) => resolved[k]
  }

  /** Each staged node of `staged` is resolved to the ID of its path step in `all`. */
  ghost predicate Resolves(all: seq<Step>, staged: seq<StagedNode>, resolved: seq<nat>) {
    && |resolved| <= |staged|
    && forall k :: 0 <= k < |resolved| ==>
         && (staged[k].parent.Staged? ==> staged[k].parent.index < k)
         && resolved[k] < |all|
         && all[resolved[k]] == Child(ResolveId(staged[k].parent, resolved[..k]), staged[k].symbol)
  }

  /** Staged parents resolve before their children, and every reference to a path resolves to that path's one ID. */
  lemma {:induction false} ResolvedPath(steps: seq<Step>, all: seq<Step>, staged: seq<StagedNode>, resolved: seq<nat>,
                                        ref: Ref)
    requires Ordered(steps) && Ordered(all) && steps <= all && StagedOk(steps, staged)
    requires Resolves(all, staged, resolved) && RefOk(steps, |resolved|, ref)
    ensures ResolveId(ref, resolved) < |all|
    ensures PathOf(all, ResolveId(ref, resolved)) == RefPath(steps, staged, ref)
    decreases if ref.Registered? then 0 else ref.index + 1
  {
    match ref
    case Registered(id) => PathStable(steps, all, id);
    case Staged(k) =>
      var parent := staged[k].parent;
      assert RefOk(steps, k, parent);
      ResolvedPath(steps, all, staged, resolved, parent);
      assert ResolveId(parent, resolved[..k]) == ResolveId(parent, resolved);
      assert resolved[k] != 0;
  }

  /** Two references to the same dictionary path resolve to one node ID. */
  lemma {:induction false} DuplicatesMeet(steps: seq<Step>, all: seq<Step>, staged: seq<StagedNode>, resolved: seq<nat>,
                                          a: Ref, b: Ref)
    requires Ordered(steps) && Ordered(all) && Distinct(all) && steps <= all && StagedOk(steps, staged)
    requires Resolves(all, staged, resolved) && RefOk(steps, |resolved|, a) && RefOk(steps, |resolved|, b)
    requires |resolved| == |staged| && RefPath(steps, staged, a) == RefPath(steps, staged, b)
    ensures ResolveId(a, resolved) == ResolveId(b, resolved)
  {
    ResolvedPath(steps, all, staged, resolved, a);
    ResolvedPath(steps, all, staged, resolved, b);
    PathInjective(all, ResolveId(a, resolved), ResolveId(b, resolved));
  }

  lemma ResolvesSnoc(all: seq<Step>, added: seq<Step>, staged: seq<StagedNode>, resolved: seq<nat>, id: nat)
    requires Resolves(all, staged, resolved) && |resolved| < |staged|
    requires staged[|resolved|].parent.Staged? ==> staged[|resolved|].parent.index < |resolved|
    requires id < |all + added| &&
             (all + added)[id] == Child(ResolveId(staged[|resolved|].parent, resolved), staged[|resolved|].symbol)
    ensures Resolves(all + added, staged, resolved + [id])
  {
    var more := resolved + [id];
    forall k | 0 <= k < |more|
      ensures && (staged[k].parent.Staged? ==> staged[k].parent.index < k)
              && more[k] < |all + added|
              && (all + added)[more[k]] == Child(ResolveId(staged[k].parent, more[..k]), staged[k].symbol)
    {
      if k < |resolved| {
        assert more[..k] == resolved[..k];
      } else {
        assert more[..k] == resolved;
      }
    }
  }

  // ---------------------------------------------------------------- one reconciliation attempt

  /** Every planned ID is that of some resolved node. */
  ghost predicate Used(known: nat, count: nat, resolved: seq<nat>) {
    forall id :: known <= id < known + count ==> id in resolved
  }

  /**
   The invariant of an attempt: registry plus additions denote the dictionary, resolved references point into it, and
   nothing is added that is not needed.
   */
  ghost predicate AttemptInv(root: Trie, steps: seq<Step>, nodes: seq<Owned>, staged: seq<StagedNode>,
                             resolved: seq<nat>, added: seq<Step>, addedNodes: seq<Owned>, newIds: map<Step, nat>)
  {
    && |added| == |addedNodes| && Denotes(root, steps + added, NodesOf(nodes + addedNodes))
    && StagedDenotes(root, steps, staged) && Resolves(steps + added, staged, resolved)
    && Used(|steps|, |added|, resolved)
    && (forall s :: s in newIds <==> s in added)
    && (forall s :: s in newIds ==> newIds[s] < |steps| + |added| && (steps + added)[newIds[s]] == s)
  }

  /** The next staged node already has an ID. */
  lemma AttemptReuses(root: Trie, steps: seq<Step>, nodes: seq<Owned>, staged: seq<StagedNode>, resolved: seq<nat>,
                      added: seq<Step>, addedNodes: seq<Owned>, newIds: map<Step, nat>, id: nat)
    requires AttemptInv(root, steps, nodes, staged, resolved, added, addedNodes, newIds) && |resolved| < |staged|
    requires RefOk(steps, |resolved|, staged[|resolved|].parent) && id < |steps + added|
    requires (steps + added)[id] == Child(ResolveId(staged[|resolved|].parent, resolved), staged[|resolved|].symbol)
    ensures AttemptInv(root, steps, nodes, staged, resolved + [id], added, addedNodes, newIds)
    ensures (nodes + addedNodes)[id].node == staged[|resolved|].owned.node
  {
    hide Walk;
    assert (steps + added) + [] == steps + added;
    ResolvesSnoc(steps + added, [], staged, resolved, id);
    ResolvedPath(steps, steps + added, staged, resolved + [id], Staged(|resolved|));
    assert Walk(root, PathOf(steps + added, id)) == Some(NodesOf(nodes + addedNodes)[id]);
  }

  /** The next staged node is new. */
  lemma AttemptAdds(root: Trie, steps: seq<Step>, nodes: seq<Owned>, staged: seq<StagedNode>, resolved: seq<nat>,
                    added: seq<Step>, addedNodes: seq<Owned>, newIds: map<Step, nat>)
    requires AttemptInv(root, steps, nodes, staged, resolved, added, addedNodes, newIds) && |resolved| < |staged|
    requires RefOk(steps, |resolved|, staged[|resolved|].parent)
    requires var step := Child(ResolveId(staged[|resolved|].parent, resolved), staged[|resolved|].symbol);
             step !in steps && step !in newIds
    ensures var s := staged[|resolved|];
            var step, id := Child(ResolveId(s.parent, resolved), s.symbol), |steps| + |added|;
            AttemptInv(root, steps, nodes, staged, resolved + [id], added + [step], addedNodes + [s.owned],
                       newIds[step := id])
  {
    hide Walk;
    var k := |resolved|;
    var s := staged[k];
    var parent := ResolveId(s.parent, resolved);
    var step, id := Child(parent, s.symbol), |steps| + |added|;
    ResolvedPath(steps, steps + added, staged, resolved, s.parent);
    assert RefPath(steps, staged, Staged(k)) == RefPath(steps, staged, s.parent) + [s.symbol];
    DenotesChild(root, steps + added, NodesOf(nodes + addedNodes), parent, s.symbol, s.owned.node);
    assert (steps + added) + [step] == steps + (added + [step]);
    assert NodesOf(nodes + addedNodes) + [s.owned.node] == NodesOf(nodes + (addedNodes + [s.owned]));
    ResolvesSnoc(steps + added, [step], staged, resolved, id);
  }

  /** Taking over the canonical owner of a node changes no meaning. */
  lemma AttemptReowns(root: Trie, steps: seq<Step>, nodes: seq<Owned>, staged: seq<StagedNode>, resolved: seq<nat>,
                      added: seq<Step>, addedNodes: seq<Owned>, newIds: map<Step, nat>, k: nat, canonical: Owned)
    requires AttemptInv(root, steps, nodes, staged, resolved, added, addedNodes, newIds)
    requires k < |staged| && canonical.node == staged[k].owned.node
    ensures AttemptInv(root, steps, nodes, staged[k := staged[k].(owned := canonical)], resolved, added, addedNodes,
                       newIds)
  {
    hide Walk, Denotes;
    var other := staged[k := staged[k].(owned := canonical)];
    SameSteps(root, steps, staged, other);
    forall j | 0 <= j < |resolved|
      ensures other[j].parent == staged[j].parent && other[j].symbol == staged[j].symbol
    {
    }
  }

  /** Meanings of references depend on the staged steps only. */
  lemma {:induction false} SameSteps(root: Trie, steps: seq<Step>, staged: seq<StagedNode>, other: seq<StagedNode>)
    requires StagedDenotes(root, steps, staged) && |other| == |staged|
    requires forall j :: 0 <= j < |staged| ==>
               && other[j].parent == staged[j].parent && other[j].symbol == staged[j].symbol
               && other[j].owned.node == staged[j].owned.node
    ensures StagedDenotes(root, steps, other)
    ensures forall ref :: RefOk(steps, |staged|, ref) ==> RefPath(steps, other, ref) == RefPath(steps, staged, ref)
  {
    hide Walk;
    assert forall k :: 0 <= k < |other| ==> RefOk(steps, k, staged[k].parent);
    forall ref | RefOk(steps, |staged|, ref) ensures RefPath(steps, other, ref) == RefPath(steps, staged, ref) {
      SameRef(steps, staged, other, ref);
    }
    assert forall k :: 0 <= k < |other| ==> RefOk(steps, |staged|, Staged(k));
  }

  lemma {:induction false} SameRef(steps: seq<Step>, staged: seq<StagedNode>, other: seq<StagedNode>, ref: Ref)
    requires Ordered(steps) && StagedOk(steps, staged) && StagedOk(steps, other) && |other| == |staged|
    requires forall j :: 0 <= j < |staged| ==>
               other[j].parent == staged[j].parent && other[j].symbol == staged[j].symbol
    requires RefOk(steps, |staged|, ref)
    ensures RefPath(steps, other, ref) == RefPath(steps, staged, ref)
    decreases if ref.Registered? then 0 else ref.index + 1
  {
    if ref.Staged? {
      assert RefOk(steps, ref.index, staged[ref.index].parent);
      SameRef(steps, staged, other, staged[ref.index].parent);
    }
  }

  /** Re-owning nodes leaves parents, labels and dictionary nodes as they were. */
  ghost predicate SameStaging(a: seq<StagedNode>, b: seq<StagedNode>) {
    && |a| == |b|
    && forall j :: 0 <= j < |a| ==>
         a[j].parent == b[j].parent && a[j].symbol == b[j].symbol && a[j].owned.node == b[j].owned.node
  }

  datatype Attempt = Attempt(resolved: seq<nat>, added: seq<Step>, addedNodes: seq<Owned>, newIds: map<Step, nat>,
                             retired: nat)

  ghost predicate AttemptOk(shared: SharedRegistries, staged: seq<StagedNode>, a: Attempt)
    reads shared.registry
  {
    && AttemptInv(shared.root, shared.registry.steps, shared.registry.idToNode, staged, a.resolved, a.added,
                  a.addedNodes, a.newIds)
    && |shared.registry.steps| + |a.added| <= shared.bounds.nodes && |shared.registry.steps| + |a.added| <= U32_MAX + 1
  }

  /** Every resolved node is held by the owner that the registry holds, or would hold, for its ID. */
  ghost predicate Settled(nodes: seq<Owned>, staged: seq<StagedNode>, resolved: seq<nat>) {
    && |resolved| <= |staged|
    && forall k :: 0 <= k < |resolved| ==> resolved[k] < |nodes| && nodes[resolved[k]].owner == staged[k].owned.owner
  }

  /** The next staged node is held as ID `id`, by the owner that holds that ID among `nodes + more`. */
  lemma SettledSnoc(nodes: seq<Owned>, more: seq<Owned>, staged: seq<StagedNode>, resolved: seq<nat>, id: nat,
                    owned: Owned)
    requires Settled(nodes, staged, resolved) && |resolved| < |staged|
    requires id < |nodes + more| && (nodes + more)[id].owner == owned.owner
    ensures var k := |resolved|; Settled(nodes + more, staged[k := staged[k].(owned := owned)], resolved + [id])
  {
  }

  ghost predicate IsOwned(nodes: seq<Owned>, owner: nat) {
    exists id :: 0 <= id < |nodes| && nodes[id].owner == owner
  }

  /** Dropping the staged nodes destroys none of them: the registry owns each one too. */
  ghost predicate OwnersShared(nodes: seq<Owned>, staged: seq<StagedNode>) {
    forall k :: 0 <= k < |staged| ==> IsOwned(nodes, staged[k].owned.owner)
  }

  lemma SettledShared(nodes: seq<Owned>, staged: seq<StagedNode>, resolved: seq<nat>)
    requires Settled(nodes, staged, resolved) && |resolved| == |staged|
    ensures OwnersShared(nodes, staged)
  {
    forall k | 0 <= k < |staged| ensures IsOwned(nodes, staged[k].owned.owner) {
      assert nodes[resolved[k]].owner == staged[k].owned.owner;
    }
  }

  /**
   Every staged node is held by the owner that the registry has for its path, if it has one, and copies of one path
   share their owner. Then an attempt retires nothing.
   */
  ghost predicate Canonical(steps: seq<Step>, nodes: seq<Owned>, staged: seq<StagedNode>) {
    && Ordered(steps) && StagedOk(steps, staged) && |nodes| == |steps|
    && (forall k, id ::
        0 <= k < |staged| && 0 <= id < |steps| && PathOf(steps, id) == RefPath(steps, staged, Staged(k)) ==>
          nodes[id].owner == staged[k].owned.owner)
    && (forall j, k :: 0 <= j < |staged| && 0 <= k < |staged| &&
                       RefPath(steps, staged, Staged(j)) == RefPath(steps, staged, Staged(k)) ==>
          staged[j].owned.owner == staged[k].owned.owner)
  }

  /** A complete attempt leaves the staged nodes that way. */
  lemma {:induction false} SettledCanonical(root: Trie, steps: seq<Step>, nodes: seq<Owned>, staged: seq<StagedNode>,
                                            resolved: seq<nat>, added: seq<Step>, addedNodes: seq<Owned>,
                                            newIds: map<Step, nat>)
    requires AttemptInv(root, steps, nodes, staged, resolved, added, addedNodes, newIds) && |resolved| == |staged|
    requires Settled(nodes + addedNodes, staged, resolved) && StagedOk(steps, staged) && Ordered(steps)
    ensures Canonical(steps, nodes, staged)
  {
    hide Walk, RefPath, PathOf;
    forall k | 0 <= k < |staged|
      ensures RefPath(steps, staged, Staged(k)) == PathOf(steps + added, resolved[k])
    {
      ResolvedPath(steps, steps + added, staged, resolved, Staged(k));
    }
    forall k, id | 0 <= k < |staged| && 0 <= id < |steps| && PathOf(steps, id) == RefPath(steps, staged, Staged(k))
      ensures nodes[id].owner == staged[k].owned.owner
    {
      PathStable(steps, steps + added, id);
      PathInjective(steps + added, id, resolved[k]);
    }
    forall j, k | 0 <= j < |staged| && 0 <= k < |staged| &&
                  RefPath(steps, staged, Staged(j)) == RefPath(steps, staged, Staged(k))
      ensures staged[j].owned.owner == staged[k].owned.owner
    {
      PathInjective(steps + added, resolved[j], resolved[k]);
    }
  }

  /** Then the next staged node is already held by the owner of its ID. */
  lemma {:induction false} CanonicalReuse(root: Trie, steps: seq<Step>, nodes: seq<Owned>, staged: seq<StagedNode>,
                                          resolved: seq<nat>, added: seq<Step>, addedNodes: seq<Owned>,
                                          newIds: map<Step, nat>, id: nat)
    requires |resolved| < |staged| && AttemptInv(root, steps, nodes, staged, resolved, added, addedNodes, newIds)
    requires Resolves(steps + added, staged, resolved + [id]) && Canonical(steps, nodes, staged)
    requires Settled(nodes + addedNodes, staged, resolved)
    ensures id < |nodes + addedNodes| && (nodes + addedNodes)[id].owner == staged[|resolved|].owned.owner
  {
    hide Walk, RefPath, PathOf;
    var k := |resolved|;
    var all := resolved + [id];
    assert all[k] == id;
    ResolvedPath(steps, steps + added, staged, all, Staged(k));
    if id < |steps| {
      PathStable(steps, steps + added, id);
    } else {
      assert id in resolved;
      var j :| 0 <= j < |resolved| && resolved[j] == id;
      assert all[j] == id;
      ResolvedPath(steps, steps + added, staged, all, Staged(j));
    }
  }

  // ---------------------------------------------------------------- running out of node IDs

  /** The dictionary paths of the staged nodes. */
  ghost function StagedPaths(steps: seq<Step>, staged: seq<StagedNode>): iset<string>
    requires Ordered(steps) && StagedOk(steps, staged)
  {
    iset k | 0 <= k < |staged| :: RefPath(steps, staged, Staged(k))
  }

  ghost predicate IsRegistered(steps: seq<Step>, path: string)
    requires Ordered(steps)
  {
    exists id :: 0 <= id < |steps| && PathOf(steps, id) == path
  }

  /** A dictionary path among `paths` that has no ID yet. */
  ghost predicate IsNew(root: Trie, steps: seq<Step>, paths: iset<string>, path: string)
    requires Ordered(steps)
  {
    path in paths && Walk(root, path).Some? && !IsRegistered(steps, path)
  }

  /** So many of `paths` have no ID yet that registering them would go beyond `limit`. */
  ghost predicate Overfull(root: Trie, steps: seq<Step>, paths: iset<string>, limit: nat)
    requires Ordered(steps)
  {
    exists more: seq<string> ::
      Distinct(more) && |steps| + |more| > limit && forall i :: 0 <= i < |more| ==> IsNew(root, steps, paths, more[i])
  }

  /** A limit that admits every path of the dictionary is never broken. */
  lemma {:induction false} EnoughNodes(root: Trie, steps: seq<Step>, nodes: seq<Trie>, paths: iset<string>, limit: nat)
    requires Denotes(root, steps, nodes) && Overfull(root, steps, paths, limit)
    ensures limit < |Paths(root)|
  {
    hide Walk, PathOf;
    var more: seq<string> :|
      Distinct(more) && |steps| + |more| > limit && forall i :: 0 <= i < |more| ==> IsNew(root, steps, paths, more[i]);
    var known := seq(|steps|, i requires 0 <= i < |steps| => PathOf(steps, i));
    var all := known + more;
    forall i, j | 0 <= i < j < |all| ensures all[i] != all[j] {
      if j < |steps| {
        if PathOf(steps, i) == PathOf(steps, j) { PathInjective(steps, i, j); }
      } else {
        assert IsNew(root, steps, paths, more[j - |steps|]);
      }
    }
    forall i | 0 <= i < |all| ensures all[i] in Paths(root) {
      if i >= |steps| { assert IsNew(root, steps, paths, more[i - |steps|]); }
      WalkInPaths(root, all[i]);
    }
    DistinctBounded(all, Paths(root));
  }

  /** A registry that goes beyond the limit by adding some of `paths` shows that they are too many. */
  lemma {:induction false} OverfullBy(root: Trie, steps: seq<Step>, all: seq<Step>, nodes: seq<Trie>,
                                      paths: iset<string>, limit: nat)
    requires Ordered(steps) && steps <= all && Denotes(root, all, nodes) && |all| > limit
    requires forall id :: |steps| <= id < |all| ==> PathOf(all, id) in paths
    ensures Overfull(root, steps, paths, limit)
  {
    hide Walk, PathOf, IsRegistered;
    var more := seq(|all| - |steps|, i requires 0 <= i < |all| - |steps| => PathOf(all, |steps| + i));
    forall i, j | 0 <= i < j < |more| ensures more[i] != more[j] {
      if more[i] == more[j] { PathInjective(all, |steps| + i, |steps| + j); }
    }
    forall i | 0 <= i < |more| ensures IsNew(root, steps, paths, more[i]) {
      NewPath(steps, all, |steps| + i);
      assert Walk(root, PathOf(all, |steps| + i)).Some?;
    }
  }

  /** The next staged node is new, but there is no room: its path and those planned so far are too many. */
  lemma {:induction false} AttemptOverfull(root: Trie, steps: seq<Step>, nodes: seq<Owned>, staged: seq<StagedNode>,
                                           resolved: seq<nat>, added: seq<Step>, addedNodes: seq<Owned>,
                                           newIds: map<Step, nat>, limit: nat)
    requires AttemptInv(root, steps, nodes, staged, resolved, added, addedNodes, newIds) && |resolved| < |staged|
    requires RefOk(steps, |resolved|, staged[|resolved|].parent) && Ordered(steps) && StagedOk(steps, staged)
    requires var step := Child(ResolveId(staged[|resolved|].parent, resolved), staged[|resolved|].symbol);
             step !in steps && step !in newIds
    requires |steps| + |added| + 1 > limit
    ensures Overfull(root, steps, StagedPaths(steps, staged), limit)
  {
    hide AttemptInv, Overfull, StagedPaths, PathOf, Denotes;
    var s := staged[|resolved|];
    var step, id := Child(ResolveId(s.parent, resolved), s.symbol), |steps| + |added|;
    AttemptAdds(root, steps, nodes, staged, resolved, added, addedNodes, newIds);
    AttemptSpans(root, steps, nodes, staged, resolved + [id], added + [step], addedNodes + [s.owned],
                 newIds[step := id]);
    AttemptShape(root, steps, nodes, staged, resolved + [id], added + [step], addedNodes + [s.owned],
                 newIds[step := id]);
    OverfullBy(root, steps, steps + (added + [step]), NodesOf(nodes + (addedNodes + [s.owned])),
               StagedPaths(steps, staged), limit);
  }

  /** What an attempt would add are paths of staged nodes. */
  lemma {:induction false} AttemptSpans(root: Trie, steps: seq<Step>, nodes: seq<Owned>, staged: seq<StagedNode>,
                                        resolved: seq<nat>, added: seq<Step>, addedNodes: seq<Owned>,
                                        newIds: map<Step, nat>)
    requires AttemptInv(root, steps, nodes, staged, resolved, added, addedNodes, newIds)
    ensures Ordered(steps) && StagedOk(steps, staged) && Ordered(steps + added) && Distinct(steps + added)
    ensures forall id :: |steps| <= id < |steps| + |added| ==> PathOf(steps + added, id) in StagedPaths(steps, staged)
  {
    hide Walk, RefPath, PathOf;
    forall id | |steps| <= id < |steps| + |added| ensures PathOf(steps + added, id) in StagedPaths(steps, staged) {
      assert id in resolved;
      var k :| 0 <= k < |resolved| && resolved[k] == id;
      ResolvedPath(steps, steps + added, staged, resolved, Staged(k));
    }
  }

  lemma {:induction false} NewPath(steps: seq<Step>, all: seq<Step>, id: nat)
    requires Ordered(steps) && Ordered(all) && Distinct(all) && steps <= all && |steps| <= id < |all|
    ensures !IsRegistered(steps, PathOf(all, id))
  {
    hide PathOf;
    if IsRegistered(steps, PathOf(all, id)) {
      var old' :| 0 <= old' < |steps| && PathOf(steps, old') == PathOf(all, id);
      PathStable(steps, all, old');
      PathInjective(all, old', id);
    }
  }

  /** Failures for want of node IDs. */
  ghost predicate NodeTrouble(f: Failure, root: Trie, steps: seq<Step>, paths: iset<string>, b: Bounds)
    requires Ordered(steps)
  {
    || (f == NodesExceeded && Overfull(root, steps, paths, b.nodes))
    || (f == NodeIdsExhausted && Overfull(root, steps, paths, U32_MAX + 1))
  }

  /** That holds of the staged nodes and the registry as it is. */
  ghost predicate StagedTrouble(shared: SharedRegistries, staged: seq<StagedNode>, f: Failure)
    reads shared.registry
    requires Ordered(shared.registry.steps) && StagedOk(shared.registry.steps, staged)
  {
    NodeTrouble(f, shared.root, shared.registry.steps, StagedPaths(shared.registry.steps, staged), shared.bounds)
  }

  /** The ID that a step has now: in the registry, or among this attempt's additions. */
  method FindStep(shared: SharedRegistries, ghost staged: seq<StagedNode>, a: Attempt, parent: nat, symbol: char)
    returns (id: Option<nat>)
    requires shared.Valid() && AttemptOk(shared, staged, a) && parent < |shared.registry.steps| + |a.added|
    ensures id.Some? ==>
              id.value < |shared.registry.steps + a.added| &&
              (shared.registry.steps + a.added)[id.value] == Child(parent, symbol)
    ensures id.None? ==> Child(parent, symbol) !in shared.registry.steps && Child(parent, symbol) !in a.newIds
  {
    hide Denotes, Resolves, StagedDenotes;
    var key := ChildKey(parent, symbol);
    shared.registry.KeyRegistered(parent, symbol);
    if key in shared.registry.nodeToId {
      return Some(shared.registry.nodeToId[key]);
    }
    if Child(parent, symbol) in a.newIds {
      return Some(a.newIds[Child(parent, symbol)]);
    }
    return None;
  }

  /** The next staged node is already known as `id`: take over the canonical owner. */
  method ReuseId(shared: SharedRegistries, staging: ExpansionStaging, a: Attempt, id: nat) returns (a': Attempt)
    requires shared.Valid() && staging.Valid() && AttemptOk(shared, staging.nodes, a) && |a.resolved| < |staging.nodes|
    requires var s := staging.nodes[|a.resolved|];
             && RefOk(shared.registry.steps, |a.resolved|, s.parent) && id < |shared.registry.steps + a.added|
             && (shared.registry.steps + a.added)[id] == Child(ResolveId(s.parent, a.resolved), s.symbol)
    requires Settled(shared.registry.idToNode + a.addedNodes, staging.nodes, a.resolved)
    modifies staging`nodes
    ensures staging.Valid() && SameStaging(old(staging.nodes), staging.nodes)
    ensures AttemptOk(shared, staging.nodes, a') && a'.retired >= a.retired && |a'.resolved| == |a.resolved| + 1
    ensures Settled(shared.registry.idToNode + a'.addedNodes, staging.nodes, a'.resolved)
    ensures a'.retired == a.retired ==> staging.nodes == old(staging.nodes)
    ensures Canonical(shared.registry.steps, shared.registry.idToNode, old(staging.nodes)) ==> a'.retired == a.retired
  {
    hide Settled, Canonical, Denotes, Resolves, StagedDenotes, AttemptInv, GS.WellShaped, GS.ProductsOf, GS.ChainsOf,
         WellFormed, Distinct, StepKey;
    ghost var root, steps, nodes := shared.root, shared.registry.steps, shared.registry.idToNode;
    var k := |a.resolved|;
    var staged := staging.nodes[k];
    AttemptParent(root, steps, nodes, staging.nodes, a.resolved, a.added, a.addedNodes, a.newIds);
    AttemptReuses(root, steps, nodes, staging.nodes, a.resolved, a.added, a.addedNodes, a.newIds, id);
    a' := a.(resolved := a.resolved + [id]);
    var canonical := if id < |shared.registry.idToNode| then shared.registry.idToNode[id]
                     else a.addedNodes[id - |shared.registry.idToNode|];
    ghost var held := nodes + a.addedNodes;
    assert held[id] == canonical && held + [] == held;
    SettledSnoc(held, [], staging.nodes, a.resolved, id, canonical);
    if Canonical(steps, nodes, staging.nodes) {
      AttemptResolved(root, steps, nodes, staging.nodes, a'.resolved, a.added, a.addedNodes, a.newIds);
      CanonicalReuse(root, steps, nodes, staging.nodes, a.resolved, a.added, a.addedNodes, a.newIds, id);
    }
    if canonical.owner != staged.owned.owner {
      AttemptReowns(root, steps, nodes, staging.nodes, a'.resolved, a.added, a.addedNodes, a.newIds, k, canonical);
      staging.nodes := staging.nodes[k := staged.(owned := canonical)];
      a' := a'.(retired := a.retired + 1);
    } else {
      assert canonical == staged.owned;
      assert staging.nodes[k := staged.(owned := canonical)] == staging.nodes;
    }
  }

  /** Resolve the next staged node: reuse an ID (taking over its owner) or plan a new one inside the limits. */
  method ReconcileNext(shared: SharedRegistries, staging: ExpansionStaging, a: Attempt)
    returns (failure: Option<Failure>, a': Attempt)
    requires shared.Valid() && staging.Valid() && AttemptOk(shared, staging.nodes, a) && |a.resolved| < |staging.nodes|
    requires Ordered(shared.registry.steps) && StagedOk(shared.registry.steps, staging.nodes)
    requires Settled(shared.registry.idToNode + a.addedNodes, staging.nodes, a.resolved)
    modifies staging`nodes
    ensures staging.Valid() && SameStaging(old(staging.nodes), staging.nodes)
    ensures AttemptOk(shared, staging.nodes, a') && a'.retired >= a.retired
    ensures StagedOk(shared.registry.steps, staging.nodes)
    ensures Settled(shared.registry.idToNode + a'.addedNodes, staging.nodes, a'.resolved)
    ensures a'.retired == a.retired ==> staging.nodes == old(staging.nodes)
    ensures Canonical(shared.registry.steps, shared.registry.idToNode, old(staging.nodes)) ==> a'.retired == a.retired
    ensures failure.None? ==> |a'.resolved| == |a.resolved| + 1
    ensures failure.Some? ==>
              && a' == a && staging.nodes == old(staging.nodes)
              && StagedTrouble(shared, staging.nodes, failure.value)
  {
    hide Settled, Canonical, Denotes, Resolves, StagedDenotes, AttemptInv, Sound, Overfull, StagedPaths, GS.WellShaped,
         GS.ProductsOf, GS.ChainsOf, WellFormed, Distinct, StepKey;
    ghost var root, steps, nodes := shared.root, shared.registry.steps, shared.registry.idToNode;
    var k := |a.resolved|;
    var staged := staging.nodes[k];
    failure, a' := None, a;
    AttemptParent(root, steps, nodes, staging.nodes, a.resolved, a.added, a.addedNodes, a.newIds);
    var parent := ResolveId(staged.parent, a.resolved);
    var found := FindStep(shared, staging.nodes, a, parent, staged.symbol);
    if found.Some? {
      a' := ReuseId(shared, staging, a, found.value);
      AttemptParent(root, steps, nodes, staging.nodes, a'.resolved, a'.added, a'.addedNodes, a'.newIds);
      StagedShape(root, steps, staging.nodes);
      return;
    }
    var count := |shared.registry.idToNode| + |a.added|;
    if count + 1 > shared.bounds.nodes {
      AttemptOverfull(root, steps, nodes, staging.nodes, a.resolved, a.added, a.addedNodes, a.newIds,
                      shared.bounds.nodes);
      return Some(NodesExceeded), a';
    }
    if NextRegistryId(count).None? {
      AttemptOverfull(root, steps, nodes, staging.nodes, a.resolved, a.added, a.addedNodes, a.newIds, U32_MAX + 1);
      return Some(NodeIdsExhausted), a';
    }
    AttemptAdds(root, steps, nodes, staging.nodes, a.resolved, a.added, a.addedNodes, a.newIds);
    ghost var held := nodes + a.addedNodes;
    SettledSnoc(held, [staged.owned], staging.nodes, a.resolved, count, staged.owned);
    assert held + [staged.owned] == nodes + (a.addedNodes + [staged.owned]);
    assert staging.nodes[k := staged.(owned := staged.owned)] == staging.nodes;
    var step := Child(parent, staged.symbol);
    a' := Attempt(a.resolved + [count], a.added + [step], a.addedNodes + [staged.owned], a.newIds[step := count],
                  a.retired);
  }

  lemma AttemptResolved(root: Trie, steps: seq<Step>, nodes: seq<Owned>, staged: seq<StagedNode>, resolved: seq<nat>,
                        added: seq<Step>, addedNodes: seq<Owned>, newIds: map<Step, nat>)
    requires AttemptInv(root, steps, nodes, staged, resolved, added, addedNodes, newIds)
    ensures Resolves(steps + added, staged, resolved)
  {
  }

  lemma AttemptParent(root: Trie, steps: seq<Step>, nodes: seq<Owned>, staged: seq<StagedNode>, resolved: seq<nat>,
                      added: seq<Step>, addedNodes: seq<Owned>, newIds: map<Step, nat>)
    requires AttemptInv(root, steps, nodes, staged, resolved, added, addedNodes, newIds)
    ensures |added| == |addedNodes| && |steps| == |nodes| && StagedDenotes(root, steps, staged)
    ensures |resolved| < |staged| ==>
              && RefOk(steps, |resolved|, staged[|resolved|].parent)
              && ResolveId(staged[|resolved|].parent, resolved) < |steps| + |added|
  {
    if |resolved| < |staged| {
      assert RefOk(steps, |resolved|, staged[|resolved|].parent);
      ResolvedPath(steps, steps + added, staged, resolved, staged[|resolved|].parent);
    }
  }

  /**
   One attempt under the lock: every staged node gets an existing or a planned ID. Each staged node is charged one unit
   of work.
   */
  method Reconcile(shared: SharedRegistries, staging: ExpansionStaging, budget: ExpansionBudget)
    returns (failure: Option<Failure>, a: Attempt)
    requires shared.Valid() && staging.Valid() && StagedDenotes(shared.root, shared.registry.steps, staging.nodes)
    modifies staging`nodes, budget`checks, budget`work
    ensures staging.Valid() && SameStaging(old(staging.nodes), staging.nodes)
    ensures StagedDenotes(shared.root, shared.registry.steps, staging.nodes)
    ensures failure.None? ==> AttemptOk(shared, staging.nodes, a) && |a.resolved| == |staging.nodes|
    ensures failure.None? ==> budget.work == old(budget.work) + |staging.nodes|
    ensures failure.None? && staging.nodes != [] ==> budget.work <= budget.maxWork
    ensures old(budget.work) <= budget.work <= old(budget.work) + |staging.nodes|
    ensures Settled(shared.registry.idToNode + a.addedNodes, staging.nodes, a.resolved)
    ensures a.retired == 0 ==> staging.nodes == old(staging.nodes)
    ensures a.retired > 0 ==> staging.nodes != []
    ensures Canonical(shared.registry.steps, shared.registry.idToNode, old(staging.nodes)) ==> a.retired == 0
    ensures failure.None? ==> Canonical(shared.registry.steps, shared.registry.idToNode, staging.nodes)
    ensures Ordered(shared.registry.steps) && StagedOk(shared.registry.steps, staging.nodes)
    ensures failure.Some? ==>
              || budget.Explains(failure.value)
              || StagedTrouble(shared, staging.nodes, failure.value)
  {
    hide Settled, Canonical, StagedDenotes, AttemptInv, Sound, Denotes, StagedTrouble, GS.WellShaped, GS.ProductsOf,
         GS.ChainsOf, WellFormed, SharedRegistries.Valid;
    shared.Facts();
    failure, a := None, Attempt([], [], [], map[], 0);
    SoundDenotes(shared.root, shared.bounds, shared.Now());
    AttemptStart(shared.root, shared.registry.steps, shared.registry.idToNode, staging.nodes);
    StagedShape(shared.root, shared.registry.steps, staging.nodes);
    while failure.None? && |a.resolved| < |staging.nodes|
      invariant staging.Valid() && SameStaging(old(staging.nodes), staging.nodes)
      invariant StagedOk(shared.registry.steps, staging.nodes)
      invariant AttemptOk(shared, staging.nodes, a) && |a.resolved| <= |staging.nodes|
      invariant failure.None? ==> budget.work == old(budget.work) + |a.resolved|
      invariant failure.None? && |a.resolved| > 0 ==> budget.work <= budget.maxWork
      invariant old(budget.work) <= budget.work <= old(budget.work) + |staging.nodes|
      invariant Settled(shared.registry.idToNode + a.addedNodes, staging.nodes, a.resolved)
      invariant a.retired == 0 ==> staging.nodes == old(staging.nodes)
      invariant a.retired > 0 ==> staging.nodes != []
      invariant Canonical(shared.registry.steps, shared.registry.idToNode, old(staging.nodes)) ==> a.retired == 0
      invariant failure.Some? ==>
                  || budget.Explains(failure.value)
                  || StagedTrouble(shared, staging.nodes, failure.value)
      decreases failure.None?, |staging.nodes| - |a.resolved|
    {
      failure := budget.ChargeWork(1);
      if failure.None? {
        failure, a := ReconcileNext(shared, staging, a);
      }
    }
    AttemptParent(shared.root, shared.registry.steps, shared.registry.idToNode, staging.nodes, a.resolved, a.added,
                  a.addedNodes, a.newIds);
    if failure.None? {
      SettledCanonical(shared.root, shared.registry.steps, shared.registry.idToNode, staging.nodes, a.resolved, a.added,
                       a.addedNodes, a.newIds);
    }
  }

  lemma AttemptStart(root: Trie, steps: seq<Step>, nodes: seq<Owned>, staged: seq<StagedNode>)
    requires Denotes(root, steps, NodesOf(nodes)) && StagedDenotes(root, steps, staged)
    ensures AttemptInv(root, steps, nodes, staged, [], [], [], map[]) && Settled(nodes + [], staged, [])
  {
    assert steps + [] == steps && nodes + [] == nodes;
  }

  // ---------------------------------------------------------------- transitions of a product state

  datatype PendingArc = PendingArc(target: Ref, pos: nat, cost: nat, input: string, output: string, weight: nat)

  function First(s: string): Option<char> { if s == [] then None else Some(s[0]) }

  /**
   Transition `t` realises an operation that reads `input`, writes `output` and leads to `product`: directly if it has
   at most one label on each side, otherwise through the complete emission chain that starts at `t.to`.
   */
  ghost predicate ArcMeans(states: seq<GS.State>, t: Transition, from: nat, input: string, output: string, weight: nat,
                           product: GS.Product)
  {
    && t.from == from && t.input == First(input) && t.output == First(output) && t.weight == weight
    && exists target: nat ::
         && target < |states| && states[target] == GS.ProductState(product)
         && if |input| <= 1 && |output| <= 1 then t.to == target
            else GS.ChainAt(states, GS.Chain(input, output, target), t.to)
  }

  lemma ArcMeansStable(states: seq<GS.State>, more: seq<GS.State>, t: Transition, from: nat, input: string,
                       output: string, weight: nat, product: GS.Product)
    requires ArcMeans(states, t, from, input, output, weight, product) && states <= more
    ensures ArcMeans(more, t, from, input, output, weight, product)
  {
    var target: nat :| && target < |states| && states[target] == GS.ProductState(product)
                       && if |input| <= 1 && |output| <= 1 then t.to == target
                          else GS.ChainAt(states, GS.Chain(input, output, target), t.to);
    assert more == states + more[|states|..];
    if |input| > 1 || |output| > 1 {
      GS.ChainAtStable(states, more[|states|..], GS.Chain(input, output, target), t.to);
    }
    assert more[target] == GS.ProductState(product);
  }

  /** `s` is the product state of such an operation, or belongs to its emission chain. */
  ghost predicate ServesArc(states: seq<GS.State>, s: GS.State, input: string, output: string, product: GS.Product) {
    || s == GS.ProductState(product)
    || (&& s.EmitState? && s.chain.Width() >= 2 && s.chain.input == input && s.chain.output == output
        && s.chain.target < |states| && states[s.chain.target] == GS.ProductState(product))
  }

  /** Such an operation needs `count` more states: its product, or else its whole chain. */
  ghost predicate Lacks(states: seq<GS.State>, input: string, output: string, product: GS.Product, count: nat) {
    if product !in GS.ProductsOf(states) then count == 1
    else
      var c := GS.Chain(input, output, GS.ProductsOf(states)[product]);
      c.Width() >= 2 && c !in GS.ChainsOf(states) && count == c.Width() - 1
  }

  /** `count` states break the retained limit, or reach the sentinel. */
  predicate BreaksLimit(f: Failure, count: nat, limit: nat) {
    (f == StatesExceeded && count > limit) || (f == SentinelReached && count > GS.NO_STATE)
  }

  function FailureOf(e: GS.BatchError): Failure {
    match e
    case LimitExceeded => StatesExceeded
    case SentinelReached => Failure.SentinelReached
  }

  function ProductOf(arc: PendingArc, resolved: seq<nat>): GS.Product
    requires arc.target.Staged? ==> arc.target.index < |resolved|
  {
    GS.Product(ResolveId(arc.target, resolved), arc.pos, arc.cost)
  }

  /** One arc: its target product, its emission chain if it needs one, and its first transition. */
  method StageArc(batch: GS.StateBatch, from: nat, arc: PendingArc, product: GS.Product, limit: nat, ghost nodes: nat,
                  ghost e: GS.Extent)
    returns (failure: Option<Failure>, t: Transition)
    requires batch.Valid() && |batch.All()| <= limit && GS.Linked(batch.All(), nodes, e) && GS.Inside(product, nodes, e)
    modifies batch
    ensures batch.Valid() && old(batch.All()) <= batch.All() && |batch.All()| <= limit
    ensures GS.Linked(batch.All(), nodes, e)
    ensures failure.None? ==> ArcMeans(batch.All(), t, from, arc.input, arc.output, arc.weight, product)
    ensures forall i :: old(|batch.All()|) <= i < |batch.All()| ==>
              ServesArc(batch.All(), batch.All()[i], arc.input, arc.output, product)
    ensures failure.Some? ==>
              exists count: nat :: && Lacks(batch.All(), arc.input, arc.output, product, count)
                                   && BreaksLimit(failure.value, |batch.All()| + count, limit)
  {
    hide GS.WellShaped, GS.ChainAt, GS.ProductsOf, GS.ChainsOf, GS.Linked;
    t := Transition(from, First(arc.input), First(arc.output), 0, arc.weight);
    BatchShape(batch);
    ProductServes(batch.All(), arc.input, arc.output, product, limit, nodes, e);
    ghost var before := batch.All();
    var target := batch.Product(product, limit);
    if target.Refused? {
      assert Lacks(before, arc.input, arc.output, product, 1);
      return Some(FailureOf(target.error)), t;
    }
    var to := target;
    if |arc.input| > 1 || |arc.output| > 1 {
      var c := GS.Chain(arc.input, arc.output, target.id);
      ghost var middle := batch.All();
      BatchShape(batch);
      ChainServes(middle, c, product, limit, nodes, e);
      to := batch.Chain(c, limit);
      if to.Refused? {
        assert Lacks(middle, arc.input, arc.output, product, c.Width() - 1);
        return Some(FailureOf(to.error)), t;
      }
    }
    return None, t.(to := to.id);
  }

  lemma BatchShape(batch: GS.StateBatch)
    requires batch.Valid()
    ensures GS.WellShaped(batch.All())
  {
  }

  /** What asking for a product appends serves its arc. */
  lemma {:induction false} ProductServes(states: seq<GS.State>, input: string, output: string, p: GS.Product,
                                         limit: nat, nodes: nat, e: GS.Extent)
    requires GS.WellShaped(states) && GS.Linked(states, nodes, e) && |states| <= limit && GS.Inside(p, nodes, e)
    ensures var all := GS.WithProduct(states, p, limit);
            && states <= all && GS.WellShaped(all) && GS.Linked(all, nodes, e) && |all| <= limit
            && forall i :: |states| <= i < |all| ==> ServesArc(all, all[i], input, output, p)
  {
    hide GS.WellShaped, GS.ProductsOf, GS.Linked;
    GS.WithProductKeeps(states, p, limit, nodes, e);
  }

  /** So does what asking for its chain appends; and the chain's target is where the product map says. */
  lemma {:induction false} ChainServes(states: seq<GS.State>, c: GS.Chain, p: GS.Product, limit: nat, nodes: nat,
                                       e: GS.Extent)
    requires GS.WellShaped(states) && GS.Linked(states, nodes, e) && |states| <= limit
    requires c.Width() >= 2 && c.target < |states| && states[c.target] == GS.ProductState(p)
    ensures p in GS.ProductsOf(states) && GS.ProductsOf(states)[p] == c.target
    ensures var all := GS.WithChain(states, c, limit);
            && states <= all && GS.WellShaped(all) && GS.Linked(all, nodes, e) && |all| <= limit
            && (forall i :: |states| <= i < |all| ==> ServesArc(all, all[i], c.input, c.output, p))
            && forall s :: ServesArc(states, s, c.input, c.output, p) ==> ServesArc(all, s, c.input, c.output, p)
  {
    hide GS.ProductsOf, GS.ChainsOf, GS.Linked, GS.EmitsInChains, GS.OneStartPerChain;
    GS.ProductsInverse(states, p);
    GS.WithChainKeeps(states, c, limit, nodes, e);
  }

  // ---------------------------------------------------------------- what a transaction owes and adds

  /** What an arc stands for: the dictionary path of its target, its place in the query, its cost, labels and weight. */
  datatype Goal = Goal(path: string, pos: nat, cost: nat, input: string, output: string, weight: nat)

  ghost predicate GoalOfArc(g: Goal, arc: PendingArc) {
    g == Goal(g.path, arc.pos, arc.cost, arc.input, arc.output, arc.weight)
  }

  /** `t` realises `g`: its product state's node is the one reached by the path. */
  ghost predicate Achieves(steps: seq<Step>, states: seq<GS.State>, from: nat, g: Goal, t: Transition)
    requires Ordered(steps)
  {
    exists id: nat ::
      && id < |steps| && PathOf(steps, id) == g.path
      && ArcMeans(states, t, from, g.input, g.output, g.weight, GS.Product(id, g.pos, g.cost))
  }

  /** State `s` serves `g`. */
  ghost predicate Serves(steps: seq<Step>, states: seq<GS.State>, g: Goal, s: GS.State)
    requires Ordered(steps)
  {
    exists id: nat ::
      id < |steps| && PathOf(steps, id) == g.path &&
      ServesArc(states, s, g.input, g.output, GS.Product(id, g.pos, g.cost))
  }

  ghost predicate ServesSome(steps: seq<Step>, states: seq<GS.State>, goals: seq<Goal>, s: GS.State)
    requires Ordered(steps)
  {
    exists j :: 0 <= j < |goals| && Serves(steps, states, goals[j], s)
  }

  /**
   `w'` adds to `w` nothing but nodes for `paths` and states for `goals`: every new node ID denotes one of the paths,
   and every new state serves one of the goals.
   */
  ghost predicate Adds(w: World, w': World, paths: iset<string>, goals: seq<Goal>) {
    && Extends(w, w') && Ordered(w'.steps)
    && (forall id :: |w.steps| <= id < |w'.steps| ==> PathOf(w'.steps, id) in paths)
    && forall i :: |w.states| <= i < |w'.states| ==> ServesSome(w'.steps, w'.states, goals, w'.states[i])
  }

  /** In `w` goal `g` needs `count` more states. */
  ghost predicate Wants(w: World, g: Goal, count: nat)
    requires Ordered(w.steps)
  {
    exists id: nat ::
      id < |w.steps| && PathOf(w.steps, id) == g.path &&
      Lacks(w.states, g.input, g.output, GS.Product(id, g.pos, g.cost), count)
  }

  /**
   Failures for want of states: in some sound world that adds only what is owed, a goal needs more states than the limit
   or the sentinel leaves.
   */
  ghost predicate StateTrouble(f: Failure, root: Trie, b: Bounds, w: World, paths: iset<string>, goals: seq<Goal>) {
    exists w': World, j: nat, count: nat ::
      && Sound(root, b, w') && Adds(w, w', paths, goals) && j < |goals|
      && Wants(w', goals[j], count) && BreaksLimit(f, |w'.states| + count, b.states)
  }

  /** Failures that the contents of the registries bear out. */
  ghost predicate Trouble(f: Failure, root: Trie, b: Bounds, w: World, paths: iset<string>, goals: seq<Goal>)
    requires Ordered(w.steps)
  {
    NodeTrouble(f, root, w.steps, paths, b) || StateTrouble(f, root, b, w, paths, goals)
  }

  /** Allowing more paths keeps additions and troubles what they are. */
  lemma {:induction false} TroubleWidens(f: Failure, root: Trie, b: Bounds, w: World, paths: iset<string>,
                                         more: iset<string>, goals: seq<Goal>)
    requires Ordered(w.steps) && Trouble(f, root, b, w, paths, goals) && paths <= more
    ensures Trouble(f, root, b, w, more, goals)
  {
    hide Sound, Wants, PathOf, ServesSome, BreaksLimit;
    if StateTrouble(f, root, b, w, paths, goals) {
      var w', j: nat, count: nat :| && Sound(root, b, w') && Adds(w, w', paths, goals) && j < |goals|
                                    && Wants(w', goals[j], count) && BreaksLimit(f, |w'.states| + count, b.states);
      assert Adds(w, w', more, goals);
    } else {
      OverfullWidens(root, w.steps, paths, more, b.nodes);
      OverfullWidens(root, w.steps, paths, more, U32_MAX + 1);
    }
  }

  lemma OverfullWidens(root: Trie, steps: seq<Step>, paths: iset<string>, more: iset<string>, limit: nat)
    requires Ordered(steps) && paths <= more
    ensures Overfull(root, steps, paths, limit) ==> Overfull(root, steps, more, limit)
  {
    hide IsRegistered, Walk;
    if Overfull(root, steps, paths, limit) {
      var found: seq<string> :|
        Distinct(found) && |steps| + |found| > limit && forall i :: 0 <= i < |found| ==>
          IsNew(root, steps, paths, found[i]);
      assert forall i :: 0 <= i < |found| ==> IsNew(root, steps, more, found[i]);
    }
  }

  // ---------------------------------------------------------------- the transaction

  datatype CommitResult = Committed(ts: seq<Transition>) | Aborted(failure: Failure)

  /** Every pending arc refers to a staged or registered node. */
  ghost predicate ArcsOk(steps: seq<Step>, staged: nat, arcs: seq<PendingArc>, e: GS.Extent) {
    forall j :: 0 <= j < |arcs| ==>
        RefOk(steps, staged, arcs[j].target) && arcs[j].pos <= e.pos && arcs[j].cost <= e.cost
  }

  ghost function GoalOf(steps: seq<Step>, staged: seq<StagedNode>, arc: PendingArc): Goal
    requires Ordered(steps) && StagedOk(steps, staged) && RefOk(steps, |staged|, arc.target)
  {
    Goal(RefPath(steps, staged, arc.target), arc.pos, arc.cost, arc.input, arc.output, arc.weight)
  }

  ghost function GoalsOf(steps: seq<Step>, staged: seq<StagedNode>, arcs: seq<PendingArc>, e: GS.Extent)
    : (goals: seq<Goal>)
    requires Ordered(steps) && StagedOk(steps, staged) && ArcsOk(steps, |staged|, arcs, e)
    ensures |goals| == |arcs| && forall j :: 0 <= j < |arcs| ==> goals[j] == GoalOf(steps, staged, arcs[j])
  {
    seq(|arcs|, j requires 0 <= j < |arcs| => GoalOf(steps, staged, arcs[j]))
  }

  /** The locks are free while nodes are staged: the staged nodes keep their meaning. */
  method LetOthersPublish(shared: SharedRegistries, ghost staged: seq<StagedNode>)
    requires shared.Valid() && StagedDenotes(shared.root, shared.registry.steps, staged)
    modifies shared.registry, shared.states, shared`owners, shared`schedule
    ensures shared.Valid() && shared.OthersOnly()
    ensures StagedDenotes(shared.root, shared.registry.steps, staged)
    ensures Ordered(shared.registry.steps) && StagedOk(shared.registry.steps, staged)
    ensures |shared.schedule| == if old(shared.schedule) == [] then 0 else old(|shared.schedule|) - 1
    ensures old(shared.schedule) == [] ==> unchanged(shared.registry)
  {
    hide StagedDenotes, Denotes, Sound, Interfered, GS.WellShaped, GS.ProductsOf, GS.ChainsOf, WellFormed, Distinct,
         StepKey;
    ghost var w0 := shared.Now();
    shared.Yield();
    SoundDenotes(shared.root, shared.bounds, shared.Now());
    StagedDenotesStable(shared.root, w0.steps, shared.registry.steps, staged);
    StagedShape(shared.root, shared.registry.steps, staged);
  }

  /** What some attempts on `n` staged nodes are charged. */
  function AttemptsWork(attempts: nat, n: nat): nat { attempts * n }

  lemma AttemptsWorkNext(attempts: nat, n: nat)
    ensures AttemptsWork(attempts + 1, n) == AttemptsWork(attempts, n) + n
  {
  }

  lemma AttemptsWorkGrows(attempts: nat, attempts': nat, n: nat, n': nat)
    requires attempts <= attempts' && n <= n'
    ensures AttemptsWork(attempts, n) <= AttemptsWork(attempts', n')
  {
    assert 0 <= (attempts' - attempts) * n && 0 <= attempts' * (n' - n);
  }

  /**
   Retry until no staged node has a foreign owner. Between attempts the locks are free and other clones publish. The
   loop ends because every retry has charged work against the budget, and at the latest in the second attempt after the
   others have fallen silent.
   */
  method ReconcileAll(shared: SharedRegistries, staging: ExpansionStaging, budget: ExpansionBudget)
    returns (failure: Option<Failure>, a: Attempt)
    requires shared.Valid() && staging.Valid() && StagedDenotes(shared.root, shared.registry.steps, staging.nodes)
    modifies shared.registry, shared.states, shared`owners, shared`schedule, staging`nodes, budget`checks, budget`work
    ensures shared.Valid() && shared.OthersOnly() && staging.Valid() && SameStaging(old(staging.nodes), staging.nodes)
    ensures StagedDenotes(shared.root, shared.registry.steps, staging.nodes)
    ensures failure.None? ==> AttemptOk(shared, staging.nodes, a) && |a.resolved| == |staging.nodes|
    ensures failure.None? ==>
              a.retired == 0 && Settled(shared.registry.idToNode + a.addedNodes, staging.nodes, a.resolved)
    ensures Ordered(shared.registry.steps) && StagedOk(shared.registry.steps, staging.nodes)
    ensures failure.Some? ==>
              || budget.Explains(failure.value)
              || StagedTrouble(shared, staging.nodes, failure.value)
    ensures old(budget.work) <= budget.work
    ensures budget.work <= old(budget.work) + AttemptsWork(old(|shared.schedule|) + 2, |staging.nodes|)
  {
    hide Settled, OwnersShared, StagedDenotes, AttemptInv, Denotes, Sound, Interfered, NodeTrouble, StagedPaths,
         Canonical, AttemptsWork, GS.WellShaped, GS.ProductsOf, GS.ChainsOf, WellFormed, Distinct, StepKey,
         SharedRegistries.Valid;
    ghost var w0, s0, n, attempts := shared.Now(), shared.schedule, |staging.nodes|, 0;
    InterferedNot(shared.bounds, w0, s0);
    AttemptsWorkGrows(0, 0, 0, n);
    while true
      invariant shared.Valid() && Interfered(shared.bounds, w0, s0, shared.Now(), shared.schedule)
      invariant Extends(w0, shared.Now())
      invariant staging.Valid() && SameStaging(old(staging.nodes), staging.nodes)
      invariant StagedDenotes(shared.root, shared.registry.steps, staging.nodes)
      invariant old(budget.work) <= budget.work <= old(budget.work) + AttemptsWork(attempts, n)
      invariant attempts + |shared.schedule| <= |s0| + 1
      invariant attempts + |shared.schedule| == |s0| + 1 ==>
                  Canonical(shared.registry.steps, shared.registry.idToNode, staging.nodes)
      decreases budget.maxWork - budget.work
    {
      AttemptsWorkNext(attempts, n);
      AttemptsWorkGrows(attempts + 1, |s0| + 2, n, n);
      failure, a := Reconcile(shared, staging, budget);
      attempts := attempts + 1;
      if failure.Some? || a.retired == 0 {
        return;
      }
      ghost var w1, s1 := shared.Now(), shared.schedule;
      LetOthersPublish(shared, staging.nodes);
      InterferedTwice(shared.bounds, w0, s0, w1, s1, shared.Now(), shared.schedule);
      failure := budget.Check();
      if failure.Some? {
        return;
      }
    }
  }

  /** Every arc's target resolves, after the additions, to the node of its goal. */
  ghost predicate ResolvesTo(all: seq<Step>, resolved: seq<nat>, arcs: seq<PendingArc>, goals: seq<Goal>, e: GS.Extent)
    requires Ordered(all)
  {
    && |goals| == |arcs|
    && forall j :: 0 <= j < |arcs| ==>
         var ref := arcs[j].target;
         && (ref.Staged? ==> ref.index < |resolved|) && ResolveId(ref, resolved) < |all|
         && PathOf(all, ResolveId(ref, resolved)) == goals[j].path && GoalOfArc(goals[j], arcs[j])
         && arcs[j].pos <= e.pos && arcs[j].cost <= e.cost
  }

  /** What staging the first `n` arcs has brought about. */
  ghost predicate ArcsStaged(all: seq<Step>, base: nat, states: seq<GS.State>, from: nat, goals: seq<Goal>,
                             ts: seq<Transition>)
    requires Ordered(all)
  {
    && base <= |states| && |ts| <= |goals|
    && (forall j :: 0 <= j < |ts| ==> Achieves(all, states, from, goals[j], ts[j]))
    && forall i :: base <= i < |states| ==> ServesSome(all, states, goals, states[i])
  }

  lemma ServesStable(all: seq<Step>, states: seq<GS.State>, more: seq<GS.State>, goals: seq<Goal>, s: GS.State)
    requires Ordered(all) && ServesSome(all, states, goals, s) && states <= more
    ensures ServesSome(all, more, goals, s)
  {
    hide PathOf;
    var j :| 0 <= j < |goals| && Serves(all, states, goals[j], s);
    var id: nat :| && id < |all| && PathOf(all, id) == goals[j].path
                   && ServesArc(states, s, goals[j].input, goals[j].output,
                                GS.Product(id, goals[j].pos, goals[j].cost));
    assert ServesArc(more, s, goals[j].input, goals[j].output, GS.Product(id, goals[j].pos, goals[j].cost));
    assert Serves(all, more, goals[j], s);
  }

  lemma {:induction false} AchievesStable(all: seq<Step>, states: seq<GS.State>, more: seq<GS.State>, from: nat,
                                          g: Goal, t: Transition)
    requires Ordered(all) && Achieves(all, states, from, g, t) && states <= more
    ensures Achieves(all, more, from, g, t)
  {
    hide PathOf, ArcMeans;
    var id: nat :| && id < |all| && PathOf(all, id) == g.path
                   && ArcMeans(states, t, from, g.input, g.output, g.weight, GS.Product(id, g.pos, g.cost));
    ArcMeansStable(states, more, t, from, g.input, g.output, g.weight, GS.Product(id, g.pos, g.cost));
  }

  /** One more arc. */
  lemma {:induction false} ArcsStagedGrow(all: seq<Step>, base: nat, states: seq<GS.State>, more: seq<GS.State>,
                                          from: nat, goals: seq<Goal>, ts: seq<Transition>, id: nat, j: nat)
    requires Ordered(all) && ArcsStaged(all, base, states, from, goals, ts) && states <= more && j < |goals|
    requires id < |all| && PathOf(all, id) == goals[j].path
    requires forall i :: |states| <= i < |more| ==>
               ServesArc(more, more[i], goals[j].input, goals[j].output, GS.Product(id, goals[j].pos, goals[j].cost))
    ensures ArcsStaged(all, base, more, from, goals, ts)
  {
    hide PathOf, ServesArc, Achieves, ServesSome;
    forall i | 0 <= i < |ts| ensures Achieves(all, more, from, goals[i], ts[i]) {
      AchievesStable(all, states, more, from, goals[i], ts[i]);
    }
    forall i | base <= i < |more| ensures ServesSome(all, more, goals, more[i]) {
      if i < |states| {
        ServesStable(all, states, more, goals, states[i]);
      } else {
        ServesHere(all, more, goals, more[i], id, j);
      }
    }
  }

  lemma {:induction false} ServesHere(all: seq<Step>, states: seq<GS.State>, goals: seq<Goal>, s: GS.State, id: nat,
                                      j: nat)
    requires Ordered(all) && id < |all| && j < |goals| && PathOf(all, id) == goals[j].path
    requires ServesArc(states, s, goals[j].input, goals[j].output, GS.Product(id, goals[j].pos, goals[j].cost))
    ensures ServesSome(all, states, goals, s)
  {
    hide PathOf, ServesArc;
    assert Serves(all, states, goals[j], s);
  }

  /** The work of staging arcs. */
  function ArcsWork(arcs: seq<PendingArc>): nat {
    if arcs == [] then 0
    else
      var last := arcs[|arcs| - 1];
      ArcsWork(arcs[..|arcs| - 1]) + 1 + 8 * (|last.input| + |last.output|)
  }

  lemma {:induction false} ArcsWorkTake(arcs: seq<PendingArc>, i: nat)
    requires i < |arcs|
    ensures ArcsWork(arcs[..i + 1]) == ArcsWork(arcs[..i]) + 1 + 8 * (|arcs[i].input| + |arcs[i].output|)
    ensures ArcsWork(arcs[..i + 1]) <= ArcsWork(arcs)
    decreases |arcs| - i
  {
    assert arcs[..i + 1][..i] == arcs[..i];
    if i + 1 < |arcs| {
      ArcsWorkTake(arcs, i + 1);
    } else {
      assert arcs[..i + 1] == arcs;
    }
  }

  /** A goal that does not fit. */
  ghost predicate NoRoomFor(f: Failure, all: seq<Step>, states: seq<GS.State>, goals: seq<Goal>, limit: nat)
    requires Ordered(all)
  {
    exists j: nat, count: nat ::
      j < |goals| && Wants(World(all, [], states), goals[j], count) && BreaksLimit(f, |states| + count, limit)
  }

  /** The next arc becomes a transition. */
  method StageNext(batch: GS.StateBatch, from: nat, arcs: seq<PendingArc>, resolved: seq<nat>, ts: seq<Transition>,
                   limit: nat, ghost all: seq<Step>, ghost base: nat, ghost goals: seq<Goal>, ghost e: GS.Extent)
    returns (failure: Option<Failure>, ts': seq<Transition>)
    requires batch.Valid() && |batch.All()| <= limit && GS.Linked(batch.All(), |all|, e) && |ts| < |arcs|
    requires Ordered(all) && ResolvesTo(all, resolved, arcs, goals, e)
    requires ArcsStaged(all, base, batch.All(), from, goals, ts)
    modifies batch
    ensures batch.Valid() && old(batch.All()) <= batch.All() && |batch.All()| <= limit
    ensures GS.Linked(batch.All(), |all|, e)
    ensures ArcsStaged(all, base, batch.All(), from, goals, ts')
    ensures failure.None? ==> |ts'| == |ts| + 1
    ensures failure.Some? ==> NoRoomFor(failure.value, all, batch.All(), goals, limit)
  {
    hide ArcMeans, GS.Linked, PathOf, ArcsStaged, ServesArc, Lacks, BreaksLimit, ResolvesTo, GS.WellShaped,
         GS.ProductsOf, GS.ChainsOf, NoRoomFor;
    ghost var before := batch.All();
    var i := |ts|;
    ArcTarget(all, resolved, arcs, goals, e, i);
    var t;
    failure, t := StageArc(batch, from, arcs[i], ProductOf(arcs[i], resolved), limit, |all|, e);
    ghost var id := ResolveId(arcs[i].target, resolved);
    ArcsStagedGrow(all, base, before, batch.All(), from, goals, ts, id, i);
    ts' := ts;
    if failure.Some? {
      NoRoomHere(failure.value, all, batch.All(), goals, limit, id, i);
      return;
    }
    ArcsStagedSnoc(all, base, batch.All(), from, goals, ts, t, id);
    ts' := ts + [t];
  }

  /** All arcs become transitions of a batch on top of the state registry. */
  method StageArcs(states: GS.StateRegistry, from: nat, arcs: seq<PendingArc>, resolved: seq<nat>,
                   budget: ExpansionBudget, limit: nat, ghost all: seq<Step>, ghost goals: seq<Goal>,
                   ghost e: GS.Extent)
    returns (failure: Option<Failure>, batch: GS.StateBatch, ts: seq<Transition>)
    requires states.Valid() && |states.idToState| <= limit && GS.Linked(states.idToState, |all|, e)
    requires Ordered(all) && ResolvesTo(all, resolved, arcs, goals, e)
    modifies budget`checks, budget`work
    ensures fresh(batch) && batch.registry == states && batch.Valid() && states.idToState <= batch.All()
    ensures |batch.All()| <= limit && GS.Linked(batch.All(), |all|, e)
    ensures ArcsStaged(all, |states.idToState|, batch.All(), from, goals, ts)
    ensures failure.None? ==> |ts| == |arcs| && budget.work == old(budget.work) + ArcsWork(arcs)
    ensures old(budget.work) <= budget.work <= old(budget.work) + ArcsWork(arcs)
    ensures failure.Some? ==> budget.Explains(failure.value) || NoRoomFor(failure.value, all, batch.All(), goals, limit)
  {
    hide ArcMeans, GS.Linked, PathOf, ArcsStaged, NoRoomFor, ResolvesTo, GS.WellShaped, GS.ProductsOf, GS.ChainsOf;
    batch := new GS.StateBatch(states);
    failure, ts := None, [];
    ArcsStagedNone(all, batch.All(), from, goals);
    for i := 0 to |arcs|
      invariant batch.Valid() && states.idToState <= batch.All()
      invariant |batch.All()| <= limit && GS.Linked(batch.All(), |all|, e) && |ts| == i
      invariant ArcsStaged(all, |states.idToState|, batch.All(), from, goals, ts)
      invariant failure.None? && budget.work == old(budget.work) + ArcsWork(arcs[..i])
    {
      ArcsWorkTake(arcs, i);
      failure := budget.ChargeWork(1 + 8 * (|arcs[i].input| + |arcs[i].output|));
      if failure.Some? {
        return;
      }
      failure, ts := StageNext(batch, from, arcs, resolved, ts, limit, all, |states.idToState|, goals, e);
      if failure.Some? {
        return;
      }
    }
    assert arcs[..|arcs|] == arcs;
  }

  lemma {:induction false} ArcTarget(all: seq<Step>, resolved: seq<nat>, arcs: seq<PendingArc>, goals: seq<Goal>,
                                     e: GS.Extent, j: nat)
    requires Ordered(all) && ResolvesTo(all, resolved, arcs, goals, e) && j < |arcs|
    ensures |goals| == |arcs| && (arcs[j].target.Staged? ==> arcs[j].target.index < |resolved|)
    ensures GS.Inside(ProductOf(arcs[j], resolved), |all|, e)
    ensures PathOf(all, ResolveId(arcs[j].target, resolved)) == goals[j].path && GoalOfArc(goals[j], arcs[j])
  {
  }

  lemma ArcsStagedNone(all: seq<Step>, states: seq<GS.State>, from: nat, goals: seq<Goal>)
    requires Ordered(all)
    ensures ArcsStaged(all, |states|, states, from, goals, [])
  {
  }

  lemma {:induction false} NoRoomHere(f: Failure, all: seq<Step>, states: seq<GS.State>, goals: seq<Goal>, limit: nat,
                                      id: nat, j: nat)
    requires Ordered(all) && id < |all| && j < |goals| && PathOf(all, id) == goals[j].path
    requires exists count: nat ::
               && Lacks(states, goals[j].input, goals[j].output, GS.Product(id, goals[j].pos, goals[j].cost), count)
               && BreaksLimit(f, |states| + count, limit)
    ensures NoRoomFor(f, all, states, goals, limit)
  {
    hide PathOf, Lacks, BreaksLimit;
    var count: nat :|
      Lacks(states, goals[j].input, goals[j].output, GS.Product(id, goals[j].pos, goals[j].cost), count) &&
      BreaksLimit(f, |states| + count, limit);
    assert Wants(World(all, [], states), goals[j], count);
  }

  lemma {:induction false} ArcsStagedSnoc(all: seq<Step>, base: nat, states: seq<GS.State>, from: nat, goals: seq<Goal>,
                                          ts: seq<Transition>, t: Transition, id: nat)
    requires Ordered(all) && ArcsStaged(all, base, states, from, goals, ts) && |ts| < |goals|
    requires id < |all| && PathOf(all, id) == goals[|ts|].path
    requires var g := goals[|ts|]; ArcMeans(states, t, from, g.input, g.output, g.weight, GS.Product(id, g.pos, g.cost))
    ensures ArcsStaged(all, base, states, from, goals, ts + [t])
  {
    hide PathOf, ArcMeans, ServesSome;
    assert Achieves(all, states, from, goals[|ts|], t);
  }

  /** The linearization point: nodes and states become visible together. */
  method Publish(shared: SharedRegistries, ghost staged: seq<StagedNode>, a: Attempt, batch: GS.StateBatch)
    requires shared.Valid() && AttemptOk(shared, staged, a) && batch.Valid() && batch.registry == shared.states
    requires |batch.All()| <= shared.bounds.states
    requires GS.Linked(batch.All(), |shared.registry.steps + a.added|, shared.bounds.extent)
    requires Settled(shared.registry.idToNode + a.addedNodes, staged, a.resolved) && |a.resolved| == |staged|
    modifies shared.registry, shared.states
    ensures OwnersShared(shared.registry.idToNode, staged)
    ensures shared.Valid() && shared.Now() == Planned(old(shared.Now()), a, old(batch.All()))
  {
    hide Settled, OwnersShared, AttemptInv, Denotes, GS.WellShaped, GS.ProductsOf, GS.ChainsOf, GS.Linked;
    AttemptShape(shared.root, shared.registry.steps, shared.registry.idToNode, staged, a.resolved, a.added,
                 a.addedNodes, a.newIds);
    ghost var nodes := shared.registry.idToNode;
    SettledShared(nodes + a.addedNodes, staged, a.resolved);
    shared.registry.CommitPrepared(a.added, a.addedNodes);
    shared.states.CommitPrepared(batch.states);
    assert NodesOf(nodes + a.addedNodes) == NodesOf(nodes) + NodesOf(a.addedNodes);
  }

  /** The registries with an attempt's nodes and the given states. */
  ghost function Planned(w: World, a: Attempt, states: seq<GS.State>): World {
    World(w.steps + a.added, w.nodes + NodesOf(a.addedNodes), states)
  }

  /** Every staged path has an ID, every goal is achieved by its transition, and nothing else was added. */
  ghost predicate Fulfilled(w: World, w': World, paths: iset<string>, goals: seq<Goal>, from: nat,
                            ts: seq<Transition>) {
    && Adds(w, w', paths, goals) && |ts| == |goals|
    && (forall path :: path in paths ==> IsRegistered(w'.steps, path))
    && forall j :: 0 <= j < |goals| ==> Achieves(w'.steps, w'.states, from, goals[j], ts[j])
  }

  /**
   `commit_expansion`, for every schedule of other clones. On success the registries are what the other clones alone
   would have made them, plus exactly what this transaction owes: a node ID for every staged path that has none, and the
   states that serve the arcs. Each returned transition realises its arc, and leads to the node its reference stood for.
   Nothing old changes, every referenced ID exists, the limits hold and the sentinel stays unused. On failure this
   transaction leaves no trace, and the failure is borne out by the budget or by the registries.
   */
  method CommitExpansion(shared: SharedRegistries, from: nat, staging: ExpansionStaging, arcs: seq<PendingArc>,
                         budget: ExpansionBudget) returns (r: CommitResult)
    requires shared.Valid() && staging.Valid() && StagedDenotes(shared.root, shared.registry.steps, staging.nodes)
    requires ArcsOk(shared.registry.steps, |staging.nodes|, arcs, shared.bounds.extent)
    modifies shared.registry, shared.states, shared`owners, shared`schedule, staging`nodes, budget`checks, budget`work
    ensures shared.Valid() && Leftover(old(shared.schedule), shared.schedule)
    ensures Extends(old(shared.Now()), shared.Now())
    ensures Ordered(old(shared.registry.steps)) && StagedOk(old(shared.registry.steps), old(staging.nodes))
    ensures r.Committed? ==> OwnersShared(shared.registry.idToNode, staging.nodes)
    ensures old(budget.work) <= budget.work
    ensures budget.work <= old(budget.work) + AttemptsWork(old(|shared.schedule|) + 2, old(|staging.nodes|)) +
            ArcsWork(arcs)
    ensures var others := Others(shared.bounds, old(shared.Now()), old(shared.schedule), shared.schedule);
            var paths := StagedPaths(old(shared.registry.steps), old(staging.nodes));
            var goals := GoalsOf(old(shared.registry.steps), old(staging.nodes), arcs, shared.bounds.extent);
            match r
            case Committed(ts) => Fulfilled(others, shared.Now(), paths, goals, from, ts)
            case Aborted(f) =>
              && shared.Now() == others
              && Ordered(others.steps)
              && (budget.Explains(f) || Trouble(f, shared.root, shared.bounds, others, paths, goals))
  {
    hide Settled, OwnersShared, AttemptsWork, ArcsWork, StagedDenotes, AttemptInv, Denotes, Sound, Interfered, Extends,
         SameStaging, ArcsOk, StagedPaths, GoalsOf, Fulfilled, Trouble, NodeTrouble, StateTrouble, Others, Leftover,
         ResolvesTo, Ordered, Distinct, SharedRegistries.Valid;
    shared.Facts();
    ghost var w0, s0, staged0, e := shared.Now(), shared.schedule, staging.nodes, shared.bounds.extent;
    StagedShape(shared.root, w0.steps, staged0);
    SoundDenotes(shared.root, shared.bounds, w0);
    var failure, a := BeginCommit(shared, staging, budget);
    InterferedOthers(shared.bounds, w0, s0, shared.Now(), shared.schedule);
    ExtendsSteps(w0, shared.Now());
    shared.Facts();
    SoundDenotes(shared.root, shared.bounds, shared.Now());
    StagedSame(shared.root, w0.steps, staged0, shared.registry.steps, staging.nodes);
    ghost var paths := StagedPaths(w0.steps, staged0);
    ghost var goals := GoalsOf(w0.steps, staged0, arcs, e);
    if failure.Some? {
      NodeIsTrouble(failure.value, shared.root, shared.bounds, shared.Now(), paths, goals);
      return Aborted(failure.value);
    }
    ArcsResolved(shared.root, w0.steps, staged0, shared.registry.steps, shared.registry.idToNode, staging.nodes,
                 a.resolved, a.added, a.addedNodes, a.newIds, arcs, e);
    ghost var w1 := shared.Now();
    r := PublishArcs(shared, from, staging.nodes, a, arcs, budget, goals);
    ExtendsTwice(w0, w1, shared.Now());
    if r.Aborted? { StateIsTrouble(r.failure, shared.root, shared.bounds, w1, paths, goals); }
  }

  lemma InterferedOthers(b: Bounds, w: World, s: seq<seq<Foreign>>, w': World, s': seq<seq<Foreign>>)
    requires Interfered(b, w, s, w', s')
    ensures Leftover(s, s') && w' == Others(b, w, s, s')
  {
  }

  lemma ExtendsSteps(w: World, w': World)
    requires Extends(w, w')
    ensures w.steps <= w'.steps
  {
  }

  lemma ExtendsTwice(w: World, w': World, w'': World)
    requires Extends(w, w') && Extends(w', w'')
    ensures Extends(w, w'')
  {
  }

  lemma StateIsTrouble(f: Failure, root: Trie, b: Bounds, w: World, paths: iset<string>, goals: seq<Goal>)
    requires Ordered(w.steps)
    ensures StateTrouble(f, root, b, w, paths, goals) ==> Trouble(f, root, b, w, paths, goals)
  {
    hide NodeTrouble, StateTrouble;
  }

  lemma NodeIsTrouble(f: Failure, root: Trie, b: Bounds, w: World, paths: iset<string>, goals: seq<Goal>)
    requires Ordered(w.steps)
    ensures NodeTrouble(f, root, w.steps, paths, b) ==> Trouble(f, root, b, w, paths, goals)
  {
    hide NodeTrouble, StateTrouble;
  }

  /** The first half of the transaction: up to the lock section that publishes, other clones may publish too. */
  method BeginCommit(shared: SharedRegistries, staging: ExpansionStaging, budget: ExpansionBudget)
    returns (failure: Option<Failure>, a: Attempt)
    requires shared.Valid() && staging.Valid() && StagedDenotes(shared.root, shared.registry.steps, staging.nodes)
    modifies shared.registry, shared.states, shared`owners, shared`schedule, staging`nodes, budget`checks, budget`work
    ensures shared.Valid() && shared.OthersOnly() && staging.Valid() && SameStaging(old(staging.nodes), staging.nodes)
    ensures StagedDenotes(shared.root, shared.registry.steps, staging.nodes)
    ensures failure.None? ==> AttemptOk(shared, staging.nodes, a) && |a.resolved| == |staging.nodes|
    ensures failure.None? ==>
              a.retired == 0 && Settled(shared.registry.idToNode + a.addedNodes, staging.nodes, a.resolved)
    ensures Ordered(shared.registry.steps) && StagedOk(shared.registry.steps, staging.nodes)
    ensures failure.Some? ==>
              || budget.Explains(failure.value)
              || StagedTrouble(shared, staging.nodes, failure.value)
    ensures old(budget.work) <= budget.work
    ensures |staging.nodes| == old(|staging.nodes|)
    ensures budget.work <= old(budget.work) + AttemptsWork(old(|shared.schedule|) + 2, |staging.nodes|)
  {
    hide Settled, OwnersShared, Canonical, AttemptsWork, StagedDenotes, AttemptInv, Denotes, Sound, Interfered,
         NodeTrouble, StagedPaths, GS.WellShaped, GS.ProductsOf, GS.ChainsOf, WellFormed, Distinct, StepKey,
         SharedRegistries.Valid;
    ghost var w0, s0 := shared.Now(), shared.schedule;
    AttemptsWorkGrows(0, |s0| + 2, 0, |staging.nodes|);
    a := Attempt([], [], [], map[], 0);
    LetOthersPublish(shared, staging.nodes);
    failure := budget.Check();
    if failure.Some? {
      return;
    }
    AttemptsWorkGrows(|shared.schedule| + 2, |s0| + 2, |staging.nodes|, |staging.nodes|);
    ghost var w1, s1 := shared.Now(), shared.schedule;
    failure, a := ReconcileAll(shared, staging, budget);
    InterferedTwice(shared.bounds, w0, s0, w1, s1, shared.Now(), shared.schedule);
  }

  /** The second half of the transaction, under both locks: batch the states, check once more, publish. */
  method PublishArcs(shared: SharedRegistries, from: nat, ghost staged: seq<StagedNode>, a: Attempt,
                     arcs: seq<PendingArc>, budget: ExpansionBudget, ghost goals: seq<Goal>) returns (r: CommitResult)
    requires shared.Valid() && AttemptOk(shared, staged, a) && |a.resolved| == |staged|
    requires Ordered(shared.registry.steps) && StagedOk(shared.registry.steps, staged)
    requires Ordered(shared.registry.steps + a.added)
    requires ResolvesTo(shared.registry.steps + a.added, a.resolved, arcs, goals, shared.bounds.extent)
    requires Settled(shared.registry.idToNode + a.addedNodes, staged, a.resolved)
    modifies shared.registry, shared.states, budget`checks, budget`work
    ensures shared.Valid() && Extends(old(shared.Now()), shared.Now()) && Ordered(shared.registry.steps)
    ensures r.Committed? ==> OwnersShared(shared.registry.idToNode, staged)
    ensures old(budget.work) <= budget.work <= old(budget.work) + ArcsWork(arcs)
    ensures var paths := StagedPaths(old(shared.registry.steps), staged);
            match r
            case Committed(ts) => Fulfilled(old(shared.Now()), shared.Now(), paths, goals, from, ts)
            case Aborted(f) =>
              && shared.Now() == old(shared.Now())
              && (budget.Explains(f) || StateTrouble(f, shared.root, shared.bounds, old(shared.Now()), paths, goals))
  {
    hide Settled, OwnersShared, AttemptInv, Denotes, GS.Linked, GS.WellShaped, GS.ProductsOf, GS.ChainsOf, StagedPaths,
         Adds, IsRegistered, ResolvesTo, Achieves, StateTrouble, NoRoomFor, ArcsStaged, PathOf, Sound, WellFormed,
         Distinct, StepKey;
    ghost var w0 := shared.Now();
    ghost var all := w0.steps + a.added;
    SoundLinked(shared.root, shared.bounds, w0, |all|);
    ArcsCount(all, a.resolved, arcs, goals, shared.bounds.extent);
    var failure, batch, ts :=
      StageArcs(shared.states, from, arcs, a.resolved, budget, shared.bounds.states, all, goals, shared.bounds.extent);
    if failure.None? {
      failure := budget.Check();
    }
    BatchShape(batch);
    PlannedAdds(shared.root, shared.bounds, w0, shared.registry.idToNode, staged, a, batch.All(), from, goals, ts);
    if failure.Some? {
      NoRoomIsTrouble(failure.value, shared.root, shared.bounds, w0, staged, a, batch.All(), goals);
      return Aborted(failure.value);
    }
    ArcsAchieved(all, |w0.states|, batch.All(), from, goals, ts);
    Publish(shared, staged, a, batch);
    return Committed(ts);
  }

  lemma SoundLinked(root: Trie, b: Bounds, w: World, nodes: nat)
    requires Sound(root, b, w) && |w.steps| <= nodes
    ensures GS.Linked(w.states, nodes, b.extent) && |w.states| <= b.states
  {
  }

  lemma ArcsCount(all: seq<Step>, resolved: seq<nat>, arcs: seq<PendingArc>, goals: seq<Goal>, e: GS.Extent)
    requires Ordered(all) && ResolvesTo(all, resolved, arcs, goals, e)
    ensures |goals| == |arcs|
  {
  }

  lemma ArcsAchieved(all: seq<Step>, base: nat, states: seq<GS.State>, from: nat, goals: seq<Goal>, ts: seq<Transition>)
    requires Ordered(all) && ArcsStaged(all, base, states, from, goals, ts) && |ts| == |goals|
    ensures forall j :: 0 <= j < |goals| ==> Achieves(all, states, from, goals[j], ts[j])
  {
  }

  /** Publishing an attempt and a batch that serves the goals adds nothing else, and registers every staged path. */
  lemma {:induction false} PlannedAdds(root: Trie, b: Bounds, w: World, nodes: seq<Owned>, staged: seq<StagedNode>,
                                       a: Attempt, states: seq<GS.State>, from: nat, goals: seq<Goal>,
                                       ts: seq<Transition>)
    requires Ordered(w.steps) && StagedOk(w.steps, staged) && w.nodes == NodesOf(nodes) && |a.resolved| == |staged|
    requires AttemptInv(root, w.steps, nodes, staged, a.resolved, a.added, a.addedNodes, a.newIds)
    requires |w.steps| + |a.added| <= b.nodes
    requires Ordered(w.steps + a.added) && w.states <= states
    requires ArcsStaged(w.steps + a.added, |w.states|, states, from, goals, ts)
    requires GS.WellShaped(states) && |states| <= b.states && GS.Linked(states, |w.steps + a.added|, b.extent)
    ensures var w' := Planned(w, a, states);
            && Adds(w, w', StagedPaths(w.steps, staged), goals) && Sound(root, b, w')
            && forall path :: path in StagedPaths(w.steps, staged) ==> IsRegistered(w'.steps, path)
  {
    hide PathOf, RefPath, Walk, Achieves, ServesSome, GS.WellShaped, GS.Linked, AttemptInv, Denotes;
    AttemptShape(root, w.steps, nodes, staged, a.resolved, a.added, a.addedNodes, a.newIds);
    AttemptSpans(root, w.steps, nodes, staged, a.resolved, a.added, a.addedNodes, a.newIds);
    assert NodesOf(nodes + a.addedNodes) == NodesOf(nodes) + NodesOf(a.addedNodes);
    forall path | path in StagedPaths(w.steps, staged) ensures IsRegistered(w.steps + a.added, path) {
      var k :| 0 <= k < |staged| && path == RefPath(w.steps, staged, Staged(k));
      AttemptResolves(root, w.steps, nodes, staged, a.resolved, a.added, a.addedNodes, a.newIds, k);
    }
  }

  lemma {:induction false} AttemptResolves(root: Trie, steps: seq<Step>, nodes: seq<Owned>, staged: seq<StagedNode>,
                                           resolved: seq<nat>, added: seq<Step>, addedNodes: seq<Owned>,
                                           newIds: map<Step, nat>, k: nat)
    requires AttemptInv(root, steps, nodes, staged, resolved, added, addedNodes, newIds) && k < |resolved|
    ensures k < |staged| && Ordered(steps) && StagedOk(steps, staged) && Ordered(steps + added)
    ensures IsRegistered(steps + added, RefPath(steps, staged, Staged(k)))
  {
    ResolvedPath(steps, steps + added, staged, resolved, Staged(k));
  }

  lemma {:induction false} NoRoomIsTrouble(f: Failure, root: Trie, b: Bounds, w: World, staged: seq<StagedNode>,
                                           a: Attempt, states: seq<GS.State>, goals: seq<Goal>)
    requires Ordered(w.steps) && StagedOk(w.steps, staged) && Ordered(w.steps + a.added)
    requires Sound(root, b, Planned(w, a, states))
    requires Adds(w, Planned(w, a, states), StagedPaths(w.steps, staged), goals)
    ensures NoRoomFor(f, w.steps + a.added, states, goals, b.states) ==>
              StateTrouble(f, root, b, w, StagedPaths(w.steps, staged), goals)
  {
    hide PathOf, Lacks, Sound, Adds, StagedPaths, BreaksLimit;
    if NoRoomFor(f, w.steps + a.added, states, goals, b.states) {
      var j: nat, count: nat :| && j < |goals| && Wants(World(w.steps + a.added, [], states), goals[j], count)
                                && BreaksLimit(f, |states| + count, b.states);
      assert Wants(Planned(w, a, states), goals[j], count);
    }
  }

  lemma AttemptShape(root: Trie, steps: seq<Step>, nodes: seq<Owned>, staged: seq<StagedNode>, resolved: seq<nat>,
                     added: seq<Step>, addedNodes: seq<Owned>, newIds: map<Step, nat>)
    requires AttemptInv(root, steps, nodes, staged, resolved, added, addedNodes, newIds)
    ensures |added| == |addedNodes| && Ordered(steps + added) && Distinct(steps + added)
    ensures Denotes(root, steps + added, NodesOf(nodes + addedNodes))
  {
  }

  /** Re-owning nodes and growth of the registry change no staged path. */
  lemma {:induction false} StagedSame(root: Trie, steps0: seq<Step>, staged0: seq<StagedNode>, steps: seq<Step>,
                                      staged: seq<StagedNode>)
    requires StagedDenotes(root, steps0, staged0) && StagedDenotes(root, steps, staged) && SameStaging(staged0, staged)
    requires steps0 <= steps
    ensures Ordered(steps0) && StagedOk(steps0, staged0) && Ordered(steps) && StagedOk(steps, staged)
    ensures StagedPaths(steps, staged) == StagedPaths(steps0, staged0)
  {
    hide Walk, RefPath;
    forall k | 0 <= k < |staged| ensures RefPath(steps, staged, Staged(k)) == RefPath(steps0, staged0, Staged(k)) {
      SameMeaning(steps0, staged0, steps, staged, Staged(k));
    }
  }

  lemma {:induction false} SameMeaning(steps0: seq<Step>, staged0: seq<StagedNode>, steps: seq<Step>,
                                       staged: seq<StagedNode>, ref: Ref)
    requires Ordered(steps0) && Ordered(steps) && StagedOk(steps0, staged0) && StagedOk(steps, staged)
    requires SameStaging(staged0, staged) && steps0 <= steps && RefOk(steps0, |staged0|, ref)
    ensures RefOk(steps, |staged|, ref) && RefPath(steps, staged, ref) == RefPath(steps0, staged0, ref)
  {
    hide RefPath;
    forall k | 0 <= k < |staged0| ensures RefOk(steps, k, staged0[k].parent) {
      assert RefOk(steps0, k, staged0[k].parent);
    }
    RefStable(steps0, steps, staged0, staged0, ref);
    SameRef(steps, staged0, staged, ref);
  }

  /** Every arc's target resolves to the ID of the path it referred to when it was staged. */
  lemma {:induction false} ArcsResolved(root: Trie, steps0: seq<Step>, staged0: seq<StagedNode>, steps: seq<Step>,
                                        nodes: seq<Owned>, staged: seq<StagedNode>, resolved: seq<nat>,
                                        added: seq<Step>, addedNodes: seq<Owned>, newIds: map<Step, nat>,
                                        arcs: seq<PendingArc>, e: GS.Extent)
    requires AttemptInv(root, steps, nodes, staged, resolved, added, addedNodes, newIds) && |resolved| == |staged|
    requires Ordered(steps0) && StagedOk(steps0, staged0) && steps0 <= steps && SameStaging(staged0, staged)
    requires ArcsOk(steps0, |staged0|, arcs, e)
    ensures Ordered(steps + added) && ResolvesTo(steps + added, resolved, arcs, GoalsOf(steps0, staged0, arcs, e), e)
  {
    hide Walk, PathOf, RefPath;
    AttemptShape(root, steps, nodes, staged, resolved, added, addedNodes, newIds);
    forall j | 0 <= j < |arcs|
      ensures var ref := arcs[j].target;
              && (ref.Staged? ==> ref.index < |resolved|) && ResolveId(ref, resolved) < |steps + added|
              && PathOf(steps + added, ResolveId(ref, resolved)) == RefPath(steps0, staged0, ref)
    {
      var ref := arcs[j].target;
      assert RefOk(steps0, |staged0|, ref);
      SameMeaning(steps0, staged0, steps, staged, ref);
      ResolvedPath(steps, steps + added, staged, resolved, ref);
    }
  }
}
