/** The path search itself, against registries that other clones extend whenever the locks are free. */
module GeneralizedSearch {
  import opened Common
  import opened Dictionary
  import opened NodeRegistry
  import opened GeneralizedStaging
  import opened GeneralizedShared
  import GS = GeneralizedStates

  /** Staged nodes and the map from path steps to them. */
  class ExpansionStaging {
    var nodes: seq<StagedNode>
    var nodeByStep: map<(Ref, char), Ref>

    ghost predicate Valid()
      reads this
    {
      && (forall k :: 0 <= k < |nodes| ==>
            (nodes[k].parent, nodes[k].symbol) in nodeByStep &&
            nodeByStep[(nodes[k].parent, nodes[k].symbol)] == Staged(k))
      && (forall key :: key in nodeByStep ==>
            && nodeByStep[key].Staged? && nodeByStep[key].index < |nodes|
            && nodes[nodeByStep[key].index].parent == key.0 && nodes[nodeByStep[key].index].symbol == key.1)
    }

    constructor ()
      ensures Valid() && nodes == []
    {
      nodes, nodeByStep := [], map[];
    }

    /** A child is referred to by its registered ID, by its earlier staging, or by a new staging offset. */
    method StageChild(registered: Option<nat>, parent: Ref, symbol: char, owned: Owned) returns (ref: Ref)
      requires Valid()
      modifies this
      ensures Valid() && old(nodes) <= nodes
      ensures registered.Some? ==> ref == Registered(registered.value) && nodes == old(nodes)
      ensures registered.None? ==>
                && ref.Staged? && ref.index < |nodes|
                && nodes[ref.index].parent == parent && nodes[ref.index].symbol == symbol
                && (nodes == old(nodes) ||
                    (nodes == old(nodes) + [StagedNode(parent, symbol, owned)] && ref.index == old(|nodes|)))
    {
      if registered.Some? {
        return Registered(registered.value);
      }
      if (parent, symbol) in nodeByStep {
        return nodeByStep[(parent, symbol)];
      }
      ref := Staged(|nodes|);
      nodes := nodes + [StagedNode(parent, symbol, owned)];
      nodeByStep := nodeByStep[(parent, symbol) := ref];
    }
  }

  datatype DictPath = DictPath(target: Ref, output: string)

  datatype Frame = Frame(parent: Ref, node: Trie, next: nat)

  datatype SearchResult = Found(paths: seq<DictPath>) | NotFound(failure: Failure)

  ghost function Outputs(paths: seq<DictPath>): seq<string> {
    seq(|paths|, i requires 0 <= i < |paths| => paths[i].output)
  }

  /** What the frames, from the top down, have still to deliver. */
  ghost function Remaining(stack: seq<Frame>, prefixes: seq<string>, width: nat): seq<string>
    requires |prefixes| == |stack| <= width && forall j :: 0 <= j < |stack| ==> stack[j].next <= |stack[j].node.edges|
  {
    if stack == [] then []
    else
      var d := |stack| - 1;
      BelowFrom(prefixes[d], stack[d].node, width - d, stack[d].next) + Remaining(stack[..d], prefixes[..d], width)
  }

  /** A reference stands for `path`, which reaches `node`. */
  ghost predicate RefersTo(root: Trie, steps: seq<Step>, staged: seq<StagedNode>, ref: Ref, path: string, node: Trie)
    requires Ordered(steps) && StagedOk(steps, staged)
  {
    RefOk(steps, |staged|, ref) && RefPath(steps, staged, ref) == path && Walk(root, path) == Some(node)
  }

  /** Every found path ends at the node its output reaches from `start`. */
  ghost predicate TargetsOk(root: Trie, steps: seq<Step>, staged: seq<StagedNode>, start: string, paths: seq<DictPath>)
    requires Ordered(steps) && StagedOk(steps, staged)
  {
    forall k :: 0 <= k < |paths| ==>
      && RefOk(steps, |staged|, paths[k].target) && RefPath(steps, staged, paths[k].target) == start + paths[k].output
      && Walk(root, start + paths[k].output).Some?
  }

  ghost predicate FramesOk(root: Trie, steps: seq<Step>, staged: seq<StagedNode>, start: string, stack: seq<Frame>,
                           prefixes: seq<string>)
    requires Ordered(steps) && StagedOk(steps, staged)
  {
    && |prefixes| == |stack|
    && forall j :: 0 <= j < |stack| ==>
         && stack[j].next <= |stack[j].node.edges| && |prefixes[j]| == j
         && RefersTo(root, steps, staged, stack[j].parent, start + prefixes[j], stack[j].node)
  }

  /** The invariant of the search loop: what was found and what the stack still owes make up all paths, in order. */
  ghost predicate SearchInv(root: Trie, steps: seq<Step>, staged: seq<StagedNode>, start: string, width: nat,
                            total: seq<string>, stack: seq<Frame>, prefixes: seq<string>, output: string,
                            paths: seq<DictPath>)
  {
    && StagedDenotes(root, steps, staged)
    && FramesOk(root, steps, staged, start, stack, prefixes) && TargetsOk(root, steps, staged, start, paths)
    && |stack| <= width && (stack != [] ==> |stack| - 1 <= |output|)
    && (forall j :: 0 <= j < |stack| ==> prefixes[j] == output[..j])
    && Outputs(paths) + Remaining(stack, prefixes, width) == total
  }

  lemma TargetsStable(root: Trie, steps: seq<Step>, steps': seq<Step>, staged: seq<StagedNode>,
                      staged': seq<StagedNode>, start: string, paths: seq<DictPath>)
    requires Ordered(steps) && Ordered(steps') && steps <= steps' && staged <= staged'
    requires StagedOk(steps, staged) && StagedOk(steps', staged') && TargetsOk(root, steps, staged, start, paths)
    ensures TargetsOk(root, steps', staged', start, paths)
  {
    forall k | 0 <= k < |paths|
      ensures RefOk(steps', |staged'|, paths[k].target)
      ensures RefPath(steps', staged', paths[k].target) == start + paths[k].output
    {
      RefStable(steps, steps', staged, staged', paths[k].target);
    }
  }

  lemma FramesStable(root: Trie, steps: seq<Step>, steps': seq<Step>, staged: seq<StagedNode>, staged': seq<StagedNode>,
                     start: string, stack: seq<Frame>, prefixes: seq<string>)
    requires Ordered(steps) && Ordered(steps') && steps <= steps' && staged <= staged'
    requires StagedOk(steps, staged) && StagedOk(steps', staged')
    requires FramesOk(root, steps, staged, start, stack, prefixes)
    ensures FramesOk(root, steps', staged', start, stack, prefixes)
  {
    forall j | 0 <= j < |stack|
      ensures RefersTo(root, steps', staged', stack[j].parent, start + prefixes[j], stack[j].node)
    {
      RefStable(steps, steps', staged, staged', stack[j].parent);
    }
  }

  /** Growth of the registry and of the staging area keeps the invariant. */
  lemma InvStable(root: Trie, steps: seq<Step>, steps': seq<Step>, staged: seq<StagedNode>, staged': seq<StagedNode>,
                  start: string, width: nat, total: seq<string>, stack: seq<Frame>, prefixes: seq<string>,
                  output: string, paths: seq<DictPath>)
    requires SearchInv(root, steps, staged, start, width, total, stack, prefixes, output, paths)
    requires steps <= steps' && staged <= staged' && StagedDenotes(root, steps', staged')
    ensures SearchInv(root, steps', staged', start, width, total, stack, prefixes, output, paths)
  {
    hide FramesOk, TargetsOk, Remaining;
    FramesShape(root, steps, staged, start, stack, prefixes);
    FramesStable(root, steps, steps', staged, staged', start, stack, prefixes);
    TargetsStable(root, steps, steps', staged, staged', start, paths);
  }

  lemma FramesShape(root: Trie, steps: seq<Step>, staged: seq<StagedNode>, start: string, stack: seq<Frame>,
                    prefixes: seq<string>)
    requires Ordered(steps) && StagedOk(steps, staged) && FramesOk(root, steps, staged, start, stack, prefixes)
    ensures |prefixes| == |stack|
    ensures forall j :: 0 <= j < |stack| ==> stack[j].next <= |stack[j].node.edges| && |prefixes[j]| == j
  {
  }

  /** The top frame is exhausted. */
  lemma InvPop(root: Trie, steps: seq<Step>, staged: seq<StagedNode>, start: string, width: nat, total: seq<string>,
               stack: seq<Frame>, prefixes: seq<string>, output: string, paths: seq<DictPath>)
    requires SearchInv(root, steps, staged, start, width, total, stack, prefixes, output, paths)
    requires stack != [] && stack[|stack| - 1].next == |stack[|stack| - 1].node.edges|
    ensures var d := |stack| - 1;
            SearchInv(root, steps, staged, start, width, total, stack[..d], prefixes[..d], output[..d], paths)
  {
    var d := |stack| - 1;
    assert forall j :: 0 <= j < d ==> output[..d][..j] == output[..j];
    assert Remaining(stack, prefixes, width) == [] + Remaining(stack[..d], prefixes[..d], width);
  }

  /** Taking the next edge of the top frame, whose child is `ref`. */
  lemma InvNext(root: Trie, steps: seq<Step>, staged: seq<StagedNode>, start: string, width: nat, total: seq<string>,
                stack: seq<Frame>, prefixes: seq<string>, output: string, paths: seq<DictPath>, ref: Ref)
    requires SearchInv(root, steps, staged, start, width, total, stack, prefixes, output, paths)
    requires stack != [] && stack[|stack| - 1].next < |stack[|stack| - 1].node.edges|
    requires var top := stack[|stack| - 1];
             RefersTo(root, steps, staged, ref, start + prefixes[|stack| - 1] + [top.node.edges[top.next].symbol],
                      top.node.edges[top.next].child)
    ensures var d := |stack| - 1;
            var e := stack[d].node.edges[stack[d].next];
            var bumped := stack[d := stack[d].(next := stack[d].next + 1)];
            var path := output[..d] + [e.symbol];
            if d + 1 == width
            then SearchInv(root, steps, staged, start, width, total, bumped, prefixes, path,
                           paths + [DictPath(ref, path)])
            else SearchInv(root, steps, staged, start, width, total, bumped + [Frame(ref, e.child, 0)],
                           prefixes + [path], path, paths)
  {
    hide FramesOk, TargetsOk, Remaining, StagedDenotes;
    StagedShape(root, steps, staged);
    FramesShape(root, steps, staged, start, stack, prefixes);
    var d := |stack| - 1;
    var top := stack[d];
    var e := top.node.edges[top.next];
    var bumped := stack[d := top.(next := top.next + 1)];
    var path := output[..d] + [e.symbol];
    assert prefixes[d] == output[..d];
    assert forall j :: 0 <= j <= d ==> path[..j] == output[..j];
    assert start + prefixes[d] + [e.symbol] == start + path;
    NextDelivers(stack, prefixes, width);
    FramesBump(root, steps, staged, start, stack, prefixes);
    if d + 1 == width {
      TargetsSnoc(root, steps, staged, start, paths, ref, path, e.child);
      assert Outputs(paths + [DictPath(ref, path)]) == Outputs(paths) + [path];
      LastDelivers(path, e.child);
      assert Outputs(paths) + ([path] + Remaining(bumped, prefixes, width)) ==
             (Outputs(paths) + [path]) + Remaining(bumped, prefixes, width);
    } else {
      FramesPush(root, steps, staged, start, bumped, prefixes, ref, path, e.child);
      PushDelivers(bumped, prefixes, width, Frame(ref, e.child, 0), path);
      assert path[..d + 1] == path;
    }
  }

  lemma StagedShape(root: Trie, steps: seq<Step>, staged: seq<StagedNode>)
    requires StagedDenotes(root, steps, staged)
    ensures Ordered(steps) && StagedOk(steps, staged)
  {
  }

  lemma {:induction false} LastDelivers(path: string, t: Trie)
    ensures Below(path, t, 0) == [path]
  {
  }

  lemma {:induction false} PushDelivers(stack: seq<Frame>, prefixes: seq<string>, width: nat, f: Frame, path: string)
    requires |prefixes| == |stack| < width && f.next == 0
    requires forall j :: 0 <= j < |stack| ==> stack[j].next <= |stack[j].node.edges|
    ensures Remaining(stack + [f], prefixes + [path], width) ==
            Below(path, f.node, width - |stack|) + Remaining(stack, prefixes, width)
  {
    assert (stack + [f])[..|stack|] == stack && (prefixes + [path])[..|stack|] == prefixes;
  }

  lemma FramesBump(root: Trie, steps: seq<Step>, staged: seq<StagedNode>, start: string, stack: seq<Frame>,
                   prefixes: seq<string>)
    requires Ordered(steps) && StagedOk(steps, staged) && FramesOk(root, steps, staged, start, stack, prefixes)
    requires stack != [] && stack[|stack| - 1].next < |stack[|stack| - 1].node.edges|
    ensures var d := |stack| - 1;
            FramesOk(root, steps, staged, start, stack[d := stack[d].(next := stack[d].next + 1)], prefixes)
  {
    hide RefPath;
  }

  lemma FramesPush(root: Trie, steps: seq<Step>, staged: seq<StagedNode>, start: string, stack: seq<Frame>,
                   prefixes: seq<string>, ref: Ref, path: string, node: Trie)
    requires Ordered(steps) && StagedOk(steps, staged) && FramesOk(root, steps, staged, start, stack, prefixes)
    requires |path| == |stack| && RefersTo(root, steps, staged, ref, start + path, node)
    ensures FramesOk(root, steps, staged, start, stack + [Frame(ref, node, 0)], prefixes + [path])
  {
    hide RefPath;
  }

  lemma TargetsSnoc(root: Trie, steps: seq<Step>, staged: seq<StagedNode>, start: string, paths: seq<DictPath>,
                    ref: Ref, path: string, node: Trie)
    requires Ordered(steps) && StagedOk(steps, staged) && TargetsOk(root, steps, staged, start, paths)
    requires RefersTo(root, steps, staged, ref, start + path, node)
    ensures TargetsOk(root, steps, staged, start, paths + [DictPath(ref, path)])
  {
    hide RefPath;
  }

  /** One edge of the top frame contributes its subtree's paths before the rest. */
  lemma NextDelivers(stack: seq<Frame>, prefixes: seq<string>, width: nat)
    requires |prefixes| == |stack| <= width && forall j :: 0 <= j < |stack| ==> stack[j].next <= |stack[j].node.edges|
    requires stack != [] && stack[|stack| - 1].next < |stack[|stack| - 1].node.edges|
    ensures var d := |stack| - 1;
            var e := stack[d].node.edges[stack[d].next];
            var bumped := stack[d := stack[d].(next := stack[d].next + 1)];
            Remaining(stack, prefixes, width) ==
            Below(prefixes[d] + [e.symbol], e.child, width - d - 1) + Remaining(bumped, prefixes, width)
  {
    var d := |stack| - 1;
    var bumped := stack[d := stack[d].(next := stack[d].next + 1)];
    assert bumped[..d] == stack[..d];
  }

  // ---------------------------------------------------------------- the work of a search

  /** Enumerating a node's edges costs one unit for each edge and two more. */
  function EdgesWork(node: Trie): (work: nat)
    ensures work > 0
  {
    |node.edges| + 2
  }

  /** The work of everything below a node at `depth`, on the way to paths of `width` symbols. */
  function SubtreeWork(node: Trie, width: nat, depth: nat): nat
    requires depth <= width
    decreases width - depth, |node.edges| + 1
  {
    if depth == width then 1 + depth else EdgesWork(node) + FrameWork(node, width, depth, 0)
  }

  /** The work of a frame whose edges before `next` are done. */
  function FrameWork(node: Trie, width: nat, depth: nat, next: nat): nat
    requires depth < width && next <= |node.edges|
    decreases width - depth, |node.edges| - next
  {
    if next == |node.edges| then 1
    else 1 + SubtreeWork(node.edges[next].child, width, depth + 1) + FrameWork(node, width, depth, next + 1)
  }

  /** All the work of a search from `node`. */
  function SearchWork(node: Trie, width: nat): nat { SubtreeWork(node, width, 0) }

  function StackWork(stack: seq<Frame>, width: nat): nat
    requires |stack| <= width && forall j :: 0 <= j < |stack| ==> stack[j].next <= |stack[j].node.edges|
  {
    if stack == [] then 0
    else
      var d := |stack| - 1;
      FrameWork(stack[d].node, width, d, stack[d].next) + StackWork(stack[..d], width)
  }

  /** The work of taking the top frame's next edge is that of its child. */
  lemma StackWorkNext(stack: seq<Frame>, width: nat)
    requires |stack| <= width && forall j :: 0 <= j < |stack| ==> stack[j].next <= |stack[j].node.edges|
    requires stack != [] && stack[|stack| - 1].next < |stack[|stack| - 1].node.edges|
    ensures var d := |stack| - 1;
            var child := stack[d].node.edges[stack[d].next].child;
            var bumped := stack[d := stack[d].(next := stack[d].next + 1)];
            StackWork(stack, width) == 1 + SubtreeWork(child, width, d + 1) + StackWork(bumped, width)
  {
    var d := |stack| - 1;
    var bumped := stack[d := stack[d].(next := stack[d].next + 1)];
    assert bumped[..d] == stack[..d];
  }

  lemma {:induction false} StackWorkPush(stack: seq<Frame>, width: nat, f: Frame)
    requires |stack| < width && forall j :: 0 <= j < |stack| ==> stack[j].next <= |stack[j].node.edges|
    requires f.next == 0
    ensures EdgesWork(f.node) + StackWork(stack + [f], width) ==
            SubtreeWork(f.node, width, |stack|) + StackWork(stack, width)
  {
    assert (stack + [f])[..|stack|] == stack;
  }

  /** `bounded_edges`: enumerating a node's edges is charged one unit each. */
  method BoundedEdges(node: Trie, budget: ExpansionBudget) returns (failure: Option<Failure>)
    modifies budget`checks, budget`work
    ensures failure.None? ==> budget.work == old(budget.work) + EdgesWork(node) <= budget.maxWork
    ensures failure.Some? ==> budget.Explains(failure.value)
    ensures old(budget.work) <= budget.work <= old(budget.work) + EdgesWork(node)
  {
    failure := budget.ChargeWork(1);
    var i := 0;
    while failure.None? && i <= |node.edges|
      invariant i <= |node.edges| + 1
      invariant failure.None? ==> budget.work == old(budget.work) + 1 + i <= budget.maxWork
      invariant failure.Some? ==> budget.Explains(failure.value)
      invariant old(budget.work) <= budget.work <= old(budget.work) + EdgesWork(node)
    {
      failure := budget.ChargeWork(1);
      i := i + 1;
    }
  }

  /** The registered ID of a child, if its parent is registered and the step is known right now. */
  method LookupChild(shared: SharedRegistries, parent: Ref, symbol: char) returns (id: Option<nat>)
    requires shared.Valid() && (parent.Registered? ==> parent.id < |shared.registry.steps|)
    ensures id.Some? ==> && parent.Registered? && id.value < |shared.registry.steps|
                         && shared.registry.steps[id.value] == Child(parent.id, symbol)
  {
    match parent
    case Registered(p) =>
      var key := ChildKey(p, symbol);
      shared.registry.KeyRegistered(p, symbol);
      return if key in shared.registry.nodeToId then Some(shared.registry.nodeToId[key]) else None;
    case Staged(_) => return None;
  }

  /** Staging the child of a reference along one of its node's edges. */
  method StageEdge(shared: SharedRegistries, staging: ExpansionStaging, parent: Ref, ghost path: string, node: Trie,
                   i: nat) returns (ref: Ref)
    requires shared.Valid() && staging.Valid() && i < |node.edges|
    requires StagedDenotes(shared.root, shared.registry.steps, staging.nodes)
    requires RefersTo(shared.root, shared.registry.steps, staging.nodes, parent, path, node)
    modifies staging, shared`owners
    ensures staging.Valid() && old(staging.nodes) <= staging.nodes
    ensures staging.nodes == old(staging.nodes) ||
            (|staging.nodes| == old(|staging.nodes|) + 1 && ref == Staged(old(|staging.nodes|)))
    ensures StagedDenotes(shared.root, shared.registry.steps, staging.nodes)
    ensures RefersTo(shared.root, shared.registry.steps, staging.nodes, ref, path + [node.edges[i].symbol],
                     node.edges[i].child)
  {
    hide Denotes, StagedDenotes, RefersTo, Walk;
    ghost var root, steps, before := shared.root, shared.registry.steps, staging.nodes;
    var e := node.edges[i];
    StagedShape(root, steps, before);
    ChildWalk(root, steps, before, parent, path, node, i);
    var registered := LookupChild(shared, parent, e.symbol);
    ref := staging.StageChild(registered, parent, e.symbol, Owned(e.child, shared.owners));
    if registered.None? && staging.nodes != before {
      StagedDenotesSnoc(root, steps, before, StagedNode(parent, e.symbol, Owned(e.child, shared.owners)));
      StagedShape(root, steps, staging.nodes);
      RefStable(steps, steps, before, staging.nodes, parent);
    }
    ChildRefers(root, steps, staging.nodes, parent, path, e.symbol, e.child, ref);
    shared.owners := shared.owners + 1;
  }

  lemma {:induction false} ChildWalk(root: Trie, steps: seq<Step>, staged: seq<StagedNode>, parent: Ref, path: string,
                                     node: Trie, i: nat)
    requires WellFormed(root) && Ordered(steps) && StagedOk(steps, staged) && i < |node.edges|
    requires RefersTo(root, steps, staged, parent, path, node)
    ensures Walk(root, path + [node.edges[i].symbol]) == Some(node.edges[i].child)
    ensures RefOk(steps, |staged|, parent) && RefPath(steps, staged, parent) == path
  {
    WalkWellFormed(root, path);
    WalkEdge(root, path, node, i);
  }

  /** A reference one step below `parent` stands for the longer path. */
  lemma {:induction false} ChildRefers(root: Trie, steps: seq<Step>, staged: seq<StagedNode>, parent: Ref, path: string,
                                       symbol: char, child: Trie, ref: Ref)
    requires Ordered(steps) && StagedOk(steps, staged)
    requires RefOk(steps, |staged|, parent) && RefPath(steps, staged, parent) == path && RefOk(steps, |staged|, ref)
    requires Walk(root, path + [symbol]) == Some(child)
    requires ref.Registered? ==> parent.Registered? && steps[ref.id] == Child(parent.id, symbol)
    requires ref.Staged? ==> staged[ref.index].parent == parent && staged[ref.index].symbol == symbol
    ensures RefersTo(root, steps, staged, ref, path + [symbol], child)
  {
    if ref.Registered? { assert ref.id != 0; }
  }

  /** The nodes staged since `from` lie at most `width` symbols below `start`. */
  ghost predicate Near(steps: seq<Step>, staged: seq<StagedNode>, from: nat, start: string, width: nat)
    requires Ordered(steps) && StagedOk(steps, staged)
  {
    forall k :: from <= k < |staged| ==>
      var path := RefPath(steps, staged, Staged(k));
      start <= path && |start| < |path| <= |start| + width
  }

  lemma NearStable(steps: seq<Step>, steps': seq<Step>, staged: seq<StagedNode>, from: nat, start: string, width: nat)
    requires Ordered(steps) && Ordered(steps') && steps <= steps' && StagedOk(steps, staged) && StagedOk(steps', staged)
    requires Near(steps, staged, from, start, width)
    ensures Near(steps', staged, from, start, width)
  {
    forall k | from <= k < |staged| ensures RefPath(steps', staged, Staged(k)) == RefPath(steps, staged, Staged(k)) {
      RefStable(steps, steps', staged, staged, Staged(k));
    }
  }

  lemma {:induction false} NearSnoc(steps: seq<Step>, staged: seq<StagedNode>, more: seq<StagedNode>, from: nat,
                                    start: string, width: nat, w: string)
    requires Ordered(steps) && StagedOk(steps, staged) && StagedOk(steps, more) && staged <= more
    requires |more| == |staged| + 1
    requires Near(steps, staged, from, start, width) && 0 < |w| <= width
    requires RefPath(steps, more, Staged(|staged|)) == start + w
    ensures Near(steps, more, from, start, width)
  {
    forall k | from <= k < |more|
      ensures start <= RefPath(steps, more, Staged(k)) && |start| < |RefPath(steps, more, Staged(k))| <= |start| + width
    {
      if k < |staged| { RefStable(steps, steps, staged, more, Staged(k)); }
    }
  }

  /** No more nodes were staged than units of work were charged. */
  predicate PaidFor(staged: nat, staged': nat, work: nat, work': nat) { staged' - staged <= work' - work }

  /**
   All dictionary paths of `width` symbols below a registered node, each once, in depth-first order, with every
   reference standing for the node its path reaches. The search stages only nodes at most `width` symbols below the
   start, costs exactly `SearchWork` units and one path each, and fails only if the budget does not cover that or a
   cancellation is noticed.
   */
  method DictionaryPaths(shared: SharedRegistries, startId: nat, width: nat, staging: ExpansionStaging,
                         budget: ExpansionBudget)
    returns (r: SearchResult)
    requires shared.Valid() && staging.Valid() && startId < |shared.registry.steps|
    requires StagedDenotes(shared.root, shared.registry.steps, staging.nodes)
    modifies shared.registry, shared.states, shared`owners, shared`schedule, staging, budget
    ensures shared.Valid() && shared.OthersOnly() && staging.Valid() && old(staging.nodes) <= staging.nodes
    ensures StagedDenotes(shared.root, shared.registry.steps, staging.nodes)
    ensures Near(shared.registry.steps, staging.nodes, old(|staging.nodes|), PathOf(shared.registry.steps, startId),
                 width)
    ensures r.Found? ==>
              && TargetsOk(shared.root, shared.registry.steps, staging.nodes, PathOf(shared.registry.steps, startId),
                           r.paths)
              && Outputs(r.paths) == Below([], shared.registry.idToNode[startId].node, width)
    ensures var node := shared.registry.idToNode[startId].node;
            && old(budget.work) <= budget.work <= old(budget.work) + SearchWork(node, width)
            && old(budget.paths) <= budget.paths <= old(budget.paths) + |Below([], node, width)|
            && (r.Found? ==> budget.work == old(budget.work) + SearchWork(node, width))
            && (r.Found? ==> budget.paths == old(budget.paths) + |r.paths|)
    ensures r.Found? ==> PaidFor(old(|staging.nodes|), |staging.nodes|, old(budget.work), budget.work)
    ensures r.NotFound? ==> budget.Explains(r.failure)
  {
    hide Denotes, StagedDenotes, SearchInv, TargetsOk, Below, RefersTo, Near, Sound, Interfered, RefPath, PathOf,
         StackWork, GS.WellShaped, GS.ProductsOf, GS.ChainsOf, WellFormed, Distinct, StepKey;
    ghost var root, start, w0, s0 := shared.root, PathOf(shared.registry.steps, startId), shared.Now(), shared.schedule;
    ghost var base := |staging.nodes|;
    var first := Registered(startId);
    var node := shared.registry.idToNode[startId].node;
    SoundDenotes(root, shared.bounds, w0);
    StartRefers(root, w0.steps, w0.nodes, staging.nodes, startId);
    NearStart(w0.steps, staging.nodes, start, width);
    InterferedNot(shared.bounds, w0, s0);
    if width == 0 {
      EmptyPathFound(root, w0.steps, staging.nodes, start, first, node);
      var failure := budget.ChargePath();
      if failure.None? {
        failure := budget.ChargeWork(1);
      }
      return if failure.Some? then NotFound(failure.value) else Found([DictPath(first, [])]);
    }
    SearchWorkStart(node, width, first);
    var failure := BoundedEdges(node, budget);
    if failure.Some? {
      return NotFound(failure.value);
    }
    InvStart(root, w0.steps, staging.nodes, start, width, first, node);
    var paths: seq<DictPath>;
    failure, paths :=
      DrainStack(shared, staging, budget, width, [Frame(first, node, 0)], start, Below([], node, width), [[]], base);
    PathStable(w0.steps, shared.registry.steps, startId);
    return if failure.Some? then NotFound(failure.value) else Found(paths);
  }

  /** The loop of the search. */
  method DrainStack(shared: SharedRegistries, staging: ExpansionStaging, budget: ExpansionBudget, width: nat,
                    start: seq<Frame>, ghost path: string, ghost total: seq<string>, ghost prefixes0: seq<string>,
                    ghost base: nat)
    returns (failure: Option<Failure>, paths: seq<DictPath>)
    requires shared.Valid() && staging.Valid() && base <= |staging.nodes| && StackOk(start, width)
    requires SearchInv(shared.root, shared.registry.steps, staging.nodes, path, width, total, start, prefixes0, [], [])
    requires Ordered(shared.registry.steps) && StagedOk(shared.registry.steps, staging.nodes)
    requires Near(shared.registry.steps, staging.nodes, base, path, width)
    modifies shared.registry, shared.states, shared`owners, shared`schedule, staging, budget
    ensures shared.Valid() && shared.OthersOnly() && staging.Valid() && old(staging.nodes) <= staging.nodes
    ensures Ordered(shared.registry.steps) && StagedDenotes(shared.root, shared.registry.steps, staging.nodes)
    ensures Near(shared.registry.steps, staging.nodes, base, path, width)
    ensures failure.None? ==>
              && TargetsOk(shared.root, shared.registry.steps, staging.nodes, path, paths) && Outputs(paths) == total
              && budget.work == old(budget.work) + StackWork(start, width)
              && budget.paths == old(budget.paths) + |paths|
    ensures failure.None? ==> PaidFor(old(|staging.nodes|), |staging.nodes|, old(budget.work), budget.work)
    ensures failure.Some? ==> budget.Explains(failure.value)
    ensures old(budget.work) <= budget.work <= old(budget.work) + StackWork(start, width)
    ensures old(budget.paths) <= budget.paths <= old(budget.paths) + |total|
  {
    hide Denotes, StagedDenotes, SearchInv, TargetsOk, Below, RefersTo, Near, Sound, Interfered, RefPath, PathOf,
         StackWork, Outputs, GS.WellShaped, GS.ProductsOf, GS.ChainsOf, WellFormed, Distinct, StepKey,
         SharedRegistries.Valid;
    ghost var root, w0, s0 := shared.root, shared.Now(), shared.schedule;
    var stack, output := start, [];
    ghost var prefixes := prefixes0;
    failure, paths := None, [];
    InterferedNot(shared.bounds, w0, s0);
    while stack != []
      invariant shared.Valid() && Interfered(shared.bounds, w0, s0, shared.Now(), shared.schedule)
      invariant Extends(w0, shared.Now())
      invariant staging.Valid() && old(staging.nodes) <= staging.nodes
      invariant SearchInv(root, shared.registry.steps, staging.nodes, path, width, total, stack, prefixes, output,
                          paths)
      invariant StackOk(stack, width) && Ordered(shared.registry.steps)
      invariant StagedOk(shared.registry.steps, staging.nodes)
      invariant Near(shared.registry.steps, staging.nodes, base, path, width)
      invariant old(budget.work) <= budget.work
      invariant budget.work + StackWork(stack, width) == old(budget.work) + StackWork(start, width)
      invariant PaidFor(old(|staging.nodes|), |staging.nodes|, old(budget.work), budget.work)
      invariant failure.None? && budget.paths == old(budget.paths) + |paths|
      decreases budget.maxWork - budget.work
    {
      ghost var w1, s1 := shared.Now(), shared.schedule;
      failure, stack, output, paths, prefixes :=
        SearchStep(shared, staging, budget, width, stack, output, paths, path, total, prefixes, base);
      InterferedTwice(shared.bounds, w0, s0, w1, s1, shared.Now(), shared.schedule);
      InvStaged(root, shared.registry.steps, staging.nodes, path, width, total, stack, prefixes, output, paths);
      if failure.Some? {
        return;
      }
    }
    InvStaged(root, shared.registry.steps, staging.nodes, path, width, total, stack, prefixes, output, paths);
    StackWorkNone(width);
  }

  lemma {:induction false} StackWorkNone(width: nat)
    ensures StackWork([], width) == 0
  {
  }

  ghost predicate StackOk(stack: seq<Frame>, width: nat) {
    |stack| <= width && forall j :: 0 <= j < |stack| ==> stack[j].next <= |stack[j].node.edges|
  }

  lemma SoundDenotes(root: Trie, b: Bounds, w: World)
    requires Sound(root, b, w)
    ensures Denotes(root, w.steps, w.nodes) && Ordered(w.steps) && Distinct(w.steps)
    ensures |w.nodes| == |w.steps| <= b.nodes
    ensures GS.WellShaped(w.states) && |w.states| <= b.states
  {
  }

  lemma NearStart(steps: seq<Step>, staged: seq<StagedNode>, start: string, width: nat)
    requires Ordered(steps) && StagedOk(steps, staged)
    ensures Near(steps, staged, |staged|, start, width)
  {
  }

  lemma {:induction false} SearchWorkStart(node: Trie, width: nat, ref: Ref)
    requires width > 0
    ensures SearchWork(node, width) == EdgesWork(node) + StackWork([Frame(ref, node, 0)], width)
  {
    StackWorkPush([], width, Frame(ref, node, 0));
    assert [] + [Frame(ref, node, 0)] == [Frame(ref, node, 0)];
  }

  /** One turn of the loop: pop an exhausted frame, or take the top frame's next edge. */
  method SearchStep(shared: SharedRegistries, staging: ExpansionStaging, budget: ExpansionBudget, width: nat,
                    stack: seq<Frame>, output: string, paths: seq<DictPath>,
                    ghost start: string, ghost total: seq<string>, ghost prefixes: seq<string>, ghost base: nat)
    returns (failure: Option<Failure>, stack': seq<Frame>, output': string, paths': seq<DictPath>,
             ghost prefixes': seq<string>)
    requires shared.Valid() && staging.Valid() && stack != [] && base <= |staging.nodes| && StackOk(stack, width)
    requires SearchInv(shared.root, shared.registry.steps, staging.nodes, start, width, total, stack, prefixes, output,
                       paths)
    requires Ordered(shared.registry.steps) && StagedOk(shared.registry.steps, staging.nodes)
    requires Near(shared.registry.steps, staging.nodes, base, start, width)
    modifies shared.registry, shared.states, shared`owners, shared`schedule, staging, budget
    ensures shared.Valid() && shared.OthersOnly() && staging.Valid() && old(staging.nodes) <= staging.nodes
    ensures SearchInv(shared.root, shared.registry.steps, staging.nodes, start, width, total, stack', prefixes',
                      output', paths')
    ensures Ordered(shared.registry.steps) && StagedOk(shared.registry.steps, staging.nodes) && StackOk(stack', width)
    ensures Near(shared.registry.steps, staging.nodes, base, start, width)
    ensures failure.None? ==> PaidFor(old(|staging.nodes|), |staging.nodes|, old(budget.work), budget.work)
    ensures failure.Some? ==> budget.Explains(failure.value)
    ensures failure.None? ==>
              && old(budget.work) < budget.work <= budget.maxWork
              && budget.work + StackWork(stack', width) == old(budget.work) + StackWork(stack, width)
              && budget.paths == old(budget.paths) + |paths'| - |paths|
    ensures old(budget.work) <= budget.work <= old(budget.work) + StackWork(stack, width)
    ensures |paths| <= |paths'| <= |total| && old(budget.paths) <= budget.paths <= old(budget.paths) + |total| - |paths|
  {
    hide Denotes, StagedDenotes, SearchInv, TargetsOk, RefersTo, Near, Sound, Interfered, StackWork, SubtreeWork,
         EdgesWork, RefPath, GS.WellShaped, GS.ProductsOf, GS.ChainsOf, WellFormed, Distinct, StepKey;
    stack', output', paths', prefixes' := stack, output, paths, prefixes;
    ghost var root, w0, staged := shared.root, shared.Now(), staging.nodes;
    InvStaged(root, w0.steps, staged, start, width, total, stack, prefixes, output, paths);
    InterferedNot(shared.bounds, w0, shared.schedule);
    StackWorkPositive(stack, width);
    failure := budget.ChargeWork(1);
    if failure.Some? {
      return;
    }
    shared.Yield();
    ghost var steps := shared.registry.steps;
    SearchKept(root, shared.bounds, w0.steps, shared.Now(), staged, start, width, total, stack, prefixes, output, paths,
               base);
    var d := |stack| - 1;
    var top := stack[d];
    if top.next == |top.node.edges| {
      InvPop(root, steps, staged, start, width, total, stack, prefixes, output, paths);
      StackWorkPop(stack, width);
      stack', prefixes', output' := stack[..d], prefixes[..d], output[..d];
      return;
    }
    failure, stack', output', paths', prefixes' :=
      TakeEdge(shared, staging, budget, width, stack, output, paths, start, total, prefixes, base);
  }

  /** What other clones publish leaves the state of a search as it is. */
  lemma {:induction false} SearchKept(root: Trie, b: Bounds, steps: seq<Step>, now: World, staged: seq<StagedNode>,
                                      start: string, width: nat, total: seq<string>, stack: seq<Frame>,
                                      prefixes: seq<string>, output: string, paths: seq<DictPath>, base: nat)
    requires SearchInv(root, steps, staged, start, width, total, stack, prefixes, output, paths)
    requires Ordered(steps) && StagedOk(steps, staged) && Near(steps, staged, base, start, width)
    requires Sound(root, b, now) && steps <= now.steps
    ensures Ordered(now.steps) && StagedOk(now.steps, staged) && Near(now.steps, staged, base, start, width)
    ensures SearchInv(root, now.steps, staged, start, width, total, stack, prefixes, output, paths)
  {
    hide Denotes, StagedDenotes, SearchInv, TargetsOk, Near, Sound;
    SoundDenotes(root, b, now);
    InvStaged(root, steps, staged, start, width, total, stack, prefixes, output, paths);
    StagedDenotesStable(root, steps, now.steps, staged);
    InvStable(root, steps, now.steps, staged, staged, start, width, total, stack, prefixes, output, paths);
    InvStaged(root, now.steps, staged, start, width, total, stack, prefixes, output, paths);
    NearStable(steps, now.steps, staged, base, start, width);
  }

  /** The top frame's next edge: its child is staged, and found or pushed. */
  method TakeEdge(shared: SharedRegistries, staging: ExpansionStaging, budget: ExpansionBudget, width: nat,
                  stack: seq<Frame>, output: string, paths: seq<DictPath>,
                  ghost start: string, ghost total: seq<string>, ghost prefixes: seq<string>, ghost base: nat)
    returns (failure: Option<Failure>, stack': seq<Frame>, output': string, paths': seq<DictPath>,
             ghost prefixes': seq<string>)
    requires shared.Valid() && staging.Valid() && stack != [] && base <= |staging.nodes| && StackOk(stack, width)
    requires stack[|stack| - 1].next < |stack[|stack| - 1].node.edges|
    requires SearchInv(shared.root, shared.registry.steps, staging.nodes, start, width, total, stack, prefixes, output,
                       paths)
    requires Ordered(shared.registry.steps) && StagedOk(shared.registry.steps, staging.nodes)
    requires Near(shared.registry.steps, staging.nodes, base, start, width)
    modifies shared`owners, staging, budget
    ensures staging.Valid() && old(staging.nodes) <= staging.nodes
    ensures SearchInv(shared.root, shared.registry.steps, staging.nodes, start, width, total, stack', prefixes',
                      output', paths')
    ensures StagedOk(shared.registry.steps, staging.nodes) && StackOk(stack', width)
    ensures Near(shared.registry.steps, staging.nodes, base, start, width)
    ensures failure.None? ==> PaidFor(old(|staging.nodes|), |staging.nodes|, old(budget.work), budget.work)
    ensures failure.Some? ==> budget.Explains(failure.value)
    ensures failure.None? ==>
              && budget.work <= budget.maxWork
              && budget.work + StackWork(stack', width) + 1 == old(budget.work) + StackWork(stack, width)
              && budget.paths == old(budget.paths) + |paths'| - |paths|
    ensures old(budget.work) <= budget.work < old(budget.work) + StackWork(stack, width)
    ensures |paths| <= |paths'| <= |total| && old(budget.paths) <= budget.paths <= old(budget.paths) + |total| - |paths|
  {
    hide Denotes, StagedDenotes, SearchInv, TargetsOk, RefersTo, Near, Sound, StackWork, EdgesWork, RefPath,
         GS.WellShaped, GS.ProductsOf, GS.ChainsOf, WellFormed, Distinct, StepKey;
    stack', output', paths', prefixes' := stack, output, paths, prefixes;
    ghost var root, steps, staged := shared.root, shared.registry.steps, staging.nodes;
    var d := |stack| - 1;
    var top := stack[d];
    var e := top.node.edges[top.next];
    InvStaged(root, steps, staged, start, width, total, stack, prefixes, output, paths);
    var child := StageEdge(shared, staging, top.parent, start + prefixes[d], top.node, top.next);
    StagedShape(root, steps, staging.nodes);
    EdgeNear(root, steps, staged, staging.nodes, base, start, width, stack, prefixes, output, child, e, total, paths);
    InvStable(root, steps, steps, staged, staging.nodes, start, width, total, stack, prefixes, output, paths);
    InvNext(root, steps, staging.nodes, start, width, total, stack, prefixes, output, paths, child);
    StackWorkNext(stack, width);
    var bumped := stack[d := top.(next := top.next + 1)];
    var path := output[..d] + [e.symbol];
    if |path| == width {
      InvStaged(root, steps, staging.nodes, start, width, total, bumped, prefixes, path,
                paths + [DictPath(child, path)]);
      failure := budget.ChargePath();
      if failure.None? {
        failure := budget.ChargeWork(1 + |path|);
      }
      if failure.None? {
        stack', output', paths' := bumped, path, paths + [DictPath(child, path)];
      }
    } else {
      StackWorkPush(bumped, width, Frame(child, e.child, 0));
      failure := BoundedEdges(e.child, budget);
      if failure.None? {
        stack', output', prefixes' := bumped + [Frame(child, e.child, 0)], path, prefixes + [path];
      }
    }
  }

  /** The child that was staged for the top frame's edge lies within reach. */
  lemma EdgeNear(root: Trie, steps: seq<Step>, staged: seq<StagedNode>, staged': seq<StagedNode>, base: nat,
                 start: string, width: nat, stack: seq<Frame>, prefixes: seq<string>, output: string, ref: Ref, e: Edge,
                 total: seq<string>, paths: seq<DictPath>)
    requires SearchInv(root, steps, staged, start, width, total, stack, prefixes, output, paths) && stack != []
    requires Ordered(steps) && StagedOk(steps, staged) && Near(steps, staged, base, start, width) && base <= |staged|
    requires StagedDenotes(root, steps, staged') && StagedOk(steps, staged') && staged <= staged'
    requires RefersTo(root, steps, staged', ref, start + prefixes[|stack| - 1] + [e.symbol], e.child)
    requires staged' == staged || (|staged'| == |staged| + 1 && ref == Staged(|staged|))
    ensures Near(steps, staged', base, start, width)
  {
    hide TargetsOk, StagedDenotes, RefPath, Remaining, Near;
    var w := prefixes[|stack| - 1] + [e.symbol];
    assert start + prefixes[|stack| - 1] + [e.symbol] == start + w;
    if staged' != staged {
      NearSnoc(steps, staged, staged', base, start, width, w);
    }
  }

  lemma {:induction false} StackWorkPositive(stack: seq<Frame>, width: nat)
    requires StackOk(stack, width)
    ensures stack != [] ==> StackWork(stack, width) >= 1
  {
  }

  lemma {:induction false} StackWorkPop(stack: seq<Frame>, width: nat)
    requires StackOk(stack, width) && stack != [] && stack[|stack| - 1].next == |stack[|stack| - 1].node.edges|
    ensures StackOk(stack[..|stack| - 1], width)
    ensures StackWork(stack, width) == 1 + StackWork(stack[..|stack| - 1], width)
  {
  }

  lemma {:induction false} StartRefers(root: Trie, steps: seq<Step>, nodes: seq<Trie>, staged: seq<StagedNode>, id: nat)
    requires Denotes(root, steps, nodes) && id < |steps| && StagedDenotes(root, steps, staged)
    ensures StagedOk(steps, staged) && RefersTo(root, steps, staged, Registered(id), PathOf(steps, id), nodes[id])
  {
  }

  lemma {:induction false} EmptyPathFound(root: Trie, steps: seq<Step>, staged: seq<StagedNode>, start: string,
                                          ref: Ref, node: Trie)
    requires Ordered(steps) && StagedOk(steps, staged) && RefersTo(root, steps, staged, ref, start, node)
    ensures TargetsOk(root, steps, staged, start, [DictPath(ref, [])])
    ensures Outputs([DictPath(ref, [])]) == Below([], node, 0)
  {
    assert start + [] == start;
  }

  lemma {:induction false} InvStart(root: Trie, steps: seq<Step>, staged: seq<StagedNode>, start: string, width: nat,
                                    ref: Ref, node: Trie)
    requires StagedDenotes(root, steps, staged) && RefersTo(root, steps, staged, ref, start, node) && width > 0
    ensures SearchInv(root, steps, staged, start, width, Below([], node, width), [Frame(ref, node, 0)], [[]], [], [])
  {
    assert start + [] == start;
    var stack: seq<Frame> := [Frame(ref, node, 0)];
    assert Outputs([]) == [] && stack[..0] == [];
    assert Remaining(stack, [[]], width) == BelowFrom([], node, width, 0) + Remaining(stack[..0], [[]][..0], width);
  }

  lemma InvStaged(root: Trie, steps: seq<Step>, staged: seq<StagedNode>, start: string, width: nat, total: seq<string>,
                  stack: seq<Frame>, prefixes: seq<string>, output: string, paths: seq<DictPath>)
    requires SearchInv(root, steps, staged, start, width, total, stack, prefixes, output, paths)
    ensures StagedDenotes(root, steps, staged) && Ordered(steps) && StagedOk(steps, staged)
    ensures TargetsOk(root, steps, staged, start, paths) && |prefixes| == |stack|
    ensures stack == [] ==> Outputs(paths) == total
    ensures |paths| <= |total|
    ensures stack != [] ==>
              var top := stack[|stack| - 1];
              && top.next <= |top.node.edges| && |stack| - 1 <= |output| && |stack| <= width
              && RefersTo(root, steps, staged, top.parent, start + prefixes[|stack| - 1], top.node)
  {
  }
}
