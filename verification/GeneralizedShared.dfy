/**
 The two registries that every clone of a generalized WFST shares (the locks of src/generalized_wfst.rs), and what the
 other clones do to them while this one does not hold the locks.
 */
module GeneralizedShared {
  import opened Common
  import opened Dictionary
  import opened NodeRegistry
  import opened GeneralizedStaging
  import GS = GeneralizedStates

  /** The contents of both registries. */
  datatype World = World(steps: seq<Step>, nodes: seq<Trie>, states: seq<GS.State>)

  /** The retained limits, and how far product states may go. */
  datatype Bounds = Bounds(nodes: nat, states: nat, extent: GS.Extent)

  /** Node IDs denote dictionary paths, states are well shaped and linked to existing nodes, and the limits hold. */
  ghost predicate Sound(root: Trie, b: Bounds, w: World) {
    && Denotes(root, w.steps, w.nodes) && |w.steps| <= b.nodes
    && GS.WellShaped(w.states) && |w.states| <= b.states && GS.Linked(w.states, |w.steps|, b.extent)
  }

  /** Nothing that `older` holds has changed in `newer`. */
  ghost predicate Extends(older: World, newer: World) {
    older.steps <= newer.steps && older.nodes <= newer.nodes && older.states <= newer.states
  }

  // ---------------------------------------------------------------- what other clones publish

  /** One identity that a commit of another clone makes visible. */
  datatype Foreign =
    | NewChild(parent: nat, edge: nat)
    | NewProduct(product: GS.Product)
    | NewChain(chain: GS.Chain)

  /** The child that a clone would register along an edge, if it is new and there is room. */
  ghost predicate CanRegister(b: Bounds, w: World, parent: nat, edge: nat) {
    && parent < |w.nodes| && edge < |w.nodes[parent].edges| && |w.steps| < b.nodes && |w.steps| <= U32_MAX
    && Child(parent, w.nodes[parent].edges[edge].symbol) !in w.steps
  }

  ghost predicate CanChain(w: World, c: GS.Chain) {
    c.Width() >= 2 && c.target < |w.states| && w.states[c.target].ProductState?
  }

  /** Its effect; whatever is known, malformed or over a limit changes nothing. */
  ghost function ForeignStep(b: Bounds, w: World, f: Foreign): World {
    match f
    case NewChild(parent, edge) =>
      if CanRegister(b, w, parent, edge) then
        var e := w.nodes[parent].edges[edge];
        World(w.steps + [Child(parent, e.symbol)], w.nodes + [e.child], w.states)
      else w
    case NewProduct(p) =>
      if GS.Inside(p, |w.steps|, b.extent) then w.(states := GS.WithProduct(w.states, p, b.states)) else w
    case NewChain(c) =>
      if CanChain(w, c) then w.(states := GS.WithChain(w.states, c, b.states)) else w
  }

  ghost function ForeignBatch(b: Bounds, w: World, batch: seq<Foreign>): World {
    if batch == [] then w else ForeignStep(b, ForeignBatch(b, w, batch[..|batch| - 1]), batch[|batch| - 1])
  }

  ghost function ForeignAll(b: Bounds, w: World, batches: seq<seq<Foreign>>): World {
    if batches == [] then w else ForeignBatch(b, ForeignAll(b, w, batches[..|batches| - 1]), batches[|batches| - 1])
  }

  /** `after` is what is left of the schedule `before`. */
  ghost predicate Leftover(before: seq<seq<Foreign>>, after: seq<seq<Foreign>>) {
    |after| <= |before| && after == before[|before| - |after|..]
  }

  /** The registries as the other clones alone would have made them while the schedule went from `before` to `after`. */
  ghost function Others(b: Bounds, w: World, before: seq<seq<Foreign>>, after: seq<seq<Foreign>>): World
    requires Leftover(before, after)
  {
    ForeignAll(b, w, before[..|before| - |after|])
  }

  /** Only other clones have changed anything. */
  ghost predicate Interfered(b: Bounds, w: World, before: seq<seq<Foreign>>, w': World, after: seq<seq<Foreign>>) {
    Leftover(before, after) && w' == Others(b, w, before, after)
  }

  lemma {:induction false} ForeignStepSound(root: Trie, b: Bounds, w: World, f: Foreign)
    requires WellFormed(root) && Sound(root, b, w)
    ensures Sound(root, b, ForeignStep(b, w, f)) && Extends(w, ForeignStep(b, w, f))
  {
    hide GS.WellShaped, GS.WithProduct, GS.WithChain, Denotes, WellFormed;
    DenotesLength(root, w.steps, w.nodes);
    match f
    case NewChild(parent, edge) =>
      if CanRegister(b, w, parent, edge) {
        DenotesSnoc(root, w.steps, w.nodes, parent, edge);
      }
    case NewProduct(p) =>
      if GS.Inside(p, |w.steps|, b.extent) { GS.WithProductKeeps(w.states, p, b.states, |w.steps|, b.extent); }
    case NewChain(c) =>
      if CanChain(w, c) { GS.WithChainKeeps(w.states, c, b.states, |w.steps|, b.extent); }
  }

  lemma DenotesLength(root: Trie, steps: seq<Step>, nodes: seq<Trie>)
    requires Denotes(root, steps, nodes)
    ensures |nodes| == |steps| && Ordered(steps) && Distinct(steps)
  {
  }

  lemma {:induction false} ForeignBatchSound(root: Trie, b: Bounds, w: World, batch: seq<Foreign>)
    requires WellFormed(root) && Sound(root, b, w)
    ensures Sound(root, b, ForeignBatch(b, w, batch)) && Extends(w, ForeignBatch(b, w, batch))
  {
    hide Sound, ForeignStep, WellFormed;
    if batch != [] {
      ForeignBatchSound(root, b, w, batch[..|batch| - 1]);
      ForeignStepSound(root, b, ForeignBatch(b, w, batch[..|batch| - 1]), batch[|batch| - 1]);
    }
  }

  /** Other clones keep the registries sound and change nothing old. */
  lemma {:induction false} ForeignAllSound(root: Trie, b: Bounds, w: World, batches: seq<seq<Foreign>>)
    requires WellFormed(root) && Sound(root, b, w)
    ensures Sound(root, b, ForeignAll(b, w, batches)) && Extends(w, ForeignAll(b, w, batches))
  {
    hide Sound, ForeignBatch, WellFormed;
    if batches != [] {
      ForeignAllSound(root, b, w, batches[..|batches| - 1]);
      ForeignBatchSound(root, b, ForeignAll(b, w, batches[..|batches| - 1]), batches[|batches| - 1]);
    }
  }

  lemma {:induction false} ForeignAllAppend(b: Bounds, w: World, xs: seq<seq<Foreign>>, ys: seq<seq<Foreign>>)
    ensures ForeignAll(b, w, xs + ys) == ForeignAll(b, ForeignAll(b, w, xs), ys)
    decreases |ys|
  {
    if ys == [] {
      assert xs + ys == xs;
    } else {
      assert (xs + ys)[..|xs + ys| - 1] == xs + ys[..|ys| - 1];
      ForeignAllAppend(b, w, xs, ys[..|ys| - 1]);
    }
  }

  lemma InterferedNot(b: Bounds, w: World, schedule: seq<seq<Foreign>>)
    ensures Interfered(b, w, schedule, w, schedule)
  {
    assert schedule[..0] == [];
  }

  lemma {:induction false} InterferedOnce(b: Bounds, w: World, schedule: seq<seq<Foreign>>)
    requires schedule != []
    ensures Interfered(b, w, schedule, ForeignBatch(b, w, schedule[0]), schedule[1..])
  {
    assert schedule[..1] == [schedule[0]] && [schedule[0]][..0] == [];
    assert ForeignAll(b, w, [schedule[0]]) == ForeignBatch(b, ForeignAll(b, w, []), schedule[0]);
  }

  /** Two stretches in which only other clones changed anything make one. */
  lemma InterferedTwice(b: Bounds, w0: World, s0: seq<seq<Foreign>>, w1: World, s1: seq<seq<Foreign>>, w2: World,
                        s2: seq<seq<Foreign>>)
    requires Interfered(b, w0, s0, w1, s1) && Interfered(b, w1, s1, w2, s2)
    ensures Interfered(b, w0, s0, w2, s2)
  {
    var n, m := |s0| - |s1|, |s1| - |s2|;
    assert s0[..n + m] == s0[..n] + s1[..m];
    ForeignAllAppend(b, w0, s0[..n], s1[..m]);
  }

  // ---------------------------------------------------------------- the registries as one clone sees them

  /**
   `schedule` lists what the other clones will publish, one batch for each time this clone lets go of the locks. The
   theorems about this class hold for every schedule.
   */
  class SharedRegistries {
    const root: Trie
    const bounds: Bounds
    const registry: DictionaryNodeRegistry<Owned>
    const states: GS.StateRegistry
    var owners: nat
    var schedule: seq<seq<Foreign>>

    ghost function Now(): World
      reads registry, states
    {
      World(registry.steps, NodesOf(registry.idToNode), states.idToState)
    }

    ghost predicate Valid()
      reads registry, states
    {
      WellFormed(root) && registry.Valid() && states.Valid() && Sound(root, bounds, Now())
    }

    lemma Facts()
      requires Valid()
      ensures WellFormed(root) && Sound(root, bounds, Now())
      ensures Ordered(registry.steps) && |registry.idToNode| == |registry.steps| <= Min(bounds.nodes, U32_MAX + 1)
    {
    }

    /** Since then, only other clones have changed the registries, and nothing old has changed. */
    twostate predicate OthersOnly()
      reads this, registry, states
    {
      Interfered(bounds, old(Now()), old(schedule), Now(), schedule) && Extends(old(Now()), Now())
    }

    constructor (root: Trie, bounds: Bounds, schedule: seq<seq<Foreign>>)
      requires WellFormed(root) && bounds.nodes >= 1 && bounds.states >= 1
      ensures Valid() && fresh(registry) && fresh(states)
      ensures this.root == root && this.bounds == bounds && this.schedule == schedule
      ensures Now() == World([Root], [root], [GS.ProductState(GS.START)])
    {
      this.root, this.bounds, this.schedule := root, bounds, schedule;
      owners := 1;
      registry := new DictionaryNodeRegistry<Owned>(Owned(root, 0));
      states := new GS.StateRegistry();
    }

    /** A commit of another clone registers one dictionary child. */
    method RegisterForeign(parent: nat, edge: nat)
      requires Valid()
      modifies registry, this`owners
      ensures Valid() && Now() == ForeignStep(bounds, old(Now()), NewChild(parent, edge))
    {
      hide Denotes, GS.WellShaped, WellFormed;
      ForeignStepSound(root, bounds, Now(), NewChild(parent, edge));
      DenotesLength(root, registry.steps, NodesOf(registry.idToNode));
      if parent < |registry.idToNode| && |registry.idToNode| < bounds.nodes &&
         edge < |registry.idToNode[parent].node.edges| {
        var e := registry.idToNode[parent].node.edges[edge];
        assert NodesOf(registry.idToNode) + [e.child] == NodesOf(registry.idToNode + [Owned(e.child, owners)]);
        var _ := registry.RegisterNode(Owned(e.child, owners), parent, e.symbol);
        owners := owners + 1;
      }
    }

    /** A commit of another clone publishes one product state or one emission chain. */
    method PublishForeign(f: Foreign)
      requires Valid() && !f.NewChild?
      modifies states
      ensures Valid() && Now() == ForeignStep(bounds, old(Now()), f)
    {
      hide Denotes, GS.WellShaped, WellFormed, GS.ProductsOf, GS.ChainsOf;
      ForeignStepSound(root, bounds, Now(), f);
      DenotesLength(root, registry.steps, NodesOf(registry.idToNode));
      match f {
        case NewProduct(p) =>
          if GS.Inside(p, |registry.idToNode|, bounds.extent) && p !in states.productToId &&
             GS.HasRoom(states.idToState, 1, bounds.states) {
            states.CommitPrepared([GS.ProductState(p)]);
          }
        case NewChain(c) =>
          if c.Width() >= 2 && c.target < |states.idToState| && states.idToState[c.target].ProductState? &&
             c !in states.chainToId
             && GS.HasRoom(states.idToState, c.Width() - 1, bounds.states) {
            states.CommitPrepared(GS.Emits(c, |states.idToState|));
          }
      }
    }

    /** One batch of such commits. */
    method PublishBatch(batch: seq<Foreign>)
      requires Valid()
      modifies registry, states, this`owners
      ensures Valid() && Now() == ForeignBatch(bounds, old(Now()), batch)
    {
      hide Sound, ForeignStep, WellFormed;
      for i := 0 to |batch|
        invariant Valid() && Now() == ForeignBatch(bounds, old(Now()), batch[..i])
      {
        assert batch[..i + 1][..i] == batch[..i];
        match batch[i] {
          case NewChild(parent, edge) => RegisterForeign(parent, edge);
          case _ => PublishForeign(batch[i]);
        }
      }
      assert batch[..|batch|] == batch;
    }

    /** The locks are free: other clones publish what is scheduled, child nodes and states alike. */
    method Yield()
      requires Valid()
      modifies registry, states, this`owners, this`schedule
      ensures Valid() && OthersOnly()
      ensures |schedule| == if old(schedule) == [] then 0 else old(|schedule|) - 1
      ensures old(schedule) == [] ==> unchanged(registry) && unchanged(states)
    {
      hide Sound, ForeignStep, ForeignBatch, WellFormed;
      if schedule == [] {
        InterferedNot(bounds, Now(), schedule);
        return;
      }
      InterferedOnce(bounds, Now(), schedule);
      ForeignBatchSound(root, bounds, Now(), schedule[0]);
      PublishBatch(schedule[0]);
      schedule := schedule[1..];
    }
  }
}
