/**
 Expansion of one state of the generalized product (`try_compute_registered_state` and `compute_product_state` in
 src/generalized_computation.rs): operations in order, per-width caches of dictionary paths and query segments, and one
 commit at the end.
 */
module GeneralizedExpansion {
  import opened Common
  import opened Labels
  import opened Dictionary
  import opened NodeRegistry
  import opened GeneralizedOps
  import opened GeneralizedStaging
  import opened GeneralizedShared
  import opened GeneralizedSearch
  import opened GeneralizedCommit
  import GS = GeneralizedStates

  datatype Config = Config(query: string, maxCost: nat, prepared: seq<Prepared>, sourceSlots: nat, querySlots: nat) {
    ghost predicate Valid() {
      && SlotsFaithful(prepared)
      && forall i :: 0 <= i < |prepared| ==> prepared[i].sourceSlot < sourceSlots && prepared[i].querySlot < querySlots
    }

    function Extent(): GS.Extent { GS.Extent(|query|, maxCost) }
  }

  /** The construction: filter and deduplicate the operations, then assign width slots. */
  method Configure(query: string, maxCost: nat, ops: seq<Operation>) returns (cfg: Config)
    ensures cfg.Valid() && cfg.query == query && cfg.maxCost == maxCost
    ensures Represents(OpsOf(cfg.prepared), ops, maxCost)
  {
    hide Represents, KeepsMeanings;
    var bounded := BoundedOperationSet(maxCost, ops);
    var prepared := PrepareOperations(bounded);
    var sourceSlots: nat, querySlots: nat := 0, 0;
    for i := 0 to |prepared|
      invariant forall j :: 0 <= j < i ==> prepared[j].sourceSlot < sourceSlots && prepared[j].querySlot < querySlots
    {
      sourceSlots := if prepared[i].sourceSlot + 1 > sourceSlots then prepared[i].sourceSlot + 1 else sourceSlots;
      querySlots := if prepared[i].querySlot + 1 > querySlots then prepared[i].querySlot + 1 else querySlots;
    }
    cfg := Config(query, maxCost, prepared, sourceSlots, querySlots);
    assert OpsOf(prepared) == bounded;
  }

  function OpsOf(prepared: seq<Prepared>): seq<Operation> {
    seq(|prepared|, i requires 0 <= i < |prepared| => prepared[i].op)
  }

  // ---------------------------------------------------------------- the arcs of a product state

  /** One operation applied at a product state: labels on both sides, where it leads in the query, and its weight. */
  datatype Macro = Macro(input: string, output: string, pos: nat, cost: nat, weight: nat)

  /** The applications of `op` to those of `outputs` that it accepts against `input`. */
  ghost function Applying(op: Operation, outputs: seq<string>, input: string, pos: nat, cost: nat): seq<Macro> {
    if outputs == [] then []
    else
      var rest, last := Applying(op, outputs[..|outputs| - 1], input, pos, cost), outputs[|outputs| - 1];
      if OperationApplies(op, last, input) then rest + [Macro(input, last, pos, cost, op.weight)] else rest
  }

  ghost function OpArcs(cfg: Config, node: Trie, pos: nat, cost: nat, op: Operation): seq<Macro> {
    if cost + op.weight > cfg.maxCost || pos + op.consumeY > |cfg.query| then []
    else Applying(op, Below([], node, op.consumeX), cfg.query[pos..pos + op.consumeY], pos + op.consumeY,
                  cost + op.weight)
  }

  /** The applications of the first `n` operations, in order. */
  ghost function Macros(cfg: Config, node: Trie, pos: nat, cost: nat, n: nat): seq<Macro>
    requires n <= |cfg.prepared|
  {
    if n == 0 then [] else Macros(cfg, node, pos, cost, n - 1) + OpArcs(cfg, node, pos, cost, cfg.prepared[n - 1].op)
  }

  /** `m` is an application of `op` to dictionary labels below `node` and the next query symbols, within the budget. */
  ghost predicate Fires(cfg: Config, node: Trie, pos: nat, cost: nat, op: Operation, m: Macro) {
    && pos + op.consumeY <= |cfg.query| && cost + op.weight <= cfg.maxCost
    && |m.output| == op.consumeX && Walk(node, m.output).Some?
    && m == Macro(cfg.query[pos..pos + op.consumeY], m.output, pos + op.consumeY, cost + op.weight, op.weight)
    && OperationApplies(op, m.output, m.input)
  }

  lemma {:induction false} ApplyingMember(op: Operation, outputs: seq<string>, input: string, pos: nat, cost: nat,
                                          m: Macro)
    ensures m in Applying(op, outputs, input, pos, cost) <==>
            && m.output in outputs && m == Macro(input, m.output, pos, cost, op.weight)
            && OperationApplies(op, m.output, input)
  {
    if outputs != [] {
      ApplyingMember(op, outputs[..|outputs| - 1], input, pos, cost, m);
      assert outputs == outputs[..|outputs| - 1] + [outputs[|outputs| - 1]];
    }
  }

  lemma {:induction false} OpArcsMember(cfg: Config, node: Trie, pos: nat, cost: nat, op: Operation, m: Macro)
    requires WellFormed(node)
    ensures m in OpArcs(cfg, node, pos, cost, op) <==> Fires(cfg, node, pos, cost, op, m)
  {
    hide OperationApplies, Walk, Below, Applying, WellFormed;
    if pos + op.consumeY <= |cfg.query| {
      ApplyingMember(op, Below([], node, op.consumeX), cfg.query[pos..pos + op.consumeY], pos + op.consumeY,
                     cost + op.weight, m);
      BelowMember([], node, op.consumeX, m.output);
      assert m.output[0..] == m.output;
    }
  }

  /** The arcs of a product state are exactly the firings of its operations. */
  lemma {:induction false} MacrosMember(cfg: Config, node: Trie, pos: nat, cost: nat, n: nat, m: Macro)
    requires WellFormed(node) && n <= |cfg.prepared|
    ensures m in Macros(cfg, node, pos, cost, n) <==>
            exists i :: 0 <= i < n && Fires(cfg, node, pos, cost, cfg.prepared[i].op, m)
  {
    hide OpArcs, Fires, WellFormed;
    if n > 0 {
      MacrosMember(cfg, node, pos, cost, n - 1, m);
      OpArcsMember(cfg, node, pos, cost, cfg.prepared[n - 1].op, m);
    }
  }

  /** The product state being expanded. */
  datatype Site = Site(ghost start: string, id: nat, node: Trie, pos: nat, cost: nat)

  /** What a firing at a site owes: a transition to the node its output reaches. */
  ghost function GoalAt(start: string, m: Macro): Goal {
    Goal(start + m.output, m.pos, m.cost, m.input, m.output, m.weight)
  }

  /** What the product state at a site owes, in order. */
  ghost function SiteGoals(cfg: Config, site: Site): seq<Goal> {
    var macros := Macros(cfg, site.node, site.pos, site.cost, |cfg.prepared|);
    seq(|macros|, j requires 0 <= j < |macros| => GoalAt(site.start, macros[j]))
  }

  predicate Affordable(cfg: Config, pos: nat, cost: nat, op: Operation) {
    cost + op.weight <= cfg.maxCost && pos + op.consumeY <= |cfg.query|
  }

  /** The search for some affordable operation at the site may come past `path`. */
  ghost predicate Probed(cfg: Config, site: Site, path: string) {
    exists i :: 0 <= i < |cfg.prepared| && Affordable(cfg, site.pos, site.cost, cfg.prepared[i].op)
                && site.start <= path && |site.start| < |path| <= |site.start| + cfg.prepared[i].op.consumeX
  }

  ghost function ProbedPaths(cfg: Config, site: Site): iset<string> {
    iset path: string | Probed(cfg, site, path)
  }

  ghost predicate StagedProbed(cfg: Config, steps: seq<Step>, staged: seq<StagedNode>, site: Site)
    requires Ordered(steps) && StagedOk(steps, staged)
  {
    forall k :: 0 <= k < |staged| ==> Probed(cfg, site, RefPath(steps, staged, Staged(k)))
  }

  /** A search for an affordable operation stages probed paths only. */
  lemma {:induction false} ProbedGrows(cfg: Config, steps: seq<Step>, steps': seq<Step>, staged: seq<StagedNode>,
                                       staged': seq<StagedNode>, site: Site, i: nat)
    requires Ordered(steps) && Ordered(steps') && steps <= steps' && staged <= staged'
    requires StagedOk(steps, staged) && StagedOk(steps', staged') && StagedProbed(cfg, steps, staged, site)
    requires i < |cfg.prepared| && Affordable(cfg, site.pos, site.cost, cfg.prepared[i].op)
    requires Near(steps', staged', |staged|, site.start, cfg.prepared[i].op.consumeX)
    ensures StagedProbed(cfg, steps', staged', site)
  {
    hide Affordable, RefPath;
    forall k | 0 <= k < |staged'| ensures Probed(cfg, site, RefPath(steps', staged', Staged(k))) {
      if k < |staged| {
        RefStable(steps, steps', staged, staged', Staged(k));
      } else {
        assert site.start <= RefPath(steps', staged', Staged(k));
      }
    }
  }

  // ---------------------------------------------------------------- the work of a product state

  function PathCap(op: Operation): nat { 1 + op.consumeX + op.consumeY }

  /**
   An upper bound of what operation `op` is charged: its query segment, its paths, and applying it to each of them.
   */
  ghost function OpWork(node: Trie, op: Operation): nat {
    1 + 2 * op.consumeY + SearchWork(node, op.consumeX) + Twice(PathCap(op), |Below([], node, op.consumeX)|)
  }

  /** Two charges of at most `cap` for each of `n` paths. */
  function Twice(cap: nat, n: nat): nat {
    if n == 0 then 0 else Twice(cap, n - 1) + 2 * cap
  }

  ghost function OpsWork(cfg: Config, node: Trie, n: nat): nat
    requires n <= |cfg.prepared|
  {
    if n == 0 then 0 else OpsWork(cfg, node, n - 1) + OpWork(node, cfg.prepared[n - 1].op)
  }

  ghost function OpsPaths(cfg: Config, node: Trie, n: nat): nat
    requires n <= |cfg.prepared|
  {
    if n == 0 then 0 else OpsPaths(cfg, node, n - 1) + |Below([], node, cfg.prepared[n - 1].op.consumeX)|
  }

  /** Everything that collecting the arcs of a product state is charged. */
  ghost function CollectWork(cfg: Config, node: Trie): nat {
    cfg.sourceSlots + cfg.querySlots + OpsWork(cfg, node, |cfg.prepared|)
  }

  /** What staging the arcs of some firings is charged. */
  function MacrosWork(macros: seq<Macro>): nat {
    if macros == [] then 0
    else
      var last := macros[|macros| - 1];
      MacrosWork(macros[..|macros| - 1]) + 1 + 8 * (|last.input| + |last.output|)
  }

  /**
   An upper bound of what the expansion of a product state is charged while other clones publish at most `rounds` times.
   Each round can cost one more attempt, on no more staged nodes than collecting has paid for.
   */
  ghost function ProductWork(cfg: Config, site: Site, rounds: nat): nat {
    1 + CollectWork(cfg, site.node) + AttemptsWork(rounds + 2, CollectWork(cfg, site.node)) +
    MacrosWork(Macros(cfg, site.node, site.pos, site.cost, |cfg.prepared|))
  }

  // ---------------------------------------------------------------- collecting the arcs

  datatype Slot<T> = Uncomputed | Missing | Ready(value: T)

  ghost function Outline(a: PendingArc): Macro { Macro(a.input, a.output, a.pos, a.cost, a.weight) }

  ghost function Outlines(arcs: seq<PendingArc>): seq<Macro> {
    seq(|arcs|, i requires 0 <= i < |arcs| => Outline(arcs[i]))
  }

  /** Every arc's target stands for the path it writes below `start`. */
  ghost predicate ArcTargets(steps: seq<Step>, staged: seq<StagedNode>, start: string, arcs: seq<PendingArc>)
    requires Ordered(steps) && StagedOk(steps, staged)
  {
    forall j :: 0 <= j < |arcs| ==>
      RefOk(steps, |staged|, arcs[j].target) && RefPath(steps, staged, arcs[j].target) == start + arcs[j].output
  }

  /** A cached query segment is the one its width selects at `pos`. */
  ghost predicate QueriesOk(cfg: Config, pos: nat, queries: seq<Slot<(string, nat)>>) {
    && |queries| == cfg.querySlots
    && forall i :: 0 <= i < |cfg.prepared| ==> QueryOk(cfg, pos, cfg.prepared[i], queries)
  }

  ghost predicate QueryOk(cfg: Config, pos: nat, p: Prepared, queries: seq<Slot<(string, nat)>>) {
    && p.querySlot < |queries|
    && var end := pos + p.op.consumeY;
       match queries[p.querySlot]
       case Uncomputed => true
       case Missing => end > |cfg.query|
       case Ready(v) => end <= |cfg.query| && v == (cfg.query[pos..end], end)
  }

  /** A cached path list holds all paths of its width, with references that stand for them. */
  ghost predicate PathsOk(cfg: Config, root: Trie, steps: seq<Step>, staged: seq<StagedNode>, start: string, node: Trie,
                          paths: seq<Slot<seq<DictPath>>>)
    requires Ordered(steps) && StagedOk(steps, staged)
  {
    && |paths| == cfg.sourceSlots
    && (forall s :: 0 <= s < |paths| && paths[s].Ready? ==> TargetsOk(root, steps, staged, start, paths[s].value))
    && (forall i :: 0 <= i < |cfg.prepared| ==> WidthOk(cfg.prepared[i], node, paths))
  }

  ghost predicate WidthOk(p: Prepared, node: Trie, paths: seq<Slot<seq<DictPath>>>) {
    && p.sourceSlot < |paths|
    && (paths[p.sourceSlot].Ready? ==> Outputs(paths[p.sourceSlot].value) == Below([], node, p.op.consumeX))
  }

  lemma PathsStable(cfg: Config, root: Trie, steps: seq<Step>, steps': seq<Step>, staged: seq<StagedNode>,
                    staged': seq<StagedNode>, start: string, node: Trie, paths: seq<Slot<seq<DictPath>>>)
    requires Ordered(steps) && Ordered(steps') && steps <= steps' && staged <= staged'
    requires StagedOk(steps, staged) && StagedOk(steps', staged')
    requires PathsOk(cfg, root, steps, staged, start, node, paths)
    ensures PathsOk(cfg, root, steps', staged', start, node, paths)
  {
    hide TargetsOk;
    forall s | 0 <= s < |paths| && paths[s].Ready? ensures TargetsOk(root, steps', staged', start, paths[s].value) {
      TargetsStable(root, steps, steps', staged, staged', start, paths[s].value);
    }
  }

  /** Slots coincide exactly when widths do, so one search serves every operation of that width. */
  lemma {:induction false} PathsStore(cfg: Config, root: Trie, steps: seq<Step>, staged: seq<StagedNode>, start: string,
                                      node: Trie, paths: seq<Slot<seq<DictPath>>>, i: nat, found: seq<DictPath>)
    requires cfg.Valid() && i < |cfg.prepared| && Ordered(steps) && StagedOk(steps, staged)
    requires PathsOk(cfg, root, steps, staged, start, node, paths) && TargetsOk(root, steps, staged, start, found)
    requires Outputs(found) == Below([], node, cfg.prepared[i].op.consumeX)
    ensures PathsOk(cfg, root, steps, staged, start, node, paths[cfg.prepared[i].sourceSlot := Ready(found)])
  {
    hide TargetsOk;
    var more := paths[cfg.prepared[i].sourceSlot := Ready(found)];
    forall j | 0 <= j < |cfg.prepared| ensures WidthOk(cfg.prepared[j], node, more) {
      assert WidthOk(cfg.prepared[j], node, paths);
    }
  }

  lemma QueriesStore(cfg: Config, pos: nat, queries: seq<Slot<(string, nat)>>, i: nat)
    requires cfg.Valid() && i < |cfg.prepared| && QueriesOk(cfg, pos, queries)
    ensures var end := pos + cfg.prepared[i].op.consumeY;
            QueriesOk(cfg, pos,
                      queries[cfg.prepared[i].querySlot :=
                              if end <= |cfg.query| then Ready((cfg.query[pos..end], end)) else Missing])
  {
    var end := pos + cfg.prepared[i].op.consumeY;
    var more := queries[cfg.prepared[i].querySlot :=
                        if end <= |cfg.query| then Ready((cfg.query[pos..end], end)) else Missing];
    forall j | 0 <= j < |cfg.prepared| ensures QueryOk(cfg, pos, cfg.prepared[j], more) {
      assert QueryOk(cfg, pos, cfg.prepared[j], queries);
    }
  }

  lemma ArcTargetsStable(steps: seq<Step>, steps': seq<Step>, staged: seq<StagedNode>, staged': seq<StagedNode>,
                         start: string, arcs: seq<PendingArc>)
    requires Ordered(steps) && Ordered(steps') && steps <= steps' && staged <= staged'
    requires StagedOk(steps, staged) && StagedOk(steps', staged') && ArcTargets(steps, staged, start, arcs)
    ensures ArcTargets(steps', staged', start, arcs)
  {
    forall j | 0 <= j < |arcs|
      ensures RefOk(steps', |staged'|, arcs[j].target)
      ensures RefPath(steps', staged', arcs[j].target) == start + arcs[j].output
    {
      RefStable(steps, steps', staged, staged', arcs[j].target);
    }
  }

  /** After `n` operations: the arcs so far are those of `Macros`, and the caches are faithful. */
  ghost predicate CollectInv(cfg: Config, root: Trie, steps: seq<Step>, staged: seq<StagedNode>, site: Site, n: nat,
                             arcs: seq<PendingArc>, paths: seq<Slot<seq<DictPath>>>, queries: seq<Slot<(string, nat)>>)
  {
    && StagedDenotes(root, steps, staged) && n <= |cfg.prepared| && StagedProbed(cfg, steps, staged, site)
    && QueriesOk(cfg, site.pos, queries) && PathsOk(cfg, root, steps, staged, site.start, site.node, paths)
    && Outlines(arcs) == Macros(cfg, site.node, site.pos, site.cost, n)
    && ArcTargets(steps, staged, site.start, arcs)
  }

  lemma CollectStart(cfg: Config, root: Trie, steps: seq<Step>, site: Site,
                     paths: seq<Slot<seq<DictPath>>>, queries: seq<Slot<(string, nat)>>)
    requires cfg.Valid() && Ordered(steps)
    requires |paths| == cfg.sourceSlots && forall s :: 0 <= s < |paths| ==> paths[s].Uncomputed?
    requires |queries| == cfg.querySlots && forall s :: 0 <= s < |queries| ==> queries[s].Uncomputed?
    ensures CollectInv(cfg, root, steps, [], site, 0, [], paths, queries)
  {
  }

  /** The next operation contributes nothing. */
  lemma CollectSkip(cfg: Config, root: Trie, steps: seq<Step>, staged: seq<StagedNode>, site: Site, n: nat,
                    arcs: seq<PendingArc>, paths: seq<Slot<seq<DictPath>>>, queries: seq<Slot<(string, nat)>>)
    requires CollectInv(cfg, root, steps, staged, site, n, arcs, paths, queries) && n < |cfg.prepared|
    requires var op := cfg.prepared[n].op; site.cost + op.weight > cfg.maxCost || site.pos + op.consumeY > |cfg.query|
    ensures CollectInv(cfg, root, steps, staged, site, n + 1, arcs, paths, queries)
  {
    hide PathsOk, QueriesOk, ArcTargets, StagedDenotes, Below;
    assert Macros(cfg, site.node, site.pos, site.cost, n) + [] == Macros(cfg, site.node, site.pos, site.cost, n);
  }

  /** The applications of the next operation follow the earlier arcs. */
  lemma CollectApply(cfg: Config, root: Trie, steps: seq<Step>, staged: seq<StagedNode>, site: Site, n: nat,
                     arcs: seq<PendingArc>, paths: seq<Slot<seq<DictPath>>>, queries: seq<Slot<(string, nat)>>,
                     more: seq<PendingArc>)
    requires CollectInv(cfg, root, steps, staged, site, n, arcs, paths, queries) && n < |cfg.prepared|
    requires Ordered(steps) && StagedOk(steps, staged) && ArcTargets(steps, staged, site.start, arcs + more)
    requires Outlines(more) == OpArcs(cfg, site.node, site.pos, site.cost, cfg.prepared[n].op)
    ensures CollectInv(cfg, root, steps, staged, site, n + 1, arcs + more, paths, queries)
  {
    hide PathsOk, QueriesOk, ArcTargets, StagedDenotes, OpArcs;
    assert Outlines(arcs + more) == Outlines(arcs) + Outlines(more);
  }

  lemma {:induction false} CollectParts(cfg: Config, root: Trie, steps: seq<Step>, staged: seq<StagedNode>, site: Site,
                                        n: nat, arcs: seq<PendingArc>, paths: seq<Slot<seq<DictPath>>>,
                                        queries: seq<Slot<(string, nat)>>)
    requires CollectInv(cfg, root, steps, staged, site, n, arcs, paths, queries)
    ensures Ordered(steps) && StagedOk(steps, staged) && StagedDenotes(root, steps, staged)
    ensures QueriesOk(cfg, site.pos, queries) && PathsOk(cfg, root, steps, staged, site.start, site.node, paths)
    ensures ArcTargets(steps, staged, site.start, arcs)
    ensures Outlines(arcs) == Macros(cfg, site.node, site.pos, site.cost, n)
    ensures StagedProbed(cfg, steps, staged, site)
  {
  }

  lemma CollectWith(cfg: Config, root: Trie, steps: seq<Step>, steps': seq<Step>, staged: seq<StagedNode>,
                    staged': seq<StagedNode>, site: Site, n: nat, arcs: seq<PendingArc>,
                    paths: seq<Slot<seq<DictPath>>>, paths': seq<Slot<seq<DictPath>>>,
                    queries: seq<Slot<(string, nat)>>)
    requires CollectInv(cfg, root, steps, staged, site, n, arcs, paths, queries)
    requires steps <= steps' && staged <= staged' && StagedDenotes(root, steps', staged')
    requires Ordered(steps') && StagedOk(steps', staged') && StagedProbed(cfg, steps', staged', site)
    requires PathsOk(cfg, root, steps', staged', site.start, site.node, paths')
    ensures CollectInv(cfg, root, steps', staged', site, n, arcs, paths', queries)
  {
    hide PathsOk, QueriesOk, ArcTargets;
    ArcTargetsStable(steps, steps', staged, staged', site.start, arcs);
  }

  // ---------------------------------------------------------------- the expansion

  /** A site describes a registered node. */
  ghost predicate SiteAt(w: World, site: Site) {
    && Ordered(w.steps) && site.id < |w.steps| == |w.nodes|
    && site.start == PathOf(w.steps, site.id) && site.node == w.nodes[site.id]
  }

  lemma {:induction false} SiteAtKept(root: Trie, b: Bounds, w: World, w': World, site: Site)
    requires SiteAt(w, site) && Extends(w, w') && Sound(root, b, w')
    ensures SiteAt(w', site)
  {
    hide Denotes, PathOf;
    SoundDenotes(root, b, w');
    PathStable(w.steps, w'.steps, site.id);
  }

  datatype Limits = Limits(maxPaths: nat, maxWork: nat)

  /**
   How an expansion is run: its limits, how often other clones publish meanwhile at most, and if it is never cancelled.
   */
  datatype Conditions = Conditions(limits: Limits, rounds: nat, patient: bool)

  datatype Expansion = Expanded(finalWeight: Option<nat>, ts: seq<Transition>) | Unexpanded(failure: Failure)

  /** `product_final_weight`. */
  function ProductFinal(cfg: Config, node: Trie, p: GS.Product): Option<nat> {
    if p.pos == |cfg.query| && p.cost <= cfg.maxCost && node.isFinal then Some(0) else None
  }

  /** Transition `t` of state `from` realises firing `m` from dictionary path `start`. */
  ghost predicate Realises(steps: seq<Step>, states: seq<GS.State>, from: nat, start: string, m: Macro, t: Transition)
    requires Ordered(steps)
  {
    Achieves(steps, states, from, GoalAt(start, m), t)
  }

  /** The transitions of a product state realise its arcs, one for one and in order. */
  ghost predicate RealisesAll(cfg: Config, steps: seq<Step>, states: seq<GS.State>, from: nat, site: Site,
                              ts: seq<Transition>)
    requires Ordered(steps)
  {
    var macros := Macros(cfg, site.node, site.pos, site.cost, |cfg.prepared|);
    && |ts| == |macros|
    && forall j :: 0 <= j < |ts| ==> Realises(steps, states, from, site.start, macros[j], ts[j])
  }

  /** State `state` of `w` is a product state of an existing node. */
  ghost predicate IsSite(w: World, state: nat) {
    && state < |w.states| && w.states[state].ProductState? && Ordered(w.steps)
    && w.states[state].product.node < |w.steps| == |w.nodes|
  }

  ghost function SiteIn(w: World, state: nat): Site
    requires IsSite(w, state)
  {
    var p := w.states[state].product;
    Site(PathOf(w.steps, p.node), p.node, w.nodes[p.node], p.pos, p.cost)
  }

  /** What a successful expansion of `state` says, in the registries as they are when it finishes. */
  ghost predicate IsExpansion(cfg: Config, w: World, state: nat, finalWeight: Option<nat>, ts: seq<Transition>) {
    && state < |w.states| && Ordered(w.steps) && |w.steps| == |w.nodes|
    && match w.states[state]
       case ProductState(p) =>
         && p.node < |w.nodes| && finalWeight == ProductFinal(cfg, w.nodes[p.node], p)
         && RealisesAll(cfg, w.steps, w.states, state, SiteIn(w, state), ts)
       case EmitState(c, position, next) =>
         finalWeight == None &&
         ts == [Transition(state, LabelAt(c.input, position), LabelAt(c.output, position), next, 0)]
  }

  /** A product state adds nodes it may have probed and states its firings need; an emission state adds nothing. */
  ghost predicate AddsOwed(cfg: Config, w: World, w': World, state: nat) {
    if IsSite(w, state) then Adds(w, w', ProbedPaths(cfg, SiteIn(w, state)), SiteGoals(cfg, SiteIn(w, state)))
    else w' == w
  }

  /** An upper bound of what the expansion of any state is charged. */
  ghost function WorkLimit(cfg: Config, w: World, state: nat, rounds: nat): (limit: nat)
    ensures limit >= 1
  {
    if IsSite(w, state) then ProductWork(cfg, SiteIn(w, state), rounds) else 1
  }

  ghost function PathLimit(cfg: Config, w: World, state: nat): nat {
    if IsSite(w, state) then OpsPaths(cfg, SiteIn(w, state).node, |cfg.prepared|) else 0
  }

  /** The failures that the conditions bear out: a cancellation, or a limit below what the expansion can cost. */
  ghost predicate Deserved(cfg: Config, cond: Conditions, w: World, state: nat, f: Failure) {
    match f
    case Cancelled => !cond.patient
    case WorkExceeded => cond.limits.maxWork < WorkLimit(cfg, w, state, cond.rounds)
    case PathsExceeded => cond.limits.maxPaths < PathLimit(cfg, w, state)
    case _ => false
  }

  /** The failures that the registries bear out: an unknown state, or a product state whose additions do not fit. */
  ghost predicate Excused(cfg: Config, root: Trie, b: Bounds, w: World, state: nat, f: Failure) {
    || (f == InvalidState && state >= |w.states|)
    || (IsSite(w, state) &&
        Trouble(f, root, b, w, ProbedPaths(cfg, SiteIn(w, state)), SiteGoals(cfg, SiteIn(w, state))))
  }

  /** The parts of a generalized WFST that an expansion touches. */
  class GeneralizedWfst {
    const cfg: Config
    const limits: Limits
    const shared: SharedRegistries

    ghost predicate Valid()
      reads shared.registry, shared.states
    {
      cfg.Valid() && shared.Valid() && shared.bounds.extent == cfg.Extent()
    }

    constructor (cfg: Config, limits: Limits, root: Trie, maxNodes: nat, maxStates: nat, schedule: seq<seq<Foreign>>)
      requires cfg.Valid() && WellFormed(root) && maxNodes >= 1 && maxStates >= 1
      ensures Valid() && this.cfg == cfg && this.limits == limits && fresh(shared) && shared.schedule == schedule
      ensures shared.root == root && shared.bounds == Bounds(maxNodes, maxStates, cfg.Extent())
      ensures shared.Now() == World([Root], [root], [GS.ProductState(GS.START)])
    {
      this.cfg, this.limits := cfg, limits;
      shared := new SharedRegistries(root, Bounds(maxNodes, maxStates, cfg.Extent()), schedule);
    }

    /** The dictionary paths of an operation's width, searched for at most once per width. */
    method PathsFor(site: Site, i: nat, staging: ExpansionStaging, budget: ExpansionBudget,
                    paths: seq<Slot<seq<DictPath>>>, ghost arcs: seq<PendingArc>,
                    ghost queries: seq<Slot<(string, nat)>>)
      returns (failure: Option<Failure>, found: seq<DictPath>, paths': seq<Slot<seq<DictPath>>>)
      requires Valid() && staging.Valid() && i < |cfg.prepared| && SiteAt(shared.Now(), site)
      requires Affordable(cfg, site.pos, site.cost, cfg.prepared[i].op)
      requires CollectInv(cfg, shared.root, shared.registry.steps, staging.nodes, site, i, arcs, paths, queries)
      modifies shared.registry, shared.states, shared`owners, shared`schedule, staging, budget
      ensures Valid() && shared.OthersOnly() && SiteAt(shared.Now(), site)
      ensures staging.Valid() && old(staging.nodes) <= staging.nodes
      ensures failure.None? ==>
                && CollectInv(cfg, shared.root, shared.registry.steps, staging.nodes, site, i, arcs, paths', queries)
                && StagedOk(shared.registry.steps, staging.nodes)
                && TargetsOk(shared.root, shared.registry.steps, staging.nodes, site.start, found)
                && Outputs(found) == Below([], site.node, cfg.prepared[i].op.consumeX)
      ensures failure.None? ==> PaidFor(old(|staging.nodes|), |staging.nodes|, old(budget.work), budget.work)
      ensures failure.Some? ==> budget.Explains(failure.value)
      ensures var op := cfg.prepared[i].op;
              && old(budget.work) <= budget.work <= old(budget.work) + SearchWork(site.node, op.consumeX)
              && old(budget.paths) <= budget.paths <= old(budget.paths) + |Below([], site.node, op.consumeX)|
    {
      hide Denotes, StagedDenotes, PathsOk, TargetsOk, CollectInv, Sound, Interfered, GS.WellShaped, SlotsFaithful,
           Near, Affordable, StagedProbed, SearchWork, Below, PathOf, Outputs, GS.ProductsOf, GS.ChainsOf,
           WellFormed, Distinct, StepKey;
      ghost var root, steps, staged, w0 := shared.root, shared.registry.steps, staging.nodes, shared.Now();
      var slot := cfg.prepared[i].sourceSlot;
      CollectParts(cfg, root, steps, staged, site, i, arcs, paths, queries);
      PathsEntry(cfg, root, steps, staged, site.start, site.node, paths, i);
      if paths[slot].Ready? {
        InterferedNot(shared.bounds, w0, shared.schedule);
        return None, paths[slot].value, paths;
      }
      var r := DictionaryPaths(shared, site.id, cfg.prepared[i].op.consumeX, staging, budget);
      SiteAtKept(root, shared.bounds, w0, shared.Now(), site);
      if r.NotFound? {
        return Some(r.failure), [], paths;
      }
      StagedShape(root, shared.registry.steps, staging.nodes);
      PathStable(steps, shared.registry.steps, site.id);
      paths' := paths[slot := Ready(r.paths)];
      PathsFound(cfg, root, steps, shared.registry.steps, staged, staging.nodes, site, i, arcs, paths, queries,
                 r.paths);
      return None, r.paths, paths';
    }

    /** The query segment of an operation's width, cut at most once per width. */
    method SegmentFor(pos: nat, i: nat, budget: ExpansionBudget, queries: seq<Slot<(string, nat)>>)
      returns (failure: Option<Failure>, queries': seq<Slot<(string, nat)>>)
      requires cfg.Valid() && i < |cfg.prepared| && QueriesOk(cfg, pos, queries)
      modifies budget`checks, budget`work
      ensures QueriesOk(cfg, pos, queries')
      ensures failure.None? ==> !queries'[cfg.prepared[i].querySlot].Uncomputed?
      ensures failure.Some? ==> budget.Explains(failure.value)
      ensures old(budget.work) <= budget.work <= old(budget.work) + 2 * cfg.prepared[i].op.consumeY
    {
      failure, queries' := None, queries;
      var p := cfg.prepared[i];
      assert QueryOk(cfg, pos, p, queries);
      if queries[p.querySlot].Uncomputed? {
        failure := budget.ChargeWork(p.op.consumeY * 2);
        if failure.None? {
          QueriesStore(cfg, pos, queries, i);
          var end := pos + p.op.consumeY;
          queries' := queries[p.querySlot := if end <= |cfg.query| then Ready((cfg.query[pos..end], end)) else Missing];
        }
      }
    }

    /** Empty per-width caches, one slot for each distinct width. */
    method WidthCaches(budget: ExpansionBudget)
      returns (failure: Option<Failure>, paths: seq<Slot<seq<DictPath>>>, queries: seq<Slot<(string, nat)>>)
      modifies budget`checks, budget`work
      ensures |paths| == cfg.sourceSlots && forall s :: 0 <= s < |paths| ==> paths[s].Uncomputed?
      ensures |queries| == cfg.querySlots && forall s :: 0 <= s < |queries| ==> queries[s].Uncomputed?
      ensures failure.Some? ==> budget.Explains(failure.value)
      ensures old(budget.work) <= budget.work <= old(budget.work) + cfg.sourceSlots + cfg.querySlots
    {
      paths := seq(cfg.sourceSlots, _ => Uncomputed);
      queries := seq(cfg.querySlots, _ => Uncomputed);
      failure := budget.ChargeWork(cfg.sourceSlots);
      if failure.None? {
        failure := budget.ChargeWork(cfg.querySlots);
      }
    }

    /** Everything one product state owes, in operation order, for at most the work and the paths of its operations. */
    method CollectArcs(site: Site, staging: ExpansionStaging, budget: ExpansionBudget)
      returns (failure: Option<Failure>, arcs: seq<PendingArc>)
      requires Valid() && staging.Valid() && staging.nodes == [] && SiteAt(shared.Now(), site)
      requires site.cost <= cfg.maxCost
      modifies shared.registry, shared.states, shared`owners, shared`schedule, staging, budget
      ensures Valid() && shared.OthersOnly() && staging.Valid()
      ensures failure.None? ==>
                && StagedDenotes(shared.root, shared.registry.steps, staging.nodes)
                && StagedOk(shared.registry.steps, staging.nodes)
                && StagedProbed(cfg, shared.registry.steps, staging.nodes, site)
                && ArcTargets(shared.registry.steps, staging.nodes, site.start, arcs)
                && Outlines(arcs) == Macros(cfg, site.node, site.pos, site.cost, |cfg.prepared|)
      ensures failure.None? ==> PaidFor(old(|staging.nodes|), |staging.nodes|, old(budget.work), budget.work)
      ensures failure.Some? ==> budget.Explains(failure.value)
      ensures budget.work <= old(budget.work) + CollectWork(cfg, site.node)
      ensures budget.paths <= old(budget.paths) + OpsPaths(cfg, site.node, |cfg.prepared|)
    {
      hide Denotes, StagedDenotes, CollectInv, Sound, Interfered, GS.WellShaped, GS.ProductsOf, GS.ChainsOf,
           SlotsFaithful, Macros, ArcTargets, Outlines, Walk, PathOf, Config.Valid, StagedProbed, OpsWork, OpsPaths,
           Distinct, WellFormed;
      InterferedNot(shared.bounds, shared.Now(), shared.schedule);
      arcs := [];
      var paths: seq<Slot<seq<DictPath>>>, queries: seq<Slot<(string, nat)>>;
      failure, paths, queries := WidthCaches(budget);
      if failure.Some? {
        return;
      }
      CollectStart(cfg, shared.root, shared.registry.steps, site, paths, queries);
      failure, arcs, paths, queries := CollectAll(site, staging, budget, paths, queries);
      if failure.None? {
        CollectParts(cfg, shared.root, shared.registry.steps, staging.nodes, site, |cfg.prepared|, arcs, paths,
                     queries);
      }
    }

    /** The loop over the operations. */
    method CollectAll(site: Site, staging: ExpansionStaging, budget: ExpansionBudget, paths0: seq<Slot<seq<DictPath>>>,
                      queries0: seq<Slot<(string, nat)>>)
      returns (failure: Option<Failure>, arcs: seq<PendingArc>, paths: seq<Slot<seq<DictPath>>>,
               queries: seq<Slot<(string, nat)>>)
      requires Valid() && staging.Valid() && SiteAt(shared.Now(), site) && site.cost <= cfg.maxCost
      requires CollectInv(cfg, shared.root, shared.registry.steps, staging.nodes, site, 0, [], paths0, queries0)
      modifies shared.registry, shared.states, shared`owners, shared`schedule, staging, budget
      ensures Valid() && shared.OthersOnly() && staging.Valid()
      ensures failure.None? ==>
                CollectInv(cfg, shared.root, shared.registry.steps, staging.nodes, site, |cfg.prepared|, arcs, paths,
                           queries)
      ensures failure.None? ==> PaidFor(old(|staging.nodes|), |staging.nodes|, old(budget.work), budget.work)
      ensures failure.Some? ==> budget.Explains(failure.value)
      ensures budget.work <= old(budget.work) + OpsWork(cfg, site.node, |cfg.prepared|)
      ensures budget.paths <= old(budget.paths) + OpsPaths(cfg, site.node, |cfg.prepared|)
    {
      hide Denotes, StagedDenotes, CollectInv, Sound, Interfered, GS.WellShaped, GS.ProductsOf, GS.ChainsOf, SiteAt,
           OpsWork, OpsPaths, OpWork, Below, GeneralizedWfst.Valid;
      ghost var w0, s0 := shared.Now(), shared.schedule;
      InterferedNot(shared.bounds, w0, s0);
      OpsStart(cfg, site.node);
      failure, arcs, paths, queries := None, [], paths0, queries0;
      for i := 0 to |cfg.prepared|
        invariant Valid() && Interfered(shared.bounds, w0, s0, shared.Now(), shared.schedule)
        invariant Extends(w0, shared.Now())
        invariant staging.Valid() && failure.None? && SiteAt(shared.Now(), site)
        invariant CollectInv(cfg, shared.root, shared.registry.steps, staging.nodes, site, i, arcs, paths, queries)
        invariant PaidFor(old(|staging.nodes|), |staging.nodes|, old(budget.work), budget.work)
        invariant budget.work <= old(budget.work) + OpsWork(cfg, site.node, i)
        invariant budget.paths <= old(budget.paths) + OpsPaths(cfg, site.node, i)
      {
        ghost var w1, s1 := shared.Now(), shared.schedule;
        OpsStep(cfg, site.node, i);
        failure, arcs, paths, queries := CollectOperation(site, i, staging, budget, arcs, paths, queries);
        InterferedTwice(shared.bounds, w0, s0, w1, s1, shared.Now(), shared.schedule);
        if failure.Some? {
          return;
        }
      }
    }

    /** One operation of the loop: skipped when over budget or past the query's end, otherwise applied to every path. */
    method CollectOperation(site: Site, i: nat, staging: ExpansionStaging, budget: ExpansionBudget,
                            arcs: seq<PendingArc>, paths: seq<Slot<seq<DictPath>>>, queries: seq<Slot<(string, nat)>>)
      returns (failure: Option<Failure>, arcs': seq<PendingArc>, paths': seq<Slot<seq<DictPath>>>,
               queries': seq<Slot<(string, nat)>>)
      requires Valid() && staging.Valid() && i < |cfg.prepared| && SiteAt(shared.Now(), site)
      requires site.cost <= cfg.maxCost
      requires CollectInv(cfg, shared.root, shared.registry.steps, staging.nodes, site, i, arcs, paths, queries)
      modifies shared.registry, shared.states, shared`owners, shared`schedule, staging, budget
      ensures Valid() && shared.OthersOnly() && SiteAt(shared.Now(), site)
      ensures staging.Valid() && old(staging.nodes) <= staging.nodes
      ensures failure.None? ==>
                CollectInv(cfg, shared.root, shared.registry.steps, staging.nodes, site, i + 1, arcs', paths', queries')
      ensures failure.None? ==> PaidFor(old(|staging.nodes|), |staging.nodes|, old(budget.work), budget.work)
      ensures failure.Some? ==> budget.Explains(failure.value)
      ensures budget.work <= old(budget.work) + OpWork(site.node, cfg.prepared[i].op)
      ensures budget.paths <= old(budget.paths) + |Below([], site.node, cfg.prepared[i].op.consumeX)|
    {
      hide Denotes, StagedDenotes, PathsOk, TargetsOk, CollectInv, Sound, Interfered, GS.WellShaped, GS.ProductsOf,
           GS.ChainsOf, SlotsFaithful, QueriesOk, ArcTargets, Below, Walk, PathOf, StagedProbed, SearchWork, Twice,
           WellFormed, Distinct, StepKey;
      arcs', paths', queries' := arcs, paths, queries;
      InterferedNot(shared.bounds, shared.Now(), shared.schedule);
      var p := cfg.prepared[i];
      ghost var steps, w0 := shared.registry.steps, shared.Now();
      failure := budget.ChargeWork(1);
      if failure.Some? {
        return;
      }
      if p.op.weight > cfg.maxCost - site.cost {
        CollectSkip(cfg, shared.root, steps, staging.nodes, site, i, arcs, paths, queries);
        return;
      }
      CollectParts(cfg, shared.root, steps, staging.nodes, site, i, arcs, paths, queries);
      failure, queries' := SegmentFor(site.pos, i, budget, queries);
      if failure.Some? {
        return;
      }
      CollectQueries(cfg, shared.root, steps, staging.nodes, site, i, arcs, paths, queries, queries');
      if queries'[p.querySlot].Missing? {
        CollectSkip(cfg, shared.root, steps, staging.nodes, site, i, arcs, paths, queries');
        return;
      }
      var found: seq<DictPath>;
      failure, found, paths' := PathsFor(site, i, staging, budget, paths, arcs, queries');
      if failure.Some? {
        return;
      }
      SoundNode(shared.root, shared.bounds, w0, site.id);
      failure, arcs' := ApplyFound(site, i, staging, budget, arcs, found, paths', queries');
    }

    /** The applications of operation `i` to the paths found for it follow the earlier arcs. */
    method ApplyFound(site: Site, i: nat, staging: ExpansionStaging, budget: ExpansionBudget, arcs: seq<PendingArc>,
                      found: seq<DictPath>, ghost paths: seq<Slot<seq<DictPath>>>, queries: seq<Slot<(string, nat)>>)
      returns (failure: Option<Failure>, arcs': seq<PendingArc>)
      requires i < |cfg.prepared| && site.cost + cfg.prepared[i].op.weight <= cfg.maxCost && WellFormed(site.node)
      requires CollectInv(cfg, shared.root, shared.registry.steps, staging.nodes, site, i, arcs, paths, queries)
      requires QueryOk(cfg, site.pos, cfg.prepared[i], queries) && queries[cfg.prepared[i].querySlot].Ready?
      requires Ordered(shared.registry.steps) && StagedOk(shared.registry.steps, staging.nodes)
      requires TargetsOk(shared.root, shared.registry.steps, staging.nodes, site.start, found)
      requires Outputs(found) == Below([], site.node, cfg.prepared[i].op.consumeX)
      modifies budget`checks, budget`work
      ensures failure.None? ==>
                CollectInv(cfg, shared.root, shared.registry.steps, staging.nodes, site, i + 1, arcs', paths, queries)
      ensures failure.Some? ==> budget.Explains(failure.value)
      ensures old(budget.work) <= budget.work
      ensures budget.work <= old(budget.work) +
              Twice(PathCap(cfg.prepared[i].op), |Below([], site.node, cfg.prepared[i].op.consumeX)|)
    {
      hide TargetsOk, CollectInv, ArcTargets, Below, Applying, StagedProbed, WellFormed, Twice, PathOf;
      var p := cfg.prepared[i];
      CollectParts(cfg, shared.root, shared.registry.steps, staging.nodes, site, i, arcs, paths, queries);
      var segment := queries[p.querySlot].value;
      OutputWidths(site.node, p.op.consumeX, found);
      var more: seq<PendingArc>;
      failure, more := ApplyOperation(p.op, found, segment.0, segment.1, site.cost + p.op.weight, budget,
                                      shared.root, shared.registry.steps, staging.nodes, site.start, PathCap(p.op));
      arcs' := arcs + more;
      if failure.None? {
        ArcTargetsJoin(shared.registry.steps, staging.nodes, site.start, arcs, more);
        CollectApply(cfg, shared.root, shared.registry.steps, staging.nodes, site, i, arcs, paths, queries, more);
      }
    }

    lemma Facts()
      requires Valid()
      ensures Sound(shared.root, shared.bounds, shared.Now()) && Ordered(shared.registry.steps)
      ensures |shared.registry.idToNode| == |shared.registry.steps|
    {
      shared.Facts();
    }

    /** A registered product state always passes the validity checks of its expansion. */
    lemma SiteFacts(state: nat)
      requires Valid() && state < |shared.states.idToState| && shared.states.idToState[state].ProductState?
      ensures IsSite(shared.Now(), state) && SiteAt(shared.Now(), SiteIn(shared.Now(), state))
      ensures |shared.registry.idToNode| == |shared.registry.steps|
      ensures var p := shared.states.idToState[state].product; p.pos <= |cfg.query| && p.cost <= cfg.maxCost
    {
      hide Sound, PathOf;
      SoundSite(cfg, shared.root, shared.bounds, shared.Now(), state);
      shared.Facts();
    }

    /**
     A product state: collect its arcs, then publish them in one transaction. Whatever the outcome, other clones'
     commits apart, the registries change by what is owed on success and not at all on failure.
     */
    method ExpandProduct(state: nat, p: GS.Product, budget: ExpansionBudget) returns (r: Expansion)
      requires Valid() && state < |shared.states.idToState| && shared.states.idToState[state] == GS.ProductState(p)
      modifies shared.registry, shared.states, shared`owners, shared`schedule, budget
      ensures Valid() && Leftover(old(shared.schedule), shared.schedule) && Extends(old(shared.Now()), shared.Now())
      ensures IsSite(old(shared.Now()), state)
      ensures var site := SiteIn(old(shared.Now()), state);
              && budget.work <= old(budget.work) + ProductWork(cfg, site, old(|shared.schedule|))
              && budget.paths <= old(budget.paths) + OpsPaths(cfg, site.node, |cfg.prepared|)
      ensures var others := Others(shared.bounds, old(shared.Now()), old(shared.schedule), shared.schedule);
              match r
              case Expanded(finalWeight, ts) =>
                && IsExpansion(cfg, shared.Now(), state, finalWeight, ts) && AddsOwed(cfg, others, shared.Now(), state)
              case Unexpanded(f) =>
                && shared.Now() == others
                && (budget.Explains(f) || Excused(cfg, shared.root, shared.bounds, others, state, f))
    {
      hide GS.ProductsOf, GS.ChainsOf, Macros, ArcTargets, RealisesAll, PathOf, RefPath, Walk, Interfered, Leftover,
           Others, StagedProbed, Outlines, Excused, AddsOwed, IsExpansion, OpsWork, OpsPaths, CollectWork,
           AttemptsWork, MacrosWork, StagedDenotes, Sound,
           GeneralizedWfst.Valid, SharedRegistries.Valid;
      ghost var w0, s0 := shared.Now(), shared.schedule;
      SiteFacts(state);
      InterferedNot(shared.bounds, w0, s0);
      InterferedOthers(shared.bounds, w0, s0, w0, s0);
      var node := shared.registry.idToNode[p.node].node;
      var failure := budget.ChargeWork(1);
      if failure.Some? {
        return Unexpanded(failure.value);
      }
      var finalWeight := ProductFinal(cfg, node, p);
      var staging := new ExpansionStaging();
      var site := Site(PathOf(shared.registry.steps, p.node), p.node, node, p.pos, p.cost);
      var arcs: seq<PendingArc>;
      failure, arcs := CollectArcs(site, staging, budget);
      ghost var w1, s1 := shared.Now(), shared.schedule;
      InterferedOthers(shared.bounds, w0, s0, w1, s1);
      Facts();
      SiteKept(w0, w1, state, site);
      if failure.Some? {
        return Unexpanded(failure.value);
      }
      AttemptsWorkGrows(|s1| + 2, |s0| + 2, |staging.nodes|, CollectWork(cfg, node));
      var ts: seq<Transition>;
      failure, ts := CommitCollected(state, site, staging, arcs, budget);
      OthersTwice(shared.bounds, w0, s0, w1, s1, shared.schedule);
      ExtendsTwice(w0, w1, shared.Now());
      if failure.Some? {
        return Unexpanded(failure.value);
      }
      Facts();
      SiteKept(w1, shared.Now(), state, site);
      ExpansionDone(cfg, shared.Now(), state, p, finalWeight, site, ts);
      return Expanded(finalWeight, ts);
    }

    /** Publishing the collected arcs of a product state. */
    method CommitCollected(state: nat, site: Site, staging: ExpansionStaging, arcs: seq<PendingArc>,
                           budget: ExpansionBudget)
      returns (failure: Option<Failure>, ts: seq<Transition>)
      requires Valid() && staging.Valid() && StagedDenotes(shared.root, shared.registry.steps, staging.nodes)
      requires Ordered(shared.registry.steps) && StagedOk(shared.registry.steps, staging.nodes)
      requires StagedProbed(cfg, shared.registry.steps, staging.nodes, site)
      requires ArcTargets(shared.registry.steps, staging.nodes, site.start, arcs)
      requires Outlines(arcs) == Macros(cfg, site.node, site.pos, site.cost, |cfg.prepared|)
      requires IsSite(shared.Now(), state) && SiteIn(shared.Now(), state) == site
      modifies shared.registry, shared.states, shared`owners, shared`schedule, staging`nodes, budget`checks, budget`work
      ensures Valid() && Leftover(old(shared.schedule), shared.schedule) && Extends(old(shared.Now()), shared.Now())
      ensures Ordered(shared.registry.steps)
      ensures budget.work <= old(budget.work) + AttemptsWork(old(|shared.schedule|) + 2, old(|staging.nodes|)) +
              MacrosWork(Macros(cfg, site.node, site.pos, site.cost, |cfg.prepared|))
      ensures var others := Others(shared.bounds, old(shared.Now()), old(shared.schedule), shared.schedule);
              if failure.None? then
                && RealisesAll(cfg, shared.registry.steps, shared.states.idToState, state, site, ts)
                && AddsOwed(cfg, others, shared.Now(), state)
              else
                && shared.Now() == others
                && (budget.Explains(failure.value) ||
                    Excused(cfg, shared.root, shared.bounds, others, state, failure.value))
    {
      hide Denotes, StagedDenotes, Sound, GS.WellShaped, GS.ProductsOf, GS.ChainsOf, SlotsFaithful, Macros, ArcTargets,
           RealisesAll, PathOf, RefPath, Walk, Interfered, Leftover, Others, StagedProbed, Outlines, Excused, AddsOwed,
           IsSite, SiteIn, Extends, Fulfilled, Trouble, GoalsOf, StagedPaths, ArcsOk, Ordered, Distinct, WellFormed,
           StagedOk, AttemptsWork, MacrosWork, ArcsWork;
      ghost var w0, s0, staged := shared.Now(), shared.schedule, staging.nodes;
      CollectedOk(cfg, w0.steps, staged, site, arcs);
      var c := CommitExpansion(shared, state, staging, arcs, budget);
      ghost var others := Others(shared.bounds, w0, s0, shared.schedule);
      OthersSound(shared.root, shared.bounds, w0, s0, shared.schedule);
      SiteKept(w0, others, state, site);
      SoundDenotes(shared.root, shared.bounds, shared.Now());
      CollectedGoals(cfg, w0.steps, staged, site, arcs);
      OutlinesWork(arcs);
      match c {
        case Aborted(f) =>
          CollectedExcuse(cfg, shared.root, shared.bounds, w0.steps, staged, others, state, f);
          return Some(f), [];
        case Committed(ts') =>
          CollectedDone(cfg, w0.steps, staged, others, shared.Now(), state, site, ts');
          return None, ts';
      }
    }

    /**
     An expansion of any state, for every schedule of other clones and with a failure allowed to strike at any check. An
     emission state has one free arc, to the next position of its chain.
     */
    method ExpandState(state: nat, patience: Option<nat>) returns (r: Expansion, budget: ExpansionBudget)
      requires Valid()
      modifies shared.registry, shared.states, shared`owners, shared`schedule
      ensures Valid() && Leftover(old(shared.schedule), shared.schedule) && Extends(old(shared.Now()), shared.Now())
      ensures fresh(budget) && budget.patience == patience
      ensures budget.maxPaths == limits.maxPaths && budget.maxWork == limits.maxWork
      ensures budget.work <= WorkLimit(cfg, shared.Now(), state, old(|shared.schedule|))
      ensures budget.paths <= PathLimit(cfg, shared.Now(), state)
      ensures r.Unexpanded? ==>
                || Deserved(cfg, Conditions(limits, old(|shared.schedule|), patience.None?), shared.Now(), state,
                            r.failure)
                || Excused(cfg, shared.root, shared.bounds, shared.Now(), state, r.failure)
      ensures var others := Others(shared.bounds, old(shared.Now()), old(shared.schedule), shared.schedule);
              match r
              case Expanded(finalWeight, ts) =>
                && IsExpansion(cfg, shared.Now(), state, finalWeight, ts) && AddsOwed(cfg, others, shared.Now(), state)
              case Unexpanded(f) =>
                && shared.Now() == others
                && (budget.Explains(f) || Excused(cfg, shared.root, shared.bounds, others, state, f))
    {
      hide WorkLimit, PathLimit, IsExpansion, AddsOwed, Excused, Sound, Leftover, Others, Interfered,
           GeneralizedWfst.Valid, SharedRegistries.Valid;
      ghost var w0, s0 := shared.Now(), shared.schedule;
      budget := new ExpansionBudget(limits.maxPaths, limits.maxWork, patience);
      var failure := budget.Check();
      Release();
      ghost var w1, s1 := shared.Now(), shared.schedule;
      InterferedOthers(shared.bounds, w0, s0, w1, s1);
      if failure.Some? {
        return Unexpanded(failure.value), budget;
      }
      if state >= |shared.states.idToState| {
        UnknownExcused(cfg, shared.root, shared.bounds, w1, state);
        return Unexpanded(InvalidState), budget;
      }
      if shared.states.idToState[state].ProductState? {
        r := ExpandProduct(state, shared.states.idToState[state].product, budget);
        Facts();
        LimitsKept(cfg, w1, shared.Now(), state, |s1|, |s0|);
        OthersTwice(shared.bounds, w0, s0, w1, s1, shared.schedule);
        ExtendsTwice(w0, w1, shared.Now());
      } else {
        r := ExpandEmit(state, budget);
      }
    }

    /** The locks are free. */
    method Release()
      requires Valid()
      modifies shared.registry, shared.states, shared`owners, shared`schedule
      ensures Valid() && shared.OthersOnly()
    {
      hide Sound, Interfered;
      shared.Yield();
    }

    /** The one free arc of an emission state: its whole chain was registered with its first arc. */
    method ExpandEmit(state: nat, budget: ExpansionBudget) returns (r: Expansion)
      requires Valid() && state < |shared.states.idToState| && shared.states.idToState[state].EmitState?
      modifies budget`checks, budget`work
      ensures budget.work <= old(budget.work) + 1
      ensures match r
              case Expanded(finalWeight, ts) =>
                && IsExpansion(cfg, shared.Now(), state, finalWeight, ts)
                && AddsOwed(cfg, shared.Now(), shared.Now(), state)
              case Unexpanded(f) => budget.Explains(f)
    {
      hide Denotes, Sound, GS.WellShaped, GS.ProductsOf, GS.ChainsOf, SlotsFaithful, RealisesAll, PathOf, AddsOwed,
           WellFormed, Distinct;
      SoundDenotes(shared.root, shared.bounds, shared.Now());
      AddsNothing(cfg, shared.Now(), state);
      var failure := budget.ChargeWork(1);
      if failure.None? {
        failure := budget.Check();
      }
      if failure.Some? {
        return Unexpanded(failure.value);
      }
      var e := shared.states.idToState[state];
      return Expanded(None,
                      [Transition(state, LabelAt(e.chain.input, e.position), LabelAt(e.chain.output, e.position),
                                  e.next, 0)]);
    }
  }

  lemma UnknownExcused(cfg: Config, root: Trie, b: Bounds, w: World, state: nat)
    requires state >= |w.states|
    ensures Excused(cfg, root, b, w, state, InvalidState)
  {
  }

  lemma AddsNothing(cfg: Config, w: World, state: nat)
    requires state < |w.states| && w.states[state].EmitState?
    ensures AddsOwed(cfg, w, w, state)
  {
  }

  /** Other clones keep the registries sound. */
  lemma {:induction false} OthersSound(root: Trie, b: Bounds, w: World, s: seq<seq<Foreign>>, s': seq<seq<Foreign>>)
    requires WellFormed(root) && Sound(root, b, w) && Leftover(s, s')
    ensures Sound(root, b, Others(b, w, s, s')) && Extends(w, Others(b, w, s, s'))
    ensures Ordered(Others(b, w, s, s').steps)
    ensures |Others(b, w, s, s').steps| == |Others(b, w, s, s').nodes|
  {
    hide Sound, WellFormed;
    ForeignAllSound(root, b, w, s[..|s| - |s'|]);
    SoundDenotes(root, b, Others(b, w, s, s'));
  }

  /** What others do in two stretches is what they do in one. */
  lemma OthersTwice(b: Bounds, w0: World, s0: seq<seq<Foreign>>, w1: World, s1: seq<seq<Foreign>>,
                    s2: seq<seq<Foreign>>)
    requires Leftover(s0, s1) && w1 == Others(b, w0, s0, s1) && Leftover(s1, s2)
    ensures Leftover(s0, s2) && Others(b, w1, s1, s2) == Others(b, w0, s0, s2)
  {
    InterferedTwice(b, w0, s0, w1, s1, Others(b, w1, s1, s2), s2);
  }

  /** A registered product state always passes the validity checks of its expansion. */
  lemma SoundSite(cfg: Config, root: Trie, b: Bounds, w: World, state: nat)
    requires Sound(root, b, w) && b.extent == cfg.Extent() && state < |w.states| && w.states[state].ProductState?
    ensures IsSite(w, state) && var p := w.states[state].product; p.pos <= |cfg.query| && p.cost <= cfg.maxCost
  {
  }

  /** The nodes of a sound registry are well formed. */
  lemma {:induction false} SoundNode(root: Trie, b: Bounds, w: World, id: nat)
    requires WellFormed(root) && Sound(root, b, w) && id < |w.nodes|
    ensures WellFormed(w.nodes[id])
  {
    hide GS.WellShaped, GS.Linked, WellFormed;
    assert Walk(root, PathOf(w.steps, id)) == Some(w.nodes[id]);
    WalkWellFormed(root, PathOf(w.steps, id));
  }

  /** Growth changes nothing about a site. */
  lemma {:induction false} SiteKept(w: World, w': World, state: nat, site: Site)
    requires Extends(w, w') && IsSite(w, state) && SiteIn(w, state) == site && Ordered(w'.steps)
    requires |w'.steps| == |w'.nodes|
    ensures IsSite(w', state) && SiteIn(w', state) == site
  {
    PathStable(w.steps, w'.steps, w.states[state].product.node);
  }

  lemma ExpansionDone(cfg: Config, w: World, state: nat, p: GS.Product, finalWeight: Option<nat>, site: Site,
                      ts: seq<Transition>)
    requires IsSite(w, state) && SiteIn(w, state) == site && w.states[state] == GS.ProductState(p)
    requires finalWeight == ProductFinal(cfg, w.nodes[p.node], p)
    requires RealisesAll(cfg, w.steps, w.states, state, site, ts)
    ensures IsExpansion(cfg, w, state, finalWeight, ts)
  {
    hide RealisesAll, PathOf;
  }

  lemma {:induction false} OpsStart(cfg: Config, node: Trie)
    ensures OpsWork(cfg, node, 0) == 0 && OpsPaths(cfg, node, 0) == 0
    ensures forall n: nat :: n <= |cfg.prepared| ==> OpsWork(cfg, node, n) <= OpsWork(cfg, node, |cfg.prepared|)
    ensures forall n: nat :: n <= |cfg.prepared| ==> OpsPaths(cfg, node, n) <= OpsPaths(cfg, node, |cfg.prepared|)
  {
    hide OpWork, Below;
    forall n: nat | n <= |cfg.prepared|
      ensures OpsWork(cfg, node, n) <= OpsWork(cfg, node, |cfg.prepared|)
      ensures OpsPaths(cfg, node, n) <= OpsPaths(cfg, node, |cfg.prepared|)
    {
      OpsMonotone(cfg, node, n, |cfg.prepared|);
    }
  }

  lemma {:induction false} OpsMonotone(cfg: Config, node: Trie, n: nat, m: nat)
    requires n <= m <= |cfg.prepared|
    ensures OpsWork(cfg, node, n) <= OpsWork(cfg, node, m) && OpsPaths(cfg, node, n) <= OpsPaths(cfg, node, m)
    decreases m
  {
    hide OpWork, Below;
    if n < m { OpsMonotone(cfg, node, n, m - 1); }
  }

  lemma OpsStep(cfg: Config, node: Trie, i: nat)
    requires i < |cfg.prepared|
    ensures OpsWork(cfg, node, i + 1) == OpsWork(cfg, node, i) + OpWork(node, cfg.prepared[i].op)
    ensures OpsPaths(cfg, node, i + 1) == OpsPaths(cfg, node, i) + |Below([], node, cfg.prepared[i].op.consumeX)|
  {
  }

  /** Every path found has the operation's width. */
  lemma {:induction false} OutputWidths(node: Trie, width: nat, found: seq<DictPath>)
    requires WellFormed(node) && Outputs(found) == Below([], node, width)
    ensures |found| == |Below([], node, width)| && forall k :: 0 <= k < |found| ==> |found[k].output| == width
  {
    hide WellFormed, Below;
    forall k | 0 <= k < |found| ensures |found[k].output| == width {
      assert Outputs(found)[k] in Below([], node, width);
      BelowMember([], node, width, found[k].output);
    }
  }

  /** The paths found for a width go into its slot. */
  lemma {:induction false} PathsFound(cfg: Config, root: Trie, steps: seq<Step>, steps': seq<Step>,
                                      staged: seq<StagedNode>, staged': seq<StagedNode>, site: Site, i: nat,
                                      arcs: seq<PendingArc>, paths: seq<Slot<seq<DictPath>>>,
                                      queries: seq<Slot<(string, nat)>>, found: seq<DictPath>)
    requires CollectInv(cfg, root, steps, staged, site, i, arcs, paths, queries) && cfg.Valid() && i < |cfg.prepared|
    requires steps <= steps' && staged <= staged' && StagedDenotes(root, steps', staged')
    requires Ordered(steps') && StagedOk(steps', staged') && TargetsOk(root, steps', staged', site.start, found)
    requires Outputs(found) == Below([], site.node, cfg.prepared[i].op.consumeX)
    requires Affordable(cfg, site.pos, site.cost, cfg.prepared[i].op)
    requires Near(steps', staged', |staged|, site.start, cfg.prepared[i].op.consumeX)
    ensures cfg.prepared[i].sourceSlot < |paths|
    ensures CollectInv(cfg, root, steps', staged', site, i, arcs, paths[cfg.prepared[i].sourceSlot := Ready(found)],
                       queries)
  {
    hide PathsOk, TargetsOk, CollectInv, Near, Affordable, StagedProbed, Below, RefPath, SlotsFaithful, StagedDenotes;
    CollectParts(cfg, root, steps, staged, site, i, arcs, paths, queries);
    PathsEntry(cfg, root, steps, staged, site.start, site.node, paths, i);
    PathsStable(cfg, root, steps, steps', staged, staged', site.start, site.node, paths);
    PathsStore(cfg, root, steps', staged', site.start, site.node, paths, i, found);
    ProbedGrows(cfg, steps, steps', staged, staged', site, i);
    CollectWith(cfg, root, steps, steps', staged, staged', site, i, arcs, paths,
                paths[cfg.prepared[i].sourceSlot := Ready(found)], queries);
  }

  // ---------------------------------------------------------------- from the transaction to the expansion

  /** The goals of the collected arcs are those of the site, and the staged paths were probed. */
  lemma {:induction false} CollectedGoals(cfg: Config, steps: seq<Step>, staged: seq<StagedNode>, site: Site,
                                          arcs: seq<PendingArc>)
    requires Ordered(steps) && StagedOk(steps, staged) && ArcTargets(steps, staged, site.start, arcs)
    requires StagedProbed(cfg, steps, staged, site) && ArcsOk(steps, |staged|, arcs, cfg.Extent())
    requires Outlines(arcs) == Macros(cfg, site.node, site.pos, site.cost, |cfg.prepared|)
    ensures GoalsOf(steps, staged, arcs, cfg.Extent()) == SiteGoals(cfg, site)
    ensures StagedPaths(steps, staged) <= ProbedPaths(cfg, site)
  {
    hide RefPath, Macros, Probed;
    var goals := GoalsOf(steps, staged, arcs, cfg.Extent());
    forall j | 0 <= j < |arcs| ensures goals[j] == SiteGoals(cfg, site)[j] {
      assert Outlines(arcs)[j] == Outline(arcs[j]);
    }
    assert |Outlines(arcs)| == |arcs|;
  }

  lemma {:induction false} CollectedExcuse(cfg: Config, root: Trie, b: Bounds, steps: seq<Step>,
                                           staged: seq<StagedNode>, w: World, state: nat, f: Failure)
    requires Ordered(steps) && StagedOk(steps, staged) && IsSite(w, state)
    requires StagedPaths(steps, staged) <= ProbedPaths(cfg, SiteIn(w, state))
    ensures Trouble(f, root, b, w, StagedPaths(steps, staged), SiteGoals(cfg, SiteIn(w, state))) ==>
              Excused(cfg, root, b, w, state, f)
  {
    hide Trouble, StagedPaths, ProbedPaths, SiteGoals, SiteIn;
    var goals := SiteGoals(cfg, SiteIn(w, state));
    if Trouble(f, root, b, w, StagedPaths(steps, staged), goals) {
      TroubleWidens(f, root, b, w, StagedPaths(steps, staged), ProbedPaths(cfg, SiteIn(w, state)), goals);
    }
  }

  lemma {:induction false} CollectedDone(cfg: Config, steps: seq<Step>, staged: seq<StagedNode>, w: World, w': World,
                                         state: nat, site: Site, ts: seq<Transition>)
    requires Ordered(steps) && StagedOk(steps, staged) && IsSite(w, state) && SiteIn(w, state) == site
    requires Ordered(w'.steps)
    requires StagedPaths(steps, staged) <= ProbedPaths(cfg, site)
    requires Fulfilled(w, w', StagedPaths(steps, staged), SiteGoals(cfg, site), state, ts)
    ensures AddsOwed(cfg, w, w', state) && RealisesAll(cfg, w'.steps, w'.states, state, site, ts)
  {
    hide StagedPaths, ProbedPaths, Macros, SiteIn, Achieves, ServesSome, PathOf, IsRegistered;
    var macros := Macros(cfg, site.node, site.pos, site.cost, |cfg.prepared|);
    assert forall j :: 0 <= j < |macros| ==> SiteGoals(cfg, site)[j] == GoalAt(site.start, macros[j]);
    assert Adds(w, w', ProbedPaths(cfg, site), SiteGoals(cfg, site));
  }

  lemma {:induction false} OutlinesWork(arcs: seq<PendingArc>)
    ensures ArcsWork(arcs) == MacrosWork(Outlines(arcs))
  {
    if arcs != [] {
      var n := |arcs| - 1;
      OutlinesWork(arcs[..n]);
      assert Outlines(arcs)[..n] == Outlines(arcs[..n]);
    }
  }

  /** What bounds the charges of an expansion does not shrink. */
  lemma {:induction false} LimitsKept(cfg: Config, w: World, w': World, state: nat, rounds: nat, rounds': nat)
    requires IsSite(w, state) && Extends(w, w') && Ordered(w'.steps) && |w'.steps| == |w'.nodes| && rounds <= rounds'
    ensures ProductWork(cfg, SiteIn(w, state), rounds) <= WorkLimit(cfg, w', state, rounds')
    ensures OpsPaths(cfg, SiteIn(w, state).node, |cfg.prepared|) <= PathLimit(cfg, w', state)
  {
    hide OpsPaths, CollectWork, MacrosWork, AttemptsWork, PathOf;
    SiteKept(w, w', state, SiteIn(w, state));
    var c := CollectWork(cfg, SiteIn(w, state).node);
    AttemptsWorkGrows(rounds + 2, rounds' + 2, c, c);
  }

  lemma {:induction false} MacrosInside(cfg: Config, node: Trie, pos: nat, cost: nat, n: nat, j: nat)
    requires n <= |cfg.prepared| && j < |Macros(cfg, node, pos, cost, n)|
    ensures var m := Macros(cfg, node, pos, cost, n)[j]; m.pos <= |cfg.query| && m.cost <= cfg.maxCost
  {
    hide Applying, Below;
    var op := cfg.prepared[n - 1].op;
    var before := Macros(cfg, node, pos, cost, n - 1);
    if j < |before| {
      MacrosInside(cfg, node, pos, cost, n - 1, j);
    } else {
      var m := OpArcs(cfg, node, pos, cost, op)[j - |before|];
      ApplyingMember(op, Below([], node, op.consumeX), cfg.query[pos..pos + op.consumeY], pos + op.consumeY,
                     cost + op.weight, m);
    }
  }

  lemma {:induction false} CollectedOk(cfg: Config, steps: seq<Step>, staged: seq<StagedNode>, site: Site,
                                       arcs: seq<PendingArc>)
    requires Ordered(steps) && StagedOk(steps, staged) && ArcTargets(steps, staged, site.start, arcs)
    requires Outlines(arcs) == Macros(cfg, site.node, site.pos, site.cost, |cfg.prepared|)
    ensures ArcsOk(steps, |staged|, arcs, cfg.Extent())
  {
    hide RefPath, Macros;
    forall j | 0 <= j < |arcs| ensures arcs[j].pos <= |cfg.query| && arcs[j].cost <= cfg.maxCost {
      MacrosInside(cfg, site.node, site.pos, site.cost, |cfg.prepared|, j);
      assert Outlines(arcs)[j] == Outline(arcs[j]);
    }
  }

  /** The inner loop: the paths that the operation accepts become pending arcs. */
  method ApplyOperation(op: Operation, found: seq<DictPath>, input: string, pos: nat, cost: nat,
                        budget: ExpansionBudget, ghost root: Trie, ghost steps: seq<Step>,
                        ghost staged: seq<StagedNode>, ghost start: string, ghost cap: nat)
    returns (failure: Option<Failure>, more: seq<PendingArc>)
    requires Ordered(steps) && StagedOk(steps, staged) && TargetsOk(root, steps, staged, start, found)
    requires forall k :: 0 <= k < |found| ==> 1 + |found[k].output| + |input| <= cap
    modifies budget`checks, budget`work
    ensures failure.None? ==>
              Outlines(more) == Applying(op, Outputs(found), input, pos, cost) && ArcTargets(steps, staged, start, more)
    ensures failure.Some? ==> budget.Explains(failure.value)
    ensures old(budget.work) <= budget.work <= old(budget.work) + Twice(cap, |found|)
  {
    hide RefPath, Walk, OperationApplies, Twice;
    failure, more := None, [];
    TwiceStart(cap, |found|);
    for k := 0 to |found|
      invariant failure.None? && old(budget.work) <= budget.work <= old(budget.work) + Twice(cap, k)
      invariant Outlines(more) == Applying(op, Outputs(found[..k]), input, pos, cost)
      invariant ArcTargets(steps, staged, start, more)
    {
      assert Outputs(found[..k + 1])[..k] == Outputs(found[..k]);
      TwiceStep(cap, k);
      failure := budget.ChargeWork(1 + |found[k].output| + |input|);
      if failure.Some? {
        return;
      }
      if OperationApplies(op, found[k].output, input) {
        failure := budget.ChargeWork(1 + |found[k].output| + |input|);
        if failure.Some? {
          return;
        }
        ghost var before := more;
        more := more + [PendingArc(found[k].target, pos, cost, input, found[k].output, op.weight)];
        assert Outlines(more) == Outlines(before) + [Macro(input, found[k].output, pos, cost, op.weight)];
      }
    }
    assert found[..|found|] == found;
  }

  lemma {:induction false} TwiceStart(cap: nat, n: nat)
    ensures Twice(cap, 0) == 0 && forall k: nat :: k <= n ==> Twice(cap, k) <= Twice(cap, n)
  {
    if n > 0 { TwiceStart(cap, n - 1); }
  }

  lemma TwiceStep(cap: nat, k: nat)
    ensures Twice(cap, k + 1) == Twice(cap, k) + 2 * cap
  {
  }

  lemma ArcTargetsJoin(steps: seq<Step>, staged: seq<StagedNode>, start: string, arcs: seq<PendingArc>,
                       more: seq<PendingArc>)
    requires Ordered(steps) && StagedOk(steps, staged)
    requires ArcTargets(steps, staged, start, arcs) && ArcTargets(steps, staged, start, more)
    ensures ArcTargets(steps, staged, start, arcs + more)
  {
    hide RefPath;
  }

  lemma {:induction false} PathsEntry(cfg: Config, root: Trie, steps: seq<Step>, staged: seq<StagedNode>, start: string,
                                      node: Trie, paths: seq<Slot<seq<DictPath>>>, i: nat)
    requires Ordered(steps) && StagedOk(steps, staged) && PathsOk(cfg, root, steps, staged, start, node, paths)
    requires i < |cfg.prepared|
    ensures cfg.prepared[i].sourceSlot < |paths|
    ensures var s := paths[cfg.prepared[i].sourceSlot];
            s.Ready? ==>
              && TargetsOk(root, steps, staged, start, s.value)
              && Outputs(s.value) == Below([], node, cfg.prepared[i].op.consumeX)
  {
    assert WidthOk(cfg.prepared[i], node, paths);
  }

  lemma CollectQueries(cfg: Config, root: Trie, steps: seq<Step>, staged: seq<StagedNode>, site: Site, n: nat,
                       arcs: seq<PendingArc>, paths: seq<Slot<seq<DictPath>>>, queries: seq<Slot<(string, nat)>>,
                       queries': seq<Slot<(string, nat)>>)
    requires CollectInv(cfg, root, steps, staged, site, n, arcs, paths, queries) && QueriesOk(cfg, site.pos, queries')
    requires n < |cfg.prepared|
    ensures CollectInv(cfg, root, steps, staged, site, n, arcs, paths, queries')
    ensures QueryOk(cfg, site.pos, cfg.prepared[n], queries')
  {
  }
}
