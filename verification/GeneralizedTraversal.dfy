/**
 What traversals of the generalized product accept: they see state IDs and transitions only, while clones keep
 extending both registries. The accepted pairs and costs are exactly the alignments within the budget.
 */
module GeneralizedTraversal {
  import opened Common
  import opened Labels
  import opened Dictionary
  import opened NodeRegistry
  import opened GeneralizedOps
  import opened GeneralizedStaging
  import opened GeneralizedShared
  import opened GeneralizedSearch
  import opened GeneralizedCommit
  import opened GeneralizedExpansion
  import opened GeneralizedProgress
  import opened GeneralizedLevenshtein
  import opened LevenshteinCodec
  import ED = EditDistance
  import GS = GeneralizedStates

  /**
   A state of both shared registries. `moment` counts lock sections, so that two expansions of one state are told apart
   even if nothing was published in between.
   */
  datatype Snapshot = Snapshot(moment: nat, steps: seq<Step>, nodes: seq<Trie>, states: seq<GS.State>) {
    function World(): World { GeneralizedShared.World(steps, nodes, states) }
  }

  /** The outcome of an expansion and the registries in which it finished. */
  datatype Answer = Answer(at: Snapshot, result: Expansion)

  type Expander = (Snapshot, nat) -> Answer

  ghost predicate SoundAt(cfg: Config, root: Trie, b: Bounds, snap: Snapshot) {
    b.extent == cfg.Extent() && Sound(root, b, snap.World())
  }

  ghost predicate Grows(older: Snapshot, newer: Snapshot) {
    older.moment <= newer.moment && Extends(older.World(), newer.World())
  }

  /** What the contract of `ExpandState` allows, with arbitrary commits of other clones in between. */
  ghost predicate Permitted(cfg: Config, root: Trie, b: Bounds, cond: Conditions, snap: Snapshot, state: nat,
                            a: Answer) {
    && snap.moment < a.at.moment && Grows(snap, a.at) && SoundAt(cfg, root, b, a.at)
    && match a.result
       case Expanded(finalWeight, ts) => IsExpansion(cfg, a.at.World(), state, finalWeight, ts)
       case Unexpanded(f) =>
         Deserved(cfg, cond, a.at.World(), state, f) || Excused(cfg, root, b, a.at.World(), state, f)
  }

  ghost predicate Honest(cfg: Config, root: Trie, b: Bounds, cond: Conditions, expand: Expander) {
    forall snap: Snapshot, state: nat :: SoundAt(cfg, root, b, snap) && state < |snap.states| ==>
      Permitted(cfg, root, b, cond, snap, state, expand(snap, state))
  }

  /** Some permitted answer of `expand` succeeds wherever one can. */
  ghost predicate Willing(cfg: Config, root: Trie, b: Bounds, cond: Conditions, expand: Expander) {
    forall snap: Snapshot, state: nat, a: Answer ::
        Permitted(cfg, root, b, cond, snap, state, a) && a.result.Expanded? ==>
      expand(snap, state).result.Expanded?
  }

  ghost function BestAnswer(cfg: Config, root: Trie, b: Bounds, cond: Conditions, snap: Snapshot, state: nat): Answer {
    if exists a :: Permitted(cfg, root, b, cond, snap, state, a) && a.result.Expanded? then
      var a :| Permitted(cfg, root, b, cond, snap, state, a) && a.result.Expanded?;
      a
    else if exists a :: Permitted(cfg, root, b, cond, snap, state, a) then
      var a :| Permitted(cfg, root, b, cond, snap, state, a);
      a
    else Answer(snap, Unexpanded(Cancelled))
  }

  /** Every registered state has a permitted answer, under any conditions. */
  lemma AnswerExists(cfg: Config, root: Trie, b: Bounds, cond: Conditions, snap: Snapshot, state: nat)
    returns (a: Answer)
    requires WellFormed(root) && SoundAt(cfg, root, b, snap) && state < |snap.states|
    ensures Permitted(cfg, root, b, cond, snap, state, a)
  {
    hide IsExpansion, Sound, Deserved, Excused;
    var w, r := CanAnswer(cfg, root, b, snap.World(), state);
    a := Answer(Snapshot(snap.moment + 1, w.steps, w.nodes, w.states), r);
    assert a.at.World() == w;
  }

  /** There are honest expanders, and some of them fail only where every permitted answer is a failure. */
  lemma {:induction false} HonestExists(cfg: Config, root: Trie, b: Bounds, cond: Conditions)
    requires WellFormed(root)
    ensures exists expand: Expander :: Honest(cfg, root, b, cond, expand) && Willing(cfg, root, b, cond, expand)
  {
    hide Permitted, SoundAt;
    var expand: Expander := (snap: Snapshot, state: nat) => BestAnswer(cfg, root, b, cond, snap, state);
    forall snap: Snapshot, state: nat | SoundAt(cfg, root, b, snap) && state < |snap.states|
      ensures Permitted(cfg, root, b, cond, snap, state, expand(snap, state))
    {
      var a := AnswerExists(cfg, root, b, cond, snap, state);
    }
    assert Honest(cfg, root, b, cond, expand) && Willing(cfg, root, b, cond, expand);
  }

  /** Where the transitions chosen by `picks` lead, if every expansion on the way succeeds. */
  ghost function Arrive(expand: Expander, snap: Snapshot, state: nat, picks: seq<nat>): Option<(Snapshot, nat)>
    decreases |picks|
  {
    var a := expand(snap, state);
    if picks == [] then Some((snap, state))
    else if a.result.Expanded? && picks[0] < |a.result.ts|
         then Arrive(expand, a.at, a.result.ts[picks[0]].to, picks[1..])
    else None
  }

  ghost predicate ExpandsAt(expand: Expander, snap: Snapshot, state: nat, picks: seq<nat>) {
    var there := Arrive(expand, snap, state, picks);
    there.Some? ==> expand(there.value.0, there.value.1).result.Expanded?
  }

  /** No expansion of a traversal from here hits a limit, a cancellation or a fault. */
  ghost predicate Tireless(expand: Expander, snap: Snapshot, state: nat) {
    forall picks :: ExpandsAt(expand, snap, state, picks)
  }

  lemma TirelessHere(expand: Expander, snap: Snapshot, state: nat)
    requires Tireless(expand, snap, state)
    ensures expand(snap, state).result.Expanded?
  {
    assert ExpandsAt(expand, snap, state, []);
  }

  lemma TirelessStep(expand: Expander, snap: Snapshot, state: nat, j: nat)
    requires Tireless(expand, snap, state) && expand(snap, state).result.Expanded?
    requires j < |expand(snap, state).result.ts|
    ensures Tireless(expand, expand(snap, state).at, expand(snap, state).result.ts[j].to)
  {
    var a := expand(snap, state);
    forall picks ensures ExpandsAt(expand, a.at, a.result.ts[j].to, picks) {
      assert ExpandsAt(expand, snap, state, [j] + picks);
      assert ([j] + picks)[1..] == picks;
    }
  }

  /**
   Following the transitions chosen by `picks` accepts, reading `input` and writing `output` at total weight `weight`.
   */
  ghost predicate Finds(expand: Expander, snap: Snapshot, state: nat, picks: seq<nat>, input: string, output: string,
                        weight: nat)
    decreases |picks|
  {
    var a := expand(snap, state);
    && a.result.Expanded?
    && if picks == [] then input == [] && output == [] && a.result.finalWeight == Some(weight)
       else
         && picks[0] < |a.result.ts|
         && var t := a.result.ts[picks[0]];
            && t.weight <= weight && Reads(t.input, input) && Reads(t.output, output)
            && Finds(expand, a.at, t.to, picks[1..], Rest(t.input, input), Rest(t.output, output), weight - t.weight)
  }

  // ---------------------------------------------------------------- emission chains

  /** The state at position `k` of the chain placed at `first`. */
  lemma ChainState(states: seq<GS.State>, c: GS.Chain, first: nat, k: nat)
    requires GS.ChainAt(states, c, first) && 1 <= k < c.Width()
    ensures first + k - 1 < |states| && states[first + k - 1] == GS.EmitAt(c, first, k)
  {
    assert states[first..first + c.Width() - 1][k - 1] == states[first + k - 1];
  }

  /** What honesty says of one expansion. */
  lemma ExpandStep(cfg: Config, root: Trie, b: Bounds, cond: Conditions, expand: Expander, snap: Snapshot, state: nat)
    requires Honest(cfg, root, b, cond, expand) && SoundAt(cfg, root, b, snap) && state < |snap.states|
    ensures var a := expand(snap, state);
            && Grows(snap, a.at) && SoundAt(cfg, root, b, a.at) && a.at.states[state] == snap.states[state]
            && (a.result.Expanded? ==>
                  IsExpansion(cfg, a.at.World(), state, a.result.finalWeight, a.result.ts))
  {
    hide SoundAt, IsExpansion;
  }

  lemma ChainKept(older: Snapshot, newer: Snapshot, c: GS.Chain, first: nat)
    requires Grows(older, newer) && GS.ChainAt(older.states, c, first)
    ensures GS.ChainAt(newer.states, c, first)
  {
    assert newer.states == older.states + newer.states[|older.states|..];
    GS.ChainAtStable(older.states, newer.states[|older.states|..], c, first);
  }

  /** The one arc of an emission state. */
  lemma EmitArc(cfg: Config, root: Trie, b: Bounds, cond: Conditions, expand: Expander, snap: Snapshot, c: GS.Chain,
                first: nat, k: nat)
    requires Honest(cfg, root, b, cond, expand) && SoundAt(cfg, root, b, snap) && GS.ChainAt(snap.states, c, first)
    requires 1 <= k < c.Width()
    ensures var a := expand(snap, first + k - 1);
            && Grows(snap, a.at) && SoundAt(cfg, root, b, a.at) && GS.ChainAt(a.at.states, c, first)
            && (a.result.Expanded? ==>
                  && a.result.finalWeight == None
                  && a.result.ts == [Transition(first + k - 1, LabelAt(c.input, k), LabelAt(c.output, k),
                                                if k + 1 == c.Width() then c.target else first + k, 0)])
  {
    hide Honest, SoundAt, GS.ChainAt, RealisesAll;
    ChainState(snap.states, c, first, k);
    ExpandStep(cfg, root, b, cond, expand, snap, first + k - 1);
    ChainKept(snap, expand(snap, first + k - 1).at, c, first);
  }

  /** The next state of a chain, or its target. */
  ghost function ChainStep(c: GS.Chain, first: nat, k: nat): nat
    requires k >= 1
  {
    if k == c.Width() then c.target else first + k - 1
  }

  /** Whatever is found from inside a chain passes its next state, spelling the labels there. */
  lemma {:induction false} ChainPeels(cfg: Config, root: Trie, b: Bounds, cond: Conditions, expand: Expander,
                                      snap: Snapshot, c: GS.Chain, first: nat, k: nat, picks: seq<nat>, input: string,
                                      output: string, weight: nat)
    requires Honest(cfg, root, b, cond, expand) && SoundAt(cfg, root, b, snap) && GS.ChainAt(snap.states, c, first)
    requires 1 <= k < c.Width() && Finds(expand, snap, first + k - 1, picks, input, output, weight)
    ensures var at := expand(snap, first + k - 1).at;
            && Grows(snap, at) && SoundAt(cfg, root, b, at) && GS.ChainAt(at.states, c, first) && picks != []
            && Reads(LabelAt(c.input, k), input) && Reads(LabelAt(c.output, k), output)
            && Finds(expand, at, ChainStep(c, first, k + 1), picks[1..], Rest(LabelAt(c.input, k), input),
                     Rest(LabelAt(c.output, k), output), weight)
  {
    hide Honest, SoundAt, GS.ChainAt, Finds, Reads, LabelAt, Grows;
    EmitArc(cfg, root, b, cond, expand, snap, c, first, k);
    OnlyArc(expand, snap, first + k - 1, picks, input, output, weight);
  }

  /**
   Any way through a chain spells exactly the labels that are left of it, pays nothing, and goes on from the chain's
   target.
   */
  lemma {:induction false} ChainSpells(cfg: Config, root: Trie, b: Bounds, cond: Conditions, expand: Expander,
                                       snap: Snapshot, c: GS.Chain, first: nat, k: nat, picks: seq<nat>, input: string,
                                       output: string, weight: nat)
    returns (later: Snapshot, rest: seq<nat>)
    requires Honest(cfg, root, b, cond, expand) && SoundAt(cfg, root, b, snap) && GS.ChainAt(snap.states, c, first)
    requires 1 <= k <= c.Width() && Finds(expand, snap, ChainStep(c, first, k), picks, input, output, weight)
    ensures SoundAt(cfg, root, b, later) && Grows(snap, later) && |rest| <= |picks|
    ensures From(c.input, k) <= input && From(c.output, k) <= output
    ensures Finds(expand, later, c.target, rest, input[|From(c.input, k)|..], output[|From(c.output, k)|..], weight)
    decreases c.Width() - k
  {
    hide Honest, SoundAt, GS.ChainAt, From, Finds, Reads, LabelAt;
    if k == c.Width() {
      later, rest := snap, picks;
      FromEnd(c, k);
    } else {
      ChainPeels(cfg, root, b, cond, expand, snap, c, first, k, picks, input, output, weight);
      var input', output' := Rest(LabelAt(c.input, k), input), Rest(LabelAt(c.output, k), output);
      later, rest := ChainSpells(cfg, root, b, cond, expand, expand(snap, first + k - 1).at, c, first, k + 1,
                                 picks[1..],
                                 input', output', weight);
      SpellStep(c.input, k, input);
      SpellStep(c.output, k, output);
    }
  }

  /** A state with one free arc and no final weight is left along that arc. */
  lemma {:induction false} OnlyArc(expand: Expander, snap: Snapshot, state: nat, picks: seq<nat>, input: string,
                                   output: string, weight: nat)
    requires Finds(expand, snap, state, picks, input, output, weight)
    requires var r := expand(snap, state).result; r.Expanded? ==>
        r.finalWeight == None && |r.ts| == 1 && r.ts[0].weight == 0
    ensures var a := expand(snap, state);
            && a.result.Expanded? && picks != []
            && var t := a.result.ts[0];
               && Reads(t.input, input) && Reads(t.output, output)
               && Finds(expand, a.at, t.to, picks[1..], Rest(t.input, input), Rest(t.output, output), weight)
  {
  }

  lemma FromEnd(c: GS.Chain, k: nat)
    requires k >= c.Width()
    ensures From(c.input, k) == [] && From(c.output, k) == []
  {
  }


  // ---------------------------------------------------------------- from traversals to alignments

  /** State `state` stands for product `p`. */
  ghost predicate Stands(snap: Snapshot, state: nat, p: GS.Product) {
    state < |snap.states| && snap.states[state] == GS.ProductState(p)
  }

  lemma FirstIsLabel(s: string)
    ensures First(s) == LabelAt(s, 0) && From(s, 0) == s
  {
  }

  lemma {:induction false} StandsInside(cfg: Config, root: Trie, b: Bounds, snap: Snapshot, state: nat, p: GS.Product)
    requires SoundAt(cfg, root, b, snap) && Stands(snap, state, p)
    ensures |snap.nodes| == |snap.steps| && p.node < |snap.nodes| && p.pos <= |cfg.query| && p.cost <= cfg.maxCost
    ensures Ordered(snap.steps) && Walk(root, PathOf(snap.steps, p.node)) == Some(snap.nodes[p.node])
  {
    SoundSite(cfg, root, b, snap.World(), state);
  }

  /** The node a realised firing leads to is the one its output reaches. */
  lemma {:induction false} FiredNode(cfg: Config, root: Trie, b: Bounds, snap: Snapshot, id: nat, output: string,
                                     next: nat)
    requires SoundAt(cfg, root, b, snap) && id < |snap.nodes| && next < |snap.steps|
    requires Ordered(snap.steps) && |snap.nodes| == |snap.steps|
    requires PathOf(snap.steps, next) == PathOf(snap.steps, id) + output
    ensures Walk(snap.nodes[id], output) == Some(snap.nodes[next])
  {
    hide GS.WellShaped, GS.Linked;
    WalkAppend(root, PathOf(snap.steps, id), output);
    assert Walk(root, PathOf(snap.steps, id)) == Some(snap.nodes[id]);
    assert Walk(root, PathOf(snap.steps, next)) == Some(snap.nodes[next]);
  }

  /** Where a realised firing leads: straight to its product state, or into the chain that ends there. */
  ghost predicate LeadsTo(snap: Snapshot, m: Macro, t: Transition, target: nat) {
    && t.input == First(m.input) && t.output == First(m.output) && t.weight == m.weight
    && if |m.input| <= 1 && |m.output| <= 1 then t.to == target
       else GS.ChainAt(snap.states, GS.Chain(m.input, m.output, target), t.to)
  }

  /** The `j`-th transition of a product state realises its `j`-th firing. */
  lemma ProductArc(cfg: Config, root: Trie, b: Bounds, cond: Conditions, expand: Expander, snap: Snapshot, state: nat,
                   p: GS.Product, j: nat)
    returns (m: Macro, target: nat, q: GS.Product)
    requires WellFormed(root) && Honest(cfg, root, b, cond, expand) && SoundAt(cfg, root, b, snap)
    requires Stands(snap, state, p)
    requires expand(snap, state).result.Expanded? && j < |expand(snap, state).result.ts|
    ensures p.node < |snap.nodes|
    ensures var a, macros := expand(snap, state), Macros(cfg, snap.nodes[p.node], p.pos, p.cost, |cfg.prepared|);
            && Grows(snap, a.at) && SoundAt(cfg, root, b, a.at) && |a.result.ts| == |macros| && m == macros[j]
            && Stands(a.at, target, q) && LeadsTo(a.at, m, a.result.ts[j], target) && q.pos == m.pos && q.cost == m.cost
            && q.node < |a.at.nodes| && Walk(snap.nodes[p.node], m.output) == Some(a.at.nodes[q.node])
  {
    hide Honest, SoundAt, Macros, GS.ChainAt, Walk, PathOf;
    ExpandStep(cfg, root, b, cond, expand, snap, state);
    var a := expand(snap, state);
    StandsInside(cfg, root, b, snap, state, p);
    StandsInside(cfg, root, b, a.at, state, p);
    var macros := Macros(cfg, snap.nodes[p.node], p.pos, p.cost, |cfg.prepared|);
    m := macros[j];
    var start := PathOf(a.at.steps, p.node);
    assert Realises(a.at.steps, a.at.states, state, start, m, a.result.ts[j]);
    var id, to := Realised(a.at, state, start, m, a.result.ts[j]);
    target, q := to, GS.Product(id, m.pos, m.cost);
    FiredNode(cfg, root, b, a.at, p.node, m.output, id);
  }

  lemma Realised(snap: Snapshot, from: nat, start: string, m: Macro, t: Transition) returns (id: nat, target: nat)
    requires Ordered(snap.steps) && Realises(snap.steps, snap.states, from, start, m, t)
    ensures id < |snap.steps| && PathOf(snap.steps, id) == start + m.output
    ensures Stands(snap, target, GS.Product(id, m.pos, m.cost)) && LeadsTo(snap, m, t, target)
  {
    hide GS.ChainAt, PathOf;
    id :| && id < |snap.steps| && PathOf(snap.steps, id) == start + m.output
          && ArcMeans(snap.states, t, from, m.input, m.output, m.weight, GS.Product(id, m.pos, m.cost));
    target :| && target < |snap.states| && snap.states[target] == GS.ProductState(GS.Product(id, m.pos, m.cost))
              && if |m.input| <= 1 && |m.output| <= 1 then t.to == target
                 else GS.ChainAt(snap.states, GS.Chain(m.input, m.output, target), t.to);
  }

  /**
   Every multi-label arc, followed through its chain, spells exactly its labels, pays its weight once on the first arc
   and ends at its product state.
   */
  lemma ArcSpells(cfg: Config, root: Trie, b: Bounds, cond: Conditions, expand: Expander, snap: Snapshot, m: Macro,
                  t: Transition, target: nat, picks: seq<nat>, input: string, output: string, weight: nat)
    returns (later: Snapshot, rest: seq<nat>)
    requires Honest(cfg, root, b, cond, expand) && SoundAt(cfg, root, b, snap) && LeadsTo(snap, m, t, target)
    requires Reads(t.input, input) && Reads(t.output, output)
    requires Finds(expand, snap, t.to, picks, Rest(t.input, input), Rest(t.output, output), weight)
    ensures SoundAt(cfg, root, b, later) && Grows(snap, later) && |rest| <= |picks|
    ensures m.input <= input && m.output <= output
    ensures Finds(expand, later, target, rest, input[|m.input|..], output[|m.output|..], weight)
  {
    hide Honest, SoundAt, GS.ChainAt, Finds, From, LabelAt, Reads, First;
    FirstIsLabel(m.input);
    FirstIsLabel(m.output);
    later, rest := AfterArc(cfg, root, b, cond, expand, snap, m, t, target, picks, Rest(t.input, input),
                            Rest(t.output, output), weight);
    SpellWhole(m.input, input);
    SpellWhole(m.output, output);
  }

  /** After a firing's first transition: at its target, or through its chain. */
  lemma {:induction false} AfterArc(cfg: Config, root: Trie, b: Bounds, cond: Conditions, expand: Expander,
                                    snap: Snapshot, m: Macro, t: Transition, target: nat, picks: seq<nat>,
                                    input: string, output: string, weight: nat)
    returns (later: Snapshot, rest: seq<nat>)
    requires Honest(cfg, root, b, cond, expand) && SoundAt(cfg, root, b, snap) && LeadsTo(snap, m, t, target)
    requires Finds(expand, snap, t.to, picks, input, output, weight)
    ensures SoundAt(cfg, root, b, later) && Grows(snap, later) && |rest| <= |picks|
    ensures From(m.input, 1) <= input && From(m.output, 1) <= output
    ensures Finds(expand, later, target, rest, input[|From(m.input, 1)|..], output[|From(m.output, 1)|..], weight)
  {
    hide Honest, SoundAt, GS.ChainAt, Finds, From, First;
    var c := GS.Chain(m.input, m.output, target);
    if |m.input| <= 1 && |m.output| <= 1 {
      later, rest := snap, picks;
      FromEnd(c, 1);
    } else {
      later, rest := ChainSpells(cfg, root, b, cond, expand, snap, c, t.to, 1, picks, input, output, weight);
    }
  }

  /** Prepending one firing to an alignment of what follows it. */
  lemma {:induction false} FiringAligns(cfg: Config, node: Trie, next: Trie, p: GS.Product, i: nat, m: Macro,
                                        script: seq<Operation>, input: string, output: string, weight: nat)
    requires i < |cfg.prepared| && Fires(cfg, node, p.pos, p.cost, cfg.prepared[i].op, m)
    requires Walk(node, m.output) == Some(next)
    requires m.input <= input && m.output <= output && m.weight <= weight
    requires input[|m.input|..] == cfg.query[m.pos..] && Contains(next, output[|m.output|..])
    requires Aligns(OpsOf(cfg.prepared), script, output[|m.output|..], input[|m.input|..], weight - m.weight)
    ensures input == cfg.query[p.pos..] && Contains(node, output)
    ensures Aligns(OpsOf(cfg.prepared), [cfg.prepared[i].op] + script, output, input, weight)
  {
    hide OperationApplies, Aligns, Walk;
    var op, ops := cfg.prepared[i].op, OpsOf(cfg.prepared);
    assert op == ops[i];
    assert input == m.input + input[|m.input|..];
    assert cfg.query[p.pos..] == cfg.query[p.pos..m.pos] + cfg.query[m.pos..];
    assert output == m.output + output[|m.output|..];
    WalkAppend(node, m.output, output[|m.output|..]);
    assert output[..op.consumeX] == m.output && input[..op.consumeY] == m.input;
    AlignsFirst(ops, op, script, output, input, weight);
  }

  /** One more operation in front of a script. */
  lemma {:induction false} AlignsFirst(ops: seq<Operation>, op: Operation, script: seq<Operation>, term: string,
                                       query: string, cost: nat)
    requires op in ops && op.consumeX <= |term| && op.consumeY <= |query| && op.weight <= cost
    requires OperationApplies(op, term[..op.consumeX], query[..op.consumeY])
    requires Aligns(ops, script, term[op.consumeX..], query[op.consumeY..], cost - op.weight)
    ensures Aligns(ops, [op] + script, term, query, cost)
  {
    hide OperationApplies;
    assert ([op] + script)[1..] == script;
  }

  /** What a traversal finds is an alignment of a dictionary term with the rest of the query, within the budget. */
  lemma {:induction false} FindsIsAlignment(cfg: Config, root: Trie, b: Bounds, cond: Conditions, expand: Expander,
                                            snap: Snapshot, state: nat, p: GS.Product, picks: seq<nat>, input: string,
                                            output: string, weight: nat)
    returns (script: seq<Operation>)
    requires WellFormed(root) && Honest(cfg, root, b, cond, expand) && SoundAt(cfg, root, b, snap)
    requires Stands(snap, state, p)
    requires Finds(expand, snap, state, picks, input, output, weight)
    ensures p.node < |snap.nodes| && p.pos <= |cfg.query|
    ensures input == cfg.query[p.pos..] && Contains(snap.nodes[p.node], output) && p.cost + weight <= cfg.maxCost
    ensures Aligns(OpsOf(cfg.prepared), script, output, input, weight)
    decreases |picks|
  {
    hide Honest, SoundAt, Macros, Fires, LeadsTo, Reads, WellFormed, Walk, OpsOf, Aligns, Contains, Finds;
    StandsInside(cfg, root, b, snap, state, p);
    if picks == [] {
      FoundHere(cfg, root, b, cond, expand, snap, state, p, input, output, weight);
      script := [];
    } else {
      FirstPick(expand, snap, state, picks, input, output, weight);
      var a := expand(snap, state);
      var t := a.result.ts[picks[0]];
      var node := snap.nodes[p.node];
      var m, target, q := ProductArc(cfg, root, b, cond, expand, snap, state, p, picks[0]);
      var i := MacroFires(cfg, root, b, snap, p, picks[0]);
      LeadsWeight(a.at, m, t, target);
      var later, rest :=
        ArcSpells(cfg, root, b, cond, expand, a.at, m, t, target, picks[1..], input, output, weight - t.weight);
      var script' := FindsIsAlignment(cfg, root, b, cond, expand, later, target, q, rest, input[|m.input|..],
                                      output[|m.output|..], weight - t.weight);
      FiringAligns(cfg, node, a.at.nodes[q.node], p, i, m, script', input, output, weight);
      script := [cfg.prepared[i].op] + script';
      FiresCost(cfg, node, p.pos, p.cost, cfg.prepared[i].op, m);
    }
  }

  /** Accepting without a step. */
  lemma {:induction false} FoundHere(cfg: Config, root: Trie, b: Bounds, cond: Conditions, expand: Expander,
                                     snap: Snapshot, state: nat, p: GS.Product, input: string, output: string,
                                     weight: nat)
    requires Honest(cfg, root, b, cond, expand) && SoundAt(cfg, root, b, snap) && Stands(snap, state, p)
    requires p.node < |snap.nodes| && p.pos <= |cfg.query|
    ensures Finds(expand, snap, state, [], input, output, weight) ==>
              && input == cfg.query[p.pos..] && Contains(snap.nodes[p.node], output) && weight == 0
              && Aligns(OpsOf(cfg.prepared), [], output, input, weight)
    ensures Tireless(expand, snap, state) && Contains(snap.nodes[p.node], output) &&
            Aligns(OpsOf(cfg.prepared), [], output, cfg.query[p.pos..], weight) ==>
              Finds(expand, snap, state, [], cfg.query[p.pos..], output, weight)
  {
    hide Honest, SoundAt, Tireless;
    if Tireless(expand, snap, state) {
      TirelessHere(expand, snap, state);
    }
    if expand(snap, state).result.Expanded? {
      FinalState(cfg, root, b, cond, expand, snap, state, p);
    }
  }

  lemma FirstPick(expand: Expander, snap: Snapshot, state: nat, picks: seq<nat>, input: string, output: string,
                  weight: nat)
    requires Finds(expand, snap, state, picks, input, output, weight) && picks != []
    ensures var a := expand(snap, state);
            && a.result.Expanded? && picks[0] < |a.result.ts|
            && var t := a.result.ts[picks[0]];
               && t.weight <= weight && Reads(t.input, input) && Reads(t.output, output)
               && Finds(expand, a.at, t.to, picks[1..], Rest(t.input, input), Rest(t.output, output), weight - t.weight)
  {
  }

  lemma FiresCost(cfg: Config, node: Trie, pos: nat, cost: nat, op: Operation, m: Macro)
    requires Fires(cfg, node, pos, cost, op, m)
    ensures m.cost == cost + m.weight && pos <= m.pos
  {
  }

  lemma LeadsWeight(snap: Snapshot, m: Macro, t: Transition, target: nat)
    requires LeadsTo(snap, m, t, target)
    ensures t.weight == m.weight
  {
  }

  lemma MacroFires(cfg: Config, root: Trie, b: Bounds, snap: Snapshot, p: GS.Product, j: nat) returns (i: nat)
    requires WellFormed(root) && SoundAt(cfg, root, b, snap) && p.node < |snap.nodes|
    requires j < |Macros(cfg, snap.nodes[p.node], p.pos, p.cost, |cfg.prepared|)|
    ensures i < |cfg.prepared|
    ensures Fires(cfg, snap.nodes[p.node], p.pos, p.cost, cfg.prepared[i].op,
                  Macros(cfg, snap.nodes[p.node], p.pos, p.cost, |cfg.prepared|)[j])
  {
    hide Fires, Macros, WellFormed, GS.WellShaped, GS.Linked;
    var node := snap.nodes[p.node];
    NodeWellFormed(cfg, root, b, snap, p.node);
    var m := Macros(cfg, node, p.pos, p.cost, |cfg.prepared|)[j];
    MacrosMember(cfg, node, p.pos, p.cost, |cfg.prepared|, m);
    i :| 0 <= i < |cfg.prepared| && Fires(cfg, node, p.pos, p.cost, cfg.prepared[i].op, m);
  }

  lemma {:induction false} NodeWellFormed(cfg: Config, root: Trie, b: Bounds, snap: Snapshot, id: nat)
    requires WellFormed(root) && SoundAt(cfg, root, b, snap) && id < |snap.nodes|
    ensures WellFormed(snap.nodes[id])
  {
    hide GS.WellShaped, GS.Linked, WellFormed;
    assert Walk(root, PathOf(snap.steps, id)) == Some(snap.nodes[id]);
    WalkWellFormed(root, PathOf(snap.steps, id));
  }

  /** Product states are final exactly at the end of the query on a final node. */
  lemma FinalState(cfg: Config, root: Trie, b: Bounds, cond: Conditions, expand: Expander, snap: Snapshot, state: nat,
                   p: GS.Product)
    requires Honest(cfg, root, b, cond, expand) && SoundAt(cfg, root, b, snap) && Stands(snap, state, p)
    requires expand(snap, state).result.Expanded?
    ensures p.node < |snap.nodes|
    ensures expand(snap, state).result.finalWeight == if p.pos == |cfg.query| && snap.nodes[p.node].isFinal then Some(0)
                                                      else None
  {
    hide Honest, SoundAt, RealisesAll;
    ExpandStep(cfg, root, b, cond, expand, snap, state);
    StandsInside(cfg, root, b, snap, state, p);
  }

  // ---------------------------------------------------------------- from alignments to traversals

  /** State `state` stands for `p`, and `script` aligns the rest of the query from there, within the budget. */
  ghost predicate Completes(cfg: Config, snap: Snapshot, state: nat, p: GS.Product, script: seq<Operation>,
                            output: string, weight: nat)
  {
    && Stands(snap, state, p) && p.node < |snap.nodes| && p.pos <= |cfg.query| && p.cost + weight <= cfg.maxCost
    && Contains(snap.nodes[p.node], output) && Aligns(OpsOf(cfg.prepared), script, output, cfg.query[p.pos..], weight)
  }

  lemma {:induction false} CompletesKept(cfg: Config, snap: Snapshot, later: Snapshot, state: nat, p: GS.Product,
                                         script: seq<Operation>, output: string, weight: nat)
    requires Completes(cfg, snap, state, p, script, output, weight) && Grows(snap, later)
    ensures Completes(cfg, later, state, p, script, output, weight)
  {
    hide Contains, Aligns, OpsOf;
  }

  /** The first operation of an alignment fires here. */
  lemma ScriptFires(cfg: Config, root: Trie, b: Bounds, snap: Snapshot, p: GS.Product, script: seq<Operation>,
                    output: string, weight: nat)
    returns (j: nat, m: Macro)
    requires WellFormed(root) && SoundAt(cfg, root, b, snap) && p.node < |snap.nodes| && p.pos <= |cfg.query|
    requires p.cost + weight <= cfg.maxCost && script != [] && Contains(snap.nodes[p.node], output)
    requires Aligns(OpsOf(cfg.prepared), script, output, cfg.query[p.pos..], weight)
    ensures var macros := Macros(cfg, snap.nodes[p.node], p.pos, p.cost, |cfg.prepared|); j < |macros| && macros[j] == m
    ensures m.weight <= weight && m.pos <= |cfg.query| && m.cost == p.cost + m.weight && m.pos == p.pos + |m.input|
    ensures m.input <= cfg.query[p.pos..] && m.output <= output && cfg.query[p.pos..][|m.input|..] == cfg.query[m.pos..]
    ensures Walk(snap.nodes[p.node], m.output).Some?
    ensures Contains(Walk(snap.nodes[p.node], m.output).value, output[|m.output|..])
    ensures Aligns(OpsOf(cfg.prepared), script[1..], output[|m.output|..], cfg.query[m.pos..], weight - m.weight)
  {
    hide OperationApplies, Macros, WellFormed, SoundAt, Walk;
    var op, node, input := script[0], snap.nodes[p.node], cfg.query[p.pos..];
    NodeWellFormed(cfg, root, b, snap, p.node);
    m := Macro(input[..op.consumeY], output[..op.consumeX], p.pos + op.consumeY, p.cost + op.weight, op.weight);
    var i :| 0 <= i < |OpsOf(cfg.prepared)| && OpsOf(cfg.prepared)[i] == op;
    WalkAppend(node, output[..op.consumeX], output[op.consumeX..]);
    assert output == output[..op.consumeX] + output[op.consumeX..];
    assert cfg.query[p.pos..p.pos + op.consumeY] == m.input;
    assert Fires(cfg, node, p.pos, p.cost, cfg.prepared[i].op, m);
    MacrosMember(cfg, node, p.pos, p.cost, |cfg.prepared|, m);
    j :| 0 <= j < |Macros(cfg, node, p.pos, p.cost, |cfg.prepared|)| &&
      Macros(cfg, node, p.pos, p.cost, |cfg.prepared|)[j] == m;
  }

  lemma ArcCount(cfg: Config, root: Trie, b: Bounds, cond: Conditions, expand: Expander, snap: Snapshot, state: nat,
                 p: GS.Product)
    returns (n: nat)
    requires Honest(cfg, root, b, cond, expand) && SoundAt(cfg, root, b, snap) && Stands(snap, state, p)
    requires expand(snap, state).result.Expanded?
    ensures p.node < |snap.nodes|
    ensures n == |expand(snap, state).result.ts| == |Macros(cfg, snap.nodes[p.node], p.pos, p.cost, |cfg.prepared|)|
  {
    hide Honest, SoundAt, Macros, Realises;
    ExpandStep(cfg, root, b, cond, expand, snap, state);
    StandsInside(cfg, root, b, snap, state, p);
    n := |expand(snap, state).result.ts|;
  }

  lemma {:induction false} PrependPick(expand: Expander, snap: Snapshot, state: nat, j: nat, rest: seq<nat>,
                                       input: string, output: string, weight: nat)
    requires var a := expand(snap, state);
             && a.result.Expanded? && j < |a.result.ts|
             && var t := a.result.ts[j];
                && t.weight <= weight && Reads(t.input, input) && Reads(t.output, output)
                && Finds(expand, a.at, t.to, rest, Rest(t.input, input), Rest(t.output, output), weight - t.weight)
    ensures Finds(expand, snap, state, [j] + rest, input, output, weight)
  {
    assert ([j] + rest)[1..] == rest;
  }

  /**
   The first operation of an alignment has a transition here, and what is left of the alignment holds at its target.
   */
  lemma {:induction false} FirstFires(cfg: Config, root: Trie, b: Bounds, cond: Conditions, expand: Expander,
                                      snap: Snapshot, state: nat, p: GS.Product, script: seq<Operation>, output: string,
                                      weight: nat)
    returns (j: nat, m: Macro, target: nat, q: GS.Product)
    requires WellFormed(root) && Honest(cfg, root, b, cond, expand) && SoundAt(cfg, root, b, snap)
    requires expand(snap, state).result.Expanded? && Completes(cfg, snap, state, p, script, output, weight)
    requires script != []
    ensures m.output <= output && p.pos <= |cfg.query| && m.input <= cfg.query[p.pos..]
    ensures var a := expand(snap, state);
            && SoundAt(cfg, root, b, a.at) && j < |a.result.ts| && LeadsTo(a.at, m, a.result.ts[j], target)
            && a.result.ts[j].weight == m.weight <= weight
            && Completes(cfg, a.at, target, q, script[1..], output[|m.output|..], weight - m.weight)
    ensures q.pos <= |cfg.query| && cfg.query[p.pos..][|m.input|..] == cfg.query[q.pos..]
  {
    hide Honest, SoundAt, Macros, LeadsTo, WellFormed, Walk, OpsOf, Aligns, Contains;
    j, m := ScriptFires(cfg, root, b, snap, p, script, output, weight);
    var n := ArcCount(cfg, root, b, cond, expand, snap, state, p);
    var m', target', q' := ProductArc(cfg, root, b, cond, expand, snap, state, p, j);
    target, q := target', q';
    LeadsWeight(expand(snap, state).at, m, expand(snap, state).result.ts[j], target);
  }

  /** The registries after following the only arc of each of the next `n` states. */
  ghost function Beyond(expand: Expander, snap: Snapshot, state: nat, n: nat): Snapshot
    decreases n
  {
    var a := expand(snap, state);
    if n == 0 || a.result.Unexpanded? || a.result.ts == [] then snap else Beyond(expand, a.at, a.result.ts[0].to, n - 1)
  }

  /** One step along a chain. */
  lemma {:induction false} ChainStepped(cfg: Config, root: Trie, b: Bounds, cond: Conditions, expand: Expander,
                                        snap: Snapshot, c: GS.Chain, first: nat, k: nat)
    requires Honest(cfg, root, b, cond, expand) && SoundAt(cfg, root, b, snap) && GS.ChainAt(snap.states, c, first)
    requires 1 <= k < c.Width() && Tireless(expand, snap, first + k - 1)
    ensures var a := expand(snap, first + k - 1);
            && Grows(snap, a.at) && SoundAt(cfg, root, b, a.at) && GS.ChainAt(a.at.states, c, first)
            && a.result.Expanded? && Tireless(expand, a.at, ChainStep(c, first, k + 1))
            && a.result.ts ==
                 [Transition(first + k - 1, LabelAt(c.input, k), LabelAt(c.output, k), ChainStep(c, first, k + 1), 0)]
            && Beyond(expand, snap, first + k - 1, c.Width() - k) ==
                 Beyond(expand, a.at, ChainStep(c, first, k + 1), c.Width() - k - 1)
  {
    hide Honest, SoundAt, GS.ChainAt, Tireless, LabelAt;
    TirelessHere(expand, snap, first + k - 1);
    EmitArc(cfg, root, b, cond, expand, snap, c, first, k);
    TirelessStep(expand, snap, first + k - 1, 0);
  }

  /** A chain leads to its target. */
  lemma {:induction false} ChainArrives(cfg: Config, root: Trie, b: Bounds, cond: Conditions, expand: Expander,
                                        snap: Snapshot, c: GS.Chain, first: nat, k: nat)
    requires Honest(cfg, root, b, cond, expand) && SoundAt(cfg, root, b, snap) && GS.ChainAt(snap.states, c, first)
    requires 1 <= k <= c.Width() && Tireless(expand, snap, ChainStep(c, first, k))
    ensures var later := Beyond(expand, snap, ChainStep(c, first, k), c.Width() - k);
            Grows(snap, later) && SoundAt(cfg, root, b, later) && Tireless(expand, later, c.target)
    decreases c.Width() - k
  {
    hide Honest, SoundAt, GS.ChainAt, Tireless, LabelAt;
    if k < c.Width() {
      ChainStepped(cfg, root, b, cond, expand, snap, c, first, k);
      ChainArrives(cfg, root, b, cond, expand, expand(snap, first + k - 1).at, c, first, k + 1);
    }
  }

  /** What is found from a chain's target is found from inside the chain, behind the labels that are left of it. */
  lemma {:induction false} ChainIsFound(cfg: Config, root: Trie, b: Bounds, cond: Conditions, expand: Expander,
                                        snap: Snapshot, c: GS.Chain, first: nat, k: nat, rest: seq<nat>, input: string,
                                        output: string, weight: nat)
    returns (picks: seq<nat>)
    requires Honest(cfg, root, b, cond, expand) && SoundAt(cfg, root, b, snap) && GS.ChainAt(snap.states, c, first)
    requires 1 <= k <= c.Width() && Tireless(expand, snap, ChainStep(c, first, k))
    requires From(c.input, k) <= input && From(c.output, k) <= output
    requires Finds(expand, Beyond(expand, snap, ChainStep(c, first, k), c.Width() - k), c.target, rest,
                   input[|From(c.input, k)|..], output[|From(c.output, k)|..], weight)
    ensures Finds(expand, snap, ChainStep(c, first, k), picks, input, output, weight)
    decreases c.Width() - k
  {
    hide Honest, SoundAt, GS.ChainAt, Tireless, LabelAt, Finds, From, Reads, Beyond;
    if k == c.Width() {
      FromEnd(c, k);
      BeyondNone(expand, snap, c.target);
      picks := rest;
    } else {
      ChainStepped(cfg, root, b, cond, expand, snap, c, first, k);
      var a := expand(snap, first + k - 1);
      SpellReads(c.input, k, input);
      SpellReads(c.output, k, output);
      SpellStep(c.input, k, input);
      SpellStep(c.output, k, output);
      var input', output' := Rest(LabelAt(c.input, k), input), Rest(LabelAt(c.output, k), output);
      var more := ChainIsFound(cfg, root, b, cond, expand, a.at, c, first, k + 1, rest, input', output', weight);
      picks := [0] + more;
      PrependPick(expand, snap, first + k - 1, 0, more, input, output, weight);
    }
  }

  lemma {:induction false} BeyondNone(expand: Expander, snap: Snapshot, state: nat)
    ensures Beyond(expand, snap, state, 0) == snap
  {
  }

  /** Where a firing's transition ends up: at its target, after its chain if it has one. */
  ghost function After(expand: Expander, snap: Snapshot, m: Macro, t: Transition): Snapshot {
    if |m.input| <= 1 && |m.output| <= 1 then snap
    else Beyond(expand, snap, t.to, GS.Chain(m.input, m.output, 0).Width() - 1)
  }

  lemma {:induction false} ArcArrives(cfg: Config, root: Trie, b: Bounds, cond: Conditions, expand: Expander,
                                      snap: Snapshot, m: Macro, t: Transition, target: nat)
    requires Honest(cfg, root, b, cond, expand) && Tireless(expand, snap, t.to) && SoundAt(cfg, root, b, snap)
    requires LeadsTo(snap, m, t, target)
    ensures var later := After(expand, snap, m, t);
            Grows(snap, later) && SoundAt(cfg, root, b, later) && Tireless(expand, later, target)
  {
    hide Honest, SoundAt, GS.ChainAt, Tireless, First;
    if |m.input| > 1 || |m.output| > 1 {
      ChainArrives(cfg, root, b, cond, expand, snap, GS.Chain(m.input, m.output, target), t.to, 1);
    }
  }

  /** What is found from a firing's target is found from its transition on, behind its labels. */
  lemma {:induction false} ArcIsFound(cfg: Config, root: Trie, b: Bounds, cond: Conditions, expand: Expander,
                                      snap: Snapshot, m: Macro, t: Transition, target: nat, rest: seq<nat>,
                                      input: string, output: string, weight: nat)
    returns (picks: seq<nat>)
    requires Honest(cfg, root, b, cond, expand) && Tireless(expand, snap, t.to) && SoundAt(cfg, root, b, snap)
    requires LeadsTo(snap, m, t, target) && m.input <= input && m.output <= output
    requires Finds(expand, After(expand, snap, m, t), target, rest, input[|m.input|..], output[|m.output|..], weight)
    ensures Reads(t.input, input) && Reads(t.output, output)
    ensures Finds(expand, snap, t.to, picks, Rest(t.input, input), Rest(t.output, output), weight)
  {
    hide Honest, SoundAt, GS.ChainAt, Tireless, Finds, From, First, LabelAt, Beyond;
    var c := GS.Chain(m.input, m.output, target);
    FirstIsLabel(m.input);
    FirstIsLabel(m.output);
    StartReads(m.input, input);
    StartReads(m.output, output);
    SpellWhole(m.input, input);
    SpellWhole(m.output, output);
    if |m.input| <= 1 && |m.output| <= 1 {
      FromEnd(c, 1);
      picks := rest;
    } else {
      picks := ChainIsFound(cfg, root, b, cond, expand, snap, c, t.to, 1, rest, Rest(t.input, input),
                            Rest(t.output, output),
                            weight);
    }
  }

  /** Every alignment within the budget is found. */
  lemma {:induction false} AlignmentIsFound(cfg: Config, root: Trie, b: Bounds, cond: Conditions, expand: Expander,
                                            snap: Snapshot, state: nat, p: GS.Product, script: seq<Operation>,
                                            output: string, weight: nat)
    returns (picks: seq<nat>)
    requires WellFormed(root) && Honest(cfg, root, b, cond, expand) && Tireless(expand, snap, state)
    requires SoundAt(cfg, root, b, snap)
    requires Completes(cfg, snap, state, p, script, output, weight)
    ensures p.pos <= |cfg.query| && Finds(expand, snap, state, picks, cfg.query[p.pos..], output, weight)
    decreases |script|
  {
    hide Honest, Tireless, SoundAt, LeadsTo, Reads, WellFormed, Finds, OpsOf, Aligns, Contains, After;
    var input := cfg.query[p.pos..];
    if script == [] {
      FoundHere(cfg, root, b, cond, expand, snap, state, p, input, output, weight);
      picks := [];
    } else {
      TirelessHere(expand, snap, state);
      var j, m, target, q := FirstFires(cfg, root, b, cond, expand, snap, state, p, script, output, weight);
      var a := expand(snap, state);
      var t := a.result.ts[j];
      TirelessStep(expand, snap, state, j);
      ArcArrives(cfg, root, b, cond, expand, a.at, m, t, target);
      var later := After(expand, a.at, m, t);
      CompletesKept(cfg, a.at, later, target, q, script[1..], output[|m.output|..], weight - m.weight);
      var rest := AlignmentIsFound(cfg, root, b, cond, expand, later, target, q, script[1..], output[|m.output|..],
                                   weight - m.weight);
      var more := ArcIsFound(cfg, root, b, cond, expand, a.at, m, t, target, rest, input, output, weight - m.weight);
      picks := [j] + more;
      PrependPick(expand, snap, state, j, more, input, output, weight);
    }
  }

  // ---------------------------------------------------------------- why a traversal can fail

  /**
   No cancellation is noticed, and the limits cover whatever a product state of this dictionary and query can cost.
   */
  ghost predicate Ample(cfg: Config, root: Trie, cond: Conditions) {
    && cond.patient && cond.limits.maxWork >= 1
    && forall start, id: nat, pos: nat, cost: nat ::
         Walk(root, start).Some? && pos <= |cfg.query| && cost <= cfg.maxCost ==>
           Covers(cfg, Site(start, id, Walk(root, start).value, pos, cost), cond)
  }

  ghost predicate Covers(cfg: Config, site: Site, cond: Conditions) {
    && ProductWork(cfg, site, cond.rounds) <= cond.limits.maxWork
    && OpsPaths(cfg, site.node, |cfg.prepared|) <= cond.limits.maxPaths
  }

  lemma {:induction false} AmpleSuffices(cfg: Config, root: Trie, b: Bounds, cond: Conditions, w: World, state: nat,
                                         f: Failure)
    requires Ample(cfg, root, cond) && Sound(root, b, w) && b.extent == cfg.Extent()
    ensures !Deserved(cfg, cond, w, state, f)
  {
    hide ProductWork, OpsPaths, GS.WellShaped, PathOf, Walk;
    if IsSite(w, state) {
      var site := SiteIn(w, state);
      assert Walk(root, site.start) == Some(site.node);
      assert Covers(cfg, Site(site.start, site.id, Walk(root, site.start).value, site.pos, site.cost), cond);
    }
  }

  /** Every transition leads to a registered state. */
  lemma {:induction false} TransitionInside(cfg: Config, root: Trie, b: Bounds, w: World, state: nat,
                                            finalWeight: Option<nat>, ts: seq<Transition>, j: nat)
    requires Sound(root, b, w) && IsExpansion(cfg, w, state, finalWeight, ts) && j < |ts|
    ensures ts[j].to < |w.states|
  {
    hide Denotes, GS.Linked, GS.DistinctProducts, GS.OneStartPerChain, Macros, PathOf;
    match w.states[state]
    case ProductState(p) =>
      var site := SiteIn(w, state);
      var m := Macros(cfg, site.node, site.pos, site.cost, |cfg.prepared|)[j];
      assert Realises(w.steps, w.states, state, site.start, m, ts[j]);
    case EmitState(c, position, next) =>
      assert GS.InChain(w.states, state);
      ChainState(w.states, c, state - (position - 1), position);
  }

  /** Wherever a traversal arrives, the registries are sound and the state exists. */
  lemma {:induction false} ArriveInside(cfg: Config, root: Trie, b: Bounds, cond: Conditions, expand: Expander,
                                        snap: Snapshot, state: nat, picks: seq<nat>)
    requires Honest(cfg, root, b, cond, expand) && SoundAt(cfg, root, b, snap) && state < |snap.states|
    requires Arrive(expand, snap, state, picks).Some?
    ensures var there := Arrive(expand, snap, state, picks).value;
            SoundAt(cfg, root, b, there.0) && there.1 < |there.0.states|
    decreases |picks|
  {
    hide Honest, Sound, IsExpansion;
    if picks != [] {
      ExpandStep(cfg, root, b, cond, expand, snap, state);
      var a := expand(snap, state);
      TransitionInside(cfg, root, b, a.at.World(), state, a.result.finalWeight, a.result.ts, picks[0]);
      ArriveInside(cfg, root, b, cond, expand, a.at, a.result.ts[picks[0]].to, picks[1..]);
    }
  }

  /**
   A traversal that does not go on has a reason: a cancellation, a work or path limit below what the state can cost, or
   a product state whose additions do not fit the registries. Under ample conditions only the last remains, and if the
   node limit admits every path of the dictionary, only the states can be too many.
   */
  lemma {:induction false} TiresForCause(cfg: Config, root: Trie, b: Bounds, cond: Conditions, expand: Expander,
                                         picks: seq<nat>)
    requires WellFormed(root) && Honest(cfg, root, b, cond, expand) && b.extent == cfg.Extent() && b.nodes >= 1
    requires b.states >= 1
    requires !ExpandsAt(expand, Start(root), 0, picks)
    ensures var (snap, state) := Arrive(expand, Start(root), 0, picks).value;
            var a := expand(snap, state);
            && a.result.Unexpanded?
            && (Ample(cfg, root, cond) ==> !Deserved(cfg, cond, a.at.World(), state, a.result.failure))
            && (Deserved(cfg, cond, a.at.World(), state, a.result.failure) ||
                (&& IsSite(a.at.World(), state)
                 && var site := SiteIn(a.at.World(), state);
                    && Trouble(a.result.failure, root, b, a.at.World(), ProbedPaths(cfg, site), SiteGoals(cfg, site))
                    && (|Paths(root)| <= b.nodes && |Paths(root)| <= U32_MAX + 1 ==>
                          StateTrouble(a.result.failure, root, b, a.at.World(), ProbedPaths(cfg, site),
                                       SiteGoals(cfg, site)))))
  {
    hide Sound, StateTrouble, Overfull, SiteGoals, ProbedPaths, Denotes, SiteIn, Ample, Deserved;
    StartSound(cfg, root, b);
    ArriveInside(cfg, root, b, cond, expand, Start(root), 0, picks);
    var (snap, state) := Arrive(expand, Start(root), 0, picks).value;
    ExpandStep(cfg, root, b, cond, expand, snap, state);
    var w := expand(snap, state).at.World();
    SoundDenotes(root, b, w);
    if Ample(cfg, root, cond) { AmpleSuffices(cfg, root, b, cond, w, state, expand(snap, state).result.failure); }
    if IsSite(w, state) && |Paths(root)| <= b.nodes && |Paths(root)| <= U32_MAX + 1 {
      var paths := ProbedPaths(cfg, SiteIn(w, state));
      if Overfull(root, w.steps, paths, b.nodes) { EnoughNodes(root, w.steps, w.nodes, paths, b.nodes); }
      if Overfull(root, w.steps, paths, U32_MAX + 1) { EnoughNodes(root, w.steps, w.nodes, paths, U32_MAX + 1); }
    }
  }

  // ---------------------------------------------------------------- the relation

  /** The registries before any expansion. */
  function Start(root: Trie): Snapshot { Snapshot(0, [Root], [root], [GS.ProductState(GS.START)]) }

  /** Some traversal from the start state reads `input` and writes `output` at weight `weight`. */
  ghost predicate CanFind(expand: Expander, root: Trie, input: string, output: string, weight: nat) {
    exists picks :: Finds(expand, Start(root), 0, picks, input, output, weight)
  }

  /**
   However clones interleave, whatever a traversal accepts is the query against a dictionary term, at the cost of some
   sequence of applicable operations of the original set within the budget; and when expansions succeed, every such
   alignment is accepted.
   */
  lemma {:induction false} RelationIsAlignment(cfg: Config, ops: seq<Operation>, root: Trie, b: Bounds,
                                               cond: Conditions, expand: Expander, input: string, output: string,
                                               weight: nat)
    requires WellFormed(root) && Honest(cfg, root, b, cond, expand) && Represents(OpsOf(cfg.prepared), ops, cfg.maxCost)
    requires b.extent == cfg.Extent() && b.nodes >= 1 && b.states >= 1
    ensures CanFind(expand, root, input, output, weight) ==>
              && input == cfg.query && Contains(root, output) && weight <= cfg.maxCost
              && CanAlign(ops, output, cfg.query, weight)
    ensures Tireless(expand, Start(root), 0) && Contains(root, output) && weight <= cfg.maxCost &&
            CanAlign(ops, output, cfg.query, weight) ==>
              CanFind(expand, root, cfg.query, output, weight)
  {
    hide Finds, Honest, Tireless, SoundAt, Represents, Aligns, OpsOf, Contains, WellFormed;
    var snap := Start(root);
    StartSound(cfg, root, b);
    assert cfg.query[0..] == cfg.query;
    if CanFind(expand, root, input, output, weight) {
      var picks :| Finds(expand, snap, 0, picks, input, output, weight);
      var script := FindsIsAlignment(cfg, root, b, cond, expand, snap, 0, GS.START, picks, input, output, weight);
      assert CanAlign(OpsOf(cfg.prepared), output, cfg.query, weight);
      BoundedSetKeepsAlignments(OpsOf(cfg.prepared), ops, cfg.maxCost, output, cfg.query, weight);
    }
    if Tireless(expand, Start(root), 0) && Contains(root, output) && weight <= cfg.maxCost &&
       CanAlign(ops, output, cfg.query, weight) {
      BoundedSetKeepsAlignments(OpsOf(cfg.prepared), ops, cfg.maxCost, output, cfg.query, weight);
      var script :| Aligns(OpsOf(cfg.prepared), script, output, cfg.query, weight);
      var picks := AlignmentIsFound(cfg, root, b, cond, expand, snap, 0, GS.START, script, output, weight);
    }
  }

  /**
   With the edit operations of an algorithm, the machine accepts only dictionary terms, never below their edit distance
   from the query nor above the budget; and when expansions succeed, every term within the budget at its distance.
   */
  lemma {:induction false} EditsAreExact(cfg: Config, a: Algorithm, root: Trie, b: Bounds, cond: Conditions,
                                         expand: Expander, input: string, output: string, weight: nat)
    requires WellFormed(root) && Honest(cfg, root, b, cond, expand)
    requires Represents(OpsOf(cfg.prepared), EditOperations(a), cfg.maxCost)
    requires b.extent == cfg.Extent() && b.nodes >= 1 && b.states >= 1
    ensures CanFind(expand, root, input, output, weight) ==>
              && input == cfg.query && Contains(root, output)
              && ED.Distance(cfg.query, output, a) <= weight <= cfg.maxCost
    ensures Tireless(expand, Start(root), 0) && Contains(root, output) &&
            ED.Distance(cfg.query, output, a) <= cfg.maxCost
            ==> CanFind(expand, root, cfg.query, output, ED.Distance(cfg.query, output, a))
  {
    hide *;
    RelationIsAlignment(cfg, EditOperations(a), root, b, cond, expand, input, output, weight);
    LeastCostIsDistance(cfg.query, output, a);
    RelationIsAlignment(cfg, EditOperations(a), root, b, cond, expand, input, output,
                        ED.Distance(cfg.query, output, a));
  }

  lemma StartSound(cfg: Config, root: Trie, b: Bounds)
    requires b.extent == cfg.Extent() && b.nodes >= 1 && b.states >= 1
    ensures var snap := Start(root); SoundAt(cfg, root, b, snap) && Stands(snap, 0, GS.START)
  {
  }
}
