/**
 The rewrite transducer of src/phonetic_rewrite_wfst.rs as a graph: its paths from the home state back to it are the
 ways of factoring an input/output pair into rules and identity copies.
 */
module RewriteGraph {
  import opened Common
  import opened Labels
  import opened RewriteTables
  import opened RewritePrune

  // ---------------------------------------------------------------- the arcs of a state

  /** `continuation_state`: the ID of a continuation, if it fits in `u32`. */
  function ContinuationState(t: Tables, rule: nat, step: nat): Option<nat> {
    var start := if rule == 0 || rule - 1 >= |t.endOffsets| then 0 else t.endOffsets[rule - 1];
    if start + step <= U32_MAX then Some(start + step) else None
  }

  /** `decode_continuation_state`. */
  function DecodeContinuation(t: Tables, state: nat): Option<Continuation> {
    if state == 0 || state - 1 >= |t.lookup| then None
    else
      var c := t.lookup[state - 1];
      if c.rule < |t.rules| && c.step < t.rules[c.rule].Steps() then Some(c) else None
  }

  /** `push_rule_step_transition`: at most one arc. */
  function StepArc(t: Tables, rule: nat, step: nat): (arcs: seq<Transition>)
    ensures |arcs| <= 1
  {
    if rule >= |t.rules| || step >= t.rules[rule].Steps() then []
    else
      var from := if step == 0 then Some(0) else ContinuationState(t, rule, step);
      var to := if step + 1 == t.rules[rule].Steps() then Some(0) else ContinuationState(t, rule, step + 1);
      if from.None? || to.None? then []
      else [Transition(from.value, LabelAt(t.rules[rule].input, step), LabelAt(t.rules[rule].output, step), to.value,
                       if step == 0 then t.rules[rule].cost else 0)]
  }

  function RuleArcs(t: Tables, n: nat): seq<Transition>
    requires n <= |t.order|
  {
    if n == 0 then [] else RuleArcs(t, n - 1) + StepArc(t, t.order[n - 1], 0)
  }

  function IdentityArc(c: char): Transition { Transition(0, Some(c), Some(c), 0, 0) }

  function IdentityArcs(n: nat): seq<Transition>
    requires n <= 95
  {
    if n == 0 then [] else IdentityArcs(n - 1) + [IdentityArc((0x20 + n - 1) as char)]
  }

  /** `rewrite_state_count`. */
  function StateCount(t: Tables): nat { Min(|t.lookup| + 1, U32_MAX + 1) }

  /** All arcs of a state, before pruning. */
  function RawArcs(t: Tables, identity: bool, state: nat): seq<Transition> {
    if state >= StateCount(t) then []
    else if state == 0 then RuleArcs(t, |t.order|) + if identity then IdentityArcs(95) else []
    else
      match DecodeContinuation(t, state)
      case None => []
      case Some(c) => StepArc(t, c.rule, c.step)
  }

  function Arcs(t: Tables, identity: bool, state: nat): seq<Transition> { Prune(RawArcs(t, identity, state)) }

  // ---------------------------------------------------------------- the machine

  class RewriteWfst {
    var tables: Tables
    var allowIdentity: bool

    ghost predicate Valid()
      reads this
    {
      tables.Valid()
    }

    constructor (rules: seq<Rule>)
      ensures Valid() && tables.rules == rules && allowIdentity
    {
      var t := FromRules(rules);
      tables := t;
      allowIdentity := true;
    }

    method AddRule(rule: Rule)
      requires Valid()
      modifies this
      ensures Valid() && tables.rules == old(tables.rules) + [rule] && allowIdentity == old(allowIdentity)
    {
      tables := AppendRule(tables, rule);
    }

    method SetAllowIdentity(allow: bool)
      requires Valid()
      modifies this
      ensures Valid() && tables == old(tables) && allowIdentity == allow
    {
      allowIdentity := allow;
    }

    /** `compute_transitions`. */
    method ComputeTransitions(state: nat) returns (isFinal: bool, ts: seq<Transition>)
      requires Valid()
      ensures ts == Arcs(tables, allowIdentity, state) && isFinal == (state == 0)
    {
      hide Prune, StepArc;
      if state >= StateCount(tables) {
        var none := PruneDominated([]);
        return false, none;
      }
      isFinal, ts := state == 0, [];
      if state == 0 {
        for n := 0 to |tables.order|
          invariant ts == RuleArcs(tables, n)
        {
          ts := ts + StepArc(tables, tables.order[n], 0);
        }
      } else {
        var c := DecodeContinuation(tables, state);
        if c.Some? {
          ts := StepArc(tables, c.value.rule, c.value.step);
        }
      }
      if allowIdentity && state == 0 {
        var rules := ts;
        for n := 0 to 95
          invariant ts == rules + IdentityArcs(n)
        {
          ts := ts + [IdentityArc((0x20 + n) as char)];
        }
      } else {
        assert ts + [] == ts;
      }
      ts := PruneDominated(ts);
    }
  }

  // ---------------------------------------------------------------- paths

  type Graph = nat -> seq<Transition>

  function Raw(t: Tables, identity: bool): Graph { (s: nat) => RawArcs(t, identity, s) }

  function Pruned(t: Tables, identity: bool): Graph { (s: nat) => Arcs(t, identity, s) }

  /** `path` leads from `state` to the home state, reading `u` and writing `v` at total weight `weight`. */
  ghost predicate Walks(g: Graph, state: nat, path: seq<Transition>, u: string, v: string, weight: nat)
    decreases |path|
  {
    if path == [] then state == 0 && u == [] && v == [] && weight == 0
    else
      var a := path[0];
      && a in g(state) && a.weight <= weight && Reads(a.input, u) && Reads(a.output, v)
      && Walks(g, a.to, path[1..], Rest(a.input, u), Rest(a.output, v), weight - a.weight)
  }

  /** Pruning adds no path. */
  lemma {:induction false} PrunedIsRaw(t: Tables, identity: bool, state: nat, path: seq<Transition>, u: string,
                                       v: string, weight: nat)
    requires Walks(Pruned(t, identity), state, path, u, v, weight)
    ensures Walks(Raw(t, identity), state, path, u, v, weight)
    decreases |path|
  {
    hide Prune, RawArcs;
    if path != [] {
      PruneIsLeast(RawArcs(t, identity, state));
      PrunedIsRaw(t, identity, path[0].to, path[1..], Rest(path[0].input, u), Rest(path[0].output, v),
                  weight - path[0].weight);
    }
  }

  /** Pruning loses no path: the same labels stay available at no more weight. */
  lemma {:induction false} RawIsPruned(t: Tables, identity: bool, state: nat, path: seq<Transition>, u: string,
                                       v: string, weight: nat)
    returns (path': seq<Transition>, weight': nat)
    requires Walks(Raw(t, identity), state, path, u, v, weight)
    ensures Walks(Pruned(t, identity), state, path', u, v, weight') && weight' <= weight
    decreases |path|
  {
    hide Prune, RawArcs;
    if path == [] {
      path', weight' := [], 0;
    } else {
      var a := path[0];
      PruneIsLeast(RawArcs(t, identity, state));
      assert Covered(Arcs(t, identity, state), a);
      var i :| 0 <= i < |Arcs(t, identity, state)| && Dominates(Arcs(t, identity, state)[i], a);
      var b := Arcs(t, identity, state)[i];
      var rest, w := RawIsPruned(t, identity, a.to, path[1..], Rest(a.input, u), Rest(a.output, v), weight - a.weight);
      path', weight' := [b] + rest, b.weight + w;
      assert path'[1..] == rest;
    }
  }

  // ---------------------------------------------------------------- factoring a pair

  datatype Piece = Apply(rule: nat) | Copy(c: char)

  /** Every continuation of rule `i` has a `u32` state. */
  predicate Addressable(rules: seq<Rule>, i: nat)
    requires i < |rules|
  {
    rules[i].Steps() <= 1 || Start(rules, i) + rules[i].Steps() - 1 <= U32_MAX
  }

  predicate PieceOk(rules: seq<Rule>, identity: bool, p: Piece) {
    match p
    case Apply(i) => i < |rules| && Addressable(rules, i)
    case Copy(c) => identity && ' ' <= c <= '~'
  }

  function PieceIn(rules: seq<Rule>, p: Piece): string
    requires p.Apply? ==> p.rule < |rules|
  {
    match p case Apply(i) => rules[i].input case Copy(c) => [c]
  }

  function PieceOut(rules: seq<Rule>, p: Piece): string
    requires p.Apply? ==> p.rule < |rules|
  {
    match p case Apply(i) => rules[i].output case Copy(c) => [c]
  }

  function PieceCost(rules: seq<Rule>, p: Piece): nat
    requires p.Apply? ==> p.rule < |rules|
  {
    match p case Apply(i) => rules[i].cost case Copy(_) => 0
  }

  /** `u` rewrites to `v` piece by piece, at total cost `cost`. */
  ghost predicate Factors(rules: seq<Rule>, identity: bool, pieces: seq<Piece>, u: string, v: string, cost: nat)
    decreases |pieces|
  {
    if pieces == [] then u == [] && v == [] && cost == 0
    else
      var p := pieces[0];
      && PieceOk(rules, identity, p) && PieceIn(rules, p) <= u && PieceOut(rules, p) <= v && PieceCost(rules, p) <= cost
      && Factors(rules, identity, pieces[1..], u[|PieceIn(rules, p)|..], v[|PieceOut(rules, p)|..],
                 cost - PieceCost(rules, p))
  }

  lemma {:induction false} PrependPiece(rules: seq<Rule>, identity: bool, p: Piece, pieces: seq<Piece>, u: string,
                                        v: string, cost: nat)
    requires PieceOk(rules, identity, p) && PieceIn(rules, p) <= u && PieceOut(rules, p) <= v
    requires PieceCost(rules, p) <= cost
    requires Factors(rules, identity, pieces, u[|PieceIn(rules, p)|..], v[|PieceOut(rules, p)|..],
                     cost - PieceCost(rules, p))
    ensures Factors(rules, identity, [p] + pieces, u, v, cost)
  {
    hide PieceOk, PieceIn, PieceOut, PieceCost;
    assert ([p] + pieces)[1..] == pieces;
  }

  // ---------------------------------------------------------------- arcs, state by state

  /** A continuation state has the one arc of its step. */
  lemma ContinuationArcs(t: Tables, identity: bool, i: nat, k: nat)
    requires t.Valid() && i < |t.rules| && 1 <= k < t.rules[i].Steps() && Start(t.rules, i) + k <= U32_MAX
    ensures var state, r := Start(t.rules, i) + k, t.rules[i];
            RawArcs(t, identity, state) ==
            if k + 1 == r.Steps() then [Transition(state, LabelAt(r.input, k), LabelAt(r.output, k), 0, 0)]
            else if state + 1 <= U32_MAX
                 then [Transition(state, LabelAt(r.input, k), LabelAt(r.output, k), state + 1, 0)]
            else []
  {
    hide LabelAt, Lookup, EndOffsets, IsPriorityOrder;
    ContinuationRoundTrip(t.rules, i, k);
  }

  /** The first arc of a rule. */
  lemma FirstArc(t: Tables, i: nat)
    requires t.Valid() && i < |t.rules|
    ensures var r := t.rules[i];
            StepArc(t, i, 0) ==
            if r.Steps() == 0 || (r.Steps() > 1 && Start(t.rules, i) + 1 > U32_MAX) then []
            else [Transition(0, LabelAt(r.input, 0), LabelAt(r.output, 0),
                             if r.Steps() == 1 then 0 else Start(t.rules, i) + 1, r.cost)]
  {
    hide LabelAt, Lookup, IsPriorityOrder;
  }

  /** Where the home state lists the first arc of rule `t.order[n]`, before pruning. */
  lemma {:induction false} RuleArcAt(t: Tables, identity: bool, n: nat, m: nat)
    requires n < m <= |t.order| && StepArc(t, t.order[n], 0) != []
    ensures |RuleArcs(t, n)| < |RuleArcs(t, n + 1)| <= |RuleArcs(t, m)| <= |RawArcs(t, identity, 0)|
    ensures RuleArcs(t, m)[|RuleArcs(t, n)|] == RawArcs(t, identity, 0)[|RuleArcs(t, n)|] ==
            StepArc(t, t.order[n], 0)[0]
    decreases |t.order| - n, m
  {
    hide StepArc;
    if m > n + 1 {
      RuleArcAt(t, identity, n, m - 1);
    } else {
      RuleArcsGrow(t, m, |t.order|);
    }
    RuleArcsGrow(t, m, |t.order|);
  }

  lemma {:induction false} RuleArcsGrow(t: Tables, n: nat, m: nat)
    requires n <= m <= |t.order|
    ensures RuleArcs(t, n) <= RuleArcs(t, m)
  {
    hide StepArc;
    if n < m { RuleArcsGrow(t, n, m - 1); }
  }

  /** The first arc of a rule: its first labels, its cost, and its second step or home. */
  function FirstArcOfRule(t: Tables, i: nat): Transition
    requires i < |t.rules|
  {
    var r := t.rules[i];
    Transition(0, LabelAt(r.input, 0), LabelAt(r.output, 0), if r.Steps() == 1 then 0 else Start(t.rules, i) + 1,
               r.cost)
  }

  ghost predicate ListedBefore(ts: seq<Transition>, a: Transition, b: Transition) {
    exists p, q :: 0 <= p < q < |ts| && ts[p] == a && ts[q] == b
  }

  /**
   Before pruning, the home state starts the rules in the order of falling priority, rules of one priority in the order
   in which they were added.
   */
  lemma {:induction false} HomeOrder(t: Tables, identity: bool, a: nat, b: nat)
    requires t.Valid() && a < |t.rules| && b < |t.rules|
    requires t.rules[a].Steps() > 0 && Addressable(t.rules, a) && t.rules[b].Steps() > 0 && Addressable(t.rules, b)
    requires t.rules[a].priority > t.rules[b].priority || (t.rules[a].priority == t.rules[b].priority && a < b)
    ensures ListedBefore(RawArcs(t, identity, 0), FirstArcOfRule(t, a), FirstArcOfRule(t, b))
  {
    hide StepArc, RawArcs, LabelAt, Lookup, EndOffsets, IsPriorityOrder;
    OrderByPriority(t.rules, t.order);
    FirstArc(t, a);
    FirstArc(t, b);
    assert a in t.order && b in t.order;
    var i :| 0 <= i < |t.order| && t.order[i] == a;
    var j :| 0 <= j < |t.order| && t.order[j] == b;
    assert i < j;
    RuleArcAt(t, identity, i, j);
    RuleArcAt(t, identity, j, |t.order|);
  }

  /** The copies of printable characters come after all rules. */
  lemma {:induction false} CopiesLast(t: Tables, b: nat, c: char)
    requires t.Valid() && b < |t.rules| && t.rules[b].Steps() > 0 && Addressable(t.rules, b) && ' ' <= c <= '~'
    ensures ListedBefore(RawArcs(t, true, 0), FirstArcOfRule(t, b), Transition(0, Some(c), Some(c), 0, 0))
  {
    hide StepArc, RawArcs, LabelAt, Lookup, EndOffsets, IsPriorityOrder;
    OrderByPriority(t.rules, t.order);
    FirstArc(t, b);
    assert b in t.order;
    var j :| 0 <= j < |t.order| && t.order[j] == b;
    RuleArcAt(t, true, j, |t.order|);
    CopyAt(t, c);
  }

  /** The copy of a printable character comes after all rules, in character order. */
  lemma {:induction false} CopyAt(t: Tables, c: char)
    requires ' ' <= c <= '~'
    ensures var at := |RuleArcs(t, |t.order|)| + (c as int - 0x20);
            at < |RawArcs(t, true, 0)| && RawArcs(t, true, 0)[at] == Transition(0, Some(c), Some(c), 0, 0)
  {
    IdentityArcAt(95, c);
  }

  lemma {:induction false} IdentityArcAt(n: nat, c: char)
    requires n <= 95 && 0x20 <= c as int < 0x20 + n
    ensures |IdentityArcs(n)| == n && IdentityArcs(n)[c as int - 0x20] == Transition(0, Some(c), Some(c), 0, 0)
  {
    if n > 1 && c as int - 0x20 < n - 1 {
      IdentityArcAt(n - 1, c);
    } else {
      IdentityArcsCount(n - 1);
      assert (0x20 + n - 1) as char == c;
    }
  }

  lemma {:induction false} IdentityArcsCount(n: nat)
    requires n <= 95
    ensures |IdentityArcs(n)| == n
  {
    if n > 0 { IdentityArcsCount(n - 1); }
  }

  lemma {:induction false} RuleArcsMember(t: Tables, n: nat, a: Transition)
    requires n <= |t.order|
    ensures a in RuleArcs(t, n) <==> exists j :: 0 <= j < n && a in StepArc(t, t.order[j], 0)
  {
    hide StepArc;
    if n > 0 { RuleArcsMember(t, n - 1, a); }
  }

  /** `a` copies a printable character. */
  predicate IsCopy(a: Transition) { a.input.Some? && ' ' <= a.input.value <= '~' && a == IdentityArc(a.input.value) }

  lemma {:induction false} IdentityArcsMember(n: nat, a: Transition)
    requires n <= 95
    ensures a in IdentityArcs(n) <==> IsCopy(a) && a.input.value as int < 0x20 + n
  {
    if n > 0 { IdentityArcsMember(n - 1, a); }
  }

  /** The home state's arcs start the rules, in whatever order, and copy printable characters. */
  lemma HomeArcs(t: Tables, identity: bool, a: Transition)
    requires t.Valid()
    ensures a in RawArcs(t, identity, 0) <==>
              (exists i :: 0 <= i < |t.rules| && a in StepArc(t, i, 0)) || (identity && IsCopy(a))
  {
    hide StepArc, Lookup, EndOffsets;
    RuleArcsMember(t, |t.order|, a);
    IdentityArcsMember(95, a);
    forall i | 0 <= i < |t.rules| && a in StepArc(t, i, 0)
      ensures exists j :: 0 <= j < |t.order| && a in StepArc(t, t.order[j], 0)
    {
      assert i in t.order;
      var j :| 0 <= j < |t.order| && t.order[j] == i;
    }
  }

  // ---------------------------------------------------------------- paths are factorings

  /** From inside a rule, a path spells the rest of the rule for free and goes on from the home state. */
  lemma {:induction false} RuleSpells(t: Tables, identity: bool, i: nat, k: nat, path: seq<Transition>, u: string,
                                      v: string, weight: nat)
    returns (rest: seq<Transition>)
    requires t.Valid() && i < |t.rules| && 1 <= k < t.rules[i].Steps() && Start(t.rules, i) + k <= U32_MAX
    requires Walks(Raw(t, identity), Start(t.rules, i) + k, path, u, v, weight)
    ensures Addressable(t.rules, i) && |rest| < |path|
    ensures From(t.rules[i].input, k) <= u && From(t.rules[i].output, k) <= v
    ensures Walks(Raw(t, identity), 0, rest, u[|From(t.rules[i].input, k)|..], v[|From(t.rules[i].output, k)|..],
                  weight)
    decreases t.rules[i].Steps() - k
  {
    hide RawArcs, From, LabelAt, Reads, Start, Tables.Valid, Rule.Steps, Walks;
    var r := t.rules[i];
    ContinuationArcs(t, identity, i, k);
    NotHome(Raw(t, identity), Start(t.rules, i) + k, path, u, v, weight);
    FirstStep(Raw(t, identity), Start(t.rules, i) + k, path, u, v, weight);
    var a := path[0];
    if k + 1 == r.Steps() {
      rest := path[1..];
      PastEnd(r, k + 1);
    } else {
      rest := RuleSpells(t, identity, i, k + 1, path[1..], Rest(a.input, u), Rest(a.output, v), weight);
    }
    SpellStep(r.input, k, u);
    SpellStep(r.output, k, v);
  }

  lemma {:induction false} NotHome(g: Graph, state: nat, path: seq<Transition>, u: string, v: string, weight: nat)
    requires Walks(g, state, path, u, v, weight) && state != 0
    ensures path != []
  {
  }

  lemma PastEnd(r: Rule, k: nat)
    requires k >= r.Steps()
    ensures From(r.input, k) == [] && From(r.output, k) == []
  {
  }

  /** What the first arc of a rule looks like. */
  lemma {:induction false} FirstArcOf(t: Tables, i: nat, a: Transition)
    requires t.Valid() && i < |t.rules| && a in StepArc(t, i, 0)
    ensures var r := t.rules[i];
            && r.Steps() > 0 && (r.Steps() > 1 ==> Start(t.rules, i) + 1 <= U32_MAX)
            && a.input == LabelAt(r.input, 0) && a.output == LabelAt(r.output, 0) && a.weight == r.cost
            && a.to == if r.Steps() == 1 then 0 else Start(t.rules, i) + 1
  {
    hide LabelAt, Start, Tables.Valid, Rule.Steps, StepArc;
    FirstArc(t, i);
  }

  /** After the first arc of a rule, a path goes through the rest of the rule, if there is any. */
  lemma {:induction false} AfterFirst(t: Tables, identity: bool, i: nat, path: seq<Transition>, u: string, v: string,
                                      weight: nat)
    returns (rest: seq<Transition>)
    requires t.Valid() && i < |t.rules| && t.rules[i].Steps() > 0
    requires t.rules[i].Steps() > 1 ==> Start(t.rules, i) + 1 <= U32_MAX
    requires Walks(Raw(t, identity), if t.rules[i].Steps() == 1 then 0 else Start(t.rules, i) + 1, path, u, v, weight)
    ensures Addressable(t.rules, i) && |rest| <= |path|
    ensures From(t.rules[i].input, 1) <= u && From(t.rules[i].output, 1) <= v
    ensures Walks(Raw(t, identity), 0, rest, u[|From(t.rules[i].input, 1)|..], v[|From(t.rules[i].output, 1)|..],
                  weight)
  {
    hide RawArcs, From, Start, Tables.Valid, Rule.Steps, Walks;
    if t.rules[i].Steps() == 1 {
      rest := path;
      PastEnd(t.rules[i], 1);
    } else {
      rest := RuleSpells(t, identity, i, 1, path, u, v, weight);
    }
  }

  /** A rule's first arc, followed to the home state, spells the whole rule and pays its cost once. */
  lemma {:induction false} RuleFromHome(t: Tables, identity: bool, i: nat, a: Transition, path: seq<Transition>,
                                        u: string, v: string, weight: nat)
    returns (rest: seq<Transition>)
    requires t.Valid() && i < |t.rules| && a in StepArc(t, i, 0) && a.weight <= weight && Reads(a.input, u)
    requires Reads(a.output, v)
    requires Walks(Raw(t, identity), a.to, path, Rest(a.input, u), Rest(a.output, v), weight - a.weight)
    ensures Addressable(t.rules, i) && |rest| <= |path| && t.rules[i].cost == a.weight
    ensures t.rules[i].input <= u && t.rules[i].output <= v
    ensures Walks(Raw(t, identity), 0, rest, u[|t.rules[i].input|..], v[|t.rules[i].output|..], weight - a.weight)
  {
    hide RawArcs, From, LabelAt, Reads, Start, Tables.Valid, Rule.Steps, Walks, StepArc, Addressable;
    FirstArcOf(t, i, a);
    rest := AfterFirst(t, identity, i, path, Rest(a.input, u), Rest(a.output, v), weight - a.weight);
    SpellWhole(t.rules[i].input, u);
    SpellWhole(t.rules[i].output, v);
  }

  lemma FirstStep(g: Graph, state: nat, path: seq<Transition>, u: string, v: string, weight: nat)
    requires Walks(g, state, path, u, v, weight) && path != []
    ensures var a := path[0];
            && a in g(state) && a.weight <= weight && Reads(a.input, u) && Reads(a.output, v)
            && Walks(g, a.to, path[1..], Rest(a.input, u), Rest(a.output, v), weight - a.weight)
  {
  }

  lemma {:induction false} EmptyFactoring(rules: seq<Rule>, identity: bool, g: Graph, u: string, v: string, weight: nat)
    requires Walks(g, 0, [], u, v, weight)
    ensures Factors(rules, identity, [], u, v, weight)
  {
  }

  /** Every path from home to home is a factoring of its labels at its weight. */
  lemma {:induction false} WalkIsFactoring(t: Tables, identity: bool, path: seq<Transition>, u: string, v: string,
                                           weight: nat)
    returns (pieces: seq<Piece>)
    requires t.Valid() && Walks(Raw(t, identity), 0, path, u, v, weight)
    ensures Factors(t.rules, identity, pieces, u, v, weight)
    decreases |path|
  {
    hide Tables.Valid, RawArcs, StepArc, Factors, Walks, Addressable, Start, Rule.Steps;
    var g := Raw(t, identity);
    if path == [] {
      EmptyFactoring(t.rules, identity, g, u, v, weight);
      pieces := [];
    } else {
      var a := path[0];
      FirstStep(g, 0, path, u, v, weight);
      HomeArcs(t, identity, a);
      if i: nat :| i < |t.rules| && a in StepArc(t, i, 0) {
        var rest := RuleFromHome(t, identity, i, a, path[1..], u, v, weight);
        var more := WalkIsFactoring(t, identity, rest, u[|t.rules[i].input|..], v[|t.rules[i].output|..],
                                    weight - a.weight);
        pieces := [Apply(i)] + more;
        PrependPiece(t.rules, identity, Apply(i), more, u, v, weight);
      } else {
        var more := WalkIsFactoring(t, identity, path[1..], u[1..], v[1..], weight);
        pieces := [Copy(a.input.value)] + more;
        PrependPiece(t.rules, identity, Copy(a.input.value), more, u, v, weight);
      }
    }
  }

  // ---------------------------------------------------------------- factorings are paths

  lemma {:induction false} PrependArc(g: Graph, state: nat, a: Transition, path: seq<Transition>, u: string, v: string,
                                      weight: nat)
    requires a in g(state) && a.weight <= weight && Reads(a.input, u) && Reads(a.output, v)
    requires Walks(g, a.to, path, Rest(a.input, u), Rest(a.output, v), weight - a.weight)
    ensures Walks(g, state, [a] + path, u, v, weight)
  {
    assert ([a] + path)[1..] == path;
  }

  /** Spelling the rest of an addressable rule, then going on. */
  lemma {:induction false} SpellRule(t: Tables, identity: bool, i: nat, k: nat, path: seq<Transition>, u: string,
                                     v: string, weight: nat)
    returns (whole: seq<Transition>)
    requires t.Valid() && i < |t.rules| && 1 <= k < t.rules[i].Steps() && Addressable(t.rules, i)
    requires From(t.rules[i].input, k) <= u && From(t.rules[i].output, k) <= v
    requires Walks(Raw(t, identity), 0, path, u[|From(t.rules[i].input, k)|..], v[|From(t.rules[i].output, k)|..],
                   weight)
    ensures Walks(Raw(t, identity), Start(t.rules, i) + k, whole, u, v, weight)
    decreases t.rules[i].Steps() - k
  {
    hide RawArcs, From, LabelAt, Reads, Start, Tables.Valid, Rule.Steps, Walks;
    var r, state := t.rules[i], Start(t.rules, i) + k;
    ContinuationArcs(t, identity, i, k);
    var a := RawArcs(t, identity, state)[0];
    SpellReads(r.input, k, u);
    SpellReads(r.output, k, v);
    SpellStep(r.input, k, u);
    SpellStep(r.output, k, v);
    var rest := path;
    if k + 1 == r.Steps() {
      PastEnd(r, k + 1);
    } else {
      rest := SpellRule(t, identity, i, k + 1, path, Rest(a.input, u), Rest(a.output, v), weight);
    }
    PrependArc(Raw(t, identity), state, a, rest, u, v, weight);
    whole := [a] + rest;
  }

  /** Spelling what is left of an addressable rule after its first arc, if there is anything left. */
  lemma {:induction false} SpellAfterFirst(t: Tables, identity: bool, i: nat, path: seq<Transition>, u: string,
                                           v: string, weight: nat)
    returns (whole: seq<Transition>)
    requires t.Valid() && i < |t.rules| && Addressable(t.rules, i) && t.rules[i].Steps() > 0
    requires From(t.rules[i].input, 1) <= u && From(t.rules[i].output, 1) <= v
    requires Walks(Raw(t, identity), 0, path, u[|From(t.rules[i].input, 1)|..], v[|From(t.rules[i].output, 1)|..],
                   weight)
    ensures Walks(Raw(t, identity), if t.rules[i].Steps() == 1 then 0 else Start(t.rules, i) + 1, whole, u, v, weight)
  {
    hide RawArcs, From, Start, Tables.Valid, Rule.Steps, Walks;
    if t.rules[i].Steps() == 1 {
      whole := path;
      PastEnd(t.rules[i], 1);
    } else {
      whole := SpellRule(t, identity, i, 1, path, u, v, weight);
    }
  }

  /** One rule in front of a path. */
  lemma {:induction false} ApplyRule(t: Tables, identity: bool, i: nat, path: seq<Transition>, u: string, v: string,
                                     weight: nat)
    returns (whole: seq<Transition>)
    requires t.Valid() && i < |t.rules| && Addressable(t.rules, i) && t.rules[i].Steps() > 0
    requires t.rules[i].input <= u && t.rules[i].output <= v && t.rules[i].cost <= weight
    requires Walks(Raw(t, identity), 0, path, u[|t.rules[i].input|..], v[|t.rules[i].output|..],
                   weight - t.rules[i].cost)
    ensures Walks(Raw(t, identity), 0, whole, u, v, weight)
  {
    hide RawArcs, From, LabelAt, Reads, Start, Tables.Valid, Rule.Steps, Walks, StepArc;
    var r := t.rules[i];
    FirstArc(t, i);
    var a := StepArc(t, i, 0)[0];
    assert a in StepArc(t, i, 0);
    HomeArcs(t, identity, a);
    StartReads(r.input, u);
    StartReads(r.output, v);
    SpellWhole(r.input, u);
    SpellWhole(r.output, v);
    var rest := SpellAfterFirst(t, identity, i, path, Rest(a.input, u), Rest(a.output, v), weight - r.cost);
    PrependArc(Raw(t, identity), 0, a, rest, u, v, weight);
    whole := [a] + rest;
  }

  /** One piece in front of a path. */
  lemma ApplyPiece(t: Tables, identity: bool, p: Piece, path: seq<Transition>, u: string, v: string, weight: nat)
    returns (whole: seq<Transition>, weight': nat)
    requires t.Valid() && PieceOk(t.rules, identity, p) && PieceIn(t.rules, p) <= u && PieceOut(t.rules, p) <= v
    requires Walks(Raw(t, identity), 0, path, u[|PieceIn(t.rules, p)|..], v[|PieceOut(t.rules, p)|..], weight)
    ensures Walks(Raw(t, identity), 0, whole, u, v, weight') && weight' <= weight + PieceCost(t.rules, p)
  {
    hide Tables.Valid, RawArcs, StepArc, Walks, Addressable, Start;
    match p {
      case Apply(i) =>
        if t.rules[i].Steps() == 0 {
          assert u[0..] == u && v[0..] == v;
          whole, weight' := path, weight;
        } else {
          weight' := weight + t.rules[i].cost;
          whole := ApplyRule(t, identity, i, path, u, v, weight');
        }
      case Copy(c) =>
        HomeArcs(t, identity, IdentityArc(c));
        weight' := weight;
        PrependArc(Raw(t, identity), 0, IdentityArc(c), path, u, v, weight);
        whole := [IdentityArc(c)] + path;
    }
  }

  /** Every factoring is a path at no more weight; a rule with two empty sides is skipped. */
  lemma {:induction false} FactoringIsWalk(t: Tables, identity: bool, pieces: seq<Piece>, u: string, v: string,
                                           cost: nat)
    returns (path: seq<Transition>, weight: nat)
    requires t.Valid() && Factors(t.rules, identity, pieces, u, v, cost)
    ensures Walks(Raw(t, identity), 0, path, u, v, weight) && weight <= cost
    decreases |pieces|
  {
    hide Tables.Valid, Addressable, PieceIn, PieceOut, PieceCost, RawArcs;
    if pieces == [] {
      path, weight := [], 0;
    } else {
      hide Walks;
      var p := pieces[0];
      var rest, w := FactoringIsWalk(t, identity, pieces[1..], u[|PieceIn(t.rules, p)|..], v[|PieceOut(t.rules, p)|..],
                                     cost - PieceCost(t.rules, p));
      path, weight := ApplyPiece(t, identity, p, rest, u, v, w);
    }
  }

  // ---------------------------------------------------------------- the relation

  ghost predicate HasPath(t: Tables, identity: bool, u: string, v: string, weight: nat) {
    exists path :: Walks(Pruned(t, identity), 0, path, u, v, weight)
  }

  ghost predicate HasFactoring(rules: seq<Rule>, identity: bool, u: string, v: string, cost: nat) {
    exists pieces :: Factors(rules, identity, pieces, u, v, cost)
  }

  ghost predicate LeastPath(t: Tables, identity: bool, u: string, v: string, n: nat) {
    HasPath(t, identity, u, v, n) && forall m: nat :: HasPath(t, identity, u, v, m) ==> n <= m
  }

  ghost predicate LeastFactoring(rules: seq<Rule>, identity: bool, u: string, v: string, n: nat) {
    HasFactoring(rules, identity, u, v, n) && forall m: nat :: HasFactoring(rules, identity, u, v, m) ==> n <= m
  }

  lemma PathHasFactoring(t: Tables, identity: bool, u: string, v: string, weight: nat)
    requires t.Valid() && HasPath(t, identity, u, v, weight)
    ensures HasFactoring(t.rules, identity, u, v, weight)
  {
    hide Walks, Factors, Tables.Valid;
    var path :| Walks(Pruned(t, identity), 0, path, u, v, weight);
    PrunedIsRaw(t, identity, 0, path, u, v, weight);
    var pieces := WalkIsFactoring(t, identity, path, u, v, weight);
  }

  lemma FactoringHasPath(t: Tables, identity: bool, u: string, v: string, cost: nat) returns (weight: nat)
    requires t.Valid() && HasFactoring(t.rules, identity, u, v, cost)
    ensures weight <= cost && HasPath(t, identity, u, v, weight)
  {
    hide Walks, Factors, Tables.Valid;
    var pieces :| Factors(t.rules, identity, pieces, u, v, cost);
    var path, w := FactoringIsWalk(t, identity, pieces, u, v, cost);
    var path', w' := RawIsPruned(t, identity, 0, path, u, v, w);
    weight := w';
  }

  /**
   For every input/output pair, the least weight of a path of the pruned transducer from the home state back to it is
   the least total cost of factoring the pair into rules and permitted copies; one exists exactly if the other does.
   */
  lemma LeastWeightIsLeastCost(t: Tables, identity: bool, u: string, v: string)
    requires t.Valid()
    ensures (exists n: nat :: HasPath(t, identity, u, v, n)) <==>
              (exists n: nat :: HasFactoring(t.rules, identity, u, v, n))
    ensures forall n: nat :: LeastPath(t, identity, u, v, n) <==> LeastFactoring(t.rules, identity, u, v, n)
  {
    hide HasPath, HasFactoring, Tables.Valid;
    forall n: nat | HasPath(t, identity, u, v, n) ensures HasFactoring(t.rules, identity, u, v, n) {
      PathHasFactoring(t, identity, u, v, n);
    }
    forall n: nat | HasFactoring(t.rules, identity, u, v, n)
      ensures exists m: nat :: m <= n && HasPath(t, identity, u, v, m)
    {
      var m := FactoringHasPath(t, identity, u, v, n);
    }
  }
}
