/**
 Rule tables of the rewrite transducer: bulk construction (`from_rules` in src/phonetic_rewrite_support.rs) and one rule
 at a time (`append_validated_rule` in src/phonetic_rewrite_wfst.rs), and the continuation states they number.
 */
module RewriteTables {
  import opened Common

  datatype Rule = Rule(input: string, output: string, cost: nat, priority: int) {
    /** One step per label pair; the shorter side is padded with epsilon. */
    function Steps(): nat { if |input| < |output| then |output| else |input| }
  }

  /** Step `step` of rule `rule` is next. */
  datatype Continuation = Continuation(rule: nat, step: nat)

  // ---------------------------------------------------------------- the tables as functions of the rules

  function ContinuationsOf(rule: nat, steps: nat): (r: seq<Continuation>)
    ensures |r| == if steps == 0 then 0 else steps - 1
  {
    seq(if steps == 0 then 0 else steps - 1, k requires 0 <= k => Continuation(rule, k + 1))
  }

  /** All continuations, rule by rule; state `n` is entry `n - 1`. */
  function Lookup(rules: seq<Rule>): seq<Continuation> {
    if rules == [] then []
    else Lookup(rules[..|rules| - 1]) + ContinuationsOf(|rules| - 1, rules[|rules| - 1].Steps())
  }

  /** The number of continuations up to and including each rule. */
  function EndOffsets(rules: seq<Rule>): (r: seq<nat>)
    ensures |r| == |rules|
  {
    if rules == [] then [] else EndOffsets(rules[..|rules| - 1]) + [|Lookup(rules)|]
  }

  /** Higher priority first, then insertion order. */
  predicate Before(rules: seq<Rule>, a: nat, b: nat)
    requires a < |rules| && b < |rules|
  {
    rules[a].priority > rules[b].priority || (rules[a].priority == rules[b].priority && a < b)
  }

  ghost predicate InOrder(rules: seq<Rule>, order: seq<nat>) {
    && (forall i :: 0 <= i < |order| ==> order[i] < |rules|)
    && forall i, j :: 0 <= i < j < |order| ==> Before(rules, order[i], order[j])
  }

  /** `order` lists every rule once, in priority order. */
  ghost predicate IsPriorityOrder(rules: seq<Rule>, order: seq<nat>) {
    InOrder(rules, order) && forall k :: 0 <= k < |rules| ==> k in order
  }

  /** Every rule once: priorities never rise, and rules of one priority keep the order in which they were added. */
  ghost predicate ByPriority(rules: seq<Rule>, order: seq<nat>) {
    && Distinct(order) && (forall k :: k in order <==> 0 <= k < |rules|)
    && forall i, j :: 0 <= i < j < |order| && order[i] < |rules| && order[j] < |rules| ==>
         && rules[order[i]].priority >= rules[order[j]].priority
         && (rules[order[i]].priority == rules[order[j]].priority ==> order[i] < order[j])
  }

  lemma {:induction false} OrderByPriority(rules: seq<Rule>, order: seq<nat>)
    requires IsPriorityOrder(rules, order)
    ensures ByPriority(rules, order)
  {
    forall i, j | 0 <= i < j < |order|
      ensures rules[order[i]].priority >= rules[order[j]].priority && order[i] != order[j]
      ensures rules[order[i]].priority == rules[order[j]].priority ==> order[i] < order[j]
    {
      assert Before(rules, order[i], order[j]);
    }
    forall k ensures k in order <==> 0 <= k < |rules| {
    }
  }

  /** There is only one such order. */
  lemma {:induction false} OrderUnique(rules: seq<Rule>, a: seq<nat>, b: seq<nat>)
    requires InOrder(rules, a) && InOrder(rules, b) && forall k :: k in a <==> k in b
    ensures a == b
    decreases |a|
  {
    assert b != [] ==> b[0] in b;
    if a != [] {
      assert a[0] in b;
      assert b[0] in a;
      assert a[0] == b[0];
      forall k ensures k in a[1..] <==> k in b[1..] {
        assert k in a <==> k == a[0] || k in a[1..];
        assert k in b <==> k == b[0] || k in b[1..];
        if k == a[0] {
          assert k !in a[1..] && k !in b[1..];
        }
      }
      OrderUnique(rules, a[1..], b[1..]);
    }
  }

  // ---------------------------------------------------------------- numbering continuations

  /** `continuation_start`. */
  function Start(rules: seq<Rule>, i: nat): nat
    requires i <= |rules|
  {
    if i == 0 then 0 else EndOffsets(rules)[i - 1]
  }

  lemma {:induction false} StartIsPrefix(rules: seq<Rule>, i: nat)
    requires i <= |rules|
    ensures Start(rules, i) == |Lookup(rules[..i])|
    decreases |rules|
  {
    if i == |rules| {
      assert rules[..i] == rules;
    } else {
      var init := rules[..|rules| - 1];
      StartIsPrefix(init, i);
      assert init[..i] == rules[..i];
    }
  }

  lemma {:induction false} LookupPrefix(rules: seq<Rule>, i: nat)
    requires i <= |rules|
    ensures Lookup(rules[..i]) <= Lookup(rules)
    decreases |rules|
  {
    if i == |rules| {
      assert rules[..i] == rules;
    } else {
      LookupPrefix(rules[..|rules| - 1], i);
      assert rules[..|rules| - 1][..i] == rules[..i];
    }
  }

  /** Encoding a continuation and looking it up are inverse: distinct continuations have distinct states. */
  lemma {:induction false} ContinuationRoundTrip(rules: seq<Rule>, i: nat, step: nat)
    requires i < |rules| && 1 <= step < rules[i].Steps()
    ensures var state := Start(rules, i) + step;
            state <= |Lookup(rules)| && Lookup(rules)[state - 1] == Continuation(i, step)
  {
    StartIsPrefix(rules, i);
    LookupPrefix(rules, i + 1);
    assert rules[..i + 1][..i] == rules[..i];
    var upTo := Lookup(rules[..i + 1]);
    assert upTo == Lookup(rules[..i]) + ContinuationsOf(i, rules[i].Steps());
    assert Lookup(rules)[..|upTo|] == upTo;
    var state := Start(rules, i) + step;
    assert Lookup(rules)[state - 1] == upTo[state - 1];
  }

  /** Every numbered state is some rule's continuation, and encodes back to its number. */
  lemma {:induction false} StateRoundTrip(rules: seq<Rule>, state: nat)
    requires 1 <= state <= |Lookup(rules)|
    ensures var c := Lookup(rules)[state - 1];
            c.rule < |rules| && 1 <= c.step < rules[c.rule].Steps() && Start(rules, c.rule) + c.step == state
    decreases |rules|
  {
    var init := rules[..|rules| - 1];
    if state <= |Lookup(init)| {
      StateRoundTrip(init, state);
      var c := Lookup(init)[state - 1];
      StartIsPrefix(init, c.rule);
      StartIsPrefix(rules, c.rule);
      assert init[..c.rule] == rules[..c.rule];
    } else {
      StartIsPrefix(rules, |rules| - 1);
    }
  }

  // ---------------------------------------------------------------- building the tables

  datatype Tables = Tables(rules: seq<Rule>, order: seq<nat>, endOffsets: seq<nat>, lookup: seq<Continuation>) {
    /** The tables are those of the rules. */
    ghost predicate Valid() {
      IsPriorityOrder(rules, order) && endOffsets == EndOffsets(rules) && lookup == Lookup(rules)
    }
  }

  /** Tables of the same rules are the same tables. */
  lemma TablesUnique(a: Tables, b: Tables)
    requires a.Valid() && b.Valid() && a.rules == b.rules
    ensures a == b
  {
    forall k ensures k in a.order <==> k in b.order {
    }
    OrderUnique(a.rules, a.order, b.order);
  }

  /** The continuations of one more rule. */
  method PushContinuations(lookup: seq<Continuation>, rule: nat, steps: nat) returns (lookup': seq<Continuation>)
    ensures lookup' == lookup + ContinuationsOf(rule, steps)
  {
    lookup' := lookup;
    var step := 1;
    while step < steps
      invariant 1 <= step && (steps == 0 || step <= steps || step == 1)
      invariant lookup' == lookup + ContinuationsOf(rule, steps)[..if steps == 0 then 0 else step - 1]
      decreases steps - step
    {
      lookup' := lookup' + [Continuation(rule, step)];
      step := step + 1;
    }
  }

  /** `PreparedRuleMetadata::from_rules`. */
  method FromRules(rules: seq<Rule>) returns (t: Tables)
    ensures t.Valid() && t.rules == rules && ByPriority(rules, t.order)
  {
    var lookup, endOffsets := [], [];
    for i := 0 to |rules|
      invariant lookup == Lookup(rules[..i]) && endOffsets == EndOffsets(rules[..i])
    {
      assert rules[..i + 1][..i] == rules[..i];
      lookup := PushContinuations(lookup, i, rules[i].Steps());
      endOffsets := endOffsets + [|lookup|];
    }
    assert rules[..|rules|] == rules;
    var order := SortByPriority(rules);
    OrderByPriority(rules, order);
    t := Tables(rules, order, endOffsets, lookup);
  }

  /** `sort_by` with the priority comparison, as an insertion sort. */
  method SortByPriority(rules: seq<Rule>) returns (order: seq<nat>)
    ensures IsPriorityOrder(rules, order)
  {
    order := [];
    for i := 0 to |rules|
      invariant InOrder(rules, order) && forall k :: k in order <==> 0 <= k < i
    {
      var at := PartitionPoint(rules, order, i);
      InsertKeepsOrder(rules, order, i, at);
      order := order[..at] + [i] + order[at..];
    }
  }

  /** The first position whose rule does not come before rule `r`, by bisection. */
  method PartitionPoint(rules: seq<Rule>, order: seq<nat>, r: nat) returns (at: nat)
    requires r < |rules| && InOrder(rules, order)
    ensures at <= |order| && (forall i :: 0 <= i < at ==> Before(rules, order[i], r))
    ensures forall i :: at <= i < |order| ==> !Before(rules, order[i], r)
    ensures forall i :: 0 <= i < at ==>
              && rules[order[i]].priority >= rules[r].priority
              && (rules[order[i]].priority == rules[r].priority ==> order[i] < r)
    ensures forall i :: at <= i < |order| ==>
              && rules[order[i]].priority <= rules[r].priority
              && (rules[order[i]].priority == rules[r].priority ==> order[i] >= r)
  {
    var lo: nat, hi: nat := 0, |order|;
    while lo < hi
      invariant lo <= hi <= |order|
      invariant forall i :: 0 <= i < lo ==> Before(rules, order[i], r)
      invariant forall i :: hi <= i < |order| ==> !Before(rules, order[i], r)
    {
      var mid := (lo + hi) / 2;
      if Before(rules, order[mid], r) {
        forall i | 0 <= i < mid ensures Before(rules, order[i], r) { assert Before(rules, order[i], order[mid]); }
        lo := mid + 1;
      } else {
        forall i | mid < i < |order| ensures !Before(rules, order[i], r) { assert Before(rules, order[mid], order[i]); }
        hi := mid;
      }
    }
    at := lo;
  }

  lemma InsertKeepsOrder(rules: seq<Rule>, order: seq<nat>, r: nat, at: nat)
    requires r < |rules| && InOrder(rules, order) && at <= |order| && r !in order
    requires forall i :: 0 <= i < at ==> Before(rules, order[i], r)
    requires forall i :: at <= i < |order| ==> !Before(rules, order[i], r)
    ensures InOrder(rules, order[..at] + [r] + order[at..])
    ensures forall k :: k in order[..at] + [r] + order[at..] <==> k in order || k == r
  {
    var longer := order[..at] + [r] + order[at..];
    InsertMembers(order, r, at);
    forall i | 0 <= i < |longer| ensures longer[i] < |rules| { assert longer[i] in longer; }
    forall i, j | 0 <= i < j < |longer| ensures Before(rules, longer[i], longer[j]) {
      if i == at {
        assert longer[j] == order[j - 1] && order[j - 1] != r;
      } else if i > at {
        assert longer[i] == order[i - 1] && longer[j] == order[j - 1];
      } else {
        assert longer[i] == order[i] && (j > at ==> longer[j] == order[j - 1]);
      }
    }
  }

  lemma InsertMembers(order: seq<nat>, r: nat, at: nat)
    requires at <= |order|
    ensures forall k :: k in order[..at] + [r] + order[at..] <==> k in order || k == r
  {
    assert order == order[..at] + order[at..];
  }

  /** Rules added later do not change how earlier rules compare. */
  lemma OrderGrows(rules: seq<Rule>, rule: Rule, order: seq<nat>)
    requires InOrder(rules, order)
    ensures InOrder(rules + [rule], order)
  {
    forall i, j | 0 <= i < j < |order| ensures Before(rules + [rule], order[i], order[j]) {
      assert Before(rules, order[i], order[j]);
    }
  }

  /** `append_validated_rule`: the same tables as a bulk construction of the longer rule list. */
  method AppendRule(t: Tables, rule: Rule) returns (t': Tables)
    requires t.Valid()
    ensures t'.Valid() && t'.rules == t.rules + [rule] && ByPriority(t'.rules, t'.order)
  {
    var index := |t.rules|;
    var rules := t.rules + [rule];
    assert rules[..index] == t.rules;
    var lookup := PushContinuations(t.lookup, index, rule.Steps());
    OrderGrows(t.rules, rule, t.order);
    var at := PartitionPoint(rules, t.order, index);
    InsertKeepsOrder(rules, t.order, index, at);
    t' := Tables(rules, t.order[..at] + [index] + t.order[at..], t.endOffsets + [|lookup|], lookup);
    OrderByPriority(rules, t'.order);
  }

  /** Adding rules one by one builds the tables of the bulk construction. */
  method AppendAll(rules: seq<Rule>) returns (t: Tables, bulk: Tables)
    ensures t == bulk && t.Valid() && t.rules == rules
  {
    t := Tables([], [], [], []);
    for i := 0 to |rules|
      invariant t.Valid() && t.rules == rules[..i]
    {
      t := AppendRule(t, rules[i]);
    }
    assert rules[..|rules|] == rules;
    bulk := FromRules(rules);
    TablesUnique(t, bulk);
  }
}
