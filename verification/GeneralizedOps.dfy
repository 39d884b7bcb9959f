/**
 Configurable alignment operations (src/generalized_ops.rs): applicability, the budget filter with semantic
 deduplication, and the compact width slots. The filter is proved not to change which alignments exist.
 */
module GeneralizedOps {
  import opened Common

  datatype Applicability =
    | AdjacentTranspose
    | Any
    | Equal
    | Listed(pairs: set<(string, string)>)

  /** Consumes `consumeX` dictionary symbols and `consumeY` query symbols; `weight` is the exact scaled cost. */
  datatype Operation = Operation(name: string, consumeX: nat, consumeY: nat, weight: nat, applicability: Applicability)

  predicate OperationApplies(op: Operation, dict: string, query: string) {
    match op.applicability
    case AdjacentTranspose => |dict| == 2 && |query| == 2 && dict[0] == query[1] && dict[1] == query[0]
    case Any => true
    case Equal => dict == query
    case Listed(pairs) => (dict, query) in pairs
  }

  predicate SameSemantics(a: Operation, b: Operation) {
    a.consumeX == b.consumeX && a.consumeY == b.consumeY && a.weight == b.weight && a.applicability == b.applicability
  }

  // ---------------------------------------------------------------- alignments

  /** `script` aligns `term` with `query` using operations of `ops`, at total cost `cost`. */
  ghost predicate Aligns(ops: seq<Operation>, script: seq<Operation>, term: string, query: string, cost: nat)
    decreases |script|
  {
    if script == [] then term == [] && query == [] && cost == 0
    else
      var op := script[0];
      && op in ops && op.consumeX <= |term| && op.consumeY <= |query| && op.weight <= cost
      && OperationApplies(op, term[..op.consumeX], query[..op.consumeY])
      && Aligns(ops, script[1..], term[op.consumeX..], query[op.consumeY..], cost - op.weight)
  }

  ghost predicate CanAlign(ops: seq<Operation>, term: string, query: string, cost: nat) {
    exists script :: Aligns(ops, script, term, query, cost)
  }

  // ---------------------------------------------------------------- the budget filter

  predicate HasSame(bounded: seq<Operation>, op: Operation) {
    exists j :: 0 <= j < |bounded| && SameSemantics(bounded[j], op)
  }

  /** Every operation of `ops` within the budget has one of the same meaning in `bounded`. */
  ghost predicate Covers(bounded: seq<Operation>, ops: seq<Operation>, maxCost: nat) {
    forall i :: 0 <= i < |ops| && ops[i].weight <= maxCost ==> HasSame(bounded, ops[i])
  }

  ghost predicate Drawn(bounded: seq<Operation>, ops: seq<Operation>, maxCost: nat) {
    forall i :: 0 <= i < |bounded| ==> bounded[i] in ops && bounded[i].weight <= maxCost
  }

  /** `bounded` keeps, of the operations within the budget, one of each meaning. */
  ghost predicate Represents(bounded: seq<Operation>, ops: seq<Operation>, maxCost: nat) {
    && Drawn(bounded, ops, maxCost) && Covers(bounded, ops, maxCost)
    && forall i, j :: 0 <= i < j < |bounded| ==> !SameSemantics(bounded[i], bounded[j])
  }

  lemma HasSameGrows(bounded: seq<Operation>, more: seq<Operation>, op: Operation)
    requires HasSame(bounded, op)
    ensures HasSame(bounded + more, op)
  {
    var j :| 0 <= j < |bounded| && SameSemantics(bounded[j], op);
    assert (bounded + more)[j] == bounded[j];
  }

  lemma CoversStep(bounded: seq<Operation>, more: seq<Operation>, ops: seq<Operation>, maxCost: nat, op: Operation)
    requires Covers(bounded, ops, maxCost) && (op.weight <= maxCost ==> HasSame(bounded + more, op))
    ensures Covers(bounded + more, ops + [op], maxCost)
  {
    hide HasSame;
    forall i | 0 <= i < |ops + [op]| && (ops + [op])[i].weight <= maxCost
      ensures HasSame(bounded + more, (ops + [op])[i])
    {
      if i < |ops| {
        HasSameGrows(bounded, more, ops[i]);
      }
    }
  }

  lemma RepresentsStep(bounded: seq<Operation>, ops: seq<Operation>, maxCost: nat, op: Operation)
    requires Represents(bounded, ops, maxCost)
    ensures op.weight <= maxCost && !HasSame(bounded, op) ==> Represents(bounded + [op], ops + [op], maxCost)
    ensures op.weight > maxCost || HasSame(bounded, op) ==> Represents(bounded, ops + [op], maxCost)
  {
    hide Covers;
    if op.weight <= maxCost && !HasSame(bounded, op) {
      assert SameSemantics((bounded + [op])[|bounded|], op);
      CoversStep(bounded, [op], ops, maxCost, op);
    } else {
      assert bounded + [] == bounded;
      CoversStep(bounded, [], ops, maxCost, op);
    }
  }

  method BoundedOperationSet(maxCost: nat, ops: seq<Operation>) returns (bounded: seq<Operation>)
    ensures Represents(bounded, ops, maxCost) && KeepsMeanings(bounded, ops, maxCost)
  {
    bounded := [];
    for i := 0 to |ops|
      invariant Represents(bounded, ops[..i], maxCost)
    {
      hide Represents;
      RepresentsStep(bounded, ops[..i], maxCost, ops[i]);
      assert ops[..i + 1] == ops[..i] + [ops[i]];
      if ops[i].weight <= maxCost && !HasSame(bounded, ops[i]) {
        bounded := bounded + [ops[i]];
      }
    }
    assert ops[..|ops|] == ops;
    KeptMeanings(bounded, ops, maxCost);
  }

  /** Of the operations within the budget, one is kept for all that differ in nothing but their names. */
  ghost predicate KeepsMeanings(bounded: seq<Operation>, ops: seq<Operation>, maxCost: nat) {
    && (forall op :: op in ops && op.weight <= maxCost ==>
        exists kept :: kept in bounded && kept.(name := op.name) == op)
    && (forall i, j :: 0 <= i < j < |bounded| ==> bounded[i].(name := bounded[j].name) != bounded[j])
    && forall op :: op in bounded ==> op in ops && op.weight <= maxCost
  }

  lemma KeptMeanings(bounded: seq<Operation>, ops: seq<Operation>, maxCost: nat)
    requires Represents(bounded, ops, maxCost)
    ensures KeepsMeanings(bounded, ops, maxCost)
  {
    forall op | op in ops && op.weight <= maxCost
      ensures exists kept :: kept in bounded && kept.(name := op.name) == op
    {
      var i :| 0 <= i < |ops| && ops[i] == op;
      assert HasSame(bounded, ops[i]);
      var j :| 0 <= j < |bounded| && SameSemantics(bounded[j], op);
      assert bounded[j].(name := op.name) == op;
    }
    forall i, j | 0 <= i < j < |bounded| ensures bounded[i].(name := bounded[j].name) != bounded[j] {
      assert !SameSemantics(bounded[i], bounded[j]);
    }
  }

  /** Replacing operations by others of the same meaning. */
  lemma {:induction false} TransferScript(from: seq<Operation>, to: seq<Operation>, script: seq<Operation>,
                                          term: string, query: string, cost: nat, maxCost: nat)
    returns (script': seq<Operation>)
    requires Aligns(from, script, term, query, cost) && cost <= maxCost
    requires Covers(to, from, maxCost)
    ensures Aligns(to, script', term, query, cost)
    decreases |script|
  {
    if script == [] {
      script' := [];
    } else {
      var op := script[0];
      var i :| 0 <= i < |from| && from[i] == op;
      assert HasSame(to, from[i]);
      var j :| 0 <= j < |to| && SameSemantics(to[j], op);
      var b := to[j];
      var rest := TransferScript(from, to, script[1..], term[op.consumeX..], query[op.consumeY..], cost - op.weight,
                                 maxCost);
      script' := [b] + rest;
      assert script'[1..] == rest;
    }
  }

  /** Filtering and deduplicating the operation set leaves the alignments within the budget unchanged. */
  lemma BoundedSetKeepsAlignments(bounded: seq<Operation>, ops: seq<Operation>, maxCost: nat, term: string,
                                  query: string, cost: nat)
    requires Represents(bounded, ops, maxCost) && cost <= maxCost
    ensures CanAlign(bounded, term, query, cost) <==> CanAlign(ops, term, query, cost)
  {
    if CanAlign(ops, term, query, cost) {
      var script :| Aligns(ops, script, term, query, cost);
      var script' := TransferScript(ops, bounded, script, term, query, cost, maxCost);
    }
    if CanAlign(bounded, term, query, cost) {
      var script :| Aligns(bounded, script, term, query, cost);
      forall i | 0 <= i < |bounded| && bounded[i].weight <= maxCost ensures HasSame(ops, bounded[i]) {
        var j :| 0 <= j < |ops| && ops[j] == bounded[i];
        assert SameSemantics(ops[j], bounded[i]);
      }
      var script' := TransferScript(bounded, ops, script, term, query, cost, maxCost);
    }
  }

  // ---------------------------------------------------------------- width slots

  datatype Prepared = Prepared(index: nat, op: Operation, sourceSlot: nat, querySlot: nat)

  /** Slots coincide exactly when widths coincide, and are dense. */
  ghost predicate SlotsFaithful(prepared: seq<Prepared>) {
    && (forall i, j :: 0 <= i < |prepared| && 0 <= j < |prepared| ==>
          (prepared[i].sourceSlot == prepared[j].sourceSlot <==> prepared[i].op.consumeX == prepared[j].op.consumeX))
    && (forall i, j :: 0 <= i < |prepared| && 0 <= j < |prepared| ==>
          (prepared[i].querySlot == prepared[j].querySlot <==> prepared[i].op.consumeY == prepared[j].op.consumeY))
  }

  /** A partial assignment of consecutive slots to widths. */
  ghost predicate SlotTable(slots: map<nat, nat>, count: nat) {
    && (forall w :: w in slots ==> slots[w] < count)
    && (forall w, v :: w in slots && v in slots && slots[w] == slots[v] ==> w == v)
  }

  method PrepareOperations(ops: seq<Operation>) returns (prepared: seq<Prepared>)
    ensures |prepared| == |ops| && SlotsFaithful(prepared)
    ensures forall i :: 0 <= i < |ops| ==> prepared[i].index == i && prepared[i].op == ops[i]
    ensures forall i :: 0 <= i < |prepared| ==>
              prepared[i].sourceSlot < |prepared| && prepared[i].querySlot < |prepared|
  {
    prepared := [];
    var sourceSlots: map<nat, nat>, querySlots: map<nat, nat> := map[], map[];
    var sourceCount, queryCount := 0, 0;
    for i := 0 to |ops|
      invariant |prepared| == i && sourceCount <= i && queryCount <= i
      invariant SlotTable(sourceSlots, sourceCount) && SlotTable(querySlots, queryCount)
      invariant forall j :: 0 <= j < i ==> prepared[j].index == j && prepared[j].op == ops[j]
      invariant forall j :: 0 <= j < i ==>
                  ops[j].consumeX in sourceSlots && prepared[j].sourceSlot == sourceSlots[ops[j].consumeX]
      invariant forall j :: 0 <= j < i ==>
                  ops[j].consumeY in querySlots && prepared[j].querySlot == querySlots[ops[j].consumeY]
    {
      var op := ops[i];
      if op.consumeX !in sourceSlots {
        sourceSlots := sourceSlots[op.consumeX := sourceCount];
        sourceCount := sourceCount + 1;
      }
      if op.consumeY !in querySlots {
        querySlots := querySlots[op.consumeY := queryCount];
        queryCount := queryCount + 1;
      }
      prepared := prepared + [Prepared(i, op, sourceSlots[op.consumeX], querySlots[op.consumeY])];
    }
  }
}
