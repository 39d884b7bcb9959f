/**
 What the alignment operations mean: the usual edit operations, given as a configurable set, cost exactly the edit
 distance, and a listed operation stands for its pairs alone.
 */
module GeneralizedLevenshtein {
  import opened Common
  import opened LevenshteinCodec
  import opened GeneralizedOps
  import ED = EditDistance

  const MATCH := Operation("match", 1, 1, 0, Equal)
  const SUBSTITUTE := Operation("substitute", 1, 1, 1, Any)
  const INSERT := Operation("insert", 1, 0, 1, Any)
  const DELETE := Operation("delete", 0, 1, 1, Any)
  const TRANSPOSE := Operation("transpose", 2, 2, 1, AdjacentTranspose)
  const MERGE := Operation("merge", 1, 2, 1, Any)
  const SPLIT := Operation("split", 2, 1, 1, Any)

  /** The edit operations of an algorithm as an operation set. */
  function EditOperations(a: Algorithm): seq<Operation> {
    [MATCH, SUBSTITUTE, INSERT, DELETE] + (if a.transposition then [TRANSPOSE] else []) +
    (if a.mergeSplit then [MERGE, SPLIT] else [])
  }

  function OperationOf(e: ED.Edit): Operation {
    match e
    case Match => MATCH
    case Substitute => SUBSTITUTE
    case Insert => INSERT
    case Delete => DELETE
    case Transpose => TRANSPOSE
    case Merge => MERGE
    case Split => SPLIT
  }

  /** Every edit is one application of its operation. */
  lemma EditApplies(e: ED.Edit, query: string, term: string, a: Algorithm)
    requires ED.Applies(e, query, term, a)
    ensures var op := OperationOf(e);
            && op in EditOperations(a) && op.consumeX == ED.TakesTerm(e) <= |term| && op.weight == ED.EditCost(e)
            && op.consumeY == ED.TakesQuery(e) <= |query|
            && OperationApplies(op, term[..op.consumeX], query[..op.consumeY])
  {
    if e == ED.Match { assert term[..1] == [term[0]] && query[..1] == [query[0]]; }
  }

  /** An alignment by edits is one by their operations, at the same cost. */
  lemma {:induction false} EditsAlign(edits: seq<ED.Edit>, query: string, term: string, a: Algorithm, cost: nat)
    returns (script: seq<Operation>)
    requires ED.Aligns(edits, query, term, a, cost)
    ensures Aligns(EditOperations(a), script, term, query, cost)
    decreases |edits|
  {
    hide EditOperations, ED.Applies;
    if edits == [] {
      script := [];
    } else {
      var e := edits[0];
      EditApplies(e, query, term, a);
      var rest := EditsAlign(edits[1..], query[ED.TakesQuery(e)..], term[ED.TakesTerm(e)..], a, cost - ED.EditCost(e));
      script := [OperationOf(e)] + rest;
      assert script[1..] == rest;
    }
  }

  /** No application of an operation of the set beats the distance. */
  lemma {:induction false} OperationPays(op: Operation, query: string, term: string, a: Algorithm)
    requires op in EditOperations(a) && op.consumeX <= |term| && op.consumeY <= |query|
    requires OperationApplies(op, term[..op.consumeX], query[..op.consumeY])
    ensures ED.Distance(query, term, a) <= op.weight + ED.Distance(query[op.consumeY..], term[op.consumeX..], a)
  {
    hide ED.Distance;
    if op == MATCH || op == SUBSTITUTE {
      SymbolPays(op, query, term, a);
    } else if op == TRANSPOSE {
      SwapPays(query, term, a);
    } else if op == INSERT {
      ED.NoEditBeats(ED.Insert, query, term, a);
    } else if op == DELETE {
      ED.NoEditBeats(ED.Delete, query, term, a);
    } else if op == MERGE {
      ED.NoEditBeats(ED.Merge, query, term, a);
    } else {
      ED.NoEditBeats(ED.Split, query, term, a);
    }
  }

  lemma {:induction false} SymbolPays(op: Operation, query: string, term: string, a: Algorithm)
    requires (op == MATCH || op == SUBSTITUTE) && query != [] && term != []
    requires OperationApplies(op, term[..1], query[..1])
    ensures ED.Distance(query, term, a) <= op.weight + ED.Distance(query[1..], term[1..], a)
  {
    hide ED.Distance;
    assert term[..1] == [term[0]] && query[..1] == [query[0]];
    ED.NoEditBeats(if term[0] == query[0] then ED.Match else ED.Substitute, query, term, a);
  }

  lemma {:induction false} SwapPays(query: string, term: string, a: Algorithm)
    requires a.transposition && |query| >= 2 && |term| >= 2 && OperationApplies(TRANSPOSE, term[..2], query[..2])
    ensures ED.Distance(query, term, a) <= 1 + ED.Distance(query[2..], term[2..], a)
  {
    hide ED.Distance;
    assert term[..2] == [term[0], term[1]] && query[..2] == [query[0], query[1]];
    if query[0] == query[1] {
      ED.TwoMatches(query, term, a);
    } else {
      ED.NoEditBeats(ED.Transpose, query, term, a);
    }
  }

  lemma {:induction false} ScriptPays(script: seq<Operation>, query: string, term: string, a: Algorithm, cost: nat)
    requires Aligns(EditOperations(a), script, term, query, cost)
    ensures ED.Distance(query, term, a) <= cost
    decreases |script|
  {
    hide EditOperations, OperationApplies;
    if script == [] {
      assert ED.Distance([], [], a) == 0;
    } else {
      hide ED.Distance;
      var op := script[0];
      ScriptPays(script[1..], query[op.consumeY..], term[op.consumeX..], a, cost - op.weight);
      OperationPays(op, query, term, a);
    }
  }

  /** With the edit operations of an algorithm, the least alignment cost is its edit distance. */
  lemma {:induction false} LeastCostIsDistance(query: string, term: string, a: Algorithm)
    ensures CanAlign(EditOperations(a), term, query, ED.Distance(query, term, a))
    ensures forall cost: nat :: CanAlign(EditOperations(a), term, query, cost) ==> ED.Distance(query, term, a) <= cost
  {
    hide ED.Distance, EditOperations, Aligns;
    var edits := ED.DistanceIsAttained(query, term, a);
    var script := EditsAlign(edits, query, term, a, ED.Distance(query, term, a));
    forall cost: nat | CanAlign(EditOperations(a), term, query, cost) ensures ED.Distance(query, term, a) <= cost {
      var other :| Aligns(EditOperations(a), other, term, query, cost);
      ScriptPays(other, query, term, a, cost);
    }
  }

  /**
   What one application aligns: an equality copies, an unrestricted one replaces anything, a transposition swaps two
   symbols, a listed one stands for its pairs of term and query alone; always at the operation's widths.
   */
  lemma {:induction false} OperationAlone(op: Operation, term: string, query: string)
    ensures Aligns([op], [op], term, query, op.weight) <==>
              && |term| == op.consumeX && |query| == op.consumeY
              && (op.applicability.Equal? ==> term == query)
              && (op.applicability.AdjacentTranspose? ==> exists x, y :: term == [x, y] && query == [y, x])
              && (op.applicability.Listed? ==> (term, query) in op.applicability.pairs)
  {
    if |term| == op.consumeX && |query| == op.consumeY {
      assert term[..op.consumeX] == term && query[..op.consumeY] == query;
      if |term| == 2 && |query| == 2 {
        assert term == [term[0], term[1]] && query == [query[0], query[1]];
      }
    }
  }
}
