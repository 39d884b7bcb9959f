/** The optimal-alignment recurrence that the Levenshtein product must realise. */
module EditDistance {
  import opened Common
  import opened LevenshteinCodec

  /**
   Least cost of turning `q` into `w` with match 0 and substitute, insert, delete 1, plus, when enabled,
   adjacent swap, two-to-one merge and one-to-two split, each at cost 1.
   */
  ghost function Distance(q: string, w: string, a: Algorithm): nat
    decreases |q| + |w|, 1
  {
    if q == [] then |w|
    else if w == [] then |q|
    else Min(SingleSymbol(q, w, a), TwoSymbol(q, w, a))
  }

  /** Best alignment that starts with match, substitute, delete or insert. */
  ghost function SingleSymbol(q: string, w: string, a: Algorithm): nat
    requires q != [] && w != []
    decreases |q| + |w|, 0
  {
    Min(Distance(q[1..], w[1..], a) + (if q[0] == w[0] then 0 else 1),
        1 + Min(Distance(q[1..], w, a), Distance(q, w[1..], a)))
  }

  /** Best alignment that starts with swap, merge or split (deletion stands in where none is enabled). */
  ghost function TwoSymbol(q: string, w: string, a: Algorithm): nat
    requires q != [] && w != []
    decreases |q| + |w|, 0
  {
    var fallback := 1 + Distance(q[1..], w, a);
    var swap := if a.transposition && CanSwap(q, w) then 1 + Distance(q[2..], w[2..], a) else fallback;
    var merge := if a.mergeSplit && |q| >= 2 then 1 + Distance(q[2..], w[1..], a) else fallback;
    var split := if a.mergeSplit && |w| >= 2 then 1 + Distance(q[1..], w[2..], a) else fallback;
    Min(swap, Min(merge, split))
  }

  predicate CanSwap(q: string, w: string) {
    |q| >= 2 && |w| >= 2 && q[0] == w[1] && q[1] == w[0]
  }

  /** The alignment operations: how many symbols each takes from either side, and its cost. */
  datatype Edit = Match | Substitute | Insert | Delete | Transpose | Merge | Split

  function TakesQuery(e: Edit): nat {
    match e
    case Insert => 0
    case Transpose => 2
    case Merge => 2
    case _ => 1
  }

  function TakesTerm(e: Edit): nat {
    match e
    case Delete => 0
    case Transpose => 2
    case Split => 2
    case _ => 1
  }

  function EditCost(e: Edit): nat { if e == Match then 0 else 1 }

  /** `e` may be the first operation of an alignment of `q` with `w`. */
  predicate Applies(e: Edit, q: string, w: string, a: Algorithm) {
    && TakesQuery(e) <= |q| && TakesTerm(e) <= |w|
    && match e
       case Match => q[0] == w[0]
       case Substitute => q[0] != w[0]
       case Transpose => a.transposition && q[0] != q[1] && q[0] == w[1] && q[1] == w[0]
       case Merge => a.mergeSplit
       case Split => a.mergeSplit
       case Insert => true
       case Delete => true
  }

  ghost function After(e: Edit, q: string, w: string, a: Algorithm): nat
    requires Applies(e, q, w, a)
  {
    EditCost(e) + Distance(q[TakesQuery(e)..], w[TakesTerm(e)..], a)
  }

  /** No operation beats the recurrence. */
  lemma {:induction false} NoEditBeats(e: Edit, q: string, w: string, a: Algorithm)
    requires Applies(e, q, w, a)
    ensures Distance(q, w, a) <= After(e, q, w, a)
  {
    match e
    case Delete => if w == [] { assert Distance(q[1..], w, a) == |q| - 1; }
    case Insert => if q == [] { assert Distance(q, w[1..], a) == |w| - 1; }
    case _ =>
  }

  /** While `w` is not exhausted, some operation attains it. */
  lemma {:induction false} SomeEditAttains(q: string, w: string, a: Algorithm) returns (e: Edit)
    requires w != []
    ensures Applies(e, q, w, a) && Distance(q, w, a) == After(e, q, w, a)
  {
    if q == [] {
      e := Insert;
    } else if Distance(q, w, a) == SingleSymbol(q, w, a) {
      e := if SingleSymbol(q, w, a) == 1 + Distance(q[1..], w, a) then Delete
           else if SingleSymbol(q, w, a) == 1 + Distance(q, w[1..], a) then Insert
           else if q[0] == w[0] then Match else Substitute;
    } else {
      e := SomeTwoSymbolEdit(q, w, a);
    }
  }

  lemma {:induction false} SomeTwoSymbolEdit(q: string, w: string, a: Algorithm) returns (e: Edit)
    requires q != [] && w != [] && Distance(q, w, a) != SingleSymbol(q, w, a)
    ensures Applies(e, q, w, a) && Distance(q, w, a) == After(e, q, w, a)
  {
    assert Distance(q, w, a) == TwoSymbol(q, w, a) < SingleSymbol(q, w, a) <= 1 + Distance(q[1..], w, a);
    if a.mergeSplit && |q| >= 2 && TwoSymbol(q, w, a) == 1 + Distance(q[2..], w[1..], a) {
      e := Merge;
    } else if a.mergeSplit && |w| >= 2 && TwoSymbol(q, w, a) == 1 + Distance(q[1..], w[2..], a) {
      e := Split;
    } else {
      e := Transpose;
      SwapOfDistinct(q, w, a);
    }
  }

  /** A swap of two equal symbols never helps: two matches are cheaper. */
  lemma {:induction false} SwapOfDistinct(q: string, w: string, a: Algorithm)
    requires CanSwap(q, w) && Distance(q, w, a) == 1 + Distance(q[2..], w[2..], a)
    ensures q[0] != q[1]
  {
    if q[0] == q[1] {
      TwoMatches(q, w, a);
    }
  }

  lemma {:induction false} TwoMatches(q: string, w: string, a: Algorithm)
    requires |q| >= 2 && |w| >= 2 && q[..2] == w[..2]
    ensures Distance(q, w, a) <= Distance(q[2..], w[2..], a)
  {
    assert q[0] == q[..2][0] == w[..2][0] == w[0] && q[1] == q[..2][1] == w[..2][1] == w[1];
    assert q[1..][1..] == q[2..] && w[1..][1..] == w[2..];
    NoEditBeats(Match, q[1..], w[1..], a);
    NoEditBeats(Match, q, w, a);
  }

  /** Total cost of a sequence of operations that consumes both strings. */
  ghost predicate Aligns(edits: seq<Edit>, q: string, w: string, a: Algorithm, cost: nat)
    decreases |edits|
  {
    if edits == [] then q == [] && w == [] && cost == 0
    else
      var e := edits[0];
      && Applies(e, q, w, a) && EditCost(e) <= cost
      && Aligns(edits[1..], q[TakesQuery(e)..], w[TakesTerm(e)..], a, cost - EditCost(e))
  }

  ghost predicate CanAlign(q: string, w: string, a: Algorithm, cost: nat) {
    exists edits :: Aligns(edits, q, w, a, cost)
  }

  /** The recurrence is the least alignment cost: a lower bound ... */
  lemma {:induction false} DistanceIsLowerBound(edits: seq<Edit>, q: string, w: string, a: Algorithm, cost: nat)
    requires Aligns(edits, q, w, a, cost)
    ensures Distance(q, w, a) <= cost
    decreases |edits|
  {
    if edits != [] {
      var e := edits[0];
      DistanceIsLowerBound(edits[1..], q[TakesQuery(e)..], w[TakesTerm(e)..], a, cost - EditCost(e));
      NoEditBeats(e, q, w, a);
    }
  }

  /** ... that some alignment attains. */
  lemma {:induction false} DistanceIsAttained(q: string, w: string, a: Algorithm) returns (edits: seq<Edit>)
    ensures Aligns(edits, q, w, a, Distance(q, w, a))
    decreases |q| + |w|
  {
    if q == [] && w == [] {
      edits := [];
    } else {
      var e: Edit;
      if w == [] {
        e := Delete;
        assert Distance(q, w, a) == After(e, q, w, a);
      } else {
        e := SomeEditAttains(q, w, a);
      }
      var rest := DistanceIsAttained(q[TakesQuery(e)..], w[TakesTerm(e)..], a);
      edits := [e] + rest;
      assert edits[1..] == rest;
    }
  }
}
