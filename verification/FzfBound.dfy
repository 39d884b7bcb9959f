/**
 What the fzf recurrence promises: matches are exactly subsequences, and the prefix bound of src/fzf_support.rs
 dominates the score of every completion that fits the candidate-length limit.
 */
module FzfBound {
  import opened Common
  import opened FzfCore

  // ---------------------------------------------------------------- matching is being a subsequence

  /** `idx` embeds `a` into `b` at increasing positions. */
  ghost predicate Embeds(a: string, b: string, idx: seq<nat>) {
    && |idx| == |a|
    && (forall j :: 0 <= j < |idx| ==> idx[j] < |b| && b[idx[j]] == a[j])
    && (forall i, j :: 0 <= i < j < |idx| ==> idx[i] < idx[j])
  }

  ghost predicate Subsequence(a: string, b: string) { exists idx :: Embeds(a, b, idx) }

  function FoldAll(core: Core, candidate: string): (r: string)
    ensures |r| == |candidate| && forall i :: 0 <= i < |r| ==> r[i] == core.fold(candidate[i])
  {
    seq(|candidate|, i requires 0 <= i < |candidate| => core.fold(candidate[i]))
  }

  lemma NotInEmpty(a: string)
    requires a != []
    ensures !Subsequence(a, [])
  {
    forall idx: seq<nat> ensures !Embeds(a, [], idx) {
      assert |idx| > 0 ==> !(idx[0] < 0);
    }
  }

  /** Subsequences of a longer string: already one before, or the last symbols meet. */
  lemma SubsequenceSnoc(a: string, b: string, c: char)
    ensures a != [] ==> (Subsequence(a, b + [c]) <==>
              Subsequence(a, b) || (a[|a| - 1] == c && Subsequence(a[..|a| - 1], b)))
    ensures a == [] ==> Subsequence(a, b)
  {
    if a == [] {
      assert Embeds(a, b, []);
    } else {
      var init := a[..|a| - 1];
      if Subsequence(a, b + [c]) {
        var idx: seq<nat> :| Embeds(a, b + [c], idx);
        var last := idx[|idx| - 1];
        if last < |b| {
          assert Embeds(a, b, idx);
        } else {
          assert Embeds(init, b, idx[..|idx| - 1]);
        }
      }
      if Subsequence(a, b) {
        var idx: seq<nat> :| Embeds(a, b, idx);
        assert Embeds(a, b + [c], idx);
      }
      if a[|a| - 1] == c && Subsequence(init, b) {
        var idx: seq<nat> :| Embeds(init, b, idx);
        assert Embeds(a, b + [c], idx + [|b|]);
      }
    }
  }

  /** Cell `i` is reachable exactly when the first `i + 1` query symbols are a subsequence of the candidate. */
  lemma {:induction false} ReachableIffSubsequence(core: Core, candidate: string, i: nat)
    requires i < |core.query|
    ensures ColumnOf(core, candidate).cells[i].reachable <==> Subsequence(core.query[..i + 1], FoldAll(core, candidate))
    decreases |candidate|, i
  {
    var prefix := core.query[..i + 1];
    if candidate == [] {
      NotInEmpty(prefix);
    } else {
      var init, c := candidate[..|candidate| - 1], candidate[|candidate| - 1];
      assert candidate == init + [c];
      assert FoldAll(core, candidate) == FoldAll(core, init) + [core.fold(c)];
      FoldSnoc(core, init, c);
      SubsequenceSnoc(prefix, FoldAll(core, init), core.fold(c));
      assert prefix[..i] == core.query[..i] && prefix[i] == core.query[i];
      ReachableIffSubsequence(core, init, i);
      if i > 0 {
        ReachableIffSubsequence(core, init, i - 1);
        assert core.query[..i - 1 + 1] == core.query[..i];
      } else {
        SubsequenceSnoc(prefix[..0], FoldAll(core, init), core.fold(c));
      }
    }
  }

  /** Cells only ever become reachable. */
  lemma SubsequenceGrows(a: string, b: string, c: char)
    requires Subsequence(a, b)
    ensures Subsequence(a, b + [c])
  {
    SubsequenceSnoc(a, b, c);
    if a == [] { assert Embeds(a, b + [c], []); }
  }

  /** A score exists exactly when the query is a subsequence of the folded candidate. */
  lemma {:induction false} ScoredIffSubsequence(core: Core, candidate: string)
    ensures ColumnOf(core, candidate).best.Some? <==> Subsequence(core.query, FoldAll(core, candidate))
    decreases |candidate|
  {
    var n := |core.query|;
    if candidate == [] {
      if core.query == [] {
        assert Embeds([], FoldAll(core, candidate), []);
      } else {
        NotInEmpty(core.query);
      }
    } else {
      var init, c := candidate[..|candidate| - 1], candidate[|candidate| - 1];
      assert candidate == init + [c];
      assert FoldAll(core, candidate) == FoldAll(core, init) + [core.fold(c)];
      FoldSnoc(core, init, c);
      ScoredIffSubsequence(core, init);
      if Subsequence(core.query, FoldAll(core, init)) {
        SubsequenceGrows(core.query, FoldAll(core, init), core.fold(c));
      } else if n > 0 {
        ReachableIffSubsequence(core, candidate, n - 1);
        assert core.query[..n - 1 + 1] == core.query;
      } else {
        assert Embeds(core.query, FoldAll(core, init), []);
      }
    }
  }

  // ---------------------------------------------------------------- sane columns

  /** Scores are non-negative `i32`s and bonuses stay within the scheme's maximum. */
  ghost predicate SaneCell(core: Core, cell: Cell) {
    0 <= cell.score <= I32_MAX && 0 <= cell.firstBonus <= core.MaxBonus()
  }

  ghost predicate Sane(core: Core, column: Column) {
    && |column.cells| == |core.query|
    && (forall i :: 0 <= i < |column.cells| ==> SaneCell(core, column.cells[i]))
    && (column.best.Some? ==> 0 <= column.best.value <= I32_MAX)
  }

  lemma SaneAdvance(core: Core, column: Column, c: char)
    requires Sane(core, column)
    ensures Sane(core, Advance(core, column, c))
  {
    var next := Advance(core, column, c);
    forall i | 0 <= i < |next.cells| ensures SaneCell(core, next.cells[i]) {
      assert next.cells[i] == CellAfter(core, column, c, i);
      assert SaneCell(core, column.cells[i]);
      if i > 0 { assert SaneCell(core, column.cells[i - 1]); }
    }
    assert column.cells != [] ==> SaneCell(core, next.cells[|next.cells| - 1]);
  }

  /** Every column of every candidate is sane. */
  lemma {:induction false} SaneFold(core: Core, column: Column, candidate: string)
    requires Sane(core, column)
    ensures Sane(core, Fold(core, column, candidate))
    decreases |candidate|
  {
    if candidate != [] {
      SaneAdvance(core, column, candidate[0]);
      SaneFold(core, Advance(core, column, candidate[0]), candidate[1..]);
    }
  }

  // ---------------------------------------------------------------- the bound

  function PerMatch(core: Core): (r: int)
    ensures r == SCORE_MATCH + core.MaxBonus()
  {
    SatAdd(SCORE_MATCH, core.MaxBonus())
  }

  /** `i32::try_from(n).unwrap_or(i32::MAX)`. */
  function ToI32(n: nat): int { if n <= I32_MAX then n else I32_MAX }

  function Optimistic(core: Core, score: int, remaining: nat): int {
    SatAdd(score, SatMul(ToI32(remaining), PerMatch(core)))
  }

  function MaximumScore(core: Core): int {
    if core.query == [] then 0
    else SatAdd(SatAdd(SCORE_MATCH, SatMul(core.MaxBonus(), BONUS_FIRST_CHAR_MULTIPLIER)),
                SatMul(ToI32(|core.query| - 1), PerMatch(core)))
  }

  function Available(core: Core, column: Column): nat {
    if column.depth <= core.limit then core.limit - column.depth else 0
  }

  /** Query cell `i` can still be completed inside the limit. */
  predicate Live(core: Core, column: Column, i: nat)
    requires i < |column.cells| == |core.query|
  {
    column.cells[i].reachable && |core.query| - i - 1 <= Available(core, column)
  }

  /** Ways a completion can score: already complete, or from one of the first `n` cells if it is live. */
  ghost predicate IsTermUpTo(core: Core, column: Column, n: nat, v: int)
    requires n <= |column.cells| == |core.query|
  {
    column.best == Some(v) || exists i :: 0 <= i < n && Live(core, column, i) && v == CellTerm(core, column, i)
  }

  /** All the ways, including an alignment that has not started yet. */
  ghost predicate IsTerm(core: Core, column: Column, v: int)
    requires |column.cells| == |core.query|
  {
    IsTermUpTo(core, column, |column.cells|, v) || (|core.query| <= Available(core, column) && v == MaximumScore(core))
  }

  function CellTerm(core: Core, column: Column, i: nat): int
    requires i < |column.cells| == |core.query|
  {
    Optimistic(core, column.cells[i].score, |core.query| - i - 1)
  }

  /** `bound` is the greatest term, or `None` if there is none. */
  ghost predicate IsBound(core: Core, column: Column, bound: Option<int>)
    requires |column.cells| == |core.query|
  {
    match bound
    case None => forall v :: !IsTerm(core, column, v)
    case Some(b) => IsTerm(core, column, b) && forall v :: IsTerm(core, column, v) ==> v <= b
  }

  function BoundUpTo(core: Core, column: Column, n: nat): (bound: Option<int>)
    requires n <= |column.cells| == |core.query|
    ensures bound.None? ==> forall v :: !IsTermUpTo(core, column, n, v)
    ensures bound.Some? ==> IsTermUpTo(core, column, n, bound.value)
    ensures forall v :: IsTermUpTo(core, column, n, v) ==> bound.Some? && v <= bound.value
  {
    if n == 0 then column.best
    else
      var rest := BoundUpTo(core, column, n - 1);
      if Live(core, column, n - 1) then
        var v := CellTerm(core, column, n - 1);
        assert forall w :: IsTermUpTo(core, column, n, w) ==> w == v || IsTermUpTo(core, column, n - 1, w);
        BetterOf(rest, Some(v))
      else
        assert forall w :: IsTermUpTo(core, column, n, w) ==> IsTermUpTo(core, column, n - 1, w);
        rest
  }

  function Bound(core: Core, column: Column): Option<int>
    requires |column.cells| == |core.query|
  {
    var n := |column.cells|;
    if |core.query| <= Available(core, column) then BetterOf(BoundUpTo(core, column, n), Some(MaximumScore(core)))
    else BoundUpTo(core, column, n)
  }

  /** The bound is the greatest of the ways a completion can score. */
  lemma BoundIsGreatest(core: Core, column: Column)
    requires |column.cells| == |core.query|
    ensures IsBound(core, column, Bound(core, column))
  {
    hide IsTermUpTo, MaximumScore, BoundUpTo;
    var b := Bound(core, column);
    forall v | IsTerm(core, column, v) ensures b.Some? && v <= b.value {
    }
  }

  /** `upper_bound` computes the greatest term. */
  method UpperBound(core: Core, column: Column) returns (bound: Option<int>)
    requires |column.cells| == |core.query|
    ensures bound == Bound(core, column)
  {
    var available := if column.depth <= core.limit then core.limit - column.depth else 0;
    bound := column.best;
    for i := 0 to |column.cells|
      invariant bound == BoundUpTo(core, column, i)
    {
      if column.cells[i].reachable {
        var remaining := |core.query| - (i + 1);
        if remaining <= available {
          var optimistic := Optimistic(core, column.cells[i].score, remaining);
          bound := Some(if bound.None? then optimistic else Max(bound.value, optimistic));
        }
      }
    }
    if |core.query| <= available {
      var unstarted := MaximumScore(core);
      bound := Some(if bound.None? then unstarted else Max(bound.value, unstarted));
    }
  }

  /** Bounds are ordered with `None` below every score. */
  predicate AtMost(a: Option<int>, b: Option<int>) {
    a.Some? ==> b.Some? && a.value <= b.value
  }

  /** Saturating optimism: one step less to go never overtakes one more match. */
  lemma OptimismShrinks(core: Core, score: int, score': int, remaining: nat)
    requires 0 <= score <= I32_MAX && 0 <= score' <= I32_MAX && score' <= score + PerMatch(core)
    ensures Optimistic(core, score', remaining) <= Optimistic(core, score, remaining + 1)
    ensures score' <= Optimistic(core, score, 1)
  {
    var m := PerMatch(core);
    assert m * ToI32(remaining + 1) == m * ToI32(remaining) + m || ToI32(remaining + 1) == ToI32(remaining) == I32_MAX;
    assert remaining >= I32_MAX ==> SatMul(I32_MAX, m) == I32_MAX;
    assert SatMul(1, m) == m;
  }

  lemma OptimismMonotone(core: Core, score: int, score': int, remaining: nat)
    requires 0 <= score' <= score <= I32_MAX
    ensures Optimistic(core, score', remaining) <= Optimistic(core, score, remaining)
    ensures score' <= Optimistic(core, score, 0)
  {
    assert SatMul(0, PerMatch(core)) == 0;
  }

  /** How a cell of the next column can have come about. */
  lemma CellOrigin(core: Core, column: Column, c: char, i: nat)
    requires Sane(core, column) && i < |core.query| && CellAfter(core, column, c, i).reachable
    ensures var cell := CellAfter(core, column, c, i);
            || (column.cells[i].reachable && cell.score <= column.cells[i].score)
            || (i > 0 && column.cells[i - 1].reachable && cell.score <= column.cells[i - 1].score + PerMatch(core))
            || (i == 0 && cell.score <= SCORE_MATCH + 2 * core.MaxBonus())
  {
    assert SaneCell(core, column.cells[i]);
    if i > 0 { assert SaneCell(core, column.cells[i - 1]); }
  }

  /** Each term of a child within the limit is dominated by a term of its parent. */
  lemma CellTermDominated(core: Core, column: Column, c: char, i: nat) returns (v: int)
    requires Sane(core, column) && column.depth < core.limit && i < |core.query|
    requires Live(core, Advance(core, column, c), i)
    ensures IsTerm(core, column, v) && CellTerm(core, Advance(core, column, c), i) <= v
    ensures i == |core.query| - 1 ==> Advance(core, column, c).cells[i].score <= v
  {
    hide Optimistic, CellAfter, MaximumScore;
    var next := Advance(core, column, c);
    var remaining := |core.query| - i - 1;
    SaneAdvance(core, column, c);
    assert next.cells[i] == CellAfter(core, column, c, i) && SaneCell(core, next.cells[i]) &&
           SaneCell(core, column.cells[i]);
    CellOrigin(core, column, c, i);
    if column.cells[i].reachable && next.cells[i].score <= column.cells[i].score {
      v := CellTerm(core, column, i);
      assert Live(core, column, i);
      OptimismMonotone(core, column.cells[i].score, next.cells[i].score, remaining);
    } else if i > 0 {
      v := CellTerm(core, column, i - 1);
      assert Live(core, column, i - 1) && SaneCell(core, column.cells[i - 1]);
      OptimismShrinks(core, column.cells[i - 1].score, next.cells[i].score, remaining);
    } else {
      v := MaximumScore(core);
      RestartDominated(core, next.cells[0].score);
    }
  }

  /** Matching the first query symbol again is covered by the alignment that has not started. */
  lemma RestartDominated(core: Core, score: int)
    requires core.query != [] && 0 <= score <= SCORE_MATCH + 2 * core.MaxBonus()
    ensures Optimistic(core, score, |core.query| - 1) <= MaximumScore(core) && score <= MaximumScore(core)
  {
    hide SatMul, ToI32, SatAdd, Core.MaxBonus;
    FirstScore(core);
    SatMulNonNegative(ToI32(|core.query| - 1), PerMatch(core));
    SatAddOrder(score, SCORE_MATCH + 2 * core.MaxBonus(), SatMul(ToI32(|core.query| - 1), PerMatch(core)));
  }

  lemma FirstScore(core: Core)
    ensures SatAdd(SCORE_MATCH, SatMul(core.MaxBonus(), BONUS_FIRST_CHAR_MULTIPLIER)) ==
            SCORE_MATCH + 2 * core.MaxBonus()
    ensures 0 <= core.MaxBonus() <= 10
    ensures ToI32(|core.query|) >= 0 && (core.query != [] ==> ToI32(|core.query| - 1) >= 0)
  {
  }

  lemma SatAddOrder(a: int, b: int, m: int)
    requires 0 <= a <= b <= I32_MAX && 0 <= m
    ensures a <= SatAdd(a, m) <= SatAdd(b, m)
  {
  }

  lemma SatMulNonNegative(a: int, b: int)
    requires a >= 0 && b >= 0
    ensures SatMul(a, b) >= 0
  {
    assert a * b >= 0;
  }

  lemma TermDominated(core: Core, column: Column, c: char, v: int) returns (w: int)
    requires Sane(core, column) && column.depth < core.limit && IsTerm(core, Advance(core, column, c), v)
    ensures IsTerm(core, column, w) && v <= w
  {
    hide Optimistic, MaximumScore, CellAfter;
    var next := Advance(core, column, c);
    if exists i :: 0 <= i < |next.cells| && Live(core, next, i) && v == CellTerm(core, next, i) {
      var i :| 0 <= i < |next.cells| && Live(core, next, i) && v == CellTerm(core, next, i);
      w := CellTermDominated(core, column, c, i);
    } else if next.best == Some(v) {
      if column.best == Some(v) {
        w := v;
      } else {
        w := CellTermDominated(core, column, c, |core.query| - 1);
      }
    } else {
      w := MaximumScore(core);
    }
  }

  /** A child's bound never exceeds its parent's, as long as the child fits the limit. */
  lemma BoundShrinks(core: Core, column: Column, c: char)
    requires Sane(core, column) && column.depth < core.limit
    ensures AtMost(Bound(core, Advance(core, column, c)), Bound(core, column))
  {
    hide Bound, IsTerm;
    BoundIsGreatest(core, column);
    BoundIsGreatest(core, Advance(core, column, c));
    var child := Bound(core, Advance(core, column, c));
    if child.Some? {
      var w := TermDominated(core, column, c, child.value);
    }
  }

  /** Beyond the limit that fails: reading "b" after "a" completes the query although nothing fits any more. */
  lemma BoundMayGrowBeyondLimit()
    ensures var core := Core("ab", Default, 1, c => c, _ => Lower);
            var column := ColumnOf(core, "a");
            column.depth == core.limit && !AtMost(Bound(core, Advance(core, column, 'b')), Bound(core, column))
  {
    var core := Core("ab", Default, 1, c => c, _ => Lower);
    var start := core.InitialColumn();
    var column := Advance(core, start, 'a');
    assert "a"[1..] == [] && ColumnOf(core, "a") == Fold(core, column, "a"[1..]);
    assert column.cells[0] == CellAfter(core, start, 'a', 0) && column.cells[1] == CellAfter(core, start, 'a', 1);
    assert column.best == None && !column.cells[1].reachable;
    BoundIsGreatest(core, column);
    assert forall v :: !IsTerm(core, column, v);
    var next := Advance(core, column, 'b');
    assert next.cells[1] == CellAfter(core, column, 'b', 1);
    BoundIsGreatest(core, next);
    assert next.best.Some? && IsTerm(core, next, next.best.value);
  }

  /** The best score covers the last cell, as it does in every column of a candidate. */
  ghost predicate Covered(core: Core, column: Column) {
    && Sane(core, column) && (core.query == [] ==> column.best.Some?)
    && AtMost(FullScore(column.cells), column.best)
  }

  lemma {:induction false} CoveredFold(core: Core, column: Column, candidate: string)
    requires Covered(core, column)
    ensures Covered(core, Fold(core, column, candidate))
    decreases |candidate|
  {
    hide CellAfter, SaneCell;
    if candidate != [] {
      SaneAdvance(core, column, candidate[0]);
      CoveredFold(core, Advance(core, column, candidate[0]), candidate[1..]);
    }
  }

  lemma {:induction false} CoveredColumn(core: Core, candidate: string)
    ensures Covered(core, ColumnOf(core, candidate))
  {
    CoveredFold(core, core.InitialColumn(), candidate);
  }

  /** At the limit nothing can be added any more: the bound is the best score. */
  lemma {:induction false} BoundAtLimit(core: Core, column: Column)
    requires Covered(core, column) && column.depth >= core.limit
    ensures Bound(core, column) == column.best
  {
    hide Bound, BoundUpTo;
    BoundIsGreatest(core, column);
    forall v | IsTerm(core, column, v) ensures column.best.Some? && v <= column.best.value {
      TermAtLimit(core, column, v);
    }
    BestIsTerm(core, column);
  }

  lemma {:induction false} TermAtLimit(core: Core, column: Column, v: int)
    requires Covered(core, column) && column.depth >= core.limit && IsTerm(core, column, v)
    ensures column.best.Some? && v <= column.best.value
  {
    if exists i :: 0 <= i < |column.cells| && Live(core, column, i) && v == CellTerm(core, column, i) {
      var i :| 0 <= i < |column.cells| && Live(core, column, i) && v == CellTerm(core, column, i);
      assert i == |column.cells| - 1 && SaneCell(core, column.cells[i]);
    }
  }

  /** Reading `c` completes the query, at a score above the best so far. */
  predicate Overtakes(core: Core, column: Column, c: char)
    requires |column.cells| == |core.query|
  {
    && core.query != []
    && var last := CellAfter(core, column, c, |core.query| - 1);
       last.reachable && (column.best.None? || column.best.value < last.score)
  }

  /**
   A child's bound stays at most its parent's exactly if the child fits the limit or does not overtake the best score.
   */
  lemma {:induction false} BoundShrinksExactly(core: Core, column: Column, c: char)
    requires Covered(core, column)
    ensures AtMost(Bound(core, Advance(core, column, c)), Bound(core, column)) <==>
            column.depth < core.limit || !Overtakes(core, column, c)
  {
    hide Bound, CellAfter, SaneCell;
    if column.depth < core.limit {
      BoundShrinks(core, column, c);
    } else {
      var next := Advance(core, column, c);
      assert Fold(core, next, [c][1..]) == next && Fold(core, column, [c]) == Fold(core, next, [c][1..]);
      CoveredFold(core, column, [c]);
      BoundAtLimit(core, column);
      BoundAtLimit(core, next);
    }
  }

  lemma BestIsTerm(core: Core, column: Column)
    requires |column.cells| == |core.query|
    ensures column.best.Some? ==> IsTerm(core, column, column.best.value)
  {
  }

  /**
   Every completion that fits the limit scores at most the prefix bound; a bound of `None` means no completion
   matches.
   */
  lemma {:induction false} BoundDominatesCompletions(core: Core, column: Column, suffix: string)
    requires Sane(core, column) && column.depth + |suffix| <= core.limit
    ensures AtMost(Fold(core, column, suffix).best, Bound(core, column))
    decreases |suffix|
  {
    hide Bound, CellAfter, IsTermUpTo;
    if suffix == [] {
      BoundIsGreatest(core, column);
      BestIsTerm(core, column);
    } else {
      SaneAdvance(core, column, suffix[0]);
      BoundShrinks(core, column, suffix[0]);
      BoundDominatesCompletions(core, Advance(core, column, suffix[0]), suffix[1..]);
    }
  }
}
