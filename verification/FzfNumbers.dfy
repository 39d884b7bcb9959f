/** The scoring rules of src/fzf_support.rs in numbers: bonuses, gaps, matches, and the terms of the prefix bound. */
module FzfNumbers {
  import opened Common
  import opened FzfCore
  import opened FzfBound

  /** The end of `i32`. */
  function Capped(x: int): int { if x <= 2147483647 then x else 2147483647 }

  /** The bonus of a character after another, by their classes and the scheme. */
  lemma BonusTable(core: Core, previous: CharClass, current: CharClass)
    ensures var bonus := core.BonusFor(previous, current);
            match (previous, current)
            case (_, White) => bonus == if core.scheme.Default? then 10 else 8
            case (White, _) => bonus == if core.scheme.Default? then 10 else 8
            case (Delimiter, _) => bonus == if core.scheme.History? then 8 else 9
            case (NonWord, _) => bonus == 8
            case (_, NonWord) => bonus == 8
            case (_, Delimiter) => bonus == 8
            case (Lower, Upper) => bonus == 7
            case (Number, Number) => bonus == 0
            case (_, Number) => bonus == 7
            case _ => bonus == 0
    ensures core.MaxBonus() == match core.scheme case Default => 10 case Path => 9 case History => 8
  {
  }

  /** A candidate starts as if after a delimiter for paths and after white space otherwise, with nothing matched. */
  lemma StartInNumbers(core: Core)
    ensures var column := core.InitialColumn();
            && column.previousClass == (if core.scheme.Path? then Delimiter else White) && column.depth == 0
            && |column.cells| == |core.query| && (forall i :: 0 <= i < |column.cells| ==> !column.cells[i].reachable)
            && column.best == if core.query == [] then Some(0) else None
  {
  }

  /** What a gap leaves of a cell's score: opening it costs 3, extending it 1. */
  function AfterGap(cell: Cell): int { cell.score - if cell.inGap then 1 else 3 }

  /** A match within a run of matches counts as its best bonus, at least 4, unless a boundary bonus restarts the run. */
  function RunBonus(diagonal: Cell, bonus: int): int {
    if diagonal.consecutive == 0 then bonus
    else if bonus >= 8 && bonus > diagonal.firstBonus then bonus
    else Max(Max(bonus, 4), diagonal.firstBonus)
  }

  function AfterMatch(diagonal: Cell, bonus: int): int { Capped(diagonal.score + 16 + RunBonus(diagonal, bonus)) }

  /**
   The first query character: a match scores 16 and twice its bonus; otherwise a matched one is left behind by a gap.
   */
  lemma FirstInNumbers(core: Core, previous: Column, c: char)
    requires Sane(core, previous) && core.query != []
    ensures var cell, before := Advance(core, previous, c).cells[0], previous.cells[0];
            var bonus := core.BonusFor(previous.previousClass, core.classify(c));
            if core.fold(c) == core.query[0] then cell == Cell(16 + 2 * bonus, 1, bonus, false, true)
            else if before.reachable then cell == Cell(Max(AfterGap(before), 0), 0, 0, true, true)
            else !cell.reachable
  {
    assert SaneCell(core, previous.cells[0]);
    BonusTable(core, previous.previousClass, core.classify(c));
  }

  /**
   A later query character: it is reached by a match after the one before it or by a gap after itself, and scores the
   better of the two, or 0 if both are less. A tie counts as a match.
   */
  lemma LaterInNumbers(core: Core, previous: Column, c: char, i: nat)
    requires Sane(core, previous) && 0 < i < |core.query|
    ensures var cell, left, diagonal := Advance(core, previous, c).cells[i], previous.cells[i], previous.cells[i - 1];
            var bonus := core.BonusFor(previous.previousClass, core.classify(c));
            var matched := core.fold(c) == core.query[i] && diagonal.reachable;
            && cell.reachable == (matched || left.reachable)
            && (matched ==> cell.score >= AfterMatch(diagonal, bonus))
            && (left.reachable ==> cell.score >= AfterGap(left))
            && (cell.reachable ==>
                  || cell.score == 0
                  || (matched && cell.score == AfterMatch(diagonal, bonus))
                  || (left.reachable && cell.score == AfterGap(left)))
            && (cell.reachable ==>
                  (cell.inGap <==> left.reachable && (matched ==> AfterMatch(diagonal, bonus) < AfterGap(left))))
            && (cell.inGap ==> cell.consecutive == 0 && cell.firstBonus == 0)
            && (cell.reachable && !cell.inGap ==>
                  if diagonal.consecutive > 0 && !(bonus >= 8 && bonus > diagonal.firstBonus)
                  then cell.consecutive == diagonal.consecutive + 1 && cell.firstBonus == diagonal.firstBonus
                  else cell.consecutive == 1 && cell.firstBonus == bonus)
  {
    assert SaneCell(core, previous.cells[i]) && SaneCell(core, previous.cells[i - 1]);
    BonusTable(core, previous.previousClass, core.classify(c));
    hide Core.BonusFor;
  }

  /** The best score is the greatest that the last query character has had. */
  lemma BestInNumbers(core: Core, previous: Column, c: char)
    requires |previous.cells| == |core.query|
    ensures var next := Advance(core, previous, c);
            && next.previousClass == core.classify(c) && next.depth == previous.depth + 1
            && (core.query == [] ==> next.best == previous.best)
            && (core.query != [] ==>
                  var last := next.cells[|core.query| - 1];
                  && (!last.reachable ==> next.best == previous.best)
                  && (last.reachable && previous.best.None? ==> next.best == Some(last.score))
                  && (last.reachable && previous.best.Some? ==>
                        next.best == Some(Max(previous.best.value, last.score))))
  {
  }

  // ---------------------------------------------------------------- the terms of the bound

  /** The most that `n` further matches can add, at 16 and the greatest bonus each. */
  function MostFor(core: Core, n: nat): nat {
    n * match core.scheme case Default => 26 case Path => 25 case History => 24
  }

  lemma OptimisticInNumbers(core: Core, score: int, remaining: nat)
    requires 0 <= score <= 2147483647
    ensures Optimistic(core, score, remaining) == Capped(score + MostFor(core, remaining))
  {
  }

  lemma MaximumInNumbers(core: Core)
    ensures MaximumScore(core) ==
            if core.query == [] then 0
            else Capped((match core.scheme case Default => 36 case Path => 34 case History => 32) +
                        MostFor(core, |core.query| - 1))
  {
    if core.query != [] { OptimisticInNumbers(core, 16 + 2 * core.MaxBonus(), |core.query| - 1); }
  }

  /** Room for more characters before the length limit. */
  function RoomLeft(core: Core, column: Column): nat {
    if column.depth <= core.limit then core.limit - column.depth else 0
  }

  /**
   The prefix bound in numbers: the greatest of the best score so far, of every reached query character completed at
   the most that the rest of the query can add, and of a whole new match, each if it fits the length limit.
   */
  lemma {:induction false} BoundInNumbers(core: Core, column: Column)
    requires Sane(core, column)
    ensures forall v: int :: IsTerm(core, column, v) <==>
              || column.best == Some(v)
              || (exists i :: 0 <= i < |core.query| && Completes(core, column, i, v))
              || (|core.query| <= RoomLeft(core, column) && v == MaximumScore(core))
    ensures Bound(core, column).Some? ==> IsTerm(core, column, Bound(core, column).value)
    ensures forall v: int :: IsTerm(core, column, v) ==> AtMost(Some(v), Bound(core, column))
  {
    hide Bound, MaximumScore, IsTerm, Completes;
    BoundIsGreatest(core, column);
    forall v: int
      ensures IsTerm(core, column, v) <==>
                || column.best == Some(v)
                || (exists i :: 0 <= i < |core.query| && Completes(core, column, i, v))
                || (|core.query| <= RoomLeft(core, column) && v == MaximumScore(core))
    {
      TermInNumbers(core, column, v);
    }
  }

  lemma {:induction false} TermInNumbers(core: Core, column: Column, v: int)
    requires Sane(core, column)
    ensures IsTerm(core, column, v) <==>
              || column.best == Some(v)
              || (exists i :: 0 <= i < |core.query| && Completes(core, column, i, v))
              || (|core.query| <= RoomLeft(core, column) && v == MaximumScore(core))
  {
    hide MaximumScore, Completes, CellTerm, Live;
    forall i | 0 <= i < |core.query|
      ensures Live(core, column, i) && v == CellTerm(core, column, i) <==> Completes(core, column, i, v)
    {
      CompletesInNumbers(core, column, i, v);
    }
  }

  lemma CompletesInNumbers(core: Core, column: Column, i: nat, v: int)
    requires Sane(core, column) && i < |core.query|
    ensures Live(core, column, i) && v == CellTerm(core, column, i) <==> Completes(core, column, i, v)
  {
    hide Optimistic;
    assert SaneCell(core, column.cells[i]);
    OptimisticInNumbers(core, column.cells[i].score, |core.query| - i - 1);
  }

  ghost predicate Completes(core: Core, column: Column, i: nat, v: int)
    requires i < |core.query| == |column.cells|
  {
    && column.cells[i].reachable && |core.query| - i - 1 <= RoomLeft(core, column)
    && v == Capped(column.cells[i].score + MostFor(core, |core.query| - i - 1))
  }
}
