/**
 The incremental state of fzf's FuzzyMatchV2 recurrence (src/fzf_support.rs): one immutable column of query cells
 per candidate prefix, in saturating `i32` arithmetic.
 */
module FzfCore {
  import opened Common

  const I32_MAX: int := 0x7FFF_FFFF
  const I32_MIN: int := -0x8000_0000

  const SCORE_MATCH: int := 16
  const SCORE_GAP_START: int := -3
  const SCORE_GAP_EXTENSION: int := -1
  const BONUS_BOUNDARY: int := 8
  const BONUS_NON_WORD: int := 8
  const BONUS_CAMEL_123: int := 7
  const BONUS_CONSECUTIVE: int := 4
  const BONUS_FIRST_CHAR_MULTIPLIER: int := 2

  function Saturate(x: int): int {
    if x > I32_MAX then I32_MAX else if x < I32_MIN then I32_MIN else x
  }

  function SatAdd(a: int, b: int): int { Saturate(a + b) }

  function SatMul(a: int, b: int): int { Saturate(a * b) }

  datatype Scheme = Default | Path | History

  datatype CharClass = White | NonWord | Delimiter | Lower | Upper | Letter | Number

  datatype Cell = Cell(score: int, consecutive: nat, firstBonus: int, inGap: bool, reachable: bool)

  const EMPTY_CELL: Cell := Cell(0, 0, 0, false, false)

  datatype Column = Column(cells: seq<Cell>, previousClass: CharClass, depth: nat, best: Option<int>)

  /**
   Query (already folded), scheme and candidate-length limit. Case folding and character classification are
   arbitrary total functions.
   */
  datatype Core = Core(query: string, scheme: Scheme, limit: nat, fold: char -> char, classify: char -> CharClass) {

    function MaxBonus(): int {
      match scheme
      case Default => BONUS_BOUNDARY + 2
      case Path => BONUS_BOUNDARY + 1
      case History => BONUS_BOUNDARY
    }

    function InitialClass(): CharClass { if scheme == Path then Delimiter else White }

    function WhiteBonus(): int { if scheme == Default then BONUS_BOUNDARY + 2 else BONUS_BOUNDARY }

    function DelimiterBonus(): int { if scheme == History then BONUS_BOUNDARY else BONUS_BOUNDARY + 1 }

    /** Every applied bonus lies between zero and the scheme's maximum. */
    function BonusFor(previous: CharClass, current: CharClass): (b: int)
      ensures 0 <= b <= MaxBonus()
    {
      if current != White && previous == White then WhiteBonus()
      else if current != White && previous == Delimiter then DelimiterBonus()
      else if current != White && previous == NonWord then BONUS_BOUNDARY
      else if (previous == Lower && current == Upper) || (previous != Number && current == Number) then BONUS_CAMEL_123
      else match current
        case NonWord => BONUS_NON_WORD
        case Delimiter => BONUS_NON_WORD
        case White => WhiteBonus()
        case _ => 0
    }

    function InitialColumn(): Column {
      Column(seq(|query|, _ => EMPTY_CELL), InitialClass(), 0, if query == [] then Some(0) else None)
    }
  }

  function GapScore(cell: Cell): int {
    SatAdd(cell.score, if cell.inGap then SCORE_GAP_EXTENSION else SCORE_GAP_START)
  }

  /** The first query cell: a match restarts the alignment, otherwise a reachable cell opens or extends a gap. */
  function FirstCell(matches: bool, previous: Cell, bonus: int): Cell {
    if matches then
      Cell(SatAdd(SCORE_MATCH, SatMul(bonus, BONUS_FIRST_CHAR_MULTIPLIER)), 1, bonus, false, true)
    else if previous.reachable then Cell(Max(GapScore(previous), 0), 0, 0, true, true)
    else EMPTY_CELL
  }

  /** A match extends the diagonal cell, possibly as part of a consecutive run. */
  function MatchCell(diagonal: Cell, bonus: int): Cell {
    var run := diagonal.consecutive + 1;
    var restart := run > 1 && bonus >= BONUS_BOUNDARY && bonus > diagonal.firstBonus;
    var firstBonus := if run == 1 || restart then bonus else diagonal.firstBonus;
    var applied := if run > 1 && !restart then Max(Max(bonus, BONUS_CONSECUTIVE), diagonal.firstBonus) else bonus;
    Cell(SatAdd(SatAdd(diagonal.score, SCORE_MATCH), applied), if restart then 1 else run, firstBonus, false, true)
  }

  /** A later query cell: the better of extending the diagonal by a match and leaving a gap; ties match. */
  function LaterCell(matches: bool, diagonal: Cell, left: Cell, bonus: int): Cell {
    var matched := matches && diagonal.reachable;
    if !matched && !left.reachable then EMPTY_CELL
    else
      var matchValue := if matched then MatchCell(diagonal, bonus).score else I32_MIN / 4;
      var gapValue := if left.reachable then GapScore(left) else I32_MIN / 4;
      if matchValue >= gapValue && matched then MatchCell(diagonal, bonus).(score := Max(matchValue, 0))
      else Cell(Max(Max(matchValue, gapValue), 0), 0, 0, matchValue < gapValue, true)
  }

  /** Cell `i` of the column after reading `c`. */
  function CellAfter(core: Core, previous: Column, c: char, i: nat): Cell
    requires i < |core.query| == |previous.cells|
  {
    var bonus := core.BonusFor(previous.previousClass, core.classify(c));
    var matches := core.fold(c) == core.query[i];
    if i == 0 then FirstCell(matches, previous.cells[0], bonus)
    else LaterCell(matches, previous.cells[i - 1], previous.cells[i], bonus)
  }

  function BetterOf(a: Option<int>, b: Option<int>): Option<int> {
    match (a, b)
    case (Some(x), Some(y)) => Some(Max(x, y))
    case (None, _) => b
    case (_, None) => a
  }

  function FullScore(cells: seq<Cell>): Option<int> {
    if cells != [] && cells[|cells| - 1].reachable then Some(cells[|cells| - 1].score) else None
  }

  /** The column after one more candidate character. */
  function Advance(core: Core, previous: Column, c: char): (r: Column)
    requires |previous.cells| == |core.query|
    ensures |r.cells| == |core.query|
  {
    var cells := seq(|core.query|, i requires 0 <= i < |core.query| => CellAfter(core, previous, c, i));
    Column(cells, core.classify(c), previous.depth + 1, BetterOf(previous.best, FullScore(cells)))
  }

  /** The column of a whole candidate prefix, from `column`. */
  function Fold(core: Core, column: Column, candidate: string): (r: Column)
    requires |column.cells| == |core.query|
    ensures |r.cells| == |core.query|
    decreases |candidate|
  {
    if candidate == [] then column else Fold(core, Advance(core, column, candidate[0]), candidate[1..])
  }

  function ColumnOf(core: Core, candidate: string): (r: Column)
    ensures |r.cells| == |core.query|
  {
    Fold(core, core.InitialColumn(), candidate)
  }

  lemma {:induction false} FoldAppend(core: Core, column: Column, u: string, v: string)
    requires |column.cells| == |core.query|
    ensures Fold(core, column, u + v) == Fold(core, Fold(core, column, u), v)
    decreases |u|
  {
    if u == [] {
      assert u + v == v;
    } else {
      assert (u + v)[1..] == u[1..] + v && (u + v)[0] == u[0];
      FoldAppend(core, Advance(core, column, u[0]), u[1..], v);
    }
  }

  lemma FoldSnoc(core: Core, candidate: string, c: char)
    ensures ColumnOf(core, candidate + [c]) == Advance(core, ColumnOf(core, candidate), c)
  {
    FoldAppend(core, core.InitialColumn(), candidate, [c]);
    var column := ColumnOf(core, candidate);
    assert Fold(core, column, [c]) == Fold(core, Advance(core, column, c), [c][1..]);
  }

  datatype ScoreError = CandidateTooLong(actual: nat, maximum: nat)
  datatype ScoreResult = Scored(best: Option<int>) | TooLong(error: ScoreError)

  /** `advance`, cell by cell. */
  method AdvanceColumn(core: Core, previous: Column, c: char) returns (column: Column)
    requires |previous.cells| == |core.query|
    ensures column == Advance(core, previous, c)
  {
    var class_ := core.classify(c);
    var bonus := core.BonusFor(previous.previousClass, class_);
    var folded := core.fold(c);
    var cells := [];
    if core.query != [] {
      cells := [FirstCell(folded == core.query[0], previous.cells[0], bonus)];
      for i := 1 to |core.query|
        invariant |cells| == i
        invariant forall j :: 0 <= j < i ==> cells[j] == CellAfter(core, previous, c, j)
      {
        var left, diagonal := previous.cells[i], previous.cells[i - 1];
        var matched := folded == core.query[i] && diagonal.reachable;
        var cell := EMPTY_CELL;
        if matched || left.reachable {
          var matchValue, consecutive, firstBonus := I32_MIN / 4, 0, 0;
          if matched {
            var applied := bonus;
            consecutive := diagonal.consecutive + 1;
            firstBonus := if diagonal.consecutive == 0 then bonus else diagonal.firstBonus;
            if consecutive > 1 {
              if bonus >= BONUS_BOUNDARY && bonus > diagonal.firstBonus {
                consecutive := 1;
                firstBonus := bonus;
              } else {
                applied := Max(Max(applied, BONUS_CONSECUTIVE), diagonal.firstBonus);
              }
            }
            matchValue := SatAdd(SatAdd(diagonal.score, SCORE_MATCH), applied);
          }
          var gapValue := I32_MIN / 4;
          if left.reachable {
            gapValue := SatAdd(left.score, if left.inGap then SCORE_GAP_EXTENSION else SCORE_GAP_START);
          }
          if matchValue < gapValue {
            consecutive, firstBonus := 0, 0;
          }
          cell := Cell(Max(Max(matchValue, gapValue), 0), consecutive, firstBonus, matchValue < gapValue, true);
        }
        cells := cells + [cell];
      }
    }
    var full := if cells != [] && cells[|cells| - 1].reachable then Some(cells[|cells| - 1].score) else None;
    assert cells == Advance(core, previous, c).cells;
    column := Column(cells, class_, previous.depth + 1, BetterOf(previous.best, full));
  }

  /** `score_chars`: the best score of a candidate, or an error at the first character beyond the limit. */
  method ScoreChars(core: Core, candidate: string) returns (r: ScoreResult)
    ensures |candidate| <= core.limit ==> r == Scored(ColumnOf(core, candidate).best)
    ensures |candidate| > core.limit ==> r == TooLong(CandidateTooLong(core.limit + 1, core.limit))
  {
    var column := core.InitialColumn();
    for i := 0 to |candidate|
      invariant column == ColumnOf(core, candidate[..i]) && column.depth == i <= core.limit
    {
      if column.depth >= core.limit {
        return TooLong(CandidateTooLong(column.depth + 1, core.limit));
      }
      column := AdvanceColumn(core, column, candidate[i]);
      FoldSnoc(core, candidate[..i], candidate[i]);
      assert candidate[..i] + [candidate[i]] == candidate[..i + 1];
    }
    assert candidate[..|candidate|] == candidate;
    r := Scored(column.best);
  }
}
