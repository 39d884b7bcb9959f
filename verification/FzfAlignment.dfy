/** What a score stands for: one embedding of the query into the candidate, scored on its own by fzf's rules. */
module FzfAlignment {
  import opened Common
  import opened FzfCore
  import opened FzfBound

  /** The bonus of matching character `k`, from its class and that of the character before it. */
  function BonusAt(core: Core, candidate: string, k: nat): int
    requires k < |candidate|
  {
    core.BonusFor(if k == 0 then core.InitialClass() else core.classify(candidate[k - 1]), core.classify(candidate[k]))
  }

  /** `positions` picks increasing places of the candidate that spell the first query characters. */
  ghost predicate Embeds(core: Core, candidate: string, positions: seq<nat>) {
    && 0 < |positions| <= |core.query|
    && (forall k :: 0 <= k < |positions| ==>
        positions[k] < |candidate| && core.fold(candidate[positions[k]]) == core.query[k])
    && (forall j, k :: 0 <= j < k < |positions| ==> positions[j] < positions[k])
  }

  /** The gap that a skipped character opens or extends. */
  function GapCell(cell: Cell): Cell { Cell(Max(GapScore(cell), 0), 0, 0, true, true) }

  /**
   The running score of one embedding, character by character: nothing before its first place, a fresh start there, a
   match at each further place, and a gap everywhere else.
   */
  ghost function Follow(core: Core, candidate: string, positions: seq<nat>): Cell {
    if candidate == [] then EMPTY_CELL
    else
      var n := |candidate| - 1;
      var before, bonus := Follow(core, candidate[..n], positions), BonusAt(core, candidate, n);
      if positions != [] && positions[0] == n then FirstCell(true, before, bonus)
      else if n in positions then MatchCell(before, bonus).(score := Max(MatchCell(before, bonus).score, 0))
      else if before.reachable then GapCell(before)
      else EMPTY_CELL
  }

  /** Places beyond the end of the candidate do not matter. */
  lemma {:induction false} FollowIgnoresLater(core: Core, candidate: string, positions: seq<nat>, more: seq<nat>)
    requires positions != [] && forall k :: 0 <= k < |more| ==> more[k] >= |candidate|
    ensures Follow(core, candidate, positions + more) == Follow(core, candidate, positions)
  {
    if candidate != [] {
      var n := |candidate| - 1;
      FollowIgnoresLater(core, candidate[..n], positions, more);
      assert n in positions + more <==> n in positions;
    }
  }

  lemma {:induction false} FollowBeforeStart(core: Core, candidate: string, positions: seq<nat>)
    requires forall k :: 0 <= k < |positions| ==> positions[k] >= |candidate|
    ensures Follow(core, candidate, positions) == EMPTY_CELL
  {
    if candidate != [] {
      FollowBeforeStart(core, candidate[..|candidate| - 1], positions);
    }
  }

  /** The class that a column remembers is that of the last character. */
  lemma {:induction false} ColumnClass(core: Core, candidate: string)
    ensures ColumnOf(core, candidate).previousClass ==
            if candidate == [] then core.InitialClass() else core.classify(candidate[|candidate| - 1])
  {
    if candidate != [] {
      var n := |candidate| - 1;
      FoldSnoc(core, candidate[..n], candidate[n]);
      assert candidate[..n] + [candidate[n]] == candidate;
    }
  }

  ghost predicate Realised(core: Core, candidate: string, cell: Cell, i: nat) {
    exists positions ::
        Embeds(core, candidate, positions) && |positions| == i + 1 && Follow(core, candidate, positions) == cell
  }

  /** One more character: what a cell can be. */
  lemma {:induction false} CellChoice(core: Core, previous: Column, c: char, i: nat)
    requires Sane(core, previous) && i < |core.query| && CellAfter(core, previous, c, i).reachable
    ensures var cell, bonus := CellAfter(core, previous, c, i), core.BonusFor(previous.previousClass, core.classify(c));
            || (i == 0 && core.fold(c) == core.query[0] && cell == FirstCell(true, EMPTY_CELL, bonus))
            || (i > 0 && core.fold(c) == core.query[i] && previous.cells[i - 1].reachable
                && cell == var m := MatchCell(previous.cells[i - 1], bonus); m.(score := Max(m.score, 0)))
            || (previous.cells[i].reachable && cell == GapCell(previous.cells[i]))
  {
  }

  /** One more place for one more query character. */
  lemma {:induction false} EmbedsSnoc(core: Core, candidate: string, c: char, positions: seq<nat>)
    requires |positions| < |core.query| && (positions == [] || Embeds(core, candidate, positions))
    requires core.fold(c) == core.query[|positions|]
    ensures Embeds(core, candidate + [c], positions + [|candidate|])
  {
  }

  /** What following does at a new last character. */
  lemma {:induction false} FollowSnoc(core: Core, candidate: string, c: char, positions: seq<nat>)
    ensures var n := |candidate|;
            var before, bonus := Follow(core, candidate, positions), BonusAt(core, candidate + [c], n);
            Follow(core, candidate + [c], positions) ==
              if positions != [] && positions[0] == n then FirstCell(true, before, bonus)
              else if n in positions then MatchCell(before, bonus).(score := Max(MatchCell(before, bonus).score, 0))
              else if before.reachable then GapCell(before)
              else EMPTY_CELL
  {
    hide FirstCell, MatchCell, GapCell, BonusAt;
    assert (candidate + [c])[..|candidate|] == candidate;
  }

  lemma {:induction false} ExtendByMatch(core: Core, candidate: string, c: char, positions: seq<nat>)
    requires |positions| < |core.query| && (positions == [] || Embeds(core, candidate, positions))
    requires core.fold(c) == core.query[|positions|]
    ensures var longer, bonus := positions + [|candidate|], BonusAt(core, candidate + [c], |candidate|);
            && Embeds(core, candidate + [c], longer)
            && Follow(core, candidate + [c], longer) ==
               if positions == [] then FirstCell(true, EMPTY_CELL, bonus)
               else var m := MatchCell(Follow(core, candidate, positions), bonus); m.(score := Max(m.score, 0))
  {
    hide FirstCell, MatchCell, GapCell, BonusAt, Follow;
    var longer := positions + [|candidate|];
    EmbedsSnoc(core, candidate, c, positions);
    FollowSnoc(core, candidate, c, longer);
    if positions == [] {
      FollowBeforeStart(core, candidate, longer);
    } else {
      FollowIgnoresLater(core, candidate, positions, [|candidate|]);
      assert longer[0] == positions[0];
    }
  }

  lemma {:induction false} ExtendByGap(core: Core, candidate: string, c: char, positions: seq<nat>)
    requires Embeds(core, candidate, positions) && Follow(core, candidate, positions).reachable
    ensures Embeds(core, candidate + [c], positions)
    ensures Follow(core, candidate + [c], positions) == GapCell(Follow(core, candidate, positions))
  {
    assert (candidate + [c])[..|candidate|] == candidate;
    assert |candidate| !in positions;
  }

  /** Every reachable cell is the running score of some embedding of the query characters up to it. */
  lemma {:induction false} CellIsRealised(core: Core, candidate: string, i: nat)
    requires i < |core.query| && ColumnOf(core, candidate).cells[i].reachable
    ensures Realised(core, candidate, ColumnOf(core, candidate).cells[i], i)
    decreases |candidate|
  {
    hide Follow, Embeds, MatchCell, FirstCell, GapCell, Core.BonusFor;
    if candidate != [] {
      var n := |candidate| - 1;
      var init, c := candidate[..n], candidate[n];
      assert init + [c] == candidate;
      FoldSnoc(core, init, c);
      ColumnClass(core, init);
      var previous := ColumnOf(core, init);
      SaneFold(core, core.InitialColumn(), init);
      CellChoice(core, previous, c, i);
      var cell := CellAfter(core, previous, c, i);
      assert ColumnOf(core, candidate).cells[i] == cell;
      if previous.cells[i].reachable && cell == GapCell(previous.cells[i]) {
        CellIsRealised(core, init, i);
        var positions :| Embeds(core, init, positions) && |positions| == i + 1 &&
            Follow(core, init, positions) == previous.cells[i];
        ExtendByGap(core, init, c, positions);
      } else if i == 0 {
        ExtendByMatch(core, init, c, []);
        assert Realised(core, candidate, cell, 0) by { assert |[] + [n]| == 1; }
      } else {
        CellIsRealised(core, init, i - 1);
        var positions :| Embeds(core, init, positions) && |positions| == i &&
            Follow(core, init, positions) == previous.cells[i - 1];
        ExtendByMatch(core, init, c, positions);
        assert |positions + [n]| == i + 1;
      }
    }
  }

  /** Some prefix of the candidate embeds the whole query at this running score. */
  ghost predicate ScoredBy(core: Core, candidate: string, v: int) {
    exists n: nat :: n <= |candidate| && ScoredAt(core, candidate[..n], v)
  }

  ghost predicate ScoredAt(core: Core, candidate: string, v: int) {
    exists positions ::
        Embeds(core, candidate, positions) && |positions| == |core.query| &&
        Follow(core, candidate, positions).score == v
  }

  /** The score of a candidate is that of an embedding of the whole query into it. */
  lemma {:induction false} ScoreIsRealised(core: Core, candidate: string, v: int)
    requires core.query != [] && ColumnOf(core, candidate).best == Some(v)
    ensures ScoredBy(core, candidate, v)
    decreases |candidate|
  {
    if candidate != [] {
      var n := |candidate| - 1;
      var init := candidate[..n];
      assert init + [candidate[n]] == candidate;
      FoldSnoc(core, init, candidate[n]);
      hide Fold;
      if ColumnOf(core, init).best == Some(v) {
        ScoreIsRealised(core, init, v);
        var m: nat :| m <= |init| && ScoredAt(core, init[..m], v);
        assert candidate[..m] == init[..m];
      } else {
        CellIsRealised(core, candidate, |core.query| - 1);
        assert candidate[..|candidate|] == candidate;
        assert ScoredAt(core, candidate[..|candidate|], v);
      }
    }
  }
}
