/**
 Branch and bound over a trie: the scorer's column stack and top-k heap (src/fzf_scorer.rs) driven by the depth-first
 walker of benches/fzf_trie_vs_flat.rs. The pruned search keeps exactly the scores that scoring every term
 independently would keep.
 */
module FzfSearch {
  import opened Common
  import opened Dictionary
  import opened FzfCore
  import opened FzfBound

  // ---------------------------------------------------------------- the k greatest of a bag of scores

  /** `top` holds the `k` greatest elements of `all`, or all of them if there are fewer. */
  ghost predicate IsTopK(k: nat, top: multiset<int>, all: multiset<int>) {
    && top <= all && |top| == Min(k, |all|)
    && forall t, x :: t in top && x in all - top ==> x <= t
  }

  /** There is only one such bag. */
  lemma TopKUnique(k: nat, a: multiset<int>, b: multiset<int>, all: multiset<int>)
    requires IsTopK(k, a, all) && IsTopK(k, b, all)
    ensures a == b
  {
    if a != b {
      var x := Surplus(a, b);
      var y := Surplus(b, a);
      SurplusesMeet(k, a, b, all, x, y);
    }
  }

  lemma SurplusesMeet(k: nat, a: multiset<int>, b: multiset<int>, all: multiset<int>, x: int, y: int)
    requires IsTopK(k, a, all) && IsTopK(k, b, all) && a[x] > b[x] && b[y] > a[y]
    ensures x == y
  {
    assert all[x] > b[x] && all[y] > a[y];
    assert x in all - b && y in all - a;
  }

  lemma Surplus(a: multiset<int>, b: multiset<int>) returns (x: int)
    requires |a| == |b| && a != b
    ensures a[x] > b[x]
  {
    assert exists x :: a[x] > b[x] by {
      if forall x :: a[x] <= b[x] {
        AllKept(a, b);
      }
    }
    x :| a[x] > b[x];
  }

  lemma AllKept(top: multiset<int>, all: multiset<int>)
    requires top <= all && |top| == |all|
    ensures top == all
  {
    assert all == top + (all - top);
  }

  lemma SomeMember(h: multiset<int>) returns (x: int)
    requires |h| > 0
    ensures x in h
  {
    if forall x :: x !in h {
      EmptyBag(h);
    }
    x :| x in h;
  }

  lemma EmptyBag(h: multiset<int>)
    requires forall x :: x !in h
    ensures |h| == 0
  {
    assert forall x :: h[x] == 0;
    assert h == multiset{};
  }

  /** No score above `v` is missing once the heap is full of greater scores. */
  ghost predicate Beaten(k: nat, top: multiset<int>, v: int) {
    k > 0 && |top| == k && forall t :: t in top ==> v < t
  }

  lemma MinExists(h: multiset<int>) returns (m: int)
    requires |h| > 0
    ensures m in h && forall x :: x in h ==> m <= x
    decreases |h|
  {
    m := SomeMember(h);
    var rest := h - multiset{m};
    if |rest| > 0 {
      var m' := MinExists(rest);
      m := if m' < m then m' else m;
    }
    assert forall x :: x in h ==> x in rest || h[x] == rest[x] + 1;
  }

  /** A heap with room keeps every score. */
  lemma ObserveAdds(k: nat, top: multiset<int>, all: multiset<int>, s: int)
    requires IsTopK(k, top, all) && |top| < k
    ensures IsTopK(k, top + multiset{s}, all + multiset{s})
  {
    AllKept(top, all);
    assert (all + multiset{s}) - (top + multiset{s}) == multiset{};
  }

  /** A full heap gives up its least score `m` for a greater one. */
  lemma ObserveReplaces(k: nat, top: multiset<int>, all: multiset<int>, m: int, s: int)
    requires IsTopK(k, top, all) && m in top && (forall x :: x in top ==> m <= x) && s > m && |top| == k
    ensures IsTopK(k, top - multiset{m} + multiset{s}, all + multiset{s})
    ensures forall v :: Beaten(k, top, v) ==> Beaten(k, top - multiset{m} + multiset{s}, v)
  {
    var top', all' := top - multiset{m} + multiset{s}, all + multiset{s};
    assert all' - top' == (all - top) + multiset{m};
    assert forall t :: t in top' ==> t in top || t == s;
    assert |top'| == k;
  }

  /** A full heap ignores a score that is not greater than its least. */
  lemma ObserveIgnores(k: nat, top: multiset<int>, all: multiset<int>, s: int)
    requires IsTopK(k, top, all) && |top| == k && forall x :: x in top ==> s <= x
    ensures IsTopK(k, top, all + multiset{s})
  {
    assert (all + multiset{s}) - top == (all - top) + multiset{s};
  }

  /** Scores that cannot reach the heap may be skipped. */
  lemma SkipKeeps(k: nat, top: multiset<int>, all: multiset<int>, skipped: multiset<int>)
    requires IsTopK(k, top, all) && forall v :: v in skipped ==> Beaten(k, top, v)
    ensures IsTopK(k, top, all + skipped)
  {
    assert (all + skipped) - top == (all - top) + skipped;
    if |skipped| > 0 {
      var v := SomeMember(skipped);
      assert Beaten(k, top, v);
    } else {
      assert all + skipped == all;
    }
  }

  /**
   After `done` of the scores: the heap holds the top k of everything, and whatever was not emitted is beaten.
   */
  ghost predicate Progress(k: nat, top: multiset<int>, all: multiset<int>, done: multiset<int>,
                           emitted: multiset<int>) {
    && IsTopK(k, top, all + done) && emitted <= done
    && forall v :: v in done - emitted ==> Beaten(k, top, v)
  }

  lemma ProgressAdds(k: nat, top: multiset<int>, top': multiset<int>, all: multiset<int>,
                     done: multiset<int>, more: multiset<int>, emitted: multiset<int>, emitted': multiset<int>)
    requires Progress(k, top, all, done, emitted) && Progress(k, top', all + done, more, emitted')
    requires forall v :: Beaten(k, top, v) ==> Beaten(k, top', v)
    ensures Progress(k, top', all, done + more, emitted + emitted')
  {
    assert (all + done) + more == all + (done + more);
    assert (done + more) - (emitted + emitted') == (done - emitted) + (more - emitted');
  }

  lemma ProgressTop(k: nat, top: multiset<int>, all: multiset<int>, done: multiset<int>, emitted: multiset<int>)
    requires Progress(k, top, all, done, emitted)
    ensures IsTopK(k, top, all + done)
  {
  }

  lemma ProgressSkips(k: nat, top: multiset<int>, all: multiset<int>, skipped: multiset<int>)
    requires IsTopK(k, top, all) && forall v :: v in skipped ==> Beaten(k, top, v)
    ensures Progress(k, top, all, skipped, multiset{})
  {
    SkipKeeps(k, top, all, skipped);
    assert skipped - multiset{} == skipped;
  }

  // ---------------------------------------------------------------- scores of a subtree

  /** The exact score of one candidate, if it matches and fits the limit. */
  ghost function Score(core: Core, candidate: string): Option<int> {
    if |candidate| <= core.limit then ColumnOf(core, candidate).best else None
  }

  ghost function Bag(o: Option<int>): multiset<int> { if o.Some? then multiset{o.value} else multiset{} }

  /** The scores of independently scored candidates. */
  ghost function Scores(core: Core, candidates: seq<string>): multiset<int> {
    if candidates == [] then multiset{} else Bag(Score(core, candidates[0])) + Scores(core, candidates[1..])
  }

  lemma {:induction false} ScoresAppend(core: Core, a: seq<string>, b: seq<string>)
    ensures Scores(core, a + b) == Scores(core, a) + Scores(core, b)
  {
    if a == [] {
      assert a + b == b;
    } else {
      assert (a + b)[1..] == a[1..] + b;
      ScoresAppend(core, a[1..], b);
    }
  }

  /** All terms below `t`, each prefixed by `prefix`, in depth-first order. */
  ghost function Terms(prefix: string, t: Trie): seq<string>
    decreases t, |t.edges| + 1
  {
    (if t.isFinal then [prefix] else []) + TermsFrom(prefix, t, |t.edges|)
  }

  ghost function TermsFrom(prefix: string, t: Trie, n: nat): seq<string>
    requires n <= |t.edges|
    decreases t, n
  {
    if n == 0 then [] else TermsFrom(prefix, t, n - 1) + Terms(prefix + [t.edges[n - 1].symbol], t.edges[n - 1].child)
  }

  ghost function OwnScore(core: Core, prefix: string, t: Trie): Option<int> {
    if t.isFinal then Score(core, prefix) else None
  }

  /** The scores of a subtree: its root's own and its children's. */
  lemma {:induction false} SubtreeScores(core: Core, prefix: string, t: Trie)
    ensures Scores(core, Terms(prefix, t)) ==
            Bag(OwnScore(core, prefix, t)) + Scores(core, TermsFrom(prefix, t, |t.edges|))
    ensures Scores(core, TermsFrom(prefix, t, 0)) == multiset{}
  {
    ScoresAppend(core, if t.isFinal then [prefix] else [], TermsFrom(prefix, t, |t.edges|));
    assert [prefix][1..] == [];
  }

  lemma ChildScores(core: Core, prefix: string, t: Trie, n: nat)
    requires n < |t.edges|
    ensures Scores(core, TermsFrom(prefix, t, n + 1)) ==
            Scores(core, TermsFrom(prefix, t, n)) + Scores(core, Terms(prefix + [t.edges[n].symbol], t.edges[n].child))
  {
    ScoresAppend(core, TermsFrom(prefix, t, n), Terms(prefix + [t.edges[n].symbol], t.edges[n].child));
  }

  /** Those are exactly the dictionary's terms. */
  lemma {:induction false} TermsAreContained(prefix: string, t: Trie, w: string)
    requires WellFormed(t)
    ensures w in Terms(prefix, t) <==> prefix <= w && Contains(t, w[|prefix|..])
    decreases t, |t.edges| + 1
  {
    TermsFromContained(prefix, t, |t.edges|, w);
    if prefix <= w {
      var rest := w[|prefix|..];
      if rest == [] {
        assert w == prefix;
      }
    }
  }

  lemma {:induction false} TermsFromContained(prefix: string, t: Trie, n: nat, w: string)
    requires WellFormed(t) && n <= |t.edges|
    ensures w in TermsFrom(prefix, t, n) <==>
            && prefix < w && Contains(t, w[|prefix|..])
            && Find(t.edges, w[|prefix|]).Some? && Find(t.edges, w[|prefix|]).value < n
    decreases t, n
  {
    if n > 0 {
      var e := t.edges[n - 1];
      TermsFromContained(prefix, t, n - 1, w);
      TermsAreContained(prefix + [e.symbol], e.child, w);
      FindEdge(t, n - 1);
      if prefix < w {
        assert w[|prefix|..][1..] == w[|prefix| + 1..];
        if w[|prefix|] == e.symbol { assert prefix + [e.symbol] <= w; }
      }
    }
  }

  /** Each term is listed once. */
  lemma {:induction false} TermsDistinct(prefix: string, t: Trie)
    requires WellFormed(t)
    ensures Distinct(Terms(prefix, t))
    decreases t, |t.edges| + 1
  {
    TermsFromDistinct(prefix, t, |t.edges|);
    if t.isFinal {
      TermsFromContained(prefix, t, |t.edges|, prefix);
      DistinctAppend([prefix], TermsFrom(prefix, t, |t.edges|));
    } else {
      assert Terms(prefix, t) == TermsFrom(prefix, t, |t.edges|);
    }
  }

  lemma {:induction false} TermsFromDistinct(prefix: string, t: Trie, n: nat)
    requires WellFormed(t) && n <= |t.edges|
    ensures Distinct(TermsFrom(prefix, t, n))
    decreases t, n
  {
    if n > 0 {
      hide Distinct;
      var e := t.edges[n - 1];
      TermsFromDistinct(prefix, t, n - 1);
      TermsDistinct(prefix + [e.symbol], e.child);
      forall w | w in Terms(prefix + [e.symbol], e.child) ensures w !in TermsFrom(prefix, t, n - 1) {
        TermsAreContained(prefix + [e.symbol], e.child, w);
        TermsFromContained(prefix, t, n - 1, w);
        FindEdge(t, n - 1);
        assert w[|prefix|] == e.symbol;
      }
      DistinctAppend(TermsFrom(prefix, t, n - 1), Terms(prefix + [e.symbol], e.child));
    } else {
      assert TermsFrom(prefix, t, n) == [];
    }
  }

  lemma DistinctAppend(a: seq<string>, b: seq<string>)
    requires Distinct(a) && Distinct(b) && forall w :: w in b ==> w !in a
    ensures Distinct(a + b)
  {
    forall i, j | 0 <= i < j < |a + b| ensures (a + b)[i] != (a + b)[j] {
      if i < |a| <= j { assert b[j - |a|] in b; }
    }
  }

  /** Every term below a prefix is a completion of it. */
  lemma {:induction false} TermsExtend(prefix: string, t: Trie, w: string)
    requires w in Terms(prefix, t)
    ensures prefix <= w
    decreases t, |t.edges| + 1
  {
    if w != prefix {
      TermsFromExtend(prefix, t, |t.edges|, w);
    }
  }

  lemma {:induction false} TermsFromExtend(prefix: string, t: Trie, n: nat, w: string)
    requires n <= |t.edges| && w in TermsFrom(prefix, t, n)
    ensures prefix <= w
    decreases t, n
  {
    if w in TermsFrom(prefix, t, n - 1) {
      TermsFromExtend(prefix, t, n - 1, w);
    } else {
      TermsExtend(prefix + [t.edges[n - 1].symbol], t.edges[n - 1].child, w);
    }
  }

  lemma {:induction false} ScoresMember(core: Core, candidates: seq<string>, v: int) returns (w: string)
    requires v in Scores(core, candidates)
    ensures w in candidates && Score(core, w) == Some(v)
  {
    if v in Bag(Score(core, candidates[0])) {
      w := candidates[0];
    } else {
      w := ScoresMember(core, candidates[1..], v);
    }
  }

  /** Every score below a prefix is at most the prefix's bound. */
  lemma {:induction false} SubtreeBounded(core: Core, prefix: string, t: Trie, v: int)
    requires v in Scores(core, Terms(prefix, t))
    ensures |prefix| <= core.limit && AtMost(Some(v), Bound(core, ColumnOf(core, prefix)))
  {
    var w := ScoresMember(core, Terms(prefix, t), v);
    TermsExtend(prefix, t, w);
    var suffix := w[|prefix|..];
    assert w == prefix + suffix;
    FoldAppend(core, core.InitialColumn(), prefix, suffix);
    SaneFold(core, core.InitialColumn(), prefix);
    DepthIsLength(core, core.InitialColumn(), prefix);
    BoundDominatesCompletions(core, ColumnOf(core, prefix), suffix);
  }

  lemma {:induction false} DepthIsLength(core: Core, column: Column, w: string)
    requires |column.cells| == |core.query|
    ensures Fold(core, column, w).depth == column.depth + |w|
    decreases |w|
  {
    if w != [] {
      DepthIsLength(core, Advance(core, column, w[0]), w[1..]);
    }
  }

  // ---------------------------------------------------------------- the scorer

  class FzfScorer {
    const core: Core
    const topK: nat
    var columns: seq<Column>
    var topScores: multiset<int>
    var scorePruned: nat
    var lengthPruned: nat
    var prefixesPruned: nat
    ghost var prefix: string

    /** One column per active depth, each the column of the prefix read so far. */
    ghost predicate Valid()
      reads this
    {
      && |columns| == |prefix| + 1
      && (forall i :: 0 <= i < |columns| ==> columns[i] == ColumnOf(core, prefix[..i]))
      && |topScores| <= topK
      && prefixesPruned == scorePruned + lengthPruned
    }

    constructor (core: Core, topK: nat)
      ensures Valid() && this.core == core && this.topK == topK && prefix == [] && topScores == multiset{}
    {
      this.core := core;
      this.topK := topK;
      columns := [core.InitialColumn()];
      topScores := multiset{};
      scorePruned, lengthPruned, prefixesPruned := 0, 0, 0;
      prefix := [];
    }

    /** The kth score, once `topK` scores have been seen. */
    method Cutoff() returns (cutoff: Option<int>)
      ensures cutoff.Some? <==> topK > 0 && |topScores| == topK
      ensures cutoff.Some? ==> cutoff.value in topScores && forall x :: x in topScores ==> cutoff.value <= x
    {
      if topK > 0 && |topScores| == topK {
        ghost var least := MinExists(topScores);
        var m :| m in topScores && forall x :: x in topScores ==> m <= x;
        return Some(m);
      }
      return None;
    }

    method ObserveScore(score: int, ghost all: multiset<int>)
      requires Valid() && IsTopK(topK, topScores, all)
      modifies this`topScores
      ensures Valid() && IsTopK(topK, topScores, all + multiset{score})
      ensures forall v :: Beaten(topK, old(topScores), v) ==> Beaten(topK, topScores, v)
    {
      if topK > 0 && |topScores| < topK {
        ObserveAdds(topK, topScores, all, score);
        topScores := topScores + multiset{score};
      } else if topK > 0 {
        var threshold := Cutoff();
        if score > threshold.value {
          ObserveReplaces(topK, topScores, all, threshold.value, score);
          topScores := topScores - multiset{threshold.value} + multiset{score};
        } else {
          ObserveIgnores(topK, topScores, all, score);
        }
      } else {
        ObserveIgnores(topK, topScores, all, score);
      }
    }

    /** Push the column of the prefix extended by `unit`. */
    method PushColumn(unit: char) returns (next: Column)
      requires Valid()
      modifies this`columns, this`prefix
      ensures Valid() && prefix == old(prefix) + [unit] && next == ColumnOf(core, prefix)
    {
      hide Fold;
      FoldSnoc(core, prefix, unit);
      assert prefix[..|prefix|] == prefix;
      next := AdvanceColumn(core, columns[|columns| - 1], unit);
      columns := columns + [next];
      ghost var parent := prefix;
      prefix := prefix + [unit];
      assert prefix[..|prefix|] == prefix;
      assert forall i :: 0 <= i <= |parent| ==> prefix[..i] == parent[..i];
    }

    /**
     Push the child's column and decide whether its subtree may still matter: it is visited exactly if the prefix fits
     the limit and its bound is present and reaches the kth score, if there is one. A refused subtree holds no score
     that fits the limit and reaches the current kth score.
     */
    method Enter(unit: char, ghost child: Trie) returns (visit: bool)
      requires Valid()
      modifies this`columns, this`prefix, this`scorePruned, this`lengthPruned, this`prefixesPruned
      ensures Valid() && prefix == old(prefix) + [unit]
      ensures var bound := Bound(core, ColumnOf(core, prefix));
              visit <==> |prefix| <= core.limit && bound.Some? && !Beaten(topK, topScores, bound.value)
      ensures !visit ==> forall v :: v in Scores(core, Terms(prefix, child)) ==> Beaten(topK, topScores, v)
      ensures prefixesPruned == old(prefixesPruned) + if visit then 0 else 1
      ensures lengthPruned == old(lengthPruned) + if |prefix| > core.limit then 1 else 0
    {
      hide Fold, Terms, Scores, Bound;
      var next := PushColumn(unit);
      forall v | v in Scores(core, Terms(prefix, child))
        ensures |prefix| <= core.limit && AtMost(Some(v), Bound(core, next))
      {
        SubtreeBounded(core, prefix, child, v);
      }
      if |columns| - 1 > core.limit {
        lengthPruned, prefixesPruned := lengthPruned + 1, prefixesPruned + 1;
        return false;
      }
      var bound := UpperBound(core, next);
      var cutoff := Cutoff();
      visit := bound.Some? && (cutoff.None? || bound.value >= cutoff.value);
      if !visit {
        scorePruned, prefixesPruned := scorePruned + 1, prefixesPruned + 1;
      }
    }

    /** Pop exactly the column that `Enter` pushed. */
    method Leave()
      requires Valid() && prefix != []
      modifies this`columns, this`prefix
      ensures Valid() && prefix == old(prefix)[..|old(prefix)| - 1]
    {
      columns := columns[..|columns| - 1];
      ghost var longer := prefix;
      prefix := prefix[..|prefix| - 1];
      assert forall i :: 0 <= i <= |prefix| ==> prefix[..i] == longer[..i];
    }

    /** The score of the current prefix as a complete candidate, recorded in the heap. */
    method Accept(ghost all: multiset<int>) returns (score: Option<int>)
      requires Valid() && IsTopK(topK, topScores, all)
      modifies this`topScores
      ensures Valid() && score == ColumnOf(core, prefix).best
      ensures Progress(topK, topScores, all, Bag(score), Bag(score))
      ensures forall v :: Beaten(topK, old(topScores), v) ==> Beaten(topK, topScores, v)
    {
      hide Fold;
      assert prefix[..|prefix|] == prefix;
      score := columns[|columns| - 1].best;
      if score.Some? {
        ObserveScore(score.value, all);
      } else {
        assert all + Bag(score) == all;
      }
      assert Bag(score) - Bag(score) == multiset{};
    }

    /**
     The walker: emits the scores it accepts, and leaves in the heap the top k of everything seen before and every
     term of the subtree, though it visits only what the bound lets through. What it does not emit is below the
     final kth score.
     */
    method Dfs(t: Trie, scores: seq<int>, ghost all: multiset<int>) returns (emitted: seq<int>)
      requires Valid() && |prefix| <= core.limit && IsTopK(topK, topScores, all)
      modifies this
      ensures Valid() && prefix == old(prefix) && scores <= emitted
      ensures Progress(topK, topScores, all, Scores(core, Terms(prefix, t)), multiset(emitted[|scores|..]))
      ensures forall v :: Beaten(topK, old(topScores), v) ==> Beaten(topK, topScores, v)
      decreases t, 1
    {
      hide Fold, Terms, TermsFrom, Scores, IsTopK, Progress, Beaten;
      emitted := scores;
      ghost var start := prefix;
      var score := None;
      if t.isFinal {
        score := Accept(all);
        if score.Some? {
          emitted := emitted + [score.value];
        }
      } else {
        ProgressSkips(topK, topScores, all, multiset{});
      }
      assert emitted[|scores|..] == if score.Some? then [score.value] else [];
      ghost var done := Bag(score);
      SubtreeScores(core, start, t);
      for i := 0 to |t.edges|
        invariant Valid() && prefix == start && scores <= emitted
        invariant done == Bag(score) + Scores(core, TermsFrom(start, t, i))
        invariant Progress(topK, topScores, all, done, multiset(emitted[|scores|..]))
        invariant forall v :: Beaten(topK, old(topScores), v) ==> Beaten(topK, topScores, v)
      {
        ghost var before, top := emitted, topScores;
        ChildScores(core, start, t, i);
        ProgressTop(topK, topScores, all, done, multiset(emitted[|scores|..]));
        emitted := DfsEdge(t, i, emitted, all + done);
        ghost var below := Scores(core, Terms(start + [t.edges[i].symbol], t.edges[i].child));
        assert emitted[|scores|..] == before[|scores|..] + emitted[|before|..];
        ProgressAdds(topK, top, topScores, all, done, below, multiset(before[|scores|..]),
                     multiset(emitted[|before|..]));
        done := done + below;
      }
    }

    /** One edge of the walk: enter, walk the child if allowed, leave. */
    method DfsEdge(t: Trie, i: nat, scores: seq<int>, ghost all: multiset<int>) returns (emitted: seq<int>)
      requires Valid() && i < |t.edges| && IsTopK(topK, topScores, all)
      modifies this
      ensures Valid() && prefix == old(prefix) && scores <= emitted
      ensures Progress(topK, topScores, all, Scores(core, Terms(prefix + [t.edges[i].symbol], t.edges[i].child)),
                       multiset(emitted[|scores|..]))
      ensures forall v :: Beaten(topK, old(topScores), v) ==> Beaten(topK, topScores, v)
      decreases t, 0
    {
      hide Fold, Terms, Scores, IsTopK, Progress, Beaten;
      var e := t.edges[i];
      emitted := scores;
      var visit := Enter(e.symbol, e.child);
      if visit {
        emitted := Dfs(e.child, emitted, all);
      } else {
        ProgressSkips(topK, topScores, all, Scores(core, Terms(prefix, e.child)));
        assert emitted[|scores|..] == [];
      }
      Leave();
      assert prefix == old(prefix);
    }
  }

  /**
   `trie_scores`: the heap ends as the unique top k of the independently computed scores of all dictionary terms that
   fit the limit, and every matching term whose score reaches the final kth score is emitted.
   */
  method TrieScores(core: Core, topK: nat, root: Trie) returns (scores: seq<int>, scorer: FzfScorer)
    ensures fresh(scorer) && scorer.core == core && scorer.topK == topK
    ensures IsTopK(topK, scorer.topScores, Scores(core, Terms([], root)))
    ensures multiset(scores) <= Scores(core, Terms([], root))
    ensures forall v :: v in Scores(core, Terms([], root)) - multiset(scores) ==> Beaten(topK, scorer.topScores, v)
  {
    hide Terms, Scores;
    scorer := new FzfScorer(core, topK);
    scores := scorer.Dfs(root, [], multiset{});
    assert scores[0..] == scores;
    assert multiset{} + Scores(core, Terms([], root)) == Scores(core, Terms([], root));
  }
}
