/**
 Dominated-arc pruning (src/phonetic_rewrite_support.rs): the hash and the linear form agree and keep the least weights.
 */
module RewritePrune {
  import opened Common
  import opened Labels

  const HASH_PRUNE_THRESHOLD: nat := 16

  datatype Key = Key(from: nat, input: Option<char>, output: Option<char>, to: nat)

  function KeyOf(t: Transition): Key { Key(t.from, t.input, t.output, t.to) }

  /** Position of the first transition with this key. */
  function FindKey(ts: seq<Transition>, key: Key): (r: Option<nat>)
    ensures r.Some? ==> r.value < |ts| && KeyOf(ts[r.value]) == key
    ensures r.None? <==> forall i :: 0 <= i < |ts| ==> KeyOf(ts[i]) != key
  {
    if ts == [] then None
    else match FindKey(ts[..|ts| - 1], key)
      case Some(i) => Some(i)
      case None => if KeyOf(ts[|ts| - 1]) == key then Some(|ts| - 1) else None
  }

  /** Keep `t` in the slot of its key if it is cheaper, or in a new slot. */
  function Insert(pruned: seq<Transition>, t: Transition): seq<Transition> {
    match FindKey(pruned, KeyOf(t))
    case None => pruned + [t]
    case Some(i) => if t.weight < pruned[i].weight then pruned[i := t] else pruned
  }

  function Prune(ts: seq<Transition>): seq<Transition> {
    if ts == [] then [] else Insert(Prune(ts[..|ts| - 1]), ts[|ts| - 1])
  }

  ghost predicate DistinctKeys(ts: seq<Transition>) {
    forall i, j :: 0 <= i < j < |ts| ==> KeyOf(ts[i]) != KeyOf(ts[j])
  }

  /** `p` stands for `t`: same endpoints and labels, at no more weight. */
  ghost predicate Dominates(p: Transition, t: Transition) { KeyOf(p) == KeyOf(t) && p.weight <= t.weight }

  ghost predicate Covered(pruned: seq<Transition>, t: Transition) {
    exists i :: 0 <= i < |pruned| && Dominates(pruned[i], t)
  }

  lemma InsertCovers(pruned: seq<Transition>, t: Transition, u: Transition)
    requires Covered(pruned, u)
    ensures Covered(Insert(pruned, t), u) && Covered(Insert(pruned, t), t)
  {
    var i :| 0 <= i < |pruned| && Dominates(pruned[i], u);
    var more := Insert(pruned, t);
    assert Dominates(more[i], u);
    InsertKeeps(pruned, t);
  }

  lemma InsertKeeps(pruned: seq<Transition>, t: Transition)
    ensures Covered(Insert(pruned, t), t)
  {
    var more := Insert(pruned, t);
    match FindKey(pruned, KeyOf(t))
    case None => assert Dominates(more[|pruned|], t);
    case Some(i) => assert Dominates(more[i], t);
  }

  lemma InsertMember(pruned: seq<Transition>, t: Transition, u: Transition)
    requires u in Insert(pruned, t)
    ensures u in pruned || u == t
  {
  }

  /** Pruning keeps only original arcs, one for each pair of endpoints and labels, and the cheapest of each. */
  lemma {:induction false} PruneIsLeast(ts: seq<Transition>)
    ensures DistinctKeys(Prune(ts))
    ensures forall t :: t in Prune(ts) ==> t in ts
    ensures forall t :: t in ts ==> Covered(Prune(ts), t)
  {
    if ts != [] {
      hide Insert, Covered, Dominates, DistinctKeys;
      var init, last := ts[..|ts| - 1], ts[|ts| - 1];
      var pruned := Prune(init);
      PruneIsLeast(init);
      InsertDistinct(pruned, last);
      forall t | t in Prune(ts) ensures t in ts {
        InsertMember(pruned, last, t);
      }
      forall t | t in ts ensures Covered(Prune(ts), t) {
        if t in init {
          InsertCovers(pruned, last, t);
        } else {
          InsertKeeps(pruned, last);
        }
      }
    }
  }

  /** `a` and `b` have the same endpoints and labels. */
  predicate Parallel(a: Transition, b: Transition) { a.(weight := b.weight) == b }

  /** Some arc parallel to `a` comes in `ts` before every arc parallel to `b`. */
  ghost predicate Earlier(ts: seq<Transition>, a: Transition, b: Transition) {
    exists i :: 0 <= i < |ts| && Parallel(ts[i], a) && forall k :: 0 <= k <= i ==> !Parallel(ts[k], b)
  }

  /**
   What pruning leaves: no two parallel arcs, a cheapest one for every arc, and these in the order in which the first of
   their parallels come.
   */
  lemma {:induction false} PruneInOrder(ts: seq<Transition>)
    ensures forall t :: t in ts ==> exists p :: p in Prune(ts) && Parallel(p, t) && p.weight <= t.weight
    ensures forall p, q :: 0 <= p < q < |Prune(ts)| ==>
              !Parallel(Prune(ts)[p], Prune(ts)[q]) && Earlier(ts, Prune(ts)[p], Prune(ts)[q])
  {
    hide Prune, Earlier;
    PruneIsLeast(ts);
    forall t | t in ts ensures exists p :: p in Prune(ts) && Parallel(p, t) && p.weight <= t.weight {
      var i :| 0 <= i < |Prune(ts)| && Dominates(Prune(ts)[i], t);
      assert Prune(ts)[i] in Prune(ts);
    }
    forall p, q | 0 <= p < q < |Prune(ts)| ensures Earlier(ts, Prune(ts)[p], Prune(ts)[q]) {
      KeptInOrder(ts, p, q);
    }
  }

  lemma {:induction false} KeptInOrder(ts: seq<Transition>, p: nat, q: nat)
    requires p < q < |Prune(ts)|
    ensures Earlier(ts, Prune(ts)[p], Prune(ts)[q])
  {
    hide Prune;
    PruneIsLeast(ts);
    if ts == [] {
      PruneNone();
    } else {
      var init, last := ts[..|ts| - 1], ts[|ts| - 1];
      PruneIsLeast(init);
      PruneStep(ts);
      if q < |Prune(init)| {
        KeptInOrder(init, p, q);
        var i :| 0 <= i < |init| && Parallel(init[i], Prune(init)[p]) &&
          forall k :: 0 <= k <= i ==> !Parallel(init[k], Prune(init)[q]);
        assert ts[i] == init[i] && forall k :: 0 <= k <= i ==> ts[k] == init[k];
      } else {
        var a := Prune(init)[p];
        assert a in init;
        var i :| 0 <= i < |init| && init[i] == a;
        assert ts[i] == a;
        forall k | 0 <= k <= i ensures !Parallel(ts[k], Prune(ts)[q]) {
          assert ts[k] == init[k] && init[k] in init;
        }
      }
    }
  }

  lemma PruneNone()
    ensures Prune([]) == []
  {
  }

  /** One more arc takes the place of its costlier parallel, or comes last if it has none. */
  lemma {:induction false} PruneStep(ts: seq<Transition>)
    requires ts != []
    ensures var init, last, before, after := ts[..|ts| - 1], ts[|ts| - 1], Prune(ts[..|ts| - 1]), Prune(ts);
            && |before| <= |after| <= |before| + 1
            && (forall i :: 0 <= i < |before| ==> Parallel(after[i], before[i]))
            && (|after| > |before| ==>
                  after[|before|] == last && forall i :: 0 <= i < |before| ==> !Parallel(before[i], last))
  {
    hide Insert;
    InsertStep(Prune(ts[..|ts| - 1]), ts[|ts| - 1]);
  }

  lemma InsertStep(before: seq<Transition>, last: Transition)
    ensures var after := Insert(before, last);
            && |before| <= |after| <= |before| + 1
            && (forall i :: 0 <= i < |before| ==> Parallel(after[i], before[i]))
            && (|after| > |before| ==>
                  after[|before|] == last && forall i :: 0 <= i < |before| ==> !Parallel(before[i], last))
  {
    hide FindKey;
  }

  lemma InsertDistinct(pruned: seq<Transition>, t: Transition)
    requires DistinctKeys(pruned)
    ensures DistinctKeys(Insert(pruned, t))
  {
  }

  lemma {:induction false} FindUnique(ts: seq<Transition>, key: Key, i: nat)
    requires DistinctKeys(ts) && i < |ts| && KeyOf(ts[i]) == key
    ensures FindKey(ts, key) == Some(i)
  {
  }

  lemma {:induction false} FindNone(ts: seq<Transition>, key: Key)
    requires forall i :: 0 <= i < |ts| ==> KeyOf(ts[i]) != key
    ensures FindKey(ts, key) == None
  {
    if ts != [] { FindNone(ts[1..], key); }
  }

  /** The slot of a key, by a linear scan. */
  method ScanFor(pruned: seq<Transition>, key: Key) returns (slot: Option<nat>)
    requires DistinctKeys(pruned)
    ensures slot == FindKey(pruned, key)
    ensures slot.Some? ==> slot.value < |pruned|
  {
    hide DistinctKeys, FindKey, KeyOf;
    var at := 0;
    while at < |pruned| && KeyOf(pruned[at]) != key
      invariant at <= |pruned| && forall i :: 0 <= i < at ==> KeyOf(pruned[i]) != key
    {
      at := at + 1;
    }
    if at == |pruned| {
      FindNone(pruned, key);
      return None;
    }
    FindUnique(pruned, key, at);
    return Some(at);
  }

  /** `prune_dominated_transitions_linear`. */
  method PruneLinear(ts: seq<Transition>) returns (pruned: seq<Transition>)
    ensures pruned == Prune(ts)
  {
    hide DistinctKeys, FindKey, KeyOf;
    pruned := [];
    NoKeys();
    for n := 0 to |ts|
      invariant pruned == Prune(ts[..n]) && DistinctKeys(pruned)
    {
      assert ts[..n + 1][..n] == ts[..n];
      InsertDistinct(pruned, ts[n]);
      var slot := ScanFor(pruned, KeyOf(ts[n]));
      if slot.None? {
        pruned := pruned + [ts[n]];
      } else if ts[n].weight < pruned[slot.value].weight {
        pruned := pruned[slot.value := ts[n]];
      }
    }
    assert ts[..|ts|] == ts;
  }

  lemma NoKeys()
    ensures DistinctKeys([])
  {
  }

  /** The index finds exactly the slot of each key. */
  ghost predicate Indexes(index: map<Key, nat>, pruned: seq<Transition>) {
    && (forall i :: 0 <= i < |pruned| ==> KeyOf(pruned[i]) in index && index[KeyOf(pruned[i])] == i)
    && (forall key :: key in index ==> index[key] < |pruned| && KeyOf(pruned[index[key]]) == key)
  }

  lemma {:induction false} IndexFinds(index: map<Key, nat>, pruned: seq<Transition>, key: Key)
    requires Indexes(index, pruned)
    ensures FindKey(pruned, key) == if key in index then Some(index[key]) else None
  {
  }

  /** The hash form. */
  method PruneHashed(ts: seq<Transition>) returns (pruned: seq<Transition>)
    ensures pruned == Prune(ts)
  {
    hide FindKey;
    pruned := [];
    var index: map<Key, nat> := map[];
    for n := 0 to |ts|
      invariant pruned == Prune(ts[..n]) && Indexes(index, pruned)
    {
      assert ts[..n + 1][..n] == ts[..n];
      var key := KeyOf(ts[n]);
      IndexFinds(index, pruned, key);
      if key !in index {
        index := index[key := |pruned|];
        pruned := pruned + [ts[n]];
      } else if ts[n].weight < pruned[index[key]].weight {
        pruned := pruned[index[key] := ts[n]];
      }
    }
    assert ts[..|ts|] == ts;
  }

  /** `prune_dominated_transitions`: whichever form runs, the result is the same sequence. */
  method PruneDominated(ts: seq<Transition>) returns (pruned: seq<Transition>)
    ensures pruned == Prune(ts)
  {
    if |ts| < 2 {
      assert |ts| == 1 ==> ts[..0] == [] && Prune(ts) == Insert([], ts[0]) == [ts[0]] == ts;
      return ts;
    }
    if |ts| < HASH_PRUNE_THRESHOLD {
      pruned := PruneLinear(ts);
    } else {
      pruned := PruneHashed(ts);
    }
  }
}
