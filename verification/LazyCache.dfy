/**
 The cache of expanded states (src/lazy_cache.rs): least-recently-used eviction through a heap with stale records,
 compaction and tick renumbering. It refines a plain recency list.
 */
module LazyCache {
  import opened Common

  const U64_MAX: nat := 0xFFFF_FFFF_FFFF_FFFF

  datatype CachePolicy = NoCache | CacheAll | Lru(maxStates: nat)

  datatype Entry<T> = Entry(cached: T, lastAccess: nat)

  // ---------------------------------------------------------------- the specification: a recency list

  /** `rec` without `s`; least recent first. */
  function Without(rec: seq<nat>, s: nat): (r: seq<nat>)
    ensures forall x :: x in r <==> x in rec && x != s
    ensures |r| <= |rec| && (s !in rec ==> r == rec)
  {
    if rec == [] then []
    else if rec[0] == s then Without(rec[1..], s)
    else [rec[0]] + Without(rec[1..], s)
  }

  /** Keep the most recent `limit` states. */
  function Newest(rec: seq<nat>, limit: nat): (r: seq<nat>)
    ensures |r| == Min(|rec|, limit)
  {
    if |rec| <= limit then rec else rec[|rec| - limit..]
  }

  /** A touched state becomes the most recent. */
  function Touched(rec: seq<nat>, s: nat): seq<nat> { Without(rec, s) + [s] }

  /** An inserted state becomes the most recent; a new one first evicts the oldest beyond `limit - 1`. */
  function Inserted(rec: seq<nat>, s: nat, limit: nat): seq<nat>
    requires limit >= 1
  {
    if s in rec then Touched(rec, s) else Newest(rec, limit - 1) + [s]
  }

  /** A state that was asked for: touched if resident, otherwise inserted if it could be computed. */
  function Asked(rec: seq<nat>, s: nat, computed: bool, limit: nat): seq<nat>
    requires limit >= 1
  {
    if s in rec then Touched(rec, s) else if computed then Inserted(rec, s, limit) else rec
  }

  // ---------------------------------------------------------------- ticks against recency

  /** The recency list orders the entries by their ticks. */
  ghost predicate OrderedBy<T>(rec: seq<nat>, entries: map<nat, Entry<T>>) {
    && (forall s :: s in rec <==> s in entries)
    && (forall i, j :: 0 <= i < j < |rec| ==>
          rec[i] in entries && rec[j] in entries && entries[rec[i]].lastAccess < entries[rec[j]].lastAccess)
  }

  /** Every entry has a record of its current tick; ticks are positive and no later than the clock. */
  ghost predicate Recorded<T>(entries: map<nat, Entry<T>>, heap: multiset<(nat, nat)>, clock: nat) {
    forall s :: s in entries ==> 1 <= entries[s].lastAccess <= clock && (entries[s].lastAccess, s) in heap
  }

  /** The cache's lists, map, heap and clock under the LRU policy. */
  ghost predicate LruState<T>(rec: seq<nat>, entries: map<nat, Entry<T>>, heap: multiset<(nat, nat)>, clock: nat) {
    && OrderedBy(rec, entries) && Recorded(entries, heap, clock)
    && (forall s :: s in entries ==> s <= U32_MAX)
    && (forall r :: r in heap ==> r.0 <= clock)
  }

  /** A list ordered by ticks has no repetition, so it is as long as the map. */
  lemma OrderedLength<T>(rec: seq<nat>, entries: map<nat, Entry<T>>)
    requires OrderedBy(rec, entries)
    ensures Distinct(rec) && |rec| == |entries|
  {
    forall i, j | 0 <= i < j < |rec| ensures rec[i] != rec[j] {
    }
    DistinctCount(rec, entries.Keys);
  }

  lemma {:induction false} DistinctCount(s: seq<nat>, universe: set<nat>)
    requires Distinct(s) && forall x :: x in s <==> x in universe
    ensures |s| == |universe|
  {
    if s == [] {
      assert universe == {};
    } else {
      var init, last := s[..|s| - 1], s[|s| - 1];
      assert forall x :: x in s <==> x in init || x == last;
      DistinctCount(init, universe - {last});
    }
  }

  /** In order of ticks, though possibly not every entry. */
  ghost predicate Sorted<T>(rec: seq<nat>, entries: map<nat, Entry<T>>) {
    && (forall i :: 0 <= i < |rec| ==> rec[i] in entries)
    && (forall i, j :: 0 <= i < j < |rec| ==> entries[rec[i]].lastAccess < entries[rec[j]].lastAccess)
  }

  /** Removing a state keeps the order of the others. */
  lemma {:induction false} WithoutSorted<T>(rec: seq<nat>, entries: map<nat, Entry<T>>, s: nat)
    requires Sorted(rec, entries)
    ensures Sorted(Without(rec, s), entries) && forall x :: x in Without(rec, s) ==> x in rec
    decreases |rec|
  {
    if rec != [] {
      assert forall i :: 0 <= i < |rec[1..]| ==> rec[1..][i] == rec[i + 1];
      WithoutSorted(rec[1..], entries, s);
      var rest := Without(rec[1..], s);
      forall i | 0 <= i < |rest| ensures entries[rec[0]].lastAccess < entries[rest[i]].lastAccess {
        assert rest[i] in rec[1..];
        var j :| 0 <= j < |rec[1..]| && rec[1..][j] == rest[i];
        assert rec[j + 1] == rest[i];
      }
    }
  }

  /** Dropping the oldest state keeps the order. */
  lemma EvictOrdered<T>(rec: seq<nat>, entries: map<nat, Entry<T>>)
    requires OrderedBy(rec, entries) && rec != []
    ensures OrderedBy(rec[1..], entries - {rec[0]})
  {
    assert forall s :: s in rec <==> s == rec[0] || s in rec[1..];
  }

  /** A state with a later tick than all others goes to the end. */
  lemma {:induction false} SortedSnoc<T>(rest: seq<nat>, entries: map<nat, Entry<T>>, s: nat, e: Entry<T>, clock: nat)
    requires Sorted(rest, entries) && s !in rest && e.lastAccess > clock
    requires forall i :: 0 <= i < |rest| ==> entries[rest[i]].lastAccess <= clock
    ensures Sorted(rest + [s], entries[s := e])
  {
    var all, updated := rest + [s], entries[s := e];
    forall i | 0 <= i < |all| ensures all[i] in updated {
    }
    forall i, j | 0 <= i < j < |all| ensures updated[all[i]].lastAccess < updated[all[j]].lastAccess {
      assert rest[i] != s && updated[all[i]] == entries[rest[i]];
    }
  }

  /** Giving a state a later tick than all others moves it to the end. */
  lemma {:induction false} StampOrdered<T>(rec: seq<nat>, entries: map<nat, Entry<T>>, s: nat, e: Entry<T>, clock: nat)
    requires OrderedBy(rec, entries) && e.lastAccess > clock
    requires forall x :: x in entries ==> entries[x].lastAccess <= clock
    ensures OrderedBy(Touched(rec, s), entries[s := e])
  {
    hide Sorted;
    var rest := Without(rec, s);
    OrderedSorted(rec, entries);
    WithoutSorted(rec, entries, s);
    AllIn(rest, rec, entries);
    SortedSnoc(rest, entries, s, e, clock);
    SortedOrdered(rest + [s], entries[s := e]);
  }

  lemma {:induction false} OrderedSorted<T>(rec: seq<nat>, entries: map<nat, Entry<T>>)
    requires OrderedBy(rec, entries)
    ensures Sorted(rec, entries)
  {
    assert forall i :: 0 <= i < |rec| ==> rec[i] in rec;
  }

  lemma {:induction false} AllIn<T>(rest: seq<nat>, rec: seq<nat>, entries: map<nat, Entry<T>>)
    requires OrderedBy(rec, entries) && forall x :: x in rest ==> x in rec
    ensures forall i :: 0 <= i < |rest| ==> rest[i] in entries
  {
    assert forall i :: 0 <= i < |rest| ==> rest[i] in rest;
  }

  lemma {:induction false} SortedOrdered<T>(rec: seq<nat>, entries: map<nat, Entry<T>>)
    requires Sorted(rec, entries) && forall s :: s in rec <==> s in entries
    ensures OrderedBy(rec, entries)
  {
  }

  // ---------------------------------------------------------------- heap of (tick, state) records, least first

  predicate Before(a: (nat, nat), b: (nat, nat)) { a.0 < b.0 || (a.0 == b.0 && a.1 <= b.1) }

  lemma LeastExists(h: multiset<(nat, nat)>) returns (m: (nat, nat))
    requires |h| > 0
    ensures m in h && forall x :: x in h ==> Before(m, x)
    decreases |h|
  {
    m := SomeRecord(h);
    var rest := h - multiset{m};
    if |rest| > 0 {
      var m' := LeastExists(rest);
      m := if Before(m', m) then m' else m;
    }
    assert forall x :: x in h ==> x in rest || h[x] == rest[x] + 1;
  }

  lemma SomeRecord(h: multiset<(nat, nat)>) returns (x: (nat, nat))
    requires |h| > 0
    ensures x in h
  {
    if forall x :: x !in h {
      NoRecords(h);
    }
    x :| x in h;
  }

  lemma NoRecords(h: multiset<(nat, nat)>)
    requires forall x :: x !in h
    ensures |h| == 0
  {
    assert forall x :: h[x] == 0;
    assert h == multiset{};
  }

  /** The current records of all entries. */
  function Records<T>(entries: map<nat, Entry<T>>): set<(nat, nat)> {
    set s | s in entries && entries[s].lastAccess > 0 :: (entries[s].lastAccess, s)
  }

  lemma {:induction false} RecordsBounded<T>(entries: map<nat, Entry<T>>)
    ensures |Records(entries)| <= |entries|
    decreases |entries|
  {
    if entries == map[] {
      assert Records(entries) == {};
    } else {
      var s :| s in entries;
      var rest := entries - {s};
      RecordsBounded(rest);
      forall r | r in Records(entries) ensures r in Records(rest) + {(entries[s].lastAccess, s)} {
        assert r.1 != s ==> r.1 in rest && rest[r.1] == entries[r.1];
      }
      SubsetSize(Records(entries), Records(rest) + {(entries[s].lastAccess, s)});
    }
  }

  /** States are `u32`, so there are always far fewer entries than ticks. */
  lemma {:induction false} FewStates(keys: set<nat>, n: nat)
    requires forall s :: s in keys ==> s < n
    ensures |keys| <= n
  {
    if n > 0 {
      FewStates(keys - {n - 1}, n - 1);
    } else {
      assert keys == {};
    }
  }

  // ---------------------------------------------------------------- the cache

  class LazyStateCache<T(0)> {
    var entries: map<nat, Entry<T>>
    var lruHeap: multiset<(nat, nat)>
    var scratch: Option<(nat, T)>
    var clock: nat
    var policy: CachePolicy
    var maxLruStates: nat
    ghost var recency: seq<nat>

    function LruLimit(): (limit: nat)
      requires policy.Lru?
      reads this
    {
      Max(if policy.maxStates > 0 then policy.maxStates else maxLruStates, 1)
    }

    ghost predicate Valid()
      reads this
    {
      && maxLruStates >= 1 && clock <= U64_MAX && (scratch.Some? ==> policy.NoCache?)
      && match policy
         case NoCache => entries == map[]
         case CacheAll => true
         case Lru(_) => LruState(recency, entries, lruHeap, clock) && |recency| <= LruLimit()
    }

    /** The value served for a state. */
    function Get(state: nat): Option<T>
      reads this
    {
      if state in entries then Some(entries[state].cached)
      else if scratch.Some? && scratch.value.0 == state then Some(scratch.value.1)
      else None
    }

    constructor (maxLruStates: nat)
      ensures Valid() && policy == CacheAll && entries == map[] && scratch == None
    {
      entries, lruHeap, scratch, clock := map[], multiset{}, None, 0;
      policy, this.maxLruStates := CacheAll, Max(maxLruStates, 1);
      recency := [];
    }

    /** Forgets every state; the settings stay. */
    method Clear()
      requires maxLruStates >= 1
      modifies this
      ensures Valid() && policy == old(policy) && maxLruStates == old(maxLruStates)
      ensures entries == map[] && scratch == None && recency == []
    {
      entries, lruHeap, scratch, clock := map[], multiset{}, None, 0;
      recency := [];
    }

    /** Changing the policy empties the cache. */
    method SetPolicy(policy: CachePolicy)
      requires Valid()
      modifies this
      ensures Valid() && this.policy == policy && entries == map[] && scratch == None && recency == []
      ensures maxLruStates == old(maxLruStates)
    {
      this.policy := policy;
      Clear();
    }

    method RebuildLruHeap()
      modifies this`lruHeap
      ensures lruHeap == multiset(Records(entries)) && |lruHeap| <= |entries|
    {
      lruHeap := multiset(Records(entries));
      RecordsBounded(entries);
    }

    /**
     Renumbering replaces the ticks by 1, 2, ... in age order. It changes neither the residents, nor their values, nor
     their order.
     */
    method RenumberLruTicks()
      requires LruState(recency, entries, lruHeap, clock)
      modifies this`entries, this`lruHeap, this`clock
      ensures LruState(recency, entries, lruHeap, clock) && clock == |recency| && SameValues(old(entries), entries)
    {
      hide OrderedBy, SameValues, InjectiveTicks;
      OrderedInjective(recency, entries);
      var byAge := SortByAge(entries);
      OrderedUnique(byAge, recency, entries);
      var stamped := Restamp(entries, byAge);
      RestampKeeps(recency, entries, stamped);
      entries := stamped;
      clock := |byAge|;
      RebuildLruHeap();
    }

    /** A tick later than every tick in use; at `u64::MAX` the ticks in use are renumbered first. */
    method NextTick() returns (tick: nat)
      requires LruState(recency, entries, lruHeap, clock) && clock <= U64_MAX
      modifies this`entries, this`lruHeap, this`clock
      ensures 1 <= tick == clock <= U64_MAX && LruState(recency, entries, lruHeap, clock - 1)
      ensures SameValues(old(entries), entries)
    {
      hide LruState;
      if clock == U64_MAX {
        RenumberLruTicks();
        FewEntries(recency, entries, lruHeap, clock);
      }
      clock := clock + 1;
      tick := clock;
    }

    /** Pops records until one is current: that is the least recent state. */
    method PopLruVictim() returns (victim: Option<nat>)
      requires LruState(recency, entries, lruHeap, clock)
      modifies this`lruHeap
      ensures if recency == [] then victim == None && lruHeap == multiset{}
              else victim == Some(recency[0]) && LruState(recency[1..], entries - {recency[0]}, lruHeap, clock)
    {
      while |lruHeap| > 0
        invariant LruState(recency, entries, lruHeap, clock)
        decreases |lruHeap|
      {
        hide LruState;
        ghost var least := LeastExists(lruHeap);
        var r :| r in lruHeap && forall x :: x in lruHeap ==> Before(r, x);
        PopKeeps(recency, entries, lruHeap, clock, r);
        lruHeap := lruHeap - multiset{r};
        if r.1 in entries && entries[r.1].lastAccess == r.0 {
          return Some(r.1);
        }
      }
      NothingLeft(recency, entries, lruHeap, clock);
      return None;
    }

    method EvictOneLru() returns (evicted: bool)
      requires LruState(recency, entries, lruHeap, clock)
      modifies this`entries, this`lruHeap, this`recency
      ensures evicted == (old(recency) != [])
      ensures LruState(recency, entries, lruHeap, clock)
      ensures if evicted then recency == old(recency)[1..] && entries == old(entries) - {old(recency)[0]}
              else recency == old(recency) && entries == old(entries)
    {
      var victim := PopLruVictim();
      if victim.None? {
        RebuildLruHeap();
        victim := PopLruVictim();
        if victim.None? {
          return false;
        }
      }
      entries := entries - {victim.value};
      recency := recency[1..];
      return true;
    }

    /** Evicts the least recent states until at most `limit` are left. */
    method EvictLruUntilAtMost(limit: nat)
      requires LruState(recency, entries, lruHeap, clock)
      modifies this`entries, this`lruHeap, this`recency
      ensures LruState(recency, entries, lruHeap, clock) && recency == Newest(old(recency), limit)
      ensures Survive(old(entries), entries)
    {
      hide LruState, Survive, Distinct, Newest;
      ghost var all, was := recency, entries;
      ghost var dropped := 0;
      EntriesCounted(recency, entries, lruHeap, clock);
      SurviveSelf(entries);
      while |entries| > limit
        invariant LruState(recency, entries, lruHeap, clock) && |entries| == |recency|
        invariant dropped <= |all| && recency == all[dropped..] && (|recency| >= limit || dropped == 0)
        invariant Survive(was, entries)
        decreases |entries|
      {
        SurviveWithout(was, entries, recency[0]);
        var evicted := EvictOneLru();
        EntriesCounted(recency, entries, lruHeap, clock);
        dropped := dropped + 1;
      }
      NewestIsSuffix(all, dropped, limit);
    }

    method CompactLruHeapIfNeeded()
      requires LruState(recency, entries, lruHeap, clock)
      modifies this`lruHeap
      ensures LruState(recency, entries, lruHeap, clock) && |lruHeap| <= Max(64, 4 * |entries|)
    {
      if |lruHeap| > Max(64, 4 * |entries|) {
        RebuildLruHeap();
      }
    }

    /** Store a value under a fresh tick, record the tick, and compact the heap if it has grown too far. */
    method Stamp(state: nat, value: T)
      requires LruState(recency, entries, lruHeap, clock) && clock <= U64_MAX && state <= U32_MAX
      modifies this`entries, this`lruHeap, this`clock, this`recency
      ensures LruState(recency, entries, lruHeap, clock) && clock <= U64_MAX && recency == Touched(old(recency), state)
      ensures Updated(old(entries), entries, state, value) && |lruHeap| <= Max(64, 4 * |entries|)
    {
      hide LruState, SameValues, Updated;
      var tick := NextTick();
      StampKeeps(recency, entries, lruHeap, clock, state, value);
      UpdatedBy(old(entries), entries, state, value, tick);
      entries := entries[state := Entry(value, tick)];
      lruHeap := lruHeap + multiset{(tick, state)};
      recency := Touched(recency, state);
      CompactLruHeapIfNeeded();
    }

    /** Insert under LRU: the residents afterwards are those of the recency list. */
    method InsertLru(state: nat, value: T)
      requires Valid() && state <= U32_MAX && policy.Lru?
      modifies this`entries, this`lruHeap, this`clock, this`recency
      ensures Valid() && recency == Inserted(old(recency), state, LruLimit())
      ensures OnlyNew(old(entries), entries, state, value)
      ensures |lruHeap| <= Max(64, 4 * |entries|)
    {
      hide LruState, Distinct, Newest, Touched, Inserted, Survive, Updated, OnlyNew;
      var limit := LruLimit();
      SurviveSelf(entries);
      EntriesCounted(recency, entries, lruHeap, clock);
      Resident(recency, entries, lruHeap, clock, state);
      InsertedFits(recency, state, limit);
      if state !in entries {
        EvictLruUntilAtMost(limit - 1);
      }
      ghost var kept := entries;
      Stamp(state, value);
      OnlyNewValue(old(entries), kept, entries, state, value);
      EntriesCounted(recency, entries, lruHeap, clock);
    }

    /** Insert under each policy; the inserted value is what is served afterwards. */
    method Insert(state: nat, value: T)
      requires Valid() && state <= U32_MAX
      modifies this
      ensures Valid() && policy == old(policy) && maxLruStates == old(maxLruStates) && Get(state) == Some(value)
      ensures forall s :: s != state && Get(s).Some? ==> Get(s) == old(Get(s))
      ensures policy.NoCache? ==> entries == map[] && scratch == Some((state, value))
      ensures policy.CacheAll? ==> entries == old(entries)[state := Entry(value, 0)] && scratch == None
      ensures policy.Lru? ==>
                && recency == Inserted(old(recency), state, LruLimit()) && scratch == None
                && |recency| <= LruLimit() && |lruHeap| <= Max(64, 4 * |entries|)
    {
      hide LruState, Inserted;
      match policy
      case NoCache => scratch := Some((state, value));
      case CacheAll =>
        entries := entries[state := Entry(value, 0)];
        scratch := None;
      case Lru(_) =>
        InsertLru(state, value);
        scratch := None;
    }

    /** A cached state is served and, under LRU, becomes the most recent. */
    method TouchIfCached(state: nat) returns (hit: bool)
      requires Valid()
      modifies this`entries, this`lruHeap, this`clock, this`recency
      ensures Valid() && hit == old(Get(state)).Some?
      ensures forall s :: Get(s) == old(Get(s))
      ensures entries.Keys == old(entries.Keys)
      ensures policy.Lru? && state in old(entries) ==>
                recency == Touched(old(recency), state) && |lruHeap| <= Max(64, 4 * |entries|)
      ensures !(policy.Lru? && state in old(entries)) ==> recency == old(recency)
    {
      hide LruState, Distinct;
      if state in entries {
        if policy.Lru? {
          EntriesCounted(recency, entries, lruHeap, clock);
          Resident(recency, entries, lruHeap, clock, state);
          TouchedFits(recency, state);
          hide Touched;
          Stamp(state, entries[state].cached);
        }
        return true;
      }
      return scratch.Some? && scratch.value.0 == state;
    }

    lemma KeptHere()
      requires Valid()
      ensures policy.Lru? ==> forall s: nat :: s in entries <==> s in recency
      ensures policy.NoCache? ==> entries == map[]
    {
    }

    lemma ResidentHere(s: nat)
      requires Valid() && policy.Lru?
      ensures s in entries <==> s in recency
    {
    }

    /** Everything served agrees with a deterministic source. */
    ghost predicate Agrees(source: nat -> Option<T>, isValid: nat -> bool)
      reads this
    {
      forall s: nat :: Get(s).Some? ==> isValid(s) && source(s) == Get(s)
    }

    /**
     `ensure_cached_char_state`: whatever the policy and the history, the answer is the source's own, and an expanded
     state is served until the next operation. Failed expansions are not cached.
     */
    method EnsureState(state: nat, source: nat -> Option<T>, isValid: nat -> bool) returns (answer: Option<T>)
      requires Valid() && Agrees(source, isValid) && state <= U32_MAX
      modifies this
      ensures Valid() && Agrees(source, isValid) && policy == old(policy) && maxLruStates == old(maxLruStates)
      ensures answer == if isValid(state) then source(state) else None
      ensures answer.Some? ==> Get(state) == answer
      ensures policy.CacheAll? ==> entries.Keys == old(entries.Keys) + if answer.Some? then {state} else {}
      ensures policy.Lru? ==> recency == Asked(old(recency), state, answer.Some?, LruLimit())
    {
      hide LruState, Touched, Inserted;
      if policy.Lru? { ResidentHere(state); }
      var hit := TouchIfCached(state);
      if hit {
        return Get(state);
      }
      if !isValid(state) {
        return None;
      }
      answer := CacheExpansion(state, source, isValid);
    }

    /** `cache_char_state_expansion`: the state's expansion, cached unless it failed. */
    method CacheExpansion(state: nat, source: nat -> Option<T>, isValid: nat -> bool) returns (answer: Option<T>)
      requires Valid() && Agrees(source, isValid) && state <= U32_MAX && isValid(state)
      modifies this
      ensures Valid() && Agrees(source, isValid) && policy == old(policy) && maxLruStates == old(maxLruStates)
      ensures answer == source(state) && (answer.Some? ==> Get(state) == answer)
      ensures answer.None? ==> entries == old(entries) && scratch == old(scratch)
      ensures policy.CacheAll? ==> entries.Keys == old(entries.Keys) + if answer.Some? then {state} else {}
      ensures policy.Lru? ==>
                recency == if answer.Some? then Inserted(old(recency), state, LruLimit()) else old(recency)
    {
      hide LruState, Touched, Inserted;
      answer := source(state);
      if answer.Some? {
        Insert(state, answer.value);
      }
    }

    /** Lowering the default LRU limit evicts the least recent states at once; what is still served has not changed. */
    method SetMaxLruStates(size: nat)
      requires Valid()
      modifies this
      ensures Valid() && maxLruStates == Max(size, 1) && policy == old(policy)
      ensures policy == Lru(0) ==> recency == Newest(old(recency), maxLruStates) && Survive(old(entries), entries)
      ensures policy != Lru(0) ==> recency == old(recency) && entries == old(entries)
      ensures scratch == old(scratch) && forall s: nat :: Get(s).Some? ==> Get(s) == old(Get(s))
    {
      hide LruState;
      maxLruStates := Max(size, 1);
      if policy == Lru(0) {
        EvictLruUntilAtMost(maxLruStates);
      }
    }
  }

  // ---------------------------------------------------------------- lemmas about whole LRU states

  /** Every remaining entry is an old one. */
  ghost predicate Survive<T>(before: map<nat, Entry<T>>, after: map<nat, Entry<T>>) {
    forall s :: s in after ==> s in before && after[s] == before[s]
  }

  lemma NewestIsSuffix(all: seq<nat>, dropped: nat, limit: nat)
    requires dropped <= |all| && |all| - dropped <= limit && (|all| - dropped >= limit || dropped == 0)
    ensures Newest(all, limit) == all[dropped..]
  {
  }

  lemma SurviveSelf<T>(entries: map<nat, Entry<T>>)
    ensures Survive(entries, entries)
  {
  }

  lemma SurviveWithout<T>(before: map<nat, Entry<T>>, after: map<nat, Entry<T>>, s: nat)
    requires Survive(before, after)
    ensures Survive(before, after - {s})
  {
  }

  /** `after` is `before` with the value of `s` set; ticks may differ. */
  ghost predicate Updated<T>(before: map<nat, Entry<T>>, after: map<nat, Entry<T>>, s: nat, v: T) {
    && after.Keys == before.Keys + {s} && after[s].cached == v
    && forall x :: x in before && x != s ==> after[x].cached == before[x].cached
  }

  /** `after` serves `v` for `s`, and for other states only what `before` served. */
  ghost predicate OnlyNew<T>(before: map<nat, Entry<T>>, after: map<nat, Entry<T>>, s: nat, v: T) {
    && s in after && after[s].cached == v
    && forall x :: x in after && x != s ==> x in before && after[x].cached == before[x].cached
  }

  lemma OnlyNewValue<T>(before: map<nat, Entry<T>>, kept: map<nat, Entry<T>>, after: map<nat, Entry<T>>, s: nat, v: T)
    requires Survive(before, kept) && Updated(kept, after, s, v)
    ensures OnlyNew(before, after, s, v)
  {
  }

  lemma UpdatedBy<T>(before: map<nat, Entry<T>>, same: map<nat, Entry<T>>, s: nat, v: T, tick: nat)
    requires SameValues(before, same)
    ensures Updated(before, same[s := Entry(v, tick)], s, v)
  {
  }

  lemma EntriesCounted<T>(rec: seq<nat>, entries: map<nat, Entry<T>>, heap: multiset<(nat, nat)>, clock: nat)
    requires LruState(rec, entries, heap, clock)
    ensures |entries| == |rec| && Distinct(rec)
  {
    OrderedLength(rec, entries);
  }

  lemma Resident<T>(rec: seq<nat>, entries: map<nat, Entry<T>>, heap: multiset<(nat, nat)>, clock: nat, s: nat)
    requires LruState(rec, entries, heap, clock)
    ensures s in rec <==> s in entries
    ensures s in entries ==> s <= U32_MAX
  {
  }

  lemma FewEntries<T>(rec: seq<nat>, entries: map<nat, Entry<T>>, heap: multiset<(nat, nat)>, clock: nat)
    requires LruState(rec, entries, heap, clock)
    ensures |rec| <= U32_MAX + 1
  {
    OrderedLength(rec, entries);
    FewStates(entries.Keys, U32_MAX + 1);
    assert |entries.Keys| == |entries|;
  }

  /** Popping the least record: if it is current, its state is the least recent; otherwise nothing is lost. */
  lemma PopKeeps<T>(rec: seq<nat>, entries: map<nat, Entry<T>>, heap: multiset<(nat, nat)>, clock: nat, r: (nat, nat))
    requires LruState(rec, entries, heap, clock) && r in heap && forall x :: x in heap ==> Before(r, x)
    ensures if r.1 in entries && entries[r.1].lastAccess == r.0
            then rec != [] && r.1 == rec[0] && LruState(rec[1..], entries - {rec[0]}, heap - multiset{r}, clock)
            else LruState(rec, entries, heap - multiset{r}, clock)
  {
    hide OrderedBy;
    if r.1 in entries && entries[r.1].lastAccess == r.0 {
      RecNonEmpty(rec, entries, r.1);
      OldestFirst(rec, entries);
      assert (entries[rec[0]].lastAccess, rec[0]) in heap;
      EvictOrdered(rec, entries);
    }
  }

  lemma RecNonEmpty<T>(rec: seq<nat>, entries: map<nat, Entry<T>>, s: nat)
    requires OrderedBy(rec, entries) && s in entries
    ensures rec != []
  {
    assert s in rec;
  }

  lemma NothingLeft<T>(rec: seq<nat>, entries: map<nat, Entry<T>>, heap: multiset<(nat, nat)>, clock: nat)
    requires LruState(rec, entries, heap, clock) && |heap| == 0
    ensures rec == [] && heap == multiset{}
  {
    if rec != [] {
      OldestFirst(rec, entries);
    }
  }

  /** Stamping a state with a fresh tick makes it the most recent. */
  lemma StampKeeps<T>(rec: seq<nat>, entries: map<nat, Entry<T>>, heap: multiset<(nat, nat)>, clock: nat, s: nat, v: T)
    requires clock >= 1 && LruState(rec, entries, heap, clock - 1) && s <= U32_MAX
    ensures LruState(Touched(rec, s), entries[s := Entry(v, clock)], heap + multiset{(clock, s)}, clock)
  {
    hide OrderedBy;
    StampOrdered(rec, entries, s, Entry(v, clock), clock - 1);
  }

  /** The specification itself never exceeds the limit. */
  lemma InsertedFits(rec: seq<nat>, s: nat, limit: nat)
    requires limit >= 1 && Distinct(rec) && |rec| <= limit
    ensures |Inserted(rec, s, limit)| <= limit
    ensures s in rec ==> Touched(rec, s) == Inserted(rec, s, limit)
    ensures s !in rec ==> Touched(Newest(rec, limit - 1), s) == Inserted(rec, s, limit)
  {
    if s in rec {
      TouchedFits(rec, s);
    } else {
      assert s !in Newest(rec, limit - 1);
    }
  }

  lemma {:induction false} TouchedFits(rec: seq<nat>, s: nat)
    requires Distinct(rec) && s in rec
    ensures |Touched(rec, s)| == |rec|
    decreases |rec|
  {
    if rec[0] == s {
      assert s !in rec[1..];
    } else {
      assert s in rec[1..];
      TouchedFits(rec[1..], s);
    }
  }

  /** Same residents with the same values. */
  ghost predicate SameValues<T>(a: map<nat, Entry<T>>, b: map<nat, Entry<T>>) {
    a.Keys == b.Keys && forall s :: s in a ==> a[s].cached == b[s].cached
  }

  ghost predicate InjectiveTicks<T>(entries: map<nat, Entry<T>>) {
    forall s, x :: s in entries && x in entries && s != x ==> entries[s].lastAccess != entries[x].lastAccess
  }

  lemma OrderedInjective<T>(rec: seq<nat>, entries: map<nat, Entry<T>>)
    requires OrderedBy(rec, entries)
    ensures InjectiveTicks(entries)
  {
    forall s, x | s in entries && x in entries && s != x ensures entries[s].lastAccess != entries[x].lastAccess {
      var i :| 0 <= i < |rec| && rec[i] == s;
      var j :| 0 <= j < |rec| && rec[j] == x;
      assert i < j || j < i;
    }
  }

  lemma {:induction false} OrderedUnique<T>(a: seq<nat>, b: seq<nat>, entries: map<nat, Entry<T>>)
    requires OrderedBy(a, entries) && OrderedBy(b, entries)
    ensures a == b
    decreases |a|
  {
    OrderedLength(a, entries);
    OrderedLength(b, entries);
    if a != [] {
      assert a[0] in a && b[0] in b;
      OldestFirst(a, entries);
      OldestFirst(b, entries);
      assert a[0] == b[0];
      hide OrderedBy;
      EvictOrdered(a, entries);
      EvictOrdered(b, entries);
      OrderedUnique(a[1..], b[1..], entries - {a[0]});
    }
  }

  lemma OldestFirst<T>(rec: seq<nat>, entries: map<nat, Entry<T>>)
    requires OrderedBy(rec, entries) && rec != []
    ensures rec[0] in entries
    ensures forall s :: s in entries && s != rec[0] ==> entries[rec[0]].lastAccess < entries[s].lastAccess
  {
    assert rec[0] in rec;
    forall s | s in entries && s != rec[0] ensures entries[rec[0]].lastAccess < entries[s].lastAccess {
      var i :| 0 <= i < |rec| && rec[i] == s;
    }
  }

  lemma Oldest<T>(keys: set<nat>, entries: map<nat, Entry<T>>) returns (s: nat)
    requires keys != {} && keys <= entries.Keys
    ensures s in keys && forall x :: x in keys ==> entries[s].lastAccess <= entries[x].lastAccess
    decreases keys
  {
    s :| s in keys;
    if keys - {s} != {} {
      var s' := Oldest(keys - {s}, entries);
      assert forall x :: x in keys ==> x == s || x in keys - {s};
      s := if entries[s'].lastAccess < entries[s].lastAccess then s' else s;
    } else {
      assert keys == {s};
    }
  }

  lemma RestampKeeps<T>(rec: seq<nat>, entries: map<nat, Entry<T>>, stamped: map<nat, Entry<T>>)
    requires SameValues(entries, stamped) && OrderedBy(rec, stamped)
    requires forall s :: s in entries ==> s <= U32_MAX
    requires forall s :: s in stamped ==> 1 <= stamped[s].lastAccess <= |rec|
    ensures LruState(rec, stamped, multiset(Records(stamped)), |rec|)
  {
    hide OrderedBy;
    assert forall s :: s in stamped ==> s in entries;
  }

  /** The sort of `renumber_lru_ticks`. */
  method SortByAge<T>(entries: map<nat, Entry<T>>) returns (byAge: seq<nat>)
    requires InjectiveTicks(entries)
    ensures OrderedBy(byAge, entries)
  {
    var left := entries.Keys;
    byAge := [];
    while left != {}
      invariant left <= entries.Keys && Sorted(byAge, entries)
      invariant forall s :: s in entries <==> s in byAge || s in left
      invariant forall s, x :: s in byAge && x in left ==> entries[s].lastAccess < entries[x].lastAccess
      decreases left
    {
      ghost var oldest := Oldest(left, entries);
      var s :| s in left && forall x :: x in left ==> entries[s].lastAccess <= entries[x].lastAccess;
      assert forall i :: 0 <= i < |byAge| ==> byAge[i] in byAge;
      byAge := byAge + [s];
      left := left - {s};
    }
  }

  /** The loop of `renumber_lru_ticks`. */
  method Restamp<T>(entries: map<nat, Entry<T>>, byAge: seq<nat>) returns (stamped: map<nat, Entry<T>>)
    requires OrderedBy(byAge, entries)
    ensures SameValues(entries, stamped) && OrderedBy(byAge, stamped)
    ensures forall s :: s in stamped ==> 1 <= stamped[s].lastAccess <= |byAge|
  {
    OrderedLength(byAge, entries);
    OrderedMembers(byAge, entries);
    stamped := entries;
    for i := 0 to |byAge|
      invariant SameValues(entries, stamped)
      invariant forall j :: 0 <= j < i ==> byAge[j] in stamped && stamped[byAge[j]].lastAccess == j + 1
    {
      hide OrderedBy;
      stamped := stamped[byAge[i] := stamped[byAge[i]].(lastAccess := i + 1)];
    }
    RestampedOrdered(byAge, entries, stamped);
  }

  lemma OrderedMembers<T>(rec: seq<nat>, entries: map<nat, Entry<T>>)
    requires OrderedBy(rec, entries)
    ensures forall i :: 0 <= i < |rec| ==> rec[i] in entries
  {
    assert forall i :: 0 <= i < |rec| ==> rec[i] in rec;
  }

  lemma RestampedOrdered<T>(rec: seq<nat>, entries: map<nat, Entry<T>>, stamped: map<nat, Entry<T>>)
    requires OrderedBy(rec, entries) && SameValues(entries, stamped)
    requires forall j :: 0 <= j < |rec| ==> rec[j] in stamped && stamped[rec[j]].lastAccess == j + 1
    ensures OrderedBy(rec, stamped)
    ensures forall s :: s in stamped ==> 1 <= stamped[s].lastAccess <= |rec|
  {
    assert forall s :: s in stamped ==> s in rec;
  }

  // ---------------------------------------------------------------- whole runs

  datatype Operation<T> = InsertState(state: nat, value: T) | TouchState(state: nat) | Resize(size: nat)

  /** What a run of an LRU cache amounts to: a recency list and a default limit. */
  datatype Spec = Spec(recency: seq<nat>, maxLruStates: nat)

  function SpecLimit(maxStates: nat, maxLruStates: nat): nat { if maxStates > 0 then maxStates else maxLruStates }

  function SpecStep<T>(spec: Spec, maxStates: nat, op: Operation<T>): Spec
    requires spec.maxLruStates >= 1
  {
    match op
    case InsertState(s, _) => spec.(recency := Inserted(spec.recency, s, SpecLimit(maxStates, spec.maxLruStates)))
    case TouchState(s) => if s in spec.recency then spec.(recency := Touched(spec.recency, s)) else spec
    case Resize(n) =>
      var size := if n >= 1 then n else 1;
      Spec(if maxStates == 0 then Newest(spec.recency, size) else spec.recency, size)
  }

  function SpecRun<T>(spec: Spec, maxStates: nat, ops: seq<Operation<T>>): (r: Spec)
    requires spec.maxLruStates >= 1
    ensures r.maxLruStates >= 1
    decreases |ops|
  {
    if ops == [] then spec
    else SpecStep(SpecRun(spec, maxStates, ops[..|ops| - 1]), maxStates, ops[|ops| - 1])
  }

  /** Over every sequence of operations the cache behaves as the recency list and never exceeds its limit. */
  method Replay<T(0)>(cache: LazyStateCache<T>, ops: seq<Operation<T>>)
    requires cache.Valid() && cache.policy.Lru?
    requires forall i :: 0 <= i < |ops| && ops[i].InsertState? ==> ops[i].state <= U32_MAX
    modifies cache
    ensures cache.Valid() && cache.policy == old(cache.policy)
    ensures Spec(cache.recency, cache.maxLruStates) ==
            SpecRun(Spec(old(cache.recency), old(cache.maxLruStates)), cache.policy.maxStates, ops)
    ensures |cache.entries| == |cache.recency| <= cache.LruLimit()
    ensures forall s :: s in cache.entries <==> s in cache.recency
  {
    hide LruState, Inserted, Touched, Newest;
    ghost var start := Spec(cache.recency, cache.maxLruStates);
    for i := 0 to |ops|
      invariant cache.Valid() && cache.policy == old(cache.policy)
      invariant Spec(cache.recency, cache.maxLruStates) == SpecRun(start, cache.policy.maxStates, ops[..i])
    {
      assert ops[..i + 1][..i] == ops[..i] && ops[..i + 1][i] == ops[i];
      match ops[i]
      case InsertState(s, v) => cache.Insert(s, v);
      case TouchState(s) =>
        cache.ResidentHere(s);
        var hit := cache.TouchIfCached(s);
      case Resize(n) => cache.SetMaxLruStates(n);
    }
    assert ops[..|ops|] == ops;
    forall s ensures s in cache.entries <==> s in cache.recency {
      if s >= 0 { cache.ResidentHere(s); }
    }
    EntriesCounted(cache.recency, cache.entries, cache.lruHeap, cache.clock);
  }

  // ---------------------------------------------------------------- whole sessions

  /** What a machine does with its cache: asking for states, and changing or resetting the cache in between. */
  datatype Command = Ask(state: nat) | SetLimit(size: nat) | ChangePolicy(policy: CachePolicy) | Forget

  /** What a session amounts to: the settings and the states that are kept, least recent first under LRU. */
  datatype Session = Session(policy: CachePolicy, maxLruStates: nat, kept: seq<nat>)

  /** The answer that a source without any cache gives. */
  function Direct<T>(source: nat -> Option<T>, isValid: nat -> bool, state: nat): Option<T> {
    if isValid(state) then source(state) else None
  }

  function SessionStep<T>(s: Session, source: nat -> Option<T>, isValid: nat -> bool, c: Command): Session
    requires s.maxLruStates >= 1
  {
    match c
    case Ask(state) =>
      var computed := Direct(source, isValid, state).Some?;
      (match s.policy
       case NoCache => s
       case CacheAll => if computed && state !in s.kept then s.(kept := s.kept + [state]) else s
       case Lru(n) => s.(kept := Asked(s.kept, state, computed, SpecLimit(n, s.maxLruStates))))
    case SetLimit(n) =>
      var size := if n >= 1 then n else 1;
      Session(s.policy, size, if s.policy == Lru(0) then Newest(s.kept, size) else s.kept)
    case ChangePolicy(policy) => Session(policy, s.maxLruStates, [])
    case Forget => s.(kept := [])
  }

  function SessionRun<T>(s: Session, source: nat -> Option<T>, isValid: nat -> bool, cs: seq<Command>): (r: Session)
    requires s.maxLruStates >= 1
    ensures r.maxLruStates >= 1
    decreases |cs|
  {
    if cs == [] then s
    else SessionStep(SessionRun(s, source, isValid, cs[..|cs| - 1]), source, isValid, cs[|cs| - 1])
  }

  /** The cache keeps exactly the states of the session. */
  ghost predicate Stands<T(0)>(cache: LazyStateCache<T>, s: Session)
    reads cache
  {
    && cache.policy == s.policy && cache.maxLruStates == s.maxLruStates
    && (forall x: nat :: x in cache.entries <==> x in s.kept)
    && (s.policy.Lru? ==> cache.recency == s.kept)
  }

  /**
   Over every session, whatever the policies and limits on the way, each answer is the one that the source gives without
   any cache, and the states kept are those of the recency list.
   */
  method Serve<T(0)>(cache: LazyStateCache<T>, source: nat -> Option<T>, isValid: nat -> bool, cs: seq<Command>,
                     ghost start: Session)
    returns (answers: seq<Option<T>>)
    requires cache.Valid() && cache.Agrees(source, isValid) && Stands(cache, start)
    requires forall i :: 0 <= i < |cs| && cs[i].Ask? ==> cs[i].state <= U32_MAX
    modifies cache
    ensures cache.Valid() && cache.Agrees(source, isValid)
    ensures start.maxLruStates >= 1 && Stands(cache, SessionRun(start, source, isValid, cs))
    ensures |answers| == |cs|
    ensures forall i :: 0 <= i < |cs| && cs[i].Ask? ==> answers[i] == Direct(source, isValid, cs[i].state)
  {
    hide Stands, SessionStep, LruState, LazyStateCache.Valid, LazyStateCache.Agrees;
    StandsPositive(cache, start);
    answers := [];
    for i := 0 to |cs|
      invariant cache.Valid() && cache.Agrees(source, isValid)
      invariant Stands(cache, SessionRun(start, source, isValid, cs[..i])) && |answers| == i
      invariant forall j :: 0 <= j < i && cs[j].Ask? ==> answers[j] == Direct(source, isValid, cs[j].state)
    {
      assert cs[..i + 1][..i] == cs[..i] && cs[..i + 1][i] == cs[i];
      var answer := Obey(cache, source, isValid, cs[i], SessionRun(start, source, isValid, cs[..i]));
      answers := answers + [answer];
    }
    assert cs[..|cs|] == cs;
  }

  lemma StandsPositive<T(0)>(cache: LazyStateCache<T>, s: Session)
    requires cache.Valid() && Stands(cache, s)
    ensures s.maxLruStates >= 1
  {
  }

  /** One command. */
  method Obey<T(0)>(cache: LazyStateCache<T>, source: nat -> Option<T>, isValid: nat -> bool, c: Command,
                    ghost s: Session)
    returns (answer: Option<T>)
    requires cache.Valid() && cache.Agrees(source, isValid) && Stands(cache, s) && s.maxLruStates >= 1
    requires c.Ask? ==> c.state <= U32_MAX
    modifies cache
    ensures cache.Valid() && cache.Agrees(source, isValid) && Stands(cache, SessionStep(s, source, isValid, c))
    ensures c.Ask? ==> answer == Direct(source, isValid, c.state)
  {
    hide LruState, Asked, Newest;
    answer := None;
    match c {
      case Ask(state) => answer := cache.EnsureState(state, source, isValid);
      case SetLimit(n) => cache.SetMaxLruStates(n);
      case ChangePolicy(policy) => cache.SetPolicy(policy);
      case Forget => cache.Clear();
    }
    cache.KeptHere();
  }
}
