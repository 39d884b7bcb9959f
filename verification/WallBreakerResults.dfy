/** Normalised WallBreaker results, their character arena and the dense state index (src/wallbreaker_results.rs). */
module WallBreakerResults {
  import opened Common

  datatype Result = Result(term: string, distance: nat)

  /** The largest distance that is an exact double: 2^53. */
  const MAX_EXACT: nat := 0x20_0000_0000_0000

  /** `distance_to_f64`. */
  function ExactDistance(d: nat): Option<nat> { if d <= MAX_EXACT then Some(d) else None }

  predicate Usable(r: Result, maxDistance: nat) { r.distance <= maxDistance && ExactDistance(r.distance).Some? }

  /** A result counts within the query's distance, up to the largest distance that a double holds exactly. */
  lemma UsableInNumbers(r: Result, maxDistance: nat)
    ensures Usable(r, maxDistance) <==> r.distance <= maxDistance && r.distance <= 9007199254740992
  {
  }

  // ---------------------------------------------------------------- normalisation

  function TermsOf(results: seq<Result>): (terms: seq<string>)
    ensures |terms| == |results| && forall i :: 0 <= i < |terms| ==> terms[i] == results[i].term
  {
    seq(|results|, i requires 0 <= i < |results| => results[i].term)
  }

  /** The terms of the usable results, in order. */
  function UsableTerms(raw: seq<Result>, maxDistance: nat): seq<string> {
    if raw == [] then []
    else
      var before, last := UsableTerms(raw[..|raw| - 1], maxDistance), raw[|raw| - 1];
      if Usable(last, maxDistance) then before + [last.term] else before
  }

  /** One more usable result: its term is known, or comes last. */
  lemma {:induction false} TermsSeen(raw: seq<Result>, maxDistance: nat, results: seq<Result>, r: Result)
    requires FirstSeen(UsableTerms(raw, maxDistance), TermsOf(results)) && Usable(r, maxDistance)
    ensures forall k :: 0 <= k < |results| && results[k].term == r.term ==>
              && FirstSeen(UsableTerms(raw + [r], maxDistance), TermsOf(results))
              && TermsOf(results[k := r]) == TermsOf(results)
    ensures (forall k :: 0 <= k < |results| ==> results[k].term != r.term) ==>
              FirstSeen(UsableTerms(raw + [r], maxDistance), TermsOf(results + [r]))
  {
    hide FirstSeen, Usable;
    assert (raw + [r])[..|raw|] == raw;
    FirstSeenSnoc(UsableTerms(raw, maxDistance), TermsOf(results), r.term);
    assert TermsOf(results + [r]) == TermsOf(results) + [r.term];
    if k :| 0 <= k < |results| && results[k].term == r.term {
      assert TermsOf(results)[k] == r.term;
    }
  }

  lemma {:induction false} TermsSkipped(raw: seq<Result>, maxDistance: nat, r: Result)
    requires !Usable(r, maxDistance)
    ensures UsableTerms(raw + [r], maxDistance) == UsableTerms(raw, maxDistance)
  {
    assert (raw + [r])[..|raw|] == raw;
  }

  ghost predicate DistinctTerms(results: seq<Result>) {
    forall i, j :: 0 <= i < j < |results| ==> results[i].term != results[j].term
  }

  /** Some entry has this term at this distance or less. */
  ghost predicate Subsumed(results: seq<Result>, r: Result) {
    exists i :: 0 <= i < |results| && results[i].term == r.term && results[i].distance <= r.distance
  }

  /** One entry per usable term, at the least of its distances. */
  ghost predicate IsNormal(raw: seq<Result>, maxDistance: nat, results: seq<Result>) {
    && DistinctTerms(results)
    && (forall i :: 0 <= i < |results| ==> results[i] in raw && Usable(results[i], maxDistance))
    && (forall i :: 0 <= i < |raw| && Usable(raw[i], maxDistance) ==> Subsumed(results, raw[i]))
  }

  /** The map finds exactly the slot of each term. */
  ghost predicate Indexes(index: map<string, nat>, results: seq<Result>) {
    && (forall i :: 0 <= i < |results| ==> results[i].term in index && index[results[i].term] == i)
    && (forall term :: term in index ==> index[term] < |results| && results[index[term]].term == term)
  }

  lemma NormalSkip(raw: seq<Result>, maxDistance: nat, results: seq<Result>, r: Result)
    requires IsNormal(raw, maxDistance, results) && (!Usable(r, maxDistance) || Subsumed(results, r))
    ensures IsNormal(raw + [r], maxDistance, results)
  {
    hide Subsumed, Usable;
  }

  lemma NormalPush(raw: seq<Result>, maxDistance: nat, results: seq<Result>, r: Result)
    requires IsNormal(raw, maxDistance, results) && Usable(r, maxDistance)
    requires forall i :: 0 <= i < |results| ==> results[i].term != r.term
    ensures IsNormal(raw + [r], maxDistance, results + [r])
  {
    hide Usable;
    var more := results + [r];
    forall i | 0 <= i < |raw + [r]| && Usable((raw + [r])[i], maxDistance) ensures Subsumed(more, (raw + [r])[i]) {
      if i < |raw| {
        var j :| 0 <= j < |results| && results[j].term == raw[i].term && results[j].distance <= raw[i].distance;
        assert more[j] == results[j];
      } else {
        assert more[|results|] == r;
      }
    }
  }

  lemma NormalLower(raw: seq<Result>, maxDistance: nat, results: seq<Result>, k: nat, r: Result)
    requires IsNormal(raw, maxDistance, results) && Usable(r, maxDistance) && k < |results|
    requires results[k].term == r.term && r.distance < results[k].distance
    ensures IsNormal(raw + [r], maxDistance, results[k := r])
  {
    hide Usable;
    var more := results[k := r];
    forall i | 0 <= i < |raw + [r]| && Usable((raw + [r])[i], maxDistance) ensures Subsumed(more, (raw + [r])[i]) {
      if i < |raw| {
        var j :| 0 <= j < |results| && results[j].term == raw[i].term && results[j].distance <= raw[i].distance;
        assert more[j].term == raw[i].term && more[j].distance <= raw[i].distance;
      } else {
        assert more[k] == r;
      }
    }
  }

  lemma NormalEmpty(maxDistance: nat)
    ensures IsNormal([], maxDistance, []) && Indexes(map[], [])
  {
  }

  lemma {:induction false} NoTerms(maxDistance: nat)
    ensures FirstSeen(UsableTerms([], maxDistance), TermsOf([]))
  {
  }

  lemma IndexFinds(index: map<string, nat>, results: seq<Result>, term: string)
    requires Indexes(index, results)
    ensures term in index ==> index[term] < |results| && results[index[term]].term == term
    ensures term !in index ==> forall i :: 0 <= i < |results| ==> results[i].term != term
  {
  }

  lemma IndexKept(index: map<string, nat>, results: seq<Result>, k: nat, r: Result)
    requires Indexes(index, results) && k < |results| && results[k].term == r.term
    ensures Indexes(index, results[k := r])
  {
  }

  lemma IndexPush(index: map<string, nat>, results: seq<Result>, r: Result)
    requires Indexes(index, results) && r.term !in index
    ensures Indexes(index[r.term := |results|], results + [r])
  {
  }

  /** `normalize_wallbreaker_results`: terms keep the order in which they are first seen. */
  method Normalize(raw: seq<Result>, maxDistance: nat) returns (results: seq<Result>)
    ensures IsNormal(raw, maxDistance, results)
    ensures FirstSeen(UsableTerms(raw, maxDistance), TermsOf(results))
  {
    hide IsNormal, Usable, Indexes, FirstSeen, UsableTerms, TermsOf;
    results := [];
    var index: map<string, nat> := map[];
    NormalEmpty(maxDistance);
    NoTerms(maxDistance);
    for n := 0 to |raw|
      invariant IsNormal(raw[..n], maxDistance, results) && Indexes(index, results)
      invariant FirstSeen(UsableTerms(raw[..n], maxDistance), TermsOf(results))
    {
      var r := raw[n];
      IndexFinds(index, results, r.term);
      assert raw[..n + 1] == raw[..n] + [r];
      if !Usable(r, maxDistance) {
        NormalSkip(raw[..n], maxDistance, results, r);
        TermsSkipped(raw[..n], maxDistance, r);
      } else if r.term in index {
        TermsSeen(raw[..n], maxDistance, results, r);
        var k := index[r.term];
        if r.distance < results[k].distance {
          NormalLower(raw[..n], maxDistance, results, k, r);
          IndexKept(index, results, k, r);
          results := results[k := r];
        } else {
          assert Subsumed(results, r);
          NormalSkip(raw[..n], maxDistance, results, r);
        }
      } else {
        TermsSeen(raw[..n], maxDistance, results, r);
        NormalPush(raw[..n], maxDistance, results, r);
        IndexPush(index, results, r);
        index := index[r.term := |results|];
        results := results + [r];
      }
    }
    assert raw[..|raw|] == raw;
  }

  // ---------------------------------------------------------------- the arena

  datatype Span = Span(start: nat, len: nat)

  datatype Arena = Arena(chars: seq<char>, spans: seq<Span>)

  /** Characters of the first `n` terms. */
  function Offset(results: seq<Result>, n: nat): nat
    requires n <= |results|
  {
    if n == 0 then 0 else Offset(results, n - 1) + |results[n - 1].term|
  }

  function Chars(results: seq<Result>, n: nat): (r: seq<char>)
    requires n <= |results|
    ensures |r| == Offset(results, n)
  {
    if n == 0 then [] else Chars(results, n - 1) + results[n - 1].term
  }

  function ArenaOf(results: seq<Result>): Arena {
    Arena(Chars(results, |results|), Spans(results, |results|))
  }

  function Spans(results: seq<Result>, n: nat): (r: seq<Span>)
    requires n <= |results|
    ensures |r| == n && forall i :: 0 <= i < n ==> r[i] == Span(Offset(results, i), |results[i].term|)
  {
    if n == 0 then [] else Spans(results, n - 1) + [Span(Offset(results, n - 1), |results[n - 1].term|)]
  }

  /** `ResultCharArena::from_results`. */
  method FromResults(results: seq<Result>) returns (arena: Arena)
    ensures arena == ArenaOf(results)
  {
    var chars: seq<char>, spans: seq<Span> := [], [];
    for i := 0 to |results|
      invariant chars == Chars(results, i) && spans == Spans(results, i)
    {
      var start := |chars|;
      chars := chars + results[i].term;
      spans := spans + [Span(start, |chars| - start)];
    }
    arena := Arena(chars, spans);
  }

  lemma {:induction false} CharsPrefix(results: seq<Result>, i: nat, n: nat)
    requires i <= n <= |results|
    ensures Chars(results, i) <= Chars(results, n) && Offset(results, i) <= Offset(results, n)
    decreases n
  {
    if i < n { CharsPrefix(results, i, n - 1); }
  }

  /** `char_at`. */
  function CharAt(arena: Arena, r: nat, pos: nat): Option<char> {
    if r >= |arena.spans| || pos >= arena.spans[r].len || arena.spans[r].start + pos >= |arena.chars| then None
    else Some(arena.chars[arena.spans[r].start + pos])
  }

  /** Reading the arena back gives the terms. */
  lemma ArenaRoundTrip(results: seq<Result>, r: nat, pos: nat)
    requires r < |results|
    ensures CharAt(ArenaOf(results), r, pos) == if pos < |results[r].term| then Some(results[r].term[pos]) else None
  {
    hide Chars;
    if pos < |results[r].term| { CharsHold(results, r, pos); }
  }

  lemma {:induction false} CharsHold(results: seq<Result>, r: nat, pos: nat)
    requires r < |results| && pos < |results[r].term|
    ensures Offset(results, r) + pos < |Chars(results, |results|)|
    ensures Chars(results, |results|)[Offset(results, r) + pos] == results[r].term[pos]
  {
    CharsPrefix(results, r + 1, |results|);
    assert Chars(results, r + 1)[Offset(results, r) + pos] == results[r].term[pos];
  }

  // ---------------------------------------------------------------- state IDs

  datatype Key = Key(result: nat, pos: nat)

  const SUPER_START: nat := U32_MAX

  /** `next_wallbreaker_result_index`. */
  function ResultIndex(r: nat): Option<nat> { if r < SUPER_START then Some(r) else None }

  /** `next_wallbreaker_state_id`. */
  function StateIdFor(n: nat): Option<nat> { if n <= U32_MAX then Some(n) else None }

  /** `state_id_for_position`. */
  function IdForPosition(arena: Arena, r: nat, pos: nat): Option<nat> {
    if ResultIndex(r).None? || pos == 0 || r >= |arena.spans| || pos > arena.spans[r].len then None
    else StateIdFor(arena.spans[r].start + pos)
  }

  function KeysOf(r: nat, len: nat): (keys: seq<Key>)
    ensures |keys| == len
  {
    seq(len, k requires 0 <= k < len => Key(r, k + 1))
  }

  /** The start state, then every position of the first `n` results. */
  function Keys(results: seq<Result>, n: nat): (keys: seq<Key>)
    requires n <= |results|
    ensures |keys| == Offset(results, n) + 1
  {
    if n == 0 then [Key(SUPER_START, 0)] else Keys(results, n - 1) + KeysOf(n - 1, |results[n - 1].term|)
  }

  /** As many keys as have a `u32` result index and a `u32` state. */
  function IndexOf(results: seq<Result>): seq<Key> {
    var keys := Keys(results, Min(|results|, SUPER_START));
    keys[..Min(|keys|, U32_MAX + 1)]
  }

  lemma {:induction false} KeysPrefix(results: seq<Result>, i: nat, n: nat)
    requires i <= n <= |results|
    ensures Keys(results, i) <= Keys(results, n) && Offset(results, i) <= Offset(results, n)
    decreases n
  {
    if i < n { KeysPrefix(results, i, n - 1); }
  }

  /** `build_wallbreaker_state_index`. */
  method BuildStateIndex(ghost results: seq<Result>, arena: Arena) returns (index: seq<Key>)
    requires arena == ArenaOf(results)
    ensures index == IndexOf(results)
  {
    hide Chars, Spans, Offset, Keys, IndexOf;
    index := [Key(SUPER_START, 0)];
    ghost var most := Min(|results|, SUPER_START);
    KeysStart(results);
    var r := 0;
    while r < |arena.spans|
      invariant r <= most && index == Keys(results, r) && |index| <= U32_MAX + 1
    {
      if ResultIndex(r).None? {
        break;
      }
      KeysPrefix(results, r + 1, most);
      KeysNext(results, r);
      var full: bool;
      index, full := PushPositions(index, r, arena.spans[r].len);
      if full {
        FullIndex(results, r, |index| - |Keys(results, r)|, most);
        return;
      }
      r := r + 1;
    }
    WholeIndex(results);
  }

  /** The positions of one result, as far as states last. */
  method PushPositions(index: seq<Key>, r: nat, len: nat) returns (index': seq<Key>, full: bool)
    requires |index| <= U32_MAX + 1
    ensures |index| <= |index'| <= |index| + len && |index'| <= U32_MAX + 1
    ensures index' == index + KeysOf(r, len)[..|index'| - |index|]
    ensures !full ==> index' == index + KeysOf(r, len)
    ensures full ==> |index'| == U32_MAX + 1
  {
    index', full := index, false;
    for pos := 1 to len + 1
      invariant index' == index + KeysOf(r, len)[..pos - 1] && |index'| <= U32_MAX + 1
    {
      if StateIdFor(|index'|).None? {
        return index', true;
      }
      index' := index' + [Key(r, pos)];
    }
    assert KeysOf(r, len)[..len] == KeysOf(r, len);
  }

  lemma {:induction false} KeysStart(results: seq<Result>)
    ensures Keys(results, 0) == [Key(SUPER_START, 0)]
  {
  }

  lemma KeysNext(results: seq<Result>, r: nat)
    requires r < |results|
    ensures Keys(results, r + 1) == Keys(results, r) + KeysOf(r, |results[r].term|)
  {
  }

  lemma {:induction false} WholeIndex(results: seq<Result>)
    ensures var keys := Keys(results, Min(|results|, SUPER_START)); |keys| <= U32_MAX + 1 ==> IndexOf(results) == keys
  {
  }

  lemma FullIndex(results: seq<Result>, r: nat, k: nat, most: nat)
    requires r < most == Min(|results|, SUPER_START) && k <= |results[r].term|
    requires Keys(results, r + 1) <= Keys(results, most) && |Keys(results, r)| + k == U32_MAX + 1
    ensures Keys(results, r) + KeysOf(r, |results[r].term|)[..k] == IndexOf(results)
  {
    var keys := Keys(results, most);
    assert Keys(results, r + 1) == Keys(results, r) + KeysOf(r, |results[r].term|);
    assert keys[..|Keys(results, r + 1)|] == Keys(results, r + 1);
    assert keys[..U32_MAX + 1] == Keys(results, r + 1)[..U32_MAX + 1];
  }

  /** Position `pos` of result `r` has an ID. */
  predicate HasId(results: seq<Result>, r: nat, pos: nat)
    requires r < |results|
  {
    r < SUPER_START && Offset(results, r) + pos <= U32_MAX
  }

  /** The ID computed for a position is where the index keeps that position. */
  lemma PositionRoundTrip(results: seq<Result>, r: nat, pos: nat)
    requires r < |results| && 1 <= pos <= |results[r].term|
    ensures HasId(results, r, pos) ==>
              var id := Offset(results, r) + pos;
              IdForPosition(ArenaOf(results), r, pos) == Some(id) && id < |IndexOf(results)| &&
              IndexOf(results)[id] == Key(r, pos)
    ensures !HasId(results, r, pos) ==> IdForPosition(ArenaOf(results), r, pos) == None
  {
    hide Chars, Spans, Offset, Keys;
    if HasId(results, r, pos) {
      var most := Min(|results|, SUPER_START);
      KeysNext(results, r);
      KeysPrefix(results, r + 1, most);
      var id := Offset(results, r) + pos;
      assert Keys(results, r + 1)[id] == KeysOf(r, |results[r].term|)[pos - 1];
      assert Keys(results, most)[id] == Key(r, pos);
    }
  }

  /** Every ID but the start's is that of one position. */
  lemma {:induction false} IdRoundTrip(results: seq<Result>, n: nat, id: nat)
    requires n <= |results| && 1 <= id < |Keys(results, n)|
    ensures var key := Keys(results, n)[id];
            key.result < n && 1 <= key.pos <= |results[key.result].term| && Offset(results, key.result) + key.pos == id
    decreases n
  {
    if id < |Keys(results, n - 1)| { IdRoundTrip(results, n - 1, id); }
  }
}
