/** Optional values, the machine-integer operations the sources use, and small sequence facts. */
module Common {

  datatype Option<+T> = None | Some(value: T)

  /** `u32` and `usize` (64-bit target). */
  const U32_MAX: nat := 0xFFFF_FFFF
  const USIZE_MAX: nat := 0xFFFF_FFFF_FFFF_FFFF

  function Min(a: nat, b: nat): nat { if a < b then a else b }

  function Max(a: int, b: int): int { if a < b then b else a }

  /** `a.checked_mul(b)` on `u32`. */
  function CheckedMul32(a: nat, b: nat): Option<nat> {
    if a * b <= U32_MAX then Some(a * b) else None
  }

  /** `a.checked_add(b)` on `u32`. */
  function CheckedAdd32(a: nat, b: nat): Option<nat> {
    if a + b <= U32_MAX then Some(a + b) else None
  }

  /** A sequence without repeated elements. */
  ghost predicate Distinct<T(!new)>(s: seq<T>) {
    forall i, j :: 0 <= i < j < |s| ==> s[i] != s[j]
  }

  /** A duplicate-free sequence drawn from a finite set is no longer than the set. */
  lemma {:induction false} DistinctBounded<T(!new)>(s: seq<T>, universe: set<T>)
    requires Distinct(s)
    requires forall i :: 0 <= i < |s| ==> s[i] in universe
    ensures |s| <= |universe|
  {
    if s != [] {
      var last := s[|s| - 1];
      DistinctBounded(s[..|s| - 1], universe - {last});
    }
  }

  /** `kept` lists the elements of `raw` once each, in the order in which they are first seen. */
  ghost predicate FirstSeen<T(!new)>(raw: seq<T>, kept: seq<T>) {
    && Distinct(kept) && (forall x :: x in kept <==> x in raw)
    && forall p, q :: 0 <= p < q < |kept| ==> SeenBefore(raw, kept[p], kept[q])
  }

  /** `x` occurs in `raw`, and `y` not up to there. */
  ghost predicate SeenBefore<T(!new)>(raw: seq<T>, x: T, y: T) {
    exists i :: 0 <= i < |raw| && raw[i] == x && y !in raw[..i + 1]
  }

  lemma FirstSeenNone<T(!new)>()
    ensures FirstSeen<T>([], [])
  {
  }

  /** One more element: it changes nothing if it was seen before, and comes last otherwise. */
  lemma FirstSeenSnoc<T(!new)>(raw: seq<T>, kept: seq<T>, x: T)
    requires FirstSeen(raw, kept)
    ensures FirstSeen(raw + [x], if x in kept then kept else kept + [x])
  {
    var more := if x in kept then kept else kept + [x];
    forall p, q | 0 <= p < q < |more| ensures SeenBefore(raw + [x], more[p], more[q]) {
      if q < |kept| {
        assert SeenBefore(raw, kept[p], kept[q]);
        var i :| 0 <= i < |raw| && raw[i] == kept[p] && kept[q] !in raw[..i + 1];
        assert (raw + [x])[..i + 1] == raw[..i + 1] && (raw + [x])[i] == more[p];
      } else {
        assert kept[p] in raw;
        var i :| 0 <= i < |raw| && raw[i] == kept[p];
        assert (raw + [x])[..i + 1] == raw[..i + 1] && (raw + [x])[i] == more[p];
      }
    }
  }

  lemma SubsetSize<T>(a: set<T>, b: set<T>)
    requires a <= b
    ensures |a| <= |b|
  {
    assert b == a + (b - a);
  }
}
