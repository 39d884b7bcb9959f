/**
 Lazy determinisation of the phonetic NFA (src/phonetic_nfa_wfst.rs, src/phonetic_nfa_support.rs): candidate characters,
 per-character successor sets, and the shared registry that names state sets.
 */
module PhoneticNfaSource {
  import opened Common
  import opened PhoneticNfa
  import opened PhoneticSubset

  const HASH_THRESHOLD: nat := 16
  const MAX_RANGE: nat := 256

  // ---------------------------------------------------------------- candidate characters

  /** First-seen order without repetition; a hash set takes over from the linear scan once the list is long. */
  class CandidateChars {
    var ordered: seq<char>
    var seen: Option<set<char>>

    ghost predicate Valid()
      reads this
    {
      Distinct(ordered) && (seen.Some? ==> seen.value == set c | c in ordered)
    }

    constructor ()
      ensures Valid() && ordered == []
    {
      ordered, seen := [], None;
    }

    method PushUnique(c: char)
      requires Valid()
      modifies this
      ensures Valid() && ordered == if c in old(ordered) then old(ordered) else old(ordered) + [c]
    {
      if seen.Some? {
        if c !in seen.value {
          seen := Some(seen.value + {c});
          ordered := ordered + [c];
        }
        return;
      }
      if c in ordered {
        return;
      }
      if |ordered| >= HASH_THRESHOLD {
        seen := Some((set x | x in ordered) + {c});
      }
      ordered := ordered + [c];
    }
  }

  /** A class range is spelled out only up to 256 code points wide. */
  predicate InSmallRange(range: (char, char), c: char) {
    range.0 <= c <= range.1 && range.1 as int - range.0 as int + 1 <= MAX_RANGE
  }

  /** `c` is one of the characters that stand for label `l`. */
  ghost predicate Concretizes(l: Label, alphabet: seq<char>, c: char) {
    match l
    case Symbol(d) => c == d
    case Class(ranges, negated, matches) =>
      (c in alphabet && matches(c)) || (!negated && exists k :: 0 <= k < |ranges| && InSmallRange(ranges[k], c))
    case Any => c in alphabet
    case _ => false
  }

  /** Some arc of the set offers `c`. */
  ghost predicate Offered(nfa: Nfa, states: set<nat>, alphabet: seq<char>, c: char) {
    exists s: nat, j: nat :: s in states && j < |nfa.From(s)| && Concretizes(nfa.From(s)[j].via, alphabet, c)
  }

  /**
   The characters that an arc offers: its symbol; those of the alphabet that its class test holds for, and those of its
   ranges of at most 256 characters unless it is negated; the alphabet. Other labels offer none.
   */
  lemma OfferedByLabel(nfa: Nfa, states: set<nat>, alphabet: seq<char>, c: char)
    ensures Offered(nfa, states, alphabet, c) <==>
            exists s: nat, j: nat :: s in states && j < |nfa.From(s)| && OffersBy(nfa.From(s)[j].via, alphabet, c)
  {
    forall l: Label ensures Concretizes(l, alphabet, c) <==> OffersBy(l, alphabet, c) {
      OffersByLabel(l, alphabet, c);
    }
  }

  ghost predicate OffersBy(l: Label, alphabet: seq<char>, c: char) {
    || l == Symbol(c)
    || (c in alphabet && (l == Any || (l.Class? && l.matches(c))))
    || (l.Class? && !l.negated && exists k :: 0 <= k < |l.ranges| && WithinShort(l.ranges[k], c))
  }

  predicate WithinShort(range: (char, char), c: char) {
    range.0 <= c <= range.1 && range.1 as int - range.0 as int < 256
  }

  lemma OffersByLabel(l: Label, alphabet: seq<char>, c: char)
    ensures Concretizes(l, alphabet, c) <==> OffersBy(l, alphabet, c)
  {
    if l.Class? {
      assert forall k :: 0 <= k < |l.ranges| ==> (InSmallRange(l.ranges[k], c) <==> WithinShort(l.ranges[k], c));
    }
  }

  predicate Scalar(code: nat) { code < 0xD800 || 0xE000 <= code < 0x11_0000 }

  method PushBoundedRange(chars: CandidateChars, range: (char, char))
    requires chars.Valid()
    modifies chars
    ensures chars.Valid() && old(chars.ordered) <= chars.ordered
    ensures forall c :: c in chars.ordered <==> c in old(chars.ordered) || InSmallRange(range, c)
  {
    var start, end := range.0 as int, range.1 as int;
    if start > end || end - start + 1 > MAX_RANGE {
      return;
    }
    var code := start;
    while code <= end
      invariant start <= code <= end + 1 && chars.Valid() && old(chars.ordered) <= chars.ordered
      invariant forall c :: c in chars.ordered <==> c in old(chars.ordered) || start <= c as int < code
    {
      if Scalar(code) {
        chars.PushUnique(code as char);
      }
      code := code + 1;
    }
  }

  method PushAlphabet(chars: CandidateChars, alphabet: seq<char>, matches: char -> bool)
    requires chars.Valid()
    modifies chars
    ensures chars.Valid() && old(chars.ordered) <= chars.ordered
    ensures forall c :: c in chars.ordered <==> c in old(chars.ordered) || (c in alphabet && matches(c))
  {
    for i := 0 to |alphabet|
      invariant chars.Valid() && old(chars.ordered) <= chars.ordered
      invariant forall c :: c in chars.ordered <==> c in old(chars.ordered) || (c in alphabet[..i] && matches(c))
    {
      if matches(alphabet[i]) {
        chars.PushUnique(alphabet[i]);
      }
    }
    assert alphabet[..|alphabet|] == alphabet;
  }

  method PushRanges(chars: CandidateChars, ranges: seq<(char, char)>)
    requires chars.Valid()
    modifies chars
    ensures chars.Valid() && old(chars.ordered) <= chars.ordered
    ensures forall c :: c in chars.ordered <==>
              c in old(chars.ordered) || exists k :: 0 <= k < |ranges| && InSmallRange(ranges[k], c)
  {
    hide InSmallRange;
    for i := 0 to |ranges|
      invariant chars.Valid() && old(chars.ordered) <= chars.ordered
      invariant forall c :: c in chars.ordered <==>
                  c in old(chars.ordered) || exists k :: 0 <= k < i && InSmallRange(ranges[k], c)
    {
      PushBoundedRange(chars, ranges[i]);
    }
  }

  /** `collect_label_candidates`. */
  method CollectLabelCandidates(l: Label, alphabet: seq<char>, chars: CandidateChars)
    requires chars.Valid()
    modifies chars
    ensures chars.Valid() && old(chars.ordered) <= chars.ordered
    ensures forall c :: c in chars.ordered <==> c in old(chars.ordered) || Concretizes(l, alphabet, c)
  {
    hide InSmallRange;
    match l {
      case Symbol(c) => chars.PushUnique(c);
      case Class(ranges, negated, matches) =>
        PushAlphabet(chars, alphabet, matches);
        if !negated {
          PushRanges(chars, ranges);
        }
      case Any => PushAlphabet(chars, alphabet, _ => true);
      case _ =>
    }
  }

  /** Every character offered by the set, each once. */
  method CollectCandidates(nfa: Nfa, states: seq<nat>, alphabet: seq<char>) returns (chars: seq<char>)
    ensures Distinct(chars)
    ensures forall c :: c in chars <==> Offered(nfa, Elements(states), alphabet, c)
  {
    hide Concretizes;
    var candidates := new CandidateChars();
    for i := 0 to |states|
      invariant candidates.Valid() && fresh(candidates)
      invariant forall c :: c in candidates.ordered <==>
                  exists k, j :: 0 <= k < i && 0 <= j < |nfa.From(states[k])| &&
                    Concretizes(nfa.From(states[k])[j].via, alphabet, c)
    {
      var arcs := nfa.From(states[i]);
      ghost var before := candidates.ordered;
      for j := 0 to |arcs|
        invariant candidates.Valid() && fresh(candidates)
        invariant forall c :: c in candidates.ordered <==>
                    c in before || exists m :: 0 <= m < j && Concretizes(arcs[m].via, alphabet, c)
      {
        CollectLabelCandidates(arcs[j].via, alphabet, candidates);
      }
    }
    chars := candidates.ordered;
    forall c ensures c in chars <==> Offered(nfa, Elements(states), alphabet, c) {
      if Offered(nfa, Elements(states), alphabet, c) {
        var s: nat, j: nat :| s in Elements(states) && j < |nfa.From(s)| &&
            Concretizes(nfa.From(s)[j].via, alphabet, c);
        var k :| 0 <= k < |states| && states[k] == s;
      }
    }
  }

  // ---------------------------------------------------------------- successors per character

  function Joined(slot: (char, set<nat>), l: Label, target: nat): (char, set<nat>) {
    if Matches(l, slot.0) then (slot.0, slot.1 + {target}) else slot
  }

  /** One successor set per candidate, found through an index once there are many. */
  class LabelSuccessors {
    var slots: seq<(char, set<nat>)>
    var indexByChar: Option<map<char, nat>>

    ghost predicate Valid()
      reads this
    {
      && (forall i, j :: 0 <= i < j < |slots| ==> slots[i].0 != slots[j].0)
      && (indexByChar.Some? ==>
            && (forall i :: 0 <= i < |slots| ==> slots[i].0 in indexByChar.value && indexByChar.value[slots[i].0] == i)
            && (forall c :: c in indexByChar.value ==>
                indexByChar.value[c] < |slots| && slots[indexByChar.value[c]].0 == c))
    }

    constructor (candidates: seq<char>)
      requires Distinct(candidates)
      ensures Valid() && |slots| == |candidates| && forall i :: 0 <= i < |slots| ==> slots[i] == (candidates[i], {})
    {
      var index: map<char, nat> := map[];
      for i := 0 to |candidates|
        invariant forall j :: 0 <= j < i ==> candidates[j] in index && index[candidates[j]] == j
        invariant forall c :: c in index ==> index[c] < i && candidates[index[c]] == c
      {
        index := index[candidates[i] := i];
      }
      slots := seq(|candidates|, i requires 0 <= i < |candidates| => (candidates[i], {}));
      indexByChar := if |candidates| >= HASH_THRESHOLD then Some(index) else None;
    }

    /** `slot_mut`. */
    method SlotOf(c: char) returns (slot: Option<nat>)
      requires Valid()
      ensures slot.Some? ==> slot.value < |slots| && slots[slot.value].0 == c
      ensures slot.None? ==> forall i :: 0 <= i < |slots| ==> slots[i].0 != c
    {
      if indexByChar.Some? && c in indexByChar.value {
        return Some(indexByChar.value[c]);
      }
      for i := 0 to |slots|
        invariant forall j :: 0 <= j < i ==> slots[j].0 != c
      {
        if slots[i].0 == c {
          return Some(i);
        }
      }
      return None;
    }

    /** `collect_label_successors`: the arc's target joins exactly the slots that its label matches. */
    method Collect(l: Label, target: nat)
      requires Valid()
      modifies this`slots
      ensures Valid() && |slots| == |old(slots)|
      ensures forall i :: 0 <= i < |slots| ==>
                slots[i] == Joined(old(slots)[i], l, target)
      ensures forall i :: 0 <= i < |slots| ==>
                && slots[i].0 == old(slots)[i].0
                && slots[i].1 == old(slots)[i].1 + if ReadsBy(l, slots[i].0) then {target} else {}
    {
      if l.Symbol? {
        var slot := SlotOf(l.c);
        if slot.Some? {
          slots := slots[slot.value := (slots[slot.value].0, slots[slot.value].1 + {target})];
        }
      } else if l.Class? || l.Any? {
        var before := slots;
        for i := 0 to |before|
          invariant |slots| == |before| && Valid() && forall k :: i <= k < |slots| ==> slots[k] == before[k]
          invariant forall k :: 0 <= k < i ==> slots[k] == Joined(before[k], l, target)
        {
          if Matches(l, slots[i].0) {
            slots := slots[i := (slots[i].0, slots[i].1 + {target})];
          }
        }
      }
    }
  }

  /** After all arcs of the set, each slot holds what its character enters. */
  method CollectSuccessors(nfa: Nfa, states: seq<nat>, chars: seq<char>) returns (slots: seq<(char, set<nat>)>)
    requires Distinct(chars)
    ensures |slots| == |chars|
    ensures forall i :: 0 <= i < |chars| ==> slots[i] == (chars[i], Hits(nfa, Elements(states), chars[i]))
  {
    hide Hits, Matches;
    var successors := new LabelSuccessors(chars);
    assert forall c :: AllHits(nfa, states[..0], c) == {};
    for k := 0 to |states|
      invariant successors.Valid() && fresh(successors) && |successors.slots| == |chars|
      invariant forall i :: 0 <= i < |chars| ==>
                  successors.slots[i].0 == chars[i] && successors.slots[i].1 == AllHits(nfa, states[..k], chars[i])
    {
      var arcs := nfa.From(states[k]);
      assert forall c :: HitsUpTo(nfa, arcs, 0, c) == {};
      for j := 0 to |arcs|
        invariant successors.Valid() && fresh(successors) && |successors.slots| == |chars|
        invariant forall i :: 0 <= i < |chars| ==>
                    && successors.slots[i].0 == chars[i]
                    && successors.slots[i].1 == AllHits(nfa, states[..k], chars[i]) + HitsUpTo(nfa, arcs, j, chars[i])
      {
        successors.Collect(arcs[j].via, arcs[j].to);
      }
      assert states[..k + 1][..k] == states[..k];
    }
    slots := successors.slots;
    assert states[..|states|] == states;
    forall i | 0 <= i < |chars| ensures slots[i] == (chars[i], Hits(nfa, Elements(states), chars[i])) {
      AllHitsAreHits(nfa, states, chars[i]);
    }
  }

  ghost function HitsUpTo(nfa: Nfa, arcs: seq<Arc>, n: nat, c: char): set<nat>
    requires n <= |arcs|
  {
    if n == 0 then {} else HitsUpTo(nfa, arcs, n - 1, c) + if Matches(arcs[n - 1].via, c) then {arcs[n - 1].to} else {}
  }

  ghost function AllHits(nfa: Nfa, states: seq<nat>, c: char): set<nat> {
    if states == [] then {}
    else
      var last := nfa.From(states[|states| - 1]);
      AllHits(nfa, states[..|states| - 1], c) + HitsUpTo(nfa, last, |last|, c)
  }

  lemma {:induction false} HitsUpToMember(nfa: Nfa, arcs: seq<Arc>, n: nat, c: char, t: nat)
    requires n <= |arcs|
    ensures t in HitsUpTo(nfa, arcs, n, c) <==> exists j :: 0 <= j < n && Matches(arcs[j].via, c) && arcs[j].to == t
  {
    hide Matches;
    if n > 0 { HitsUpToMember(nfa, arcs, n - 1, c, t); }
  }

  lemma {:induction false} AllHitsMember(nfa: Nfa, states: seq<nat>, c: char, t: nat)
    ensures t in AllHits(nfa, states, c) <==>
            exists k, j :: 0 <= k < |states| && 0 <= j < |nfa.From(states[k])| &&
              Matches(nfa.From(states[k])[j].via, c) && nfa.From(states[k])[j].to == t
  {
    hide Matches;
    if states != [] {
      var init, last := states[..|states| - 1], nfa.From(states[|states| - 1]);
      AllHitsMember(nfa, init, c, t);
      HitsUpToMember(nfa, last, |last|, c, t);
      assert forall k :: 0 <= k < |init| ==> init[k] == states[k];
    }
  }

  lemma {:induction false} AllHitsAreHits(nfa: Nfa, states: seq<nat>, c: char)
    ensures AllHits(nfa, states, c) == Hits(nfa, Elements(states), c)
  {
    hide Matches, AllHits;
    var all := Elements(states);
    forall t ensures t in AllHits(nfa, states, c) <==> t in Hits(nfa, all, c) {
      AllHitsMember(nfa, states, c, t);
      if t in AllHits(nfa, states, c) {
        var k, j :| 0 <= k < |states| && 0 <= j < |nfa.From(states[k])| && Matches(nfa.From(states[k])[j].via, c) &&
            nfa.From(states[k])[j].to == t;
        HitsMember(nfa, all, c, states[k], j);
      }
      if t in Hits(nfa, all, c) {
        var s: nat, j: nat :| s in all && j < |nfa.From(s)| && Matches(nfa.From(s)[j].via, c) && Target(nfa, s, j) == t;
        var k :| 0 <= k < |states| && states[k] == s;
      }
    }
  }
}
