/**
 Packing of automaton states and product states into `u32` (src/state_source_support.rs and
 `state_encoding` in src/lib.rs).
 */
module LevenshteinCodec {
  import opened Common

  /** The edit operations beyond match, substitute, insert and delete. */
  datatype Algorithm = Algorithm(transposition: bool, mergeSplit: bool)

  datatype AutomatonState =
    | Normal(pos: nat, cost: nat)
    | TransposeSecond(pos: nat, cost: nat)
    | MergeSecond(pos: nat, cost: nat)
    | SplitSecond(pos: nat, cost: nat)

  function ContinuationKinds(a: Algorithm): nat {
    (if a.transposition then 1 else 0) + (if a.mergeSplit then 2 else 0)
  }

  function TransposeSlot(a: Algorithm): Option<nat> {
    if a.transposition then Some(1) else None
  }

  function MergeSlot(a: Algorithm): Option<nat> {
    if a.mergeSplit then Some(1 + if a.transposition then 1 else 0) else None
  }

  function SplitSlot(a: Algorithm): Option<nat> {
    match MergeSlot(a) case None => None case Some(s) => Some(s + 1)
  }

  /** `bounded_levenshtein_states`: saturating `usize` arithmetic, then saturation to `u32`. */
  function BoundedStates(queryLen: nat, maxDistance: nat): (r: nat)
    ensures 1 <= r <= U32_MAX
  {
    var positions := Min(queryLen + 1, USIZE_MAX);
    var costs := Min(maxDistance + 1, USIZE_MAX);
    assert positions * costs >= 1 by { assert positions >= 1 && costs >= 1; }
    Min(Min(positions * costs, USIZE_MAX), U32_MAX)
  }

  datatype Codec = Codec(queryLen: nat, maxDistance: nat, algorithm: Algorithm) {

    function NormalStates(): (r: nat)
      ensures 1 <= r <= U32_MAX
    {
      BoundedStates(queryLen, maxDistance)
    }

    function MaxStates(): (r: nat)
      ensures NormalStates() <= r <= U32_MAX
    {
      Min(NormalStates() * (1 + ContinuationKinds(algorithm)), U32_MAX)
    }

    function Stride(): (r: nat)
      ensures 1 <= r <= U32_MAX
    {
      Min(Min(maxDistance, U32_MAX) + 1, U32_MAX)
    }

    function EncodeNormal(pos: nat, cost: nat): Option<nat> {
      match CheckedMul32(pos, Stride())
      case None => None
      case Some(base) =>
        match CheckedAdd32(base, cost)
        case None => None
        case Some(state) => if state < NormalStates() then Some(state) else None
    }

    /** `continuation_state`; the transpose encoder is this with the slot fixed at 1. */
    function EncodeSlot(slot: nat, pos: nat, cost: nat): Option<nat> {
      match CheckedMul32(NormalStates(), slot)
      case None => None
      case Some(base) =>
        match EncodeNormal(pos, cost)
        case None => None
        case Some(normal) =>
          match CheckedAdd32(base, normal)
          case None => None
          case Some(state) => if state < MaxStates() then Some(state) else None
    }

    /** The four encoders. The transpose encoder does not consult the algorithm. */
    function Encode(s: AutomatonState): Option<nat> {
      match s
      case Normal(p, c) => EncodeNormal(p, c)
      case TransposeSecond(p, c) => EncodeSlot(1, p, c)
      case MergeSecond(p, c) =>
        (match MergeSlot(algorithm) case None => None case Some(slot) => EncodeSlot(slot, p, c))
      case SplitSecond(p, c) =>
        (match SplitSlot(algorithm) case None => None case Some(slot) => EncodeSlot(slot, p, c))
    }

    function Decode(id: nat): Option<AutomatonState> {
      if id >= MaxStates() then None
      else
        var normal := id % NormalStates();
        var pos, cost := normal / Stride(), normal % Stride();
        if pos > queryLen || cost > maxDistance then None
        else
          var slot := id / NormalStates();
          if slot == 0 then Some(Normal(pos, cost))
          else if TransposeSlot(algorithm) == Some(slot) then Some(TransposeSecond(pos, cost))
          else if MergeSlot(algorithm) == Some(slot) then Some(MergeSecond(pos, cost))
          else if SplitSlot(algorithm) == Some(slot) then Some(SplitSecond(pos, cost))
          else None
    }

    function EncodeProduct(node: nat, automaton: nat): Option<nat> {
      if automaton >= MaxStates() then None
      else match CheckedMul32(node, MaxStates())
        case None => None
        case Some(base) => CheckedAdd32(base, automaton)
    }

    function DecodeProduct(id: nat): (nat, nat) {
      (id / MaxStates(), id % MaxStates())
    }

    /** The state's position and cost lie inside the configured lattice. */
    predicate InRange(s: AutomatonState) { s.pos <= queryLen && s.cost <= maxDistance }

    /** Neither `u32` bound saturates. */
    predicate Unsaturated() {
      (queryLen + 1) * (maxDistance + 1) * (1 + ContinuationKinds(algorithm)) <= U32_MAX
    }

    /** The one caller obligation: transpose states belong to algorithms with transposition. */
    predicate Supported(s: AutomatonState) {
      match s
      case Normal(_, _) => true
      case TransposeSecond(_, _) => algorithm.transposition
      case MergeSecond(_, _) => algorithm.mergeSplit
      case SplitSecond(_, _) => algorithm.mergeSplit
    }
  }

  lemma MultipleBelow(a: nat, b: nat, d: nat)
    requires a < b
    ensures a * d + d <= b * d
  {
    assert (a + 1) * d <= b * d;
  }

  lemma DivModUnique(q: nat, d: nat, r: nat)
    requires r < d
    ensures (q * d + r) / d == q && (q * d + r) % d == r
  {
    var n := q * d + r;
    var q' := n / d;
    assert n == q' * d + n % d;
    if q' < q {
      MultipleBelow(q', q, d);
    } else if q < q' {
      MultipleBelow(q, q', d);
    }
  }

  /** A normal encode succeeds only with the cost inside the stride, even when the stride saturates. */
  lemma EncodeNormalFacts(k: Codec, pos: nat, cost: nat)
    requires pos <= k.queryLen && cost <= k.maxDistance && k.EncodeNormal(pos, cost).Some?
    ensures var id := k.EncodeNormal(pos, cost).value;
            id < k.NormalStates() && id / k.Stride() == pos && id % k.Stride() == cost
  {
    assert cost < k.Stride();
    DivModUnique(pos, k.Stride(), cost);
  }

  lemma EncodeSlotFacts(k: Codec, slot: nat, pos: nat, cost: nat)
    requires pos <= k.queryLen && cost <= k.maxDistance && k.EncodeSlot(slot, pos, cost).Some?
    ensures k.EncodeNormal(pos, cost).Some?
    ensures var id := k.EncodeSlot(slot, pos, cost).value;
            && id < k.MaxStates() && id / k.NormalStates() == slot
            && id % k.NormalStates() == k.EncodeNormal(pos, cost).value
  {
    EncodeNormalFacts(k, pos, cost);
    DivModUnique(slot, k.NormalStates(), k.EncodeNormal(pos, cost).value);
    assert slot * k.NormalStates() == k.NormalStates() * slot;
  }

  /** What decoding yields for every successful in-range encode, saturated or not. */
  lemma DecodeAfterEncode(k: Codec, s: AutomatonState)
    requires k.InRange(s) && k.Encode(s).Some?
    ensures k.Encode(s).value < k.MaxStates()
    ensures k.Supported(s) ==> k.Decode(k.Encode(s).value) == Some(s)
    ensures !k.Supported(s) ==>
              s.TransposeSecond? && k.Decode(k.Encode(s).value) == Some(MergeSecond(s.pos, s.cost))
  {
    EncodeNormalCase(k, s);
    match s
    case Normal(p, c) =>
      EncodeNormalFacts(k, p, c);
      var id := k.Encode(s).value;
      DivModUnique(0, k.NormalStates(), id);
    case TransposeSecond(p, c) => EncodeSlotFacts(k, 1, p, c); EncodeNormalFacts(k, p, c);
    case MergeSecond(p, c) => EncodeSlotFacts(k, MergeSlot(k.algorithm).value, p, c); EncodeNormalFacts(k, p, c);
    case SplitSecond(p, c) => EncodeSlotFacts(k, SplitSlot(k.algorithm).value, p, c); EncodeNormalFacts(k, p, c);
  }

  /** With no continuation kinds at all, the transpose encoder cannot succeed. */
  lemma EncodeNormalCase(k: Codec, s: AutomatonState)
    requires k.InRange(s) && k.Encode(s).Some?
    ensures s.TransposeSecond? ==> k.algorithm.transposition || k.algorithm.mergeSplit
  {
    if s.TransposeSecond? && !k.algorithm.transposition && !k.algorithm.mergeSplit {
      EncodeSlotFacts(k, 1, s.pos, s.cost);
    }
  }

  /**
   Decoding inverts a successful in-range encode exactly for supported states: asked for a transpose
   state, a merge/split-only codec hands out the ID of a merge state.
   */
  lemma DecodeInvertsEncode(k: Codec, s: AutomatonState)
    requires k.InRange(s) && k.Encode(s).Some?
    ensures k.Decode(k.Encode(s).value) == Some(s) <==> k.Supported(s)
  {
    DecodeAfterEncode(k, s);
  }

  /** The unguarded transpose encoder collides with a merge state on a concrete codec. */
  lemma TransposeEncoderCollides()
    ensures var k := Codec(2, 1, Algorithm(false, true));
            k.Encode(TransposeSecond(0, 1)).Some? && k.Encode(TransposeSecond(0, 1)) == k.Encode(MergeSecond(0, 1))
  {
    var k := Codec(2, 1, Algorithm(false, true));
    assert k.NormalStates() == 6 && k.MaxStates() == 18 && k.Stride() == 2;
    assert k.EncodeNormal(0, 1) == Some(1);
  }

  /** The four kinds of automaton state never collide, including where the `u32` bounds saturate. */
  lemma EncodeInjective(k: Codec, s: AutomatonState, s': AutomatonState)
    requires k.InRange(s) && k.Supported(s) && k.Encode(s).Some?
    requires k.InRange(s') && k.Supported(s') && k.Encode(s') == k.Encode(s)
    ensures s == s'
  {
    DecodeAfterEncode(k, s);
    DecodeAfterEncode(k, s');
  }

  /** Product packing is invertible on every successful encode. */
  lemma ProductRoundTrip(k: Codec, node: nat, automaton: nat)
    requires k.EncodeProduct(node, automaton).Some?
    ensures k.DecodeProduct(k.EncodeProduct(node, automaton).value) == (node, automaton)
    ensures k.EncodeProduct(node, automaton).value <= U32_MAX
  {
    DivModUnique(node, k.MaxStates(), automaton);
  }

  lemma PairBelow(nodes: nat, max: nat, total: nat, node: nat, a: nat)
    requires nodes * max <= total && node < nodes && a < max
    ensures node * max + a < total && node < total
  {
    MultipleBelow(node, nodes, max);
    assert node * 1 <= node * max;
  }

  /** IDs exist for all automaton states of the first `nodes` nodes when their number fits `u32`. */
  lemma ProductTotal(k: Codec, nodes: nat, node: nat, automaton: nat)
    requires nodes * k.MaxStates() <= U32_MAX + 1 && node < nodes && automaton < k.MaxStates()
    ensures k.EncodeProduct(node, automaton).Some? && node <= U32_MAX
  {
    hide Codec.MaxStates;
    PairBelow(nodes, k.MaxStates(), U32_MAX + 1, node, automaton);
  }

  lemma SlotFits(n: nat, d: nat, kinds: nat, slot: nat, pos: nat, cost: nat)
    requires pos < n && cost < d && slot < kinds
    ensures pos * d + cost < n * d
    ensures (n * d) * slot + pos * d + cost < n * d * kinds
  {
    assert (pos + 1) * d <= n * d;
    assert (n * d) * (slot + 1) <= (n * d) * kinds;
  }

  /** Without saturation every supported in-range state has an ID. */
  lemma EncodeTotal(k: Codec, s: AutomatonState)
    requires k.Unsaturated() && k.InRange(s) && k.Supported(s)
    ensures k.Encode(s).Some?
  {
    UnsaturatedSizes(k);
    var slot := match s
      case Normal(_, _) => 0
      case TransposeSecond(_, _) => 1
      case MergeSecond(_, _) => MergeSlot(k.algorithm).value
      case SplitSecond(_, _) => SplitSlot(k.algorithm).value;
    SlotFits(k.queryLen + 1, k.maxDistance + 1, 1 + ContinuationKinds(k.algorithm), slot, s.pos, s.cost);
    SlotEncodes(k, slot, s.pos, s.cost);
  }

  lemma SlotEncodes(k: Codec, slot: nat, pos: nat, cost: nat)
    requires pos * k.Stride() + cost < k.NormalStates()
    requires k.NormalStates() * slot + pos * k.Stride() + cost < k.MaxStates()
    ensures k.EncodeNormal(pos, cost).Some? && k.EncodeSlot(slot, pos, cost).Some?
  {
    var s, n := k.Stride(), k.NormalStates();
    assert pos * s <= U32_MAX;
    assert n * slot >= 0;
  }

  lemma UnsaturatedSizes(k: Codec)
    requires k.Unsaturated()
    ensures k.Stride() == k.maxDistance + 1
    ensures k.NormalStates() == (k.queryLen + 1) * (k.maxDistance + 1)
    ensures k.MaxStates() == (k.queryLen + 1) * (k.maxDistance + 1) * (1 + ContinuationKinds(k.algorithm))
  {
    var n, d := k.queryLen + 1, k.maxDistance + 1;
    assert n * d <= n * d * (1 + ContinuationKinds(k.algorithm));
    assert d <= n * d && n <= n * d;
  }

  /** How many states are laid out before those of `s`'s kind: normal ones first, then swaps, merges and splits. */
  function KindsBefore(k: Codec, s: AutomatonState): nat {
    match s
    case Normal(_, _) => 0
    case TransposeSecond(_, _) => 1
    case MergeSecond(_, _) => if k.algorithm.transposition then 2 else 1
    case SplitSecond(_, _) => if k.algorithm.transposition then 3 else 2
  }

  /** The IDs in numbers: costs within positions within kinds within nodes. */
  lemma {:induction false} IdsInNumbers(k: Codec, s: AutomatonState, node: nat)
    requires k.Unsaturated() && k.InRange(s) && k.Supported(s)
    ensures var kinds := 1 + (if k.algorithm.transposition then 1 else 0) + (if k.algorithm.mergeSplit then 2 else 0);
            var positions, costs := k.queryLen + 1, k.maxDistance + 1;
            var id := (positions * costs) * KindsBefore(k, s) + s.pos * costs + s.cost;
            && k.Encode(s) == Some(id) && id < positions * costs * kinds
            && k.EncodeProduct(node, id) ==
               if node * (positions * costs * kinds) + id <= 4294967295
               then Some(node * (positions * costs * kinds) + id) else None
  {
    UnsaturatedSizes(k);
    EncodeTotal(k, s);
  }
}
