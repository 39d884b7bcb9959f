/** Transducer arcs with optional labels, and spelling a string through a chain of them. */
module Labels {
  import opened Common

  /** A weighted arc; a missing label is epsilon. */
  datatype Transition = Transition(from: nat, input: Option<char>, output: Option<char>, to: nat, weight: nat)

  /** The label at position `k`; epsilon past the end. */
  function LabelAt(s: string, k: nat): Option<char> { if k < |s| then Some(s[k]) else None }

  /** An arc labelled `symbol` can be followed in front of `s`. */
  predicate Reads(symbol: Option<char>, s: string) { symbol.Some? ==> s != [] && s[0] == symbol.value }

  function Rest(symbol: Option<char>, s: string): string
    requires Reads(symbol, s)
  {
    if symbol.Some? then s[1..] else s
  }

  /** The labels of `s` from position `k` on; none past its end. */
  function From(s: string, k: nat): string { if k <= |s| then s[k..] else [] }

  /** Peeling one label off what is left of a chain side. */
  lemma SpellStep(side: string, k: nat, s: string)
    requires Reads(LabelAt(side, k), s)
    ensures From(side, k) <= s <==> From(side, k + 1) <= Rest(LabelAt(side, k), s)
    ensures From(side, k) <= s ==> s[|From(side, k)|..] == Rest(LabelAt(side, k), s)[|From(side, k + 1)|..]
  {
    if k < |side| {
      var u, v := From(side, k + 1), s[1..];
      assert From(side, k) == [s[0]] + u && s == [s[0]] + v;
      PrefixCons(s[0], u, v);
    }
  }

  lemma PrefixCons(c: char, u: string, v: string)
    ensures [c] + u <= [c] + v <==> u <= v
    ensures u <= v ==> ([c] + v)[|u| + 1..] == v[|u|..]
  {
    if u <= v {
      assert v == u + v[|u|..];
      assert [c] + v == ([c] + u) + v[|u|..];
    }
    if [c] + u <= [c] + v {
      assert forall i :: 0 <= i < |u| ==> u[i] == ([c] + u)[i + 1] == ([c] + v)[i + 1] == v[i];
    }
  }

  lemma SpellReads(side: string, k: nat, s: string)
    requires From(side, k) <= s
    ensures Reads(LabelAt(side, k), s)
  {
    if k < |side| { assert From(side, k)[0] == side[k]; }
  }

  /** Reading a whole side: its first label, then what is left of it. */
  lemma {:induction false} SpellWhole(side: string, s: string)
    requires Reads(LabelAt(side, 0), s)
    ensures side <= s <==> From(side, 1) <= Rest(LabelAt(side, 0), s)
    ensures side <= s ==> s[|side|..] == Rest(LabelAt(side, 0), s)[|From(side, 1)|..]
  {
    hide LabelAt;
    SpellStep(side, 0, s);
    assert From(side, 0) == side;
  }

  lemma {:induction false} StartReads(side: string, s: string)
    requires side <= s
    ensures Reads(LabelAt(side, 0), s)
  {
    assert From(side, 0) == side;
    SpellReads(side, 0, s);
  }
}
