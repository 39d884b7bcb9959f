/**
 The phonetic NFA with zero-width anchors: runs over a string, the worklist closures of src/phonetic_anchors.rs, and
 the subset semantics built on them.
 */
module PhoneticNfa {
  import opened Common

  /** What an arc of the NFA does. `matches` is the class's own test; `Zero` is any other zero-width assertion. */
  datatype Label =
    | Symbol(c: char)
    | Class(ranges: seq<(char, char)>, negated: bool, matches: char -> bool)
    | Any
    | Epsilon
    | StartOfLine
    | StartOfInput
    | EndOfLine
    | EndOfInput
    | EndOfInputStrict
    | Zero

  datatype Arc = Arc(via: Label, to: nat)

  datatype Nfa = Nfa(start: nat, finals: set<nat>, arcs: seq<seq<Arc>>) {
    /** `transitions_from`. */
    function From(s: nat): seq<Arc> { if s < |arcs| then arcs[s] else [] }
  }

  predicate Matches(l: Label, c: char) {
    match l
    case Symbol(d) => c == d
    case Class(_, _, matches) => matches(c)
    case Any => true
    case _ => false
  }

  predicate StartAnchor(l: Label) { l.StartOfLine? || l.StartOfInput? }

  predicate EndAnchor(l: Label) { l.EndOfLine? || l.EndOfInput? || l.EndOfInputStrict? }

  /** Which anchors a closure may cross besides epsilon arcs. */
  datatype Side = Initial | Inner | Terminal

  predicate Free(side: Side, l: Label) {
    l.Epsilon? || (side.Initial? && StartAnchor(l)) || (side.Terminal? && EndAnchor(l))
  }

  function Elements(states: seq<nat>): set<nat> { set s | s in states }

  // ---------------------------------------------------------------- runs of the NFA

  /**
   Taking the arcs numbered by `moves` from `s`, with `i` symbols of `w` read, reads the rest of `w` and ends in a final
   state. Start anchors hold only before the first symbol and end anchors only after the last. With `ordered`, no start
   anchor may follow an end anchor (`ended`), which matters for the empty string alone.
   */
  ghost predicate Run(nfa: Nfa, s: nat, moves: seq<nat>, w: string, i: nat, ordered: bool, ended: bool)
    requires i <= |w|
    decreases |moves|
  {
    if moves == [] then i == |w| && s in nfa.finals
    else
      && moves[0] < |nfa.From(s)|
      && var arc := nfa.From(s)[moves[0]];
         || (arc.via.Epsilon? && Run(nfa, arc.to, moves[1..], w, i, ordered, ended))
         || (StartAnchor(arc.via) && i == 0 && !(ordered && ended) &&
             Run(nfa, arc.to, moves[1..], w, i, ordered, ended))
         || (EndAnchor(arc.via) && i == |w| && Run(nfa, arc.to, moves[1..], w, i, ordered, true))
         || (i < |w| && Matches(arc.via, w[i]) && Run(nfa, arc.to, moves[1..], w, i + 1, ordered, ended))
  }

  ghost predicate HasRun(nfa: Nfa, w: string, ordered: bool) {
    exists moves :: Run(nfa, nfa.start, moves, w, 0, ordered, false)
  }

  /** What taking one arc does to a run, label by label. */
  lemma RunByLabel(nfa: Nfa, s: nat, moves: seq<nat>, w: string, i: nat, ordered: bool, ended: bool)
    requires i <= |w| && moves != [] && moves[0] < |nfa.From(s)|
    ensures var arc, rest := nfa.From(s)[moves[0]], moves[1..];
            Run(nfa, s, moves, w, i, ordered, ended) <==>
              match arc.via
              case Symbol(c) => i < |w| && w[i] == c && Run(nfa, arc.to, rest, w, i + 1, ordered, ended)
              case Class(_, _, test) => i < |w| && test(w[i]) && Run(nfa, arc.to, rest, w, i + 1, ordered, ended)
              case Any => i < |w| && Run(nfa, arc.to, rest, w, i + 1, ordered, ended)
              case Epsilon => Run(nfa, arc.to, rest, w, i, ordered, ended)
              case StartOfLine => i == 0 && (ordered ==> !ended) && Run(nfa, arc.to, rest, w, i, ordered, ended)
              case StartOfInput => i == 0 && (ordered ==> !ended) && Run(nfa, arc.to, rest, w, i, ordered, ended)
              case EndOfLine => i == |w| && Run(nfa, arc.to, rest, w, i, ordered, true)
              case EndOfInput => i == |w| && Run(nfa, arc.to, rest, w, i, ordered, true)
              case EndOfInputStrict => i == |w| && Run(nfa, arc.to, rest, w, i, ordered, true)
              case Zero => false
  {
  }

  /** Except for the empty string, anchors cannot come in the wrong order. */
  lemma {:induction false} OrderOnlyMattersWhenEmpty(nfa: Nfa, s: nat, moves: seq<nat>, w: string, i: nat, ended: bool)
    requires i <= |w| && w != [] && (ended ==> i == |w|)
    ensures Run(nfa, s, moves, w, i, true, ended) <==> Run(nfa, s, moves, w, i, false, ended)
    decreases |moves|
  {
    if moves != [] && moves[0] < |nfa.From(s)| {
      var arc := nfa.From(s)[moves[0]];
      OrderOnlyMattersWhenEmpty(nfa, arc.to, moves[1..], w, i, ended);
      if i == |w| { OrderOnlyMattersWhenEmpty(nfa, arc.to, moves[1..], w, i, true); }
      if i < |w| { OrderOnlyMattersWhenEmpty(nfa, arc.to, moves[1..], w, i + 1, ended); }
    }
  }

  // ---------------------------------------------------------------- closures

  /** What a closure crosses, label by label. */
  lemma FreeByLabel(l: Label)
    ensures Free(Inner, l) <==> l == Epsilon
    ensures Free(Initial, l) <==> l == Epsilon || l == StartOfLine || l == StartOfInput
    ensures Free(Terminal, l) <==> l == Epsilon || l == EndOfLine || l == EndOfInput || l == EndOfInputStrict
  {
  }

  /** The free arcs numbered by `moves` lead from `s` to `t`. */
  ghost predicate FreePath(nfa: Nfa, side: Side, s: nat, moves: seq<nat>, t: nat)
    decreases |moves|
  {
    if moves == [] then s == t
    else
      && moves[0] < |nfa.From(s)| && Free(side, nfa.From(s)[moves[0]].via)
      && FreePath(nfa, side, nfa.From(s)[moves[0]].to, moves[1..], t)
  }

  ghost predicate Leads(nfa: Nfa, side: Side, s: nat, t: nat) { exists moves :: FreePath(nfa, side, s, moves, t) }

  ghost predicate Reached(nfa: Nfa, side: Side, initial: set<nat>, t: nat) {
    exists s :: s in initial && Leads(nfa, side, s, t)
  }

  function Target(nfa: Nfa, s: nat, j: nat): nat
    requires j < |nfa.From(s)|
  {
    nfa.From(s)[j].to
  }

  /** All states that some arc enters. */
  ghost function Universe(nfa: Nfa): set<nat> {
    set s: nat, j: nat | s < |nfa.arcs| && j < |nfa.arcs[s]| :: Target(nfa, s, j)
  }

  /** The states reachable from `initial` along free arcs. */
  ghost function Closure(nfa: Nfa, side: Side, initial: set<nat>): set<nat> {
    set t | t in initial + Universe(nfa) && Reached(nfa, side, initial, t)
  }

  lemma {:induction false} FreePathSnoc(nfa: Nfa, side: Side, s: nat, moves: seq<nat>, t: nat, j: nat)
    requires FreePath(nfa, side, s, moves, t) && j < |nfa.From(t)| && Free(side, nfa.From(t)[j].via)
    ensures FreePath(nfa, side, s, moves + [j], nfa.From(t)[j].to)
    decreases |moves|
  {
    if moves == [] {
      assert moves + [j] == [j];
    } else {
      FreePathSnoc(nfa, side, nfa.From(s)[moves[0]].to, moves[1..], t, j);
      assert (moves + [j])[1..] == moves[1..] + [j];
    }
  }

  lemma ReachedSnoc(nfa: Nfa, side: Side, initial: set<nat>, t: nat, j: nat)
    requires Reached(nfa, side, initial, t) && j < |nfa.From(t)| && Free(side, nfa.From(t)[j].via)
    ensures Reached(nfa, side, initial, nfa.From(t)[j].to)
  {
    var s :| s in initial && Leads(nfa, side, s, t);
    var moves :| FreePath(nfa, side, s, moves, t);
    FreePathSnoc(nfa, side, s, moves, t, j);
    assert Leads(nfa, side, s, nfa.From(t)[j].to);
  }

  lemma ReachedStart(nfa: Nfa, side: Side, initial: set<nat>, t: nat)
    requires t in initial
    ensures Reached(nfa, side, initial, t)
  {
    assert FreePath(nfa, side, t, [], t);
    assert Leads(nfa, side, t, t);
  }

  /** A set is closed when its free arcs stay inside. */
  ghost predicate ClosedAt(nfa: Nfa, side: Side, states: set<nat>, s: nat) {
    forall j :: 0 <= j < |nfa.From(s)| && Free(side, nfa.From(s)[j].via) ==> nfa.From(s)[j].to in states
  }

  ghost predicate Closed(nfa: Nfa, side: Side, states: set<nat>) {
    forall s :: s in states ==> ClosedAt(nfa, side, states, s)
  }

  lemma {:induction false} ClosedKeepsPaths(nfa: Nfa, side: Side, states: set<nat>, s: nat, moves: seq<nat>, t: nat)
    requires Closed(nfa, side, states) && s in states && FreePath(nfa, side, s, moves, t)
    ensures t in states
    decreases |moves|
  {
    if moves != [] {
      assert ClosedAt(nfa, side, states, s);
      ClosedKeepsPaths(nfa, side, states, nfa.From(s)[moves[0]].to, moves[1..], t);
    }
  }

  lemma InUniverse(nfa: Nfa, s: nat, j: nat)
    requires j < |nfa.From(s)|
    ensures nfa.From(s)[j].to in Universe(nfa)
  {
    assert Target(nfa, s, j) in Universe(nfa);
  }

  lemma {:induction false} PathInUniverse(nfa: Nfa, side: Side, s: nat, moves: seq<nat>, t: nat)
    requires FreePath(nfa, side, s, moves, t)
    ensures t == s || t in Universe(nfa)
    decreases |moves|
  {
    if moves != [] {
      InUniverse(nfa, s, moves[0]);
      PathInUniverse(nfa, side, nfa.From(s)[moves[0]].to, moves[1..], t);
    }
  }

  /** Membership of the closure is reachability. */
  lemma ClosureMember(nfa: Nfa, side: Side, initial: set<nat>, t: nat)
    ensures t in Closure(nfa, side, initial) <==> Reached(nfa, side, initial, t)
  {
    if Reached(nfa, side, initial, t) {
      var s :| s in initial && Leads(nfa, side, s, t);
      var moves :| FreePath(nfa, side, s, moves, t);
      PathInUniverse(nfa, side, s, moves, t);
    }
  }

  lemma ClosureClosed(nfa: Nfa, side: Side, initial: set<nat>)
    ensures initial <= Closure(nfa, side, initial) && Closed(nfa, side, Closure(nfa, side, initial))
  {
    hide Reached, Free;
    forall t | t in initial ensures t in Closure(nfa, side, initial) {
      ReachedStart(nfa, side, initial, t);
    }
    forall s, j | s in Closure(nfa, side, initial) && 0 <= j < |nfa.From(s)| && Free(side, nfa.From(s)[j].via)
      ensures nfa.From(s)[j].to in Closure(nfa, side, initial)
    {
      ReachedSnoc(nfa, side, initial, s, j);
      ClosureMember(nfa, side, initial, nfa.From(s)[j].to);
    }
  }

  /** A closed set between `initial` and what it reaches is the closure. */
  lemma ClosureUnique(nfa: Nfa, side: Side, initial: set<nat>, states: set<nat>)
    requires initial <= states && Closed(nfa, side, states)
    requires forall t :: t in states ==> Reached(nfa, side, initial, t)
    ensures states == Closure(nfa, side, initial)
  {
    forall t ensures t in states <==> t in Closure(nfa, side, initial) {
      ClosureMember(nfa, side, initial, t);
      if Reached(nfa, side, initial, t) {
        var s :| s in initial && Leads(nfa, side, s, t);
        var moves :| FreePath(nfa, side, s, moves, t);
        ClosedKeepsPaths(nfa, side, states, s, moves, t);
      }
    }
  }

  // ---------------------------------------------------------------- the worklist

  /** What the worklist knows: everything collected is reachable, everything off the stack is already closed. */
  ghost predicate WorkInv(nfa: Nfa, side: Side, initial: set<nat>, closure: set<nat>, stack: seq<nat>) {
    && initial <= closure && (forall s :: s in stack ==> s in closure)
    && (forall t :: t in closure ==> Reached(nfa, side, initial, t))
    && (forall s :: s in closure && s !in stack ==> ClosedAt(nfa, side, closure, s))
  }

  /** `position_anchor_closure`. */
  method PositionAnchorClosure(nfa: Nfa, initial: seq<nat>, side: Side) returns (closure: set<nat>)
    ensures closure == Closure(nfa, side, Elements(initial))
  {
    hide WorkInv, Universe, Closure;
    ghost var init := Elements(initial);
    closure := Elements(initial);
    var stack := initial;
    WorkStarts(nfa, side, initial);
    while stack != []
      invariant WorkInv(nfa, side, init, closure, stack)
      decreases Universe(nfa) - closure, |stack|
    {
      var top := |stack| - 1;
      assert stack[..top] + [stack[top]] == stack;
      ghost var before := closure;
      closure, stack := Sweep(nfa, side, init, closure, stack[..top], stack[top]);
      if closure != before { Progress(before, closure, Universe(nfa)); }
    }
    WorkEnds(nfa, side, init, closure);
  }

  lemma WorkStarts(nfa: Nfa, side: Side, initial: seq<nat>)
    ensures var init := Elements(initial); WorkInv(nfa, side, init, init, initial)
  {
    var init := Elements(initial);
    forall t | t in init ensures Reached(nfa, side, init, t) {
      ReachedStart(nfa, side, init, t);
    }
  }

  lemma WorkEnds(nfa: Nfa, side: Side, init: set<nat>, closure: set<nat>)
    requires WorkInv(nfa, side, init, closure, [])
    ensures closure == Closure(nfa, side, init)
  {
    ClosureUnique(nfa, side, init, closure);
  }

  lemma Progress(closure: set<nat>, closure': set<nat>, universe: set<nat>)
    requires closure < closure' <= closure + universe
    ensures universe - closure' < universe - closure
  {
    var s :| s in closure' && s !in closure;
    assert s in universe - closure;
  }

  /** One popped state: its free arcs' new targets join the closure and the stack. */
  method Sweep(nfa: Nfa, side: Side, ghost init: set<nat>, closure: set<nat>, stack: seq<nat>, state: nat)
    returns (closure': set<nat>, stack': seq<nat>)
    requires WorkInv(nfa, side, init, closure, stack + [state])
    ensures WorkInv(nfa, side, init, closure', stack')
    ensures closure' == closure ==> stack' == stack
    ensures closure <= closure' <= closure + Universe(nfa)
  {
    hide Reached, Free, Universe;
    closure', stack' := closure, stack;
    var arcs := nfa.From(state);
    assert state in stack + [state];
    for j := 0 to |arcs|
      invariant closure <= closure' <= closure + Universe(nfa) && (closure' == closure ==> stack' == stack)
      invariant init <= closure' && (forall s :: s in stack' ==> s in closure') && state in closure'
      invariant forall t :: t in closure' ==> Reached(nfa, side, init, t)
      invariant forall s :: s in closure' && s !in stack' && s != state ==> ClosedAt(nfa, side, closure', s)
      invariant forall k :: 0 <= k < j && Free(side, arcs[k].via) ==> arcs[k].to in closure'
    {
      if Free(side, arcs[j].via) && arcs[j].to !in closure' {
        ReachedSnoc(nfa, side, init, state, j);
        InUniverse(nfa, state, j);
        ghost var before, stacked := closure', stack';
        closure' := closure' + {arcs[j].to};
        stack' := stack' + [arcs[j].to];
        ClosedGrows(nfa, side, before, closure', stacked, stack', state);
      }
    }
    assert ClosedAt(nfa, side, closure', state);
  }

  lemma ClosedGrows(nfa: Nfa, side: Side, closure: set<nat>, closure': set<nat>, stack: seq<nat>, stack': seq<nat>,
                    state: nat)
    requires closure <= closure' && (forall s :: s in stack ==> s in stack')
    requires forall s :: s in closure' && s !in closure ==> s in stack'
    requires forall s :: s in closure && s !in stack && s != state ==> ClosedAt(nfa, side, closure, s)
    ensures forall s :: s in closure' && s !in stack' && s != state ==> ClosedAt(nfa, side, closure', s)
  {
    hide Free;
    forall s | s in closure' && s !in stack' && s != state ensures ClosedAt(nfa, side, closure', s) {
      assert ClosedAt(nfa, side, closure, s);
    }
  }
}
