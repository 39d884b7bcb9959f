/** Routing of provider faults to nested scopes (src/bindings/fault_scope.rs). */
module FaultScope {
  import opened Common

  type Status = nat

  datatype Boundary = Provider(id: nat) | Computation

  /** A scope on the thread's stack; `cell` identifies the fault cell it shares with its guard. */
  datatype Frame = Frame(boundary: Boundary, cell: nat)

  /** The frames, oldest first, and the fault cells of all scopes entered so far. */
  datatype Scopes = Scopes(frames: seq<Frame>, faults: seq<Option<Status>>)

  /** Each frame has its own cell. */
  ghost predicate WellFormed(s: Scopes) {
    && (forall i :: 0 <= i < |s.frames| ==> s.frames[i].cell < |s.faults|)
    && forall i, j :: 0 <= i < j < |s.frames| ==> s.frames[i].cell != s.frames[j].cell
  }

  // ---------------------------------------------------------------- routing

  predicate Matches(b: Boundary, provider: nat) { b.Computation? || b == Provider(provider) }

  /** The newest matching frame among the first `n`. */
  function Newest(frames: seq<Frame>, provider: nat, n: nat): (r: Option<nat>)
    requires n <= |frames|
    ensures r.Some? ==> r.value < n && Matches(frames[r.value].boundary, provider)
                        && forall k :: r.value < k < n ==> !Matches(frames[k].boundary, provider)
    ensures r.None? ==> forall k :: 0 <= k < n ==> !Matches(frames[k].boundary, provider)
  {
    if n == 0 then None
    else if Matches(frames[n - 1].boundary, provider) then Some(n - 1)
    else Newest(frames, provider, n - 1)
  }

  /** The cells a fault of `provider` goes to. */
  function Sinks(frames: seq<Frame>, provider: nat): seq<nat> {
    match Newest(frames, provider, |frames|)
    case None => []
    case Some(i) =>
      if frames[i].boundary.Provider? then [frames[i].cell]
      else
        match Newest(frames, provider, i)
        case None => [frames[i].cell]
        case Some(k) => if frames[k].boundary.Provider? then [frames[i].cell, frames[k].cell] else [frames[i].cell]
  }

  ghost predicate NoneAbove(frames: seq<Frame>, i: nat, b: Boundary) {
    forall k :: i < k < |frames| ==> frames[k].boundary != b
  }

  ghost predicate AtMostOneComputationAbove(frames: seq<Frame>, i: nat) {
    forall j, k :: i < j < k < |frames| ==> !(frames[j].boundary.Computation? && frames[k].boundary.Computation?)
  }

  /**
   Who hears of a fault of `provider`: a scope of that provider with no newer scope of it and at most one computation
   above, and the newest computation if no scope of the provider is newer.
   */
  ghost predicate Hears(frames: seq<Frame>, provider: nat, i: nat)
    requires i < |frames|
  {
    && NoneAbove(frames, i, Provider(provider))
    && match frames[i].boundary
       case Computation => NoneAbove(frames, i, Computation)
       case Provider(p) => p == provider && AtMostOneComputationAbove(frames, i)
  }

  ghost predicate HearsCell(frames: seq<Frame>, provider: nat, cell: nat) {
    exists i :: 0 <= i < |frames| && frames[i].cell == cell && Hears(frames, provider, i)
  }

  /** A fault goes to exactly the frames that should hear of it. */
  lemma {:induction false} SinksHear(frames: seq<Frame>, provider: nat, cell: nat)
    ensures cell in Sinks(frames, provider) <==> HearsCell(frames, provider, cell)
  {
    var top := Newest(frames, provider, |frames|);
    if top.Some? && frames[top.value].boundary.Computation? {
      SecondHears(frames, provider, cell, top.value);
    }
    if cell in Sinks(frames, provider) && frames[top.value].cell == cell {
      assert Hears(frames, provider, top.value);
    }
  }

  lemma {:induction false} SecondHears(frames: seq<Frame>, provider: nat, cell: nat, top: nat)
    requires Newest(frames, provider, |frames|) == Some(top) && frames[top].boundary.Computation?
    ensures forall i :: 0 <= i < top && Hears(frames, provider, i) ==>
              Newest(frames, provider, top) == Some(i) && frames[i].boundary.Provider?
    ensures forall i :: top < i < |frames| ==> !Hears(frames, provider, i)
    ensures Newest(frames, provider, top).Some? && frames[Newest(frames, provider, top).value].boundary.Provider? ==>
              Hears(frames, provider, Newest(frames, provider, top).value)
  {
  }

  /**
   Faults stop at the newest computation's recovery boundary: an older computation and everything beneath it is
   shielded.
   */
  lemma {:induction false} OlderComputationIsShielded(frames: seq<Frame>, provider: nat, older: nat, newer: nat, i: nat)
    requires i <= older < newer < |frames| && frames[older].boundary.Computation? && frames[newer].boundary.Computation?
    ensures !Hears(frames, provider, i)
  {
  }

  // ---------------------------------------------------------------- steps

  datatype Op = Enter(boundary: Boundary) | Record(provider: nat, status: Status) | Drop(cell: nat)

  /** The first status stays. */
  function Latch(held: Option<Status>, status: Status): Option<Status> { if held.Some? then held else Some(status) }

  function Remove(frames: seq<Frame>, cell: nat): seq<Frame> {
    if frames == [] then []
    else if frames[|frames| - 1].cell == cell then frames[..|frames| - 1]
    else Remove(frames[..|frames| - 1], cell) + [frames[|frames| - 1]]
  }

  function Step(s: Scopes, op: Op): Scopes {
    match op
    case Enter(b) => Scopes(s.frames + [Frame(b, |s.faults|)], s.faults + [None])
    case Record(p, status) =>
      Scopes(s.frames, seq(|s.faults|, c requires 0 <= c < |s.faults| =>
                                         if c in Sinks(s.frames, p) then Latch(s.faults[c], status) else s.faults[c]))
    case Drop(cell) => Scopes(Remove(s.frames, cell), s.faults)
  }

  function Run(ops: seq<Op>): Scopes {
    if ops == [] then Scopes([], []) else Step(Run(ops[..|ops| - 1]), ops[|ops| - 1])
  }

  // ---------------------------------------------------------------- whole runs

  /** The statuses routed to `cell` during a run, in order. */
  function Routed(ops: seq<Op>, cell: nat): seq<Status> {
    if ops == [] then []
    else
      var before, last := ops[..|ops| - 1], ops[|ops| - 1];
      Routed(before, cell) +
      if last.Record? && cell < |Run(before).faults| && cell in Sinks(Run(before).frames, last.provider)
      then [last.status] else []
  }

  lemma {:induction false} RemoveMember(frames: seq<Frame>, cell: nat, f: Frame)
    ensures f in Remove(frames, cell) ==> f in frames
  {
    if frames != [] { RemoveMember(frames[..|frames| - 1], cell, f); }
  }

  /** Exactly the newest frame of the cell goes; all others stay, in order. */
  lemma {:induction false} RemoveTakes(frames: seq<Frame>, cell: nat, i: nat)
    requires i < |frames| && IsNewestOf(frames, cell, i)
    ensures Remove(frames, cell) == frames[..i] + frames[i + 1..]
  {
    var n := |frames| - 1;
    if i < n {
      assert IsNewestOf(frames[..n], cell, i);
      RemoveTakes(frames[..n], cell, i);
      assert frames[i + 1..] == frames[..n][i + 1..] + [frames[n]];
    }
  }

  /** Frame `i` is the newest one of `cell`. */
  ghost predicate IsNewestOf(frames: seq<Frame>, cell: nat, i: nat)
    requires i < |frames|
  {
    frames[i].cell == cell && forall j :: i < j < |frames| ==> frames[j].cell != cell
  }

  lemma {:induction false} RemoveNone(frames: seq<Frame>, cell: nat)
    requires forall i :: 0 <= i < |frames| ==> frames[i].cell != cell
    ensures Remove(frames, cell) == frames
  {
    if frames != [] { RemoveNone(frames[..|frames| - 1], cell); }
  }

  lemma {:induction false} RemoveDistinct(s: Scopes, cell: nat)
    requires WellFormed(s)
    ensures WellFormed(Scopes(Remove(s.frames, cell), s.faults))
    ensures forall i :: 0 <= i < |Remove(s.frames, cell)| ==> Remove(s.frames, cell)[i].cell != cell
    decreases |s.frames|
  {
    var frames := s.frames;
    if frames != [] {
      var init, last := frames[..|frames| - 1], frames[|frames| - 1];
      RemoveDistinct(Scopes(init, s.faults), cell);
      var rest := Remove(init, cell);
      forall i | 0 <= i < |rest| ensures rest[i].cell != last.cell {
        RemoveMember(init, cell, rest[i]);
      }
    }
  }

  /** Every run keeps one cell per live scope. */
  lemma {:induction false} RunWellFormed(ops: seq<Op>)
    ensures WellFormed(Run(ops))
  {
    if ops != [] {
      var before, last := ops[..|ops| - 1], ops[|ops| - 1];
      RunWellFormed(before);
      if last.Drop? { RemoveDistinct(Run(before), last.cell); }
    }
  }

  /** After every run, each scope holds the first status that was routed to it. */
  lemma {:induction false} FirstStatusWins(ops: seq<Op>, cell: nat)
    ensures cell < |Run(ops).faults| ==>
              Run(ops).faults[cell] == if Routed(ops, cell) == [] then None else Some(Routed(ops, cell)[0])
    ensures cell >= |Run(ops).faults| ==> Routed(ops, cell) == []
  {
    hide Sinks, Remove;
    if ops != [] { FirstStatusWins(ops[..|ops| - 1], cell); }
  }

  // ---------------------------------------------------------------- the thread's stack

  class FaultScopes {
    var frames: seq<Frame>
    var faults: seq<Option<Status>>

    ghost function State(): Scopes
      reads this
    {
      Scopes(frames, faults)
    }

    constructor ()
      ensures State() == Run([])
    {
      frames, faults := [], [];
    }

    method Push(boundary: Boundary) returns (cell: nat)
      modifies this
      ensures State() == old(Step(State(), Enter(boundary))) && cell == |old(faults)|
    {
      cell := |faults|;
      frames := frames + [Frame(boundary, cell)];
      faults := faults + [None];
    }

    method Check(cell: nat) returns (fault: Option<Status>)
      requires cell < |faults|
      ensures fault == faults[cell]
    {
      fault := faults[cell];
    }

    /**
     Removes the guard's own frame wherever it is, so scopes may end in any order; all other frames stay as they were.
     */
    method DropScope(cell: nat)
      modifies this
      ensures State() == old(Step(State(), Drop(cell))) && faults == old(faults)
      ensures (forall i :: 0 <= i < |old(frames)| ==> old(frames)[i].cell != cell) ==> frames == old(frames)
      ensures forall i :: 0 <= i < |old(frames)| && IsNewestOf(old(frames), cell, i) ==>
                frames == old(frames)[..i] + old(frames)[i + 1..]
    {
      ghost var before := frames;
      var at: nat := |frames|;
      while at > 0 && frames[at - 1].cell != cell
        invariant at <= |frames| && frames == before
        invariant forall j :: at <= j < |frames| ==> frames[j].cell != cell
      {
        at := at - 1;
      }
      if at > 0 {
        RemoveTakes(frames, cell, at - 1);
        frames := frames[..at - 1] + frames[at..];
      } else {
        RemoveNone(frames, cell);
      }
    }

    /** The newest matching frame below position `n`. */
    method FindNewest(provider: nat, n: nat) returns (r: Option<nat>)
      requires n <= |frames|
      ensures r == Newest(frames, provider, n)
    {
      var i: nat := n;
      while i > 0
        invariant i <= n && Newest(frames, provider, n) == Newest(frames, provider, i)
      {
        if Matches(frames[i - 1].boundary, provider) {
          return Some(i - 1);
        }
        i := i - 1;
      }
      return None;
    }

    /** The cells to set, found outwards from the newest frame. */
    method Route(provider: nat) returns (sinks: seq<nat>)
      ensures sinks == Sinks(frames, provider)
    {
      sinks := [];
      var top := FindNewest(provider, |frames|);
      if top.Some? {
        sinks := [frames[top.value].cell];
        if frames[top.value].boundary.Computation? {
          var outer := FindNewest(provider, top.value);
          if outer.Some? && frames[outer.value].boundary.Provider? {
            sinks := sinks + [frames[outer.value].cell];
          }
        }
      }
    }

    /** A fault with nobody to hear of it is refused. */
    method RecordFault(provider: nat, status: Status) returns (heard: bool)
      requires WellFormed(State())
      modifies this
      ensures State() == old(Step(State(), Record(provider, status)))
      ensures heard <==> exists i :: 0 <= i < |frames| && Hears(frames, provider, i)
    {
      hide Hears, Sinks;
      var sinks := Route(provider);
      SinksLive(State(), provider);
      heard := sinks != [];
      HeardIff(frames, provider);
      ghost var before := faults;
      for k := 0 to |sinks|
        invariant |faults| == |before| && frames == old(frames)
        invariant forall c :: 0 <= c < |faults| ==>
                    faults[c] == if c in sinks[..k] then Latch(before[c], status) else before[c]
      {
        if faults[sinks[k]].None? {
          faults := faults[sinks[k] := Some(status)];
        }
      }
      assert sinks[..|sinks|] == sinks;
    }
  }

  lemma {:induction false} SinksLive(s: Scopes, provider: nat)
    requires WellFormed(s)
    ensures forall k :: 0 <= k < |Sinks(s.frames, provider)| ==> Sinks(s.frames, provider)[k] < |s.faults|
  {
  }

  lemma {:induction false} HeardIff(frames: seq<Frame>, provider: nat)
    ensures Sinks(frames, provider) != [] <==> exists i :: 0 <= i < |frames| && Hears(frames, provider, i)
  {
    hide Hears;
    if Sinks(frames, provider) != [] {
      SinksHear(frames, provider, Sinks(frames, provider)[0]);
    }
    forall i | 0 <= i < |frames| && Hears(frames, provider, i) ensures Sinks(frames, provider) != [] {
      SinksHear(frames, provider, frames[i].cell);
    }
  }
}
