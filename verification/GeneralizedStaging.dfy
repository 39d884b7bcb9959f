/**
 What one expansion works with (src/generalized_expansion.rs): the paths it must find, references to registered and
 staged dictionary nodes, and its budget.
 */
module GeneralizedStaging {
  import opened Common
  import opened Dictionary
  import opened NodeRegistry

  // ---------------------------------------------------------------- all paths of a given width

  /** The label sequences `prefix + w` for all paths `w` of length `width` below `t`, in depth-first order. */
  ghost function Below(prefix: string, t: Trie, width: nat): seq<string>
    decreases width, |t.edges| + 1
  {
    if width == 0 then [prefix] else BelowFrom(prefix, t, width, 0)
  }

  /** The same for the edges of `t` from index `i` on. */
  ghost function BelowFrom(prefix: string, t: Trie, width: nat, i: nat): seq<string>
    requires width > 0 && i <= |t.edges|
    decreases width, |t.edges| - i
  {
    if i == |t.edges| then []
    else Below(prefix + [t.edges[i].symbol], t.edges[i].child, width - 1) + BelowFrom(prefix, t, width, i + 1)
  }

  /** Those are exactly the walkable paths of that length. */
  lemma {:induction false} BelowMember(prefix: string, t: Trie, width: nat, w: string)
    requires WellFormed(t)
    ensures w in Below(prefix, t, width) <==> prefix <= w && |w| == |prefix| + width && Walk(t, w[|prefix|..]).Some?
    decreases width, |t.edges| + 1
  {
    if width == 0 {
      if prefix <= w && |w| == |prefix| { assert w == prefix && w[|prefix|..] == []; }
    } else {
      BelowFromMember(prefix, t, width, 0, w);
      if prefix <= w && |w| == |prefix| + width { assert w[|prefix|..][0] == w[|prefix|]; }
    }
  }

  lemma {:induction false} BelowFromMember(prefix: string, t: Trie, width: nat, i: nat, w: string)
    requires WellFormed(t) && width > 0 && i <= |t.edges|
    ensures w in BelowFrom(prefix, t, width, i) <==>
            && prefix < w && |w| == |prefix| + width && Walk(t, w[|prefix|..]).Some?
            && Find(t.edges, w[|prefix|]).Some? && Find(t.edges, w[|prefix|]).value >= i
    decreases width, |t.edges| - i
  {
    if i < |t.edges| {
      var e := t.edges[i];
      BelowFromMember(prefix, t, width, i + 1, w);
      BelowMember(prefix + [e.symbol], e.child, width - 1, w);
      FindEdge(t, i);
      hide WellFormed, Find;
      if prefix < w {
        assert w[|prefix|..][1..] == w[|prefix| + 1..];
        if w[|prefix|] == e.symbol { assert prefix + [e.symbol] <= w; }
      }
    }
  }

  /** Each path is listed once. */
  lemma {:induction false} BelowDistinct(prefix: string, t: Trie, width: nat)
    requires WellFormed(t)
    ensures Distinct(Below(prefix, t, width))
    decreases width, |t.edges| + 1
  {
    if width > 0 { BelowFromDistinct(prefix, t, width, 0); }
  }

  lemma {:induction false} BelowFromDistinct(prefix: string, t: Trie, width: nat, i: nat)
    requires WellFormed(t) && width > 0 && i <= |t.edges|
    ensures Distinct(BelowFrom(prefix, t, width, i))
    decreases width, |t.edges| - i
  {
    if i < |t.edges| {
      hide Distinct;
      var e := t.edges[i];
      var first, rest := Below(prefix + [e.symbol], e.child, width - 1), BelowFrom(prefix, t, width, i + 1);
      BelowDistinct(prefix + [e.symbol], e.child, width - 1);
      BelowFromDistinct(prefix, t, width, i + 1);
      forall w | w in first ensures w !in rest {
        BelowMember(prefix + [e.symbol], e.child, width - 1, w);
        BelowFromMember(prefix, t, width, i + 1, w);
        FindEdge(t, i);
        assert w[|prefix|] == e.symbol;
      }
      DistinctJoin(first, rest);
    } else {
      assert BelowFrom(prefix, t, width, i) == [];
    }
  }

  lemma DistinctJoin(a: seq<string>, b: seq<string>)
    requires Distinct(a) && Distinct(b) && forall w :: w in a ==> w !in b
    ensures Distinct(a + b)
  {
    forall i, j | 0 <= i < j < |a + b| ensures (a + b)[i] != (a + b)[j] {
      if i < |a| <= j { assert a[i] in a && b[j - |a|] in b; }
    }
  }

  // ---------------------------------------------------------------- references to nodes

  /** A reference-counted node: the owner tells allocations apart. */
  datatype Owned = Owned(node: Trie, owner: nat)

  /** A node known by its committed ID or by a local staging offset. */
  datatype Ref = Registered(id: nat) | Staged(index: nat)

  datatype StagedNode = StagedNode(parent: Ref, symbol: char, owned: Owned)

  function NodesOf(owned: seq<Owned>): (r: seq<Trie>)
    ensures |r| == |owned| && forall i :: 0 <= i < |r| ==> r[i] == owned[i].node
  {
    seq(|owned|, i requires 0 <= i < |owned| => owned[i].node)
  }

  ghost predicate RefOk(steps: seq<Step>, staged: nat, ref: Ref) {
    match ref
    case Registered(id) => id < |steps|
    case Staged(k) => k < staged
  }

  /** Staged parents come before their children. */
  ghost predicate StagedOk(steps: seq<Step>, staged: seq<StagedNode>) {
    forall k :: 0 <= k < |staged| ==> RefOk(steps, k, staged[k].parent)
  }

  /** The dictionary path a reference stands for. */
  ghost function RefPath(steps: seq<Step>, staged: seq<StagedNode>, ref: Ref): string
    requires Ordered(steps) && StagedOk(steps, staged) && RefOk(steps, |staged|, ref)
    decreases if ref.Registered? then 0 else ref.index + 1
  {
    match ref
    case Registered(id) => PathOf(steps, id)
    case Staged(k) => RefPath(steps, staged, staged[k].parent) + [staged[k].symbol]
  }

  /** References keep their meaning while the registry and the staging area grow. */
  lemma {:induction false} RefStable(steps: seq<Step>, steps': seq<Step>, staged: seq<StagedNode>,
                                     staged': seq<StagedNode>, ref: Ref)
    requires Ordered(steps) && Ordered(steps') && steps <= steps' && staged <= staged'
    requires StagedOk(steps, staged) && StagedOk(steps', staged') && RefOk(steps, |staged|, ref)
    ensures RefOk(steps', |staged'|, ref) && RefPath(steps', staged', ref) == RefPath(steps, staged, ref)
    decreases if ref.Registered? then 0 else ref.index + 1
  {
    match ref
    case Registered(id) => PathStable(steps, steps', id);
    case Staged(k) =>
      assert staged'[k] == staged[k];
      RefStable(steps, steps', staged, staged', staged[k].parent);
  }

  /** Every staged node is the dictionary node its path reaches. */
  ghost predicate StagedDenotes(root: Trie, steps: seq<Step>, staged: seq<StagedNode>) {
    && Ordered(steps) && StagedOk(steps, staged)
    && forall k :: 0 <= k < |staged| ==> Walk(root, RefPath(steps, staged, Staged(k))) == Some(staged[k].owned.node)
  }

  lemma StagedDenotesStable(root: Trie, steps: seq<Step>, steps': seq<Step>, staged: seq<StagedNode>)
    requires StagedDenotes(root, steps, staged) && Ordered(steps') && steps <= steps'
    ensures StagedDenotes(root, steps', staged)
  {
    forall k | 0 <= k < |staged| ensures RefOk(steps', k, staged[k].parent) {
      assert RefOk(steps, k, staged[k].parent);
    }
    forall k | 0 <= k < |staged|
      ensures Walk(root, RefPath(steps', staged, Staged(k))) == Some(staged[k].owned.node)
    {
      RefStable(steps, steps', staged, staged, Staged(k));
    }
  }

  lemma {:induction false} StagedDenotesSnoc(root: Trie, steps: seq<Step>, staged: seq<StagedNode>, s: StagedNode)
    requires StagedDenotes(root, steps, staged) && RefOk(steps, |staged|, s.parent)
    requires Walk(root, RefPath(steps, staged, s.parent) + [s.symbol]) == Some(s.owned.node)
    ensures StagedDenotes(root, steps, staged + [s])
    ensures RefPath(steps, staged + [s], Staged(|staged|)) == RefPath(steps, staged, s.parent) + [s.symbol]
  {
    var more := staged + [s];
    forall k | 0 <= k < |more| ensures RefOk(steps, k, more[k].parent) {
      if k < |staged| { assert RefOk(steps, k, staged[k].parent); }
    }
    RefStable(steps, steps, staged, more, s.parent);
    forall k | 0 <= k < |more| ensures Walk(root, RefPath(steps, more, Staged(k))) == Some(more[k].owned.node) {
      if k < |staged| { RefStable(steps, steps, staged, more, Staged(k)); }
    }
  }

  // ---------------------------------------------------------------- budgets

  /** Why an expansion can fail: the error kinds of src/generalized_limits.rs, a cancellation, or an unknown state. */
  datatype Failure =
    | InvalidState
    | Cancelled
    | WorkExceeded
    | PathsExceeded
    | NodesExceeded
    | NodeIdsExhausted
    | StatesExceeded
    | SentinelReached

  /**
   Counters of one expansion. `patience` is the number of checks that pass before a cancellation or a source fault is
   noticed, so a failure may strike at any check.
   */
  class ExpansionBudget {
    const maxPaths: nat
    const maxWork: nat
    const patience: Option<nat>
    var checks: nat
    var paths: nat
    var work: nat

    constructor (maxPaths: nat, maxWork: nat, patience: Option<nat>)
      ensures this.maxPaths == maxPaths && this.maxWork == maxWork && this.patience == patience
      ensures checks == paths == work == 0
    {
      this.maxPaths, this.maxWork, this.patience := maxPaths, maxWork, patience;
      checks, paths, work := 0, 0, 0;
    }

    /** The failures that the counters bear out. */
    ghost predicate Explains(f: Failure)
      reads this
    {
      match f
      case Cancelled => patience.Some? && checks > patience.value
      case WorkExceeded => work > maxWork
      case PathsExceeded => paths > maxPaths
      case _ => false
    }

    method Check() returns (failure: Option<Failure>)
      modifies this`checks
      ensures failure.None? || failure == Some(Cancelled)
      ensures failure.Some? <==> Explains(Cancelled)
      ensures checks == old(checks) + 1
    {
      checks := checks + 1;
      failure := if patience.Some? && checks > patience.value then Some(Cancelled) else None;
    }

    /** Succeeds exactly while no cancellation is noticed and the total stays within the limit. */
    method ChargeWork(units: nat) returns (failure: Option<Failure>)
      modifies this`checks, this`work
      ensures failure.Some? <==> Explains(Cancelled) || Explains(WorkExceeded)
      ensures failure.Some? ==> Explains(failure.value)
      ensures failure.None? ==> work == old(work) + units
      ensures old(work) <= work <= old(work) + units && checks == old(checks) + 1
    {
      failure := Check();
      if failure.None? {
        work := work + units;
        failure := if work <= maxWork then None else Some(WorkExceeded);
      }
    }

    method ChargePath() returns (failure: Option<Failure>)
      modifies this`checks, this`paths
      ensures failure.Some? <==> Explains(Cancelled) || Explains(PathsExceeded)
      ensures failure.Some? ==> Explains(failure.value)
      ensures failure.None? ==> paths == old(paths) + 1
      ensures old(paths) <= paths <= old(paths) + 1 && checks == old(checks) + 1
    {
      failure := Check();
      if failure.None? {
        paths := paths + 1;
        failure := if paths <= maxPaths then None else Some(PathsExceeded);
      }
    }
  }
}
