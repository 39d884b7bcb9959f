/** The forest of WallBreaker results as a transducer (src/wallbreaker_wfst.rs). */
module WallBreakerForest {
  import opened Common
  import opened Labels
  import opened WallBreakerResults

  datatype Forest = Forest(arena: Arena, finalWeights: seq<Option<nat>>, emptyWeight: Option<nat>, index: seq<Key>)

  function Weights(results: seq<Result>, n: nat): (r: seq<Option<nat>>)
    requires n <= |results|
    ensures |r| == n && forall i :: 0 <= i < n ==> r[i] == ExactDistance(results[i].distance)
  {
    if n == 0 then [] else Weights(results, n - 1) + [ExactDistance(results[n - 1].distance)]
  }

  /** The least usable distance of an empty term among the first `n` results. */
  function EmptyWeight(results: seq<Result>, maxDistance: nat, n: nat): Option<nat>
    requires n <= |results|
  {
    if n == 0 then None
    else
      var before, r := EmptyWeight(results, maxDistance, n - 1), results[n - 1];
      if r.term != [] || r.distance > maxDistance || ExactDistance(r.distance).None? then before
      else if before.Some? then Some(Min(before.value, r.distance))
      else Some(r.distance)
  }

  /** The forest of `results`. */
  function ForestOf(results: seq<Result>, maxDistance: nat): Forest {
    Forest(ArenaOf(results), Weights(results, |results|), EmptyWeight(results, maxDistance, |results|),
           IndexOf(results))
  }

  /** `from_owned_results`. */
  method FromOwnedResults(raw: seq<Result>, maxDistance: nat) returns (forest: Forest, results: seq<Result>)
    ensures IsNormal(raw, maxDistance, results) && forest == ForestOf(results, maxDistance)
    ensures FirstSeen(UsableTerms(raw, maxDistance), TermsOf(results))
  {
    hide IsNormal, ArenaOf, IndexOf, FirstSeen, UsableTerms, TermsOf;
    results := Normalize(raw, maxDistance);
    var arena := FromResults(results);
    var weights: seq<Option<nat>>, empty: Option<nat> := [], None;
    for n := 0 to |results|
      invariant weights == Weights(results, n) && empty == EmptyWeight(results, maxDistance, n)
    {
      var r := results[n];
      weights := weights + [ExactDistance(r.distance)];
      if r.term == [] && r.distance <= maxDistance {
        var weight := ExactDistance(r.distance);
        if weight.Some? {
          empty := Some(if empty.Some? then Min(empty.value, weight.value) else weight.value);
        }
      }
    }
    var index := BuildStateIndex(results, arena);
    forest := Forest(arena, weights, empty, index);
  }

  // ---------------------------------------------------------------- states and arcs

  /** `lookup_state`. */
  function LookupState(forest: Forest, key: Key): Option<nat> {
    var id := if key.result == SUPER_START then (if key.pos == 0 then Some(0) else None)
              else IdForPosition(forest.arena, key.result, key.pos);
    if id.Some? && id.value < |forest.index| && forest.index[id.value] == key then id else None
  }

  /** `final_weight_for_state`. */
  function FinalWeight(forest: Forest, state: nat): Option<nat> {
    if state >= |forest.index| then None
    else
      var key := forest.index[state];
      if key.result == SUPER_START then forest.emptyWeight
      else if key.result >= |forest.arena.spans| || key.pos < forest.arena.spans[key.result].len then None
      else if key.result >= |forest.finalWeights| then None
      else forest.finalWeights[key.result]
  }

  /** The arc that enters result `r` at `pos` from `from`, if that position has a character and a state. */
  function ArcInto(forest: Forest, from: nat, r: nat, pos: nat): (arcs: seq<Transition>)
    requires pos > 0
    ensures |arcs| <= 1
  {
    var c := CharAt(forest.arena, r, pos - 1);
    if c.None? || ResultIndex(r).None? || pos > U32_MAX then []
    else match LookupState(forest, Key(r, pos))
      case None => []
      case Some(id) => [Transition(from, c, c, id, 0)]
  }

  function SuperArcs(forest: Forest, n: nat): seq<Transition> {
    if n == 0 then [] else SuperArcs(forest, n - 1) + ArcInto(forest, 0, n - 1, 1)
  }

  function Arcs(forest: Forest, state: nat): seq<Transition> {
    if state >= |forest.index| then []
    else
      var key := forest.index[state];
      if key.result == SUPER_START then SuperArcs(forest, |forest.arena.spans|)
      else if key.result >= |forest.arena.spans| || key.result >= |forest.finalWeights| then []
      else if forest.finalWeights[key.result].None? then []
      else ArcInto(forest, state, key.result, key.pos + 1)
  }

  /** `compute_super_start_transitions`: one arc into each non-empty result. */
  method ComputeSuperStart(forest: Forest) returns (finalWeight: Option<nat>, ts: seq<Transition>)
    ensures ts == SuperArcs(forest, |forest.arena.spans|) && finalWeight == forest.emptyWeight
  {
    hide LookupState;
    ts := [];
    for r := 0 to |forest.arena.spans|
      invariant ts == SuperArcs(forest, r)
    {
      var c := CharAt(forest.arena, r, 0);
      if c.None? || ResultIndex(r).None? {
        continue;
      }
      var id := LookupState(forest, Key(r, 1));
      if id.None? {
        continue;
      }
      ts := ts + [Transition(0, c, c, id.value, 0)];
    }
    finalWeight := forest.emptyWeight;
  }

  // ---------------------------------------------------------------- acceptance

  /** `path` accepts from `state`, reading `u` and writing `v` at total weight `weight`. */
  ghost predicate Accepts(forest: Forest, state: nat, path: seq<Transition>, u: string, v: string, weight: nat)
    decreases |path|
  {
    if path == [] then u == [] && v == [] && FinalWeight(forest, state) == Some(weight)
    else
      var a := path[0];
      && a in Arcs(forest, state) && a.weight <= weight && Reads(a.input, u) && Reads(a.output, v)
      && Accepts(forest, a.to, path[1..], Rest(a.input, u), Rest(a.output, v), weight - a.weight)
  }

  /** What the arc into a position looks like. */
  lemma {:induction false} IntoPosition(forest: Forest, results: seq<Result>, maxDistance: nat, from: nat, r: nat,
                                        pos: nat)
    requires forest == ForestOf(results, maxDistance) && r < |results| && pos > 0
    ensures ArcInto(forest, from, r, pos) ==
            if pos <= |results[r].term| && HasId(results, r, pos)
            then [Transition(from, Some(results[r].term[pos - 1]), Some(results[r].term[pos - 1]),
                             Offset(results, r) + pos, 0)]
            else []
  {
    hide ArenaOf, IndexOf, Weights, EmptyWeight, Offset, CharAt, IdForPosition;
    ArenaRoundTrip(results, r, pos - 1);
    if pos <= |results[r].term| { PositionRoundTrip(results, r, pos); }
  }

  /** The state of a position: where it is final and where it goes. */
  lemma {:induction false} PositionState(forest: Forest, results: seq<Result>, maxDistance: nat, r: nat, pos: nat)
    requires forest == ForestOf(results, maxDistance)
    requires forall i :: 0 <= i < |results| ==> Usable(results[i], maxDistance)
    requires r < |results| && 1 <= pos <= |results[r].term| && HasId(results, r, pos)
    ensures var state := Offset(results, r) + pos;
            && FinalWeight(forest, state) == (if pos == |results[r].term| then Some(results[r].distance) else None)
            && Arcs(forest, state) == ArcInto(forest, state, r, pos + 1)
  {
    hide IndexOf, EmptyWeight, Offset, ArcInto, IdForPosition, Chars;
    PositionRoundTrip(results, r, pos);
    assert Usable(results[r], maxDistance);
  }

  /** How acceptance begins. */
  lemma {:induction false} FirstArc(forest: Forest, state: nat, path: seq<Transition>, u: string, v: string,
                                    weight: nat)
    requires Accepts(forest, state, path, u, v, weight)
    ensures path == [] ==> u == [] && v == [] && FinalWeight(forest, state) == Some(weight)
    ensures path != [] ==>
              var a := path[0];
              && a in Arcs(forest, state) && a.weight <= weight && Reads(a.input, u) && Reads(a.output, v)
              && Accepts(forest, a.to, path[1..], Rest(a.input, u), Rest(a.output, v), weight - a.weight)
  {
    hide Arcs, FinalWeight;
  }

  /** From inside a result, only the rest of its term is accepted, at its distance. */
  lemma {:induction false} RestOfTerm(forest: Forest, results: seq<Result>, maxDistance: nat, r: nat, pos: nat,
                                      path: seq<Transition>, u: string, v: string, weight: nat)
    requires forest == ForestOf(results, maxDistance)
    requires forall i :: 0 <= i < |results| ==> Usable(results[i], maxDistance)
    requires r < |results| && 1 <= pos <= |results[r].term| && HasId(results, r, pos)
    requires Accepts(forest, Offset(results, r) + pos, path, u, v, weight)
    ensures u == v == results[r].term[pos..] && weight == results[r].distance && HasId(results, r, |results[r].term|)
    decreases |path|
  {
    hide ForestOf, Usable, Offset, Arcs, ArcInto, FinalWeight, Accepts, HasId;
    var state, term := Offset(results, r) + pos, results[r].term;
    PositionState(forest, results, maxDistance, r, pos);
    FirstArc(forest, state, path, u, v, weight);
    if path != [] {
      IntoPosition(forest, results, maxDistance, state, r, pos + 1);
      RestOfTerm(forest, results, maxDistance, r, pos + 1, path[1..], u[1..], v[1..], weight);
      assert term[pos..] == [term[pos]] + term[pos + 1..];
      assert u == [u[0]] + u[1..] && v == [v[0]] + v[1..];
    }
  }

  /** The rest of a term with states is accepted. */
  lemma {:induction false} TermIsAccepted(forest: Forest, results: seq<Result>, maxDistance: nat, r: nat, pos: nat)
    returns (path: seq<Transition>)
    requires forest == ForestOf(results, maxDistance)
    requires forall i :: 0 <= i < |results| ==> Usable(results[i], maxDistance)
    requires r < |results| && 1 <= pos <= |results[r].term| && HasId(results, r, |results[r].term|)
    ensures Accepts(forest, Offset(results, r) + pos, path, results[r].term[pos..], results[r].term[pos..],
                    results[r].distance)
    decreases |results[r].term| - pos
  {
    hide ForestOf, Usable, Offset, Arcs, ArcInto, FinalWeight;
    var state, term := Offset(results, r) + pos, results[r].term;
    PositionState(forest, results, maxDistance, r, pos);
    if pos == |term| {
      path := [];
    } else {
      IntoPosition(forest, results, maxDistance, state, r, pos + 1);
      var a := Arcs(forest, state)[0];
      var rest := TermIsAccepted(forest, results, maxDistance, r, pos + 1);
      path := [a] + rest;
      assert path[1..] == rest && term[pos..][1..] == term[pos + 1..];
    }
  }

  lemma {:induction false} SuperArcsMember(forest: Forest, n: nat, a: Transition)
    ensures a in SuperArcs(forest, n) <==> exists r :: 0 <= r < n && a in ArcInto(forest, 0, r, 1)
  {
    hide ArcInto;
    if n > 0 { SuperArcsMember(forest, n - 1, a); }
  }

  /** The start state: final exactly for an empty result, with one arc into each addressable non-empty one. */
  lemma {:induction false} StartState(forest: Forest, results: seq<Result>, maxDistance: nat)
    requires forest == ForestOf(results, maxDistance)
    ensures FinalWeight(forest, 0) == EmptyWeight(results, maxDistance, |results|)
    ensures Arcs(forest, 0) == SuperArcs(forest, |results|)
  {
    hide Offset, Chars, EmptyWeight, SuperArcs;
    KeysStart(results);
    KeysPrefix(results, 0, Min(|results|, SUPER_START));
  }

  lemma {:induction false} EmptyWeightIs(results: seq<Result>, maxDistance: nat, n: nat, d: nat)
    requires n <= |results| && DistinctTerms(results)
    requires forall i :: 0 <= i < |results| ==> Usable(results[i], maxDistance)
    ensures EmptyWeight(results, maxDistance, n) == Some(d) <==> exists r :: 0 <= r < n && results[r] == Result([], d)
    ensures EmptyWeight(results, maxDistance, n).Some? ==> exists r :: 0 <= r < n && results[r].term == []
  {
    if n > 0 {
      EmptyWeightIs(results, maxDistance, n - 1, d);
      assert Usable(results[n - 1], maxDistance);
    }
  }

  /** The whole term of result `r` can be spelled with `u32` states. */
  predicate Addressable(results: seq<Result>, r: nat)
    requires r < |results|
  {
    results[r].term == [] || HasId(results, r, |results[r].term|)
  }

  ghost predicate CanAccept(forest: Forest, u: string, v: string, weight: nat) {
    exists path :: Accepts(forest, 0, path, u, v, weight)
  }

  /** Whatever is accepted is an addressable result, unchanged, at its distance. */
  lemma AcceptedIsResult(forest: Forest, results: seq<Result>, maxDistance: nat, path: seq<Transition>, u: string,
                         v: string, weight: nat)
    returns (r: nat)
    requires forest == ForestOf(results, maxDistance) && DistinctTerms(results)
    requires forall i :: 0 <= i < |results| ==> Usable(results[i], maxDistance)
    requires Accepts(forest, 0, path, u, v, weight)
    ensures v == u && r < |results| && results[r] == Result(u, weight) && Addressable(results, r)
  {
    hide ForestOf, Usable, ArcInto, SuperArcs, Offset, EmptyWeight, DistinctTerms, HasId;
    StartState(forest, results, maxDistance);
    if path == [] {
      EmptyWeightIs(results, maxDistance, |results|, weight);
      r :| 0 <= r < |results| && results[r] == Result([], weight);
    } else {
      hide Arcs, FinalWeight;
      var a := path[0];
      SuperArcsMember(forest, |results|, a);
      r :| 0 <= r < |results| && a in ArcInto(forest, 0, r, 1);
      IntoPosition(forest, results, maxDistance, 0, r, 1);
      RestOfTerm(forest, results, maxDistance, r, 1, path[1..], u[1..], v[1..], weight);
      var term := results[r].term;
      assert term == [term[0]] + term[1..] && u == [u[0]] + u[1..] && v == [v[0]] + v[1..];
    }
  }

  /** Every addressable result is accepted. */
  lemma ResultIsAccepted(forest: Forest, results: seq<Result>, maxDistance: nat, r: nat)
    requires forest == ForestOf(results, maxDistance) && DistinctTerms(results)
    requires forall i :: 0 <= i < |results| ==> Usable(results[i], maxDistance)
    requires r < |results| && Addressable(results, r)
    ensures CanAccept(forest, results[r].term, results[r].term, results[r].distance)
  {
    hide ForestOf, Usable, ArcInto, SuperArcs, Offset, EmptyWeight, DistinctTerms;
    StartState(forest, results, maxDistance);
    var term, d := results[r].term, results[r].distance;
    if term == [] {
      EmptyWeightIs(results, maxDistance, |results|, d);
      assert results[r] == Result([], d);
      assert Accepts(forest, 0, [], [], [], d);
    } else {
      hide Arcs, FinalWeight;
      IntoPosition(forest, results, maxDistance, 0, r, 1);
      var a := ArcInto(forest, 0, r, 1)[0];
      SuperArcsMember(forest, |results|, a);
      var rest := TermIsAccepted(forest, results, maxDistance, r, 1);
      assert ([a] + rest)[1..] == rest;
      assert Accepts(forest, 0, [a] + rest, term, term, d);
    }
  }

  /** `d` is the least usable distance of `w` among the raw results. */
  ghost predicate LeastRaw(raw: seq<Result>, maxDistance: nat, w: string, d: nat) {
    && Result(w, d) in raw && Usable(Result(w, d), maxDistance)
    && forall i :: 0 <= i < |raw| && raw[i].term == w && Usable(raw[i], maxDistance) ==> d <= raw[i].distance
  }

  lemma NormalIsLeast(raw: seq<Result>, maxDistance: nat, results: seq<Result>, w: string, d: nat)
    requires IsNormal(raw, maxDistance, results)
    ensures Result(w, d) in results <==> LeastRaw(raw, maxDistance, w, d)
  {
    hide Usable;
    if Result(w, d) in results {
      var k :| 0 <= k < |results| && results[k] == Result(w, d);
      forall i | 0 <= i < |raw| && raw[i].term == w && Usable(raw[i], maxDistance) ensures d <= raw[i].distance {
        assert Subsumed(results, raw[i]);
      }
    }
    if LeastRaw(raw, maxDistance, w, d) {
      var i :| 0 <= i < |raw| && raw[i] == Result(w, d);
      assert Subsumed(results, raw[i]);
      var k :| 0 <= k < |results| && results[k].term == w && results[k].distance <= d;
      var j :| 0 <= j < |raw| && raw[j] == results[k];
      assert results[k] == Result(w, d);
    }
  }

  /** Some addressable result is `(w, d)`. */
  ghost predicate Holds(results: seq<Result>, w: string, d: nat) {
    exists r :: 0 <= r < |results| && results[r] == Result(w, d) && Addressable(results, r)
  }

  /**
   The forest accepts exactly the terms with a usable raw result, unchanged, each at the least such distance and no
   other, the empty term included, as long as the term's positions have `u32` states.
   */
  lemma {:induction false} ForestIsExact(raw: seq<Result>, results: seq<Result>, maxDistance: nat, u: string, v: string,
                                         d: nat)
    requires IsNormal(raw, maxDistance, results)
    ensures CanAccept(ForestOf(results, maxDistance), u, v, d) <==> v == u && Holds(results, u, d)
    ensures Holds(results, u, d) ==> LeastRaw(raw, maxDistance, u, d)
    ensures |results| < SUPER_START && Offset(results, |results|) <= U32_MAX ==>
              (CanAccept(ForestOf(results, maxDistance), u, v, d) <==> v == u && LeastRaw(raw, maxDistance, u, d))
  {
    hide ForestOf, Accepts, Addressable, Usable, Offset, LeastRaw;
    var forest := ForestOf(results, maxDistance);
    NormalIsLeast(raw, maxDistance, results, u, d);
    if CanAccept(forest, u, v, d) {
      var path :| Accepts(forest, 0, path, u, v, d);
      var r := AcceptedIsResult(forest, results, maxDistance, path, u, v, d);
    }
    if Holds(results, u, d) {
      var r: nat :| r < |results| && results[r] == Result(u, d) && Addressable(results, r);
      ResultIsAccepted(forest, results, maxDistance, r);
    }
    if |results| < SUPER_START && Offset(results, |results|) <= U32_MAX && Result(u, d) in results {
      var r: nat :| r < |results| && results[r] == Result(u, d);
      AllAddressable(results, r);
    }
  }

  lemma {:induction false} AllAddressable(results: seq<Result>, r: nat)
    requires r < |results| < SUPER_START && Offset(results, |results|) <= U32_MAX
    ensures Addressable(results, r)
  {
    KeysPrefix(results, r + 1, |results|);
  }
}
