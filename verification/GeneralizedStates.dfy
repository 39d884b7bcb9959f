/**
 Stable identities of product states and emission chains (src/generalized_state_support.rs) and the transaction-local
 batch that extends them (src/generalized_expansion.rs).
 */
module GeneralizedStates {
  import opened Common

  /** lling-llang's sentinel state ID, never assigned. */
  const NO_STATE: nat := U32_MAX

  datatype Product = Product(node: nat, pos: nat, cost: nat)

  /** One multi-label operation, interned once. */
  datatype Chain = Chain(input: string, output: string, target: nat) {
    function Width(): nat { if |input| < |output| then |output| else |input| }
  }

  datatype State = ProductState(product: Product) | EmitState(chain: Chain, position: nat, next: nat)

  const START: Product := Product(0, 0, 0)

  /** `next_state_id`: dense IDs below the sentinel. */
  function NextStateId(len: nat): Option<nat> {
    if len < NO_STATE then Some(len) else None
  }

  // ---------------------------------------------------------------- the maps a vector of states determines

  function ProductsOf(states: seq<State>): map<Product, nat> {
    if states == [] then map[]
    else
      var rest, last := ProductsOf(states[..|states| - 1]), states[|states| - 1];
      if last.ProductState? then rest[last.product := |states| - 1] else rest
  }

  function ChainsOf(states: seq<State>): map<Chain, nat> {
    if states == [] then map[]
    else
      var rest, last := ChainsOf(states[..|states| - 1]), states[|states| - 1];
      if StartsChain(last) then rest[last.chain := |states| - 1] else rest
  }

  /** The emission states of a chain placed at ID `first`. */
  function Emits(c: Chain, first: nat): (r: seq<State>)
    requires c.Width() >= 2
    ensures |r| == c.Width() - 1
  {
    seq(c.Width() - 1, k requires 0 <= k < c.Width() - 1 => EmitAt(c, first, k + 1))
  }

  function EmitAt(c: Chain, first: nat, position: nat): State {
    EmitState(c, position, if position + 1 == c.Width() then c.target else first + position)
  }

  /** The chain interned at `first` is complete and contiguous. */
  ghost predicate ChainAt(states: seq<State>, c: Chain, first: nat) {
    && c.Width() >= 2 && first + c.Width() - 1 <= |states|
    && states[first..first + c.Width() - 1] == Emits(c, first)
    && c.target < |states| && states[c.target].ProductState?
  }

  /**
   A vector of states that a registry may hold: it starts with the start state, no product or chain has two IDs, and
   every emission state lies inside its chain.
   */
  ghost predicate WellShaped(states: seq<State>) {
    && states != [] && states[0] == ProductState(START) && |states| <= NO_STATE
    && DistinctProducts(states) && EmitsInChains(states) && OneStartPerChain(states)
  }

  ghost predicate DistinctProducts(states: seq<State>) {
    forall i, j :: 0 <= i < j < |states| && states[i].ProductState? ==> states[i] != states[j]
  }

  ghost predicate EmitsInChains(states: seq<State>) {
    forall i :: 0 <= i < |states| && states[i].EmitState? ==> InChain(states, i)
  }

  /** Emission state `i` is where its position says, inside its complete chain. */
  ghost predicate InChain(states: seq<State>, i: nat)
    requires i < |states| && states[i].EmitState?
  {
    && 1 <= states[i].position < states[i].chain.Width() && states[i].position <= i
    && ChainAt(states, states[i].chain, i - (states[i].position - 1))
  }

  predicate StartsChain(s: State) { s.EmitState? && s.position == 1 }

  ghost predicate OneStartPerChain(states: seq<State>) {
    forall i, j :: 0 <= i < j < |states| && StartsChain(states[i]) && StartsChain(states[j]) ==>
        states[i].chain != states[j].chain
  }

  /** The product map inverts the vector. */
  lemma {:induction false} ProductsInverse(states: seq<State>, p: Product)
    requires DistinctProducts(states)
    ensures p in ProductsOf(states) ==>
              ProductsOf(states)[p] < |states| && states[ProductsOf(states)[p]] == ProductState(p)
    ensures forall i :: 0 <= i < |states| && states[i] == ProductState(p) ==>
              p in ProductsOf(states) && ProductsOf(states)[p] == i
    decreases |states|
  {
    if states != [] {
      var init := states[..|states| - 1];
      assert forall i :: 0 <= i < |init| ==> init[i] == states[i];
      ProductsInverse(init, p);
    }
  }

  /** The chain map inverts the vector on first positions. */
  lemma {:induction false} ChainsInverse(states: seq<State>, c: Chain)
    requires OneStartPerChain(states)
    ensures c in ChainsOf(states) ==>
              var i := ChainsOf(states)[c];
              i < |states| && StartsChain(states[i]) && states[i].chain == c
    ensures forall i :: 0 <= i < |states| && StartsChain(states[i]) && states[i].chain == c ==>
              c in ChainsOf(states) && ChainsOf(states)[c] == i
    decreases |states|
  {
    if states != [] {
      var init := states[..|states| - 1];
      assert forall i :: 0 <= i < |init| ==> init[i] == states[i];
      ChainsInverse(init, c);
    }
  }

  /** Looking up an interned chain finds all of its emission states. */
  lemma {:induction false} ChainFound(states: seq<State>, c: Chain)
    requires WellShaped(states) && c in ChainsOf(states)
    ensures ChainAt(states, c, ChainsOf(states)[c])
  {
    ChainsInverse(states, c);
    assert InChain(states, ChainsOf(states)[c]);
  }

  /** Appending a state that starts neither a product nor a chain changes neither map. */
  lemma {:induction false} MapsSnoc(states: seq<State>, s: State)
    ensures ProductsOf(states + [s]) == if s.ProductState? then ProductsOf(states)[s.product := |states|]
                                        else ProductsOf(states)
    ensures ChainsOf(states + [s]) ==
            if StartsChain(s) then ChainsOf(states)[s.chain := |states|] else ChainsOf(states)
  {
    assert (states + [s])[..|states|] == states;
  }

  /** The last query position and the cost bound. */
  datatype Extent = Extent(pos: nat, cost: nat)

  /** A product refers to one of `nodes` dictionary nodes and stays inside the query and the cost bound. */
  predicate Inside(p: Product, nodes: nat, e: Extent) {
    p.node < nodes && p.pos <= e.pos && p.cost <= e.cost
  }

  ghost predicate Linked(states: seq<State>, nodes: nat, e: Extent) {
    forall i :: 0 <= i < |states| && states[i].ProductState? ==> Inside(states[i].product, nodes, e)
  }

  // ---------------------------------------------------------------- extending a vector

  lemma ChainAtStable(states: seq<State>, more: seq<State>, c: Chain, first: nat)
    requires ChainAt(states, c, first)
    ensures ChainAt(states + more, c, first)
  {
    assert (states + more)[first..first + c.Width() - 1] == states[first..first + c.Width() - 1];
  }

  lemma {:induction false} AppendProduct(states: seq<State>, p: Product)
    requires WellShaped(states) && p !in ProductsOf(states) && |states| < NO_STATE
    ensures WellShaped(states + [ProductState(p)])
    ensures ProductsOf(states + [ProductState(p)]) == ProductsOf(states)[p := |states|]
    ensures ChainsOf(states + [ProductState(p)]) == ChainsOf(states)
  {
    hide EmitsInChains, OneStartPerChain, ProductsOf, ChainsOf;
    MapsSnoc(states, ProductState(p));
    ProductsInverse(states, p);
    AppendKeepsChains(states, [ProductState(p)]);
    StartsKept(states, p);
  }

  /** Old emission states stay inside their chains. */
  lemma AppendKeepsChains(states: seq<State>, more: seq<State>)
    requires EmitsInChains(states)
    ensures forall i :: 0 <= i < |states| && states[i].EmitState? ==> InChain(states + more, i)
    ensures (forall i :: 0 <= i < |more| ==> more[i].ProductState?) ==> EmitsInChains(states + more)
  {
    hide ChainAt;
    forall i | 0 <= i < |states| && states[i].EmitState? ensures InChain(states + more, i) {
      assert InChain(states, i);
      ChainAtStable(states, more, states[i].chain, i - (states[i].position - 1));
    }
  }

  lemma StartsKept(states: seq<State>, p: Product)
    requires OneStartPerChain(states)
    ensures OneStartPerChain(states + [ProductState(p)])
  {
  }

  /** The maps after appending the first `n` emission states of a chain. */
  lemma {:induction false} EmitMaps(states: seq<State>, c: Chain, n: nat)
    requires 2 <= c.Width() && n <= c.Width() - 1
    ensures ProductsOf(states + Emits(c, |states|)[..n]) == ProductsOf(states)
    ensures ChainsOf(states + Emits(c, |states|)[..n]) == if n == 0 then ChainsOf(states)
                                                          else ChainsOf(states)[c := |states|]
  {
    var emits := Emits(c, |states|);
    if n == 0 {
      assert states + emits[..0] == states;
    } else {
      EmitMaps(states, c, n - 1);
      assert states + emits[..n] == (states + emits[..n - 1]) + [emits[n - 1]];
      MapsSnoc(states + emits[..n - 1], emits[n - 1]);
    }
  }

  lemma {:induction false} AppendChain(states: seq<State>, c: Chain)
    requires WellShaped(states) && c.Width() >= 2 && c !in ChainsOf(states)
    requires c.target < |states| && states[c.target].ProductState? && |states| + c.Width() - 1 <= NO_STATE
    ensures var all := states + Emits(c, |states|);
            && WellShaped(all) && ChainAt(all, c, |states|)
            && ProductsOf(all) == ProductsOf(states) && ChainsOf(all) == ChainsOf(states)[c := |states|]
  {
    hide WellShaped, ProductsOf, ChainsOf, Emits;
    var emits := Emits(c, |states|);
    var all := states + emits;
    EmitMaps(states, c, c.Width() - 1);
    assert emits[..c.Width() - 1] == emits;
    assert all[|states|..|states| + c.Width() - 1] == emits;
    NewChain(states, c);
    AppendChainShape(states, c);
  }

  lemma {:induction false} NewChain(states: seq<State>, c: Chain)
    requires WellShaped(states) && c !in ChainsOf(states)
    ensures forall i :: 0 <= i < |states| && StartsChain(states[i]) ==> states[i].chain != c
  {
    ChainsInverse(states, c);
  }

  lemma AppendChainShape(states: seq<State>, c: Chain)
    requires WellShaped(states) && c.Width() >= 2 && ChainAt(states + Emits(c, |states|), c, |states|)
    requires forall i :: 0 <= i < |states| && StartsChain(states[i]) ==> states[i].chain != c
    requires |states| + c.Width() - 1 <= NO_STATE
    ensures WellShaped(states + Emits(c, |states|))
  {
    hide ChainAt;
    var all := states + Emits(c, |states|);
    assert forall i :: |states| <= i < |all| ==> all[i] == EmitAt(c, |states|, i - |states| + 1);
    AppendKeepsChains(states, Emits(c, |states|));
    forall i | 0 <= i < |all| && all[i].EmitState? ensures InChain(all, i) {
    }
    assert OneStartPerChain(all);
  }

  // ---------------------------------------------------------------- the shared registry and a batch

  /** Stable, shared identities; extended only by committing a batch. */
  class StateRegistry {
    var productToId: map<Product, nat>
    var chainToId: map<Chain, nat>
    var idToState: seq<State>

    ghost predicate Valid()
      reads this
    {
      && WellShaped(idToState)
      && productToId == ProductsOf(idToState) && chainToId == ChainsOf(idToState)
    }

    constructor ()
      ensures Valid() && idToState == [ProductState(START)]
    {
      productToId := map[START := 0];
      chainToId := map[];
      idToState := [ProductState(START)];
      new;
      MapsSnoc([], ProductState(START));
      assert [] + [ProductState(START)] == [ProductState(START)];
    }

    /** Appends prepared states; IDs were validated before. */
    method CommitPrepared(states: seq<State>)
      requires Valid() && WellShaped(idToState + states)
      modifies this
      ensures Valid() && idToState == old(idToState) + states
    {
      hide WellShaped, ProductsOf, ChainsOf;
      ghost var before := idToState;
      for i := 0 to |states|
        invariant idToState == before + states[..i]
        invariant productToId == ProductsOf(idToState) && chainToId == ChainsOf(idToState)
      {
        var id := |idToState|;
        MapsSnoc(idToState, states[i]);
        var longer := idToState + [states[i]];
        assert longer == before + states[..i + 1] by { assert states[..i + 1] == states[..i] + [states[i]]; }
        match states[i] {
          case ProductState(p) => productToId := productToId[p := id];
          case EmitState(c, position, _) =>
            if position == 1 {
              chainToId := chainToId[c := id];
            }
        }
        idToState := longer;
      }
      assert states[..|states|] == states;
    }
  }

  /** Why an ID was refused: the configured limit, or the sentinel. */
  datatype BatchError = LimitExceeded | SentinelReached

  datatype IdResult = Assigned(id: nat) | Refused(error: BatchError)

  /** `checked_state_count`: the last ID of `required` states, inside the limit and below the sentinel. */
  function CheckedStateCount(required: nat, limit: nat): IdResult
    requires required >= 1
  {
    if required > limit then Refused(LimitExceeded)
    else if NextStateId(required - 1).None? then Refused(SentinelReached)
    else Assigned(required - 1)
  }

  /** `count` more states fit the limit and stay below the sentinel. */
  predicate HasRoom(states: seq<State>, count: nat, limit: nat) {
    |states| + count <= limit && |states| + count <= NO_STATE
  }

  /** State IDs are dense and stay below the `u32` that stands for no state. */
  lemma IdsInNumbers(states: seq<State>, count: nat, limit: nat)
    ensures HasRoom(states, count, limit) <==> |states| + count <= limit && |states| + count <= 4294967295
    ensures NextStateId(|states|) == if |states| < 4294967295 then Some(|states|) else None
  {
  }

  /** The vector once `p` has been asked for: a new product is appended if there is room. */
  function WithProduct(states: seq<State>, p: Product, limit: nat): seq<State> {
    if p in ProductsOf(states) || !HasRoom(states, 1, limit) then states else states + [ProductState(p)]
  }

  /** The vector once `c` has been asked for: a new chain is appended whole, or not at all. */
  function WithChain(states: seq<State>, c: Chain, limit: nat): seq<State>
    requires c.Width() >= 2
  {
    if c in ChainsOf(states) || !HasRoom(states, c.Width() - 1, limit) then states else states + Emits(c, |states|)
  }

  /** A refusal names a bound that `count` more states would really break. */
  predicate Justified(error: BatchError, states: seq<State>, count: nat, limit: nat) {
    match error
    case LimitExceeded => |states| + count > limit
    case SentinelReached => |states| + count > NO_STATE
  }

  /** Asking for a product keeps a vector well shaped, linked and within its limit. */
  lemma WithProductKeeps(states: seq<State>, p: Product, limit: nat, nodes: nat, e: Extent)
    requires WellShaped(states) && Linked(states, nodes, e) && |states| <= limit && Inside(p, nodes, e)
    ensures var all := WithProduct(states, p, limit);
            states <= all && WellShaped(all) && Linked(all, nodes, e) && |all| <= limit
  {
    hide WellShaped, ProductsOf, ChainsOf;
    if p !in ProductsOf(states) && HasRoom(states, 1, limit) {
      AppendProduct(states, p);
    }
  }

  /** Asking for a chain does so too. */
  lemma WithChainKeeps(states: seq<State>, c: Chain, limit: nat, nodes: nat, e: Extent)
    requires WellShaped(states) && Linked(states, nodes, e) && |states| <= limit
    requires c.Width() >= 2 && c.target < |states| && states[c.target].ProductState?
    ensures var all := WithChain(states, c, limit);
            states <= all && WellShaped(all) && Linked(all, nodes, e) && |all| <= limit
  {
    hide WellShaped, ProductsOf, ChainsOf;
    if c !in ChainsOf(states) && HasRoom(states, c.Width() - 1, limit) {
      AppendChain(states, c);
    }
  }

  /** A transaction-local extension of the registry. */
  class StateBatch {
    const registry: StateRegistry
    var states: seq<State>
    var products: map<Product, nat>
    var chains: map<Chain, nat>

    /** What the registry would hold after committing this batch. */
    ghost function All(): seq<State>
      reads this, registry
    {
      registry.idToState + states
    }

    ghost predicate Valid()
      reads this, registry
    {
      && registry.Valid() && WellShaped(All())
      && registry.productToId + products == ProductsOf(All())
      && registry.chainToId + chains == ChainsOf(All())
      && registry.productToId.Keys !! products.Keys && registry.chainToId.Keys !! chains.Keys
    }

    constructor (registry: StateRegistry)
      requires registry.Valid()
      ensures Valid() && this.registry == registry && All() == registry.idToState
    {
      this.registry := registry;
      states := [];
      products := map[];
      chains := map[];
      new;
      assert registry.idToState + [] == registry.idToState;
    }

    /**
     The ID of a product state: existing, already in this batch, or the next one; refused exactly for want of room.
     */
    method Product(p: Product, limit: nat) returns (r: IdResult)
      requires Valid()
      modifies this
      ensures Valid() && All() == WithProduct(old(All()), p, limit)
      ensures r.Assigned? ==> r.id < |All()| && All()[r.id] == ProductState(p)
      ensures r.Refused? <==> p !in ProductsOf(old(All())) && !HasRoom(old(All()), 1, limit)
      ensures r.Refused? ==> Justified(r.error, old(All()), 1, limit)
    {
      hide WellShaped, ProductsOf, ChainsOf;
      ProductLookup(All(), p);
      if p in registry.productToId {
        return Assigned(registry.productToId[p]);
      }
      if p in products {
        return Assigned(products[p]);
      }
      var required := |registry.idToState| + |states| + 1;
      r := CheckedStateCount(required, limit);
      if r.Refused? {
        return;
      }
      assert All() + [ProductState(p)] == registry.idToState + (states + [ProductState(p)]);
      AppendProduct(All(), p);
      products := products[p := r.id];
      states := states + [ProductState(p)];
    }

    /** The first emission state of a multi-label operation; the whole chain is added at once or not at all. */
    method Chain(c: Chain, limit: nat) returns (r: IdResult)
      requires Valid() && c.Width() >= 2 && c.target < |All()| && All()[c.target].ProductState?
      modifies this
      ensures Valid() && All() == WithChain(old(All()), c, limit)
      ensures r.Assigned? ==> ChainAt(All(), c, r.id)
      ensures r.Refused? <==> c !in ChainsOf(old(All())) && !HasRoom(old(All()), c.Width() - 1, limit)
      ensures r.Refused? ==> Justified(r.error, old(All()), c.Width() - 1, limit)
    {
      hide WellShaped, ProductsOf, ChainsOf, ChainAt;
      ChainLookup(All(), c);
      if c in registry.chainToId {
        return Assigned(registry.chainToId[c]);
      }
      if c in chains {
        return Assigned(chains[c]);
      }
      var base, width := |registry.idToState| + |states|, c.Width();
      var first := CheckedStateCount(base + 1, limit);
      if first.Refused? {
        return first;
      }
      var last := CheckedStateCount(base + (width - 1), limit);
      if last.Refused? {
        return last;
      }
      AppendChain(All(), c);
      ghost var before := All();
      var emits := [];
      for position := 1 to width
        invariant emits == Emits(c, base)[..position - 1]
      {
        var next := if position + 1 == width then c.target else first.id + position;
        emits := emits + [EmitState(c, position, next)];
      }
      assert Emits(c, base)[..width - 1] == Emits(c, base);
      assert before + emits == registry.idToState + (states + emits);
      chains := chains[c := first.id];
      states := states + emits;
      return first;
    }
  }

  lemma {:induction false} ProductLookup(states: seq<State>, p: Product)
    requires WellShaped(states)
    ensures p in ProductsOf(states) ==>
              ProductsOf(states)[p] < |states| && states[ProductsOf(states)[p]] == ProductState(p)
  {
    ProductsInverse(states, p);
  }

  lemma {:induction false} ChainLookup(states: seq<State>, c: Chain)
    requires WellShaped(states)
    ensures c in ChainsOf(states) ==> ChainAt(states, c, ChainsOf(states)[c])
  {
    if c in ChainsOf(states) { ChainFound(states, c); }
  }
}
