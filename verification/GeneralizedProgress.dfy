/**
 An expansion can always be answered: from any sound registries, either the registries can be extended so that the
 answer is a complete expansion, or the additions that it owes do not fit.
 */
module GeneralizedProgress {
  import opened Common
  import opened Labels
  import opened Dictionary
  import opened NodeRegistry
  import opened GeneralizedStaging
  import opened GeneralizedShared
  import opened GeneralizedSearch
  import opened GeneralizedCommit
  import opened GeneralizedExpansion
  import GS = GeneralizedStates

  /** A sound extension of `w`. */
  ghost predicate Leads(root: Trie, b: Bounds, w: World, w': World) { Sound(root, b, w') && Extends(w, w') }

  /** No ID is left for another node. */
  predicate Crowded(b: Bounds, w: World) { |w.steps| >= b.nodes || |w.steps| > U32_MAX }

  // ---------------------------------------------------------------- nodes

  /** The ID of the child along one symbol, registered if there is room. */
  lemma {:induction false} ReachChild(root: Trie, b: Bounds, w: World, parent: nat, symbol: char)
    returns (w': World, id: Option<nat>)
    requires Sound(root, b, w) && parent < |w.steps| && Ordered(w.steps)
    requires Walk(root, PathOf(w.steps, parent) + [symbol]).Some?
    ensures Leads(root, b, w, w') && w'.states == w.states && Ordered(w'.steps)
    ensures id.Some? ==>
              id.value < |w'.steps| && PathOf(w'.steps, id.value) == PathOf(w.steps, parent) + [symbol]
    ensures id.None? ==>
              w' == w && Crowded(b, w) && !IsRegistered(w.steps, PathOf(w.steps, parent) + [symbol])
  {
    hide Walk, GS.WellShaped;
    var step := Child(parent, symbol);
    if step in w.steps {
      var i: nat :| i < |w.steps| && w.steps[i] == step;
      assert i != 0;
      w', id := w, Some(i);
    } else if Crowded(b, w) {
      w', id := w, None;
      NotRegistered(w.steps, parent, symbol);
    } else {
      var node := Walk(root, PathOf(w.steps, parent) + [symbol]).value;
      DenotesChild(root, w.steps, w.nodes, parent, symbol, node);
      w', id := World(w.steps + [step], w.nodes + [node], w.states), Some(|w.steps|);
      PathStable(w.steps, w'.steps, parent);
    }
  }

  /** An unregistered step leads to an unregistered path. */
  lemma {:induction false} NotRegistered(steps: seq<Step>, parent: nat, symbol: char)
    requires Ordered(steps) && Distinct(steps) && parent < |steps| && Child(parent, symbol) !in steps
    ensures !IsRegistered(steps, PathOf(steps, parent) + [symbol])
  {
    if IsRegistered(steps, PathOf(steps, parent) + [symbol]) {
      var path := PathOf(steps, parent) + [symbol];
      var id: nat :| id < |steps| && PathOf(steps, id) == path;
      assert id != 0;
      assert path[..|path| - 1] == PathOf(steps, parent);
      assert PathOf(steps, id)[..|path| - 1] == PathOf(steps, steps[id].parent);
      PathInjective(steps, parent, steps[id].parent);
    }
  }

  /** The ID of a path below a registered node, registered as far as there is room. */
  lemma {:induction false} ReachPath(root: Trie, b: Bounds, w: World, start: nat, v: string)
    returns (w': World, id: Option<nat>, k: nat)
    requires Sound(root, b, w) && start < |w.steps| && Ordered(w.steps) && Walk(root, PathOf(w.steps, start) + v).Some?
    ensures Leads(root, b, w, w') && w'.states == w.states && Ordered(w'.steps)
    ensures id.Some? ==> id.value < |w'.steps| && PathOf(w'.steps, id.value) == PathOf(w.steps, start) + v
    ensures id.None? ==>
              && 0 < k <= |v| && Crowded(b, w') && !IsRegistered(w'.steps, PathOf(w.steps, start) + v[..k])
              && Walk(root, PathOf(w.steps, start) + v[..k]).Some?
    decreases |v|
  {
    hide Sound, PathOf, IsRegistered;
    var base := PathOf(w.steps, start);
    if v == [] {
      assert base + v == base;
      w', id, k := w, Some(start), 0;
    } else {
      var n := |v| - 1;
      assert base + v == (base + v[..n]) + [v[n]] && v[..n + 1] == v;
      WalkAppend(root, base + v[..n], [v[n]]);
      hide Walk;
      w', id, k := ReachPath(root, b, w, start, v[..n]);
      if id.Some? {
        var w1 := w';
        w', id := ReachChild(root, b, w1, id.value, v[n]);
        k := n + 1;
      } else {
        assert v[..n][..k] == v[..k];
      }
    }
  }

  /** A single unregistered path is too many once no ID is left. */
  lemma {:induction false} CrowdedTrouble(root: Trie, b: Bounds, w: World, paths: iset<string>, goals: seq<Goal>,
                                          path: string)
    returns (f: Failure)
    requires Ordered(w.steps) && Crowded(b, w) && path in paths && Walk(root, path).Some?
    requires !IsRegistered(w.steps, path)
    ensures Trouble(f, root, b, w, paths, goals)
  {
    hide Walk, IsRegistered, StateTrouble;
    var more := [path];
    assert IsNew(root, w.steps, paths, more[0]);
    f := if |w.steps| >= b.nodes then NodesExceeded else NodeIdsExhausted;
  }

  // ---------------------------------------------------------------- states

  /** The transition of one goal, with its product state and its chain, if there is room for them. */
  lemma {:induction false} ReachGoal(root: Trie, b: Bounds, w: World, from: nat, g: Goal, id: nat)
    returns (w': World, t: Transition, f: Option<Failure>)
    requires Sound(root, b, w) && GS.Inside(GS.Product(id, g.pos, g.cost), |w.steps|, b.extent)
    ensures Leads(root, b, w, w') && w'.steps == w.steps && w'.nodes == w.nodes
    ensures var p := GS.Product(id, g.pos, g.cost);
            if f.None? then ArcMeans(w'.states, t, from, g.input, g.output, g.weight, p)
            else exists count: nat ::
                   && Lacks(w'.states, g.input, g.output, p, count)
                   && BreaksLimit(f.value, |w'.states| + count, b.states)
  {
    hide Denotes, GS.WellShaped, GS.ProductsOf, GS.ChainsOf, GS.Linked, GS.ChainAt;
    var p := GS.Product(id, g.pos, g.cost);
    GS.WithProductKeeps(w.states, p, b.states, |w.steps|, b.extent);
    w', t, f := w.(states := GS.WithProduct(w.states, p, b.states)),
      Transition(from, First(g.input), First(g.output), 0, g.weight), None;
    if p !in GS.ProductsOf(w.states) && !GS.HasRoom(w.states, 1, b.states) {
      f := Some(Fullness(|w.states| + 1, b.states));
      assert Lacks(w'.states, g.input, g.output, p, 1);
    } else {
      var target := ProductPlace(w.states, p, b.states);
      t := t.(to := target);
      if |g.input| > 1 || |g.output| > 1 {
        var c := GS.Chain(g.input, g.output, target);
        var states := w'.states;
        GS.WithChainKeeps(states, c, b.states, |w.steps|, b.extent);
        w' := w'.(states := GS.WithChain(states, c, b.states));
        if c !in GS.ChainsOf(states) && !GS.HasRoom(states, c.Width() - 1, b.states) {
          f := Some(Fullness(|states| + (c.Width() - 1), b.states));
          assert Lacks(w'.states, g.input, g.output, p, c.Width() - 1);
        } else {
          var first := ChainPlace(states, c, b.states);
          t := t.(to := first);
          assert w'.states[target] == GS.ProductState(p);
        }
      }
    }
  }

  function Fullness(count: nat, limit: nat): Failure { if count > limit then StatesExceeded else SentinelReached }

  lemma {:induction false} ProductPlace(states: seq<GS.State>, p: GS.Product, limit: nat) returns (id: nat)
    requires GS.WellShaped(states) && (p in GS.ProductsOf(states) || GS.HasRoom(states, 1, limit))
    ensures var all := GS.WithProduct(states, p, limit);
            id < |all| && all[id] == GS.ProductState(p) && p in GS.ProductsOf(all) && GS.ProductsOf(all)[p] == id
  {
    hide GS.ProductsOf, GS.ChainsOf;
    if p in GS.ProductsOf(states) {
      GS.ProductLookup(states, p);
      id := GS.ProductsOf(states)[p];
    } else {
      GS.AppendProduct(states, p);
      id := |states|;
    }
  }

  lemma {:induction false} ChainPlace(states: seq<GS.State>, c: GS.Chain, limit: nat) returns (first: nat)
    requires GS.WellShaped(states) && c.Width() >= 2 && c.target < |states| && states[c.target].ProductState?
    requires c in GS.ChainsOf(states) || GS.HasRoom(states, c.Width() - 1, limit)
    ensures GS.ChainAt(GS.WithChain(states, c, limit), c, first)
  {
    hide GS.ProductsOf, GS.ChainsOf, GS.ChainAt, GS.WellShaped;
    if c in GS.ChainsOf(states) {
      GS.ChainLookup(states, c);
      first := GS.ChainsOf(states)[c];
    } else {
      GS.AppendChain(states, c);
      first := |states|;
    }
  }

  // ---------------------------------------------------------------- one expansion

  /** Where a firing of a site leads: a dictionary path that some search has come past, inside the query and budget. */
  lemma {:induction false} FiringPlace(cfg: Config, root: Trie, site: Site, j: nat)
    requires WellFormed(site.node) && Walk(root, site.start) == Some(site.node)
    requires j < |Macros(cfg, site.node, site.pos, site.cost, |cfg.prepared|)|
    ensures var m := Macros(cfg, site.node, site.pos, site.cost, |cfg.prepared|)[j];
            && Walk(root, site.start + m.output).Some? && m.pos <= |cfg.query| && m.cost <= cfg.maxCost
            && forall k :: 0 < k <= |m.output| ==> site.start + m.output[..k] in ProbedPaths(cfg, site)
  {
    hide Walk, Macros, WellFormed;
    var m := Macros(cfg, site.node, site.pos, site.cost, |cfg.prepared|)[j];
    MacrosMember(cfg, site.node, site.pos, site.cost, |cfg.prepared|, m);
    WalkAppend(root, site.start, m.output);
    var i :| 0 <= i < |cfg.prepared| && Fires(cfg, site.node, site.pos, site.cost, cfg.prepared[i].op, m);
    forall k | 0 < k <= |m.output| ensures Probed(cfg, site, site.start + m.output[..k]) {
      assert Affordable(cfg, site.pos, site.cost, cfg.prepared[i].op);
    }
  }

  /** The transitions of the first `n` firings, or a reason why they cannot all be had. */
  lemma {:induction false} ReachFirings(cfg: Config, root: Trie, b: Bounds, w: World, state: nat, n: nat)
    returns (w': World, ts: seq<Transition>, f: Option<Failure>)
    requires WellFormed(root) && Sound(root, b, w) && b.extent == cfg.Extent() && IsSite(w, state)
    requires n <= |SiteGoals(cfg, SiteIn(w, state))|
    ensures Leads(root, b, w, w') && Ordered(w'.steps) && IsSite(w', state) && SiteIn(w', state) == SiteIn(w, state)
    ensures f.None? ==>
              |ts| == n &&
              forall j :: 0 <= j < n ==>
                  Achieves(w'.steps, w'.states, state, SiteGoals(cfg, SiteIn(w, state))[j], ts[j])
    ensures f.Some? ==> Excused(cfg, root, b, w', state, f.value)
    decreases n
  {
    hide Sound, Achieves, SiteIn, SiteGoals, Excused, IsSite;
    var site := SiteIn(w, state);
    SoundDenotes(root, b, w);
    if n == 0 {
      w', ts, f := w, [], None;
    } else {
      w', ts, f := ReachFirings(cfg, root, b, w, state, n - 1);
      if f.None? {
        var w1, goals := w', SiteGoals(cfg, site);
        var t;
        w', t, f := ReachFiring(cfg, root, b, w1, state, n - 1);
        forall j | f.None? && 0 <= j < n - 1 ensures Achieves(w'.steps, w'.states, state, goals[j], ts[j]) {
          AchievesGrows(w1, w', state, goals[j], ts[j]);
        }
        ts := ts + [t];
      }
    }
  }

  /** One more firing. */
  lemma {:induction false} ReachFiring(cfg: Config, root: Trie, b: Bounds, w: World, state: nat, j: nat)
    returns (w': World, t: Transition, f: Option<Failure>)
    requires WellFormed(root) && Sound(root, b, w) && b.extent == cfg.Extent() && IsSite(w, state)
    requires j < |SiteGoals(cfg, SiteIn(w, state))|
    ensures Leads(root, b, w, w') && Ordered(w'.steps) && IsSite(w', state) && SiteIn(w', state) == SiteIn(w, state)
    ensures f.None? ==> Achieves(w'.steps, w'.states, state, SiteGoals(cfg, SiteIn(w, state))[j], t)
    ensures f.Some? ==> Excused(cfg, root, b, w', state, f.value)
  {
    hide Sound, PathOf, Walk, Macros, ArcMeans, ProbedPaths, IsRegistered, Denotes, WellFormed;
    var site := SiteIn(w, state);
    var g, v := SiteGoals(cfg, site)[j], Macros(cfg, site.node, site.pos, site.cost, |cfg.prepared|)[j].output;
    SoundDenotes(root, b, w);
    SoundNode(root, b, w, site.id);
    SiteWalks(root, b, w, state);
    FiringPlace(cfg, root, site, j);
    var w1, id, k := ReachPath(root, b, w, site.id, v);
    t := Transition(0, None, None, 0, 0);
    SiteMoves(root, b, w, w1, state);
    if id.None? {
      var bad := CrowdedTrouble(root, b, w1, ProbedPaths(cfg, site), SiteGoals(cfg, site), site.start + v[..k]);
      w', f := w1, Some(bad);
    } else {
      w', t, f := ReachGoal(root, b, w1, state, g, id.value);
      SiteMoves(root, b, w1, w', state);
      if f.Some? { FullTrouble(cfg, root, b, w', site, j, id.value, f.value); }
    }
  }

  lemma {:induction false} FullTrouble(cfg: Config, root: Trie, b: Bounds, w: World, site: Site, j: nat, id: nat,
                                       f: Failure)
    requires Sound(root, b, w) && Ordered(w.steps) && j < |SiteGoals(cfg, site)| && id < |w.steps|
    requires PathOf(w.steps, id) == SiteGoals(cfg, site)[j].path
    requires var g := SiteGoals(cfg, site)[j];
             exists count: nat :: && Lacks(w.states, g.input, g.output, GS.Product(id, g.pos, g.cost), count)
                                  && BreaksLimit(f, |w.states| + count, b.states)
    ensures Trouble(f, root, b, w, ProbedPaths(cfg, site), SiteGoals(cfg, site))
  {
    hide Sound, PathOf, SiteGoals, ProbedPaths, Lacks, BreaksLimit, NodeTrouble;
    var g := SiteGoals(cfg, site)[j];
    var count: nat :| && Lacks(w.states, g.input, g.output, GS.Product(id, g.pos, g.cost), count)
                      && BreaksLimit(f, |w.states| + count, b.states);
    assert Wants(w, g, count);
    assert Adds(w, w, ProbedPaths(cfg, site), SiteGoals(cfg, site));
  }

  lemma {:induction false} SiteWalks(root: Trie, b: Bounds, w: World, state: nat)
    requires Sound(root, b, w) && IsSite(w, state)
    ensures Walk(root, SiteIn(w, state).start) == Some(SiteIn(w, state).node)
  {
    hide Walk, PathOf;
  }

  lemma {:induction false} SiteMoves(root: Trie, b: Bounds, w: World, w': World, state: nat)
    requires Leads(root, b, w, w') && IsSite(w, state)
    ensures IsSite(w', state) && SiteIn(w', state) == SiteIn(w, state) && Ordered(w'.steps)
  {
    hide Sound, PathOf, IsSite, SiteIn;
    SoundDenotes(root, b, w');
    SiteKept(w, w', state, SiteIn(w, state));
  }

  lemma {:induction false} AchievesGrows(w: World, w': World, from: nat, g: Goal, t: Transition)
    requires Ordered(w.steps) && Ordered(w'.steps) && Extends(w, w') && Achieves(w.steps, w.states, from, g, t)
    ensures Achieves(w'.steps, w'.states, from, g, t)
  {
    hide PathOf, ArcMeans;
    var id: nat :| && id < |w.steps| && PathOf(w.steps, id) == g.path
                   && ArcMeans(w.states, t, from, g.input, g.output, g.weight, GS.Product(id, g.pos, g.cost));
    PathStable(w.steps, w'.steps, id);
    ArcMeansStable(w.states, w'.states, t, from, g.input, g.output, g.weight, GS.Product(id, g.pos, g.cost));
  }

  /** Every registered state can be expanded completely in some extension, unless what it owes does not fit there. */
  lemma {:induction false} CanAnswer(cfg: Config, root: Trie, b: Bounds, w: World, state: nat)
    returns (w': World, r: Expansion)
    requires WellFormed(root) && Sound(root, b, w) && b.extent == cfg.Extent() && state < |w.states|
    ensures Leads(root, b, w, w')
    ensures match r
            case Expanded(finalWeight, ts) => IsExpansion(cfg, w', state, finalWeight, ts)
            case Unexpanded(f) => Excused(cfg, root, b, w', state, f)
  {
    hide Sound, Achieves, Excused, PathOf, Macros;
    SoundDenotes(root, b, w);
    match w.states[state]
    case ProductState(p) =>
      SoundSite(cfg, root, b, w, state);
      var site := SiteIn(w, state);
      var ts, f;
      w', ts, f := ReachFirings(cfg, root, b, w, state, |SiteGoals(cfg, site)|);
      SoundDenotes(root, b, w');
      r := if f.Some? then Unexpanded(f.value) else Expanded(ProductFinal(cfg, site.node, p), ts);
    case EmitState(c, position, next) =>
      w' := w;
      r := Expanded(None, [Transition(state, LabelAt(c.input, position), LabelAt(c.output, position), next, 0)]);
  }
}
