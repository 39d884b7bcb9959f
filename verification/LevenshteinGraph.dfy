/**
 The weighted graph that a Levenshtein source describes: states pair a dictionary node with an automaton
 state, arcs are the edit steps of src/state_source.rs. The main results say that the least weight of an
 accepting path with a given output is exactly the bounded edit distance.
 */
module LevenshteinGraph {
  import opened Common
  import opened Dictionary
  import opened LevenshteinCodec
  import opened EditDistance

  datatype Config = Config(query: string, maxDistance: nat, algorithm: Algorithm) {
    function Codec(): Codec { LevenshteinCodec.Codec(|query|, maxDistance, algorithm) }
  }

  /** Where an arc goes in the dictionary. */
  datatype Move = Stay | Descend(edge: nat)

  datatype Arc = Arc(input: Option<char>, output: Option<char>, move: Move, target: AutomatonState, weight: nat)

  /** The automaton state in which an edit started at (`pos`, `cost`) continues. */
  function Target(pos: nat, cost: nat, e: Edit): AutomatonState {
    match e
    case Match => Normal(pos + 1, cost)
    case Substitute => Normal(pos + 1, cost + 1)
    case Insert => Normal(pos, cost + 1)
    case Delete => Normal(pos + 1, cost + 1)
    case Transpose => TransposeSecond(pos, cost + 1)
    case Merge => MergeSecond(pos, cost + 1)
    case Split => SplitSecond(pos, cost + 1)
  }

  /** The source starts edit `e` along edge `i`, after looking one level ahead for swaps and splits. */
  predicate Starts(cfg: Config, node: Trie, pos: nat, cost: nat, i: nat, e: Edit)
    requires i < |node.edges|
  {
    var q, out, child := cfg.query, node.edges[i].symbol, node.edges[i].child;
    && cost + EditCost(e) <= cfg.maxDistance
    && match e
       case Match => pos < |q| && q[pos] == out
       case Substitute => pos < |q| && q[pos] != out
       case Insert => true
       case Delete => false
       case Transpose =>
         && cfg.algorithm.transposition && pos + 1 < |q| && out == q[pos + 1] && q[pos] != q[pos + 1]
         && Find(child.edges, q[pos]).Some?
       case Merge => cfg.algorithm.mergeSplit && pos + 1 < |q|
       case Split => cfg.algorithm.mergeSplit && pos < |q| && |child.edges| > 0
  }

  function EdgeArc(cfg: Config, node: Trie, pos: nat, cost: nat, i: nat, e: Edit): Arc
    requires i < |node.edges|
  {
    Arc(if e == Insert || pos >= |cfg.query| then None else Some(cfg.query[pos]),
        Some(node.edges[i].symbol), Descend(i), Target(pos, cost, e), EditCost(e))
  }

  function Piece(cfg: Config, node: Trie, pos: nat, cost: nat, i: nat, e: Edit): seq<Arc>
    requires i < |node.edges|
  {
    if Starts(cfg, node, pos, cost, i, e) then [EdgeArc(cfg, node, pos, cost, i, e)] else []
  }

  /** Arcs of a normal state along edge `i`: match or substitute, insert, transpose, merge, split. */
  function EdgeArcs(cfg: Config, node: Trie, pos: nat, cost: nat, i: nat): seq<Arc>
    requires i < |node.edges|
  {
    StartArcs(cfg, node, pos, cost, i, [Match, Substitute, Insert, Transpose, Merge, Split])
  }

  function StartArcs(cfg: Config, node: Trie, pos: nat, cost: nat, i: nat, edits: seq<Edit>): (r: seq<Arc>)
    requires i < |node.edges|
    ensures forall arc :: arc in r <==>
              exists e :: e in edits && Starts(cfg, node, pos, cost, i, e) && arc == EdgeArc(cfg, node, pos, cost, i, e)
  {
    if edits == [] then []
    else Piece(cfg, node, pos, cost, i, edits[0]) + StartArcs(cfg, node, pos, cost, i, edits[1..])
  }

  /**
   The arcs of a state along edge `i`. After the first half of a swap only the displaced symbol may follow; after
   the first half of a split any symbol may.
   */
  function ArcsAlong(cfg: Config, node: Trie, s: AutomatonState, i: nat): seq<Arc>
    requires i < |node.edges|
  {
    var out := node.edges[i].symbol;
    match s
    case Normal(p, c) => EdgeArcs(cfg, node, p, c, i)
    case TransposeSecond(p, c) =>
      if p + 1 < |cfg.query| && out == cfg.query[p]
      then [Arc(Some(cfg.query[p + 1]), Some(out), Descend(i), Normal(p + 2, c), 0)] else []
    case MergeSecond(p, c) => []
    case SplitSecond(p, c) =>
      if p < |cfg.query| then [Arc(None, Some(out), Descend(i), Normal(p + 1, c), 0)] else []
  }

  /** The arcs of a state along its node's first `n` edges, in edge order. */
  function ArcsUpTo(cfg: Config, node: Trie, s: AutomatonState, n: nat): seq<Arc>
    requires n <= |node.edges|
  {
    if n == 0 then [] else ArcsUpTo(cfg, node, s, n - 1) + ArcsAlong(cfg, node, s, n - 1)
  }

  /** The arcs that stay on the dictionary node: delete, and the second half of a merge. */
  function ArcsStaying(cfg: Config, s: AutomatonState): seq<Arc> {
    var q := cfg.query;
    match s
    case Normal(p, c) =>
      if p < |q| && c < cfg.maxDistance then [Arc(Some(q[p]), None, Stay, Normal(p + 1, c + 1), 1)] else []
    case MergeSecond(p, c) =>
      if p + 1 < |q| then [Arc(Some(q[p + 1]), None, Stay, Normal(p + 2, c), 0)] else []
    case _ => []
  }

  /** All arcs of a state, in the order the source emits them. */
  function Arcs(cfg: Config, node: Trie, s: AutomatonState): seq<Arc> {
    ArcsUpTo(cfg, node, s, |node.edges|) + ArcsStaying(cfg, s)
  }

  /** `normal_final_weight`: the unread query is deleted on acceptance. */
  function FinalWeight(cfg: Config, node: Trie, s: AutomatonState): Option<nat> {
    if s.Normal? && node.isFinal && s.pos <= |cfg.query| && s.cost + (|cfg.query| - s.pos) <= cfg.maxDistance
    then Some(|cfg.query| - s.pos) else None
  }

  function Next(node: Trie, m: Move): Trie
    requires m.Descend? ==> m.edge < |node.edges|
  {
    match m
    case Stay => node
    case Descend(i) => node.edges[i].child
  }

  lemma {:induction false} ArcsMember(cfg: Config, node: Trie, s: AutomatonState, n: nat, arc: Arc)
    requires n <= |node.edges|
    ensures arc in ArcsUpTo(cfg, node, s, n) <==>
              arc.move.Descend? && arc.move.edge < n && arc in ArcsAlong(cfg, node, s, arc.move.edge)
  {
    if n > 0 {
      ArcsMember(cfg, node, s, n - 1, arc);
      assert arc in ArcsAlong(cfg, node, s, n - 1) ==> arc.move == Descend(n - 1);
    }
  }

  /** Match, substitute, insert, first halves of swap, merge and split, and what stays on the node. */
  function Rank(arc: Arc): nat {
    if arc.move.Stay? then 6
    else match arc.target
      case Normal(_, _) => if arc.input.None? then 2 else if arc.weight == 0 then 0 else 1
      case TransposeSecond(_, _) => 3
      case MergeSecond(_, _) => 4
      case SplitSecond(_, _) => 5
  }

  ghost predicate Precedes(a: Arc, b: Arc) {
    && a.move.Descend?
    && (b.move.Descend? ==> a.move.edge < b.move.edge || (a.move.edge == b.move.edge && Rank(a) < Rank(b)))
  }

  ghost predicate ArcsOrdered(arcs: seq<Arc>) { forall p, q :: 0 <= p < q < |arcs| ==> Precedes(arcs[p], arcs[q]) }

  function EditRank(e: Edit): nat {
    match e
    case Match => 0
    case Substitute => 1
    case Insert => 2
    case Transpose => 3
    case Merge => 4
    case Split => 5
    case Delete => 6
  }

  lemma {:induction false} StartArcsOrdered(cfg: Config, node: Trie, pos: nat, cost: nat, i: nat, edits: seq<Edit>)
    requires i < |node.edges| && forall a, b :: 0 <= a < b < |edits| ==> EditRank(edits[a]) < EditRank(edits[b])
    ensures ArcsOrdered(StartArcs(cfg, node, pos, cost, i, edits))
  {
    hide Starts;
    if edits != [] {
      StartArcsOrdered(cfg, node, pos, cost, i, edits[1..]);
      var first, rest := Piece(cfg, node, pos, cost, i, edits[0]), StartArcs(cfg, node, pos, cost, i, edits[1..]);
      forall q | 0 <= q < |rest| && first != [] ensures Precedes(first[0], rest[q]) {
        assert rest[q] in rest;
        var e :| e in edits[1..] && Starts(cfg, node, pos, cost, i, e) &&
            rest[q] == EdgeArc(cfg, node, pos, cost, i, e);
        EdgeArcRank(cfg, node, pos, cost, i, e);
        EdgeArcRank(cfg, node, pos, cost, i, edits[0]);
      }
    }
  }

  lemma EdgeArcRank(cfg: Config, node: Trie, pos: nat, cost: nat, i: nat, e: Edit)
    requires i < |node.edges| && Starts(cfg, node, pos, cost, i, e)
    ensures var arc := EdgeArc(cfg, node, pos, cost, i, e); Rank(arc) == EditRank(e) && arc.move == Descend(i)
  {
  }

  lemma {:induction false} AlongOrdered(cfg: Config, node: Trie, s: AutomatonState, i: nat)
    requires i < |node.edges|
    ensures ArcsOrdered(ArcsAlong(cfg, node, s, i))
    ensures forall arc :: arc in ArcsAlong(cfg, node, s, i) ==> arc.move == Descend(i)
  {
    if s.Normal? {
      StartArcsOrdered(cfg, node, s.pos, s.cost, i, [Match, Substitute, Insert, Transpose, Merge, Split]);
    }
  }

  lemma {:induction false} UpToOrdered(cfg: Config, node: Trie, s: AutomatonState, n: nat)
    requires n <= |node.edges|
    ensures ArcsOrdered(ArcsUpTo(cfg, node, s, n))
    ensures forall arc :: arc in ArcsUpTo(cfg, node, s, n) ==> arc.move.Descend? && arc.move.edge < n
  {
    hide ArcsAlong;
    if n > 0 {
      UpToOrdered(cfg, node, s, n - 1);
      AlongOrdered(cfg, node, s, n - 1);
      var before, along := ArcsUpTo(cfg, node, s, n - 1), ArcsAlong(cfg, node, s, n - 1);
      assert forall p :: 0 <= p < |before| ==> before[p] in before;
      assert forall q :: 0 <= q < |along| ==> along[q] in along;
    }
  }

  /**
   The order in which a state emits its arcs: edge by edge, on each edge by kind of edit, and last what stays on the
   dictionary node.
   */
  lemma {:induction false} ArcsInOrder(cfg: Config, node: Trie, s: AutomatonState)
    ensures ArcsOrdered(Arcs(cfg, node, s))
  {
    hide ArcsUpTo;
    UpToOrdered(cfg, node, s, |node.edges|);
    var down := ArcsUpTo(cfg, node, s, |node.edges|);
    assert forall p :: 0 <= p < |down| ==> down[p] in down;
  }

  /** Every arc of a normal state starts an edit. */
  lemma {:induction false} NormalArc(cfg: Config, node: Trie, p: nat, c: nat, arc: Arc) returns (e: Edit)
    requires arc in Arcs(cfg, node, Normal(p, c))
    ensures arc.move.Descend? ==> arc.move.edge < |node.edges|
    ensures if arc.move.Stay?
            then e == Delete && arc in ArcsStaying(cfg, Normal(p, c))
            else Starts(cfg, node, p, c, arc.move.edge, e) && arc == EdgeArc(cfg, node, p, c, arc.move.edge, e)
  {
    ArcsMember(cfg, node, Normal(p, c), |node.edges|, arc);
    if arc.move.Stay? {
      e := Delete;
    } else {
      e :| Starts(cfg, node, p, c, arc.move.edge, e) && arc == EdgeArc(cfg, node, p, c, arc.move.edge, e);
    }
  }

  /** Every arc of a continuation state finishes its edit at no further cost. */
  lemma {:induction false} SecondArc(cfg: Config, node: Trie, s: AutomatonState, arc: Arc)
    requires arc in Arcs(cfg, node, s) && !s.Normal?
    ensures arc.move.Descend? ==>
              arc.move.edge < |node.edges| && arc.output == Some(node.edges[arc.move.edge].symbol)
    ensures arc.move.Stay? ==> arc.output == None
    ensures arc.weight == 0 && arc.target == Normal(s.pos + (if s.SplitSecond? then 1 else 2), s.cost)
    ensures arc.target.pos <= |cfg.query|
    ensures s.TransposeSecond? ==> arc.output == Some(cfg.query[s.pos])
    ensures s.MergeSecond? <==> arc.output == None
  {
    ArcsMember(cfg, node, s, |node.edges|, arc);
  }

  /** Output labels are exactly the dictionary edges taken. */
  lemma {:induction false} ArcOutput(cfg: Config, node: Trie, s: AutomatonState, arc: Arc)
    requires arc in Arcs(cfg, node, s)
    ensures arc.move.Descend? ==>
              arc.move.edge < |node.edges| && arc.output == Some(node.edges[arc.move.edge].symbol)
    ensures arc.move.Stay? ==> arc.output == None
  {
    if s.Normal? {
      var _ := NormalArc(cfg, node, s.pos, s.cost, arc);
    } else {
      SecondArc(cfg, node, s, arc);
    }
  }

  /** `path` leads from (`node`, `s`) to an accepting state, writing `term` at total weight `weight`. */
  ghost predicate Accepts(cfg: Config, node: Trie, s: AutomatonState, path: seq<Arc>, term: string, weight: nat)
    decreases |path|
  {
    if path == [] then term == [] && FinalWeight(cfg, node, s) == Some(weight)
    else
      var arc := path[0];
      && arc in Arcs(cfg, node, s) && arc.weight <= weight
      && (arc.move.Descend? ==> arc.move.edge < |node.edges|)
      && match arc.output
         case None => Accepts(cfg, Next(node, arc.move), arc.target, path[1..], term, weight - arc.weight)
         case Some(c) =>
           && term != [] && term[0] == c
           && Accepts(cfg, Next(node, arc.move), arc.target, path[1..], term[1..], weight - arc.weight)
  }

  /** What a state still owes: the alignment cost of its unread query with the rest of the term. */
  ghost predicate Owes(cfg: Config, s: AutomatonState, term: string, weight: nat) {
    var q, a := cfg.query, cfg.algorithm;
    match s
    case Normal(p, _) => p <= |q| && Distance(q[p..], term, a) <= weight
    case TransposeSecond(p, _) =>
      p + 1 < |q| && term != [] && term[0] == q[p] && Distance(q[p + 2..], term[1..], a) <= weight
    case MergeSecond(p, _) => p + 1 < |q| && Distance(q[p + 2..], term, a) <= weight
    case SplitSecond(p, _) => p < |q| && term != [] && Distance(q[p + 1..], term[1..], a) <= weight
  }

  /**
   Path to alignment: an accepting path writes a dictionary term, weighs at least the distance of the unread
   query from it, and never takes the accumulated cost beyond the bound.
   */
  lemma {:induction false} PathOwes(cfg: Config, node: Trie, s: AutomatonState, path: seq<Arc>, term: string,
                                    weight: nat)
    requires WellFormed(node) && Accepts(cfg, node, s, path, term, weight)
    ensures Contains(node, term) && Owes(cfg, s, term, weight) && s.cost + weight <= cfg.maxDistance
    decreases |path|
  {
    hide Arcs;
    if path == [] {
      if s.Normal? { assert Distance(cfg.query[s.pos..], [], cfg.algorithm) == |cfg.query| - s.pos; }
    } else {
      hide WellFormed, Contains, Distance, FinalWeight;
      var arc := path[0];
      ArcOutput(cfg, node, s, arc);
      if arc.move.Descend? {
        ContainsBelow(node, arc.move.edge, term);
      }
      PathOwes(cfg, Next(node, arc.move), arc.target, path[1..], if arc.output.Some? then term[1..] else term,
               weight - arc.weight);
      hide Accepts;
      if s.Normal? {
        EditOfArc(cfg, node, s.pos, s.cost, arc, term, weight);
      } else {
        SecondArc(cfg, node, s, arc);
      }
    }
  }

  /** A term below an edge, with the edge's label in front, is a term of the node. */
  lemma {:induction false} ContainsBelow(node: Trie, i: nat, term: string)
    requires WellFormed(node) && i < |node.edges| && term != [] && term[0] == node.edges[i].symbol
    ensures WellFormed(node.edges[i].child)
    ensures Contains(node.edges[i].child, term[1..]) ==> Contains(node, term)
  {
    FindEdge(node, i);
  }

  /** One arc of a normal state, followed by what its target owes, is one edit operation. */
  lemma {:induction false} EditOfArc(cfg: Config, node: Trie, p: nat, c: nat, arc: Arc, term: string, weight: nat)
    requires arc in Arcs(cfg, node, Normal(p, c)) && arc.weight <= weight
    requires arc.output.Some? ==> term != [] && term[0] == arc.output.value
    requires Owes(cfg, arc.target, if arc.output.Some? then term[1..] else term, weight - arc.weight)
    ensures Owes(cfg, Normal(p, c), term, weight) && c + arc.weight == arc.target.cost
  {
    var e := NormalArc(cfg, node, p, c, arc);
    Suffixes(cfg.query, term, p);
    EditOwes(cfg, p, c, e, term, weight - arc.weight);
    NoEditBeats(e, cfg.query[p..], term, cfg.algorithm);
  }

  /** Starting an edit and owing its continuation is owing the strings that remain after it. */
  lemma {:induction false} EditOwes(cfg: Config, p: nat, c: nat, e: Edit, term: string, weight: nat)
    requires p <= |cfg.query| && (e != Insert ==> p < |cfg.query|) && (e != Delete ==> term != [])
    requires e == Match ==> cfg.query[p] == term[0]
    requires e == Substitute ==> cfg.query[p] != term[0]
    requires e == Transpose ==>
               && cfg.algorithm.transposition && p + 1 < |cfg.query|
               && term[0] == cfg.query[p + 1] && cfg.query[p] != cfg.query[p + 1]
    requires e == Merge || e == Split ==> cfg.algorithm.mergeSplit
    requires Owes(cfg, Target(p, c, e), if e == Delete then term else term[1..], weight)
    ensures Applies(e, cfg.query[p..], term, cfg.algorithm)
    ensures Distance(cfg.query[p..][TakesQuery(e)..], term[TakesTerm(e)..], cfg.algorithm) <= weight
  {
    Suffixes(cfg.query, term, p);
    if e == Transpose || e == Split {
      assert |term| >= 2;
    }
  }

  /** Slices of slices. */
  lemma Suffixes(q: string, term: string, p: nat)
    requires p <= |q|
    ensures p < |q| ==> q[p..][1..] == q[p + 1..] && q[p..][0] == q[p]
    ensures p + 1 < |q| ==> q[p..][2..] == q[p + 2..] && q[p..][1] == q[p + 1]
    ensures q[p..][0..] == q[p..] && term[0..] == term
    ensures |term| >= 2 ==> term[1..][1..] == term[2..] && term[1..][0] == term[1]
  {
  }

  /**
   Alignment to path: every alignment of the next query symbols that leaves room for deleting the rest of the query is
   an accepting path that reads exactly these symbols.
   */
  lemma {:induction false} PathOfAlignment(cfg: Config, node: Trie, p: nat, c: nat, edits: seq<Edit>, u: string,
                                           term: string, cost: nat)
    returns (path: seq<Arc>)
    requires WellFormed(node) && Contains(node, term) && p + |u| <= |cfg.query| && u <= cfg.query[p..]
    requires Aligns(edits, u, term, cfg.algorithm, cost)
    requires c + cost + (|cfg.query| - p - |u|) <= cfg.maxDistance
    ensures Accepts(cfg, node, Normal(p, c), path, term, cost + (|cfg.query| - p - |u|)) && Inputs(path) == u
    decreases |edits|
  {
    hide *;
    if edits == [] {
      path := [];
      DeleteRest(cfg, node, p, c, u, term, cost);
    } else {
      var e := edits[0];
      var taken, used := TakesTerm(e), TakesQuery(e);
      AlignsParts(edits, u, term, cfg.algorithm, cost);
      AppliesLonger(e, u, cfg.query[p..], term, cfg.algorithm);
      assert cfg.query[p..][used..] == cfg.query[p + used..] && u == u[..used] + u[used..];
      assert u[used..] <= cfg.query[p + used..];
      var after := NodeAfter(node, term, taken);
      var rest := PathOfAlignment(cfg, after, p + used, c + EditCost(e), edits[1..], u[used..], term[taken..],
                                  cost - EditCost(e));
      path := StepPath(cfg, node, p, c, e, term, rest, cost - EditCost(e) + (|cfg.query| - p - |u|));
      assert cfg.query[p..p + used] == cfg.query[p..][..used] == u[..used];
    }
  }

  lemma {:induction false} DeleteRest(cfg: Config, node: Trie, p: nat, c: nat, u: string, term: string, cost: nat)
    requires Contains(node, term) && p + |u| <= |cfg.query| && Aligns([], u, term, cfg.algorithm, cost)
    requires c + cost + (|cfg.query| - p - |u|) <= cfg.maxDistance
    ensures Accepts(cfg, node, Normal(p, c), [], term, cost + (|cfg.query| - p - |u|)) && Inputs([]) == u
  {
  }

  lemma AlignsParts(edits: seq<Edit>, u: string, term: string, a: Algorithm, cost: nat)
    requires Aligns(edits, u, term, a, cost) && edits != []
    ensures var e := edits[0];
            && Applies(e, u, term, a) && EditCost(e) <= cost && TakesQuery(e) <= |u| && TakesTerm(e) <= |term|
            && Aligns(edits[1..], u[TakesQuery(e)..], term[TakesTerm(e)..], a, cost - EditCost(e))
  {
  }

  /** An edit of a prefix is an edit of the longer string. */
  lemma AppliesLonger(e: Edit, u: string, q: string, term: string, a: Algorithm)
    requires Applies(e, u, term, a) && u <= q
    ensures Applies(e, q, term, a) && TakesQuery(e) <= |u|
  {
    assert forall i :: 0 <= i < |u| ==> u[i] == q[i];
  }

  /** In particular, the distance is attained by a path that reads the whole query. */
  lemma {:induction false} PathOfDistance(cfg: Config, node: Trie, p: nat, c: nat, term: string)
    returns (path: seq<Arc>)
    requires WellFormed(node) && Contains(node, term) && p <= |cfg.query|
    requires c + Distance(cfg.query[p..], term, cfg.algorithm) <= cfg.maxDistance
    ensures Accepts(cfg, node, Normal(p, c), path, term, Distance(cfg.query[p..], term, cfg.algorithm))
    ensures Inputs(path) == cfg.query[p..]
  {
    hide Arcs, WellFormed, Distance, Accepts, Contains, Aligns;
    var edits := DistanceIsAttained(cfg.query[p..], term, cfg.algorithm);
    path := PathOfAlignment(cfg, node, p, c, edits, cfg.query[p..], term,
                            Distance(cfg.query[p..], term, cfg.algorithm));
  }

  lemma {:induction false} NodeAfter(node: Trie, term: string, n: nat) returns (after: Trie)
    requires WellFormed(node) && Contains(node, term) && n <= |term|
    ensures Walk(node, term[..n]) == Some(after) && WellFormed(after) && Contains(after, term[n..])
  {
    assert term == term[..n] + term[n..];
    WalkAppend(node, term[..n], term[n..]);
    after := Walk(node, term[..n]).value;
    WalkWellFormed(node, term[..n]);
  }

  /** Prefixing the arcs of one edit operation to an accepting path. */
  lemma {:induction false} StepPath(cfg: Config, node: Trie, p: nat, c: nat, e: Edit, term: string,
                                    rest: seq<Arc>, weight: nat) returns (path: seq<Arc>)
    requires WellFormed(node) && p <= |cfg.query| && Applies(e, cfg.query[p..], term, cfg.algorithm)
    requires Walk(node, term[..TakesTerm(e)]).Some? && c + EditCost(e) <= cfg.maxDistance
    requires Accepts(cfg, Walk(node, term[..TakesTerm(e)]).value, Normal(p + TakesQuery(e), c + EditCost(e)),
                     rest, term[TakesTerm(e)..], weight)
    ensures Accepts(cfg, node, Normal(p, c), path, term, weight + EditCost(e))
    ensures p + TakesQuery(e) <= |cfg.query| && Inputs(path) == cfg.query[p..p + TakesQuery(e)] + Inputs(rest)
  {
    hide Arcs, Accepts, Walk, WellFormed, Starts, ArcsAlong, EdgeArc;
    if e == Delete {
      Suffixes(cfg.query, term, p);
      var arc := Arc(Some(cfg.query[p]), None, Stay, Normal(p + 1, c + 1), 1);
      assert term[..0] == [] && term[0..] == term;
      WalkNowhere(node);
      ArcIn(cfg, node, Normal(p, c), arc);
      Prepended(cfg, node, Normal(p, c), arc, rest, term, weight + 1);
      path := [arc] + rest;
      assert Inputs(path) == [cfg.query[p]] + Inputs(rest) && cfg.query[p..p + 1] == [cfg.query[p]];
    } else {
      EdgeArcInput(cfg, node, p, c, e, term);
      hide Applies;
      var i := FirstEdge(node, term, TakesTerm(e));
      var after := ContinuePath(cfg, node.edges[i].child, p, c, e, term, rest, weight);
      StartsFirst(cfg, node, p, c, i, e, term);
      EdgeArcIn(cfg, node, p, c, i, e);
      var arc := EdgeArc(cfg, node, p, c, i, e);
      Prepended(cfg, node, Normal(p, c), arc, after, term, weight + EditCost(e));
      path := [arc] + after;
      InputsFirst(arc, after);
    }
  }

  lemma {:induction false} InputsFirst(arc: Arc, rest: seq<Arc>)
    ensures Inputs([arc] + rest) == (if arc.input.Some? then [arc.input.value] else []) + Inputs(rest)
  {
  }

  /** The first arc of an edit reads the first of the query symbols that the edit takes. */
  lemma EdgeArcInput(cfg: Config, node: Trie, p: nat, c: nat, e: Edit, term: string)
    requires p <= |cfg.query| && Applies(e, cfg.query[p..], term, cfg.algorithm) && e != Delete
    ensures p + TakesQuery(e) <= |cfg.query|
    ensures forall i :: 0 <= i < |node.edges| ==>
              var input := EdgeArc(cfg, node, p, c, i, e).input;
              (if input.Some? then [input.value] else []) + cfg.query[p..p + TakesQuery(e)][Min(1, TakesQuery(e))..] ==
              cfg.query[p..p + TakesQuery(e)]
  {
  }

  lemma {:induction false} EdgeArcIn(cfg: Config, node: Trie, p: nat, c: nat, i: nat, e: Edit)
    requires i < |node.edges| && Starts(cfg, node, p, c, i, e)
    ensures var arc := EdgeArc(cfg, node, p, c, i, e);
            && arc in Arcs(cfg, node, Normal(p, c)) && arc.move == Descend(i)
            && arc.output == Some(node.edges[i].symbol)
            && arc.weight == EditCost(e) && arc.target == Target(p, c, e)
  {
    assert e in [Match, Substitute, Insert, Transpose, Merge, Split];
    ArcIn(cfg, node, Normal(p, c), EdgeArc(cfg, node, p, c, i, e));
  }

  lemma {:induction false} WalkNowhere(node: Trie)
    ensures Walk(node, []) == Some(node)
  {
  }

  /** The lookahead refuses no edit that the rest of the term can finish. */
  lemma {:induction false} StartsFirst(cfg: Config, node: Trie, p: nat, c: nat, i: nat, e: Edit, term: string)
    requires e != Delete && p <= |cfg.query| && Applies(e, cfg.query[p..], term, cfg.algorithm)
    requires c + EditCost(e) <= cfg.maxDistance && i < |node.edges| && node.edges[i].symbol == term[0]
    requires Walk(node.edges[i].child, term[1..][..TakesTerm(e) - 1]).Some?
    ensures Starts(cfg, node, p, c, i, e)
  {
    Suffixes(cfg.query, term, p);
    if e == Transpose || e == Split {
      var j := FirstEdge(node.edges[i].child, term[1..], 1);
    }
  }

  /** The second arc of a two-step edit, if it has one. */
  lemma {:induction false} ContinuePath(cfg: Config, child: Trie, p: nat, c: nat, e: Edit, term: string,
                                        rest: seq<Arc>, weight: nat) returns (path: seq<Arc>)
    requires e != Delete && p <= |cfg.query| && Applies(e, cfg.query[p..], term, cfg.algorithm)
    requires Walk(child, term[1..][..TakesTerm(e) - 1]).Some?
    requires Accepts(cfg, Walk(child, term[1..][..TakesTerm(e) - 1]).value,
                     Normal(p + TakesQuery(e), c + EditCost(e)), rest, term[TakesTerm(e)..], weight)
    ensures Accepts(cfg, child, Target(p, c, e), path, term[1..], weight)
    ensures p + TakesQuery(e) <= |cfg.query|
    ensures Inputs(path) == cfg.query[p..p + TakesQuery(e)][Min(1, TakesQuery(e))..] + Inputs(rest)
  {
    hide Arcs, Accepts, Inputs;
    var q := cfg.query;
    Suffixes(q, term, p);
    LaterInput(q, p, e, term, cfg.algorithm, Inputs(rest));
    if e == Transpose || e == Split {
      var j := FirstEdge(child, term[1..], 1);
      var second := if e == Transpose
        then Arc(Some(q[p + 1]), Some(q[p]), Descend(j), Normal(p + 2, c + 1), 0)
        else Arc(None, Some(term[1]), Descend(j), Normal(p + 1, c + 1), 0);
      assert term[1..][..1][1..] == [];
      ArcIn(cfg, child, Target(p, c, e), second);
      Prepended(cfg, child, Target(p, c, e), second, rest, term[1..], weight);
      path := [second] + rest;
      InputsFirst(second, rest);
    } else if e == Merge {
      var second := Arc(Some(q[p + 1]), None, Stay, Normal(p + 2, c + 1), 0);
      ArcIn(cfg, child, MergeSecond(p, c + 1), second);
      Prepended(cfg, child, MergeSecond(p, c + 1), second, rest, term[1..], weight);
      path := [second] + rest;
      InputsFirst(second, rest);
    } else {
      path := rest;
    }
  }

  /** What an edit reads with its second arc, and what follows. */
  lemma LaterInput(q: string, p: nat, e: Edit, term: string, a: Algorithm, after: string)
    requires p <= |q| && Applies(e, q[p..], term, a)
    ensures p + TakesQuery(e) <= |q|
    ensures q[p..p + TakesQuery(e)][Min(1, TakesQuery(e))..] + after ==
            if TakesQuery(e) == 2 then [q[p + 1]] + after else after
    ensures [] + after == after
  {
    assert TakesQuery(e) == 2 ==> q[p..p + 2][1..] == [q[p + 1]];
    assert TakesQuery(e) < 2 ==> q[p..p + TakesQuery(e)][Min(1, TakesQuery(e))..] == [];
  }

  lemma {:induction false} Prepended(cfg: Config, node: Trie, s: AutomatonState, arc: Arc, rest: seq<Arc>, term: string,
                                     weight: nat)
    requires arc in Arcs(cfg, node, s) && arc.weight <= weight
    requires arc.move.Descend? ==> arc.move.edge < |node.edges|
    requires arc.output.Some? ==> term != [] && term[0] == arc.output.value
    requires Accepts(cfg, Next(node, arc.move), arc.target, rest, if arc.output.Some? then term[1..] else term,
                     weight - arc.weight)
    ensures Accepts(cfg, node, s, [arc] + rest, term, weight)
  {
    hide Arcs;
    assert ([arc] + rest)[1..] == rest;
  }

  lemma {:induction false} FirstEdge(node: Trie, term: string, n: nat) returns (i: nat)
    requires 1 <= n <= |term| && Walk(node, term[..n]).Some?
    ensures i < |node.edges| && Find(node.edges, term[0]) == Some(i) && node.edges[i].symbol == term[0]
    ensures Walk(node, term[..n]) == Walk(node.edges[i].child, term[1..][..n - 1])
  {
    assert term[..n][1..] == term[1..][..n - 1];
    assert term[..n][0] == term[0];
    i := Find(node.edges, term[0]).value;
  }

  lemma {:induction false} ArcIn(cfg: Config, node: Trie, s: AutomatonState, arc: Arc)
    requires arc.move.Descend? ==> arc.move.edge < |node.edges| && arc in ArcsAlong(cfg, node, s, arc.move.edge)
    requires arc.move.Stay? ==> arc in ArcsStaying(cfg, s)
    ensures arc in Arcs(cfg, node, s)
  {
    ArcsMember(cfg, node, s, |node.edges|, arc);
  }

  /** Some accepting path from the start state writes `term` at total weight `weight`. */
  ghost predicate HasPath(cfg: Config, root: Trie, term: string, weight: nat) {
    exists path :: Accepts(cfg, root, Normal(0, 0), path, term, weight)
  }

  /**
   The least weight of an accepting path with output `term` is the edit distance of the query and `term`, for
   dictionary terms within the bound; every other term has no accepting path.
   */
  lemma {:induction false} LeastWeightIsDistance(cfg: Config, root: Trie, term: string)
    requires WellFormed(root)
    ensures forall weight: nat :: HasPath(cfg, root, term, weight) ==>
              Contains(root, term) && Distance(cfg.query, term, cfg.algorithm) <= weight <= cfg.maxDistance
    ensures Contains(root, term) && Distance(cfg.query, term, cfg.algorithm) <= cfg.maxDistance ==>
              HasPath(cfg, root, term, Distance(cfg.query, term, cfg.algorithm))
  {
    assert cfg.query[0..] == cfg.query;
    forall weight: nat | HasPath(cfg, root, term, weight)
      ensures Contains(root, term) && Distance(cfg.query, term, cfg.algorithm) <= weight <= cfg.maxDistance
    {
      var path :| Accepts(cfg, root, Normal(0, 0), path, term, weight);
      PathOwes(cfg, root, Normal(0, 0), path, term, weight);
    }
    if Contains(root, term) && Distance(cfg.query, term, cfg.algorithm) <= cfg.maxDistance {
      var path := PathOfDistance(cfg, root, 0, 0, term);
    }
  }

  /** `path` leads from (`node`, `s`) to `s'`; the arc weights sum to `weight`. */
  ghost predicate Leads(cfg: Config, node: Trie, s: AutomatonState, path: seq<Arc>, s': AutomatonState, weight: nat)
    decreases |path|
  {
    if path == [] then s == s' && weight == 0
    else
      && path[0] in Arcs(cfg, node, s) && path[0].weight <= weight
      && (path[0].move.Descend? ==> path[0].move.edge < |node.edges|)
      && Leads(cfg, Next(node, path[0].move), path[0].target, path[1..], s', weight - path[0].weight)
  }

  /** Run invariant: along any path, the arc weights sum to the growth of the edit cost, within the bound. */
  lemma {:induction false} WeightsSumToCost(cfg: Config, node: Trie, s: AutomatonState, path: seq<Arc>,
                                            s': AutomatonState, weight: nat)
    requires Leads(cfg, node, s, path, s', weight)
    requires s.pos <= |cfg.query| && s.cost <= cfg.maxDistance && cfg.Codec().Supported(s)
    ensures s'.cost == s.cost + weight
    ensures s'.pos <= |cfg.query| && s'.cost <= cfg.maxDistance && cfg.Codec().Supported(s')
    decreases |path|
  {
    if path != [] {
      ArcInRange(cfg, node, s, path[0]);
      WeightsSumToCost(cfg, Next(node, path[0].move), path[0].target, path[1..], s', weight - path[0].weight);
    }
  }

  /** Targets of arcs stay in the codec's range and pay exactly the arc weight. */
  lemma {:induction false} ArcInRange(cfg: Config, node: Trie, s: AutomatonState, arc: Arc)
    requires arc in Arcs(cfg, node, s)
    requires s.pos <= |cfg.query| && s.cost <= cfg.maxDistance
    ensures cfg.Codec().InRange(arc.target) && cfg.Codec().Supported(arc.target)
    ensures arc.target.cost == s.cost + arc.weight
  {
    if s.Normal? {
      var _ := NormalArc(cfg, node, s.pos, s.cost, arc);
    } else {
      SecondArc(cfg, node, s, arc);
    }
  }

  /**
   How much of the query a state has read: the first half of a two-step edit has read one symbol beyond its position.
   */
  function Consumed(s: AutomatonState): nat { if s.Normal? then s.pos else s.pos + 1 }

  /** What a path reads. */
  function Inputs(path: seq<Arc>): string {
    if path == [] then [] else (if path[0].input.Some? then [path[0].input.value] else []) + Inputs(path[1..])
  }

  /** One arc reads exactly the query between what its endpoints have consumed. */
  lemma {:induction false} ArcReads(cfg: Config, node: Trie, s: AutomatonState, arc: Arc)
    requires arc in Arcs(cfg, node, s) && Consumed(s) <= |cfg.query|
    ensures Consumed(s) <= Consumed(arc.target) <= |cfg.query|
    ensures cfg.query[Consumed(s)..Consumed(arc.target)] == if arc.input.Some? then [arc.input.value] else []
  {
    hide Arcs, ArcsStaying, Starts, EdgeArc;
    if s.Normal? {
      var e := NormalArc(cfg, node, s.pos, s.cost, arc);
      if arc.move.Stay? {
        StayReads(cfg, s, arc);
      } else {
        EdgeReads(cfg, node, s.pos, s.cost, arc.move.edge, e);
      }
    } else {
      SecondReads(cfg, node, s, arc);
    }
  }

  lemma {:induction false} StayReads(cfg: Config, s: AutomatonState, arc: Arc)
    requires arc in ArcsStaying(cfg, s)
    ensures Consumed(s) <= Consumed(arc.target) <= |cfg.query|
    ensures cfg.query[Consumed(s)..Consumed(arc.target)] == if arc.input.Some? then [arc.input.value] else []
  {
  }

  lemma {:induction false} EdgeReads(cfg: Config, node: Trie, pos: nat, cost: nat, i: nat, e: Edit)
    requires i < |node.edges| && Starts(cfg, node, pos, cost, i, e) && pos <= |cfg.query|
    ensures var arc := EdgeArc(cfg, node, pos, cost, i, e);
            && pos <= Consumed(arc.target) <= |cfg.query|
            && cfg.query[pos..Consumed(arc.target)] == if arc.input.Some? then [arc.input.value] else []
  {
  }

  lemma {:induction false} SecondReads(cfg: Config, node: Trie, s: AutomatonState, arc: Arc)
    requires arc in Arcs(cfg, node, s) && !s.Normal? && Consumed(s) <= |cfg.query|
    ensures Consumed(s) <= Consumed(arc.target) <= |cfg.query|
    ensures cfg.query[Consumed(s)..Consumed(arc.target)] == if arc.input.Some? then [arc.input.value] else []
  {
    hide ArcsUpTo;
    ArcsMember(cfg, node, s, |node.edges|, arc);
  }

  /** The input side of an accepting path spells the query up to the point where the rest of it is deleted. */
  lemma {:induction false} InputsSpellQuery(cfg: Config, node: Trie, s: AutomatonState, path: seq<Arc>, term: string,
                                            weight: nat)
    requires Accepts(cfg, node, s, path, term, weight) && Consumed(s) <= |cfg.query|
    ensures Inputs(path) <= cfg.query[Consumed(s)..]
    decreases |path|
  {
    hide Arcs, FinalWeight;
    if path != [] {
      var arc := path[0];
      ArcReads(cfg, node, s, arc);
      InputsSpellQuery(cfg, Next(node, arc.move), arc.target, path[1..], if arc.output.Some? then term[1..] else term,
                       weight - arc.weight);
      hide Accepts;
      var read, rest := cfg.query[Consumed(s)..Consumed(arc.target)], cfg.query[Consumed(arc.target)..];
      assert cfg.query[Consumed(s)..] == read + rest;
      assert Inputs(path) == read + Inputs(path[1..]);
      PrefixAfter(read, Inputs(path[1..]), rest);
    }
  }

  /** `edits` align what is left to read and to write after the second half of the edit that `s` has begun. */
  ghost predicate Finishes(cfg: Config, s: AutomatonState, edits: seq<Edit>, u: string, term: string, cost: nat) {
    match s
    case Normal(_, _) => Aligns(edits, u, term, cfg.algorithm, cost)
    case TransposeSecond(p, _) =>
      && u != [] && term != [] && p < |cfg.query| && term[0] == cfg.query[p]
      && Aligns(edits, u[1..], term[1..], cfg.algorithm, cost)
    case MergeSecond(_, _) => u != [] && Aligns(edits, u[1..], term, cfg.algorithm, cost)
    case SplitSecond(_, _) => term != [] && Aligns(edits, u, term[1..], cfg.algorithm, cost)
  }

  /** Path to alignment: an accepting path aligns what it reads with what it writes; then the rest is deleted. */
  lemma {:induction false} PathAligns(cfg: Config, node: Trie, s: AutomatonState, path: seq<Arc>, term: string,
                                      weight: nat)
    returns (edits: seq<Edit>)
    requires Accepts(cfg, node, s, path, term, weight) && Consumed(s) <= |cfg.query|
    ensures Inputs(path) <= cfg.query[Consumed(s)..]
    ensures var rest := |cfg.query| - Consumed(s) - |Inputs(path)|;
            rest <= weight && Finishes(cfg, s, edits, Inputs(path), term, weight - rest)
    decreases |path|
  {
    hide *;
    InputsSpellQuery(cfg, node, s, path, term, weight);
    if path == [] {
      edits := [];
      NothingLeft(cfg, node, s, term, weight);
    } else {
      var arc := path[0];
      AcceptsParts(cfg, node, s, path, term, weight);
      var left := if arc.output.Some? then term[1..] else term;
      ArcReads(cfg, node, s, arc);
      var later := PathAligns(cfg, Next(node, arc.move), arc.target, path[1..], left, weight - arc.weight);
      InputsFirst(arc, path[1..]);
      assert path == [arc] + path[1..];
      var read := if arc.input.Some? then [arc.input.value] else [];
      assert |read| == Consumed(arc.target) - Consumed(s);
      var rest := |cfg.query| - Consumed(s) - |Inputs(path)|;
      edits := ArcFinishes(cfg, node, s, arc, later, Inputs(path), Inputs(path[1..]), term, weight - arc.weight - rest);
    }
  }

  lemma AcceptsParts(cfg: Config, node: Trie, s: AutomatonState, path: seq<Arc>, term: string, weight: nat)
    requires Accepts(cfg, node, s, path, term, weight) && path != []
    ensures var arc := path[0];
            && arc in Arcs(cfg, node, s) && arc.weight <= weight
            && (arc.move.Descend? ==> arc.move.edge < |node.edges|)
            && (arc.output.Some? ==> term != [] && term[0] == arc.output.value)
            && Accepts(cfg, Next(node, arc.move), arc.target, path[1..], if arc.output.Some? then term[1..] else term,
                       weight - arc.weight)
  {
    hide Arcs;
  }

  /** One arc, followed by what its target has to finish. */
  lemma {:induction false} ArcFinishes(cfg: Config, node: Trie, s: AutomatonState, arc: Arc, edits: seq<Edit>,
                                       u: string, v: string, term: string, cost: nat)
    returns (all: seq<Edit>)
    requires arc in Arcs(cfg, node, s) && Consumed(s) <= |cfg.query| && u <= cfg.query[Consumed(s)..]
    requires arc.output.Some? ==> term != [] && term[0] == arc.output.value
    requires u == (if arc.input.Some? then [arc.input.value] else []) + v
    requires Finishes(cfg, arc.target, edits, v, if arc.output.Some? then term[1..] else term, cost)
    ensures Finishes(cfg, s, all, u, term, cost + arc.weight)
  {
    hide Arcs, Finishes;
    if s.Normal? {
      all := StartFinishes(cfg, node, s.pos, s.cost, arc, edits, u, v, term, cost);
    } else {
      all := edits;
      SecondFinishes(cfg, node, s, arc, edits, u, v, term, cost + arc.weight);
    }
  }

  lemma {:induction false} NothingLeft(cfg: Config, node: Trie, s: AutomatonState, term: string, weight: nat)
    requires Accepts(cfg, node, s, [], term, weight)
    ensures s.Normal? && s.pos <= |cfg.query| && weight == |cfg.query| - s.pos && Finishes(cfg, s, [], [], term, 0)
    ensures Consumed(s) == s.pos && Inputs([]) == []
  {
  }

  /** An arc of a normal state, followed by the rest of its edit and the edits after it. */
  lemma {:induction false} StartFinishes(cfg: Config, node: Trie, p: nat, c: nat, arc: Arc, edits: seq<Edit>, u: string,
                                         v: string, term: string, cost: nat)
    returns (all: seq<Edit>)
    requires arc in Arcs(cfg, node, Normal(p, c)) && p <= |cfg.query| && u <= cfg.query[p..]
    requires arc.output.Some? ==> term != [] && term[0] == arc.output.value
    requires u == (if arc.input.Some? then [arc.input.value] else []) + v
    requires Finishes(cfg, arc.target, edits, v, if arc.output.Some? then term[1..] else term, cost)
    ensures Finishes(cfg, Normal(p, c), all, u, term, cost + arc.weight)
  {
    hide Arcs, Finishes, Aligns;
    var e := NormalArc(cfg, node, p, c, arc);
    assert arc.move.Stay? ==> arc.output == None;
    hide *;
    all := [e] + edits;
    if arc.move.Stay? {
      DeleteFinishes(cfg, p, c, arc, edits, u, v, term, cost);
    } else {
      EditFinishes(cfg, node, p, c, arc.move.edge, e, edits, u, v, term, cost);
    }
  }

  lemma DeleteFinishes(cfg: Config, p: nat, c: nat, arc: Arc, edits: seq<Edit>, u: string, v: string, term: string,
                       cost: nat)
    requires arc in ArcsStaying(cfg, Normal(p, c)) && u == (if arc.input.Some? then [arc.input.value] else []) + v
    requires Finishes(cfg, arc.target, edits, v, term, cost)
    ensures Finishes(cfg, Normal(p, c), [Delete] + edits, u, term, cost + arc.weight)
  {
    hide Aligns;
    assert u[1..] == v && term[0..] == term;
    AlignsFirst(Delete, edits, u, term, cfg.algorithm, cost);
  }

  lemma EditFinishes(cfg: Config, node: Trie, p: nat, c: nat, i: nat, e: Edit, edits: seq<Edit>, u: string, v: string,
                     term: string, cost: nat)
    requires i < |node.edges| && Starts(cfg, node, p, c, i, e) && p <= |cfg.query| && u <= cfg.query[p..]
    requires term != [] && term[0] == node.edges[i].symbol
    requires var input := EdgeArc(cfg, node, p, c, i, e).input; u == (if input.Some? then [input.value] else []) + v
    requires Finishes(cfg, Target(p, c, e), edits, v, term[1..], cost)
    ensures Finishes(cfg, Normal(p, c), [e] + edits, u, term, cost + EditCost(e))
  {
    hide Aligns, Find;
    assert forall k :: 0 <= k < |u| ==> u[k] == cfg.query[p..][k] == cfg.query[p + k];
    assert [] + v == v && term[0..] == term && term[1..][0..] == term[1..];
    assert u != [] ==> u[0..] == u;
    if e == Transpose || e == Split { assert term[1..][1..] == term[2..] && term[1..][0] == term[1]; }
    if e == Transpose || e == Merge { assert u[1..] == v && v[1..] == u[2..] && v[0] == u[1]; }
    assert Applies(e, u, term, cfg.algorithm);
    AlignsFirst(e, edits, u, term, cfg.algorithm, cost);
  }

  lemma {:induction false} AlignsFirst(e: Edit, edits: seq<Edit>, u: string, term: string, a: Algorithm, cost: nat)
    requires Applies(e, u, term, a) && Aligns(edits, u[TakesQuery(e)..], term[TakesTerm(e)..], a, cost)
    ensures Aligns([e] + edits, u, term, a, cost + EditCost(e))
  {
    assert ([e] + edits)[1..] == edits;
  }

  /** The second arc of an edit. */
  lemma {:induction false} SecondFinishes(cfg: Config, node: Trie, s: AutomatonState, arc: Arc, edits: seq<Edit>,
                                          u: string, v: string, term: string, cost: nat)
    requires arc in Arcs(cfg, node, s) && !s.Normal? && cost >= arc.weight
    requires arc.output.Some? ==> term != [] && term[0] == arc.output.value
    requires u == (if arc.input.Some? then [arc.input.value] else []) + v
    requires Finishes(cfg, arc.target, edits, v, if arc.output.Some? then term[1..] else term, cost - arc.weight)
    ensures Finishes(cfg, s, edits, u, term, cost)
  {
    hide Aligns, ArcsUpTo;
    ArcsMember(cfg, node, s, |node.edges|, arc);
    assert [] + v == v && (u != v ==> u[1..] == v);
  }

  /** Some accepting path from the start state reads `u` and writes `term` at total weight `weight`. */
  ghost predicate HasPathOver(cfg: Config, root: Trie, u: string, term: string, weight: nat) {
    exists path :: Accepts(cfg, root, Normal(0, 0), path, term, weight) && Inputs(path) == u
  }

  /**
   The relation of the graph: an accepting path reads `u` and writes `term` exactly if `u` is a prefix of the query,
   `term` is in the dictionary, and the weight is that of aligning them and deleting the rest of the query, within the
   bound.
   */
  lemma {:induction false} PathsAreAlignments(cfg: Config, root: Trie, u: string, term: string, weight: nat)
    requires WellFormed(root)
    ensures HasPathOver(cfg, root, u, term, weight) <==>
              && u <= cfg.query && Contains(root, term) && |cfg.query| - |u| <= weight <= cfg.maxDistance
              && CanAlign(u, term, cfg.algorithm, weight - (|cfg.query| - |u|))
  {
    hide Accepts, Aligns, Contains, WellFormed, Inputs;
    assert cfg.query[0..] == cfg.query;
    if HasPathOver(cfg, root, u, term, weight) {
      var path :| Accepts(cfg, root, Normal(0, 0), path, term, weight) && Inputs(path) == u;
      PathOwes(cfg, root, Normal(0, 0), path, term, weight);
      var edits := PathAligns(cfg, root, Normal(0, 0), path, term, weight);
      assert Aligns(edits, u, term, cfg.algorithm, weight - (|cfg.query| - |u|));
    }
    if && u <= cfg.query && Contains(root, term) && |cfg.query| - |u| <= weight <= cfg.maxDistance
       && CanAlign(u, term, cfg.algorithm, weight - (|cfg.query| - |u|)) {
      var cost := weight - (|cfg.query| - |u|);
      var edits :| Aligns(edits, u, term, cfg.algorithm, cost);
      var path := PathOfAlignment(cfg, root, 0, 0, edits, u, term, cost);
    }
  }

  lemma PrefixAfter(a: string, u: string, v: string)
    requires u <= v
    ensures a + u <= a + v
  {
    assert a + v == (a + u) + v[|u|..];
  }
}
