/** The dictionary as a finite trie: each node has a finality flag and labelled edges to its children. */
module Dictionary {
  import opened Common

  datatype Trie = Node(isFinal: bool, edges: seq<Edge>)

  datatype Edge = Edge(symbol: char, child: Trie)

  /** Every node has at most one edge for a label. */
  ghost predicate WellFormed(t: Trie) {
    && (forall i, j :: 0 <= i < j < |t.edges| ==> t.edges[i].symbol != t.edges[j].symbol)
    && (forall i :: 0 <= i < |t.edges| ==> WellFormed(t.edges[i].child))
  }

  /** Index of the first edge labelled `c`. */
  function Find(edges: seq<Edge>, c: char): (r: Option<nat>)
    ensures r.Some? ==> r.value < |edges| && edges[r.value].symbol == c
    ensures r.None? <==> forall i :: 0 <= i < |edges| ==> edges[i].symbol != c
  {
    if edges == [] then None
    else if edges[0].symbol == c then Some(0)
    else match Find(edges[1..], c)
      case None => None
      case Some(i) => assert edges[1..][i] == edges[i + 1]; Some(i + 1)
  }

  /** The node reached from `t` by spelling `w`. */
  function Walk(t: Trie, w: string): Option<Trie>
    decreases |w|
  {
    if w == [] then Some(t)
    else match Find(t.edges, w[0])
      case None => None
      case Some(i) => Walk(t.edges[i].child, w[1..])
  }

  /** `w` is a term of the dictionary rooted at `t`. */
  predicate Contains(t: Trie, w: string) {
    Walk(t, w).Some? && Walk(t, w).value.isFinal
  }

  lemma {:induction false} WalkAppend(t: Trie, u: string, v: string)
    ensures Walk(t, u + v) == if Walk(t, u).None? then None else Walk(Walk(t, u).value, v)
    decreases |u|
  {
    if u == [] {
      assert u + v == v;
    } else {
      assert (u + v)[1..] == u[1..] + v;
      match Find(t.edges, u[0])
      case None =>
      case Some(i) => WalkAppend(t.edges[i].child, u[1..], v);
    }
  }

  /** In a well-formed node, following edge `i` is walking its label. */
  lemma {:induction false} FindEdge(t: Trie, i: nat)
    requires WellFormed(t) && i < |t.edges|
    ensures Find(t.edges, t.edges[i].symbol) == Some(i)
  {
    var r := Find(t.edges, t.edges[i].symbol);
    assert r.Some?;
    assert t.edges[r.value].symbol == t.edges[i].symbol;
  }

  lemma {:induction false} WalkEdge(root: Trie, path: string, t: Trie, i: nat)
    requires WellFormed(t) && i < |t.edges| && Walk(root, path) == Some(t)
    ensures Walk(root, path + [t.edges[i].symbol]) == Some(t.edges[i].child)
  {
    var c := t.edges[i].symbol;
    FindEdge(t, i);
    WalkAppend(root, path, [c]);
    assert Walk(t, [c]) == Walk(t.edges[i].child, [c][1..]);
  }

  lemma {:induction false} WalkWellFormed(t: Trie, w: string)
    requires WellFormed(t) && Walk(t, w).Some?
    ensures WellFormed(Walk(t, w).value)
    decreases |w|
  {
    if w != [] {
      WalkWellFormed(t.edges[Find(t.edges, w[0]).value].child, w[1..]);
    }
  }

  /** All walkable label sequences of a trie. */
  function Paths(t: Trie): (r: set<string>)
    ensures [] in r
    decreases t, |t.edges| + 1
  {
    {[]} + PathsFrom(t, |t.edges|)
  }

  function Prepend(c: char, w: string): string { [c] + w }

  function PrependAll(c: char, ws: set<string>): set<string> { set w | w in ws :: Prepend(c, w) }

  function PathsFrom(t: Trie, n: nat): set<string>
    requires n <= |t.edges|
    decreases t, n
  {
    if n == 0 then {}
    else PathsFrom(t, n - 1) + PrependAll(t.edges[n - 1].symbol, Paths(t.edges[n - 1].child))
  }

  lemma {:induction false} WalkInPaths(t: Trie, w: string)
    requires Walk(t, w).Some?
    ensures w in Paths(t)
    decreases |w|
  {
    if w != [] {
      var i := Find(t.edges, w[0]).value;
      WalkInPaths(t.edges[i].child, w[1..]);
      assert w == Prepend(t.edges[i].symbol, w[1..]);
      PathsFromContains(t, |t.edges|, i, w[1..]);
    }
  }

  lemma {:induction false} PathsFromContains(t: Trie, n: nat, i: nat, w: string)
    requires i < n <= |t.edges| && w in Paths(t.edges[i].child)
    ensures Prepend(t.edges[i].symbol, w) in PathsFrom(t, n)
    decreases n
  {
    if i < n - 1 {
      PathsFromContains(t, n - 1, i, w);
    }
  }
}
