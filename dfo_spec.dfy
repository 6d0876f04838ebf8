/**
 * The depth-first search of src/graph/DFO.java as functions on values: the
 * `marked` symbol table (keys beside booleans) and the vertices handed to
 * `operation`, in call order. Reachability is stated through paths of the
 * graph; the lemmas show that one run hands every vertex reachable from the
 * first vertex to `operation` exactly once, and no other vertex.
 */
module DfoSpec {
  import opened Wrappers
  import opened Lists
  import opened SymbolTables
  import opened GraphSpec

  /** The `marked` table of a search and the vertices passed to `operation` so far. */
  datatype Search<V> = Search(keys: seq<V>, marks: seq<bool>, order: seq<V>)

  predicate Table<V>(s: Search<V>) {
    |s.keys| == |s.marks|
  }

  /** How many entries of the table are still `false`. */
  function Unmarked<V>(s: Search<V>): nat {
    Count(s.marks, false)
  }

  /** `marked.get(v) == false`. */
  predicate Fresh<V(==)>(s: Search<V>, v: V)
    requires Table(s)
  {
    v in s.keys && !s.marks[IndexOf(s.keys, v)]
  }

  /** `marked.get(v)` answers true. */
  predicate Marked<V(==)>(s: Search<V>, v: V)
    requires Table(s)
  {
    v in s.keys && s.marks[IndexOf(s.keys, v)]
  }

  /** Every vertex of the graph has an entry in the table. */
  predicate Covers<V(==)>(g: GraphState<V>, s: Search<V>) {
    forall u :: u in g.keys ==> u in s.keys
  }

  /**
   * The first lines of `dfs`: the first entry for `v` is removed, `(v, true)`
   * is appended, and `operation(v)` runs.
   */
  function Mark<V(==)>(s: Search<V>, v: V): (r: Search<V>)
    requires Table(s) && v in s.keys
    ensures Table(r) && r.order == s.order + [v]
    ensures forall u :: u in s.keys ==> u in r.keys
    ensures Unmarked(r) == Unmarked(s) - (if Fresh(s, v) then 1 else 0)
  {
    var i := IndexOf(s.keys, v);
    DeleteMultiset(s.marks, i);
    DeleteKeeps(s.keys, i);
    Search(Delete(s.keys, i) + [v], Delete(s.marks, i) + [true], s.order + [v])
  }

  /** `dfs(g, v)`, called only on a vertex whose entry reads false. */
  function Visit<V(==)>(g: GraphState<V>, s: Search<V>, v: V): (r: Search<V>)
    requires WellFormed(g) && Closed(g) && Table(s) && Covers(g, s)
    requires v in g.keys && Fresh(s, v)
    ensures Table(r) && Covers(g, r) && Unmarked(r) < Unmarked(s)
    decreases Unmarked(s), 0
  {
    VisitAll(g, Mark(s, v), Adj(g, v))
  }

  /** The loop of `dfs` over `ns`: each entry still reading false is searched from. */
  function VisitAll<V(==)>(g: GraphState<V>, s: Search<V>, ns: seq<V>): (r: Search<V>)
    requires WellFormed(g) && Closed(g) && Table(s) && Covers(g, s)
    requires forall u :: u in ns ==> u in g.keys
    ensures Table(r) && Covers(g, r) && Unmarked(r) <= Unmarked(s)
    decreases Unmarked(s), |ns| + 1
  {
    if ns == [] then s
    else
      var s1 := if Fresh(s, ns[0]) then Visit(g, s, ns[0]) else s;
      VisitAll(g, s1, ns[1..])
  }

  /** The table `run` builds before searching: every vertex, in order, beside false. */
  function Unvisited<V>(g: GraphState<V>): (r: Search<V>)
    ensures Table(r) && r.keys == g.keys && r.order == []
    ensures forall i :: 0 <= i < |r.marks| ==> !r.marks[i]
  {
    Search(g.keys, seq(|g.keys|, _ => false), [])
  }

  /**
   * `run()`: a fresh table, then a search from the first vertex; an empty
   * graph makes `getVertices().get(0)` throw.
   */
  function Traverse<V(==)>(g: GraphState<V>): (r: Outcome<Search<V>>)
    requires WellFormed(g) && Closed(g)
    ensures r.Throw? <==> g.keys == []
    ensures r.Throw? ==> r.error == IndexOutOfBounds
  {
    if g.keys == [] then Throw(IndexOutOfBounds)
    else
      var s := Unvisited(g);
      assert Fresh(s, g.keys[0]) by {
        IndexOfUnique(g.keys, g.keys[0], 0);
      }
      Return(Visit(g, s, g.keys[0]))
  }

  /** A walk along adjacency lists, given by positions in the key list. */
  ghost predicate Path<V>(g: GraphState<V>, p: seq<int>)
    requires WellFormed(g)
  {
    && |p| > 0
    && (forall i :: 0 <= i < |p| ==> 0 <= p[i] < |g.keys|)
    && (forall i :: 0 < i < |p| ==> g.keys[p[i]] in Adj(g, g.keys[p[i - 1]]))
  }

  ghost predicate Reachable<V>(g: GraphState<V>, a: V, b: V)
    requires WellFormed(g)
  {
    exists p :: Path(g, p) && g.keys[p[0]] == a && g.keys[p[|p| - 1]] == b
  }

  lemma ReachableSelf<V>(g: GraphState<V>, a: V)
    requires WellFormed(g) && a in g.keys
    ensures Reachable(g, a, a)
  {
    assert Path(g, [IndexOf(g.keys, a)]);
  }

  lemma ReachableStep<V>(g: GraphState<V>, a: V, b: V, c: V)
    requires WellFormed(g) && Reachable(g, a, b) && b in g.keys && c in Adj(g, b) && c in g.keys
    ensures Reachable(g, a, c)
  {
    var p :| Path(g, p) && g.keys[p[0]] == a && g.keys[p[|p| - 1]] == b;
    var q := p + [IndexOf(g.keys, c)];
    assert forall i :: 0 <= i < |p| ==> q[i] == p[i];
    assert g.keys[q[|p| - 1]] == b;
    assert Path(g, q);
  }

  /** A set holding `a` and closed under adjacency holds everything reachable from `a`. */
  lemma ReachableInClosedSet<V>(g: GraphState<V>, a: V, b: V, m: set<V>)
    requires WellFormed(g) && a in m
    requires forall u, w :: u in m && u in g.keys && w in Adj(g, u) ==> w in m
    requires Reachable(g, a, b)
    ensures b in m
  {
    var p :| Path(g, p) && g.keys[p[0]] == a && g.keys[p[|p| - 1]] == b;
    var i := 0;
    while i < |p| - 1
      invariant 0 <= i < |p| && g.keys[p[i]] in m
    {
      assert g.keys[p[i + 1]] in Adj(g, g.keys[p[i]]);
      i := i + 1;
    }
  }

  /** With distinct keys, marking `v` changes the answer for `v` alone, to true. */
  lemma MarkLookup<V>(s: Search<V>, v: V, u: V)
    requires Table(s) && v in s.keys && Distinct(s.keys)
    ensures Distinct(Mark(s, v).keys)
    ensures Marked(Mark(s, v), u) <==> u == v || Marked(s, u)
    ensures Fresh(Mark(s, v), u) <==> u != v && Fresh(s, u)
  {
    var i := IndexOf(s.keys, v);
    var ks := Delete(s.keys, i);
    assert v !in ks by {
      forall j | 0 <= j < |ks| ensures ks[j] != v {
        if j < i { assert ks[j] == s.keys[j]; } else { assert ks[j] == s.keys[j + 1]; }
      }
    }
    assert Distinct(ks + [v]) by {
      forall j, k | 0 <= j < k < |ks| ensures ks[j] != ks[k] {
        var j', k' := if j < i then j else j + 1, if k < i then k else k + 1;
        assert ks[j] == s.keys[j'] && ks[k] == s.keys[k'];
      }
    }
    LookupAfterRemove(s.keys, s.marks, v, u);
    LookupAfterAdd(ks, Delete(s.marks, i), v, true, u);
    if u == v {
      RestAfterFirst(s.keys, v);
    }
  }

  /** With distinct keys nothing after the first `v` is `v`. */
  lemma RestAfterFirst<V>(keys: seq<V>, v: V)
    requires v in keys && Distinct(keys)
    ensures v !in keys[IndexOf(keys, v) + 1..]
  {
    var i := IndexOf(keys, v);
    forall j | i + 1 <= j < |keys| ensures keys[j] != v {
      assert keys[i] == v;
    }
  }

  /** The invariant of a search over distinct keys: the table is a set of keys and `operation` ran on the marked ones, once each. */
  ghost predicate Consistent<V>(g: GraphState<V>, s: Search<V>) {
    && Table(s) && Distinct(s.keys) && Covers(g, s)
    && Distinct(s.order)
    && (forall u :: u in s.order ==> Marked(s, u))
    && (forall u :: u in s.keys && Marked(s, u) ==> u in s.order)
  }

  /**
   * One `dfs(g, v)` keeps the search consistent, marks `v`, unmarks
   * nothing, and only appends to the calls of `operation`.
   */
  lemma {:induction false} VisitKeeps<V>(g: GraphState<V>, s: Search<V>, v: V)
    requires WellFormed(g) && Closed(g) && Consistent(g, s) && v in g.keys && Fresh(s, v)
    ensures var r := Visit(g, s, v);
      && Consistent(g, r) && Marked(r, v) && s.order <= r.order
      && (forall u :: Marked(s, u) ==> Marked(r, u))
    decreases Unmarked(s), 0
  {
    var s1 := Mark(s, v);
    forall u ensures (Marked(s1, u) <==> u == v || Marked(s, u)) && (Fresh(s1, u) <==> u != v && Fresh(s, u)) {
      MarkLookup(s, v, u);
    }
    assert Consistent(g, s1) by {
      MarkLookup(s, v, v);
      assert v !in s.order;
    }
    VisitAllKeeps(g, s1, Adj(g, v));
  }

  lemma {:induction false} VisitAllKeeps<V>(g: GraphState<V>, s: Search<V>, ns: seq<V>)
    requires WellFormed(g) && Closed(g) && Consistent(g, s) && forall u :: u in ns ==> u in g.keys
    ensures var r := VisitAll(g, s, ns);
      && Consistent(g, r) && s.order <= r.order
      && (forall u :: Marked(s, u) ==> Marked(r, u))
      && (forall u :: u in ns ==> Marked(r, u))
    decreases Unmarked(s), |ns| + 1
  {
    if ns != [] {
      var s1 := if Fresh(s, ns[0]) then Visit(g, s, ns[0]) else s;
      if Fresh(s, ns[0]) {
        VisitKeeps(g, s, ns[0]);
      }
      VisitAllKeeps(g, s1, ns[1..]);
      assert forall u :: u in ns ==> u == ns[0] || u in ns[1..];
    }
  }

  /** Every vertex `dfs(g, v)` newly marks is reachable from `root` when `v` is. */
  lemma {:induction false} VisitSound<V>(g: GraphState<V>, s: Search<V>, v: V, root: V)
    requires WellFormed(g) && Closed(g) && Consistent(g, s) && v in g.keys && Fresh(s, v)
    requires Reachable(g, root, v)
    ensures forall u :: Marked(Visit(g, s, v), u) && !Marked(s, u) ==> Reachable(g, root, u)
    decreases Unmarked(s), 0
  {
    var s1 := Mark(s, v);
    forall u ensures (Marked(s1, u) <==> u == v || Marked(s, u)) && (Fresh(s1, u) <==> u != v && Fresh(s, u)) {
      MarkLookup(s, v, u);
    }
    assert Consistent(g, s1) by {
      MarkLookup(s, v, v);
      assert v !in s.order;
    }
    forall w | w in Adj(g, v) ensures Reachable(g, root, w) {
      ReachableStep(g, root, v, w);
    }
    VisitAllSound(g, s1, Adj(g, v), root);
  }

  lemma {:induction false} VisitAllSound<V>(g: GraphState<V>, s: Search<V>, ns: seq<V>, root: V)
    requires WellFormed(g) && Closed(g) && Consistent(g, s) && forall u :: u in ns ==> u in g.keys
    requires forall u :: u in ns ==> Reachable(g, root, u)
    ensures forall u :: Marked(VisitAll(g, s, ns), u) && !Marked(s, u) ==> Reachable(g, root, u)
    decreases Unmarked(s), |ns| + 1
  {
    if ns != [] {
      var s1 := if Fresh(s, ns[0]) then Visit(g, s, ns[0]) else s;
      if Fresh(s, ns[0]) {
        VisitKeeps(g, s, ns[0]);
        VisitSound(g, s, ns[0], root);
      }
      VisitAllSound(g, s1, ns[1..], root);
    }
  }

  /** Every vertex `dfs(g, v)` newly marks has all of its list marked by the end. */
  lemma {:induction false} VisitComplete<V>(g: GraphState<V>, s: Search<V>, v: V)
    requires WellFormed(g) && Closed(g) && Consistent(g, s) && v in g.keys && Fresh(s, v)
    ensures forall u, w :: Marked(Visit(g, s, v), u) && !Marked(s, u) && u in g.keys && w in Adj(g, u) ==>
      Marked(Visit(g, s, v), w)
    decreases Unmarked(s), 0
  {
    var s1 := Mark(s, v);
    forall u ensures (Marked(s1, u) <==> u == v || Marked(s, u)) && (Fresh(s1, u) <==> u != v && Fresh(s, u)) {
      MarkLookup(s, v, u);
    }
    assert Consistent(g, s1) by {
      MarkLookup(s, v, v);
      assert v !in s.order;
    }
    VisitAllKeeps(g, s1, Adj(g, v));
    VisitAllComplete(g, s1, Adj(g, v));
  }

  lemma {:induction false} VisitAllComplete<V>(g: GraphState<V>, s: Search<V>, ns: seq<V>)
    requires WellFormed(g) && Closed(g) && Consistent(g, s) && forall u :: u in ns ==> u in g.keys
    ensures forall u, w :: Marked(VisitAll(g, s, ns), u) && !Marked(s, u) && u in g.keys && w in Adj(g, u) ==>
      Marked(VisitAll(g, s, ns), w)
    decreases Unmarked(s), |ns| + 1
  {
    if ns != [] {
      var s1 := if Fresh(s, ns[0]) then Visit(g, s, ns[0]) else s;
      if Fresh(s, ns[0]) {
        VisitKeeps(g, s, ns[0]);
        VisitComplete(g, s, ns[0]);
      }
      VisitAllKeeps(g, s1, ns[1..]);
      VisitAllComplete(g, s1, ns[1..]);
    }
  }

  /**
   * On a graph with distinct vertices whose lists name only vertices, `run()`
   * hands `operation` the first vertex first, then every vertex reachable from
   * it exactly once, and no other vertex.
   */
  lemma RunVisitsReachable<V>(g: GraphState<V>)
    requires WellFormed(g) && Closed(g) && Distinct(g.keys) && g.keys != []
    ensures var order := Traverse(g).value.order;
      && |order| > 0 && order[0] == g.keys[0]
      && Distinct(order)
      && forall u :: u in order <==> Reachable(g, g.keys[0], u)
  {
    UnvisitedConsistent(g);
    SearchFromScratch(g, Unvisited(g), g.keys[0]);
  }

  /** A search from `a` over a table with nothing marked yet. */
  lemma SearchFromScratch<V>(g: GraphState<V>, s: Search<V>, a: V)
    requires WellFormed(g) && Closed(g) && Consistent(g, s) && a in g.keys && Fresh(s, a)
    requires s.order == [] && forall u :: !Marked(s, u)
    ensures var order := Visit(g, s, a).order;
      && |order| > 0 && order[0] == a
      && Distinct(order)
      && forall u :: u in order <==> Reachable(g, a, u)
  {
    var r := Visit(g, s, a);
    assert Consistent(g, r) && Marked(r, a) by {
      VisitKeeps(g, s, a);
    }
    assert forall u :: Marked(r, u) ==> Reachable(g, a, u) by {
      ReachableSelf(g, a);
      VisitSound(g, s, a, a);
    }
    assert forall u :: Reachable(g, a, u) ==> Marked(r, u) by {
      VisitComplete(g, s, a);
      MarkedClosed(g, s, r, a);
    }
    assert [a] <= r.order by {
      VisitAllPrefix(g, Mark(s, a), Adj(g, a));
    }
  }

  /** Before the search nothing reads true, and the table matches the graph's keys. */
  lemma UnvisitedConsistent<V>(g: GraphState<V>)
    requires WellFormed(g) && Distinct(g.keys) && g.keys != []
    ensures Consistent(g, Unvisited(g)) && Fresh(Unvisited(g), g.keys[0])
    ensures forall u :: !Marked(Unvisited(g), u)
  {
    var s := Unvisited(g);
    IndexOfUnique(g.keys, g.keys[0], 0);
    forall u ensures !Marked(s, u) {
      if u in s.keys {
        assert !s.marks[IndexOf(s.keys, u)];
      }
    }
  }

  /**
   * A search that started with nothing marked, ends with `a` marked, and
   * marked every list of a vertex it marked, has marked everything reachable
   * from `a`.
   */
  lemma MarkedClosed<V>(g: GraphState<V>, s: Search<V>, r: Search<V>, a: V)
    requires WellFormed(g) && Table(s) && Table(r) && Marked(r, a) && a in g.keys
    requires forall u :: !Marked(s, u)
    requires forall u, w :: Marked(r, u) && !Marked(s, u) && u in g.keys && w in Adj(g, u) ==> Marked(r, w)
    ensures forall u :: Reachable(g, a, u) ==> Marked(r, u)
  {
    var m := set u | u in r.keys && Marked(r, u);
    forall u, w | u in m && u in g.keys && w in Adj(g, u) ensures w in m {
      assert !Marked(s, u);
      assert Marked(r, w);
    }
    forall u | Reachable(g, a, u) ensures Marked(r, u) {
      ReachableInClosedSet(g, a, u, m);
    }
  }

  /** The loop of `dfs` only appends to the calls of `operation`. */
  lemma {:induction false} VisitAllPrefix<V>(g: GraphState<V>, s: Search<V>, ns: seq<V>)
    requires WellFormed(g) && Closed(g) && Table(s) && Covers(g, s) && forall u :: u in ns ==> u in g.keys
    ensures s.order <= VisitAll(g, s, ns).order
    decreases Unmarked(s), |ns| + 1
  {
    if ns != [] {
      var s1 := if Fresh(s, ns[0]) then Visit(g, s, ns[0]) else s;
      if Fresh(s, ns[0]) {
        var s0 := Mark(s, ns[0]);
        VisitAllPrefix(g, s0, Adj(g, ns[0]));
      }
      VisitAllPrefix(g, s1, ns[1..]);
    }
  }

  /** `dfs` hands `operation` only vertices of the graph. */
  lemma {:induction false} VisitInKeys<V>(g: GraphState<V>, s: Search<V>, v: V)
    requires WellFormed(g) && Closed(g) && Table(s) && Covers(g, s) && v in g.keys && Fresh(s, v)
    requires forall u :: u in s.order ==> u in g.keys
    ensures forall u :: u in Visit(g, s, v).order ==> u in g.keys
    decreases Unmarked(s), 0
  {
    VisitAllInKeys(g, Mark(s, v), Adj(g, v));
  }

  lemma {:induction false} VisitAllInKeys<V>(g: GraphState<V>, s: Search<V>, ns: seq<V>)
    requires WellFormed(g) && Closed(g) && Table(s) && Covers(g, s) && forall u :: u in ns ==> u in g.keys
    requires forall u :: u in s.order ==> u in g.keys
    ensures forall u :: u in VisitAll(g, s, ns).order ==> u in g.keys
    decreases Unmarked(s), |ns| + 1
  {
    if ns != [] {
      var s1 := if Fresh(s, ns[0]) then Visit(g, s, ns[0]) else s;
      if Fresh(s, ns[0]) {
        VisitInKeys(g, s, ns[0]);
      }
      VisitAllInKeys(g, s1, ns[1..]);
    }
  }

  /**
   * `run()` hands `operation` vertices of the graph only; when the vertices
   * are distinct, each vertex reachable from the first one exactly once and
   * every other vertex never.
   */
  lemma TraverseCount<V>(g: GraphState<V>, u: V)
    requires WellFormed(g) && Closed(g) && g.keys != []
    ensures forall w :: w in Traverse(g).value.order ==> w in g.keys
    ensures Distinct(g.keys) ==> Count(Traverse(g).value.order, u) == if Reachable(g, g.keys[0], u) then 1 else 0
  {
    var s := Unvisited(g);
    IndexOfUnique(g.keys, g.keys[0], 0);
    VisitInKeys(g, s, g.keys[0]);
    if Distinct(g.keys) {
      RunVisitsReachable(g);
      DistinctCount(Traverse(g).value.order, u);
    }
  }
}
