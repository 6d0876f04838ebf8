/**
 * The state of an undirected graph (src/graph/Graph.java) as a value: the
 * vertex keys of its symbol table, the adjacency list stored beside each key,
 * and the edge counter. Each Graph operation is a function from one state to
 * the next; the Graph class is proved to follow these functions.
 */
module GraphSpec {
  import opened Lists
  import opened Wrappers
  import opened SymbolTables

  datatype GraphState<V> = GraphState(keys: seq<V>, lists: seq<seq<V>>, edges: int)

  predicate WellFormed<V>(g: GraphState<V>) {
    |g.keys| == |g.lists|
  }

  /** `getAdj(v)`: the list stored beside the first key equal to `v`. */
  function Adj<V(==)>(g: GraphState<V>, v: V): seq<V>
    requires WellFormed(g) && v in g.keys
  {
    g.lists[IndexOf(g.keys, v)]
  }

  /** `getAdj(v)` reads the symbol table: it is the table's lookup of `v`. */
  lemma AdjIsLookup<V>(g: GraphState<V>, v: V)
    requires WellFormed(g)
    ensures Lookup(g.keys, g.lists, v) == if v in g.keys then Some(Adj(g, v)) else None
  {
  }

  /** `getAdj(a).add(b)`: `b` is appended to the list of `a`. */
  function Link<V(==)>(g: GraphState<V>, a: V, b: V): (r: GraphState<V>)
    requires WellFormed(g) && a in g.keys
    ensures WellFormed(r) && r.keys == g.keys && r.edges == g.edges
    ensures Adj(r, a) == Adj(g, a) + [b]
    ensures forall w {:trigger Adj(r, w)} :: w in g.keys && w != a ==> Adj(r, w) == Adj(g, w)
  {
    g.(lists := g.lists[IndexOf(g.keys, a) := Adj(g, a) + [b]])
  }

  /** `getAdj(a).remove(b)`: the first `b`, if any, leaves the list of `a`. */
  function Unlink<V(==)>(g: GraphState<V>, a: V, b: V): (r: GraphState<V>)
    requires WellFormed(g) && a in g.keys
    ensures WellFormed(r) && r.keys == g.keys && r.edges == g.edges
    ensures Adj(r, a) == RemoveFirst(Adj(g, a), b)
    ensures forall w {:trigger Adj(r, w)} :: w in g.keys && w != a ==> Adj(r, w) == Adj(g, w)
  {
    g.(lists := g.lists[IndexOf(g.keys, a) := RemoveFirst(Adj(g, a), b)])
  }

  predicate HasVertex<V(==)>(g: GraphState<V>, v: V) {
    v in g.keys
  }

  /** `containsE(a, b)`: both are vertices and `b` is in the list of `a`. */
  predicate HasEdge<V(==)>(g: GraphState<V>, a: V, b: V)
    requires WellFormed(g)
  {
    a in g.keys && b in g.keys && b in Adj(g, a)
  }

  /** `Graph(V... vertices)`: the given vertices in order, each with an empty list, and no edges. */
  function Isolated<V>(vs: seq<V>): (r: GraphState<V>)
    ensures WellFormed(r) && r.keys == vs && r.edges == 0
    ensures forall j :: 0 <= j < |vs| ==> r.lists[j] == []
  {
    GraphState(vs, seq(|vs|, _ => []), 0)
  }

  /** `addV(v)`: appends `v` with an empty list, whether or not `v` is already a key. */
  function AddVertex<V>(g: GraphState<V>, v: V): (r: GraphState<V>)
    ensures |r.keys| == |g.keys| + 1 && r.edges == g.edges
  {
    GraphState(g.keys + [v], g.lists + [[]], g.edges)
  }

  /** Adding the vertices of `vs` one by one to an empty graph leaves them isolated, in order. */
  lemma IsolatedTake<V>(vs: seq<V>, i: nat)
    requires i < |vs|
    ensures AddVertex(Isolated(vs[..i]), vs[i]) == Isolated(vs[..i + 1])
  {
    assert vs[..i] + [vs[i]] == vs[..i + 1];
    assert Isolated(vs[..i]).lists + [[]] == seq(i + 1, _ => []);
  }

  /**
   * `addE(a, b)`: refused when the edge exists or an endpoint is missing;
   * otherwise `b` is appended to the list of `a`, then `a` to the list of `b`,
   * and the edge counter goes up by one.
   */
  function AddEdge<V(==)>(g: GraphState<V>, a: V, b: V): (r: (GraphState<V>, bool))
    requires WellFormed(g)
    ensures WellFormed(r.0) && r.0.keys == g.keys
    ensures r.1 <==> !HasEdge(g, a, b) && HasVertex(g, a) && HasVertex(g, b)
    ensures !r.1 ==> r.0 == g
    ensures r.1 ==> r.0.edges == g.edges + 1 && HasEdge(r.0, a, b) && HasEdge(r.0, b, a)
  {
    if HasEdge(g, a, b) || !(a in g.keys && b in g.keys) then (g, false)
    else
      var g1 := Link(g.(edges := g.edges + 1), a, b);
      var g2 := Link(g1, b, a);
      assert b in Adj(g2, a) by {
        if a != b { assert Adj(g2, a) == Adj(g1, a); }
        else { assert Adj(g2, a) == Adj(g, a) + [b] + [a]; }
      }
      (g2, true)
  }

  /**
   * `removeE(a, b)`: refused when there is no edge; otherwise the first `b` is
   * removed from the list of `a`, then the first `a` from the list of `b`, and
   * the edge counter goes down by one.
   */
  function RemoveEdge<V(==)>(g: GraphState<V>, a: V, b: V): (r: (GraphState<V>, bool))
    requires WellFormed(g)
    ensures WellFormed(r.0) && r.0.keys == g.keys
    ensures r.1 <==> HasEdge(g, a, b)
    ensures !r.1 ==> r.0 == g
    ensures r.1 ==> r.0.edges == g.edges - 1
  {
    if !HasEdge(g, a, b) then (g, false)
    else (Unlink(Unlink(g.(edges := g.edges - 1), a, b), b, a), true)
  }

  /** Every vertex named in an adjacency list is itself a vertex. */
  ghost predicate Closed<V>(g: GraphState<V>)
    requires WellFormed(g)
  {
    forall a, b {:trigger b in Adj(g, a)} :: a in g.keys && b in Adj(g, a) ==> b in g.keys
  }

  /** Removing a list entry keeps every list naming only vertices. */
  lemma UnlinkClosed<V>(g: GraphState<V>, e: int, a: V, b: V)
    requires WellFormed(g) && Closed(g) && a in g.keys
    ensures Closed(Unlink(g.(edges := e), a, b))
  {
    var r := Unlink(g.(edges := e), a, b);
    forall x, y | x in r.keys && y in Adj(r, x) ensures y in r.keys {
      assert Adj(g.(edges := e), x) == Adj(g, x);
      if x == a {
        RemoveFirstSubset(Adj(g, a), b, y);
      } else {
        assert y in Adj(g, x);
      }
    }
  }

  /**
   * Steps of the loop of `removeV`, given as the entries `ns` it reads: for
   * each entry `w`, one `v` is removed from the list of `w` and the edge
   * counter goes down by one.
   */
  function Detach<V(==)>(g: GraphState<V>, ns: seq<V>, v: V): (r: GraphState<V>)
    requires WellFormed(g) && forall w :: w in ns ==> w in g.keys
    ensures WellFormed(r) && r.keys == g.keys && r.edges == g.edges - |ns|
    decreases |ns|
  {
    if ns == [] then g
    else Detach(Unlink(g.(edges := g.edges - 1), ns[0], v), ns[1..], v)
  }

  /** Drops the first key equal to `v` together with its list. */
  function DeleteKey<V(==)>(g: GraphState<V>, v: V): (r: GraphState<V>)
    requires WellFormed(g) && v in g.keys
    ensures WellFormed(r) && |r.keys| == |g.keys| - 1 && r.edges == g.edges
  {
    var i := IndexOf(g.keys, v);
    GraphState(Delete(g.keys, i), Delete(g.lists, i), g.edges)
  }

  /**
   * The loop `for (V v2 : a)` of `removeV`, over the live list `a` of `v`,
   * from iterator position `cursor`; `dirty` records that `a` itself was
   * changed, which happens when the entry read is `v`. The iterator stops
   * when the position reaches the current size; otherwise a read after a
   * change throws ConcurrentModificationException. The answer is the state
   * reached and whether the loop ended normally.
   */
  function Sweep<V(==)>(g: GraphState<V>, v: V, cursor: nat, dirty: bool): (r: (GraphState<V>, bool))
    requires WellFormed(g) && Closed(g) && v in g.keys
    requires !dirty ==> cursor <= |Adj(g, v)|
    ensures WellFormed(r.0) && Closed(r.0) && r.0.keys == g.keys
    decreases if dirty then 0 else 1 + |Adj(g, v)| - cursor
  {
    if cursor == |Adj(g, v)| then (g, true)
    else if dirty then (g, false)
    else
      var w := Adj(g, v)[cursor];
      assert w in Adj(g, v);
      var g1 := Unlink(g.(edges := g.edges - 1), w, v);
      UnlinkClosed(g, g.edges - 1, w, v);
      Sweep(g1, v, cursor + 1, w == v)
  }

  /** One turn of the loop of `removeV` that does not throw: the entry at the cursor is unlinked. */
  lemma SweepOnce<V>(g: GraphState<V>, v: V, cursor: nat)
    requires WellFormed(g) && Closed(g) && v in g.keys && cursor < |Adj(g, v)|
    ensures Adj(g, v)[cursor] in g.keys
    ensures var w := Adj(g, v)[cursor]; var g1 := Unlink(g.(edges := g.edges - 1), w, v);
      && Closed(g1) && (w != v ==> Adj(g1, v) == Adj(g, v))
      && Sweep(g, v, cursor, false) == Sweep(g1, v, cursor + 1, w == v)
  {
    var w := Adj(g, v)[cursor];
    assert w in Adj(g, v);
    UnlinkClosed(g, g.edges - 1, w, v);
    SweepUnfold(g, v, cursor, w, Unlink(g.(edges := g.edges - 1), w, v));
  }

  /** The definition of `Sweep` at a cursor inside the list, taken one step. */
  lemma SweepUnfold<V>(g: GraphState<V>, v: V, cursor: nat, w: V, g1: GraphState<V>)
    requires WellFormed(g) && Closed(g) && v in g.keys && cursor < |Adj(g, v)|
    requires w == Adj(g, v)[cursor] && w in g.keys && g1 == Unlink(g.(edges := g.edges - 1), w, v)
    requires Closed(g1) && (w != v ==> Adj(g1, v) == Adj(g, v))
    ensures Sweep(g, v, cursor, false) == Sweep(g1, v, cursor + 1, w == v)
  {
  }

  /** How many entries of the list `s` of `v` the loop of `removeV` reads: all, or up to the first `v`. */
  function Reach<V(==)>(s: seq<V>, v: V): (m: nat)
    ensures m <= |s|
  {
    if v in s then IndexOf(s, v) + 1 else |s|
  }

  lemma PrefixIn<T>(s: seq<T>, k: nat)
    requires k <= |s|
    ensures forall u :: u in s[..k] ==> u in s
  {
    forall u | u in s[..k] ensures u in s {
      var i :| 0 <= i < k && s[..k][i] == u;
      assert s[i] == u;
    }
  }

  /** The first `k` entries of the list of `v`; they name vertices. */
  function Upto<V(==)>(g: GraphState<V>, v: V, k: nat): (ns: seq<V>)
    requires WellFormed(g) && Closed(g) && v in g.keys && k <= |Adj(g, v)|
    ensures ns == Adj(g, v)[..k] && forall u :: u in ns ==> u in g.keys
  {
    PrefixIn(Adj(g, v), k);
    Adj(g, v)[..k]
  }

  /** The loop of `removeV` ends normally: the list of `v` holds no `v`, or its first `v` is last but one. */
  predicate Completes<V(==)>(s: seq<V>, v: V) {
    v !in s || IndexOf(s, v) == |s| - 2
  }

  /**
   * `removeV(v)`: false when `v` is not a vertex; otherwise the loop over the
   * list of `v` runs, and if it ends normally the first key `v` is removed
   * with its list and the answer is true. A throw leaves the state the loop
   * had reached.
   */
  function RemoveVertex<V(==)>(g: GraphState<V>, v: V): (r: (GraphState<V>, Outcome<bool>))
    requires WellFormed(g) && Closed(g)
    ensures WellFormed(r.0)
    ensures r.1 == Return(false) <==> !HasVertex(g, v)
    ensures r.1 == Return(false) ==> r.0 == g
    ensures r.1.Throw? ==> r.1.error == ConcurrentModification && r.0.keys == g.keys
    ensures r.1 == Return(true) ==> |r.0.keys| == |g.keys| - 1
  {
    if v !in g.keys then (g, Return(false))
    else
      var (d, done) := Sweep(g, v, 0, false);
      if done then (DeleteKey(d, v), Return(true)) else (d, Throw(ConcurrentModification))
  }

  /** A list stored beside a key that already occurred earlier, which `getAdj` never returns. */
  ghost predicate Shadowed<V>(g: GraphState<V>, j: int) {
    0 <= j < |g.keys| && g.keys[j] in g.keys[..j]
  }

  /** `b` occurs in the list of `a` as often as `a` in the list of `b`. */
  ghost predicate Symmetric<V>(g: GraphState<V>)
    requires WellFormed(g)
  {
    forall a, b {:trigger Count(Adj(g, a), b)} :: a in g.keys && b in g.keys ==>
      Count(Adj(g, a), b) == Count(Adj(g, b), a)
  }

  /** A shadowed list stays empty. */
  ghost predicate ShadowsEmpty<V>(g: GraphState<V>)
    requires WellFormed(g)
  {
    forall j {:trigger Shadowed(g, j)} :: Shadowed(g, j) ==> g.lists[j] == []
  }

  /** A self-loop `addE(a, a)` puts `a` twice into its own list, so a list names its own vertex an even number of times. */
  ghost predicate SelfEven<V>(g: GraphState<V>)
    requires WellFormed(g)
  {
    forall a :: a in g.keys ==> Even(Count(Adj(g, a), a))
  }

  /** Even numbers, counted down two at a time. */
  predicate Even(n: nat)
    decreases n
  {
    if n < 2 then n == 0 else Even(n - 2)
  }

  /** The number of entries in all lists together. */
  function Total<V>(lists: seq<seq<V>>): nat {
    if lists == [] then 0 else |lists[0]| + Total(lists[1..])
  }

  /** Every edge is two list entries: the edge counter is half the number of entries. */
  predicate Counted<V>(g: GraphState<V>) {
    2 * g.edges == Total(g.lists)
  }

  /**
   * The invariant every graph built through the Graph operations keeps, even
   * with repeated keys and self-loops: lists name only vertices, edges are
   * symmetric, a shadowed list stays empty, self-loops are whole, and the
   * edge counter counts the entries.
   */
  ghost predicate Sane<V>(g: GraphState<V>) {
    WellFormed(g) && Closed(g) && Symmetric(g) && ShadowsEmpty(g) && SelfEven(g) && Counted(g)
  }

  lemma {:induction false} TotalConcat<V>(a: seq<seq<V>>, b: seq<seq<V>>)
    ensures Total(a + b) == Total(a) + Total(b)
  {
    if a == [] {
      assert a + b == b;
    } else {
      assert (a + b)[1..] == a[1..] + b;
      TotalConcat(a[1..], b);
    }
  }

  /** Replacing one list changes the number of entries by the difference in length. */
  lemma TotalUpdate<V>(lists: seq<seq<V>>, i: nat, s: seq<V>)
    requires i < |lists|
    ensures Total(lists[i := s]) == Total(lists) - |lists[i]| + |s|
  {
    assert lists == lists[..i] + [lists[i]] + lists[i + 1..];
    assert lists[i := s] == lists[..i] + [s] + lists[i + 1..];
    TotalConcat(lists[..i] + [lists[i]], lists[i + 1..]);
    TotalConcat(lists[..i], [lists[i]]);
    TotalConcat(lists[..i] + [s], lists[i + 1..]);
    TotalConcat(lists[..i], [s]);
  }

  lemma TotalDelete<V>(lists: seq<seq<V>>, i: nat)
    requires i < |lists|
    ensures Total(Delete(lists, i)) == Total(lists) - |lists[i]|
  {
    assert lists == lists[..i] + [lists[i]] + lists[i + 1..];
    TotalConcat(lists[..i] + [lists[i]], lists[i + 1..]);
    TotalConcat(lists[..i], [lists[i]]);
    TotalConcat(lists[..i], lists[i + 1..]);
  }

  lemma {:induction false} TotalEmpty<V>(n: nat)
    ensures Total(seq<seq<V>>(n, _ => [])) == 0
  {
    if n > 0 {
      assert seq<seq<V>>(n, _ => [])[1..] == seq<seq<V>>(n - 1, _ => []);
      TotalEmpty<V>(n - 1);
    }
  }

  /** Appending to a list adds one entry; removing an entry that is there takes one away. */
  lemma LinkTotal<V>(g: GraphState<V>, a: V, b: V)
    requires WellFormed(g) && a in g.keys
    ensures Total(Link(g, a, b).lists) == Total(g.lists) + 1
    ensures Total(Unlink(g, a, b).lists) == Total(g.lists) - (if b in Adj(g, a) then 1 else 0)
  {
    TotalUpdate(g.lists, IndexOf(g.keys, a), Adj(g, a) + [b]);
    TotalUpdate(g.lists, IndexOf(g.keys, a), RemoveFirst(Adj(g, a), b));
  }

  /** A list that `getAdj` can return is never shadowed, so the list operations leave shadowed lists alone. */
  lemma ShadowedUntouched<V>(g: GraphState<V>, a: V, j: int)
    requires WellFormed(g) && a in g.keys && Shadowed(g, j)
    ensures j != IndexOf(g.keys, a)
  {
  }

  lemma {:induction false} EmptyIsSane<V>(vs: seq<V>)
    ensures Sane(Isolated(vs))
  {
    var g := Isolated(vs);
    forall a | a in vs ensures Adj(g, a) == [] {
      assert g.lists[IndexOf(vs, a)] == [];
    }
    TotalEmpty<V>(|vs|);
  }

  /** The lists are unchanged by appending a key, except that a new key has an empty one. */
  lemma AdjAfterAddVertex<V>(g: GraphState<V>, v: V, w: V)
    requires WellFormed(g) && w in g.keys + [v]
    ensures Adj(AddVertex(g, v), w) == if w in g.keys then Adj(g, w) else []
  {
    if w in g.keys {
      IndexOfAppend(g.keys, [v], w);
    } else {
      IndexOfUnique(g.keys + [v], w, |g.keys|);
    }
  }

  lemma AddVertexSane<V>(g: GraphState<V>, v: V)
    requires Sane(g)
    ensures Sane(AddVertex(g, v))
  {
    var r := AddVertex(g, v);
    forall w | w in r.keys ensures Adj(r, w) == if w in g.keys then Adj(g, w) else [] {
      AdjAfterAddVertex(g, v, w);
    }
    assert Closed(r);
    assert Symmetric(r) by {
      forall a, b | a in r.keys && b in r.keys ensures Count(Adj(r, a), b) == Count(Adj(r, b), a) {
        if a in g.keys && b in g.keys {
          assert Count(Adj(g, a), b) == Count(Adj(g, b), a);
        } else if a in g.keys {
          assert b !in Adj(g, a);
        } else if b in g.keys {
          assert a !in Adj(g, b);
        }
      }
    }
    assert ShadowsEmpty(r) by {
      forall j | Shadowed(r, j) ensures r.lists[j] == [] {
        if j < |g.keys| {
          assert r.keys[..j] == g.keys[..j];
          assert Shadowed(g, j);
        }
      }
    }
    assert SelfEven(r);
    assert Counted(r) by {
      TotalConcat(g.lists, [[]]);
    }
  }

  /** How `addE(a, b)` changes the number of `y` in the list of `x`. */
  lemma AddEdgeCount<V>(g: GraphState<V>, a: V, b: V, x: V, y: V)
    requires WellFormed(g) && AddEdge(g, a, b).1 && x in g.keys
    ensures Count(Adj(AddEdge(g, a, b).0, x), y) ==
      Count(Adj(g, x), y) + (if x == a && y == b then 1 else 0) + (if x == b && y == a then 1 else 0)
  {
    var g1 := Link(g.(edges := g.edges + 1), a, b);
    var g2 := Link(g1, b, a);
    if x == a && x == b {
      assert Adj(g2, x) == Adj(g, x) + [b] + [a];
    } else if x == a {
      assert Adj(g2, x) == Adj(g, x) + [b];
    } else if x == b {
      assert Adj(g2, x) == Adj(g, x) + [a];
    } else {
      assert Adj(g2, x) == Adj(g, x);
    }
  }

  /** Appending to or removing from a list that `getAdj` returns leaves a shadowed list alone. */
  lemma LinkShadow<V>(g: GraphState<V>, a: V, b: V, j: int)
    requires WellFormed(g) && a in g.keys && Shadowed(g, j)
    ensures Shadowed(Link(g, a, b), j) && Link(g, a, b).lists[j] == g.lists[j]
    ensures Shadowed(Unlink(g, a, b), j) && Unlink(g, a, b).lists[j] == g.lists[j]
  {
    ShadowedUntouched(g, a, j);
  }

  /** `addE` leaves the shadowed lists alone. */
  lemma AddEdgeShadows<V>(g: GraphState<V>, a: V, b: V)
    requires WellFormed(g) && ShadowsEmpty(g)
    ensures ShadowsEmpty(AddEdge(g, a, b).0)
  {
    if AddEdge(g, a, b).1 {
      var g0 := g.(edges := g.edges + 1);
      var r := Link(Link(g0, a, b), b, a);
      assert r == AddEdge(g, a, b).0;
      forall j | Shadowed(r, j) ensures r.lists[j] == [] {
        assert Shadowed(g, j) && Shadowed(g0, j);
        LinkShadow(g0, a, b, j);
        LinkShadow(Link(g0, a, b), b, a, j);
      }
    }
  }

  /** `removeE` leaves the shadowed lists alone. */
  lemma RemoveEdgeShadows<V>(g: GraphState<V>, a: V, b: V)
    requires WellFormed(g) && ShadowsEmpty(g)
    ensures ShadowsEmpty(RemoveEdge(g, a, b).0)
  {
    if HasEdge(g, a, b) {
      var g0 := g.(edges := g.edges - 1);
      var r := Unlink(Unlink(g0, a, b), b, a);
      assert r == RemoveEdge(g, a, b).0;
      forall j | Shadowed(r, j) ensures r.lists[j] == [] {
        assert Shadowed(g, j) && Shadowed(g0, j);
        LinkShadow(g0, a, b, j);
        LinkShadow(Unlink(g0, a, b), b, a, j);
      }
    }
  }

  /** `addE(a, b)` keeps the graph sane: two entries and one more edge. */
  lemma AddEdgeSane<V>(g: GraphState<V>, a: V, b: V)
    requires Sane(g)
    ensures Sane(AddEdge(g, a, b).0)
  {
    if AddEdge(g, a, b).1 {
      var r := AddEdge(g, a, b).0;
      AddEdgeSymmetric(g, a, b);
      AddEdgeClosed(g, a, b);
      AddEdgeShadows(g, a, b);
      AddEdgeTally(g, a, b);
    }
  }

  /** `addE(a, b)` adds two list entries, one per end, so self-loops stay whole and the counter keeps counting entries. */
  lemma AddEdgeTally<V>(g: GraphState<V>, a: V, b: V)
    requires WellFormed(g) && SelfEven(g) && Counted(g) && AddEdge(g, a, b).1
    ensures SelfEven(AddEdge(g, a, b).0) && Counted(AddEdge(g, a, b).0)
  {
    var r := AddEdge(g, a, b).0;
    forall x | x in r.keys ensures Even(Count(Adj(r, x), x)) {
      AddEdgeCount(g, a, b, x, x);
    }
    var g1 := Link(g.(edges := g.edges + 1), a, b);
    assert r == Link(g1, b, a);
    LinkTotal(g.(edges := g.edges + 1), a, b);
    LinkTotal(g1, b, a);
  }

  lemma AddEdgeSymmetric<V>(g: GraphState<V>, a: V, b: V)
    requires WellFormed(g) && Symmetric(g) && AddEdge(g, a, b).1
    ensures Symmetric(AddEdge(g, a, b).0)
  {
    var r := AddEdge(g, a, b).0;
    forall x, y | x in r.keys && y in r.keys ensures Count(Adj(r, x), y) == Count(Adj(r, y), x) {
      AddEdgeCount(g, a, b, x, y);
      AddEdgeCount(g, a, b, y, x);
    }
  }

  lemma AddEdgeClosed<V>(g: GraphState<V>, a: V, b: V)
    requires WellFormed(g) && Closed(g) && AddEdge(g, a, b).1
    ensures Closed(AddEdge(g, a, b).0)
  {
    var r := AddEdge(g, a, b).0;
    forall x, y | x in r.keys && y in Adj(r, x) ensures y in r.keys {
      AddEdgeCount(g, a, b, x, y);
      assert y in Adj(g, x) || y == a || y == b;
    }
  }

  /** In a sane graph an edge `a`-`b` can be taken out from both ends: `a` is in the list of `b`, twice when `a == b`. */
  lemma BothEnds<V>(g: GraphState<V>, a: V, b: V)
    requires Sane(g) && HasEdge(g, a, b)
    ensures a in Adj(g, b)
    ensures a == b ==> a in RemoveFirst(Adj(g, b), a)
  {
    assert Count(Adj(g, a), b) > 0;
    RemoveFirstCount(Adj(g, b), a, a);
  }

  /** How `removeE(a, b)` changes the number of `y` in the list of `x`: one fewer for each direction of the removed edge. */
  lemma RemoveEdgeCount<V>(g: GraphState<V>, a: V, b: V, x: V, y: V)
    requires Sane(g) && HasEdge(g, a, b) && x in g.keys
    ensures Count(Adj(RemoveEdge(g, a, b).0, x), y) ==
      Count(Adj(g, x), y) - (if x == a && y == b then 1 else 0) - (if x == b && y == a then 1 else 0)
  {
    var g1 := Unlink(g.(edges := g.edges - 1), a, b);
    var g2 := Unlink(g1, b, a);
    BothEnds(g, a, b);
    RemoveFirstCount(Adj(g, a), b, y);
    RemoveFirstCount(Adj(g1, b), a, y);
    if x == b {
      assert Adj(g2, x) == RemoveFirst(Adj(g1, b), a);
      if a != b {
        assert Adj(g1, b) == Adj(g, b);
      }
    } else if x == a {
      assert Adj(g2, x) == Adj(g1, x) == RemoveFirst(Adj(g, a), b);
    } else {
      assert Adj(g2, x) == Adj(g1, x) == Adj(g, x);
    }
  }

  /** `removeE(a, b)` keeps the graph sane: two entries and one edge fewer. */
  lemma RemoveEdgeSane<V>(g: GraphState<V>, a: V, b: V)
    requires Sane(g)
    ensures Sane(RemoveEdge(g, a, b).0)
  {
    if HasEdge(g, a, b) {
      var r := RemoveEdge(g, a, b).0;
      RemoveEdgeSymmetric(g, a, b);
      RemoveEdgeClosed(g, a, b);
      RemoveEdgeShadows(g, a, b);
      RemoveEdgeTally(g, a, b);
    }
  }

  /** `removeE(a, b)` takes out two list entries, one per end, so self-loops stay whole and the counter keeps counting entries. */
  lemma RemoveEdgeTally<V>(g: GraphState<V>, a: V, b: V)
    requires Sane(g) && HasEdge(g, a, b)
    ensures SelfEven(RemoveEdge(g, a, b).0) && Counted(RemoveEdge(g, a, b).0)
  {
    var r := RemoveEdge(g, a, b).0;
    forall x | x in r.keys ensures Even(Count(Adj(r, x), x)) {
      RemoveEdgeSelf(g, a, b, x);
    }
    RemoveEdgeCounted(g, a, b);
  }

  lemma RemoveEdgeSelf<V>(g: GraphState<V>, a: V, b: V, x: V)
    requires Sane(g) && HasEdge(g, a, b) && x in g.keys
    ensures Even(Count(Adj(RemoveEdge(g, a, b).0, x), x))
  {
    RemoveEdgeCount(g, a, b, x, x);
    var n := Count(Adj(g, x), x);
    var m := Count(Adj(RemoveEdge(g, a, b).0, x), x);
    assert Even(n);
    if x == a && x == b {
      assert m + 2 == n;
    } else {
      assert m == n;
    }
  }

  lemma RemoveEdgeCounted<V>(g: GraphState<V>, a: V, b: V)
    requires Sane(g) && HasEdge(g, a, b)
    ensures Counted(RemoveEdge(g, a, b).0)
  {
    var r := RemoveEdge(g, a, b).0;
    var g1 := Unlink(g.(edges := g.edges - 1), a, b);
    assert r == Unlink(g1, b, a);
    BothEnds(g, a, b);
    LinkTotal(g.(edges := g.edges - 1), a, b);
    LinkTotal(g1, b, a);
    assert a in Adj(g1, b) by {
      if a != b { assert Adj(g1, b) == Adj(g, b); }
    }
  }

  lemma RemoveEdgeSymmetric<V>(g: GraphState<V>, a: V, b: V)
    requires Sane(g) && HasEdge(g, a, b)
    ensures Symmetric(RemoveEdge(g, a, b).0)
  {
    var r := RemoveEdge(g, a, b).0;
    forall x, y | x in r.keys && y in r.keys ensures Count(Adj(r, x), y) == Count(Adj(r, y), x) {
      RemoveEdgeCount(g, a, b, x, y);
      RemoveEdgeCount(g, a, b, y, x);
    }
  }

  lemma RemoveEdgeClosed<V>(g: GraphState<V>, a: V, b: V)
    requires Sane(g) && HasEdge(g, a, b)
    ensures Closed(RemoveEdge(g, a, b).0)
  {
    var r := RemoveEdge(g, a, b).0;
    forall x, y | x in r.keys && y in Adj(r, x) ensures y in r.keys {
      RemoveEdgeCount(g, a, b, x, y);
    }
  }

  /** How one `getAdj(n).remove(v)` changes the number of `x` in the list of `w`. */
  lemma UnlinkCount<V>(g: GraphState<V>, n: V, v: V, w: V, x: V)
    requires WellFormed(g) && n in g.keys && w in g.keys
    ensures Count(Adj(Unlink(g, n, v), w), x) ==
      Count(Adj(g, w), x) - (if w == n && x == v && v in Adj(g, n) then 1 else 0)
  {
    RemoveFirstCount(Adj(g, n), v, x);
  }

  /** Each list holds at least as many `v` as entries of `ns` name it, so every step of the loop removes an entry. */
  ghost predicate Enough<V>(g: GraphState<V>, ns: seq<V>, v: V)
    requires WellFormed(g)
  {
    forall u {:trigger Count(Adj(g, u), v)} :: u in g.keys ==> Count(ns, u) <= Count(Adj(g, u), v)
  }

  /** The loop of `removeV` takes out exactly one `v` per entry it reads, when the lists hold enough copies. */
  lemma {:induction false} DetachCount<V>(g: GraphState<V>, ns: seq<V>, v: V, w: V, x: V)
    requires WellFormed(g) && (forall u :: u in ns ==> u in g.keys) && w in g.keys && Enough(g, ns, v)
    ensures Count(Adj(Detach(g, ns, v), w), x) == Count(Adj(g, w), x) - (if x == v then Count(ns, w) else 0)
    ensures |Adj(Detach(g, ns, v), w)| == |Adj(g, w)| - Count(ns, w)
    ensures Total(Detach(g, ns, v).lists) == Total(g.lists) - |ns|
    decreases |ns|
  {
    if ns != [] {
      var n := ns[0];
      var g1 := Unlink(g.(edges := g.edges - 1), n, v);
      assert ns == [n] + ns[1..];
      DetachStillEnough(g, ns, v);
      DetachCount(g1, ns[1..], v, w, x);
      UnlinkCount(g.(edges := g.edges - 1), n, v, w, x);
      assert Count(ns, w) == (if n == w then 1 else 0) + Count(ns[1..], w);
      assert v in Adj(g, n) by {
        assert 0 < Count(ns, n) <= Count(Adj(g, n), v);
      }
      LinkTotal(g.(edges := g.edges - 1), n, v);
    }
  }

  /** After the first step of the loop of `removeV`, the rest of the entries still find enough copies of `v`. */
  lemma DetachStillEnough<V>(g: GraphState<V>, ns: seq<V>, v: V)
    requires WellFormed(g) && ns != [] && (forall u :: u in ns ==> u in g.keys) && Enough(g, ns, v)
    ensures Enough(Unlink(g.(edges := g.edges - 1), ns[0], v), ns[1..], v)
  {
    var n := ns[0];
    var g0 := g.(edges := g.edges - 1);
    assert ns == [n] + ns[1..];
    assert v in Adj(g, n) by {
      assert 0 < Count(ns, n) <= Count(Adj(g, n), v);
    }
    forall u | u in g.keys ensures Count(ns[1..], u) <= Count(Adj(Unlink(g0, n, v), u), v) {
      UnlinkCount(g0, n, v, u, v);
      assert Count(ns, u) == (if n == u then 1 else 0) + Count(ns[1..], u);
      assert Count(ns, u) <= Count(Adj(g, u), v);
    }
  }

  /** The loop of `removeV` leaves shadowed lists alone. */
  lemma {:induction false} DetachShadow<V>(g: GraphState<V>, ns: seq<V>, v: V, j: int)
    requires WellFormed(g) && (forall u :: u in ns ==> u in g.keys) && Shadowed(g, j)
    ensures Detach(g, ns, v).lists[j] == g.lists[j]
    decreases |ns|
  {
    if ns != [] {
      var g1 := Unlink(g.(edges := g.edges - 1), ns[0], v);
      assert Shadowed(g.(edges := g.edges - 1), j);
      LinkShadow(g.(edges := g.edges - 1), ns[0], v, j);
      DetachShadow(g1, ns[1..], v, j);
    }
  }

  /** Steps over entries other than `x` leave the list of `x` alone. */
  lemma {:induction false} DetachKeeps<V>(g: GraphState<V>, ns: seq<V>, v: V, x: V)
    requires WellFormed(g) && (forall u :: u in ns ==> u in g.keys) && x in g.keys && x !in ns
    ensures Adj(Detach(g, ns, v), x) == Adj(g, x)
    decreases |ns|
  {
    if ns != [] {
      DetachKeeps(Unlink(g.(edges := g.edges - 1), ns[0], v), ns[1..], v, x);
    }
  }

  /** One more step at the end of the loop of `removeV`. */
  lemma {:induction false} DetachSnoc<V>(g: GraphState<V>, ns: seq<V>, w: V, v: V)
    requires WellFormed(g) && (forall u :: u in ns ==> u in g.keys) && w in g.keys
    ensures var d := Detach(g, ns, v);
      Detach(g, ns + [w], v) == Unlink(d.(edges := d.edges - 1), w, v)
    decreases |ns|
  {
    if ns == [] {
      assert ns + [w] == [w];
    } else {
      var g1 := Unlink(g.(edges := g.edges - 1), ns[0], v);
      HeadTailSnoc(ns, w);
      DetachStep(g, ns + [w], v);
      DetachStep(g, ns, v);
      DetachSnoc(g1, ns[1..], w, v);
    }
  }

  /** The definition of `Detach` on a non-empty list, taken one step. */
  lemma DetachStep<V>(g: GraphState<V>, ns: seq<V>, v: V)
    requires WellFormed(g) && (forall u :: u in ns ==> u in g.keys) && ns != []
    ensures Detach(g, ns, v) == Detach(Unlink(g.(edges := g.edges - 1), ns[0], v), ns[1..], v)
  {
  }

  /** The loop `Detach` also keeps every list naming only vertices. */
  lemma {:induction false} DetachClosed<V>(g: GraphState<V>, ns: seq<V>, v: V)
    requires WellFormed(g) && Closed(g) && (forall u :: u in ns ==> u in g.keys)
    ensures Closed(Detach(g, ns, v))
    decreases |ns|
  {
    if ns != [] {
      assert ns[0] in ns;
      UnlinkClosed(g, g.edges - 1, ns[0], v);
      DetachClosed(Unlink(g.(edges := g.edges - 1), ns[0], v), ns[1..], v);
    }
  }

  /**
   * The live loop of `removeV` from a position before the first `v` of the
   * list `s` of `v`: it reads the entries of `s` up to and including the
   * first `v`, and ends normally exactly when that `v` is last but one.
   */
  lemma {:induction false} SweepFrom<V>(g: GraphState<V>, v: V, k: nat)
    requires WellFormed(g) && Closed(g) && v in g.keys
    requires k <= |Adj(g, v)| && v !in Adj(g, v)[..k]
    ensures var s := Adj(g, v); var d := Detach(g, Upto(g, v, k), v);
      Closed(d) && k <= |Adj(d, v)| &&
      Sweep(d, v, k, false) == (Detach(g, Upto(g, v, Reach(s, v)), v), Completes(s, v))
    decreases |Adj(g, v)| - k
  {
    var s := Adj(g, v);
    if k < |s| {
      var d1 := SweepStep(g, v, k);
      if s[k] != v {
        TakeOneMore(s, k);
        SweepFrom(g, v, k + 1);
      }
    } else {
      var ns := Upto(g, v, k);
      DetachClosed(g, ns, v);
      DetachKeeps(g, ns, v, v);
      assert s[..k] == s;
    }
  }

  /**
   * One step of the loop of `removeV` at entry `k` of the list of `v`: it
   * unlinks that entry, and when the entry is `v` itself the loop stops
   * there, normally exactly when `k` is last but one.
   */
  lemma SweepStep<V>(g: GraphState<V>, v: V, k: nat) returns (d1: GraphState<V>)
    requires WellFormed(g) && Closed(g) && v in g.keys
    requires k < |Adj(g, v)| && v !in Adj(g, v)[..k]
    ensures var s := Adj(g, v); var d := Detach(g, Upto(g, v, k), v);
      && Closed(d) && Adj(d, v) == s
      && d1 == Detach(g, Upto(g, v, k + 1), v) && Closed(d1)
      && (s[k] != v ==> Adj(d1, v) == s)
      && Sweep(d, v, k, false) == Sweep(d1, v, k + 1, s[k] == v)
      && (s[k] == v ==> Sweep(d, v, k, false) == (Detach(g, Upto(g, v, Reach(s, v)), v), Completes(s, v)))
  {
    var s := Adj(g, v);
    var d := Detach(g, Upto(g, v, k), v);
    d1 := StepState(g, v, k);
    StepDetach(g, v, k);
    assert Sweep(d, v, k, false) == Sweep(d1, v, k + 1, s[k] == v);
  }

  /** The state one step of the loop of `removeV` leaves, at entry `k` of the list of `v`. */
  lemma StepState<V>(g: GraphState<V>, v: V, k: nat) returns (d1: GraphState<V>)
    requires WellFormed(g) && Closed(g) && v in g.keys
    requires k < |Adj(g, v)| && v !in Adj(g, v)[..k]
    ensures var s := Adj(g, v); var d := Detach(g, Upto(g, v, k), v);
      && Closed(d) && Adj(d, v) == s
      && d1 == Detach(g, Upto(g, v, k + 1), v) && Closed(d1)
      && (s[k] != v ==> Adj(d1, v) == s)
      && (s[k] == v ==> |Adj(d1, v)| == |s| - 1 && Reach(s, v) == k + 1)
  {
    var s := Adj(g, v);
    var ns := Upto(g, v, k);
    DetachClosed(g, ns, v);
    DetachKeeps(g, ns, v, v);
    StepDetach(g, v, k);
    d1 := Detach(g, Upto(g, v, k + 1), v);
    DetachClosed(g, Upto(g, v, k + 1), v);
    if s[k] == v {
      IndexOfUnique(s, v, k);
    }
  }

  /** One more entry read by the loop of `removeV` is one more unlink. */
  lemma StepDetach<V>(g: GraphState<V>, v: V, k: nat)
    requires WellFormed(g) && Closed(g) && v in g.keys && k < |Adj(g, v)|
    ensures var d := Detach(g, Upto(g, v, k), v); var w := Adj(g, v)[k];
      w in d.keys && Detach(g, Upto(g, v, k + 1), v) == Unlink(d.(edges := d.edges - 1), w, v)
  {
    var ns := Upto(g, v, k);
    var w := Adj(g, v)[k];
    assert Upto(g, v, k + 1) == ns + [w];
    DetachSnoc(g, ns, w, v);
  }

  /** The whole loop of `removeV` over the list `s` of `v`. */
  lemma RemoveVertexLoop<V>(g: GraphState<V>, v: V)
    requires WellFormed(g) && Closed(g) && v in g.keys
    ensures var s := Adj(g, v);
      Sweep(g, v, 0, false) == (Detach(g, Upto(g, v, Reach(s, v)), v), Completes(s, v))
  {
    SweepFrom(g, v, 0);
    assert Adj(g, v)[..0] == [];
  }

  /**
   * The entries a normally ending loop of `removeV` reads: every neighbour
   * entry of the list of `v`, and one of the two entries of each self-loop.
   */
  ghost predicate Covering<V>(g: GraphState<V>, v: V, ns: seq<V>)
    requires WellFormed(g) && v in g.keys
  {
    && (forall u :: u in ns ==> u in g.keys)
    && (forall u {:trigger Count(ns, u)} :: u in g.keys && u != v ==> Count(ns, u) == Count(Adj(g, v), u))
    && 2 * Count(ns, v) == Count(Adj(g, v), v)
    && |ns| + Count(ns, v) == |Adj(g, v)|
  }

  /** In a sane graph the entries read by a normally ending loop of `removeV` cover the list of `v`. */
  lemma CompletesCovering<V>(g: GraphState<V>, v: V)
    requires Sane(g) && v in g.keys && Completes(Adj(g, v), v)
    ensures Covering(g, v, Upto(g, v, Reach(Adj(g, v), v)))
  {
    var s := Adj(g, v);
    var ns := Upto(g, v, Reach(s, v));
    if v in s {
      FirstLastButOne(s, v);
      assert Even(Count(s, v));
      assert s[|s| - 1] == v;
      assert ns == s[..|s| - 1];
    } else {
      assert ns == s;
    }
  }

  /** A normally ending loop of `removeV`, as the entries it reads, followed by the removal of the key. */
  function Removal<V(==)>(g: GraphState<V>, v: V, ns: seq<V>): (r: GraphState<V>)
    requires WellFormed(g) && v in g.keys && forall u :: u in ns ==> u in g.keys
    ensures WellFormed(r) && r.edges == g.edges - |ns|
  {
    DeleteKey(Detach(g, ns, v), v)
  }

  /** The vertex removed, when `removeV` ends normally. */
  lemma RemoveVertexIsRemoval<V>(g: GraphState<V>, v: V)
    requires WellFormed(g) && Closed(g) && v in g.keys && Completes(Adj(g, v), v)
    ensures RemoveVertex(g, v) == (Removal(g, v, Upto(g, v, Reach(Adj(g, v), v))), Return(true))
  {
    RemoveVertexLoop(g, v);
  }

  /** The entries read cover the list, so every list holds enough copies of `v`. */
  lemma CoveringEnough<V>(g: GraphState<V>, v: V, ns: seq<V>)
    requires Sane(g) && v in g.keys && Covering(g, v, ns)
    ensures Enough(g, ns, v)
  {
    forall u | u in g.keys ensures Count(ns, u) <= Count(Adj(g, u), v) {
      if u != v {
        assert Count(ns, u) == Count(Adj(g, v), u);
      }
    }
  }

  /**
   * After the removal every remaining vertex other than `v` keeps its list as
   * the loop left it, and a repeated `v` answers with an empty list.
   */
  lemma RemovalAdj<V>(g: GraphState<V>, v: V, ns: seq<V>, w: V)
    requires Sane(g) && v in g.keys && Covering(g, v, ns)
    requires w in Removal(g, v, ns).keys
    ensures w in g.keys
    ensures w != v ==> Adj(Removal(g, v, ns), w) == Adj(Detach(g, ns, v), w)
    ensures w == v ==> Adj(Removal(g, v, ns), w) == []
  {
    var d := Detach(g, ns, v);
    var i := IndexOf(g.keys, v);
    var r := Removal(g, v, ns);
    assert r.keys == Delete(g.keys, i) && r.lists == Delete(d.lists, i);
    assert w in g.keys by {
      var m :| 0 <= m < |r.keys| && r.keys[m] == w;
      if m < i { assert g.keys[m] == w; } else { assert g.keys[m + 1] == w; }
    }
    if w == v {
      RemovalAgain(g, v, ns);
    } else {
      LookupAfterRemove(d.keys, d.lists, v, w);
      AdjIsLookup(r, w);
      AdjIsLookup(d, w);
    }
  }

  /** A second key `v` left after the removal of the first answers with an empty list. */
  lemma RemovalAgain<V>(g: GraphState<V>, v: V, ns: seq<V>)
    requires WellFormed(g) && ShadowsEmpty(g) && v in g.keys && (forall u :: u in ns ==> u in g.keys)
    requires v in Removal(g, v, ns).keys
    ensures Adj(Removal(g, v, ns), v) == []
  {
    var d := Detach(g, ns, v);
    var j := DeleteKeyAgain(d, v);
    assert Shadowed(g, j + 1);
    DetachShadow(g, ns, v, j + 1);
  }

  /** After the first key `v` is dropped, a second one answers with the list at its old position, a shadowed one. */
  lemma DeleteKeyAgain<V>(d: GraphState<V>, v: V) returns (j: nat)
    requires WellFormed(d) && v in d.keys && v in DeleteKey(d, v).keys
    ensures Shadowed(d, j + 1) && Adj(DeleteKey(d, v), v) == d.lists[j + 1]
  {
    var i := IndexOf(d.keys, v);
    var r := DeleteKey(d, v);
    DeleteFirstAgain(d.keys, v);
    j := IndexOf(r.keys, v);
    DeleteAfter(d.lists, i, j);
  }

  /**
   * In a sane graph, `removeV(v)` ends normally exactly when the list of `v`
   * holds no self-loop or ends with one; then the graph stays sane, no list
   * names `v` any more, and the edge counter drops by one per neighbour
   * entry, a self-loop counting once.
   */
  lemma RemoveVertexSane<V>(g: GraphState<V>, v: V)
    requires Sane(g)
    ensures RemoveVertex(g, v).1.Throw? <==> v in g.keys && !Completes(Adj(g, v), v)
    ensures RemoveVertex(g, v).1 == Return(true) ==>
      && Sane(RemoveVertex(g, v).0)
      && (forall w :: w in RemoveVertex(g, v).0.keys ==> v !in Adj(RemoveVertex(g, v).0, w))
      && RemoveVertex(g, v).0.edges == g.edges - |Adj(g, v)| + Count(Adj(g, v), v) / 2
  {
    if v in g.keys {
      RemoveVertexLoop(g, v);
      if Completes(Adj(g, v), v) {
        var ns := Upto(g, v, Reach(Adj(g, v), v));
        CompletesCovering(g, v);
        RemovalSane(g, v, ns);
      }
    }
  }

  /** Removing a vertex after a loop that read covering entries leaves a sane graph in which no list names `v`. */
  lemma RemovalSane<V>(g: GraphState<V>, v: V, ns: seq<V>)
    requires Sane(g) && v in g.keys && Covering(g, v, ns)
    ensures Sane(Removal(g, v, ns))
    ensures forall w :: w in Removal(g, v, ns).keys ==> v !in Adj(Removal(g, v, ns), w)
  {
    var r := Removal(g, v, ns);
    var d := Detach(g, ns, v);
    CoveringEnough(g, v, ns);
    forall w | w in r.keys ensures v !in Adj(r, w) {
      RemovalForgets(g, v, ns, w);
    }
    assert Symmetric(r) by {
      forall a, b | a in r.keys && b in r.keys ensures Count(Adj(r, a), b) == Count(Adj(r, b), a) {
        if a == v || b == v {
          RemovalAdj(g, v, ns, a);
          RemovalAdj(g, v, ns, b);
          RemovalForgets(g, v, ns, a);
          RemovalForgets(g, v, ns, b);
        } else {
          RemovalSym(g, v, ns, a, b);
        }
      }
    }
    assert Closed(r) by {
      forall a, b | a in r.keys && b in Adj(r, a) ensures b in r.keys {
        RemovalNeighbour(g, v, ns, a, b);
      }
    }
    assert ShadowsEmpty(r) by {
      forall j | Shadowed(r, j) ensures r.lists[j] == [] {
        RemovalShadow(g, v, ns, j);
      }
    }
    assert SelfEven(r) by {
      forall w | w in r.keys ensures Even(Count(Adj(r, w), w)) {
        RemovalAdj(g, v, ns, w);
        if w != v {
          DetachCount(g, ns, v, w, w);
        }
      }
    }
    assert Counted(r) by {
      DetachCount(g, ns, v, v, v);
      TotalDelete(d.lists, IndexOf(g.keys, v));
    }
  }

  /** After the removal no remaining list names `v`: the loop took out one copy per entry of the list of `v`. */
  lemma RemovalForgets<V>(g: GraphState<V>, v: V, ns: seq<V>, w: V)
    requires Sane(g) && v in g.keys && Covering(g, v, ns) && w in Removal(g, v, ns).keys
    ensures v !in Adj(Removal(g, v, ns), w)
  {
    RemovalAdj(g, v, ns, w);
    if w != v {
      CoveringEnough(g, v, ns);
      DetachCount(g, ns, v, w, v);
      assert Count(Adj(g, w), v) == Count(Adj(g, v), w) == Count(ns, w);
    }
  }

  /** After the removal, `b` still occurs in the list of `a` as often as `a` in the list of `b`. */
  lemma RemovalSym<V>(g: GraphState<V>, v: V, ns: seq<V>, a: V, b: V)
    requires Sane(g) && v in g.keys && Covering(g, v, ns) && a != v && b != v
    requires a in Removal(g, v, ns).keys && b in Removal(g, v, ns).keys
    ensures Count(Adj(Removal(g, v, ns), a), b) == Count(Adj(Removal(g, v, ns), b), a)
  {
    CoveringEnough(g, v, ns);
    RemovalAdj(g, v, ns, a);
    RemovalAdj(g, v, ns, b);
    DetachCount(g, ns, v, a, b);
    DetachCount(g, ns, v, b, a);
  }

  /** After the removal every list still names only vertices. */
  lemma RemovalNeighbour<V>(g: GraphState<V>, v: V, ns: seq<V>, a: V, b: V)
    requires Sane(g) && v in g.keys && Covering(g, v, ns)
    requires a in Removal(g, v, ns).keys && b in Adj(Removal(g, v, ns), a)
    ensures b in Removal(g, v, ns).keys
  {
    var r := Removal(g, v, ns);
    CoveringEnough(g, v, ns);
    RemovalAdj(g, v, ns, a);
    RemovalForgets(g, v, ns, a);
    assert a != v && b != v;
    DetachCount(g, ns, v, a, b);
    assert b in Adj(g, a) by {
      assert Count(Adj(r, a), b) == Count(Adj(g, a), b);
    }
    var i := IndexOf(g.keys, v);
    var k := IndexOf(g.keys, b);
    if k < i { assert r.keys[k] == b; } else { assert r.keys[k - 1] == b; }
  }

  lemma RemovalShadow<V>(g: GraphState<V>, v: V, ns: seq<V>, j: int)
    requires Sane(g) && v in g.keys && Covering(g, v, ns) && Shadowed(Removal(g, v, ns), j)
    ensures Removal(g, v, ns).lists[j] == []
  {
    var d := Detach(g, ns, v);
    var i := IndexOf(g.keys, v);
    var r := Removal(g, v, ns);
    var oj := if j < i then j else j + 1;
    assert r.keys[j] == g.keys[oj] && r.lists[j] == d.lists[oj];
    assert Shadowed(g, oj) by {
      var m :| 0 <= m < j && r.keys[m] == r.keys[j];
      if m < i { assert g.keys[..oj][m] == r.keys[m]; } else { assert g.keys[..oj][m + 1] == r.keys[m]; }
    }
    DetachShadow(g, ns, v, oj);
  }

  /** With a self-loop that is not at the end of the list of `v`, `removeV(v)` throws: the graph Graph.java builds after `addV(v); addE(v, v); addV(w); addE(v, w)`. */
  lemma SelfLoopThrows<V>(v: V, w: V)
    requires v != w
    ensures RemoveVertex(GraphState([v, w], [[v, v, w], [v]], 2), v).1 == Throw(ConcurrentModification)
  {
    var g := GraphState([v, w], [[v, v, w], [v]], 2);
    assert Adj(g, v) == [v, v, w];
    RemoveVertexLoop(g, v);
    IndexOfUnique([v, v, w], v, 0);
  }
}
