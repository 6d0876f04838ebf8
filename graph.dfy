/**
 * The undirected graph of src/graph/Graph.java: a symbol table from each
 * vertex to its own adjacency list object, plus an edge counter. Every
 * method is proved to move the graph's state as the matching function of
 * GraphSpec does, and to keep that state sane.
 */
module Graphs {
  import opened Wrappers
  import opened Lists
  import opened SymbolTables
  import opened GraphSpec

  /** A java.util.ArrayList of neighbours, updated in place by `add` and `remove`. */
  class VertexList<V(==)> {
    var items: seq<V>
    /** The table of the graph the list was made for; it tells apart the lists of two graphs. */
    ghost const owner: object

    constructor (ghost owner: object)
      ensures items == [] && this.owner == owner
    {
      items := [];
      this.owner := owner;
    }

    /** `ArrayList.add(x)`: appends `x`. */
    method Add(x: V)
      modifies this`items
      ensures items == old(items) + [x]
    {
      items := items + [x];
    }

    /** `ArrayList.remove(Object x)`: removes the first `x`, if any. */
    method Remove(x: V)
      modifies this`items
      ensures items == RemoveFirst(old(items), x)
    {
      items := RemoveFirst(items, x);
    }
  }

  class Graph<V(==)> {
    const adj: ST<V, VertexList<V>>
    var edges: int
    /** The contents of the list objects, position by position. */
    ghost var lists: seq<seq<V>>

    ghost function Repr(): set<object>
      reads adj`vals
    {
      {this as object, adj} + set l | l in adj.vals
    }

    /** The table is well formed, no two keys share a list object, and `lists` mirrors the list objects. */
    ghost predicate Coupled()
      reads this`lists, adj`keys, adj`vals, (set l | l in adj.vals)`items
    {
      && adj.Valid() && Distinct(adj.vals) && (forall l :: l in adj.vals ==> l.owner == adj)
      && |lists| == |adj.vals| && (forall i :: 0 <= i < |adj.vals| ==> adj.vals[i].items == lists[i])
    }

    /** The objects are coupled and the state they spell is sane. */
    ghost predicate Valid()
      reads this`lists, this`edges, adj`keys, adj`vals, (set l | l in adj.vals)`items
    {
      Coupled() && Sane(State())
    }

    ghost function State(): GraphState<V>
      reads this`lists, this`edges, adj`keys
    {
      GraphState(adj.keys, lists, edges)
    }

    /** `adj.get(a).add(b)` for a vertex `a`. */
    method AppendTo(a: V, b: V)
      requires Coupled() && a in adj.keys
      modifies this`edges, this`lists, (iset l: VertexList<V> | l.owner == adj)`items
      ensures Coupled() && State() == Link(old(State()), a, b)
    {
      var l := adj.Get(a);
      ghost var k := IndexOf(adj.keys, a);
      l.value.Add(b);
      lists := lists[k := l.value.items];
    }

    /** `adj.get(a).remove(b)` for a vertex `a`. */
    method RemoveFrom(a: V, b: V)
      requires Coupled() && a in adj.keys
      modifies this`edges, this`lists, (iset l: VertexList<V> | l.owner == adj)`items
      ensures Coupled() && State() == Unlink(old(State()), a, b)
    {
      var l := adj.Get(a);
      ghost var k := IndexOf(adj.keys, a);
      l.value.Remove(b);
      lists := lists[k := l.value.items];
    }

    /** `Graph()`: no vertices and no edges. */
    constructor ()
      ensures Valid() && fresh(Repr())
      ensures State() == Isolated([])
    {
      adj := new ST();
      edges := 0;
      lists := [];
      new;
      EmptyIsSane<V>([]);
    }

    /** `Graph(V... vertices)`: the given vertices, in order, each with an empty list. */
    constructor FromVertices(vertices: seq<V>)
      ensures Valid() && fresh(Repr())
      ensures State() == Isolated(vertices)
    {
      adj := new ST();
      edges := 0;
      lists := [];
      new;
      for i := 0 to |vertices|
        invariant Coupled() && fresh(adj)
        invariant forall l :: l in adj.vals ==> fresh(l) && l.owner == adj
        invariant adj.keys == vertices[..i] && edges == 0
        invariant |lists| == i && forall j :: 0 <= j < i ==> lists[j] == []
      {
        var l := new VertexList(adj);
        adj.Add(vertices[i], l);
        lists := lists + [[]];
        assert vertices[..i + 1] == vertices[..i] + [vertices[i]];
      }
      assert vertices[..|vertices|] == vertices;
      assert State() == Isolated(vertices);
      EmptyIsSane(vertices);
    }

    /** `addV(v)`: appends `v` with a new empty list; a repeated `v` is not detected. */
    method AddV(v: V)
      requires Valid()
      modifies this`edges, this`lists, adj`keys, adj`vals
      ensures Valid() && State() == AddVertex(old(State()), v)
      ensures old(Repr()) <= Repr() && fresh(Repr() - old(Repr()))
      ensures forall l :: l in adj.vals ==> l in old(adj.vals) || fresh(l)
    {
      var l := new VertexList(adj);
      adj.Add(v, l);
      lists := lists + [[]];
      AddVertexSane(old(State()), v);
    }

    /** `containsV(v)`: a scan of the keys. */
    method ContainsV(v: V) returns (b: bool)
      requires Valid()
      ensures b <==> HasVertex(State(), v)
    {
      var ks := adj.GetKeys();
      for i := 0 to |ks|
        invariant v !in ks[..i]
      {
        if ks[i] == v {
          return true;
        }
        assert ks[..i + 1] == ks[..i] + [ks[i]];
      }
      assert ks[..|ks|] == ks;
      return false;
    }

    /** `containsE(a, b)`: both are vertices and `b` is found in the list of `a`. */
    method ContainsE(a: V, b: V) returns (r: bool)
      requires Valid()
      ensures r <==> HasEdge(State(), a, b)
    {
      var ca := ContainsV(a);
      if !ca {
        return false;
      }
      var cb := ContainsV(b);
      if !cb {
        return false;
      }
      var la := adj.Get(a);
      var items := la.value.items;
      assert items == Adj(State(), a);
      for i := 0 to |items|
        invariant b !in items[..i]
      {
        if items[i] == b {
          return true;
        }
        assert items[..i + 1] == items[..i] + [items[i]];
      }
      assert items[..|items|] == items;
      return false;
    }

    /** `getAdj(v)`: the live list of `v`, or None (Java null) when `v` is not a vertex. */
    method GetAdj(v: V) returns (r: Option<VertexList<V>>)
      requires Valid()
      ensures r.Some? <==> HasVertex(State(), v)
      ensures r.Some? ==> r.value in adj.vals && r.value.items == Adj(State(), v)
    {
      r := adj.Get(v);
    }

    /**
     * `addE(a, b)`: refused (false) for an existing edge or a missing endpoint;
     * otherwise each endpoint is appended to the other's list.
     */
    method AddE(a: V, b: V) returns (ok: bool)
      requires Valid()
      modifies this`edges, this`lists, (iset l: VertexList<V> | l.owner == adj)`items
      ensures Valid() && Repr() == old(Repr())
      ensures (State(), ok) == AddEdge(old(State()), a, b)
    {
      var e := ContainsE(a, b);
      var ca := ContainsV(a);
      var cb := ContainsV(b);
      if e || !(ca && cb) {
        return false;
      }
      ghost var g := State();
      Join(a, b);
      assert State() == AddEdge(g, a, b).0;
      AddEdgeSane(g, a, b);
      return true;
    }

    /** The body of `addE` past its checks: the counter grows, then `b` joins the list of `a` and `a` the list of `b`. */
    method Join(a: V, b: V)
      requires Coupled() && a in adj.keys && b in adj.keys
      modifies this`edges, this`lists, (iset l: VertexList<V> | l.owner == adj)`items
      ensures Coupled() && State() == Link(Link(old(State()).(edges := old(edges) + 1), a, b), b, a)
    {
      ghost var g := State();
      edges := edges + 1;
      assert State() == g.(edges := g.edges + 1);
      AppendTo(a, b);
      AppendTo(b, a);
    }

    /**
     * `removeE(a, b)`: refused (false) when there is no edge; otherwise one
     * copy of each endpoint is removed from the other's list.
     */
    method RemoveE(a: V, b: V) returns (ok: bool)
      requires Valid()
      modifies this`edges, this`lists, (iset l: VertexList<V> | l.owner == adj)`items
      ensures Valid() && Repr() == old(Repr())
      ensures (State(), ok) == RemoveEdge(old(State()), a, b)
    {
      var e := ContainsE(a, b);
      if !e {
        return false;
      }
      ghost var g := State();
      RemoveEdgeSane(g, a, b);
      Cut(a, b);
      assert State() == RemoveEdge(g, a, b).0;
      return true;
    }

    /** The body of `removeE` past its check: the counter drops, then `b` leaves the list of `a` and `a` the list of `b`. */
    method Cut(a: V, b: V)
      requires Coupled() && a in adj.keys && b in adj.keys
      modifies this`edges, this`lists, (iset l: VertexList<V> | l.owner == adj)`items
      ensures Coupled() && State() == Unlink(Unlink(old(State()).(edges := old(edges) - 1), a, b), b, a)
    {
      ghost var g := State();
      edges := edges - 1;
      assert State() == g.(edges := g.edges - 1);
      RemoveFrom(a, b);
      RemoveFrom(b, a);
    }

    /**
     * `removeV(v)`: refused (false) when `v` is not a vertex; otherwise the
     * for-each loop walks the live list of `v`, removing one `v` from the
     * list of each vertex it reads and dropping the edge counter, and then
     * the first key `v` goes with its list. When the loop reads `v` itself
     * it changes the list it walks, and its next step throws
     * ConcurrentModificationException unless the walk is at the end.
     */
    method RemoveV(v: V) returns (r: Outcome<bool>)
      requires Valid()
      modifies this`edges, this`lists, adj`keys, adj`vals, (iset l: VertexList<V> | l.owner == adj)`items
      ensures Coupled() && Repr() <= old(Repr())
      ensures forall l :: l in adj.vals ==> l in old(adj.vals)
      ensures r.Return? ==> Valid()
      ensures (State(), r) == RemoveVertex(old(State()), v)
    {
      var a := adj.Get(v);
      if a.None? {
        return Return(false);
      }
      ghost var g := State();
      var done := Walk(v, a.value);
      if !done {
        return Throw(ConcurrentModification);
      }
      DropKey(v);
      RemoveVertexSane(g, v);
      return Return(true);
    }

    /**
     * The for-each loop of `removeV` over the live list `l` of `v`: false
     * when it throws ConcurrentModificationException.
     */
    method Walk(v: V, l: VertexList<V>) returns (done: bool)
      requires Coupled() && Closed(State()) && v in adj.keys && l == adj.vals[IndexOf(adj.keys, v)]
      modifies this`edges, this`lists, (iset l: VertexList<V> | l.owner == adj)`items
      ensures Coupled() && (State(), done) == Sweep(old(State()), v, 0, false)
    {
      ghost var g := State();
      var cursor, dirty := 0, false;
      while cursor != |l.items|
        invariant Walking(g, v, l, cursor, dirty)
        decreases if dirty then 0 else 1 + |l.items| - cursor
      {
        if dirty {
          return false;
        }
        dirty := Step(g, v, l, cursor);
        cursor := cursor + 1;
      }
      return true;
    }

    /** One turn of the loop of `removeV`: the entry `w` at the cursor is read and `v` leaves the list of `w`; true when `w` is `v`. */
    method Step(ghost g: GraphState<V>, v: V, l: VertexList<V>, cursor: nat) returns (dirty: bool)
      requires Walking(g, v, l, cursor, false) && cursor < |l.items|
      modifies this`edges, this`lists, (iset l: VertexList<V> | l.owner == adj)`items
      ensures Walking(g, v, l, cursor + 1, dirty)
      ensures !dirty ==> |l.items| == old(|l.items|)
    {
      var w := l.items[cursor];
      SweepOnce(State(), v, cursor);
      Drop(w, v);
      dirty := w == v;
    }

    /**
     * The loop of `removeV` over the list `l` of `v`, started on the state
     * `g`, is at `cursor`, and has read `v` itself when `dirty`: the rest of
     * the walk ends where the whole walk from `g` ends.
     */
    ghost predicate Walking(g: GraphState<V>, v: V, l: VertexList<V>, cursor: nat, dirty: bool)
      reads this, adj, l, set l | l in adj.vals
    {
      && Coupled() && State().keys == g.keys && v in g.keys && Closed(State())
      && l == adj.vals[IndexOf(adj.keys, v)] && l.items == Adj(State(), v)
      && (!dirty ==> cursor <= |l.items|)
      && WellFormed(g) && Closed(g)
      && Sweep(State(), v, cursor, dirty) == Sweep(g, v, 0, false)
    }

    /** The body of the loop of `removeV`: `adj.get(w).remove(v)`, then `edges--`. */
    method Drop(w: V, v: V)
      requires Coupled() && w in adj.keys
      modifies this`edges, this`lists, (iset l: VertexList<V> | l.owner == adj)`items
      ensures Coupled() && State() == Unlink(old(State()).(edges := old(edges) - 1), w, v)
    {
      RemoveFrom(w, v);
      edges := edges - 1;
    }

    /** `adj.remove(v)` for a vertex `v`: its first key goes with its list. */
    method DropKey(v: V)
      requires Coupled() && v in adj.keys
      modifies this`edges, this`lists, adj`keys, adj`vals
      ensures Coupled() && State() == DeleteKey(old(State()), v) && Repr() <= old(Repr())
      ensures forall l :: l in adj.vals ==> l in old(adj.vals)
    {
      ghost var k := IndexOf(adj.keys, v);
      var _ := adj.Remove(v);
      lists := Delete(lists, k);
      forall i | 0 <= i < |adj.vals| ensures adj.vals[i].items == lists[i] {
        if i < k {
          assert adj.vals[i] == old(adj.vals)[i];
        } else {
          assert adj.vals[i] == old(adj.vals)[i + 1];
        }
      }
    }

    /** `getV()`: the number of keys, repeated keys included. */
    method GetV() returns (n: nat)
      requires Valid()
      ensures n == |State().keys|
    {
      n := adj.Size();
    }

    /** `getE()`: the edge counter. */
    method GetE() returns (n: int)
      ensures n == edges
    {
      return edges;
    }

    /** `getVertices()`: the keys in insertion order. */
    method GetVertices() returns (vs: seq<V>)
      ensures vs == State().keys
    {
      vs := adj.GetKeys();
    }
  }

  /** A graph none of whose objects changed is still valid and holds the same state. */
  twostate lemma GraphUnchanged<V>(g: Graph<V>)
    requires old(g.Valid()) && unchanged(g`lists, g`edges, g.adj`keys, g.adj`vals)
    requires forall l :: l in old(g.adj.vals) ==> unchanged(l`items)
    ensures g.Valid() && g.State() == old(g.State()) && g.Repr() == old(g.Repr())
  {
  }
}
