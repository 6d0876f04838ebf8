/**
 * The depth-first visitor of src/graph/DFO.java. The abstract `operation`
 * is represented by the list of vertices it is handed during the latest run,
 * in call order; the methods are proved to follow Visit, VisitAll and
 * Traverse of DfoSpec.
 */
module Dfo {
  import opened Wrappers
  import opened Lists
  import opened SymbolTables
  import opened GraphSpec
  import opened Graphs
  import opened DfoSpec

  class DFO<V(==)> {
    /** The `marked` table: each vertex beside whether it has been visited. */
    var marked: ST<V, bool>
    const graph: Graph<V>
    /** The vertices handed to `operation` during the latest run, in call order. */
    var performed: seq<V>

    constructor (g: Graph<V>)
      ensures graph == g && performed == [] && fresh(marked)
    {
      graph := g;
      marked := new ST();
      performed := [];
    }

    /** The search the fields stand for. */
    ghost function Current(): Search<V>
      reads this, marked
    {
      Search(marked.keys, marked.vals, performed)
    }

    /** The table is well formed and lies outside the graph. */
    ghost predicate Ready()
      reads this, marked, graph, graph.Repr()
    {
      graph.Valid() && marked.Valid() && this !in graph.Repr() && marked !in graph.Repr()
    }

    /**
     * `run()`: builds a fresh table with every vertex unmarked, in order, then
     * searches from the first vertex; an empty graph throws.
     */
    method Run() returns (r: Outcome<()>)
      requires graph.Valid()
      modifies this
      ensures Ready() && fresh(marked) && graph.State() == old(graph.State())
      ensures r.Throw? <==> Traverse(graph.State()).Throw?
      ensures r.Throw? ==> r.error == IndexOutOfBounds && performed == []
      ensures r.Return? ==> Current() == Traverse(graph.State()).value
    {
      marked := new ST();
      performed := [];
      var vs := graph.GetVertices();
      Unmark(marked, vs);
      if |vs| == 0 {
        r := Throw(IndexOutOfBounds);
      } else {
        assert Current() == Unvisited(graph.State());
        IndexOfUnique(vs, vs[0], 0);
        Dfs(vs[0]);
        r := Return(());
      }
    }

    /** The loop of `run` that puts every vertex in the new table beside false. */
    static method Unmark(t: ST<V, bool>, vs: seq<V>)
      requires t.Valid() && t.keys == [] && t.vals == []
      modifies t
      ensures t.Valid() && t.keys == vs && |t.vals| == |vs|
      ensures forall j :: 0 <= j < |vs| ==> !t.vals[j]
    {
      for i := 0 to |vs|
        invariant t.Valid() && t.keys == vs[..i] && |t.vals| == i
        invariant forall j :: 0 <= j < i ==> !t.vals[j]
      {
        t.Add(vs[i], false);
        TakeOneMore(vs, i);
      }
      assert vs[..|vs|] == vs;
    }

    /** The first three statements of `dfs`: `vertex` is marked and handed to `operation`. */
    method MarkVisited(vertex: V)
      requires Ready() && vertex in marked.keys
      modifies this, marked
      ensures Ready() && marked == old(marked) && graph.State() == old(graph.State())
      ensures Current() == Mark(old(Current()), vertex)
    {
      ghost var s := Current();
      var _ := marked.Remove(vertex);
      marked.Add(vertex, true);
      performed := performed + [vertex];
      GraphUnchanged(graph);
    }

    /**
     * `dfs(g, vertex)`: marks `vertex`, hands it to `operation`, then searches
     * from each entry of its list that still reads false, in list order.
     */
    method Dfs(vertex: V)
      requires Ready() && Covers(graph.State(), Current())
      requires vertex in graph.State().keys && Fresh(Current(), vertex)
      modifies this, marked
      ensures Ready() && marked == old(marked) && graph.State() == old(graph.State())
      ensures Current() == Visit(graph.State(), old(Current()), vertex)
      decreases Unmarked(Current()), 0
    {
      ghost var g := graph.State();
      ghost var m := marked;
      var ns := Enter(vertex);
      Scan(g, ns, m);
    }

    /** The start of `dfs`: `vertex` is marked and handed to `operation`, and its list is fetched. */
    method Enter(vertex: V) returns (ns: seq<V>)
      requires Ready() && Covers(graph.State(), Current())
      requires vertex in graph.State().keys && Fresh(Current(), vertex)
      modifies this, marked
      ensures Scanning(old(graph.State()), Current(), ns, 0, old(marked))
      ensures Current() == Mark(old(Current()), vertex) && ns == Adj(old(graph.State()), vertex)
    {
      ghost var g := graph.State();
      assert Closed(g);
      MarkVisited(vertex);
      var l := graph.GetAdj(vertex);
      ns := l.value.items;
      assert forall u :: u in ns ==> u in g.keys;
    }

    /** The loop of `dfs` over the list `ns` of the vertex just marked. */
    method Scan(ghost g: GraphState<V>, ns: seq<V>, ghost m: ST<V, bool>)
      requires Scanning(g, Current(), ns, 0, m)
      modifies this, marked
      ensures Scanning(g, old(Current()), ns, |ns|, m)
      decreases Unmarked(Current()), 2
    {
      ghost var s1 := Current();
      for i := 0 to |ns|
        invariant Scanning(g, s1, ns, i, m)
      {
        Branch(g, s1, ns, i, m);
      }
    }

    /** The loop of `dfs` over the list `ns` of a vertex, before entry `i`. */
    ghost predicate Scanning(g: GraphState<V>, s1: Search<V>, ns: seq<V>, i: nat, m: ST<V, bool>)
      reads this, marked, graph, graph.Repr()
    {
      && Ready() && marked == m && graph.State() == g && i <= |ns|
      && WellFormed(g) && Closed(g) && Table(s1) && Covers(g, s1) && (forall u :: u in ns ==> u in g.keys)
      && Table(Current()) && Covers(g, Current()) && Unmarked(Current()) <= Unmarked(s1)
      && VisitAll(g, Current(), ns[i..]) == VisitAll(g, s1, ns)
    }

    /** One turn of the loop of `dfs`: `marked.get(n)`, and a search from `n` when it reads false. */
    method Branch(ghost g: GraphState<V>, ghost s1: Search<V>, ns: seq<V>, i: nat, ghost m: ST<V, bool>)
      requires Scanning(g, s1, ns, i, m) && i < |ns|
      modifies this, marked
      ensures Scanning(g, s1, ns, i + 1, m)
      decreases Unmarked(Current()), 1
    {
      ghost var c := Current();
      assert ns[i] in c.keys;
      label BeforeGet:
      var b := marked.Get(ns[i]);
      GraphUnchanged@BeforeGet(graph);
      assert b == Some(!Fresh(c, ns[i]));
      assert VisitAll(g, c, ns[i..]) == VisitAll(g, if Fresh(c, ns[i]) then Visit(g, c, ns[i]) else c, ns[i + 1..]);
      if !b.value {
        Dfs(ns[i]);
      }
    }
  }
}
