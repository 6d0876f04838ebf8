/**
 * What the operations of src/pcbEditor/Net.java do to the net's graph, as
 * functions on graph states, and when the segments of a net stay matched
 * with the edges of its graph. A segment is represented by its two pads,
 * `(p0, p1)`.
 */
module NetSpec {
  import opened Wrappers
  import opened Lists
  import opened GraphSpec

  /**
   * The vertex insertion of `addSegment(a, b)`: `b` joins when only `a` is
   * present, both join (`b` first) when neither is, and when only `b` is
   * present `b` is appended a second time while `a` stays out.
   */
  function Admit<V(==)>(g: GraphState<V>, a: V, b: V): (r: GraphState<V>)
    ensures r.edges == g.edges && (WellFormed(g) ==> WellFormed(r))
    ensures HasVertex(r, b)
    ensures HasVertex(r, a) <==> HasVertex(g, a) || !HasVertex(g, b)
    ensures forall v :: v in g.keys ==> v in r.keys
  {
    if HasVertex(g, a) && !HasVertex(g, b) then AddVertex(g, b)
    else if HasVertex(g, b) && !HasVertex(g, a) then AddVertex(g, b)
    else if !HasVertex(g, a) && !HasVertex(g, b) then AddVertex(AddVertex(g, b), a)
    else g
  }

  /** The graph after a successful `addSegment(a, b)`: admission, then `addE(a, b)`, whose answer is ignored. */
  function Connect<V(==)>(g: GraphState<V>, a: V, b: V): (r: GraphState<V>)
    requires WellFormed(g)
    ensures WellFormed(r)
    ensures r.edges == g.edges + (if AddEdge(Admit(g, a, b), a, b).1 then 1 else 0)
  {
    AddEdge(Admit(g, a, b), a, b).0
  }

  /** The two pads of segment `e` are `a` and `b`, in either order: the test of `removeSegment(p0, p1)`. */
  predicate Joins<V(==)>(e: (V, V), a: V, b: V) {
    e == (a, b) || e == (b, a)
  }

  /** The loop of `removeSegment(p0, p1)`: the position of the first segment joining `a` and `b`. */
  function Find<V(==)>(ends: seq<(V, V)>, a: V, b: V): (r: Option<nat>)
    ensures r.Some? ==> r.value < |ends| && Joins(ends[r.value], a, b)
    ensures r.Some? ==> forall j :: 0 <= j < r.value ==> !Joins(ends[j], a, b)
    ensures r.None? <==> forall j :: 0 <= j < |ends| ==> !Joins(ends[j], a, b)
  {
    if ends == [] then None
    else if Joins(ends[0], a, b) then Some(0)
    else match Find(ends[1..], a, b)
      case None => None
      case Some(k) => Some(k + 1)
  }

  /** The number of segments joining `a` and `b`, in either orientation. */
  function Links<V(==)>(ends: seq<(V, V)>, a: V, b: V): nat {
    if ends == [] then 0 else (if Joins(ends[0], a, b) then 1 else 0) + Links(ends[1..], a, b)
  }

  lemma {:induction false} LinksConcat<V>(s: seq<(V, V)>, t: seq<(V, V)>, a: V, b: V)
    ensures Links(s + t, a, b) == Links(s, a, b) + Links(t, a, b)
  {
    if s == [] {
      assert s + t == t;
    } else {
      assert (s + t)[0] == s[0] && (s + t)[1..] == s[1..] + t;
      LinksConcat(s[1..], t, a, b);
    }
  }

  /** No segment joins `a` and `b` exactly when the count is zero, which is when the search finds none. */
  lemma {:induction false} LinksZero<V>(ends: seq<(V, V)>, a: V, b: V)
    ensures Links(ends, a, b) == 0 <==> forall i :: 0 <= i < |ends| ==> !Joins(ends[i], a, b)
    ensures Links(ends, a, b) == 0 <==> Find(ends, a, b).None?
  {
    if ends != [] {
      LinksZero(ends[1..], a, b);
      assert forall i :: 1 <= i < |ends| ==> ends[i] == ends[1..][i - 1];
    }
  }

  /** Appending a segment counts it once for its own pair. */
  lemma LinksAppend<V>(ends: seq<(V, V)>, e: (V, V), a: V, b: V)
    ensures Links(ends + [e], a, b) == Links(ends, a, b) + (if Joins(e, a, b) then 1 else 0)
  {
    LinksConcat(ends, [e], a, b);
  }

  /** Deleting the segment at `k` uncounts it for its own pair only. */
  lemma LinksDelete<V>(ends: seq<(V, V)>, k: nat, a: V, b: V)
    requires k < |ends|
    ensures Links(Delete(ends, k), a, b) == Links(ends, a, b) - (if Joins(ends[k], a, b) then 1 else 0)
  {
    var p, q := ends[..k], ends[k + 1..];
    var t := [ends[k]] + q;
    assert ends == p + t by {
      assert ends == ends[..k] + ends[k..];
      assert ends[k..] == t;
    }
    assert Delete(ends, k) == p + q;
    assert Links(t, a, b) == (if Joins(ends[k], a, b) then 1 else 0) + Links(q, a, b) by {
      assert t[0] == ends[k] && t[1..] == q;
    }
    LinksConcat(p, t, a, b);
    LinksConcat(p, q, a, b);
  }

  /**
   * The segments of a net agree with the edges of its graph: the graph is
   * sane, there is one segment per counted edge, each segment joins two
   * different pads of the graph, and each list names a pad as often as
   * segments join the two.
   */
  ghost predicate Matched<V>(g: GraphState<V>, ends: seq<(V, V)>) {
    && Sane(g)
    && |ends| == g.edges
    && (forall i :: 0 <= i < |ends| ==> ends[i].0 != ends[i].1 && ends[i].0 in g.keys && ends[i].1 in g.keys)
    && (forall a, b {:trigger Count(Adj(g, a), b)} :: a in g.keys && b in g.keys ==> Count(Adj(g, a), b) == Links(ends, a, b))
  }

  /** Each matched segment stands for an edge, seen from either end. */
  lemma MatchedEdge<V>(g: GraphState<V>, ends: seq<(V, V)>, i: nat)
    requires Matched(g, ends) && i < |ends|
    ensures HasEdge(g, ends[i].0, ends[i].1) && HasEdge(g, ends[i].1, ends[i].0)
  {
    LinksZero(ends, ends[i].0, ends[i].1);
    LinksZero(ends, ends[i].1, ends[i].0);
    assert Count(Adj(g, ends[i].0), ends[i].1) > 0;
    assert Count(Adj(g, ends[i].1), ends[i].0) > 0;
  }

  /** No matched segment is a self-loop, so no pad lists itself. */
  lemma NoSelfLinks<V>(g: GraphState<V>, ends: seq<(V, V)>, x: V)
    requires Matched(g, ends)
    ensures Links(ends, x, x) == 0
  {
    LinksZero(ends, x, x);
  }

  /** `addV(v)` keeps the segments matched: old lists are untouched and a new list is empty. */
  lemma AddVertexMatched<V>(g: GraphState<V>, ends: seq<(V, V)>, v: V)
    requires Matched(g, ends)
    ensures Matched(AddVertex(g, v), ends)
  {
    var r := AddVertex(g, v);
    AddVertexSane(g, v);
    forall x, y | x in r.keys && y in r.keys ensures Count(Adj(r, x), y) == Links(ends, x, y) {
      AddVertexLinks(g, ends, v, x, y);
    }
  }

  /** One pair of vertices of the graph after `addV(v)`: as many list entries as segments. */
  lemma AddVertexLinks<V>(g: GraphState<V>, ends: seq<(V, V)>, v: V, x: V, y: V)
    requires WellFormed(g) && Closed(g) && x in g.keys + [v] && y in g.keys + [v]
    requires forall i :: 0 <= i < |ends| ==> ends[i].0 in g.keys && ends[i].1 in g.keys
    requires x in g.keys && y in g.keys ==> Count(Adj(g, x), y) == Links(ends, x, y)
    ensures Count(Adj(AddVertex(g, v), x), y) == Links(ends, x, y)
  {
    AdjAfterAddVertex(g, v, x);
    if x !in g.keys || y !in g.keys {
      LinksZero(ends, x, y);
      if x in g.keys {
        assert y !in Adj(g, x);
      }
    }
  }

  lemma AdmitMatched<V>(g: GraphState<V>, ends: seq<(V, V)>, a: V, b: V)
    requires Matched(g, ends)
    ensures Matched(Admit(g, a, b), ends)
  {
    if HasVertex(g, a) && !HasVertex(g, b) {
      AddVertexMatched(g, ends, b);
    } else if HasVertex(g, b) && !HasVertex(g, a) {
      AddVertexMatched(g, ends, b);
    } else if !HasVertex(g, a) && !HasVertex(g, b) {
      AddVertexMatched(g, ends, b);
      AddVertexMatched(AddVertex(g, b), ends, a);
    }
  }

  /** Admission leaves the list of every vertex already present alone. */
  lemma AdmitKeepsLists<V>(g: GraphState<V>, a: V, b: V, x: V)
    requires WellFormed(g) && x in g.keys
    ensures x in Admit(g, a, b).keys && Adj(Admit(g, a, b), x) == Adj(g, x)
  {
    if HasVertex(g, a) && !HasVertex(g, b) {
      AdjAfterAddVertex(g, b, x);
    } else if HasVertex(g, b) && !HasVertex(g, a) {
      AdjAfterAddVertex(g, b, x);
    } else if !HasVertex(g, a) && !HasVertex(g, b) {
      AdjAfterAddVertex(g, b, x);
      AdjAfterAddVertex(AddVertex(g, b), a, x);
    }
  }

  /** After admission a present `a` keeps its list and a newly added `a` has none. */
  lemma AdmitNoEdge<V>(g: GraphState<V>, a: V, b: V)
    requires Sane(g) && !HasEdge(g, a, b) && (HasVertex(g, a) || !HasVertex(g, b))
    ensures !HasEdge(Admit(g, a, b), a, b)
  {
    if HasVertex(g, a) {
      AdmitKeepsLists(g, a, b, a);
    } else {
      AdjAfterAddVertex(g, b, b);
      AdjAfterAddVertex(AddVertex(g, b), a, a);
    }
  }

  /**
   * `addSegment(a, b)` keeps the segments matched with the edges exactly when
   * the pads differ, they share no edge yet, and they are not in the one case
   * where `b` is present and `a` is not: there the second insertion of `b`
   * leaves `a` out, `addE` refuses, and a segment without an edge is added.
   */
  lemma ConnectMatched<V>(g: GraphState<V>, ends: seq<(V, V)>, a: V, b: V)
    requires Matched(g, ends)
    ensures Matched(Connect(g, a, b), ends + [(a, b)]) <==>
      a != b && !HasEdge(g, a, b) && (HasVertex(g, a) || !HasVertex(g, b))
  {
    var g1 := Admit(g, a, b);
    var e := ends + [(a, b)];
    AdmitMatched(g, ends, a, b);
    if a != b && !HasEdge(g, a, b) && (HasVertex(g, a) || !HasVertex(g, b)) {
      AdmitNoEdge(g, a, b);
      ConnectGrows(g1, ends, a, b);
    } else if a == b {
      assert e[|ends|].0 == e[|ends|].1;
    } else if HasEdge(g, a, b) {
      AdmitKeepsLists(g, a, b, a);
      assert !AddEdge(g1, a, b).1;
    } else {
      assert !AddEdge(g1, a, b).1;
    }
  }

  /** A new edge between two different present pads, recorded with a new segment, keeps the match. */
  lemma ConnectGrows<V>(g: GraphState<V>, ends: seq<(V, V)>, a: V, b: V)
    requires Matched(g, ends) && a != b && AddEdge(g, a, b).1
    ensures Matched(AddEdge(g, a, b).0, ends + [(a, b)])
  {
    var r := AddEdge(g, a, b).0;
    var e := ends + [(a, b)];
    AddEdgeSane(g, a, b);
    forall i | 0 <= i < |e| ensures e[i].0 != e[i].1 && e[i].0 in r.keys && e[i].1 in r.keys {
      if i < |ends| {
        assert e[i] == ends[i];
      }
    }
    forall x, y | x in r.keys && y in r.keys ensures Count(Adj(r, x), y) == Links(e, x, y) {
      GrowsLinks(g, ends, a, b, x, y);
    }
  }

  /** One pair of vertices after a new edge between two different pads: one more entry for one more segment. */
  lemma GrowsLinks<V>(g: GraphState<V>, ends: seq<(V, V)>, a: V, b: V, x: V, y: V)
    requires WellFormed(g) && a != b && AddEdge(g, a, b).1 && x in g.keys
    requires Count(Adj(g, x), y) == Links(ends, x, y)
    ensures Count(Adj(AddEdge(g, a, b).0, x), y) == Links(ends + [(a, b)], x, y)
  {
    AddEdgeCount(g, a, b, x, y);
    LinksAppend(ends, (a, b), x, y);
  }

  /** The list of `x` once the edge between `a` and `b` has lost one entry at each end. */
  function Without<V(==)>(g: GraphState<V>, a: V, b: V, x: V): seq<V>
    requires WellFormed(g) && x in g.keys
  {
    if x == a then RemoveFirst(Adj(g, a), b)
    else if x == b then RemoveFirst(Adj(g, b), a)
    else Adj(g, x)
  }

  /** `removeE(a, b)` of an edge between two different pads takes one entry from each end's list. */
  lemma RemoveEdgeAdj<V>(g: GraphState<V>, a: V, b: V, x: V)
    requires WellFormed(g) && HasEdge(g, a, b) && a != b && x in g.keys
    ensures Adj(RemoveEdge(g, a, b).0, x) == Without(g, a, b, x)
  {
  }

  /** Dropping the segment at `k` together with one copy of its edge keeps the match. */
  lemma RemoveEdgeMatched<V>(g: GraphState<V>, ends: seq<(V, V)>, k: nat)
    requires Matched(g, ends) && k < |ends|
    ensures RemoveEdge(g, ends[k].0, ends[k].1).1
    ensures Matched(RemoveEdge(g, ends[k].0, ends[k].1).0, Delete(ends, k))
  {
    var a, b := ends[k].0, ends[k].1;
    var r := RemoveEdge(g, a, b).0;
    var d := Delete(ends, k);
    MatchedEdge(g, ends, k);
    RemoveEdgeSane(g, a, b);
    forall i | 0 <= i < |d| ensures d[i].0 != d[i].1 && d[i].0 in r.keys && d[i].1 in r.keys {
      assert d[i] == ends[if i < k then i else i + 1];
    }
    forall x, y | x in r.keys && y in r.keys ensures Count(Adj(r, x), y) == Links(d, x, y) {
      if x == y {
        NoSelfLinks(g, ends, x);
      }
      DropsLinks(g, ends, k, x, y);
    }
  }

  /** One pair of vertices after the edge of segment `k` loses one copy: one entry fewer for one segment fewer. */
  lemma DropsLinks<V>(g: GraphState<V>, ends: seq<(V, V)>, k: nat, x: V, y: V)
    requires Sane(g) && k < |ends| && ends[k].0 != ends[k].1 && HasEdge(g, ends[k].0, ends[k].1) && x in g.keys
    requires Count(Adj(g, x), y) == Links(ends, x, y) && (x == y ==> Links(ends, x, y) == 0)
    ensures Count(Adj(RemoveEdge(g, ends[k].0, ends[k].1).0, x), y) == Links(Delete(ends, k), x, y)
  {
    RemoveEdgeCount(g, ends[k].0, ends[k].1, x, y);
    LinksDelete(ends, k, x, y);
  }

  /**
   * The pruning in `removeSegment`: an endpoint that is visible stays; an
   * invisible one is looked up with `getAdj`, which answers null for a
   * missing vertex, and is removed when its list is empty.
   */
  function Prune<V(==)>(g: GraphState<V>, v: V, visible: bool): (r: Outcome<GraphState<V>>)
    requires Sane(g)
    ensures r.Throw? <==> !visible && !HasVertex(g, v)
    ensures r.Throw? ==> r.error == NullPointer
    ensures r.Return? ==> Sane(r.value) && r.value.edges == g.edges
  {
    RemoveVertexSane(g, v);
    if visible then Return(g)
    else if v !in g.keys then Throw(NullPointer)
    else if Adj(g, v) == [] then Return(RemoveVertex(g, v).0)
    else Return(g)
  }

  /** Pruning a present vertex changes no list that stays, and drops only an invisible vertex with an empty list. */
  lemma PruneAdj<V>(g: GraphState<V>, v: V, visible: bool, x: V)
    requires Sane(g) && v in g.keys && x in g.keys
    ensures x in Prune(g, v, visible).value.keys ==> Adj(Prune(g, v, visible).value, x) == Adj(g, x)
    ensures x !in Prune(g, v, visible).value.keys ==> x == v && !visible && Adj(g, v) == []
  {
    if !visible && Adj(g, v) == [] {
      var r := RemoveVertex(g, v).0;
      var i := IndexOf(g.keys, v);
      assert r.keys == Delete(g.keys, i);
      DeleteKeeps(g.keys, i);
      if x in r.keys {
        PruneEmpty(g, v, x);
      }
    }
  }

  /** Pruning a present vertex keeps the match: a vertex with an empty list has no segment. */
  lemma PruneMatched<V>(g: GraphState<V>, ends: seq<(V, V)>, v: V, visible: bool)
    requires Matched(g, ends) && v in g.keys
    ensures Matched(Prune(g, v, visible).value, ends)
  {
    var r := Prune(g, v, visible).value;
    forall i | 0 <= i < |ends| ensures ends[i].0 in r.keys && ends[i].1 in r.keys {
      MatchedEdge(g, ends, i);
      PruneAdj(g, v, visible, ends[i].0);
      PruneAdj(g, v, visible, ends[i].1);
    }
    forall x, y | x in r.keys && y in r.keys ensures Count(Adj(r, x), y) == Links(ends, x, y) {
      PruneInKeys(g, v, visible, x);
      PruneInKeys(g, v, visible, y);
      PruneAdj(g, v, visible, x);
    }
  }

  /** Pruning adds no vertex. */
  lemma PruneInKeys<V>(g: GraphState<V>, v: V, visible: bool, x: V)
    requires Sane(g) && v in g.keys && x in Prune(g, v, visible).value.keys
    ensures x in g.keys
  {
    if !visible && Adj(g, v) == [] {
      PruneEmpty(g, v, x);
    }
  }

  /** `removeV` of a vertex with an empty list drops its first key and changes no list that stays. */
  lemma PruneEmpty<V>(g: GraphState<V>, v: V, x: V)
    requires Sane(g) && v in g.keys && Adj(g, v) == [] && x in RemoveVertex(g, v).0.keys
    ensures x in g.keys && Adj(RemoveVertex(g, v).0, x) == Adj(g, x)
  {
    CompletesCovering(g, v);
    RemoveVertexIsRemoval(g, v);
    assert Upto(g, v, Reach(Adj(g, v), v)) == [];
    RemovalAdj(g, v, [], x);
  }

  /**
   * `removeSegment(seg)` on the graph, for a segment from `a` to `b` whose
   * net is `net` (None for null) in the net `self`: `removeE(a, b)` runs
   * first, so a false answer leaves the graph alone, while a segment without
   * a net throws, and one of another net answers false, only after the edge
   * is gone; otherwise `a` and then `b` are pruned.
   */
  function Unwire<V(==), N(==)>(g: GraphState<V>, a: V, b: V, net: Option<N>, self: N, va: bool, vb: bool)
    : (r: (Outcome<bool>, GraphState<V>))
    requires Sane(g)
    ensures Sane(r.1)
    ensures r.0.Throw? ==> r.0.error == NullPointer
    ensures r.0 == Return(true) ==> HasEdge(g, a, b) && net == Some(self)
    ensures !HasEdge(g, a, b) ==> r == (Return(false), g)
    ensures HasEdge(g, a, b) && net.None? ==> r == (Throw(NullPointer), RemoveEdge(g, a, b).0)
    ensures HasEdge(g, a, b) && net.Some? && net.value != self ==> r == (Return(false), RemoveEdge(g, a, b).0)
  {
    RemoveEdgeSane(g, a, b);
    var (g1, removed) := RemoveEdge(g, a, b);
    if !removed then (Return(false), g)
    else if net.None? then (Throw(NullPointer), g1)
    else if net.value != self then (Return(false), g1)
    else PruneBoth(g1, a, b, va, vb)
  }

  /** The end of a successful `removeSegment`: `a` is pruned, then `b`, stopping at a throw; true otherwise. */
  function PruneBoth<V(==)>(g: GraphState<V>, a: V, b: V, va: bool, vb: bool): (r: (Outcome<bool>, GraphState<V>))
    requires Sane(g)
    ensures Sane(r.1)
    ensures r.0.Throw? ==> r.0.error == NullPointer
    ensures r.0.Return? ==> r.0 == Return(true)
  {
    match Prune(g, a, va)
    case Throw(e) => (Throw(e), g)
    case Return(g2) =>
      match Prune(g2, b, vb)
      case Throw(e) => (Throw(e), g2)
      case Return(g3) => (Return(true), g3)
  }

  /** For an edge between two different pads of its own net, `removeSegment` removes the edge and prunes both ends. */
  lemma UnwireOwned<V, N>(g: GraphState<V>, a: V, b: V, self: N, va: bool, vb: bool)
    requires Sane(g) && HasEdge(g, a, b) && a != b
    ensures Sane(RemoveEdge(g, a, b).0)
    ensures b in Prune(RemoveEdge(g, a, b).0, a, va).value.keys
    ensures Unwire(g, a, b, Some(self), self, va, vb) ==
      (Return(true), Prune(Prune(RemoveEdge(g, a, b).0, a, va).value, b, vb).value)
  {
    RemoveEdgeSane(g, a, b);
    PruneAdj(RemoveEdge(g, a, b).0, a, va, b);
  }

  /** Removing a matched segment of the net succeeds and keeps the remaining segments matched. */
  lemma UnwireMatched<V, N>(g: GraphState<V>, ends: seq<(V, V)>, k: nat, self: N, va: bool, vb: bool)
    requires Matched(g, ends) && k < |ends|
    ensures Unwire(g, ends[k].0, ends[k].1, Some(self), self, va, vb).0 == Return(true)
    ensures Matched(Unwire(g, ends[k].0, ends[k].1, Some(self), self, va, vb).1, Delete(ends, k))
  {
    var a, b := ends[k].0, ends[k].1;
    MatchedEdge(g, ends, k);
    UnwireOwned(g, a, b, self, va, vb);
    var g1 := RemoveEdge(g, a, b).0;
    RemoveEdgeMatched(g, ends, k);
    PruneMatched(g1, Delete(ends, k), a, va);
    PruneMatched(Prune(g1, a, va).value, Delete(ends, k), b, vb);
  }

  /**
   * After a matched segment from `a` to `b` is removed, each pad keeps its
   * list minus the other end, and a pad that is gone had nothing left.
   */
  lemma UnwireAdj<V, N>(g: GraphState<V>, ends: seq<(V, V)>, k: nat, self: N, va: bool, vb: bool, x: V)
    requires Matched(g, ends) && k < |ends| && x in g.keys
    ensures x in Unwire(g, ends[k].0, ends[k].1, Some(self), self, va, vb).1.keys ==>
      Adj(Unwire(g, ends[k].0, ends[k].1, Some(self), self, va, vb).1, x) == Without(g, ends[k].0, ends[k].1, x)
    ensures x !in Unwire(g, ends[k].0, ends[k].1, Some(self), self, va, vb).1.keys ==>
      Without(g, ends[k].0, ends[k].1, x) == []
  {
    var a, b := ends[k].0, ends[k].1;
    MatchedEdge(g, ends, k);
    UnwireOwned(g, a, b, self, va, vb);
    var g1 := RemoveEdge(g, a, b).0;
    RemoveEdgeSane(g, a, b);
    RemoveEdgeAdj(g, a, b, x);
    var g2 := Prune(g1, a, va).value;
    PruneAdj(g1, a, va, x);
    if x in g2.keys {
      PruneAdj(g2, b, vb, x);
    }
  }

  /** A matched segment touches no pad whose list is empty. */
  lemma IsolatedUntouched<V>(g: GraphState<V>, ends: seq<(V, V)>, v: V)
    requires Matched(g, ends) && v in g.keys && Adj(g, v) == []
    ensures forall i :: 0 <= i < |ends| ==> ends[i].0 != v && ends[i].1 != v
  {
    forall i | 0 <= i < |ends| ensures ends[i].0 != v && ends[i].1 != v {
      MatchedEdge(g, ends, i);
    }
  }

  /** A neighbour listed for `a` is another pad, joined to `a` by some segment. */
  lemma NeighbourFound<V>(g: GraphState<V>, ends: seq<(V, V)>, a: V, b: V)
    requires Matched(g, ends) && a in g.keys && b in Adj(g, a)
    ensures a != b && b in g.keys && Find(ends, a, b).Some?
  {
    assert Count(Adj(g, a), b) > 0;
    NoSelfLinks(g, ends, a);
    LinksZero(ends, a, b);
  }

  /** `removeV(v)` of a vertex with an empty list succeeds and keeps the segments matched. */
  lemma IsolatedRemoval<V>(g: GraphState<V>, ends: seq<(V, V)>, v: V)
    requires Matched(g, ends) && v in g.keys && Adj(g, v) == []
    ensures RemoveVertex(g, v).1 == Return(true)
    ensures Matched(RemoveVertex(g, v).0, ends)
  {
    var i := IndexOf(g.keys, v);
    RemoveVertexSane(g, v);
    RemoveVertexIsRemoval(g, v);
    var r := RemoveVertex(g, v).0;
    assert Upto(g, v, Reach(Adj(g, v), v)) == [];
    assert Covering(g, v, []);
    assert r == DeleteKey(g, v);
    IsolatedUntouched(g, ends, v);
    DeleteKeeps(g.keys, i);
    forall a, b | a in r.keys && b in r.keys ensures Count(Adj(r, a), b) == Links(ends, a, b) {
      RemovalAdj(g, v, [], a);
      RemovalAdj(g, v, [], b);
      if a == v {
        LinksZero(ends, a, b);
      }
    }
  }
}
