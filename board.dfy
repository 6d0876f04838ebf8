/**
 * The nets of a board taken together, as src/pcbEditor/DesignArea.java
 * reaches them: each net of its list `nets` is called through `getNet()`
 * of a pad or a segment, and a call changes that net only. This module
 * gives each Net call the area makes a wrapper that states what the call
 * does to the whole list, and the folds that say what the Delete key does.
 */
module Board {
  import opened Wrappers
  import opened Lists
  import opened GraphSpec
  import opened SymbolTables
  import opened Graphs
  import opened NetSpec
  import opened Pcb

  /** The graphs of `nets`. */
  function NetGraphs(nets: seq<Net>): set<Graph<Pad>> {
    set n | n in nets :: n.graph
  }

  /** The symbol tables of the graphs of `nets`. */
  function Tables(nets: seq<Net>): set<ST<Pad, VertexList<Pad>>> {
    set n | n in nets :: n.graph.adj
  }

  /** The adjacency list objects of the graphs of `nets`. */
  ghost function Cells(nets: seq<Net>): set<VertexList<Pad>>
    reads Tables(nets)`vals
  {
    set n, l | n in nets && l in n.graph.adj.vals :: l
  }

  /** The graph of a net of `nets`, its table and its lists are among theirs. */
  lemma InCells(nets: seq<Net>, n: Net)
    requires n in nets
    ensures n.graph in NetGraphs(nets) && n.graph.adj in Tables(nets)
  {
  }

  /** Every net of `nets` is consistent, and two different nets have different graphs. */
  ghost predicate NetsValid(nets: seq<Net>)
    reads NetGraphs(nets)`lists, NetGraphs(nets)`edges, Tables(nets)`keys, Tables(nets)`vals, Cells(nets)`items
  {
    && (forall n :: n in nets ==> n.Valid())
    && (forall m, n :: m in nets && n in nets && m != n ==> m.graph.adj != n.graph.adj)
  }

  /** The graph and the segments of each net of `nets`. */
  ghost function Wirings(nets: seq<Net>): (r: map<Net, Wiring>)
    reads (set n | n in nets)`segs
    reads (set n | n in nets :: n.graph)`lists, (set n | n in nets :: n.graph)`edges
    reads (set n | n in nets :: n.graph.adj)`keys
    ensures r.Keys == set n | n in nets
  {
    map n | n in nets :: Wiring(n.graph.State(), n.segs)
  }

  /** The wirings are read from the segment lists, the graph fields and the key lists only. */
  twostate lemma WiringsStay(nets: seq<Net>)
    requires forall n :: n in nets ==> unchanged(n`segs, n.graph`lists, n.graph`edges, n.graph.adj`keys)
    ensures Wirings(nets) == old(Wirings(nets))
  {
  }

  /** The nets stay consistent, with the same wirings, while no segment list, graph field, table or adjacency list of theirs changes. */
  twostate lemma NetsStay(nets: seq<Net>)
    requires old(NetsValid(nets))
    requires forall n :: n in nets ==> unchanged(n`segs, n.graph`lists, n.graph`edges, n.graph.adj`keys, n.graph.adj`vals)
    requires forall n, l :: n in nets && l in n.graph.adj.vals ==> unchanged(l`items)
    ensures NetsValid(nets) && Wirings(nets) == old(Wirings(nets))
  {
    WiringsStay(nets);
    forall n | n in nets
      ensures n.Valid()
    {
      assert old(n.Valid());
    }
  }

  /** No net of `nets` but `n` shares a graph or a table with `n`. */
  predicate Disjoint(nets: seq<Net>, n: Net) {
    forall m :: m in nets && m != n ==> m.graph != n.graph && m.graph.adj != n.graph.adj
  }

  /** Every net of `nets` but `n` holds the segments, graph fields and table it held before. */
  twostate predicate Untouched(nets: seq<Net>, new n: Net)
    reads (set m | m in nets)`segs, NetGraphs(nets)`lists, NetGraphs(nets)`edges, Tables(nets)`keys, Tables(nets)`vals
  {
    forall m :: m in nets && m != n ==> unchanged(m`segs, m.graph`lists, m.graph`edges, m.graph.adj`keys, m.graph.adj`vals)
  }

  /**
   * After a call that changed, among the graphs of `nets`, only the objects
   * of the graph of `n` and the lists made for it: the others hold the same
   * state, and all nets are consistent when `n` still is.
   */
  twostate lemma OthersStay(nets: seq<Net>, new n: Net)
    requires old(NetsValid(nets)) && n in nets && Untouched(nets, n)
    requires forall l: VertexList<Pad> :: old(allocated(l)) && l.owner != n.graph.adj ==> unchanged(l`items)
    ensures n.Valid() ==> NetsValid(nets)
    ensures Wirings(nets) == old(Wirings(nets))[n := Wiring(n.graph.State(), n.segs)]
  {
    forall m | m in nets && m != n
      ensures m.graph.Valid() && m.graph.State() == old(m.graph.State())
    {
      GraphUnchanged(m.graph);
    }
  }

  /** After a call that changed no net of `nets` but `n`, only `n` has a new wiring. */
  twostate lemma WiringsOne(nets: seq<Net>, new n: Net)
    requires n in nets && Untouched(nets, n)
    ensures Wirings(nets) == old(Wirings(nets))[n := Wiring(n.graph.State(), n.segs)]
  {
  }

  /** Two different nets of `nets` share no graph object. */
  lemma Apart(nets: seq<Net>, n: Net)
    requires NetsValid(nets) && n in nets
    ensures Disjoint(nets, n)
  {
  }

  /** The pads at the ends of the segments of the nets of `nets`. */
  function Wired(nets: seq<Net>): set<Pad>
    reads set n | n in nets
  {
    set n, p | n in nets && p in PadsOf(n.segs) :: p
  }

  /** The ends of a segment of one of the nets are wired pads. */
  lemma WiredEnds(nets: seq<Net>, n: Net, k: Option<nat>)
    requires n in nets
    ensures Net.EndsAt(n.segs, k) <= Wired(nets)
  {
    if k.Some? && k.value < |n.segs| {
      var s := n.segs[k.value];
      assert s.p0 in PadsOf(n.segs) && s.p1 in PadsOf(n.segs);
    }
  }

  /** The ends of every segment of one of the nets are wired pads. */
  lemma WiredNet(nets: seq<Net>, n: Net)
    requires n in nets
    ensures PadsOf(n.segs) <= Wired(nets)
  {
  }

  /** `addSegment(p0, p1, w)` in the net `self`, given the nets of `p0` and `p1` before: a throw when `p0` has none. */
  function Claimed(n0: Option<Net>, n1: Option<Net>, self: Net): (r: Outcome<bool>)
    ensures r.Throw? <==> n0.None?
    ensures r == Return(true) <==> n0 == Some(self) && (n1.None? || n1 == Some(self))
  {
    if n0.None? then Throw(NullPointer) else Return(n0 == Some(self) && (n1.None? || n1 == Some(self)))
  }

  /**
   * What `n.addSegment(p0, p1, w)` did: the answer `Claimed` gives, the
   * pads without a net joined to `n`, and, on true, a new segment from `p0`
   * to `p1` appended and the graph connected; otherwise the net unchanged.
   */
  twostate predicate AddedTo(n: Net, p0: Pad, p1: Pad, new r: Outcome<bool>)
    reads {n}`segs, n.graph`lists, n.graph`edges, n.graph.adj`keys, {p0}`net, {p1}`net
  {
    && r == Claimed(old(p0.net), old(p1.net), n)
    && p0.net == (if old(p0.net).None? then Some(n) else old(p0.net))
    && p1.net == (if old(p1.net).None? then Some(n) else old(p1.net))
    && (r == Return(true) ==>
      && WellFormed(old(n.graph.State())) && n.graph.State() == Connect(old(n.graph.State()), p0, p1)
      && |n.segs| == |old(n.segs)| + 1 && n.segs[..|old(n.segs)|] == old(n.segs)
      && fresh(n.segs[|old(n.segs)|]) && n.segs[|old(n.segs)|].p0 == p0 && n.segs[|old(n.segs)|].p1 == p1)
    && (r != Return(true) ==> n.graph.State() == old(n.graph.State()) && n.segs == old(n.segs))
  }

  /** `n.addSegment(p0, p1, w)` for a net `n` of `nets`: `n` changes as `AddedTo` says, and every other net stays. */
  method AddIn(ghost nets: seq<Net>, n: Net, p0: Pad, p1: Pad, width: real) returns (r: Outcome<bool>)
    requires NetsValid(nets) && n in nets
    modifies n`segs, n.graph`edges, n.graph`lists, n.graph.adj`keys, n.graph.adj`vals, (iset l: VertexList<Pad> | l.owner == n.graph.adj)`items, p0`net, p1`net, p0`listeners, p1`listeners
    ensures NetsValid(nets)
    ensures AddedTo(n, p0, p1, r)
    ensures Wirings(nets) == old(Wirings(nets))[n := Wiring(n.graph.State(), n.segs)]
  {
    Apart(nets, n);
    r := n.AddSegment(p0, p1, width);
    if r.Return? && r != Return(true) {
      assert !r.value;
    }
    OthersStay(nets, n);
  }

  /** `n.addSegment(p0, p1, w)`, which changes no other net: `n` changes as `AddedTo` says. */
  method AddApart(ghost nets: seq<Net>, n: Net, p0: Pad, p1: Pad, width: real) returns (r: Outcome<bool>)
    requires n.Valid() && Disjoint(nets, n)
    modifies n`segs, n.graph`edges, n.graph`lists, n.graph.adj`keys, n.graph.adj`vals, (iset l: VertexList<Pad> | l.owner == n.graph.adj)`items, p0`net, p1`net, p0`listeners, p1`listeners
    ensures n.Valid() && AddedTo(n, p0, p1, r)
    ensures Untouched(nets, n)
    ensures forall l: VertexList<Pad> :: old(allocated(l)) && l.owner != n.graph.adj ==> unchanged(l`items)
  {
    r := n.AddSegment(p0, p1, width);
    if r.Return? && r != Return(true) {
      assert !r.value;
    }
  }

  /** `n.removeSegment(a, b)`: what it does to the graph and the segments of `n`. */
  method Unlinked(n: Net, a: Pad, b: Pad) returns (o: Outcome<bool>)
    requires n.Valid()
    modifies n`segs, n.graph`edges, n.graph`lists, n.graph.adj`keys, n.graph.adj`vals, (iset l: VertexList<Pad> | l.owner == n.graph.adj)`items, PadsOf(n.segs)`listeners
    ensures n.Valid()
    ensures (o, Wiring(n.graph.State(), n.segs)) == Between(old(Wiring(n.graph.State(), n.segs)), old(Seen(n.segs)), n, a, b)
  {
    o := n.RemoveSegmentBetween(a, b, Pcb.PadsOf(n.segs));
  }

  /** `n.removeSegment(a, b)`, which changes no net reference. */
  method SegmentBetween(ghost nets: seq<Net>, n: Net, a: Pad, b: Pad) returns (o: Outcome<bool>)
    requires n.Valid() && Disjoint(nets, n)
    modifies n`segs, n.graph`edges, n.graph`lists, n.graph.adj`keys, n.graph.adj`vals, (iset l: VertexList<Pad> | l.owner == n.graph.adj)`items, PadsOf(n.segs)`listeners
    ensures n.Valid()
    ensures (o, Wiring(n.graph.State(), n.segs)) == Between(old(Wiring(n.graph.State(), n.segs)), old(Seen(n.segs)), n, a, b)
    ensures forall p: Pad :: old(allocated(p)) ==> p.net == old(p.net)
    ensures forall s: Segment :: old(allocated(s)) ==> s.net == old(s.net)
    ensures Untouched(nets, n)
    ensures forall l: VertexList<Pad> :: old(allocated(l)) && l.owner != n.graph.adj ==> unchanged(l`items)
  {
    o := Unlinked(n, a, b);
  }

  /**
   * `n.removeSegment(a, b)` for a net `n` of `nets`: `n` changes as
   * `Between` says, and every other net holds the same graph and segments.
   */
  method RemoveBetween(ghost nets: seq<Net>, n: Net, a: Pad, b: Pad) returns (o: Outcome<bool>)
    requires NetsValid(nets) && n in nets
    modifies n`segs, n.graph`edges, n.graph`lists, n.graph.adj`keys, n.graph.adj`vals, (iset l: VertexList<Pad> | l.owner == n.graph.adj)`items, PadsOf(n.segs)`listeners
    ensures NetsValid(nets)
    ensures (o, Wiring(n.graph.State(), n.segs)) == Between(old(Wiring(n.graph.State(), n.segs)), old(Seen(n.segs)), n, a, b)
    ensures Wirings(nets) == old(Wirings(nets))[n := Wiring(n.graph.State(), n.segs)]
    ensures forall p: Pad :: old(allocated(p)) ==> p.net == old(p.net)
    ensures forall s: Segment :: old(allocated(s)) ==> s.net == old(s.net)
  {
    Apart(nets, n);
    o := SegmentBetween(nets, n, a, b);
    OthersStay(nets, n);
  }

  /**
   * What `n.removeSegment(a, b)` does to the wirings `w` of all nets when
   * its answer is dropped: a throw stays a throw, and only `n` changes.
   */
  function HeadOut(w: map<Net, Wiring>, c: Looks, n: Net, a: Pad, b: Pad): (r: (Outcome<()>, map<Net, Wiring>))
    requires n in w && Sane(w[n].g) && Covers(w[n].segs, c)
    ensures r.1.Keys == w.Keys && Sane(r.1[n].g)
    ensures r.0.Throw? ==> r.0 == Throw(NullPointer)
    ensures forall m :: m in w && m != n ==> r.1[m] == w[m]
  {
    var (o, wn) := Between(w[n], c, n, a, b);
    (if o.Throw? then Throw(o.error) else Return(()), w[n := wn])
  }

  /** `n.setSelected(state)`, which changes no graph and no segment list. */
  method Mark(ghost nets: seq<Net>, n: Net, state: bool)
    requires NetsValid(nets)
    modifies n`selected
    ensures n.selected == state && NetsValid(nets) && Wirings(nets) == old(Wirings(nets))
  {
    n.SetSelected(state);
  }

  /** What `n.removePad(pad)` did to the graph and the segments of `n` and to the net of `pad`, as `Unplug` says. */
  twostate predicate Unplugs(n: Net, pad: Pad, new r: Outcome<bool>)
    reads n`segs, n.graph`lists, n.graph`edges, n.graph.adj`keys, pad`net
  {
    && Sane(old(n.graph.State()))
    && (r, Wiring(n.graph.State(), n.segs)) == Unplug(old(Wiring(n.graph.State(), n.segs)), old(Seen(n.segs)), n, pad)
    && pad.net == if r == Return(true) then None else old(pad.net)
  }

  /** `n.removePad(pad)`: what it does to the graph and the segments of `n` and to the net of `pad`. */
  method PadUnplug(n: Net, pad: Pad) returns (r: Outcome<bool>)
    requires n.Valid()
    modifies n`segs, n.graph`edges, n.graph`lists, n.graph.adj`keys, n.graph.adj`vals, (iset l: VertexList<Pad> | l.owner == n.graph.adj)`items, PadsOf(n.segs)`listeners, pad`net
    ensures r.Return? ==> n.Valid()
    ensures Unplugs(n, pad, r)
  {
    r := n.RemovePad(pad);
  }

  /** `n.removePad(pad)`, which changes no other net. */
  method PadApart(ghost nets: seq<Net>, n: Net, pad: Pad) returns (r: Outcome<bool>)
    requires n.Valid() && Disjoint(nets, n)
    modifies n`segs, n.graph`edges, n.graph`lists, n.graph.adj`keys, n.graph.adj`vals, (iset l: VertexList<Pad> | l.owner == n.graph.adj)`items, PadsOf(n.segs)`listeners, pad`net
    ensures r.Return? ==> n.Valid()
    ensures Unplugs(n, pad, r)
    ensures Untouched(nets, n)
    ensures forall l: VertexList<Pad> :: old(allocated(l)) && l.owner != n.graph.adj ==> unchanged(l`items)
  {
    r := PadUnplug(n, pad);
  }

  /** `n.removePad(pad)`, which changes the net of `pad` only and no visibility. */
  method PadOut(ghost nets: seq<Net>, n: Net, pad: Pad) returns (r: Outcome<bool>)
    requires n.Valid() && Disjoint(nets, n)
    modifies n`segs, n.graph`edges, n.graph`lists, n.graph.adj`keys, n.graph.adj`vals, (iset l: VertexList<Pad> | l.owner == n.graph.adj)`items, PadsOf(n.segs)`listeners, pad`net
    ensures r.Return? ==> n.Valid()
    ensures Unplugs(n, pad, r)
    ensures forall p: Pad :: old(allocated(p)) ==> (p == pad || p.net == old(p.net)) && p.visible == old(p.visible)
    ensures forall s: Segment :: old(allocated(s)) ==> s.net == old(s.net)
    ensures Untouched(nets, n)
    ensures forall l: VertexList<Pad> :: old(allocated(l)) && l.owner != n.graph.adj ==> unchanged(l`items)
  {
    r := PadApart(nets, n, pad);
  }

  /** What `n.removeSegment(seg)` did to the graph and the segments of `n`, as `Unwire` says. */
  twostate predicate Unwound(n: Net, seg: Segment, new r: Outcome<bool>)
    reads n`segs, n.graph`lists, n.graph`edges, n.graph.adj`keys
  {
    && Sane(old(n.graph.State()))
    && (r, n.graph.State()) == Unwire(old(n.graph.State()), seg.p0, seg.p1, old(seg.net), n, old(seg.p0.visible), old(seg.p1.visible))
    && n.segs == if r == Return(true) then RemoveFirst(old(n.segs), seg) else old(n.segs)
  }

  /** `n.removeSegment(seg)`: what it does to the graph and the segments of `n`. */
  method Unwired(n: Net, seg: Segment) returns (r: Outcome<bool>)
    requires n.Valid()
    modifies n`segs, n.graph`edges, n.graph`lists, n.graph.adj`keys, n.graph.adj`vals, (iset l: VertexList<Pad> | l.owner == n.graph.adj)`items, seg.p0`listeners, seg.p1`listeners
    ensures n.Valid()
    ensures Unwound(n, seg, r)
  {
    r := n.RemoveSegment(seg, {seg.p0, seg.p1});
  }

  /** `n.removeSegment(seg)`, which changes no other net. */
  method UnwiredApart(ghost nets: seq<Net>, n: Net, seg: Segment) returns (r: Outcome<bool>)
    requires n.Valid() && Disjoint(nets, n)
    modifies n`segs, n.graph`edges, n.graph`lists, n.graph.adj`keys, n.graph.adj`vals, (iset l: VertexList<Pad> | l.owner == n.graph.adj)`items, seg.p0`listeners, seg.p1`listeners
    ensures n.Valid()
    ensures Unwound(n, seg, r)
    ensures Untouched(nets, n)
    ensures forall l: VertexList<Pad> :: old(allocated(l)) && l.owner != n.graph.adj ==> unchanged(l`items)
  {
    r := Unwired(n, seg);
  }

  /** `n.removeSegment(seg)`, which changes no net reference and no visibility. */
  method SegmentOut(ghost nets: seq<Net>, n: Net, seg: Segment) returns (r: Outcome<bool>)
    requires n.Valid() && Disjoint(nets, n)
    modifies n`segs, n.graph`edges, n.graph`lists, n.graph.adj`keys, n.graph.adj`vals, (iset l: VertexList<Pad> | l.owner == n.graph.adj)`items, seg.p0`listeners, seg.p1`listeners
    ensures n.Valid()
    ensures Unwound(n, seg, r)
    ensures forall p: Pad :: old(allocated(p)) ==> p.net == old(p.net) && p.visible == old(p.visible)
    ensures forall s: Segment :: old(allocated(s)) ==> s.net == old(s.net)
    ensures Untouched(nets, n)
    ensures forall l: VertexList<Pad> :: old(allocated(l)) && l.owner != n.graph.adj ==> unchanged(l`items)
  {
    r := UnwiredApart(nets, n, seg);
  }

  /**
   * What the Delete key works on: the wiring of each net, and the net each
   * pad it may reach answers to `getNet()`.
   */
  datatype Layout = Layout(w: map<Net, Wiring>, owners: map<Pad, Option<Net>>)

  /** Every wiring is sane and its segments are on record. */
  ghost predicate Fits(l: Layout, c: Looks) {
    forall n :: n in l.w ==> Sane(l.w[n].g) && Covers(l.w[n].segs, c)
  }

  /** Every net a pad on record answers is one of the layout's. */
  predicate Homed(l: Layout) {
    forall p :: p in l.owners && l.owners[p].Some? ==> l.owners[p].value in l.w
  }

  /** The segment is on record and the net it answers, if any, is one of the layout's. */
  predicate Led(l: Layout, c: Looks, s: Segment) {
    Known(c, s) && (c.nets[s].Some? ==> c.nets[s].value in l.w)
  }

  /**
   * `pad.getNet().removePad(pad)`: a throw when the pad has no net;
   * otherwise its net changes as `Unplug` says, and the pad loses its net
   * when the answer is true.
   */
  function DropPad(l: Layout, c: Looks, pad: Pad): (r: (Outcome<()>, Layout))
    requires Fits(l, c) && Homed(l) && pad in l.owners
    ensures r.1.w.Keys == l.w.Keys && r.1.owners.Keys == l.owners.Keys && Homed(r.1)
    ensures r.0.Return? ==> Fits(r.1, c)
    ensures r.0.Throw? ==> r.0.error in {NullPointer, ConcurrentModification}
    ensures l.owners[pad].None? ==> r == (Throw(NullPointer), l)
  {
    match l.owners[pad]
    case None => (Throw(NullPointer), l)
    case Some(n) =>
      var (o, w1) := Unplug(l.w[n], c, n, pad);
      (if o.Throw? then Throw(o.error) else Return(()),
       Layout(l.w[n := w1], if o == Return(true) then l.owners[pad := None] else l.owners))
  }

  /** The first loop of the Delete key: `removePad` for each selected pad, stopping at a throw. */
  function DropPads(l: Layout, c: Looks, pads: seq<Pad>): (r: (Outcome<()>, Layout))
    requires Fits(l, c) && Homed(l) && forall p :: p in pads ==> p in l.owners
    ensures r.1.w.Keys == l.w.Keys && r.1.owners.Keys == l.owners.Keys && Homed(r.1)
    ensures r.0.Return? ==> Fits(r.1, c)
    decreases |pads|
  {
    if pads == [] then (Return(()), l)
    else
      var (o, l1) := DropPad(l, c, pads[0]);
      if o.Throw? then (o, l1) else DropPads(l1, c, pads[1..])
  }

  /**
   * `seg.getNet().removeSegment(seg)`: a throw when the segment has no
   * net; otherwise its net changes as `Snip` says.
   */
  function DropSeg(l: Layout, c: Looks, s: Segment): (r: (Outcome<()>, Layout))
    requires Fits(l, c) && Homed(l) && Led(l, c, s)
    ensures r.1.w.Keys == l.w.Keys && r.1.owners == l.owners && Homed(r.1) && Fits(r.1, c)
    ensures c.nets[s].None? ==> r == (Throw(NullPointer), l)
  {
    match c.nets[s]
    case None => (Throw(NullPointer), l)
    case Some(n) =>
      var (o, w1) := Snip(l.w[n], c, n, s);
      Refit(l, c, n, w1);
      (if o.Throw? then Throw(o.error) else Return(()), l.(w := l.w[n := w1]))
  }

  /** Giving a net of the layout a sane wiring made of some of its segments keeps the layout fitting and homed. */
  lemma Refit(l: Layout, c: Looks, n: Net, w1: Wiring)
    requires Fits(l, c) && Homed(l) && n in l.w
    requires Sane(w1.g) && forall x :: x in w1.segs ==> x in l.w[n].segs
    ensures Fits(l.(w := l.w[n := w1]), c) && Homed(l.(w := l.w[n := w1]))
  {
  }

  /** The second loop of the Delete key: `removeSegment` for each selected segment, stopping at a throw. */
  function DropSegs(l: Layout, c: Looks, segs: seq<Segment>): (r: (Outcome<()>, Layout))
    requires Fits(l, c) && Homed(l) && forall s :: s in segs ==> Led(l, c, s)
    ensures r.1.w.Keys == l.w.Keys && r.1.owners == l.owners && Homed(r.1) && Fits(r.1, c)
    decreases |segs|
  {
    if segs == [] then (Return(()), l)
    else
      var r1 := DropSeg(l, c, segs[0]);
      LedKept(l, r1.1, c, segs[1..]);
      if r1.0.Throw? then r1 else DropSegs(r1.1, c, segs[1..])
  }

  /** The pads of a part's footprint: `removePad` for each of them that has a net, stopping at a throw. */
  function DropFootprint(l: Layout, c: Looks, pads: seq<Pad>): (r: (Outcome<()>, Layout))
    requires Fits(l, c) && Homed(l) && forall p :: p in pads ==> p in l.owners
    ensures r.1.w.Keys == l.w.Keys && r.1.owners.Keys == l.owners.Keys && Homed(r.1)
    ensures r.0.Return? ==> Fits(r.1, c)
    decreases |pads|
  {
    if pads == [] then (Return(()), l)
    else if l.owners[pads[0]].None? then DropFootprint(l, c, pads[1..])
    else
      var (o, l1) := DropPad(l, c, pads[0]);
      if o.Throw? then (o, l1) else DropFootprint(l1, c, pads[1..])
  }

  /**
   * The third loop of the Delete key: the pads of each selected part are
   * removed from their nets, then the part from the list `parts`.
   */
  function DropParts(l: Layout, c: Looks, sel: seq<Part>, parts: seq<Part>): (r: (Outcome<()>, Layout, seq<Part>))
    requires Fits(l, c) && Homed(l)
    requires forall part, p :: part in sel && p in part.fp.pads ==> p in l.owners
    ensures r.1.w.Keys == l.w.Keys && r.1.owners.Keys == l.owners.Keys && Homed(r.1)
    ensures r.0.Return? ==> Fits(r.1, c)
    decreases |sel|
  {
    if sel == [] then (Return(()), l, parts)
    else
      var (o, l1) := DropFootprint(l, c, sel[0].fp.pads);
      if o.Throw? then (o, l1, parts) else DropParts(l1, c, sel[1..], RemoveFirst(parts, sel[0]))
  }

  /**
   * `n.removePad(pad)` for a net `n` of `nets`: `n` changes as `Unplug`
   * says, every other net stays, and all are consistent unless it threw.
   */
  method PadIn(ghost nets: seq<Net>, n: Net, pad: Pad) returns (r: Outcome<bool>)
    requires NetsValid(nets) && n in nets
    modifies n`segs, n.graph`edges, n.graph`lists, n.graph.adj`keys, n.graph.adj`vals, (iset l: VertexList<Pad> | l.owner == n.graph.adj)`items, PadsOf(n.segs)`listeners, pad`net
    ensures r.Return? ==> NetsValid(nets)
    ensures (r, Wiring(n.graph.State(), n.segs)) == Unplug(old(Wiring(n.graph.State(), n.segs)), old(Seen(n.segs)), n, pad)
    ensures Wirings(nets) == old(Wirings(nets))[n := Wiring(n.graph.State(), n.segs)]
    ensures forall x :: x in n.segs ==> x in old(n.segs)
    ensures pad.net == if r == Return(true) then None else old(pad.net)
    ensures forall p: Pad :: old(allocated(p)) ==> (p == pad || p.net == old(p.net)) && p.visible == old(p.visible)
    ensures forall s: Segment :: old(allocated(s)) ==> s.net == old(s.net)
  {
    Apart(nets, n);
    r := PadOut(nets, n, pad);
    OthersStay(nets, n);
  }

  /**
   * `n.removeSegment(seg)` for a net `n` of `nets`: `n` changes as
   * `Unwire` says, and every other net stays.
   */
  method SegmentIn(ghost nets: seq<Net>, n: Net, seg: Segment) returns (r: Outcome<bool>)
    requires NetsValid(nets) && n in nets
    modifies n`segs, n.graph`edges, n.graph`lists, n.graph.adj`keys, n.graph.adj`vals, (iset l: VertexList<Pad> | l.owner == n.graph.adj)`items, seg.p0`listeners, seg.p1`listeners
    ensures NetsValid(nets)
    ensures (r, n.graph.State())
      == Unwire(old(n.graph.State()), seg.p0, seg.p1, old(seg.net), n, old(seg.p0.visible), old(seg.p1.visible))
    ensures n.segs == if r == Return(true) then RemoveFirst(old(n.segs), seg) else old(n.segs)
    ensures forall x :: x in n.segs ==> x in old(n.segs)
    ensures Wirings(nets) == old(Wirings(nets))[n := Wiring(n.graph.State(), n.segs)]
    ensures forall p: Pad :: old(allocated(p)) ==> p.net == old(p.net) && p.visible == old(p.visible)
    ensures forall s: Segment :: old(allocated(s)) ==> s.net == old(s.net)
  {
    Apart(nets, n);
    r := SegmentOut(nets, n, seg);
    OthersStay(nets, n);
    forall x | x in n.segs
      ensures x in old(n.segs)
    {
      if r == Return(true) {
        RemoveFirstSubset(old(n.segs), seg, x);
      }
    }
  }

  /**
   * The nets of `nets` are consistent and spell the layout `l`, the pads
   * on record have the nets `l` gives them, and `c` holds the nets of the
   * segments of `S`, which holds every segment of the nets, and the
   * visibility of their pads.
   */
  ghost predicate Mirrors(nets: seq<Net>, l: Layout, c: Looks, S: seq<Segment>)
    reads set n | n in nets
    reads NetGraphs(nets)`lists, NetGraphs(nets)`edges, Tables(nets)`keys, Tables(nets)`vals, Cells(nets)`items
    reads (set p | p in l.owners)`net
    reads set s | s in S
    reads PadsOf(S)`visible
  {
    && NetsValid(nets) && Wirings(nets) == l.w
    && (forall p :: p in l.owners ==> p.net == l.owners[p])
    && Agrees(S, PadsOf(S), c)
    && (forall n, x :: n in nets && x in n.segs ==> x in S)
  }

  /** A layout the nets spell is sane and on record. */
  lemma MirrorsFit(nets: seq<Net>, l: Layout, c: Looks, S: seq<Segment>)
    requires Mirrors(nets, l, c, S)
    ensures Fits(l, c)
  {
    forall n | n in l.w
      ensures Sane(l.w[n].g) && Covers(l.w[n].segs, c)
    {
      assert n in Wirings(nets);
    }
  }

  /** What a turn of the Delete key starts from: the nets, their layout and record, all segments, and the net it changes. */
  datatype Turn = Turn(nets: seq<Net>, l: Layout, c: Looks, S: seq<Segment>, n: Net)

  /**
   * After a turn that shrank the segments of one net, left the nets of the
   * segments and the visibility of the pads alone, and gave the pads on
   * record the nets `l1` gives them: the nets spell `l1`.
   */
  twostate lemma MirrorsKept(t: Turn, new l1: Layout)
    requires old(Mirrors(t.nets, t.l, t.c, t.S)) && NetsValid(t.nets) && t.n in t.nets
    requires Wirings(t.nets) == old(Wirings(t.nets))[t.n := Wiring(t.n.graph.State(), t.n.segs)]
    requires forall x :: x in t.n.segs ==> x in old(t.n.segs)
    requires l1.w == Wirings(t.nets) && l1.owners.Keys == t.l.owners.Keys
    requires forall p :: p in l1.owners ==> p.net == l1.owners[p]
    requires forall p: Pad :: old(allocated(p)) ==> p.visible == old(p.visible)
    requires forall s: Segment :: old(allocated(s)) ==> s.net == old(s.net)
    ensures Mirrors(t.nets, l1, t.c, t.S)
  {
    assert Agrees(t.S, PadsOf(t.S), t.c);
    forall m, x | m in t.nets && x in m.segs
      ensures x in t.S
    {
      if m != t.n {
        assert m in Wirings(t.nets) && m in old(Wirings(t.nets));
        assert Wirings(t.nets)[m] == old(Wirings(t.nets))[m];
      }
    }
  }

  /** Updating a key a map holds keeps its keys. */
  lemma UpdateKeys<K, V>(m: map<K, V>, k: K, v: V)
    requires k in m
    ensures m[k := v].Keys == m.Keys
  {
  }

  /** What a turn of the first loop of the Delete key leaves: the pad, the new layout, and whether the pad lost its net. */
  datatype Unplugged = Unplugged(pad: Pad, l1: Layout, gone: bool)

  /**
   * After `removePad(u.pad)` in the net `t.n`, which took the net of the
   * pad away when `u.gone` and changed no other pad's net: the nets spell
   * `u.l1`.
   */
  twostate lemma PadKept(t: Turn, new u: Unplugged)
    requires old(Mirrors(t.nets, t.l, t.c, t.S)) && NetsValid(t.nets) && t.n in t.nets && u.pad in t.l.owners
    requires Wirings(t.nets) == old(Wirings(t.nets))[t.n := Wiring(t.n.graph.State(), t.n.segs)]
    requires forall x :: x in t.n.segs ==> x in old(t.n.segs)
    requires u.l1.w == Wirings(t.nets) && u.l1.owners == if u.gone then t.l.owners[u.pad := None] else t.l.owners
    requires u.pad.net == if u.gone then None else t.l.owners[u.pad]
    requires forall p: Pad :: old(allocated(p)) ==> (p == u.pad || p.net == old(p.net)) && p.visible == old(p.visible)
    requires forall s: Segment :: old(allocated(s)) ==> s.net == old(s.net)
    ensures Mirrors(t.nets, u.l1, t.c, t.S)
  {
    if u.gone {
      UpdateKeys(t.l.owners, u.pad, None);
    }
    forall p | p in u.l1.owners
      ensures p.net == u.l1.owners[p]
    {
      if p != u.pad {
        assert old(p.net) == t.l.owners[p];
      }
    }
    MirrorsKept(t, u.l1);
  }

  /** One turn of the first loop of the Delete key: `pad.getNet().removePad(pad)`. */
  method PadStep(ghost nets: seq<Net>, ghost l: Layout, ghost c: Looks, ghost S: seq<Segment>, pad: Pad)
    returns (o: Outcome<()>, ghost l1: Layout)
    requires Mirrors(nets, l, c, S) && Fits(l, c) && Homed(l) && pad in l.owners
    modifies (set n | n in nets)`segs, NetGraphs(nets)`edges, NetGraphs(nets)`lists, Tables(nets)`keys, Tables(nets)`vals, (iset l: VertexList<Pad> | l.owner in Tables(nets))`items, PadsOf(S)`listeners, pad`net
    ensures (o, l1) == DropPad(l, c, pad)
    ensures o.Return? ==> Mirrors(nets, l1, c, S)
    ensures Wirings(nets) == l1.w
    ensures pad.net == l1.owners[pad]
  {
    if pad.net.None? {
      o, l1 := Throw(NullPointer), l;
      return;
    }
    var n := pad.net.value;
    assert n in Wirings(nets);
    InCells(nets, n);
    PadsOfWithin(n.segs, S);
    AgreesWithin(n.segs, S, PadsOf(S), c);
    UnplugSeen(Wiring(n.graph.State(), n.segs), PadsOf(S), c, n, pad);
    var r := PadIn(nets, n, pad);
    o := if r.Throw? then Throw(r.error) else Return(());
    l1 := Layout(l.w[n := Wiring(n.graph.State(), n.segs)], if r == Return(true) then l.owners[pad := None] else l.owners);
    if o.Return? {
      PadKept(Turn(nets, l, c, S, n), Unplugged(pad, l1, r == Return(true)));
    }
  }

  /** One turn of the second loop of the Delete key: `seg.getNet().removeSegment(seg)`. */
  method SegStep(ghost nets: seq<Net>, ghost l: Layout, ghost c: Looks, ghost S: seq<Segment>, seg: Segment)
    returns (o: Outcome<()>, ghost l1: Layout)
    requires Mirrors(nets, l, c, S) && Fits(l, c) && Homed(l) && seg in S && Led(l, c, seg)
    modifies (set n | n in nets)`segs, NetGraphs(nets)`edges, NetGraphs(nets)`lists, Tables(nets)`keys, Tables(nets)`vals, (iset l: VertexList<Pad> | l.owner in Tables(nets))`items, PadsOf(S)`listeners
    ensures (o, l1) == DropSeg(l, c, seg)
    ensures Mirrors(nets, l1, c, S)
    ensures Wirings(nets) == l1.w
  {
    assert seg.p0 in PadsOf(S) && seg.p1 in PadsOf(S);
    if seg.net.None? {
      o, l1 := Throw(NullPointer), l;
      return;
    }
    var n := seg.net.value;
    assert n in Wirings(nets);
    InCells(nets, n);
    var r := SegmentIn(nets, n, seg);
    o := if r.Throw? then Throw(r.error) else Return(());
    l1 := l.(w := l.w[n := Wiring(n.graph.State(), n.segs)]);
    MirrorsKept(Turn(nets, l, c, S, n), l1);
  }

  /** One turn of `DropPads` from the `i`th pad on. */
  lemma DropPadsAt(l: Layout, c: Looks, pads: seq<Pad>, i: nat)
    requires Fits(l, c) && Homed(l) && i < |pads| && forall p :: p in pads ==> p in l.owners
    ensures DropPads(l, c, pads[i..])
      == var (o, l1) := DropPad(l, c, pads[i]); if o.Throw? then (o, l1) else DropPads(l1, c, pads[i + 1..])
  {
    assert pads[i..][0] == pads[i] && pads[i..][1..] == pads[i + 1..];
  }

  /** The first loop of the Delete key over `pads`, stopping at the first throw. */
  method PadsOut(ghost nets: seq<Net>, ghost l: Layout, ghost c: Looks, ghost S: seq<Segment>, pads: seq<Pad>)
    returns (o: Outcome<()>, ghost l1: Layout)
    requires Mirrors(nets, l, c, S) && Fits(l, c) && Homed(l) && forall p :: p in pads ==> p in l.owners
    modifies (set n | n in nets)`segs, NetGraphs(nets)`edges, NetGraphs(nets)`lists, Tables(nets)`keys, Tables(nets)`vals, (iset l: VertexList<Pad> | l.owner in Tables(nets))`items, PadsOf(S)`listeners, (set p | p in l.owners)`net
    ensures (o, l1) == DropPads(l, c, pads)
    ensures o.Return? ==> Mirrors(nets, l1, c, S)
    ensures Wirings(nets) == l1.w
  {
    o, l1 := Return(()), l;
    var i := 0;
    while i < |pads|
      invariant i <= |pads| && Fits(l1, c) && Homed(l1) && l1.owners.Keys == l.owners.Keys
      invariant forall p :: p in pads ==> p in l1.owners
      invariant Mirrors(nets, l1, c, S)
      invariant DropPads(l1, c, pads[i..]) == DropPads(l, c, pads)
    {
      DropPadsAt(l1, c, pads, i);
      o, l1 := PadStep(nets, l1, c, S, pads[i]);
      if o.Throw? {
        return;
      }
      i := i + 1;
    }
    o := Return(());
  }

  /** One turn of `DropSegs` from the `i`th segment on. */
  lemma DropSegsAt(l: Layout, c: Looks, segs: seq<Segment>, i: nat)
    requires Fits(l, c) && Homed(l) && i < |segs| && forall s :: s in segs ==> Led(l, c, s)
    ensures DropSegs(l, c, segs[i..])
      == (var r1 := DropSeg(l, c, segs[i]); LedKept(l, r1.1, c, segs[i + 1..]); if r1.0.Throw? then r1 else DropSegs(r1.1, c, segs[i + 1..]))
  {
    assert segs[i..][0] == segs[i] && segs[i..][1..] == segs[i + 1..];
  }

  /** The second loop of the Delete key over `segs`, stopping at the first throw. */
  method SegsOut(ghost nets: seq<Net>, ghost l: Layout, ghost c: Looks, ghost S: seq<Segment>, segs: seq<Segment>)
    returns (o: Outcome<()>, ghost l1: Layout)
    requires Mirrors(nets, l, c, S) && Fits(l, c) && Homed(l)
    requires forall s :: s in segs ==> s in S && Led(l, c, s)
    modifies (set n | n in nets)`segs, NetGraphs(nets)`edges, NetGraphs(nets)`lists, Tables(nets)`keys, Tables(nets)`vals, (iset l: VertexList<Pad> | l.owner in Tables(nets))`items, PadsOf(S)`listeners
    ensures (o, l1) == DropSegs(l, c, segs)
    ensures Mirrors(nets, l1, c, S)
  {
    o, l1 := Return(()), l;
    var i := 0;
    while i < |segs|
      invariant i <= |segs| && Fits(l1, c) && Homed(l1) && l1.w.Keys == l.w.Keys
      invariant forall s :: s in segs ==> Led(l1, c, s)
      invariant Mirrors(nets, l1, c, S)
      invariant DropSegs(l1, c, segs[i..]) == DropSegs(l, c, segs)
    {
      DropSegsAt(l1, c, segs, i);
      o, l1 := SegStep(nets, l1, c, S, segs[i]);
      if o.Throw? {
        return;
      }
      i := i + 1;
    }
    o := Return(());
  }

  /** One turn of `DropFootprint` from the `i`th pad on. */
  lemma DropFootprintAt(l: Layout, c: Looks, pads: seq<Pad>, i: nat)
    requires Fits(l, c) && Homed(l) && i < |pads| && forall p :: p in pads ==> p in l.owners
    ensures DropFootprint(l, c, pads[i..])
      == if l.owners[pads[i]].None? then DropFootprint(l, c, pads[i + 1..])
         else var (o, l1) := DropPad(l, c, pads[i]); if o.Throw? then (o, l1) else DropFootprint(l1, c, pads[i + 1..])
  {
    assert pads[i..][0] == pads[i] && pads[i..][1..] == pads[i + 1..];
  }

  /** The pads of one selected part: `removePad` for each that has a net, stopping at the first throw. */
  method FootprintOut(ghost nets: seq<Net>, ghost l: Layout, ghost c: Looks, ghost S: seq<Segment>, pads: seq<Pad>)
    returns (o: Outcome<()>, ghost l1: Layout)
    requires Mirrors(nets, l, c, S) && Fits(l, c) && Homed(l) && forall p :: p in pads ==> p in l.owners
    modifies (set n | n in nets)`segs, NetGraphs(nets)`edges, NetGraphs(nets)`lists, Tables(nets)`keys, Tables(nets)`vals, (iset l: VertexList<Pad> | l.owner in Tables(nets))`items, PadsOf(S)`listeners, (set p | p in l.owners)`net
    ensures (o, l1) == DropFootprint(l, c, pads)
    ensures o.Return? ==> Mirrors(nets, l1, c, S)
    ensures Wirings(nets) == l1.w
  {
    o, l1 := Return(()), l;
    var i := 0;
    while i < |pads|
      invariant i <= |pads| && Fits(l1, c) && Homed(l1) && l1.owners.Keys == l.owners.Keys
      invariant forall p :: p in pads ==> p in l1.owners
      invariant Mirrors(nets, l1, c, S)
      invariant DropFootprint(l1, c, pads[i..]) == DropFootprint(l, c, pads)
    {
      DropFootprintAt(l1, c, pads, i);
      assert pads[i].net == l1.owners[pads[i]];
      if pads[i].net.Some? {
        o, l1 := PadStep(nets, l1, c, S, pads[i]);
        if o.Throw? {
          return;
        }
      }
      i := i + 1;
    }
    o := Return(());
  }

  /** One turn of `DropParts` from the `i`th selected part on. */
  lemma DropPartsAt(l: Layout, c: Looks, sel: seq<Part>, parts: seq<Part>, i: nat)
    requires Fits(l, c) && Homed(l) && i < |sel|
    requires forall part, p :: part in sel && p in part.fp.pads ==> p in l.owners
    ensures DropParts(l, c, sel[i..], parts)
      == var r := DropFootprint(l, c, sel[i].fp.pads);
         if r.0.Throw? then (r.0, r.1, parts) else DropParts(r.1, c, sel[i + 1..], RemoveFirst(parts, sel[i]))
  {
    assert sel[i..][0] == sel[i] && sel[i..][1..] == sel[i + 1..];
  }

  /**
   * The third loop of the Delete key: the pads of each selected part leave
   * their nets, then the part leaves `parts`; it stops at the first throw.
   */
  method PartsOut(ghost nets: seq<Net>, ghost l: Layout, ghost c: Looks, ghost S: seq<Segment>, sel: seq<Part>, parts: seq<Part>)
    returns (o: Outcome<()>, ghost l1: Layout, ps: seq<Part>)
    requires Mirrors(nets, l, c, S) && Fits(l, c) && Homed(l)
    requires forall part, p :: part in sel && p in part.fp.pads ==> p in l.owners
    modifies (set n | n in nets)`segs, NetGraphs(nets)`edges, NetGraphs(nets)`lists, Tables(nets)`keys, Tables(nets)`vals, (iset l: VertexList<Pad> | l.owner in Tables(nets))`items, PadsOf(S)`listeners, (set p | p in l.owners)`net
    ensures (o, l1, ps) == DropParts(l, c, sel, parts)
    ensures o.Return? ==> Mirrors(nets, l1, c, S)
    ensures Wirings(nets) == l1.w
  {
    o, l1, ps := Return(()), l, parts;
    var i := 0;
    while i < |sel|
      invariant i <= |sel| && Fits(l1, c) && Homed(l1) && l1.owners.Keys == l.owners.Keys
      invariant forall part, p :: part in sel && p in part.fp.pads ==> p in l1.owners
      invariant Mirrors(nets, l1, c, S)
      invariant DropParts(l1, c, sel[i..], ps) == DropParts(l, c, sel, parts)
    {
      DropPartsAt(l1, c, sel, ps, i);
      o, l1 := FootprintOut(nets, l1, c, S, sel[i].fp.pads);
      if o.Throw? {
        return;
      }
      ps := RemoveFirst(ps, sel[i]);
      i := i + 1;
    }
    o := Return(());
  }

  /** A layout with the same nets leads the same segments. */
  lemma LedKept(l: Layout, l1: Layout, c: Looks, segs: seq<Segment>)
    requires l1.w.Keys == l.w.Keys && forall s :: s in segs ==> Led(l, c, s)
    ensures forall s :: s in segs ==> Led(l1, c, s)
  {
  }

  /**
   * What the Delete key leaves: the outcome, the layout, the list `parts`,
   * and how many of the three selection lists it emptied before it stopped.
   */
  datatype Deletion = Deletion(o: Outcome<()>, l: Layout, parts: seq<Part>, cleared: nat)

  /** The Delete key once the selected pads are gone: the segments, then the parts. */
  function DeletedRest(l: Layout, c: Looks, segs: seq<Segment>, sel: seq<Part>, parts: seq<Part>): (d: Deletion)
    requires Fits(l, c) && Homed(l)
    requires forall s :: s in segs ==> Led(l, c, s)
    requires forall part, p :: part in sel && p in part.fp.pads ==> p in l.owners
    ensures 1 <= d.cleared <= 3 && (d.o.Return? <==> d.cleared == 3)
    ensures d.l.w.Keys == l.w.Keys && d.l.owners.Keys == l.owners.Keys && Homed(d.l)
    ensures d.cleared < 2 ==> d.parts == parts
    ensures forall q :: q in d.parts ==> q in parts
  {
    var r2 := DropSegs(l, c, segs);
    if r2.0.Throw? then Deletion(r2.0, r2.1, parts, 1)
    else
      var r3 := DropParts(r2.1, c, sel, parts);
      DropPartsWithin(r2.1, c, sel, parts);
      Deletion(r3.0, r3.1, r3.2, if r3.0.Throw? then 2 else 3)
  }

  /**
   * The Delete key: the selected pads leave their nets, then the selected
   * segments, then the pads of the selected parts, and the parts leave
   * `parts`; each list is emptied once its loop is through, and a throw
   * ends it all.
   */
  function Deleted(l: Layout, c: Looks, pads: seq<Pad>, segs: seq<Segment>, sel: seq<Part>, parts: seq<Part>): (d: Deletion)
    requires Fits(l, c) && Homed(l)
    requires forall p :: p in pads ==> p in l.owners
    requires forall s :: s in segs ==> Led(l, c, s)
    requires forall part, p :: part in sel && p in part.fp.pads ==> p in l.owners
    ensures d.cleared <= 3 && (d.o.Return? <==> d.cleared == 3)
    ensures d.l.w.Keys == l.w.Keys && d.l.owners.Keys == l.owners.Keys && Homed(d.l)
    ensures d.cleared == 0 ==> d.o == DropPads(l, c, pads).0
    ensures d.cleared < 2 ==> d.parts == parts
    ensures forall q :: q in d.parts ==> q in parts
  {
    var r1 := DropPads(l, c, pads);
    if r1.0.Throw? then Deletion(r1.0, r1.1, parts, 0)
    else
      LedKept(l, r1.1, c, segs);
      DeletedRest(r1.1, c, segs, sel, parts)
  }

  /** The second and the third loop of the Delete key. */
  method EraseRest(ghost nets: seq<Net>, ghost l: Layout, ghost c: Looks, ghost S: seq<Segment>, segs: seq<Segment>, sel: seq<Part>, parts: seq<Part>)
    returns (o: Outcome<()>, ghost l1: Layout, ps: seq<Part>, cleared: nat)
    requires Mirrors(nets, l, c, S) && Fits(l, c) && Homed(l)
    requires forall s :: s in segs ==> s in S && Led(l, c, s)
    requires forall part, p :: part in sel && p in part.fp.pads ==> p in l.owners
    modifies (set n | n in nets)`segs, NetGraphs(nets)`edges, NetGraphs(nets)`lists, Tables(nets)`keys, Tables(nets)`vals, (iset l: VertexList<Pad> | l.owner in Tables(nets))`items, PadsOf(S)`listeners, (set p | p in l.owners)`net
    ensures Deletion(o, l1, ps, cleared) == DeletedRest(l, c, segs, sel, parts)
    ensures o.Return? ==> Mirrors(nets, l1, c, S)
    ensures Wirings(nets) == l1.w
  {
    o, l1 := SegsOut(nets, l, c, S, segs);
    if o.Throw? {
      ps, cleared := parts, 1;
      return;
    }
    o, l1, ps := PartsOut(nets, l1, c, S, sel, parts);
    cleared := if o.Throw? then 2 else 3;
  }

  /** The three loops of the Delete key, stopping at the first throw. */
  method Erase(ghost nets: seq<Net>, ghost l: Layout, ghost c: Looks, ghost S: seq<Segment>, pads: seq<Pad>, segs: seq<Segment>, sel: seq<Part>, parts: seq<Part>)
    returns (o: Outcome<()>, ghost l1: Layout, ps: seq<Part>, cleared: nat)
    requires Mirrors(nets, l, c, S) && Fits(l, c) && Homed(l)
    requires forall p :: p in pads ==> p in l.owners
    requires forall s :: s in segs ==> s in S && Led(l, c, s)
    requires forall part, p :: part in sel && p in part.fp.pads ==> p in l.owners
    modifies (set n | n in nets)`segs, NetGraphs(nets)`edges, NetGraphs(nets)`lists, Tables(nets)`keys, Tables(nets)`vals, (iset l: VertexList<Pad> | l.owner in Tables(nets))`items, PadsOf(S)`listeners, (set p | p in l.owners)`net
    ensures Deletion(o, l1, ps, cleared) == Deleted(l, c, pads, segs, sel, parts)
    ensures o.Return? ==> Mirrors(nets, l1, c, S)
    ensures Wirings(nets) == l1.w
  {
    o, l1 := PadsOut(nets, l, c, S, pads);
    if o.Throw? {
      ps, cleared := parts, 0;
      return;
    }
    LedKept(l, l1, c, segs);
    o, l1, ps, cleared := EraseRest(nets, l1, c, S, segs, sel, parts);
  }

  /**
   * `removePad` on a pad with a net: the pad loses its net when its net's
   * graph holds it and nothing throws; when the graph does not hold it,
   * nothing changes and the pad keeps its net.
   */
  lemma DropPadFrees(l: Layout, c: Looks, pad: Pad)
    requires Fits(l, c) && Homed(l) && pad in l.owners && l.owners[pad].Some?
    ensures HasVertex(l.w[l.owners[pad].value].g, pad) && DropPad(l, c, pad).0.Return? ==> DropPad(l, c, pad).1.owners[pad].None?
    ensures !HasVertex(l.w[l.owners[pad].value].g, pad) ==> DropPad(l, c, pad) == (Return(()), l)
  {
    var n := l.owners[pad].value;
    if !HasVertex(l.w[n].g, pad) {
      assert l.w[n := l.w[n]] == l.w;
    }
  }

  /** The first loop of the Delete key takes nets away from the pads it works on and from no other pad. */
  lemma {:induction false} DropPadsKeep(l: Layout, c: Looks, pads: seq<Pad>)
    requires Fits(l, c) && Homed(l) && forall p :: p in pads ==> p in l.owners
    ensures forall p :: p in l.owners ==> DropPads(l, c, pads).1.owners[p] == l.owners[p] || (p in pads && DropPads(l, c, pads).1.owners[p].None?)
    decreases |pads|
  {
    if pads != [] {
      var r := DropPad(l, c, pads[0]);
      if r.0.Return? {
        DropPadsKeep(r.1, c, pads[1..]);
      }
    }
  }

  /**
   * The third loop of the Delete key: from a list `parts` without repeats,
   * a run without a throw removes exactly the selected parts; a throw keeps
   * a sub-list.
   */
  lemma {:induction false} DropPartsGone(l: Layout, c: Looks, sel: seq<Part>, parts: seq<Part>)
    requires Fits(l, c) && Homed(l) && Distinct(parts)
    requires forall part, p :: part in sel && p in part.fp.pads ==> p in l.owners
    ensures Distinct(DropParts(l, c, sel, parts).2)
    ensures forall q :: q in DropParts(l, c, sel, parts).2 ==> q in parts
    ensures DropParts(l, c, sel, parts).0.Return? ==> forall q :: q in DropParts(l, c, sel, parts).2 <==> q in parts && q !in sel
    decreases |sel|
  {
    if sel != [] {
      var r := DropFootprint(l, c, sel[0].fp.pads);
      if r.0.Return? {
        RemoveFirstDistinct(parts, sel[0]);
        DropPartsGone(r.1, c, sel[1..], RemoveFirst(parts, sel[0]));
        forall q | q in sel ensures q == sel[0] || q in sel[1..] {
          var k :| 0 <= k < |sel| && sel[k] == q;
          if k > 0 { assert sel[1..][k - 1] == q; }
        }
      }
    }
  }

  /** A Delete key that goes through removes exactly the selected parts from a list without repeats. */
  lemma DeletedParts(l: Layout, c: Looks, pads: seq<Pad>, segs: seq<Segment>, sel: seq<Part>, parts: seq<Part>)
    requires Fits(l, c) && Homed(l) && Distinct(parts)
    requires forall p :: p in pads ==> p in l.owners
    requires forall s :: s in segs ==> Led(l, c, s)
    requires forall part, p :: part in sel && p in part.fp.pads ==> p in l.owners
    ensures Distinct(Deleted(l, c, pads, segs, sel, parts).parts)
    ensures Deleted(l, c, pads, segs, sel, parts).o.Return? ==>
      forall q :: q in Deleted(l, c, pads, segs, sel, parts).parts <==> q in parts && q !in sel
  {
    var r1 := DropPads(l, c, pads);
    if r1.0.Return? {
      LedKept(l, r1.1, c, segs);
      var r2 := DropSegs(r1.1, c, segs);
      if r2.0.Return? {
        DropPartsGone(r2.1, c, sel, parts);
      }
    }
  }

  /** The Delete key with nothing selected changes nothing. */
  lemma DeletedNothing(l: Layout, c: Looks, parts: seq<Part>)
    requires Fits(l, c) && Homed(l)
    ensures Deleted(l, c, [], [], [], parts) == Deletion(Return(()), l, parts, 3)
  {
  }

  /** The third loop of the Delete key keeps a sub-list of `parts`. */
  lemma {:induction false} DropPartsWithin(l: Layout, c: Looks, sel: seq<Part>, parts: seq<Part>)
    requires Fits(l, c) && Homed(l)
    requires forall part, p :: part in sel && p in part.fp.pads ==> p in l.owners
    ensures forall q :: q in DropParts(l, c, sel, parts).2 ==> q in parts
    decreases |sel|
  {
    if sel != [] {
      var r := DropFootprint(l, c, sel[0].fp.pads);
      if r.0.Return? {
        RemoveFirstWithin(parts, sel[0]);
        DropPartsWithin(r.1, c, sel[1..], RemoveFirst(parts, sel[0]));
      }
    }
  }

  /** The pads of two lists of segments joined. */
  lemma PadsOfJoin(a: seq<Segment>, b: seq<Segment>)
    ensures PadsOf(a + b) == PadsOf(a) + PadsOf(b)
  {
    assert forall s :: s in a + b <==> s in a || s in b;
  }

  /** The segments of all the nets of `nets`, net by net. */
  ghost function Flat(nets: seq<Net>): (r: seq<Segment>)
    reads set n | n in nets
    ensures forall n, x :: n in nets && x in n.segs ==> x in r
    ensures PadsOf(r) <= Wired(nets)
    decreases |nets|
  {
    if nets == [] then [] else
      var r := nets[0].segs + Flat(nets[1..]);
      assert forall n :: n in nets ==> n == nets[0] || n in nets[1..];
      PadsOfJoin(nets[0].segs, Flat(nets[1..]));
      r
  }

  /**
   * The nets of `nets` are consistent, and `owners` holds the net of each
   * pad it names, one of `nets` or none: the nets spell the layout of their
   * wirings and `owners`, on the record of every segment of the nets and
   * of `extra`.
   */
  lemma Ready(nets: seq<Net>, owners: map<Pad, Option<Net>>, extra: seq<Segment>)
    requires NetsValid(nets)
    requires forall p :: p in owners ==> p.net == owners[p] && (owners[p].Some? ==> owners[p].value in nets)
    ensures Mirrors(nets, Layout(Wirings(nets), owners), Seen(Flat(nets) + extra), Flat(nets) + extra)
    ensures Fits(Layout(Wirings(nets), owners), Seen(Flat(nets) + extra)) && Homed(Layout(Wirings(nets), owners))
    ensures forall s :: s in extra ==> Known(Seen(Flat(nets) + extra), s)
    ensures PadsOf(Flat(nets) + extra) <= Wired(nets) + PadsOf(extra)
  {
    var S := Flat(nets) + extra;
    SeenAgrees(S);
    PadsOfJoin(Flat(nets), extra);
    MirrorsFit(nets, Layout(Wirings(nets), owners), Seen(S), S);
  }
}
