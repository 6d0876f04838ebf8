/**
 * A route press with a head attached, in src/pcbEditor/DesignArea.java:
 * the head's provisional segment is dropped first, and then what the
 * head's net has under the mouse decides the rest. A pad there ends the
 * trace on it; a segment there leaves the trace as it is; bare board
 * fixes the trace up to the head and hangs a new head from it.
 */
module Trace {
  import opened Wrappers
  import opened Geometry
  import opened Lists
  import opened GraphSpec
  import opened Graphs
  import opened NetSpec
  import opened Pcb
  import opened Board
  import opened Routing

  /**
   * What the head's net has under a press once the provisional segment is
   * gone: its first pad whose ring holds the point, with that pad's net; a
   * segment only; or nothing, when `contains` is false.
   */
  datatype Aim = AtPad(pad: Pad, owner: Option<Net>) | AtSeg | Away

  /** `contains(q)` and then `getUnderlyingComponent(q)` of a net whose wiring is `w`. */
  function AimAt(w: Wiring, q: Point, hit: (Line, real, Point) -> bool): Aim
    reads (set p | p in w.g.keys)`ring, (set p | p in w.g.keys)`net, (set s | s in w.segs)`line, (set s | s in w.segs)`width
  {
    Found(w.g.keys, w.segs, q, hit)
  }

  /** The same, for a net with the vertices `keys` and the segments `segs`. */
  function Found(keys: seq<Pad>, segs: seq<Segment>, q: Point, hit: (Line, real, Point) -> bool): Aim
    reads (set p | p in keys)`ring, (set p | p in keys)`net, (set s | s in segs)`line, (set s | s in segs)`width
  {
    match FirstPad(keys, q)
    case Some(k) => AtPad(keys[k], keys[k].net)
    case None => if FirstSeg(segs, q, hit).Some? then AtSeg else Away
  }

  /**
   * The press finds nothing exactly when no segment and no pad of the net
   * holds the point; a pad it finds is a vertex of the net that holds the
   * point, found with its current net, and no vertex before it holds it.
   */
  lemma AimSound(w: Wiring, q: Point, hit: (Line, real, Point) -> bool)
    ensures AimAt(w, q, hit) == Away <==>
      (forall s :: s in w.segs ==> !s.Contains(q, hit)) && (forall p :: p in w.g.keys ==> !p.Contains(q))
    ensures AimAt(w, q, hit).AtPad? ==>
      exists k :: 0 <= k < |w.g.keys| && w.g.keys[k] == AimAt(w, q, hit).pad && w.g.keys[k].Contains(q)
        && AimAt(w, q, hit).owner == w.g.keys[k].net && forall j :: 0 <= j < k ==> !w.g.keys[j].Contains(q)
  {
    var r := AimAt(w, q, hit);
    if FirstPad(w.g.keys, q).None? && FirstSeg(w.segs, q, hit).Some? {
      var k := FirstSeg(w.segs, q, hit).value;
      assert w.segs[k] in w.segs;
    }
    if FirstPad(w.g.keys, q).Some? {
      var k := FirstPad(w.g.keys, q).value;
      assert w.g.keys[k] in w.g.keys;
    }
  }

  /**
   * Which of the segments `s`, from the start `a`, and `t`, from the old
   * head `h`, and which new head `h2` a press made, given what it found,
   * the start's net `anet` and the head's net `n`: `s` when the first
   * `addSegment` answered true, joining `a` to the pad found or, on bare
   * board, to `h`; `t` and `h2` when bare board was hit and that call did
   * not throw, `t` joining `h` to `h2`.
   */
  predicate Drawn(aim: Aim, anet: Option<Net>, n: Net, a: Pad, h: Pad, s: Option<Segment>, t: Option<Segment>, h2: Option<Pad>) {
    match aim
    case AtPad(c, cnet) =>
      && (s.Some? <==> Claimed(anet, cnet, n) == Return(true)) && t.None? && h2.None?
      && (s.Some? ==> s.value.p0 == a && s.value.p1 == c)
    case AtSeg => s.None? && t.None? && h2.None?
    case Away =>
      && (s.Some? <==> Claimed(anet, Some(n), n) == Return(true))
      && (t.Some? <==> !Claimed(anet, Some(n), n).Throw?) && (h2.Some? <==> t.Some?)
      && (s.Some? ==> s.value.p0 == a && s.value.p1 == h)
      && (t.Some? ==> t.value.p0 == h && t.value.p1 == h2.value)
  }

  /** What a route press with a head leaves: the outcome, the wirings, the cursor, and whether the head's net was unselected. */
  datatype Landing = Landing(o: Outcome<()>, w: map<Net, Wiring>, cur: Cursor, unselect: bool)

  /**
   * `n.removeSegment(a, h)` for a net `n` of `nets`, its answer dropped:
   * the wirings become those of `Dropped`, no pad and no segment changes
   * its net, and a press
   * at `q` finds in the new wiring of `n` what it would have found there
   * before the call.
   */
  method Drop(nets: NetList, n: Net, a: Pad, h: Pad, q: Point, hit: (Line, real, Point) -> bool) returns (ghost d: (Outcome<()>, map<Net, Wiring>), thrown: bool)
    requires NetsValid(nets) && n in nets
    modifies n`segs, n.graph`edges, n.graph`lists, n.graph.adj`keys, n.graph.adj`vals, (iset l: VertexList<Pad> | l.owner == n.graph.adj)`items
    modifies PadsOf(n.segs)`listeners
    ensures NetsValid(nets) && d == old(Dropped(nets, n, a, h)) && thrown == d.0.Throw?
    ensures Wirings(nets) == d.1 && Wiring(n.graph.State(), n.segs) == d.1[n]
    ensures forall p: Pad :: old(allocated(p)) ==> p.net == old(p.net)
    ensures AimAt(d.1[n], q, hit) == old(AimAt(d.1[n], q, hit))
  {
    d := Dropped(nets, n, a, h);
    DroppedKeys(nets, n, a, h);
    var r := RemoveBetween(nets, n, a, h);
    thrown := r.Throw?;
  }

  /**
   * A route press with the head `h` hanging from `a` in the net `n`, from
   * the wirings `w` left once the provisional segment is gone. On a pad `c`:
   * `addSegment(a, c)`, which throws when `a` has no net; otherwise the net
   * is unselected and the head let go. On a segment: nothing more. On bare
   * board: `addSegment(a, h)`, which throws when `a` has no net; otherwise
   * `h` becomes the start and a new head `h2` hangs from it by a segment of
   * its own, which `addSegment(h, h2)` always adds.
   */
  function Extension(w: map<Net, Wiring>, aim: Aim, n: Net, a: Pad, anet: Option<Net>, h: Pad, s: Option<Segment>, t: Option<Segment>, h2: Option<Pad>): Landing
    requires Drawn(aim, anet, n, a, h, s, t, h2)
  {
    match aim
    case AtPad(c, cnet) =>
      if Claimed(anet, cnet, n).Throw? then Landing(Throw(NullPointer), w, (Some(a), Some(h), true), false)
      else Landing(Return(()), if s.Some? then Joined(w, n, a, c, s.value) else w, (Some(a), Some(h), false), true)
    case AtSeg => Landing(Return(()), w, (Some(a), Some(h), true), false)
    case Away =>
      if Claimed(anet, Some(n), n).Throw? then Landing(Throw(NullPointer), w, (Some(a), Some(h), true), false)
      else
        var w1 := if s.Some? then Joined(w, n, a, h, s.value) else w;
        Landing(Return(()), Joined(w1, n, h, h2.value, t.value), (Some(h), h2, true), false)
  }

  /**
   * A whole route press with the head `h` hanging from `a` in the net `n`,
   * given what removing the provisional segment answered and left (`d`):
   * when that removal threw, the press ends there, head kept, with the
   * wirings it left; otherwise the press lands as `Extension` says from
   * those wirings.
   */
  predicate Pressed(d: (Outcome<()>, map<Net, Wiring>), aim: Aim, anet: Option<Net>, n: Net, a: Pad, h: Pad,
    s: Option<Segment>, t: Option<Segment>, h2: Option<Pad>, e: Landing)
  {
    && (d.0.Throw? ==> e == Landing(Throw(NullPointer), d.1, (Some(a), Some(h), true), false))
    && (d.0.Return? ==> Drawn(aim, anet, n, a, h, s, t, h2) && e == Extension(d.1, aim, n, a, anet, h, s, t, h2))
  }

  /**
   * A press changes the wiring of the head's net only, and that net gains
   * the segments made, in order: `s` and then `t`, from the pads they join.
   */
  lemma ExtensionEnds(w: map<Net, Wiring>, aim: Aim, n: Net, a: Pad, anet: Option<Net>, h: Pad, s: Option<Segment>, t: Option<Segment>, h2: Option<Pad>)
    requires Drawn(aim, anet, n, a, h, s, t, h2) && n in w && WellFormed(w[n].g)
    ensures Extension(w, aim, n, a, anet, h, s, t, h2).w.Keys == w.Keys
    ensures forall m :: m in w && m != n ==> Extension(w, aim, n, a, anet, h, s, t, h2).w[m] == w[m]
    ensures Extension(w, aim, n, a, anet, h, s, t, h2).w[n].segs == w[n].segs
      + (if s.Some? && Extension(w, aim, n, a, anet, h, s, t, h2).o.Return? then [s.value] else [])
      + (if t.Some? then [t.value] else [])
  {
  }

  /**
   * Joining a vertex `s.p0` of a matched net to a pad `s.p1` new to it by
   * the segment `s` keeps the match, and the graph gains just the new pad.
   */
  lemma StepMatched(g: GraphState<Pad>, segs: seq<Segment>, s: Segment)
    requires Matched(g, Ends(segs)) && s.p1 !in g.keys && s.p0 != s.p1
    ensures Matched(Connect(g, s.p0, s.p1), Ends(segs + [s]))
    ensures forall v :: v in Connect(g, s.p0, s.p1).keys <==> v in g.keys || v == s.p0 || v == s.p1
  {
    ConnectMatched(g, Ends(segs), s.p0, s.p1);
    EndsSnoc(segs, s);
    ConnectKeys(g, s.p0, s.p1);
  }

  /**
   * Connecting `a` to `b` makes `b` a vertex, and `a` too unless only `b`
   * was one before; it adds no other vertex.
   */
  lemma ConnectKeys(g: GraphState<Pad>, a: Pad, b: Pad)
    requires WellFormed(g)
    ensures forall v :: v in Connect(g, a, b).keys <==> v in g.keys || v == b || (v == a && (a in g.keys || b !in g.keys))
  {
    var g1 := Admit(g, a, b);
    assert Connect(g, a, b).keys == g1.keys;
    if HasVertex(g, a) && !HasVertex(g, b) {
      assert g1.keys == g.keys + [b];
    } else if HasVertex(g, b) && !HasVertex(g, a) {
      assert g1.keys == g.keys + [b];
    } else if !HasVertex(g, a) && !HasVertex(g, b) {
      assert g1.keys == g.keys + [b] + [a];
    }
  }

  /**
   * Fixing the trace on bare board keeps the net's segments matched with
   * the edges of its graph when the old head left the graph with its
   * provisional segment, and the new head is new to it; this holds whether
   * or not the start is the net's own.
   */
  lemma ExtensionMatched(w: map<Net, Wiring>, n: Net, a: Pad, anet: Option<Net>, h: Pad, s: Option<Segment>, t: Option<Segment>, h2: Option<Pad>)
    requires Drawn(Away, anet, n, a, h, s, t, h2) && anet.Some? && n in w && Matched(w[n].g, Ends(w[n].segs))
    requires h !in w[n].g.keys && a != h
    requires h2.value !in w[n].g.keys && h2.value != h && h2.value != a
    ensures Matched(Extension(w, Away, n, a, anet, h, s, t, h2).w[n].g, Ends(Extension(w, Away, n, a, anet, h, s, t, h2).w[n].segs))
  {
    var w1 := if s.Some? then Joined(w, n, a, h, s.value) else w;
    if s.Some? {
      StepMatched(w[n].g, w[n].segs, s.value);
    }
    StepMatched(w1[n].g, w1[n].segs, t.value);
  }

  /**
   * Ending the trace on a pad `c` of the net keeps the match exactly when
   * `c` is not the start, is not joined to it yet, and the start is a
   * vertex of the net: a press on the start itself adds a segment from the
   * start to itself, which no edge can match.
   */
  lemma EndMatched(w: map<Net, Wiring>, c: Pad, cnet: Option<Net>, n: Net, a: Pad, anet: Option<Net>, h: Pad, s: Option<Segment>)
    requires Drawn(AtPad(c, cnet), anet, n, a, h, s, None, None) && s.Some? && n in w && Matched(w[n].g, Ends(w[n].segs))
    requires c in w[n].g.keys
    ensures Matched(Extension(w, AtPad(c, cnet), n, a, anet, h, s, None, None).w[n].g, Ends(Extension(w, AtPad(c, cnet), n, a, anet, h, s, None, None).w[n].segs))
      <==> a != c && !HasEdge(w[n].g, a, c) && a in w[n].g.keys
  {
    ConnectMatched(w[n].g, Ends(w[n].segs), a, c);
    assert Ends(w[n].segs + [s.value]) == Ends(w[n].segs) + [(a, c)];
  }

  /** Removing a segment from the graph adds no vertex. */
  lemma UnwireKeys<V, N>(g: GraphState<V>, a: V, b: V, net: Option<N>, self: N, va: bool, vb: bool, x: V)
    requires Sane(g) && x in Unwire(g, a, b, net, self, va, vb).1.keys
    ensures x in g.keys
  {
    RemoveEdgeSane(g, a, b);
    var g1 := RemoveEdge(g, a, b).0;
    if HasEdge(g, a, b) && net == Some(self) {
      match Prune(g1, a, va)
      case Throw(_) =>
      case Return(g2) =>
        if x in g2.keys {
          PruneInKeys(g1, a, va, x);
        }
        match Prune(g2, b, vb)
        case Throw(_) =>
        case Return(g3) =>
          if !vb && x in g3.keys {
            PruneInKeys(g2, b, vb, x);
          }
    }
  }

  /** Dropping the provisional segment adds no vertex to the head's net. */
  lemma HeadOutKeys(w: map<Net, Wiring>, c: Looks, n: Net, a: Pad, b: Pad, x: Pad)
    requires n in w && Sane(w[n].g) && Covers(w[n].segs, c)
    requires x in HeadOut(w, c, n, a, b).1[n].g.keys
    ensures x in w[n].g.keys
  {
    match Find(Ends(w[n].segs), a, b)
    case None =>
    case Some(k) =>
      var s := w[n].segs[k];
      assert Known(c, s);
      UnwireKeys(w[n].g, s.p0, s.p1, c.nets[s], n, c.vis[s.p0], c.vis[s.p1], x);
  }

  /**
   * `n.addSegment(p0, p1, w)` for a net `n` of `nets`, told as the
   * wirings: `s` is the segment it made, present exactly when it answered
   * true, and the pads without a net join `n`.
   */
  method Add(nets: NetList, n: Net, p0: Pad, p1: Pad, width: real) returns (r: Outcome<bool>, ghost s: Option<Segment>)
    requires NetsValid(nets) && n in nets
    modifies n`segs, n.graph`edges, n.graph`lists, n.graph.adj`keys, n.graph.adj`vals, (iset l: VertexList<Pad> | l.owner == n.graph.adj)`items, p0`net, p1`net, p0`listeners, p1`listeners
    ensures NetsValid(nets) && r == Claimed(old(p0.net), old(p1.net), n) && (s.Some? <==> r == Return(true))
    ensures Wirings(nets) == if s.Some? then Joined(old(Wirings(nets)), n, p0, p1, s.value) else old(Wirings(nets))
    ensures s.Some? ==> fresh(s.value) && s.value.p0 == p0 && s.value.p1 == p1
    ensures p0.net == (if old(p0.net).None? then Some(n) else old(p0.net))
    ensures p1.net == (if old(p1.net).None? then Some(n) else old(p1.net))
  {
    ghost var w := Wirings(nets);
    r := AddIn(nets, n, p0, p1, width);
    if r == Return(true) {
      s := Some(n.segs[|n.segs| - 1]);
      GrownByOne(n.segs, old(n.segs));
    } else {
      s := None;
      KeepOne(w, n);
    }
  }

  /**
   * A press that found the pad `c` of the head's net `n`: `addSegment(a, c)`,
   * and unless it threw the net is unselected and the head let go.
   */
  method EndOn(nets: NetList, n: Net, a: Pad, h: Pad, c: Pad, width: real) returns (o: Outcome<()>, cur: Cursor, ghost s: Option<Segment>)
    requires NetsValid(nets) && n in nets
    modifies n`segs, n`selected, n.graph`edges, n.graph`lists, n.graph.adj`keys, n.graph.adj`vals, (iset l: VertexList<Pad> | l.owner == n.graph.adj)`items
    modifies {a, c}`net, {a, c}`listeners
    ensures NetsValid(nets) && Drawn(AtPad(c, old(c.net)), old(a.net), n, a, h, s, None, None)
    ensures var e := Extension(old(Wirings(nets)), AtPad(c, old(c.net)), n, a, old(a.net), h, s, None, None);
      o == e.o && Wirings(nets) == e.w && cur == e.cur && n.selected == (old(n.selected) && !e.unselect)
    ensures s.Some? ==> fresh(s.value)
    ensures a.net == (if old(a.net).None? then Some(n) else old(a.net)) && c.net == (if old(c.net).None? then Some(n) else old(c.net))
  {
    var k;
    k, s := Add(nets, n, a, c, width);
    if k.Throw? {
      o, cur := Throw(k.error), (Some(a), Some(h), true);
      return;
    }
    Mark(nets, n, false);
    o, cur := Return(()), (Some(a), Some(h), false);
  }

  /** `new ThPad(h.getP(), width, 0, color, false)`: an invisible pad of ring diameter `width` and no hole, centred on `h`. */
  method NewHead(ghost nets: NetList, h: Pad, width: real) returns (c: Pad)
    requires NetsValid(nets)
    ensures NetsValid(nets) && Wirings(nets) == old(Wirings(nets))
    ensures fresh(c) && c.net == None && Sprouted(c, h.ring, width)
  {
    c := new Pad(h.Center(), width, 0.0, false);
  }

  /** `h.getNet().addSegment(h, c, w)` for the head `h` of the net `n` and a pad `c` without a net: a new segment `t` of `n` joins them. */
  method Sprout(nets: NetList, n: Net, h: Pad, c: Pad, width: real, ghost ring: Ellipse) returns (ghost t: Segment)
    requires NetsValid(nets) && n in nets && h.net == Some(n) && c.net == None && Sprouted(c, ring, width)
    modifies n`segs, n.graph`edges, n.graph`lists, n.graph.adj`keys, n.graph.adj`vals, (iset l: VertexList<Pad> | l.owner == n.graph.adj)`items
    modifies {h, c}`net, {h, c}`listeners
    ensures NetsValid(nets) && Wirings(nets) == Joined(old(Wirings(nets)), n, h, c, t)
    ensures fresh(t) && t.p0 == h && t.p1 == c && c.net == Some(n) && h.net == Some(n) && Sprouted(c, ring, width)
  {
    var k;
    ghost var st;
    k, st := Add(nets, n, h, c, width);
    t := st.value;
  }

  /**
   * The pad `c` is a head as a press on bare board makes one: invisible,
   * with a ring of diameter `width` and no hole, centred on the centre of
   * the ring `ring` of the old head.
   */
  predicate Sprouted(c: Pad, ring: Ellipse, width: real)
    reads c`visible, c`ring, c`hole
  {
    !c.visible && c.ring == Circle(Middle(ring), width) && c.hole == Circle(Middle(ring), 0.0)
  }

  /** A new head for the net `n`, centred on its old head `h` and hung from it by a new segment `t`. */
  method Grow(nets: NetList, n: Net, h: Pad, width: real) returns (c: Pad, ghost t: Segment)
    requires NetsValid(nets) && n in nets && h.net == Some(n)
    modifies n`segs, n.graph`edges, n.graph`lists, n.graph.adj`keys, n.graph.adj`vals, (iset l: VertexList<Pad> | l.owner == n.graph.adj)`items
    modifies h`net, h`listeners
    ensures NetsValid(nets) && Wirings(nets) == Joined(old(Wirings(nets)), n, h, c, t)
    ensures fresh(c) && fresh(t) && t.p0 == h && t.p1 == c && c.net == Some(n) && h.net == Some(n)
    ensures Sprouted(c, old(h.ring), width)
  {
    c := NewHead(nets, h, width);
    t := Sprout(nets, n, h, c, width, h.ring);
  }

  /**
   * A press on bare board: `addSegment(a, h)`; unless it threw, a new
   * invisible pad `h2` of diameter `width`, centred on the old head `h`,
   * hangs from `h` by a segment of the net `n`, and becomes the head.
   */
  method Fix(nets: NetList, n: Net, a: Pad, h: Pad, width: real) returns (o: Outcome<()>, cur: Cursor, ghost s: Option<Segment>, ghost t: Option<Segment>, ghost h2: Option<Pad>)
    requires NetsValid(nets) && n in nets && h.net == Some(n)
    modifies n`segs, n.graph`edges, n.graph`lists, n.graph.adj`keys, n.graph.adj`vals, (iset l: VertexList<Pad> | l.owner == n.graph.adj)`items
    modifies {a, h}`net, {a, h}`listeners
    ensures NetsValid(nets) && Drawn(Away, old(a.net), n, a, h, s, t, h2)
    ensures var e := Extension(old(Wirings(nets)), Away, n, a, old(a.net), h, s, t, h2);
      o == e.o && Wirings(nets) == e.w && cur == e.cur
    ensures (s.Some? ==> fresh(s.value)) && (t.Some? ==> fresh(t.value))
    ensures h2.Some? ==> fresh(h2.value) && h2.value.net == Some(n) && Sprouted(h2.value, old(h.ring), width)
    ensures a.net == (if old(a.net).None? then Some(n) else old(a.net)) && h.net == Some(n)
  {
    ghost var w0, anet := Wirings(nets), a.net;
    var k;
    k, s := Add(nets, n, a, h, width);
    if k.Throw? {
      o, cur, t, h2 := Throw(k.error), (Some(a), Some(h), true), None, None;
      return;
    }
    ghost var w1 := Wirings(nets);
    var c;
    ghost var seg;
    c, seg := Grow(nets, n, h, width);
    t, h2 := Some(seg), Some(c);
    o, cur := Return(()), (Some(h), Some(c), true);
    assert Extension(w0, Away, n, a, anet, h, s, t, h2).w == Joined(w1, n, h, c, seg);
  }

  /** `n.contains(q)` and, when true, `n.getUnderlyingComponent(q)`, which changes nothing: what the press found. */
  method Sight(n: Net, q: Point, hit: (Line, real, Point) -> bool) returns (aim: Aim)
    requires n.Valid()
    ensures aim == AimAt(Wiring(n.graph.State(), n.segs), q, hit)
  {
    var inside := n.Contains(q, hit);
    if !inside {
      return Away;
    }
    var c := n.UnderlyingAt(q, hit);
    if c.Some? && c.value.PadHit? {
      aim := AtPad(c.value.pad, c.value.pad.net);
    } else {
      aim := AtSeg;
    }
  }

  /** The pad a press found, if any. */
  function Aimed(aim: Aim): set<Pad> {
    if aim.AtPad? then {aim.pad} else {}
  }

  /**
   * The rest of a route press with the head `h` hanging from `a` in the
   * net `n` of `nets`, once the provisional segment is gone and `Sight`
   * found `aim`: the calls `Extension` describes.
   */
  method Land(nets: NetList, n: Net, a: Pad, h: Pad, aim: Aim, width: real)
    returns (o: Outcome<()>, cur: Cursor, ghost e: Landing, ghost s: Option<Segment>, ghost t: Option<Segment>, ghost h2: Option<Pad>)
    requires NetsValid(nets) && n in nets && h.net == Some(n) && (aim.AtPad? ==> aim.owner == aim.pad.net)
    modifies n`segs, n`selected, n.graph`edges, n.graph`lists, n.graph.adj`keys, n.graph.adj`vals, (iset l: VertexList<Pad> | l.owner == n.graph.adj)`items
    modifies {a, h}`net, {a, h}`listeners, Aimed(aim)`net, Aimed(aim)`listeners
    ensures NetsValid(nets) && Drawn(aim, old(a.net), n, a, h, s, t, h2)
    ensures e == Extension(old(Wirings(nets)), aim, n, a, old(a.net), h, s, t, h2)
    ensures o == e.o && Wirings(nets) == e.w && cur == e.cur && n.selected == (old(n.selected) && !e.unselect)
    ensures (s.Some? ==> fresh(s.value)) && (t.Some? ==> fresh(t.value))
    ensures h2.Some? ==> fresh(h2.value) && h2.value.net == Some(n) && Sprouted(h2.value, old(h.ring), width)
    ensures (a.net == old(a.net) || a.net == Some(n)) && (h.net == old(h.net) || h.net == Some(n))
    ensures aim.AtPad? ==> aim.pad.net == old(aim.pad.net) || aim.pad.net == Some(n)
  {
    match aim {
      case AtPad(c, _) =>
        o, cur, s := EndOn(nets, n, a, h, c, width);
        t, h2 := None, None;
      case AtSeg =>
        o, cur, s, t, h2 := Return(()), (Some(a), Some(h), true), None, None, None;
      case Away =>
        o, cur, s, t, h2 := Fix(nets, n, a, h, width);
    }
    e := Extension(old(Wirings(nets)), aim, n, a, old(a.net), h, s, t, h2);
  }

  /** `Sight` in a net `n` of `nets`, with what it leaves as it was: the wirings and the pads `a` and `h`. */
  method Peek(nets: NetList, n: Net, a: Pad, h: Pad, q: Point, hit: (Line, real, Point) -> bool) returns (aim: Aim)
    requires NetsValid(nets) && n in nets
    ensures aim == old(AimAt(Wiring(n.graph.State(), n.segs), q, hit))
    ensures aim.AtPad? ==> aim.owner == aim.pad.net && aim.pad in n.graph.adj.keys
    ensures NetsValid(nets) && Wirings(nets) == old(Wirings(nets)) && n.selected == old(n.selected)
    ensures a.net == old(a.net) && h.net == old(h.net) && h.ring == old(h.ring)
  {
    InCells(nets, n);
    aim := Sight(n, q, hit);
    if aim.AtPad? {
      assert aim.owner == aim.pad.net && aim.pad in n.graph.adj.keys by {
        AimSound(Wiring(n.graph.State(), n.segs), q, hit);
      }
    }
  }

  /** The outcome of `n.removeSegment(a, b)` for a net `n` of `nets`, with its answer dropped, and the wirings it leaves. */
  ghost function Dropped(nets: seq<Net>, n: Net, a: Pad, b: Pad): (r: (Outcome<()>, map<Net, Wiring>))
    requires NetsValid(nets) && n in nets
    reads NetGraphs(nets)`lists, NetGraphs(nets)`edges, Tables(nets)`keys, Tables(nets)`vals, Cells(nets)`items, (set m | m in nets)`segs
    reads (set x | x in n.segs), PadsOf(n.segs)
    ensures r.1.Keys == Wirings(nets).Keys && Sane(r.1[n].g)
  {
    InCells(nets, n);
    HeadOut(Wirings(nets), Seen(n.segs), n, a, b)
  }

  /** Every pad left in the graph of `n` by `n.removeSegment(a, b)`, and every segment left in it, was there before. */
  lemma DroppedKeys(nets: seq<Net>, n: Net, a: Pad, b: Pad)
    requires NetsValid(nets) && n in nets
    ensures forall x :: x in Dropped(nets, n, a, b).1[n].g.keys ==> x in n.graph.adj.keys
    ensures forall x :: x in Dropped(nets, n, a, b).1[n].segs ==> x in n.segs
    ensures allocated(Dropped(nets, n, a, b).1[n].g.keys) && allocated(Dropped(nets, n, a, b).1[n].segs)
  {
    InCells(nets, n);
    var d := Dropped(nets, n, a, b);
    assert d == HeadOut(Wirings(nets), Seen(n.segs), n, a, b);
    forall x | x in d.1[n].g.keys
      ensures x in n.graph.adj.keys
    {
      HeadOutKeys(Wirings(nets), Seen(n.segs), n, a, b, x);
    }
    forall i | 0 <= i < |d.1[n].g.keys|
      ensures allocated(d.1[n].g.keys[i])
    {
      assert d.1[n].g.keys[i] in n.graph.adj.keys;
    }
  }

  /** The pad, if any, that a press at `q` finds in the net `n` once `n.removeSegment(a, b)` is done. */
  ghost function Target(nets: seq<Net>, n: Net, a: Pad, b: Pad, q: Point, hit: (Line, real, Point) -> bool): (r: set<Pad>)
    requires NetsValid(nets) && n in nets
    reads NetGraphs(nets)`lists, NetGraphs(nets)`edges, Tables(nets)`keys, Tables(nets)`vals, Cells(nets)`items, (set m | m in nets)`segs
    reads (set x | x in n.segs), PadsOf(n.segs), (set x | x in Dropped(nets, n, a, b).1[n].g.keys), (set x | x in Dropped(nets, n, a, b).1[n].segs)
  {
    Aimed(AimAt(Dropped(nets, n, a, b).1[n], q, hit))
  }

  /** That pad is a vertex of `n` before the removal. */
  lemma TargetKeyed(nets: seq<Net>, n: Net, a: Pad, b: Pad, q: Point, hit: (Line, real, Point) -> bool)
    requires NetsValid(nets) && n in nets
    ensures forall p :: p in Target(nets, n, a, b, q, hit) ==> p in n.graph.adj.keys
  {
    AimSound(Dropped(nets, n, a, b).1[n], q, hit);
    DroppedKeys(nets, n, a, b);
  }

  /**
   * `Sight` and then `Land` in the net `n` of `nets`, once the provisional
   * segment from `a` to the head `h` is gone: what the press finds in the
   * wiring of `n`, and the landing `Extension` describes from there. Only
   * `a`, `h` and the pad found (`aimed`) may change their net.
   */
  method Go(nets: NetList, n: Net, a: Pad, h: Pad, q: Point, width: real, hit: (Line, real, Point) -> bool, ghost aimed: set<Pad>)
    returns (o: Outcome<()>, cur: Cursor, aim: Aim, ghost e: Landing, ghost s: Option<Segment>, ghost t: Option<Segment>, ghost h2: Option<Pad>)
    requires NetsValid(nets) && n in nets && h.net == Some(n) && aimed == Aimed(AimAt(Wiring(n.graph.State(), n.segs), q, hit))
    modifies n`segs, n`selected, n.graph`edges, n.graph`lists, n.graph.adj`keys, n.graph.adj`vals, (iset l: VertexList<Pad> | l.owner == n.graph.adj)`items
    modifies {a, h}`net, {a, h}`listeners, aimed`net, aimed`listeners
    ensures NetsValid(nets) && aim == old(AimAt(Wiring(n.graph.State(), n.segs), q, hit)) && Drawn(aim, old(a.net), n, a, h, s, t, h2)
    ensures e == Extension(old(Wirings(nets)), aim, n, a, old(a.net), h, s, t, h2)
    ensures o == e.o && Wirings(nets) == e.w && cur == e.cur && n.selected == (old(n.selected) && !e.unselect)
    ensures forall p :: p in aimed ==> p.net == old(p.net) || p.net == Some(n)
    ensures (a.net == old(a.net) || a.net == Some(n)) && (h.net == old(h.net) || h.net == Some(n))
    ensures (s.Some? ==> fresh(s.value)) && (t.Some? ==> fresh(t.value))
    ensures h2.Some? ==> fresh(h2.value) && Sprouted(h2.value, old(h.ring), width)
    ensures cur.0.Some? && cur.1.Some? && cur.1.value.net == Some(n)
  {
    aim := Peek(nets, n, a, h, q, hit);
    o, cur, e, s, t, h2 := Land(nets, n, a, h, aim, width);
  }

  /**
   * A route press with the head `h` hanging from `a` in the net `n` of
   * `nets`: `n.removeSegment(a, h)`, whose answer is dropped (`d`, as
   * `Dropped` says; a throw ends the press), then `Go`. Only
   * `a`, `h` and the pad the press finds (`aimed`) may change their net.
   */
  method Advance(nets: NetList, n: Net, a: Pad, h: Pad, q: Point, width: real, hit: (Line, real, Point) -> bool, ghost aimed: set<Pad>)
    returns (o: Outcome<()>, cur: Cursor, ghost d: (Outcome<()>, map<Net, Wiring>), aim: Aim, ghost e: Landing, ghost s: Option<Segment>, ghost t: Option<Segment>, ghost h2: Option<Pad>)
    requires NetsValid(nets) && n in nets && h.net == Some(n) && aimed == Target(nets, n, a, h, q, hit)
    modifies n`segs, n`selected, n.graph`edges, n.graph`lists, n.graph.adj`keys, n.graph.adj`vals, (iset l: VertexList<Pad> | l.owner == n.graph.adj)`items
    modifies PadsOf(n.segs)`listeners, {a, h}`net, {a, h}`listeners, aimed`net, aimed`listeners
    ensures NetsValid(nets) && d == old(Dropped(nets, n, a, h)) && (d.0.Return? ==> aim == old(AimAt(d.1[n], q, hit)))
    ensures Pressed(d, aim, old(a.net), n, a, h, s, t, h2, e)
    ensures o == e.o && Wirings(nets) == e.w && cur == e.cur && n.selected == (old(n.selected) && !e.unselect)
    ensures forall p :: p in aimed ==> p.net == old(p.net) || p.net == Some(n)
    ensures (a.net == old(a.net) || a.net == Some(n)) && (h.net == old(h.net) || h.net == Some(n))
    ensures cur.0.Some? && cur.1.Some? && cur.1.value.net == Some(n)
  {
    aim, s, t, h2 := Away, None, None, None;
    var thrown;
    d, thrown := Drop(nets, n, a, h, q, hit);
    if thrown {
      o, cur := Throw(NullPointer), (Some(a), Some(h), true);
      e := Landing(o, Wirings(nets), cur, false);
      return;
    }
    o, cur, aim, e, s, t, h2 := Go(nets, n, a, h, q, width, hit, aimed);
  }

  /** `Advance`, seen from outside: every pad keeps its net or joins `n`. */
  method AdvanceHead(nets: NetList, n: Net, a: Pad, h: Pad, q: Point, width: real, hit: (Line, real, Point) -> bool, ghost aimed: set<Pad>)
    returns (o: Outcome<()>, cur: Cursor, ghost d: (Outcome<()>, map<Net, Wiring>), aim: Aim, ghost e: Landing, ghost s: Option<Segment>, ghost t: Option<Segment>, ghost h2: Option<Pad>)
    requires NetsValid(nets) && n in nets && h.net == Some(n) && aimed == Target(nets, n, a, h, q, hit)
    modifies n`segs, n`selected, n.graph`edges, n.graph`lists, n.graph.adj`keys, n.graph.adj`vals, (iset l: VertexList<Pad> | l.owner == n.graph.adj)`items
    modifies PadsOf(n.segs)`listeners, {a, h}`net, {a, h}`listeners, aimed`net, aimed`listeners
    ensures NetsValid(nets) && d == old(Dropped(nets, n, a, h)) && (d.0.Return? ==> aim == old(AimAt(d.1[n], q, hit)))
    ensures Pressed(d, aim, old(a.net), n, a, h, s, t, h2, e)
    ensures o == e.o && Wirings(nets) == e.w && cur == e.cur
    ensures forall p: Pad :: old(allocated(p)) ==> p.net == old(p.net) || p.net == Some(n)
    ensures cur.0.Some? && cur.1.Some? && cur.1.value.net == Some(n)
  {
    o, cur, d, aim, e, s, t, h2 := Advance(nets, n, a, h, q, width, hit, aimed);
  }

  /** `AdvanceHead`, which moreover leaves the net of every segment that existed before as it was. */
  method AdvanceKept(nets: NetList, n: Net, a: Pad, h: Pad, q: Point, width: real, hit: (Line, real, Point) -> bool, ghost aimed: set<Pad>)
    returns (o: Outcome<()>, cur: Cursor, ghost d: (Outcome<()>, map<Net, Wiring>), aim: Aim, ghost e: Landing, ghost s: Option<Segment>, ghost t: Option<Segment>, ghost h2: Option<Pad>)
    requires NetsValid(nets) && n in nets && h.net == Some(n) && aimed == Target(nets, n, a, h, q, hit)
    modifies n`segs, n`selected, n.graph`edges, n.graph`lists, n.graph.adj`keys, n.graph.adj`vals, (iset l: VertexList<Pad> | l.owner == n.graph.adj)`items
    modifies PadsOf(n.segs)`listeners, {a, h}`net, {a, h}`listeners, aimed`net, aimed`listeners
    ensures NetsValid(nets) && d == old(Dropped(nets, n, a, h)) && (d.0.Return? ==> aim == old(AimAt(d.1[n], q, hit)))
    ensures Pressed(d, aim, old(a.net), n, a, h, s, t, h2, e)
    ensures o == e.o && Wirings(nets) == e.w && cur == e.cur
    ensures forall p: Pad :: old(allocated(p)) ==> p.net == old(p.net) || p.net == Some(n)
    ensures forall x: Segment :: old(allocated(x)) ==> x.net == old(x.net)
    ensures cur.0.Some? && cur.1.Some? && cur.1.value.net == Some(n)
  {
    o, cur, d, aim, e, s, t, h2 := AdvanceHead(nets, n, a, h, q, width, hit, aimed);
  }
}
