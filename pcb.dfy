/**
 * The objects of a printed circuit board: through-hole pads
 * (src/pcbPrimitives/ThPad.java with its superclasses Pad.java and
 * graphPrimitives/Vertex.java), copper trace segments
 * (src/pcbPrimitives/Segment.java), nets (src/pcbEditor/Net.java),
 * footprints (src/pcbPart/Footprint.java) and parts (src/pcbPart/Part.java).
 * They refer to one another (a pad knows its net and part, a segment its
 * pads, a net its pads and segments), so they share one module. Objects are
 * compared by identity, as none of the Java classes overrides `equals`.
 */
module Pcb {
  import opened Wrappers
  import opened Lists
  import opened Geometry
  import opened GraphSpec
  import opened Graphs
  import opened DfoSpec
  import opened Dfo
  import opened NetSpec

  /** A through-hole pad: a Vertex with listeners and a selection flag, a Pad with a name and a part, and a ThPad with its rings. */
  class Pad {
    /** The segments observing this pad, in registration order, repeats included. */
    var listeners: seq<Segment>
    var selected: bool
    /** The name, null (None) until `setName`. */
    var name: Option<string>
    /** The part owning this pad, null (None) until `setPart`. */
    var part: Option<Part>
    /** The net this pad belongs to, null (None) until `setNet`. */
    var net: Option<Net>
    var visible: bool
    /** The annular ring and the hole. */
    var ring: Ellipse
    var hole: Ellipse
    /** The centre given to the constructor; neither `translate` nor `setP` updates it. */
    const p: Point

    /** `ThPad(p, ringDiam, holeDiam, color, visible)`: ring and hole centred on `p`, no net, no part, no listeners, unselected. */
    constructor (p: Point, ringDiam: real, holeDiam: real, visible: bool)
      ensures this.p == p && ring == Circle(p, ringDiam) && hole == Circle(p, holeDiam)
      ensures this.visible == visible && Center() == p
      ensures listeners == [] && !selected && name == None && part == None && net == None
    {
      this.p := p;
      ring := Circle(p, ringDiam);
      hole := Circle(p, holeDiam);
      this.visible := visible;
      listeners := [];
      selected := false;
      name := None;
      part := None;
      net := None;
    }

    /** `getP()`: the centre of the ring, from its corner and its width. */
    function Center(): Point
      reads this`ring
    {
      Middle(ring)
    }

    /** The ring is a circle, as every constructor and `setRingDiam` leave it. */
    predicate Round()
      reads this`ring
    {
      ring.w == ring.h
    }

    /** `addListener(l)`: appends `l`, even when it is already registered. */
    method AddListener(l: Segment)
      modifies this`listeners
      ensures listeners == old(listeners) + [l]
    {
      listeners := listeners + [l];
    }

    /** `removeListener(l)`: drops the first registration of `l`; true when there was one. */
    method RemoveListener(l: Segment) returns (b: bool)
      modifies this`listeners
      ensures b <==> l in old(listeners)
      ensures listeners == RemoveFirst(old(listeners), l)
      ensures Count(listeners, l) == Count(old(listeners), l) - (if b then 1 else 0)
    {
      b := l in listeners;
      RemoveFirstCount(listeners, l, l);
      listeners := RemoveFirst(listeners, l);
    }

    /** `getListeners()`: the live list, in registration order. */
    method GetListeners() returns (ls: seq<Segment>)
      ensures ls == listeners
    {
      ls := listeners;
    }

    /** `setSelected(state)`. */
    method SetSelected(state: bool)
      modifies this`selected
      ensures selected == state
    {
      selected := state;
    }

    /** `setName(name)`. */
    method SetName(name: string)
      modifies this`name
      ensures this.name == Some(name)
    {
      this.name := Some(name);
    }

    /** `toString()` and `getName()`: the name last set, or null. */
    method GetName() returns (r: Option<string>)
      ensures r == name
    {
      r := name;
    }

    /** `setPart(part)`; a null part is None. */
    method SetPart(part: Option<Part>)
      modifies this`part
      ensures this.part == part
    {
      this.part := part;
    }

    /** `setVisible(state)`. */
    method SetVisible(state: bool)
      modifies this`visible
      ensures visible == state
    {
      visible := state;
    }

    /** `setNet(net)`; a null net is None. */
    method SetNet(net: Option<Net>)
      modifies this`net
      ensures this.net == net
    {
      this.net := net;
    }

    /** `setRingDiam(d)`: a new ring of diameter `d` around the constructor's centre `p`. */
    method SetRingDiam(d: real)
      modifies this`ring
      ensures ring == Circle(p, d) && Round() && Center() == p
    {
      ring := Circle(p, d);
    }

    /** `setHoleDiam(d)`: a new hole of diameter `d` around the constructor's centre `p`. */
    method SetHoleDiam(d: real)
      modifies this`hole
      ensures hole == Circle(p, d)
    {
      hole := Circle(p, d);
    }

    /**
     * `translate(delta)`: ring and hole move by `delta`, so the centre moves
     * by exactly `delta`; then every registered segment recomputes its line,
     * once per registration.
     */
    method Translate(delta: Point)
      modifies this`ring, this`hole, (set s | s in listeners)`line
      ensures ring == Shift(old(ring), delta, 1) && hole == Shift(old(hole), delta, 1)
      ensures Center() == Plus(old(Center()), delta)
      ensures forall s :: s in listeners ==> s.Tracks()
    {
      ring := ring.(x := ring.x + delta.x, y := ring.y + delta.y);
      hole := hole.(x := hole.x + delta.x, y := hole.y + delta.y);
      Notify();
    }

    /**
     * `setP(q)`: ring and hole are placed by their heights so that their
     * centres sit on `q`; then every registered segment recomputes its line.
     * The centre lands on `q` exactly when the ring is round.
     */
    method SetP(q: Point)
      modifies this`ring, this`hole, (set s | s in listeners)`line
      ensures ring == old(ring).(x := q.x - old(ring.h) / 2.0, y := q.y - old(ring.h) / 2.0)
      ensures hole == old(hole).(x := q.x - old(hole.h) / 2.0, y := q.y - old(hole.h) / 2.0)
      ensures Round() ==> Center() == q
      ensures forall s :: s in listeners ==> s.Tracks()
    {
      ring := ring.(x := q.x - ring.h / 2.0, y := q.y - ring.h / 2.0);
      hole := hole.(x := q.x - hole.h / 2.0, y := q.y - hole.h / 2.0);
      Notify();
    }

    /** The loop of `translate` and `setP`: `stateChanged` on each registered segment in turn. */
    method Notify()
      modifies (set s | s in listeners)`line
      ensures forall s :: s in listeners ==> s.Tracks()
    {
      for i := 0 to |listeners|
        invariant forall j :: 0 <= j < i ==> listeners[j].Tracks()
      {
        listeners[i].StateChanged();
      }
    }

    /** `contains(q)`: the ring's hit test. */
    predicate Contains(q: Point)
      reads this`ring
    {
      InEllipse(ring, q)
    }

    /** `getUnderlyingComponent(q)`: this pad when its ring holds `q`, else null. */
    function UnderlyingAt(q: Point): (r: Option<Pad>)
      reads this`ring
      ensures r.Some? <==> InEllipse(ring, q)
      ensures r.Some? ==> r.value == this
    {
      if Contains(q) then Some(this) else None
    }

    /**
     * `clone()`: a new pad centred where this one is, with the ring's and the
     * hole's heights as diameters and the same visibility; it has no net, no
     * part, no listeners and is unselected.
     */
    method Clone() returns (c: Pad)
      ensures fresh(c)
      ensures c.Center() == Center() && c.Round() && c.p == Center()
      ensures c.ring == Circle(Center(), ring.h) && c.hole == Circle(Center(), hole.h)
      ensures c.visible == visible
      ensures c.listeners == [] && !c.selected && c.net == None && c.part == None && c.name == None
    {
      c := new Pad(Center(), ring.h, hole.h, visible);
    }

    /** `getPaddedOutline(padding)`: an ellipse grown by twice the padding from the ring's corner, not re-centred. */
    function PaddedOutline(padding: real): Outline
      reads this`ring
    {
      Oval(Ellipse(ring.x, ring.y, ring.h + padding * 2.0, ring.w + padding * 2.0))
    }
  }

  /** A positive padding moves the centre of a pad's padded outline away from the pad's centre. */
  lemma PaddedOutlineOffCentre(pad: Pad, padding: real)
    requires padding > 0.0 && pad.Round()
    ensures var e := pad.PaddedOutline(padding).oval;
      Point(e.x + e.w / 2.0, e.y + e.h / 2.0) == Plus(pad.Center(), Point(padding, padding))
  {
  }

  /** A copper trace between two pads, observing both. */
  class Segment {
    /** The net this segment belongs to, null (None) until `setNet`. */
    var net: Option<Net>
    const p0: Pad
    const p1: Pad
    var width: real
    /** The cached line, recomputed by `stateChanged`. */
    var line: Line
    var selected: bool

    /** The cached line joins the current centres of both pads. */
    predicate Tracks()
      reads this`line, p0`ring, p1`ring
    {
      line == Line(p0.Center(), p1.Center())
    }

    /**
     * `Segment(p0, p1, width, color)`: registers on `p0`, then on `p1`, and
     * caches the line between their centres; no net, unselected.
     */
    constructor (p0: Pad, p1: Pad, width: real)
      modifies p0`listeners, p1`listeners
      ensures this.p0 == p0 && this.p1 == p1 && this.width == width
      ensures net == None && !selected && Tracks()
      ensures p0 != p1 ==> p0.listeners == old(p0.listeners) + [this] && p1.listeners == old(p1.listeners) + [this]
      ensures p0 == p1 ==> p0.listeners == old(p0.listeners) + [this, this]
    {
      this.p0 := p0;
      this.p1 := p1;
      this.width := width;
      line := Line(p0.Center(), p1.Center());
      selected := false;
      net := None;
      new;
      p0.AddListener(this);
      p1.AddListener(this);
    }

    /** `setNet(net)`; a null net is None. */
    method SetNet(net: Option<Net>)
      modifies this`net
      ensures this.net == net
    {
      this.net := net;
    }

    /** `isConnectedTo(n)`: false without a net, else whether the net is `n`. */
    predicate IsConnectedTo(n: Net)
      reads this`net
    {
      net.Some? && net.value == n
    }

    /** `setWidth(w)`. */
    method SetWidth(w: real)
      modifies this`width
      ensures width == w
    {
      width := w;
    }

    /** `setSelected(state)`. */
    method SetSelected(state: bool)
      modifies this`selected
      ensures selected == state
    {
      selected := state;
    }

    /** `stateChanged(e)`: the line is recomputed from the pads' current centres. */
    method StateChanged()
      modifies this`line
      ensures Tracks()
    {
      line := Line(p0.Center(), p1.Center());
    }

    /** `getP()`: the midpoint of the two centres. */
    function GetP(): Point
      reads p0`ring, p1`ring
    {
      Midpoint(p0.Center(), p1.Center())
    }

    /**
     * `translate(delta)`: `p0` and then `p1` move by `delta` (a segment from
     * a pad to itself moves it twice); the segment's own line follows through
     * the listener mechanism when it is registered on the pads.
     */
    method Translate(delta: Point)
      modifies p0`ring, p0`hole, p1`ring, p1`hole
      modifies (set s | s in p0.listeners)`line, (set s | s in p1.listeners)`line
      ensures p0 != p1 ==> p0.Center() == Plus(old(p0.Center()), delta) && p1.Center() == Plus(old(p1.Center()), delta)
      ensures p0 != p1 ==> GetP() == Plus(old(GetP()), delta)
      ensures p0 == p1 ==> p0.Center() == Plus(Plus(old(p0.Center()), delta), delta)
      ensures Places([p0, p1]) == Moves(old(Places([p0, p1])), [p0, p1], delta)
      ensures forall s :: s in p1.listeners ==> s.Tracks()
      ensures forall s :: s in p0.listeners && s.p0 != p1 && s.p1 != p1 ==> s.Tracks()
    {
      ghost var m := Places([p0, p1]);
      p0.Translate(delta);
      ghost var m1 := m[p0 := MovedBy(m[p0], delta)];
      assert Places([p0, p1]) == m1;
      p1.Translate(delta);
      assert Places([p0, p1]) == m1[p1 := MovedBy(m1[p1], delta)];
      assert [p0, p1][1..] == [p1];
      assert Moves(m1, [p1], delta) == m1[p1 := MovedBy(m1[p1], delta)];
      MidpointShifted(old(p0.Center()), old(p1.Center()), delta);
    }

    /** `setP(q)`: unsupported, it always throws. */
    method SetP(q: Point) returns (r: Outcome<()>)
      ensures r == Throw(Unsupported)
    {
      return Throw(Unsupported);
    }

    /** `contains(q)`: the stroked line's hit test, which `hit` stands for. */
    predicate Contains(q: Point, hit: (Line, real, Point) -> bool)
      reads this`line, this`width
    {
      hit(line, width, q)
    }

    /** `getUnderlyingComponent(q)`: this segment when its stroked line holds `q`, else null. */
    function UnderlyingAt(q: Point, hit: (Line, real, Point) -> bool): (r: Option<Segment>)
      reads this`line, this`width
      ensures r.Some? <==> hit(line, width, q)
      ensures r.Some? ==> r.value == this
    {
      if Contains(q, hit) then Some(this) else None
    }

    /** `getPaddedOutline(padding)`: the line stroked with the width grown by twice the padding. */
    function PaddedOutline(padding: real): Outline
      reads this`line, this`width
    {
      StrokedLine(line, width + padding * 2.0)
    }
  }

  /** The pads of each segment, in order: what `removeSegment(p0, p1)` compares. */
  function Ends(segs: seq<Segment>): (ends: seq<(Pad, Pad)>)
    ensures |ends| == |segs|
    ensures forall i :: 0 <= i < |segs| ==> ends[i] == (segs[i].p0, segs[i].p1)
  {
    seq(|segs|, i requires 0 <= i < |segs| => (segs[i].p0, segs[i].p1))
  }

  /** Appending a segment appends its pads. */
  lemma EndsSnoc(segs: seq<Segment>, s: Segment)
    ensures Ends(segs + [s]) == Ends(segs) + [(s.p0, s.p1)]
  {
    assert Ends(segs + [s]) == Ends(segs) + [(s.p0, s.p1)];
  }

  /** The pads at either end of some segment of `segs`. */
  function PadsOf(segs: seq<Segment>): set<Pad> {
    (set s | s in segs :: s.p0) + (set s | s in segs :: s.p1)
  }

  /** A segment registered on both of its pads, as `addSegment` leaves it. */
  ghost predicate Hooked(s: Segment)
    reads s.p0`listeners, s.p1`listeners
  {
    s in s.p0.listeners && s in s.p1.listeners
  }

  /** The segments registered on some pad of `pads`. */
  ghost function Watchers(pads: seq<Pad>): set<Segment>
    reads set p | p in pads
  {
    set p, s | p in pads && s in p.listeners :: s
  }

  /** The segments registered on a sub-collection of pads are registered on the whole. */
  lemma WatchersWithin(a: seq<Pad>, b: seq<Pad>)
    requires forall p :: p in a ==> p in b
    ensures Watchers(a) <= Watchers(b)
  {
  }

  /** Where a pad's ring and hole lie. */
  datatype Place = Place(ring: Ellipse, hole: Ellipse)

  /** The place `pl` moved once by `d`. */
  function MovedBy(pl: Place, d: Point): Place {
    Place(Shifted(pl.ring, d), Shifted(pl.hole, d))
  }

  /** The places of `m` after the pads of `pads` each move once by `d`, in turn. */
  function Moves(m: map<Pad, Place>, pads: seq<Pad>, d: Point): (r: map<Pad, Place>)
    requires forall p :: p in pads ==> p in m
    ensures r.Keys == m.Keys
  {
    if pads == [] then m else Moves(m[pads[0] := MovedBy(m[pads[0]], d)], pads[1..], d)
  }

  /** Each pad moves once per occurrence. */
  lemma {:induction false} MovesCount(m: map<Pad, Place>, pads: seq<Pad>, d: Point, p: Pad)
    requires (forall p :: p in pads ==> p in m) && p in m
    ensures Moves(m, pads, d)[p] == Place(Shift(m[p].ring, d, Count(pads, p)), Shift(m[p].hole, d, Count(pads, p)))
  {
    if pads != [] {
      var m1 := m[pads[0] := MovedBy(m[pads[0]], d)];
      MovesCount(m1, pads[1..], d, p);
      if pads[0] == p {
        ShiftFirst(m[p].ring, d, Count(pads[1..], p));
        ShiftFirst(m[p].hole, d, Count(pads[1..], p));
      }
    }
  }

  /** Moving the pads of `a` and then those of `b` is moving the pads of `a + b`. */
  lemma {:induction false} MovesAppend(m: map<Pad, Place>, a: seq<Pad>, b: seq<Pad>, d: Point)
    requires forall p :: p in a + b ==> p in m
    ensures Moves(m, a + b, d) == Moves(Moves(m, a, d), b, d)
  {
    if a == [] {
      assert a + b == b;
    } else {
      assert (a + b)[1..] == a[1..] + b;
      MovesAppend(m[a[0] := MovedBy(m[a[0]], d)], a[1..], b, d);
    }
  }

  /** The places of the pads of `pads`. */
  ghost function Places(pads: seq<Pad>): (m: map<Pad, Place>)
    reads set p | p in pads
    ensures forall p :: p in pads ==> p in m
  {
    map p | p in pads :: Place(p.ring, p.hole)
  }

  /** `pads[i].translate(delta)`, the pads before it already moved: their segments keep tracking. */
  method MoveOne(pads: seq<Pad>, i: nat, delta: Point)
    requires i < |pads|
    requires forall j, s :: 0 <= j < i && s in pads[j].listeners && Hooked(s) ==> s.Tracks()
    modifies {pads[i]}`ring, {pads[i]}`hole, (set s | s in pads[i].listeners)`line
    ensures Moves(Places(pads), pads[i + 1..], delta) == Moves(old(Places(pads)), pads[i..], delta)
    ensures forall j, s :: 0 <= j <= i && s in pads[j].listeners && Hooked(s) ==> s.Tracks()
  {
    ghost var before := Places(pads);
    pads[i].Translate(delta);
    assert Places(pads) == before[pads[i] := MovedBy(before[pads[i]], delta)];
    assert pads[i..][1..] == pads[i + 1..];
  }

  /** `pad.translate(delta)` on each pad of `pads` in turn: a pad listed `n` times moves `n` times (`MovesCount`). */
  method TranslateEach(pads: seq<Pad>, delta: Point)
    modifies (set p | p in pads)`ring, (set p | p in pads)`hole, Watchers(pads)`line
    ensures Places(pads) == Moves(old(Places(pads)), pads, delta)
    ensures forall s :: s in Watchers(pads) && Hooked(s) ==> s.Tracks()
  {
    for i := 0 to |pads|
      invariant Moves(Places(pads), pads[i..], delta) == Moves(old(Places(pads)), pads, delta)
      invariant forall j, s :: 0 <= j < i && s in pads[j].listeners && Hooked(s) ==> s.Tracks()
    {
      MoveOne(pads, i, delta);
    }
    WatchersTrack(pads);
  }

  /** When each segment registered on both ends and on some pad of `pads` tracks, so does each such segment of `Watchers(pads)`. */
  lemma WatchersTrack(pads: seq<Pad>)
    requires forall j, s :: 0 <= j < |pads| && s in pads[j].listeners && Hooked(s) ==> s.Tracks()
    ensures forall s :: s in Watchers(pads) && Hooked(s) ==> s.Tracks()
  {
    forall s | s in Watchers(pads) && Hooked(s)
      ensures s.Tracks()
    {
      var p :| p in pads && s in p.listeners;
      var j :| 0 <= j < |pads| && pads[j] == p;
    }
  }

  /** Moving the pads of `pads` over a larger record of places moves them the same way and leaves the other pads where they were. */
  lemma MovesWiden(small: map<Pad, Place>, big: map<Pad, Place>, pads: seq<Pad>, d: Point)
    requires forall p :: p in pads ==> p in small
    requires forall p :: p in small ==> p in big && big[p] == small[p]
    ensures forall p :: p in big ==> Moves(big, pads, d)[p] == if p in small then Moves(small, pads, d)[p] else big[p]
  {
    forall p | p in big
      ensures Moves(big, pads, d)[p] == if p in small then Moves(small, pads, d)[p] else big[p]
    {
      MovesCount(big, pads, d, p);
      if p in small {
        MovesCount(small, pads, d, p);
      }
    }
  }

  /**
   * What `translate` of a net does to the places of its pads, when no pad is
   * listed twice: a pad reachable from the first one moves once by `d`, any
   * other pad stays where it is.
   */
  lemma TranslateReach(m: map<Pad, Place>, g: GraphState<Pad>, d: Point, p: Pad)
    requires WellFormed(g) && Closed(g) && g.keys != [] && Distinct(g.keys)
    requires (forall q :: q in g.keys ==> q in m) && p in m
    ensures Translated(m, g, d)[p] == if Reachable(g, g.keys[0], p) then MovedBy(m[p], d) else m[p]
  {
    TraverseCount(g, p);
    MovesCount(m, Traverse(g).value.order, d, p);
  }

  /**
   * The places `m` after `translate(d)` on a net whose graph is `g`: the pads
   * move in the order a traversal from the first pad reaches them.
   */
  ghost function Translated(m: map<Pad, Place>, g: GraphState<Pad>, d: Point): (r: map<Pad, Place>)
    requires WellFormed(g) && Closed(g) && g.keys != [] && forall q :: q in g.keys ==> q in m
    ensures r.Keys == m.Keys
  {
    TraverseCount(g, g.keys[0]);
    Moves(m, Traverse(g).value.order, d)
  }

  /** Pads left alone keep their places. */
  twostate lemma PlacesUnchanged(pads: seq<Pad>)
    requires forall p :: p in pads ==> unchanged(p`ring, p`hole)
    ensures Places(pads) == old(Places(pads))
  {
  }

  /** `TranslateEach` seen from a collection `all` that holds every pad of `pads`: the pads outside `pads` stay. */
  method TranslateWithin(pads: seq<Pad>, ghost all: seq<Pad>, delta: Point)
    requires forall p :: p in pads ==> p in all
    modifies (set p | p in all)`ring, (set p | p in all)`hole, Watchers(all)`line
    ensures Places(all) == Moves(old(Places(all)), pads, delta)
    ensures forall s :: s in Watchers(pads) && Hooked(s) ==> s.Tracks()
  {
    ghost var before := Places(all);
    ghost var mid := Places(pads);
    WatchersWithin(pads, all);
    TranslateEach(pads, delta);
    MovesWiden(mid, before, pads, delta);
    forall p | p in all
      ensures Places(all)[p] == Moves(before, pads, delta)[p]
    {
      if p in pads {
        assert Places(pads)[p] == Places(all)[p];
      }
    }
  }

  /** What the removals of a net change: its graph and its segments. */
  datatype Wiring = Wiring(g: GraphState<Pad>, segs: seq<Segment>)

  /** What they read and leave alone: the net of each segment, and whether each pad is visible. */
  datatype Looks = Looks(nets: map<Segment, Option<Net>>, vis: map<Pad, bool>)

  /** The net and the pads of `s` are on record. */
  predicate Known(c: Looks, s: Segment) {
    s in c.nets && s.p0 in c.vis && s.p1 in c.vis
  }

  /** Every segment of `segs` is on record. */
  predicate Covers(segs: seq<Segment>, c: Looks) {
    forall s :: s in segs ==> Known(c, s)
  }

  /** The record of the nets of `segs` and the visibility of their pads. */
  ghost function Seen(segs: seq<Segment>): (c: Looks)
    reads (set s | s in segs), PadsOf(segs)
    ensures Covers(segs, c)
  {
    Looks(map s | s in segs :: s.net, map q | q in PadsOf(segs) :: q.visible)
  }

  /**
   * The listener lists of `s.p0` and `s.p1` after `p0.removeListener(s)` and
   * then `p1.removeListener(s)`; for a segment from a pad to itself both are
   * that pad's list, which loses `s` twice.
   */
  function Unhooked(l0: seq<Segment>, l1: seq<Segment>, s: Segment): (seq<Segment>, seq<Segment>) {
    var m0 := RemoveFirst(l0, s);
    if s.p0 == s.p1 then var m1 := RemoveFirst(m0, s); (m1, m1)
    else (m0, RemoveFirst(l1, s))
  }


  /**
   * `removeSegment(s)` in the net `self`, on values: the graph as Unwire
   * says, and the segment dropped from the list only when the answer is true.
   */
  function Snip(w: Wiring, c: Looks, self: Net, s: Segment): (r: (Outcome<bool>, Wiring))
    requires Sane(w.g) && Known(c, s)
    ensures Sane(r.1.g)
    ensures r.0.Throw? ==> r.0.error == NullPointer
    ensures forall x :: x in r.1.segs ==> x in w.segs
  {
    var (o, g1) := Unwire(w.g, s.p0, s.p1, c.nets[s], self, c.vis[s.p0], c.vis[s.p1]);
    RemoveFirstWithin(w.segs, s);
    (o, Wiring(g1, if o == Return(true) then RemoveFirst(w.segs, s) else w.segs))
  }

  /**
   * `removeSegment(a, b)`: the first segment joining `a` and `b` is removed
   * with `removeSegment(s)`, whose answer is dropped; false when there is none.
   */
  function Between(w: Wiring, c: Looks, self: Net, a: Pad, b: Pad): (r: (Outcome<bool>, Wiring))
    requires Sane(w.g) && Covers(w.segs, c)
    ensures Sane(r.1.g) && Covers(r.1.segs, c)
    ensures r.0.Throw? ==> r.0.error == NullPointer
    ensures forall x :: x in r.1.segs ==> x in w.segs
  {
    match Find(Ends(w.segs), a, b)
    case None => (Return(false), w)
    case Some(k) =>
      var (o, w1) := Snip(w, c, self, w.segs[k]);
      (if o.Throw? then o else Return(true), w1)
  }

  /**
   * The record `c` holds the current net of each segment of `segs` and the
   * current visibility of each pad of `pads`, which holds their ends.
   */
  ghost predicate Agrees(segs: seq<Segment>, pads: set<Pad>, c: Looks)
    reads set s | s in segs
    reads pads`visible
  {
    && PadsOf(segs) <= pads && Covers(segs, c)
    && (forall s :: s in segs ==> c.nets[s] == s.net)
    && (forall p :: p in pads ==> p in c.vis && c.vis[p] == p.visible)
  }

  /** The pads of a sub-collection of segments are pads of the whole. */
  lemma PadsOfWithin(a: seq<Segment>, b: seq<Segment>)
    requires forall x :: x in a ==> x in b
    ensures PadsOf(a) <= PadsOf(b)
  {
  }

  /** The record of the heap agrees with it. */
  lemma SeenAgrees(segs: seq<Segment>)
    ensures Agrees(segs, PadsOf(segs), Seen(segs))
  {
  }

  /** A record that agrees on some segments agrees on fewer. */
  lemma AgreesWithin(a: seq<Segment>, b: seq<Segment>, pads: set<Pad>, c: Looks)
    requires Agrees(b, pads, c) && forall x :: x in a ==> x in b
    ensures Agrees(a, pads, c)
  {
    PadsOfWithin(a, b);
  }

  /** One turn of the loop of `removePad`. */
  lemma CutStep(w: Wiring, c: Looks, self: Net, pad: Pad, ns: seq<Pad>)
    requires Sane(w.g) && Covers(w.segs, c) && ns != []
    ensures Cut(w, c, self, pad, ns) ==
      var (o, w1) := Between(w, c, self, pad, ns[0]);
      if o.Throw? then (o, w1) else Cut(w1, c, self, pad, ns[1..])
  {
  }

  /** A record that agrees with the heap gives the `removeSegment(a, b)` that reads the heap. */
  lemma BetweenSeen(w: Wiring, pads: set<Pad>, c: Looks, self: Net, a: Pad, b: Pad)
    requires Sane(w.g) && Agrees(w.segs, pads, c)
    ensures Between(w, c, self, a, b) == Between(w, Seen(w.segs), self, a, b)
  {
    var d := Seen(w.segs);
    forall s | s in w.segs
      ensures c.nets[s] == d.nets[s] && c.vis[s.p0] == d.vis[s.p0] && c.vis[s.p1] == d.vis[s.p1]
    {
      assert s.p0 in PadsOf(w.segs) && s.p1 in PadsOf(w.segs);
    }
    BetweenAgrees(w, c, d, self, a, b);
  }

  /** A record that agrees with the heap frees the segment that the record of the heap frees. */
  lemma FreeingSeen(w: Wiring, pads: set<Pad>, c: Looks, self: Net, a: Pad, b: Pad)
    requires Sane(w.g) && Agrees(w.segs, pads, c)
    ensures Freeing(w, c, self, a, b) == Freeing(w, Seen(w.segs), self, a, b)
  {
    match Find(Ends(w.segs), a, b)
    case None =>
    case Some(k) =>
      assert w.segs[k] in w.segs;
  }

  /** Two records that agree on the segments of `w` give the same `removeSegment(a, b)`. */
  lemma BetweenAgrees(w: Wiring, c: Looks, d: Looks, self: Net, a: Pad, b: Pad)
    requires Sane(w.g) && Covers(w.segs, c) && Covers(w.segs, d)
    requires forall s :: s in w.segs ==> c.nets[s] == d.nets[s] && c.vis[s.p0] == d.vis[s.p0] && c.vis[s.p1] == d.vis[s.p1]
    ensures Between(w, c, self, a, b) == Between(w, d, self, a, b)
  {
    match Find(Ends(w.segs), a, b)
    case None =>
    case Some(k) =>
      assert w.segs[k] in w.segs;
  }

  /** Two records that agree on the segments of `w` give the same loop of `removePad`. */
  lemma {:induction false} CutAgrees(w: Wiring, c: Looks, d: Looks, self: Net, pad: Pad, ns: seq<Pad>)
    requires Sane(w.g) && Covers(w.segs, c) && Covers(w.segs, d)
    requires forall s :: s in w.segs ==> c.nets[s] == d.nets[s] && c.vis[s.p0] == d.vis[s.p0] && c.vis[s.p1] == d.vis[s.p1]
    ensures Cut(w, c, self, pad, ns) == Cut(w, d, self, pad, ns)
    decreases |ns|
  {
    if ns != [] {
      BetweenAgrees(w, c, d, self, pad, ns[0]);
      var (o, w1) := Between(w, c, self, pad, ns[0]);
      if !o.Throw? {
        CutAgrees(w1, c, d, self, pad, ns[1..]);
      }
    }
  }

  /** A record that agrees with the heap gives the `removePad(pad)` that reads the heap. */
  lemma UnplugSeen(w: Wiring, pads: set<Pad>, c: Looks, self: Net, pad: Pad)
    requires Sane(w.g) && Agrees(w.segs, pads, c)
    ensures Unplug(w, c, self, pad) == Unplug(w, Seen(w.segs), self, pad)
  {
    var d := Seen(w.segs);
    forall s | s in w.segs
      ensures c.nets[s] == d.nets[s] && c.vis[s.p0] == d.vis[s.p0] && c.vis[s.p1] == d.vis[s.p1]
    {
      assert s.p0 in PadsOf(w.segs) && s.p1 in PadsOf(w.segs);
    }
    if pad in w.g.keys {
      CutAgrees(w, c, d, self, pad, Adj(w.g, pad));
    }
  }

  /** The loop of `removePad(pad)`: `removeSegment(pad, n)` for each entry `n` of the copied list, stopping at a throw. */
  function Cut(w: Wiring, c: Looks, self: Net, pad: Pad, ns: seq<Pad>): (r: (Outcome<bool>, Wiring))
    requires Sane(w.g) && Covers(w.segs, c)
    ensures Sane(r.1.g) && Covers(r.1.segs, c)
    ensures r.0.Return? ==> r.0 == Return(true)
    ensures r.0.Throw? ==> r.0.error == NullPointer
    ensures forall x :: x in r.1.segs ==> x in w.segs
    decreases |ns|
  {
    if ns == [] then (Return(true), w)
    else
      var (o, w1) := Between(w, c, self, pad, ns[0]);
      if o.Throw? then (o, w1) else Cut(w1, c, self, pad, ns[1..])
  }

  /**
   * `removePad(pad)`: false when `pad` is not in the graph; otherwise every
   * segment to a neighbour listed in its adjacency list is removed, then
   * `removeV(pad)` runs, whose answer is dropped, and the answer is true.
   */
  function Unplug(w: Wiring, c: Looks, self: Net, pad: Pad): (r: (Outcome<bool>, Wiring))
    requires Sane(w.g) && Covers(w.segs, c)
    ensures r.0.Return? ==> Sane(r.1.g)
    ensures Covers(r.1.segs, c) && forall x :: x in r.1.segs ==> x in w.segs
    ensures r.0 == Return(false) <==> !HasVertex(w.g, pad)
    ensures r.0 == Return(false) ==> r.1 == w
    ensures r.0.Throw? ==> r.0.error in {NullPointer, ConcurrentModification}
  {
    if pad !in w.g.keys then (Return(false), w)
    else
      var (o, w1) := Cut(w, c, self, pad, Adj(w.g, pad));
      if o.Throw? then (o, w1)
      else
        RemoveVertexSane(w1.g, pad);
        var (g2, o2) := RemoveVertex(w1.g, pad);
        (if o2.Throw? then o2 else Return(true), w1.(g := g2))
  }

  /** Every segment of `segs` is on record as a segment of the net `self`. */
  predicate Owned(segs: seq<Segment>, c: Looks, self: Net) {
    forall s :: s in segs ==> s in c.nets && c.nets[s] == Some(self)
  }

  /** Dropping the segment at `k` drops its pair of pads at `k`. */
  lemma EndsDelete(segs: seq<Segment>, k: nat)
    requires k < |segs|
    ensures Ends(Delete(segs, k)) == Delete(Ends(segs), k)
  {
    var a, b := Ends(Delete(segs, k)), Delete(Ends(segs), k);
    forall j | 0 <= j < |a| ensures a[j] == b[j] {
    }
  }

  /**
   * `addSegment` of a segment `s` keeps a matched net matched exactly when
   * it joins two different pads not yet joined, and the second pad is not
   * already in the graph without the first.
   */
  lemma AddMatched(g: GraphState<Pad>, segs: seq<Segment>, s: Segment)
    requires Matched(g, Ends(segs)) && Distinct(segs) && s !in segs
    ensures Distinct(segs + [s])
    ensures Matched(Connect(g, s.p0, s.p1), Ends(segs + [s])) <==>
      s.p0 != s.p1 && !HasEdge(g, s.p0, s.p1) && (HasVertex(g, s.p0) || !HasVertex(g, s.p1))
  {
    EndsSnoc(segs, s);
    ConnectMatched(g, Ends(segs), s.p0, s.p1);
  }

  /** `removeSegment(s)` of a matched segment of the net: true, `s` dropped from the list, the rest still matched. */
  lemma SnipMatched(w: Wiring, c: Looks, self: Net, k: nat)
    requires Matched(w.g, Ends(w.segs)) && Distinct(w.segs) && k < |w.segs|
    requires Known(c, w.segs[k]) && c.nets[w.segs[k]] == Some(self)
    ensures Snip(w, c, self, w.segs[k]).0 == Return(true)
    ensures Snip(w, c, self, w.segs[k]).1.segs == Delete(w.segs, k)
    ensures Distinct(Delete(w.segs, k))
    ensures Matched(Snip(w, c, self, w.segs[k]).1.g, Ends(Delete(w.segs, k)))
  {
    var s := w.segs[k];
    UnwireMatched(w.g, Ends(w.segs), k, self, c.vis[s.p0], c.vis[s.p1]);
    IndexOfUnique(w.segs, s, k);
    RemoveFirstDistinct(w.segs, s);
    EndsDelete(w.segs, k);
  }

  /** The lists of the graph after `removeSegment(s)` of a matched segment: one entry fewer at each end. */
  lemma SnipAdj(w: Wiring, c: Looks, self: Net, k: nat, x: Pad)
    requires Matched(w.g, Ends(w.segs)) && k < |w.segs| && x in w.g.keys
    requires Known(c, w.segs[k]) && c.nets[w.segs[k]] == Some(self)
    ensures var g1 := Snip(w, c, self, w.segs[k]).1.g; var s := w.segs[k];
      && (x in g1.keys ==> Adj(g1, x) == Without(w.g, s.p0, s.p1, x))
      && (x !in g1.keys ==> Without(w.g, s.p0, s.p1, x) == [])
  {
    var s := w.segs[k];
    UnwireAdj(w.g, Ends(w.segs), k, self, c.vis[s.p0], c.vis[s.p1], x);
  }

  /**
   * `removeSegment(a, b)` in a matched net whose segments are all its own:
   * true exactly when some segment joins `a` and `b`, and then the first
   * such segment is dropped; the rest stays matched.
   */
  lemma BetweenMatched(w: Wiring, c: Looks, self: Net, a: Pad, b: Pad)
    requires Matched(w.g, Ends(w.segs)) && Distinct(w.segs) && Covers(w.segs, c) && Owned(w.segs, c, self)
    ensures Between(w, c, self, a, b).0 == Return(Find(Ends(w.segs), a, b).Some?)
    ensures Between(w, c, self, a, b).1.segs ==
      match Find(Ends(w.segs), a, b) case None => w.segs case Some(k) => Delete(w.segs, k)
    ensures Distinct(Between(w, c, self, a, b).1.segs)
    ensures Matched(Between(w, c, self, a, b).1.g, Ends(Between(w, c, self, a, b).1.segs))
  {
    match Find(Ends(w.segs), a, b)
    case None =>
    case Some(k) =>
      assert w.segs[k] in w.segs;
      SnipMatched(w, c, self, k);
  }

  /**
   * The loop of `removePad(pad)` in a matched net whose segments are all its
   * own, over the current list of `pad`: each turn removes one segment at
   * `pad`, and at the end no segment touches `pad`, whose list is empty.
   */
  lemma {:induction false} CutMatched(w: Wiring, c: Looks, self: Net, pad: Pad, ns: seq<Pad>)
    requires Matched(w.g, Ends(w.segs)) && Distinct(w.segs) && Covers(w.segs, c) && Owned(w.segs, c, self)
    requires if pad in w.g.keys then Adj(w.g, pad) == ns else ns == []
    ensures Cut(w, c, self, pad, ns).0 == Return(true)
    ensures var w1 := Cut(w, c, self, pad, ns).1;
      && Matched(w1.g, Ends(w1.segs)) && Distinct(w1.segs)
      && (pad in w1.g.keys ==> Adj(w1.g, pad) == [])
      && (forall s :: s in w1.segs ==> s.p0 != pad && s.p1 != pad)
    decreases |ns|
  {
    if ns == [] {
      if pad in w.g.keys {
        IsolatedUntouched(w.g, Ends(w.segs), pad);
      }
      forall s | s in w.segs ensures s.p0 != pad && s.p1 != pad {
        var i :| 0 <= i < |w.segs| && w.segs[i] == s;
        assert Ends(w.segs)[i] == (s.p0, s.p1);
      }
    } else {
      CutTurn(w, c, self, pad, ns);
      CutMatched(Between(w, c, self, pad, ns[0]).1, c, self, pad, ns[1..]);
    }
  }

  /** One turn of the loop of `removePad(pad)` in a matched net: the list of `pad` loses its first entry. */
  lemma CutTurn(w: Wiring, c: Looks, self: Net, pad: Pad, ns: seq<Pad>)
    requires Matched(w.g, Ends(w.segs)) && Distinct(w.segs) && Covers(w.segs, c) && Owned(w.segs, c, self)
    requires pad in w.g.keys && Adj(w.g, pad) == ns && ns != []
    ensures var (o, w1) := Between(w, c, self, pad, ns[0]);
      && o == Return(true)
      && Matched(w1.g, Ends(w1.segs)) && Distinct(w1.segs)
      && (if pad in w1.g.keys then Adj(w1.g, pad) == ns[1..] else ns[1..] == [])
  {
    var n := ns[0];
    NeighbourFound(w.g, Ends(w.segs), pad, n);
    var k := Find(Ends(w.segs), pad, n).value;
    assert w.segs[k] in w.segs;
    SnipMatched(w, c, self, k);
    SnipAdj(w, c, self, k, pad);
    assert RemoveFirst(ns, n) == ns[1..] by {
      IndexOfUnique(ns, n, 0);
    }
  }

  /**
   * `removePad(pad)` in a matched net whose segments are all its own: true
   * exactly when `pad` is a vertex; afterwards no segment touches `pad`, no
   * list names it, and the remaining segments stay matched.
   */
  lemma UnplugMatched(w: Wiring, c: Looks, self: Net, pad: Pad)
    requires Matched(w.g, Ends(w.segs)) && Distinct(w.segs) && Covers(w.segs, c) && Owned(w.segs, c, self)
    ensures Unplug(w, c, self, pad).0 == Return(HasVertex(w.g, pad))
    ensures var w2 := Unplug(w, c, self, pad).1;
      && Matched(w2.g, Ends(w2.segs)) && Distinct(w2.segs)
      && (forall s :: s in w2.segs ==> s.p0 != pad && s.p1 != pad)
      && (forall v :: v in w2.g.keys ==> pad !in Adj(w2.g, v))
  {
    if pad in w.g.keys {
      CutMatched(w, c, self, pad, Adj(w.g, pad));
      var w1 := Cut(w, c, self, pad, Adj(w.g, pad)).1;
      RemoveVertexSane(w1.g, pad);
      if pad in w1.g.keys {
        IsolatedRemoval(w1.g, Ends(w1.segs), pad);
      }
    } else {
      forall s | s in w.segs ensures s.p0 != pad && s.p1 != pad {
        var i :| 0 <= i < |w.segs| && w.segs[i] == s;
        assert Ends(w.segs)[i] == (s.p0, s.p1);
      }
    }
  }

  /** Each pad's list of listening segments. */
  type Hooks = map<Pad, seq<Segment>>

  /** The listener lists of the pads of `pads`. */
  ghost function Listeners(pads: set<Pad>): (m: Hooks)
    reads pads`listeners
    ensures m.Keys == pads
  {
    map p | p in pads :: p.listeners
  }

  /** Both ends of every segment of `ss` have a list in `ls`. */
  predicate Held(ls: Hooks, ss: seq<Segment>) {
    forall s :: s in ss ==> s.p0 in ls && s.p1 in ls
  }

  /** Lists kept for the pads of some segments are kept for the ends of each of them. */
  lemma HeldWithin(ls: Hooks, ss: seq<Segment>, all: seq<Segment>)
    requires PadsOf(all) <= ls.Keys && forall s :: s in ss ==> s in all
    ensures Held(ls, ss)
  {
    forall s | s in ss ensures s.p0 in ls && s.p1 in ls {
      assert s.p0 in PadsOf(all) && s.p1 in PadsOf(all);
    }
  }

  /** The listener lists after `p0.removeListener(s)` and `p1.removeListener(s)`. */
  function Unhook(ls: Hooks, s: Segment): (r: Hooks)
    requires s.p0 in ls && s.p1 in ls
    ensures r.Keys == ls.Keys
  {
    var (m0, m1) := Unhooked(ls[s.p0], ls[s.p1], s);
    ls[s.p0 := m0][s.p1 := m1]
  }

  /** `Unhook` for each segment of `ss`, in turn. */
  function UnhookAll(ls: Hooks, ss: seq<Segment>): (r: Hooks)
    requires Held(ls, ss)
    ensures r.Keys == ls.Keys
    decreases |ss|
  {
    if ss == [] then ls else UnhookAll(Unhook(ls, ss[0]), ss[1..])
  }

  /** The copies of the segments of `ss` registered on `q`: one for each end at `q`. */
  function Ties(q: Pad, ss: seq<Segment>): multiset<Segment>
    decreases |ss|
  {
    if ss == [] then multiset{} else multiset(Once(q, ss[0])) + Ties(q, ss[1..])
  }

  /**
   * The segment `removeSegment(a, b)` takes off its pads' lists: the first
   * segment joining `a` and `b`, when the graph has its edge and the net
   * `self` owns it; nothing otherwise.
   */
  function Freeing(w: Wiring, c: Looks, self: Net, a: Pad, b: Pad): (r: seq<Segment>)
    requires Sane(w.g) && Covers(w.segs, c)
    ensures forall s :: s in r ==> s in w.segs
  {
    match Find(Ends(w.segs), a, b)
    case None => []
    case Some(k) =>
      var s := w.segs[k];
      assert s in w.segs;
      if HasEdge(w.g, s.p0, s.p1) && c.nets[s] == Some(self) then [s] else []
  }

  /** The segments the loop of `removePad(pad)` takes off their pads' lists, in order. */
  function Freed(w: Wiring, c: Looks, self: Net, pad: Pad, ns: seq<Pad>): (r: seq<Segment>)
    requires Sane(w.g) && Covers(w.segs, c)
    ensures forall s :: s in r ==> s in w.segs
    decreases |ns|
  {
    if ns == [] then []
    else
      var (o, w1) := Between(w, c, self, pad, ns[0]);
      var u := Freeing(w, c, self, pad, ns[0]);
      if o.Throw? then u else u + Freed(w1, c, self, pad, ns[1..])
  }

  /** The segments `removePad(pad)` takes off their pads' lists, in order. */
  function UnplugFreed(w: Wiring, c: Looks, self: Net, pad: Pad): (r: seq<Segment>)
    requires Sane(w.g) && Covers(w.segs, c)
    ensures forall s :: s in r ==> s in w.segs
  {
    if pad !in w.g.keys then [] else Freed(w, c, self, pad, Adj(w.g, pad))
  }

  /** One turn of the loop of `removePad`, on the segments it unhooks. */
  lemma FreedStep(w: Wiring, c: Looks, self: Net, pad: Pad, ns: seq<Pad>)
    requires Sane(w.g) && Covers(w.segs, c) && ns != []
    ensures Freed(w, c, self, pad, ns) ==
      var (o, w1) := Between(w, c, self, pad, ns[0]);
      var u := Freeing(w, c, self, pad, ns[0]);
      if o.Throw? then u else u + Freed(w1, c, self, pad, ns[1..])
  {
  }

  /**
   * One step of the loop of `removePad(pad)` on the listener lists `ls`:
   * unhooking what the first removal frees, then what the rest frees, is
   * unhooking all `Freed` names; a throw ends the unhooking with the step.
   */
  lemma FreedHooks(w: Wiring, c: Looks, self: Net, pad: Pad, ns: seq<Pad>, ls: Hooks)
    requires Sane(w.g) && Covers(w.segs, c) && ns != [] && PadsOf(w.segs) <= ls.Keys
    ensures Held(ls, Freed(w, c, self, pad, ns)) && Held(ls, Freeing(w, c, self, pad, ns[0]))
    ensures var (o, w1) := Between(w, c, self, pad, ns[0]);
      var ls1 := UnhookAll(ls, Freeing(w, c, self, pad, ns[0]));
      && Held(ls1, Freed(w1, c, self, pad, ns[1..]))
      && (o.Throw? ==> ls1 == UnhookAll(ls, Freed(w, c, self, pad, ns)))
      && (o.Return? ==> UnhookAll(ls1, Freed(w1, c, self, pad, ns[1..])) == UnhookAll(ls, Freed(w, c, self, pad, ns)))
  {
    FreedStep(w, c, self, pad, ns);
    HeldWithin(ls, Freed(w, c, self, pad, ns), w.segs);
    HeldWithin(ls, Freeing(w, c, self, pad, ns[0]), w.segs);
    var (o, w1) := Between(w, c, self, pad, ns[0]);
    var ls1 := UnhookAll(ls, Freeing(w, c, self, pad, ns[0]));
    HeldWithin(ls1, Freed(w1, c, self, pad, ns[1..]), w.segs);
    if o.Return? {
      UnhookAllAppend(ls, Freeing(w, c, self, pad, ns[0]), Freed(w1, c, self, pad, ns[1..]));
    }
  }

  /**
   * Lists `now` that differ from `ls` only at the ends of `s`, where they
   * are as `Unhooked` says, are `ls` with `s` unhooked.
   */
  lemma UnhookedAt(ls: Hooks, now: Hooks, s: Segment)
    requires s.p0 in ls && s.p1 in ls && now.Keys == ls.Keys
    requires (now[s.p0], now[s.p1]) == Unhooked(ls[s.p0], ls[s.p1], s)
    requires forall q :: q in ls && q != s.p0 && q != s.p1 ==> now[q] == ls[q]
    ensures now == Unhook(ls, s)
  {
  }

  /** Unhooking the one segment `s` is `Unhook`; unhooking none changes nothing. */
  lemma UnhookOne(ls: Hooks, s: Segment)
    requires s.p0 in ls && s.p1 in ls
    ensures UnhookAll(ls, [s]) == Unhook(ls, s) && UnhookAll(ls, []) == ls
  {
    assert [s][1..] == [];
  }

  /** Unhooking `a` and then `b` is unhooking `a + b`. */
  lemma {:induction false} UnhookAllAppend(ls: Hooks, a: seq<Segment>, b: seq<Segment>)
    requires Held(ls, a + b)
    ensures Held(ls, a) && Held(UnhookAll(ls, a), b)
    ensures UnhookAll(ls, a + b) == UnhookAll(UnhookAll(ls, a), b)
    decreases |a|
  {
    assert forall s :: s in a ==> s in a + b;
    assert forall s :: s in b ==> s in a + b;
    if a != [] {
      assert (a + b)[0] == a[0] && (a + b)[1..] == a[1..] + b;
      UnhookAllAppend(Unhook(ls, a[0]), a[1..], b);
    } else {
      assert a + b == b;
    }
  }

  /** Unhooking `s` takes one copy of it off the list of each of its ends. */
  lemma UnhookTies(ls: Hooks, s: Segment, q: Pad)
    requires s.p0 in ls && s.p1 in ls && q in ls
    ensures multiset(Unhook(ls, s)[q]) == multiset(ls[q]) - multiset(Once(q, s))
  {
    var l := ls[q];
    if q != s.p0 && q != s.p1 {
      assert Unhook(ls, s)[q] == l && Once(q, s) == [];
    } else if s.p0 == s.p1 {
      assert Unhook(ls, s)[q] == RemoveFirst(RemoveFirst(l, s), s) && Once(q, s) == [s, s];
      RemoveFirstMultiset(l, s);
      RemoveFirstMultiset(RemoveFirst(l, s), s);
      assert multiset([s, s]) == multiset{s} + multiset{s};
    } else {
      assert Unhook(ls, s)[q] == RemoveFirst(l, s) && Once(q, s) == [s];
      RemoveFirstMultiset(l, s);
    }
  }

  /**
   * Unhooking the segments of `ss` takes off each pad's list one copy of
   * each of them for each end at that pad, and no other segment.
   */
  lemma {:induction false} UnhookAllTies(ls: Hooks, ss: seq<Segment>, q: Pad)
    requires Held(ls, ss) && q in ls
    ensures multiset(UnhookAll(ls, ss)[q]) == multiset(ls[q]) - Ties(q, ss)
    decreases |ss|
  {
    if ss != [] {
      var ls1 := Unhook(ls, ss[0]);
      UnhookTies(ls, ss[0], q);
      UnhookAllTies(ls1, ss[1..], q);
      var a, b, c := multiset(ls[q]), multiset(Once(q, ss[0])), Ties(q, ss[1..]);
      assert (a - b) - c == a - (b + c);
    }
  }

  /** A `removeSegment(a, b)` that does not throw drops from the list exactly the segment it unhooks. */
  lemma FreeingDropped(w: Wiring, c: Looks, self: Net, a: Pad, b: Pad)
    requires Sane(w.g) && Covers(w.segs, c) && Between(w, c, self, a, b).0.Return?
    ensures multiset(Freeing(w, c, self, a, b)) + multiset(Between(w, c, self, a, b).1.segs) == multiset(w.segs)
  {
    match Find(Ends(w.segs), a, b)
    case None =>
    case Some(k) =>
      var s := w.segs[k];
      if HasEdge(w.g, s.p0, s.p1) && c.nets[s] == Some(self) {
        RemoveFirstMultiset(w.segs, s);
      }
  }

  /**
   * When the loop of `removePad` does not throw, the segments it unhooks are
   * exactly the segments it drops from the net's list.
   */
  lemma {:induction false} FreedDropped(w: Wiring, c: Looks, self: Net, pad: Pad, ns: seq<Pad>)
    requires Sane(w.g) && Covers(w.segs, c) && Cut(w, c, self, pad, ns).0.Return?
    ensures multiset(Freed(w, c, self, pad, ns)) + multiset(Cut(w, c, self, pad, ns).1.segs) == multiset(w.segs)
    decreases |ns|
  {
    if ns != [] {
      CutStep(w, c, self, pad, ns);
      FreedStep(w, c, self, pad, ns);
      var w1 := Between(w, c, self, pad, ns[0]).1;
      FreeingDropped(w, c, self, pad, ns[0]);
      FreedDropped(w1, c, self, pad, ns[1..]);
    }
  }

  /**
   * A `removePad(pad)` that answers true takes off the listener list of
   * each pad one copy of every segment it drops from the net for each end
   * of that segment at the pad, and nothing else.
   */
  lemma UnplugReleases(w: Wiring, c: Looks, self: Net, pad: Pad, ls: Hooks, q: Pad)
    requires Sane(w.g) && Covers(w.segs, c) && PadsOf(w.segs) <= ls.Keys && q in ls
    requires Unplug(w, c, self, pad).0 == Return(true)
    ensures Held(ls, UnplugFreed(w, c, self, pad))
    ensures var ss := UnplugFreed(w, c, self, pad);
      && multiset(ss) + multiset(Unplug(w, c, self, pad).1.segs) == multiset(w.segs)
      && multiset(UnhookAll(ls, ss)[q]) == multiset(ls[q]) - Ties(q, ss)
  {
    var ss := UnplugFreed(w, c, self, pad);
    HeldWithin(ls, ss, w.segs);
    FreedDropped(w, c, self, pad, Adj(w.g, pad));
    UnhookAllTies(ls, ss, q);
  }

  /** The registrations `addSegment` makes of `s` on `q`, from the constructor and then again from the net. */
  function Once(q: Pad, s: Segment): seq<Segment> {
    (if s.p0 == q then [s] else []) + (if s.p1 == q then [s] else [])
  }

  /** A listener list after `addSegment` created `s`: each end registers it twice. */
  function Hook(ls: seq<Segment>, q: Pad, s: Segment): seq<Segment> {
    ls + Once(q, s) + Once(q, s)
  }

  /**
   * A segment added by `addSegment` and removed again by `removeSegment`
   * stays registered on its pads: two registrations per end go in and one
   * comes out, two of four for a segment from a pad to itself.
   */
  lemma ListenerLeak(l0: seq<Segment>, l1: seq<Segment>, s: Segment)
    requires s !in l0 && s !in l1
    ensures s.p0 != s.p1 ==> Unhooked(Hook(l0, s.p0, s), Hook(l1, s.p1, s), s) == (l0 + [s], l1 + [s])
    ensures s.p0 == s.p1 ==> Unhooked(Hook(l0, s.p0, s), Hook(l0, s.p0, s), s) == (l0 + [s, s], l0 + [s, s])
  {
    if s.p0 != s.p1 {
      assert Hook(l0, s.p0, s) == l0 + [s, s] && Hook(l1, s.p1, s) == l1 + [s, s];
      RemoveFirstPast(l0, [s, s], s);
      RemoveFirstPast(l1, [s, s], s);
      assert RemoveFirst([s, s], s) == [s];
    } else {
      assert Hook(l0, s.p0, s) == l0 + [s, s, s, s];
      RemoveFirstPast(l0, [s, s, s, s], s);
      assert RemoveFirst([s, s, s, s], s) == [s, s, s];
      RemoveFirstPast(l0, [s, s, s], s);
      assert RemoveFirst([s, s, s], s) == [s, s];
    }
  }

  /** The position of the first pad of `pads` whose ring holds `q`, as the loops over pads search. */
  function FirstPad(pads: seq<Pad>, q: Point): (r: Option<nat>)
    reads (set p | p in pads)`ring
    ensures r.Some? ==> r.value < |pads| && pads[r.value].Contains(q)
    ensures r.Some? ==> forall j :: 0 <= j < r.value ==> !pads[j].Contains(q)
    ensures r.None? <==> forall j :: 0 <= j < |pads| ==> !pads[j].Contains(q)
  {
    if pads == [] then None
    else if pads[0].Contains(q) then Some(0)
    else match FirstPad(pads[1..], q)
      case None => None
      case Some(k) => Some(k + 1)
  }

  /** The position of the first segment of `segs` whose stroked line holds `q`. */
  function FirstSeg(segs: seq<Segment>, q: Point, hit: (Line, real, Point) -> bool): (r: Option<nat>)
    reads (set s | s in segs)`line, (set s | s in segs)`width
    ensures r.Some? ==> r.value < |segs| && segs[r.value].Contains(q, hit)
    ensures r.Some? ==> forall j :: 0 <= j < r.value ==> !segs[j].Contains(q, hit)
    ensures r.None? <==> forall j :: 0 <= j < |segs| ==> !segs[j].Contains(q, hit)
  {
    if segs == [] then None
    else if segs[0].Contains(q, hit) then Some(0)
    else match FirstSeg(segs[1..], q, hit)
      case None => None
      case Some(k) => Some(k + 1)
  }

  /** What `getUnderlyingComponent` of a net answers when it is not null: a pad or a segment. */
  datatype Hit = PadHit(pad: Pad) | SegHit(seg: Segment)

  /** A net: a graph whose vertices are its pads and whose edges are its connections, and its trace segments. */
  class Net {
    const graph: Graph<Pad>
    /** The trace segments, in the order they were added. */
    var segs: seq<Segment>
    var name: string
    var selected: bool

    ghost predicate Valid()
      reads graph`lists, graph`edges, graph.adj`keys, graph.adj`vals, (set l | l in graph.adj.vals)`items
    {
      graph.Valid()
    }

    /** `Net(name)`: an empty graph and no segments. */
    constructor (name: string)
      ensures Valid() && fresh(graph.Repr())
      ensures graph.State() == Isolated([]) && segs == [] && this.name == name && !selected
    {
      graph := new Graph();
      segs := [];
      this.name := name;
      selected := false;
    }

    /** `Net(name, pads...)`: each pad in turn is told its net and added as a vertex. */
    constructor WithPads(name: string, pads: seq<Pad>)
      modifies (set p | p in pads)`net
      ensures Valid() && fresh(graph.Repr())
      ensures graph.State() == Isolated(pads) && segs == [] && this.name == name && !selected
      ensures forall p :: p in pads ==> p.net == Some(this)
    {
      graph := new Graph();
      segs := [];
      this.name := name;
      selected := false;
      new;
      AddPads(pads);
    }

    /** The loop of `Net(name, pads...)` over an empty graph: each pad in turn is told its net and added as a vertex. */
    method AddPads(pads: seq<Pad>)
      requires Valid() && graph.State() == Isolated([])
      modifies (set p | p in pads)`net, graph`edges, graph`lists, graph.adj`keys, graph.adj`vals
      ensures Valid() && fresh(graph.Repr() - old(graph.Repr()))
      ensures graph.State() == Isolated(pads)
      ensures forall p :: p in pads ==> p.net == Some(this)
    {
      for i := 0 to |pads|
        invariant Valid() && fresh(graph.Repr() - old(graph.Repr()))
        invariant graph.State() == Isolated(pads[..i])
        invariant forall p :: p in pads[..i] ==> p.net == Some(this)
      {
        IsolatedTake(pads, i);
        AddPad(pads[i]);
      }
      assert pads[..|pads|] == pads;
    }

    /** `getName()`. */
    method GetName() returns (r: string)
      ensures r == name
    {
      r := name;
    }

    /** `setName(name)`. */
    method SetName(name: string)
      modifies this`name
      ensures this.name == name
    {
      this.name := name;
    }

    /** `setSelected(state)`. */
    method SetSelected(state: bool)
      modifies this`selected
      ensures selected == state
    {
      selected := state;
    }

    /** `getSegments()`: the live list. */
    method GetSegments() returns (r: seq<Segment>)
      ensures r == segs
    {
      r := segs;
    }

    /** `getPads()`: the vertices of the graph, in insertion order. */
    method GetPads() returns (r: seq<Pad>)
      ensures r == graph.State().keys
    {
      r := graph.GetVertices();
    }

    /** `addPad(pad)`: the pad is told its net, then added as a vertex, even when it is one already. */
    method AddPad(pad: Pad)
      requires Valid()
      modifies pad`net, graph`edges, graph`lists, graph.adj`keys, graph.adj`vals
      ensures Valid() && fresh(graph.Repr() - old(graph.Repr()))
      ensures pad.net == Some(this)
      ensures graph.State() == AddVertex(old(graph.State()), pad)
    {
      pad.SetNet(Some(this));
      graph.AddV(pad);
    }

    /**
     * `addSegment(p0, p1, width, color)`. A pad without a net is given this
     * one first. The nets were read before that, so a `p0` that had none
     * throws a NullPointerException, while a `p1` that had none counts as
     * this net's. Unless both belong to this net the answer is false.
     * Otherwise the pads are admitted to the graph, `addE` runs (its answer
     * is dropped), and a new segment of this net is registered twice on each
     * end and appended.
     */
    method AddSegment(p0: Pad, p1: Pad, width: real) returns (r: Outcome<bool>)
      requires Valid()
      modifies this`segs, graph`edges, graph`lists, graph.adj`keys, graph.adj`vals, (iset l: VertexList<Pad> | l.owner == graph.adj)`items, p0`net, p1`net, p0`listeners, p1`listeners
      ensures Valid() && fresh(graph.Repr() - old(graph.Repr()))
      ensures p0.net == (if old(p0.net).None? then Some(this) else old(p0.net))
      ensures p1.net == (if old(p1.net).None? then Some(this) else old(p1.net))
      ensures r.Throw? <==> old(p0.net).None?
      ensures r.Throw? ==> r.error == NullPointer
      ensures r == Return(true) <==> old(p0.net) == Some(this) && (old(p1.net).None? || old(p1.net) == Some(this))
      ensures r != Return(true) ==> graph.State() == old(graph.State()) && segs == old(segs)
      ensures r != Return(true) ==> p0.listeners == old(p0.listeners) && p1.listeners == old(p1.listeners)
      ensures r == Return(true) ==>
        && graph.State() == Connect(old(graph.State()), p0, p1)
        && |segs| == |old(segs)| + 1 && segs[..|old(segs)|] == old(segs)
        && Ends(segs) == Ends(old(segs)) + [(p0, p1)]
        && var s := segs[|old(segs)|];
          && fresh(s) && s.p0 == p0 && s.p1 == p1 && s.width == width && s.net == Some(this) && s.Tracks()
          && p0.listeners == Hook(old(p0.listeners), p0, s) && p1.listeners == Hook(old(p1.listeners), p1, s)
    {
      r := Claim(p0, p1);
      if r == Return(true) {
        var _ := Join(p0, p1, width);
      }
    }

    /**
     * The net checks of `addSegment`: a pad without a net is given this one,
     * and the answer is the one `addSegment` gives when it stops, or true
     * when it goes on.
     */
    method Claim(p0: Pad, p1: Pad) returns (r: Outcome<bool>)
      modifies p0`net, p1`net
      ensures p0.net == (if old(p0.net).None? then Some(this) else old(p0.net))
      ensures p1.net == (if old(p1.net).None? then Some(this) else old(p1.net))
      ensures r.Throw? <==> old(p0.net).None?
      ensures r.Throw? ==> r.error == NullPointer
      ensures r == Return(true) <==> old(p0.net) == Some(this) && (old(p1.net).None? || old(p1.net) == Some(this))
    {
      var p0Net, p1Net := p0.net, p1.net;
      if p0Net.None? {
        p0.SetNet(Some(this));
      }
      if p1Net.None? {
        p1.SetNet(Some(this));
        p1Net := Some(this);
      }
      if p0Net.None? {
        r := Throw(NullPointer);
      } else if !(p0Net.value == this && p1Net.value == this) {
        r := Return(false);
      } else {
        r := Return(true);
      }
    }

    /** The success path of `addSegment`: admission, `addE`, and the new segment appended. */
    method Join(p0: Pad, p1: Pad, width: real) returns (s: Segment)
      requires Valid()
      modifies this`segs, graph`edges, graph`lists, graph.adj`keys, graph.adj`vals, (iset l: VertexList<Pad> | l.owner == graph.adj)`items, p0`listeners, p1`listeners
      ensures Valid() && fresh(graph.Repr() - old(graph.Repr()))
      ensures graph.State() == Connect(old(graph.State()), p0, p1)
      ensures segs == old(segs) + [s] && Ends(segs) == Ends(old(segs)) + [(p0, p1)]
      ensures fresh(s) && s.p0 == p0 && s.p1 == p1 && s.width == width && s.net == Some(this) && s.Tracks()
      ensures p0.listeners == Hook(old(p0.listeners), p0, s) && p1.listeners == Hook(old(p1.listeners), p1, s)
    {
      Link(p0, p1);
      label Connected:
      s := Wire(p0, p1, width);
      GraphUnchanged@Connected(graph);
    }

    /** The graph half of `addSegment`: admission, then `addE`, whose answer is dropped. */
    method Link(p0: Pad, p1: Pad)
      requires Valid()
      modifies graph`edges, graph`lists, graph.adj`keys, graph.adj`vals, (iset l: VertexList<Pad> | l.owner == graph.adj)`items
      ensures Valid() && fresh(graph.Repr() - old(graph.Repr()))
      ensures graph.State() == Connect(old(graph.State()), p0, p1)
    {
      AdmitPads(p0, p1);
      var _ := graph.AddE(p0, p1);
    }

    /** The vertex insertion of `addSegment`, as Admit states it. */
    method AdmitPads(p0: Pad, p1: Pad)
      requires Valid()
      modifies graph`edges, graph`lists, graph.adj`keys, graph.adj`vals
      ensures Valid() && fresh(graph.Repr() - old(graph.Repr()))
      ensures graph.State() == Admit(old(graph.State()), p0, p1)
    {
      var has0 := graph.ContainsV(p0);
      var has1 := graph.ContainsV(p1);
      if has0 && !has1 {
        graph.AddV(p1);
      } else if has1 && !has0 {
        graph.AddV(p1);
      } else if !has0 && !has1 {
        graph.AddV(p1);
        graph.AddV(p0);
      }
    }

    /** The segment of `addSegment`: created (registering on both ends), given this net, registered on both ends again, and appended. */
    method Wire(p0: Pad, p1: Pad, width: real) returns (s: Segment)
      modifies this`segs, p0`listeners, p1`listeners
      ensures segs == old(segs) + [s] && Ends(segs) == Ends(old(segs)) + [(p0, p1)]
      ensures fresh(s) && s.p0 == p0 && s.p1 == p1 && s.width == width && s.net == Some(this) && s.Tracks()
      ensures p0.listeners == Hook(old(p0.listeners), p0, s) && p1.listeners == Hook(old(p1.listeners), p1, s)
    {
      s := new Segment(p0, p1, width);
      s.SetNet(Some(this));
      p0.AddListener(s);
      p1.AddListener(s);
      segs := segs + [s];
      EndsSnoc(old(segs), s);
    }

    /**
     * The end test of `removeSegment(seg)` for one pad: a visible pad stays;
     * for an invisible one `getAdj` answers null when it is no vertex, which
     * throws, and the pad is removed when its list is empty.
     */
    method PruneEnd(v: Pad, ghost pads: set<Pad>) returns (r: Outcome<bool>)
      requires Valid()
      modifies graph`edges, graph`lists, graph.adj`keys, graph.adj`vals, (iset l: VertexList<Pad> | l.owner == graph.adj)`items
      ensures Valid() && graph.Repr() <= old(graph.Repr())
      ensures r.Throw? <==> Prune(old(graph.State()), v, old(v.visible)).Throw?
      ensures r.Throw? ==> r == Throw(NullPointer) && graph.State() == old(graph.State())
      ensures r.Return? ==> r == Return(true) && graph.State() == Prune(old(graph.State()), v, old(v.visible)).value
      ensures Listeners(pads) == old(Listeners(pads))
    {
      if !v.visible {
        var a := graph.GetAdj(v);
        if a.None? {
          return Throw(NullPointer);
        }
        if a.value.items == [] {
          RemoveVertexSane(graph.State(), v);
          var _ := graph.RemoveV(v);
        }
      }
      return Return(true);
    }

    /**
     * `removeSegment(seg)`, as Unwire states it: `removeE` runs first; a
     * false answer, a segment of another net, or a segment without a net
     * (which throws) stops there; otherwise the segment leaves both listener
     * lists, invisible ends left without connections leave the graph, and
     * the segment leaves the list unless a pruning threw.
     */
    method RemoveSegment(seg: Segment, ghost pads: set<Pad>) returns (r: Outcome<bool>)
      requires Valid() && seg.p0 in pads && seg.p1 in pads
      modifies this`segs, graph`edges, graph`lists, graph.adj`keys, graph.adj`vals, (iset l: VertexList<Pad> | l.owner == graph.adj)`items, seg.p0`listeners, seg.p1`listeners
      ensures Valid() && graph.Repr() <= old(graph.Repr())
      ensures (r, graph.State())
        == Unwire(old(graph.State()), seg.p0, seg.p1, old(seg.net), this, old(seg.p0.visible), old(seg.p1.visible))
      ensures Listeners(pads)
        == if HasEdge(old(graph.State()), seg.p0, seg.p1) && old(seg.net) == Some(this) then Unhook(old(Listeners(pads)), seg) else old(Listeners(pads))
      ensures segs == if r == Return(true) then RemoveFirst(old(segs), seg) else old(segs)
    {
      ghost var g := graph.State();
      RemoveEdgeSane(g, seg.p0, seg.p1);
      var removed := graph.RemoveE(seg.p0, seg.p1);
      if !removed {
        r := Return(false);
      } else if seg.net.None? {
        r := Throw(NullPointer);
      } else if seg.net.value != this {
        r := Return(false);
      } else {
        r := Detach(seg, pads);
      }
    }

    /** The success path of `removeSegment(seg)`, once the edge is gone. */
    method Detach(seg: Segment, ghost pads: set<Pad>) returns (r: Outcome<bool>)
      requires Valid() && seg.p0 in pads && seg.p1 in pads
      modifies this`segs, graph`edges, graph`lists, graph.adj`keys, graph.adj`vals, (iset l: VertexList<Pad> | l.owner == graph.adj)`items, seg.p0`listeners, seg.p1`listeners
      ensures Valid() && graph.Repr() <= old(graph.Repr())
      ensures (r, graph.State()) == PruneBoth(old(graph.State()), seg.p0, seg.p1, old(seg.p0.visible), old(seg.p1.visible))
      ensures Listeners(pads) == Unhook(old(Listeners(pads)), seg)
      ensures segs == if r == Return(true) then RemoveFirst(old(segs), seg) else old(segs)
    {
      Unregister(seg, pads);
      r := PruneEnds(seg.p0, seg.p1, pads);
      label Pruned:
      if r.Return? {
        segs := RemoveFirst(segs, seg);
      }
      GraphUnchanged@Pruned(graph);
    }

    /** The end tests of `removeSegment(seg)`: `p0` is pruned, then `p1`, stopping at a throw. */
    method PruneEnds(p0: Pad, p1: Pad, ghost pads: set<Pad>) returns (r: Outcome<bool>)
      requires Valid()
      modifies graph`edges, graph`lists, graph.adj`keys, graph.adj`vals, (iset l: VertexList<Pad> | l.owner == graph.adj)`items
      ensures Valid() && graph.Repr() <= old(graph.Repr())
      ensures (r, graph.State()) == PruneBoth(old(graph.State()), p0, p1, old(p0.visible), old(p1.visible))
      ensures Listeners(pads) == old(Listeners(pads))
    {
      r := PruneEnd(p0, pads);
      if r.Return? {
        r := PruneEnd(p1, pads);
      }
    }

    /** The loop of `removeSegment(p0, p1)`: the position of the first segment joining `p0` and `p1`. */
    method Locate(p0: Pad, p1: Pad) returns (k: Option<nat>)
      ensures k == Find(Ends(segs), p0, p1)
    {
      var i := 0;
      while i < |segs|
        invariant i <= |segs|
        invariant forall j :: 0 <= j < i ==> !Joins(Ends(segs)[j], p0, p1)
      {
        var seg := segs[i];
        if (seg.p0 == p0 && seg.p1 == p1) || (seg.p0 == p1 && seg.p1 == p0) {
          return Some(i);
        }
        i := i + 1;
      }
      return None;
    }

    /**
     * `removeSegment(p0, p1)`: the first segment joining `p0` and `p1`, in
     * either orientation, is removed with `removeSegment(seg)`, whose answer
     * is dropped; false when there is none. Only the ends of that segment
     * change their listener lists.
     */
    method RemoveSegmentBetween(p0: Pad, p1: Pad, ghost pads: set<Pad>) returns (r: Outcome<bool>)
      requires Valid() && PadsOf(segs) <= pads
      modifies this`segs, graph`edges, graph`lists, graph.adj`keys, graph.adj`vals, (iset l: VertexList<Pad> | l.owner == graph.adj)`items, EndsAt(segs, Find(Ends(segs), p0, p1))`listeners
      ensures Valid() && graph.Repr() <= old(graph.Repr())
      ensures (r, Wiring(graph.State(), segs)) == Between(old(Wiring(graph.State(), segs)), old(Seen(segs)), this, p0, p1)
      ensures Held(old(Listeners(pads)), Freeing(old(Wiring(graph.State(), segs)), old(Seen(segs)), this, p0, p1))
      ensures Listeners(pads) == UnhookAll(old(Listeners(pads)), Freeing(old(Wiring(graph.State(), segs)), old(Seen(segs)), this, p0, p1))
    {
      var k := Locate(p0, p1);
      ghost var w := Wiring(graph.State(), segs);
      ghost var c := Seen(segs);
      ghost var ls := Listeners(pads);
      if k.None? {
        r := Return(false);
        assert Listeners(pads) == ls;
      } else {
        ghost var s := segs[k.value];
        assert s in segs;
        ghost var had := HasEdge(w.g, s.p0, s.p1) && s.net == Some(this);
        ghost var f := if had then [s] else [];
        assert Freeing(w, c, this, p0, p1) == f;
        UnhookOne(ls, s);
        assert UnhookAll(ls, f) == if had then Unhook(ls, s) else ls;
        var o := RemoveAt(k.value, pads);
        assert Listeners(pads) == if had then Unhook(ls, s) else ls;
        r := if o.Throw? then o else Return(true);
      }
    }

    /** The ends of the segment at position `k`, if any. */
    static function EndsAt(segs: seq<Segment>, k: Option<nat>): set<Pad> {
      if k.Some? && k.value < |segs| then {segs[k.value].p0, segs[k.value].p1} else {}
    }

    /** `removeSegment(seg)` for the segment at position `k` of the list. */
    method RemoveAt(k: nat, ghost pads: set<Pad>) returns (r: Outcome<bool>)
      requires Valid() && k < |segs| && segs[k].p0 in pads && segs[k].p1 in pads
      modifies this`segs, graph`edges, graph`lists, graph.adj`keys, graph.adj`vals, (iset l: VertexList<Pad> | l.owner == graph.adj)`items, segs[k].p0`listeners, segs[k].p1`listeners
      ensures Valid() && graph.Repr() <= old(graph.Repr())
      ensures (r, Wiring(graph.State(), segs)) == Snip(old(Wiring(graph.State(), segs)), old(Seen(segs)), this, old(segs[k]))
      ensures var s := old(segs[k]);
        Listeners(pads) == if HasEdge(old(graph.State()), s.p0, s.p1) && old(s.net) == Some(this) then Unhook(old(Listeners(pads)), s) else old(Listeners(pads))
    {
      var seg := segs[k];
      ghost var c := Seen(segs);
      assert c.nets[seg] == seg.net && c.vis[seg.p0] == seg.p0.visible && c.vis[seg.p1] == seg.p1.visible;
      r := RemoveSegment(seg, pads);
    }

    /** `contains(q)`: the segments are searched first, then the pads. */
    method Contains(q: Point, hit: (Line, real, Point) -> bool) returns (b: bool)
      requires Valid()
      ensures b <==> (exists s :: s in segs && s.Contains(q, hit)) || (exists p :: p in graph.State().keys && p.Contains(q))
    {
      for i := 0 to |segs|
        invariant forall j :: 0 <= j < i ==> !segs[j].Contains(q, hit)
      {
        if segs[i].Contains(q, hit) {
          return true;
        }
      }
      var pads := graph.GetVertices();
      for i := 0 to |pads|
        invariant forall j :: 0 <= j < i ==> !pads[j].Contains(q)
      {
        if pads[i].Contains(q) {
          return true;
        }
      }
      return false;
    }

    /**
     * `getUnderlyingComponent(q)`: the first pad, in insertion order, whose
     * ring holds `q`; failing that the first segment whose stroked line holds
     * it; failing that null.
     */
    method UnderlyingAt(q: Point, hit: (Line, real, Point) -> bool) returns (r: Option<Hit>)
      requires Valid()
      ensures r.None? <==> FirstPad(graph.State().keys, q).None? && FirstSeg(segs, q, hit).None?
      ensures r.Some? && r.value.PadHit? <==> FirstPad(graph.State().keys, q).Some?
      ensures FirstPad(graph.State().keys, q).Some? ==> r == Some(PadHit(graph.State().keys[FirstPad(graph.State().keys, q).value]))
      ensures FirstPad(graph.State().keys, q).None? && FirstSeg(segs, q, hit).Some? ==> r == Some(SegHit(segs[FirstSeg(segs, q, hit).value]))
    {
      var pads := graph.GetVertices();
      for i := 0 to |pads|
        invariant forall j :: 0 <= j < i ==> !pads[j].Contains(q)
      {
        var c := pads[i].UnderlyingAt(q);
        if c.Some? {
          return Some(PadHit(c.value));
        }
      }
      for i := 0 to |segs|
        invariant forall j :: 0 <= j < i ==> !segs[j].Contains(q, hit)
      {
        var c := segs[i].UnderlyingAt(q, hit);
        if c.Some? {
          return Some(SegHit(c.value));
        }
      }
      return None;
    }

    /** `getPaddedOutline(padding)`: unsupported, it always throws. */
    method PaddedOutline(padding: real) returns (r: Outcome<Outline>)
      ensures r == Throw(Unsupported)
    {
      return Throw(Unsupported);
    }

    /** `getP()`: unsupported, it always throws. */
    method GetP() returns (r: Outcome<Point>)
      ensures r == Throw(Unsupported)
    {
      return Throw(Unsupported);
    }

    /** `setP(q)`: unsupported, it always throws. */
    method SetP(q: Point) returns (r: Outcome<()>)
      ensures r == Throw(Unsupported)
    {
      return Throw(Unsupported);
    }

    /**
     * `translate(delta)`: a depth-first traversal of the graph from its first
     * pad moves each pad it reaches by `delta`, in the order it reaches them
     * (`TranslateReach` says which pads move); a net without pads throws.
     */
    method Translate(delta: Point) returns (r: Outcome<()>)
      requires Valid()
      modifies (set p | p in graph.State().keys)`ring, (set p | p in graph.State().keys)`hole
      modifies Watchers(graph.State().keys)`line
      ensures Valid() && graph.State() == old(graph.State())
      ensures r.Throw? <==> graph.State().keys == []
      ensures r.Throw? ==> r.error == IndexOutOfBounds && Places(graph.State().keys) == old(Places(graph.State().keys))
      ensures r.Return? ==> Places(graph.State().keys) == Translated(old(Places(graph.State().keys)), graph.State(), delta)
      ensures r.Return? ==> forall s :: s in Watchers(Traverse(graph.State()).value.order) && Hooked(s) ==> s.Tracks()
    {
      var order;
      r, order := Search();
      if r.Return? {
        PlacesUnchanged(graph.State().keys);
        TraverseCount(graph.State(), graph.State().keys[0]);
        Shove(order, delta);
      }
    }

    /** The operation of `translate`'s traversal: `pad.translate(delta)` for each pad of `order`, in turn. */
    method Shove(order: seq<Pad>, delta: Point)
      requires Valid() && forall p :: p in order ==> p in graph.State().keys
      modifies (set p | p in graph.State().keys)`ring, (set p | p in graph.State().keys)`hole
      modifies Watchers(graph.State().keys)`line
      ensures Valid() && graph.State() == old(graph.State())
      ensures Places(graph.State().keys) == Moves(old(Places(graph.State().keys)), order, delta)
      ensures forall s :: s in Watchers(order) && Hooked(s) ==> s.Tracks()
    {
      TranslateWithin(order, graph.State().keys, delta);
      GraphUnchanged(graph);
    }

    /** The search of `translate`: a traversal run over the graph, which it leaves as it was; `order` is the order it reaches the pads in. */
    method Search() returns (r: Outcome<()>, order: seq<Pad>)
      requires Valid()
      ensures Valid() && graph.State() == old(graph.State())
      ensures r.Throw? <==> graph.State().keys == []
      ensures r.Throw? ==> r.error == IndexOutOfBounds
      ensures r.Return? ==> order == Traverse(graph.State()).value.order
    {
      var d := new DFO(graph);
      r := d.Run();
      order := d.performed;
    }

    /**
     * `removePad(pad)`: false when the pad is not in the graph; otherwise a
     * copy of its adjacency list is taken, `removeSegment(pad, n)` runs for
     * each entry `n`, then `removeV(pad)`, whose answer is dropped, and the
     * pad loses its net. Each removal takes the segment it frees off its
     * ends' listener lists, so the lists end as `UnplugFreed` and
     * `UnhookAll` say.
     */
    method RemovePad(pad: Pad) returns (r: Outcome<bool>)
      requires Valid()
      modifies this`segs, graph`edges, graph`lists, graph.adj`keys, graph.adj`vals, (iset l: VertexList<Pad> | l.owner == graph.adj)`items, PadsOf(segs)`listeners, pad`net
      ensures graph.Repr() <= old(graph.Repr())
      ensures r.Return? ==> Valid()
      ensures (r, Wiring(graph.State(), segs)) == Unplug(old(Wiring(graph.State(), segs)), old(Seen(segs)), this, pad)
      ensures pad.net == if r == Return(true) then None else old(pad.net)
      ensures Held(old(Listeners(PadsOf(segs))), UnplugFreed(old(Wiring(graph.State(), segs)), old(Seen(segs)), this, pad))
      ensures Listeners(PadsOf(old(segs)))
        == UnhookAll(old(Listeners(PadsOf(segs))), UnplugFreed(old(Wiring(graph.State(), segs)), old(Seen(segs)), this, pad))
    {
      ghost var c := Seen(segs);
      ghost var ls := Listeners(PadsOf(segs));
      SeenAgrees(segs);
      var has := graph.ContainsV(pad);
      assert Listeners(PadsOf(segs)) == ls;
      if !has {
        r := Return(false);
      } else {
        r := Unwind(pad, c);
      }
    }

    /** `removePad(pad)` for a pad of the graph, read against the record `c`. */
    method Unwind(pad: Pad, ghost c: Looks) returns (r: Outcome<bool>)
      requires Valid() && HasVertex(graph.State(), pad) && Agrees(segs, PadsOf(segs), c)
      modifies this`segs, graph`edges, graph`lists, graph.adj`keys, graph.adj`vals, (iset l: VertexList<Pad> | l.owner == graph.adj)`items, PadsOf(segs)`listeners, pad`net
      ensures graph.Repr() <= old(graph.Repr())
      ensures r.Return? ==> Valid()
      ensures (r, Wiring(graph.State(), segs)) == Unplug(old(Wiring(graph.State(), segs)), c, this, pad)
      ensures pad.net == if r == Return(true) then None else old(pad.net)
      ensures Held(old(Listeners(PadsOf(segs))), UnplugFreed(old(Wiring(graph.State(), segs)), c, this, pad))
      ensures Listeners(PadsOf(old(segs)))
        == UnhookAll(old(Listeners(PadsOf(segs))), UnplugFreed(old(Wiring(graph.State(), segs)), c, this, pad))
    {
      ghost var w := Wiring(graph.State(), segs);
      ghost var net := pad.net;
      ghost var pads := PadsOf(segs);
      ghost var ls := Listeners(pads);
      var a := graph.GetAdj(pad);
      var ns := a.value.items;
      assert Listeners(pads) == ls;
      r := Sever(pad, ns, c, pads);
      assert (r, Wiring(graph.State(), segs)) == Cut(w, c, this, pad, Adj(w.g, pad)) && pad.net == net;
      ghost var ls1 := Listeners(pads);
      assert ls1 == UnhookAll(ls, UnplugFreed(w, c, this, pad));
      if r.Return? {
        r := Retire(pad, pads);
      }
    }

    /** The loop of `removePad(pad)`: `removeSegment(pad, n)` for each entry `n` of `ns`, stopping at a throw. */
    method Sever(pad: Pad, ns: seq<Pad>, ghost c: Looks, ghost pads: set<Pad>) returns (r: Outcome<bool>)
      requires Valid() && Agrees(segs, pads, c)
      modifies this`segs, graph`edges, graph`lists, graph.adj`keys, graph.adj`vals, (iset l: VertexList<Pad> | l.owner == graph.adj)`items, PadsOf(segs)`listeners
      ensures Valid() && graph.Repr() <= old(graph.Repr())
      ensures (r, Wiring(graph.State(), segs)) == Cut(old(Wiring(graph.State(), segs)), c, this, pad, ns)
      ensures Held(old(Listeners(pads)), Freed(old(Wiring(graph.State(), segs)), c, this, pad, ns))
      ensures Listeners(pads) == UnhookAll(old(Listeners(pads)), Freed(old(Wiring(graph.State(), segs)), c, this, pad, ns))
    {
      var i := 0;
      r := Return(true);
      HeldWithin(Listeners(pads), Freed(Wiring(graph.State(), segs), c, this, pad, ns), segs);
      while i < |ns| && r.Return?
        invariant i <= |ns|
        invariant Valid() && graph.Repr() <= old(graph.Repr())
        invariant forall x :: x in segs ==> x in old(segs)
        invariant Agrees(old(segs), pads, c)
        invariant r.Return? ==> r == Return(true) && Cut(Wiring(graph.State(), segs), c, this, pad, ns[i..]) == Cut(old(Wiring(graph.State(), segs)), c, this, pad, ns)
        invariant r.Throw? ==> (r, Wiring(graph.State(), segs)) == Cut(old(Wiring(graph.State(), segs)), c, this, pad, ns)
        invariant Held(old(Listeners(pads)), Freed(old(Wiring(graph.State(), segs)), c, this, pad, ns))
        invariant r.Return? ==> Held(Listeners(pads), Freed(Wiring(graph.State(), segs), c, this, pad, ns[i..]))
        invariant r.Return? ==>
          UnhookAll(Listeners(pads), Freed(Wiring(graph.State(), segs), c, this, pad, ns[i..]))
          == UnhookAll(old(Listeners(pads)), Freed(old(Wiring(graph.State(), segs)), c, this, pad, ns))
        invariant r.Throw? ==> Listeners(pads) == UnhookAll(old(Listeners(pads)), Freed(old(Wiring(graph.State(), segs)), c, this, pad, ns))
      {
        PadsOfWithin(segs, old(segs));
        var o := Cross(pad, ns[i..], c, old(segs), pads);
        assert ns[i..][1..] == ns[i + 1..];
        if o.Throw? {
          r := o;
        }
        i := i + 1;
      }
    }

    /** One turn of the loop of `removePad(pad)`, within the segments `all` the loop started from. */
    method Cross(pad: Pad, ns: seq<Pad>, ghost c: Looks, ghost all: seq<Segment>, ghost pads: set<Pad>) returns (r: Outcome<bool>)
      requires Valid() && ns != [] && Agrees(all, pads, c) && forall x :: x in segs ==> x in all
      modifies this`segs, graph`edges, graph`lists, graph.adj`keys, graph.adj`vals, (iset l: VertexList<Pad> | l.owner == graph.adj)`items, PadsOf(segs)`listeners
      ensures Valid() && graph.Repr() <= old(graph.Repr())
      ensures Agrees(all, pads, c) && forall x :: x in segs ==> x in all
      ensures r.Throw? ==> (r, Wiring(graph.State(), segs)) == Cut(old(Wiring(graph.State(), segs)), c, this, pad, ns)
      ensures r.Return? ==> Cut(Wiring(graph.State(), segs), c, this, pad, ns[1..]) == Cut(old(Wiring(graph.State(), segs)), c, this, pad, ns)
      ensures Held(old(Listeners(pads)), Freed(old(Wiring(graph.State(), segs)), c, this, pad, ns))
      ensures Held(Listeners(pads), Freed(Wiring(graph.State(), segs), c, this, pad, ns[1..]))
      ensures r.Throw? ==> Listeners(pads) == UnhookAll(old(Listeners(pads)), Freed(old(Wiring(graph.State(), segs)), c, this, pad, ns))
      ensures r.Return? ==>
        UnhookAll(Listeners(pads), Freed(Wiring(graph.State(), segs), c, this, pad, ns[1..]))
        == UnhookAll(old(Listeners(pads)), Freed(old(Wiring(graph.State(), segs)), c, this, pad, ns))
    {
      AgreesWithin(segs, all, pads, c);
      PadsOfWithin(segs, all);
      FreedHooks(Wiring(graph.State(), segs), c, this, pad, ns, Listeners(pads));
      r := Step(pad, ns, c, pads);
    }

    /** `removeSegment(pad, ns[0])`, read against the record `c`: the first step of `Cut`. */
    method Step(pad: Pad, ns: seq<Pad>, ghost c: Looks, ghost pads: set<Pad>) returns (r: Outcome<bool>)
      requires Valid() && ns != [] && Agrees(segs, pads, c)
      modifies this`segs, graph`edges, graph`lists, graph.adj`keys, graph.adj`vals, (iset l: VertexList<Pad> | l.owner == graph.adj)`items, PadsOf(segs)`listeners
      ensures Valid() && graph.Repr() <= old(graph.Repr())
      ensures forall x :: x in segs ==> x in old(segs)
      ensures (r, Wiring(graph.State(), segs)) == Between(old(Wiring(graph.State(), segs)), c, this, pad, ns[0])
      ensures r.Throw? ==> (r, Wiring(graph.State(), segs)) == Cut(old(Wiring(graph.State(), segs)), c, this, pad, ns)
      ensures r.Return? ==> Cut(Wiring(graph.State(), segs), c, this, pad, ns[1..]) == Cut(old(Wiring(graph.State(), segs)), c, this, pad, ns)
      ensures Held(old(Listeners(pads)), Freeing(old(Wiring(graph.State(), segs)), c, this, pad, ns[0]))
      ensures Listeners(pads) == UnhookAll(old(Listeners(pads)), Freeing(old(Wiring(graph.State(), segs)), c, this, pad, ns[0]))
    {
      ghost var w := Wiring(graph.State(), segs);
      CutStep(w, c, this, pad, ns);
      HeldWithin(Listeners(pads), Freeing(w, c, this, pad, ns[0]), segs);
      BetweenSeen(w, pads, c, this, pad, ns[0]);
      FreeingSeen(w, pads, c, this, pad, ns[0]);
      r := RemoveSegmentBetween(pad, ns[0], pads);
    }


    /** The end of `removePad(pad)`: `removeV(pad)`, whose answer is dropped, then `pad.setNet(null)` and true. */
    method Retire(pad: Pad, ghost pads: set<Pad>) returns (r: Outcome<bool>)
      requires Valid()
      modifies graph`edges, graph`lists, graph.adj`keys, graph.adj`vals, (iset l: VertexList<Pad> | l.owner == graph.adj)`items, pad`net
      ensures graph.Repr() <= old(graph.Repr())
      ensures r.Return? ==> Valid()
      ensures var (g, o) := RemoveVertex(old(graph.State()), pad);
        graph.State() == g && r == (if o.Throw? then o else Return(true))
      ensures pad.net == if r.Return? then None else old(pad.net)
      ensures Listeners(pads) == old(Listeners(pads))
    {
      RemoveVertexSane(graph.State(), pad);
      var o := graph.RemoveV(pad);
      if o.Throw? {
        r := o;
      } else {
        pad.SetNet(None);
        r := Return(true);
      }
    }

    /** `p0.removeListener(seg)`, then `p1.removeListener(seg)`. */
    method Unregister(seg: Segment, ghost pads: set<Pad>)
      requires seg.p0 in pads && seg.p1 in pads
      modifies seg.p0`listeners, seg.p1`listeners
      ensures (seg.p0.listeners, seg.p1.listeners) == Unhooked(old(seg.p0.listeners), old(seg.p1.listeners), seg)
      ensures Listeners(pads) == Unhook(old(Listeners(pads)), seg)
    {
      ghost var ls := Listeners(pads);
      var _ := seg.p0.RemoveListener(seg);
      var _ := seg.p1.RemoveListener(seg);
      UnhookedAt(ls, Listeners(pads), seg);
    }
  }

  /** Each pad of a list without repeats moves exactly once. */
  lemma MovesDistinct(m: map<Pad, Place>, pads: seq<Pad>, d: Point)
    requires (forall p :: p in pads ==> p in m) && Distinct(pads)
    ensures forall p :: p in m ==> Moves(m, pads, d)[p] == if p in pads then MovedBy(m[p], d) else m[p]
  {
    forall p | p in m ensures Moves(m, pads, d)[p] == if p in pads then MovedBy(m[p], d) else m[p] {
      MovesCount(m, pads, d, p);
      DistinctCount(pads, p);
    }
  }

  /** The point `getP` of a pad whose ring is `e`: the corner plus half the width, in both directions. */
  function RingCenter(e: Ellipse): Point {
    Point(e.x + e.w / 2.0, e.y + e.w / 2.0)
  }

  /** The place `pl` after one turn of `rot90` about `c`: ring and hole move by the offset computed from the ring's centre. */
  function TurnedBy(pl: Place, clockwise: bool, c: Point): Place {
    MovedBy(pl, TurnOffset(clockwise, c, RingCenter(pl.ring)))
  }

  /** The place `pl` after `n` such turns. */
  function TurnsOf(pl: Place, clockwise: bool, c: Point, n: nat): Place {
    if n == 0 then pl else TurnedBy(TurnsOf(pl, clockwise, c, n - 1), clockwise, c)
  }

  /** The places of `m` after the loop of `rot90` over `pads`: each pad in turn is turned about `c`. */
  function Turned(m: map<Pad, Place>, pads: seq<Pad>, clockwise: bool, c: Point): (r: map<Pad, Place>)
    requires forall p :: p in pads ==> p in m
    ensures r.Keys == m.Keys
  {
    if pads == [] then m else Turned(m[pads[0] := TurnedBy(m[pads[0]], clockwise, c)], pads[1..], clockwise, c)
  }

  /** A turned place has its ring's centre turned a quarter about `c`, and a turn the other way brings it back. */
  lemma TurnedByCenter(pl: Place, clockwise: bool, c: Point)
    ensures RingCenter(TurnedBy(pl, clockwise, c).ring) == QuarterTurn(clockwise, c, RingCenter(pl.ring))
    ensures TurnedBy(TurnedBy(pl, clockwise, c), !clockwise, c) == pl
  {
    TurnBack(clockwise, c, RingCenter(pl.ring));
  }

  /** After `n` turns the ring's centre has made `n` quarter turns. */
  lemma {:induction false} TurnsOfCenter(pl: Place, clockwise: bool, c: Point, n: nat)
    ensures RingCenter(TurnsOf(pl, clockwise, c, n).ring) == Turns(clockwise, c, RingCenter(pl.ring), n)
  {
    if n > 0 {
      TurnsOfCenter(pl, clockwise, c, n - 1);
      TurnedByCenter(TurnsOf(pl, clockwise, c, n - 1), clockwise, c);
    }
  }

  /** `n` turns are one turn followed by `n - 1` more. */
  lemma {:induction false} TurnsOfFirst(pl: Place, clockwise: bool, c: Point, n: nat)
    requires n > 0
    ensures TurnsOf(pl, clockwise, c, n) == TurnsOf(TurnedBy(pl, clockwise, c), clockwise, c, n - 1)
  {
    if n > 1 {
      TurnsOfFirst(pl, clockwise, c, n - 1);
    }
  }

  /** `n` turns one way are undone by `n` turns the other way. */
  lemma {:induction false} TurnsOfBack(pl: Place, clockwise: bool, c: Point, n: nat)
    ensures TurnsOf(TurnsOf(pl, clockwise, c, n), !clockwise, c, n) == pl
  {
    if n > 0 {
      var q := TurnsOf(pl, clockwise, c, n - 1);
      TurnedByCenter(q, clockwise, c);
      TurnsOfFirst(TurnedBy(q, clockwise, c), !clockwise, c, n);
      TurnsOfBack(pl, clockwise, c, n - 1);
    }
  }

  /** Each pad is turned once per occurrence in the list. */
  lemma {:induction false} TurnedCount(m: map<Pad, Place>, pads: seq<Pad>, clockwise: bool, c: Point, p: Pad)
    requires (forall p :: p in pads ==> p in m) && p in m
    ensures Turned(m, pads, clockwise, c)[p] == TurnsOf(m[p], clockwise, c, Count(pads, p))
  {
    if pads != [] {
      var m1 := m[pads[0] := TurnedBy(m[pads[0]], clockwise, c)];
      TurnedCount(m1, pads[1..], clockwise, c, p);
      assert Turned(m, pads, clockwise, c) == Turned(m1, pads[1..], clockwise, c);
      if pads[0] == p {
        assert Count(pads, p) == Count(pads[1..], p) + 1;
        TurnsOfFirst(m[p], clockwise, c, Count(pads, p));
      } else {
        assert Count(pads, p) == Count(pads[1..], p) && m1[p] == m[p];
      }
    }
  }

  /** `rot90` one way and then the other puts every pad back where it was, repeated pads included. */
  lemma TurnedBack(m: map<Pad, Place>, pads: seq<Pad>, clockwise: bool, c: Point)
    requires forall p :: p in pads ==> p in m
    ensures Turned(Turned(m, pads, clockwise, c), pads, !clockwise, c) == m
  {
    var m1 := Turned(m, pads, clockwise, c);
    forall p | p in m ensures Turned(m1, pads, !clockwise, c)[p] == m[p] {
      TurnedCount(m, pads, clockwise, c, p);
      TurnedCount(m1, pads, !clockwise, c, p);
      TurnsOfBack(m[p], clockwise, c, Count(pads, p));
    }
  }

  /**
   * `rot90` on a footprint without repeated pads turns the centre of each of
   * its pads a quarter about the footprint's centre, keeping its distance to
   * it, and leaves every other pad alone.
   */
  lemma TurnedOnce(m: map<Pad, Place>, pads: seq<Pad>, clockwise: bool, c: Point)
    requires (forall p :: p in pads ==> p in m) && Distinct(pads)
    ensures forall p :: p in m && p !in pads ==> Turned(m, pads, clockwise, c)[p] == m[p]
    ensures forall p :: p in pads ==>
      RingCenter(Turned(m, pads, clockwise, c)[p].ring) == QuarterTurn(clockwise, c, RingCenter(m[p].ring))
  {
    forall p | p in m
      ensures Turned(m, pads, clockwise, c)[p] == if p in pads then TurnedBy(m[p], clockwise, c) else m[p]
    {
      TurnedCount(m, pads, clockwise, c, p);
      DistinctCount(pads, p);
      assert TurnsOf(m[p], clockwise, c, 1) == TurnedBy(m[p], clockwise, c);
    }
    forall p | p in pads ensures RingCenter(Turned(m, pads, clockwise, c)[p].ring) == QuarterTurn(clockwise, c, RingCenter(m[p].ring)) {
      TurnedByCenter(m[p], clockwise, c);
    }
  }

  /** `pads[i].translate(...)` by the offset `rot90` computes for it. */
  method TurnOne(pads: seq<Pad>, i: nat, clockwise: bool, c: Point)
    requires i < |pads|
    requires forall j, s :: 0 <= j < i && s in pads[j].listeners && Hooked(s) ==> s.Tracks()
    modifies {pads[i]}`ring, {pads[i]}`hole, (set s | s in pads[i].listeners)`line
    ensures Places(pads) == old(Places(pads))[pads[i] := TurnedBy(old(Places(pads))[pads[i]], clockwise, c)]
    ensures forall j, s :: 0 <= j <= i && s in pads[j].listeners && Hooked(s) ==> s.Tracks()
  {
    pads[i].Translate(TurnOffset(clockwise, c, pads[i].Center()));
  }

  /** The loop of `rot90`: each pad of `pads` in turn is moved by the offset that turns its centre a quarter about `c`. */
  method TurnEach(pads: seq<Pad>, clockwise: bool, c: Point)
    modifies (set p | p in pads)`ring, (set p | p in pads)`hole, Watchers(pads)`line
    ensures Places(pads) == Turned(old(Places(pads)), pads, clockwise, c)
    ensures forall s :: s in Watchers(pads) && Hooked(s) ==> s.Tracks()
  {
    for i := 0 to |pads|
      invariant Turned(Places(pads), pads[i..], clockwise, c) == Turned(old(Places(pads)), pads, clockwise, c)
      invariant forall j, s :: 0 <= j < i && s in pads[j].listeners && Hooked(s) ==> s.Tracks()
    {
      ghost var before := Places(pads);
      TurnOne(pads, i, clockwise, c);
      assert pads[i..][1..] == pads[i + 1..];
      assert Turned(before, pads[i..], clockwise, c) == Turned(Places(pads), pads[i + 1..], clockwise, c);
    }
    WatchersTrack(pads);
  }

  /** The rectangle of width `w` and height `h` centred on `c`, as `Part` builds its outline. */
  function Box(c: Point, w: real, h: real): (r: Rect)
    ensures r.w == w && r.h == h && r.x + r.w / 2.0 == c.x && r.y + r.h / 2.0 == c.y
  {
    Rect(c.x - w / 2.0, c.y - h / 2.0, w, h)
  }

  /** A footprint: the pads of a part, placed around a centre. */
  class Footprint {
    /** The pads, in the order given; the list is never changed afterwards. */
    const pads: seq<Pad>
    var selected: bool
    var center: Point

    /**
     * `Footprint(center, pads...)`. Its loop adds the centre to the point
     * `getP` of each pad returns, a new point, so no pad moves: the
     * constructor changes no pad.
     */
    constructor (center: Point, pads: seq<Pad>)
      ensures this.center == center && this.pads == pads && !selected
    {
      this.center := center;
      this.pads := pads;
      selected := false;
      new;
      for i := 0 to |pads| {
        var shifted := Plus(pads[i].Center(), center);
      }
    }

    /** `setSelected(state)`: the footprint and each of its pads. */
    method SetSelected(state: bool)
      modifies this`selected, (set p | p in pads)`selected
      ensures selected == state && forall p :: p in pads ==> p.selected == state
    {
      selected := state;
      for i := 0 to |pads|
        modifies (set p | p in pads)`selected
        invariant forall j :: 0 <= j < i ==> pads[j].selected == state
      {
        pads[i].SetSelected(state);
      }
    }

    /** `translate(delta)`: the centre moves by `delta`, and each pad in turn is translated by it (`MovesDistinct`). */
    method Translate(delta: Point)
      modifies this`center, (set p | p in pads)`ring, (set p | p in pads)`hole, Watchers(pads)`line
      ensures center == Plus(old(center), delta)
      ensures Places(pads) == Moves(old(Places(pads)), pads, delta)
      ensures forall s :: s in Watchers(pads) && Hooked(s) ==> s.Tracks()
    {
      center := Plus(center, delta);
      TranslateEach(pads, delta);
    }

    /** `setP(q)`: a translation by the offset from the centre to `q`, so the centre lands on `q`. */
    method SetP(q: Point)
      modifies this`center, (set p | p in pads)`ring, (set p | p in pads)`hole, Watchers(pads)`line
      ensures center == q
      ensures Places(pads) == Moves(old(Places(pads)), pads, Minus(q, old(center)))
      ensures forall s :: s in Watchers(pads) && Hooked(s) ==> s.Tracks()
    {
      Translate(Minus(q, center));
    }

    /** `contains(q)`: whether the ring of some pad holds `q`. */
    method Contains(q: Point) returns (b: bool)
      ensures b <==> exists p :: p in pads && p.Contains(q)
    {
      for i := 0 to |pads|
        invariant forall j :: 0 <= j < i ==> !pads[j].Contains(q)
      {
        if pads[i].Contains(q) {
          return true;
        }
      }
      return false;
    }

    /** `getUnderlyingComponent(q)`: the first pad whose ring holds `q`, or null. */
    method UnderlyingAt(q: Point) returns (r: Option<Pad>)
      ensures r.None? <==> FirstPad(pads, q).None?
      ensures r.Some? ==> r == Some(pads[FirstPad(pads, q).value])
    {
      for i := 0 to |pads|
        invariant forall j :: 0 <= j < i ==> !pads[j].Contains(q)
      {
        var c := pads[i].UnderlyingAt(q);
        if c.Some? {
          return c;
        }
      }
      return None;
    }

    /** `getPaddedOutline(padding)`: unsupported, it always throws. */
    method PaddedOutline(padding: real) returns (r: Outcome<Outline>)
      ensures r == Throw(Unsupported)
    {
      return Throw(Unsupported);
    }
  }

  /** A part: a footprint, an outline rectangle around its centre, a name and an id. */
  class Part {
    const fp: Footprint
    /** The outline. */
    var ol: Rect
    var selected: bool
    var name: string
    const id: string
    /** The width and height given to the constructor, which `clone` passes on. */
    const width: real
    const height: real

    /** The outline is centred on the footprint and has the given sides, maybe swapped by turns. */
    predicate Valid()
      reads this, fp
    {
      && ol == Box(fp.center, ol.w, ol.h)
      && ((ol.w, ol.h) == (width, height) || (ol.w, ol.h) == (height, width))
    }

    /** `Part(id, name, footprint, width, height)`: each pad learns its part, and the outline is centred on the footprint. */
    constructor (id: string, name: string, footprint: Footprint, width: real, height: real)
      modifies (set p | p in footprint.pads)`part
      ensures Valid()
      ensures fp == footprint && this.id == id && this.name == name && !selected
      ensures this.width == width && this.height == height && ol == Box(footprint.center, width, height)
      ensures forall p :: p in footprint.pads ==> p.part == Some(this)
    {
      this.name := name;
      this.id := id;
      fp := footprint;
      ol := Box(footprint.center, width, height);
      this.width := width;
      this.height := height;
      selected := false;
      new;
      for i := 0 to |fp.pads|
        modifies (set p | p in fp.pads)`part
        invariant forall j :: 0 <= j < i ==> fp.pads[j].part == Some(this)
      {
        fp.pads[i].SetPart(Some(this));
      }
    }

    /**
     * `rot90(clockwise)`: each pad in turn moves by the offset that turns its
     * centre a quarter about the footprint's centre (`TurnedOnce`,
     * `TurnedBack`); then width and height of the outline swap and it is
     * centred on the footprint again.
     */
    method Rot90(clockwise: bool)
      modifies this`ol, (set p | p in fp.pads)`ring, (set p | p in fp.pads)`hole, Watchers(fp.pads)`line
      ensures Places(fp.pads) == Turned(old(Places(fp.pads)), fp.pads, clockwise, fp.center)
      ensures ol == Box(fp.center, old(ol.h), old(ol.w))
      ensures old(Valid()) ==> Valid()
      ensures forall s :: s in Watchers(fp.pads) && Hooked(s) ==> s.Tracks()
    {
      TurnEach(fp.pads, clockwise, fp.center);
      ol := Box(fp.center, ol.h, ol.w);
    }

    /** `setSelected(state)`: the part, its footprint and the footprint's pads. */
    method SetSelected(state: bool)
      modifies this`selected, fp`selected, (set p | p in fp.pads)`selected
      ensures selected == state && fp.selected == state && forall p :: p in fp.pads ==> p.selected == state
    {
      selected := state;
      fp.SetSelected(state);
    }

    /** `translate(delta)`: the outline and the footprint move by `delta`; a point moved with them stays in or out. */
    method Translate(delta: Point)
      modifies this`ol, fp`center, (set p | p in fp.pads)`ring, (set p | p in fp.pads)`hole, Watchers(fp.pads)`line
      ensures ol == old(ol).(x := old(ol.x) + delta.x, y := old(ol.y) + delta.y)
      ensures fp.center == Plus(old(fp.center), delta)
      ensures Places(fp.pads) == Moves(old(Places(fp.pads)), fp.pads, delta)
      ensures Valid() == old(Valid())
      ensures forall q :: Contains(Plus(q, delta)) == old(Contains(q))
      ensures forall s :: s in Watchers(fp.pads) && Hooked(s) ==> s.Tracks()
    {
      ol := ol.(x := ol.x + delta.x, y := ol.y + delta.y);
      fp.Translate(delta);
      forall q ensures Contains(Plus(q, delta)) == old(Contains(q)) {
        InRectShifted(old(ol), q, delta);
      }
    }

    /** `setP(q)`: a translation by the offset from the footprint's centre to `q`. */
    method SetP(q: Point)
      modifies this`ol, fp`center, (set p | p in fp.pads)`ring, (set p | p in fp.pads)`hole, Watchers(fp.pads)`line
      ensures fp.center == q
      ensures old(Valid()) ==> Valid() && ol == Box(q, old(ol.w), old(ol.h))
      ensures Places(fp.pads) == Moves(old(Places(fp.pads)), fp.pads, Minus(q, old(fp.center)))
      ensures forall s :: s in Watchers(fp.pads) && Hooked(s) ==> s.Tracks()
    {
      Translate(Minus(q, fp.center));
    }

    /** `contains(q)`: the outline's hit test. */
    predicate Contains(q: Point)
      reads this`ol
    {
      InRect(ol, q)
    }

    /** `getUnderlyingComponent(q)`: what the footprint answers, the first pad whose ring holds `q`. */
    method UnderlyingAt(q: Point) returns (r: Option<Pad>)
      ensures r.None? <==> FirstPad(fp.pads, q).None?
      ensures r.Some? ==> r == Some(fp.pads[FirstPad(fp.pads, q).value])
    {
      r := fp.UnderlyingAt(q);
    }

    /** `getPaddedOutline(padding)`: the outline stroked with a pen `2 * padding + 1` wide. */
    function PaddedOutline(padding: real): (r: Outline)
      reads this`ol
      ensures r.StrokedRect? && r.rect == ol
    {
      StrokedRect(ol, padding * 2.0 + 1.0)
    }

    /**
     * `clone()`: a new part with the same id, name, width and height over a
     * new footprint at the same centre holding a clone of each pad, with that
     * pad's centre, ring and hole diameters and visibility. Its
     * outline is built from width and height, so after an odd number of turns
     * it is not the outline of the original.
     */
    method Clone() returns (c: Part)
      ensures fresh(c) && fresh(c.fp) && c.Valid()
      ensures c.id == id && c.name == name && c.width == width && c.height == height && !c.selected
      ensures c.fp.center == fp.center && c.ol == Box(fp.center, width, height) && |c.fp.pads| == |fp.pads|
      ensures forall i :: 0 <= i < |fp.pads| ==>
        var q := c.fp.pads[i];
        && fresh(q) && q.part == Some(c) && q.net == None && q.listeners == []
        && q.Center() == fp.pads[i].Center() && q.visible == fp.pads[i].visible
        && q.ring == Circle(q.Center(), fp.pads[i].ring.h) && q.hole == Circle(q.Center(), fp.pads[i].hole.h)
    {
      var pads: seq<Pad> := [];
      for i := 0 to |fp.pads|
        invariant |pads| == i
        invariant forall j :: 0 <= j < i ==>
          var q := pads[j];
          && fresh(q) && q.net == None && q.listeners == []
          && q.Center() == fp.pads[j].Center() && q.visible == fp.pads[j].visible
          && q.ring == Circle(q.Center(), fp.pads[j].ring.h) && q.hole == Circle(q.Center(), fp.pads[j].hole.h)
      {
        var q := fp.pads[i].Clone();
        pads := pads + [q];
      }
      var f := new Footprint(fp.center, pads);
      c := new Part(id, name, f, width, height);
    }
  }
}
