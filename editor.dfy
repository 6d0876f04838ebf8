/**
 * The editing surface of src/pcbEditor/DesignArea.java: the parts and nets
 * of a board, the three selection lists, the cursor state, and the trace
 * being routed (a head pad `currPad` following the mouse, joined to
 * `prevPad` by a provisional segment). Each key and mouse handler is a
 * method that calls the Net, Pad, Segment and Part methods the Java code
 * calls. Mouse positions arrive already converted to points; the grid's
 * snapping is the uninterpreted function `snap`, and the hit test of a
 * stroked line is the uninterpreted `hit`.
 */
module Editor {
  import opened Wrappers
  import opened Lists
  import opened Geometry
  import opened GraphSpec
  import opened Graphs
  import opened NetSpec
  import opened Pcb
  import opened Board
  import opened Routing
  import opened Trace
  import opened Selection
  import opened Dragging
  import opened Drc

  /** The cursor states. */
  const CURSOR_NORMAL := 0
  const CURSOR_MOVE := 1
  const CURSOR_ROUTE := 2

  /** The key codes the area reacts to. */
  const KEY_CTRL := 17
  const KEY_ESC := 27
  const KEY_DEL := 127

  /** Drawing units per millimetre: the settings are in millimetres. */
  const UNITS := 50.0

  /**
   * `net.contains(q)` and, when it holds, `net.getUnderlyingComponent(q)`,
   * kept only when it is a pad: the pad `Under` names, since a pad under
   * `q` makes the net contain `q` and is looked for before the segments.
   */
  method PadAt(n: Net, q: Point, hit: (Line, real, Point) -> bool) returns (r: Option<Pad>)
    requires n.Valid()
    ensures r == Under(n.graph.adj.keys, q)
  {
    var inside := n.Contains(q, hit);
    if !inside {
      return None;
    }
    var c := n.UnderlyingAt(q, hit);
    if c.Some? && c.value.PadHit? {
      r := Some(c.value.pad);
    } else {
      r := None;
    }
  }

  /**
   * The turn of the `i`th net, offering `pad`, with the head `c` cloned
   * from it: `addSegment(pad, c)` (its answer dropped) and
   * `setSelected(true)`; the cursor hangs the head from the pad.
   */
  method StartAt(nets: NetList, i: nat, pad: Pad, c: Pad, width: real, cur: Cursor, ghost b: Press, ghost r: Route)
    returns (o: Outcome<()>, cur': Cursor, ghost m: Made)
    requires i < |nets| && nets[i].Valid() && Disjoint(nets, nets[i])
    requires r.o == Return(()) && Mirror(nets, b, r) && cur == r.cur
    requires Offer(b, nets[i]) == Some(pad) && pad in r.pn && c !in r.pn && c !in b.pr
    requires c.net.None? && !c.visible && c.Center() == pad.Center()
    modifies {nets[i]}`selected, {nets[i]}`segs, nets[i].graph`edges, nets[i].graph`lists, nets[i].graph.adj`keys, nets[i].graph.adj`vals
    modifies (iset l: VertexList<Pad> | l.owner == nets[i].graph.adj)`items, pad`net, pad`listeners, c`net, c`listeners
    ensures nets[i].Valid() && Untouched(nets, nets[i])
    ensures forall l: VertexList<Pad> :: old(allocated(l)) && l.owner != nets[i].graph.adj ==> unchanged(l`items)
    ensures m.head == Some(c) && (o == Return(()) || o.Throw?)
    ensures Took(nets, b, r, i, m, o, cur') == true
  {
    ghost var k := Step(nets, b, r, i, pad, c);
    assert Primed(k);
    var a := Attach(nets, i, pad, c, width, r.pn.Keys + b.pr.Keys);
    m := Made(Some(c), if a == Return(true) then Some(nets[i].segs[|nets[i].segs| - 1]) else None);
    o, cur' := (if a.Throw? then Throw(a.error) else Return(())), (Some(pad), Some(c), a.Return? || cur.2);
    TurnMirror(k, a, m);
  }

  /**
   * The turn of the `i`th net when it offers `pad`: `currPad =
   * pad.clone(); currPad.setVisible(false);`, and then `StartAt`.
   */
  method HangHead(nets: NetList, i: nat, pad: Pad, width: real, cur: Cursor, ghost b: Press, ghost made: seq<Made>, ghost r: Route)
    returns (o: Outcome<()>, cur': Cursor, ghost m: Made)
    requires NetsValid(nets) && i == |made| < |nets| && Standing(b, nets, made, r, cur) == true && Mirror(nets, b, r)
    requires Offer(b, nets[i]) == Some(pad) && pad in r.pn
    modifies {nets[i]}`selected, {nets[i]}`segs, nets[i].graph`edges, nets[i].graph`lists, nets[i].graph.adj`keys, nets[i].graph.adj`vals
    modifies (iset l: VertexList<Pad> | l.owner == nets[i].graph.adj)`items, pad`net, pad`listeners
    ensures NetsValid(nets) && Going(nets, b, made + [m], o, cur') == true && (o == Return(()) || o.Throw?)
  {
    var c := Blank(pad);
    assert Mirror(nets, b, r) == old(Mirror(nets, b, r));
    InCells(nets, nets[i]);
    Apart(nets, nets[i]);
    label turn:
    o, cur', m := StartAt(nets, i, pad, c, width, cur, b, r);
    OthersStay@turn(nets, nets[i]);
    GoingSnoc(nets, b, made, m, o, cur');
  }

  /** `PadAt` on the `i`th net, which leaves the board as it was. */
  method Look(nets: NetList, i: nat, q: Point, hit: (Line, real, Point) -> bool) returns (pad: Option<Pad>)
    requires NetsValid(nets) && i < |nets|
    ensures NetsValid(nets) && pad == Under(nets[i].graph.adj.keys, q)
  {
    InCells(nets, nets[i]);
    pad := PadAt(nets[i], q, hit);
  }

  /**
   * The turn of the `i`th net in a route press at `q`, where the press
   * stands at `r`: `net.contains(q)` and `getUnderlyingComponent(q)`; a pad
   * found there goes to `HangHead`, and a net that offers none leaves the
   * press as it stands.
   */
  method Turn(nets: NetList, i: nat, q: Point, width: real, hit: (Line, real, Point) -> bool, cur: Cursor, ghost b: Press, ghost made: seq<Made>, ghost r: Route)
    returns (o: Outcome<()>, cur': Cursor, ghost m: Made)
    requires NetsValid(nets) && b.q == q && Covered(b) && i == |made| < |nets| && r == Routed(b, nets, made)
    requires Going(nets, b, made, Return(()), cur)
    modifies {nets[i]}`selected, {nets[i]}`segs, nets[i].graph`edges, nets[i].graph`lists, nets[i].graph.adj`keys, nets[i].graph.adj`vals
    modifies (iset l: VertexList<Pad> | l.owner == nets[i].graph.adj)`items, b.pr.Keys`net, b.pr.Keys`listeners
    ensures NetsValid(nets) && Going(nets, b, made + [m], o, cur') == true && (o == Return(()) || o.Throw?)
  {
    OfferNow(nets, b, made, cur);
    assert Standing(b, nets, made, r, cur) == true;
    var pad := Look(nets, i, q, hit);
    MirrorStay(nets, b, r);
    if pad.Some? {
      o, cur', m := HangHead(nets, i, pad.value, width, cur, b, made, r);
    } else {
      o, cur', m := Return(()), cur, Made(None, None);
      Skipped(nets, b, made, cur, r);
    }
  }

  /**
   * The loop of a route press over the nets, from the record `b` taken
   * before it; `cur` carries the cursor fields from turn to turn, and a
   * throw ends the loop.
   */
  method RouteNets(nets: NetList, q: Point, width: real, hit: (Line, real, Point) -> bool, cur0: Cursor, ghost b: Press)
    returns (o: Outcome<()>, cur: Cursor, ghost made: seq<Made>)
    requires NetsValid(nets) && b.q == q && Covered(b) && cur0 == b.head0 && Mirror(nets, b, Routed(b, nets, []))
    modifies (set n | n in nets)`segs, (set n | n in nets)`selected, NetGraphs(nets)`edges, NetGraphs(nets)`lists, Tables(nets)`keys, Tables(nets)`vals
    modifies (iset l: VertexList<Pad> | l.owner in Tables(nets))`items, b.pr.Keys`net, b.pr.Keys`listeners
    ensures NetsValid(nets) && |made| <= |nets| && (|made| < |nets| ==> o.Throw?) && Going(nets, b, made, o, cur)
  {
    o, cur, made := Return(()), cur0, [];
    var i := 0;
    while i < |nets|
      invariant i == |made| <= |nets| && o == Return(())
      invariant NetsValid(nets) && Going(nets, b, made, o, cur)
    {
      ghost var m;
      InCells(nets, nets[i]);
      o, cur, m := Turn(nets, i, q, width, hit, cur, b, made, Routed(b, nets, made));
      made := made + [m];
      if o.Throw? {
        return;
      }
      i := i + 1;
    }
  }

  /**
   * A route press at `q` with the cursor `cur0`: the record `Pressing`
   * takes of the board, then the turns of `RouteNets`. A pad changes its
   * net only to one of the nets, and the cursor is `cur0` or hangs a head
   * in one of the nets from a pad.
   */
  method RoutePress(nets: NetList, q: Point, width: real, hit: (Line, real, Point) -> bool, cur0: Cursor)
    returns (o: Outcome<()>, cur: Cursor, ghost made: seq<Made>)
    requires NetsValid(nets)
    modifies (set n | n in nets)`segs, (set n | n in nets)`selected, NetGraphs(nets)`edges, NetGraphs(nets)`lists, Tables(nets)`keys, Tables(nets)`vals
    modifies (iset l: VertexList<Pad> | l.owner in Tables(nets))`items, Keyed(nets)`net, Keyed(nets)`listeners
    ensures NetsValid(nets) && |made| <= |nets| && (|made| < |nets| ==> o.Throw?)
    ensures Going(nets, old(Pressing(nets, q, cur0)), made, o, cur) == true
    ensures forall p: Pad :: old(allocated(p)) ==> p.net == old(p.net) || Among(p.net, nets)
    ensures cur == cur0 || (cur.0.Some? && cur.1.Some? && Among(cur.1.value.net, nets))
  {
    ghost var b := Pressing(nets, q, cur0);
    PressingMirror(nets, b);
    o, cur, made := RouteNets(nets, q, width, hit, cur0, b);
    PadsKept(nets, b, made, o, cur);
    CursorAfter(nets, b, made, o, cur);
  }

  /** Every pad and segment the layers `ls` record is within `u`. */
  predicate Spans(u: Scope, ls: seq<Layer>) {
    forall l :: l in ls ==> (forall p :: p in l.pads ==> p in u.pads) && (forall s :: s in l.segs ==> s in u.segs)
  }

  /** The pads and segments of the `k`th layer are in scope. */
  lemma LayerScope(u: Scope, ls: seq<Layer>, k: nat)
    requires Spans(u, ls) && k < |ls|
    ensures (forall p :: p in ls[k].pads ==> p in u.pads) && (forall s :: s in ls[k].segs ==> s in u.segs)
  {
    assert ls[k] in ls;
  }

  /** The nets `ns` look to the check as the layers `ls` record. */
  ghost predicate Fixed(ns: seq<Net>, ls: seq<Layer>)
    reads (set n | n in ns)`segs, (set n | n in ns :: n.graph.adj)`keys
    reads (set n, p | n in ns && p in n.graph.adj.keys :: p)`visible
  {
    |ns| == |ls| && forall k :: 0 <= k < |ns| ==> LayerOf(ns[k]) == ls[k]
  }

  class DesignArea {
    var nets: NetList
    var parts: seq<Part>
    var selectedPads: seq<Pad>
    var selectedSegs: seq<Segment>
    var selectedParts: seq<Part>
    /** The pad the trace being routed starts from, and its head. */
    var prevPad: Option<Pad>
    var currPad: Option<Pad>
    /** Whether a head follows the mouse. */
    var isPadAttached: bool
    /** Where the last drag step ended. */
    var moveOrigin: Point
    /** A part being placed, which follows the mouse until the next press. */
    var currPart: Option<Part>
    var cursorState: int
    var ctrlPressed: bool
    /** The default settings, in millimetres. */
    var traceWidth: real
    var ringDiam: real
    var holeDiam: real
    var compSpacing: real
    var projName: string
    /** `grid.getClosestGP`: the grid point a point snaps to. */
    const snap: Point -> Point
    /** The hit test of a line stroked with a width, used by `Segment.contains`. */
    const hit: (Line, real, Point) -> bool

    /** The cursor fields, `prevPad`, `currPad` and `isPadAttached`. */
    function Cur(): Cursor
      reads this
    {
      (prevPad, currPad, isPadAttached)
    }

    /** The head of the trace, where set. */
    function Head(): set<Pad>
      reads this
    {
      if currPad.Some? then {currPad.value} else {}
    }

    /**
     * Every net the handlers reach through `getNet()` is null or one of
     * `ns`, and a head that is attached has a start. The start's own net is
     * never asked for: the handlers only call `prevPad.getNet()` right after
     * `prevPad = currPad`. No net is listed twice.
     */
    ghost predicate Owned(ns: seq<Net>)
      reads this, (set p | p in selectedPads)`net, (set s | s in selectedSegs)`net
      reads PartPads(parts)`net, PartPads(selectedParts)`net, Head()`net
    {

      && (isPadAttached ==> prevPad.Some? && currPad.Some?)
      && (currPad.Some? ==> Among(currPad.value.net, ns))
      && (forall p :: p in selectedPads ==> Among(p.net, ns))
      && (forall s :: s in selectedSegs ==> Among(s.net, ns))
      && (forall p :: p in PartPads(parts) ==> Among(p.net, ns))
      && (forall p :: p in PartPads(selectedParts) ==> Among(p.net, ns))
    }

    /** The nets are consistent and own every net reference the handlers follow. */
    ghost predicate Valid()
      reads this, (set p | p in selectedPads)`net, (set s | s in selectedSegs)`net
      reads PartPads(parts)`net, PartPads(selectedParts)`net, Head()`net
      reads NetGraphs(nets)`lists, NetGraphs(nets)`edges, Tables(nets)`keys, Tables(nets)`vals, Cells(nets)`items
    {
      NetsValid(nets) && Owned(nets)
    }

    /** Every pad the handlers reach: the head, the selected pads, and the pads of the parts and of the selected parts. */
    function Reach(): set<Pad>
      reads this
    {
      Head() + (set p | p in selectedPads) + PartPads(parts) + PartPads(selectedParts)
    }

    /** The net of each pad the handlers reach. */
    ghost function Owners(): (r: map<Pad, Option<Net>>)
      reads this, Reach()`net
      ensures r.Keys == Reach()
    {
      map p | p in Reach() :: p.net
    }

    /** Each pad the handlers reach has its own net on record, and it is null or one of the nets. */
    lemma OwnersAmong()
      requires Owned(nets)
      ensures forall p :: p in Owners() ==> p.net == Owners()[p] && (Owners()[p].Some? ==> Owners()[p].value in nets)
    {
    }

    /**
     * What the Delete key leaves (`Deleted`), from the wirings of the nets,
     * the nets of the pads the handlers reach, the record of every segment
     * of the nets and of the selection, and the selection lists.
     */
    ghost function Deletes(): Deletion
      requires Valid()
      reads this, (set p | p in selectedPads)`net, (set s | s in selectedSegs)`net
      reads PartPads(parts)`net, PartPads(selectedParts)`net, Head()`net, set n | n in nets
      reads NetGraphs(nets)`lists, NetGraphs(nets)`edges, Tables(nets)`keys, Tables(nets)`vals, Cells(nets)`items
      reads (set s | s in Flat(nets) + selectedSegs), PadsOf(Flat(nets) + selectedSegs)
    {
      OwnersAmong();
      Ready(nets, Owners(), selectedSegs);
      Deleted(Layout(Wirings(nets), Owners()), Seen(Flat(nets) + selectedSegs), selectedPads, selectedSegs, selectedParts, parts)
    }

    /** The references `Owned` follows stay owned when no field of the area changes and every pad keeps its net, loses it or joins one of the nets. */
    twostate lemma OwnedKept(ns: seq<Net>)
      requires old(Owned(ns)) && unchanged(this)
      requires forall p: Pad :: old(allocated(p)) ==> p.net == old(p.net) || Among(p.net, ns)
      requires forall s: Segment :: old(allocated(s)) ==> s.net == old(s.net)
      ensures Owned(ns)
    {
    }

    /**
     * `Owned` survives a change of the selection lists that only adds pads
     * and segments whose nets are among the nets, or parts of the area,
     * while no other field of the area and no net reference changes.
     */
    twostate lemma OwnedSelecting(ns: seq<Net>)
      requires old(Owned(ns)) && unchanged(this`nets, this`parts, this`prevPad, this`currPad, this`isPadAttached)
      requires forall p :: p in selectedPads ==> p in old(selectedPads) || Among(p.net, ns)
      requires forall s :: s in selectedSegs ==> s in old(selectedSegs) || Among(s.net, ns)
      requires forall pt :: pt in selectedParts ==> pt in old(selectedParts) || pt in parts
      requires forall p :: p in old(Reach()) ==> unchanged(p`net)
      requires forall s :: s in old(selectedSegs) ==> unchanged(s`net)
      ensures Owned(ns)
    {
      forall p | p in selectedPads
        ensures Among(p.net, ns)
      {
        if p in old(selectedPads) {
          assert p in old(Reach());
        }
      }
      forall p | p in PartPads(selectedParts)
        ensures Among(p.net, ns)
      {
        var pt :| pt in selectedParts && p in pt.fp.pads;
        if pt in old(selectedParts) {
          assert p in old(PartPads(selectedParts)) && p in old(Reach());
        } else {
          assert p in PartPads(parts) && p in old(Reach());
        }
      }
      assert forall p :: p in PartPads(parts) ==> p in old(Reach());
      assert currPad.Some? ==> currPad.value in old(Reach());
    }

    /** The net of the head, as `currPad.getNet()` answers. */
    function HeadNet(): Option<Net>
      reads this, Head()`net
      requires currPad.Some?
    {
      currPad.value.net
    }

    /**
     * `DesignArea(projName, width, height)`: no parts, no nets, nothing
     * selected, the Normal cursor and the default settings.
     */
    constructor (projName: string, snap: Point -> Point, hit: (Line, real, Point) -> bool)
      ensures Valid()
      ensures nets == [] && parts == [] && selectedPads == [] && selectedSegs == [] && selectedParts == []
      ensures prevPad == None && currPad == None && currPart == None && !isPadAttached && !ctrlPressed
      ensures cursorState == CURSOR_NORMAL && moveOrigin == Point(0.0, 0.0)
      ensures traceWidth == 0.254 && ringDiam == 1.5 && holeDiam == 0.8 && compSpacing == 0.254
      ensures this.projName == projName && this.snap == snap && this.hit == hit
    {
      nets := [];
      parts := [];
      selectedPads := [];
      selectedSegs := [];
      selectedParts := [];
      prevPad := None;
      currPad := None;
      isPadAttached := false;
      moveOrigin := Point(0.0, 0.0);
      currPart := None;
      cursorState := CURSOR_NORMAL;
      ctrlPressed := false;
      traceWidth := 0.254;
      ringDiam := 1.5;
      holeDiam := 0.8;
      compSpacing := 0.254;
      this.projName := projName;
      this.snap := snap;
      this.hit := hit;
    }

    /**
     * What the net manager does with the live list of nets it is given
     * (`showNetManager`): a consistent net with a graph of its own is
     * appended; the net references followed afterwards must be to the nets
     * then held.
     */
    method AddNet(n: Net)
      requires NetsValid(nets) && n.Valid() && Owned(nets + [n])
      requires forall m :: m in nets ==> m.graph.adj != n.graph.adj
      modifies this`nets
      ensures Valid() && nets == old(nets) + [n]
    {
      nets := nets + [n];
    }

    /** `placePart(part)`: in the Normal state the part is appended and follows the mouse; otherwise nothing happens. */
    method PlacePart(part: Part)
      requires Valid() && forall p :: p in part.fp.pads ==> Among(p.net, nets)
      modifies this`currPart, this`parts
      ensures Valid()
      ensures old(cursorState) == CURSOR_NORMAL ==> currPart == Some(part) && parts == old(parts) + [part]
      ensures old(cursorState) != CURSOR_NORMAL ==> currPart == old(currPart) && parts == old(parts)
    {
      if cursorState != CURSOR_NORMAL {
        return;
      }
      currPart := Some(part);
      parts := parts + [part];
    }

    /** `keyReleased(e)`: releasing Ctrl clears its flag; any other key changes nothing. */
    method KeyReleased(keyCode: int)
      modifies this`ctrlPressed
      ensures ctrlPressed == (old(ctrlPressed) && keyCode != KEY_CTRL)
    {
      if keyCode == KEY_CTRL {
        ctrlPressed := false;
      }
    }

    /** `currPad.getNet().removeSegment(prevPad, currPad)` for an attached head, the answer dropped. */
    method DropHead() returns (o: Outcome<()>)
      requires Valid() && isPadAttached
      modifies (set n | n in nets)`segs, NetGraphs(nets)`edges, NetGraphs(nets)`lists, Tables(nets)`keys, Tables(nets)`vals, (iset l: VertexList<Pad> | l.owner in Tables(nets))`items, Wired(nets)`listeners
      ensures Valid()
      ensures old(HeadNet()).None? ==> o == Throw(NullPointer) && Wirings(nets) == old(Wirings(nets))
      ensures old(HeadNet()).Some? ==>
        (o, Wirings(nets)) == HeadOut(old(Wirings(nets)), old(Seen(HeadNet().value.segs)), old(HeadNet().value), old(prevPad.value), old(currPad.value))
    {
      if currPad.value.net.None? {
        return Throw(NullPointer);
      }
      var n := currPad.value.net.value;
      WiredEnds(nets, n, Find(Ends(n.segs), prevPad.value, currPad.value));
      InCells(nets, n);
      var r := RemoveBetween(nets, n, prevPad.value, currPad.value);
      o := if r.Throw? then Throw(r.error) else Return(());
      OwnedKept(nets);
    }

    /** `isPadAttached = attached; cursorState = state;`, which never attaches a head. */
    method Settle(attached: bool, state: int)
      requires Valid() && (attached ==> isPadAttached)
      modifies this`isPadAttached, this`cursorState
      ensures Valid() && isPadAttached == attached && cursorState == state && Wirings(nets) == old(Wirings(nets))
    {
      isPadAttached := attached;
      cursorState := state;
      WiringsStay(nets);
    }

    /**
     * `setCursorState(state)`: choosing Route again while a head is
     * attached drops the head's provisional segment and detaches it; then
     * the state is set, unless that drop threw, which leaves the state and
     * the head as they were. Leaving Route keeps the head attached.
     */
    method SetCursorState(state: int) returns (o: Outcome<()>)
      requires Valid()
      modifies this`cursorState, this`isPadAttached, (set n | n in nets)`segs, NetGraphs(nets)`edges, NetGraphs(nets)`lists, Tables(nets)`keys, Tables(nets)`vals, (iset l: VertexList<Pad> | l.owner in Tables(nets))`items, Wired(nets)`listeners
      ensures Valid()
      ensures !(old(isPadAttached) && state == CURSOR_ROUTE) ==>
        o == Return(()) && cursorState == state && isPadAttached == old(isPadAttached) && Wirings(nets) == old(Wirings(nets))
      ensures old(isPadAttached) && state == CURSOR_ROUTE && old(HeadNet()).None? ==> o == Throw(NullPointer) && Wirings(nets) == old(Wirings(nets))
      ensures old(isPadAttached) && state == CURSOR_ROUTE && old(HeadNet()).Some? ==>
        (o, Wirings(nets)) == HeadOut(old(Wirings(nets)), old(Seen(HeadNet().value.segs)), old(HeadNet().value), old(prevPad.value), old(currPad.value))
      ensures old(isPadAttached) && state == CURSOR_ROUTE && o.Return? ==> cursorState == state && !isPadAttached
      ensures o.Throw? ==> cursorState == old(cursorState) && isPadAttached == old(isPadAttached)
    {
      if isPadAttached && state == CURSOR_ROUTE {
        o := DropHead();
        if o.Throw? {
          return;
        }
        Settle(false, state);
      } else {
        Settle(isPadAttached, state);
        o := Return(());
      }
    }

    /** `n.setSelected(state)` for a net of the area. */
    method MarkNet(n: Net, state: bool)
      requires Valid()
      modifies n`selected
      ensures Valid() && n.selected == state && Wirings(nets) == old(Wirings(nets))
    {
      Mark(nets, n, state);
    }

    /** `prevPad = null; currPad = null; isPadAttached = false;`: the trace is forgotten. */
    method Forget()
      requires Valid()
      modifies this`prevPad, this`currPad, this`isPadAttached
      ensures Valid() && prevPad == None && currPad == None && !isPadAttached && Wirings(nets) == old(Wirings(nets))
    {
      prevPad := None;
      currPad := None;
      isPadAttached := false;
      WiringsStay(nets);
    }

    /** `n.setSelected(false); prevPad = null; currPad = null; isPadAttached = false;`: the routing ends. */
    method Finish(n: Net)
      requires Valid()
      modifies n`selected, this`prevPad, this`currPad, this`isPadAttached
      ensures Valid() && !n.selected && prevPad == None && currPad == None && !isPadAttached && Wirings(nets) == old(Wirings(nets))
    {
      MarkNet(n, false);
      Forget();
    }

    /** The abort of the Escape key: the head's provisional segment is dropped, its net unselected and the trace forgotten. */
    method Abort() returns (o: Outcome<()>)
      requires Valid() && isPadAttached
      modifies this`prevPad, this`currPad, this`isPadAttached
      modifies (set n | n in nets)`segs, (set n | n in nets)`selected, NetGraphs(nets)`edges, NetGraphs(nets)`lists, Tables(nets)`keys, Tables(nets)`vals, (iset l: VertexList<Pad> | l.owner in Tables(nets))`items, Wired(nets)`listeners
      ensures Valid()
      ensures old(HeadNet()).None? ==> o == Throw(NullPointer) && Wirings(nets) == old(Wirings(nets))
      ensures old(HeadNet()).Some? ==>
        (o, Wirings(nets)) == HeadOut(old(Wirings(nets)), old(Seen(HeadNet().value.segs)), old(HeadNet().value), old(prevPad.value), old(currPad.value))
      ensures o.Return? ==> prevPad == None && currPad == None && !isPadAttached && !old(HeadNet()).value.selected
      ensures o.Throw? ==> unchanged(this)
    {
      var n := currPad.value.net;
      o := DropHead();
      if o.Throw? {
        return;
      }
      Finish(n.value);
    }

    /**
     * The Escape key: with a head attached in the Route state, the head's
     * provisional segment is dropped, its net unselected and the trace
     * forgotten (`Abort`); otherwise nothing happens.
     */
    method Escape() returns (o: Outcome<()>)
      requires Valid()
      modifies this`prevPad, this`currPad, this`isPadAttached
      modifies (set n | n in nets)`segs, (set n | n in nets)`selected, NetGraphs(nets)`edges, NetGraphs(nets)`lists, Tables(nets)`keys, Tables(nets)`vals, (iset l: VertexList<Pad> | l.owner in Tables(nets))`items, Wired(nets)`listeners
      ensures Valid()
      ensures !(old(isPadAttached) && old(cursorState) == CURSOR_ROUTE) ==>
        o == Return(()) && unchanged(this) && Wirings(nets) == old(Wirings(nets))
      ensures old(isPadAttached) && old(cursorState) == CURSOR_ROUTE && old(HeadNet()).None? ==>
        o == Throw(NullPointer) && unchanged(this) && Wirings(nets) == old(Wirings(nets))
      ensures old(isPadAttached) && old(cursorState) == CURSOR_ROUTE && old(HeadNet()).Some? ==>
        (o, Wirings(nets)) == HeadOut(old(Wirings(nets)), old(Seen(HeadNet().value.segs)), old(HeadNet().value), old(prevPad.value), old(currPad.value))
      ensures o.Return? && old(isPadAttached) && old(cursorState) == CURSOR_ROUTE ==>
        && prevPad == None && currPad == None && !isPadAttached && !old(HeadNet()).value.selected
    {
      if isPadAttached && cursorState == CURSOR_ROUTE {
        o := Abort();
      } else {
        o := Return(());
      }
    }
 
    /**
     * The selection lists the Delete key got through are emptied and `ps`
     * becomes the list of parts; when all three were, and the nets spell a
     * layout that holds the net of every pad reached before, which reach
     * the head and the parts left, the area is consistent.
     */
    method Wipe(cleared: nat, ps: seq<Part>, ghost l1: Layout, ghost c: Looks, ghost S: seq<Segment>, ghost reach: set<Pad>)
      requires (isPadAttached ==> prevPad.Some? && currPad.Some?)
      requires cleared == 3 ==> Mirrors(nets, l1, c, S) && Homed(l1) && l1.w == Wirings(nets)
      requires cleared == 3 ==> reach <= l1.owners.Keys && Head() + PartPads(ps) <= reach
      modifies this`selectedPads, this`selectedSegs, this`selectedParts, this`parts
      ensures selectedPads == if cleared >= 1 then [] else old(selectedPads)
      ensures selectedSegs == if cleared >= 2 then [] else old(selectedSegs)
      ensures selectedParts == if cleared >= 3 then [] else old(selectedParts)
      ensures parts == ps && Wirings(nets) == old(Wirings(nets))
      ensures cleared == 3 ==> Valid()
    {
      if cleared == 3 {
        Landed(l1, c, S, reach, ps);
      }
      selectedPads, selectedSegs, selectedParts, parts :=
        (if cleared >= 1 then [] else selectedPads),
        (if cleared >= 2 then [] else selectedSegs),
        (if cleared >= 3 then [] else selectedParts),
        ps;
      WiringsStay(nets);
    }

    /**
     * The nets spelling a layout that holds the net of every pad in `reach`,
     * which holds the head and the pads of the parts `ps`: the nets are
     * consistent and own the net of each of those pads.
     */
    lemma Landed(l1: Layout, c: Looks, S: seq<Segment>, reach: set<Pad>, ps: seq<Part>)
      requires Mirrors(nets, l1, c, S) && Homed(l1) && l1.w == Wirings(nets)
      requires reach <= l1.owners.Keys && Head() + PartPads(ps) <= reach
      ensures NetsValid(nets) && forall p :: p in Head() + PartPads(ps) ==> Among(p.net, nets)
    {
    }

    /** What the loops of the Delete key start from: the nets spell the layout `l` of the area on the record `c` of the segments `S`. */
    lemma Prepared(S: seq<Segment>, c: Looks, l: Layout)
      requires Valid() && S == Flat(nets) + selectedSegs && c == Seen(S) && l == Layout(Wirings(nets), Owners())
      ensures Mirrors(nets, l, c, S) && Fits(l, c) && Homed(l)
      ensures forall p :: p in selectedPads ==> p in l.owners
      ensures forall s :: s in selectedSegs ==> s in S && Led(l, c, s)
      ensures forall part, p :: part in selectedParts && p in part.fp.pads ==> p in l.owners
      ensures Deletes() == Deleted(l, c, selectedPads, selectedSegs, selectedParts, parts)
      ensures PartPads(Deletes().parts) <= PartPads(parts)
      ensures l.owners.Keys == Reach()
      ensures PadsOf(S) <= Wired(nets) + PadsOf(selectedSegs)
    {
      Ready(nets, Owners(), selectedSegs);
      PartPadsWithin(parts, Deletes().parts);
    }

    /**
     * The Delete key: the selected pads leave their nets, then the selected
     * segments theirs, then the pads of the selected parts theirs, and the
     * selected parts leave `parts`; each selection list is emptied once its
     * loop is through, and a throw ends it all, as `Deleted` says.
     */
    method Delete() returns (o: Outcome<()>)
      requires Valid()
      modifies this`selectedPads, this`selectedSegs, this`selectedParts, this`parts
      modifies (set n | n in nets)`segs, NetGraphs(nets)`edges, NetGraphs(nets)`lists, Tables(nets)`keys, Tables(nets)`vals, (iset l: VertexList<Pad> | l.owner in Tables(nets))`items
      modifies Wired(nets)`listeners, PadsOf(selectedSegs)`listeners, Reach()`net
      ensures o == old(Deletes()).o && Wirings(nets) == old(Deletes()).l.w && parts == old(Deletes()).parts
      ensures selectedPads == if old(Deletes()).cleared >= 1 then [] else old(selectedPads)
      ensures selectedSegs == if old(Deletes()).cleared >= 2 then [] else old(selectedSegs)
      ensures selectedParts == if old(Deletes()).cleared >= 3 then [] else old(selectedParts)
      ensures o.Return? ==> Valid() && forall p :: p in old(Reach()) ==> p.net == old(Deletes()).l.owners[p]
    {

      ghost var S := Flat(nets) + selectedSegs;
      ghost var c := Seen(S);
      ghost var l := Layout(Wirings(nets), Owners());
      ghost var reach := Reach();
      Prepared(S, c, l);
      var ps, cleared;
      ghost var l1;
      o, l1, ps, cleared := Erase(nets, l, c, S, selectedPads, selectedSegs, selectedParts, parts);
      Wipe(cleared, ps, l1, c, S, reach);
    }
 
    /**
     * `keyPressed(e)`: Ctrl sets its flag, Delete and Escape run as `Delete`
     * and `Escape` say, and any other key changes nothing.
     */
    method KeyPressed(keyCode: int) returns (o: Outcome<()>)
      requires Valid()
      modifies this`ctrlPressed, this`selectedPads, this`selectedSegs, this`selectedParts, this`parts, this`prevPad, this`currPad, this`isPadAttached
      modifies (set n | n in nets)`segs, (set n | n in nets)`selected, NetGraphs(nets)`edges, NetGraphs(nets)`lists, Tables(nets)`keys, Tables(nets)`vals, (iset l: VertexList<Pad> | l.owner in Tables(nets))`items
      modifies Wired(nets)`listeners, PadsOf(selectedSegs)`listeners, Reach()`net
      ensures keyCode == KEY_CTRL ==> o == Return(()) && ctrlPressed && Valid() && Wirings(nets) == old(Wirings(nets))
      ensures keyCode == KEY_DEL ==> o == old(Deletes()).o && Wirings(nets) == old(Deletes()).l.w && parts == old(Deletes()).parts
      ensures keyCode == KEY_DEL && o.Return? ==> Valid() && selectedPads == [] && selectedSegs == [] && selectedParts == []
      ensures keyCode == KEY_ESC ==> Valid()
      ensures keyCode == KEY_ESC && !(old(isPadAttached) && old(cursorState) == CURSOR_ROUTE) ==> o == Return(()) && Wirings(nets) == old(Wirings(nets))
      ensures keyCode == KEY_ESC && old(isPadAttached) && old(cursorState) == CURSOR_ROUTE && o.Return? ==>
        prevPad == None && currPad == None && !isPadAttached
      ensures keyCode !in {KEY_CTRL, KEY_DEL, KEY_ESC} ==> o == Return(()) && unchanged(this) && Wirings(nets) == old(Wirings(nets))
    {
      if keyCode == KEY_CTRL {
        ctrlPressed := true;
        o := Return(());
        WiringsStay(nets);
      } else if keyCode == KEY_DEL {
        o := Delete();
      } else if keyCode == KEY_ESC {
        o := Escape();
      } else {
        o := Return(());
      }
    }

    /**
     * A press in the Route state with no head attached: every net is
     * asked in turn whether it contains the point and whether its
     * underlying component there is a pad; each that answers with a pad
     * starts a route from it, so the last such net keeps the head. A pad
     * without a net makes the press throw at that net. The board and the
     * cursor end as `Routed` says of the record taken before the press.
     */
    method StartRoute(q: Point) returns (o: Outcome<()>, ghost made: seq<Made>)
      requires Valid()
      modifies this`prevPad, this`currPad, this`isPadAttached
      modifies (set n | n in nets)`segs, (set n | n in nets)`selected, NetGraphs(nets)`edges, NetGraphs(nets)`lists, Tables(nets)`keys, Tables(nets)`vals, (iset l: VertexList<Pad> | l.owner in Tables(nets))`items
      modifies Keyed(nets)`net, Keyed(nets)`listeners
      ensures Valid() && |made| <= |nets| && (|made| < |nets| ==> o.Throw?)
      ensures Sound(old(Pressing(nets, q, Cur())), nets, made)
      ensures (o, Cur()) == (Routed(old(Pressing(nets, q, Cur())), nets, made).o, Routed(old(Pressing(nets, q, Cur())), nets, made).cur)
      ensures Wirings(nets) == Routed(old(Pressing(nets, q, Cur())), nets, made).w
      ensures Flags(nets) == Routed(old(Pressing(nets, q, Cur())), nets, made).sel
      ensures NetsOf(Routed(old(Pressing(nets, q, Cur())), nets, made).pn.Keys) == Routed(old(Pressing(nets, q, Cur())), nets, made).pn
      ensures Hung(Routed(old(Pressing(nets, q, Cur())), nets, made))
      ensures RingsOf(old(Pressing(nets, q, Cur())).pr.Keys) == old(Pressing(nets, q, Cur())).pr
    {
      ghost var b := Pressing(nets, q, Cur());
      var cur;
      o, cur, made := RoutePress(nets, q, traceWidth * UNITS, hit, Cur());
      OwnedKept(nets);
      GoingApart(nets, b, made, o, cur);
      SetCursor(cur, Wirings(nets), Flags(nets), Routed(b, nets, made).pn.Keys, NetsOf(Routed(b, nets, made).pn.Keys), b.pr, Routed(b, nets, made));
    }

    /** `prevPad`, `currPad` and `isPadAttached` set from `cur`, whose head, when set, is in one of the nets. */
    method SetCursor(cur: Cursor, ghost w: map<Net, Wiring>, ghost f: map<Net, bool>, ghost pads: set<Pad>, ghost pn: map<Pad, Option<Net>>, ghost pr: map<Pad, Ellipse>, ghost r: Route)
      requires NetsValid(nets) && Owned(nets) && Wirings(nets) == w && Flags(nets) == f && NetsOf(pads) == pn && RingsOf(pr.Keys) == pr && Hung(r)
      requires (cur.2 ==> cur.0.Some? && cur.1.Some?) && (cur.1.Some? ==> Among(cur.1.value.net, nets))
      modifies this`prevPad, this`currPad, this`isPadAttached
      ensures Valid() && Cur() == cur && Wirings(nets) == w && Flags(nets) == f && NetsOf(pads) == pn && RingsOf(pr.Keys) == pr && Hung(r)
    {
      ghost var ns := nets;
      prevPad, currPad, isPadAttached := cur.0, cur.1, cur.2;
      NetsStay(ns);
      FlagsStay(ns);
      NetsOfStay(pads);
      RingsOfStay(pr.Keys);
    }

    /** `prevPad`, `currPad` and `isPadAttached` set from `cur`, which has a start and a head in one of the nets. */
    method Reattach(cur: Cursor, ghost w: map<Net, Wiring>)
      requires NetsValid(nets) && Owned(nets) && Wirings(nets) == w
      requires cur.0.Some? && cur.1.Some? && Among(cur.1.value.net, nets)
      modifies this`prevPad, this`currPad, this`isPadAttached
      ensures Valid() && Cur() == cur && Wirings(nets) == w
    {
      prevPad, currPad, isPadAttached := cur.0, cur.1, cur.2;
      WiringsStay(nets);
    }

    /**
     * `Advance` for the attached head, which is in the net `n`: the
     * cursor fields stay as they are, and a pad that changes its net
     * joins `n`, so every pad and segment the handlers reach keeps a net
     * among the nets.
     */
    method PressOn(q: Point, n: Net) returns (o: Outcome<()>, cur: Cursor, ghost d: (Outcome<()>, map<Net, Wiring>),
      aim: Aim, ghost e: Landing, ghost s: Option<Segment>, ghost t: Option<Segment>, ghost h2: Option<Pad>)
      requires Valid() && isPadAttached && currPad.value.net == Some(n)
      modifies (set n | n in nets)`segs, (set n | n in nets)`selected, NetGraphs(nets)`edges, NetGraphs(nets)`lists, Tables(nets)`keys, Tables(nets)`vals, (iset l: VertexList<Pad> | l.owner in Tables(nets))`items
      modifies Wired(nets)`listeners, Keyed(nets)`net, Keyed(nets)`listeners, {prevPad.value, currPad.value}`net, {prevPad.value, currPad.value}`listeners
      ensures NetsValid(nets) && o == e.o && Wirings(nets) == e.w && cur == e.cur
      ensures cur.0.Some? && cur.1.Some? && Among(cur.1.value.net, nets)
      ensures Owned(nets) && d == old(Dropped(nets, n, prevPad.value, currPad.value))
      ensures (d.0.Return? ==> aim == old(AimAt(d.1[n], q, hit))) && Pressed(d, aim, old(prevPad.value.net), n, prevPad.value, currPad.value, s, t, h2, e)
    {
      TargetKeyed(nets, n, prevPad.value, currPad.value, q, hit);
      ghost var moved := Target(nets, n, prevPad.value, currPad.value, q, hit);
      o, cur, d, aim, e, s, t, h2 := AdvanceKept(nets, n, prevPad.value, currPad.value, q, traceWidth * UNITS, hit, moved);
      OwnedKept(nets);
    }

    /**
     * A press in the Route state with a head attached: `currPad.getNet()`,
     * null for a head without a net, which throws; otherwise `Advance`
     * with the width of a trace in hundredths of a millimetre, and the
     * cursor follows.
     */
    method Extend(q: Point) returns (o: Outcome<()>, ghost d: (Outcome<()>, map<Net, Wiring>),
      aim: Aim, ghost e: Landing, ghost s: Option<Segment>, ghost t: Option<Segment>, ghost h2: Option<Pad>)
      requires Valid() && isPadAttached
      modifies this`prevPad, this`currPad, this`isPadAttached
      modifies (set n | n in nets)`segs, (set n | n in nets)`selected, NetGraphs(nets)`edges, NetGraphs(nets)`lists, Tables(nets)`keys, Tables(nets)`vals, (iset l: VertexList<Pad> | l.owner in Tables(nets))`items
      modifies Wired(nets)`listeners, Keyed(nets)`net, Keyed(nets)`listeners, {prevPad.value, currPad.value}`net, {prevPad.value, currPad.value}`listeners
      ensures Valid() && o == e.o && Wirings(nets) == e.w && Cur() == e.cur
      ensures old(HeadNet()).None? ==> e == Landing(Throw(NullPointer), old(Wirings(nets)), old(Cur()), false)
      ensures old(HeadNet()).Some? ==> d == old(Dropped(nets, HeadNet().value, prevPad.value, currPad.value))
      ensures old(HeadNet()).Some? ==> d.0.Return? ==> aim == old(AimAt(d.1[HeadNet().value], q, hit))
      ensures old(HeadNet()).Some? ==> Pressed(d, aim, old(prevPad.value.net), old(HeadNet().value), old(prevPad.value), old(currPad.value), s, t, h2, e)
    {
      d, aim, s, t, h2 := (Throw(NullPointer), Wirings(nets)), Away, None, None, None;
      if currPad.value.net.None? {
        o, e := Throw(NullPointer), Landing(Throw(NullPointer), Wirings(nets), Cur(), false);
        WiringsStay(nets);
        return;
      }
      var cur;
      o, cur, d, aim, e, s, t, h2 := PressOn(q, currPad.value.net.value);
      Reattach(cur, Wirings(nets));
    }

    /** Whether a selection press keeps what is selected: Ctrl is held or the cursor is in the Move state. */
    function Keeps(): bool
      reads this`ctrlPressed, this`cursorState
    {
      ctrlPressed || cursorState == CURSOR_MOVE
    }

    /** What a selection press at `q` picks on the nets and parts of the area. */
    ghost function Choice(q: Point): Pick
      reads this`nets, this`parts, (set n | n in nets), Tables(nets)`keys, Keyed(nets)`ring, Keyed(nets)`part, Segs(nets)`line, Segs(nets)`width
      reads (set pt | pt in parts)`ol
    {
      Chosen(nets, parts, q, hit)
    }

    /** The net of a picked pad or segment is null or one of the nets. */
    ghost predicate Adopted(c: Pick)
      reads this`nets, Touched(c)
    {
      match c
      case PadPick(p) => Among(p.net, nets)
      case SegPick(x) => Among(x.net, nets)
      case _ => true
    }

    /** The pad branch of a selection press: unless kept, the selected pads are unselected and dropped; `p` is selected and moved to the end of the list. */
    method TakePad(p: Pad)
      modifies this`selectedPads, (set x | x in selectedPads)`selected, p`selected
      ensures selectedPads == Reselect(old(selectedPads), p, Keeps())
      ensures forall x :: x in selectedPads ==> x in old(selectedPads) || x == p
      ensures Flagged(PadPick(p), Keeps(), old(selectedPads), [], [])
    {
      ReselectWithin(selectedPads, p, Keeps());
      if !ctrlPressed && cursorState != CURSOR_MOVE {
        UnselectPads(selectedPads);
        selectedPads := [];
      }
      p.SetSelected(true);
      if p in selectedPads {
        selectedPads := RemoveFirst(selectedPads, p);
      }
      selectedPads := selectedPads + [p];
    }

    /** The segment branch of a selection press, as `TakePad` for `selectedSegs`. */
    method TakeSeg(x: Segment)
      modifies this`selectedSegs, (set y | y in selectedSegs)`selected, x`selected
      ensures selectedSegs == Reselect(old(selectedSegs), x, Keeps())
      ensures forall y :: y in selectedSegs ==> y in old(selectedSegs) || y == x
      ensures Flagged(SegPick(x), Keeps(), [], old(selectedSegs), [])
    {
      ReselectWithin(selectedSegs, x, Keeps());
      if !ctrlPressed && cursorState != CURSOR_MOVE {
        UnselectSegs(selectedSegs);
        selectedSegs := [];
      }
      x.SetSelected(true);
      if x in selectedSegs {
        selectedSegs := RemoveFirst(selectedSegs, x);
      }
      selectedSegs := selectedSegs + [x];
    }

    /** The part branch of a selection press, as `TakePad` for `selectedParts`; a part selects its footprint and the footprint's pads too. */
    method TakePart(pt: Part)
      modifies this`selectedParts, (set y | y in selectedParts)`selected, Footprints(selectedParts)`selected, PartPads(selectedParts)`selected
      modifies pt`selected, pt.fp`selected, (set p | p in pt.fp.pads)`selected
      ensures selectedParts == Reselect(old(selectedParts), pt, Keeps())
      ensures forall y :: y in selectedParts ==> y in old(selectedParts) || y == pt
      ensures Flagged(PartPick(pt), Keeps(), [], [], old(selectedParts))
    {
      ReselectWithin(selectedParts, pt, Keeps());
      if !ctrlPressed && cursorState != CURSOR_MOVE {
        UnselectParts(selectedParts);
        selectedParts := [];
      }
      pt.SetSelected(true);
      if pt in selectedParts {
        selectedParts := RemoveFirst(selectedParts, pt);
      }
      selectedParts := selectedParts + [pt];
    }

    /** A press outside every component: the selected segments, then the parts, then the pads are unselected and their lists emptied. */
    method ClearAll()
      modifies this`selectedPads, this`selectedSegs, this`selectedParts
      modifies (set x | x in selectedPads)`selected, (set x | x in selectedSegs)`selected
      modifies (set pt | pt in selectedParts)`selected, Footprints(selectedParts)`selected, PartPads(selectedParts)`selected
      ensures selectedPads == [] && selectedSegs == [] && selectedParts == []
      ensures Flagged(Outside, Keeps(), old(selectedPads), old(selectedSegs), old(selectedParts))
    {
      UnselectSegs(selectedSegs);
      selectedSegs := [];
      UnselectParts(selectedParts);
      selectedParts := [];
      UnselectPads(selectedPads);
      selectedPads := [];
    }

    /** `TakePad`, which keeps the nets as they were and the area consistent when `p`'s net is one of the nets. */
    method SelectPad(p: Pad)
      modifies this`selectedPads, (set x | x in selectedPads)`selected, p`selected
      ensures selectedPads == Reselect(old(selectedPads), p, Keeps())
      ensures Flagged(PadPick(p), Keeps(), old(selectedPads), [], [])
      ensures Wirings(nets) == old(Wirings(nets)) && (old(Valid()) ==> NetsValid(nets))
      ensures old(Valid()) && old(Among(p.net, nets)) ==> Valid()
    {
      TakePad(p);
      WiringsStay(nets);
      if old(Valid()) {
        NetsStay(nets);
        if old(Owned(nets)) && old(Among(p.net, nets)) {
          OwnedSelecting(nets);
        }
      }
    }

    /** `TakeSeg`, which keeps the nets as they were and the area consistent when `x`'s net is one of the nets. */
    method SelectSeg(x: Segment)
      modifies this`selectedSegs, (set y | y in selectedSegs)`selected, x`selected
      ensures selectedSegs == Reselect(old(selectedSegs), x, Keeps())
      ensures Flagged(SegPick(x), Keeps(), [], old(selectedSegs), [])
      ensures Wirings(nets) == old(Wirings(nets)) && (old(Valid()) ==> NetsValid(nets))
      ensures old(Valid()) && old(Among(x.net, nets)) ==> Valid()
    {
      TakeSeg(x);
      WiringsStay(nets);
      if old(Valid()) {
        NetsStay(nets);
        if old(Owned(nets)) && old(Among(x.net, nets)) {
          OwnedSelecting(nets);
        }
      }
    }

    /** `TakePart` for a part of the area, which keeps the nets as they were and the area consistent. */
    method SelectPart(pt: Part)
      requires pt in parts
      modifies this`selectedParts, (set y | y in selectedParts)`selected, Footprints(selectedParts)`selected, PartPads(selectedParts)`selected
      modifies pt`selected, pt.fp`selected, (set p | p in pt.fp.pads)`selected
      ensures selectedParts == Reselect(old(selectedParts), pt, Keeps())
      ensures Flagged(PartPick(pt), Keeps(), [], [], old(selectedParts))
      ensures Wirings(nets) == old(Wirings(nets)) && (old(Valid()) ==> NetsValid(nets))
      ensures old(Valid()) ==> Valid()
    {
      TakePart(pt);
      WiringsStay(nets);
      if old(Valid()) {
        NetsStay(nets);
        OwnedSelecting(nets);
      }
    }

    /** `ClearAll`, which keeps the nets as they were and the area consistent. */
    method Deselect()
      modifies this`selectedPads, this`selectedSegs, this`selectedParts
      modifies (set x | x in selectedPads)`selected, (set x | x in selectedSegs)`selected
      modifies (set pt | pt in selectedParts)`selected, Footprints(selectedParts)`selected, PartPads(selectedParts)`selected
      ensures selectedPads == [] && selectedSegs == [] && selectedParts == []
      ensures Flagged(Outside, Keeps(), old(selectedPads), old(selectedSegs), old(selectedParts))
      ensures Wirings(nets) == old(Wirings(nets)) && (old(Valid()) ==> NetsValid(nets))
      ensures old(Valid()) ==> Valid()
    {
      ClearAll();
      WiringsStay(nets);
      if old(Valid()) {
        NetsStay(nets);
        OwnedSelecting(nets);
      }
    }

    /** `currPart = null`: the part being placed stays where it is. */
    method PutDown()
      requires Valid()
      modifies this`currPart
      ensures currPart == None && Valid() && Wirings(nets) == old(Wirings(nets))
    {
      currPart := None;
    }

    /** The two loops of a selection press, which leave the area as it was. */
    method Survey(q: Point) returns (c: Pick)
      requires Valid()
      ensures Valid() && Wirings(nets) == old(Wirings(nets))
      ensures c == old(Choice(q)) && Adopted(c) == old(Adopted(c))
      ensures (c.PadPick? ==> c.pad in Keyed(nets)) && (c.SegPick? ==> c.seg in Segs(nets)) && (c.PartPick? ==> c.part in parts)
    {
      c := Scan(nets, parts, q, hit);
      NetsStay(nets);
      OwnedSelecting(nets);
    }

    /** What a selection press does with the component it picked, one branch per kind. */
    method Apply(c: Pick)
      requires (c.PadPick? ==> c.pad in Keyed(nets)) && (c.SegPick? ==> c.seg in Segs(nets)) && (c.PartPick? ==> c.part in parts)
      modifies this`selectedPads, this`selectedSegs, this`selectedParts
      modifies Keyed(nets)`selected, Segs(nets)`selected, (set pt | pt in parts)`selected, Footprints(parts)`selected, PartPads(parts)`selected
      modifies (set x | x in selectedPads)`selected, (set x | x in selectedSegs)`selected
      modifies (set pt | pt in selectedParts)`selected, Footprints(selectedParts)`selected, PartPads(selectedParts)`selected
      ensures (selectedPads, selectedSegs, selectedParts) == Selects(c, Keeps(), old(selectedPads), old(selectedSegs), old(selectedParts))
      ensures Flagged(c, Keeps(), old(selectedPads), old(selectedSegs), old(selectedParts))
      ensures Wirings(nets) == old(Wirings(nets)) && (old(Valid()) ==> NetsValid(nets))
      ensures old(Valid()) && old(Adopted(c)) ==> Valid()
    {
      match c
      case PadPick(p) => SelectPad(p);
      case SegPick(x) => SelectSeg(x);
      case PartPick(pt) => SelectPart(pt);
      case Outside => Deselect();
    }

    /**
     * The press of the Normal state, and of the Move state once
     * `moveOrigin` is set: a part being placed is put down where it is and
     * nothing else happens; otherwise the first net to offer a pad of no
     * part or a segment under `q` has it selected, failing that the first
     * part containing `q` is, and a press outside everything clears the
     * three selection lists. The area stays consistent unless the picked
     * pad or segment has a net that is not one of the nets.
     */
    method Select(q: Point) returns (ghost c: Pick)
      requires Valid()
      modifies this`currPart, this`selectedPads, this`selectedSegs, this`selectedParts
      modifies Keyed(nets)`selected, Segs(nets)`selected, (set pt | pt in parts)`selected, Footprints(parts)`selected, PartPads(parts)`selected
      modifies (set x | x in selectedPads)`selected, (set x | x in selectedSegs)`selected
      modifies (set pt | pt in selectedParts)`selected, Footprints(selectedParts)`selected, PartPads(selectedParts)`selected
      ensures currPart == None && NetsValid(nets) && Wirings(nets) == old(Wirings(nets))
      ensures old(currPart).Some? ==> selectedPads == old(selectedPads) && selectedSegs == old(selectedSegs) && selectedParts == old(selectedParts)
      ensures old(currPart).None? ==> c == old(Choice(q))
      ensures old(currPart).None? ==> (selectedPads, selectedSegs, selectedParts) == Selects(c, Keeps(), old(selectedPads), old(selectedSegs), old(selectedParts))
      ensures old(currPart).None? ==> Flagged(c, Keeps(), old(selectedPads), old(selectedSegs), old(selectedParts))
      ensures old(currPart).Some? || old(Adopted(Choice(q))) ==> Valid()
    {
      c := Outside;
      if currPart.Some? {
        PutDown();
        return;
      }
      var pick := Survey(q);
      c := pick;
      Apply(pick);
    }

    /** Both ends of the trace being routed, where set. */
    function TraceEnds(): set<Pad>
      reads this
    {
      (if prevPad.Some? then {prevPad.value} else {}) + Head()
    }

    /** `moveOrigin` set to `q`. */
    method SetOrigin(q: Point)
      requires Valid()
      modifies this`moveOrigin
      ensures moveOrigin == q && Valid() && Wirings(nets) == old(Wirings(nets))
    {
      moveOrigin := q;
      WiringsStay(nets);
    }

    /** `moveOrigin` set to the point `q` of a press; nothing a selection press reads changes. */
    method Anchor(q: Point)
      requires Valid()
      modifies this`moveOrigin
      ensures moveOrigin == q && Valid() && Wirings(nets) == old(Wirings(nets))
      ensures Keeps() == old(Keeps()) && Choice(q) == old(Choice(q)) && Adopted(Choice(q)) == old(Adopted(Choice(q)))
    {
      moveOrigin := q;
      WiringsStay(nets);
    }

    /**
     * `mousePressed(e)` after the context menu: in the Route state the
     * press extends the attached trace (`Extend`) or, with no head, starts
     * one (`StartRoute`); the Move state records the press point as the
     * origin of a drag and falls through to the Normal state, where the
     * press selects (`Select`). Any other state changes nothing.
     */
    method MousePressed(q: Point) returns (o: Outcome<()>, ghost c: Pick, ghost made: seq<Made>, ghost d: (Outcome<()>, map<Net, Wiring>),
      ghost aim: Aim, ghost e: Landing, ghost s: Option<Segment>, ghost t: Option<Segment>, ghost h2: Option<Pad>)
      requires Valid()
      modifies this`prevPad, this`currPad, this`isPadAttached, this`moveOrigin
      modifies (set n | n in nets)`segs, (set n | n in nets)`selected, NetGraphs(nets)`edges, NetGraphs(nets)`lists, Tables(nets)`keys, Tables(nets)`vals, (iset l: VertexList<Pad> | l.owner in Tables(nets))`items
      modifies Wired(nets)`listeners, Keyed(nets)`net, Keyed(nets)`listeners, TraceEnds()`net, TraceEnds()`listeners
      modifies this`currPart, this`selectedPads, this`selectedSegs, this`selectedParts
      modifies Keyed(nets)`selected, Segs(nets)`selected, (set pt | pt in parts)`selected, Footprints(parts)`selected, PartPads(parts)`selected
      modifies (set x | x in selectedPads)`selected, (set x | x in selectedSegs)`selected
      modifies (set pt | pt in selectedParts)`selected, Footprints(selectedParts)`selected, PartPads(selectedParts)`selected
      ensures moveOrigin == if old(cursorState) == CURSOR_MOVE then q else old(moveOrigin)
      ensures old(cursorState) == CURSOR_ROUTE && old(isPadAttached) ==>
        && Valid() && o == e.o && Wirings(nets) == e.w && Cur() == e.cur
        && (old(HeadNet()).None? ==> e == Landing(Throw(NullPointer), old(Wirings(nets)), old(Cur()), false))
        && (old(HeadNet()).Some? ==> d == old(Dropped(nets, HeadNet().value, prevPad.value, currPad.value)))
        && (old(HeadNet()).Some? ==> d.0.Return? ==> aim == old(AimAt(d.1[HeadNet().value], q, hit)))
        && (old(HeadNet()).Some? ==> Pressed(d, aim, old(prevPad.value.net), old(HeadNet().value), old(prevPad.value), old(currPad.value), s, t, h2, e))
      ensures old(cursorState) == CURSOR_ROUTE && !old(isPadAttached) ==>
        && Valid() && |made| <= |nets| && (|made| < |nets| ==> o.Throw?)
        && Sound(old(Pressing(nets, q, Cur())), nets, made)
        && (o, Cur()) == (Routed(old(Pressing(nets, q, Cur())), nets, made).o, Routed(old(Pressing(nets, q, Cur())), nets, made).cur)
        && Wirings(nets) == Routed(old(Pressing(nets, q, Cur())), nets, made).w
        && Flags(nets) == Routed(old(Pressing(nets, q, Cur())), nets, made).sel
      ensures old(cursorState) == CURSOR_MOVE || old(cursorState) == CURSOR_NORMAL ==>
        && o == Return(()) && currPart == None && NetsValid(nets) && Wirings(nets) == old(Wirings(nets))
        && (old(currPart).Some? ==> selectedPads == old(selectedPads) && selectedSegs == old(selectedSegs) && selectedParts == old(selectedParts))
        && (old(currPart).None? ==> c == old(Choice(q)))
        && (old(currPart).None? ==> (selectedPads, selectedSegs, selectedParts) == Selects(c, Keeps(), old(selectedPads), old(selectedSegs), old(selectedParts)))
        && (old(currPart).None? ==> Flagged(c, Keeps(), old(selectedPads), old(selectedSegs), old(selectedParts)))
        && (old(currPart).Some? || old(Adopted(Choice(q))) ==> Valid())
      ensures old(cursorState) !in {CURSOR_ROUTE, CURSOR_MOVE, CURSOR_NORMAL} ==> o == Return(()) && unchanged(this) && Valid()
    {
      o, c, made, d, aim, e, s, t, h2 := Return(()), Outside, [], (Throw(NullPointer), Wirings(nets)), Away, Landing(Return(()), Wirings(nets), Cur(), false), None, None, None;
      if cursorState == CURSOR_ROUTE {
        if isPadAttached {
          o, d, aim, e, s, t, h2 := Extend(q);
        } else {
          o, made := StartRoute(q);
        }
      } else if cursorState == CURSOR_MOVE || cursorState == CURSOR_NORMAL {
        if cursorState == CURSOR_MOVE {
          Anchor(q);
        }
        c := Select(q);
      }
    }

    /**
     * `mouseReleased(e)`: in the Move state an attached head is let go: the
     * flag is cleared first, then the head's net is unselected (a null net
     * throws there) and the trace is forgotten. Its provisional segment
     * stays in the net. Any other state changes nothing.
     */
    method MouseReleased() returns (o: Outcome<()>)
      requires Valid()
      modifies this`isPadAttached, this`prevPad, this`currPad, (set n | n in nets)`selected
      ensures Valid() && Wirings(nets) == old(Wirings(nets))
      ensures !(old(cursorState) == CURSOR_MOVE && old(isPadAttached)) ==> o == Return(()) && unchanged(this)
      ensures old(cursorState) == CURSOR_MOVE && old(isPadAttached) && old(HeadNet()).None? ==>
        o == Throw(NullPointer) && !isPadAttached && prevPad == old(prevPad) && currPad == old(currPad)
      ensures old(cursorState) == CURSOR_MOVE && old(isPadAttached) && old(HeadNet()).Some? ==>
        o == Return(()) && !isPadAttached && prevPad == None && currPad == None && !old(HeadNet()).value.selected
    {
      o := Return(());
      if cursorState == CURSOR_MOVE && isPadAttached {
        isPadAttached := false;
        WiringsStay(nets);
        var n := currPad.value.net;
        if n.None? {
          return Throw(NullPointer);
        }
        Finish(n.value);
      }
    }

    /** The grid offset of a drag to `mouse`: from the grid point nearest `moveOrigin` to the one nearest the mouse. */
    function Offset(mouse: Point): Point
      reads this`moveOrigin
    {
      Minus(snap(mouse), snap(moveOrigin))
    }

    /** Every pad a drag can move: the selected pads, the ends of the selected segments and the pads of the selected parts. */
    function DragPads(): seq<Pad>
      reads this`selectedPads, this`selectedSegs, this`selectedParts
    {
      selectedPads + EndPads(selectedSegs) + FpPads(selectedParts)
    }

    /**
     * The selection, whose lists stay as they were, translated by `delta`
     * (`Drag`): the selected pads, the ends of the selected segments that
     * have not moved, stopping at the first segment on a pad of a part,
     * and then, if it did not stop, the selected parts.
     */
    twostate predicate Dragged(delta: Point, stopped: bool, new moves: seq<Pad>)
      reads this, (set p | p in DragPads()), (set pt | pt in selectedParts), Footprints(selectedParts)
    {
      && selectedPads == old(selectedPads) && selectedSegs == old(selectedSegs) && selectedParts == old(selectedParts)
      && (moves, stopped) == old(Carry(selectedPads, Ends(selectedSegs), Bound(selectedSegs)))
      && Places(DragPads()) == Moves(old(Places(DragPads())), selectedPads + moves + (if stopped then [] else FpPads(selectedParts)), delta)
      && Outlines(selectedParts) == (if stopped then old(Outlines(selectedParts)) else Slides(old(Outlines(selectedParts)), selectedParts, delta))
      && Centers(selectedParts) == (if stopped then old(Centers(selectedParts)) else Hops(old(Centers(selectedParts)), Fps(selectedParts), delta))
    }

    /**
     * The selection translated by `delta` (`Drag`): the selected pads, the
     * ends of the selected segments that have not moved, stopping at the
     * first segment on a pad of a part, and then, if it did not stop, the
     * selected parts.
     */
    method DragSelection(delta: Point) returns (stopped: bool, ghost moves: seq<Pad>)
      requires Valid()
      modifies (set p | p in DragPads())`ring, (set p | p in DragPads())`hole, Watchers(DragPads())`line
      modifies (set pt | pt in selectedParts)`ol, Footprints(selectedParts)`center
      ensures Valid() && Wirings(nets) == old(Wirings(nets))
      ensures Dragged(delta, stopped, moves)
    {
      stopped, moves := Drag(selectedPads, selectedSegs, selectedParts, delta, DragPads());
      WiringsStay(nets);
    }

    /**
     * `mouseDragged(e)`: in the Move state the origin of the drag moves by
     * the grid offset `delta` and the selection is translated by it
     * (`Drag`): the selected pads, the ends of the selected segments that
     * have not moved (stopping at the first segment on a pad of a part), and
     * then, if it did not stop, the selected parts. Any other state moves
     * nothing.
     */
    method MouseDragged(mouse: Point) returns (ghost stopped: bool, ghost moves: seq<Pad>)
      requires Valid()
      modifies this`moveOrigin, (set p | p in DragPads())`ring, (set p | p in DragPads())`hole, Watchers(DragPads())`line
      modifies (set pt | pt in selectedParts)`ol, Footprints(selectedParts)`center
      ensures Valid() && Wirings(nets) == old(Wirings(nets))
      ensures old(cursorState) != CURSOR_MOVE ==>
        && moveOrigin == old(moveOrigin) && Places(DragPads()) == old(Places(DragPads()))
        && Outlines(selectedParts) == old(Outlines(selectedParts)) && Centers(selectedParts) == old(Centers(selectedParts))
      ensures old(cursorState) == CURSOR_MOVE ==> moveOrigin == Plus(old(moveOrigin), old(Offset(mouse))) && Dragged(old(Offset(mouse)), stopped, moves)
    {
      stopped, moves := false, [];
      if cursorState == CURSOR_MOVE {
        var delta := Offset(mouse);
        label before:
        SetOrigin(Plus(moveOrigin, delta));
        PlacesUnchanged(DragPads());
        assert old@before(Carry(selectedPads, Ends(selectedSegs), Bound(selectedSegs))) == Carry(selectedPads, Ends(selectedSegs), Bound(selectedSegs));
        assert old@before(Outlines(selectedParts)) == Outlines(selectedParts);
        assert old@before(Centers(selectedParts)) == Centers(selectedParts);
        stopped, moves := DragSelection(delta);
      }
    }

    /** The part being placed, as a list of at most one. */
    function Following(): seq<Part>
      reads this
    {
      if currPart.Some? then [currPart.value] else []
    }

    /** `currPad.setP(q)`: the head moves onto `q` and its segments follow. */
    method HeadTo(q: Point)
      requires Valid() && currPad.Some?
      modifies currPad.value`ring, currPad.value`hole, (set s | s in currPad.value.listeners)`line
      ensures Valid() && Wirings(nets) == old(Wirings(nets))
      ensures old(currPad.value.Round()) ==> currPad.value.Round() && currPad.value.Center() == q
      ensures forall s :: s in currPad.value.listeners ==> s.Tracks()
    {
      currPad.value.SetP(q);
      WiringsStay(nets);
    }

    /** `currPart.setP(q)`: the part being placed moves its footprint's centre onto `q`. */
    method PartTo(q: Point)
      requires Valid() && currPart.Some?
      modifies currPart.value`ol, currPart.value.fp`center, (set p | p in currPart.value.fp.pads)`ring, (set p | p in currPart.value.fp.pads)`hole
      modifies Watchers(currPart.value.fp.pads)`line
      ensures Valid() && Wirings(nets) == old(Wirings(nets))
      ensures currPart.value.fp.center == q && (old(currPart.value.Valid()) ==> currPart.value.Valid())
      ensures Places(currPart.value.fp.pads) == Moves(old(Places(currPart.value.fp.pads)), currPart.value.fp.pads, Minus(q, old(currPart.value.fp.center)))
    {
      currPart.value.SetP(q);
      WiringsStay(nets);
    }

    /**
     * `mouseMoved(e)`: in the Route state an attached head is placed on the
     * grid point nearest the mouse (`setP`), so the provisional segment
     * follows; in the Normal state the part being placed is. Otherwise
     * nothing moves.
     */
    method MouseMoved(mouse: Point)
      requires Valid()
      modifies Head()`ring, Head()`hole, (set p, s | p in Head() && s in p.listeners :: s)`line
      modifies (set x | x in Following())`ol, (set x | x in Following() :: x.fp)`center, PartPads(Following())`ring, PartPads(Following())`hole
      modifies (set x, s | x in Following() && s in Watchers(x.fp.pads) :: s)`line
      ensures Valid() && Wirings(nets) == old(Wirings(nets))
      ensures cursorState == CURSOR_ROUTE && isPadAttached ==>
        && (old(currPad.value.Round()) ==> currPad.value.Round() && currPad.value.Center() == snap(mouse))
        && forall s :: s in currPad.value.listeners ==> s.Tracks()
      ensures cursorState == CURSOR_NORMAL && currPart.Some? ==>
        && currPart.value.fp.center == snap(mouse)
        && (old(currPart.value.Valid()) ==> currPart.value.Valid())
        && Places(currPart.value.fp.pads) == Moves(old(Places(currPart.value.fp.pads)), currPart.value.fp.pads, Minus(snap(mouse), old(currPart.value.fp.center)))
      ensures !(cursorState == CURSOR_ROUTE && isPadAttached) && !(cursorState == CURSOR_NORMAL && currPart.Some?) ==>
        unchanged(Head()) && unchanged(set x | x in Following()) && unchanged(set x | x in Following() :: x.fp)
    {
      if cursorState == CURSOR_ROUTE && isPadAttached {
        HeadTo(snap(mouse));
      } else if cursorState == CURSOR_NORMAL && currPart.Some? {
        PartTo(snap(mouse));
      }
    }

    /** The selection lists hold the elements of `pads`, `segs` and `ps`, each as often. */
    ghost predicate Kept(pads: seq<Pad>, segs: seq<Segment>, ps: seq<Part>)
      reads this`selectedPads, this`selectedSegs, this`selectedParts
    {
      multiset(selectedPads) == multiset(pads) && multiset(selectedSegs) == multiset(segs) && multiset(selectedParts) == multiset(ps)
    }

    /** The first half of a report: `far` and `near` are selected and added to their selection lists. */
    method Show(c: Check)
      modifies this`selectedPads, this`selectedSegs, this`selectedParts
      modifies PartsAt(c.near)`selected, FpsAt(c.near)`selected, PadsAt(c.near)`selected, SegsAt(c.near)`selected
      modifies PartsAt(c.far)`selected, FpsAt(c.far)`selected, PadsAt(c.far)`selected, SegsAt(c.far)`selected
      ensures selectedPads == old(selectedPads) + PadsIn([c.far, c.near])
      ensures selectedSegs == old(selectedSegs) + SegsIn([c.far, c.near])
      ensures selectedParts == old(selectedParts) + PartsIn([c.far, c.near])
    {
      Light(c.far, true);
      Light(c.near, true);
      selectedPads := selectedPads + PadsIn([c.far, c.near]);
      selectedSegs := selectedSegs + SegsIn([c.far, c.near]);
      selectedParts := selectedParts + PartsIn([c.far, c.near]);
    }

    /** The second half of a report: `far` and `near` are unselected and removed from their selection lists. */
    method Hide(c: Check)
      modifies this`selectedPads, this`selectedSegs, this`selectedParts
      modifies PartsAt(c.near)`selected, FpsAt(c.near)`selected, PadsAt(c.near)`selected, SegsAt(c.near)`selected
      modifies PartsAt(c.far)`selected, FpsAt(c.far)`selected, PadsAt(c.far)`selected, SegsAt(c.far)`selected
      ensures selectedPads == RemoveEach(old(selectedPads), PadsIn([c.far, c.near]))
      ensures selectedSegs == RemoveEach(old(selectedSegs), SegsIn([c.far, c.near]))
      ensures selectedParts == RemoveEach(old(selectedParts), PartsIn([c.far, c.near]))
      ensures Lit(c.near, false) && Lit(c.far, false)
    {
      Light(c.far, false);
      Light(c.near, false);
      selectedPads := RemoveEach(selectedPads, PadsIn([c.far, c.near]));
      selectedSegs := RemoveEach(selectedSegs, SegsIn([c.far, c.near]));
      selectedParts := RemoveEach(selectedParts, PartsIn([c.far, c.near]));
    }

    /**
     * One report of the design-rule check: the later-found item and then
     * `near` are selected and added to their selection lists, the warning
     * is shown (it is the report the caller collects), then both are
     * unselected and removed again in the same order.
     */
    method Flash(c: Check, ghost u: Scope)
      requires InScope(u, c.near) && InScope(u, c.far)
      modifies this`selectedPads, this`selectedSegs, this`selectedParts
      modifies PartsAt(c.near)`selected, FpsAt(c.near)`selected, PadsAt(c.near)`selected, SegsAt(c.near)`selected
      modifies PartsAt(c.far)`selected, FpsAt(c.far)`selected, PadsAt(c.far)`selected, SegsAt(c.far)`selected
      ensures selectedPads == Blink(old(selectedPads), PadsIn([c.far, c.near]))
      ensures selectedSegs == Blink(old(selectedSegs), SegsIn([c.far, c.near]))
      ensures selectedParts == Blink(old(selectedParts), PartsIn([c.far, c.near]))
      ensures Lit(c.near, false) && Lit(c.far, false)
      ensures forall pt :: pt in u.parts ==> pt.selected == old(pt.selected) || !pt.selected
      ensures forall f :: f in FpsOf(u) ==> f.selected == old(f.selected) || !f.selected
      ensures forall p :: p in u.pads ==> p.selected == old(p.selected) || !p.selected
      ensures forall s :: s in u.segs ==> s.selected == old(s.selected) || !s.selected
    {
      Show(c);
      Hide(c);
    }

    /** One comparison of the check, after the reports `prior`: a report when the oracle finds the overlap. */
    method Weigh(c: Check, overlaps: (Item, real, Item, real) -> bool, gap: real, ghost u: Scope, ghost prior: seq<Check>)
      returns (found: seq<Check>)
      requires InScope(u, c.near) && InScope(u, c.far) && Dark(u, prior)
      modifies this`selectedPads, this`selectedSegs, this`selectedParts
      modifies u.parts`selected, FpsOf(u)`selected, u.pads`selected, u.segs`selected
      ensures found == Hits([c], overlaps, gap)
      ensures Kept(old(selectedPads), old(selectedSegs), old(selectedParts))
      ensures Dark(u, prior + found)
    {
      found := [];
      if overlaps(c.near, gap, c.far, 0.0) {
        FpsWithin(u, c.near);
        FpsWithin(u, c.far);
        Flash(c, u);
        forall e | e in prior ensures Lit(e.near, false) && Lit(e.far, false) {
          FpsWithin(u, e.near);
          FpsWithin(u, e.far);
        }
        BlinkKeeps(old(selectedPads), PadsIn([c.far, c.near]));
        BlinkKeeps(old(selectedSegs), SegsIn([c.far, c.near]));
        BlinkKeeps(old(selectedParts), PartsIn([c.far, c.near]));
        found := [c];
      }
    }

    /** `near` against each of `fars` in turn, with a report for each overlap. */
    method Compare(near: Item, fars: seq<Item>, overlaps: (Item, real, Item, real) -> bool, gap: real, ghost u: Scope, ghost prior: seq<Check>)
      returns (found: seq<Check>)
      requires InScope(u, near) && (forall x :: x in fars ==> InScope(u, x)) && Dark(u, prior)
      modifies this`selectedPads, this`selectedSegs, this`selectedParts
      modifies u.parts`selected, FpsOf(u)`selected, u.pads`selected, u.segs`selected
      ensures found == Hits(Each(near, fars), overlaps, gap)
      ensures Kept(old(selectedPads), old(selectedSegs), old(selectedParts))
      ensures Dark(u, prior + found)
    {
      found := [];
      for k := 0 to |fars|
        invariant Hits(Each(near, fars), overlaps, gap) == found + Hits(Each(near, fars[k..]), overlaps, gap)
        invariant Kept(old(selectedPads), old(selectedSegs), old(selectedParts))
        invariant Dark(u, prior + found)
      {
        assert fars[k] in fars;
        var f := Weigh(Check(near, fars[k]), overlaps, gap, u, prior + found);
        assert Hits(Each(near, fars), overlaps, gap) == (found + f) + Hits(Each(near, fars[k + 1..]), overlaps, gap) by {
          EachStep(near, fars, k, overlaps, gap);
          Regroup(found, f, Hits(Each(near, fars[k + 1..]), overlaps, gap));
        }
        assert Dark(u, prior + (found + f)) by {
          Regroup(prior, found, f);
        }
        found := found + f;
      }
    }

    /** One pad of a net against a segment: `continue` when the pad is hidden, else one comparison. */
    method Glimpse(near: Item, p: Pad, overlaps: (Item, real, Item, real) -> bool, gap: real, ghost u: Scope, ghost prior: seq<Check>)
      returns (found: seq<Check>)
      requires InScope(u, near) && p in u.pads && Dark(u, prior)
      modifies this`selectedPads, this`selectedSegs, this`selectedParts
      modifies u.parts`selected, FpsOf(u)`selected, u.pads`selected, u.segs`selected
      ensures found == (if p.visible then Hits([Check(near, PadItem(p))], overlaps, gap) else [])
      ensures Kept(old(selectedPads), old(selectedSegs), old(selectedParts))
      ensures Dark(u, prior + found)
    {
      found := [];
      if p.visible {
        found := Weigh(Check(near, PadItem(p)), overlaps, gap, u, prior);
      } else {
        assert prior + found == prior;
      }
    }

    /** A segment against the pads of a net, skipping the invisible ones. */
    method CompareShown(near: Item, pads: seq<Pad>, overlaps: (Item, real, Item, real) -> bool, gap: real, ghost u: Scope, ghost prior: seq<Check>)
      returns (found: seq<Check>)
      requires InScope(u, near) && (forall p :: p in pads ==> p in u.pads) && Dark(u, prior)
      modifies this`selectedPads, this`selectedSegs, this`selectedParts
      modifies u.parts`selected, FpsOf(u)`selected, u.pads`selected, u.segs`selected
      ensures found == Hits(Each(near, PadItems(old(Visible(pads)))), overlaps, gap)
      ensures Kept(old(selectedPads), old(selectedSegs), old(selectedParts))
      ensures Dark(u, prior + found)
    {
      ghost var vis := Views(pads);
      VisibleShown(pads);
      found := [];
      for k := 0 to |pads|
        invariant Hits(Each(near, PadItems(ShownBy(pads, vis))), overlaps, gap) == found + Hits(Each(near, PadItems(ShownBy(pads[k..], vis[k..]))), overlaps, gap)
        invariant Kept(old(selectedPads), old(selectedSegs), old(selectedParts))
        invariant Dark(u, prior + found)
      {
        ghost var rest := Hits(Each(near, PadItems(ShownBy(pads[k + 1..], vis[k + 1..]))), overlaps, gap);
        ShownStep(near, pads, vis, k, overlaps, gap);
        assert vis[k] == pads[k].visible;
        var f := Glimpse(near, pads[k], overlaps, gap, u, prior + found);
        Regroup(found, f, rest);
        Regroup(prior, found, f);
        found := found + f;
      }
    }

    /** The loop over `n.getPads()` against `near`: it skips the hidden pads only when `near` is a segment. */
    method ComparePads(near: Item, n: Net, overlaps: (Item, real, Item, real) -> bool, gap: real, ghost u: Scope, ghost prior: seq<Check>)
      returns (found: seq<Check>)
      requires InScope(u, near) && Dark(u, prior)
      requires forall p :: p in n.graph.adj.keys ==> p in u.pads
      modifies this`selectedPads, this`selectedSegs, this`selectedParts
      modifies u.parts`selected, FpsOf(u)`selected, u.pads`selected, u.segs`selected
      ensures found == Hits(Each(near, PadItems(if near.SegItem? then old(LayerOf(n)).shown else old(LayerOf(n)).pads)), overlaps, gap)
      ensures Kept(old(selectedPads), old(selectedSegs), old(selectedParts))
      ensures Dark(u, prior + found)
    {
      var pads := n.GetPads();
      if near.SegItem? {
        found := CompareShown(near, pads, overlaps, gap, u, prior);
      } else {
        PadsScope(u, pads);
        found := Compare(near, PadItems(pads), overlaps, gap, u, prior);
      }
    }

    /**
     * `near`, of an earlier net, against net `n`: its pads, then the loop
     * over `n.getSegments()`.
     */
    method CompareNet(near: Item, n: Net, overlaps: (Item, real, Item, real) -> bool, gap: real, ghost u: Scope, ghost prior: seq<Check>)
      returns (found: seq<Check>)
      requires InScope(u, near) && Dark(u, prior)
      requires (forall p :: p in n.graph.adj.keys ==> p in u.pads) && (forall s :: s in n.segs ==> s in u.segs)
      modifies this`selectedPads, this`selectedSegs, this`selectedParts
      modifies u.parts`selected, FpsOf(u)`selected, u.pads`selected, u.segs`selected
      ensures found == Hits(Each(near, Opposite(near, old(LayerOf(n)))), overlaps, gap)
      ensures Kept(old(selectedPads), old(selectedSegs), old(selectedParts))
      ensures Dark(u, prior + found)
    {
      ghost var l := LayerOf(n);
      var f := ComparePads(near, n, overlaps, gap, u, prior);
      var segs := n.GetSegments();
      assert segs == l.segs;
      SegsScope(u, segs);
      var g := Compare(near, SegItems(segs), overlaps, gap, u, prior + f);
      EachAppend(near, PadItems(if near.SegItem? then l.shown else l.pads), SegItems(l.segs));
      HitsAppend(Each(near, PadItems(if near.SegItem? then l.shown else l.pads)), Each(near, SegItems(l.segs)), overlaps, gap);
      Regroup(prior, f, g);
      found := f + g;
    }

    /** `near` against `later[j]`, where `later` is the nets from `i` on: they stay consistent and look the same afterwards. */
    method CompareAt(near: Item, later: seq<Net>, j: nat, overlaps: (Item, real, Item, real) -> bool, gap: real,
                     ghost ns: seq<Net>, ghost i: nat, ghost ls: seq<Layer>, ghost u: Scope, ghost prior: seq<Check>)
      returns (found: seq<Check>)
      requires i <= |ns| && later == ns[i..] && j < |later| && Fixed(ns, ls) && Spans(u, ls)
      requires InScope(u, near) && Dark(u, prior)
      modifies this`selectedPads, this`selectedSegs, this`selectedParts
      modifies u.parts`selected, FpsOf(u)`selected, u.pads`selected, u.segs`selected
      ensures found == Hits(Each(near, Opposite(near, ls[i + j])), overlaps, gap)
      ensures Fixed(ns, ls)
      ensures Kept(old(selectedPads), old(selectedSegs), old(selectedParts))
      ensures Dark(u, prior + found)
    {
      LayerScope(u, ls, i + j);
      assert later[j] == ns[i + j];
      found := CompareNet(near, later[j], overlaps, gap, u, prior);
    }

    /** `near`, of net `i - 1`, against each later net in turn: the loop `for (Net net : currNets)`. */
    method CompareLater(near: Item, later: seq<Net>, overlaps: (Item, real, Item, real) -> bool, gap: real,
                        ghost ns: seq<Net>, ghost i: nat, ghost ls: seq<Layer>, ghost u: Scope, ghost prior: seq<Check>)
      returns (found: seq<Check>)
      requires i <= |ns| && later == ns[i..] && Fixed(ns, ls) && Spans(u, ls)
      requires InScope(u, near) && Dark(u, prior)
      modifies this`selectedPads, this`selectedSegs, this`selectedParts
      modifies u.parts`selected, FpsOf(u)`selected, u.pads`selected, u.segs`selected
      ensures found == Hits(Toward(near, ls[i..]), overlaps, gap)
      ensures Fixed(ns, ls)
      ensures Kept(old(selectedPads), old(selectedSegs), old(selectedParts))
      ensures Dark(u, prior + found)
    {
      ghost var rest := ls[i..];
      found := [];
      for j := 0 to |later|
        invariant Hits(Toward(near, rest), overlaps, gap) == found + Hits(Toward(near, rest[j..]), overlaps, gap)
        invariant Fixed(ns, ls)
        invariant Kept(old(selectedPads), old(selectedSegs), old(selectedParts))
        invariant Dark(u, prior + found)
      {
        TowardStep(near, rest, j, overlaps, gap);
        var f := CompareAt(near, later, j, overlaps, gap, ns, i, ls, u, prior + found);
        assert rest[j] == ls[i + j];
        Regroup(found, f, Hits(Toward(near, rest[j + 1..]), overlaps, gap));
        Regroup(prior, found, f);
        found := found + f;
      }
    }

    /** The loop over `currSegments`, the segments `ss` of net `i - 1`: each one against the later nets. */
    method SegLoop(ss: seq<Segment>, later: seq<Net>, overlaps: (Item, real, Item, real) -> bool, gap: real,
                   ghost ns: seq<Net>, ghost i: nat, ghost ls: seq<Layer>, ghost u: Scope, ghost prior: seq<Check>)
      returns (found: seq<Check>)
      requires i <= |ns| && later == ns[i..] && Fixed(ns, ls) && Spans(u, ls)
      requires (forall s :: s in ss ==> s in u.segs) && Dark(u, prior)
      modifies this`selectedPads, this`selectedSegs, this`selectedParts
      modifies u.parts`selected, FpsOf(u)`selected, u.pads`selected, u.segs`selected
      ensures found == Hits(FromSegs(ss, ls[i..]), overlaps, gap)
      ensures Fixed(ns, ls)
      ensures Kept(old(selectedPads), old(selectedSegs), old(selectedParts))
      ensures Dark(u, prior + found)
    {
      ghost var rest := ls[i..];
      var currSegments := ss;
      ghost var k := 0;
      found := [];
      while currSegments != []
        invariant k <= |ss| && currSegments == ss[k..]
        invariant Hits(FromSegs(ss, rest), overlaps, gap) == found + Hits(FromSegs(ss[k..], rest), overlaps, gap)
        invariant Fixed(ns, ls)
        invariant Kept(old(selectedPads), old(selectedSegs), old(selectedParts))
        invariant Dark(u, prior + found)
        decreases |currSegments|
      {
        var currSeg := currSegments[0];
        currSegments := currSegments[1..];
        FromSegsStep(ss, rest, k, overlaps, gap);
        assert currSeg == ss[k] && currSegments == ss[k + 1..];
        var f := CompareLater(SegItem(currSeg), later, overlaps, gap, ns, i, ls, u, prior + found);
        Regroup(found, f, Hits(FromSegs(ss[k + 1..], rest), overlaps, gap));
        Regroup(prior, found, f);
        found := found + f;
        k := k + 1;
      }
    }

    /** One pad of the pad loop: a hidden pad is skipped, a visible one compared with the later nets. */
    method ComparePad(p: Pad, ghost shown: bool, later: seq<Net>, overlaps: (Item, real, Item, real) -> bool, gap: real,
                      ghost ns: seq<Net>, ghost i: nat, ghost ls: seq<Layer>, ghost u: Scope, ghost prior: seq<Check>)
      returns (found: seq<Check>)
      requires shown == p.visible
      requires i <= |ns| && later == ns[i..] && Fixed(ns, ls) && Spans(u, ls)
      requires p in u.pads && Dark(u, prior)
      modifies this`selectedPads, this`selectedSegs, this`selectedParts
      modifies u.parts`selected, FpsOf(u)`selected, u.pads`selected, u.segs`selected
      ensures found == if shown then Hits(Toward(PadItem(p), ls[i..]), overlaps, gap) else []
      ensures Fixed(ns, ls)
      ensures Kept(old(selectedPads), old(selectedSegs), old(selectedParts))
      ensures Dark(u, prior + found)
    {
      if !p.visible {
        found := [];
        assert prior + found == prior;
        return;
      }
      found := CompareLater(PadItem(p), later, overlaps, gap, ns, i, ls, u, prior);
    }

    /** The loop over `currPads`, the pads `ps` of net `i - 1`: each visible one against the later nets. */
    method PadLoop(ps: seq<Pad>, later: seq<Net>, overlaps: (Item, real, Item, real) -> bool, gap: real,
                   ghost ns: seq<Net>, ghost i: nat, ghost ls: seq<Layer>, ghost u: Scope, ghost prior: seq<Check>)
      returns (found: seq<Check>)
      requires i <= |ns| && later == ns[i..] && Fixed(ns, ls) && Spans(u, ls)
      requires (forall p :: p in ps ==> p in u.pads) && Dark(u, prior)
      modifies this`selectedPads, this`selectedSegs, this`selectedParts
      modifies u.parts`selected, FpsOf(u)`selected, u.pads`selected, u.segs`selected
      ensures found == Hits(FromPads(old(Visible(ps)), ls[i..]), overlaps, gap)
      ensures Fixed(ns, ls)
      ensures Kept(old(selectedPads), old(selectedSegs), old(selectedParts))
      ensures Dark(u, prior + found)
    {
      ghost var rest := ls[i..];
      ghost var vis := Views(ps);
      VisibleShown(ps);
      PadHitsFlat(ps, vis, rest, overlaps, gap);
      var currPads := ps;
      ghost var k := 0;
      found := [];
      while currPads != []
        invariant k <= |ps| && currPads == ps[k..] && |vis| == |ps|
        invariant forall j :: 0 <= j < |ps| ==> ps[j].visible == vis[j]
        invariant PadHits(ps, vis, rest, overlaps, gap) == found + PadHits(ps[k..], vis[k..], rest, overlaps, gap)
        invariant Fixed(ns, ls)
        invariant Kept(old(selectedPads), old(selectedSegs), old(selectedParts))
        invariant Dark(u, prior + found)
        decreases |currPads|
      {
        var currPad := currPads[0];
        currPads := currPads[1..];
        assert currPad == ps[k] && ps[k] in ps && currPads == ps[k + 1..] && vis[k] == currPad.visible;
        var f := ComparePad(currPad, vis[k], later, overlaps, gap, ns, i, ls, u, prior + found);
        PadHitsStep(ps, vis, rest, k, overlaps, gap);
        Regroup(found, f, PadHits(ps[k + 1..], vis[k + 1..], rest, overlaps, gap));
        Regroup(prior, found, f);
        found := found + f;
        k := k + 1;
      }
    }

    /** One net of the net loop: its segments, then its visible pads, against the nets after it. */
    method NetAt(currNet: Net, later: seq<Net>, overlaps: (Item, real, Item, real) -> bool, gap: real,
                 ghost ns: seq<Net>, ghost i: nat, ghost ls: seq<Layer>, ghost u: Scope, ghost prior: seq<Check>)
      returns (found: seq<Check>)
      requires i < |ns| && currNet == ns[i] && later == ns[i + 1..] && Fixed(ns, ls) && Spans(u, ls) && Dark(u, prior)
      modifies this`selectedPads, this`selectedSegs, this`selectedParts
      modifies u.parts`selected, FpsOf(u)`selected, u.pads`selected, u.segs`selected
      ensures found == Hits(FromSegs(ls[i].segs, ls[i + 1..]), overlaps, gap) + Hits(FromPads(ls[i].shown, ls[i + 1..]), overlaps, gap)
      ensures Fixed(ns, ls)
      ensures Kept(old(selectedPads), old(selectedSegs), old(selectedParts))
      ensures Dark(u, prior + found)
    {
      var currPads := currNet.GetPads();
      var currSegments := currNet.GetSegments();
      ghost var l := ls[i];
      assert l.segs == currSegments && l.pads == currPads && l.shown == Visible(currPads) by {
        assert LayerOf(ns[i]) == ls[i];
      }
      LayerScope(u, ls, i);
      var f1 := SegLoop(currSegments, later, overlaps, gap, ns, i + 1, ls, u, prior);
      var f2 := PadLoop(currPads, later, overlaps, gap, ns, i + 1, ls, u, prior + f1);
      Regroup(prior, f1, f2);
      found := f1 + f2;
    }

    /** The net loop of the check: each net against the nets after it, first to last. */
    method NetLoop(ns: seq<Net>, overlaps: (Item, real, Item, real) -> bool, gap: real, ghost ls: seq<Layer>, ghost u: Scope, ghost prior: seq<Check>)
      returns (found: seq<Check>)
      requires Fixed(ns, ls) && Spans(u, ls) && Dark(u, prior)
      modifies this`selectedPads, this`selectedSegs, this`selectedParts
      modifies u.parts`selected, FpsOf(u)`selected, u.pads`selected, u.segs`selected
      ensures found == Hits(NetChecks(ls), overlaps, gap)
      ensures Fixed(ns, ls)
      ensures Kept(old(selectedPads), old(selectedSegs), old(selectedParts))
      ensures Dark(u, prior + found)
    {
      var currNets := ns;
      ghost var i := 0;
      found := [];
      assert ls[0..] == ls;
      while currNets != []
        invariant i <= |ns| && currNets == ns[i..]
        invariant Hits(NetChecks(ls), overlaps, gap) == found + Hits(NetChecks(ls[i..]), overlaps, gap)
        invariant Fixed(ns, ls)
        invariant Kept(old(selectedPads), old(selectedSegs), old(selectedParts))
        invariant Dark(u, prior + found)
        decreases |currNets|
      {
        var currNet := currNets[0];
        currNets := currNets[1..];
        assert currNet == ns[i] && currNets == ns[i + 1..];
        var f := NetAt(currNet, currNets, overlaps, gap, ns, i, ls, u, prior + found);
        ghost var next := Hits(NetChecks(ls[i + 1..]), overlaps, gap);
        assert Hits(NetChecks(ls), overlaps, gap) == (found + f) + next by {
          NetChecksStep(ls, i, overlaps, gap);
          Regroup(found, f, next);
        }
        assert Dark(u, prior + (found + f)) by {
          Regroup(prior, found, f);
        }
        found := found + f;
        i := i + 1;
      }
      assert ls[i..] == [];
      assert found + Hits(NetChecks(ls[i..]), overlaps, gap) == found;
    }

    /** The part loop of the check: each part against the parts after it, first to last. */
    method PartLoop(overlaps: (Item, real, Item, real) -> bool, gap: real, ghost u: Scope, ghost prior: seq<Check>)
      returns (found: seq<Check>)
      requires (forall pt :: pt in parts ==> InScope(u, PartItem(pt))) && Dark(u, prior)
      modifies this`selectedPads, this`selectedSegs, this`selectedParts
      modifies u.parts`selected, FpsOf(u)`selected, u.pads`selected, u.segs`selected
      ensures found == Hits(PartChecks(parts), overlaps, gap)
      ensures Kept(old(selectedPads), old(selectedSegs), old(selectedParts))
      ensures Dark(u, prior + found)
    {
      ghost var ps := parts;
      var currParts := parts;
      ghost var i := 0;
      found := [];
      assert ps[0..] == ps;
      while currParts != []
        invariant i <= |ps| && currParts == ps[i..] && ps == parts
        invariant Hits(PartChecks(ps), overlaps, gap) == found + Hits(PartChecks(ps[i..]), overlaps, gap)
        invariant Kept(old(selectedPads), old(selectedSegs), old(selectedParts))
        invariant Dark(u, prior + found)
        decreases |currParts|
      {
        var currPart := currParts[0];
        currParts := currParts[1..];
        assert currPart == ps[i] && currParts == ps[i + 1..] && ps[i] in ps;
        assert forall pt :: pt in currParts ==> pt in ps;
        PartsScope(u, currParts);
        var f := Compare(PartItem(currPart), PartItems(currParts), overlaps, gap, u, prior + found);
        PartChecksStep(ps, i, overlaps, gap);
        Regroup(found, f, Hits(PartChecks(ps[i + 1..]), overlaps, gap));
        Regroup(prior, found, f);
        found := found + f;
        i := i + 1;
      }
      assert ps[i..] == [];
      assert found + Hits(PartChecks(ps[i..]), overlaps, gap) == found;
    }

    /** The two loops of the check: the parts pairwise, then the nets pairwise. */
    method CheckAll(overlaps: (Item, real, Item, real) -> bool, gap: real, ghost ls: seq<Layer>, ghost u: Scope)
      returns (reports: seq<Check>)
      requires (forall pt :: pt in parts ==> InScope(u, PartItem(pt))) && Fixed(nets, ls) && Spans(u, ls)
      modifies this`selectedPads, this`selectedSegs, this`selectedParts
      modifies u.parts`selected, FpsOf(u)`selected, u.pads`selected, u.segs`selected
      ensures reports == Hits(Checks(parts, ls), overlaps, gap)
      ensures Kept(old(selectedPads), old(selectedSegs), old(selectedParts))
      ensures Dark(u, reports)
    {
      assert Dark(u, []);
      var ns := nets;
      var f1 := PartLoop(overlaps, gap, u, []);
      assert Fixed(ns, ls);
      var f2 := NetLoop(ns, overlaps, gap, ls, u, f1);
      reports := f1 + f2;
      HitsAppend(PartChecks(parts), NetChecks(ls), overlaps, gap);
    }

    /** The clearance the check pads the near outline by, `compSpacing * 50` in drawing units. */
    function Gap(): real
      reads this
    {
      compSpacing * UNITS
    }

    /** Every object whose flag the check may set: the parts, their footprints' pads, the nets' pads and segments. */
    function Checked(): Scope
      reads this, Tables(nets)`keys, set n | n in nets
    {
      Scope((set pt | pt in parts), Keyed(nets) + PartPads(parts), Segs(nets))
    }

    /** The check's flags reach every part and every pad and segment the nets record. */
    lemma CheckedCovers()
      ensures forall pt :: pt in parts ==> InScope(Checked(), PartItem(pt))
      ensures Spans(Checked(), Layers(nets))
    {
      var u, ls := Checked(), Layers(nets);
      forall k | 0 <= k < |ls| ensures (forall p :: p in ls[k].pads ==> p in u.pads) && (forall s :: s in ls[k].segs ==> s in u.segs) {
        assert nets[k] in nets;
      }
    }

    /**
     * `runDesignRuleCheck()`: the parts pairwise, then the nets pairwise, with
     * `overlaps` standing for the outline test. Every clash is reported and
     * flashed; `clean` is set when there was none.
     */
    method RunDesignRuleCheck(overlaps: (Item, real, Item, real) -> bool) returns (reports: seq<Check>, clean: bool)
      modifies this`selectedPads, this`selectedSegs, this`selectedParts
      modifies (set pt | pt in parts)`selected, Footprints(parts)`selected, (Keyed(nets) + PartPads(parts))`selected, Segs(nets)`selected
      ensures reports == Hits(Checks(parts, old(Layers(nets))), overlaps, Gap())
      ensures clean <==> reports == []
      ensures clean <==> forall c :: c in Checks(parts, old(Layers(nets))) ==> !Clash(c, overlaps, Gap())
      ensures Kept(old(selectedPads), old(selectedSegs), old(selectedParts))
      ensures Dark(old(Checked()), reports)
    {
      var gap := Gap();
      ghost var u := Checked();
      ghost var ls := Layers(nets);
      CheckedCovers();
      reports := CheckAll(overlaps, gap, ls, u);
      assert compSpacing == old(compSpacing) && parts == old(parts);
      assert gap == Gap();
      NoHits(Checks(parts, ls), overlaps, gap);
      clean := reports == [];
    }
  }
}
