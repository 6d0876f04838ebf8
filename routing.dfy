/**
 * The route press of src/pcbEditor/DesignArea.java without a head: the
 * record a press takes of the board, what each net's turn does to it
 * (`Asked`) and to the whole press (`Routed`), and how the board spells it
 * (`Mirror`).
 */
module Routing {
  import opened Wrappers
  import opened Geometry
  import opened GraphSpec
  import opened Graphs
  import opened NetSpec
  import opened Pcb
  import opened Board
  import opened Lists

  /** A net reference that is null or one of `nets`. */
  predicate Among(n: Option<Net>, nets: seq<Net>) {
    n.None? || n.value in nets
  }

  /** No net is listed twice. */
  predicate Unique(ns: seq<Net>) {
    forall i, j :: 0 <= i < j < |ns| ==> ns[i] != ns[j]
  }

  /** A list of nets without repeats. */
  type NetList = ns: seq<Net> | Unique(ns) witness []

  /** The pads that are vertices of the nets of `nets`. */
  function Keyed(nets: seq<Net>): set<Pad>
    reads Tables(nets)`keys
  {
    set n, p | n in nets && p in n.graph.adj.keys :: p
  }

  /**
   * The pad a route press at `q` starts from among the vertices `keys` of
   * a net: the first, in insertion order, whose ring holds `q`.
   */
  function Under(keys: seq<Pad>, q: Point): (r: Option<Pad>)
    reads (set p | p in keys)`ring
    ensures r.Some? ==> r.value in keys && r.value.Contains(q)
    ensures r.None? <==> forall p :: p in keys ==> !p.Contains(q)
  {
    match FirstPad(keys, q)
    case None => None
    case Some(k) => Some(keys[k])
  }

  /** The position of the first of `keys` whose ring on record in `pr` holds `q`. */
  function FirstIn(keys: seq<Pad>, pr: map<Pad, Ellipse>, q: Point): (r: Option<nat>)
    ensures r.Some? ==> r.value < |keys| && keys[r.value] in pr && InEllipse(pr[keys[r.value]], q)
  {
    if keys == [] then None
    else if keys[0] in pr && InEllipse(pr[keys[0]], q) then Some(0)
    else match FirstIn(keys[1..], pr, q)
      case None => None
      case Some(k) => Some(k + 1)
  }

  /** `Under` over the rings on record in `pr` instead of the live rings. */
  function UnderIn(keys: seq<Pad>, pr: map<Pad, Ellipse>, q: Point): Option<Pad> {
    match FirstIn(keys, pr, q)
    case None => None
    case Some(k) => Some(keys[k])
  }

  /** While every pad of `keys` still has the ring on record, the search over the record finds what the live search finds. */
  lemma {:induction false} FirstPadSnap(keys: seq<Pad>, pr: map<Pad, Ellipse>, q: Point)
    requires forall p :: p in keys ==> p in pr && p.ring == pr[p]
    ensures FirstPad(keys, q) == FirstIn(keys, pr, q)
    decreases |keys|
  {
    if keys != [] {
      FirstPadSnap(keys[1..], pr, q);
    }
  }

  /** `Under` and `UnderIn` agree while the rings on record are the live ones. */
  lemma UnderSnap(keys: seq<Pad>, pr: map<Pad, Ellipse>, q: Point)
    requires forall p :: p in keys ==> p in pr && p.ring == pr[p]
    ensures Under(keys, q) == UnderIn(keys, pr, q)
  {
    FirstPadSnap(keys, pr, q);
  }

  /** `w1` is `w0` with one more segment, from `a`, whose two pads are connected as `addSegment` connects them. */
  predicate Extended(w0: Wiring, w1: Wiring, a: Pad) {
    && WellFormed(w0.g)
    && |w1.segs| == |w0.segs| + 1 && w1.segs[..|w0.segs|] == w0.segs
    && w1.segs[|w0.segs|].p0 == a
    && w1.g == Connect(w0.g, a, w1.segs[|w0.segs|].p1)
  }

  /**
   * What a route press without a head leaves of the wiring `w0` of the
   * net `self`, given the pad `u` it offered and that pad's net `owner`:
   * one more segment, from the pad, exactly when the pad is the net's own.
   */
  ghost predicate Started(w0: Wiring, w1: Wiring, u: Option<Pad>, owner: Option<Net>, self: Net) {
    if u.Some? && owner == Some(self) then Extended(w0, w1, u.value) else w1 == w0
  }

  /** The pad on offer, as a set of at most one. */
  function Offered(u: Option<Pad>): set<Pad> {
    if u.Some? then {u.value} else {}
  }

  /** The cursor fields of the area: `prevPad`, `currPad` and `isPadAttached`. */
  type Cursor = (Option<Pad>, Option<Pad>, bool)

  /**
   * What a route press at `q` reads before it asks the first net: the
   * wirings `w0`, the selected flags `sel` of the nets, the net (`pn`) and
   * the ring (`pr`) of every pad some net holds, and the cursor `head0`.
   */
  datatype Press = Press(q: Point, w0: map<Net, Wiring>, sel: map<Net, bool>, pn: map<Pad, Option<Net>>, pr: map<Pad, Ellipse>, head0: Cursor)

  /** Every pad of a net on record has its net and its ring on record. */
  predicate Covered(b: Press) {
    && b.pr.Keys == b.pn.Keys
    && forall n, p :: n in b.w0 && p in b.w0[n].g.keys ==> p in b.pr
  }

  /**
   * The pad the net `n` offers a route press: `contains(q)` and then
   * `getUnderlyingComponent(q)` name the first pad of the net whose ring
   * holds the point, when there is one.
   */
  function Offer(b: Press, n: Net): (r: Option<Pad>)
    ensures r.Some? ==> r.value in b.pr
  {
    if n in b.w0 then UnderIn(b.w0[n].g.keys, b.pr, b.q) else None
  }

  /** What one turn of a route press made: the head cloned from the pad on offer, and the segment its net added. */
  datatype Made = Made(head: Option<Pad>, seg: Option<Segment>)

  /**
   * Where a route press stands: its outcome, the wirings, the selected
   * flags of the nets, the net of each pad on record, the cursor, and the
   * net the newest head was put in.
   */
  datatype Route = Route(o: Outcome<()>, w: map<Net, Wiring>, sel: map<Net, bool>, pn: map<Pad, Option<Net>>, cur: Cursor, hc: Option<Net>)

  /** The wirings after `n.addSegment(pad, c)` added the segment `s`: `n`'s graph connects the two pads and `s` is appended. */
  function Joined(w: map<Net, Wiring>, n: Net, pad: Pad, c: Pad, s: Segment): map<Net, Wiring> {
    if n in w && WellFormed(w[n].g) then w[n := Wiring(Connect(w[n].g, pad, c), w[n].segs + [s])] else w
  }

  /**
   * The turn of the `j`th net `n` in a route press, which made `m`: when
   * `n` offers a pad, the pad is cloned into a head and the cursor hangs
   * the head from the pad. A pad without a net joins `n` and the press
   * throws before the cursor is attached; otherwise `n` is selected, and
   * when the pad is `n`'s own, `n` gets a segment from the pad to the head.
   */
  function Asked(b: Press, r: Route, j: nat, n: Net, m: Made): Route {
    match Offer(b, n)
    case None => r
    case Some(pad) =>
      if m.head.None? then r
      else if pad !in r.pn || r.pn[pad].None? then
        r.(o := Throw(NullPointer), pn := r.pn[pad := Some(n)], cur := (Some(pad), m.head, r.cur.2), hc := Some(n))
      else
        r.(w := if r.pn[pad] == Some(n) && m.seg.Some? then Joined(r.w, n, pad, m.head.value, m.seg.value) else r.w,
           sel := r.sel[n := true],
           cur := (Some(pad), m.head, true), hc := Some(n))
  }

  /** A route press from `b` after the turns of the first `|made|` nets of `nets`; a throw ends it. */
  function Routed(b: Press, nets: seq<Net>, made: seq<Made>): Route
    requires |made| <= |nets|
    decreases |made|
  {
    if made == [] then Route(Return(()), b.w0, b.sel, b.pn, b.head0, None)
    else
      var k := |made| - 1;
      var r := Routed(b, nets, made[..k]);
      if r.o.Throw? then r else Asked(b, r, k, nets[k], made[k])
  }

  /** One more turn of `Routed`. */
  lemma RoutedSnoc(b: Press, nets: seq<Net>, made: seq<Made>, m: Made)
    requires |made| < |nets|
    ensures Routed(b, nets, made + [m]) ==
      var r := Routed(b, nets, made); if r.o.Throw? then r else Asked(b, r, |made|, nets[|made|], m)
  {
    assert (made + [m])[..|made|] == made;
  }

  /**
   * Every turn that was offered a pad made a head, and the segment it made,
   * which it made when the pad was its net's own, runs from the pad to the head.
   */
  predicate Sound(b: Press, nets: seq<Net>, made: seq<Made>) {
    forall j :: 0 <= j < |made| && j < |nets| && Offer(b, nets[j]).Some? ==>
      var pad := Offer(b, nets[j]).value;
      && made[j].head.Some?
      && (pad in b.pn && b.pn[pad] == Some(nets[j]) ==> made[j].seg.Some?)
      && (made[j].seg.Some? ==> made[j].seg.value.p0 == pad && made[j].seg.value.p1 == made[j].head.value)
  }

  /** The nets not asked yet keep the wiring on record, and before a throw every pad keeps its net. */
  lemma {:induction false} RoutedLater(b: Press, nets: NetList, made: seq<Made>)
    requires |made| <= |nets|
    ensures forall j :: |made| <= j < |nets| && nets[j] in b.w0 ==> nets[j] in Routed(b, nets, made).w && Routed(b, nets, made).w[nets[j]] == b.w0[nets[j]]
    ensures Routed(b, nets, made).o.Return? ==> Routed(b, nets, made).pn == b.pn
    ensures Routed(b, nets, made).w.Keys == b.w0.Keys && b.pn.Keys <= Routed(b, nets, made).pn.Keys <= b.pn.Keys + b.pr.Keys
    ensures forall p :: p in Routed(b, nets, made).pn ==> (p in b.pn && Routed(b, nets, made).pn[p] == b.pn[p]) || Among(Routed(b, nets, made).pn[p], nets)
    ensures Routed(b, nets, made).hc.None? ==> Routed(b, nets, made).cur == b.head0
    ensures Routed(b, nets, made).hc.Some? ==> Routed(b, nets, made).hc.value in nets
    decreases |made|
  {
    if made != [] {
      var k := |made| - 1;
      RoutedLater(b, nets, made[..k]);
      forall j | |made| <= j < |nets| && nets[j] in b.w0
        ensures nets[j] in Routed(b, nets, made).w && Routed(b, nets, made).w[nets[j]] == b.w0[nets[j]]
      {
        assert nets[j] != nets[k];
      }
    }
  }

  /**
   * The board spells the route press `r` from `b`: the wirings and the
   * selected flags are `r`'s, every pad on record has the net `r` gives it
   * and the ring `b` gives it, and a head made is invisible, centred on the
   * pad it hangs from, and in the net `r` names.
   */
  ghost predicate Mirror(nets: seq<Net>, b: Press, r: Route)
    reads (set n | n in nets)`segs, (set n | n in nets)`selected
    reads (set n | n in nets :: n.graph)`lists, (set n | n in nets :: n.graph)`edges, (set n | n in nets :: n.graph.adj)`keys
    reads r.pn.Keys`net, b.pr.Keys`ring, Offered(r.cur.0)`ring, Offered(r.cur.1)`visible, Offered(r.cur.1)`ring, Offered(r.cur.1)`net
  {
    && (Wirings(nets), Flags(nets)) == (r.w, r.sel)
    && (forall p :: p in r.pn ==> p.net == r.pn[p])
    && (forall p :: p in b.pr ==> p.ring == b.pr[p])
    && Hung(r)
  }

  /** `Mirror` is read from the nets, their graphs and tables, the pads on record and the cursor's pads only. */
  twostate lemma MirrorStay(nets: seq<Net>, new b: Press, new r: Route)
    requires old(allocated(b)) && old(allocated(r))
    requires unchanged(set n | n in nets) && unchanged(NetGraphs(nets)) && unchanged(Tables(nets))
    requires unchanged(r.pn.Keys) && unchanged(b.pr.Keys) && unchanged(Offered(r.cur.0)) && unchanged(Offered(r.cur.1))
    ensures Mirror(nets, b, r) == old(Mirror(nets, b, r))
  {
  }

  /** Once a head is made, it hangs from a pad: invisible, centred on the pad, and in the net `r` names. */
  predicate Hung(r: Route)
    reads Offered(r.cur.0)`ring, Offered(r.cur.1)`visible, Offered(r.cur.1)`ring, Offered(r.cur.1)`net
  {
    r.hc.Some? ==>
      && r.cur.0.Some? && r.cur.1.Some? && !r.cur.1.value.visible
      && r.cur.1.value.Center() == r.cur.0.value.Center() && r.cur.1.value.net == r.hc
  }

  /**
   * After the turns `made` of a route press from `b`, the press stands
   * where `Routed` says: every turn was sound, `o` and `cur` are its
   * outcome and cursor, and the board spells it.
   */
  ghost predicate Going(nets: seq<Net>, b: Press, made: seq<Made>, o: Outcome<()>, cur: Cursor)
    requires |made| <= |nets|
    reads (set n | n in nets)`segs, (set n | n in nets)`selected
    reads (set n | n in nets :: n.graph)`lists, (set n | n in nets :: n.graph)`edges, (set n | n in nets :: n.graph.adj)`keys
    reads Routed(b, nets, made).pn.Keys`net, b.pr.Keys`ring, Offered(Routed(b, nets, made).cur.0)`ring
    reads Offered(Routed(b, nets, made).cur.1)`visible, Offered(Routed(b, nets, made).cur.1)`ring, Offered(Routed(b, nets, made).cur.1)`net
  {
    match o
    case Return(_) => Sound(b, nets, made) && (o, cur) == (Routed(b, nets, made).o, Routed(b, nets, made).cur) && Mirror(nets, b, Routed(b, nets, made))
    case Throw(_) => Sound(b, nets, made) && (o, cur) == (Routed(b, nets, made).o, Routed(b, nets, made).cur) && Mirror(nets, b, Routed(b, nets, made))
  }

  /**
   * The turn of the `i`th net, from where the press stands, `r`, made `m`
   * soundly: a head when the net offered a pad, and a segment from the pad
   * to the head exactly as `Sound` asks; `o` and `cur` are what the turn
   * leaves, and the board spells it. Callers state it as one fact,
   * `Took(...) == true`, which the verifier does not take apart.
   */
  ghost predicate Took(nets: seq<Net>, b: Press, r: Route, i: nat, m: Made, o: Outcome<()>, cur: Cursor)
    requires i < |nets|
    reads (set n | n in nets)`segs, (set n | n in nets)`selected
    reads (set n | n in nets :: n.graph)`lists, (set n | n in nets :: n.graph)`edges, (set n | n in nets :: n.graph.adj)`keys
    reads Asked(b, r, i, nets[i], m).pn.Keys`net, b.pr.Keys`ring, Offered(Asked(b, r, i, nets[i], m).cur.0)`ring
    reads Offered(Asked(b, r, i, nets[i], m).cur.1)`visible, Offered(Asked(b, r, i, nets[i], m).cur.1)`ring, Offered(Asked(b, r, i, nets[i], m).cur.1)`net
  {
    && (Offer(b, nets[i]).Some? ==>
      var pad := Offer(b, nets[i]).value;
      && m.head.Some?
      && (pad in r.pn && r.pn[pad] == Some(nets[i]) ==> m.seg.Some?)
      && (m.seg.Some? ==> m.seg.value.p0 == pad && m.seg.value.p1 == m.head.value))
    && (o, cur) == (Asked(b, r, i, nets[i], m).o, Asked(b, r, i, nets[i], m).cur)
    && Mirror(nets, b, Asked(b, r, i, nets[i], m))
  }

  /**
   * Before the turn of the `|made|`th net, the press has not thrown: it
   * stands at `r` with the cursor `cur`, and every turn so far was sound.
   */
  predicate Standing(b: Press, nets: seq<Net>, made: seq<Made>, r: Route, cur: Cursor) {
    |made| <= |nets| && Sound(b, nets, made) && r == Routed(b, nets, made) && r.o == Return(()) && cur == r.cur
  }

  /** A net that offers no pad leaves the press as it stands. */
  lemma Skipped(nets: NetList, b: Press, made: seq<Made>, cur: Cursor, r: Route)
    requires |made| < |nets| && Offer(b, nets[|made|]).None? && Standing(b, nets, made, r, cur) == true && Mirror(nets, b, r)
    ensures Going(nets, b, made + [Made(None, None)], Return(()), cur) == true
  {
    GoingSnoc(nets, b, made, Made(None, None), Return(()), cur);
  }

  /** A sound turn of the `|made|`th net before any throw keeps the press going. */
  lemma GoingSnoc(nets: NetList, b: Press, made: seq<Made>, m: Made, o: Outcome<()>, cur: Cursor)
    requires |made| < |nets| && Sound(b, nets, made) && Routed(b, nets, made).o == Return(())
    requires Took(nets, b, Routed(b, nets, made), |made|, m, o, cur) == true
    ensures Going(nets, b, made + [m], o, cur) == true
  {
    RoutedLater(b, nets, made);
    RoutedSnoc(b, nets, made, m);
    SoundSnoc(b, nets, made, m);
  }

  /** A turn that made a head when offered a pad, and a segment from the pad to the head when the pad is the net's own, keeps the press sound. */
  lemma SoundSnoc(b: Press, nets: seq<Net>, made: seq<Made>, m: Made)
    requires |made| < |nets| && Sound(b, nets, made)
    requires Offer(b, nets[|made|]).Some? ==>
      var pad := Offer(b, nets[|made|]).value;
      && m.head.Some?
      && (pad in b.pn && b.pn[pad] == Some(nets[|made|]) ==> m.seg.Some?)
      && (m.seg.Some? ==> m.seg.value.p0 == pad && m.seg.value.p1 == m.head.value)
    ensures Sound(b, nets, made + [m])
  {
  }

  /** After a route press, every pad on record keeps its net or is in one of the nets. */
  twostate lemma PadsKept(new nets: NetList, b: Press, new made: seq<Made>, new o: Outcome<()>, new cur: Cursor)
    requires |made| <= |nets| && Going(nets, b, made, o, cur)
    requires forall p :: p in b.pn ==> b.pn[p] == old(p.net)
    ensures forall p :: p in b.pn ==> p.net == old(p.net) || Among(p.net, nets)
  {
    RoutedLater(b, nets, made);
  }

  /** After a route press the cursor is the one on record, or a head hangs from a pad and is in one of the nets. */
  lemma CursorAfter(nets: NetList, b: Press, made: seq<Made>, o: Outcome<()>, cur: Cursor)
    requires |made| <= |nets| && Going(nets, b, made, o, cur)
    ensures cur == b.head0 || (cur.0.Some? && cur.1.Some? && Among(cur.1.value.net, nets))
  {
    RoutedLater(b, nets, made);
  }

  /** At the turn of the `|made|`th net, the live search of that net finds the pad on record it offers. */
  lemma OfferNow(nets: NetList, b: Press, made: seq<Made>, cur: Cursor)
    requires |made| < |nets| && Covered(b) && Going(nets, b, made, Return(()), cur) == true
    ensures Under(nets[|made|].graph.adj.keys, b.q) == Offer(b, nets[|made|])
    ensures Offer(b, nets[|made|]).Some? ==> Offer(b, nets[|made|]).value in Routed(b, nets, made).pn
  {
    var n := nets[|made|];
    RoutedLater(b, nets, made);
    var r := Routed(b, nets, made);
    assert n in b.w0 by {
      assert n in Wirings(nets) && Wirings(nets).Keys == r.w.Keys;
    }
    assert n.graph.adj.keys == b.w0[n].g.keys by {
      assert Wirings(nets)[n] == r.w[n] == b.w0[n];
    }
    forall p | p in n.graph.adj.keys
      ensures p in b.pr && p.ring == b.pr[p]
    {
      assert p in b.w0[n].g.keys;
    }
    UnderSnap(n.graph.adj.keys, b.pr, b.q);
  }

  /** `currPad = pad.clone(); currPad.setVisible(false);`: a new invisible pad centred on `pad`, in no net. */
  method Blank(pad: Pad) returns (c: Pad)
    ensures fresh(c) && !c.visible && c.Center() == pad.Center() && c.net == None
  {
    c := pad.Clone();
    c.SetVisible(false);
  }

  /**
   * What `n.addSegment(pad, c)` and, unless it threw, `n.setSelected(true)`
   * did, `n` being the `i`th net: `AddedTo` says how `n` changed; every
   * other net keeps its wiring and its flag; of the pads `ps`, only `pad`
   * and `c` may have a new net, and none has a new ring.
   */
  twostate predicate Attached(nets: seq<Net>, i: nat, pad: Pad, c: Pad, new a: Outcome<bool>, ps: set<Pad>)
    reads (set n | n in nets)`segs, (set n | n in nets)`selected
    reads (set n | n in nets :: n.graph)`lists, (set n | n in nets :: n.graph)`edges, (set n | n in nets :: n.graph.adj)`keys
    reads ps`net, ps`ring, {pad, c}`net
  {
    && i < |nets|
    && AddedTo(nets[i], pad, c, a)
    && Wirings(nets) == old(Wirings(nets))[nets[i] := Wiring(nets[i].graph.State(), nets[i].segs)]
    && (forall p :: p in ps && p != pad && p != c ==> p.net == old(p.net))
    && (forall p :: p in ps ==> p.ring == old(p.ring))
    && (forall n :: n in nets && n != nets[i] ==> n.selected == old(n.selected))
    && nets[i].selected == (a.Return? || old(nets[i].selected))
  }

  /** `n.addSegment(pad, c, w)` and, unless it threw, `n.setSelected(true)`, for the `i`th net `n`, which changes no other net. */
  method Attach(nets: NetList, i: nat, pad: Pad, c: Pad, width: real, ghost ps: set<Pad>) returns (a: Outcome<bool>)
    requires i < |nets| && nets[i].Valid() && Disjoint(nets, nets[i])
    modifies {nets[i]}`selected, {nets[i]}`segs, nets[i].graph`edges, nets[i].graph`lists, nets[i].graph.adj`keys, nets[i].graph.adj`vals
    modifies (iset l: VertexList<Pad> | l.owner == nets[i].graph.adj)`items, {pad, c}`net, {pad, c}`listeners
    ensures nets[i].Valid() && Untouched(nets, nets[i])
    ensures forall l: VertexList<Pad> :: old(allocated(l)) && l.owner != nets[i].graph.adj ==> unchanged(l`items)
    ensures Attached(nets, i, pad, c, a, ps)
  {
    a := AddApart(nets, nets[i], pad, c, width);
    if a.Return? {
      nets[i].SetSelected(true);
    }
    WiringsOne(nets, nets[i]);
  }

  /** A turn of a route press, as `TurnMirror` takes it: the nets, the record, where the press stands, the net asked and the pad it offers. */
  datatype Step = Step(nets: NetList, b: Press, r: Route, i: nat, pad: Pad, c: Pad)

  /**
   * Before the turn: the press has not thrown, the board spells it, the
   * net offers `pad`, which has its net on record, and the head `c` is a
   * fresh invisible pad without a net, centred on `pad`.
   */
  ghost predicate Primed(k: Step)
    reads (set n | n in k.nets)`segs, (set n | n in k.nets)`selected
    reads (set n | n in k.nets :: n.graph)`lists, (set n | n in k.nets :: n.graph)`edges, (set n | n in k.nets :: n.graph.adj)`keys
    reads k.r.pn.Keys`net, k.b.pr.Keys`ring, Offered(k.r.cur.0)`ring, Offered(k.r.cur.1)`visible, Offered(k.r.cur.1)`ring, Offered(k.r.cur.1)`net
    reads k.c`net, k.c`visible, k.c`ring, k.pad`ring
  {
    && k.i < |k.nets| && k.r.o == Return(()) && Mirror(k.nets, k.b, k.r)
    && Offer(k.b, k.nets[k.i]) == Some(k.pad) && k.pad in k.r.pn && k.c !in k.r.pn && k.c !in k.b.pr
    && k.c.net.None? && !k.c.visible && k.c.Center() == k.pad.Center()
  }

  /**
   * After `Hang` and, when the pad had a net, `setSelected(true)`, from a
   * turn that was `Primed`: the board spells the turn of the net.
   */
  twostate lemma TurnMirror(k: Step, new a: Outcome<bool>, new m: Made)
    requires old(Primed(k)) && !k.c.visible && k.c.Center() == k.pad.Center()
    requires Attached(k.nets, k.i, k.pad, k.c, a, k.r.pn.Keys + k.b.pr.Keys)
    requires m == Made(Some(k.c), if a == Return(true) then Some(k.nets[k.i].segs[|k.nets[k.i].segs| - 1]) else None)
    ensures Mirror(k.nets, k.b, Asked(k.b, k.r, k.i, k.nets[k.i], m))
    ensures Asked(k.b, k.r, k.i, k.nets[k.i], m).o == if a.Throw? then Throw(a.error) else Return(())
    ensures Asked(k.b, k.r, k.i, k.nets[k.i], m).cur == (Some(k.pad), m.head, a.Return? || k.r.cur.2)
    ensures m.seg.Some? <==> k.r.pn[k.pad] == Some(k.nets[k.i])
    ensures m.seg.Some? ==> m.seg.value.p0 == k.pad && m.seg.value.p1 == m.head.value
  {
    TurnAsked(k, a, m);
    TurnWired(k, a, m);
    TurnPads(k, a, m);
    TurnHung(k, a, m);
  }

  /** The turn, as `TurnMirror` takes it, as `Asked` spells it: after a throw, or after `addSegment` returned. */
  twostate lemma TurnAsked(k: Step, new a: Outcome<bool>, new m: Made)
    requires old(Primed(k)) && !k.c.visible && k.c.Center() == k.pad.Center()
    requires Attached(k.nets, k.i, k.pad, k.c, a, k.r.pn.Keys + k.b.pr.Keys)
    requires m == Made(Some(k.c), if a == Return(true) then Some(k.nets[k.i].segs[|k.nets[k.i].segs| - 1]) else None)
    ensures old(k.pad.net) == k.r.pn[k.pad]
    ensures a.Throw? ==> Asked(k.b, k.r, k.i, k.nets[k.i], m) == k.r.(o := Throw(NullPointer), pn := k.r.pn[k.pad := Some(k.nets[k.i])], cur := (Some(k.pad), m.head, k.r.cur.2), hc := Some(k.nets[k.i]))
    ensures a.Return? ==> Asked(k.b, k.r, k.i, k.nets[k.i], m) == k.r.(w := if k.r.pn[k.pad] == Some(k.nets[k.i]) && m.seg.Some? then Joined(k.r.w, k.nets[k.i], k.pad, m.head.value, m.seg.value) else k.r.w,
      sel := k.r.sel[k.nets[k.i] := true], cur := (Some(k.pad), m.head, true), hc := Some(k.nets[k.i]))
    ensures a.Throw? <==> k.r.pn[k.pad].None?
    ensures m.seg.Some? <==> k.r.pn[k.pad] == Some(k.nets[k.i])
    ensures m.seg.Some? ==> m.seg.value.p0 == k.pad && m.seg.value.p1 == m.head.value
  {
    if a.Throw? {
      TurnThrows(k.b, k.r, k.i, k.nets[k.i], k.pad, m);
    } else {
      TurnSelects(k.b, k.r, k.i, k.nets[k.i], k.pad, m);
    }
  }

  /** The wirings and the selected flags after the turn are those `Asked` gives. */
  twostate lemma TurnWired(k: Step, new a: Outcome<bool>, new m: Made)
    requires old(Primed(k)) && !k.c.visible && k.c.Center() == k.pad.Center()
    requires Attached(k.nets, k.i, k.pad, k.c, a, k.r.pn.Keys + k.b.pr.Keys)
    requires m == Made(Some(k.c), if a == Return(true) then Some(k.nets[k.i].segs[|k.nets[k.i].segs| - 1]) else None)
    ensures Wirings(k.nets) == Asked(k.b, k.r, k.i, k.nets[k.i], m).w && Flags(k.nets) == Asked(k.b, k.r, k.i, k.nets[k.i], m).sel
  {
    var n := k.nets[k.i];
    TurnAsked(k, a, m);
    assert n in k.r.w && k.r.w[n] == Wiring(old(n.graph.State()), old(n.segs));
    FlagsAfter(k.nets, n);
    if a == Return(true) {
      GrownByOne(n.segs, old(n.segs));
    } else {
      KeepOne(k.r.w, n);
    }
  }

  /** After the turn every pad on record has the net `Asked` gives it and keeps its ring. */
  twostate lemma TurnPads(k: Step, new a: Outcome<bool>, new m: Made)
    requires old(Primed(k)) && !k.c.visible && k.c.Center() == k.pad.Center()
    requires Attached(k.nets, k.i, k.pad, k.c, a, k.r.pn.Keys + k.b.pr.Keys)
    requires m == Made(Some(k.c), if a == Return(true) then Some(k.nets[k.i].segs[|k.nets[k.i].segs| - 1]) else None)
    ensures forall p :: p in Asked(k.b, k.r, k.i, k.nets[k.i], m).pn ==> p.net == Asked(k.b, k.r, k.i, k.nets[k.i], m).pn[p]
    ensures forall p :: p in k.b.pr ==> p.ring == k.b.pr[p]
  {
    TurnAsked(k, a, m);
  }

  /** After the turn the head hangs from the pad. */
  twostate lemma TurnHung(k: Step, new a: Outcome<bool>, new m: Made)
    requires old(Primed(k)) && !k.c.visible && k.c.Center() == k.pad.Center()
    requires Attached(k.nets, k.i, k.pad, k.c, a, k.r.pn.Keys + k.b.pr.Keys)
    requires m == Made(Some(k.c), if a == Return(true) then Some(k.nets[k.i].segs[|k.nets[k.i].segs| - 1]) else None)
    ensures Hung(Asked(k.b, k.r, k.i, k.nets[k.i], m))
  {
    TurnAsked(k, a, m);
  }

  /** Setting a key of a map to the value it has changes nothing. */
  lemma KeepOne<K, V>(w: map<K, V>, k: K)
    requires k in w
    ensures w[k := w[k]] == w
  {
  }

  /** The net of each pad of `pads`. */
  function NetsOf(pads: set<Pad>): (m: map<Pad, Option<Net>>)
    reads pads`net
    ensures m.Keys == pads && forall p :: p in pads ==> m[p] == p.net
  {
    map p | p in pads :: p.net
  }

  /** The nets of the pads are read from the pads only. */
  twostate lemma NetsOfStay(pads: set<Pad>)
    requires forall p :: p in pads ==> unchanged(p`net)
    ensures NetsOf(pads) == old(NetsOf(pads))
  {
  }

  /** `Going` taken apart into the summaries of the board it speaks of. */
  lemma GoingApart(nets: seq<Net>, b: Press, made: seq<Made>, o: Outcome<()>, cur: Cursor)
    requires |made| <= |nets| && Going(nets, b, made, o, cur)
    ensures Sound(b, nets, made) && (o, cur) == (Routed(b, nets, made).o, Routed(b, nets, made).cur)
    ensures Wirings(nets) == Routed(b, nets, made).w && Flags(nets) == Routed(b, nets, made).sel
    ensures NetsOf(Routed(b, nets, made).pn.Keys) == Routed(b, nets, made).pn && RingsOf(b.pr.Keys) == b.pr
    ensures Hung(Routed(b, nets, made))
  {
  }

  /** The ring of each pad of `pads`. */
  function RingsOf(pads: set<Pad>): (m: map<Pad, Ellipse>)
    reads pads`ring
    ensures m.Keys == pads && forall p :: p in pads ==> m[p] == p.ring
  {
    map p | p in pads :: p.ring
  }

  /** The rings of the pads are read from the pads only. */
  twostate lemma RingsOfStay(pads: set<Pad>)
    requires forall p :: p in pads ==> unchanged(p`ring)
    ensures RingsOf(pads) == old(RingsOf(pads))
  {
  }

  /** The selected flags are read from the nets only. */
  twostate lemma FlagsStay(nets: seq<Net>)
    requires forall n :: n in nets ==> unchanged(n`selected)
    ensures Flags(nets) == old(Flags(nets))
  {
  }

  /** Selecting or unselecting the net `n` changes the flag of `n` only. */
  twostate lemma FlagsAfter(nets: seq<Net>, new n: Net)
    requires n in nets && forall m :: m in nets && m != n ==> m.selected == old(m.selected)
    ensures Flags(nets) == old(Flags(nets))[n := n.selected]
  {
  }

  /** The turn at a pad without a net: the press throws, the pad joins the net, and the head hangs from it unattached. */
  lemma TurnThrows(b: Press, r: Route, i: nat, n: Net, pad: Pad, m: Made)
    requires Offer(b, n) == Some(pad) && m.head.Some? && pad in r.pn && r.pn[pad].None?
    ensures Asked(b, r, i, n, m) == r.(o := Throw(NullPointer), pn := r.pn[pad := Some(n)], cur := (Some(pad), m.head, r.cur.2), hc := Some(n))
  {
  }

  /** The turn at a pad with a net: the net is selected, and gets a segment when the pad is its own. */
  lemma TurnSelects(b: Press, r: Route, i: nat, n: Net, pad: Pad, m: Made)
    requires Offer(b, n) == Some(pad) && m.head.Some? && pad in r.pn && r.pn[pad].Some?
    ensures Asked(b, r, i, n, m) == r.(w := if r.pn[pad] == Some(n) && m.seg.Some? then Joined(r.w, n, pad, m.head.value, m.seg.value) else r.w,
      sel := r.sel[n := true], cur := (Some(pad), m.head, true), hc := Some(n))
  {
  }

  /** The selected flag of each net of `nets`. */
  function Flags(nets: seq<Net>): (r: map<Net, bool>)
    reads (set n | n in nets)`selected
    ensures r.Keys == (set n | n in nets) && forall n :: n in nets ==> r[n] == n.selected
  {
    map n | n in nets :: n.selected
  }

  /** The record a route press at `q` takes of the board and the cursor `head0`. */
  ghost function Pressing(nets: seq<Net>, q: Point, head0: Cursor): (b: Press)
    reads (set n | n in nets)`segs, (set n | n in nets)`selected
    reads (set n | n in nets :: n.graph)`lists, (set n | n in nets :: n.graph)`edges, (set n | n in nets :: n.graph.adj)`keys
    reads Keyed(nets)`net, Keyed(nets)`ring
    ensures b.q == q && b.head0 == head0 && b.w0 == Wirings(nets) && b.sel == Flags(nets)
    ensures b.pn.Keys == Keyed(nets) && b.pr.Keys == Keyed(nets)
    ensures forall p :: p in Keyed(nets) ==> b.pn[p] == p.net && b.pr[p] == p.ring
  {
    Press(q, Wirings(nets), Flags(nets), map p | p in Keyed(nets) :: p.net, map p | p in Keyed(nets) :: p.ring, head0)
  }

  /** Before any turn, the record covers every pad of a net and the board spells it. */
  lemma PressingMirror(nets: seq<Net>, b: Press)
    requires b.w0 == Wirings(nets) && b.sel == Flags(nets) && b.pn.Keys == Keyed(nets) && b.pr.Keys == Keyed(nets)
    requires forall p :: p in Keyed(nets) ==> b.pn[p] == p.net && b.pr[p] == p.ring
    ensures Covered(b) && Mirror(nets, b, Routed(b, nets, []))
  {
    forall n, p | n in b.w0 && p in b.w0[n].g.keys
      ensures p in b.pr
    {
      assert p in n.graph.adj.keys;
    }
  }
}
