/**
 * What a press in the Normal or Move state of src/pcbEditor/DesignArea.java
 * picks, and how a selection list takes it: the nets are asked in turn for
 * their underlying component, a pad of no part or a segment ends the
 * search, then the parts are asked whether they contain the point.
 */
module Selection {
  import opened Wrappers
  import opened Geometry
  import opened Lists
  import opened GraphSpec
  import opened Pcb
  import opened Board
  import opened Routing

  /** What a selection press picks: a pad that belongs to no part, a segment, a part, or nothing at all. */
  datatype Pick = PadPick(pad: Pad) | SegPick(seg: Segment) | PartPick(part: Part) | Outside

  /**
   * `getUnderlyingComponent(q)` of a net with the vertices `keys` and the
   * segments `segs`, as the selection press takes it: the first pad whose
   * ring holds `q` when it belongs to no part, nothing when it belongs to
   * one; without such a pad the first segment holding `q`, if any.
   */
  function Component(keys: seq<Pad>, segs: seq<Segment>, q: Point, hit: (Line, real, Point) -> bool): Option<Pick>
    reads (set p | p in keys)`ring, (set p | p in keys)`part, (set s | s in segs)`line, (set s | s in segs)`width
  {
    match FirstPad(keys, q)
    case Some(k) => if keys[k].part.None? then Some(PadPick(keys[k])) else None
    case None =>
      match FirstSeg(segs, q, hit)
      case Some(j) => Some(SegPick(segs[j]))
      case None => None
  }

  /** What the net `n` offers a selection press at `q`. */
  function Shown(n: Net, q: Point, hit: (Line, real, Point) -> bool): Option<Pick>
    reads n, n.graph.adj`keys, (set p | p in n.graph.adj.keys)`ring, (set p | p in n.graph.adj.keys)`part
    reads (set s | s in n.segs)`line, (set s | s in n.segs)`width
  {
    Component(n.graph.adj.keys, n.segs, q, hit)
  }

  /** The segments of the nets `nets`. */
  function Segs(nets: seq<Net>): set<Segment>
    reads set n | n in nets
  {
    set n, s | n in nets && s in n.segs :: s
  }

  /** The loop over the nets: the first net, in list order, whose underlying component is taken. */
  function Spotted(nets: seq<Net>, q: Point, hit: (Line, real, Point) -> bool): Option<Pick>
    reads (set n | n in nets), (set n | n in nets :: n.graph.adj)`keys
    reads (set n, p | n in nets && p in n.graph.adj.keys :: p)`ring, (set n, p | n in nets && p in n.graph.adj.keys :: p)`part
    reads (set n, x | n in nets && x in n.segs :: x)`line, (set n, x | n in nets && x in n.segs :: x)`width
  {
    if nets == [] then None
    else
      var c := Shown(nets[0], q, hit);
      if c.Some? then c
      else
        assert forall n :: n in nets[1..] ==> n in nets;
        Spotted(nets[1..], q, hit)
  }

  /** The loop over the parts: the index of the first part whose outline contains `q`. */
  function FirstPart(parts: seq<Part>, q: Point): (r: Option<nat>)
    reads (set pt | pt in parts)`ol
    ensures r.Some? ==> r.value < |parts| && parts[r.value].Contains(q)
    ensures r.Some? ==> forall j :: 0 <= j < r.value ==> !parts[j].Contains(q)
    ensures r.None? <==> forall j :: 0 <= j < |parts| ==> !parts[j].Contains(q)
  {
    if parts == [] then None
    else if parts[0].Contains(q) then Some(0)
    else match FirstPart(parts[1..], q)
      case None => None
      case Some(k) => Some(k + 1)
  }

  /** What the press picks on the nets `nets` and the parts `parts`. */
  function Chosen(nets: seq<Net>, parts: seq<Part>, q: Point, hit: (Line, real, Point) -> bool): Pick
    reads (set n | n in nets), Tables(nets)`keys, Keyed(nets)`ring, Keyed(nets)`part, Segs(nets)`line, Segs(nets)`width
    reads (set pt | pt in parts)`ol
  {
    match Spotted(nets, q, hit)
    case Some(c) => c
    case None =>
      match FirstPart(parts, q)
      case Some(i) => PartPick(parts[i])
      case None => Outside
  }

  /**
   * The nets loop takes the component of the first net that offers one:
   * a pad of no part holding `q` among that net's vertices, or a segment
   * of that net holding `q`; and it ends empty exactly when no net offers
   * anything.
   */
  lemma {:induction false} SpottedFirst(nets: seq<Net>, q: Point, hit: (Line, real, Point) -> bool)
    ensures Spotted(nets, q, hit).None? <==> forall i :: 0 <= i < |nets| ==> Shown(nets[i], q, hit).None?
    ensures Spotted(nets, q, hit).Some? ==>
      exists i :: 0 <= i < |nets| && Spotted(nets, q, hit) == Shown(nets[i], q, hit)
        && forall j :: 0 <= j < i ==> Shown(nets[j], q, hit).None?
  {
    if nets != [] {
      SpottedFirst(nets[1..], q, hit);
      if Shown(nets[0], q, hit).None? {
        assert forall i :: 1 <= i < |nets| ==> nets[i] == nets[1..][i - 1];
        if Spotted(nets, q, hit).Some? {
          var k :| 0 <= k < |nets[1..]| && Spotted(nets[1..], q, hit) == Shown(nets[1..][k], q, hit)
            && forall j :: 0 <= j < k ==> Shown(nets[1..][j], q, hit).None?;
          assert forall j :: 0 <= j < k + 1 ==> Shown(nets[j], q, hit).None? by {
            forall j | 0 <= j < k + 1 ensures Shown(nets[j], q, hit).None? {
              if j > 0 {
                assert nets[j] == nets[1..][j - 1];
              }
            }
          }
        }
      }
    }
  }

  /** What the nets loop takes is a pad of no part among a net's vertices, or a segment of a net. */
  lemma SpottedKinds(nets: seq<Net>, q: Point, hit: (Line, real, Point) -> bool)
    ensures Spotted(nets, q, hit).Some? ==> Spotted(nets, q, hit).value.PadPick? || Spotted(nets, q, hit).value.SegPick?
    ensures Spotted(nets, q, hit).Some? && Spotted(nets, q, hit).value.PadPick? ==>
      var p := Spotted(nets, q, hit).value.pad;
      p in Keyed(nets) && p.Contains(q) && p.part.None?
    ensures Spotted(nets, q, hit).Some? && Spotted(nets, q, hit).value.SegPick? ==>
      Spotted(nets, q, hit).value.seg in Segs(nets) && Spotted(nets, q, hit).value.seg.Contains(q, hit)
  {
    SpottedFirst(nets, q, hit);
    if Spotted(nets, q, hit).Some? {
      var i :| 0 <= i < |nets| && Spotted(nets, q, hit) == Shown(nets[i], q, hit);
      UnderSound(nets[i].graph.adj.keys, nets[i].segs, q, hit);
    }
  }

  /** When the nets before position `i` offer nothing, the loop takes what the net at `i` offers, if any. */
  lemma {:induction false} SpottedAt(nets: seq<Net>, i: nat, q: Point, hit: (Line, real, Point) -> bool)
    requires i <= |nets| && forall j :: 0 <= j < i ==> Shown(nets[j], q, hit).None?
    requires i < |nets| ==> Shown(nets[i], q, hit).Some?
    ensures Spotted(nets, q, hit) == if i < |nets| then Shown(nets[i], q, hit) else None
  {
    if i > 0 {
      assert forall j :: 0 <= j < i - 1 ==> nets[1..][j] == nets[j + 1];
      SpottedAt(nets[1..], i - 1, q, hit);
    }
  }

  /**
   * A component a net offers holds the point and is that net's: a pad of
   * no part among its vertices, or one of its segments.
   */
  lemma UnderSound(keys: seq<Pad>, segs: seq<Segment>, q: Point, hit: (Line, real, Point) -> bool)
    ensures Component(keys, segs, q, hit).Some? ==> Component(keys, segs, q, hit).value.PadPick? || Component(keys, segs, q, hit).value.SegPick?
    ensures Component(keys, segs, q, hit).Some? && Component(keys, segs, q, hit).value.PadPick? ==>
      var p := Component(keys, segs, q, hit).value.pad;
      p in keys && p.Contains(q) && p.part.None?
    ensures Component(keys, segs, q, hit).Some? && Component(keys, segs, q, hit).value.SegPick? ==>
      var s := Component(keys, segs, q, hit).value.seg;
      s in segs && s.Contains(q, hit) && forall p :: p in keys ==> !p.Contains(q)
    ensures Component(keys, segs, q, hit).None? <==>
      || (FirstPad(keys, q).Some? && keys[FirstPad(keys, q).value].part.Some?)
      || ((forall p :: p in keys ==> !p.Contains(q)) && forall s :: s in segs ==> !s.Contains(q, hit))
  {
    match FirstPad(keys, q)
    case Some(k) =>
    case None =>
      if FirstSeg(segs, q, hit).None? {
        forall s | s in segs ensures !s.Contains(q, hit) {
          var j :| 0 <= j < |segs| && segs[j] == s;
        }
      }
  }

  /**
   * The press picks a part exactly when no net offers a component and
   * some part contains the point, and then the first such part; it picks
   * nothing exactly when no net offers one and no part contains the point.
   */
  lemma ChosenParts(nets: seq<Net>, parts: seq<Part>, q: Point, hit: (Line, real, Point) -> bool)
    ensures Chosen(nets, parts, q, hit) == Outside <==>
      (forall i :: 0 <= i < |nets| ==> Shown(nets[i], q, hit).None?) && forall pt :: pt in parts ==> !pt.Contains(q)
    ensures Chosen(nets, parts, q, hit).PartPick? ==>
      && (forall i :: 0 <= i < |nets| ==> Shown(nets[i], q, hit).None?)
      && Chosen(nets, parts, q, hit).part in parts && Chosen(nets, parts, q, hit).part.Contains(q)
  {
    SpottedFirst(nets, q, hit);
    var c := Spotted(nets, q, hit);
    if c.Some? {
      var i :| 0 <= i < |nets| && c == Shown(nets[i], q, hit);
      UnderSound(nets[i].graph.adj.keys, nets[i].segs, q, hit);
    } else if FirstPart(parts, q).None? {
      forall pt | pt in parts ensures !pt.Contains(q) {
        var j :| 0 <= j < |parts| && parts[j] == pt;
      }
    }
  }

  /**
   * A selection list taking `x`: without Ctrl and outside the Move state
   * (`keep` false) the list is emptied first; otherwise `x` is taken out
   * of it once, if there; then `x` is added at the end.
   */
  function Reselect<T(==)>(l: seq<T>, x: T, keep: bool): seq<T> {
    (if keep then RemoveFirst(l, x) else []) + [x]
  }

  /**
   * `x` ends the list; kept, the list holds what it held plus `x`, with
   * the one copy of `x` it may have held moved to the end, so a list
   * without repeats stays without repeats; not kept, it holds `x` alone.
   */
  lemma ReselectTakes<T>(l: seq<T>, x: T, keep: bool)
    ensures |Reselect(l, x, keep)| > 0 && Reselect(l, x, keep)[|Reselect(l, x, keep)| - 1] == x
    ensures !keep ==> Reselect(l, x, keep) == [x]
    ensures keep ==> multiset(Reselect(l, x, keep)) == multiset(l) - multiset{x} + multiset{x}
    ensures keep ==> forall y :: y in Reselect(l, x, keep) <==> y in l || y == x
    ensures Distinct(l) ==> Distinct(Reselect(l, x, keep))
  {
    var r := Reselect(l, x, keep);
    if keep {
      RemoveFirstMultiset(l, x);
      assert multiset(r) == multiset(RemoveFirst(l, x)) + multiset{x};
      forall y ensures y in r <==> y in l || y == x {
        assert y in r <==> y in multiset(r);
        assert y in l <==> y in multiset(l);
      }
      if Distinct(l) {
        RemoveFirstDistinct(l, x);
        DistinctCount(l, x);
        var m := RemoveFirst(l, x);
        RemoveFirstCount(l, x, x);
        assert x !in m;
        forall i, j | 0 <= i < j < |r| ensures r[i] != r[j] {
          if j == |r| - 1 {
            assert r[i] == m[i];
          } else {
            assert r[i] == m[i] && r[j] == m[j];
          }
        }
      }
    }
  }

  /** A list that takes `x` holds nothing but what it held and `x`. */
  lemma ReselectWithin<T>(l: seq<T>, x: T, keep: bool)
    ensures forall y :: y in Reselect(l, x, keep) ==> y in l || y == x
  {
    ReselectTakes(l, x, keep);
  }

  /**
   * Picking the same component twice in a row leaves the list as one pick
   * did, as long as the list held it at most once: the press never adds a
   * component it already holds.
   */
  lemma ReselectTwice<T>(l: seq<T>, x: T, keep: bool)
    requires Count(l, x) <= 1
    ensures Reselect(Reselect(l, x, keep), x, keep) == Reselect(l, x, keep)
  {
    if keep {
      var m := RemoveFirst(l, x);
      RemoveFirstCount(l, x, x);
      RemoveFirstPast(m, [x], x);
      assert RemoveFirst([x], x) == [];
    }
  }

  /**
   * The three selection lists after a press that picks `c`: the picked pad,
   * segment or part taken by its list; for a press outside every component,
   * all three lists emptied.
   */
  function Selects(c: Pick, keep: bool, pads: seq<Pad>, segs: seq<Segment>, parts: seq<Part>): (seq<Pad>, seq<Segment>, seq<Part>) {
    match c
    case PadPick(p) => (Reselect(pads, p, keep), segs, parts)
    case SegPick(s) => (pads, Reselect(segs, s, keep), parts)
    case PartPick(pt) => (pads, segs, Reselect(parts, pt, keep))
    case Outside => ([], [], [])
  }

  /**
   * Only the list of the picked kind changes, and it ends with the pick;
   * a list without repeats keeps none; a press outside everything empties
   * every list.
   */
  lemma SelectsTakes(c: Pick, keep: bool, pads: seq<Pad>, segs: seq<Segment>, parts: seq<Part>)
    ensures var r := Selects(c, keep, pads, segs, parts);
      && (c.PadPick? ==> r.0[|r.0| - 1] == c.pad && r.1 == segs && r.2 == parts)
      && (c.SegPick? ==> r.1[|r.1| - 1] == c.seg && r.0 == pads && r.2 == parts)
      && (c.PartPick? ==> r.2[|r.2| - 1] == c.part && r.0 == pads && r.1 == segs)
      && (c == Outside <==> r.0 == [] && r.1 == [] && r.2 == [])
    ensures var r := Selects(c, keep, pads, segs, parts);
      Distinct(pads) && Distinct(segs) && Distinct(parts) ==> Distinct(r.0) && Distinct(r.1) && Distinct(r.2)
  {
    match c
    case PadPick(p) => ReselectTakes(pads, p, keep);
    case SegPick(s) => ReselectTakes(segs, s, keep);
    case PartPick(pt) => ReselectTakes(parts, pt, keep);
    case Outside =>
  }

  /** The objects whose flags a press that picks `c` sets. */
  function Touched(c: Pick): set<object> {
    match c
    case PadPick(p) => {p}
    case SegPick(s) => {s}
    case PartPick(pt) => {pt, pt.fp} + set p | p in pt.fp.pads
    case Outside => {}
  }

  /**
   * The selected flags after a press that picks `c`, given the lists before
   * it: the pick is selected (a part with its footprint and the footprint's
   * pads), and without `keep` the rest of its list is not (for parts, nor
   * their footprints and pads, unless shared with the pick); a press outside
   * everything leaves nothing of the three lists selected.
   */
  ghost predicate Flagged(c: Pick, keep: bool, pads: seq<Pad>, segs: seq<Segment>, parts: seq<Part>)
    reads Touched(c), (set p | p in pads), (set s | s in segs), (set pt | pt in parts), Footprints(parts), PartPads(parts)
  {
    match c
    case PadPick(p) => p.selected && (!keep ==> forall x :: x in pads && x != p ==> !x.selected)
    case SegPick(s) => s.selected && (!keep ==> forall x :: x in segs && x != s ==> !x.selected)
    case PartPick(pt) =>
      && pt.selected && pt.fp.selected && (forall p :: p in pt.fp.pads ==> p.selected)
      && (!keep ==> forall x :: x in parts && x != pt ==> !x.selected)
      && (!keep ==> forall x :: x in parts && x.fp != pt.fp ==> !x.fp.selected)
      && (!keep ==> forall x, p :: x in parts && p in x.fp.pads && p !in pt.fp.pads ==> !p.selected)
    case Outside =>
      && (forall x :: x in pads ==> !x.selected)
      && (forall x :: x in segs ==> !x.selected)
      && (forall x :: x in parts ==> !x.selected && !x.fp.selected && forall p :: p in x.fp.pads ==> !p.selected)
  }

  /**
   * One turn of the loop over the nets: the net's underlying component,
   * kept when it is a pad of no part or a segment.
   */
  method Ask(n: Net, q: Point, hit: (Line, real, Point) -> bool) returns (c: Option<Pick>)
    requires n.Valid()
    ensures c == Shown(n, q, hit)
  {
    var u := n.UnderlyingAt(q, hit);
    if u.Some? && u.value.PadHit? && u.value.pad.part.None? {
      c := Some(PadPick(u.value.pad));
    } else if u.Some? && u.value.SegHit? {
      c := Some(SegPick(u.value.seg));
    } else {
      c := None;
    }
  }

  /** The loop over the nets of a selection press: what the first net to offer a component offers. */
  method Spy(nets: seq<Net>, q: Point, hit: (Line, real, Point) -> bool) returns (c: Option<Pick>)
    requires NetsValid(nets)
    ensures c == Spotted(nets, q, hit)
  {
    for i := 0 to |nets|
      invariant forall j :: 0 <= j < i ==> Shown(nets[j], q, hit).None?
    {
      c := Ask(nets[i], q, hit);
      if c.Some? {
        SpottedAt(nets, i, q, hit);
        return;
      }
    }
    SpottedAt(nets, |nets|, q, hit);
    c := None;
  }

  /** The loop over the parts of a selection press: the first part containing `q`. */
  method PartAt(parts: seq<Part>, q: Point) returns (r: Option<nat>)
    ensures r == FirstPart(parts, q)
  {
    for i := 0 to |parts|
      invariant forall j :: 0 <= j < i ==> !parts[j].Contains(q)
    {
      if parts[i].Contains(q) {
        return Some(i);
      }
    }
    r := None;
  }

  /**
   * The two loops of a selection press, which only look: the first net
   * offering a pad of no part or a segment under `q` gives it, failing
   * that the first part containing `q`, failing that nothing.
   */
  method Scan(nets: seq<Net>, parts: seq<Part>, q: Point, hit: (Line, real, Point) -> bool) returns (c: Pick)
    requires NetsValid(nets)
    ensures c == Chosen(nets, parts, q, hit)
    ensures (c.PadPick? ==> c.pad in Keyed(nets)) && (c.SegPick? ==> c.seg in Segs(nets)) && (c.PartPick? ==> c.part in parts)
  {
    var spied := Spy(nets, q, hit);
    if spied.Some? {
      SpottedKinds(nets, q, hit);
      return spied.value;
    }
    var k := PartAt(parts, q);
    if k.Some? {
      return PartPick(parts[k.value]);
    }
    return Outside;
  }

  /** Clears the selected flag of each pad of `pads`. */
  method UnselectPads(pads: seq<Pad>)
    modifies (set p | p in pads)`selected
    ensures forall p :: p in pads ==> !p.selected
  {
    for i := 0 to |pads|
      invariant forall j :: 0 <= j < i ==> !pads[j].selected
    {
      pads[i].SetSelected(false);
    }
  }

  /** Clears the selected flag of each segment of `segs`. */
  method UnselectSegs(segs: seq<Segment>)
    modifies (set s | s in segs)`selected
    ensures forall s :: s in segs ==> !s.selected
  {
    for i := 0 to |segs|
      invariant forall j :: 0 <= j < i ==> !segs[j].selected
    {
      segs[i].SetSelected(false);
    }
  }

  /** The footprints of `parts`. */
  function Footprints(parts: seq<Part>): set<Footprint> {
    set pt | pt in parts :: pt.fp
  }

  /** The pads of the footprints of `ps`. */
  function PartPads(ps: seq<Part>): set<Pad> {
    set part, p | part in ps && p in part.fp.pads :: p
  }

  /** The pads of the footprints of fewer parts are fewer. */
  lemma PartPadsWithin(ps: seq<Part>, qs: seq<Part>)
    requires forall q :: q in qs ==> q in ps
    ensures PartPads(qs) <= PartPads(ps)
  {
  }

  /** Clears the selected flag of each part of `parts`, of its footprint and of the footprint's pads. */
  method UnselectParts(parts: seq<Part>)
    modifies (set pt | pt in parts)`selected, Footprints(parts)`selected, PartPads(parts)`selected
    ensures forall pt :: pt in parts ==> !pt.selected && !pt.fp.selected && forall p :: p in pt.fp.pads ==> !p.selected
  {
    for i := 0 to |parts|
      invariant forall j :: 0 <= j < i ==> !parts[j].selected && !parts[j].fp.selected
      invariant forall j, p :: 0 <= j < i && p in parts[j].fp.pads ==> !p.selected
    {
      parts[i].SetSelected(false);
    }
  }
}
