/**
 * A drag in the Move state of src/pcbEditor/DesignArea.java
 * (`mouseDraggedImpl`): the selected pads move by the grid offset, then
 * each selected segment moves whichever of its ends has not moved yet
 * (the loop returns as soon as a segment touches a pad of a part), then
 * the selected parts move. `Carry` is what the segment loop moves;
 * `SweepSegs`, `ShiftParts` and the pad loop `TranslateEach` are the loops.
 */
module Dragging {
  import opened Geometry
  import opened Lists
  import opened Pcb
  import opened Selection

  /**
   * The pads the segment loop translates for a segment from `a` to `b`
   * when the pads of `tr` are already translated: the end that has not
   * moved, or both ends (`seg.translate`), or none.
   */
  function Step(tr: seq<Pad>, a: Pad, b: Pad): (r: seq<Pad>)
    ensures a in tr + r && b in tr + r
    ensures forall p :: p in r ==> p !in tr && (p == a || p == b)
    ensures a != b ==> Distinct(r)
  {
    if a in tr && b !in tr then [b]
    else if b in tr && a !in tr then [a]
    else if !(b in tr || a in tr) then [a, b]
    else []
  }

  /** The pads at either end of the pairs of `ends`. */
  function Touching(ends: seq<(Pad, Pad)>): set<Pad> {
    (set e | e in ends :: e.0) + (set e | e in ends :: e.1)
  }

  /**
   * The segment loop over segments with the ends `ends`, after the pads of
   * `tr` moved: the pads it translates in order, and whether it returned
   * early at a segment with an end in `bound` (the pads of a part).
   */
  function Carry(tr: seq<Pad>, ends: seq<(Pad, Pad)>, bound: set<Pad>): (r: (seq<Pad>, bool))
    ensures forall p :: p in r.0 ==> p !in tr && p in Touching(ends)
  {
    if ends == [] then ([], false)
    else
      var r := Carry(tr, ends[..|ends| - 1], bound);
      assert forall e :: e in ends[..|ends| - 1] ==> e in ends;
      var (a, b) := ends[|ends| - 1];
      if r.1 then r
      else if a in bound || b in bound then (r.0, true)
      else (r.0 + Step(tr + r.0, a, b), false)
  }

  /** A segment with an end in `bound`, at which the loop returns. */
  predicate Blocked(e: (Pad, Pad), bound: set<Pad>) {
    e.0 in bound || e.1 in bound
  }

  /** The loop returns early exactly when some segment has an end in `bound`. */
  lemma {:induction false} SweepStops(tr: seq<Pad>, ends: seq<(Pad, Pad)>, bound: set<Pad>)
    ensures Carry(tr, ends, bound).1 <==> exists k :: 0 <= k < |ends| && Blocked(ends[k], bound)
  {
    if ends != [] {
      var front := ends[..|ends| - 1];
      SweepStops(tr, front, bound);
      var last := ends[|ends| - 1];
      assert Carry(tr, ends, bound).1 == (Carry(tr, front, bound).1 || Blocked(last, bound));
      if Carry(tr, front, bound).1 {
        var k :| 0 <= k < |front| && Blocked(front[k], bound);
        assert ends[k] == front[k];
      } else if !Blocked(last, bound) {
        forall k | 0 <= k < |ends|
          ensures !Blocked(ends[k], bound)
        {
          if k < |front| {
            assert ends[k] == front[k];
          }
        }
      }
    }
  }

  /** The ends of one segment more. */
  lemma TouchingSnoc(ends: seq<(Pad, Pad)>)
    requires ends != []
    ensures Touching(ends) == Touching(ends[..|ends| - 1]) + {ends[|ends| - 1].0, ends[|ends| - 1].1}
  {
    assert ends == ends[..|ends| - 1] + [ends[|ends| - 1]];
  }

  /** When the loop runs to the end, every end of every segment has moved, before it or in it. */
  lemma {:induction false} SweepCovers(tr: seq<Pad>, ends: seq<(Pad, Pad)>, bound: set<Pad>)
    ensures !Carry(tr, ends, bound).1 ==> forall p :: p in Touching(ends) ==> p in tr + Carry(tr, ends, bound).0
  {
    if ends != [] && !Carry(tr, ends, bound).1 {
      var front := ends[..|ends| - 1];
      var r := Carry(tr, front, bound);
      var (a, b) := ends[|ends| - 1];
      var moved := tr + r.0 + Step(tr + r.0, a, b);
      assert moved == tr + Carry(tr, ends, bound).0;
      SweepCovers(tr, front, bound);
      TouchingSnoc(ends);
      assert forall p :: p in Touching(ends) ==> p in moved;
    }
  }

  /** No pad moves twice when the pads moved before are distinct and no segment runs from a pad to itself. */
  lemma {:induction false} SweepOnce(tr: seq<Pad>, ends: seq<(Pad, Pad)>, bound: set<Pad>)
    requires Distinct(tr) && forall k :: 0 <= k < |ends| ==> ends[k].0 != ends[k].1
    ensures Distinct(tr + Carry(tr, ends, bound).0)
  {
    if ends != [] {
      var front := ends[..|ends| - 1];
      SweepOnce(tr, front, bound);
      var r := Carry(tr, front, bound);
      var (a, b) := ends[|ends| - 1];
      if !r.1 && !(a in bound || b in bound) {
        DistinctAppend(tr + r.0, Step(tr + r.0, a, b));
        assert tr + r.0 + Step(tr + r.0, a, b) == tr + Carry(tr, ends, bound).0;
      }
    }
  }

  /** The loop over one segment more, while it has not returned. */
  lemma SweepNext(tr: seq<Pad>, ends: seq<(Pad, Pad)>, bound: set<Pad>, i: nat)
    requires i < |ends| && !Carry(tr, ends[..i], bound).1
    ensures Carry(tr, ends[..i + 1], bound) ==
      var r := Carry(tr, ends[..i], bound);
      if ends[i].0 in bound || ends[i].1 in bound then (r.0, true) else (r.0 + Step(tr + r.0, ends[i].0, ends[i].1), false)
  {
    assert ends[..i + 1][..i] == ends[..i];
  }

  /** Once the loop has returned, the segments after that one change nothing. */
  lemma {:induction false} SweepHalts(tr: seq<Pad>, ends: seq<(Pad, Pad)>, bound: set<Pad>, i: nat)
    requires i <= |ends| && Carry(tr, ends[..i], bound).1
    ensures Carry(tr, ends, bound) == Carry(tr, ends[..i], bound)
    decreases |ends| - i
  {
    if i < |ends| {
      assert ends[..i + 1][..i] == ends[..i];
      SweepHalts(tr, ends, bound, i + 1);
    } else {
      assert ends[..i] == ends;
    }
  }

  /**
   * The pads of a drag before the parts: with distinct selected pads
   * `pads`, no segment from a pad to itself and no segment touching a
   * part, each selected pad and each end of a selected segment moves
   * exactly once by `d`, and every other pad stays.
   */
  lemma DragOnce(m: map<Pad, Place>, pads: seq<Pad>, ends: seq<(Pad, Pad)>, bound: set<Pad>, d: Point, p: Pad)
    requires (forall q :: q in pads ==> q in m) && Touching(ends) <= m.Keys && p in m
    requires Distinct(pads) && forall k :: 0 <= k < |ends| ==> ends[k].0 != ends[k].1
    requires !Carry(pads, ends, bound).1
    ensures Moves(m, pads + Carry(pads, ends, bound).0, d)[p] == if p in pads || p in Touching(ends) then MovedBy(m[p], d) else m[p]
  {
    var moved := pads + Carry(pads, ends, bound).0;
    MovesCount(m, moved, d, p);
    SweepOnce(pads, ends, bound);
    DistinctCount(moved, p);
    SweepCovers(pads, ends, bound);
  }

  /** The end pads of the segments of `segs` that belong to a part. */
  ghost function Bound(segs: seq<Segment>): set<Pad>
    reads PadsOf(segs)`part
  {
    set p | p in PadsOf(segs) && p.part.Some?
  }

  /** The ends of the segments of `segs`, both ends of each in turn. */
  function EndPads(segs: seq<Segment>): (r: seq<Pad>)
    ensures (forall p :: p in r ==> p in PadsOf(segs)) && forall p :: p in PadsOf(segs) ==> p in r
  {
    if segs == [] then []
    else
      var front := segs[..|segs| - 1];
      assert segs == front + [segs[|segs| - 1]];
      EndPads(front) + [segs[|segs| - 1].p0, segs[|segs| - 1].p1]
  }

  /** The pads of the footprints of `parts`, part by part. */
  function FpPads(parts: seq<Part>): (r: seq<Pad>)
    ensures (forall p :: p in r ==> p in PartPads(parts)) && forall p :: p in PartPads(parts) ==> p in r
  {
    if parts == [] then []
    else
      var front := parts[..|parts| - 1];
      assert parts == front + [parts[|parts| - 1]];
      FpPads(front) + parts[|parts| - 1].fp.pads
  }

  /** The footprints of `parts`, in order. */
  function Fps(parts: seq<Part>): (r: seq<Footprint>)
    ensures |r| == |parts| && forall i :: 0 <= i < |parts| ==> r[i] == parts[i].fp
  {
    seq(|parts|, i requires 0 <= i < |parts| => parts[i].fp)
  }

  /** The point `p` moved `n` times by `d`, as `n` calls of a footprint's `translate(d)` leave its centre. */
  function Hop(p: Point, d: Point, n: nat): Point {
    if n == 0 then p else Plus(Hop(p, d, n - 1), d)
  }

  /** The rectangle `r` moved `n` times by `d`, as `n` calls of a part's `translate(d)` leave its outline. */
  function Slid(r: Rect, d: Point, n: nat): Rect {
    if n == 0 then r else var s := Slid(r, d, n - 1); s.(x := s.x + d.x, y := s.y + d.y)
  }

  /** `x.translate(delta)` on a pad of `all`: it moves once, the other pads of `all` stay. */
  method Nudge(x: Pad, ghost all: seq<Pad>, delta: Point)
    requires x in all
    modifies x`ring, x`hole, (set s | s in x.listeners)`line
    ensures Places(all) == Moves(old(Places(all)), [x], delta)
  {
    ghost var m := Places([x]);
    x.Translate(delta);
    assert Moves(m, [x], delta) == Moves(m[x := MovedBy(m[x], delta)], [], delta);
    assert Places([x]) == m[x := MovedBy(m[x], delta)];
  }

  /** `s.translate(delta)` on a segment whose ends are in `all`: `p0` and then `p1` move once, the other pads of `all` stay. */
  method Slide(s: Segment, ghost all: seq<Pad>, delta: Point)
    requires s.p0 in all && s.p1 in all
    modifies s.p0`ring, s.p0`hole, s.p1`ring, s.p1`hole, (set x | x in s.p0.listeners)`line, (set x | x in s.p1.listeners)`line
    ensures Places(all) == Moves(old(Places(all)), [s.p0, s.p1], delta)
  {
    ghost var big, small := Places(all), Places([s.p0, s.p1]);
    s.Translate(delta);
    MovesWiden(small, big, [s.p0, s.p1], delta);
    forall p | p in all
      ensures Places(all)[p] == Moves(big, [s.p0, s.p1], delta)[p]
    {
      if p in [s.p0, s.p1] {
        assert Places([s.p0, s.p1])[p] == Places(all)[p];
      }
    }
  }

  /** The body of the segment loop for a segment whose ends are in `all` and touch no part: the pads `Step` names move and are recorded. */
  method SweepOne(s: Segment, translated: seq<Pad>, delta: Point, ghost all: seq<Pad>) returns (grown: seq<Pad>, ghost step: seq<Pad>)
    requires s.p0 in all && s.p1 in all
    modifies (set p | p in all)`ring, (set p | p in all)`hole, Watchers(all)`line
    ensures step == Step(translated, s.p0, s.p1) && grown == translated + step
    ensures Places(all) == Moves(old(Places(all)), step, delta)
  {
    grown, step := translated, [];
    if s.p0 in translated && s.p1 !in translated {
      Nudge(s.p1, all, delta);
      grown, step := translated + [s.p1], [s.p1];
    } else if s.p1 in translated && s.p0 !in translated {
      Nudge(s.p0, all, delta);
      grown, step := translated + [s.p0], [s.p0];
    } else if !(s.p1 in translated || s.p0 in translated) {
      Slide(s, all, delta);
      grown, step := translated + [s.p0, s.p1], [s.p0, s.p1];
    } else {
      assert Moves(old(Places(all)), [], delta) == old(Places(all));
    }
  }

  /**
   * The turn of the segment loop on the `i`th segment of `segs`, the loop
   * having moved `moves` from `start` so far: a segment with an end on a
   * part ends the loop, which then stands where `Carry` says it stops;
   * otherwise `SweepOne` moves what the turn of `Carry` moves.
   */
  method SweepAt(segs: seq<Segment>, i: nat, tr: seq<Pad>, translated: seq<Pad>, delta: Point, ghost all: seq<Pad>, ghost start: map<Pad, Place>, ghost moves: seq<Pad>, ghost bound: set<Pad>)
      returns (grown: seq<Pad>, stopped: bool, ghost moved: seq<Pad>)
    requires i < |segs| && forall p :: p in PadsOf(segs) ==> p in all
    requires (forall p :: p in all ==> p in start) && forall p :: p in moves ==> p in all
    requires bound == Bound(segs) && (moves, false) == Carry(tr, Ends(segs)[..i], bound)
    requires translated == tr + moves && Places(all) == Moves(start, moves, delta)
    modifies (set p | p in all)`ring, (set p | p in all)`hole, Watchers(all)`line
    ensures (moved, stopped) == Carry(tr, Ends(segs)[..i + 1], bound)
    ensures stopped ==> Carry(tr, Ends(segs), bound) == (moved, true)
    ensures grown == tr + moved && forall p :: p in moved ==> p in all
    ensures Places(all) == Moves(start, moved, delta)
  {
    ghost var ends := Ends(segs);
    var s := segs[i];
    assert s in segs;
    SweepNext(tr, ends, bound, i);
    if s.p0.part.Some? || s.p1.part.Some? {
      grown, stopped, moved := translated, true, moves;
      SweepHalts(tr, ends, bound, i + 1);
      return;
    }
    ghost var step;
    grown, step := SweepOne(s, translated, delta, all);
    MovesAppend(start, moves, step, delta);
    stopped, moved := false, moves + step;
  }

  /**
   * The segment loop of a drag over `segs`, the pads of `tr` already
   * translated: a segment with an end on a part ends the handler; otherwise
   * the end not yet translated moves, or the whole segment when neither
   * end has, and what moved is recorded. It moves what `Carry` says.
   */
  method SweepSegs(segs: seq<Segment>, tr: seq<Pad>, delta: Point, ghost all: seq<Pad>) returns (translated: seq<Pad>, stopped: bool, ghost moves: seq<Pad>)
    requires forall p :: p in PadsOf(segs) ==> p in all
    modifies (set p | p in all)`ring, (set p | p in all)`hole, Watchers(all)`line
    ensures (moves, stopped) == Carry(tr, Ends(segs), Bound(segs))
    ensures translated == tr + moves && forall p :: p in moves ==> p in all
    ensures Places(all) == Moves(old(Places(all)), moves, delta)
  {
    translated, stopped, moves := tr, false, [];
    ghost var start, bound := Places(all), Bound(segs);
    for i := 0 to |segs|
      invariant (moves, false) == Carry(tr, Ends(segs)[..i], bound)
      invariant translated == tr + moves && forall p :: p in moves ==> p in all
      invariant Places(all) == Moves(start, moves, delta)
    {
      translated, stopped, moves := SweepAt(segs, i, tr, translated, delta, all, start, moves, bound);
      if stopped {
        return;
      }
    }
    assert Ends(segs)[..|segs|] == Ends(segs);
  }

  /** `pt.translate(delta)` on a part whose pads are in `all`: its outline, its footprint's centre and its pads move once, the other pads of `all` stay. */
  method ShiftOne(pt: Part, delta: Point, ghost all: seq<Pad>)
    requires forall p :: p in pt.fp.pads ==> p in all
    modifies pt`ol, pt.fp`center, (set p | p in all)`ring, (set p | p in all)`hole, Watchers(all)`line
    ensures pt.ol == Slid(old(pt.ol), delta, 1) && pt.fp.center == Hop(old(pt.fp.center), delta, 1)
    ensures Places(all) == Moves(old(Places(all)), pt.fp.pads, delta)
  {
    ghost var big, small := Places(all), Places(pt.fp.pads);
    WatchersWithin(pt.fp.pads, all);
    pt.Translate(delta);
    MovesWiden(small, big, pt.fp.pads, delta);
    forall p | p in all
      ensures Places(all)[p] == Moves(big, pt.fp.pads, delta)[p]
    {
      if p in pt.fp.pads {
        assert Places(pt.fp.pads)[p] == Places(all)[p];
      }
    }
  }

  /** The outlines of the parts of `parts`. */
  ghost function Outlines(parts: seq<Part>): (m: map<Part, Rect>)
    reads (set pt | pt in parts)`ol
    ensures forall pt :: pt in parts ==> pt in m
  {
    map pt | pt in parts :: pt.ol
  }

  /** The centres of the footprints of `parts`. */
  ghost function Centers(parts: seq<Part>): (m: map<Footprint, Point>)
    reads Footprints(parts)`center
    ensures forall f :: f in Fps(parts) ==> f in m
  {
    map f | f in Footprints(parts) :: f.center
  }

  /** The outlines `m` after the parts of `parts` each move once by `d`, in turn. */
  function Slides(m: map<Part, Rect>, parts: seq<Part>, d: Point): (r: map<Part, Rect>)
    requires forall pt :: pt in parts ==> pt in m
    ensures r.Keys == m.Keys
  {
    if parts == [] then m
    else
      var r := Slides(m, parts[..|parts| - 1], d);
      r[parts[|parts| - 1] := Slid(r[parts[|parts| - 1]], d, 1)]
  }

  /** The centres `m` after the footprints of `fps` each move once by `d`, in turn. */
  function Hops(m: map<Footprint, Point>, fps: seq<Footprint>, d: Point): (r: map<Footprint, Point>)
    requires forall f :: f in fps ==> f in m
    ensures r.Keys == m.Keys
  {
    if fps == [] then m
    else
      var r := Hops(m, fps[..|fps| - 1], d);
      r[fps[|fps| - 1] := Hop(r[fps[|fps| - 1]], d, 1)]
  }

  /** A part listed `n` times moves its outline `n` times. */
  lemma {:induction false} SlidesCount(m: map<Part, Rect>, parts: seq<Part>, d: Point, pt: Part)
    requires (forall q :: q in parts ==> q in m) && pt in m
    ensures Slides(m, parts, d)[pt] == Slid(m[pt], d, Count(parts, pt))
  {
    if parts != [] {
      SlidesCount(m, parts[..|parts| - 1], d, pt);
      CountLast(parts, pt);
      var n := Count(parts[..|parts| - 1], pt);
      assert Slid(Slid(m[pt], d, n), d, 1) == Slid(m[pt], d, n + 1);
    }
  }

  /** A footprint listed `n` times moves its centre `n` times. */
  lemma {:induction false} HopsCount(m: map<Footprint, Point>, fps: seq<Footprint>, d: Point, f: Footprint)
    requires (forall g :: g in fps ==> g in m) && f in m
    ensures Hops(m, fps, d)[f] == Hop(m[f], d, Count(fps, f))
  {
    if fps != [] {
      HopsCount(m, fps[..|fps| - 1], d, f);
      CountLast(fps, f);
      var n := Count(fps[..|fps| - 1], f);
      assert Hop(Hop(m[f], d, n), d, 1) == Hop(m[f], d, n + 1);
    }
  }

  /** `ShiftOne` on the part at `i`, seen on the outlines and centres of all of `parts`. */
  method ShiftAt(parts: seq<Part>, i: nat, delta: Point, ghost all: seq<Pad>)
    requires i < |parts| && forall p :: p in PartPads(parts) ==> p in all
    modifies {parts[i]}`ol, {parts[i].fp}`center, (set p | p in all)`ring, (set p | p in all)`hole, Watchers(all)`line
    ensures Outlines(parts) == old(Outlines(parts))[parts[i] := Slid(old(parts[i].ol), delta, 1)]
    ensures Centers(parts) == old(Centers(parts))[parts[i].fp := Hop(old(parts[i].fp.center), delta, 1)]
    ensures Places(all) == Moves(old(Places(all)), parts[i].fp.pads, delta)
  {
    ShiftOne(parts[i], delta, all);
  }

  /** The outlines after the parts up to the one at `i`. */
  lemma SlidesNext(m: map<Part, Rect>, parts: seq<Part>, i: nat, d: Point)
    requires i < |parts| && forall pt :: pt in parts ==> pt in m
    ensures var r := Slides(m, parts[..i], d); Slides(m, parts[..i + 1], d) == r[parts[i] := Slid(r[parts[i]], d, 1)]
  {
    assert parts[..i + 1][..i] == parts[..i];
  }

  /** The centres after the footprints of the parts up to the one at `i`, and their pads. */
  lemma HopsNext(m: map<Footprint, Point>, parts: seq<Part>, i: nat, d: Point)
    requires i < |parts| && forall f :: f in Fps(parts) ==> f in m
    ensures var r := Hops(m, Fps(parts)[..i], d); Hops(m, Fps(parts)[..i + 1], d) == r[parts[i].fp := Hop(r[parts[i].fp], d, 1)]
    ensures FpPads(parts[..i + 1]) == FpPads(parts[..i]) + parts[i].fp.pads
  {
    assert Fps(parts)[..i + 1][..i] == Fps(parts)[..i];
    assert parts[..i + 1][..i] == parts[..i];
  }

  /**
   * The turn of the part loop on the part at `i`, the parts before it
   * having moved from `p0`, `o0` and `c0`: `ShiftAt`, after which the
   * parts up to it have moved.
   */
  method ShiftNext(parts: seq<Part>, i: nat, delta: Point, ghost all: seq<Pad>, ghost p0: map<Pad, Place>, ghost o0: map<Part, Rect>, ghost c0: map<Footprint, Point>)
    requires i < |parts| && forall p :: p in PartPads(parts) ==> p in all
    requires (forall p :: p in all ==> p in p0) && (forall pt :: pt in parts ==> pt in o0) && forall f :: f in Fps(parts) ==> f in c0
    requires Places(all) == Moves(p0, FpPads(parts[..i]), delta)
    requires Outlines(parts) == Slides(o0, parts[..i], delta)
    requires Centers(parts) == Hops(c0, Fps(parts)[..i], delta)
    modifies {parts[i]}`ol, {parts[i].fp}`center, (set p | p in all)`ring, (set p | p in all)`hole, Watchers(all)`line
    ensures Places(all) == Moves(p0, FpPads(parts[..i + 1]), delta)
    ensures Outlines(parts) == Slides(o0, parts[..i + 1], delta)
    ensures Centers(parts) == Hops(c0, Fps(parts)[..i + 1], delta)
  {
    ghost var ob, cb := Outlines(parts), Centers(parts);
    ghost var ol, ce := parts[i].ol, parts[i].fp.center;
    SlidesNext(o0, parts, i, delta);
    HopsNext(c0, parts, i, delta);
    ShiftAt(parts, i, delta, all);
    assert ob[parts[i]] == ol && cb[parts[i].fp] == ce;
    MovesAppend(p0, FpPads(parts[..i]), parts[i].fp.pads, delta);
  }

  /**
   * The part loop of a drag: each part of `parts` in turn is translated, so
   * a part listed `n` times, and a footprint shared by `n` listed parts,
   * moves `n` times (`SlidesCount`, `HopsCount`).
   */
  method ShiftParts(parts: seq<Part>, delta: Point, ghost all: seq<Pad>)
    requires forall p :: p in PartPads(parts) ==> p in all
    modifies (set pt | pt in parts)`ol, Footprints(parts)`center, (set p | p in all)`ring, (set p | p in all)`hole, Watchers(all)`line
    ensures Places(all) == Moves(old(Places(all)), FpPads(parts), delta)
    ensures Outlines(parts) == Slides(old(Outlines(parts)), parts, delta)
    ensures Centers(parts) == Hops(old(Centers(parts)), Fps(parts), delta)
  {
    ghost var p0, o0, c0 := Places(all), Outlines(parts), Centers(parts);
    for i := 0 to |parts|
      invariant Places(all) == Moves(p0, FpPads(parts[..i]), delta)
      invariant Outlines(parts) == Slides(o0, parts[..i], delta)
      invariant Centers(parts) == Hops(c0, Fps(parts)[..i], delta)
    {
      ShiftNext(parts, i, delta, all, p0, o0, c0);
    }
    assert parts[..|parts|] == parts && Fps(parts)[..|parts|] == Fps(parts);
  }


  /**
   * The three loops of a drag by `delta`: `pad.translate` on each pad of
   * `pads`, each recorded as translated; the segment loop over `segs`; and,
   * unless that loop returned, `translate` on each part of `parts`. The
   * pads of `all`, which holds every pad they reach, move as `Moves` says.
   */
  method Drag(pads: seq<Pad>, segs: seq<Segment>, parts: seq<Part>, delta: Point, ghost all: seq<Pad>) returns (stopped: bool, ghost moves: seq<Pad>)
    requires forall p :: p in pads ==> p in all
    requires forall p :: p in PadsOf(segs) ==> p in all
    requires forall p :: p in PartPads(parts) ==> p in all
    modifies (set p | p in all)`ring, (set p | p in all)`hole, Watchers(all)`line, (set pt | pt in parts)`ol, Footprints(parts)`center
    ensures (moves, stopped) == old(Carry(pads, Ends(segs), Bound(segs)))
    ensures Places(all) == Moves(old(Places(all)), pads + moves + (if stopped then [] else FpPads(parts)), delta)
    ensures Outlines(parts) == if stopped then old(Outlines(parts)) else Slides(old(Outlines(parts)), parts, delta)
    ensures Centers(parts) == if stopped then old(Centers(parts)) else Hops(old(Centers(parts)), Fps(parts), delta)
  {
    ghost var before := Places(all);
    stopped, moves := DragEnds(pads, segs, delta, all);
    if stopped {
      assert pads + moves + [] == pads + moves;
      return;
    }
    ShiftParts(parts, delta, all);
    MovesAppend(before, pads + moves, FpPads(parts), delta);
  }

  /** The pad loop and the segment loop of a drag, which leave the parts where they were. */
  method DragEnds(pads: seq<Pad>, segs: seq<Segment>, delta: Point, ghost all: seq<Pad>) returns (stopped: bool, ghost moves: seq<Pad>)
    requires forall p :: p in pads ==> p in all
    requires forall p :: p in PadsOf(segs) ==> p in all
    modifies (set p | p in all)`ring, (set p | p in all)`hole, Watchers(all)`line
    ensures (moves, stopped) == old(Carry(pads, Ends(segs), Bound(segs)))
    ensures Places(all) == Moves(old(Places(all)), pads + moves, delta) && forall p :: p in pads + moves ==> p in all
  {
    ghost var bound, before := Bound(segs), Places(all);
    TranslateWithin(pads, all, delta);
    assert Bound(segs) == bound;
    var translated := pads;
    translated, stopped, moves := SweepSegs(segs, translated, delta, all);
    assert forall p :: p in pads + moves ==> p in before;
    MovesAppend(before, pads, moves, delta);
  }

}
