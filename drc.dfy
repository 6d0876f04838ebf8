/**
 * The pairing of the design-rule check of src/pcbEditor/DesignArea.java
 * (`runDesignRuleCheck`): which items are compared with which, in which
 * order, and what a report does to a selection list. The geometry of the
 * comparison (`isOverlapping` of two padded outlines) is an uninterpreted
 * oracle; a net enters as a `Layer`, a snapshot of its pads, of those of
 * them that are visible, and of its segments.
 */
module Drc {
  import opened Lists
  import opened Pcb

  /** What the check compares: a part, a trace segment or a pad. */
  datatype Item = PartItem(part: Part) | SegItem(seg: Segment) | PadItem(pad: Pad)

  /** One comparison: the outline of `near` is widened by the spacing, that of `far` is not. */
  datatype Check = Check(near: Item, far: Item)

  /** A net as the check sees it: its pads in graph order, the visible ones among them, and its segments. */
  datatype Layer = Layer(pads: seq<Pad>, shown: seq<Pad>, segs: seq<Segment>)

  /** The visible pads of `ps`, in order. */
  function Visible(ps: seq<Pad>): (r: seq<Pad>)
    reads (set p | p in ps)`visible
    ensures forall p :: p in r ==> p in ps && p.visible
    ensures forall p :: p in ps && p.visible ==> p in r
  {
    if ps == [] then [] else (if ps[0].visible then [ps[0]] else []) + Visible(ps[1..])
  }

  /** The visibility of each pad of `ps`, in order. */
  function Views(ps: seq<Pad>): (r: seq<bool>)
    reads (set p | p in ps)`visible
    ensures |r| == |ps| && forall i :: 0 <= i < |ps| ==> r[i] == ps[i].visible
  {
    if ps == [] then [] else [ps[0].visible] + Views(ps[1..])
  }

  /** The pads of `ps` whose flag in `vis` is set, in order. */
  function ShownBy(ps: seq<Pad>, vis: seq<bool>): seq<Pad>
    requires |vis| == |ps|
  {
    if ps == [] then [] else (if vis[0] then [ps[0]] else []) + ShownBy(ps[1..], vis[1..])
  }

  /** The visible pads are those the snapshot of the flags shows. */
  lemma {:induction false} VisibleShown(ps: seq<Pad>)
    ensures Visible(ps) == ShownBy(ps, Views(ps))
  {
    if ps != [] {
      VisibleShown(ps[1..]);
      assert Views(ps)[1..] == Views(ps[1..]);
    }
  }

  /** A net as the check finds it. */
  ghost function LayerOf(n: Net): Layer
    reads n`segs, n.graph.adj`keys, (set p | p in n.graph.adj.keys)`visible
  {
    Layer(n.graph.adj.keys, Visible(n.graph.adj.keys), n.segs)
  }

  /** The nets as the check finds them. */
  ghost function Layers(ns: seq<Net>): (r: seq<Layer>)
    reads (set n | n in ns)`segs, (set n | n in ns :: n.graph.adj)`keys
    reads (set n, p | n in ns && p in n.graph.adj.keys :: p)`visible
    ensures |r| == |ns| && forall i :: 0 <= i < |ns| ==> r[i] == LayerOf(ns[i])
  {
    if ns == [] then []
    else
      var rest := Layers(ns[1..]);
      assert forall i :: 1 <= i < |ns| ==> rest[i - 1] == LayerOf(ns[i]);
      [LayerOf(ns[0])] + rest
  }

  function PartItems(ps: seq<Part>): seq<Item> {
    seq(|ps|, k requires 0 <= k < |ps| => PartItem(ps[k]))
  }

  function SegItems(ss: seq<Segment>): seq<Item> {
    seq(|ss|, k requires 0 <= k < |ss| => SegItem(ss[k]))
  }

  function PadItems(ps: seq<Pad>): seq<Item> {
    seq(|ps|, k requires 0 <= k < |ps| => PadItem(ps[k]))
  }

  /** `near` against each of `fars`, in order. */
  function Each(near: Item, fars: seq<Item>): seq<Check> {
    seq(|fars|, k requires 0 <= k < |fars| => Check(near, fars[k]))
  }

  /**
   * What `near`, of an earlier net, is compared with in net `l`: its pads,
   * only the visible ones when `near` is a segment but all of them when it
   * is a pad, then its segments.
   */
  function Opposite(near: Item, l: Layer): seq<Item> {
    PadItems(if near.SegItem? then l.shown else l.pads) + SegItems(l.segs)
  }

  /** `near` against each later net in turn. */
  function Toward(near: Item, later: seq<Layer>): seq<Check> {
    if later == [] then [] else Each(near, Opposite(near, later[0])) + Toward(near, later[1..])
  }

  /** Each segment of a net in turn against the later nets. */
  function FromSegs(ss: seq<Segment>, later: seq<Layer>): seq<Check> {
    if ss == [] then [] else Toward(SegItem(ss[0]), later) + FromSegs(ss[1..], later)
  }

  /** Each (visible) pad of a net in turn against the later nets. */
  function FromPads(ps: seq<Pad>, later: seq<Layer>): seq<Check> {
    if ps == [] then [] else Toward(PadItem(ps[0]), later) + FromPads(ps[1..], later)
  }

  /** What an item of a net is compared from: its segments, then its visible pads. */
  function Nears(l: Layer): seq<Item> {
    SegItems(l.segs) + PadItems(l.shown)
  }

  /** The comparisons of the net loop: each net, first to last, against the nets after it. */
  function NetChecks(ls: seq<Layer>): seq<Check> {
    if ls == [] then [] else FromSegs(ls[0].segs, ls[1..]) + FromPads(ls[0].shown, ls[1..]) + NetChecks(ls[1..])
  }

  /** The comparisons of the part loop: each part, first to last, against the parts after it. */
  function PartChecks(ps: seq<Part>): seq<Check> {
    if ps == [] then [] else Each(PartItem(ps[0]), PartItems(ps[1..])) + PartChecks(ps[1..])
  }

  /** Every comparison of one run of the check, in order. */
  function Checks(ps: seq<Part>, ls: seq<Layer>): seq<Check> {
    PartChecks(ps) + NetChecks(ls)
  }

  /** The oracle's answer for `c`: `near` padded by `gap` overlaps `far` padded by nothing. */
  predicate Clash(c: Check, overlaps: (Item, real, Item, real) -> bool, gap: real) {
    overlaps(c.near, gap, c.far, 0.0)
  }

  /** The comparisons of `cs` that find a violation, in order: the reports the check shows. */
  function Hits(cs: seq<Check>, overlaps: (Item, real, Item, real) -> bool, gap: real): (r: seq<Check>)
    ensures |r| <= |cs|
  {
    if cs == [] then [] else (if Clash(cs[0], overlaps, gap) then [cs[0]] else []) + Hits(cs[1..], overlaps, gap)
  }

  /** The reports of two runs of comparisons one after the other. */
  lemma {:induction false} HitsAppend(a: seq<Check>, b: seq<Check>, overlaps: (Item, real, Item, real) -> bool, gap: real)
    ensures Hits(a + b, overlaps, gap) == Hits(a, overlaps, gap) + Hits(b, overlaps, gap)
  {
    if a == [] {
      assert a + b == b;
    } else {
      var h := if Clash(a[0], overlaps, gap) then [a[0]] else [];
      assert (a + b)[0] == a[0] && (a + b)[1..] == a[1..] + b;
      HitsAppend(a[1..], b, overlaps, gap);
      calc {
        Hits(a + b, overlaps, gap);
        h + Hits(a[1..] + b, overlaps, gap);
        h + (Hits(a[1..], overlaps, gap) + Hits(b, overlaps, gap));
        (h + Hits(a[1..], overlaps, gap)) + Hits(b, overlaps, gap);
      }
    }
  }

  /** A comparison is reported exactly when it is made and the oracle finds the overlap. */
  lemma {:induction false} HitsIff(cs: seq<Check>, overlaps: (Item, real, Item, real) -> bool, gap: real)
    ensures forall c :: c in Hits(cs, overlaps, gap) <==> c in cs && Clash(c, overlaps, gap)
  {
    if cs != [] {
      HitsIff(cs[1..], overlaps, gap);
      assert forall c :: c in cs <==> c == cs[0] || c in cs[1..];
    }
  }

  /** There is no report exactly when no comparison finds an overlap. */
  lemma NoHits(cs: seq<Check>, overlaps: (Item, real, Item, real) -> bool, gap: real)
    ensures Hits(cs, overlaps, gap) == [] <==> forall c :: c in cs ==> !Clash(c, overlaps, gap)
  {
    HitsIff(cs, overlaps, gap);
    if Hits(cs, overlaps, gap) != [] {
      assert Hits(cs, overlaps, gap)[0] in Hits(cs, overlaps, gap);
    }
  }

  /** The part loop compares exactly the parts `ps[i]` and `ps[j]` with `i < j`, the earlier one widened. */
  lemma {:induction false} PartPairs(ps: seq<Part>, c: Check)
    ensures c in PartChecks(ps) <==> exists i, j :: 0 <= i < j < |ps| && c == Check(PartItem(ps[i]), PartItem(ps[j]))
  {
    if ps != [] {
      PartPairs(ps[1..], c);
      var e := Each(PartItem(ps[0]), PartItems(ps[1..]));
      if c in e {
        var k :| 0 <= k < |e| && e[k] == c;
        assert c == Check(PartItem(ps[0]), PartItem(ps[k + 1]));
      } else if c in PartChecks(ps[1..]) {
        var i, j :| 0 <= i < j < |ps[1..]| && c == Check(PartItem(ps[1..][i]), PartItem(ps[1..][j]));
        assert c == Check(PartItem(ps[i + 1]), PartItem(ps[j + 1]));
      }
      if exists i, j :: 0 <= i < j < |ps| && c == Check(PartItem(ps[i]), PartItem(ps[j])) {
        var i, j :| 0 <= i < j < |ps| && c == Check(PartItem(ps[i]), PartItem(ps[j]));
        if i == 0 {
          assert e[j - 1] == c;
        } else {
          assert c == Check(PartItem(ps[1..][i - 1]), PartItem(ps[1..][j - 1]));
        }
      }
    }
  }

  /** The part loop makes one comparison per unordered pair of positions. */
  lemma {:induction false} PartCount(ps: seq<Part>)
    ensures 2 * |PartChecks(ps)| == |ps| * (|ps| - 1)
  {
    if ps != [] {
      PartCount(ps[1..]);
    }
  }

  /** With no part listed twice, no pair of parts is compared twice, in either order, and no part with itself. */
  lemma PartsOnce(ps: seq<Part>, c: Check)
    requires Distinct(ps)
    requires c in PartChecks(ps)
    ensures c.near != c.far && Check(c.far, c.near) !in PartChecks(ps)
    ensures Count(PartChecks(ps), c) == 1
  {
    PartPairs(ps, c);
    PartPairs(ps, Check(c.far, c.near));
    PartsDistinct(ps);
    DistinctCount(PartChecks(ps), c);
  }

  /** With no part listed twice, the part loop repeats no comparison. */
  lemma {:induction false} PartsDistinct(ps: seq<Part>)
    requires Distinct(ps)
    ensures Distinct(PartChecks(ps))
  {
    if ps != [] {
      var e := Each(PartItem(ps[0]), PartItems(ps[1..]));
      assert Distinct(ps[1..]) by {
        forall i, j | 0 <= i < j < |ps[1..]| ensures ps[1..][i] != ps[1..][j] {
          assert ps[1..][i] == ps[i + 1] && ps[1..][j] == ps[j + 1];
        }
      }
      PartsDistinct(ps[1..]);
      forall c | c in PartChecks(ps[1..]) ensures c !in e {
        PartPairs(ps[1..], c);
        var i, j :| 0 <= i < j < |ps[1..]| && c == Check(PartItem(ps[1..][i]), PartItem(ps[1..][j]));
        assert c.near == PartItem(ps[i + 1]);
      }
      DistinctAppend(e, PartChecks(ps[1..]));
    }
  }

  /** `near` is compared with exactly the items `Opposite` picks from each later net. */
  lemma {:induction false} TowardIn(near: Item, later: seq<Layer>, c: Check)
    ensures c in Toward(near, later) <==> c.near == near && exists j :: 0 <= j < |later| && c.far in Opposite(near, later[j])
  {
    if later != [] {
      TowardIn(near, later[1..], c);
      var e := Each(near, Opposite(near, later[0]));
      if c in e {
        var k :| 0 <= k < |e| && e[k] == c;
        assert c.far in Opposite(near, later[0]);
      } else if c in Toward(near, later[1..]) {
        var j :| 0 <= j < |later[1..]| && c.far in Opposite(near, later[1..][j]);
        assert later[1..][j] == later[j + 1];
      }
      if c.near == near && exists j :: 0 <= j < |later| && c.far in Opposite(near, later[j]) {
        var j :| 0 <= j < |later| && c.far in Opposite(near, later[j]);
        if j == 0 {
          var k :| 0 <= k < |Opposite(near, later[0])| && Opposite(near, later[0])[k] == c.far;
          assert e[k] == c;
        } else {
          assert later[1..][j - 1] == later[j];
        }
      }
    }
  }

  /** Each segment of `ss`, and nothing else, is compared with what `Opposite` picks from each later net. */
  lemma {:induction false} FromSegsIn(ss: seq<Segment>, later: seq<Layer>, c: Check)
    ensures c in FromSegs(ss, later) <==> c.near in SegItems(ss) && exists j :: 0 <= j < |later| && c.far in Opposite(c.near, later[j])
  {
    if ss != [] {
      TowardIn(SegItem(ss[0]), later, c);
      FromSegsIn(ss[1..], later, c);
      assert SegItems(ss) == [SegItem(ss[0])] + SegItems(ss[1..]);
    }
  }

  /** Each pad of `ps`, and nothing else, is compared with what `Opposite` picks from each later net. */
  lemma {:induction false} FromPadsIn(ps: seq<Pad>, later: seq<Layer>, c: Check)
    ensures c in FromPads(ps, later) <==> c.near in PadItems(ps) && exists j :: 0 <= j < |later| && c.far in Opposite(c.near, later[j])
  {
    if ps != [] {
      TowardIn(PadItem(ps[0]), later, c);
      FromPadsIn(ps[1..], later, c);
      assert PadItems(ps) == [PadItem(ps[0])] + PadItems(ps[1..]);
    }
  }

  /**
   * The net loop compares exactly a segment or visible pad of a net `i`
   * with what `Opposite` picks from a net `j` after it: no net with itself
   * or with an earlier one.
   */
  lemma {:induction false} NetPairs(ls: seq<Layer>, c: Check)
    ensures c in NetChecks(ls) <==>
      exists i, j :: 0 <= i < j < |ls| && c.near in Nears(ls[i]) && c.far in Opposite(c.near, ls[j])
  {
    if ls != [] {
      var later := ls[1..];
      NetPairs(later, c);
      FromSegsIn(ls[0].segs, later, c);
      FromPadsIn(ls[0].shown, later, c);
      assert c.near in Nears(ls[0]) <==> c.near in SegItems(ls[0].segs) || c.near in PadItems(ls[0].shown);
      if c in NetChecks(ls) {
        if c in NetChecks(later) {
          var i, j :| 0 <= i < j < |later| && c.near in Nears(later[i]) && c.far in Opposite(c.near, later[j]);
          assert later[i] == ls[i + 1] && later[j] == ls[j + 1];
          assert 0 <= i + 1 < j + 1 < |ls| && c.near in Nears(ls[i + 1]) && c.far in Opposite(c.near, ls[j + 1]);
        } else {
          var j :| 0 <= j < |later| && c.far in Opposite(c.near, later[j]);
          assert later[j] == ls[j + 1];
          assert 0 < j + 1 < |ls| && c.near in Nears(ls[0]) && c.far in Opposite(c.near, ls[j + 1]);
        }
      }
      if exists i, j :: 0 <= i < j < |ls| && c.near in Nears(ls[i]) && c.far in Opposite(c.near, ls[j]) {
        var i, j :| 0 <= i < j < |ls| && c.near in Nears(ls[i]) && c.far in Opposite(c.near, ls[j]);
        assert later[j - 1] == ls[j];
        if i > 0 {
          assert later[i - 1] == ls[i];
          assert c in NetChecks(later);
        } else {
          assert c in FromSegs(ls[0].segs, later) + FromPads(ls[0].shown, later);
        }
      }
    }
  }


  /** A visible pad is compared with every pad of a later net, visible or not. */
  lemma FarPadsUnfiltered(ls: seq<Layer>, i: nat, j: nat, p: Pad, q: Pad)
    requires i < j < |ls| && p in ls[i].shown && q in ls[j].pads
    ensures Check(PadItem(p), PadItem(q)) in NetChecks(ls)
  {
    var pk :| 0 <= pk < |ls[i].shown| && ls[i].shown[pk] == p;
    assert Nears(ls[i])[|ls[i].segs| + pk] == PadItem(p);
    var qk :| 0 <= qk < |ls[j].pads| && ls[j].pads[qk] == q;
    assert Opposite(PadItem(p), ls[j])[qk] == PadItem(q);
    NetPairs(ls, Check(PadItem(p), PadItem(q)));
  }

  /** A segment is compared with each visible pad of a later net. */
  lemma SegsMeetShown(ls: seq<Layer>, i: nat, k: nat, s: Segment, q: Pad)
    requires i < k < |ls| && s in ls[i].segs && q in ls[k].shown
    ensures Check(SegItem(s), PadItem(q)) in NetChecks(ls)
  {
    var sk :| 0 <= sk < |ls[i].segs| && ls[i].segs[sk] == s;
    assert Nears(ls[i])[sk] == SegItem(s);
    var r :| 0 <= r < |ls[k].shown| && ls[k].shown[r] == q;
    assert Opposite(SegItem(s), ls[k])[r] == PadItem(q);
    NetPairs(ls, Check(SegItem(s), PadItem(q)));
  }

  /** A segment is never compared with a pad that is hidden in every net. */
  lemma SegsSkipHidden(ls: seq<Layer>, s: Segment, q: Pad)
    requires Check(SegItem(s), PadItem(q)) in NetChecks(ls)
    ensures exists k :: 0 <= k < |ls| && q in ls[k].shown
  {
    NetPairs(ls, Check(SegItem(s), PadItem(q)));
    var a, b :| 0 <= a < b < |ls| && SegItem(s) in Nears(ls[a]) && PadItem(q) in Opposite(SegItem(s), ls[b]);
    ShownOpposite(s, ls[b], q);
  }

  /** The only pads a segment meets in a net are its visible ones. */
  lemma ShownOpposite(s: Segment, l: Layer, q: Pad)
    requires PadItem(q) in Opposite(SegItem(s), l)
    ensures q in l.shown
  {
    var o := Opposite(SegItem(s), l);
    var r :| 0 <= r < |o| && o[r] == PadItem(q);
    if r < |l.shown| {
      assert l.shown[r] == q;
    }
  }

  /** The parts among `xs`, in order. */
  function PartsIn(xs: seq<Item>): seq<Part> {
    if xs == [] then [] else (if xs[0].PartItem? then [xs[0].part] else []) + PartsIn(xs[1..])
  }

  /** The segments among `xs`, in order. */
  function SegsIn(xs: seq<Item>): seq<Segment> {
    if xs == [] then [] else (if xs[0].SegItem? then [xs[0].seg] else []) + SegsIn(xs[1..])
  }

  /** The pads among `xs`, in order. */
  function PadsIn(xs: seq<Item>): seq<Pad> {
    if xs == [] then [] else (if xs[0].PadItem? then [xs[0].pad] else []) + PadsIn(xs[1..])
  }

  /** `remove(x)` of each `x` of `xs` in turn. */
  function RemoveEach<T(==)>(s: seq<T>, xs: seq<T>): seq<T> {
    if xs == [] then s else RemoveEach(RemoveFirst(s, xs[0]), xs[1..])
  }

  /** What one report does to a selection list: `add(x)` of each `x` of `xs`, then `remove(x)` of each. */
  function Blink<T(==)>(s: seq<T>, xs: seq<T>): seq<T> {
    RemoveEach(s + xs, xs)
  }

  /** Removing elements that are there takes exactly them out of the multiset. */
  lemma {:induction false} RemoveEachMultiset<T>(s: seq<T>, xs: seq<T>)
    requires multiset(xs) <= multiset(s)
    ensures multiset(RemoveEach(s, xs)) == multiset(s) - multiset(xs)
  {
    if xs != [] {
      assert xs == [xs[0]] + xs[1..];
      assert xs[0] in multiset(s);
      RemoveFirstMultiset(s, xs[0]);
      RemoveEachMultiset(RemoveFirst(s, xs[0]), xs[1..]);
    }
  }

  /** A report leaves each selection list with the elements it had, each as often. */
  lemma BlinkKeeps<T>(s: seq<T>, xs: seq<T>)
    ensures multiset(Blink(s, xs)) == multiset(s)
  {
    RemoveEachMultiset(s + xs, xs);
  }

  /** A report about items that were not selected leaves the list exactly as it was. */
  lemma {:induction false} BlinkFresh<T>(s: seq<T>, xs: seq<T>)
    requires forall x :: x in xs ==> x !in s
    ensures Blink(s, xs) == s
  {
    if xs != [] {
      RemoveFirstPast(s, xs, xs[0]);
      assert RemoveFirst(xs, xs[0]) == xs[1..];
      assert Blink(s, xs) == Blink(s, xs[1..]);
      BlinkFresh(s, xs[1..]);
    }
  }

  /** The parts whose flag `setSelected` of `x` sets. */
  function PartsAt(x: Item): set<Part> {
    if x.PartItem? then {x.part} else {}
  }

  /** The footprints whose flag `setSelected` of `x` sets. */
  function FpsAt(x: Item): set<Footprint> {
    if x.PartItem? then {x.part.fp} else {}
  }

  /** The pads whose flag `setSelected` of `x` sets: the pad, or the pads of the part's footprint. */
  function PadsAt(x: Item): set<Pad> {
    match x
    case PartItem(pt) => set p | p in pt.fp.pads
    case PadItem(p) => {p}
    case SegItem(_) => {}
  }

  /** The segments whose flag `setSelected` of `x` sets. */
  function SegsAt(x: Item): set<Segment> {
    if x.SegItem? then {x.seg} else {}
  }

  /** Every flag that `setSelected` of `x` sets is `on`. */
  ghost predicate Lit(x: Item, on: bool)
    reads PartsAt(x)`selected, FpsAt(x)`selected, PadsAt(x)`selected, SegsAt(x)`selected
  {
    && (forall pt :: pt in PartsAt(x) ==> pt.selected == on)
    && (forall f :: f in FpsAt(x) ==> f.selected == on)
    && (forall p :: p in PadsAt(x) ==> p.selected == on)
    && (forall s :: s in SegsAt(x) ==> s.selected == on)
  }

  /** The objects whose flags the check may set: the parts, the footprints and pads of parts, the nets' pads and segments. */
  datatype Scope = Scope(parts: set<Part>, pads: set<Pad>, segs: set<Segment>)

  /** The footprints of the parts of `u`. */
  function FpsOf(u: Scope): set<Footprint> {
    set pt | pt in u.parts :: pt.fp
  }

  /** Every flag `setSelected` of `x` sets is within `u`. */
  predicate InScope(u: Scope, x: Item) {
    PartsAt(x) <= u.parts && PadsAt(x) <= u.pads && SegsAt(x) <= u.segs
  }

  /** `x.setSelected(on)`: for a part also its footprint's and the footprint's pads'. */
  method Light(x: Item, on: bool)
    modifies PartsAt(x)`selected, FpsAt(x)`selected, PadsAt(x)`selected, SegsAt(x)`selected
    ensures Lit(x, on)
  {
    match x
    case PartItem(pt) => pt.SetSelected(on);
    case SegItem(s) => s.SetSelected(on);
    case PadItem(p) => p.SetSelected(on);
  }

  /** The footprint of a part in scope is in scope. */
  lemma FpsWithin(u: Scope, x: Item)
    requires InScope(u, x)
    ensures FpsAt(x) <= FpsOf(u)
  {
    if x.PartItem? {
      assert x.part in u.parts;
    }
  }

  /** Every report of `cs` is within `u`, and both its items are unselected. */
  ghost predicate Dark(u: Scope, cs: seq<Check>)
    reads u.parts`selected, FpsOf(u)`selected, u.pads`selected, u.segs`selected
  {
    forall e :: e in cs ==>
      && InScope(u, e.near) && InScope(u, e.far)
      && (FpsWithin(u, e.near); FpsWithin(u, e.far); Lit(e.near, false) && Lit(e.far, false))
  }

  /** The first comparison of `near` against `xs`, and the rest. */
  lemma EachCons(near: Item, xs: seq<Item>)
    requires xs != []
    ensures Each(near, xs) == [Check(near, xs[0])] + Each(near, xs[1..])
  {
    assert Each(near, xs)[1..] == Each(near, xs[1..]);
  }

  /** Comparing against two lists one after the other. */
  lemma EachAppend(near: Item, xs: seq<Item>, ys: seq<Item>)
    ensures Each(near, xs + ys) == Each(near, xs) + Each(near, ys)
  {
  }

  /** Pad items of two lists one after the other. */
  lemma PadItemsAppend(ps: seq<Pad>, qs: seq<Pad>)
    ensures PadItems(ps + qs) == PadItems(ps) + PadItems(qs)
  {
  }

  /** The first pad of `ps` is compared when its flag is set; then the rest. */
  lemma ShownCons(near: Item, ps: seq<Pad>, vis: seq<bool>)
    requires |vis| == |ps| && ps != []
    ensures Each(near, PadItems(ShownBy(ps, vis))) == (if vis[0] then [Check(near, PadItem(ps[0]))] else []) + Each(near, PadItems(ShownBy(ps[1..], vis[1..])))
  {
    var rest := ShownBy(ps[1..], vis[1..]);
    if vis[0] {
      PadItemsAppend([ps[0]], rest);
      EachAppend(near, PadItems([ps[0]]), PadItems(rest));
    }
  }

  /** The reports of a segment against the pads from `k` on: the `k`-th pad's when its flag is set, then the rest. */
  lemma ShownStep(near: Item, ps: seq<Pad>, vis: seq<bool>, k: nat, overlaps: (Item, real, Item, real) -> bool, gap: real)
    requires |vis| == |ps| && k < |ps|
    ensures Hits(Each(near, PadItems(ShownBy(ps[k..], vis[k..]))), overlaps, gap)
      == (if vis[k] then Hits([Check(near, PadItem(ps[k]))], overlaps, gap) else []) + Hits(Each(near, PadItems(ShownBy(ps[k + 1..], vis[k + 1..]))), overlaps, gap)
  {
    ShownCons(near, ps[k..], vis[k..]);
    assert ps[k..][1..] == ps[k + 1..] && vis[k..][1..] == vis[k + 1..];
    var c := Check(near, PadItem(ps[k]));
    HitsAppend(if vis[k] then [c] else [], Each(near, PadItems(ShownBy(ps[k + 1..], vis[k + 1..]))), overlaps, gap);
  }

  /** The reports of `near` against `xs` from `k` on: the `k`th comparison's, then the rest. */
  lemma EachStep(near: Item, xs: seq<Item>, k: nat, overlaps: (Item, real, Item, real) -> bool, gap: real)
    requires k < |xs|
    ensures Hits(Each(near, xs[k..]), overlaps, gap) == Hits([Check(near, xs[k])], overlaps, gap) + Hits(Each(near, xs[k + 1..]), overlaps, gap)
  {
    EachCons(near, xs[k..]);
    assert xs[k..][1..] == xs[k + 1..];
    HitsAppend([Check(near, xs[k])], Each(near, xs[k + 1..]), overlaps, gap);
  }

  /** Reports gathered so far, the next ones, then the rest: the grouping does not matter. */
  lemma Regroup(a: seq<Check>, b: seq<Check>, c: seq<Check>)
    ensures a + (b + c) == (a + b) + c
  {
  }

  /** The reports of `near` against the later nets from `j` on: net `j`'s, then the rest. */
  lemma TowardStep(near: Item, ls: seq<Layer>, j: nat, overlaps: (Item, real, Item, real) -> bool, gap: real)
    requires j < |ls|
    ensures Hits(Toward(near, ls[j..]), overlaps, gap)
      == Hits(Each(near, Opposite(near, ls[j])), overlaps, gap) + Hits(Toward(near, ls[j + 1..]), overlaps, gap)
  {
    assert ls[j..][1..] == ls[j + 1..];
    HitsAppend(Each(near, Opposite(near, ls[j])), Toward(near, ls[j + 1..]), overlaps, gap);
  }

  /** The reports of the segments from `k` on: segment `k`'s, then the rest. */
  lemma FromSegsStep(ss: seq<Segment>, later: seq<Layer>, k: nat, overlaps: (Item, real, Item, real) -> bool, gap: real)
    requires k < |ss|
    ensures Hits(FromSegs(ss[k..], later), overlaps, gap)
      == Hits(Toward(SegItem(ss[k]), later), overlaps, gap) + Hits(FromSegs(ss[k + 1..], later), overlaps, gap)
  {
    assert ss[k..][1..] == ss[k + 1..];
    HitsAppend(Toward(SegItem(ss[k]), later), FromSegs(ss[k + 1..], later), overlaps, gap);
  }

  /** The reports of the pads from `k` on when pad `k` is hidden: those of the pads after it. */
  lemma FromPadsSkip(ps: seq<Pad>, vis: seq<bool>, later: seq<Layer>, k: nat, overlaps: (Item, real, Item, real) -> bool, gap: real)
    requires |vis| == |ps| && k < |ps| && !vis[k]
    ensures Hits(FromPads(ShownBy(ps[k..], vis[k..]), later), overlaps, gap) == Hits(FromPads(ShownBy(ps[k + 1..], vis[k + 1..]), later), overlaps, gap)
  {
    assert ps[k..][1..] == ps[k + 1..] && vis[k..][1..] == vis[k + 1..];
    assert ShownBy(ps[k..], vis[k..]) == ShownBy(ps[k + 1..], vis[k + 1..]);
  }

  /** The reports of the pads from `k` on when pad `k` is visible: its own, then those of the pads after it. */
  lemma FromPadsTake(ps: seq<Pad>, vis: seq<bool>, later: seq<Layer>, k: nat, overlaps: (Item, real, Item, real) -> bool, gap: real)
    requires |vis| == |ps| && k < |ps| && vis[k]
    ensures Hits(FromPads(ShownBy(ps[k..], vis[k..]), later), overlaps, gap)
      == Hits(Toward(PadItem(ps[k]), later), overlaps, gap) + Hits(FromPads(ShownBy(ps[k + 1..], vis[k + 1..]), later), overlaps, gap)
  {
    assert ps[k..][1..] == ps[k + 1..] && vis[k..][1..] == vis[k + 1..];
    var rest := ShownBy(ps[k + 1..], vis[k + 1..]);
    assert ShownBy(ps[k..], vis[k..]) == [ps[k]] + rest;
    assert ([ps[k]] + rest)[1..] == rest;
    HitsAppend(Toward(PadItem(ps[k]), later), FromPads(rest, later), overlaps, gap);
  }

  /** The reports of the pads from `k` on: pad `k`'s when its flag is set, then those of the pads after it. */
  lemma FromPadsStep(ps: seq<Pad>, vis: seq<bool>, later: seq<Layer>, k: nat, overlaps: (Item, real, Item, real) -> bool, gap: real)
    requires |vis| == |ps| && k < |ps|
    ensures Hits(FromPads(ShownBy(ps[k..], vis[k..]), later), overlaps, gap)
      == (if vis[k] then Hits(Toward(PadItem(ps[k]), later), overlaps, gap) else []) + Hits(FromPads(ShownBy(ps[k + 1..], vis[k + 1..]), later), overlaps, gap)
  {
    if vis[k] {
      FromPadsTake(ps, vis, later, k, overlaps, gap);
    } else {
      FromPadsSkip(ps, vis, later, k, overlaps, gap);
      assert [] + Hits(FromPads(ShownBy(ps[k + 1..], vis[k + 1..]), later), overlaps, gap) == Hits(FromPads(ShownBy(ps[k + 1..], vis[k + 1..]), later), overlaps, gap);
    }
  }

  /** The reports of the pad loop over `ps` with the flags `vis`, pad by pad: each shown pad against the later nets. */
  function PadHits(ps: seq<Pad>, vis: seq<bool>, later: seq<Layer>, overlaps: (Item, real, Item, real) -> bool, gap: real): seq<Check>
    requires |vis| == |ps|
  {
    if ps == [] then [] else (if vis[0] then Hits(Toward(PadItem(ps[0]), later), overlaps, gap) else []) + PadHits(ps[1..], vis[1..], later, overlaps, gap)
  }

  /** Pad by pad, the pad loop reports what the comparisons of the shown pads report. */
  lemma {:induction false} PadHitsFlat(ps: seq<Pad>, vis: seq<bool>, later: seq<Layer>, overlaps: (Item, real, Item, real) -> bool, gap: real)
    requires |vis| == |ps|
    ensures PadHits(ps, vis, later, overlaps, gap) == Hits(FromPads(ShownBy(ps, vis), later), overlaps, gap)
  {
    if ps != [] {
      PadHitsFlat(ps[1..], vis[1..], later, overlaps, gap);
      assert ps[0..] == ps && vis[0..] == vis;
      FromPadsStep(ps, vis, later, 0, overlaps, gap);
    }
  }

  /** The pad loop from pad `k` on: pad `k`'s reports, then the rest. */
  lemma PadHitsStep(ps: seq<Pad>, vis: seq<bool>, later: seq<Layer>, k: nat, overlaps: (Item, real, Item, real) -> bool, gap: real)
    requires |vis| == |ps| && k < |ps|
    ensures PadHits(ps[k..], vis[k..], later, overlaps, gap)
      == (if vis[k] then Hits(Toward(PadItem(ps[k]), later), overlaps, gap) else []) + PadHits(ps[k + 1..], vis[k + 1..], later, overlaps, gap)
  {
    assert ps[k..][1..] == ps[k + 1..] && vis[k..][1..] == vis[k + 1..];
  }

  /** The reports of the nets from `i` on: net `i`'s segments, its visible pads, then the later nets'. */
  lemma NetChecksStep(ls: seq<Layer>, i: nat, overlaps: (Item, real, Item, real) -> bool, gap: real)
    requires i < |ls|
    ensures Hits(NetChecks(ls[i..]), overlaps, gap)
      == Hits(FromSegs(ls[i].segs, ls[i + 1..]), overlaps, gap) + Hits(FromPads(ls[i].shown, ls[i + 1..]), overlaps, gap) + Hits(NetChecks(ls[i + 1..]), overlaps, gap)
  {
    assert ls[i..][1..] == ls[i + 1..];
    var a := FromSegs(ls[i].segs, ls[i + 1..]);
    var b := FromPads(ls[i].shown, ls[i + 1..]);
    HitsAppend(a + b, NetChecks(ls[i + 1..]), overlaps, gap);
    HitsAppend(a, b, overlaps, gap);
  }

  /** The reports of the parts from `i` on: part `i` against the parts after it, then the rest. */
  lemma PartChecksStep(ps: seq<Part>, i: nat, overlaps: (Item, real, Item, real) -> bool, gap: real)
    requires i < |ps|
    ensures Hits(PartChecks(ps[i..]), overlaps, gap)
      == Hits(Each(PartItem(ps[i]), PartItems(ps[i + 1..])), overlaps, gap) + Hits(PartChecks(ps[i + 1..]), overlaps, gap)
  {
    assert ps[i..][1..] == ps[i + 1..];
    HitsAppend(Each(PartItem(ps[i]), PartItems(ps[i + 1..])), PartChecks(ps[i + 1..]), overlaps, gap);
  }

  /** Pads of `u` make items of `u`. */
  lemma PadsScope(u: Scope, ps: seq<Pad>)
    requires forall p :: p in ps ==> p in u.pads
    ensures forall x :: x in PadItems(ps) ==> InScope(u, x)
  {
    forall x | x in PadItems(ps) ensures InScope(u, x) {
      var k :| 0 <= k < |ps| && PadItems(ps)[k] == x;
    }
  }

  /** Segments of `u` make items of `u`. */
  lemma SegsScope(u: Scope, ss: seq<Segment>)
    requires forall s :: s in ss ==> s in u.segs
    ensures forall x :: x in SegItems(ss) ==> InScope(u, x)
  {
    forall x | x in SegItems(ss) ensures InScope(u, x) {
      var k :| 0 <= k < |ss| && SegItems(ss)[k] == x;
    }
  }

  /** Parts of `u` whose pads are in `u` make items of `u`. */
  lemma PartsScope(u: Scope, ps: seq<Part>)
    requires forall pt :: pt in ps ==> InScope(u, PartItem(pt))
    ensures forall x :: x in PartItems(ps) ==> InScope(u, x)
  {
    forall x | x in PartItems(ps) ensures InScope(u, x) {
      var k :| 0 <= k < |ps| && PartItems(ps)[k] == x;
    }
  }
}
