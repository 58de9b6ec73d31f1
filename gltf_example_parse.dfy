/** The input half of the CityGML-to-glTF example program: a hand-written
    walk over namespace-resolved XML events that collects, per city object,
    the polygons of its highest level of detail. */
module GltfExampleParse {
  import opened Common
  import opened Geometry

  /** The namespaces the walk tells apart. */
  datatype Namespace = Gml | Building | CityFurniture | Transportation | Bridge | Vegetation | OtherNamespace | Unbound

  /** A resolved XML event. A text node is carried as the numbers it holds
      (the whitespace split and the `f64` parse are not modelled); `Malformed`
      stands for a reader error. */
  datatype XmlEvent =
    | Start(ns: Namespace, localName: string)
    | End(ns: Namespace, localName: string)
    | Text(numbers: seq<F64>)
    | OtherEvent
    | Malformed

  /** How a parse function ends. `NeverReturns` is reached where the source
      keeps reading `Eof` forever: only `parse_body` stops at the end of the
      input. `InteriorBeforeExterior` is an interior ring met before any
      exterior one, which `MultiPolygon3` is not asked to handle here. */
  datatype ParseStatus = Done | XmlError | NeverReturns | InteriorBeforeExterior

  /** The event source: the events of the document and the read position. */
  class EventReader {
    const events: seq<XmlEvent>
    var pos: nat

    ghost predicate Valid()
      reads this
    {
      pos <= |events|
    }

    constructor (events: seq<XmlEvent>)
      ensures Valid() && this.events == events && pos == 0
    {
      this.events := events;
      pos := 0;
    }

    /** `read_resolved_event`: the next event, or `None` for `Eof`. */
    method ReadResolvedEvent() returns (e: Option<XmlEvent>)
      requires Valid()
      modifies this
      ensures Valid()
      ensures old(pos) < |events| ==> e == Some(events[old(pos)]) && pos == old(pos) + 1
      ensures old(pos) == |events| ==> e.None? && pos == old(pos)
    {
      if pos < |events| {
        e := Some(events[pos]);
        pos := pos + 1;
      } else {
        e := None;
      }
    }
  }

  /** `chunks_exact(3).map(|c| [c[1], c[0], c[2]])`: the posList numbers
      as positions, latitude and longitude exchanged; a trailing incomplete
      triple is dropped. */
  function CoordRing(numbers: seq<F64>): (r: seq<Coord3>)
    ensures |r| == |numbers| / 3
  {
    seq(|numbers| / 3, k requires 0 <= k < |numbers| / 3 =>
      Coord3(numbers[3 * k + 1], numbers[3 * k], numbers[3 * k + 2]))
  }

  /** The numbers of a ring in posList order (latitude first). */
  function PosListOf(ring: seq<Coord3>): (r: seq<F64>)
    ensures |r| == 3 * |ring|
  {
    if ring == [] then []
    else PosListOf(ring[..|ring| - 1]) + [ring[|ring| - 1].y, ring[|ring| - 1].x, ring[|ring| - 1].z]
  }

  /** Each position of a ring holds the longitude first: swapping back
      reproduces every complete triple of the posList, in order. */
  lemma {:induction false} CoordRingSwapsBack(numbers: seq<F64>)
    ensures PosListOf(CoordRing(numbers)) == numbers[..3 * (|numbers| / 3)]
    decreases |numbers|
  {
    var n := |numbers| / 3;
    if n > 0 {
      var shorter := numbers[..3 * (n - 1)];
      assert |shorter| / 3 == n - 1;
      assert CoordRing(numbers)[..n - 1] == CoordRing(shorter);
      CoordRingSwapsBack(shorter);
      assert shorter[..3 * (n - 1)] == shorter;
      var last := CoordRing(numbers)[n - 1];
      assert [last.y, last.x, last.z] == numbers[3 * (n - 1)..3 * n];
      assert numbers[..3 * n] == numbers[..3 * (n - 1)] + numbers[3 * (n - 1)..3 * n];
    } else {
      assert CoordRing(numbers) == [];
    }
  }

  /** `MultiPolygon3`: polygons over `[f64; 3]` positions. */
  class MultiPolygon3 {
    var polygons: seq<Polygon<Coord3>>

    constructor ()
      ensures polygons == []
    {
      polygons := [];
    }

    method AddExterior(ring: seq<Coord3>)
      modifies this
      ensures polygons == old(polygons) + [Polygon(ring, [])]
    {
      polygons := polygons + [Polygon(ring, [])];
    }

    method AddInterior(ring: seq<Coord3>)
      requires |polygons| > 0
      modifies this
      ensures |polygons| == |old(polygons)|
      ensures polygons[..|polygons| - 1] == old(polygons)[..|polygons| - 1]
      ensures var last := old(polygons)[|polygons| - 1];
        polygons[|polygons| - 1] == Polygon(last.exterior, last.interiors + [ring])
    {
      var n := |polygons|;
      var last := polygons[n - 1];
      polygons := polygons[..n - 1] + [Polygon(last.exterior, last.interiors + [ring])];
    }

    method Clear()
      modifies this
      ensures polygons == []
    {
      polygons := [];
    }
  }

  /** The rings of a polygon and of a multipolygon. */
  ghost function PolygonRings(p: Polygon<Coord3>): set<seq<Coord3>> {
    {p.exterior} + set h | h in p.interiors
  }

  ghost function Rings(mp: seq<Polygon<Coord3>>): set<seq<Coord3>> {
    if mp == [] then {} else Rings(mp[..|mp| - 1]) + PolygonRings(mp[|mp| - 1])
  }

  /** The rings the text events in `events[from..to]` can produce. */
  ghost function TextRings(events: seq<XmlEvent>, from: nat, to: nat): set<seq<Coord3>> {
    set i | from <= i < to && i < |events| && events[i].Text? :: CoordRing(events[i].numbers)
  }

  /** Every ring of `polys` was read from a posList in `events[from..to]`. */
  ghost predicate RingsWithin(polys: seq<Polygon<Coord3>>, events: seq<XmlEvent>, from: nat, to: nat) {
    Rings(polys) <= TextRings(events, from, to)
  }

  /** Reading one more event keeps the rings within the events read. */
  lemma {:induction false} RingsWithinStep(polys: seq<Polygon<Coord3>>, events: seq<XmlEvent>, from: nat, to: nat)
    requires from <= to < |events| && RingsWithin(polys, events, from, to)
    ensures RingsWithin(polys, events, from, to + 1)
  {
    TextRingsStep(events, from, to);
  }

  /** One more event adds at most its own ring. */
  lemma {:induction false} TextRingsStep(events: seq<XmlEvent>, from: nat, to: nat)
    requires from <= to < |events|
    ensures TextRings(events, from, to + 1) ==
      TextRings(events, from, to) + (if events[to].Text? then {CoordRing(events[to].numbers)} else {})
  {
  }

  lemma {:induction false} RingsAddExterior(mp: seq<Polygon<Coord3>>, ring: seq<Coord3>)
    ensures Rings(mp + [Polygon(ring, [])]) == Rings(mp) + {ring}
  {
    assert (mp + [Polygon(ring, [])])[..|mp|] == mp;
    assert PolygonRings(Polygon(ring, [])) == {ring};
  }

  lemma {:induction false} RingsAddInterior(mp: seq<Polygon<Coord3>>, ring: seq<Coord3>)
    requires |mp| > 0
    ensures var last := mp[|mp| - 1];
      Rings(mp[..|mp| - 1] + [Polygon(last.exterior, last.interiors + [ring])]) == Rings(mp) + {ring}
  {
    var last := mp[|mp| - 1];
    var init := mp[..|mp| - 1];
    var q := Polygon(last.exterior, last.interiors + [ring]);
    var mq := init + [q];
    assert mq[..|mq| - 1] == init;
    assert Rings(mq) == Rings(init) + PolygonRings(q);
    assert Rings(mp) == Rings(init) + PolygonRings(last);
    assert (set h | h in last.interiors + [ring]) == (set h | h in last.interiors) + {ring};
  }

  /** The polygons after `ring` is added: `add_exterior` starts a new
      polygon with it, `add_interior` gives it to the last polygon as a
      hole. The exteriors there before stay, and the rings grow by exactly
      `ring`. */
  function WithRing(polys: seq<Polygon<Coord3>>, ring: seq<Coord3>, isInterior: bool): (r: seq<Polygon<Coord3>>)
    requires isInterior ==> polys != []
    ensures |polys| <= |r| && forall p :: 0 <= p < |polys| ==> r[p].exterior == polys[p].exterior
    ensures Rings(r) == Rings(polys) + {ring}
    ensures !isInterior ==> |r| == |polys| + 1 && r[..|polys|] == polys && r[|polys|] == Polygon(ring, [])
    ensures isInterior ==>
      (|r| == |polys| && r[..|polys| - 1] == polys[..|polys| - 1] &&
       r[|polys| - 1].exterior == polys[|polys| - 1].exterior &&
       r[|polys| - 1].interiors == polys[|polys| - 1].interiors + [ring])
  {
    if isInterior then
      RingsAddInterior(polys, ring);
      var last := polys[|polys| - 1];
      polys[..|polys| - 1] + [Polygon(last.exterior, last.interiors + [ring])]
    else
      RingsAddExterior(polys, ring);
      polys + [Polygon(ring, [])]
  }

  /** The rings of two adjacent event spans are the rings of their union. */
  lemma {:induction false} TextRingsGrow(events: seq<XmlEvent>, from: nat, mid: nat, to: nat)
    requires from <= mid <= to
    ensures TextRings(events, from, mid) + TextRings(events, mid, to) == TextRings(events, from, to)
  {
  }

  /** The text branch of `parse_polygon`: `add_interior` or `add_exterior`.
      A hole with no polygon to go to is reported and changes nothing. */
  method AddRing(mpoly: MultiPolygon3, ring: seq<Coord3>, isInterior: bool) returns (status: ParseStatus)
    modifies mpoly
    ensures status.Done? || status.InteriorBeforeExterior?
    ensures status.InteriorBeforeExterior? <==> isInterior && old(mpoly.polygons) == []
    ensures status.InteriorBeforeExterior? ==> mpoly.polygons == old(mpoly.polygons)
    ensures status.Done? ==> mpoly.polygons == WithRing(old(mpoly.polygons), ring, isInterior)
  {
    if isInterior {
      if |mpoly.polygons| == 0 {
        return InteriorBeforeExterior;
      }
      mpoly.AddInterior(ring);
    } else {
      mpoly.AddExterior(ring);
    }
    status := Done;
  }

  /** How a parse function ends, where it leaves the reader, and the
      polygons collected by then. */
  datatype Run = Run(status: ParseStatus, pos: nat, polygons: seq<Polygon<Coord3>>)

  /** One event's effect on a loop: go on in a new state, or return. */
  datatype Step<S> = Continue(next: S) | Stop(status: ParseStatus)

  // ---------------------------------------------------------------------
  // parse_polygon

  /** What `parse_polygon` keeps between events. */
  datatype PolygonState = PolygonState(polygons: seq<Polygon<Coord3>>, isInterior: bool, inPoslist: bool)

  /** One event inside `gml:Polygon`: posList/exterior/interior start tags
      set the flags, the `gml:posList` end tag clears one, the
      `gml:Polygon` end tag returns, a posList text adds a ring and a reader
      error returns the error. */
  function PolygonStep(e: XmlEvent, s: PolygonState): (r: Step<PolygonState>)
    ensures r == Stop(Done) <==> e == End(Gml, "Polygon")
    ensures r == Stop(XmlError) <==> e.Malformed?
    ensures r.Continue? ==> |s.polygons| <= |r.next.polygons|
  {
    match e
    case Start(Gml, name) =>
      if name == "posList" then Continue(s.(inPoslist := true))
      else if name == "exterior" then Continue(s.(isInterior := false))
      else if name == "interior" then Continue(s.(isInterior := true))
      else Continue(s)
    case End(Gml, name) =>
      if name == "Polygon" then Stop(Done)
      else if name == "posList" then Continue(s.(inPoslist := false))
      else Continue(s)
    case Text(numbers) =>
      if !s.inPoslist then Continue(s)
      else if s.isInterior && s.polygons == [] then Stop(InteriorBeforeExterior)
      else Continue(s.(polygons := WithRing(s.polygons, CoordRing(numbers), s.isInterior)))
    case Malformed => Stop(XmlError)
    case _ => Continue(s)
  }

  /** `parse_polygon` over `events[i..]` from state `s`. */
  function PolygonRun(events: seq<XmlEvent>, i: nat, s: PolygonState): (r: Run)
    requires i <= |events|
    ensures i <= r.pos <= |events|
    decreases |events| - i
  {
    if i == |events| then Run(NeverReturns, i, s.polygons)
    else match PolygonStep(events[i], s)
      case Stop(status) => Run(status, i + 1, s.polygons)
      case Continue(next) => PolygonRun(events, i + 1, next)
  }

  /** A polygon with one exterior and one interior ring: the exterior
      posList starts a polygon, the interior one becomes its hole, and the
      loop returns right after `</gml:Polygon>`; a trailing event is left
      unread. */
  lemma {:induction false} PolygonRunExample(outer: seq<F64>, inner: seq<F64>)
    ensures var events := [Start(Gml, "exterior"), Start(Gml, "posList"), Text(outer), End(Gml, "posList"),
                           Start(Gml, "interior"), Start(Gml, "posList"), Text(inner), End(Gml, "posList"),
                           End(Gml, "Polygon"), OtherEvent];
      PolygonRun(events, 0, PolygonState([], false, false)) ==
        Run(Done, 9, [Polygon(CoordRing(outer), [CoordRing(inner)])])
  {
    var events := [Start(Gml, "exterior"), Start(Gml, "posList"), Text(outer), End(Gml, "posList"),
                   Start(Gml, "interior"), Start(Gml, "posList"), Text(inner), End(Gml, "posList"),
                   End(Gml, "Polygon"), OtherEvent];
    var one := [Polygon(CoordRing(outer), [])];
    var two := [Polygon(CoordRing(outer), [CoordRing(inner)])];
    var states := [PolygonState([], false, false), PolygonState([], false, false), PolygonState([], false, true),
                   PolygonState(one, false, true), PolygonState(one, false, false), PolygonState(one, true, false),
                   PolygonState(one, true, true), PolygonState(two, true, true), PolygonState(two, true, false)];
    assert WithRing([], CoordRing(outer), false) == one;
    assert one[..0] == [] && [] + [CoordRing(inner)] == [CoordRing(inner)];
    assert WithRing(one, CoordRing(inner), true) == two;
    assert PolygonStep(events[8], states[8]) == Stop(Done);
    assert PolygonRun(events, 8, states[8]) == Run(Done, 9, two);
    var k := 8;
    while k > 0
      invariant 0 <= k <= 8
      invariant PolygonRun(events, k, states[k]) == Run(Done, 9, two)
    {
      assert PolygonStep(events[k - 1], states[k - 1]) == Continue(states[k]);
      k := k - 1;
    }
  }

  /** `parse_polygon` returns just after the first `</gml:Polygon>` (and
      only there with `Done`), just after a reader error, or never once the
      events run out. */
  lemma {:induction false} PolygonRunEnds(events: seq<XmlEvent>, i: nat, s: PolygonState)
    requires i <= |events|
    ensures var r := PolygonRun(events, i, s);
      (forall k :: i <= k < r.pos - 1 ==> events[k] != End(Gml, "Polygon")) &&
      (r.status.Done? <==> i < r.pos && events[r.pos - 1] == End(Gml, "Polygon")) &&
      (r.status.XmlError? <==> i < r.pos && events[r.pos - 1].Malformed?) &&
      (r.status.NeverReturns? ==> r.pos == |events| && forall k :: i <= k < r.pos ==> events[k] != End(Gml, "Polygon"))
    decreases |events| - i
  {
    if i < |events| && PolygonStep(events[i], s).Continue? {
      PolygonRunEnds(events, i + 1, PolygonStep(events[i], s).next);
    }
  }

  /** One event keeps the exteriors there before and adds at most the ring
      of its own text. */
  lemma {:induction false} PolygonStepKeeps(e: XmlEvent, s: PolygonState)
    requires PolygonStep(e, s).Continue?
    ensures var next := PolygonStep(e, s).next;
      |s.polygons| <= |next.polygons| &&
      (forall p :: 0 <= p < |s.polygons| ==> next.polygons[p].exterior == s.polygons[p].exterior) &&
      Rings(next.polygons) <= Rings(s.polygons) + (if e.Text? then {CoordRing(e.numbers)} else {})
  {
  }

  /** The polygons there before keep their exteriors, and every ring added
      was read from a posList text among the events consumed. */
  lemma {:induction false} PolygonRunKeeps(events: seq<XmlEvent>, i: nat, s: PolygonState)
    requires i <= |events|
    ensures var r := PolygonRun(events, i, s);
      |s.polygons| <= |r.polygons| &&
      (forall p :: 0 <= p < |s.polygons| ==> r.polygons[p].exterior == s.polygons[p].exterior) &&
      Rings(r.polygons) <= Rings(s.polygons) + TextRings(events, i, r.pos)
    decreases |events| - i
  {
    if i < |events| && PolygonStep(events[i], s).Continue? {
      var next := PolygonStep(events[i], s).next;
      PolygonStepKeeps(events[i], s);
      PolygonRunKeeps(events, i + 1, next);
      var r := PolygonRun(events, i + 1, next);
      assert r == PolygonRun(events, i, s);
      TextRingsGrow(events, i, i + 1, r.pos);
      TextRingsStep(events, i, i);
    }
  }

  /** `parse_polygon`: reads up to the end of the current `gml:Polygon`,
      turning each posList text into a ring, exterior or interior according
      to the last `gml:exterior`/`gml:interior` start tag. */
  method ParsePolygon(reader: EventReader, mpoly: MultiPolygon3) returns (status: ParseStatus)
    requires reader.Valid()
    modifies reader, mpoly
    ensures reader.Valid() && old(reader.pos) <= reader.pos
    ensures Run(status, reader.pos, mpoly.polygons) ==
      PolygonRun(reader.events, old(reader.pos), PolygonState(old(mpoly.polygons), false, false))
  {
    ghost var p0 := reader.pos;
    ghost var mp0 := mpoly.polygons;
    var isInterior := false;
    var inPoslist := false;
    while true
      invariant reader.Valid() && p0 <= reader.pos
      invariant PolygonRun(reader.events, reader.pos, PolygonState(mpoly.polygons, isInterior, inPoslist)) ==
        PolygonRun(reader.events, p0, PolygonState(mp0, false, false))
      decreases |reader.events| - reader.pos
    {
      var ev := reader.ReadResolvedEvent();
      if ev.None? {
        return NeverReturns;
      }
      match ev.value
      case Start(Gml, name) =>
        if name == "posList" {
          inPoslist := true;
        } else if name == "exterior" {
          isInterior := false;
        } else if name == "interior" {
          isInterior := true;
        }
      case End(Gml, name) =>
        if name == "Polygon" {
          return Done;
        } else if name == "posList" {
          inPoslist := false;
        }
      case Text(numbers) =>
        if inPoslist {
          status := AddRing(mpoly, CoordRing(numbers), isInterior);
          if !status.Done? {
            return;
          }
        }
      case Malformed =>
        return XmlError;
      case _ =>
    }
  }

  // ---------------------------------------------------------------------
  // parse_lod_geometry

  /** `parse_lod_geometry` over `events[i..]` with its depth counter at
      `depth`: a `gml:Polygon` start tag hands over to `parse_polygon`,
      whose error is passed on; any other start tag deepens, an end tag
      returns at depth zero and otherwise rises. */
  function LodRun(events: seq<XmlEvent>, i: nat, polys: seq<Polygon<Coord3>>, depth: nat): (r: Run)
    requires i <= |events|
    ensures i <= r.pos <= |events|
    decreases |events| - i
  {
    if i == |events| then Run(NeverReturns, i, polys)
    else match events[i]
      case Start(ns, name) =>
        if ns == Gml && name == "Polygon" then
          var p := PolygonRun(events, i + 1, PolygonState(polys, false, false));
          if p.status.Done? then LodRun(events, p.pos, p.polygons, depth) else p
        else LodRun(events, i + 1, polys, depth + 1)
      case End(_, _) =>
        if depth == 0 then Run(Done, i + 1, polys) else LodRun(events, i + 1, polys, depth - 1)
      case Malformed => Run(XmlError, i + 1, polys)
      case _ => LodRun(events, i + 1, polys, depth)
  }

  /** `parse_lod_geometry` returns `Done` just after an end tag, fails just
      after a reader error, or never returns once the events run out. */
  lemma {:induction false} LodRunEnds(events: seq<XmlEvent>, i: nat, polys: seq<Polygon<Coord3>>, depth: nat)
    requires i <= |events|
    ensures var r := LodRun(events, i, polys, depth);
      (r.status.Done? ==> i < r.pos && events[r.pos - 1].End?) &&
      (r.status.XmlError? ==> i < r.pos && events[r.pos - 1].Malformed?) &&
      (r.status.NeverReturns? ==> r.pos == |events|)
    decreases |events| - i
  {
    if i < |events| {
      match events[i]
      case Start(ns, name) =>
        if ns == Gml && name == "Polygon" {
          var p := PolygonRun(events, i + 1, PolygonState(polys, false, false));
          PolygonRunEnds(events, i + 1, PolygonState(polys, false, false));
          if p.status.Done? {
            LodRunEnds(events, p.pos, p.polygons, depth);
          }
        } else {
          LodRunEnds(events, i + 1, polys, depth + 1);
        }
      case End(_, _) =>
        if depth > 0 {
          LodRunEnds(events, i + 1, polys, depth - 1);
        }
      case Malformed =>
      case Text(_) =>
        LodRunEnds(events, i + 1, polys, depth);
      case OtherEvent =>
        LodRunEnds(events, i + 1, polys, depth);
    }
  }

  /** The polygons there before keep their exteriors, and every ring added
      was read from a posList text among the events consumed. */
  lemma {:induction false} LodRunKeeps(events: seq<XmlEvent>, i: nat, polys: seq<Polygon<Coord3>>, depth: nat)
    requires i <= |events|
    ensures var r := LodRun(events, i, polys, depth);
      |polys| <= |r.polygons| &&
      (forall p :: 0 <= p < |polys| ==> r.polygons[p].exterior == polys[p].exterior) &&
      Rings(r.polygons) <= Rings(polys) + TextRings(events, i, r.pos)
    decreases |events| - i
  {
    if i < |events| {
      var r := LodRun(events, i, polys, depth);
      var e := events[i];
      if e.Start? && e.ns == Gml && e.localName == "Polygon" {
        var p := PolygonRun(events, i + 1, PolygonState(polys, false, false));
        PolygonRunKeeps(events, i + 1, PolygonState(polys, false, false));
        TextRingsGrow(events, i, i + 1, p.pos);
        if p.status.Done? {
          LodRunKeeps(events, p.pos, p.polygons, depth);
          TextRingsGrow(events, i, p.pos, r.pos);
        }
      } else if !e.Malformed? && !(e.End? && depth == 0) {
        var d := if e.Start? then depth + 1 else if e.End? then depth - 1 else depth;
        LodRunKeeps(events, i + 1, polys, d);
        TextRingsGrow(events, i, i + 1, r.pos);
      }
    }
  }

  /** Start tags minus end tags among `events[lo..hi]`. */
  ghost function Balance(events: seq<XmlEvent>, lo: nat, hi: nat): int
    requires lo <= hi <= |events|
    decreases hi
  {
    if lo == hi then 0
    else Balance(events, lo, hi - 1) + (if events[hi - 1].Start? then 1 else if events[hi - 1].End? then -1 else 0)
  }

  lemma {:induction false} BalanceSplit(events: seq<XmlEvent>, lo: nat, mid: nat, hi: nat)
    requires lo <= mid <= hi <= |events|
    ensures Balance(events, lo, hi) == Balance(events, lo, mid) + Balance(events, mid, hi)
    decreases hi - mid
  {
    if mid < hi {
      BalanceSplit(events, lo, mid, hi - 1);
    }
  }

  /** Every `gml:Polygon` element of the document is closed, its tags
      balanced, by the first `</gml:Polygon>` after its start tag: no
      polygon nests in another, as in CityGML. */
  ghost predicate PolygonsClosed(events: seq<XmlEvent>) {
    forall k, m ::
      (0 <= k < m < |events| && events[k] == Start(Gml, "Polygon") && events[m] == End(Gml, "Polygon") &&
       forall q :: k < q < m ==> events[q] != End(Gml, "Polygon"))
      ==> Balance(events, k, m + 1) == 0
  }

  /** `parse_lod_geometry` returns at the end tag that closes the element
      it was called inside: when the document's polygons are closed, the
      events it read up to its return hold `depth + 1` more end tags than
      start tags. */
  lemma {:induction false} LodRunCloses(events: seq<XmlEvent>, i: nat, polys: seq<Polygon<Coord3>>, depth: nat)
    requires i <= |events| && PolygonsClosed(events)
    ensures var r := LodRun(events, i, polys, depth);
      r.status.Done? ==> Balance(events, i, r.pos) == -1 - depth
    decreases |events| - i
  {
    if i < |events| {
      var r := LodRun(events, i, polys, depth);
      match events[i]
      case Start(ns, name) =>
        if ns == Gml && name == "Polygon" {
          var p := PolygonRun(events, i + 1, PolygonState(polys, false, false));
          if p.status.Done? {
            PolygonRunEnds(events, i + 1, PolygonState(polys, false, false));
            assert Balance(events, i, p.pos) == 0;
            LodRunCloses(events, p.pos, p.polygons, depth);
            BalanceSplit(events, i, p.pos, r.pos);
          }
        } else {
          LodRunCloses(events, i + 1, polys, depth + 1);
          BalanceSplit(events, i, i + 1, r.pos);
        }
      case End(_, _) =>
        if depth > 0 {
          LodRunCloses(events, i + 1, polys, depth - 1);
          BalanceSplit(events, i, i + 1, r.pos);
        }
      case Malformed =>
      case Text(_) =>
        LodRunCloses(events, i + 1, polys, depth);
        BalanceSplit(events, i, i + 1, r.pos);
      case OtherEvent =>
        LodRunCloses(events, i + 1, polys, depth);
        BalanceSplit(events, i, i + 1, r.pos);
    }
  }

  /** `parse_lod_geometry`: reads to the end tag of the LOD property it was
      called for, descending into every `gml:Polygon` and counting every
      other element it opens, so that it returns at the end tag that brings
      its depth counter below zero. */
  method ParseLodGeometry(reader: EventReader, mpoly: MultiPolygon3) returns (status: ParseStatus)
    requires reader.Valid()
    modifies reader, mpoly
    ensures reader.Valid() && old(reader.pos) <= reader.pos
    ensures Run(status, reader.pos, mpoly.polygons) == LodRun(reader.events, old(reader.pos), old(mpoly.polygons), 0)
  {
    ghost var p0 := reader.pos;
    ghost var mp0 := mpoly.polygons;
    var depth: nat := 0;
    while true
      invariant reader.Valid() && p0 <= reader.pos
      invariant LodRun(reader.events, reader.pos, mpoly.polygons, depth) == LodRun(reader.events, p0, mp0, 0)
      decreases |reader.events| - reader.pos
    {
      var ev := reader.ReadResolvedEvent();
      if ev.None? {
        return NeverReturns;
      }
      match ev.value
      case Start(ns, name) =>
        if ns == Gml && name == "Polygon" {
          status := ParsePolygon(reader, mpoly);
          if !status.Done? {
            return status;
          }
        } else {
          depth := depth + 1;
        }
      case End(_, _) =>
        if depth == 0 {
          return Done;
        }
        depth := depth - 1;
      case Malformed =>
        return XmlError;
      case _ =>
    }
  }

  // ---------------------------------------------------------------------
  // Choice of the level of detail

  /** The level of detail of a LOD property name of a city object, if it is
      one. */
  function LodLevel(localName: string): (r: Option<nat>)
    ensures r.Some? ==> 1 <= r.value <= 4
  {
    if localName == "lod4Geometry" || localName == "lod4MultiSurface" then Some(4)
    else if localName == "lod3Geometry" || localName == "lod3MultiSurface" then Some(3)
    else if localName == "lod2Geometry" || localName == "lod2MultiSurface" then Some(2)
    else if localName == "lod1Solid" || localName == "lod1MultiSurface" then Some(1)
    else None
  }

  /** The thematic namespaces whose elements `parse_cityobj` and
      `parse_body` look at. */
  predicate IsCityNamespace(ns: Namespace) {
    ns == Building || ns == CityFurniture || ns == Transportation || ns == Vegetation || ns == Bridge
  }

  /** What `parse_cityobj` does on meeting a LOD property of `level` while
      the highest level so far is `maxLod`. */
  datatype LodStep = LodStep(newMax: nat, clear: bool, parse: bool)

  function LodDecision(maxLod: nat, level: nat): LodStep {
    var newMax := if maxLod < level then level else maxLod;
    LodStep(newMax, maxLod < level, newMax == level)
  }

  /** The highest level never decreases and becomes the larger of the two;
      the polygons so far are dropped exactly when the level is higher, and
      the property is parsed exactly when its level is not lower. */
  lemma {:induction false} LodDecisionSpec(maxLod: nat, level: nat)
    ensures var d := LodDecision(maxLod, level);
      maxLod <= d.newMax && level <= d.newMax && (d.newMax == maxLod || d.newMax == level) &&
      (d.clear <==> maxLod < level) && (d.parse <==> maxLod <= level)
  {
  }

  /** The highest level after meeting LOD properties of `levels` in order. */
  function MaxLodAfter(levels: seq<nat>): nat {
    if levels == [] then 0
    else LodDecision(MaxLodAfter(levels[..|levels| - 1]), levels[|levels| - 1]).newMax
  }

  /** The positions in `levels` whose polygons are still collected after
      the whole sequence: a clearing step keeps only itself, a parsing step
      adds itself, a skipped one changes nothing. */
  ghost function KeptAfter(levels: seq<nat>): set<nat> {
    if levels == [] then {}
    else
      var n := |levels| - 1;
      var d := LodDecision(MaxLodAfter(levels[..n]), levels[n]);
      if d.clear then {n} else if d.parse then KeptAfter(levels[..n]) + {n} else KeptAfter(levels[..n])
  }

  /** Only the highest level of detail survives: the final level is the
      largest level met (0 if none), and the properties whose polygons are
      kept are exactly those at that level. */
  lemma {:induction false} HighestLodKept(levels: seq<nat>)
    ensures forall i :: 0 <= i < |levels| ==> levels[i] <= MaxLodAfter(levels)
    ensures levels == [] ==> MaxLodAfter(levels) == 0
    ensures levels != [] ==> MaxLodAfter(levels) in levels
    ensures KeptAfter(levels) == set i | 0 <= i < |levels| && levels[i] == MaxLodAfter(levels)
  {
    if levels != [] {
      var n := |levels| - 1;
      var pre := levels[..n];
      HighestLodKept(pre);
      var m := MaxLodAfter(pre);
      var d := LodDecision(m, levels[n]);
      assert forall i :: 0 <= i < n ==> levels[i] == pre[i];
      if pre != [] {
        var j :| 0 <= j < |pre| && pre[j] == m;
        assert levels[j] == m;
      }
      if d.clear {
        assert forall i :: 0 <= i < n ==> levels[i] < levels[n];
      }
    }
  }

  /** `events[k]` is the start tag of a LOD property of level `level`. */
  ghost predicate LodStartAt(events: seq<XmlEvent>, k: nat, level: nat) {
    k < |events| && events[k].Start? && IsCityNamespace(events[k].ns) && LodLevel(events[k].localName) == Some(level)
  }

  /** The LOD arm of `parse_cityobj` for a property of `level`, its start
      tag read just before `i`: a higher level empties the polygons, and
      `parse_lod_geometry` runs exactly when the level is the highest met;
      otherwise nothing is read. */
  function LodStepRun(events: seq<XmlEvent>, i: nat, polys: seq<Polygon<Coord3>>, maxLod: nat, level: nat): (r: Run)
    requires i <= |events|
    ensures i <= r.pos <= |events|
    ensures !LodDecision(maxLod, level).parse ==> r == Run(Done, i, polys)
  {
    var d := LodDecision(maxLod, level);
    var kept := if d.clear then [] else polys;
    if d.parse then LodRun(events, i, kept, 0) else Run(Done, i, kept)
  }

  /** After a LOD property the rings held come from the posList texts read
      in it, joined by those held before unless the level rose. */
  lemma {:induction false} LodStepKeeps(events: seq<XmlEvent>, i: nat, polys: seq<Polygon<Coord3>>, maxLod: nat, level: nat)
    requires i <= |events|
    ensures var r := LodStepRun(events, i, polys, maxLod, level);
      var d := LodDecision(maxLod, level);
      (d.clear ==> RingsWithin(r.polygons, events, i, r.pos)) &&
      (!d.clear ==> Rings(r.polygons) <= Rings(polys) + TextRings(events, i, r.pos))
  {
    var d := LodDecision(maxLod, level);
    if d.parse {
      LodRunKeeps(events, i, if d.clear then [] else polys, 0);
    }
  }

  /** A LOD property of level `level` inside a city object. */
  method EnterLod(reader: EventReader, mpoly: MultiPolygon3, maxLod: nat, level: nat)
      returns (status: ParseStatus, newMax: nat)
    requires reader.Valid()
    modifies reader, mpoly
    ensures reader.Valid() && old(reader.pos) <= reader.pos
    ensures newMax == LodDecision(maxLod, level).newMax
    ensures Run(status, reader.pos, mpoly.polygons) ==
      LodStepRun(reader.events, old(reader.pos), old(mpoly.polygons), maxLod, level)
  {
    newMax := maxLod;
    if maxLod < level {
      newMax := level;
      mpoly.Clear();
    }
    status := Done;
    if newMax == level {
      status := ParseLodGeometry(reader, mpoly);
    }
  }

  // ---------------------------------------------------------------------
  // parse_cityobj

  /** What `parse_cityobj` keeps between events: the polygons, its depth
      counter and highest level so far, and, for the lemmas, the levels of
      the LOD properties met at the city object's own level in order, the
      positions of their start tags, and the position just after the start
      tag of the property that last raised the level. */
  datatype CityState = CityState(polygons: seq<Polygon<Coord3>>, depth: nat, maxLod: nat,
                                 levels: seq<nat>, starts: seq<nat>, since: nat)

  /** How `parse_cityobj` ends: status, position and final state. */
  datatype CityRun = CityRun(status: ParseStatus, pos: nat, state: CityState)

  /** One event, with what it reads, at the city object's level: go on
      from `pos`, or return. */
  datatype CityStep = Go(pos: nat, next: CityState) | Halt(result: CityRun)

  /** The state after the LOD arm for a property of `level` whose start
      tag is at `i`, holding `polygons` afterwards: a property not parsed
      deepens, and a higher level moves the last raise past `i`. */
  function AfterLod(c: CityState, i: nat, level: nat, polygons: seq<Polygon<Coord3>>): CityState {
    var d := LodDecision(c.maxLod, level);
    CityState(polygons, if d.parse then c.depth else c.depth + 1, d.newMax,
              c.levels + [level], c.starts + [i], if d.clear then i + 1 else c.since)
  }

  /** The event at `i` in `parse_cityobj`: a LOD property start tag in a
      thematic namespace goes through the LOD arm (its error is passed on,
      a property not parsed deepens), any other start tag deepens, an end
      tag returns at depth zero and otherwise rises, a reader error
      returns the error. */
  function CityObjStep(events: seq<XmlEvent>, i: nat, c: CityState): (r: CityStep)
    requires i < |events|
    ensures r.Go? ==> i < r.pos <= |events|
    ensures r.Halt? ==> i < r.result.pos <= |events|
    ensures (r.Halt? && r.result.status.Done?) <==> events[i].End? && c.depth == 0
    ensures events[i].Malformed? ==> r == Halt(CityRun(XmlError, i + 1, c))
  {
    match events[i]
    case Start(ns, name) =>
      if IsCityNamespace(ns) && LodLevel(name).Some? then
        var level := LodLevel(name).value;
        var s := LodStepRun(events, i + 1, c.polygons, c.maxLod, level);
        var next := AfterLod(c, i, level, s.polygons);
        if s.status.Done? then Go(s.pos, next) else Halt(CityRun(s.status, s.pos, next))
      else Go(i + 1, c.(depth := c.depth + 1))
    case End(_, _) =>
      if c.depth == 0 then Halt(CityRun(Done, i + 1, c)) else Go(i + 1, c.(depth := c.depth - 1))
    case Malformed => Halt(CityRun(XmlError, i + 1, c))
    case _ => Go(i + 1, c)
  }

  /** `parse_cityobj` over `events[i..]` from state `c`. */
  function CityObjRun(events: seq<XmlEvent>, i: nat, c: CityState): (r: CityRun)
    requires i <= |events|
    ensures i <= r.pos <= |events|
    decreases |events| - i
  {
    if i == |events| then CityRun(NeverReturns, i, c)
    else match CityObjStep(events, i, c)
      case Halt(result) => result
      case Go(j, next) => CityObjRun(events, j, next)
  }

  /** The position and state after one step. */
  function StepPos(st: CityStep): nat {
    if st.Go? then st.pos else st.result.pos
  }

  function StepState(st: CityStep): CityState {
    if st.Go? then st.next else st.result.state
  }

  /** A step returns `Done` just after an end tag and `XmlError` just after
      a reader error; it never runs past the events. */
  lemma {:induction false} CityStepEnds(events: seq<XmlEvent>, i: nat, c: CityState)
    requires i < |events|
    ensures var st := CityObjStep(events, i, c);
      st.Halt? ==>
        (st.result.status.Done? ==> events[st.result.pos - 1].End?) &&
        (st.result.status.XmlError? ==> events[st.result.pos - 1].Malformed?) &&
        (st.result.status.NeverReturns? ==> st.result.pos == |events|)
  {
    var e := events[i];
    if e.Start? && IsCityNamespace(e.ns) && LodLevel(e.localName).Some? {
      var level := LodLevel(e.localName).value;
      var d := LodDecision(c.maxLod, level);
      if d.parse {
        LodRunEnds(events, i + 1, if d.clear then [] else c.polygons, 0);
      }
    }
  }

  /** `parse_cityobj` returns `Done` just after an end tag, fails just
      after a reader error, or never returns once the events run out. */
  lemma {:induction false} CityObjRunEnds(events: seq<XmlEvent>, i: nat, c: CityState)
    requires i <= |events|
    ensures var r := CityObjRun(events, i, c);
      (r.status.Done? ==> i < r.pos && events[r.pos - 1].End?) &&
      (r.status.XmlError? ==> i < r.pos && events[r.pos - 1].Malformed?) &&
      (r.status.NeverReturns? ==> r.pos == |events|)
    decreases |events| - i
  {
    if i < |events| {
      var st := CityObjStep(events, i, c);
      CityStepEnds(events, i, c);
      if st.Go? {
        CityObjRunEnds(events, st.pos, st.next);
      }
    }
  }

  /** The highest level is the one `MaxLodAfter` gives for the levels met,
      at most 4, and each level has the position of its start tag. */
  ghost predicate LevelsAgree(c: CityState) {
    c.maxLod == MaxLodAfter(c.levels) && c.maxLod <= 4 && |c.starts| == |c.levels|
  }

  /** A step records at most one level, that of a LOD property start tag
      at `i`, and keeps the highest level in agreement. */
  lemma {:induction false} CityStepLevels(events: seq<XmlEvent>, i: nat, c: CityState)
    requires i < |events| && LevelsAgree(c)
    ensures var n := StepState(CityObjStep(events, i, c));
      LevelsAgree(n) && |c.levels| <= |n.levels| <= |c.levels| + 1 &&
      n.levels[..|c.levels|] == c.levels && n.starts[..|c.levels|] == c.starts &&
      (|n.levels| > |c.levels| ==> n.starts[|c.levels|] == i && LodStartAt(events, i, n.levels[|c.levels|]))
  {
    var e := events[i];
    if e.Start? && IsCityNamespace(e.ns) && LodLevel(e.localName).Some? {
      var level := LodLevel(e.localName).value;
      assert (c.levels + [level])[..|c.levels|] == c.levels;
      assert (c.starts + [i])[..|c.levels|] == c.starts;
    }
  }

  /** The levels recorded after the ones given are those of LOD property
      start tags read, in order, and the highest level stays in agreement
      with them. */
  lemma {:induction false} CityObjRunLevels(events: seq<XmlEvent>, i: nat, c: CityState)
    requires i <= |events| && LevelsAgree(c)
    ensures var r := CityObjRun(events, i, c);
      LevelsAgree(r.state) && |c.levels| <= |r.state.levels| &&
      r.state.levels[..|c.levels|] == c.levels && r.state.starts[..|c.levels|] == c.starts
    ensures var r := CityObjRun(events, i, c);
      forall j :: |c.levels| <= j < |r.state.levels| ==>
        i <= r.state.starts[j] < r.pos && LodStartAt(events, r.state.starts[j], r.state.levels[j])
    decreases |events| - i
  {
    if i < |events| {
      var st := CityObjStep(events, i, c);
      var n := StepState(st);
      CityStepLevels(events, i, c);
      var r := CityObjRun(events, i, c);
      if st.Go? {
        assert r == CityObjRun(events, st.pos, n);
        CityObjRunLevels(events, st.pos, n);
        assert r.state.levels[..|c.levels|] == r.state.levels[..|n.levels|][..|c.levels|];
        assert r.state.starts[..|c.levels|] == r.state.starts[..|n.levels|][..|c.levels|];
        if |n.levels| > |c.levels| {
          assert r.state.levels[|c.levels|] == r.state.levels[..|n.levels|][|c.levels|];
          assert r.state.starts[|c.levels|] == r.state.starts[..|n.levels|][|c.levels|];
        }
      }
    }
  }

  /** The start tags recorded after the ones given come in document
      order. */
  lemma {:induction false} CityObjRunStartsInOrder(events: seq<XmlEvent>, i: nat, c: CityState)
    requires i <= |events| && LevelsAgree(c)
    ensures var r := CityObjRun(events, i, c);
      forall j, j' :: |c.levels| <= j < j' < |r.state.starts| ==> r.state.starts[j] < r.state.starts[j']
    decreases |events| - i
  {
    if i < |events| {
      var st := CityObjStep(events, i, c);
      var n := StepState(st);
      CityStepLevels(events, i, c);
      if st.Go? {
        var r := CityObjRun(events, st.pos, n);
        CityObjRunStartsInOrder(events, st.pos, n);
        CityObjRunLevels(events, st.pos, n);
        if |n.levels| > |c.levels| {
          assert |n.levels| <= |r.state.levels| == |r.state.starts|;
          assert r.state.starts[|c.levels|] == r.state.starts[..|n.levels|][|c.levels|] == i;
        }
      }
    }
  }

  /** The rings held were read after the start tag of a LOD property of the
      highest level so far, and nothing is held before any LOD property. */
  ghost predicate HighestRingsHeld(events: seq<XmlEvent>, i: nat, c: CityState) {
    c.since <= i &&
    (c.maxLod > 0 ==> 0 < c.since && LodStartAt(events, c.since - 1, c.maxLod)) &&
    (c.maxLod == 0 ==> c.polygons == []) &&
    RingsWithin(c.polygons, events, c.since, i)
  }

  /** The LOD arm keeps `HighestRingsHeld`: the level rises and the rings
      restart after its start tag, or the rings read in the property join
      those of the same level. */
  lemma {:induction false} CityLodStepKeeps(events: seq<XmlEvent>, i: nat, c: CityState, level: nat)
    requires i < |events| && HighestRingsHeld(events, i, c) && LodStartAt(events, i, level)
    ensures var d := LodDecision(c.maxLod, level);
      var s := LodStepRun(events, i + 1, c.polygons, c.maxLod, level);
      var since := if d.clear then i + 1 else c.since;
      HighestRingsHeld(events, s.pos, CityState(s.polygons, 0, d.newMax, [], [], since))
  {
    var d := LodDecision(c.maxLod, level);
    var s := LodStepRun(events, i + 1, c.polygons, c.maxLod, level);
    LodStepKeeps(events, i + 1, c.polygons, c.maxLod, level);
    if !d.clear {
      TextRingsGrow(events, c.since, i, s.pos);
      TextRingsGrow(events, i, i + 1, s.pos);
    }
  }

  /** A step keeps `HighestRingsHeld`, and moves the position of the last
      raise only past `i`. */
  lemma {:induction false} CityStepKeeps(events: seq<XmlEvent>, i: nat, c: CityState)
    requires i < |events| && HighestRingsHeld(events, i, c)
    ensures var st := CityObjStep(events, i, c);
      var n := StepState(st);
      HighestRingsHeld(events, StepPos(st), n) &&
      ((n.since == c.since && n.maxLod == c.maxLod) || i < n.since)
  {
    var e := events[i];
    if e.Start? && IsCityNamespace(e.ns) && LodLevel(e.localName).Some? {
      CityLodStepKeeps(events, i, c, LodLevel(e.localName).value);
    } else {
      RingsWithinStep(c.polygons, events, c.since, i);
    }
  }

  /** `HighestRingsHeld` holds where `parse_cityobj` ends. */
  lemma {:induction false} CityObjRunKeeps(events: seq<XmlEvent>, i: nat, c: CityState)
    requires i <= |events| && HighestRingsHeld(events, i, c)
    ensures var r := CityObjRun(events, i, c);
      HighestRingsHeld(events, r.pos, r.state) &&
      ((r.state.since == c.since && r.state.maxLod == c.maxLod) || i < r.state.since)
    decreases |events| - i
  {
    if i < |events| {
      var st := CityObjStep(events, i, c);
      CityStepKeeps(events, i, c);
      if st.Go? {
        CityObjRunKeeps(events, st.pos, st.next);
      }
    }
  }

  /** A step that goes on reads as many more start tags than end tags as
      it deepens, and one that returns `Done` reads one more end tag than
      start tags at depth zero. */
  lemma {:induction false} CityStepCloses(events: seq<XmlEvent>, i: nat, c: CityState)
    requires i < |events| && PolygonsClosed(events)
    ensures var st := CityObjStep(events, i, c);
      (st.Go? ==> Balance(events, i, st.pos) == st.next.depth - c.depth) &&
      (st.Halt? && st.result.status.Done? ==> Balance(events, i, st.result.pos) == -1 - c.depth)
  {
    var e := events[i];
    assert Balance(events, i, i + 1) == if e.Start? then 1 else if e.End? then -1 else 0;
    if e.Start? && IsCityNamespace(e.ns) && LodLevel(e.localName).Some? {
      var level := LodLevel(e.localName).value;
      var d := LodDecision(c.maxLod, level);
      var s := LodStepRun(events, i + 1, c.polygons, c.maxLod, level);
      if d.parse {
        LodRunCloses(events, i + 1, if d.clear then [] else c.polygons, 0);
      }
      BalanceSplit(events, i, i + 1, s.pos);
    }
  }

  /** `parse_cityobj` returns at the end tag that closes the city object:
      when the document's polygons are closed, the events it read up to its
      return hold `depth + 1` more end tags than start tags. */
  lemma {:induction false} CityObjRunCloses(events: seq<XmlEvent>, i: nat, c: CityState)
    requires i <= |events| && PolygonsClosed(events)
    ensures var r := CityObjRun(events, i, c);
      r.status.Done? ==> Balance(events, i, r.pos) == -1 - c.depth
    decreases |events| - i
  {
    if i < |events| {
      var st := CityObjStep(events, i, c);
      CityStepCloses(events, i, c);
      if st.Go? {
        var r := CityObjRun(events, st.pos, st.next);
        CityObjRunCloses(events, st.pos, st.next);
        BalanceSplit(events, i, st.pos, r.pos);
      }
    }
  }

  /** The state `parse_cityobj` starts in at `i`. */
  function CityStart(i: nat): CityState {
    CityState([], 0, 0, [], [], i)
  }

  /** What `parse_cityobj` gives for one city object, from the start: the
      levels of detail met are those of LOD property start tags it read,
      the final level is the largest of them (0 if none), and every ring
      kept was read after the start tag of a property of that level, so
      that only the highest level of detail survives; with no LOD property
      the multipolygon is empty. */
  lemma {:induction false} CityObjKeepsHighestLod(events: seq<XmlEvent>, i: nat)
    requires i <= |events|
    ensures var r := CityObjRun(events, i, CityStart(i));
      var levels := r.state.levels;
      r.state.maxLod == MaxLodAfter(levels) &&
      (forall j :: 0 <= j < |levels| ==> levels[j] <= r.state.maxLod) &&
      (levels != [] ==> r.state.maxLod in levels)
    ensures var r := CityObjRun(events, i, CityStart(i));
      |r.state.starts| == |r.state.levels| &&
      (forall j :: 0 <= j < |r.state.levels| ==>
        i <= r.state.starts[j] < r.pos && LodStartAt(events, r.state.starts[j], r.state.levels[j])) &&
      (forall j, j' :: 0 <= j < j' < |r.state.levels| ==> r.state.starts[j] < r.state.starts[j'])
    ensures var r := CityObjRun(events, i, CityStart(i));
      (r.state.maxLod == 0 ==> r.state.polygons == []) &&
      (r.state.maxLod > 0 ==> i < r.state.since && LodStartAt(events, r.state.since - 1, r.state.maxLod)) &&
      RingsWithin(r.state.polygons, events, r.state.since, r.pos)
  {
    var r := CityObjRun(events, i, CityStart(i));
    CityObjRunLevels(events, i, CityStart(i));
    CityObjRunStartsInOrder(events, i, CityStart(i));
    assert r.state.levels[..0] == [];
    HighestLodKept(r.state.levels);
    assert Rings([]) == {};
    assert HighestRingsHeld(events, i, CityStart(i));
    CityObjRunKeeps(events, i, CityStart(i));
  }

  /** One pass of `parse_cityobj`'s loop: reads an event and handles it.
      `stop` is the status the loop returns with, if it returns; the state
      `next` is the one `CityObjStep` gives. */
  method CityObjEvent(reader: EventReader, mpoly: MultiPolygon3, maxLod: nat, depth: nat, ghost c: CityState)
      returns (stop: Option<ParseStatus>, newMax: nat, newDepth: nat, ghost next: CityState)
    requires reader.Valid() && c.polygons == mpoly.polygons && c.depth == depth && c.maxLod == maxLod
    modifies reader, mpoly
    ensures reader.Valid() && old(reader.pos) <= reader.pos
    ensures next.polygons == mpoly.polygons && next.depth == newDepth && next.maxLod == newMax
    ensures old(reader.pos) == |reader.events| ==> stop == Some(NeverReturns) && reader.pos == old(reader.pos) && next == c
    ensures old(reader.pos) < |reader.events| ==>
      var st := CityObjStep(reader.events, old(reader.pos), c);
      if st.Go? then stop.None? && reader.pos == st.pos && next == st.next
      else stop == Some(st.result.status) && reader.pos == st.result.pos && next == st.result.state
  {
    ghost var at := reader.pos;
    newMax, newDepth, next := maxLod, depth, c;
    var ev := reader.ReadResolvedEvent();
    if ev.None? {
      return Some(NeverReturns), newMax, newDepth, next;
    }
    stop := None;
    match ev.value
    case Start(ns, name) =>
      var lod := LodLevel(name);
      if IsCityNamespace(ns) && lod.Some? {
        var level := lod.value;
        var s;
        s, newMax := EnterLod(reader, mpoly, maxLod, level);
        next := AfterLod(c, at, level, mpoly.polygons);
        if !s.Done? {
          return Some(s), newMax, newDepth, next;
        }
        if newMax != level {
          newDepth := depth + 1;
        }
      } else {
        newDepth := depth + 1;
        next := c.(depth := newDepth);
      }
    case End(_, _) =>
      if depth == 0 {
        return Some(Done), newMax, newDepth, next;
      }
      newDepth := depth - 1;
      next := c.(depth := newDepth);
    case Malformed =>
      return Some(XmlError), newMax, newDepth, next;
    case _ =>
  }

  /** `parse_cityobj`: collects the polygons of one city object, keeping
      those of the highest level of detail, and returns at the end tag that
      brings its depth counter below zero. */
  method ParseCityObj(reader: EventReader) returns (status: ParseStatus, mpoly: MultiPolygon3, maxLod: nat)
    requires reader.Valid()
    modifies reader
    ensures reader.Valid() && old(reader.pos) <= reader.pos
    ensures var r := CityObjRun(reader.events, old(reader.pos), CityStart(old(reader.pos)));
      r.status == status && r.pos == reader.pos && r.state.polygons == mpoly.polygons && r.state.maxLod == maxLod
  {
    ghost var p0 := reader.pos;
    mpoly := new MultiPolygon3();
    var depth: nat := 0;
    maxLod := 0;
    ghost var c := CityStart(p0);
    while true
      invariant reader.Valid() && p0 <= reader.pos
      invariant c.polygons == mpoly.polygons && c.depth == depth && c.maxLod == maxLod
      invariant CityObjRun(reader.events, reader.pos, c) == CityObjRun(reader.events, p0, CityStart(p0))
      decreases |reader.events| - reader.pos
    {
      var stop;
      stop, maxLod, depth, c := CityObjEvent(reader, mpoly, maxLod, depth, c);
      if stop.Some? {
        return stop.value, mpoly, maxLod;
      }
    }
  }

  // ---------------------------------------------------------------------
  // parse_body

  /** The city object elements `parse_body` collects polygons for. */
  predicate IsCityObjectName(localName: string) {
    localName == "Building" || localName == "CityFurniture" || localName == "Road" ||
    localName == "Bridge" || localName == "SolitaryVegetationObject" || localName == "PlantCover"
  }

  predicate IsCityObjectStart(e: XmlEvent) {
    e.Start? && IsCityNamespace(e.ns) && IsCityObjectName(e.localName)
  }

  /** `parse_cityobj` for the city object whose start tag is at `k`. */
  function ObjectRun(events: seq<XmlEvent>, k: nat): (r: CityRun)
    requires k < |events|
    ensures k < r.pos <= |events|
  {
    CityObjRun(events, k + 1, CityStart(k + 1))
  }

  /** How `parse_body` ends: status, position, the multipolygons collected
      and, for the lemmas, the positions of the start tags they came from. */
  datatype BodyResult = BodyResult(status: ParseStatus, pos: nat, objects: seq<seq<Polygon<Coord3>>>, starts: seq<nat>)

  /** `parse_body` over `events[i..]`: a city object start tag hands over to
      `parse_cityobj` (its error is passed on, its multipolygon is pushed),
      a reader error returns the error, and the end of the input returns
      what was collected. */
  function BodyRun(events: seq<XmlEvent>, i: nat, objects: seq<seq<Polygon<Coord3>>>, starts: seq<nat>): (r: BodyResult)
    requires i <= |events|
    ensures i <= r.pos <= |events|
    decreases |events| - i
  {
    if i == |events| then BodyResult(Done, i, objects, starts)
    else match events[i]
      case Start(ns, name) =>
        if IsCityNamespace(ns) && IsCityObjectName(name) then
          var o := ObjectRun(events, i);
          if o.status.Done? then BodyRun(events, o.pos, objects + [o.state.polygons], starts + [i])
          else BodyResult(o.status, o.pos, objects, starts)
        else BodyRun(events, i + 1, objects, starts)
      case Malformed => BodyResult(XmlError, i + 1, objects, starts)
      case _ => BodyRun(events, i + 1, objects, starts)
  }

  /** `parse_body` succeeds only at the end of the input, fails just after
      a reader error, or never returns when a city object is left open. */
  lemma {:induction false} BodyRunEnds(events: seq<XmlEvent>, i: nat, objects: seq<seq<Polygon<Coord3>>>, starts: seq<nat>)
    requires i <= |events|
    ensures var r := BodyRun(events, i, objects, starts);
      (r.status.Done? ==> r.pos == |events|) &&
      (r.status.XmlError? ==> i < r.pos && events[r.pos - 1].Malformed?) &&
      (r.status.NeverReturns? ==> r.pos == |events|)
    decreases |events| - i
  {
    if i < |events| {
      var e := events[i];
      if IsCityObjectStart(e) {
        var o := ObjectRun(events, i);
        CityObjRunEnds(events, i + 1, CityStart(i + 1));
        if o.status.Done? {
          BodyRunEnds(events, o.pos, objects + [o.state.polygons], starts + [i]);
        }
      } else if !e.Malformed? {
        assert BodyRun(events, i, objects, starts) == BodyRun(events, i + 1, objects, starts);
        BodyRunEnds(events, i + 1, objects, starts);
      }
    }
  }

  /** One multipolygon per city object `parse_body` reaches: each one
      pushed is what `parse_cityobj` returned for the city object start tag
      recorded with it, read at or after `i`. */
  lemma {:induction false} BodyRunObjects(events: seq<XmlEvent>, i: nat, objects: seq<seq<Polygon<Coord3>>>, starts: seq<nat>)
    requires i <= |events| && |starts| == |objects|
    ensures var r := BodyRun(events, i, objects, starts);
      |r.starts| == |r.objects| && |objects| <= |r.objects| &&
      r.objects[..|objects|] == objects && r.starts[..|starts|] == starts
    ensures var r := BodyRun(events, i, objects, starts);
      forall j :: |starts| <= j < |r.starts| ==>
        i <= r.starts[j] < |events| && IsCityObjectStart(events[r.starts[j]]) &&
        ObjectRun(events, r.starts[j]).status.Done? && r.objects[j] == ObjectRun(events, r.starts[j]).state.polygons
    decreases |events| - i
  {
    if i < |events| {
      var e := events[i];
      if IsCityObjectStart(e) {
        var o := ObjectRun(events, i);
        if o.status.Done? {
          var objects', starts' := objects + [o.state.polygons], starts + [i];
          var r := BodyRun(events, o.pos, objects', starts');
          BodyRunObjects(events, o.pos, objects', starts');
          assert r.objects[..|objects|] == r.objects[..|objects'|][..|objects|];
          assert r.starts[..|starts|] == r.starts[..|starts'|][..|starts|];
          assert r.objects[|objects|] == r.objects[..|objects'|][|objects|];
          assert r.starts[|starts|] == r.starts[..|starts'|][|starts|];
        }
      } else if !e.Malformed? {
        assert BodyRun(events, i, objects, starts) == BodyRun(events, i + 1, objects, starts);
        BodyRunObjects(events, i + 1, objects, starts);
      }
    }
  }

  /** From index `lo` on, each recorded city object start tag comes at or
      after the point where `parse_cityobj` returned for an earlier one. */
  ghost predicate ObjectsApart(events: seq<XmlEvent>, starts: seq<nat>, lo: nat) {
    forall j, j' :: lo <= j < j' < |starts| && starts[j] < |events| ==>
      ObjectRun(events, starts[j]).pos <= starts[j']
  }

  /** One more object ending before all the later ones keeps them apart. */
  lemma {:induction false} ObjectsApartCons(events: seq<XmlEvent>, starts: seq<nat>, k: nat)
    requires k < |starts| && starts[k] < |events| && ObjectsApart(events, starts, k + 1)
    requires forall j' :: k < j' < |starts| ==> ObjectRun(events, starts[k]).pos <= starts[j']
    ensures ObjectsApart(events, starts, k)
  {
  }

  /** The city objects `parse_body` records do not overlap. */
  lemma {:induction false} BodyRunObjectsApart(events: seq<XmlEvent>, i: nat, objects: seq<seq<Polygon<Coord3>>>, starts: seq<nat>)
    requires i <= |events| && |starts| == |objects|
    ensures ObjectsApart(events, BodyRun(events, i, objects, starts).starts, |starts|)
    decreases |events| - i
  {
    var r := BodyRun(events, i, objects, starts);
    if i < |events| {
      var e := events[i];
      if IsCityObjectStart(e) {
        var o := ObjectRun(events, i);
        if o.status.Done? {
          var objects', starts' := objects + [o.state.polygons], starts + [i];
          assert r == BodyRun(events, o.pos, objects', starts');
          BodyRunObjectsApart(events, o.pos, objects', starts');
          BodyRunObjects(events, o.pos, objects', starts');
          assert r.starts[|starts|] == r.starts[..|starts'|][|starts|] == i;
          ObjectsApartCons(events, r.starts, |starts|);
        }
      } else if !e.Malformed? {
        assert r == BodyRun(events, i + 1, objects, starts);
        BodyRunObjectsApart(events, i + 1, objects, starts);
      }
    }
  }

  /** `events[p]` lies inside the city object whose start tag is recorded
      at some `starts[j]`, before `parse_cityobj` returned for it. */
  ghost predicate InsideObject(events: seq<XmlEvent>, starts: seq<nat>, p: nat) {
    exists j :: 0 <= j < |starts| && starts[j] < |events| && starts[j] < p < ObjectRun(events, starts[j]).pos
  }

  /** No city object is missed: when `parse_body` succeeds, every city
      object start tag read at or after `i` is recorded, or lies inside a
      recorded city object (whose `parse_cityobj` read it). */
  lemma {:induction false} BodyRunCovers(events: seq<XmlEvent>, i: nat, objects: seq<seq<Polygon<Coord3>>>, starts: seq<nat>)
    requires i <= |events| && |starts| == |objects|
    ensures var r := BodyRun(events, i, objects, starts);
      r.status.Done? ==> forall p :: i <= p < |events| && IsCityObjectStart(events[p]) ==>
        p in r.starts || InsideObject(events, r.starts, p)
    decreases |events| - i
  {
    if i < |events| {
      var e := events[i];
      var r := BodyRun(events, i, objects, starts);
      if IsCityObjectStart(e) {
        var o := ObjectRun(events, i);
        if o.status.Done? {
          var objects', starts' := objects + [o.state.polygons], starts + [i];
          assert r == BodyRun(events, o.pos, objects', starts');
          BodyRunCovers(events, o.pos, objects', starts');
          BodyRunObjects(events, o.pos, objects', starts');
          assert r.starts[|starts|] == r.starts[..|starts'|][|starts|] == i;
          forall p | i <= p < o.pos && IsCityObjectStart(events[p]) && r.status.Done?
            ensures p in r.starts || InsideObject(events, r.starts, p)
          {
            if p > i {
              assert r.starts[|starts|] < p < ObjectRun(events, r.starts[|starts|]).pos;
            }
          }
        }
      } else if !e.Malformed? {
        assert BodyRun(events, i, objects, starts) == BodyRun(events, i + 1, objects, starts);
        BodyRunCovers(events, i + 1, objects, starts);
      }
    }
  }

  /** `parse_body`: one multipolygon per city object element, in document
      order, stopping successfully at the end of the input. */
  method ParseBody(reader: EventReader) returns (status: ParseStatus, mpolys: seq<seq<Polygon<Coord3>>>)
    requires reader.Valid()
    modifies reader
    ensures reader.Valid() && old(reader.pos) <= reader.pos
    ensures var b := BodyRun(reader.events, old(reader.pos), [], []);
      b.status == status && b.pos == reader.pos && b.objects == mpolys
  {
    ghost var p0 := reader.pos;
    mpolys := [];
    ghost var starts: seq<nat> := [];
    while true
      invariant reader.Valid() && p0 <= reader.pos
      invariant BodyRun(reader.events, reader.pos, mpolys, starts) == BodyRun(reader.events, p0, [], [])
      decreases |reader.events| - reader.pos
    {
      ghost var at := reader.pos;
      var ev := reader.ReadResolvedEvent();
      if ev.None? {
        return Done, mpolys;
      }
      match ev.value
      case Start(ns, name) =>
        if IsCityNamespace(ns) && IsCityObjectName(name) {
          var s, mpoly, _ := ParseCityObj(reader);
          if !s.Done? {
            return s, mpolys;
          }
          mpolys, starts := mpolys + [mpoly.polygons], starts + [at];
        }
      case Malformed =>
        return XmlError, mpolys;
      case _ =>
    }
  }
}
