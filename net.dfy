/** Nets (schemascii/net.py): every wire of the grid, found by walking from
    each wire character, one wire per net. */
module Nets {
  import opened Base
  import opened Geometry
  import opened Grids
  import opened Flood
  import opened Wires

  /** `Net(wires)`; a wire is the list of its points. */
  datatype Net = Net(wires: seq<seq<Point>>)

  /** `Wire.is_wire_character`: a key of the wire table. */
  predicate IsWireCharacter(wires: WireTable, c: char)
  {
    c in wires.startDirs
  }

  /** A wire character `Wire.get_from_grid` cannot start from: it has no
      starting directions, so the walk raises. */
  predicate Unwalkable(wires: WireTable, c: char)
  {
    IsWireCharacter(wires, c) && StartingDirections(c).None?
  }

  /** The points `Wire.get_from_grid` walks from `start`: the start first,
      no point twice, each later point a unit step from an earlier one and
      showing a glyph with a `directions` entry. */
  ghost predicate WireFrom(data: seq<string>, masks: seq<seq<Mask>>, start: Point, ps: seq<Point>)
  {
    && |ps| >= 1 && ps[0] == start && Distinct(ps)
    && forall i :: 1 <= i < |ps| ==> ReachedFromEarlier(ps, i) && Directions(Look(data, masks, ps[i])).Some?
  }

  /** What `find_all` returns for the kept walks: a net of one wire each. */
  function NetsOf(found: seq<seq<Point>>): (r: seq<Net>)
    ensures |r| == |found|
  {
    seq(|found|, k requires 0 <= k < |found| => Net([found[k]]))
  }

  /** Every kept wire was walked from a wire character and brings a point no
      earlier kept wire had. */
  ghost predicate Kept(data: seq<string>, masks: seq<seq<Mask>>, wires: WireTable, found: seq<seq<Point>>)
  {
    forall k :: 0 <= k < |found| ==>
      && found[k] != []
      && WireFrom(data, masks, found[k][0], found[k])
      && IsWireCharacter(wires, Look(data, masks, found[k][0]))
      && exists p :: p in found[k] && p !in Union(found[..k])
  }

  /** Every wire character of the w-by-h grid before (x, y) in row-major
      order lies on a collected wire. */
  ghost predicate Covered(data: seq<string>, masks: seq<seq<Mask>>, wires: WireTable, w: int, h: int, x: int, y: int,
                          seen: set<Point>)
  {
    forall cx, cy ::
      (0 <= cx < w && 0 <= cy < h && Before(cx, cy, x, y) && IsWireCharacter(wires, Look(data, masks, Point(cx, cy))))
      ==> Point(cx, cy) in seen
  }

  /** No cell of the w-by-h grid before (x, y) shows an unwalkable wire
      character. */
  ghost predicate Walkable(data: seq<string>, masks: seq<seq<Mask>>, wires: WireTable, w: int, h: int, x: int, y: int)
  {
    forall cx, cy ::
      (0 <= cx < w && 0 <= cy < h && Before(cx, cy, x, y)) ==> !Unwalkable(wires, Look(data, masks, Point(cx, cy)))
  }

  /** Each walk is the whole wire `Wire.get_from_grid` walks from a wire
      character of the w-by-h grid. */
  ghost predicate WholeWires(data: seq<string>, masks: seq<seq<Mask>>, wires: WireTable, w: int, h: int,
                             walks: seq<seq<Point>>)
  {
    forall k :: 0 <= k < |walks| ==>
      && walks[k] != [] && 0 <= walks[k][0].x < w && 0 <= walks[k][0].y < h
      && IsWireCharacter(wires, Look(data, masks, walks[k][0]))
      && WireFrom(data, masks, walks[k][0], walks[k])
      && ClosedWalk(data, masks, WireTables, walks[k][0], walks[k])
  }

  /** The walks made before cell (x, y): one from each wire character of the
      w-by-h grid before (x, y), in row-major order. */
  ghost predicate Walked(data: seq<string>, masks: seq<seq<Mask>>, wires: WireTable, w: int, h: int,
                         walks: seq<seq<Point>>, x: int, y: int)
  {
    && WholeWires(data, masks, wires, w, h, walks)
    && StartsOrdered(walks) && StartsBefore(walks, x, y)
    && Covered(data, masks, wires, w, h, x, y, Starts(walks))
  }

  /** The message of the TypeError an unwalkable start raises. */
  const NoneNotIterable: string := "'NoneType' object is not iterable"

  /** `Net.find_all(grid)`: a walk from every wire character in row-major
      order. A walk whose points were all collected before is dropped; each
      other one becomes a net of that one wire, and its points are
      collected. The ghost `walks` lists every walk made and `found` the
      kept ones. The first unwalkable wire character ends the scan with its
      TypeError. */
  method FindAll(g: Grid, wires: WireTable) returns (r: Result<seq<Net>>, ghost found: seq<seq<Point>>,
                                                     ghost walks: seq<seq<Point>>)
    requires g.Valid()
    ensures r.Err? <==> exists cx, cy :: 0 <= cx < g.width && 0 <= cy < g.height && Unwalkable(wires, Look(g.data, g.masks, Point(cx, cy)))
    ensures r.Err? ==> r.error == TypeError(NoneNotIterable)
    ensures r.Ok? ==> r.value == NetsOf(found) && Kept(g.data, g.masks, wires, found) && StartsOrdered(found)
    ensures r.Ok? ==> Covered(g.data, g.masks, wires, g.width, g.height, 0, g.height, Union(found))
    ensures r.Ok? ==> found == KeepNew(walks) && Walked(g.data, g.masks, wires, g.width, g.height, walks, 0, g.height)
  {
    var rows := g.Lines();
    var nets: seq<Net> := [];
    var seenPoints: set<Point> := {};
    found, walks := [], [];
    var y := 0;
    while y < |rows|
      invariant 0 <= y <= |rows| == g.height
      invariant Scanned(g, wires, nets, found, seenPoints, 0, y)
      invariant found == KeepNew(walks) && Walked(g.data, g.masks, wires, g.width, g.height, walks, 0, y)
    {
      var failed;
      failed, nets, found, seenPoints, walks := ScanRow(g, wires, rows[y], y, nets, found, seenPoints, walks);
      if failed {
        ghost var cx :| 0 <= cx < g.width && Unwalkable(wires, Look(g.data, g.masks, Point(cx, y)));
        assert 0 <= y < g.height;
        return Err(TypeError(NoneNotIterable)), found, walks;
      }
      y := y + 1;
    }
    forall cx, cy | 0 <= cx < g.width && 0 <= cy < g.height
      ensures !Unwalkable(wires, Look(g.data, g.masks, Point(cx, cy)))
    {
      assert Before(cx, cy, 0, g.height);
    }
    return Ok(nets), found, walks;
  }

  /** The state of the scan before cell (x, y): the nets are the kept
      walks, in the order of their starts, and the collected points cover
      every wire character met so far, none of them unwalkable. */
  ghost predicate Scanned(g: Grid, wires: WireTable, nets: seq<Net>, found: seq<seq<Point>>, seen: set<Point>, x: int, y: int)
    reads g
  {
    && nets == NetsOf(found) && Kept(g.data, g.masks, wires, found) && seen == Union(found)
    && StartsOrdered(found) && StartsBefore(found, x, y)
    && Covered(g.data, g.masks, wires, g.width, g.height, x, y, seen)
    && Walkable(g.data, g.masks, wires, g.width, g.height, x, y)
  }

  /** The inner loop of `find_all`, over the cells of row y. */
  method ScanRow(g: Grid, wires: WireTable, line: string, y: int, nets0: seq<Net>, ghost found0: seq<seq<Point>>,
                 seen0: set<Point>, ghost walks0: seq<seq<Point>>)
    returns (failed: bool, nets: seq<Net>, ghost found: seq<seq<Point>>, seen: set<Point>, ghost walks: seq<seq<Point>>)
    requires g.Valid() && 0 <= y < g.height && line == g.Lines()[y]
    requires Scanned(g, wires, nets0, found0, seen0, 0, y)
    requires found0 == KeepNew(walks0) && Walked(g.data, g.masks, wires, g.width, g.height, walks0, 0, y)
    ensures failed ==> exists cx :: 0 <= cx < g.width && Unwalkable(wires, Look(g.data, g.masks, Point(cx, y)))
    ensures !failed ==> Scanned(g, wires, nets, found, seen, 0, y + 1)
    ensures !failed ==> found == KeepNew(walks) && Walked(g.data, g.masks, wires, g.width, g.height, walks, 0, y + 1)
  {
    nets, found, seen, walks := nets0, found0, seen0, walks0;
    var x := 0;
    while x < |line|
      invariant 0 <= x <= |line| == g.width
      invariant Scanned(g, wires, nets, found, seen, x, y)
      invariant found == KeepNew(walks) && Walked(g.data, g.masks, wires, g.width, g.height, walks, x, y)
    {
      ghost var seenBefore := seen;
      assert line[x] == Look(g.data, g.masks, Point(x, y));
      failed, nets, found, seen, walks := VisitCell(g, wires, Point(x, y), line[x], nets, found, seen, walks);
      if failed {
        return;
      }
      ScannedStep(g, wires, nets, found, seenBefore, seen, x, y);
      x := x + 1;
    }
    failed := false;
    ScannedRow(g, wires, nets, found, seen, y);
    WalkedRow(g.data, g.masks, wires, g.width, g.height, walks, y);
  }

  /** One cell of `find_all`'s scan; `failed` when the walk from it raises. */
  method VisitCell(g: Grid, wires: WireTable, p: Point, ch: char, nets0: seq<Net>, ghost found0: seq<seq<Point>>,
                   seen0: set<Point>, ghost walks0: seq<seq<Point>>)
    returns (failed: bool, nets: seq<Net>, ghost found: seq<seq<Point>>, seen: set<Point>, ghost walks: seq<seq<Point>>)
    requires g.Valid() && ch == Look(g.data, g.masks, p) && 0 <= p.x < g.width && 0 <= p.y < g.height
    requires nets0 == NetsOf(found0) && Kept(g.data, g.masks, wires, found0) && seen0 == Union(found0)
    requires StartsOrdered(found0) && StartsBefore(found0, p.x, p.y)
    requires found0 == KeepNew(walks0) && Walked(g.data, g.masks, wires, g.width, g.height, walks0, p.x, p.y)
    ensures failed <==> Unwalkable(wires, ch)
    ensures nets == NetsOf(found) && Kept(g.data, g.masks, wires, found) && seen == Union(found)
    ensures StartsOrdered(found) && StartsBefore(found, p.x + 1, p.y)
    ensures seen0 <= seen
    ensures IsWireCharacter(wires, ch) && !failed ==> p in seen
    ensures !failed ==> found == KeepNew(walks) && Walked(g.data, g.masks, wires, g.width, g.height, walks, p.x + 1, p.y)
  {
    failed, nets, found, seen, walks := false, nets0, found0, seen0, walks0;
    if !IsWireCharacter(wires, ch) {
      StartsLater(found, p.x, p.y);
      WalkedSkip(g.data, g.masks, wires, g.width, g.height, walks, p.x, p.y);
      return;
    }
    var wire := GetFromGrid(g, p);
    if wire.Err? {
      failed := true;
      return;
    }
    WalkedWire(g, p, wire.value);
    nets, found, seen, walks := TakeWire(g, wires, p, wire.value, nets0, found0, seen0, walks0);
  }

  /** The rest of a cell's visit once the walk from it gave the wire ps:
      the wire becomes a net unless all its points were collected before. */
  method TakeWire(g: Grid, wires: WireTable, p: Point, ps: seq<Point>, nets0: seq<Net>, ghost found0: seq<seq<Point>>,
                  seen0: set<Point>, ghost walks0: seq<seq<Point>>)
    returns (nets: seq<Net>, ghost found: seq<seq<Point>>, seen: set<Point>, ghost walks: seq<seq<Point>>)
    requires 0 <= p.x < g.width && 0 <= p.y < g.height
    requires IsWireCharacter(wires, Look(g.data, g.masks, p))
    requires WireFrom(g.data, g.masks, p, ps) && ClosedWalk(g.data, g.masks, WireTables, p, ps)
    requires nets0 == NetsOf(found0) && Kept(g.data, g.masks, wires, found0) && seen0 == Union(found0)
    requires StartsOrdered(found0) && StartsBefore(found0, p.x, p.y)
    requires found0 == KeepNew(walks0) && Walked(g.data, g.masks, wires, g.width, g.height, walks0, p.x, p.y)
    ensures nets == NetsOf(found) && Kept(g.data, g.masks, wires, found) && seen == Union(found)
    ensures StartsOrdered(found) && StartsBefore(found, p.x + 1, p.y)
    ensures seen0 <= seen && p in seen
    ensures found == KeepNew(walks) && Walked(g.data, g.masks, wires, g.width, g.height, walks, p.x + 1, p.y)
  {
    walks := walks0 + [ps];
    if forall q | q in ps :: q in seen0 {
      DropWire(g.data, g.masks, wires, g.width, g.height, walks0, ps, p.x, p.y);
      nets, found, seen := nets0, found0, seen0;
      return;
    }
    var q :| q in ps && q !in seen0;
    KeepWire(g.data, g.masks, wires, g.width, g.height, walks0, ps, q, p.x, p.y);
    nets := nets0 + [Net([ps])];
    found := found0 + [ps];
    seen := seen0 + Elements(ps);
    UnionSnoc(found0, ps);
    NetsOfSnoc(found0, ps);
  }

  /** One more kept wire is one more net. */
  lemma NetsOfSnoc(found: seq<seq<Point>>, ps: seq<Point>)
    ensures NetsOf(found + [ps]) == NetsOf(found) + [Net([ps])]
  {
    var l, r := NetsOf(found + [ps]), NetsOf(found) + [Net([ps])];
    assert |l| == |r|;
    forall k | 0 <= k < |l| ensures l[k] == r[k] {
      if k < |found| {
        assert (found + [ps])[k] == found[k];
      }
    }
  }

  /** A wire walked from the wire character at (x, y) whose points were all
      collected is walked and dropped. */
  lemma DropWire(data: seq<string>, masks: seq<seq<Mask>>, wires: WireTable, w: int, h: int,
                 walks: seq<seq<Point>>, ps: seq<Point>, x: int, y: int)
    requires 0 <= x < w && 0 <= y < h && ps != [] && ps[0] == Point(x, y)
    requires IsWireCharacter(wires, Look(data, masks, ps[0])) && WireFrom(data, masks, ps[0], ps)
    requires ClosedWalk(data, masks, WireTables, ps[0], ps)
    requires Walked(data, masks, wires, w, h, walks, x, y)
    requires StartsBefore(KeepNew(walks), x, y)
    requires forall q | q in ps :: q in Union(KeepNew(walks))
    ensures KeepNew(walks + [ps]) == KeepNew(walks)
    ensures Walked(data, masks, wires, w, h, walks + [ps], x + 1, y)
    ensures StartsBefore(KeepNew(walks), x + 1, y)
  {
    WalkedSnoc(data, masks, wires, w, h, walks, ps, x, y);
    KeepNewSnoc(walks, ps);
    StartsLater(KeepNew(walks), x, y);
  }

  /** A wire walked from the wire character at (x, y) with a point q not
      collected before is walked and kept, after every wire kept before. */
  lemma KeepWire(data: seq<string>, masks: seq<seq<Mask>>, wires: WireTable, w: int, h: int,
                 walks: seq<seq<Point>>, ps: seq<Point>, q: Point, x: int, y: int)
    requires 0 <= x < w && 0 <= y < h && ps != [] && ps[0] == Point(x, y)
    requires IsWireCharacter(wires, Look(data, masks, ps[0])) && WireFrom(data, masks, ps[0], ps)
    requires ClosedWalk(data, masks, WireTables, ps[0], ps)
    requires Walked(data, masks, wires, w, h, walks, x, y)
    requires Kept(data, masks, wires, KeepNew(walks))
    requires StartsOrdered(KeepNew(walks)) && StartsBefore(KeepNew(walks), x, y)
    requires q in ps && q !in Union(KeepNew(walks))
    ensures KeepNew(walks + [ps]) == KeepNew(walks) + [ps]
    ensures Walked(data, masks, wires, w, h, walks + [ps], x + 1, y)
    ensures Kept(data, masks, wires, KeepNew(walks) + [ps])
    ensures StartsOrdered(KeepNew(walks) + [ps]) && StartsBefore(KeepNew(walks) + [ps], x + 1, y)
  {
    WalkedSnoc(data, masks, wires, w, h, walks, ps, x, y);
    assert HasNew(ps, Union(KeepNew(walks))) by { assert q in ps && q !in Union(KeepNew(walks)); }
    KeepNewSnoc(walks, ps);
    KeptAfter(data, masks, wires, KeepNew(walks), ps, q);
  }

  /** A kept wire goes after the wires kept before it, in row-major order. */
  lemma KeptAfter(data: seq<string>, masks: seq<seq<Mask>>, wires: WireTable, found: seq<seq<Point>>, ps: seq<Point>, q: Point)
    requires ps != [] && WireFrom(data, masks, ps[0], ps) && IsWireCharacter(wires, Look(data, masks, ps[0]))
    requires Kept(data, masks, wires, found)
    requires StartsOrdered(found) && StartsBefore(found, ps[0].x, ps[0].y)
    requires q in ps && q !in Union(found)
    ensures Kept(data, masks, wires, found + [ps])
    ensures StartsOrdered(found + [ps]) && StartsBefore(found + [ps], ps[0].x + 1, ps[0].y)
  {
    KeptSnoc(data, masks, wires, found, ps, q);
    StartsSnoc(found, ps);
  }

  /** A walk from the wire character at (x, y) extends the walks by that cell. */
  lemma WalkedSnoc(data: seq<string>, masks: seq<seq<Mask>>, wires: WireTable, w: int, h: int,
                   walks: seq<seq<Point>>, ps: seq<Point>, x: int, y: int)
    requires Walked(data, masks, wires, w, h, walks, x, y)
    requires 0 <= x < w && 0 <= y < h && ps != [] && ps[0] == Point(x, y)
    requires IsWireCharacter(wires, Look(data, masks, ps[0])) && WireFrom(data, masks, ps[0], ps)
    requires ClosedWalk(data, masks, WireTables, ps[0], ps)
    ensures Walked(data, masks, wires, w, h, walks + [ps], x + 1, y)
  {
    var walks': seq<seq<Point>> := walks + [ps];
    forall k | 0 <= k < |walks'|
      ensures walks'[k] != [] && 0 <= walks'[k][0].x < w && 0 <= walks'[k][0].y < h
      ensures IsWireCharacter(wires, Look(data, masks, walks'[k][0]))
      ensures WireFrom(data, masks, walks'[k][0], walks'[k])
      ensures ClosedWalk(data, masks, WireTables, walks'[k][0], walks'[k])
    {
      if k < |walks| {
        assert walks'[k] == walks[k];
      }
    }
    StartsSnoc(walks, ps);
    assert Starts(walks') == Starts(walks) + {Point(x, y)} by {
      assert walks'[|walks|] == ps;
      forall k | 0 <= k < |walks| ensures walks'[k] == walks[k] { }
    }
    CoveredStep(data, masks, wires, w, h, x, y, Starts(walks), Starts(walks'));
  }

  /** A row walked to its end is the next row begun. */
  lemma WalkedRow(data: seq<string>, masks: seq<seq<Mask>>, wires: WireTable, w: int, h: int,
                  walks: seq<seq<Point>>, y: int)
    requires Walked(data, masks, wires, w, h, walks, w, y)
    ensures Walked(data, masks, wires, w, h, walks, 0, y + 1)
  {
  }

  /** Passing a cell that is no wire character extends the walks by it. */
  lemma WalkedSkip(data: seq<string>, masks: seq<seq<Mask>>, wires: WireTable, w: int, h: int,
                   walks: seq<seq<Point>>, x: int, y: int)
    requires Walked(data, masks, wires, w, h, walks, x, y)
    requires !IsWireCharacter(wires, Look(data, masks, Point(x, y)))
    ensures Walked(data, masks, wires, w, h, walks, x + 1, y)
  {
    StartsLater(walks, x, y);
    CoveredStep(data, masks, wires, w, h, x, y, Starts(walks), Starts(walks));
  }

  /** What `Wire.get_from_grid` returns is a wire walked from its start. */
  lemma WalkedWire(g: Grid, start: Point, ps: seq<Point>)
    requires g.Valid()
    requires |ps| >= 1 && ps[0] == start && Distinct(ps)
    requires forall i :: 1 <= i < |ps| ==> ReachedFromEarlier(ps, i) && Directions(g.Get(ps[i])).Some?
    ensures WireFrom(g.data, g.masks, start, ps)
  {
  }

  /** Keeping a wire walked from a wire character, with a point not
      collected before, keeps `Kept`. */
  lemma KeptSnoc(data: seq<string>, masks: seq<seq<Mask>>, wires: WireTable, found: seq<seq<Point>>, ps: seq<Point>, q: Point)
    requires Kept(data, masks, wires, found)
    requires ps != [] && WireFrom(data, masks, ps[0], ps) && IsWireCharacter(wires, Look(data, masks, ps[0]))
    requires q in ps && q !in Union(found)
    ensures Kept(data, masks, wires, found + [ps])
  {
    var found' := found + [ps];
    forall k | 0 <= k < |found'|
      ensures found'[k] != [] && WireFrom(data, masks, found'[k][0], found'[k]) && IsWireCharacter(wires, Look(data, masks, found'[k][0]))
      ensures exists p :: p in found'[k] && p !in Union(found'[..k])
    {
      if k < |found| {
        assert found'[k] == found[k] && found'[..k] == found[..k];
      } else {
        assert found'[..k] == found;
        assert q in found'[k] && q !in Union(found'[..k]);
      }
    }
  }

  /** Visiting cell (x, y) without failing extends the scanned part by it. */
  lemma ScannedStep(g: Grid, wires: WireTable, nets: seq<Net>, found: seq<seq<Point>>, seen0: set<Point>, seen: set<Point>,
                    x: int, y: int)
    requires Covered(g.data, g.masks, wires, g.width, g.height, x, y, seen0) && seen0 <= seen
    requires Walkable(g.data, g.masks, wires, g.width, g.height, x, y)
    requires nets == NetsOf(found) && Kept(g.data, g.masks, wires, found) && seen == Union(found)
    requires StartsOrdered(found) && StartsBefore(found, x + 1, y)
    requires !Unwalkable(wires, Look(g.data, g.masks, Point(x, y)))
    requires IsWireCharacter(wires, Look(g.data, g.masks, Point(x, y))) ==> Point(x, y) in seen
    ensures Scanned(g, wires, nets, found, seen, x + 1, y)
  {
    CoveredStep(g.data, g.masks, wires, g.width, g.height, x, y, seen0, seen);
  }

  /** A row scanned to its end is the next row begun. */
  lemma ScannedRow(g: Grid, wires: WireTable, nets: seq<Net>, found: seq<seq<Point>>, seen: set<Point>, y: int)
    requires Scanned(g, wires, nets, found, seen, g.width, y)
    ensures Scanned(g, wires, nets, found, seen, 0, y + 1)
  {
  }

  /** Visiting cell (x, y) extends the covered part by that cell. */
  lemma CoveredStep(data: seq<string>, masks: seq<seq<Mask>>, wires: WireTable, w: int, h: int, x: int, y: int,
                    seen0: set<Point>, seen: set<Point>)
    requires Covered(data, masks, wires, w, h, x, y, seen0) && seen0 <= seen
    requires IsWireCharacter(wires, Look(data, masks, Point(x, y))) ==> Point(x, y) in seen
    ensures Covered(data, masks, wires, w, h, x + 1, y, seen)
  {
  }
}
