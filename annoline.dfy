/** Annotation lines (schemascii/annoline.py): dotted lines drawn with `~`,
    `:`, `.` and `'` that may cross wires, found with the flood walk. */
module Annolines {
  import opened Base
  import opened Geometry
  import opened Grids
  import opened Flood

  /** `AnnotationLine(points)`. `find_all` hands the constructor a list
      holding one line instead of a list of points, so its results are lines
      whose one member is a line: `Lines([Points(ps)])`. */
  datatype AnnotationLine = Points(points: seq<Point>) | Lines(lines: seq<AnnotationLine>)

  /** What `find_all` appends for a walk that found `ps`: `cls([line])`. */
  function Wrap(ps: seq<Point>): (r: AnnotationLine)
    ensures r.Lines? && |r.lines| == 1 && r.lines[0] == Points(ps)
  {
    Lines([Points(ps)])
  }

  /** `AnnotationLine.start_dirs`; None for any other character. */
  function StartDirs(c: char): (r: Option<seq<Point>>)
    ensures r.Some? <==> c in "~:.'"
    ensures c == '~' ==> r == Some(LeftRight)
    ensures c == ':' ==> r == Some(UpDown)
    ensures r.Some? ==> r.value != [] && forall d :: d in r.value ==> d in Orthogonal
  {
    match c
    case '~' => Some(LeftRight)
    case ':' => Some(UpDown)
    case '.' => Some([Point(-1, 0), Point(1, 0), Point(0, -1)])
    case '\'' => Some([Point(-1, 0), Point(1, 0), Point(0, 1)])
    case _ => None
  }

  /** `is_annoline_character`: membership in `start_dirs`. */
  predicate IsAnnolineCharacter(c: char)
  {
    StartDirs(c).Some?
  }

  lemma AnnolineCharacters(c: char)
    ensures IsAnnolineCharacter(c) <==> c == '~' || c == ':' || c == '.' || c == '\''
  {
  }

  /** `AnnotationLine.directions[c][v]` for a cell showing c entered by step v.
      The wire glyphs and the straight glyphs use `IDENTITY`; `.` and `'` are
      corners with their own tables; every other character has None. */
  function AnnoNext(c: char, v: Point): seq<Point>
  {
    if c in "-|():~" then
      if v in Orthogonal then [v] else []
    else if c == '.' then
      if v == Point(-1, 0) then [Point(0, 1), Point(1, 0)]
      else if v == Point(0, 1) then []
      else if v == Point(0, -1) then [Point(-1, 0), Point(1, 0)]
      else if v == Point(1, 0) then [Point(0, 1), Point(-1, 0)]
      else []
    else if c == '\'' then
      if v == Point(-1, 0) then [Point(0, -1), Point(1, 0)]
      else if v == Point(0, -1) then []
      else if v == Point(0, 1) then [Point(-1, 0), Point(1, 0)]
      else if v == Point(1, 0) then [Point(0, -1), Point(-1, 0)]
      else []
    else []
  }

  /** The straight glyphs keep the direction of travel; `.` entered moving
      down and `'` entered moving up continue nowhere; every table entry is
      a list of unit steps, and only the listed glyphs have entries. */
  lemma AnnoNextShape(c: char, v: Point)
    ensures c in "-|():~" && v in Orthogonal ==> AnnoNext(c, v) == [v]
    ensures AnnoNext('.', Point(0, 1)) == [] && AnnoNext('\'', Point(0, -1)) == []
    ensures forall d :: d in AnnoNext(c, v) ==> d in Orthogonal
    ensures AnnoNext(c, v) != [] ==> v in Orthogonal && c in "-|():~.'"
  {
  }

  /** The tables handed to the walk; a None start entry is the empty list. */
  const AnnoTables: WalkTables :=
    WalkTables(c => if StartDirs(c).Some? then StartDirs(c).value else [], (c, v) => AnnoNext(c, v))

  lemma AnnoTablesStopAtBlank()
    ensures StopsAtBlank(AnnoTables)
  {
  }

  /** Point i was entered from an earlier point of the line by a unit step
      into a cell whose table continues that step. */
  ghost predicate Continued(data: seq<string>, masks: seq<seq<Mask>>, points: seq<Point>, i: int)
    requires 0 <= i < |points|
  {
    exists j :: 0 <= j < i && Adjacent(points[j], points[i])
      && AnnoNext(Look(data, masks, points[i]), Diff(points[j], points[i])) != []
  }

  /** The shape of a walked line from `start`: empty when the start is no
      annotation-line character, else the start first, no point twice, and
      each later point continued from an earlier one. */
  ghost predicate LineFrom(data: seq<string>, masks: seq<seq<Mask>>, start: Point, ps: seq<Point>)
  {
    && (ps == [] <==> !IsAnnolineCharacter(Look(data, masks, start)))
    && (ps != [] ==> ps[0] == start)
    && Distinct(ps)
    && forall i :: 1 <= i < |ps| ==> Continued(data, masks, ps, i)
  }

  lemma AnnoEntered(data: seq<string>, masks: seq<seq<Mask>>, points: seq<Point>, dirsOf: seq<seq<Point>>, i: int)
    requires 0 <= i < |points| == |dirsOf| && EnteredFrom(data, masks, AnnoTables, points, dirsOf, i)
    ensures Continued(data, masks, points, i)
  {
    var j :| 0 <= j < i && Diff(points[j], points[i]) in dirsOf[j] && AnnoTables.next(Look(data, masks, points[i]), Diff(points[j], points[i])) != [];
    assert AnnoTables.next(Look(data, masks, points[i]), Diff(points[j], points[i]))
      == AnnoNext(Look(data, masks, points[i]), Diff(points[j], points[i]));
    AnnoNextShape(Look(data, masks, points[i]), Diff(points[j], points[i]));
  }

  /** `AnnotationLine.get_from_grid(grid, start)`: a walk from the start with
      a fresh `seen` set, so nothing found before is excluded. */
  method GetFromGrid(g: Grid, start: Point) returns (line: AnnotationLine)
    requires g.Valid()
    ensures line.Points? && LineFrom(g.data, g.masks, start, line.points)
    ensures ClosedWalk(g.data, g.masks, AnnoTables, start, line.points)
  {
    AnnoTablesStopAtBlank();
    var points, seen, dirsOf := FloodWalk(g, [start], AnnoTables, {});
    assert seen == Elements(points);
    assert ClosedWalk(g.data, g.masks, AnnoTables, start, points);
    var c := Look(g.data, g.masks, start);
    assert AnnoTables.start(c) == (if StartDirs(c).Some? then StartDirs(c).value else []);
    assert [start][0] == start;
    TracedSteps(g.data, g.masks, AnnoTables, [start], points, dirsOf);
    if points != [] {
      assert AnnoTables.start(c) != [] by {
        assert SeedEntry(g.data, g.masks, AnnoTables, [start], (points[0], dirsOf[0]));
      }
    }
    forall i | 1 <= i < |points| ensures Continued(g.data, g.masks, points, i) {
      assert points[i] != points[0];
      AnnoEntered(g.data, g.masks, points, dirsOf, i);
    }
    line := Points(points);
  }

  /** What `find_all` returns for the kept walks: each one wrapped. */
  function WrapAll(found: seq<seq<Point>>): (r: seq<AnnotationLine>)
    ensures |r| == |found|
  {
    seq(|found|, k requires 0 <= k < |found| => Wrap(found[k]))
  }

  /** Every kept walk is a non-empty line walked from its first point, and
      adds a point no earlier kept walk had. */
  ghost predicate Kept(data: seq<string>, masks: seq<seq<Mask>>, found: seq<seq<Point>>)
  {
    forall k :: 0 <= k < |found| ==>
      found[k] != [] && LineFrom(data, masks, found[k][0], found[k])
      && exists p :: p in found[k] && p !in Union(found[..k])
  }

  /** Keeping a non-empty walk with a point not collected before keeps `Kept`. */
  lemma KeptSnoc(data: seq<string>, masks: seq<seq<Mask>>, found: seq<seq<Point>>, ps: seq<Point>, q: Point)
    requires Kept(data, masks, found)
    requires ps != [] && LineFrom(data, masks, ps[0], ps) && q in ps && q !in Union(found)
    ensures Kept(data, masks, found + [ps])
  {
    var found' := found + [ps];
    forall k | 0 <= k < |found'|
      ensures found'[k] != [] && LineFrom(data, masks, found'[k][0], found'[k])
      ensures exists p :: p in found'[k] && p !in Union(found'[..k])
    {
      if k < |found| {
        assert found'[k] == found[k] && found'[..k] == found[..k];
      } else {
        assert found'[..k] == found;
        assert q in found'[k] && q !in Union(found'[..k]);
      }
    }
  }

  /** Every annotation-line cell of the w-by-h grid before (x, y) in
      row-major order is in `seen`. */
  ghost predicate Covered(data: seq<string>, masks: seq<seq<Mask>>, w: int, h: int, x: int, y: int, seen: set<Point>)
  {
    forall cx, cy ::
      (0 <= cx < w && 0 <= cy < h && Before(cx, cy, x, y) && IsAnnolineCharacter(Look(data, masks, Point(cx, cy))))
      ==> Point(cx, cy) in seen
  }

  /** Visiting cell (x, y) extends the covered part by that cell. */
  lemma CoveredStep(data: seq<string>, masks: seq<seq<Mask>>, w: int, h: int, x: int, y: int,
                    seen0: set<Point>, seen: set<Point>)
    requires Covered(data, masks, w, h, x, y, seen0) && seen0 <= seen
    requires IsAnnolineCharacter(Look(data, masks, Point(x, y))) ==> Point(x, y) in seen
    ensures Covered(data, masks, w, h, x + 1, y, seen)
  {
  }

  /** Each walk is the whole line `get_from_grid` walks from an
      annotation-line character of the w-by-h grid. */
  ghost predicate WholeLines(data: seq<string>, masks: seq<seq<Mask>>, w: int, h: int, walks: seq<seq<Point>>)
  {
    forall k :: 0 <= k < |walks| ==>
      && walks[k] != [] && 0 <= walks[k][0].x < w && 0 <= walks[k][0].y < h
      && LineFrom(data, masks, walks[k][0], walks[k])
      && ClosedWalk(data, masks, AnnoTables, walks[k][0], walks[k])
  }

  /** The walks made before cell (x, y): one from each annotation-line
      character of the w-by-h grid before (x, y), in row-major order. */
  ghost predicate Walked(data: seq<string>, masks: seq<seq<Mask>>, w: int, h: int, walks: seq<seq<Point>>, x: int, y: int)
  {
    && WholeLines(data, masks, w, h, walks)
    && StartsOrdered(walks) && StartsBefore(walks, x, y)
    && Covered(data, masks, w, h, x, y, Starts(walks))
  }

  /** A walk from the annotation-line character at (x, y) extends the walks
      by that cell. */
  lemma WalkedSnoc(data: seq<string>, masks: seq<seq<Mask>>, w: int, h: int, walks: seq<seq<Point>>,
                   ps: seq<Point>, x: int, y: int)
    requires Walked(data, masks, w, h, walks, x, y)
    requires 0 <= x < w && 0 <= y < h && ps != [] && ps[0] == Point(x, y)
    requires LineFrom(data, masks, ps[0], ps) && ClosedWalk(data, masks, AnnoTables, ps[0], ps)
    ensures Walked(data, masks, w, h, walks + [ps], x + 1, y)
  {
    var walks': seq<seq<Point>> := walks + [ps];
    forall k | 0 <= k < |walks'|
      ensures walks'[k] != [] && 0 <= walks'[k][0].x < w && 0 <= walks'[k][0].y < h
      ensures LineFrom(data, masks, walks'[k][0], walks'[k])
      ensures ClosedWalk(data, masks, AnnoTables, walks'[k][0], walks'[k])
    {
      if k < |walks| {
        assert walks'[k] == walks[k];
      }
    }
    StartsSnoc(walks, ps);
    assert Starts(walks') == Starts(walks) + {Point(x, y)} by {
      assert walks'[|walks|] == ps;
      forall k | 0 <= k < |walks| ensures walks'[k] == walks[k] { }
    }
    CoveredStep(data, masks, w, h, x, y, Starts(walks), Starts(walks'));
  }

  /** Passing a cell that is no annotation-line character extends the walks
      by it. */
  lemma WalkedSkip(data: seq<string>, masks: seq<seq<Mask>>, w: int, h: int, walks: seq<seq<Point>>, x: int, y: int)
    requires Walked(data, masks, w, h, walks, x, y)
    requires !IsAnnolineCharacter(Look(data, masks, Point(x, y)))
    ensures Walked(data, masks, w, h, walks, x + 1, y)
  {
    StartsLater(walks, x, y);
    CoveredStep(data, masks, w, h, x, y, Starts(walks), Starts(walks));
  }

  /** The state of the scan before cell (x, y): the lines are the kept
      walks wrapped, in the order of their starts, and the collected points
      cover every annotation-line character met so far. */
  ghost predicate Scanned(data: seq<string>, masks: seq<seq<Mask>>, w: int, h: int, all: seq<AnnotationLine>,
                          found: seq<seq<Point>>, seen: set<Point>, walks: seq<seq<Point>>, x: int, y: int)
  {
    && all == WrapAll(found) && Kept(data, masks, found) && seen == Union(found)
    && StartsOrdered(found) && StartsBefore(found, x, y)
    && Covered(data, masks, w, h, x, y, seen)
    && found == KeepNew(walks) && Walked(data, masks, w, h, walks, x, y)
  }

  /** `AnnotationLine.find_all(grid)`: one walk from every annotation-line
      cell in row-major order; a walk whose points were all collected before
      is dropped, and each kept one is wrapped and its points collected. The
      ghost `walks` lists every walk made and `found` the kept ones. */
  method FindAll(g: Grid) returns (all: seq<AnnotationLine>, ghost found: seq<seq<Point>>, ghost walks: seq<seq<Point>>)
    requires g.Valid()
    ensures all == WrapAll(found) && Kept(g.data, g.masks, found) && StartsOrdered(found)
    ensures Covered(g.data, g.masks, g.width, g.height, 0, g.height, Union(found))
    ensures found == KeepNew(walks) && Walked(g.data, g.masks, g.width, g.height, walks, 0, g.height)
  {
    var rows := g.Lines();
    var seenPoints: set<Point> := {};
    all, found, walks := [], [], [];
    var y := 0;
    while y < |rows|
      invariant 0 <= y <= |rows| == g.height
      invariant Scanned(g.data, g.masks, g.width, g.height, all, found, seenPoints, walks, 0, y)
    {
      var x := 0;
      while x < |rows[y]|
        invariant 0 <= x <= |rows[y]| == g.width
        invariant Scanned(g.data, g.masks, g.width, g.height, all, found, seenPoints, walks, x, y)
      {
        assert rows[y][x] == Look(g.data, g.masks, Point(x, y));
        all, found, seenPoints, walks := VisitCell(g, Point(x, y), rows[y][x], all, found, seenPoints, walks);
        x := x + 1;
      }
      ScannedRow(g.data, g.masks, g.width, g.height, all, found, seenPoints, walks, y);
      y := y + 1;
    }
  }

  /** A row scanned to its end is the next row begun. */
  lemma ScannedRow(data: seq<string>, masks: seq<seq<Mask>>, w: int, h: int, all: seq<AnnotationLine>,
                   found: seq<seq<Point>>, seen: set<Point>, walks: seq<seq<Point>>, y: int)
    requires Scanned(data, masks, w, h, all, found, seen, walks, w, y)
    ensures Scanned(data, masks, w, h, all, found, seen, walks, 0, y + 1)
  {
  }

  /** One cell of `find_all`'s scan. */
  method VisitCell(g: Grid, p: Point, ch: char, all0: seq<AnnotationLine>, ghost found0: seq<seq<Point>>,
                   seen0: set<Point>, ghost walks0: seq<seq<Point>>)
    returns (all: seq<AnnotationLine>, ghost found: seq<seq<Point>>, seen: set<Point>, ghost walks: seq<seq<Point>>)
    requires g.Valid() && ch == Look(g.data, g.masks, p) && 0 <= p.x < g.width && 0 <= p.y < g.height
    requires Scanned(g.data, g.masks, g.width, g.height, all0, found0, seen0, walks0, p.x, p.y)
    ensures Scanned(g.data, g.masks, g.width, g.height, all, found, seen, walks, p.x + 1, p.y)
  {
    if !IsAnnolineCharacter(ch) {
      all, found, seen, walks := all0, found0, seen0, walks0;
      SkipCell(g.data, g.masks, g.width, g.height, all, found, seen, walks, p.x, p.y);
      return;
    }
    var line := GetFromGrid(g, p);
    var ps := line.points;
    walks := walks0 + [ps];
    if forall q | q in ps :: q in seen0 {
      all, found, seen := all0, found0, seen0;
      DropLine(g.data, g.masks, g.width, g.height, walks0, ps, p.x, p.y);
      return;
    }
    var q :| q in ps && q !in seen0;
    KeepCell(g.data, g.masks, g.width, g.height, all0, found0, seen0, walks0, ps, q, p.x, p.y);
    all := all0 + [Wrap(ps)];
    found := found0 + [ps];
    seen := seen0 + Elements(ps);
  }

  /** A cell that is no annotation-line character is passed over. */
  lemma SkipCell(data: seq<string>, masks: seq<seq<Mask>>, w: int, h: int, all: seq<AnnotationLine>,
                 found: seq<seq<Point>>, seen: set<Point>, walks: seq<seq<Point>>, x: int, y: int)
    requires 0 <= x < w && 0 <= y < h && !IsAnnolineCharacter(Look(data, masks, Point(x, y)))
    requires Scanned(data, masks, w, h, all, found, seen, walks, x, y)
    ensures Scanned(data, masks, w, h, all, found, seen, walks, x + 1, y)
  {
    StartsLater(found, x, y);
    WalkedSkip(data, masks, w, h, walks, x, y);
    CoveredStep(data, masks, w, h, x, y, seen, seen);
  }

  /** A walk with a point not collected before is kept, wrapped and collected. */
  lemma KeepCell(data: seq<string>, masks: seq<seq<Mask>>, w: int, h: int, all: seq<AnnotationLine>,
                 found: seq<seq<Point>>, seen: set<Point>, walks: seq<seq<Point>>, ps: seq<Point>, q: Point, x: int, y: int)
    requires 0 <= x < w && 0 <= y < h && IsAnnolineCharacter(Look(data, masks, Point(x, y)))
    requires LineFrom(data, masks, Point(x, y), ps) && ClosedWalk(data, masks, AnnoTables, Point(x, y), ps)
    requires Scanned(data, masks, w, h, all, found, seen, walks, x, y)
    requires q in ps && q !in seen
    ensures Scanned(data, masks, w, h, all + [Wrap(ps)], found + [ps], seen + Elements(ps), walks + [ps], x + 1, y)
  {
    KeepLine(data, masks, w, h, walks, ps, q, x, y);
    KeepLineFound(data, masks, w, h, found, ps, q, x, y);
    UnionSnoc(found, ps);
    WrapAllSnoc(found, ps);
  }

  /** One more kept walk is one more wrapped line. */
  lemma WrapAllSnoc(found: seq<seq<Point>>, ps: seq<Point>)
    ensures WrapAll(found + [ps]) == WrapAll(found) + [Wrap(ps)]
  {
    var l, r := WrapAll(found + [ps]), WrapAll(found) + [Wrap(ps)];
    forall k | 0 <= k < |l| ensures l[k] == r[k] {
      if k < |found| {
        assert (found + [ps])[k] == found[k];
      }
    }
  }

  /** A line walked from the annotation-line character at (x, y) whose
      points were all collected is walked and dropped. */
  lemma DropLine(data: seq<string>, masks: seq<seq<Mask>>, w: int, h: int, walks: seq<seq<Point>>,
                 ps: seq<Point>, x: int, y: int)
    requires 0 <= x < w && 0 <= y < h && IsAnnolineCharacter(Look(data, masks, Point(x, y)))
    requires LineFrom(data, masks, Point(x, y), ps) && ClosedWalk(data, masks, AnnoTables, Point(x, y), ps)
    requires Scanned(data, masks, w, h, WrapAll(KeepNew(walks)), KeepNew(walks), Union(KeepNew(walks)), walks, x, y)
    requires forall q | q in ps :: q in Union(KeepNew(walks))
    ensures Scanned(data, masks, w, h, WrapAll(KeepNew(walks)), KeepNew(walks), Union(KeepNew(walks)), walks + [ps], x + 1, y)
  {
    WalkedSnoc(data, masks, w, h, walks, ps, x, y);
    KeepNewSnoc(walks, ps);
    StartsLater(KeepNew(walks), x, y);
    assert Point(x, y) in Union(KeepNew(walks)) by {
      assert ps[0] == Point(x, y);
    }
    CoveredStep(data, masks, w, h, x, y, Union(KeepNew(walks)), Union(KeepNew(walks)));
  }

  /** A line walked from the annotation-line character at (x, y) with a
      point q not collected before is walked and kept. */
  lemma KeepLine(data: seq<string>, masks: seq<seq<Mask>>, w: int, h: int, walks: seq<seq<Point>>,
                 ps: seq<Point>, q: Point, x: int, y: int)
    requires 0 <= x < w && 0 <= y < h && IsAnnolineCharacter(Look(data, masks, Point(x, y)))
    requires LineFrom(data, masks, Point(x, y), ps) && ClosedWalk(data, masks, AnnoTables, Point(x, y), ps)
    requires Walked(data, masks, w, h, walks, x, y)
    requires q in ps && q !in Union(KeepNew(walks))
    ensures KeepNew(walks + [ps]) == KeepNew(walks) + [ps]
    ensures Walked(data, masks, w, h, walks + [ps], x + 1, y)
  {
    WalkedSnoc(data, masks, w, h, walks, ps, x, y);
    KeepNewSnoc(walks, ps);
  }

  /** Keeping that line keeps the kept lines in order and covers the cell. */
  lemma KeepLineFound(data: seq<string>, masks: seq<seq<Mask>>, w: int, h: int, found: seq<seq<Point>>,
                      ps: seq<Point>, q: Point, x: int, y: int)
    requires 0 <= x < w && 0 <= y < h && IsAnnolineCharacter(Look(data, masks, Point(x, y)))
    requires LineFrom(data, masks, Point(x, y), ps)
    requires Kept(data, masks, found) && StartsOrdered(found) && StartsBefore(found, x, y)
    requires Covered(data, masks, w, h, x, y, Union(found))
    requires q in ps && q !in Union(found)
    ensures Kept(data, masks, found + [ps])
    ensures StartsOrdered(found + [ps]) && StartsBefore(found + [ps], x + 1, y)
    ensures Covered(data, masks, w, h, x + 1, y, Union(found) + Elements(ps))
  {
    KeptSnoc(data, masks, found, ps, q);
    StartsSnoc(found, ps);
    CoveredStep(data, masks, w, h, x, y, Union(found), Union(found) + Elements(ps));
  }
}
