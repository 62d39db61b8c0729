/** `findbig` and `findall` of schemascii/findcomponents.py: a big component
    is a box whose top and bottom are `.~~~.` and whose sides are `:`, with
    its designator written inside; each box found is masked out of the grid
    before the search starts again from the top. */
module FindComponents {
  import opened Base
  import opened Text
  import opened Geometry
  import opened Grids
  import opened Scanner
  import opened SmallComponents

  /** `boxtop`, `\.~+\.`: a dot, one or more tildes, a dot. */
  function BoxTop(line: string, i: nat): Option<nat>
  {
    Bracketed(line, i, '.', c => c == '~', '.')
  }

  const BoxTopPat: Pattern := (line, i) => BoxTop(line, i)

  /** `pattern.search(line)` from column i: the leftmost match. */
  function Search(line: string, i: nat, p: Pattern): (r: Option<Span>)
    requires i <= |line|
    ensures r.Some? ==> i <= r.value.start < |line| && p(line, r.value.start) == Some(r.value.end)
    ensures forall j: nat :: i <= j < |line| && (r.None? || j < r.value.start) ==> p(line, j).None?
    decreases |line| - i
  {
    if i == |line| then None
    else match p(line, i)
      case Some(e) => Some(Span(i, e))
      case None => Search(line, i + 1, p)
  }

  /** The first row from y on holding a box top, and the top's span. */
  function FirstTop(rows: seq<string>, y: nat): (r: Option<(nat, Span)>)
    requires y <= |rows|
    ensures r.Some? ==> y <= r.value.0 < |rows| && Search(rows[r.value.0], 0, BoxTopPat) == Some(r.value.1)
    ensures forall k :: y <= k < |rows| && (r.None? || k < r.value.0) ==> Search(rows[k], 0, BoxTopPat).None?
    decreases |rows| - y
  {
    if y == |rows| then None
    else match Search(rows[y], 0, BoxTopPat)
      case Some(s) => Some((y, s))
      case None => FirstTop(rows, y + 1)
  }

  /** How the scan down from a box top ends: at the bottom row equal to
      the top, with the rows between stripped of their sides; at a row
      that is neither bottom nor side; or at the end of the grid. */
  datatype Scan = Closed(y2: nat, inners: seq<string>) | Fragmented | Unfinished

  /** Every row is w characters wide, as `grid.lines` rows are. */
  ghost predicate Rectangular(rows: seq<string>, w: nat)
  {
    forall k :: 0 <= k < |rows| ==> |rows[k]| == w
  }

  /** A side row: not the bottom, and `:` at both ends of the span. */
  predicate Side(line: string, x1: nat, x2: nat, tb: string)
    requires x1 < x2 <= |line|
  {
    line[x1..x2] != tb && line[x1] == ':' && line[x2 - 1] == ':'
  }

  /** The scan of rows j, j+1, ... below a box top `tb` at columns `[x1, x2)`. */
  function ScanDown(rows: seq<string>, w: nat, x1: nat, x2: nat, tb: string, j: nat): Scan
    requires Rectangular(rows, w) && x1 + 2 <= x2 <= w
    decreases |rows| - j
  {
    if j >= |rows| then Unfinished
    else
      var cs := rows[j][x1..x2];
      if cs == tb then Closed(j, [])
      else if !(cs[0] == ':' && cs[|cs| - 1] == ':') then Fragmented
      else match ScanDown(rows, w, x1, x2, tb, j + 1)
        case Closed(y2, inn) => Closed(y2, [cs[1..|cs| - 1]] + inn)
        case other => other
  }

  /** The scan ends at the first row that is not a side: with its inside
      rows when that row equals the top, with an error otherwise, and
      unfinished only when every remaining row is a side. */
  lemma {:induction false} ScanDownShape(rows: seq<string>, w: nat, x1: nat, x2: nat, tb: string, j: nat)
    requires Rectangular(rows, w) && x1 + 2 <= x2 <= w
    ensures var r := ScanDown(rows, w, x1, x2, tb, j);
      && (r.Closed? ==> j <= r.y2 < |rows| && rows[r.y2][x1..x2] == tb && |r.inners| == r.y2 - j)
      && (r.Fragmented? ==> exists f :: j <= f < |rows| && rows[f][x1..x2] != tb && !Side(rows[f], x1, x2, tb))
      && (r.Unfinished? ==> j >= |rows| || Side(rows[j], x1, x2, tb))
    ensures forall k :: j <= k < |rows| && SidesUntil(ScanDown(rows, w, x1, x2, tb, j), k) ==> Side(rows[k], x1, x2, tb)
    ensures forall k :: j <= k < |rows| && ScanDown(rows, w, x1, x2, tb, j).Closed? && k < ScanDown(rows, w, x1, x2, tb, j).y2 ==>
      ScanDown(rows, w, x1, x2, tb, j).inners[k - j] == rows[k][x1 + 1..x2 - 1]
    decreases |rows| - j
  {
    if j < |rows| {
      var cs := rows[j][x1..x2];
      assert cs[0] == rows[j][x1] && cs[|cs| - 1] == rows[j][x2 - 1];
      if cs != tb && cs[0] == ':' && cs[|cs| - 1] == ':' {
        ScanDownShape(rows, w, x1, x2, tb, j + 1);
        SliceOfSlice(rows[j], x1, x2, 1, |cs| - 1);
      }
    }
  }

  lemma SliceOfSlice(s: string, a: nat, b: nat, c: nat, d: nat)
    requires a <= b <= |s| && c <= d <= b - a
    ensures s[a..b][c..d] == s[a + c..a + d]
  {
    var l, r := s[a..b][c..d], s[a + c..a + d];
    forall k | 0 <= k < |l| ensures l[k] == r[k] {
      assert l[k] == s[a..b][c + k];
    }
  }

  /** Row k lies before where the scan stopped (every row, when it ran off the grid). */
  predicate SidesUntil(r: Scan, k: nat)
  {
    match r
    case Closed(y2, _) => k < y2
    case Fragmented => false
    case Unfinished => true
  }

  /** Every row below j is a side exactly when the scan runs off the grid. */
  lemma ScanDownUnfinished(rows: seq<string>, w: nat, x1: nat, x2: nat, tb: string, j: nat)
    requires Rectangular(rows, w) && x1 + 2 <= x2 <= w
    ensures ScanDown(rows, w, x1, x2, tb, j).Unfinished? <==> forall k :: j <= k < |rows| ==> Side(rows[k], x1, x2, tb)
  {
    ScanDownShape(rows, w, x1, x2, tb, j);
    var r := ScanDown(rows, w, x1, x2, tb, j);
    if r.Closed? {
      assert !Side(rows[r.y2], x1, x2, tb);
    } else if r.Fragmented? {
      var f :| j <= f < |rows| && rows[f][x1..x2] != tb && !Side(rows[f], x1, x2, tb);
    }
  }

  /** `"line %d, col %d"` for a box whose top starts at (x1, y1), counted from 1. */
  function Place(y1: nat, x1: nat): string
  {
    "line " + IntToString(y1 + 1) + ", col " + IntToString(x1 + 1)
  }

  /** The rows of `Grid(filename, text)`: the lines, padded to the longest. */
  function GridRows(text: string): (rows: seq<string>)
    ensures |rows| >= 1 && Rectangular(rows, MaxLen(Split(text, '\n')))
  {
    var ls := Split(text, '\n');
    var n := MaxLen(ls);
    seq(|ls|, i requires 0 <= i < |ls| => LJust(ls[i], n))
  }

  /** The designator of a box from what `findsmall` found inside it: an
      error when nothing was found, or when neither one component nor one
      piece of data was; otherwise the first component, or the first data
      when there is no component. */
  function Designate(results: seq<Cbox>, resb: seq<BOMData>, box: string): Result<(string, int)>
  {
    if |results| == 0 && |resb| == 0 then Err(ValueError(box + " is missing reference designator"))
    else if |results| != 1 && |resb| != 1 then Err(ValueError(box + " has multiple reference designators"))
    else if |results| == 0 then Ok((resb[0].typ, resb[0].id))
    else Ok((results[0].typ, results[0].id))
  }

  /** A box is accepted exactly when it holds one component or one piece
      of data, whatever else it holds; the missing-designator error is
      raised exactly when it holds neither. */
  lemma DesignateAccepts(results: seq<Cbox>, resb: seq<BOMData>, box: string)
    ensures Designate(results, resb, box).Ok? <==> |results| == 1 || |resb| == 1
    ensures Designate(results, resb, box) == Err(ValueError(box + " is missing reference designator")) <==>
      |results| == 0 && |resb| == 0
  {
    MessagesDiffer(box);
  }

  lemma MessagesDiffer(box: string)
    ensures box + " has multiple reference designators" != box + " is missing reference designator"
  {
    var a, b := box + " has multiple reference designators", box + " is missing reference designator";
    assert a[|box| + 1] == 'h' && b[|box| + 1] == 'i';
  }

  /** The designator is the first component's, or the first data's when
      the box holds no component. */
  lemma DesignateChooses(results: seq<Cbox>, resb: seq<BOMData>, box: string)
    requires Designate(results, resb, box).Ok?
    ensures |results| > 0 ==> Designate(results, resb, box).value == (results[0].typ, results[0].id)
    ensures |results| == 0 ==> Designate(results, resb, box).value == (resb[0].typ, resb[0].id)
  {
  }

  /** What a scan of a box's inside finds. */
  type InsideScan = seq<string> -> (seq<Cbox>, seq<BOMData>)

  /** `findsmall(Grid(filename, "\n".join(inners)))`. */
  function FindInside(inners: seq<string>): (seq<Cbox>, seq<BOMData>)
  {
    var inside := GridRows(Join("\n", inners));
    AllSmall(inside, |inside|)
  }

  /** One pass of the `while True` loop: the first box top on the grid, the
      scan down from it, and the designator inside; `None` when no row
      holds a box top. The box runs from the top's first column and row to
      its end column (exclusive) and bottom row. */
  function NextBig(rows: seq<string>, w: nat, filename: string): Result<Option<(Cbox, seq<BOMData>)>>
    requires Rectangular(rows, w)
  {
    NextBigBy(FindInside, rows, w, filename)
  }

  /** One pass, with `scan` looking inside the box. */
  function NextBigBy(scan: InsideScan, rows: seq<string>, w: nat, filename: string): Result<Option<(Cbox, seq<BOMData>)>>
    requires Rectangular(rows, w)
  {
    match FirstTop(rows, 0)
    case None => Ok(None)
    case Some((y1, top)) =>
      var x1, x2 := top.start, top.end;
      var at := Place(y1, x1);
      match ScanDown(rows, w, x1, x2, rows[y1][x1..x2], y1 + 1)
      case Fragmented => Err(SyntaxError(filename + ": Fragmented box starting at " + at))
      case Unfinished => Err(SyntaxError(filename + ": Unfinished box starting at " + at))
      case Closed(y2, inners) =>
        var found := scan(inners);
        match Designate(found.0, found.1, filename + ": Box starting at " + at)
        case Err(e) => Err(e)
        case Ok(d) => Ok(Some((Cbox(Point(x1, y1), Point(x2, y2), d.0, d.1), found.1)))
  }

  /** The end of one pass, once the scan down from the top at `(x1, y1)` is known. */
  function Closing(scan: InsideScan, filename: string, y1: nat, x1: nat, x2: nat, s: Scan): Result<Option<(Cbox, seq<BOMData>)>>
  {
    var at := Place(y1, x1);
    match s
    case Fragmented => Err(SyntaxError(filename + ": Fragmented box starting at " + at))
    case Unfinished => Err(SyntaxError(filename + ": Unfinished box starting at " + at))
    case Closed(y2, inners) =>
      var found := scan(inners);
      match Designate(found.0, found.1, filename + ": Box starting at " + at)
      case Err(e) => Err(e)
      case Ok(d) => Ok(Some((Cbox(Point(x1, y1), Point(x2, y2), d.0, d.1), found.1)))
  }

  /** Once the first box top is known, a pass is decided by the scan down from it. */
  lemma NextBigAt(scan: InsideScan, rows: seq<string>, w: nat, filename: string, y1: nat, top: Span)
    requires Rectangular(rows, w) && FirstTop(rows, 0) == Some((y1, top))
    ensures y1 < |rows| && top.start + 2 <= top.end <= w
    ensures NextBigBy(scan, rows, w, filename) ==
      Closing(scan, filename, y1, top.start, top.end, ScanDown(rows, w, top.start, top.end, rows[y1][top.start..top.end], y1 + 1))
  {
  }

  /** A box that one pass finds: its top is the first box top on the
      first row holding one, at least three columns wide; its bottom row
      repeats the top in the same columns; every row between is a side;
      its data is what `findsmall` found inside. */
  ghost predicate BoxFound(rows: seq<string>, w: nat, c: Cbox)
    requires Rectangular(rows, w)
  {
    && 0 <= c.p1.y < c.p2.y < |rows| && 0 <= c.p1.x && c.p1.x + 3 <= c.p2.x <= w
    && FirstTop(rows, 0) == Some((c.p1.y, Span(c.p1.x, c.p2.x)))
    && BoxTop(rows[c.p1.y], c.p1.x) == Some(c.p2.x)
    && rows[c.p1.y][c.p1.x] == '.'
    && rows[c.p2.y][c.p1.x..c.p2.x] == rows[c.p1.y][c.p1.x..c.p2.x]
    && forall k :: c.p1.y < k < c.p2.y ==> Side(rows[k], c.p1.x, c.p2.x, rows[c.p1.y][c.p1.x..c.p2.x])
  }

  /** One pass finds nothing exactly when no row holds a box top, and
      fails only where a box top is. */
  lemma NextBigNone(scan: InsideScan, rows: seq<string>, w: nat, filename: string)
    requires Rectangular(rows, w)
    ensures NextBigBy(scan, rows, w, filename) == Ok(None) <==>
      forall k :: 0 <= k < |rows| ==> Search(rows[k], 0, BoxTopPat).None?
    ensures NextBigBy(scan, rows, w, filename).Err? ==> FirstTop(rows, 0).Some?
  {
    if FirstTop(rows, 0).Some? {
      var y1 := FirstTop(rows, 0).value.0;
      assert Search(rows[y1], 0, BoxTopPat).Some?;
    }
  }

  /** What one pass finds is a box of that shape. */
  lemma NextBigShape(scan: InsideScan, rows: seq<string>, w: nat, filename: string)
    requires Rectangular(rows, w)
    requires NextBigBy(scan, rows, w, filename).Ok? && NextBigBy(scan, rows, w, filename).value.Some?
    ensures BoxFound(rows, w, NextBigBy(scan, rows, w, filename).value.value.0)
    ensures NextBigBy(scan, rows, w, filename).value.value.1 ==
      scan(ScanDown(rows, w, FirstTop(rows, 0).value.1.start, FirstTop(rows, 0).value.1.end,
        rows[FirstTop(rows, 0).value.0][FirstTop(rows, 0).value.1.start..FirstTop(rows, 0).value.1.end],
        FirstTop(rows, 0).value.0 + 1).inners).1
  {
    var (y1, top) := FirstTop(rows, 0).value;
    var x1, x2 := top.start, top.end;
    var tb := rows[y1][x1..x2];
    ScanDownShape(rows, w, x1, x2, tb, y1 + 1);
    var c := NextBigBy(scan, rows, w, filename).value.value.0;
    assert c.p1 == Point(x1, y1) && c.p2.x == x2;
    forall k | c.p1.y < k < c.p2.y ensures Side(rows[k], x1, x2, tb) {
      assert SidesUntil(ScanDown(rows, w, x1, x2, tb, y1 + 1), k);
    }
  }

  /** The cell (x, y) lies in the box: columns `[p1.x, p2.x)`, rows `p1.y` to `p2.y`. */
  predicate InBox(c: Cbox, x: int, y: int)
  {
    c.p1.x <= x < c.p2.x && c.p1.y <= y <= c.p2.y
  }

  /** The masks after `setmask` with its default, a space, on every cell of the box. */
  function MaskBox(masks: seq<seq<Mask>>, c: Cbox): (r: seq<seq<Mask>>)
    ensures |r| == |masks| && forall y :: 0 <= y < |r| ==> |r[y]| == |masks[y]|
    ensures forall y, x :: 0 <= y < |r| && 0 <= x < |r[y]| ==> r[y][x] == if InBox(c, x, y) then Some(' ') else masks[y][x]
  {
    MaskRect(masks, c.p1.x, c.p2.x, c.p1.y, c.p2.y + 1)
  }

  /** The masks with columns `[x1, x2)` of rows `[y1, y2)` set to a space. */
  function MaskRect(masks: seq<seq<Mask>>, x1: int, x2: int, y1: int, y2: int): (r: seq<seq<Mask>>)
    ensures |r| == |masks| && forall y :: 0 <= y < |r| ==> |r[y]| == |masks[y]|
  {
    seq(|masks|, y requires 0 <= y < |masks| =>
      seq(|masks[y]|, x requires 0 <= x < |masks[y]| =>
        if x1 <= x < x2 && y1 <= y < y2 then Some(' ') else masks[y][x]))
  }

  /** Data and masks of one shape, w columns wide. */
  ghost predicate Shaped(data: seq<string>, masks: seq<seq<Mask>>, w: nat)
  {
    |data| == |masks| && forall y :: 0 <= y < |data| ==> |data[y]| == w && |masks[y]| == w
  }

  /** `grid.lines` of a grid with these data and masks. */
  function Screen(data: seq<string>, masks: seq<seq<Mask>>, w: nat): (rows: seq<string>)
    ensures |rows| == |data| && Rectangular(rows, w)
    ensures forall y, x :: 0 <= y < |data| && 0 <= x < w ==> rows[y][x] == CellAt(data, masks, x, y)
  {
    seq(|data|, y requires 0 <= y < |data| => seq(w, x requires 0 <= x < w => CellAt(data, masks, x, y)))
  }

  /** The cells that show ink. */
  ghost function InkCells(data: seq<string>, masks: seq<seq<Mask>>, w: nat): set<Point>
  {
    set y, x | 0 <= y < |data| && 0 <= x < w && Ink(data, masks, x, y) :: Point(x, y)
  }

  /** Masking a box whose first cell shows ink hides at least that cell
      and shows no new ink. */
  lemma MaskShrinks(data: seq<string>, masks: seq<seq<Mask>>, w: nat, c: Cbox)
    requires Shaped(data, masks, w)
    requires 0 <= c.p1.y < |data| && 0 <= c.p1.x < w && InBox(c, c.p1.x, c.p1.y) && Ink(data, masks, c.p1.x, c.p1.y)
    ensures Shaped(data, MaskBox(masks, c), w)
    ensures InkCells(data, MaskBox(masks, c), w) < InkCells(data, masks, w)
  {
    var m := MaskBox(masks, c);
    forall p | p in InkCells(data, m, w) ensures p in InkCells(data, masks, w) {
      assert Ink(data, m, p.x, p.y);
      assert !InBox(c, p.x, p.y);
    }
    assert Point(c.p1.x, c.p1.y) !in InkCells(data, m, w) by {
      assert CellAt(data, m, c.p1.x, c.p1.y) == ' ';
    }
  }

  /** What is found after `boxes` and `boms`, or the error that stopped it. */
  function Prepend(boxes: seq<Cbox>, boms: seq<BOMData>, r: Result<(seq<Cbox>, seq<BOMData>)>): Result<(seq<Cbox>, seq<BOMData>)>
  {
    match r
    case Err(e) => Err(e)
    case Ok((cs, bs)) => Ok((boxes + cs, boms + bs))
  }

  /** `findbig` on a grid with these data and masks: the boxes and data in
      the order found, or the first error, with the masks at that point.
      Each box found is masked before the next pass, so the set of cells
      showing ink shrinks from pass to pass. */
  ghost function Big(data: seq<string>, masks: seq<seq<Mask>>, w: nat, filename: string): (Result<(seq<Cbox>, seq<BOMData>)>, seq<seq<Mask>>)
    requires Shaped(data, masks, w)
    decreases InkCells(data, masks, w)
  {
    match NextBig(Screen(data, masks, w), w, filename)
    case Err(e) => (Err(e), masks)
    case Ok(None) => (Ok(([], [])), masks)
    case Ok(Some((c, bs))) =>
      PassShrinks(data, masks, w, filename, c, bs);
      var next := Big(data, MaskBox(masks, c), w, filename);
      (Prepend([c], bs, next.0), next.1)
  }

  /** A pass that finds a box starts it on a cell showing ink. */
  lemma PassShrinks(data: seq<string>, masks: seq<seq<Mask>>, w: nat, filename: string, c: Cbox, bs: seq<BOMData>)
    requires Shaped(data, masks, w)
    requires NextBig(Screen(data, masks, w), w, filename) == Ok(Some((c, bs)))
    ensures BoxFound(Screen(data, masks, w), w, c)
    ensures Shaped(data, MaskBox(masks, c), w)
    ensures InkCells(data, MaskBox(masks, c), w) < InkCells(data, masks, w)
  {
    PassFound(Screen(data, masks, w), w, filename, c, bs);
    assert CellAt(data, masks, c.p1.x, c.p1.y) == '.';
    MaskShrinks(data, masks, w, c);
  }

  /** The box a pass finds has the shape of a box. */
  lemma PassFound(rows: seq<string>, w: nat, filename: string, c: Cbox, bs: seq<BOMData>)
    requires Rectangular(rows, w)
    requires NextBig(rows, w, filename) == Ok(Some((c, bs)))
    ensures BoxFound(rows, w, c)
  {
    NextBigShape(FindInside, rows, w, filename);
  }

  /** Every cell of the box is masked with a space. */
  ghost predicate Masked(masks: seq<seq<Mask>>, d: Cbox)
  {
    forall y, x :: InBox(d, x, y) ==> 0 <= y < |masks| && 0 <= x < |masks[y]| && masks[y][x] == Some(' ')
  }

  /** Masking keeps what was masked, and masks a box lying inside the grid. */
  lemma MaskBoxMasks(masks: seq<seq<Mask>>, c: Cbox, d: Cbox)
    ensures Masked(masks, d) ==> Masked(MaskBox(masks, c), d)
    ensures 0 <= c.p1.y && c.p2.y < |masks| && 0 <= c.p1.x && (forall y :: 0 <= y < |masks| ==> c.p2.x <= |masks[y]|) ==>
      Masked(MaskBox(masks, c), c)
  {
  }

  /** `findbig` never unmasks a cell. */
  lemma {:induction false} BigKeepsMasks(data: seq<string>, masks: seq<seq<Mask>>, w: nat, filename: string, d: Cbox)
    requires Shaped(data, masks, w) && Masked(masks, d)
    ensures Masked(Big(data, masks, w, filename).1, d)
    decreases InkCells(data, masks, w)
  {
    match NextBig(Screen(data, masks, w), w, filename)
    case Err(_) =>
    case Ok(None) =>
    case Ok(Some((c, bs))) =>
      PassShrinks(data, masks, w, filename, c, bs);
      MaskBoxMasks(masks, c, d);
      BigKeepsMasks(data, MaskBox(masks, c), w, filename, d);
  }

  /** Every box in the list is masked. */
  ghost predicate AllMasked(masks: seq<seq<Mask>>, cs: seq<Cbox>)
  {
    forall j :: 0 <= j < |cs| ==> Masked(masks, cs[j])
  }

  /** When `findbig` succeeds, every box it found is masked at the end, and
      no row of what the grid then shows holds a box top. */
  lemma {:induction false} BigMasksBoxes(data: seq<string>, masks: seq<seq<Mask>>, w: nat, filename: string)
    requires Shaped(data, masks, w)
    ensures Big(data, masks, w, filename).0.Ok? ==>
      AllMasked(Big(data, masks, w, filename).1, Big(data, masks, w, filename).0.value.0)
    ensures Big(data, masks, w, filename).0.Ok? ==>
      NoBoxTop(Screen(data, Big(data, masks, w, filename).1, w))
    decreases InkCells(data, masks, w)
  {
    var rows := Screen(data, masks, w);
    match NextBig(rows, w, filename)
    case Err(_) =>
    case Ok(None) =>
      NextBigNone(FindInside, rows, w, filename);
    case Ok(Some((c, bs))) =>
      PassShrinks(data, masks, w, filename, c, bs);
      var m := MaskBox(masks, c);
      MaskBoxMasks(masks, c, c);
      BigMasksBoxes(data, m, w, filename);
      BigKeepsMasks(data, m, w, filename, c);
      BigCons(data, masks, w, filename, c, bs);
      if Big(data, m, w, filename).0.Ok? {
        MaskedCons(Big(data, m, w, filename).1, c, Big(data, m, w, filename).0.value.0);
      }
  }

  lemma MaskedCons(masks: seq<seq<Mask>>, c: Cbox, rest: seq<Cbox>)
    requires Masked(masks, c) && AllMasked(masks, rest)
    ensures AllMasked(masks, [c] + rest)
  {
    forall j | 0 <= j < |[c] + rest| ensures Masked(masks, ([c] + rest)[j]) {
      if j > 0 {
        assert ([c] + rest)[j] == rest[j - 1];
      }
    }
  }

  /** No row holds a box top. */
  ghost predicate NoBoxTop(rows: seq<string>)
  {
    forall k :: 0 <= k < |rows| ==> Search(rows[k], 0, BoxTopPat).None?
  }

  /** No box of the list starts inside d. */
  ghost predicate Avoids(cs: seq<Cbox>, d: Cbox)
  {
    forall j :: 0 <= j < |cs| ==> !InBox(d, cs[j].p1.x, cs[j].p1.y)
  }

  /** A box found later never starts on a masked cell. */
  lemma {:induction false} BigAvoidsMasked(data: seq<string>, masks: seq<seq<Mask>>, w: nat, filename: string, d: Cbox)
    requires Shaped(data, masks, w) && Masked(masks, d)
    ensures Big(data, masks, w, filename).0.Ok? ==> Avoids(Big(data, masks, w, filename).0.value.0, d)
    decreases InkCells(data, masks, w)
  {
    match NextBig(Screen(data, masks, w), w, filename)
    case Err(_) =>
    case Ok(None) =>
    case Ok(Some((c, bs))) =>
      PassShrinks(data, masks, w, filename, c, bs);
      assert CellAt(data, masks, c.p1.x, c.p1.y) == '.';
      MaskBoxMasks(masks, c, d);
      BigAvoidsMasked(data, MaskBox(masks, c), w, filename, d);
      BigCons(data, masks, w, filename, c, bs);
      if Big(data, MaskBox(masks, c), w, filename).0.Ok? {
        AvoidsCons(c, Big(data, MaskBox(masks, c), w, filename).0.value.0, d);
      }
  }

  lemma AvoidsCons(c: Cbox, rest: seq<Cbox>, d: Cbox)
    requires !InBox(d, c.p1.x, c.p1.y) && Avoids(rest, d)
    ensures Avoids([c] + rest, d)
  {
    forall j | 0 <= j < |[c] + rest| ensures !InBox(d, ([c] + rest)[j].p1.x, ([c] + rest)[j].p1.y) {
      if j > 0 {
        assert ([c] + rest)[j] == rest[j - 1];
      }
    }
  }

  /** No box starts inside a box found before it. */
  ghost predicate Separate(cs: seq<Cbox>)
  {
    forall i, j :: 0 <= i < j < |cs| ==> !InBox(cs[i], cs[j].p1.x, cs[j].p1.y)
  }

  /** The boxes `findbig` finds never start inside one another. */
  lemma {:induction false} BigSeparate(data: seq<string>, masks: seq<seq<Mask>>, w: nat, filename: string)
    requires Shaped(data, masks, w)
    ensures Big(data, masks, w, filename).0.Ok? ==> Separate(Big(data, masks, w, filename).0.value.0)
    decreases InkCells(data, masks, w)
  {
    match NextBig(Screen(data, masks, w), w, filename)
    case Err(_) =>
    case Ok(None) =>
    case Ok(Some((c, bs))) =>
      PassShrinks(data, masks, w, filename, c, bs);
      var m := MaskBox(masks, c);
      MaskBoxMasks(masks, c, c);
      BigSeparate(data, m, w, filename);
      BigAvoidsMasked(data, m, w, filename, c);
      BigCons(data, masks, w, filename, c, bs);
      if Big(data, m, w, filename).0.Ok? {
        SeparateCons(c, Big(data, m, w, filename).0.value.0);
      }
  }

  lemma SeparateCons(c: Cbox, rest: seq<Cbox>)
    requires Separate(rest) && Avoids(rest, c)
    ensures Separate([c] + rest)
  {
    var cs := [c] + rest;
    forall i, j | 0 <= i < j < |cs| ensures !InBox(cs[i], cs[j].p1.x, cs[j].p1.y) {
      assert cs[j] == rest[j - 1];
      if i > 0 {
        assert cs[i] == rest[i - 1];
      }
    }
  }

  /** A pass that finds a box puts it and its data before what the
      following passes find. */
  lemma BigCons(data: seq<string>, masks: seq<seq<Mask>>, w: nat, filename: string, c: Cbox, bs: seq<BOMData>)
    requires Shaped(data, masks, w)
    requires NextBig(Screen(data, masks, w), w, filename) == Ok(Some((c, bs)))
    ensures Shaped(data, MaskBox(masks, c), w)
    ensures Big(data, masks, w, filename).0 == Prepend([c], bs, Big(data, MaskBox(masks, c), w, filename).0)
    ensures Big(data, masks, w, filename).1 == Big(data, MaskBox(masks, c), w, filename).1
  {
    PassShrinks(data, masks, w, filename, c, bs);
  }

  /** The masks after `clrall`: none set. */
  function Cleared(h: nat, w: nat): (m: seq<seq<Mask>>)
    ensures |m| == h && forall y :: 0 <= y < h ==> |m[y]| == w
  {
    seq(h, _ => Repeat(None, w))
  }

  /** `findall`: clear the masks, find the big boxes, then the small
      components on what the grid shows with the boxes masked; boxes and
      data of the big ones come first. */
  ghost function All(data: seq<string>, w: nat, filename: string): (Result<(seq<Cbox>, seq<BOMData>)>, seq<seq<Mask>>)
    requires Rectangular(data, w)
  {
    var big := Big(data, Cleared(|data|, w), w, filename);
    match big.0
    case Err(e) => (Err(e), big.1)
    case Ok((b1, l1)) =>
      var small := AllSmall(Screen(data, big.1, w), |data|);
      (Ok((b1 + small.0, l1 + small.1)), big.1)
  }

  /** No small component starts inside any of the big boxes. */
  ghost predicate SmallOutside(bigs: seq<Cbox>, smalls: seq<Cbox>)
  {
    forall i :: 0 <= i < |bigs| ==> Avoids(smalls, bigs[i])
  }

  /** What `findall` finds after the big boxes never starts inside one of
      them, and the big boxes never start inside one another. */
  lemma AllSeparate(data: seq<string>, w: nat, filename: string)
    requires Rectangular(data, w)
    ensures Big(data, Cleared(|data|, w), w, filename).0.Ok? ==>
      Separate(Big(data, Cleared(|data|, w), w, filename).0.value.0)
    ensures Big(data, Cleared(|data|, w), w, filename).0.Ok? ==>
      SmallOutside(Big(data, Cleared(|data|, w), w, filename).0.value.0,
        AllSmall(Screen(data, Big(data, Cleared(|data|, w), w, filename).1, w), |data|).0)
  {
    var m0 := Cleared(|data|, w);
    BigSeparate(data, m0, w, filename);
    BigMasksBoxes(data, m0, w, filename);
    var big := Big(data, m0, w, filename);
    if big.0.Ok? {
      MaskedBlank(data, big.1, w, big.0.value.0);
    }
  }

  /** Small components are found on ink, so never on a masked box. */
  lemma MaskedBlank(data: seq<string>, masks: seq<seq<Mask>>, w: nat, bigs: seq<Cbox>)
    requires AllMasked(masks, bigs)
    ensures SmallOutside(bigs, AllSmall(Screen(data, masks, w), |data|).0)
  {
    var rows := Screen(data, masks, w);
    var smalls := AllSmall(rows, |data|).0;
    AllSmallShape(rows, |data|);
    forall i, j | 0 <= i < |bigs| && 0 <= j < |smalls| ensures !InBox(bigs[i], smalls[j].p1.x, smalls[j].p1.y) {
      var s := smalls[j];
      var x: nat, y := s.p1.x, s.p1.y;
      assert BoxAt(FinderOf(rows[y]), y, x, s);
      SmallAtShape(rows[y], x);
      assert CellAt(data, masks, x, y) != ' ';
      assert Masked(masks, bigs[i]);
    }
  }

  /** A grid's data and masks have the grid's shape. */
  lemma ValidShaped(g: Grid)
    requires g.Valid()
    ensures Shaped(g.data, g.masks, g.width) && Rectangular(g.data, g.width)
    ensures g.Lines() == Screen(g.data, g.masks, g.width)
  {
    var a, b := g.Lines(), Screen(g.data, g.masks, g.width);
    forall y | 0 <= y < |a| ensures a[y] == b[y] {
    }
  }

  /** The rows of a fresh `Grid(filename, text)` are `GridRows(text)`. */
  lemma FreshRows(g: Grid, text: string)
    requires g.Valid()
    requires g.height == |Split(text, '\n')| && g.width == MaxLen(Split(text, '\n'))
    requires forall y :: 0 <= y < g.height ==> g.data[y] == LJust(Split(text, '\n')[y], g.width)
    requires forall y, x :: 0 <= y < g.height && 0 <= x < g.width ==> g.masks[y][x].None?
    ensures g.Lines() == GridRows(text)
  {
    var a, b := g.Lines(), GridRows(text);
    forall y | 0 <= y < |a| ensures a[y] == b[y] {
      forall x | 0 <= x < |a[y]| ensures a[y][x] == b[y][x] {
      }
    }
  }

  /** The scan so far: `inners` collected above row j. */
  function Extend(inners: seq<string>, r: Scan): Scan
  {
    match r
    case Closed(y2, inn) => Closed(y2, inners + inn)
    case other => other
  }

  /** The scan down from row `j0`, row by row. */
  method ScanBox(rows: seq<string>, w: nat, x1: nat, x2: nat, tb: string, j0: nat) returns (r: Scan)
    requires Rectangular(rows, w) && x1 + 2 <= x2 <= w
    ensures r == ScanDown(rows, w, x1, x2, tb, j0)
  {
    var inners := [];
    var j := j0;
    while j < |rows|
      invariant j0 <= j
      invariant ScanDown(rows, w, x1, x2, tb, j0) == Extend(inners, ScanDown(rows, w, x1, x2, tb, j))
      decreases |rows| - j
    {
      var cs := rows[j][x1..x2];
      if cs == tb {
        return Closed(j, inners);
      }
      if !(cs[0] == ':' && cs[|cs| - 1] == ':') {
        return Fragmented;
      }
      inners := inners + [cs[1..|cs| - 1]];
      j := j + 1;
    }
    return Unfinished;
  }

  /** `findsmall` on a fresh grid of the inside rows. */
  method SearchInside(filename: string, inners: seq<string>) returns (results: seq<Cbox>, resb: seq<BOMData>)
    ensures (results, resb) == FindInside(inners)
  {
    var inside := new Grid(filename, Join("\n", inners));
    FreshRows(inside, Join("\n", inners));
    results, resb := FindSmall(inside);
  }

  /** One pass of `findbig`'s `while True` loop, up to the masking: the
      first row whose `lines` entry holds a box top, the scan down for
      its bottom, and `findsmall` on a grid of what lies inside. */
  method NextBox(rows: seq<string>, w: nat, filename: string) returns (r: Result<Option<(Cbox, seq<BOMData>)>>)
    requires Rectangular(rows, w)
    ensures r == NextBig(rows, w, filename)
  {
    var y1 := 0;
    while y1 < |rows| && Search(rows[y1], 0, BoxTopPat).None?
      invariant y1 <= |rows| && FirstTop(rows, y1) == FirstTop(rows, 0)
    {
      y1 := y1 + 1;
    }
    if y1 == |rows| {
      return Ok(None);
    }
    var top := Search(rows[y1], 0, BoxTopPat).value;
    var x1, x2 := top.start, top.end;
    var at := Place(y1, x1);
    var scan := ScanBox(rows, w, x1, x2, rows[y1][x1..x2], y1 + 1);
    match scan
    case Fragmented =>
      r := Err(SyntaxError(filename + ": Fragmented box starting at " + at));
    case Unfinished =>
      r := Err(SyntaxError(filename + ": Unfinished box starting at " + at));
    case Closed(y2, inners) =>
      var results, resb := SearchInside(filename, inners);
      var d := Designate(results, resb, filename + ": Box starting at " + at);
      if d.Err? {
        r := Err(d.error);
      } else {
        r := Ok(Some((Cbox(Point(x1, y1), Point(x2, y2), d.value.0, d.value.1), resb)));
      }
    assert FirstTop(rows, 0) == Some((y1, top));
    assert r == Closing(FindInside, filename, y1, x1, x2, scan);
    NextBigAt(FindInside, rows, w, filename, y1, top);
  }

  /** An empty rectangle masks nothing. */
  lemma MaskRectEmpty(m: seq<seq<Mask>>, x1: int, x2: int, y1: int, y2: int)
    requires x2 <= x1 || y2 <= y1
    ensures MaskRect(m, x1, x2, y1, y2) == m
  {
    var r := MaskRect(m, x1, x2, y1, y2);
    forall y | 0 <= y < |m| ensures r[y] == m[y] {
    }
  }

  /** Growing a one-column rectangle by row j is one `setmask` at (x, j),
      or nothing when that cell is off the grid. */
  lemma MaskRectRow(m: seq<seq<Mask>>, x: int, y1: int, j: int)
    requires y1 <= j
    ensures var r := MaskRect(m, x, x + 1, y1, j);
      MaskRect(m, x, x + 1, y1, j + 1) ==
        if 0 <= j < |m| && 0 <= x < |m[j]| then r[j := r[j][x := Some(' ')]] else r
  {
    var r, r' := MaskRect(m, x, x + 1, y1, j), MaskRect(m, x, x + 1, y1, j + 1);
    var u := if 0 <= j < |m| && 0 <= x < |m[j]| then r[j := r[j][x := Some(' ')]] else r;
    forall y | 0 <= y < |m| ensures r'[y] == u[y] {
    }
  }

  /** Masking column i after columns `[x1, i)` masks columns `[x1, i + 1)`. */
  lemma MaskRectColumn(m: seq<seq<Mask>>, x1: int, i: int, y1: int, y2: int)
    requires x1 <= i
    ensures MaskRect(MaskRect(m, x1, i, y1, y2), i, i + 1, y1, y2) == MaskRect(m, x1, i + 1, y1, y2)
  {
    var a, b := MaskRect(MaskRect(m, x1, i, y1, y2), i, i + 1, y1, y2), MaskRect(m, x1, i + 1, y1, y2);
    forall y | 0 <= y < |m| ensures a[y] == b[y] {
    }
  }

  /** The inner masking loop of `findbig`: `setmask` on column x of rows `[y1, y2)`. */
  method MaskColumn(g: Grid, x: int, y1: int, y2: int)
    requires g.Valid()
    modifies g`masks
    ensures g.Valid()
    ensures g.masks == MaskRect(old(g.masks), x, x + 1, y1, y2)
  {
    ghost var mc := g.masks;
    MaskRectEmpty(mc, x, x + 1, y1, y1);
    var j := y1;
    while j < y2
      invariant g.Valid() && y1 <= j && (j <= y2 || j == y1)
      invariant g.masks == MaskRect(mc, x, x + 1, y1, j)
      decreases y2 - j
    {
      MaskRectRow(mc, x, y1, j);
      g.SetMask(Point(x, j), Some(' '));
      j := j + 1;
    }
    if y2 < y1 {
      MaskRectEmpty(mc, x, x + 1, y1, y2);
    }
  }

  /** The masking loops of `findbig`: `setmask` on every cell of the box,
      column by column; cells off the grid are skipped. */
  method MaskBoxOf(g: Grid, c: Cbox)
    requires g.Valid()
    modifies g`masks
    ensures g.Valid()
    ensures g.masks == MaskBox(old(g.masks), c)
  {
    ghost var m0 := g.masks;
    var x1, x2, y1, y2 := c.p1.x, c.p2.x, c.p1.y, c.p2.y + 1;
    MaskRectEmpty(m0, x1, x1, y1, y2);
    var i := x1;
    while i < x2
      invariant g.Valid() && x1 <= i && (i <= x2 || i == x1)
      invariant g.masks == MaskRect(m0, x1, i, y1, y2)
      decreases x2 - i
    {
      MaskColumn(g, i, y1, y2);
      MaskRectColumn(m0, x1, i, y1, y2);
      i := i + 1;
    }
    if x2 < x1 {
      MaskRectEmpty(m0, x1, x2, y1, y2);
    }
  }

  /** Adding the results of a pass and then the rest, or the pass's
      results to what came before and then the rest, is the same. */
  lemma PrependPrepend(boxes: seq<Cbox>, boms: seq<BOMData>, c: Cbox, bs: seq<BOMData>, r: Result<(seq<Cbox>, seq<BOMData>)>)
    ensures Prepend(boxes, boms, Prepend([c], bs, r)) == Prepend(boxes + [c], boms + bs, r)
  {
    if r.Ok? {
      assert boxes + ([c] + r.value.0) == (boxes + [c]) + r.value.0;
      assert boms + (bs + r.value.1) == (boms + bs) + r.value.1;
    }
  }

  /** What `findbig` has gathered so far, before the passes still to run
      on these masks. */
  ghost predicate Gathered(whole: (Result<(seq<Cbox>, seq<BOMData>)>, seq<seq<Mask>>),
                           boxes: seq<Cbox>, boms: seq<BOMData>,
                           data: seq<string>, masks: seq<seq<Mask>>, w: nat, filename: string)
    requires Shaped(data, masks, w)
  {
    whole.0 == Prepend(boxes, boms, Big(data, masks, w, filename).0) && whole.1 == Big(data, masks, w, filename).1
  }

  /** A pass that fails or finds nothing ends `findbig`, masks unchanged. */
  lemma BigDone(whole: (Result<(seq<Cbox>, seq<BOMData>)>, seq<seq<Mask>>),
                boxes: seq<Cbox>, boms: seq<BOMData>,
                data: seq<string>, masks: seq<seq<Mask>>, w: nat, filename: string)
    requires Shaped(data, masks, w) && Gathered(whole, boxes, boms, data, masks, w, filename)
    ensures NextBig(Screen(data, masks, w), w, filename).Err? ==>
      whole == (Err(NextBig(Screen(data, masks, w), w, filename).error), masks)
    ensures NextBig(Screen(data, masks, w), w, filename) == Ok(None) ==>
      whole == (Ok((boxes, boms)), masks)
  {
    if NextBig(Screen(data, masks, w), w, filename) == Ok(None) {
      assert boxes + [] == boxes && boms + [] == boms;
    }
  }

  /** A pass that finds box c with data bs: mask it and gather it. */
  lemma BigAdvance(whole: (Result<(seq<Cbox>, seq<BOMData>)>, seq<seq<Mask>>),
                   boxes: seq<Cbox>, boms: seq<BOMData>,
                   data: seq<string>, masks: seq<seq<Mask>>, w: nat, filename: string, c: Cbox, bs: seq<BOMData>)
    requires Shaped(data, masks, w) && Gathered(whole, boxes, boms, data, masks, w, filename)
    requires NextBig(Screen(data, masks, w), w, filename) == Ok(Some((c, bs)))
    ensures Shaped(data, MaskBox(masks, c), w)
    ensures InkCells(data, MaskBox(masks, c), w) < InkCells(data, masks, w)
    ensures Gathered(whole, boxes + [c], boms + bs, data, MaskBox(masks, c), w, filename)
  {
    PassShrinks(data, masks, w, filename, c, bs);
    BigCons(data, masks, w, filename, c, bs);
    PrependPrepend(boxes, boms, c, bs, Big(data, MaskBox(masks, c), w, filename).0);
  }

  /** Prepending nothing changes nothing. */
  lemma PrependNothing(r: Result<(seq<Cbox>, seq<BOMData>)>)
    ensures Prepend([], [], r) == r
  {
    if r.Ok? {
      assert [] + r.value.0 == r.value.0 && [] + r.value.1 == r.value.1;
    }
  }

  /** One pass of `findbig`'s `while True` loop: `done` when the pass
      failed or found no box top, with `r` the result of `findbig`;
      otherwise the box it found is masked and gathered. */
  method BigPass(g: Grid, ghost whole: (Result<(seq<Cbox>, seq<BOMData>)>, seq<seq<Mask>>), boxes: seq<Cbox>, boms: seq<BOMData>)
    returns (done: bool, r: Result<(seq<Cbox>, seq<BOMData>)>, boxes': seq<Cbox>, boms': seq<BOMData>)
    requires g.Valid() && Shaped(g.data, g.masks, g.width)
    requires Gathered(whole, boxes, boms, g.data, g.masks, g.width, g.filename)
    modifies g`masks
    ensures g.Valid() && Shaped(g.data, g.masks, g.width)
    ensures done ==> (r, g.masks) == whole
    ensures !done ==> Gathered(whole, boxes', boms', g.data, g.masks, g.width, g.filename)
    ensures !done ==> InkCells(g.data, g.masks, g.width) < old(InkCells(g.data, g.masks, g.width))
  {
    ValidShaped(g);
    var step := NextBox(g.Lines(), g.width, g.filename);
    BigDone(whole, boxes, boms, g.data, g.masks, g.width, g.filename);
    match step
    case Err(e) =>
      return true, Err(e), boxes, boms;
    case Ok(None) =>
      return true, Ok((boxes, boms)), boxes, boms;
    case Ok(Some(found)) =>
      BigAdvance(whole, boxes, boms, g.data, g.masks, g.width, g.filename, found.0, found.1);
      MaskBoxOf(g, found.0);
      return false, Ok((boxes, boms)), boxes + [found.0], boms + found.1;
  }

  /** `findbig`: passes until one finds no box top, masking each box found. */
  method FindBig(g: Grid) returns (r: Result<(seq<Cbox>, seq<BOMData>)>)
    requires g.Valid()
    modifies g`masks
    ensures g.Valid()
    ensures (r, g.masks) == Big(g.data, old(g.masks), g.width, g.filename)
  {
    ghost var whole := Big(g.data, g.masks, g.width, g.filename);
    var boxes, boms := [], [];
    ValidShaped(g);
    PrependNothing(whole.0);
    while true
      invariant g.Valid() && Shaped(g.data, g.masks, g.width)
      invariant Gathered(whole, boxes, boms, g.data, g.masks, g.width, g.filename)
      decreases InkCells(g.data, g.masks, g.width)
    {
      var done;
      done, r, boxes, boms := BigPass(g, whole, boxes, boms);
      if done {
        return;
      }
    }
  }

  /** Masks that are all unset, in the grid's shape, are `Cleared`. */
  lemma ClearedMasks(masks: seq<seq<Mask>>, h: nat, w: nat)
    requires |masks| == h && forall y :: 0 <= y < h ==> |masks[y]| == w
    requires forall y, x :: 0 <= y < h && 0 <= x < w ==> masks[y][x].None?
    ensures masks == Cleared(h, w)
  {
    var c := Cleared(h, w);
    forall y | 0 <= y < h ensures masks[y] == c[y] {
    }
  }

  /** `findall`: clear the masks, then `findbig`, then `findsmall` on the
      grid with the big boxes masked. */
  method FindAll(g: Grid) returns (r: Result<(seq<Cbox>, seq<BOMData>)>)
    requires g.Valid()
    modifies g`masks
    ensures g.Valid()
    ensures (r, g.masks) == All(g.data, g.width, g.filename)
  {
    g.ClrAll();
    ClearedMasks(g.masks, g.height, g.width);
    var big := FindBig(g);
    match big
    case Err(e) =>
      r := Err(e);
    case Ok((b1, l1)) =>
      ValidShaped(g);
      var b2, l2 := FindSmall(g);
      r := Ok((b1 + b2, l1 + l2));
  }
}
