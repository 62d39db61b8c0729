/** The character grid every scanner reads and writes (schemascii/grid.py):
    the padded drawing plus a mask of the same shape whose set cells hide the
    character underneath. */
module Grids {
  import opened Base
  import opened Text
  import opened Geometry

  type Mask = Option<char>

  /** A set mask overrides the stored character. */
  function View(d: char, m: Mask): char
  {
    if m.Some? then m.value else d
  }

  /** The character seen at (x, y) of a data/mask pair: a space outside either. */
  function CellAt(data: seq<string>, masks: seq<seq<Mask>>, x: int, y: int): char
  {
    if 0 <= y < |data| && y < |masks| && 0 <= x < |data[y]| && x < |masks[y]|
    then View(data[y][x], masks[y][x])
    else ' '
  }

  /** A visible, non-whitespace character. */
  predicate Ink(data: seq<string>, masks: seq<seq<Mask>>, x: int, y: int)
  {
    !IsSpace(CellAt(data, masks, x, y))
  }

  /** Some row of column x holds ink. */
  ghost predicate InkInColumn(data: seq<string>, masks: seq<seq<Mask>>, x: int)
  {
    exists y :: Ink(data, masks, x, y)
  }

  /** One of the first n rows holds ink in column x. */
  ghost predicate InkInColumnAbove(data: seq<string>, masks: seq<seq<Mask>>, x: int, n: int)
  {
    exists y :: 0 <= y < n && Ink(data, masks, x, y)
  }

  /** `all(get(x + y*1j).isspace() for x in range(w))`. */
  predicate BlankRow(data: seq<string>, masks: seq<seq<Mask>>, w: int, y: int)
  {
    forall x :: 0 <= x < w ==> IsSpace(CellAt(data, masks, x, y))
  }

  /** `max(len(line) for line in lines)`. */
  function MaxLen(lines: seq<string>): (n: nat)
    requires |lines| > 0
    ensures forall i :: 0 <= i < |lines| ==> |lines[i]| <= n
    ensures exists i :: 0 <= i < |lines| && |lines[i]| == n
  {
    if |lines| == 1 then |lines[0]|
    else
      var m := MaxLen(lines[1..]);
      assert exists i :: 1 <= i < |lines| && |lines[i]| == m by {
        var j :| 0 <= j < |lines[1..]| && |lines[1..][j]| == m;
        assert |lines[j + 1]| == m;
      }
      if |lines[0]| >= m then |lines[0]| else m
  }

  /** The h-by-w block of `rows` whose top-left corner is (left, top). */
  function Crop<T>(rows: seq<seq<T>>, top: int, h: int, left: int, w: int): (r: seq<seq<T>>)
    requires 0 <= top && 0 <= h && top + h <= |rows| && 0 <= left && 0 <= w
    requires forall y :: top <= y < top + h ==> left + w <= |rows[y]|
    ensures |r| == h && forall y :: 0 <= y < h ==> r[y] == rows[top + y][left..left + w]
  {
    seq(h, i requires 0 <= i < h => rows[top + i][left..left + w])
  }

  /** The rows `clip` keeps: `"".join(ln[p1.x:p2.x]) for ln in data[p1.y:p2.y+1]`. */
  function ClipPieces(data: seq<string>, p1: Point, p2: Point): (r: seq<string>)
    ensures |r| <= |data|
  {
    var rows := PySlice(data, p1.y, p2.y + 1);
    seq(|rows|, i requires 0 <= i < |rows| => PySlice(rows[i], p1.x, p2.x))
  }

  /** Clipped row i is the slice of data row `ClampIndex(p1.y) + i`. */
  lemma ClipRow(data: seq<string>, p1: Point, p2: Point, i: nat)
    requires i < |ClipPieces(data, p1, p2)|
    ensures ClampIndex(p1.y, |data|) + i < |data|
    ensures ClipPieces(data, p1, p2)[i] == PySlice(data[ClampIndex(p1.y, |data|) + i], p1.x, p2.x)
  {
    var rows := PySlice(data, p1.y, p2.y + 1);
    assert rows[i] == data[ClampIndex(p1.y, |data|) + i];
  }

  /** Every clipped row has the same length and no newline. */
  lemma ClipPiecesUniform(data: seq<string>, width: nat, p1: Point, p2: Point)
    requires forall y :: 0 <= y < |data| ==> |data[y]| == width && '\n' !in data[y]
    ensures forall i :: 0 <= i < |ClipPieces(data, p1, p2)| ==>
      '\n' !in ClipPieces(data, p1, p2)[i] && |ClipPieces(data, p1, p2)[i]| == |ClipPieces(data, p1, p2)[0]|
  {
    var pieces := ClipPieces(data, p1, p2);
    forall i | 0 <= i < |pieces|
      ensures '\n' !in pieces[i] && |pieces[i]| == |pieces[0]|
    {
      ClipRow(data, p1, p2, i);
      ClipRow(data, p1, p2, 0);
      var a := ClampIndex(p1.y, |data|);
      assert |data[a + i]| == width && |data[a]| == width;
      assert forall c :: c in pieces[i] ==> c in data[a + i];
    }
  }

  /** Inside the grid the clipped rows are exactly the selected block. */
  lemma ClipPiecesInside(data: seq<string>, width: nat, p1: Point, p2: Point)
    requires forall y :: 0 <= y < |data| ==> |data[y]| == width
    requires 0 <= p1.y <= p2.y < |data| && 0 <= p1.x <= p2.x <= width
    ensures |ClipPieces(data, p1, p2)| == p2.y - p1.y + 1
    ensures forall y :: 0 <= y < |ClipPieces(data, p1, p2)| ==> |ClipPieces(data, p1, p2)[y]| == p2.x - p1.x
    ensures forall y, x :: 0 <= y < |ClipPieces(data, p1, p2)| && 0 <= x < p2.x - p1.x ==>
      ClipPieces(data, p1, p2)[y][x] == data[p1.y + y][p1.x + x]
  {
    var pieces := ClipPieces(data, p1, p2);
    forall y | 0 <= y < |pieces|
      ensures pieces[y] == data[p1.y + y][p1.x..p2.x]
    {
      ClipRow(data, p1, p2, y);
    }
  }

  /** The longest of equally long lines has that length. */
  lemma MaxLenUniform(lines: seq<string>, n: nat)
    requires |lines| > 0
    requires forall i :: 0 <= i < |lines| ==> |lines[i]| == n
    ensures MaxLen(lines) == n
  {
  }

  /** Each row without its first k entries (`del line[0:k]` on every row). */
  function DropCols<T>(rows: seq<seq<T>>, k: nat): (r: seq<seq<T>>)
    requires forall y :: 0 <= y < |rows| ==> k <= |rows[y]|
    ensures |r| == |rows| && forall y :: 0 <= y < |rows| ==> r[y] == rows[y][k..]
  {
    seq(|rows|, y requires 0 <= y < |rows| => rows[y][k..])
  }

  /** Each row without its last k entries (`del line[len(line)-k:]` on every row). */
  function DropLastCols<T>(rows: seq<seq<T>>, k: nat): (r: seq<seq<T>>)
    requires forall y :: 0 <= y < |rows| ==> k <= |rows[y]|
    ensures |r| == |rows| && forall y :: 0 <= y < |rows| ==> r[y] == rows[y][..|rows[y]| - k]
  {
    seq(|rows|, y requires 0 <= y < |rows| => rows[y][..|rows[y]| - k])
  }

  lemma CellAtSuffix(d: seq<string>, m: seq<seq<Mask>>, k: nat, x: int, y: int)
    requires k <= |d| == |m| && 0 <= y
    ensures CellAt(d[k..], m[k..], x, y) == CellAt(d, m, x, y + k)
  {
  }

  lemma CellAtPrefix(d: seq<string>, m: seq<seq<Mask>>, n: nat, x: int, y: int)
    requires n <= |d| == |m| && y < n
    ensures CellAt(d[..n], m[..n], x, y) == CellAt(d, m, x, y)
  {
  }

  lemma CellAtDropCols(d: seq<string>, m: seq<seq<Mask>>, k: nat, x: int, y: int)
    requires |d| == |m| && 0 <= x
    requires forall j :: 0 <= j < |d| ==> k <= |d[j]| && |m[j]| == |d[j]|
    ensures CellAt(DropCols(d, k), DropCols(m, k), x, y) == CellAt(d, m, x + k, y)
  {
  }

  lemma CellAtDropLastCols(d: seq<string>, m: seq<seq<Mask>>, k: nat, w: nat, x: int, y: int)
    requires |d| == |m| && x < w - k
    requires forall j :: 0 <= j < |d| ==> k <= |d[j]| == |m[j]| == w
    ensures CellAt(DropLastCols(d, k), DropLastCols(m, k), x, y) == CellAt(d, m, x, y)
  {
  }

  /** The two column chops of `shrink` compose: what is left is columns
      [a, w0-b) of the rows, the chops stop at ink on both sides, and every
      character with ink survives, shifted left by a. */
  lemma ColumnChops(d2: seq<string>, m2: seq<seq<Mask>>, w0: nat, h: nat, a: nat, b: nat, w: int,
                    d3: seq<string>, m3: seq<seq<Mask>>, d4: seq<string>, m4: seq<seq<Mask>>)
    returns (x0: int, x1: int, y0: int, y1: int)
    requires w == w0 - a - b
    requires |d2| == |m2| == h && forall j :: 0 <= j < h ==> |d2[j]| == w0 && |m2[j]| == w0
    requires 1 <= h && a <= w0 && b <= w0 - a
    requires d3 == DropCols(d2, a) && m3 == DropCols(m2, a)
    requires d4 == DropLastCols(d3, b) && m4 == DropLastCols(m3, b)
    requires !BlankRow(d2, m2, w0, 0) && !BlankRow(d2, m2, w0, h - 1)
    requires forall x, y :: 0 <= y < h && x < a ==> !Ink(d2, m2, x, y)
    requires a < w0 ==> InkInColumnAbove(d2, m2, a, h)
    requires forall x, y :: 0 <= y < h && x >= (w0 - a) - b ==> !Ink(d3, m3, x, y)
    requires b < w0 - a ==> InkInColumnAbove(d3, m3, (w0 - a) - 1 - b, h)
    ensures 1 <= w
    ensures d4 == Crop(d2, 0, h, a, w) && m4 == Crop(m2, 0, h, a, w)
    ensures Ink(d4, m4, x0, 0) && Ink(d4, m4, x1, h - 1)
    ensures Ink(d4, m4, 0, y0) && Ink(d4, m4, w - 1, y1)
    ensures forall x, y :: Ink(d2, m2, x, y) ==> a <= x < a + w
  {
    x0 := RowEdge(d2, m2, w0, h, a, b, d3, m3, d4, m4, 0);
    x1 := RowEdge(d2, m2, w0, h, a, b, d3, m3, d4, m4, h - 1);
    y0, y1 := ColumnEdges(d2, m2, w0, h, a, b, d3, m3, d4, m4);
    ChopsCrop(d2, w0, h, a, b, d3, d4);
    ChopsCrop(m2, w0, h, a, b, m3, m4);
    InkThroughChops(d2, m2, w0, h, a, b, d3, m3, d4, m4);
  }

  /** Every character with ink survives both column chops, shifted left by a. */
  lemma InkThroughChops(d2: seq<string>, m2: seq<seq<Mask>>, w0: nat, h: nat, a: nat, b: nat,
                        d3: seq<string>, m3: seq<seq<Mask>>, d4: seq<string>, m4: seq<seq<Mask>>)
    requires |d2| == |m2| == h && forall j :: 0 <= j < h ==> |d2[j]| == w0 && |m2[j]| == w0
    requires a <= w0 && b <= w0 - a
    requires d3 == DropCols(d2, a) && m3 == DropCols(m2, a)
    requires d4 == DropLastCols(d3, b) && m4 == DropLastCols(m3, b)
    requires forall x, y :: 0 <= y < h && x < a ==> !Ink(d2, m2, x, y)
    requires forall x, y :: 0 <= y < h && x >= (w0 - a) - b ==> !Ink(d3, m3, x, y)
    ensures forall x, y :: Ink(d2, m2, x, y) ==> a <= x < w0 - b && Ink(d4, m4, x - a, y)
  {
    forall x, y | Ink(d2, m2, x, y) ensures a <= x < w0 - b && Ink(d4, m4, x - a, y) {
      CellAtDropCols(d2, m2, a, x - a, y);
      assert Ink(d3, m3, x - a, y);
      CellAtDropLastCols(d3, m3, b, w0 - a, x - a, y);
    }
  }

  /** A row with ink before the column chops keeps its ink after them, and that
      ink shows the chops leave at least one column. */
  lemma RowEdge(d2: seq<string>, m2: seq<seq<Mask>>, w0: nat, h: nat, a: nat, b: nat,
                d3: seq<string>, m3: seq<seq<Mask>>, d4: seq<string>, m4: seq<seq<Mask>>, y: int)
    returns (x: int)
    requires |d2| == |m2| == h && forall j :: 0 <= j < h ==> |d2[j]| == w0 && |m2[j]| == w0
    requires 0 <= y < h && a <= w0 && b <= w0 - a
    requires d3 == DropCols(d2, a) && m3 == DropCols(m2, a)
    requires d4 == DropLastCols(d3, b) && m4 == DropLastCols(m3, b)
    requires !BlankRow(d2, m2, w0, y)
    requires forall x, y :: 0 <= y < h && x < a ==> !Ink(d2, m2, x, y)
    requires forall x, y :: 0 <= y < h && x >= (w0 - a) - b ==> !Ink(d3, m3, x, y)
    ensures a + b < w0 && Ink(d4, m4, x, y)
  {
    var x0 :| 0 <= x0 < w0 && !IsSpace(CellAt(d2, m2, x0, y));
    assert Ink(d2, m2, x0, y);
    CellAtDropCols(d2, m2, a, x0 - a, y);
    assert Ink(d3, m3, x0 - a, y);
    CellAtDropLastCols(d3, m3, b, w0 - a, x0 - a, y);
    x := x0 - a;
  }

  /** The column chops stop at ink: the first and last remaining columns hold some. */
  lemma ColumnEdges(d2: seq<string>, m2: seq<seq<Mask>>, w0: nat, h: nat, a: nat, b: nat,
                    d3: seq<string>, m3: seq<seq<Mask>>, d4: seq<string>, m4: seq<seq<Mask>>)
    returns (yl: int, yr: int)
    requires |d2| == |m2| == h && forall j :: 0 <= j < h ==> |d2[j]| == w0 && |m2[j]| == w0
    requires a + b < w0
    requires d3 == DropCols(d2, a) && m3 == DropCols(m2, a)
    requires d4 == DropLastCols(d3, b) && m4 == DropLastCols(m3, b)
    requires InkInColumnAbove(d2, m2, a, h)
    requires InkInColumnAbove(d3, m3, (w0 - a) - 1 - b, h)
    ensures Ink(d4, m4, 0, yl) && Ink(d4, m4, w0 - a - b - 1, yr)
  {
    var w := w0 - a - b;
    yl :| 0 <= yl < h && Ink(d2, m2, a, yl);
    CellAtDropCols(d2, m2, a, 0, yl);
    CellAtDropLastCols(d3, m3, b, w0 - a, 0, yl);
    assert Ink(d4, m4, 0, yl);
    yr :| 0 <= yr < h && Ink(d3, m3, w - 1, yr);
    CellAtDropLastCols(d3, m3, b, w0 - a, w - 1, yr);
    assert Ink(d4, m4, w - 1, yr);
  }

  /** Dropping a columns on the left and b on the right leaves the block `Crop` describes. */
  lemma ChopsCrop<T>(r2: seq<seq<T>>, w0: nat, h: nat, a: nat, b: nat, r3: seq<seq<T>>, r4: seq<seq<T>>)
    requires |r2| == h && forall y :: 0 <= y < h ==> |r2[y]| == w0
    requires a <= w0 && b <= w0 - a
    requires r3 == DropCols(r2, a) && r4 == DropLastCols(r3, b)
    ensures r4 == Crop(r2, 0, h, a, w0 - a - b)
  {
    var w := w0 - a - b;
    forall y | 0 <= y < h ensures r4[y] == r2[y][a..a + w] {
      assert r4[y] == r3[y][..w] && r3[y] == r2[y][a..];
    }
  }

  /** A character with ink, outside the blank rows dropped at the top and the
      bottom, is still there after both drops. */
  lemma InkStep(d0: seq<string>, m0: seq<seq<Mask>>, d1: seq<string>, m1: seq<seq<Mask>>,
                d2: seq<string>, m2: seq<seq<Mask>>, top: nat, h: nat, x: int, y: int)
    requires |d0| == |m0| && top + h <= |d0|
    requires d1 == d0[top..] && m1 == m0[top..] && d2 == d1[..h] && m2 == m1[..h]
    requires Ink(d0, m0, x, y)
    requires y < top ==> !Ink(d0, m0, x, y)
    requires y - top >= h ==> !Ink(d1, m1, x, y - top)
    ensures top <= y < top + h && Ink(d2, m2, x, y - top)
  {
    CellAtSuffix(d0, m0, top, x, y - top);
    CellAtPrefix(d1, m1, h, x, y - top);
  }

  /** Dropping `top` rows and then cropping columns `left` to `left + w` is one
      crop of the original rows, and the ink that survives both steps lies in
      that crop's box. */
  lemma ShrinkComposes(d0: seq<string>, m0: seq<seq<Mask>>, w0: int, top: int, h: int,
                       d1: seq<string>, m1: seq<seq<Mask>>, left: int, w: int,
                       d2: seq<string>, m2: seq<seq<Mask>>)
    requires |d0| == |m0| && forall y :: 0 <= y < |d0| ==> |d0[y]| == w0 && |m0[y]| == w0
    requires 0 <= top && 0 <= h && top + h <= |d0| && 0 <= left && 0 <= w && left + w <= w0
    requires d1 == d0[top..top + h] && m1 == m0[top..top + h]
    requires d2 == Crop(d1, 0, h, left, w) && m2 == Crop(m1, 0, h, left, w)
    requires forall x, y :: Ink(d0, m0, x, y) ==> top <= y < top + h
    requires forall x, y :: Ink(d1, m1, x, y) ==> left <= x < left + w
    ensures d2 == Crop(d0, top, h, left, w) && m2 == Crop(m0, top, h, left, w)
    ensures forall x, y :: Ink(d0, m0, x, y) ==> top <= y < top + h && left <= x < left + w
  {
    forall x, y | Ink(d0, m0, x, y) ensures top <= y < top + h && left <= x < left + w {
      assert d1[y - top] == d0[y] && m1[y - top] == m0[y];
      assert CellAt(d1, m1, x, y - top) == CellAt(d0, m0, x, y);
      assert Ink(d1, m1, x, y - top);
    }
    CropOfRows(d0, top, h, left, w);
    CropOfRows(m0, top, h, left, w);
  }

  /** A crop of a block of rows is a crop of the whole. */
  lemma CropOfRows<T>(r0: seq<seq<T>>, top: nat, h: nat, a: nat, w: nat)
    requires top + h <= |r0| && forall y :: top <= y < top + h ==> a + w <= |r0[y]|
    ensures Crop(r0[top..top + h], 0, h, a, w) == Crop(r0, top, h, a, w)
  {
  }

  class Grid {
    var filename: string
    var raw: string
    var data: seq<string>
    var masks: seq<seq<Mask>>
    var width: int
    var height: int

    /** Rectangular data and masks of the recorded size; no row holds a newline. */
    ghost predicate Valid()
      reads this
    {
      && height == |data| == |masks|
      && 0 <= width
      && (forall y :: 0 <= y < height ==> |data[y]| == width && |masks[y]| == width)
      && (forall y :: 0 <= y < height ==> '\n' !in data[y])
    }

    /** `Grid(filename, data)`: one row per `"\n"`-separated line, right-padded with
        spaces to the longest line, and no masks set. */
    constructor (filename: string, text: string)
      ensures Valid()
      ensures this.filename == filename && raw == text
      ensures height == |Split(text, '\n')| && width == MaxLen(Split(text, '\n'))
      ensures forall y :: 0 <= y < height ==> data[y] == LJust(Split(text, '\n')[y], width)
      ensures forall y, x :: 0 <= y < height && 0 <= x < width ==> masks[y][x].None?
    {
      var lines := Split(text, '\n');
      var maxlen := MaxLen(lines);
      var rows := seq(|lines|, i requires 0 <= i < |lines| => LJust(lines[i], maxlen));
      forall y | 0 <= y < |lines| ensures '\n' !in rows[y] {
        assert rows[y] == lines[y] + Repeat(' ', maxlen - |lines[y]|);
      }
      this.filename := filename;
      raw := text;
      data := rows;
      masks := seq(|lines|, _ => Repeat(None, maxlen));
      width := maxlen;
      height := |lines|;
    }

    /** `validbounds`: inside `0 <= x < width`, `0 <= y < height`. */
    predicate ValidBounds(p: Point)
      reads this
    {
      0 <= p.x < width && 0 <= p.y < height
    }

    /** `getmask`: the mask at p, unset outside the grid. */
    function GetMask(p: Point): (m: Mask)
      reads this
      requires Valid()
      ensures !ValidBounds(p) ==> m.None?
    {
      if !ValidBounds(p) then None else masks[p.y][p.x]
    }

    /** `get`: a space outside the grid, else the mask when set, else the stored character. */
    function Get(p: Point): (c: char)
      reads this
      requires Valid()
      ensures c == CellAt(data, masks, p.x, p.y)
      ensures !ValidBounds(p) ==> c == ' '
    {
      if !ValidBounds(p) then ' '
      else
        var m := GetMask(p);
        if m.Some? then m.value else data[p.y][p.x]
    }

    /** `lines`: the current contents with masks applied, one string per row. */
    function Lines(): (ls: seq<string>)
      reads this
      requires Valid()
      ensures |ls| == height
      ensures forall y :: 0 <= y < height ==> |ls[y]| == width
      ensures forall y, x :: 0 <= y < height && 0 <= x < width ==> ls[y][x] == CellAt(data, masks, x, y)
    {
      var d, m, h, w := data, masks, height, width;
      seq(h, y requires 0 <= y < h => seq(w, x requires 0 <= x < w => CellAt(d, m, x, y)))
    }

    /** `setmask(p, mask)`: a no-op outside the grid; inside, only p's mask changes. */
    method SetMask(p: Point, m: Mask)
      requires Valid()
      modifies this`masks
      ensures Valid()
      ensures !ValidBounds(p) ==> masks == old(masks)
      ensures ValidBounds(p) ==> masks == old(masks)[p.y := old(masks)[p.y][p.x := m]]
      ensures ValidBounds(p) && m.Some? ==> Get(p) == m.value
      ensures forall q :: q != p ==> Get(q) == old(Get(q))
    {
      if !ValidBounds(p) {
        return;
      }
      masks := masks[p.y := masks[p.y][p.x := m]];
    }

    /** `clrmask(p)`: afterwards `get(p)` is the stored character again. */
    method ClrMask(p: Point)
      requires Valid()
      modifies this`masks
      ensures Valid()
      ensures ValidBounds(p) ==> Get(p) == data[p.y][p.x]
      ensures forall q :: q != p ==> Get(q) == old(Get(q))
      ensures !ValidBounds(p) ==> masks == old(masks)
    {
      SetMask(p, None);
    }

    /** `clrall`: every mask unset; data and size unchanged. */
    method ClrAll()
      requires Valid()
      modifies this`masks
      ensures Valid()
      ensures forall y, x :: 0 <= y < height && 0 <= x < width ==> masks[y][x].None?
      ensures forall q :: ValidBounds(q) ==> Get(q) == data[q.y][q.x]
    {
      var h, w := height, width;
      masks := seq(h, _ => Repeat(None, w));
    }

    /** `clip(p1, p2)`: a new grid of rows `p1.y..p2.y` and columns `p1.x..p2.x-1`
        (Python slices), built from the stored characters without masks. */
    method Clip(p1: Point, p2: Point) returns (r: Grid)
      requires Valid()
      ensures fresh(r) && r.Valid()
      ensures r.filename == filename
      ensures r.data == if ClipPieces(data, p1, p2) == [] then [""] else ClipPieces(data, p1, p2)
      ensures forall y, x :: 0 <= y < r.height && 0 <= x < r.width ==> r.masks[y][x].None?
      ensures 0 <= p1.y <= p2.y < height && 0 <= p1.x <= p2.x <= width ==>
        && r.height == p2.y - p1.y + 1 && r.width == p2.x - p1.x
        && forall y, x :: 0 <= y < r.height && 0 <= x < r.width ==> r.data[y][x] == data[p1.y + y][p1.x + x]
    {
      var pieces := ClipPieces(data, p1, p2);
      var text := Join("\n", pieces);
      r := new Grid(filename, text);
      ClipPiecesUniform(data, width, p1, p2);
      if 0 <= p1.y <= p2.y < height && 0 <= p1.x <= p2.x <= width {
        ClipPiecesInside(data, width, p1, p2);
      }
      if pieces == [] {
        assert Split(text, '\n') == [""];
      } else {
        SplitJoin(pieces, '\n');
        MaxLenUniform(pieces, |pieces[0]|);
      }
    }
    /** The top-row loop of `shrink`: pop row 0 while it is blank. With no ink
        anywhere it pops every row, decrements `height` once more and fails. */
    method DropBlankTopRows() returns (err: Option<Error>, ghost top: int)
      requires Valid()
      modifies this`data, this`masks, this`height
      ensures err.Some? <==> forall x, y :: !Ink(old(data), old(masks), x, y)
      ensures err.Some? ==> err.value.IndexError? && data == [] && masks == [] && height == -1
      ensures err.None? ==> Valid() && 0 <= top < old(height)
      ensures err.None? ==> data == old(data)[top..] && masks == old(masks)[top..]
      ensures err.None? ==> !BlankRow(data, masks, width, 0)
      ensures err.None? ==> forall x, y :: y < top ==> !Ink(old(data), old(masks), x, y)
    {
      ghost var d0, m0 := data, masks;
      top := 0;
      while BlankRow(data, masks, width, 0)
        invariant Valid()
        invariant 0 <= top <= |d0| && data == d0[top..] && masks == m0[top..]
        invariant forall x, y :: y < top ==> !Ink(d0, m0, x, y)
        decreases height
      {
        forall x ensures !Ink(d0, m0, x, top) {
          if 0 <= x < width { CellAtSuffix(d0, m0, top, x, 0); }
        }
        height := height - 1;
        if data == [] {
          return Some(IndexError("pop from empty list")), top;
        }
        data, masks := data[1..], masks[1..];
        top := top + 1;
      }
      assert !BlankRow(data, masks, width, 0);
      ghost var x0 :| 0 <= x0 < width && !IsSpace(CellAt(data, masks, x0, 0));
      CellAtSuffix(d0, m0, top, x0, 0);
      assert Ink(d0, m0, x0, top);
      err := None;
    }

    /** The bottom-row loop of `shrink`: pop the last row while it is blank.
        Row 0 has ink, so this never empties the grid. */
    method DropBlankBottomRows()
      requires Valid() && !BlankRow(data, masks, width, 0)
      modifies this`data, this`masks, this`height
      ensures Valid() && 1 <= height <= old(height)
      ensures data == old(data)[..height] && masks == old(masks)[..height]
      ensures !BlankRow(data, masks, width, 0) && !BlankRow(data, masks, width, height - 1)
      ensures forall x, y :: y >= height ==> !Ink(old(data), old(masks), x, y)
    {
      ghost var d1, m1 := data, masks;
      while BlankRow(data, masks, width, height - 1)
        invariant Valid()
        invariant 1 <= height <= |d1| && data == d1[..height] && masks == m1[..height]
        invariant !BlankRow(data, masks, width, 0)
        invariant forall x, y :: y >= height ==> !Ink(d1, m1, x, y)
        decreases height
      {
        ghost var last := height - 1;
        forall x ensures !Ink(d1, m1, x, last) {
          if 0 <= x < width { CellAtPrefix(d1, m1, height, x, last); }
        }
        height := height - 1;
        data, masks := data[..|data| - 1], masks[..|masks| - 1];
        forall x | 0 <= x < width ensures CellAt(data, masks, x, 0) == CellAt(d1, m1, x, 0) {
          CellAtPrefix(d1, m1, height, x, 0);
        }
      }
    }

    /** The smallest leading-whitespace count over `lines` (starting from `width`):
        the first n columns are blank in every row, and column n holds ink
        somewhere unless n is the whole width. */
    method LeftIndent() returns (n: int)
      requires Valid()
      ensures 0 <= n <= width
      ensures forall x, y :: 0 <= y < height && x < n ==> !Ink(data, masks, x, y)
      ensures n < width ==> InkInColumnAbove(data, masks, n, height)
    {
      var ls := Lines();
      n := width;
      var i := 0;
      while i < |ls|
        invariant 0 <= i <= |ls| && 0 <= n <= width
        invariant forall x, y :: 0 <= y < i && x < n ==> !Ink(data, masks, x, y)
        invariant n < width ==> InkInColumnAbove(data, masks, n, i)
      {
        var line := ls[i];
        var indent := |line| - |LStrip(line)|;
        if indent < n {
          assert line[indent] == CellAt(data, masks, indent, i);
          assert Ink(data, masks, indent, i);
        }
        n := if indent < n then indent else n;
        i := i + 1;
      }
    }

    /** The smallest trailing-whitespace count over `lines` (starting from `width`):
        the last n columns are blank in every row, and column width-1-n holds ink
        somewhere unless n is the whole width. */
    method RightIndent() returns (n: int)
      requires Valid()
      ensures 0 <= n <= width
      ensures forall x, y :: 0 <= y < height && x >= width - n ==> !Ink(data, masks, x, y)
      ensures n < width ==> InkInColumnAbove(data, masks, width - 1 - n, height)
    {
      var ls := Lines();
      n := width;
      var i := 0;
      while i < |ls|
        invariant 0 <= i <= |ls| && 0 <= n <= width
        invariant forall x, y :: 0 <= y < i && x >= width - n ==> !Ink(data, masks, x, y)
        invariant n < width ==> InkInColumnAbove(data, masks, width - 1 - n, i)
      {
        var line := ls[i];
        var trail := |line| - |RStrip(line)|;
        if trail < n {
          assert line[width - 1 - trail] == CellAt(data, masks, width - 1 - trail, i);
          assert Ink(data, masks, width - 1 - trail, i);
        }
        n := if trail < n then trail else n;
        i := i + 1;
      }
    }

    /** The left chop of `shrink`: `width -= n` and `del line[0:n]` on every data and mask row. */
    method ShrinkLeft(n: int)
      requires Valid() && 0 <= n <= width
      modifies this`data, this`masks, this`width
      ensures Valid() && width == old(width) - n
      ensures data == DropCols(old(data), n) && masks == DropCols(old(masks), n)
    {
      if n > 0 {
        width := width - n;
        data, masks := DropCols(data, n), DropCols(masks, n);
      } else {
        assert data == DropCols(data, 0) && masks == DropCols(masks, 0);
      }
    }

    /** The right chop of `shrink`: `width -= n` and `del line[len(line)-n:]` on every row. */
    method ShrinkRight(n: int)
      requires Valid() && 0 <= n <= width
      modifies this`data, this`masks, this`width
      ensures Valid() && width == old(width) - n
      ensures data == DropLastCols(old(data), n) && masks == DropLastCols(old(masks), n)
    {
      if n > 0 {
        width := width - n;
        data, masks := DropLastCols(data, n), DropLastCols(masks, n);
      } else {
        assert forall y :: 0 <= y < |data| ==> data[y][..|data[y]|] == data[y];
        assert forall y :: 0 <= y < |masks| ==> masks[y][..|masks[y]|] == masks[y];
        assert data == DropLastCols(data, 0) && masks == DropLastCols(masks, 0);
      }
    }

    /** The two row loops of `shrink`. On success the rows left are the block
        [top, top+height) of the old rows, its first and last rows hold ink, and
        every character with ink is in it. */
    method DropBlankRows() returns (err: Option<Error>, ghost top: int)
      requires Valid()
      modifies this`data, this`masks, this`height
      ensures err.Some? <==> forall x, y :: !Ink(old(data), old(masks), x, y)
      ensures err.Some? ==> err.value.IndexError? && data == [] && masks == [] && height == -1
      ensures err.None? ==> Valid() && 1 <= height && 0 <= top && top + height <= old(height)
      ensures err.None? ==> data == old(data)[top..top + height] && masks == old(masks)[top..top + height]
      ensures err.None? ==> !BlankRow(data, masks, width, 0) && !BlankRow(data, masks, width, height - 1)
      ensures err.None? ==> forall x, y :: Ink(old(data), old(masks), x, y) ==>
        top <= y < top + height
    {
      ghost var d0, m0 := data, masks;
      err, top := DropBlankTopRows();
      if err.Some? {
        return;
      }
      ghost var d1, m1 := data, masks;
      DropBlankBottomRows();
      assert d1[..height] == d0[top..top + height] && m1[..height] == m0[top..top + height];
      forall x, y | Ink(d0, m0, x, y) ensures top <= y < top + height && Ink(data, masks, x, y - top) {
        InkStep(d0, m0, d1, m1, d1[..height], m1[..height], top, height, x, y);
      }
    }

    /** The left column loop of `shrink` and its chop: the n columns removed
        are blank, and unless every column went, the new first column holds ink. */
    method ChopLeft() returns (n: int)
      requires Valid()
      modifies this`data, this`masks, this`width
      ensures Valid() && 0 <= n <= old(width) && width == old(width) - n
      ensures data == DropCols(old(data), n) && masks == DropCols(old(masks), n)
      ensures forall x, y :: 0 <= y < height && x < n ==> !Ink(old(data), old(masks), x, y)
      ensures n < old(width) ==> InkInColumnAbove(old(data), old(masks), n, height)
    {
      n := LeftIndent();
      ShrinkLeft(n);
    }

    /** The right column loop of `shrink` and its chop: the n columns removed
        are blank, and unless every column went, the new last column holds ink. */
    method ChopRight() returns (n: int)
      requires Valid()
      modifies this`data, this`masks, this`width
      ensures Valid() && 0 <= n <= old(width) && width == old(width) - n
      ensures data == DropLastCols(old(data), n) && masks == DropLastCols(old(masks), n)
      ensures forall x, y :: 0 <= y < height && x >= old(width) - n ==> !Ink(old(data), old(masks), x, y)
      ensures n < old(width) ==> InkInColumnAbove(old(data), old(masks), old(width) - 1 - n, height)
    {
      n := RightIndent();
      ShrinkRight(n);
    }

    /** The two column loops of `shrink`, on rows whose first and last rows hold
        ink. What is left is columns [left, left+width) of the old rows, its
        outermost columns hold ink, and every character with ink is in it. */
    method ChopBlankColumns() returns (ghost left: int, ghost x0: int, ghost x1: int, ghost y0: int, ghost y1: int)
      requires Valid() && 1 <= height
      requires !BlankRow(data, masks, width, 0) && !BlankRow(data, masks, width, height - 1)
      modifies this`data, this`masks, this`width
      ensures Valid() && 1 <= width && 0 <= left && left + width <= old(width)
      ensures Ink(data, masks, x0, 0) && Ink(data, masks, x1, height - 1)
      ensures data == Crop(old(data), 0, height, left, width) && masks == Crop(old(masks), 0, height, left, width)
      ensures Ink(data, masks, 0, y0) && Ink(data, masks, width - 1, y1)
      ensures forall x, y :: Ink(old(data), old(masks), x, y) ==>
        left <= x < left + width
    {
      ghost var d2, m2, w0 := data, masks, width;
      left := ChopLeft();
      ghost var d3, m3 := data, masks;
      var minTrail := ChopRight();
      x0, x1, y0, y1 := ColumnChops(d2, m2, w0, height, left, minTrail, width, d3, m3, data, masks);
    }

    /** `shrink`: drop the blank rows at the top and bottom, then the whitespace
        columns every row shares on the left and on the right, all as seen through
        the masks. What remains is exactly the bounding box of the visible ink.
        A grid with no ink at all pops every row and then fails popping from an
        empty list, leaving `height` at -1. */
    method Shrink() returns (err: Option<Error>, ghost top: int, ghost left: int,
                             ghost x0: int, ghost x1: int, ghost y0: int, ghost y1: int)
      requires Valid()
      modifies this`data, this`masks, this`width, this`height
      ensures err.Some? <==> forall x, y :: !Ink(old(data), old(masks), x, y)
      ensures err.Some? ==> err.value.IndexError? && data == [] && masks == [] && height == -1 && width == old(width)
      ensures err.None? ==> Valid() && height >= 1 && width >= 1
      ensures err.None? ==> 0 <= top && top + height <= old(height) && 0 <= left && left + width <= old(width)
      ensures err.None? ==> data == Crop(old(data), top, height, left, width)
      ensures err.None? ==> masks == Crop(old(masks), top, height, left, width)
      ensures err.None? ==> Ink(data, masks, x0, 0) && Ink(data, masks, x1, height - 1)
      ensures err.None? ==> Ink(data, masks, 0, y0) && Ink(data, masks, width - 1, y1)
      ensures err.None? ==> forall x, y :: Ink(old(data), old(masks), x, y) ==>
        top <= y < top + height && left <= x < left + width
    {
      left, x0, x1, y0, y1 := 0, 0, 0, 0, 0;
      ghost var d0, m0, w0 := data, masks, width;
      err, top := DropBlankRows();
      if err.Some? {
        return;
      }
      left, x0, x1, y0, y1 := CropColumns(d0, m0, w0, top);
    }

    /** The column half of `shrink`, on the rows [top, top+height) of d0 that
        the row half left: what remains is the crop of d0 to the ink. */
    method CropColumns(ghost d0: seq<string>, ghost m0: seq<seq<Mask>>, ghost w0: int, ghost top: int)
      returns (ghost left: int, ghost x0: int, ghost x1: int, ghost y0: int, ghost y1: int)
      requires Valid() && 1 <= height && width == w0 && 0 <= top && top + height <= |d0| == |m0|
      requires forall y :: 0 <= y < |d0| ==> |d0[y]| == w0 && |m0[y]| == w0
      requires data == d0[top..top + height] && masks == m0[top..top + height]
      requires !BlankRow(data, masks, width, 0) && !BlankRow(data, masks, width, height - 1)
      requires forall x, y :: Ink(d0, m0, x, y) ==> top <= y < top + height
      modifies this`data, this`masks, this`width
      ensures Valid() && width >= 1 && 0 <= left && left + width <= w0
      ensures data == Crop(d0, top, height, left, width) && masks == Crop(m0, top, height, left, width)
      ensures Ink(data, masks, x0, 0) && Ink(data, masks, x1, height - 1)
      ensures Ink(data, masks, 0, y0) && Ink(data, masks, width - 1, y1)
      ensures forall x, y :: Ink(d0, m0, x, y) ==> top <= y < top + height && left <= x < left + width
    {
      ghost var d1, m1 := data, masks;
      left, x0, x1, y0, y1 := ChopBlankColumns();
      ShrinkComposes(d0, m0, w0, top, height, d1, m1, left, width, data, masks);
    }
  }
}
