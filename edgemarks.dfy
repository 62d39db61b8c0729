/** Flags and terminals around a component box (schemascii/edgemarks.py):
    `take_flags` records the non-wire characters next to the box and masks
    them to `*`, and `find_edge_marks` then reports the wire ends next to
    the box, each with the flag found at its point. */
module EdgeMarks {
  import opened Base
  import opened Geometry
  import opened Grids
  import opened EdgeScan

  /** The cells `over_edges(box)` visits: the row above the box, the
      column right of it, the row below and the column left of it, the box
      spanning p1..p2 inclusive. */
  function EdgeCells(box: Cbox): seq<Cell>
  {
    Ring(box.p1.x, box.p2.x, box.p1.y, box.p2.y, box.p1.y - 1, box.p2.x + 1, box.p2.y + 1, box.p1.x - 1)
  }

  /** q is a cell of the box on side s. */
  predicate OnSide(box: Cbox, q: Point, s: Side)
  {
    && box.p1.x <= q.x <= box.p2.x && box.p1.y <= q.y <= box.p2.y
    && match s
       case Top => q.y == box.p1.y
       case Right => q.x == box.p2.x
       case Bottom => q.y == box.p2.y
       case Left => q.x == box.p1.x
  }

  lemma RowMember(x1: int, x2: int, y: int, s: Side, c: Cell)
    ensures c in Row(x1, x2, y, s) <==> c.1 == s && c.0.y == y && x1 <= c.0.x <= x2
  {
    if c.1 == s && c.0.y == y && x1 <= c.0.x <= x2 {
      assert Row(x1, x2, y, s)[c.0.x - x1] == c;
    }
  }

  lemma ColMember(y1: int, y2: int, x: int, s: Side, c: Cell)
    ensures c in Col(y1, y2, x, s) <==> c.1 == s && c.0.x == x && y1 <= c.0.y <= y2
  {
    if c.1 == s && c.0.x == x && y1 <= c.0.y <= y2 {
      assert Col(y1, y2, x, s)[c.0.y - y1] == c;
    }
  }

  /** The walk visits exactly the cells one step outward from the box's
      cells on each side, each labelled with that side. */
  lemma EdgeCellsAround(box: Cbox, c: Cell)
    requires box.p1.x <= box.p2.x && box.p1.y <= box.p2.y
    ensures c in EdgeCells(box) <==> OnSide(box, c.0.Add(SideVector(c.1).Neg()), c.1)
  {
    var b := box;
    RowMember(b.p1.x, b.p2.x, b.p1.y - 1, Top, c);
    ColMember(b.p1.y, b.p2.y, b.p2.x + 1, Right, c);
    RowMember(b.p1.x, b.p2.x, b.p2.y + 1, Bottom, c);
    ColMember(b.p1.y, b.p2.y, b.p1.x - 1, Left, c);
  }

  /** The characters `take_flags` passes over. */
  const FlagSkip: string := " -|()*"

  /** Every flagged cell is masked to `*`. */
  const StarMark: Side -> Mask := s => Some('*')

  /** What `take_flags(grid, box)` returns and leaves in the masks. */
  function Taken(data: seq<string>, masks: seq<seq<Mask>>, box: Cbox): (seq<Flag>, seq<seq<Mask>>)
  {
    Scan(data, masks, EdgeCells(box), FlagSkip, StarMark)
  }

  /** `take_flags(grid, box)`. */
  method TakeFlags(g: Grid, box: Cbox) returns (flags: seq<Flag>)
    requires g.Valid()
    modifies g`masks
    ensures g.Valid()
    ensures (flags, g.masks) == Taken(g.data, old(g.masks), box)
  {
    flags := OverEdges(g, EdgeCells(box), FlagSkip, StarMark);
  }

  /** `take_flags` records each edge point once, on its first visit, when
      its character is not a wire character or a space, with that character;
      every recorded cell then shows `*` and the cells off the edge are
      unchanged. */
  lemma TakeFlagsRecords(data: seq<string>, masks: seq<seq<Mask>>, box: Cbox)
    ensures Taken(data, masks, box).0 == FirstVisits(data, masks, EdgeCells(box), FlagSkip)
    ensures DistinctPoints(Taken(data, masks, box).0)
    ensures FromCells(Taken(data, masks, box).0, data, masks, EdgeCells(box), FlagSkip)
    ensures forall k :: 0 <= k < |Taken(data, masks, box).0| ==>
      Look(data, Taken(data, masks, box).1, Taken(data, masks, box).0[k].pt) == '*'
    ensures Untouched(data, Taken(data, masks, box).1, masks, EdgeCells(box))
  {
    assert Marks(StarMark, FlagSkip) by {
      forall s: Side ensures StarMark(s).Some? && StarMark(s).value in FlagSkip {
        assert FlagSkip[5] == '*';
      }
    }
    assert ' ' in FlagSkip by {
      assert FlagSkip[0] == ' ';
    }
    ScanFirstVisits(data, masks, EdgeCells(box), FlagSkip, StarMark);
    FirstVisitsDistinct(data, masks, EdgeCells(box), FlagSkip);
  }

  /** A wire end: a vertical glyph or `*` above or below the box, a
      horizontal one or `*` beside it. */
  predicate TerminalChar(c: char, s: Side)
  {
    || (c in "*|()" && (s == Top || s == Bottom))
    || (c in "*-" && (s == Left || s == Right))
  }

  /** The character of the first flag at p, if any. */
  function FlagAt(flags: seq<Flag>, p: Point): Option<char>
  {
    if |flags| == 0 then None
    else if flags[0].pt == p then Some(flags[0].ch)
    else FlagAt(flags[1..], p)
  }

  lemma {:induction false} FlagAtDistinct(flags: seq<Flag>, k: int)
    requires DistinctPoints(flags) && 0 <= k < |flags|
    ensures FlagAt(flags, flags[k].pt) == Some(flags[k].ch)
  {
    if k > 0 {
      assert flags[0].pt != flags[k].pt;
      assert DistinctPoints(flags[1..]) by {
        forall i, j | 0 <= i < j < |flags[1..]| ensures flags[1..][i].pt != flags[1..][j].pt {
          assert flags[1..][i] == flags[i + 1] && flags[1..][j] == flags[j + 1];
        }
      }
      FlagAtDistinct(flags[1..], k - 1);
    }
  }

  /** The terminals the second walk reports over `cells`. */
  function TerminalsOf(data: seq<string>, masks: seq<seq<Mask>>, cells: seq<Cell>, flags: seq<Flag>): seq<Terminal>
    decreases |cells|
  {
    if |cells| == 0 then []
    else
      var (p, s) := cells[|cells| - 1];
      TerminalsOf(data, masks, cells[..|cells| - 1], flags)
        + (if TerminalChar(Look(data, masks, p), s) then [Terminal(p, FlagAt(flags, p), s)] else [])
  }

  /** A terminal is reported for exactly the visited cells that show a
      wire end, carrying the flag at that point. */
  lemma {:induction false} TerminalsOfShape(data: seq<string>, masks: seq<seq<Mask>>, cells: seq<Cell>, flags: seq<Flag>)
    ensures forall k :: 0 <= k < |cells| && TerminalChar(Look(data, masks, cells[k].0), cells[k].1) ==>
      Terminal(cells[k].0, FlagAt(flags, cells[k].0), cells[k].1) in TerminalsOf(data, masks, cells, flags)
    ensures forall t :: t in TerminalsOf(data, masks, cells, flags) ==>
      (t.pt, t.side) in cells && TerminalChar(Look(data, masks, t.pt), t.side) && t.flag == FlagAt(flags, t.pt)
    decreases |cells|
  {
    if |cells| > 0 {
      var front := cells[..|cells| - 1];
      TerminalsOfShape(data, masks, front, flags);
      assert cells == front + [cells[|cells| - 1]];
      forall k | 0 <= k < |front| ensures cells[k] == front[k] {
      }
    }
  }

  /** The `terminals` walk: reads the grid, changes nothing. */
  method TerminalsPass(g: Grid, cells: seq<Cell>, flags: seq<Flag>) returns (ts: seq<Terminal>)
    requires g.Valid()
    ensures ts == TerminalsOf(g.data, g.masks, cells, flags)
  {
    ts := [];
    for i := 0 to |cells|
      invariant ts == TerminalsOf(g.data, g.masks, cells[..i], flags)
    {
      var (p, s) := cells[i];
      assert cells[..i + 1][..i] == cells[..i];
      var c := g.Get(p);
      if TerminalChar(c, s) {
        var maybeFlag := FlagAt(flags, p);
        ts := ts + [Terminal(p, maybeFlag, s)];
      } else {
        assert ts + [] == ts;
      }
    }
    assert cells[..|cells|] == cells;
  }

  /** `find_edge_marks(grid, box)`: the flags are taken (and masked), then
      the terminals are read from the masked grid. */
  method FindEdgeMarks(g: Grid, box: Cbox) returns (terminals: seq<Terminal>)
    requires g.Valid()
    modifies g`masks
    ensures g.Valid()
    ensures g.masks == Taken(g.data, old(g.masks), box).1
    ensures terminals == TerminalsOf(g.data, g.masks, EdgeCells(box), Taken(g.data, old(g.masks), box).0)
  {
    var flags := TakeFlags(g, box);
    terminals := TerminalsPass(g, EdgeCells(box), flags);
  }

  /** Every flag becomes a terminal carrying it: its cell was masked to
      `*`, which is a wire end on every side. */
  lemma FlagsBecomeTerminals(data: seq<string>, masks: seq<seq<Mask>>, box: Cbox)
    ensures var (flags, m) := Taken(data, masks, box);
      forall f :: f in flags ==> Terminal(f.pt, Some(f.ch), f.side) in TerminalsOf(data, m, EdgeCells(box), flags)
  {
    var (flags, m) := Taken(data, masks, box);
    var cells := EdgeCells(box);
    TakeFlagsRecords(data, masks, box);
    TerminalsOfShape(data, m, cells, flags);
    forall f | f in flags ensures Terminal(f.pt, Some(f.ch), f.side) in TerminalsOf(data, m, cells, flags) {
      var i :| 0 <= i < |flags| && flags[i] == f;
      FlagAtDistinct(flags, i);
      assert (f.pt, f.side) in cells;
      var k :| 0 <= k < |cells| && cells[k] == (f.pt, f.side);
      assert Look(data, m, f.pt) == '*';
      assert TerminalChar('*', f.side);
    }
  }
}
