/** The walk around a component box that the edge scanners share: the
    `over_edges` decorator of schemascii/edgemarks.py and the loops of the
    older schemascii/flags.py, schemascii/findflags.py and
    schemascii/findwires.py. Each visits one side after the other and, at
    every cell whose character is not to be skipped, records a flag and may
    mask the cell. */
module EdgeScan {
  import opened Base
  import opened Geometry
  import opened Grids

  /** A visited cell and the side of the box it lies on. */
  type Cell = (Point, Side)

  /** Columns x1..x2 (inclusive) of row y. */
  function Row(x1: int, x2: int, y: int, s: Side): seq<Cell>
  {
    seq(if x1 <= x2 then x2 - x1 + 1 else 0, k => (Point(x1 + k, y), s))
  }

  /** Rows y1..y2 (inclusive) of column x. */
  function Col(y1: int, y2: int, x: int, s: Side): seq<Cell>
  {
    seq(if y1 <= y2 then y2 - y1 + 1 else 0, k => (Point(x, y1 + k), s))
  }

  /** The visiting order all the scanners use: the top row, the right
      column, the bottom row, the left column, each side given by the row
      or column it lies on. */
  function Ring(x1: int, x2: int, y1: int, y2: int, topY: int, rightX: int, bottomY: int, leftX: int): seq<Cell>
  {
    Row(x1, x2, topY, Top) + Col(y1, y2, rightX, Right) + Row(x1, x2, bottomY, Bottom) + Col(y1, y2, leftX, Left)
  }

  /** The masks after `setmask(p, m)`: unchanged outside the grid. */
  function MaskedAt(masks: seq<seq<Mask>>, p: Point, m: Mask): seq<seq<Mask>>
  {
    if 0 <= p.y < |masks| && 0 <= p.x < |masks[p.y]| then masks[p.y := masks[p.y][p.x := m]] else masks
  }

  /** The character the grid shows at p. */
  function Look(data: seq<string>, masks: seq<seq<Mask>>, p: Point): char
  {
    CellAt(data, masks, p.x, p.y)
  }

  /** Setting one mask changes what the grid shows at that cell only: a
      cell inside the grid shows its new mask, even one that showed a
      space before. */
  lemma LookMasked(data: seq<string>, masks: seq<seq<Mask>>, p: Point, m: Mask, q: Point)
    ensures q != p ==> Look(data, MaskedAt(masks, p, m), q) == Look(data, masks, q)
    ensures 0 <= p.y < |data| && p.y < |masks| && 0 <= p.x < |data[p.y]| && p.x < |masks[p.y]| && m.Some?
            ==> Look(data, MaskedAt(masks, p, m), p) == m.value
    ensures Look(data, masks, p) != ' ' && m.Some? ==> Look(data, MaskedAt(masks, p, m), p) == m.value
  {
  }

  /** What a walk over `cells` records and leaves in the masks: a cell
      whose character, as the grid shows it at that moment, is in `skip` is
      passed over; any other is recorded with its character and side, and
      masked with `mark(side)` unless that is None. */
  function Scan(data: seq<string>, masks: seq<seq<Mask>>, cells: seq<Cell>, skip: string, mark: Side -> Mask)
    : (seq<Flag>, seq<seq<Mask>>)
    decreases |cells|
  {
    if |cells| == 0 then ([], masks)
    else
      var (hits, m) := Scan(data, masks, cells[..|cells| - 1], skip, mark);
      var (p, s) := cells[|cells| - 1];
      var c := Look(data, m, p);
      if c in skip then (hits, m)
      else (hits + [Flag(p, c, s)], if mark(s).Some? then MaskedAt(m, p, mark(s)) else m)
  }

  /** The points of the cells. */
  function Points(cells: seq<Cell>): set<Point>
  {
    set k | 0 <= k < |cells| :: cells[k].0
  }

  lemma PointsSnoc(cells: seq<Cell>)
    requires |cells| > 0
    ensures Points(cells) == Points(cells[..|cells| - 1]) + {cells[|cells| - 1].0}
  {
    var front := cells[..|cells| - 1];
    forall p | p in Points(cells) ensures p in Points(front) + {cells[|cells| - 1].0} {
      var k :| 0 <= k < |cells| && cells[k].0 == p;
      if k < |front| {
        assert front[k] == cells[k];
      }
    }
    forall p | p in Points(front) ensures p in Points(cells) {
      var k :| 0 <= k < |front| && front[k].0 == p;
      assert cells[k] == front[k];
    }
  }

  /** The cells visited for the first time whose original character is
      not skipped, with that character: an independent account of what a
      marking walk records. */
  function FirstVisits(data: seq<string>, masks: seq<seq<Mask>>, cells: seq<Cell>, skip: string): seq<Flag>
    decreases |cells|
  {
    if |cells| == 0 then []
    else
      var front := cells[..|cells| - 1];
      var (p, s) := cells[|cells| - 1];
      var c := Look(data, masks, p);
      FirstVisits(data, masks, front, skip) + (if c !in skip && p !in Points(front) then [Flag(p, c, s)] else [])
  }

  /** Every side gets a mark, and the mark is a character the walk skips. */
  predicate Marks(mark: Side -> Mask, skip: string)
  {
    forall s: Side :: mark(s).Some? && mark(s).value in skip
  }

  /** The cells the walk did not visit show what they showed before. */
  ghost predicate Untouched(data: seq<string>, m: seq<seq<Mask>>, masks: seq<seq<Mask>>, cells: seq<Cell>)
  {
    forall p :: p !in Points(cells) ==> Look(data, m, p) == Look(data, masks, p)
  }

  /** Every visited cell shows a skipped character. */
  ghost predicate Settled(data: seq<string>, m: seq<seq<Mask>>, cells: seq<Cell>, skip: string)
  {
    forall p :: p in Points(cells) ==> Look(data, m, p) in skip
  }

  /** Every recorded point was visited and shows its side's mark. */
  predicate MarkedHits(data: seq<string>, r: (seq<Flag>, seq<seq<Mask>>), cells: seq<Cell>, mark: Side -> Mask)
  {
    forall k :: 0 <= k < |r.0| ==> r.0[k].pt in Points(cells) && mark(r.0[k].side).Some? && Look(data, r.1, r.0[k].pt) == mark(r.0[k].side).value
  }

  /** A marking walk records each point at most once, on its first visit,
      and exactly when its original character is not skipped; it masks the
      recorded cells with their side's mark, leaves unvisited cells as they
      were, and every visited cell ends up showing a skipped character. */
  lemma {:induction false} ScanFirstVisits(data: seq<string>, masks: seq<seq<Mask>>, cells: seq<Cell>, skip: string, mark: Side -> Mask)
    requires ' ' in skip && Marks(mark, skip)
    ensures Scan(data, masks, cells, skip, mark).0 == FirstVisits(data, masks, cells, skip)
    ensures Untouched(data, Scan(data, masks, cells, skip, mark).1, masks, cells)
    ensures Settled(data, Scan(data, masks, cells, skip, mark).1, cells, skip)
    ensures MarkedHits(data, Scan(data, masks, cells, skip, mark), cells, mark)
    decreases |cells|
  {
    if |cells| > 0 {
      var front := cells[..|cells| - 1];
      var (p, s) := cells[|cells| - 1];
      ScanFirstVisits(data, masks, front, skip, mark);
      PointsSnoc(cells);
      var (hits, m) := Scan(data, masks, front, skip, mark);
      var c := Look(data, m, p);
      if c !in skip {
        assert p !in Points(front);
        var m' := MaskedAt(m, p, mark(s));
        forall q ensures q != p ==> Look(data, m', q) == Look(data, m, q) {
          LookMasked(data, m, p, mark(s), q);
        }
        LookMasked(data, m, p, mark(s), p);
        forall k | 0 <= k < |hits| ensures hits[k].pt != p {
        }
      }
    }
  }

  /** No two records share a point. */
  predicate DistinctPoints(v: seq<Flag>)
  {
    forall i, j :: 0 <= i < j < |v| ==> v[i].pt != v[j].pt
  }

  /** Each record is a visited cell with its original, unskipped character. */
  predicate FromCells(v: seq<Flag>, data: seq<string>, masks: seq<seq<Mask>>, cells: seq<Cell>, skip: string)
  {
    forall i :: 0 <= i < |v| ==> (v[i].pt, v[i].side) in cells && v[i].ch == Look(data, masks, v[i].pt) && v[i].ch !in skip
  }

  /** No point is recorded twice by a first-visit account, and each record
      is a visited cell with its original, unskipped character. */
  lemma {:induction false} FirstVisitsDistinct(data: seq<string>, masks: seq<seq<Mask>>, cells: seq<Cell>, skip: string)
    ensures DistinctPoints(FirstVisits(data, masks, cells, skip))
    ensures FromCells(FirstVisits(data, masks, cells, skip), data, masks, cells, skip)
    decreases |cells|
  {
    if |cells| > 0 {
      var front := cells[..|cells| - 1];
      var (p, s) := cells[|cells| - 1];
      FirstVisitsDistinct(data, masks, front, skip);
      var v0 := FirstVisits(data, masks, front, skip);
      assert cells == front + [(p, s)];
      forall i | 0 <= i < |v0| ensures v0[i].pt in Points(front) && (v0[i].pt, v0[i].side) in cells {
        var k :| 0 <= k < |front| && front[k] == (v0[i].pt, v0[i].side);
        assert front[k].0 == v0[i].pt;
      }
    }
  }

  /** A walk that masks nothing records every cell whose character is not
      skipped, revisits included, and leaves the masks as they were. */
  function AllVisits(data: seq<string>, masks: seq<seq<Mask>>, cells: seq<Cell>, skip: string): seq<Flag>
    decreases |cells|
  {
    if |cells| == 0 then []
    else
      var (p, s) := cells[|cells| - 1];
      var c := Look(data, masks, p);
      AllVisits(data, masks, cells[..|cells| - 1], skip) + (if c !in skip then [Flag(p, c, s)] else [])
  }

  /** Masks no cell. */
  const NoMark: Side -> Mask := s => None

  lemma {:induction false} ScanUnmarked(data: seq<string>, masks: seq<seq<Mask>>, cells: seq<Cell>, skip: string)
    ensures Scan(data, masks, cells, skip, NoMark) == (AllVisits(data, masks, cells, skip), masks)
    decreases |cells|
  {
    if |cells| > 0 {
      var front := cells[..|cells| - 1];
      var (p, s) := cells[|cells| - 1];
      ScanUnmarked(data, masks, front, skip);
      assert NoMark(s) == None;
      var c := Look(data, masks, p);
      var r := Scan(data, masks, front, skip, NoMark);
      assert r.1 == masks;
      assert Look(data, r.1, p) == c;
      if c in skip {
        assert Scan(data, masks, cells, skip, NoMark) == r;
        assert AllVisits(data, masks, front, skip) + [] == AllVisits(data, masks, front, skip);
      } else {
        assert Scan(data, masks, cells, skip, NoMark) == (r.0 + [Flag(p, c, s)], masks);
      }
    }
  }

  /** `over_edges`: the callback run at each cell in turn, its non-None
      results kept in order. */
  method OverEdges(g: Grid, cells: seq<Cell>, skip: string, mark: Side -> Mask) returns (hits: seq<Flag>)
    requires g.Valid()
    modifies g`masks
    ensures g.Valid()
    ensures (hits, g.masks) == Scan(g.data, old(g.masks), cells, skip, mark)
  {
    hits := [];
    for i := 0 to |cells|
      invariant g.Valid()
      invariant (hits, g.masks) == Scan(g.data, old(g.masks), cells[..i], skip, mark)
    {
      var (p, s) := cells[i];
      assert cells[..i + 1][..i] == cells[..i];
      var c := g.Get(p);
      if c !in skip {
        if mark(s).Some? {
          g.SetMask(p, mark(s));
        }
        hits := hits + [Flag(p, c, s)];
      }
    }
    assert cells[..|cells|] == cells;
  }
}
