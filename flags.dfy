/** The older flag finder of schemascii/flags.py: the same walk around a
    box, with its own coordinates, masking each flag with the wire glyph of
    its side. Its records are built as `Flag(c, box, s)`: the character,
    the whole box and the side. */
module Flags {
  import opened Base
  import opened Geometry
  import opened Grids
  import opened EdgeScan

  /** `Flag(c, box, s)` as this file builds it. */
  datatype BoxFlag = BoxFlag(ch: char, box: Cbox, side: Side)

  /** The cells `find_flags` visits: the top side on row `p2.y - 1`, the
      right side on column `p2.x`, the bottom side on row `p2.y + 1` and the
      left side on column `p1.x - 1`. */
  function FlagCells(box: Cbox): seq<Cell>
  {
    Ring(box.p1.x, box.p2.x, box.p1.y, box.p2.y, box.p2.y - 1, box.p2.x, box.p2.y + 1, box.p1.x - 1)
  }

  const FlagSkip: string := " -|()*"

  /** A flag above or below the box is masked `|`, one beside it `-`. */
  const SideMark: Side -> Mask := s => if s == Top || s == Bottom then Some('|') else Some('-')

  /** The records built from the walk's hits. */
  function WithBox(hits: seq<Flag>, box: Cbox): (r: seq<BoxFlag>)
    ensures |r| == |hits|
  {
    seq(|hits|, k requires 0 <= k < |hits| => BoxFlag(hits[k].ch, box, hits[k].side))
  }

  /** `find_flags(grid, box)`; the `IndexError` handler is never entered,
      since `get` answers a space outside the grid. */
  method FindFlags(g: Grid, box: Cbox) returns (out: seq<BoxFlag>)
    requires g.Valid()
    modifies g`masks
    ensures g.Valid()
    ensures var (hits, m) := Scan(g.data, old(g.masks), FlagCells(box), FlagSkip, SideMark);
      g.masks == m && out == WithBox(hits, box)
  {
    var hits := OverEdges(g, FlagCells(box), FlagSkip, SideMark);
    out := WithBox(hits, box);
  }

  /** One record per edge point whose character is not a wire glyph or a
      space, on its first visit, in visiting order; each such cell then
      shows `|` above or below the box and `-` beside it, and the cells off
      the walk are unchanged. */
  lemma FindFlagsRecords(data: seq<string>, masks: seq<seq<Mask>>, box: Cbox)
    ensures Scan(data, masks, FlagCells(box), FlagSkip, SideMark).0 == FirstVisits(data, masks, FlagCells(box), FlagSkip)
    ensures forall k :: 0 <= k < |Scan(data, masks, FlagCells(box), FlagSkip, SideMark).0| ==>
      var f := Scan(data, masks, FlagCells(box), FlagSkip, SideMark).0[k];
      Look(data, Scan(data, masks, FlagCells(box), FlagSkip, SideMark).1, f.pt) == (if f.side == Top || f.side == Bottom then '|' else '-')
    ensures Untouched(data, Scan(data, masks, FlagCells(box), FlagSkip, SideMark).1, masks, FlagCells(box))
  {
    assert Marks(SideMark, FlagSkip) by {
      forall s: Side ensures SideMark(s).Some? && SideMark(s).value in FlagSkip {
        assert FlagSkip[1] == '-' && FlagSkip[2] == '|';
      }
    }
    assert FlagSkip[0] == ' ';
    ScanFirstVisits(data, masks, FlagCells(box), FlagSkip, SideMark);
  }

  /** On a box one row high the top side is the row above it, as in
      schemascii/edgemarks.py; on a taller box it runs through the box's
      last-but-one row. */
  lemma TopSideRow(box: Cbox)
    requires box.p1.x <= box.p2.x
    ensures FlagCells(box)[0] == (Point(box.p1.x, box.p2.y - 1), Top)
    ensures box.p1.y == box.p2.y ==> FlagCells(box)[0].0.y == box.p1.y - 1
    ensures box.p1.y < box.p2.y ==> box.p1.y <= FlagCells(box)[0].0.y <= box.p2.y
  {
  }
}
