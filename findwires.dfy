/** The read-only flag finder of schemascii/findwires.py: the walk of
    schemascii/findflags.py, reporting every edge character that is not a
    wire glyph, `o` or a space, and changing nothing. */
module FindWires {
  import opened Base
  import opened Geometry
  import opened Grids
  import opened EdgeScan
  import opened FindFlags

  const WireSkip: string := "|-*o "

  /** The flags reported over `cells`. */
  function WireFlags(data: seq<string>, masks: seq<seq<Mask>>, cells: seq<Cell>, box: OldBox): seq<OldFlag>
    decreases |cells|
  {
    if |cells| == 0 then []
    else
      var (p, s) := cells[|cells| - 1];
      var c := Look(data, masks, p);
      WireFlags(data, masks, cells[..|cells| - 1], box) + (if c !in WireSkip then [OldFlag(c, box, s)] else [])
  }

  /** `getflags(grid, box)`: reads the grid, changes nothing. */
  method GetFlags(g: Grid, box: OldBox) returns (out: seq<OldFlag>)
    requires g.Valid()
    ensures out == WireFlags(g.data, g.masks, OldCells(box), box)
  {
    var cells := OldCells(box);
    out := [];
    for i := 0 to |cells|
      invariant out == WireFlags(g.data, g.masks, cells[..i], box)
    {
      var (p, s) := cells[i];
      assert cells[..i + 1][..i] == cells[..i];
      var c := g.Get(p);
      if c in WireSkip {
        assert out + [] == out;
        continue;
      }
      out := out + [OldFlag(c, box, s)];
    }
    assert cells[..|cells|] == cells;
  }

  /** The walk of `over_edges` that masks nothing, with the skip set of
      this file, gives the same flags: this file is that walk with no
      masking. */
  lemma {:induction false} WireFlagsUnmarked(data: seq<string>, masks: seq<seq<Mask>>, cells: seq<Cell>, box: OldBox)
    ensures var (hits, m) := Scan(data, masks, cells, WireSkip, NoMark);
      m == masks && |hits| == |WireFlags(data, masks, cells, box)|
      && forall k :: 0 <= k < |hits| ==> WireFlags(data, masks, cells, box)[k] == OldFlag(hits[k].ch, box, hits[k].side)
    decreases |cells|
  {
    ScanUnmarked(data, masks, cells, WireSkip);
    AllVisitsWires(data, masks, cells, box);
  }

  lemma {:induction false} AllVisitsWires(data: seq<string>, masks: seq<seq<Mask>>, cells: seq<Cell>, box: OldBox)
    ensures |AllVisits(data, masks, cells, WireSkip)| == |WireFlags(data, masks, cells, box)|
    ensures forall k :: 0 <= k < |AllVisits(data, masks, cells, WireSkip)| ==>
      WireFlags(data, masks, cells, box)[k] == OldFlag(AllVisits(data, masks, cells, WireSkip)[k].ch, box, AllVisits(data, masks, cells, WireSkip)[k].side)
    decreases |cells|
  {
    if |cells| > 0 {
      AllVisitsWires(data, masks, cells[..|cells| - 1], box);
    }
  }

  /** Where the grid shows no `|`, `-`, `*` or `o` next to the box and the
      walk visits no point twice, this file reports exactly the flags
      schemascii/findflags.py records. */
  lemma {:induction false} AgreesWithFindFlags(data: seq<string>, masks: seq<seq<Mask>>, cells: seq<Cell>, box: OldBox)
    requires forall k :: 0 <= k < |cells| ==> Look(data, masks, cells[k].0) !in "|-*o"
    requires forall i, j :: 0 <= i < j < |cells| ==> cells[i].0 != cells[j].0
    ensures GetFlagsFrom(data, masks, cells, box).0 == Ok(WireFlags(data, masks, cells, box))
    ensures forall k :: 0 <= k < |cells| ==> (Look(data, GetFlagsFrom(data, masks, cells, box).1, cells[k].0) == Look(data, masks, cells[k].0)
      || Look(data, GetFlagsFrom(data, masks, cells, box).1, cells[k].0) == SideGlyph(cells[k].1))
    decreases |cells|
  {
    if |cells| > 0 {
      var front := cells[..|cells| - 1];
      var (p, s) := cells[|cells| - 1];
      forall i, j | 0 <= i < j < |front| ensures front[i].0 != front[j].0 {
        assert front[i] == cells[i] && front[j] == cells[j];
      }
      forall k | 0 <= k < |front| ensures Look(data, masks, front[k].0) !in "|-*o" {
        assert front[k] == cells[k];
      }
      AgreesWithFindFlags(data, masks, front, box);
      var m := GetFlagsFrom(data, masks, front, box).1;
      assert Look(data, m, p) == Look(data, masks, p) by {
        UnvisitedUnmasked(data, masks, front, box, p);
      }
      var c := Look(data, masks, p);
      if c != ' ' {
        var m' := MaskedAt(m, p, Some(SideGlyph(s)));
        forall k | 0 <= k < |cells| ensures Look(data, m', cells[k].0) == Look(data, masks, cells[k].0) || Look(data, m', cells[k].0) == SideGlyph(cells[k].1) {
          LookMasked(data, m, p, Some(SideGlyph(s)), cells[k].0);
          if k < |front| {
            assert front[k] == cells[k];
          }
        }
      } else {
        assert WireFlags(data, masks, front, box) + [] == WireFlags(data, masks, front, box);
        forall k | 0 <= k < |front| ensures cells[k] == front[k] {
        }
      }
    }
  }

  /** A point the walk has not reached shows what it showed at the start. */
  lemma {:induction false} UnvisitedUnmasked(data: seq<string>, masks: seq<seq<Mask>>, cells: seq<Cell>, box: OldBox, q: Point)
    requires forall k :: 0 <= k < |cells| ==> cells[k].0 != q
    ensures Look(data, GetFlagsFrom(data, masks, cells, box).1, q) == Look(data, masks, q)
    decreases |cells|
  {
    if |cells| > 0 {
      var front := cells[..|cells| - 1];
      var (p, s) := cells[|cells| - 1];
      forall k | 0 <= k < |front| ensures front[k].0 != q {
        assert front[k] == cells[k];
      }
      UnvisitedUnmasked(data, masks, front, box, q);
      LookMasked(data, GetFlagsFrom(data, masks, front, box).1, p, Some(SideGlyph(s)), q);
    }
  }
}
