/** The oldest flag finder (schemascii/findflags.py), written against an
    earlier grid with `get(x, y)` and boxes with `x1`..`y2` fields; here it
    reads the grid through the current `Get` of the point (x, y). A `*` or
    `o` next to the box is an error. */
module FindFlags {
  import opened Base
  import opened Text
  import opened Geometry
  import opened Grids
  import opened EdgeScan

  /** The old box: corners (x1, y1) and (x2, y2), inclusive. */
  datatype OldBox = OldBox(x1: int, y1: int, x2: int, y2: int)

  /** `Flag(c, box, s)` as the old files build it. */
  datatype OldFlag = OldFlag(ch: char, box: OldBox, side: Side)

  /** The row above, the column right, the row below, the column left. */
  function OldCells(box: OldBox): seq<Cell>
  {
    Ring(box.x1, box.x2, box.y1, box.y2, box.y1 - 1, box.x2 + 1, box.y2 + 1, box.x1 - 1)
  }

  /** The glyph a flag is masked with: `|` above or below, `-` beside. */
  function SideGlyph(s: Side): char
  {
    if s == Top || s == Bottom then '|' else '-'
  }

  /** The error naming the 1-based line and column. */
  function NotAllowed(c: char, p: Point): Error
  {
    ValueError([c] + " not allowed here (at line " + IntToString(p.y + 1) + ", col " + IntToString(p.x + 1) + ")")
  }

  /** What `getflags` returns (or raises) after visiting `cells`, and the
      masks it leaves: the flags masked before an error stay masked. */
  function GetFlagsFrom(data: seq<string>, masks: seq<seq<Mask>>, cells: seq<Cell>, box: OldBox)
    : (Result<seq<OldFlag>>, seq<seq<Mask>>)
    decreases |cells|
  {
    if |cells| == 0 then (Ok([]), masks)
    else
      var (r, m) := GetFlagsFrom(data, masks, cells[..|cells| - 1], box);
      if r.Err? then (r, m) else VisitCell(data, m, cells[|cells| - 1], r.value, box)
  }

  /** One turn of the loop at a cell, with the flags `out` found so far. */
  function VisitCell(data: seq<string>, m: seq<seq<Mask>>, cell: Cell, out: seq<OldFlag>, box: OldBox)
    : (Result<seq<OldFlag>>, seq<seq<Mask>>)
  {
    var (p, s) := cell;
    var c := Look(data, m, p);
    if c == '*' || c == 'o' then (Err(NotAllowed(c, p)), m)
    else if c == ' ' then (Ok(out), m)
    else (Ok(out + [OldFlag(c, box, s)]), MaskedAt(m, p, Some(SideGlyph(s))))
  }

  /** `getflags(grid, box)`. */
  method GetFlags(g: Grid, box: OldBox) returns (r: Result<seq<OldFlag>>)
    requires g.Valid()
    modifies g`masks
    ensures g.Valid()
    ensures (r, g.masks) == GetFlagsFrom(g.data, old(g.masks), OldCells(box), box)
  {
    var cells := OldCells(box);
    var out := [];
    for i := 0 to |cells|
      invariant g.Valid()
      invariant (Ok(out), g.masks) == GetFlagsFrom(g.data, old(g.masks), cells[..i], box)
    {
      GetFlagsSnoc(g.data, old(g.masks), cells, box, i);
      var step := Visit(g, cells[i], out, box);
      if step.Err? {
        r := step;
        ErrStays(g.data, old(g.masks), cells, box, i + 1);
        return;
      }
      out := step.value;
    }
    assert cells[..|cells|] == cells;
    r := Ok(out);
  }

  /** The loop body at one cell: raise on `*` or `o`, pass over a space,
      otherwise mask the cell and record the flag. */
  method Visit(g: Grid, cell: Cell, out: seq<OldFlag>, box: OldBox) returns (r: Result<seq<OldFlag>>)
    requires g.Valid()
    modifies g`masks
    ensures g.Valid()
    ensures (r, g.masks) == VisitCell(g.data, old(g.masks), cell, out, box)
  {
    var (p, s) := cell;
    var c := g.Get(p);
    if c == '*' || c == 'o' {
      return Err(NotAllowed(c, p));
    }
    if c == ' ' {
      return Ok(out);
    }
    g.SetMask(p, Some(SideGlyph(s)));
    r := Ok(out + [OldFlag(c, box, s)]);
  }

  /** One more cell: the walk so far, then that cell. */
  lemma GetFlagsSnoc(data: seq<string>, masks: seq<seq<Mask>>, cells: seq<Cell>, box: OldBox, i: nat)
    requires i < |cells|
    ensures var (r, m) := GetFlagsFrom(data, masks, cells[..i], box);
      GetFlagsFrom(data, masks, cells[..i + 1], box) ==
        if r.Err? then (r, m) else VisitCell(data, m, cells[i], r.value, box)
  {
    assert cells[..i + 1][..i] == cells[..i];
  }

  /** Once raised, the error is what the whole walk gives. */
  lemma {:induction false} ErrStays(data: seq<string>, masks: seq<seq<Mask>>, cells: seq<Cell>, box: OldBox, i: nat)
    requires i <= |cells| && GetFlagsFrom(data, masks, cells[..i], box).0.Err?
    ensures GetFlagsFrom(data, masks, cells, box) == GetFlagsFrom(data, masks, cells[..i], box)
    decreases |cells| - i
  {
    if i < |cells| {
      assert cells[..i + 1][..i] == cells[..i];
      ErrStays(data, masks, cells, box, i + 1);
    } else {
      assert cells[..i] == cells;
    }
  }

  /** The number of visited cells whose original character is not a space. */
  function NonBlank(data: seq<string>, masks: seq<seq<Mask>>, cells: seq<Cell>): nat
    decreases |cells|
  {
    if |cells| == 0 then 0
    else NonBlank(data, masks, cells[..|cells| - 1]) + (if Look(data, masks, cells[|cells| - 1].0) != ' ' then 1 else 0)
  }

  /** What each cell shows during the walk: its original character, or,
      once flagged, the glyph of a side, and only a cell that was neither a
      space nor `*` nor `o` is ever flagged. */
  ghost predicate Masking(data: seq<string>, m: seq<seq<Mask>>, masks: seq<seq<Mask>>)
  {
    forall p :: Look(data, m, p) == Look(data, masks, p) ||
      (Look(data, m, p) in "|-" && Look(data, masks, p) !in " *o")
  }

  /** The walk raises exactly when some visited cell originally shows `*`
      or `o`; otherwise it records one flag per visit of a cell that is not
      blank, revisits included (a flagged cell shows its side's glyph the
      next time). */
  lemma {:induction false} GetFlagsRaises(data: seq<string>, masks: seq<seq<Mask>>, cells: seq<Cell>, box: OldBox)
    ensures GetFlagsFrom(data, masks, cells, box).0.Err? <==>
      exists k :: 0 <= k < |cells| && Look(data, masks, cells[k].0) in "*o"
    ensures GetFlagsFrom(data, masks, cells, box).0.Ok? ==>
      |GetFlagsFrom(data, masks, cells, box).0.value| == NonBlank(data, masks, cells)
    ensures Masking(data, GetFlagsFrom(data, masks, cells, box).1, masks)
    decreases |cells|
  {
    if |cells| > 0 {
      var front := cells[..|cells| - 1];
      var (p, s) := cells[|cells| - 1];
      GetFlagsRaises(data, masks, front, box);
      var (r, m) := GetFlagsFrom(data, masks, front, box);
      var c := Look(data, m, p);
      var c0 := Look(data, masks, p);
      assert c == c0 || (c in "|-" && c0 !in " *o");
      if r.Ok? && c != '*' && c != 'o' && c != ' ' {
        var m' := MaskedAt(m, p, Some(SideGlyph(s)));
        forall q ensures Look(data, m', q) == Look(data, masks, q) || (Look(data, m', q) in "|-" && Look(data, masks, q) !in " *o") {
          LookMasked(data, m, p, Some(SideGlyph(s)), q);
        }
      }
      if exists k :: 0 <= k < |cells| && Look(data, masks, cells[k].0) in "*o" {
        var k :| 0 <= k < |cells| && Look(data, masks, cells[k].0) in "*o";
        if k < |front| {
          assert front[k] == cells[k];
        }
      }
      if exists k :: 0 <= k < |front| && Look(data, masks, front[k].0) in "*o" {
        var k :| 0 <= k < |front| && Look(data, masks, front[k].0) in "*o";
        assert cells[k] == front[k];
      }
    }
  }
}
