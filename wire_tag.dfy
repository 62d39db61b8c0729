/** Wire tags (schemascii/wire_tag.py): `<name=` and `=name>` on a row name
    the wire they touch and say which way information flows. */
module WireTags {
  import opened Base
  import opened Text
  import opened Geometry
  import opened Grids
  import opened Scanner
  import opened Wires

  /** A character a tag name may hold, besides the closing one. */
  predicate NameChar(c: char) { !IsSpace(c) }

  /** `WIRE_TAG_PAT`, `<([^\s=]+)=|=([^\s>]+)>`: the end of its match at i.
      The first alternative is tried first. */
  function TagEnd(line: string, i: nat): (r: Option<nat>)
  {
    var left := Bracketed(line, i, '<', NameChar, '=');
    if left.Some? then left else Bracketed(line, i, '=', NameChar, '>')
  }

  const TagPat: Pattern := (line, i) => TagEnd(line, i)

  lemma TagAdvances(line: string)
    ensures Advances(TagPat, line)
  {
  }

  /** `WireTag(name, position, attach_side, point_dir, connect_pt)`. */
  datatype WireTag = WireTag(name: string, position: Point, attachSide: Side, pointDir: Side, connectPt: Point)

  /** The character `grid.get` shows just left of column x of a row. */
  function LeftOf(line: string, x: nat): char
  {
    if 0 < x <= |line| then line[x - 1] else ' '
  }

  /** The tag a match `[s.start, s.end)` of row `row` makes. */
  function TagOf(line: string, row: int, s: Span, wires: WireTable): (t: WireTag)
    requires s.start + 2 <= s.end <= |line|
  {
    var leftForm := line[s.start] == '<';
    var name := line[s.start + 1..s.end - 1];
    var pointDir := if leftForm then Left else Right;
    if LeftOf(line, s.start) in wires.startDirs then
      WireTag(name, Point(s.start, row), Left, pointDir, Point(s.start - 1, row))
    else
      WireTag(name, Point(s.end - 1, row), Right, pointDir, Point(s.end, row))
  }

  /** The tags of one row, one per match, in match order. */
  function RowTags(line: string, row: int, wires: WireTable): (r: seq<WireTag>)
  {
    TagAdvances(line);
    var spans := FindIter(line, 0, TagPat);
    FindIterShape(line, 0, TagPat);
    seq(|spans|, k requires 0 <= k < |spans| => TagOf(line, row, spans[k], wires))
  }

  /** The tags of the first n rows, row by row. */
  function AllTags(rows: seq<string>, n: nat, wires: WireTable): seq<WireTag>
    requires n <= |rows|
  {
    if n == 0 then [] else AllTags(rows, n - 1, wires) + RowTags(rows[n - 1], n - 1, wires)
  }

  /** What a tag says about the match `[s, e)` it comes from: the `<name=`
      form points left and the `=name>` form right; the name is what lies
      between, non-empty, without whitespace or the closing character; a
      wire character just left of the match attaches the tag on the left,
      at the match start, else on the right, at its last column; and the
      connection point is the horizontal neighbour outside the match. */
  ghost predicate TagShape(line: string, row: int, wires: WireTable, t: WireTag, s: nat, e: nat)
  {
    && s + 3 <= e <= |line|
    && TagPat(line, s) == Some(e)
    && t.name == line[s + 1..e - 1] && |t.name| > 0
    && (t.pointDir == Left <==> line[s] == '<') && (t.pointDir == Left || t.pointDir == Right)
    && (t.pointDir == Left ==> line[e - 1] == '=' && forall j :: 0 <= j < |t.name| ==> NameChar(t.name[j]) && t.name[j] != '=')
    && (t.pointDir == Right ==> line[s] == '=' && line[e - 1] == '>' && forall j :: 0 <= j < |t.name| ==> NameChar(t.name[j]) && t.name[j] != '>')
    && (t.attachSide == Left <==> LeftOf(line, s) in wires.startDirs)
    && (t.attachSide == Left ==> t.position == Point(s, row) && t.connectPt == Point(s - 1, row))
    && (t.attachSide != Left ==> t.attachSide == Right && t.position == Point(e - 1, row) && t.connectPt == Point(e, row))
    && t.position.y == row && t.connectPt.y == row
    && (t.connectPt.x == t.position.x - 1 || t.connectPt.x == t.position.x + 1)
    && !(s <= t.connectPt.x < e)
  }

  /** Every tag of a row has the shape of some match of the pattern. */
  lemma RowTagsShape(line: string, row: int, wires: WireTable, k: int)
    requires 0 <= k < |RowTags(line, row, wires)|
    ensures exists s: nat, e: nat :: TagShape(line, row, wires, RowTags(line, row, wires)[k], s, e)
  {
    TagAdvances(line);
    var spans := FindIter(line, 0, TagPat);
    FindIterShape(line, 0, TagPat);
    var sp := spans[k];
    var t := RowTags(line, row, wires)[k];
    assert t == TagOf(line, row, sp, wires);
    assert TagShape(line, row, wires, t, sp.start, sp.end);
  }

  /** Row tags come in match order: left to right, without overlapping. */
  lemma RowTagsOrdered(line: string, row: int, wires: WireTable, j: int, k: int)
    requires 0 <= j < k < |RowTags(line, row, wires)|
    ensures RowTags(line, row, wires)[j].position.x < RowTags(line, row, wires)[k].position.x
  {
    TagAdvances(line);
    FindIterShape(line, 0, TagPat);
  }

  /** `WireTag.find_all(grid)`: every match of every row of `grid.lines`,
      top to bottom and left to right, one tag each. `wires` stands for
      `Wire.is_wire_character`. */
  method FindAll(g: Grid, wires: WireTable) returns (out: seq<WireTag>)
    requires g.Valid()
    ensures out == AllTags(g.Lines(), g.height, wires)
  {
    var rows := g.Lines();
    out := [];
    var y := 0;
    while y < |rows|
      invariant 0 <= y <= |rows|
      invariant out == AllTags(rows, y, wires)
    {
      out := AppendRow(g, out, rows[y], y, wires);
      y := y + 1;
    }
  }

  /** The loop over one row's matches: one tag per match, in order. */
  method AppendRow(g: Grid, out0: seq<WireTag>, line: string, y: int, wires: WireTable) returns (out: seq<WireTag>)
    requires g.Valid() && 0 <= y < g.height && line == g.Lines()[y]
    ensures out == out0 + RowTags(line, y, wires)
  {
    TagAdvances(line);
    var spans := FindIter(line, 0, TagPat);
    FindIterShape(line, 0, TagPat);
    ghost var want := RowTags(line, y, wires);
    out := out0;
    var k := 0;
    while k < |spans|
      invariant 0 <= k <= |spans| == |want|
      invariant out == out0 + want[..k]
    {
      var t := MakeTag(g, line, y, spans[k], wires);
      assert t == want[k];
      PrefixSnoc(out0, want, k);
      out := out + [t];
      k := k + 1;
    }
    assert want[..k] == want;
  }

  /** One iteration of the loop over a row's matches: the tag of match s. */
  method MakeTag(g: Grid, line: string, y: int, s: Span, wires: WireTable) returns (t: WireTag)
    requires g.Valid() && 0 <= y < g.height && line == g.Lines()[y]
    requires s.start + 2 <= s.end <= |line|
    ensures t == TagOf(line, y, s, wires)
  {
    var pointDir, name := Right, line[s.start + 1..s.end - 1];
    if line[s.start] == '<' {
      pointDir := Left;
    }
    var leftCh := g.Get(Point(s.start - 1, y));
    GetLeftOf(g, y, s.start);
    if leftCh in wires.startDirs {
      t := WireTag(name, Point(s.start, y), Left, pointDir, Point(s.start - 1, y));
    } else {
      t := WireTag(name, Point(s.end - 1, y), Right, pointDir, Point(s.end, y));
    }
  }

  /** `grid.get(left_pos - 1)` is the character left of the column in the
      row's line, a space at the left edge. */
  lemma GetLeftOf(g: Grid, y: int, x: nat)
    requires g.Valid() && 0 <= y < g.height
    ensures g.Get(Point(x - 1, y)) == LeftOf(g.Lines()[y], x)
  {
  }

  /** The example in the source: in `-------=foo[0:9]>` the tag is named
      `foo[0:9]`, points right, and attaches on the left to the wire. */
  lemma FooExample(wires: WireTable)
    requires '-' in wires.startDirs
    ensures RowTags("-------=foo[0:9]>", 0, wires) == [WireTag("foo[0:9]", Point(7, 0), Left, Right, Point(6, 0))]
  {
    var line := "-------=foo[0:9]>";
    TagAdvances(line);
    FooSpans();
    assert line[6] == '-' && line[8..16] == "foo[0:9]";
  }

  /** At column 7 of the example row, `=foo[0:9]>` matches. */
  lemma FooMatch()
    ensures TagEnd("-------=foo[0:9]>", 7) == Some(17)
  {
    var line := "-------=foo[0:9]>";
    var q := c => NameChar(c) && c != '>';
    assert forall k :: 8 <= k < 16 ==> q(line[k]);
    RunEndStops(line, 8, 16, q);
  }

  /** The one match of the example row is its last ten columns. */
  lemma FooSpans()
    ensures Advances(TagPat, "-------=foo[0:9]>")
    ensures FindIter("-------=foo[0:9]>", 0, TagPat) == [Span(7, 17)]
  {
    var line := "-------=foo[0:9]>";
    TagAdvances(line);
    FooMatch();
    assert FindIter(line, 7, TagPat) == [Span(7, 17)] + FindIter(line, 17, TagPat);
    forall k | 0 <= k < 7 ensures TagPat(line, k) == None {
      assert line[k] == '-';
    }
    FindIterSkips(line, 0, 7, TagPat);
  }
}
