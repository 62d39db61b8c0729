/** Text annotations (schemascii/annotation.py): `[text]` on a row is
    rendered verbatim at the column of its `[`. */
module Annotations {
  import opened Base
  import opened Geometry
  import opened Grids
  import opened Scanner

  /** `ANNOTATION_RE`, `\[([^\]]+)\]`: the end of its match at i. */
  function AnnotationEnd(line: string, i: nat): Option<nat>
  {
    Bracketed(line, i, '[', c => true, ']')
  }

  const AnnotationPat: Pattern := (line, i) => AnnotationEnd(line, i)

  lemma AnnotationAdvances(line: string)
    ensures Advances(AnnotationPat, line)
  {
  }

  /** `Annotation(position, content)`. */
  datatype Annotation = Annotation(position: Point, content: string)

  /** The annotation a match `[s.start, s.end)` of row `row` makes: the
      match start and the first group. */
  function AnnotationOf(line: string, row: int, s: Span): Annotation
    requires s.start + 2 <= s.end <= |line|
  {
    Annotation(Point(s.start, row), line[s.start + 1..s.end - 1])
  }

  /** The annotations of one row, one per match, in match order. */
  function RowAnnotations(line: string, row: int): seq<Annotation>
  {
    AnnotationAdvances(line);
    var spans := FindIter(line, 0, AnnotationPat);
    FindIterShape(line, 0, AnnotationPat);
    seq(|spans|, k requires 0 <= k < |spans| => AnnotationOf(line, row, spans[k]))
  }

  /** The annotations of the first n rows, row by row. */
  function AllAnnotations(rows: seq<string>, n: nat): seq<Annotation>
    requires n <= |rows|
  {
    if n == 0 then [] else AllAnnotations(rows, n - 1) + RowAnnotations(rows[n - 1], n - 1)
  }

  /** What an annotation says about the row it comes from: a `[` at its
      position, then its content, non-empty and without `]`, then `]`. */
  predicate AnnotationShape(line: string, row: int, a: Annotation)
  {
    var x := a.position.x;
    && a.position.y == row && 0 <= x
    && x + |a.content| + 2 <= |line|
    && |a.content| > 0
    && line[x] == '[' && line[x + 1..x + 1 + |a.content|] == a.content && line[x + 1 + |a.content|] == ']'
    && forall j :: 0 <= j < |a.content| ==> a.content[j] != ']'
  }

  /** Every annotation of a row has the shape of a match. */
  lemma RowAnnotationsShape(line: string, row: int, k: int)
    requires 0 <= k < |RowAnnotations(line, row)|
    ensures AnnotationShape(line, row, RowAnnotations(line, row)[k])
  {
    AnnotationAdvances(line);
    var spans := FindIter(line, 0, AnnotationPat);
    FindIterShape(line, 0, AnnotationPat);
    var a := RowAnnotations(line, row)[k];
    assert a == AnnotationOf(line, row, spans[k]);
  }

  /** The annotations of a row are left to right and do not overlap: each
      one's closing `]` comes before the next one's `[`. */
  lemma RowAnnotationsOrdered(line: string, row: int, j: int, k: int)
    requires 0 <= j < k < |RowAnnotations(line, row)|
    ensures var a, b := RowAnnotations(line, row)[j], RowAnnotations(line, row)[k];
      a.position.x + |a.content| + 2 <= b.position.x
  {
    AnnotationAdvances(line);
    FindIterShape(line, 0, AnnotationPat);
  }

  /** The columns of an annotation's match, brackets included, hold c. */
  predicate Covers(a: Annotation, c: int)
  {
    a.position.x <= c < a.position.x + |a.content| + 2
  }

  /** No annotation is missed: wherever `[text]` could start, an annotation
      found covers that column. */
  lemma RowAnnotationsCover(line: string, row: int, c: nat)
    requires c < |line| && AnnotationEnd(line, c).Some?
    ensures exists k :: 0 <= k < |RowAnnotations(line, row)| && Covers(RowAnnotations(line, row)[k], c)
  {
    AnnotationAdvances(line);
    FindIterShape(line, 0, AnnotationPat);
    FindIterCovers(line, 0, AnnotationPat, c);
    var spans := FindIter(line, 0, AnnotationPat);
    var k :| 0 <= k < |spans| && spans[k].start <= c < spans[k].end;
    assert RowAnnotations(line, row)[k] == AnnotationOf(line, row, spans[k]);
  }

  /** `Annotation.find_all(grid)`: every match of every row of `grid.lines`,
      top to bottom and left to right. The grid is only read. */
  method FindAll(g: Grid) returns (out: seq<Annotation>)
    requires g.Valid()
    ensures out == AllAnnotations(g.Lines(), g.height)
  {
    var rows := g.Lines();
    out := [];
    var y := 0;
    while y < |rows|
      invariant 0 <= y <= |rows|
      invariant out == AllAnnotations(rows, y)
    {
      out := AppendRow(out, rows[y], y);
      y := y + 1;
    }
  }

  /** The loop over one row's matches. */
  method AppendRow(out0: seq<Annotation>, line: string, y: int) returns (out: seq<Annotation>)
    ensures out == out0 + RowAnnotations(line, y)
  {
    AnnotationAdvances(line);
    var spans := FindIter(line, 0, AnnotationPat);
    FindIterShape(line, 0, AnnotationPat);
    ghost var want := RowAnnotations(line, y);
    out := out0;
    var k := 0;
    while k < |spans|
      invariant 0 <= k <= |spans| == |want|
      invariant out == out0 + want[..k]
    {
      var x := spans[k].start;
      var text := line[x + 1..spans[k].end - 1];
      out := out + [Annotation(Point(x, y), text)];
      assert want[..k + 1] == want[..k] + [want[k]];
      k := k + 1;
    }
    assert want[..k] == want;
  }

  /** Every annotation found in the grid has the shape of a match on its
      row, and the rows come top to bottom. */
  lemma {:induction false} AllAnnotationsShape(rows: seq<string>, n: nat, k: int)
    requires n <= |rows| && 0 <= k < |AllAnnotations(rows, n)|
    ensures var a := AllAnnotations(rows, n)[k];
      0 <= a.position.y < n && AnnotationShape(rows[a.position.y], a.position.y, a)
    decreases n
  {
    var front := AllAnnotations(rows, n - 1);
    if k < |front| {
      AllAnnotationsShape(rows, n - 1, k);
    } else {
      RowAnnotationsShape(rows[n - 1], n - 1, k - |front|);
    }
  }
}
