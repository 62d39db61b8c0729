/** `findsmall` of schemascii/findcomponents.py: a small component is its
    designator written on one line, `R1`, and a designator followed by
    `:` and text, `C2:10uF`, carries bill-of-materials data instead. The
    pattern `([A-Z]+)(\d+)(:[^\s]+)?` is written out as a scanner. */
module SmallComponents {
  import opened Base
  import opened Text
  import opened Geometry
  import opened Grids
  import opened Scanner

  /** One match: the span `[start, end)`, the letters, the digits and
      their value, and the text after the `:` when the third group matched. */
  datatype SmallMatch = SmallMatch(start: nat, end: nat, typ: string, digits: string, id: nat, bom: Option<string>)

  predicate NotSpace(c: char) { !IsSpace(c) }

  predicate NoSpace(s: string) { forall k :: 0 <= k < |s| ==> NotSpace(s[k]) }

  /** The pattern matched at i, when it matches there. The letter group
      is followed by a digit or nothing matches: giving letters back
      cannot help, since a shorter letter group is followed by a letter. */
  function SmallAt(line: string, i: nat): Option<SmallMatch>
  {
    if i >= |line| || !IsUpper(line[i]) then None
    else
      var a := RunEnd(line, i, IsUpper);
      if a == |line| || !IsDigit(line[a]) then None
      else
        var b := RunEnd(line, a, IsDigit);
        RunDigits(line, a);
        var id := DigitsValue(line[a..b]);
        if b + 1 < |line| && line[b] == ':' && NotSpace(line[b + 1]) then
          var c := RunEnd(line, b + 1, NotSpace);
          Some(SmallMatch(i, c, line[i..a], line[a..b], id, Some(line[b + 1..c])))
        else Some(SmallMatch(i, b, line[i..a], line[a..b], id, None))
  }

  /** A run of digits is all digits. */
  lemma RunDigits(line: string, a: nat)
    requires a <= |line|
    ensures AllDigits(line[a..RunEnd(line, a, IsDigit)])
  {
    var b := RunEnd(line, a, IsDigit);
    forall k | 0 <= k < b - a ensures IsDigit(line[a..b][k]) { assert line[a..b][k] == line[a + k]; }
  }

  /** The shape of a match: letters then digits, each group as long as it
      can be; with a tail, a `:` and non-space text up to a space or the
      end of the line; without one, no `:` and non-space character follow. */
  ghost predicate WellFormed(line: string, m: SmallMatch)
  {
    && Groups(line, m)
    && (m.bom.None? ==> Plain(line, m))
    && (m.bom.Some? ==> Tailed(line, m))
  }

  /** The letter and digit groups, the digits as many as there are. */
  ghost predicate Groups(line: string, m: SmallMatch)
  {
    var d := m.start + |m.typ| + |m.digits|;
    && m.start < m.end <= |line|
    && |m.typ| > 0 && (forall k :: 0 <= k < |m.typ| ==> IsUpper(m.typ[k]))
    && |m.digits| > 0 && AllDigits(m.digits) && m.id == DigitsValue(m.digits)
    && (d < |line| ==> !IsDigit(line[d]))
  }

  /** A match without a tail: no `:` and non-space character follow it. */
  ghost predicate Plain(line: string, m: SmallMatch)
    requires m.start <= m.end <= |line|
  {
    var d := m.start + |m.typ| + |m.digits|;
    && line[m.start..m.end] == m.typ + m.digits
    && !(d + 1 < |line| && line[d] == ':' && NotSpace(line[d + 1]))
  }

  /** A match with a tail: `:` and non-space text up to a space or the end. */
  ghost predicate Tailed(line: string, m: SmallMatch)
    requires m.start <= m.end <= |line| && m.bom.Some?
  {
    && line[m.start..m.end] == m.typ + m.digits + ":" + m.bom.value
    && |m.bom.value| > 0 && NoSpace(m.bom.value)
    && (m.end == |line| || IsSpace(line[m.end]))
  }

  /** The pattern matches at i exactly where a capital letter starts a run
      of capitals followed by a digit, and the match has the shape above. */
  lemma SmallAtShape(line: string, i: nat)
    ensures SmallAt(line, i).Some? <==>
      i < |line| && IsUpper(line[i]) && RunEnd(line, i, IsUpper) < |line| && IsDigit(line[RunEnd(line, i, IsUpper)])
    ensures SmallAt(line, i).Some? ==> WellFormed(line, SmallAt(line, i).value) && SmallAt(line, i).value.start == i
  {
    if SmallAt(line, i).Some? {
      SmallAtWellFormed(line, i);
    }
  }

  lemma SmallAtWellFormed(line: string, i: nat)
    requires SmallAt(line, i).Some?
    ensures WellFormed(line, SmallAt(line, i).value)
  {
    var m := SmallAt(line, i).value;
    var a := RunEnd(line, i, IsUpper);
    var b := RunEnd(line, a, IsDigit);
    SmallAtGroups(line, i);
    if b + 1 < |line| && line[b] == ':' && NotSpace(line[b + 1]) {
      TailShape(line, i, a, b);
      assert Tailed(line, m);
    } else {
      assert line[i..b] == line[i..a] + line[a..b];
      assert Plain(line, m);
    }
  }

  lemma SmallAtGroups(line: string, i: nat)
    requires SmallAt(line, i).Some?
    ensures Groups(line, SmallAt(line, i).value)
  {
    var m := SmallAt(line, i).value;
    var a := RunEnd(line, i, IsUpper);
    var b := RunEnd(line, a, IsDigit);
    assert m.typ == line[i..a] && m.digits == line[a..b];
    RunDigits(line, a);
  }

  lemma TailShape(line: string, i: nat, a: nat, b: nat)
    requires i < a <= b && b + 1 < |line|
    requires line[b] == ':' && NotSpace(line[b + 1])
    ensures var c := RunEnd(line, b + 1, NotSpace);
      && line[i..c] == line[i..a] + line[a..b] + ":" + line[b + 1..c]
      && |line[b + 1..c]| > 0 && NoSpace(line[b + 1..c])
      && (c == |line| || IsSpace(line[c]))
  {
    var c := RunEnd(line, b + 1, NotSpace);
    assert line[i..c] == line[i..a] + line[a..b] + [line[b]] + line[b + 1..c];
  }

  /** `smallcompbom` as a pattern: where its match at i ends. */
  function SmallEnd(line: string, i: nat): (r: Option<nat>)
  {
    match SmallAt(line, i)
    case None => None
    case Some(m) => Some(m.end)
  }

  const SmallPat: Pattern := (line, i) => SmallEnd(line, i)

  lemma SmallAdvances(line: string)
    ensures Advances(SmallPat, line)
  {
    forall i: nat | i <= |line| && SmallPat(line, i).Some?
      ensures i < SmallPat(line, i).value <= |line|
    {
      SmallAtShape(line, i);
    }
  }

  /** `smallcompbom.finditer(line)`, each match with its groups. */
  function SmallMatches(line: string): seq<SmallMatch>
  {
    SmallAdvances(line);
    var spans := FindIter(line, 0, SmallPat);
    FindIterShape(line, 0, SmallPat);
    seq(|spans|, k requires 0 <= k < |spans| => SmallAt(line, spans[k].start).value)
  }

  /** The matches of a line are well formed and come left to right
      without overlapping, and every column where the pattern matches lies
      inside one of them. */
  lemma SmallMatchesShape(line: string)
    ensures forall k :: 0 <= k < |SmallMatches(line)| ==>
      WellFormed(line, SmallMatches(line)[k]) && SmallAt(line, SmallMatches(line)[k].start) == Some(SmallMatches(line)[k])
    ensures forall j, k :: 0 <= j < k < |SmallMatches(line)| ==> SmallMatches(line)[j].end <= SmallMatches(line)[k].start
    ensures forall c: nat :: c < |line| && SmallAt(line, c).Some? ==>
      exists k :: 0 <= k < |SmallMatches(line)| && SmallMatches(line)[k].start <= c < SmallMatches(line)[k].end
  {
    SmallAdvances(line);
    var spans := FindIter(line, 0, SmallPat);
    FindIterShape(line, 0, SmallPat);
    var ms := SmallMatches(line);
    forall k | 0 <= k < |ms|
      ensures WellFormed(line, ms[k]) && ms[k].start == spans[k].start && ms[k].end == spans[k].end
      ensures SmallAt(line, ms[k].start) == Some(ms[k])
    {
      SmallAtShape(line, spans[k].start);
    }
    forall c: nat | c < |line| && SmallAt(line, c).Some?
      ensures exists k :: 0 <= k < |ms| && ms[k].start <= c < ms[k].end
    {
      FindIterCovers(line, 0, SmallPat, c);
      var k :| 0 <= k < |spans| && spans[k].start <= c < spans[k].end;
      assert ms[k].start <= c < ms[k].end;
    }
  }

  /** What a match yields: with a tail, bill-of-materials data without the
      `:`; without one, a component box from (start, row) to (end, row),
      end exclusive. */
  function Yield(m: SmallMatch, row: int, acc: (seq<Cbox>, seq<BOMData>)): (seq<Cbox>, seq<BOMData>)
  {
    if m.bom.Some? then (acc.0, acc.1 + [BOMData(m.typ, m.id, m.bom.value)])
    else (acc.0 + [Cbox(Point(m.start, row), Point(m.end, row), m.typ, m.id)], acc.1)
  }

  /** What the first n matches of a row yield after `acc`, in order. */
  function RowSmall(ms: seq<SmallMatch>, n: nat, row: int, acc: (seq<Cbox>, seq<BOMData>)): (seq<Cbox>, seq<BOMData>)
    requires n <= |ms|
  {
    if n == 0 then acc else Yield(ms[n - 1], row, RowSmall(ms, n - 1, row, acc))
  }

  /** A way of listing the matches of a line. */
  type Lexer = string -> seq<SmallMatch>

  /** What the first n rows yield, top to bottom, when `lex` lists the
      matches of each. */
  function AllSmallBy(lex: Lexer, rows: seq<string>, n: nat): (seq<Cbox>, seq<BOMData>)
    requires n <= |rows|
  {
    if n == 0 then ([], [])
    else
      var ms := lex(rows[n - 1]);
      RowSmall(ms, |ms|, n - 1, AllSmallBy(lex, rows, n - 1))
  }

  /** What `findsmall` finds on the first n rows. */
  function AllSmall(rows: seq<string>, n: nat): (seq<Cbox>, seq<BOMData>)
    requires n <= |rows|
  {
    AllSmallBy(SmallMatches, rows, n)
  }

  /** Where the pattern matches, column by column. */
  type Finder = nat -> Option<SmallMatch>

  /** The pattern's matches on one line. */
  function FinderOf(line: string): Finder
  {
    (x: nat) => SmallAt(line, x)
  }

  /** The component box that the match at column x of the row yields. */
  ghost predicate BoxAt(at: Finder, row: int, x: nat, c: Cbox)
  {
    var m := at(x);
    m.Some? && m.value.bom.None? && c == Cbox(Point(x, row), Point(m.value.end, row), m.value.typ, m.value.id)
  }

  /** The bill-of-materials data that the match at column x yields. */
  ghost predicate DataAt(at: Finder, x: nat, b: BOMData)
  {
    var m := at(x);
    m.Some? && m.value.bom.Some? && b == BOMData(m.value.typ, m.value.id, m.value.bom.value)
  }

  /** The boxes from index `from` on are yielded by matches on the row. */
  ghost predicate BoxesOf(at: Finder, row: int, cs: seq<Cbox>, from: nat)
  {
    forall j :: from <= j < |cs| ==> cs[j].p1.x >= 0 && BoxAt(at, row, cs[j].p1.x, cs[j])
  }

  /** The data from index `from` on are yielded by matches on the row. */
  ghost predicate DataOf(at: Finder, bs: seq<BOMData>, from: nat)
  {
    forall j :: from <= j < |bs| ==> Matched(at, bs[j])
  }

  /** The data was matched somewhere on the row. */
  ghost predicate Matched(at: Finder, b: BOMData)
  {
    exists x: nat :: DataAt(at, x, b)
  }

  /** Each of the first n matches adds exactly one entry after what was
      there before: a box for a match without a tail, data for one with. */
  lemma {:induction false} RowSmallShape(at: Finder, ms: seq<SmallMatch>, n: nat, row: int, acc: (seq<Cbox>, seq<BOMData>))
    requires n <= |ms|
    requires forall k :: 0 <= k < |ms| ==> at(ms[k].start) == Some(ms[k])
    ensures |RowSmall(ms, n, row, acc).0| + |RowSmall(ms, n, row, acc).1| == |acc.0| + |acc.1| + n
    ensures acc.0 <= RowSmall(ms, n, row, acc).0 && acc.1 <= RowSmall(ms, n, row, acc).1
    ensures BoxesOf(at, row, RowSmall(ms, n, row, acc).0, |acc.0|)
    ensures DataOf(at, RowSmall(ms, n, row, acc).1, |acc.1|)
  {
    if n > 0 {
      RowSmallShape(at, ms, n - 1, row, acc);
      var m := ms[n - 1];
      var prev := RowSmall(ms, n - 1, row, acc);
      if m.bom.Some? {
        var b := BOMData(m.typ, m.id, m.bom.value);
        assert DataAt(at, m.start, b);
        DataSnoc(at, prev.1, b, |acc.1|);
      } else {
        var c := Cbox(Point(m.start, row), Point(m.end, row), m.typ, m.id);
        assert BoxAt(at, row, m.start, c);
        BoxesSnoc(at, row, prev.0, c, |acc.0|);
      }
    }
  }

  lemma BoxesSnoc(at: Finder, row: int, cs: seq<Cbox>, c: Cbox, from: nat)
    requires BoxesOf(at, row, cs, from) && c.p1.x >= 0 && BoxAt(at, row, c.p1.x, c)
    ensures BoxesOf(at, row, cs + [c], from)
  {
  }

  lemma DataSnoc(at: Finder, bs: seq<BOMData>, b: BOMData, from: nat)
    requires DataOf(at, bs, from) && Matched(at, b)
    ensures DataOf(at, bs + [b], from)
  {
    forall j | from <= j < |bs + [b]|
      ensures Matched(at, (bs + [b])[j])
    {
      if j < |bs| {
        assert (bs + [b])[j] == bs[j];
      }
    }
  }

  /** How many entries `lex` lists on the first n rows. */
  function MatchCount(lex: Lexer, rows: seq<string>, n: nat): nat
    requires n <= |rows|
  {
    if n == 0 then 0 else MatchCount(lex, rows, n - 1) + |lex(rows[n - 1])|
  }

  /** Every box lies on one of the first n rows and is what `find` says
      matched at its column there. */
  ghost predicate BoxesIn(find: string -> Finder, rows: seq<string>, n: nat, cs: seq<Cbox>)
    requires n <= |rows|
  {
    forall j :: 0 <= j < |cs| ==>
      0 <= cs[j].p1.y < n && cs[j].p1.x >= 0 && BoxAt(find(rows[cs[j].p1.y]), cs[j].p1.y, cs[j].p1.x, cs[j])
  }

  /** All data was matched on one of the first n rows. */
  ghost predicate DataIn(find: string -> Finder, rows: seq<string>, n: nat, bs: seq<BOMData>)
    requires n <= |rows|
  {
    forall j :: 0 <= j < |bs| ==> exists y :: 0 <= y < n && Matched(find(rows[y]), bs[j])
  }

  /** `lex` lists matches that `find` finds at their own columns. */
  ghost predicate Agree(lex: Lexer, find: string -> Finder)
  {
    forall line, k :: 0 <= k < |lex(line)| ==> find(line)(lex(line)[k].start) == Some(lex(line)[k])
  }

  /** Every match of every row yields one entry. */
  lemma {:induction false} AllSmallCountBy(lex: Lexer, rows: seq<string>, n: nat)
    requires n <= |rows|
    ensures |AllSmallBy(lex, rows, n).0| + |AllSmallBy(lex, rows, n).1| == MatchCount(lex, rows, n)
  {
    if n > 0 {
      AllSmallCountBy(lex, rows, n - 1);
      var ms := lex(rows[n - 1]);
      RowSmallCount(ms, |ms|, n - 1, AllSmallBy(lex, rows, n - 1));
    }
  }

  lemma {:induction false} RowSmallCount(ms: seq<SmallMatch>, n: nat, row: int, acc: (seq<Cbox>, seq<BOMData>))
    requires n <= |ms|
    ensures |RowSmall(ms, n, row, acc).0| + |RowSmall(ms, n, row, acc).1| == |acc.0| + |acc.1| + n
  {
    if n > 0 {
      RowSmallCount(ms, n - 1, row, acc);
    }
  }

  lemma {:induction false} AllSmallBoxesBy(lex: Lexer, find: string -> Finder, rows: seq<string>, n: nat)
    requires n <= |rows| && Agree(lex, find)
    ensures BoxesIn(find, rows, n, AllSmallBy(lex, rows, n).0)
  {
    if n > 0 {
      AllSmallBoxesBy(lex, find, rows, n - 1);
      var prev := AllSmallBy(lex, rows, n - 1);
      var ms := lex(rows[n - 1]);
      RowSmallShape(find(rows[n - 1]), ms, |ms|, n - 1, prev);
      BoxesGrow(find, rows, n, prev.0, RowSmall(ms, |ms|, n - 1, prev).0);
    }
  }

  lemma {:induction false} AllSmallDataBy(lex: Lexer, find: string -> Finder, rows: seq<string>, n: nat)
    requires n <= |rows| && Agree(lex, find)
    ensures DataIn(find, rows, n, AllSmallBy(lex, rows, n).1)
  {
    if n > 0 {
      AllSmallDataBy(lex, find, rows, n - 1);
      var prev := AllSmallBy(lex, rows, n - 1);
      var ms := lex(rows[n - 1]);
      RowSmallShape(find(rows[n - 1]), ms, |ms|, n - 1, prev);
      DataGrow(find, rows, n, prev.1, RowSmall(ms, |ms|, n - 1, prev).1);
    }
  }

  lemma BoxesGrow(find: string -> Finder, rows: seq<string>, n: nat, prev: seq<Cbox>, cs: seq<Cbox>)
    requires 0 < n <= |rows|
    requires BoxesIn(find, rows, n - 1, prev) && prev <= cs && BoxesOf(find(rows[n - 1]), n - 1, cs, |prev|)
    ensures BoxesIn(find, rows, n, cs)
  {
    forall j | 0 <= j < |cs|
      ensures 0 <= cs[j].p1.y < n && cs[j].p1.x >= 0 && BoxAt(find(rows[cs[j].p1.y]), cs[j].p1.y, cs[j].p1.x, cs[j])
    {
      if j < |prev| {
        assert cs[j] == prev[j];
      } else {
        assert cs[j].p1.y == n - 1;
      }
    }
  }

  lemma DataGrow(find: string -> Finder, rows: seq<string>, n: nat, prev: seq<BOMData>, bs: seq<BOMData>)
    requires 0 < n <= |rows|
    requires DataIn(find, rows, n - 1, prev) && prev <= bs && DataOf(find(rows[n - 1]), bs, |prev|)
    ensures DataIn(find, rows, n, bs)
  {
    forall j | 0 <= j < |bs|
      ensures exists y :: 0 <= y < n && Matched(find(rows[y]), bs[j])
    {
      if j < |prev| {
        assert bs[j] == prev[j];
      } else {
        assert Matched(find(rows[n - 1]), bs[j]);
      }
    }
  }

  /** The scanner's matches are found at their own columns. */
  lemma ScannerAgrees()
    ensures Agree(SmallMatches, FinderOf)
  {
    forall line, k | 0 <= k < |SmallMatches(line)|
      ensures FinderOf(line)(SmallMatches(line)[k].start) == Some(SmallMatches(line)[k])
    {
      SmallMatchesShape(line);
    }
  }

  /** `findsmall` yields one entry per match of the pattern on the rows:
      every component box is what the pattern matched, without a tail, at
      the box's first column of the box's row, ending at the match's end;
      every piece of data is what it matched with a tail on some row. */
  lemma AllSmallShape(rows: seq<string>, n: nat)
    requires n <= |rows|
    ensures |AllSmall(rows, n).0| + |AllSmall(rows, n).1| == MatchCount(SmallMatches, rows, n)
    ensures BoxesIn(FinderOf, rows, n, AllSmall(rows, n).0)
    ensures DataIn(FinderOf, rows, n, AllSmall(rows, n).1)
  {
    ScannerAgrees();
    AllSmallCountBy(SmallMatches, rows, n);
    AllSmallBoxesBy(SmallMatches, FinderOf, rows, n);
    AllSmallDataBy(SmallMatches, FinderOf, rows, n);
  }

  /** `findsmall(grid)`: every match of every row of `grid.lines`, in
      order, each sorted into the component or the data list. */
  method FindSmall(g: Grid) returns (components: seq<Cbox>, boms: seq<BOMData>)
    requires g.Valid()
    ensures (components, boms) == AllSmall(g.Lines(), g.height)
  {
    var rows := g.Lines();
    components, boms := [], [];
    for i := 0 to |rows|
      invariant (components, boms) == AllSmallBy(SmallMatches, rows, i)
    {
      var ms := SmallMatches(rows[i]);
      ghost var acc := (components, boms);
      for k := 0 to |ms|
        invariant (components, boms) == RowSmall(ms, k, i, acc)
      {
        var m := ms[k];
        if m.bom.Some? {
          boms := boms + [BOMData(m.typ, m.id, m.bom.value)];
        } else {
          components := components + [Cbox(Point(m.start, i), Point(m.end, i), m.typ, m.id)];
        }
      }
    }
  }
}
