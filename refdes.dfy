/** Reference designators (schemascii/refdes.py): the letter, number and
    suffix that name a component on the drawing, such as `R1` or `U3A`. The
    pattern `([A-Z_]+)(\d*)([A-Z_\d]*)` is written out as a scanner. */
module Refdes {
  import opened Base
  import opened Text
  import opened Geometry
  import opened Grids
  import opened Scanner

  /** A character of the letter group. */
  predicate IsLetterChar(c: char) { IsUpper(c) || c == '_' }

  /** A character of the suffix group: a letter character or a digit. */
  predicate IsWordChar(c: char) { IsLetterChar(c) || IsDigit(c) }

  /** One match: the span `[start, end)` and the three groups. */
  datatype Match = Match(start: nat, end: nat, letter: string, digits: string, suffix: string)

  /** The pattern matched at i, when it matches there. Each group is greedy,
      and since the suffix group accepts every character of the other two,
      no backtracking is ever needed. */
  function MatchAt(line: string, i: nat): (r: Option<Match>)
    ensures r.Some? <==> i < |line| && IsLetterChar(line[i])
  {
    if i >= |line| || !IsLetterChar(line[i]) then None
    else
      var a := RunEnd(line, i, IsLetterChar);
      var b := RunEnd(line, a, IsDigit);
      var c := RunEnd(line, b, IsWordChar);
      Some(Match(i, c, line[i..a], line[a..b], line[b..c]))
  }

  /** The shape every match has in its line. */
  ghost predicate WellFormed(line: string, m: Match)
  {
    && m.start < m.end <= |line|
    && line[m.start..m.end] == m.letter + m.digits + m.suffix
    && |m.letter| > 0 && (forall k :: 0 <= k < |m.letter| ==> IsLetterChar(m.letter[k]))
    && AllDigits(m.digits)
    && (forall k :: 0 <= k < |m.suffix| ==> IsWordChar(m.suffix[k]))
    && (m.end == |line| || !IsWordChar(line[m.end]))
  }

  lemma MatchAtWellFormed(line: string, i: nat)
    requires MatchAt(line, i).Some?
    ensures WellFormed(line, MatchAt(line, i).value) && MatchAt(line, i).value.start == i
  {
    var m := MatchAt(line, i).value;
    var a := RunEnd(line, i, IsLetterChar);
    var b := RunEnd(line, a, IsDigit);
    assert line[m.start..m.end] == line[i..a] + line[a..b] + line[b..m.end];
    assert m.end == |line| || !IsWordChar(line[m.end]);
  }

  /** `REFDES_PAT` as a pattern: where its match at i ends. */
  function RefdesEnd(line: string, i: nat): (r: Option<nat>)
    ensures r.Some? <==> MatchAt(line, i).Some?
    ensures r.Some? ==> r.value == MatchAt(line, i).value.end
  {
    match MatchAt(line, i)
    case None => None
    case Some(m) => Some(m.end)
  }

  const RefdesPat: Pattern := (line, i) => RefdesEnd(line, i)

  lemma RefdesAdvances(line: string)
    ensures Advances(RefdesPat, line)
  {
    forall i: nat | i <= |line| && RefdesPat(line, i).Some?
      ensures i < RefdesPat(line, i).value <= |line|
    {
      MatchAtWellFormed(line, i);
    }
  }

  /** `REFDES_PAT.finditer(line)`, each match with its groups. */
  function Matches(line: string): seq<Match>
  {
    RefdesAdvances(line);
    var spans := FindIter(line, 0, RefdesPat);
    FindIterShape(line, 0, RefdesPat);
    seq(|spans|, k requires 0 <= k < |spans| => MatchAt(line, spans[k].start).value)
  }

  /** The matches of a line are well formed and come left to right
      without overlapping. */
  lemma MatchesOrdered(line: string)
    ensures forall k :: 0 <= k < |Matches(line)| ==> WellFormed(line, Matches(line)[k])
    ensures forall j, k :: 0 <= j < k < |Matches(line)| ==> Matches(line)[j].end <= Matches(line)[k].start
  {
    RefdesAdvances(line);
    var spans := FindIter(line, 0, RefdesPat);
    FindIterShape(line, 0, RefdesPat);
    var ms := Matches(line);
    forall k | 0 <= k < |ms|
      ensures WellFormed(line, ms[k]) && ms[k].start == spans[k].start && ms[k].end == spans[k].end
    {
      MatchAtWellFormed(line, spans[k].start);
    }
  }

  /** No match starts in the middle of a run of letter characters. */
  lemma MatchStartsRun(line: string, k: int)
    requires 0 <= k < |Matches(line)|
    ensures Matches(line)[k].start == 0 ||
      (Matches(line)[k].start <= |line| && !IsLetterChar(line[Matches(line)[k].start - 1]))
  {
    var ms := Matches(line);
    MatchesOrdered(line);
    var m := ms[k];
    assert WellFormed(line, m);
    if m.start > 0 && IsLetterChar(line[m.start - 1]) {
      var c := m.start - 1;
      MatchesCover(line, c);
      var j :| 0 <= j < |ms| && ms[j].start <= c < ms[j].end;
      NotAdjacent(line, ms[j], m);
    }
  }

  /** A match never ends where another begins: it stops before a letter. */
  lemma NotAdjacent(line: string, a: Match, b: Match)
    requires WellFormed(line, a) && WellFormed(line, b)
    ensures a.end != b.start
  {
    assert line[b.start] == line[b.start..b.end][0] == (b.letter + b.digits + b.suffix)[0] == b.letter[0];
  }

  /** The matches of a line are well formed, come left to right without
      overlapping, and none starts in the middle of a run of letter
      characters. */
  lemma MatchesShape(line: string)
    ensures forall k :: 0 <= k < |Matches(line)| ==>
      WellFormed(line, Matches(line)[k]) && (Matches(line)[k].start == 0 || !IsLetterChar(line[Matches(line)[k].start - 1]))
    ensures forall j, k :: 0 <= j < k < |Matches(line)| ==> Matches(line)[j].end <= Matches(line)[k].start
  {
    MatchesOrdered(line);
    forall k | 0 <= k < |Matches(line)|
      ensures Matches(line)[k].start == 0 || !IsLetterChar(line[Matches(line)[k].start - 1])
    {
      MatchStartsRun(line, k);
    }
  }

  /** Every letter character lies inside some match. */
  lemma MatchesCover(line: string, c: nat)
    requires c < |line| && IsLetterChar(line[c])
    ensures exists k :: 0 <= k < |Matches(line)| && Matches(line)[k].start <= c < Matches(line)[k].end
  {
    RefdesAdvances(line);
    var spans := FindIter(line, 0, RefdesPat);
    FindIterShape(line, 0, RefdesPat);
    assert RefdesPat(line, c).Some? by { assert MatchAt(line, c).Some?; }
    FindIterCovers(line, 0, RefdesPat, c);
    var k :| 0 <= k < |spans| && spans[k].start <= c < spans[k].end;
    var s := spans[k];
    assert RefdesPat(line, s.start) == Some(s.end);
    var m := MatchAt(line, s.start).value;
    MatchAtWellFormed(line, s.start);
    assert Matches(line)[k] == m && m.start == s.start && m.end == s.end;
  }

  /** `BAT3V3` splits into the letters BAT, the number 3 and the suffix V3. */
  lemma Bat3V3()
    ensures Matches("BAT3V3") == [Match(0, 6, "BAT", "3", "V3")]
  {
    var line := "BAT3V3";
    assert line[3] == '3' && line[4] == 'V';
    assert RunEnd(line, 3, IsLetterChar) == 3;
    assert RunEnd(line, 0, IsLetterChar) == 3;
    assert RunEnd(line, 4, IsDigit) == 4;
    assert RunEnd(line, 3, IsDigit) == 4;
    assert RunEnd(line, 6, IsWordChar) == 6;
    assert RunEnd(line, 4, IsWordChar) == 6;
    assert line[0..3] == "BAT" && line[3..4] == "3" && line[4..6] == "V3";
    assert MatchAt(line, 0) == Some(Match(0, 6, "BAT", "3", "V3"));
    RefdesAdvances(line);
    assert FindIter(line, 0, RefdesPat) == [Span(0, 6)];
  }

  /** In `R.Heater` only `R` and `H` are designators. */
  lemma RDotHeater()
    ensures Matches("R.Heater") == [Match(0, 1, "R", "", ""), Match(2, 3, "H", "", "")]
  {
    var line := "R.Heater";
    RefdesAdvances(line);
    RDotHeaterMatches();
    HeaterTail();
    assert line[1] == '.';
    assert FindIter(line, 1, RefdesPat) == FindIter(line, 2, RefdesPat);
    assert FindIter(line, 0, RefdesPat) == [Span(0, 1), Span(2, 3)];
  }

  /** The lower-case tail `eater` of `R.Heater` holds no designator. */
  lemma HeaterTail()
    ensures Advances(RefdesPat, "R.Heater") && FindIter("R.Heater", 3, RefdesPat) == []
  {
    var line := "R.Heater";
    RefdesAdvances(line);
    assert line[3] == 'e' && line[4] == 'a' && line[5] == 't' && line[6] == 'e' && line[7] == 'r';
    assert FindIter(line, 8, RefdesPat) == [];
    assert FindIter(line, 7, RefdesPat) == [];
    assert FindIter(line, 6, RefdesPat) == [];
    assert FindIter(line, 5, RefdesPat) == [];
    assert FindIter(line, 4, RefdesPat) == [];
  }

  lemma RDotHeaterMatches()
    ensures MatchAt("R.Heater", 0) == Some(Match(0, 1, "R", "", ""))
    ensures MatchAt("R.Heater", 2) == Some(Match(2, 3, "H", "", ""))
  {
    var line := "R.Heater";
    assert line[1] == '.' && line[3] == 'e';
    assert RunEnd(line, 1, IsLetterChar) == 1 && RunEnd(line, 1, IsDigit) == 1 && RunEnd(line, 1, IsWordChar) == 1;
    assert line[0..1] == "R" && line[1..1] == "";
    assert RunEnd(line, 3, IsLetterChar) == 3 && RunEnd(line, 3, IsDigit) == 3 && RunEnd(line, 3, IsWordChar) == 3;
    assert line[2..3] == "H" && line[3..3] == "";
  }

  /** `RefDes(letter, number, suffix, left, right)`. */
  datatype RefDes = RefDes(letter: string, number: nat, suffix: string, left: Point, right: Point)

  /** The designator a match in row `row` makes: an empty digit group is the
      number 0, and `right` is the last matched column. */
  function FromMatch(m: Match, row: int): (r: RefDes)
    requires AllDigits(m.digits)
  {
    RefDes(m.letter, if |m.digits| > 0 then DigitsValue(m.digits) else 0, m.suffix,
           Point(m.start, row), Point(m.end - 1, row))
  }

  /** The designators of one row, in match order. */
  function RowRefDes(line: string, row: int): (r: seq<RefDes>)
  {
    var ms := Matches(line);
    MatchesShape(line);
    seq(|ms|, k requires 0 <= k < |ms| => FromMatch(ms[k], row))
  }

  /** A designator of row y: letters first, the span on row y from `left`
      to `right`, with an empty digit group read as 0. */
  lemma RowRefDesShape(line: string, row: int, k: int)
    requires 0 <= k < |RowRefDes(line, row)|
    ensures var r := RowRefDes(line, row)[k];
      && r.left.y == row == r.right.y && 0 <= r.left.x <= r.right.x < |line|
      && line[r.left.x..r.right.x + 1] == r.letter + Matches(line)[k].digits + r.suffix
      && |r.letter| > 0
      && (Matches(line)[k].digits == "" ==> r.number == 0)
  {
    MatchesShape(line);
  }

  /** The designators of the first n rows, row by row. */
  function AllRefDes(rows: seq<string>, n: nat): seq<RefDes>
    requires n <= |rows|
  {
    if n == 0 then [] else AllRefDes(rows, n - 1) + RowRefDes(rows[n - 1], n - 1)
  }

  /** `RefDes.find_all(grid)`: every match of every row of `grid.lines`, top
      to bottom and left to right. */
  method FindAll(g: Grid) returns (out: seq<RefDes>)
    requires g.Valid()
    ensures out == AllRefDes(g.Lines(), g.height)
  {
    var rows := g.Lines();
    out := [];
    var row := 0;
    while row < |rows|
      invariant 0 <= row <= |rows|
      invariant out == AllRefDes(rows, row)
    {
      out := AppendRow(out, rows[row], row);
      row := row + 1;
    }
  }

  /** The loop over one row's matches: one designator per match, in order. */
  method AppendRow(out0: seq<RefDes>, line: string, row: int) returns (out: seq<RefDes>)
    ensures out == out0 + RowRefDes(line, row)
  {
    out := out0;
    var matches := Matches(line);
    MatchesShape(line);
    ghost var want := RowRefDes(line, row);
    var k := 0;
    while k < |matches|
      invariant 0 <= k <= |matches| == |want|
      invariant out == out0 + want[..k]
    {
      var m := matches[k];
      var number := if |m.digits| > 0 then DigitsValue(m.digits) else 0;
      out := out + [RefDes(m.letter, number, m.suffix, Point(m.start, row), Point(m.end - 1, row))];
      assert want[..k + 1] == want[..k] + [want[k]];
      k := k + 1;
    }
    assert want[..k] == want;
  }

  /** `short_name`: letter, decimal number and suffix. */
  function ShortName(r: RefDes): (s: string)
    ensures |s| > |r.letter| + |r.suffix|
  {
    r.letter + NatToString(r.number) + r.suffix
  }

  /** `name`: the short name followed by the suffix once more. */
  function Name(r: RefDes): (s: string)
    ensures |s| == |ShortName(r)| + |r.suffix|
  {
    ShortName(r) + r.suffix
  }

  /** The suffix appears twice at the end of `name`: `U3A` is named `U3AA`. */
  lemma NameRepeatsSuffix(r: RefDes)
    ensures Name(r)[..|r.letter|] == r.letter
    ensures Name(r)[|Name(r)| - 2 * |r.suffix|..] == r.suffix + r.suffix
    ensures Name(RefDes("U", 3, "A", Origin, Origin)) == "U3AA"
  {
    assert NatToString(3) == "3";
  }
}
