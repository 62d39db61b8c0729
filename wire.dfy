/** Wires (schemascii/wire.py): the direction-character tables and the walk
    that collects the points of one wire. A direction character (`DirStr`) is
    one of `<`, `>`, `^`, `v`; the tables key and yield these characters, and
    `CHAR2DIR` turns each into a unit step. */
module Wires {
  import opened Base
  import opened Geometry
  import opened Grids
  import opened Flood

  /** The four direction characters, in the order of `EVERYWHERE`'s value. */
  const DirChars: string := "<>^v"

  /** `CHAR2DIR`. The names read backwards: `>` steps to the left, `<` to the
      right, `^` one row down and `v` one row up. */
  function Char2Dir(c: char): (d: Point)
    requires c in DirChars
    ensures d in Orthogonal
    ensures c == '>' ==> d == Point(-1, 0)
    ensures c == '<' ==> d == Point(1, 0)
    ensures c == '^' ==> d == Point(0, 1)
    ensures c == 'v' ==> d == Point(0, -1)
  {
    match c
    case '>' => Point(-1, 0)
    case '<' => Point(1, 0)
    case '^' => Point(0, 1)
    case _ => Point(0, -1)
  }

  /** The four characters go to four different unit steps, so every unit
      step is the image of exactly one of them. */
  lemma Char2DirDistinct(a: char, b: char)
    requires a in DirChars && b in DirChars && a != b
    ensures Char2Dir(a) != Char2Dir(b)
  {
    assert a == '<' || a == '>' || a == '^' || a == 'v';
  }

  /** The two continuation tables a wire glyph can have: `IDENTITY`, which
      keeps the direction of travel, and `EVERYWHERE`, which allows all four. */
  datatype Continuation = Identity | Everywhere

  /** `IDENTITY[d]` and `EVERYWHERE[d]`. */
  function Continue(k: Continuation, d: char): (r: string)
    requires d in DirChars
    ensures forall c :: c in r ==> c in DirChars
    ensures k.Identity? ==> r == [d]
    ensures k.Everywhere? ==> r == DirChars
  {
    match k
    case Identity => [d]
    case Everywhere => DirChars
  }

  /** `Wire.directions`: None for every character but the six straight glyphs
      and the junction `*`. */
  function Directions(c: char): (r: Option<Continuation>)
    ensures r == Some(Everywhere) <==> c == '*'
    ensures r == Some(Identity) <==> c in "-|()~:"
  {
    match c
    case '-' => Some(Identity)
    case '|' => Some(Identity)
    case '(' => Some(Identity)
    case ')' => Some(Identity)
    case '~' => Some(Identity)
    case ':' => Some(Identity)
    case '*' => Some(Everywhere)
    case _ => None
  }

  /** `Wire.starting_directions`. */
  function StartingDirections(c: char): (r: Option<string>)
    ensures r.Some? <==> c in "-|()*"
    ensures r.Some? ==> r.value != [] && forall d :: d in r.value ==> d in DirChars
    ensures c == '-' ==> r == Some("<>")
    ensures c in "|()" ==> r == Some("^v")
    ensures c == '*' ==> r == Some(DirChars)
  {
    match c
    case '-' => Some("<>")
    case '|' => Some("^v")
    case '(' => Some("^v")
    case ')' => Some("^v")
    case '*' => Some(DirChars)
    case _ => None
  }

  /** A glyph that can start a wire can also be walked through. */
  lemma StartersContinue(c: char)
    requires StartingDirections(c).Some?
    ensures Directions(c).Some?
  {
  }

  /** `~` and `:` are walked through but never start a wire. */
  lemma DottedGlyphsDoNotStart()
    ensures Directions('~') == Some(Identity) && StartingDirections('~').None?
    ensures Directions(':') == Some(Identity) && StartingDirections(':').None?
  {
  }

  /** The unit steps of a string of direction characters, in order. */
  function DirSteps(s: string): (r: seq<Point>)
    requires forall c :: c in s ==> c in DirChars
    ensures |r| == |s|
    ensures forall i :: 0 <= i < |s| ==> r[i] == Char2Dir(s[i])
    ensures forall d :: d in r ==> d in Orthogonal
  {
    seq(|s|, i requires 0 <= i < |s| => Char2Dir(s[i]))
  }

  /** `starting_directions` as unit steps; the empty sequence for None. */
  function StartSteps(c: char): seq<Point>
  {
    match StartingDirections(c)
    case None => []
    case Some(s) => DirSteps(s)
  }

  /** `directions[c][d]` as unit steps, for a cell entered by the unit step v.
      An `IDENTITY` glyph passes v on unchanged. */
  function NextSteps(c: char, v: Point): seq<Point>
  {
    match Directions(c)
    case None => []
    case Some(Identity) => if v in Orthogonal then [v] else []
    case Some(Everywhere) => if v in Orthogonal then DirSteps(DirChars) else []
  }

  /** The step tables agree with the character tables they translate: the
      steps out of a glyph entered by `CHAR2DIR[d]` are the steps of
      `directions[c][d]`. */
  lemma NextStepsAgree(c: char, d: char)
    requires d in DirChars
    ensures Directions(c).None? ==> NextSteps(c, Char2Dir(d)) == []
    ensures Directions(c).Some? ==> NextSteps(c, Char2Dir(d)) == DirSteps(Continue(Directions(c).value, d))
  {
  }

  /** On every glyph but `*` the walk goes straight on; `*` lets it turn
      any way, and a blank stops it. */
  lemma NextStepsKeepDirection(c: char, v: Point)
    requires v in Orthogonal
    ensures c in "-|()~:" ==> NextSteps(c, v) == [v]
    ensures c == '*' ==> NextSteps(c, v) == [Point(1, 0), Point(-1, 0), Point(0, 1), Point(0, -1)]
    ensures c == '*' ==> forall d :: d in NextSteps(c, v) <==> d in Orthogonal
    ensures Directions(c).None? <==> NextSteps(c, v) == []
  {
  }

  /** The tables of the wire walk. */
  const WireTables: WalkTables := WalkTables(c => StartSteps(c), (c, v) => NextSteps(c, v))

  lemma WireTablesStopAtBlank()
    ensures StopsAtBlank(WireTables)
  {
  }

  /** Point i was entered from an earlier point by one unit step. */
  ghost predicate ReachedFromEarlier(points: seq<Point>, i: int)
    requires 0 <= i < |points|
  {
    exists j :: 0 <= j < i && Adjacent(points[j], points[i])
  }

  /** A step the wire tables let the walk take into a cell showing c is a
      unit step, and c has a `directions` entry. */
  lemma WireStep(c: char, dir: Point)
    requires WireTables.next(c, dir) != []
    ensures dir in Orthogonal && Directions(c).Some?
  {
    assert WireTables.next(c, dir) == NextSteps(c, dir);
  }

  /** A wire point entered from an earlier one is a unit step from it and
      shows a glyph with a `directions` entry. */
  lemma WireEntered(data: seq<string>, masks: seq<seq<Mask>>, points: seq<Point>, dirsOf: seq<seq<Point>>, i: int)
    requires 0 <= i < |points| == |dirsOf| && EnteredFrom(data, masks, WireTables, points, dirsOf, i)
    ensures ReachedFromEarlier(points, i) && Directions(Look(data, masks, points[i])).Some?
  {
    var j :| 0 <= j < i && Diff(points[j], points[i]) in dirsOf[j] && WireTables.next(Look(data, masks, points[i]), Diff(points[j], points[i])) != [];
    WireStep(Look(data, masks, points[i]), Diff(points[j], points[i]));
  }

  /** `Wire.get_from_grid(grid, start)`: the points of the wire through
      `start`, the start first, each point once, and the whole wire: no step
      the tables allow out of a wire point leads to a cell the walk would
      still claim. A start glyph without starting directions makes the
      source iterate over None: TypeError. */
  method GetFromGrid(g: Grid, start: Point) returns (r: Result<seq<Point>>)
    requires g.Valid()
    ensures r.Err? <==> StartingDirections(g.Get(start)).None?
    ensures r.Err? ==> r.error == TypeError("'NoneType' object is not iterable")
    ensures r.Ok? ==> |r.value| >= 1 && r.value[0] == start && Distinct(r.value)
    ensures r.Ok? ==> forall i :: 1 <= i < |r.value| ==>
      ReachedFromEarlier(r.value, i) && Directions(g.Get(r.value[i])).Some?
    ensures r.Ok? ==> ClosedWalk(g.data, g.masks, WireTables, start, r.value)
  {
    if StartingDirections(g.Get(start)).None? {
      return Err(TypeError("'NoneType' object is not iterable"));
    }
    WireTablesStopAtBlank();
    var points, seen, dirsOf := FloodWalk(g, [start], WireTables, {});
    assert seen == Elements(points);
    assert ClosedWalk(g.data, g.masks, WireTables, start, points);
    assert start in seen by {
      var c := g.Get(start);
      assert Look(g.data, g.masks, start) == c;
      assert |StartSteps(c)| == |StartingDirections(c).value| > 0;
      assert WireTables.start(c) == StartSteps(c);
      assert [start][0] == start;
    }
    TracedSteps(g.data, g.masks, WireTables, [start], points, dirsOf);
    forall i | 1 <= i < |points|
      ensures ReachedFromEarlier(points, i) && Directions(g.Get(points[i])).Some?
    {
      assert points[i] != points[0];
      WireEntered(g.data, g.masks, points, dirsOf, i);
    }
    return Ok(points);
  }

  /** `Wire.is_wire_character` and `Wire.start_dirs`, which other modules
      call but wire.py does not define, as one table: its keys are the wire
      characters, each mapped to the steps a wire may leave it by. */
  datatype WireTable = WireTable(startDirs: map<char, seq<Point>>)

  /** The pairs `to_xml_string` links: `(points[i], points[j])` for `i < j`
      (the order of `itertools.combinations`) with the two a unit apart. */
  function NeighbourPairs(points: seq<Point>): (r: seq<(Point, Point)>)
    decreases |points|
  {
    if |points| == 0 then []
    else PairsWith(points[0], points[1..]) + NeighbourPairs(points[1..])
  }

  /** The pairs `(p, q)` for each q of `rest` a unit away from p, in order. */
  function PairsWith(p: Point, rest: seq<Point>): (r: seq<(Point, Point)>)
    decreases |rest|
  {
    if |rest| == 0 then []
    else (if Adjacent(p, rest[0]) then [(p, rest[0])] else []) + PairsWith(p, rest[1..])
  }

  lemma {:induction false} PairsWithMembers(p: Point, rest: seq<Point>, l: (Point, Point))
    ensures l in PairsWith(p, rest) <==> l.0 == p && l.1 in rest && Adjacent(p, l.1)
    decreases |rest|
  {
    if |rest| > 0 {
      PairsWithMembers(p, rest[1..], l);
      assert rest == [rest[0]] + rest[1..];
    }
  }

  /** A linked pair is two points of the wire, the first listed earlier, one
      unit apart; and every such pair is linked. */
  lemma {:induction false} NeighbourPairsMembers(points: seq<Point>, l: (Point, Point))
    ensures l in NeighbourPairs(points) <==>
      exists i, j :: 0 <= i < j < |points| && l == (points[i], points[j]) && Adjacent(points[i], points[j])
    decreases |points|
  {
    if |points| > 0 {
      var rest := points[1..];
      NeighbourPairsMembers(rest, l);
      PairsWithMembers(points[0], rest, l);
      if l in NeighbourPairs(points) {
        if l in PairsWith(points[0], rest) {
          var j :| 0 <= j < |rest| && rest[j] == l.1;
          assert points[j + 1] == l.1;
        } else {
          var i, j :| 0 <= i < j < |rest| && l == (rest[i], rest[j]) && Adjacent(rest[i], rest[j]);
          assert points[i + 1] == rest[i] && points[j + 1] == rest[j];
        }
      } else {
      }
    }
  }

  /** The link loop of `Wire.to_xml_string`, over all pairs in
      `combinations` order. */
  method NeighbourLinks(points: seq<Point>) returns (links: seq<(Point, Point)>)
    ensures links == NeighbourPairs(points)
  {
    links := [];
    var i := 0;
    while i < |points|
      invariant 0 <= i <= |points|
      invariant links + NeighbourPairs(points[i..]) == NeighbourPairs(points)
    {
      var rest := points[i + 1..];
      assert points[i..][1..] == rest;
      var j := 0;
      var row := [];
      while j < |rest|
        invariant 0 <= j <= |rest|
        invariant row + PairsWith(points[i], rest[j..]) == PairsWith(points[i], rest)
      {
        assert rest[j..][1..] == rest[j + 1..];
        if Adjacent(points[i], rest[j]) {
          row := row + [(points[i], rest[j])];
        }
        j := j + 1;
      }
      links := links + row;
      i := i + 1;
    }
  }
}
