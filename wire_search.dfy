/** The older wire tracer of schemascii/wires.py: `next_in_dir` follows a
    straight run of wire glyphs from a point in one direction, and
    `search_wire` explores, breadth first, every run reachable from a start
    point. */
module WireSearch {
  import opened Base
  import opened Geometry
  import opened Grids
  import opened EdgeScan

  /** `DIRECTIONS`: right, left, down, up. */
  const Directions: seq<Point> := [Point(1, 0), Point(-1, 0), Point(0, 1), Point(0, -1)]

  /** A glyph a run passes through. */
  predicate Straight(c: char) { c in "-|()" }

  /** A glyph a run may end on. */
  predicate WireGlyph(c: char) { c in "-|()*" }

  predicate Vertical(d: Point) { d == Point(0, 1) || d == Point(0, -1) }

  predicate Horizontal(d: Point) { d == Point(1, 0) || d == Point(-1, 0) }

  /** An upper bound on the steps left in direction d before p leaves
      the rows of the grid. */
  function Room(data: seq<string>, p: Point, d: Point): nat
  {
    if d == Point(1, 0) then (if 0 <= p.y < |data| && p.x < |data[p.y]| then |data[p.y]| - p.x else 0)
    else if d == Point(-1, 0) then (if p.x >= 0 then p.x + 1 else 0)
    else if d == Point(0, 1) then (if p.y < |data| then |data| - p.y else 0)
    else if p.y >= 0 then p.y + 1 else 0
  }

  /** From a cell that shows a character, a step in a direction gets
      closer to the edge. */
  lemma RoomStep(data: seq<string>, masks: seq<seq<Mask>>, p: Point, d: Point)
    requires d in Directions && Look(data, masks, p) != ' '
    ensures Room(data, p.Add(d), d) < Room(data, p, d)
  {
  }

  /** The first cell from p on, in direction d, that is not a straight
      glyph: where the `while` loop stops. */
  function Run(data: seq<string>, masks: seq<seq<Mask>>, p: Point, d: Point): Point
    requires d in Directions
    decreases Room(data, p, d)
  {
    if Straight(Look(data, masks, p)) then
      RoomStep(data, masks, p, d);
      Run(data, masks, p.Add(d), d)
    else p
  }

  /** The end of the run: where the loop stopped if that is a `*`, else
      one step back. */
  function Settle(data: seq<string>, masks: seq<seq<Mask>>, q: Point, d: Point): Point
  {
    if WireGlyph(Look(data, masks, q)) then q else q.Add(d.Neg())
  }

  /** The error Python raises when `point, s = None`. */
  const UnpackNone: Error := TypeError("cannot unpack non-iterable NoneType object")

  /** `next_in_dir(grid, point, dydx)` as written: a vertical glyph runs
      only up or down, `-` only sideways, and the answer is the run's end
      and its start; a `*` defers to the next cell when that is a wire
      glyph, and when that call answers None the unpacking of its result
      raises. */
  function NextInDir(data: seq<string>, masks: seq<seq<Mask>>, p: Point, d: Point): Result<Option<(Point, Point)>>
    requires d in Directions
    decreases Room(data, p, d)
  {
    var c := Look(data, masks, p);
    if c == '|' || c == ')' || c == '(' then
      if Vertical(d) then Ok(Some((Settle(data, masks, Run(data, masks, p, d), d), p))) else Ok(None)
    else if c == '-' then
      if Horizontal(d) then Ok(Some((Settle(data, masks, Run(data, masks, p, d), d), p))) else Ok(None)
    else if c == '*' then
      if WireGlyph(Look(data, masks, p.Add(d))) then
        RoomStep(data, masks, p, d);
        match NextInDir(data, masks, p.Add(d), d)
        case Err(e) => Err(e)
        case Ok(None) => Err(UnpackNone)
        case Ok(Some(pair)) => Ok(Some(pair))
      else Ok(None)
    else Ok(None)
  }

  /** `next_in_dir` as its `if point is None: return None` shows it was
      meant: a `*` before a run that does not go this way gives None. */
  function NextInDirIntended(data: seq<string>, masks: seq<seq<Mask>>, p: Point, d: Point): Option<(Point, Point)>
    requires d in Directions
    decreases Room(data, p, d)
  {
    var c := Look(data, masks, p);
    if c == '|' || c == ')' || c == '(' then
      if Vertical(d) then Some((Settle(data, masks, Run(data, masks, p, d), d), p)) else None
    else if c == '-' then
      if Horizontal(d) then Some((Settle(data, masks, Run(data, masks, p, d), d), p)) else None
    else if c == '*' then
      if WireGlyph(Look(data, masks, p.Add(d))) then
        RoomStep(data, masks, p, d);
        NextInDirIntended(data, masks, p.Add(d), d)
      else None
    else None
  }

  /** The written version agrees with the intended one whenever it does
      not raise, and raises only with the unpacking error, exactly when the
      intended one answers None after a `*`. */
  lemma {:induction false} NextInDirAgrees(data: seq<string>, masks: seq<seq<Mask>>, p: Point, d: Point)
    requires d in Directions
    ensures NextInDir(data, masks, p, d).Ok? ==> NextInDir(data, masks, p, d).value == NextInDirIntended(data, masks, p, d)
    ensures NextInDir(data, masks, p, d).Err? <==>
      Look(data, masks, p) == '*' && WireGlyph(Look(data, masks, p.Add(d))) && NextInDirIntended(data, masks, p, d).None?
    ensures NextInDir(data, masks, p, d).Err? ==> NextInDir(data, masks, p, d).error == UnpackNone
    decreases Room(data, p, d)
  {
    if Look(data, masks, p) == '*' && WireGlyph(Look(data, masks, p.Add(d))) {
      RoomStep(data, masks, p, d);
      NextInDirAgrees(data, masks, p.Add(d), d);
    }
  }

  /** A `*` with a vertical glyph to its right: the written version raises
      where the intended one answers None. */
  lemma StarBeforeCrossing(data: seq<string>, masks: seq<seq<Mask>>, p: Point)
    requires Look(data, masks, p) == '*' && Look(data, masks, p.Add(Point(1, 0))) == '|'
    ensures NextInDir(data, masks, p, Point(1, 0)) == Err(UnpackNone)
    ensures NextInDirIntended(data, masks, p, Point(1, 0)) == None
  {
    var q := p.Add(Point(1, 0));
    assert WireGlyph(Look(data, masks, q));
    assert NextInDir(data, masks, q, Point(1, 0)) == Ok(None);
  }

  /** A run never turns: a vertical glyph answers None sideways, `-`
      answers None up and down, and other characters besides `*` always
      answer None. */
  lemma NoTurn(data: seq<string>, masks: seq<seq<Mask>>, p: Point, d: Point)
    requires d in Directions
    ensures Look(data, masks, p) in "|()" && Horizontal(d) ==> NextInDirIntended(data, masks, p, d).None?
    ensures Look(data, masks, p) == '-' && Vertical(d) ==> NextInDirIntended(data, masks, p, d).None?
    ensures !WireGlyph(Look(data, masks, p)) ==> NextInDirIntended(data, masks, p, d).None?
  {
  }

  /** k steps of d from p. */
  function Steps(p: Point, d: Point, k: nat): Point
    decreases k
  {
    if k == 0 then p else Steps(p.Add(d), d, k - 1)
  }

  /** One more step is one more `Add`. */
  lemma {:induction false} StepsLast(p: Point, d: Point, k: nat)
    ensures Steps(p, d, k + 1) == Steps(p, d, k).Add(d)
    decreases k
  {
    if k > 0 {
      StepsLast(p.Add(d), d, k - 1);
    }
  }

  /** How many straight glyphs the loop walks over. */
  function RunLen(data: seq<string>, masks: seq<seq<Mask>>, p: Point, d: Point): nat
    requires d in Directions
    decreases Room(data, p, d)
  {
    if Straight(Look(data, masks, p)) then
      RoomStep(data, masks, p, d);
      1 + RunLen(data, masks, p.Add(d), d)
    else 0
  }

  /** The loop walks straight glyphs and stops at the first other cell. */
  lemma {:induction false} RunShape(data: seq<string>, masks: seq<seq<Mask>>, p: Point, d: Point)
    requires d in Directions
    ensures Run(data, masks, p, d) == Steps(p, d, RunLen(data, masks, p, d))
    ensures forall i: nat :: i < RunLen(data, masks, p, d) ==> Straight(Look(data, masks, Steps(p, d, i)))
    ensures !Straight(Look(data, masks, Run(data, masks, p, d)))
    decreases Room(data, p, d)
  {
    if Straight(Look(data, masks, p)) {
      RoomStep(data, masks, p, d);
      var q := p.Add(d);
      RunShape(data, masks, q, d);
      var k := RunLen(data, masks, q, d);
      forall i: nat | i < k + 1 ensures Straight(Look(data, masks, Steps(p, d, i))) {
        if i > 0 {
          assert Steps(p, d, i) == Steps(q, d, i - 1);
        }
      }
    }
  }

  /** A run from a straight glyph ends on a wire glyph, every cell before
      the end is straight, and unless the end is a `*` the run cannot go a
      step further. */
  lemma RunEndShape(data: seq<string>, masks: seq<seq<Mask>>, p: Point, d: Point)
    requires d in Directions && Straight(Look(data, masks, p))
    ensures var e := Settle(data, masks, Run(data, masks, p, d), d);
      && WireGlyph(Look(data, masks, e))
      && (Look(data, masks, e) != '*' ==> !WireGlyph(Look(data, masks, e.Add(d))))
      && exists k: nat :: e == Steps(p, d, k) && forall i: nat :: i < k ==> Straight(Look(data, masks, Steps(p, d, i)))
  {
    var q := Run(data, masks, p, d);
    RunShape(data, masks, p, d);
    var k := RunLen(data, masks, p, d);
    if !WireGlyph(Look(data, masks, q)) {
      var e := q.Add(d.Neg());
      StepsLast(p, d, k - 1);
      assert e == Steps(p, d, k - 1);
      assert e.Add(d) == q;
      assert Straight(Look(data, masks, Steps(p, d, k - 1)));
    }
  }

  /** An answer (end, start) is a straight run: the start is a straight
      glyph, the end lies k >= 0 steps from it in the direction, every cell
      from the start up to the end is a straight glyph, the end is a wire
      glyph, and unless it is a `*` the run cannot go one step further. The
      start is the point asked about unless that is a `*`. */
  lemma {:induction false} NextInDirShape(data: seq<string>, masks: seq<seq<Mask>>, p: Point, d: Point)
    requires d in Directions && NextInDirIntended(data, masks, p, d).Some?
    ensures var (e, s) := NextInDirIntended(data, masks, p, d).value;
      && Straight(Look(data, masks, s))
      && (Look(data, masks, p) != '*' ==> s == p)
      && e == Settle(data, masks, Run(data, masks, s, d), d)
    decreases Room(data, p, d)
  {
    if Look(data, masks, p) == '*' {
      RoomStep(data, masks, p, d);
      NextInDirShape(data, masks, p.Add(d), d);
    }
  }

  /** The end of an answer shows a glyph, so it lies on the grid. */
  lemma AnswerOnGrid(data: seq<string>, masks: seq<seq<Mask>>, p: Point, d: Point)
    requires d in Directions && NextInDir(data, masks, p, d).Ok? && NextInDir(data, masks, p, d).value.Some?
    ensures var e := NextInDir(data, masks, p, d).value.value.0;
      0 <= e.y < |data| && 0 <= e.x < |data[e.y]|
  {
    NextInDirAgrees(data, masks, p, d);
    NextInDirShape(data, masks, p, d);
    RunEndShape(data, masks, NextInDir(data, masks, p, d).value.value.1, d);
  }

  /** `next_in_dir(grid, point, dydx)`: the `while` loops walk the run; a
      `*` recurses. */
  method NextInDirOf(g: Grid, point: Point, d: Point) returns (r: Result<Option<(Point, Point)>>)
    requires g.Valid() && d in Directions
    ensures r == NextInDir(g.data, g.masks, point, d)
    decreases Room(g.data, point, d)
  {
    var c := g.Get(point);
    if c == '|' || c == ')' || c == '(' || c == '-' {
      if (c == '-' && !Horizontal(d)) || (c != '-' && !Vertical(d)) {
        return Ok(None);
      }
      var p := point;
      while Straight(g.Get(p))
        invariant Run(g.data, g.masks, p, d) == Run(g.data, g.masks, point, d)
        decreases Room(g.data, p, d)
      {
        RoomStep(g.data, g.masks, p, d);
        p := p.Add(d);
      }
      if !WireGlyph(g.Get(p)) {
        p := p.Add(d.Neg());
      }
      return Ok(Some((p, point)));
    }
    if c == '*' {
      if WireGlyph(g.Get(point.Add(d))) {
        RoomStep(g.data, g.masks, point, d);
        var rest := NextInDirOf(g, point.Add(d), d);
        if rest.Err? {
          return rest;
        }
        if rest.value.None? {
          return Err(UnpackNone);
        }
        return rest;
      }
      return Ok(None);
    }
    return Ok(None);
  }

  /** What the tracer answers for a point and a direction. */
  type Answers = (Point, Point) -> Result<Option<(Point, Point)>>

  /** `next_in_dir` on one grid, as an answer for every point and every
      step (None for a step that is not one of the four directions). */
  function Tracer(data: seq<string>, masks: seq<seq<Mask>>): Answers
  {
    (q: Point, d: Point) => if d in Directions then NextInDir(data, masks, q, d) else Ok(None)
  }

  /** The points of the grid. */
  ghost function OnGrid(data: seq<string>): set<Point>
  {
    set y, x | 0 <= y < |data| && 0 <= x < |data[y]| :: Point(x, y)
  }

  /** The points of the grid not seen yet. */
  ghost function Unseen(data: seq<string>, seen: seq<Point>): set<Point>
  {
    OnGrid(data) - Elements(seen)
  }

  /** Seeing a new point of the grid removes it from the unseen part. */
  lemma Shrinks(data: seq<string>, seen: seq<Point>, p: Point)
    requires p in OnGrid(data) && p !in seen
    ensures |Unseen(data, seen + [p])| + 1 == |Unseen(data, seen)|
  {
    assert Unseen(data, seen + [p]) == Unseen(data, seen) - {p};
    assert Unseen(data, seen) == Unseen(data, seen + [p]) + {p};
  }

  /** The endpoints of the runs found. */
  function Ends(out: seq<(Point, Point)>): seq<Point>
  {
    seq(|out|, k requires 0 <= k < |out| => out[k].0)
  }

  /** The answer from q in direction d is None or ends at a point of
      `seen`. */
  ghost predicate Answered(ans: Answers, q: Point, d: Point, seen: seq<Point>)
  {
    ans(q, d).Ok? && (ans(q, d).value.None? || ans(q, d).value.value.0 in seen)
  }

  /** Every answer from a point of `done` is None or ends at a point of
      `seen`. */
  ghost predicate Closed(ans: Answers, done: seq<Point>, seen: seq<Point>)
  {
    forall i, d :: 0 <= i < |done| && d in Directions ==> Answered(ans, done[i], d, seen)
  }

  /** Seeing one more point keeps every answer accounted for. */
  lemma ClosedGrows(ans: Answers, done: seq<Point>, here: Point, i: nat, seen: seq<Point>, p: Point)
    requires i <= 4
    requires Closed(ans, done, seen)
    requires forall j :: 0 <= j < i ==> Answered(ans, here, Directions[j], seen)
    ensures Closed(ans, done, seen + [p])
    ensures forall j :: 0 <= j < i ==> Answered(ans, here, Directions[j], seen + [p])
  {
  }

  /** A point answered in all four directions joins the points done. */
  lemma ClosedSnoc(ans: Answers, done: seq<Point>, here: Point, seen: seq<Point>)
    requires Closed(ans, done, seen)
    requires forall j :: 0 <= j < 4 ==> Answered(ans, here, Directions[j], seen)
    ensures Closed(ans, done + [here], seen)
  {
    forall i, d | 0 <= i < |done| + 1 && d in Directions
      ensures Answered(ans, (done + [here])[i], d, seen)
    {
      if i == |done| {
        var j :| 0 <= j < 4 && Directions[j] == d;
      }
    }
  }

  /** Each run found is an answer from the start or from the end of a run
      found before it. */
  ghost predicate Traced(ans: Answers, point: Point, out: seq<(Point, Point)>, from: seq<(Point, Point)>)
  {
    && |from| == |out|
    && forall k :: 0 <= k < |out| ==>
      && from[k].1 in Directions && ans(from[k].0, from[k].1) == Ok(Some(out[k]))
      && (from[k].0 == point || exists j :: 0 <= j < k && from[k].0 == out[j].0)
  }

  /** Recording one more run keeps the record traced. */
  lemma TracedSnoc(ans: Answers, point: Point, out: seq<(Point, Point)>,
                   from: seq<(Point, Point)>, here: Point, d: Point, pair: (Point, Point))
    requires Traced(ans, point, out, from)
    requires d in Directions && ans(here, d) == Ok(Some(pair))
    requires here == point || exists j :: 0 <= j < |out| && here == out[j].0
    ensures Traced(ans, point, out + [pair], from + [(here, d)])
  {
    var out', from' := out + [pair], from + [(here, d)];
    forall k | 0 <= k < |out'|
      ensures from'[k].0 == point || exists j :: 0 <= j < k && from'[k].0 == out'[j].0
    {
      if k < |out| {
        if from[k].0 != point {
          var j :| 0 <= j < k && from[k].0 == out[j].0;
          assert from'[k].0 == out'[j].0;
        }
      } else if here != point {
        var j :| 0 <= j < |out| && here == out[j].0;
        assert from'[k].0 == out'[j].0;
      }
    }
  }

  /** Adding an end not seen before keeps the seen points distinct. */
  lemma SeenSnoc(point: Point, out: seq<(Point, Point)>, pair: (Point, Point))
    requires Distinct([point] + Ends(out)) && pair.0 !in [point] + Ends(out)
    ensures [point] + Ends(out + [pair]) == [point] + Ends(out) + [pair.0]
    ensures Distinct([point] + Ends(out + [pair]))
  {
    assert [point] + Ends(out + [pair]) == [point] + Ends(out) + [pair.0];
  }

  /** A seen point is the start or the end of a recorded run. */
  lemma SeenIsStartOrEnd(point: Point, out: seq<(Point, Point)>, here: Point)
    requires here in [point] + Ends(out)
    ensures here == point || exists j :: 0 <= j < |out| && here == out[j].0
  {
    var k :| 0 <= k < |out| + 1 && ([point] + Ends(out))[k] == here;
    if k > 0 {
      assert here == out[k - 1].0;
    }
  }

  /** The bookkeeping of the search: `seen` is the start followed by the
      ends recorded in `out`, all distinct; `frontier` is the tail of
      `seen` still to be explored; every record is traced. */
  ghost predicate Searching(ans: Answers, point: Point, seen: seq<Point>,
                            out: seq<(Point, Point)>, frontier: seq<Point>, from: seq<(Point, Point)>)
  {
    && seen == [point] + Ends(out) && Distinct(seen)
    && |frontier| <= |seen| && frontier == seen[|seen| - |frontier|..]
    && Traced(ans, point, out, from)
  }

  /** Recording a new end keeps the bookkeeping and shrinks the unseen
      part of the grid. */
  lemma Record(data: seq<string>, ans: Answers, point: Point, here: Point, d: Point, seen: seq<Point>,
               out: seq<(Point, Point)>, frontier: seq<Point>, from: seq<(Point, Point)>, pair: (Point, Point))
    requires Searching(ans, point, seen, out, frontier, from)
    requires here in seen && pair.0 !in seen && pair.0 in OnGrid(data)
    requires d in Directions && ans(here, d) == Ok(Some(pair))
    ensures Searching(ans, point, seen + [pair.0], out + [pair], frontier + [pair.0], from + [(here, d)])
    ensures |Unseen(data, seen + [pair.0])| + 1 == |Unseen(data, seen)|
  {
    Shrinks(data, seen, pair.0);
    SeenSnoc(point, out, pair);
    SeenIsStartOrEnd(point, out, here);
    TracedSnoc(ans, point, out, from, here, d, pair);
  }

  /** What the inner loop keeps, from the state (seen0, frontier0) it
      started in to the state (seen, out, frontier, from) after n turns:
      the bookkeeping, the prefix already seen, the points explored and
      the measure; and the answers for the first n directions from `here`
      are accounted for. */
  ghost predicate Probed(data: seq<string>, ans: Answers, point: Point, here: Point, n: nat, done: seq<Point>,
                         seen0: seq<Point>, frontier0: seq<Point>, seen: seq<Point>,
                         out: seq<(Point, Point)>, frontier: seq<Point>, from: seq<(Point, Point)>)
  {
    && Searching(ans, point, seen, out, frontier, from)
    && |seen0| <= |seen| && seen[..|seen0|] == seen0
    && |seen| - |frontier| == |seen0| - |frontier0|
    && Closed(ans, done, seen)
    && (forall j :: 0 <= j < n && j < 4 ==> Answered(ans, here, Directions[j], seen))
    && |Unseen(data, seen)| + |frontier| == |Unseen(data, seen0)| + |frontier0|
  }

  /** Before the first turn nothing has changed. */
  lemma ProbeStart(data: seq<string>, ans: Answers, point: Point, here: Point, done: seq<Point>,
                   seen: seq<Point>, out: seq<(Point, Point)>, frontier: seq<Point>, from: seq<(Point, Point)>)
    requires Searching(ans, point, seen, out, frontier, from) && Closed(ans, done, seen)
    ensures Probed(data, ans, point, here, 0, done, seen, frontier, seen, out, frontier, from)
  {
    assert seen[..|seen|] == seen;
  }

  /** Recording a new end from `here`, which was seen before the inner
      loop began, keeps the bookkeeping and the measure. */
  lemma ProbeNewBooks(data: seq<string>, ans: Answers, point: Point, here: Point, d: Point,
                      seen0: seq<Point>, seen: seq<Point>, out: seq<(Point, Point)>,
                      frontier: seq<Point>, from: seq<(Point, Point)>, pair: (Point, Point))
    requires Searching(ans, point, seen, out, frontier, from)
    requires |seen0| <= |seen| && seen[..|seen0|] == seen0
    requires here in seen0 && pair.0 !in seen && pair.0 in OnGrid(data)
    requires d in Directions && ans(here, d) == Ok(Some(pair))
    ensures Searching(ans, point, seen + [pair.0], out + [pair], frontier + [pair.0], from + [(here, d)])
    ensures |Unseen(data, seen + [pair.0])| + 1 == |Unseen(data, seen)|
    ensures (seen + [pair.0])[..|seen0|] == seen0
  {
    assert here in seen by {
      var k :| 0 <= k < |seen0| && seen0[k] == here;
      assert seen[k] == here;
    }
    Record(data, ans, point, here, d, seen, out, frontier, from, pair);
    assert (seen + [pair.0])[..|seen0|] == seen[..|seen0|];
  }

  /** Recording a new end keeps every answer accounted for, and accounts
      for direction i. */
  lemma ProbeNewClosed(ans: Answers, here: Point, i: nat, done: seq<Point>, seen: seq<Point>, pair: (Point, Point))
    requires i < 4 && Closed(ans, done, seen)
    requires forall j :: 0 <= j < i && j < 4 ==> Answered(ans, here, Directions[j], seen)
    requires ans(here, Directions[i]) == Ok(Some(pair))
    ensures Closed(ans, done, seen + [pair.0])
    ensures forall j :: 0 <= j < i + 1 && j < 4 ==> Answered(ans, here, Directions[j], seen + [pair.0])
  {
    ClosedGrows(ans, done, here, i, seen, pair.0);
    assert Answered(ans, here, Directions[i], seen + [pair.0]);
  }

  /** An answer ending at a new point of the grid is recorded. */
  lemma ProbeNew(data: seq<string>, ans: Answers, point: Point, here: Point, i: nat, done: seq<Point>,
                 seen0: seq<Point>, frontier0: seq<Point>, seen: seq<Point>, out: seq<(Point, Point)>,
                 frontier: seq<Point>, from: seq<(Point, Point)>, pair: (Point, Point))
    requires i < 4 && Probed(data, ans, point, here, i, done, seen0, frontier0, seen, out, frontier, from)
    requires here in seen0 && pair.0 !in seen && pair.0 in OnGrid(data)
    requires ans(here, Directions[i]) == Ok(Some(pair))
    ensures Probed(data, ans, point, here, i + 1, done, seen0, frontier0, seen + [pair.0], out + [pair],
                   frontier + [pair.0], from + [(here, Directions[i])])
  {
    ProbeNewBooks(data, ans, point, here, Directions[i], seen0, seen, out, frontier, from, pair);
    ProbeNewClosed(ans, here, i, done, seen, pair);
  }

  /** An answer that is None or ends at a point already seen changes
      nothing. */
  lemma ProbeOld(data: seq<string>, ans: Answers, point: Point, here: Point, i: nat, done: seq<Point>,
                 seen0: seq<Point>, frontier0: seq<Point>, seen: seq<Point>, out: seq<(Point, Point)>,
                 frontier: seq<Point>, from: seq<(Point, Point)>)
    requires i < 4 && Probed(data, ans, point, here, i, done, seen0, frontier0, seen, out, frontier, from)
    requires Answered(ans, here, Directions[i], seen)
    ensures Probed(data, ans, point, here, i + 1, done, seen0, frontier0, seen, out, frontier, from)
  {
  }

  /** One turn of the inner loop of `search_wire`: ask direction i from
      `here` and record the end when it is new. */
  method Probe(g: Grid, point: Point, here: Point, i: nat, ghost done: seq<Point>, ghost seen0: seq<Point>,
               ghost frontier0: seq<Point>, seen: seq<Point>, out: seq<(Point, Point)>, frontier: seq<Point>,
               ghost from: seq<(Point, Point)>)
    returns (err: Option<Error>, seen': seq<Point>, out': seq<(Point, Point)>, frontier': seq<Point>, ghost from': seq<(Point, Point)>)
    requires g.Valid() && i < 4 && here in seen0
    requires Probed(g.data, Tracer(g.data, g.masks), point, here, i, done, seen0, frontier0, seen, out, frontier, from)
    ensures err.Some? ==> err.value == UnpackNone && Tracer(g.data, g.masks)(here, Directions[i]).Err?
    ensures err.None? ==>
      Probed(g.data, Tracer(g.data, g.masks), point, here, i + 1, done, seen0, frontier0, seen', out', frontier', from')
  {
    var d := Directions[i];
    var line := NextInDirOf(g, here, d);
    if line.Err? {
      NextInDirAgrees(g.data, g.masks, here, d);
      assert Tracer(g.data, g.masks)(here, d) == line;
      return Some(line.error), seen, out, frontier, from;
    }
    assert Tracer(g.data, g.masks)(here, d) == line;
    err := None;
    if line.value.Some? && line.value.value.0 !in seen && line.value.value.0 != here {
      var pair := line.value.value;
      AnswerOnGrid(g.data, g.masks, here, d);
      assert pair.0 in OnGrid(g.data);
      ProbeNew(g.data, Tracer(g.data, g.masks), point, here, i, done, seen0, frontier0, seen, out, frontier, from, pair);
      seen', out', frontier', from' := seen + [pair.0], out + [pair], frontier + [pair.0], from + [(here, d)];
    } else {
      ProbeOld(g.data, Tracer(g.data, g.masks), point, here, i, done, seen0, frontier0, seen, out, frontier, from);
      seen', out', frontier', from' := seen, out, frontier, from;
    }
  }

  /** After the four turns, `here` joins the points explored. */
  lemma ProbeEnd(data: seq<string>, ans: Answers, point: Point, here: Point, done: seq<Point>,
                 seen0: seq<Point>, frontier0: seq<Point>, seen: seq<Point>, out: seq<(Point, Point)>,
                 frontier: seq<Point>, from: seq<(Point, Point)>)
    requires Probed(data, ans, point, here, 4, done, seen0, frontier0, seen, out, frontier, from)
    ensures Closed(ans, done + [here], seen)
  {
    ClosedSnoc(ans, done, here, seen);
  }

  /** The inner loop of `search_wire`: ask the four directions from
      `here` and record each end not seen before. */
  method Expand(g: Grid, point: Point, here: Point, ghost done: seq<Point>, seen: seq<Point>,
                out: seq<(Point, Point)>, frontier: seq<Point>, ghost from: seq<(Point, Point)>)
    returns (err: Option<Error>, seen': seq<Point>, out': seq<(Point, Point)>, frontier': seq<Point>,
             ghost from': seq<(Point, Point)>, ghost stuck: Point)
    requires g.Valid()
    requires Searching(Tracer(g.data, g.masks), point, seen, out, frontier, from)
    requires here in seen
    requires Closed(Tracer(g.data, g.masks), done, seen)
    ensures err.Some? ==> err.value == UnpackNone && stuck in Directions && Tracer(g.data, g.masks)(here, stuck).Err?
    ensures err.None? ==>
      && Probed(g.data, Tracer(g.data, g.masks), point, here, 4, done, seen, frontier, seen', out', frontier', from')
      && Closed(Tracer(g.data, g.masks), done + [here], seen')
  {
    ProbeStart(g.data, Tracer(g.data, g.masks), point, here, done, seen, out, frontier, from);
    seen', out', frontier', from' := seen, out, frontier, from;
    stuck := Directions[0];
    for i := 0 to 4
      invariant Probed(g.data, Tracer(g.data, g.masks), point, here, i, done, seen, frontier, seen', out', frontier', from')
    {
      err, seen', out', frontier', from' := Probe(g, point, here, i, done, seen, frontier, seen', out', frontier', from');
      if err.Some? {
        stuck := Directions[i];
        return;
      }
    }
    ProbeEnd(g.data, Tracer(g.data, g.masks), point, here, done, seen, frontier, seen', out', frontier', from');
    err := None;
  }

  /** Taking the head of the frontier keeps the bookkeeping; the head is
      the first point not yet explored. */
  lemma Pop(ans: Answers, point: Point, seen: seq<Point>,
            out: seq<(Point, Point)>, frontier: seq<Point>, from: seq<(Point, Point)>)
    requires Searching(ans, point, seen, out, frontier, from) && frontier != []
    ensures Searching(ans, point, seen, out, frontier[1..], from)
    ensures frontier[0] in seen && frontier[0] == seen[|seen| - |frontier|]
  {
  }

  /** The invariant of the outer loop of `search_wire`: the bookkeeping
      holds and every point before the frontier is explored. */
  ghost predicate Explored(ans: Answers, point: Point, seen: seq<Point>,
                           out: seq<(Point, Point)>, frontier: seq<Point>, from: seq<(Point, Point)>)
  {
    && Searching(ans, point, seen, out, frontier, from)
    && Closed(ans, seen[..|seen| - |frontier|], seen)
  }

  /** After exploring the head of the frontier, the explored points are
      one more. */
  lemma Advance(ans: Answers, point: Point, seen: seq<Point>, n: nat,
                seen': seq<Point>, out': seq<(Point, Point)>, frontier': seq<Point>, from': seq<(Point, Point)>)
    requires 0 < n <= |seen| <= |seen'| && seen'[..|seen|] == seen
    requires Searching(ans, point, seen', out', frontier', from')
    requires |seen'| - |frontier'| == n
    requires Closed(ans, seen[..n - 1] + [seen[n - 1]], seen')
    ensures Explored(ans, point, seen', out', frontier', from')
  {
    assert seen'[..n] == seen[..n - 1] + [seen[n - 1]];
  }

  /** One turn of the outer loop of `search_wire`: take the head of the
      frontier and explore it. */
  method Step(g: Grid, point: Point, seen: seq<Point>, out: seq<(Point, Point)>, frontier: seq<Point>,
              ghost from: seq<(Point, Point)>)
    returns (err: Option<Error>, seen': seq<Point>, out': seq<(Point, Point)>, frontier': seq<Point>,
             ghost from': seq<(Point, Point)>, ghost stuck: (Point, Point))
    requires g.Valid() && frontier != []
    requires Explored(Tracer(g.data, g.masks), point, seen, out, frontier, from)
    ensures err.Some? ==> err.value == UnpackNone
    ensures err.Some? ==> stuck.0 in seen && stuck.1 in Directions && Tracer(g.data, g.masks)(stuck.0, stuck.1).Err?
    ensures err.None? ==> Explored(Tracer(g.data, g.masks), point, seen', out', frontier', from')
    ensures err.None? ==> |Unseen(g.data, seen')| + |frontier'| < |Unseen(g.data, seen)| + |frontier|
  {
    var here := frontier[0];
    ghost var n := |seen| - |frontier| + 1;
    Pop(Tracer(g.data, g.masks), point, seen, out, frontier, from);
    ghost var d;
    err, seen', out', frontier', from', d := Expand(g, point, here, seen[..n - 1], seen, out, frontier[1..], from);
    stuck := (here, d);
    if err.None? {
      Advance(Tracer(g.data, g.masks), point, seen, n, seen', out', frontier', from');
    }
  }

  /** With nothing left to explore, every seen point is explored. */
  lemma Finish(ans: Answers, point: Point, seen: seq<Point>,
               out: seq<(Point, Point)>, frontier: seq<Point>, from: seq<(Point, Point)>)
    requires Explored(ans, point, seen, out, frontier, from) && frontier == []
    ensures Distinct([point] + Ends(out))
    ensures Traced(ans, point, out, from)
    ensures Closed(ans, [point] + Ends(out), [point] + Ends(out))
  {
    assert seen[..|seen|] == seen;
  }

  /** `search_wire(grid, point)`: breadth first from the point, each new
      end queued and recorded once. The ghost `runs` are the runs recorded
      (all of them on success), each found by `next_in_dir` from the start
      or from an earlier end, with distinct ends none of which is the
      start. On success every answer of `next_in_dir` from the start and
      from every end is None or ends at one of them: nothing reachable is
      missed, and no answer raised. On failure `stuck` is a point the
      search had reached and a direction in which `next_in_dir` raises. */
  method SearchWire(g: Grid, point: Point)
    returns (r: Result<seq<(Point, Point)>>, ghost runs: seq<(Point, Point)>, ghost from: seq<(Point, Point)>,
             ghost stuck: (Point, Point))
    requires g.Valid()
    ensures Distinct([point] + Ends(runs)) && Traced(Tracer(g.data, g.masks), point, runs, from)
    ensures r.Ok? ==> r.value == runs
    ensures r.Ok? ==> Closed(Tracer(g.data, g.masks), [point] + Ends(r.value), [point] + Ends(r.value))
    ensures r.Err? ==> r.error == UnpackNone
    ensures r.Err? ==>
      stuck.0 in [point] + Ends(runs) && stuck.1 in Directions && Tracer(g.data, g.masks)(stuck.0, stuck.1).Err?
    ensures r.Err? <==> exists q, d :: q in [point] + Ends(runs) && d in Directions && NextInDir(g.data, g.masks, q, d).Err?
  {
    var seen := [point];
    var out: seq<(Point, Point)> := [];
    var frontier := [point];
    from := [];
    stuck := (point, Directions[0]);
    while frontier != []
      invariant Explored(Tracer(g.data, g.masks), point, seen, out, frontier, from)
      decreases |Unseen(g.data, seen)| + |frontier|
    {
      var err, seen', out', frontier', from', at := Step(g, point, seen, out, frontier, from);
      if err.Some? {
        r, runs, from, stuck := Err(err.value), out, from, at;
        FailsIffStuck(g, point, r, runs, from, stuck);
        return;
      }
      seen, out, frontier, from := seen', out', frontier', from';
    }
    Finish(Tracer(g.data, g.masks), point, seen, out, frontier, from);
    r, runs := Ok(out), out;
    FailsIffStuck(g, point, r, runs, from, stuck);
  }

  /** A search that fails reached a point from which `next_in_dir`
      raises; a search that succeeds reached none. */
  lemma FailsIffStuck(g: Grid, point: Point, r: Result<seq<(Point, Point)>>, runs: seq<(Point, Point)>,
                        from: seq<(Point, Point)>, stuck: (Point, Point))
    requires g.Valid()
    requires r.Ok? ==> r.value == runs && Closed(Tracer(g.data, g.masks), [point] + Ends(runs), [point] + Ends(runs))
    requires r.Err? ==> stuck.0 in [point] + Ends(runs) && stuck.1 in Directions && Tracer(g.data, g.masks)(stuck.0, stuck.1).Err?
    ensures r.Err? <==> exists q, d :: q in [point] + Ends(runs) && d in Directions && NextInDir(g.data, g.masks, q, d).Err?
  {
    if r.Err? {
      assert NextInDir(g.data, g.masks, stuck.0, stuck.1).Err?;
    } else {
      forall q, d | q in [point] + Ends(runs) && d in Directions ensures NextInDir(g.data, g.masks, q, d).Ok? {
        var i :| 0 <= i < |[point] + Ends(runs)| && ([point] + Ends(runs))[i] == q;
        assert Answered(Tracer(g.data, g.masks), q, d, [point] + Ends(runs));
      }
    }
  }
}
