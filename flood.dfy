/** `flood_walk` of schemascii/utils.py: a depth-first walk over grid cells in
    which each cell's character decides which neighbours the walk may enter. */
module Flood {
  import opened Base
  import opened Geometry
  import opened Grids

  /** The two tables of the walk. `start(c)` is `start_dirs[c]`, the steps a
      seed showing c may take; `next(c, d)` is `directions[c][d]`, the steps
      out of a cell showing c that was entered by step d. A None entry is the
      empty sequence: the walk treats both the same way. */
  datatype WalkTables = WalkTables(start: char -> seq<Point>, next: (char, Point) -> seq<Point>)

  /** A blank cell continues nowhere. Every table of the program has this
      shape, and it keeps the walk inside the grid. */
  ghost predicate StopsAtBlank(t: WalkTables)
  {
    forall d: Point :: t.next(' ', d) == []
  }

  /** The character `grid.get(p)` returns for a data/mask pair. */
  function Look(data: seq<string>, masks: seq<seq<Mask>>, p: Point): char
  {
    CellAt(data, masks, p.x, p.y)
  }

  /** The points inside the rows of the grid. */
  ghost function Cells(data: seq<string>): set<Point>
  {
    set y, x | 0 <= y < |data| && 0 <= x < |data[y]| :: Point(x, y)
  }

  lemma BlankOutside(data: seq<string>, masks: seq<seq<Mask>>, p: Point)
    requires p !in Cells(data)
    ensures Look(data, masks, p) == ' '
  {
  }

  /** A stack entry: a point and the steps it may take. */
  type Entry = (Point, seq<Point>)

  /** The entry a seed is pushed with. */
  ghost predicate SeedEntry(data: seq<string>, masks: seq<seq<Mask>>, t: WalkTables, seed: seq<Point>, e: Entry)
  {
    exists k :: 0 <= k < |seed| && e == (seed[k], t.start(Look(data, masks, seed[k])))
  }

  /** The entry pushed for step `dir` out of `q`, a point claimed with steps `dirs`. */
  ghost predicate StepFrom(data: seq<string>, masks: seq<seq<Mask>>, t: WalkTables, q: Point, dirs: seq<Point>, e: Entry)
  {
    exists dir :: dir in dirs && e == (q.Add(dir), t.next(Look(data, masks, q.Add(dir)), dir))
  }

  /** An entry pushed out of one of the first `n` claimed points. */
  ghost predicate StepEntry(data: seq<string>, masks: seq<seq<Mask>>, t: WalkTables,
                            points: seq<Point>, dirsOf: seq<seq<Point>>, n: int, e: Entry)
    requires n <= |points| == |dirsOf|
  {
    exists j :: 0 <= j < n && StepFrom(data, masks, t, points[j], dirsOf[j], e)
  }

  /** Every claimed point was reached from a seed or by an allowed step out of
      an earlier claimed point, and carries the steps its table entry gives. */
  ghost predicate Traced(data: seq<string>, masks: seq<seq<Mask>>, t: WalkTables, seed: seq<Point>,
                         points: seq<Point>, dirsOf: seq<seq<Point>>)
    requires |points| == |dirsOf|
  {
    forall i :: 0 <= i < |points| ==>
      SeedEntry(data, masks, t, seed, (points[i], dirsOf[i]))
      || StepEntry(data, masks, t, points, dirsOf, i, (points[i], dirsOf[i]))
  }

  /** Nothing is left to claim: every allowed step out of a claimed point, and
      every seed, leads to a point already seen or to an entry with no steps. */
  ghost predicate Closed(data: seq<string>, masks: seq<seq<Mask>>, t: WalkTables, seed: seq<Point>,
                         points: seq<Point>, dirsOf: seq<seq<Point>>, seen: set<Point>)
    requires |points| == |dirsOf|
  {
    && (forall k :: 0 <= k < |seed| ==> seed[k] in seen || t.start(Look(data, masks, seed[k])) == [])
    && (forall i, dir :: 0 <= i < |points| && dir in dirsOf[i] ==>
          points[i].Add(dir) in seen || t.next(Look(data, masks, points[i].Add(dir)), dir) == [])
  }

  /** ps is a whole walk from `start` with a fresh `seen`: with the steps
      each point was claimed with, every point is traced back to the start
      and no allowed step leads to a cell the walk would still claim. */
  ghost predicate ClosedWalk(data: seq<string>, masks: seq<seq<Mask>>, t: WalkTables, start: Point, ps: seq<Point>)
  {
    exists dirsOf: seq<seq<Point>> ::
      && |dirsOf| == |ps| && (forall i :: 0 <= i < |ps| ==> dirsOf[i] != [])
      && Traced(data, masks, t, [start], ps, dirsOf)
      && Closed(data, masks, t, [start], ps, dirsOf, Elements(ps))
  }

  /** The walks start at cells in row-major order. */
  ghost predicate StartsOrdered(found: seq<seq<Point>>)
  {
    forall j, k :: 0 <= j < k < |found| && found[j] != [] && found[k] != [] ==>
      Before(found[j][0].x, found[j][0].y, found[k][0].x, found[k][0].y)
  }

  /** Every walk starts at a cell before (x, y). */
  ghost predicate StartsBefore(found: seq<seq<Point>>, x: int, y: int)
  {
    forall k :: 0 <= k < |found| && found[k] != [] ==> Before(found[k][0].x, found[k][0].y, x, y)
  }

  /** The starting points of the walks. */
  ghost function Starts(walks: seq<seq<Point>>): set<Point>
  {
    set k | 0 <= k < |walks| && walks[k] != [] :: walks[k][0]
  }

  /** Starts before cell (x, y) are before the next cell too. */
  lemma StartsLater(found: seq<seq<Point>>, x: int, y: int)
    requires StartsBefore(found, x, y)
    ensures StartsBefore(found, x + 1, y)
  {
  }

  /** A walk started at the current cell comes after every earlier start. */
  lemma StartsSnoc(found: seq<seq<Point>>, ps: seq<Point>)
    requires ps != [] && StartsOrdered(found) && StartsBefore(found, ps[0].x, ps[0].y)
    ensures StartsOrdered(found + [ps]) && StartsBefore(found + [ps], ps[0].x + 1, ps[0].y)
  {
    var found': seq<seq<Point>> := found + [ps];
    forall j, k | 0 <= j < k < |found'| && found'[j] != [] && found'[k] != []
      ensures Before(found'[j][0].x, found'[j][0].y, found'[k][0].x, found'[k][0].y)
    {
      assert found'[j] == found[j];
      if k < |found| {
        assert found'[k] == found[k];
      }
    }
  }

  /** Some point of w is not in `seen`. */
  ghost predicate HasNew(w: seq<Point>, seen: set<Point>)
  {
    exists p :: p in w && p !in seen
  }

  /** `find_all`'s rule for the walks it makes, in order: a walk is kept when
      one of its points is on no walk kept before it, and dropped otherwise. */
  ghost function KeepNew(walks: seq<seq<Point>>): (r: seq<seq<Point>>)
    ensures |r| <= |walks|
  {
    if |walks| == 0 then []
    else
      var prev := KeepNew(walks[..|walks| - 1]);
      if HasNew(walks[|walks| - 1], Union(prev)) then prev + [walks[|walks| - 1]] else prev
  }

  /** The rule of `KeepNew` for one more walk. */
  lemma KeepNewSnoc(walks: seq<seq<Point>>, w: seq<Point>)
    ensures KeepNew(walks + [w]) == if HasNew(w, Union(KeepNew(walks))) then KeepNew(walks) + [w] else KeepNew(walks)
  {
    assert (walks + [w])[..|walks|] == walks;
  }

  /** Dropping walks loses no point: the kept walks cover every point of
      every walk. */
  lemma {:induction false} KeepNewUnion(walks: seq<seq<Point>>)
    ensures Union(KeepNew(walks)) == Union(walks)
    decreases |walks|
  {
    if |walks| > 0 {
      var front, w := walks[..|walks| - 1], walks[|walks| - 1];
      KeepNewUnion(front);
      assert walks == front + [w];
      UnionSnoc(front, w);
      UnionSnoc(KeepNew(front), w);
    }
  }

  /** Every kept walk is one of the walks, and each brings a point that no
      walk kept before it has. */
  lemma {:induction false} KeepNewKeeps(walks: seq<seq<Point>>)
    ensures forall k :: 0 <= k < |KeepNew(walks)| ==> KeepNew(walks)[k] in walks
    ensures forall k :: 0 <= k < |KeepNew(walks)| ==> HasNew(KeepNew(walks)[k], Union(KeepNew(walks)[..k]))
    decreases |walks|
  {
    if |walks| > 0 {
      var front, w := walks[..|walks| - 1], walks[|walks| - 1];
      KeepNewKeeps(front);
      var prev := KeepNew(front);
      var r := KeepNew(walks);
      forall k | 0 <= k < |r|
        ensures r[k] in walks && HasNew(r[k], Union(r[..k]))
      {
        if k < |prev| {
          assert r[k] == prev[k] && r[..k] == prev[..k];
          assert prev[k] in front;
        } else {
          assert r[k] == w && r[..k] == prev;
        }
      }
    }
  }

  /** The entries pushed when `point` is claimed with `dirs`, in push order. */
  function Steps(data: seq<string>, masks: seq<seq<Mask>>, t: WalkTables, point: Point, dirs: seq<Point>): (r: seq<Entry>)
    ensures |r| == |dirs|
  {
    seq(|dirs|, j requires 0 <= j < |dirs| => (point.Add(dirs[j]), t.next(Look(data, masks, point.Add(dirs[j])), dirs[j])))
  }

  /** What holds between two iterations of the walk's loop. */
  ghost predicate WalkInv(data: seq<string>, masks: seq<seq<Mask>>, t: WalkTables, seed: seq<Point>,
                          seen0: set<Point>, universe: set<Point>,
                          points: seq<Point>, dirsOf: seq<seq<Point>>, seen: set<Point>, stack: seq<Entry>)
  {
    && WalkClaimed(data, masks, t, seed, seen0, universe, points, dirsOf, seen)
    && WalkPending(data, masks, t, seed, universe, points, dirsOf, seen, stack)
  }

  /** The claimed points: new, distinct, traced, and with `seen` they make up
      everything seen so far. */
  ghost predicate WalkClaimed(data: seq<string>, masks: seq<seq<Mask>>, t: WalkTables, seed: seq<Point>,
                              seen0: set<Point>, universe: set<Point>,
                              points: seq<Point>, dirsOf: seq<seq<Point>>, seen: set<Point>)
  {
    && |dirsOf| == |points| && Distinct(points)
    && (forall i :: 0 <= i < |points| ==> points[i] !in seen0 && dirsOf[i] != [] && points[i] in universe)
    && (forall p :: p in seen <==> p in seen0 || p in points)
    && Traced(data, masks, t, seed, points, dirsOf)
  }

  /** The stack: every entry is a seed entry or a step out of a claimed point,
      and every seed or step not yet seen and not dead is still on it. */
  ghost predicate WalkPending(data: seq<string>, masks: seq<seq<Mask>>, t: WalkTables, seed: seq<Point>,
                              universe: set<Point>, points: seq<Point>, dirsOf: seq<seq<Point>>, seen: set<Point>,
                              stack: seq<Entry>)
  {
    && |dirsOf| == |points|
    && (forall s :: 0 <= s < |stack| ==>
          SeedEntry(data, masks, t, seed, stack[s]) || StepEntry(data, masks, t, points, dirsOf, |points|, stack[s]))
    && (forall s :: 0 <= s < |stack| && stack[s].1 != [] ==> stack[s].0 in universe)
    && (forall k :: 0 <= k < |seed| ==>
          seed[k] in seen || t.start(Look(data, masks, seed[k])) == [] || (seed[k], t.start(Look(data, masks, seed[k]))) in stack)
    && (forall i, dir :: 0 <= i < |points| && dir in dirsOf[i] ==>
          points[i].Add(dir) in seen || t.next(Look(data, masks, points[i].Add(dir)), dir) == []
          || (points[i].Add(dir), t.next(Look(data, masks, points[i].Add(dir)), dir)) in stack)
  }

  /** The loop starts with every seed on the stack and nothing claimed. */
  lemma WalkInit(data: seq<string>, masks: seq<seq<Mask>>, t: WalkTables, seed: seq<Point>,
                 seen0: set<Point>, universe: set<Point>, stack: seq<Entry>)
    requires |stack| == |seed|
    requires forall k :: 0 <= k < |seed| ==> stack[k] == (seed[k], t.start(Look(data, masks, seed[k])))
    requires forall k :: 0 <= k < |seed| ==> seed[k] in universe
    ensures WalkInv(data, masks, t, seed, seen0, universe, [], [], seen0, stack)
  {
    forall s | 0 <= s < |stack| ensures SeedEntry(data, masks, t, seed, stack[s]) {
      assert stack[s] == (seed[s], t.start(Look(data, masks, seed[s])));
    }
    forall k | 0 <= k < |seed| ensures (seed[k], t.start(Look(data, masks, seed[k]))) in stack {
      assert stack[k] == (seed[k], t.start(Look(data, masks, seed[k])));
    }
  }

  /** Popping an entry whose point is already seen, or which has no steps,
      keeps the invariant. */
  lemma WalkSkip(data: seq<string>, masks: seq<seq<Mask>>, t: WalkTables, seed: seq<Point>,
                 seen0: set<Point>, universe: set<Point>,
                 points: seq<Point>, dirsOf: seq<seq<Point>>, seen: set<Point>, stack: seq<Entry>, e: Entry)
    requires WalkInv(data, masks, t, seed, seen0, universe, points, dirsOf, seen, stack + [e])
    requires e.0 in seen || e.1 == []
    ensures WalkInv(data, masks, t, seed, seen0, universe, points, dirsOf, seen, stack)
  {
    var full := stack + [e];
    forall s | 0 <= s < |stack|
      ensures SeedEntry(data, masks, t, seed, stack[s]) || StepEntry(data, masks, t, points, dirsOf, |points|, stack[s])
      ensures stack[s].1 != [] ==> stack[s].0 in universe
    {
      assert stack[s] == full[s];
    }
    forall x: Entry | x in full && x != e ensures x in stack {
      var s :| 0 <= s < |full| && full[s] == x;
    }
  }

  /** Claiming the popped entry's point and pushing its steps keeps the invariant. */
  lemma WalkClaim(data: seq<string>, masks: seq<seq<Mask>>, t: WalkTables, seed: seq<Point>,
                  seen0: set<Point>, universe: set<Point>,
                  points: seq<Point>, dirsOf: seq<seq<Point>>, seen: set<Point>, stack: seq<Entry>, e: Entry)
    requires StopsAtBlank(t) && Cells(data) <= universe
    requires WalkInv(data, masks, t, seed, seen0, universe, points, dirsOf, seen, stack + [e])
    requires e.0 !in seen && e.1 != []
    ensures WalkInv(data, masks, t, seed, seen0, universe, points + [e.0], dirsOf + [e.1], seen + {e.0},
                    stack + Steps(data, masks, t, e.0, e.1))
  {
    var full := stack + [e];
    assert e == full[|stack|];
    ClaimPoint(data, masks, t, seed, seen0, universe, points, dirsOf, seen, e);
    ClaimEntries(data, masks, t, seed, universe, points, dirsOf, seen, stack, e);
  }

  /** The claimed point joins the claimed points. */
  lemma ClaimPoint(data: seq<string>, masks: seq<seq<Mask>>, t: WalkTables, seed: seq<Point>,
                   seen0: set<Point>, universe: set<Point>,
                   points: seq<Point>, dirsOf: seq<seq<Point>>, seen: set<Point>, e: Entry)
    requires WalkClaimed(data, masks, t, seed, seen0, universe, points, dirsOf, seen)
    requires e.0 !in seen && e.1 != [] && e.0 in universe
    requires SeedEntry(data, masks, t, seed, e) || StepEntry(data, masks, t, points, dirsOf, |points|, e)
    ensures WalkClaimed(data, masks, t, seed, seen0, universe, points + [e.0], dirsOf + [e.1], seen + {e.0})
  {
    var points' := points + [e.0];
    assert Distinct(points') by {
      forall i | 0 <= i < |points| ensures points'[i] != e.0 {
        assert points[i] in seen;
      }
    }
    ClaimTraced(data, masks, t, seed, points, dirsOf, e);
  }

  /** The claimed point's steps join the stack. */
  lemma ClaimEntries(data: seq<string>, masks: seq<seq<Mask>>, t: WalkTables, seed: seq<Point>,
                     universe: set<Point>, points: seq<Point>, dirsOf: seq<seq<Point>>, seen: set<Point>,
                     stack: seq<Entry>, e: Entry)
    requires StopsAtBlank(t) && Cells(data) <= universe
    requires WalkPending(data, masks, t, seed, universe, points, dirsOf, seen, stack + [e])
    ensures WalkPending(data, masks, t, seed, universe, points + [e.0], dirsOf + [e.1], seen + {e.0},
                        stack + Steps(data, masks, t, e.0, e.1))
  {
    var full := stack + [e];
    assert forall s :: 0 <= s < |stack| ==> stack[s] == full[s];
    ClaimStack(data, masks, t, seed, points, dirsOf, stack, e);
    ClaimUniverse(data, masks, t, universe, stack, e);
    ClaimPending(data, masks, t, seed, points, dirsOf, seen, stack, e);
  }

  /** Pushed entries that can still claim something lie in the universe. */
  lemma ClaimUniverse(data: seq<string>, masks: seq<seq<Mask>>, t: WalkTables, universe: set<Point>,
                      stack: seq<Entry>, e: Entry)
    requires StopsAtBlank(t) && Cells(data) <= universe
    requires forall s :: 0 <= s < |stack| && stack[s].1 != [] ==> stack[s].0 in universe
    ensures forall s :: 0 <= s < |stack + Steps(data, masks, t, e.0, e.1)| && (stack + Steps(data, masks, t, e.0, e.1))[s].1 != [] ==>
      (stack + Steps(data, masks, t, e.0, e.1))[s].0 in universe
  {
    var stack' := stack + Steps(data, masks, t, e.0, e.1);
    forall s | 0 <= s < |stack'| && stack'[s].1 != [] ensures stack'[s].0 in universe {
      if s < |stack| {
        assert stack'[s] == stack[s];
      } else {
        var q := stack'[s].0;
        if q !in Cells(data) {
          BlankOutside(data, masks, q);
        }
      }
    }
  }

  /** Every pending seed or step is still seen, dead, or on the stack after a claim. */
  lemma ClaimPending(data: seq<string>, masks: seq<seq<Mask>>, t: WalkTables, seed: seq<Point>,
                     points: seq<Point>, dirsOf: seq<seq<Point>>, seen: set<Point>, stack: seq<Entry>, e: Entry)
    requires |points| == |dirsOf|
    requires forall k :: 0 <= k < |seed| ==>
      seed[k] in seen || t.start(Look(data, masks, seed[k])) == [] || (seed[k], t.start(Look(data, masks, seed[k]))) in stack + [e]
    requires forall i, dir :: 0 <= i < |points| && dir in dirsOf[i] ==>
      points[i].Add(dir) in seen || t.next(Look(data, masks, points[i].Add(dir)), dir) == []
      || (points[i].Add(dir), t.next(Look(data, masks, points[i].Add(dir)), dir)) in stack + [e]
    ensures forall k :: 0 <= k < |seed| ==>
      seed[k] in seen + {e.0} || t.start(Look(data, masks, seed[k])) == []
      || (seed[k], t.start(Look(data, masks, seed[k]))) in stack + Steps(data, masks, t, e.0, e.1)
    ensures forall i, dir :: 0 <= i < |points + [e.0]| && dir in (dirsOf + [e.1])[i] ==>
      (points + [e.0])[i].Add(dir) in seen + {e.0} || t.next(Look(data, masks, (points + [e.0])[i].Add(dir)), dir) == []
      || ((points + [e.0])[i].Add(dir), t.next(Look(data, masks, (points + [e.0])[i].Add(dir)), dir)) in stack + Steps(data, masks, t, e.0, e.1)
  {
    var points', dirsOf', seen' := points + [e.0], dirsOf + [e.1], seen + {e.0};
    var steps := Steps(data, masks, t, e.0, e.1);
    var stack' := stack + steps;
    forall x: Entry | x in stack + [e] && x != e ensures x in stack' {
      var s :| 0 <= s < |stack + [e]| && (stack + [e])[s] == x;
      assert x == stack'[s];
    }
    forall i, dir | 0 <= i < |points'| && dir in dirsOf'[i]
      ensures points'[i].Add(dir) in seen' || t.next(Look(data, masks, points'[i].Add(dir)), dir) == []
        || (points'[i].Add(dir), t.next(Look(data, masks, points'[i].Add(dir)), dir)) in stack'
    {
      if i < |points| {
        assert points'[i] == points[i] && dirsOf'[i] == dirsOf[i];
      } else {
        var j :| 0 <= j < |e.1| && e.1[j] == dir;
        assert steps[j] == stack'[|stack| + j];
      }
    }
  }

  /** The claimed point is traced by the entry it was popped with. */
  lemma ClaimTraced(data: seq<string>, masks: seq<seq<Mask>>, t: WalkTables, seed: seq<Point>,
                    points: seq<Point>, dirsOf: seq<seq<Point>>, e: Entry)
    requires |points| == |dirsOf| && Traced(data, masks, t, seed, points, dirsOf)
    requires SeedEntry(data, masks, t, seed, e) || StepEntry(data, masks, t, points, dirsOf, |points|, e)
    ensures Traced(data, masks, t, seed, points + [e.0], dirsOf + [e.1])
  {
    var points', dirsOf' := points + [e.0], dirsOf + [e.1];
    forall i | 0 <= i < |points'|
      ensures SeedEntry(data, masks, t, seed, (points'[i], dirsOf'[i]))
        || StepEntry(data, masks, t, points', dirsOf', i, (points'[i], dirsOf'[i]))
    {
      if i < |points| {
        assert (points'[i], dirsOf'[i]) == (points[i], dirsOf[i]);
        if !SeedEntry(data, masks, t, seed, (points[i], dirsOf[i])) {
          var j :| 0 <= j < i && StepFrom(data, masks, t, points[j], dirsOf[j], (points[i], dirsOf[i]));
          assert points'[j] == points[j] && dirsOf'[j] == dirsOf[j];
        }
      } else {
        assert (points'[i], dirsOf'[i]) == e;
        if !SeedEntry(data, masks, t, seed, e) {
          var j :| 0 <= j < |points| && StepFrom(data, masks, t, points[j], dirsOf[j], e);
          assert points'[j] == points[j] && dirsOf'[j] == dirsOf[j];
        }
      }
    }
  }

  /** After a claim every stack entry is still a seed entry or a step out of a
      claimed point. */
  lemma ClaimStack(data: seq<string>, masks: seq<seq<Mask>>, t: WalkTables, seed: seq<Point>,
                   points: seq<Point>, dirsOf: seq<seq<Point>>, stack: seq<Entry>, e: Entry)
    requires |points| == |dirsOf|
    requires forall s :: 0 <= s < |stack| ==>
      SeedEntry(data, masks, t, seed, stack[s]) || StepEntry(data, masks, t, points, dirsOf, |points|, stack[s])
    ensures forall s :: 0 <= s < |stack + Steps(data, masks, t, e.0, e.1)| ==>
      SeedEntry(data, masks, t, seed, (stack + Steps(data, masks, t, e.0, e.1))[s])
      || StepEntry(data, masks, t, points + [e.0], dirsOf + [e.1], |points| + 1, (stack + Steps(data, masks, t, e.0, e.1))[s])
  {
    var points', dirsOf' := points + [e.0], dirsOf + [e.1];
    var stack' := stack + Steps(data, masks, t, e.0, e.1);
    forall s | 0 <= s < |stack'|
      ensures SeedEntry(data, masks, t, seed, stack'[s]) || StepEntry(data, masks, t, points', dirsOf', |points'|, stack'[s])
    {
      if s < |stack| {
        assert stack'[s] == stack[s];
        if !SeedEntry(data, masks, t, seed, stack[s]) {
          var j :| 0 <= j < |points| && StepFrom(data, masks, t, points[j], dirsOf[j], stack[s]);
          assert points'[j] == points[j] && dirsOf'[j] == dirsOf[j];
        }
      } else {
        var j := s - |stack|;
        assert e.1[j] in e.1;
        assert StepFrom(data, masks, t, points'[|points|], dirsOf'[|points|], stack'[s]);
      }
    }
  }

  /** `flood_walk(grid, seed, start_dirs, directions, seen)`: the points walked
      into, in the order they were claimed, and the new `seen`. The ghost
      `dirsOf[i]` is the list of steps points[i] was claimed with. */
  method FloodWalk(g: Grid, seed: seq<Point>, t: WalkTables, seen0: set<Point>)
    returns (points: seq<Point>, seen: set<Point>, ghost dirsOf: seq<seq<Point>>)
    requires g.Valid() && StopsAtBlank(t)
    ensures |dirsOf| == |points| && Distinct(points)
    ensures forall i :: 0 <= i < |points| ==> points[i] !in seen0 && dirsOf[i] != []
    ensures forall p :: p in seen <==> p in seen0 || p in points
    ensures Traced(g.data, g.masks, t, seed, points, dirsOf)
    ensures Closed(g.data, g.masks, t, seed, points, dirsOf, seen)
  {
    var data, masks := g.data, g.masks;
    ghost var universe := Cells(data) + set k | 0 <= k < |seed| :: seed[k];
    var stack: seq<Entry> := seq(|seed|, k requires 0 <= k < |seed| => (seed[k], t.start(Look(data, masks, seed[k]))));
    WalkInit(data, masks, t, seed, seen0, universe, stack);
    points, seen, dirsOf := Walk(g, t, seed, seen0, universe, stack);
    WalkDone(data, masks, t, seed, seen0, universe, points, dirsOf, seen);
  }

  /** The loop of `flood_walk`: pop and claim until the stack is empty. */
  method Walk(g: Grid, t: WalkTables, ghost seed: seq<Point>, seen0: set<Point>, ghost universe: set<Point>,
              stack0: seq<Entry>)
    returns (points: seq<Point>, seen: set<Point>, ghost dirsOf: seq<seq<Point>>)
    requires g.Valid() && StopsAtBlank(t) && Cells(g.data) <= universe
    requires WalkInv(g.data, g.masks, t, seed, seen0, universe, [], [], seen0, stack0)
    ensures WalkInv(g.data, g.masks, t, seed, seen0, universe, points, dirsOf, seen, [])
  {
    var stack := stack0;
    points, seen, dirsOf := [], seen0, [];
    while stack != []
      invariant WalkInv(g.data, g.masks, t, seed, seen0, universe, points, dirsOf, seen, stack)
      decreases |universe - seen|, |stack|
    {
      ghost var seenBefore := seen;
      stack, points, seen, dirsOf := WalkPop(g, t, seed, seen0, universe, stack, points, seen, dirsOf);
      if seen != seenBefore { SmallerRest(universe, seenBefore, seen); }
    }
  }

  /** One turn of the walk's loop: pop the last entry; unless its point is
      already seen or it has no steps, claim the point and push one entry per
      step. Either fewer points are left to claim, or nothing is claimed and
      the stack is shorter. */
  method WalkPop(g: Grid, t: WalkTables, ghost seed: seq<Point>, ghost seen0: set<Point>, ghost universe: set<Point>,
                 stack0: seq<Entry>, points0: seq<Point>, seen0': set<Point>, ghost dirsOf0: seq<seq<Point>>)
    returns (stack: seq<Entry>, points: seq<Point>, seen: set<Point>, ghost dirsOf: seq<seq<Point>>)
    requires g.Valid() && StopsAtBlank(t) && Cells(g.data) <= universe && stack0 != []
    requires WalkInv(g.data, g.masks, t, seed, seen0, universe, points0, dirsOf0, seen0', stack0)
    ensures WalkInv(g.data, g.masks, t, seed, seen0, universe, points, dirsOf, seen, stack)
    ensures (seen == seen0' && |stack| < |stack0|) || (seen0' < seen <= seen0' + universe)
  {
    var e := stack0[|stack0| - 1];
    stack := stack0[..|stack0| - 1];
    assert stack + [e] == stack0;
    var point, dirs := e.0, e.1;
    if point in seen0' || dirs == [] {
      WalkSkip(g.data, g.masks, t, seed, seen0, universe, points0, dirsOf0, seen0', stack, e);
      return stack, points0, seen0', dirsOf0;
    }
    WalkClaim(g.data, g.masks, t, seed, seen0, universe, points0, dirsOf0, seen0', stack, e);
    seen := seen0' + {point};
    points := points0 + [point];
    dirsOf := dirsOf0 + [dirs];
    stack := PushSteps(g, t, stack, point, dirs);
  }

  /** Seeing more points of the universe leaves fewer of it unseen. */
  lemma SmallerRest(universe: set<Point>, seen0: set<Point>, seen: set<Point>)
    requires seen0 < seen <= seen0 + universe
    ensures |universe - seen| < |universe - seen0|
  {
    var p :| p in seen && p !in seen0;
    var rest := universe - seen0;
    assert p in rest;
    assert |rest - {p}| == |rest| - 1;
    var left, gone := universe - seen, rest - {p};
    assert left <= gone;
    assert gone == left + (gone - left) && left * (gone - left) == {};
  }

  /** With the stack empty, the invariant gives the walk's postcondition. */
  lemma WalkDone(data: seq<string>, masks: seq<seq<Mask>>, t: WalkTables, seed: seq<Point>,
                 seen0: set<Point>, universe: set<Point>,
                 points: seq<Point>, dirsOf: seq<seq<Point>>, seen: set<Point>)
    requires WalkInv(data, masks, t, seed, seen0, universe, points, dirsOf, seen, [])
    ensures |dirsOf| == |points| && Distinct(points)
    ensures forall i :: 0 <= i < |points| ==> points[i] !in seen0 && dirsOf[i] != []
    ensures forall p :: p in seen <==> p in seen0 || p in points
    ensures Traced(data, masks, t, seed, points, dirsOf)
    ensures Closed(data, masks, t, seed, points, dirsOf, seen)
  {
  }

  /** `for dir in dirs: stack.append((point + dir, directions[grid.get(point + dir)][dir]))`. */
  method PushSteps(g: Grid, t: WalkTables, stack0: seq<Entry>, point: Point, dirs: seq<Point>) returns (stack: seq<Entry>)
    requires g.Valid()
    ensures stack == stack0 + Steps(g.data, g.masks, t, point, dirs)
  {
    stack := stack0;
    var i := 0;
    while i < |dirs|
      invariant 0 <= i <= |dirs|
      invariant stack == stack0 + Steps(g.data, g.masks, t, point, dirs[..i])
    {
      var nextPt := point.Add(dirs[i]);
      stack := stack + [(nextPt, t.next(g.Get(nextPt), dirs[i]))];
      assert dirs[..i + 1] == dirs[..i] + [dirs[i]];
      assert Steps(g.data, g.masks, t, point, dirs[..i + 1])
        == Steps(g.data, g.masks, t, point, dirs[..i]) + [(nextPt, t.next(Look(g.data, g.masks, nextPt), dirs[i]))];
      i := i + 1;
    }
    assert dirs[..i] == dirs;
  }

  /** Point i was entered by one of the steps of an earlier claimed point,
      into a cell whose table entry for that step is not empty. */
  ghost predicate EnteredFrom(data: seq<string>, masks: seq<seq<Mask>>, t: WalkTables,
                              points: seq<Point>, dirsOf: seq<seq<Point>>, i: int)
    requires 0 <= i < |points| == |dirsOf|
  {
    exists j :: 0 <= j < i && Diff(points[j], points[i]) in dirsOf[j]
      && t.next(Look(data, masks, points[i]), Diff(points[j], points[i])) != []
  }

  /** The first claimed point is a seed, and every claimed point is a seed or
      was entered from an earlier one. */
  lemma TracedSteps(data: seq<string>, masks: seq<seq<Mask>>, t: WalkTables, seed: seq<Point>,
                    points: seq<Point>, dirsOf: seq<seq<Point>>)
    requires |points| == |dirsOf| && forall i :: 0 <= i < |points| ==> dirsOf[i] != []
    requires Traced(data, masks, t, seed, points, dirsOf)
    ensures |points| > 0 ==> points[0] in seed
    ensures forall i :: 0 <= i < |points| ==> points[i] in seed || EnteredFrom(data, masks, t, points, dirsOf, i)
  {
    if |points| > 0 {
      assert SeedEntry(data, masks, t, seed, (points[0], dirsOf[0]));
    }
    forall i | 0 <= i < |points| && points[i] !in seed
      ensures EnteredFrom(data, masks, t, points, dirsOf, i)
    {
      var e := (points[i], dirsOf[i]);
      assert !SeedEntry(data, masks, t, seed, e);
      var j :| 0 <= j < i && StepFrom(data, masks, t, points[j], dirsOf[j], e);
      var dir :| dir in dirsOf[j] && e == (points[j].Add(dir), t.next(Look(data, masks, points[j].Add(dir)), dir));
      assert Diff(points[j], points[i]) == dir;
    }
  }

  /** When every start entry is D and every step entry is empty or D, every
      claimed point carries the steps D. */
  lemma TracedDirsConst(data: seq<string>, masks: seq<seq<Mask>>, t: WalkTables, seed: seq<Point>,
                        points: seq<Point>, dirsOf: seq<seq<Point>>, D: seq<Point>)
    requires |points| == |dirsOf| && forall i :: 0 <= i < |points| ==> dirsOf[i] != []
    requires Traced(data, masks, t, seed, points, dirsOf)
    requires forall c :: t.start(c) == D
    requires forall c, v :: t.next(c, v) == [] || t.next(c, v) == D
    ensures forall i :: 0 <= i < |points| ==> dirsOf[i] == D
  {
    forall i | 0 <= i < |points| ensures dirsOf[i] == D {
      var e := (points[i], dirsOf[i]);
      if !SeedEntry(data, masks, t, seed, e) {
        var j :| 0 <= j < i && StepFrom(data, masks, t, points[j], dirsOf[j], e);
      }
    }
  }
}
