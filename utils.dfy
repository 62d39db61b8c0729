/** The list helpers of schemascii/utils.py on integer points: boundary
    points, link chaining and merging, junction dots, path commands, and the
    terminal orderings. */
module Utils {
  import opened Base
  import opened Text
  import opened Geometry

  // ---------------------------------------------------------------- perimeter

  /** Some of the eight neighbours of p is outside pts. */
  predicate OnEdge(pts: seq<Point>, p: Point)
  {
    exists d :: d in Moore && p.Add(d) !in pts
  }

  /** `xs` keeps some of the elements of `ys`, in their order. */
  predicate IsSubsequence<T(==)>(xs: seq<T>, ys: seq<T>)
  {
    |xs| == 0 || (|ys| > 0 && if xs[0] == ys[0] then IsSubsequence(xs[1..], ys[1..]) else IsSubsequence(xs, ys[1..]))
  }

  /** The boundary points among `rest`, each tested against all of `pts`. */
  function PerimeterOf(pts: seq<Point>, rest: seq<Point>): (r: seq<Point>)
    ensures IsSubsequence(r, rest)
    ensures forall p :: multiset(r)[p] == if OnEdge(pts, p) then multiset(rest)[p] else 0
  {
    if |rest| == 0 then []
    else
      var tail := PerimeterOf(pts, rest[1..]);
      assert rest == [rest[0]] + rest[1..];
      if OnEdge(pts, rest[0]) then [rest[0]] + tail else tail
  }

  /** `perimeter(pts)`: in input order, the points with a neighbour (of eight)
      outside pts, each as often as it occurs in pts. */
  function Perimeter(pts: seq<Point>): (r: seq<Point>)
    ensures IsSubsequence(r, pts)
    ensures forall p :: p in r <==> p in pts && OnEdge(pts, p)
    ensures forall p :: multiset(r)[p] == if OnEdge(pts, p) then multiset(pts)[p] else 0
  {
    var r := PerimeterOf(pts, pts);
    assert forall p :: p in r <==> multiset(r)[p] > 0;
    r
  }

  // ------------------------------------------------------------- intersecting

  predicate Within(x: int, lo: int, hi: int) { lo <= x <= hi }

  function Min(a: int, b: int): int { if a <= b then a else b }
  function Max(a: int, b: int): int { if a <= b then b else a }

  /** `intersecting(a, b, p, q)` as written: on the real parts, the sorted
      start of PQ lies in AB, or the sorted end of AB lies in PQ. */
  function Intersecting(a: Point, b: Point, p: Point, q: Point): (r: bool)
    ensures r ==> Min(a.x, b.x) <= Max(p.x, q.x) && Min(p.x, q.x) <= Max(a.x, b.x)
  {
    var sa, sb := Min(a.x, b.x), Max(a.x, b.x);
    var sp, sq := Min(p.x, q.x), Max(p.x, q.x);
    (sa <= sp <= sb) || (sp <= sb <= sq)
  }

  /** The segments [0, 5] and [2, 10] share [2, 5], yet the test says they do
      not intersect: PQ starts before AB and ends inside it. */
  lemma IntersectingMissesOverlap()
    ensures !Intersecting(Point(2, 0), Point(10, 0), Point(0, 0), Point(5, 0))
    ensures Overlapping(Point(2, 0), Point(10, 0), Point(0, 0), Point(5, 0))
  {
  }

  /** The evident intent: the two ranges of real parts share a point. */
  function Overlapping(a: Point, b: Point, p: Point, q: Point): (r: bool)
    ensures r <==> exists x :: Within(x, Min(a.x, b.x), Max(a.x, b.x)) && Within(x, Min(p.x, q.x), Max(p.x, q.x))
  {
    var sa, sb := Min(a.x, b.x), Max(a.x, b.x);
    var sp, sq := Min(p.x, q.x), Max(p.x, q.x);
    if sa <= sq && sp <= sb then
      var x := Max(sa, sp);
      assert Within(x, sa, sb) && Within(x, sp, sq);
      true
    else false
  }

  /** The test as written is sound: whatever it reports as intersecting does
      overlap. Only the converse fails, by the case it misses. */
  lemma IntersectingImpliesOverlapping(a: Point, b: Point, p: Point, q: Point)
    ensures Intersecting(a, b, p, q) ==> Overlapping(a, b, p, q)
  {
  }

  // ---------------------------------------------------------------- find_dots

  type Link = (Point, Point)

  /** How many links of non-zero length end at p, counting both ends. */
  function Degree(links: seq<Link>, p: Point): nat
  {
    if |links| == 0 then 0
    else
      var l := links[|links| - 1];
      Degree(links[..|links| - 1], p)
        + (if l.0 != l.1 && l.0 == p then 1 else 0)
        + (if l.0 != l.1 && l.1 == p then 1 else 0)
  }

  /** `order` with p added at the end, unless it is there already. */
  function AddNew(order: seq<Point>, p: Point): (r: seq<Point>)
    ensures forall q :: q in r <==> q in order || q == p
    ensures Distinct(order) ==> Distinct(r)
  {
    if p in order then order else order + [p]
  }

  /** The endpoints of the links of non-zero length, each once, in order of
      first appearance: the order of the keys of `find_dots`'s dict. */
  function FirstAppearance(links: seq<Link>): (order: seq<Point>)
    ensures Distinct(order)
    ensures forall p :: p in order <==> Degree(links, p) > 0
  {
    if |links| == 0 then []
    else
      var l := links[|links| - 1];
      var front := FirstAppearance(links[..|links| - 1]);
      if l.0 != l.1 then AddNew(AddNew(front, l.0), l.1) else front
  }

  /** `counts` is the dict of `find_dots` after `links`: the degree of each endpoint
      of a link of non-zero length, keyed in order of first appearance. */
  ghost predicate CountsOf(links: seq<Link>, counts: map<Point, nat>, order: seq<Point>)
  {
    && (forall p :: p in counts <==> Degree(links, p) > 0)
    && (forall p :: p in counts ==> counts[p] == Degree(links, p))
    && order == FirstAppearance(links)
  }

  /** One endpoint counted: its count goes up, or it gets count 1 and goes
      to the end of the key order. */
  function CountOne(counts: map<Point, nat>, order: seq<Point>, p: Point): (r: (map<Point, nat>, seq<Point>))
    ensures (p in counts <==> p in order) ==> r.1 == AddNew(order, p)
    ensures forall q :: q in r.0 <==> q in counts || q == p
    ensures forall q :: q in r.0 ==> r.0[q] == (if q in counts then counts[q] else 0) + (if q == p then 1 else 0)
  {
    if p in counts then (counts[p := counts[p] + 1], order) else (counts[p := 1], order + [p])
  }

  /** One more link: nothing changes for a zero-length one, otherwise both
      ends are counted. */
  lemma CountsStep(links: seq<Link>, i: nat, counts: map<Point, nat>, order: seq<Point>)
    requires i < |links| && CountsOf(links[..i], counts, order)
    ensures links[i].0 == links[i].1 ==> CountsOf(links[..i + 1], counts, order)
    ensures var first := CountOne(counts, order, links[i].0);
            var both := CountOne(first.0, first.1, links[i].1);
            links[i].0 != links[i].1 ==> CountsOf(links[..i + 1], both.0, both.1)
  {
    var pre := links[..i + 1];
    assert pre[..i] == links[..i] && pre[i] == links[i];
    DegreeStep(links, i);
    if links[i].0 != links[i].1 {
      CountsStepPair(links, i, counts, order);
    } else {
      assert FirstAppearance(pre) == order;
    }
  }

  /** The case of a link of non-zero length. */
  lemma CountsStepPair(links: seq<Link>, i: nat, counts: map<Point, nat>, order: seq<Point>)
    requires i < |links| && CountsOf(links[..i], counts, order)
    requires links[i].0 != links[i].1
    ensures var first := CountOne(counts, order, links[i].0);
            var both := CountOne(first.0, first.1, links[i].1);
            CountsOf(links[..i + 1], both.0, both.1)
  {
    var pre := links[..i + 1];
    var (p1, p2) := links[i];
    var first := CountOne(counts, order, p1);
    var both := CountOne(first.0, first.1, p2);
    CountPair(counts, order, p1, p2);
    assert pre[..i] == links[..i] && pre[i] == links[i];
    assert FirstAppearance(pre) == both.1;
    DegreesOfPair(links, i, counts, both.0);
  }

  /** The dict after counting both ends of link i holds the degrees after
      it, given that the dict before held those before it. */
  lemma DegreesOfPair(links: seq<Link>, i: nat, counts: map<Point, nat>, after: map<Point, nat>)
    requires i < |links| && links[i].0 != links[i].1
    requires forall p :: p in counts <==> Degree(links[..i], p) > 0
    requires forall p :: p in counts ==> counts[p] == Degree(links[..i], p)
    requires forall p :: p in after <==> p in counts || p == links[i].0 || p == links[i].1
    requires forall p :: p in after ==>
      after[p] == (if p in counts then counts[p] else 0) + (if p == links[i].0 then 1 else 0) + (if p == links[i].1 then 1 else 0)
    ensures forall p :: p in after <==> Degree(links[..i + 1], p) > 0
    ensures forall p :: p in after ==> after[p] == Degree(links[..i + 1], p)
  {
    DegreeStep(links, i);
  }

  /** Counting both ends of a link, in terms of the dict before. */
  lemma CountPair(counts: map<Point, nat>, order: seq<Point>, p1: Point, p2: Point)
    requires forall p :: p in counts <==> p in order
    ensures var first := CountOne(counts, order, p1);
            var both := CountOne(first.0, first.1, p2);
            && both.1 == AddNew(AddNew(order, p1), p2)
            && (forall p :: p in both.0 <==> p in counts || p == p1 || p == p2)
            && (forall p :: p in both.0 ==>
                  both.0[p] == (if p in counts then counts[p] else 0) + (if p == p1 then 1 else 0) + (if p == p2 then 1 else 0))
  {
    var first := CountOne(counts, order, p1);
    assert forall p :: p in first.0 <==> p in first.1;
  }

  lemma DegreeStep(links: seq<Link>, i: nat)
    requires i < |links|
    ensures var l := links[i];
            forall p :: Degree(links[..i + 1], p)
              == Degree(links[..i], p) + (if l.0 != l.1 && l.0 == p then 1 else 0) + (if l.0 != l.1 && l.1 == p then 1 else 0)
  {
    assert links[..i + 1][..i] == links[..i];
  }

  /** `find_dots(points)`: every point where more than three links of
      non-zero length meet, each once, in order of first appearance. */
  method FindDots(links: seq<Link>) returns (dots: seq<Point>)
    ensures forall p :: p in dots <==> Degree(links, p) > 3
    ensures Distinct(dots)
    ensures IsSubsequence(dots, FirstAppearance(links))
  {
    var counts: map<Point, nat> := map[];
    var order: seq<Point> := [];
    var i := 0;
    while i < |links|
      invariant 0 <= i <= |links|
      invariant CountsOf(links[..i], counts, order)
    {
      var (p1, p2) := links[i];
      CountsStep(links, i, counts, order);
      if p1 != p2 {
        ghost var first := CountOne(counts, order, p1);
        if p1 !in counts {
          counts := counts[p1 := 1];
          order := order + [p1];
        } else {
          counts := counts[p1 := counts[p1] + 1];
        }
        assert (counts, order) == first;
        if p2 !in counts {
          counts := counts[p2 := 1];
          order := order + [p2];
        } else {
          counts := counts[p2 := counts[p2] + 1];
        }
      }
      i := i + 1;
    }
    assert links[..i] == links;
    dots := SelectDots(counts, order);
  }

  /** The closing comprehension of `find_dots`: the counted points seen
      more than three times, in key order. */
  method SelectDots(counts: map<Point, nat>, order: seq<Point>) returns (dots: seq<Point>)
    requires Distinct(order) && forall p :: p in order ==> p in counts
    ensures forall p :: p in dots <==> p in order && counts[p] > 3
    ensures IsSubsequence(dots, order) && Distinct(dots)
  {
    dots := [];
    var k := 0;
    while k < |order|
      invariant 0 <= k <= |order|
      invariant forall p :: p in dots <==> p in order[..k] && counts[p] > 3
      invariant IsSubsequence(dots, order[..k]) && Distinct(dots)
    {
      DotsStep(dots, order, k, counts[order[k]] > 3);
      if counts[order[k]] > 3 {
        dots := dots + [order[k]];
      }
      k := k + 1;
    }
    assert order[..k] == order;
  }

  lemma DotsStep(dots: seq<Point>, order: seq<Point>, k: nat, keep: bool)
    requires k < |order| && Distinct(order) && IsSubsequence(dots, order[..k]) && Distinct(dots)
    ensures keep ==> IsSubsequence(dots + [order[k]], order[..k + 1]) && Distinct(dots + [order[k]])
    ensures !keep ==> IsSubsequence(dots, order[..k + 1])
  {
    assert order[..k + 1] == order[..k] + [order[k]];
    SubsequenceAppend(dots, order[..k], order[k], keep);
    if keep {
      forall x | x in dots ensures x in order[..k] { SubsequenceIn(dots, order[..k], x); }
      assert order[k] !in order[..k];
    }
  }

  lemma {:induction false} SubsequenceIn<T>(xs: seq<T>, ys: seq<T>, x: T)
    requires IsSubsequence(xs, ys) && x in xs
    ensures x in ys
    decreases |ys|
  {
    if xs[0] == ys[0] {
      if x != xs[0] { SubsequenceIn(xs[1..], ys[1..], x); }
    } else {
      SubsequenceIn(xs, ys[1..], x);
    }
  }

  lemma {:induction false} SubsequenceAppend<T>(xs: seq<T>, ys: seq<T>, y: T, keep: bool)
    requires IsSubsequence(xs, ys)
    ensures keep ==> IsSubsequence(xs + [y], ys + [y])
    ensures !keep ==> IsSubsequence(xs, ys + [y])
    decreases |ys|
  {
    if |xs| == 0 {
      if keep {
        if |ys| == 0 {
          assert IsSubsequence([y][1..], (ys + [y])[1..]);
        } else {
          SubsequenceAppend(xs, ys[1..], y, keep);
          assert (ys + [y])[1..] == ys[1..] + [y];
        }
      }
    } else if xs[0] == ys[0] {
      SubsequenceAppend(xs[1..], ys[1..], y, keep);
      assert (xs + [y])[1..] == xs[1..] + [y];
      assert (ys + [y])[1..] == ys[1..] + [y];
    } else {
      SubsequenceAppend(xs, ys[1..], y, keep);
      assert (ys + [y])[1..] == ys[1..] + [y];
    }
  }

  // ---------------------------------------------------------- take_next_group

  function Reversed(l: Link): Link { (l.1, l.0) }

  /** Each link ends where the next one starts. */
  predicate Chain(best: seq<Link>)
  {
    forall i :: 0 <= i < |best| - 1 ==> best[i].1 == best[i + 1].0
  }

  /** best[i] is taken[i], possibly turned around. */
  predicate Oriented(best: seq<Link>, taken: seq<Link>)
  {
    |best| == |taken| && forall i :: 0 <= i < |best| ==> best[i] == taken[i] || best[i] == Reversed(taken[i])
  }

  /** The pair touches the chain's free start `head` or its free end `tail`. */
  predicate Touches(pair: Link, head: Point, tail: Point)
  {
    pair.0 == head || pair.1 == head || pair.0 == tail || pair.1 == tail
  }

  /** `xs.remove(x)`: drop the first element equal to x. */
  function RemoveFirst<T(==)>(xs: seq<T>, x: T): (r: seq<T>)
    requires x in xs
    ensures |r| == |xs| - 1 && multiset(r) + multiset{x} == multiset(xs)
    ensures forall y :: y in r ==> y in xs
    ensures forall k :: 0 <= k < |xs| && xs[k] == x && x !in xs[..k] ==> r == xs[..k] + xs[k + 1..]
  {
    var k := IndexOf(xs, x).value;
    assert xs == xs[..k] + [xs[k]] + xs[k + 1..];
    xs[..k] + xs[k + 1..]
  }

  /** The pair continues the chain's start (and is put in front). */
  predicate AtFront(best: seq<Link>, pair: Link)
    requires |best| >= 1
  {
    best[0].0 == pair.1 || best[0].0 == pair.0
  }

  /** The chain with a touching pair put in front of its start or after its
      end, turned around so that the ends meet. */
  function Attach(best: seq<Link>, pair: Link): seq<Link>
    requires |best| >= 1
  {
    if best[0].0 == pair.1 then [pair] + best
    else if best[0].0 == pair.0 then [Reversed(pair)] + best
    else if best[|best| - 1].1 == pair.0 then best + [pair]
    else best + [Reversed(pair)]
  }

  /** Attaching a touching pair keeps a chain a chain, and the attached link
      is the pair or its reverse. */
  lemma AttachKeepsChain(best: seq<Link>, taken: seq<Link>, pair: Link)
    requires |best| >= 1 && Chain(best) && Oriented(best, taken)
    requires Touches(pair, best[0].0, best[|best| - 1].1)
    ensures |Attach(best, pair)| == |best| + 1 && Chain(Attach(best, pair))
    ensures Oriented(Attach(best, pair), if AtFront(best, pair) then [pair] + taken else taken + [pair])
  {
    var b := Attach(best, pair);
    var t := if AtFront(best, pair) then [pair] + taken else taken + [pair];
    if AtFront(best, pair) {
      assert forall i :: 1 <= i < |b| ==> b[i] == best[i - 1] && t[i] == taken[i - 1];
    } else {
      assert forall i :: 0 <= i < |best| ==> b[i] == best[i] && t[i] == taken[i];
    }
  }

  /** The `for pair in links` scan: the index of the first link that touches
      either free end of the chain, or |links| when none does. */
  method FirstTouching(links: seq<Link>, head: Point, tail: Point) returns (k: nat)
    ensures k <= |links|
    ensures k < |links| ==> Touches(links[k], head, tail)
    ensures forall j :: 0 <= j < k ==> !Touches(links[j], head, tail)
  {
    k := 0;
    while k < |links| && !Touches(links[k], head, tail)
      invariant k <= |links|
      invariant forall j :: 0 <= j < k ==> !Touches(links[j], head, tail)
    {
      k := k + 1;
    }
  }

  /** `take_next_group(links)`: pop the last link, then keep prepending or
      appending the first remaining link that continues either end of the
      chain (turned around where needed) until none does. `rest` is what is
      left of `links`; the ghost `taken` lists the links removed, in chain
      order and as they were stored. */
  method TakeNextGroup(links: seq<Link>) returns (r: Result<seq<Link>>, rest: seq<Link>, ghost taken: seq<Link>)
    ensures links == [] <==> r.Err?
    ensures r.Err? ==> r.error == IndexError("pop from empty list") && rest == links
    ensures r.Ok? ==> |r.value| >= 1 && Chain(r.value) && Oriented(r.value, taken)
    ensures r.Ok? ==> multiset(taken) + multiset(rest) == multiset(links)
    ensures r.Ok? ==> forall pair :: pair in rest ==> !Touches(pair, r.value[0].0, r.value[|r.value| - 1].1)
  {
    if links == [] {
      return Err(IndexError("pop from empty list")), links, [];
    }
    var best := [links[|links| - 1]];
    rest := links[..|links| - 1];
    taken := best;
    assert links == rest + best;
    while true
      invariant |best| >= 1 && Chain(best) && Oriented(best, taken)
      invariant multiset(taken) + multiset(rest) == multiset(links)
      decreases |rest|
    {
      var k := FirstTouching(rest, best[0].0, best[|best| - 1].1);
      if k == |rest| {
        break;
      }
      var pair := rest[k];
      AttachKeepsChain(best, taken, pair);
      taken := if AtFront(best, pair) then [pair] + taken else taken + [pair];
      best := Attach(best, pair);
      rest := RemoveFirst(rest, pair);
    }
    r := Ok(best);
  }

  // ----------------------------------------------------------- merge_colinear

  /** Every endpoint of the links. */
  function Ends(links: seq<Link>): set<Point>
  {
    (set l | l in links :: l.0) + (set l | l in links :: l.1)
  }

  /** `merge_colinear` from position i on, over a colinearity test; as written
      a zero-length link at i is dropped with `links.remove(links[i])`, which
      removes the FIRST link equal to it; a link at i that continues link i-1
      in a straight line is merged into it and then removed the same way;
      otherwise i moves on. */
  function MergeFrom(links: seq<Link>, i: nat, colinear: (Point, Point, Point) -> bool): seq<Link>
    requires i >= 1
    decreases |links|, |links| - i
  {
    if |links| == 0 || i >= |links| then links
    else if links[i].0 == links[i].1 then
      MergeFrom(RemoveFirst(links, links[i]), i, colinear)
    else if links[i - 1].1 == links[i].0 && colinear(links[i - 1].0, links[i].0, links[i].1) then
      var merged := links[i - 1 := (links[i - 1].0, links[i].1)];
      assert merged[i] == links[i];
      MergeFrom(RemoveFirst(merged, links[i]), i, colinear)
    else MergeFrom(links, i + 1, colinear)
  }

  /** Merging never lengthens the list and introduces no new endpoint. */
  lemma {:induction false} MergeKeepsEnds(links: seq<Link>, i: nat, colinear: (Point, Point, Point) -> bool)
    requires i >= 1
    ensures |MergeFrom(links, i, colinear)| <= |links|
    ensures Ends(MergeFrom(links, i, colinear)) <= Ends(links)
    decreases |links|, |links| - i
  {
    if |links| == 0 || i >= |links| {
    } else if links[i].0 == links[i].1 {
      var shorter := RemoveFirst(links, links[i]);
      MergeKeepsEnds(shorter, i, colinear);
      assert Ends(shorter) <= Ends(links);
    } else if links[i - 1].1 == links[i].0 && colinear(links[i - 1].0, links[i].0, links[i].1) {
      var merged := links[i - 1 := (links[i - 1].0, links[i].1)];
      assert merged[i] == links[i];
      assert Ends(merged) <= Ends(links) by {
        forall l | l in merged ensures l.0 in Ends(links) && l.1 in Ends(links) {
          if l != merged[i - 1] {
            var k :| 0 <= k < |merged| && merged[k] == l;
            assert l == links[k];
          }
        }
      }
      var shorter := RemoveFirst(merged, links[i]);
      MergeKeepsEnds(shorter, i, colinear);
      assert Ends(shorter) <= Ends(merged);
    } else {
      MergeKeepsEnds(links, i + 1, colinear);
    }
  }

  /** With no zero-length link and nothing colinear, merging changes nothing. */
  lemma {:induction false} MergeWithNothingToDo(links: seq<Link>, i: nat, colinear: (Point, Point, Point) -> bool)
    requires i >= 1
    requires forall l :: l in links ==> l.0 != l.1
    requires forall a, b, c :: !colinear(a, b, c)
    ensures MergeFrom(links, i, colinear) == links
    decreases |links| - i
  {
    if |links| > 0 && i < |links| {
      assert links[i] in links;
      assert links[i].0 != links[i].1 && !colinear(links[i - 1].0, links[i].0, links[i].1);
      assert MergeFrom(links, i, colinear) == MergeFrom(links, i + 1, colinear);
      MergeWithNothingToDo(links, i + 1, colinear);
    }
  }

  /** `merge_colinear(links)`: the new contents of the list it mutates;
      `colinear` stands for the floating-point phase test of the source. */
  method MergeColinear(links: seq<Link>, colinear: (Point, Point, Point) -> bool) returns (out: seq<Link>)
    ensures out == MergeFrom(links, 1, colinear)
    ensures |out| <= |links| && Ends(out) <= Ends(links)
    ensures (forall l :: l in links ==> l.0 != l.1) && (forall a, b, c :: !colinear(a, b, c)) ==> out == links
  {
    MergeKeepsEnds(links, 1, colinear);
    if (forall l :: l in links ==> l.0 != l.1) && (forall a, b, c :: !colinear(a, b, c)) {
      MergeWithNothingToDo(links, 1, colinear);
    }
    out := links;
    var i := 1;
    while out != []
      invariant i >= 1 && MergeFrom(out, i, colinear) == MergeFrom(links, 1, colinear)
      decreases |out|, |out| - i
    {
      if i >= |out| {
        break;
      } else if out[i].0 == out[i].1 {
        out := RemoveFirst(out, out[i]);
      } else if out[i - 1].1 == out[i].0 && colinear(out[i - 1].0, out[i].0, out[i].1) {
        var link := out[i];
        out := out[i - 1 := (out[i - 1].0, out[i].1)];
        assert out[i] == link;
        out := RemoveFirst(out, link);
      } else {
        i := i + 1;
      }
    }
  }

  /** The list with every zero-length link dropped. */
  function DropZeroLinks(links: seq<Link>): (r: seq<Link>)
    ensures forall l :: l in r ==> l in links && l.0 != l.1
  {
    if |links| == 0 then []
    else (if links[0].0 != links[0].1 then [links[0]] else []) + DropZeroLinks(links[1..])
  }

  /** As written, removing the zero-length link at position 2 removes the
      equal one at position 0 instead: the first link is lost and a
      zero-length link is left at position 1, whatever `colinear` says. */
  lemma MergeColinearKeepsZeroLink(colinear: (Point, Point, Point) -> bool)
    ensures var p, q, s := Point(0, 0), Point(5, 5), Point(6, 5);
      MergeFrom([(p, p), (q, s), (p, p)], 1, colinear) == [(q, s), (p, p)]
  {
    var p, q, s := Point(0, 0), Point(5, 5), Point(6, 5);
    var links := [(p, p), (q, s), (p, p)];
    assert MergeFrom(links, 1, colinear) == MergeFrom(links, 2, colinear);
    assert RemoveFirst(links, (p, p)) == [(q, s), (p, p)];
  }

  /** `merge_colinear` as evidently intended: a zero-length link or a merged
      link at i is deleted at i (`del links[i]`). */
  function MergeFromFixed(links: seq<Link>, i: nat, colinear: (Point, Point, Point) -> bool): seq<Link>
    requires i >= 1
    decreases |links|, |links| - i
  {
    if |links| == 0 || i >= |links| then links
    else if links[i].0 == links[i].1 then
      MergeFromFixed(links[..i] + links[i + 1..], i, colinear)
    else if links[i - 1].1 == links[i].0 && colinear(links[i - 1].0, links[i].0, links[i].1) then
      MergeFromFixed(links[..i - 1] + [(links[i - 1].0, links[i].1)] + links[i + 1..], i, colinear)
    else MergeFromFixed(links, i + 1, colinear)
  }

  /** The intended merge scans left to right: the links before position i-1
      are never touched again. */
  lemma {:induction false} MergeFixedKeepsPrefix(links: seq<Link>, i: nat, colinear: (Point, Point, Point) -> bool)
    requires 1 <= i <= |links|
    ensures |MergeFromFixed(links, i, colinear)| >= i - 1
    ensures MergeFromFixed(links, i, colinear)[..i - 1] == links[..i - 1]
    decreases |links|, |links| - i
  {
    if i < |links| {
      if links[i].0 == links[i].1 {
        var shorter := links[..i] + links[i + 1..];
        MergeFixedKeepsPrefix(shorter, i, colinear);
        assert shorter[..i - 1] == links[..i - 1];
      } else if links[i - 1].1 == links[i].0 && colinear(links[i - 1].0, links[i].0, links[i].1) {
        var merged := links[..i - 1] + [(links[i - 1].0, links[i].1)] + links[i + 1..];
        MergeFixedKeepsPrefix(merged, i, colinear);
        assert merged[..i - 1] == links[..i - 1];
      } else {
        MergeFixedKeepsPrefix(links, i + 1, colinear);
        var r := MergeFromFixed(links, i + 1, colinear);
        assert r[..i - 1] == r[..i][..i - 1];
      }
    }
  }

  /** With nothing colinear, the intended merge keeps the first link and
      exactly the links of non-zero length after it, in order. */
  lemma {:induction false} MergeFixedDropsZeroLinks(links: seq<Link>, i: nat, colinear: (Point, Point, Point) -> bool)
    requires 1 <= i <= |links| && forall a, b, c :: !colinear(a, b, c)
    requires forall j :: 1 <= j < i ==> links[j].0 != links[j].1
    ensures MergeFromFixed(links, i, colinear) == links[..i] + DropZeroLinks(links[i..])
    decreases |links|, |links| - i
  {
    if i == |links| {
      assert links[i..] == [];
    } else if links[i].0 == links[i].1 {
      var shorter := links[..i] + links[i + 1..];
      MergeFixedDropsZeroLinks(shorter, i, colinear);
      DropStep(links, i, colinear, shorter);
    } else {
      MergeFixedDropsZeroLinks(links, i + 1, colinear);
      KeepStep(links, i, colinear);
    }
  }

  lemma DropStep(links: seq<Link>, i: nat, colinear: (Point, Point, Point) -> bool, shorter: seq<Link>)
    requires 1 <= i < |links| && links[i].0 == links[i].1
    requires shorter == links[..i] + links[i + 1..]
    requires MergeFromFixed(shorter, i, colinear) == shorter[..i] + DropZeroLinks(shorter[i..])
    ensures MergeFromFixed(links, i, colinear) == links[..i] + DropZeroLinks(links[i..])
  {
    assert MergeFromFixed(links, i, colinear) == MergeFromFixed(shorter, i, colinear);
    assert shorter[..i] == links[..i] && shorter[i..] == links[i + 1..];
    DropZeroHead(links[i..]);
    assert links[i..][1..] == links[i + 1..];
  }

  /** A zero-length link at the head is dropped. */
  lemma DropZeroHead(tail: seq<Link>)
    requires |tail| > 0 && tail[0].0 == tail[0].1
    ensures DropZeroLinks(tail) == DropZeroLinks(tail[1..])
  {
  }

  lemma KeepStep(links: seq<Link>, i: nat, colinear: (Point, Point, Point) -> bool)
    requires 1 <= i < |links| && links[i].0 != links[i].1
    requires !colinear(links[i - 1].0, links[i].0, links[i].1)
    requires MergeFromFixed(links, i + 1, colinear) == links[..i + 1] + DropZeroLinks(links[i + 1..])
    ensures MergeFromFixed(links, i, colinear) == links[..i] + DropZeroLinks(links[i..])
  {
    var tail := links[i..];
    assert tail[0] == links[i] && tail[1..] == links[i + 1..];
    assert DropZeroLinks(tail) == [links[i]] + DropZeroLinks(links[i + 1..]);
    assert MergeFromFixed(links, i, colinear) == MergeFromFixed(links, i + 1, colinear);
    calc {
      links[..i + 1] + DropZeroLinks(links[i + 1..]);
      { assert links[..i + 1] == links[..i] + [links[i]]; }
      links[..i] + ([links[i]] + DropZeroLinks(links[i + 1..]));
    }
  }

  // ------------------------------------------------------------- points2path

  /** One relative SVG path command: `h dx`, `v dy` or `l dx dy`. */
  datatype Move = Horizontal(dx: int) | Vertical(dy: int) | Line(dx: int, dy: int)

  /** The command for a non-zero step d. */
  function MoveOf(d: Point): (m: Move)
    requires d != Origin
    ensures Displacement(m) == d
  {
    if d.y == 0 then Horizontal(d.x)
    else if d.x == 0 then Vertical(d.y)
    else Line(d.x, d.y)
  }

  /** How far a command moves the pen. */
  function Displacement(m: Move): Point
  {
    match m
    case Horizontal(dx) => Point(dx, 0)
    case Vertical(dy) => Point(0, dy)
    case Line(dx, dy) => Point(dx, dy)
  }

  /** The commands drawing the polyline after its first point: one per step
      between neighbouring points, skipping steps that stay in place. */
  function Moves(points: seq<Point>): seq<Move>
    decreases |points|
  {
    if |points| <= 1 then []
    else
      var n := |points|;
      var d := Point(points[n - 1].x - points[n - 2].x, points[n - 1].y - points[n - 2].y);
      Moves(points[..n - 1]) + (if d == Origin then [] else [MoveOf(d)])
  }

  /** Where the pen ends after the commands, starting at p. */
  function Replay(p: Point, moves: seq<Move>): Point
    decreases |moves|
  {
    if |moves| == 0 then p else Replay(p.Add(Displacement(moves[0])), moves[1..])
  }

  lemma {:induction false} ReplayAppend(p: Point, moves: seq<Move>, m: Move)
    ensures Replay(p, moves + [m]) == Replay(p, moves).Add(Displacement(m))
    decreases |moves|
  {
    if |moves| > 0 {
      ReplayAppend(p.Add(Displacement(moves[0])), moves[1..], m);
      assert (moves + [m])[1..] == moves[1..] + [m];
    }
  }

  /** Drawn from the first point, the commands end at the last point, and
      none of them stands still. */
  lemma {:induction false} MovesReachLastPoint(points: seq<Point>)
    requires |points| >= 1
    ensures Replay(points[0], Moves(points)) == points[|points| - 1]
    ensures forall m :: m in Moves(points) ==> Displacement(m) != Origin
    decreases |points|
  {
    var n := |points|;
    if n > 1 {
      var init := points[..n - 1];
      MovesReachLastPoint(init);
      var p, q := points[n - 2], points[n - 1];
      assert init[0] == points[0] && init[n - 2] == p;
      var d := Point(q.x - p.x, q.y - p.y);
      assert Moves(points) == Moves(init) + (if d == Origin then [] else [MoveOf(d)]);
      ReplayGrow(points[0], Moves(init), Moves(points), p, q);
    }
  }

  /** One more step from p to q takes the pen from p to q, and adds no
      command that stands still. */
  lemma ReplayGrow(start: Point, ms: seq<Move>, grown: seq<Move>, p: Point, q: Point)
    requires Replay(start, ms) == p && forall m :: m in ms ==> Displacement(m) != Origin
    requires var d := Point(q.x - p.x, q.y - p.y);
             grown == ms + (if d == Origin then [] else [MoveOf(d)])
    ensures Replay(start, grown) == q && forall m :: m in grown ==> Displacement(m) != Origin
  {
    var d := Point(q.x - p.x, q.y - p.y);
    if d != Origin {
      ReplayAppend(start, ms, MoveOf(d));
    } else {
      assert grown == ms;
    }
  }

  /** `pad(n)`: a negative number carries its own separating sign, any other
      gets a space in front. */
  function Pad(n: int): (r: string)
    ensures |r| >= 2 && (r[0] == '-' || r[0] == ' ')
    ensures n >= 0 ==> r == " " + IntToString(n)
    ensures n < 0 ==> r == IntToString(n)
  {
    if n < 0 then IntToString(n) else " " + IntToString(n)
  }

  function MoveText(m: Move): string
  {
    match m
    case Horizontal(dx) => "h" + IntToString(dx)
    case Vertical(dy) => "v" + IntToString(dy)
    case Line(dx, dy) => "l" + IntToString(dx) + Pad(dy)
  }

  function MovesText(moves: seq<Move>): string
    decreases |moves|
  {
    if |moves| == 0 then "" else MovesText(moves[..|moves| - 1]) + MoveText(moves[|moves| - 1])
  }

  /** The path data: `z` alone for no points; otherwise an absolute move to
      the first point, the relative commands, and `z` when closed. */
  function PathData(points: seq<Point>, close: bool): string
  {
    if |points| == 0 then "z"
    else
      "M" + IntToString(points[0].x) + Pad(points[0].y) + MovesText(Moves(points))
      + (if close then "z" else "")
  }

  lemma ConcatAssoc(a: string, b: string, c: string)
    ensures (a + b) + c == a + (b + c)
  {
  }

  /** The text of the step from p to q: nothing when it stays in place. */
  function StepText(p: Point, q: Point): string
  {
    var d := Point(q.x - p.x, q.y - p.y);
    if d == Origin then "" else MoveText(MoveOf(d))
  }

  lemma MovesTextAppend(ms: seq<Move>, m: Move)
    ensures MovesText(ms + [m]) == MovesText(ms) + MoveText(m)
  {
    assert (ms + [m])[..|ms|] == ms;
  }

  /** The step into points[i] adds at most one command. */
  lemma MovesSnoc(points: seq<Point>, i: nat)
    requires 1 <= i < |points|
    ensures var d := Point(points[i].x - points[i - 1].x, points[i].y - points[i - 1].y);
      Moves(points[..i + 1]) == Moves(points[..i]) + (if d == Origin then [] else [MoveOf(d)])
  {
    var pre := points[..i + 1];
    assert pre[..i] == points[..i];
    assert pre[i] == points[i] && pre[i - 1] == points[i - 1];
  }

  lemma MovesTextStep(points: seq<Point>, i: nat)
    requires 1 <= i < |points|
    ensures MovesText(Moves(points[..i + 1])) == MovesText(Moves(points[..i])) + StepText(points[i - 1], points[i])
  {
    MovesSnoc(points, i);
    MovesTextGrow(Moves(points[..i]), Moves(points[..i + 1]), points[i - 1], points[i]);
  }

  lemma MovesTextGrow(ms: seq<Move>, grown: seq<Move>, p: Point, q: Point)
    requires var d := Point(q.x - p.x, q.y - p.y);
             grown == ms + (if d == Origin then [] else [MoveOf(d)])
    ensures MovesText(grown) == MovesText(ms) + StepText(p, q)
  {
    var d := Point(q.x - p.x, q.y - p.y);
    if d != Origin {
      MovesTextAppend(ms, MoveOf(d));
    } else {
      assert grown == ms;
    }
  }

  /** The command for one step: `h` along a row, `v` along a column, `l`
      otherwise; nothing for a step that stays in place. */
  method StepCommand(prev: Point, pt: Point) returns (step: string)
    ensures step == StepText(prev, pt)
  {
    var diff := Point(pt.x - prev.x, pt.y - prev.y);
    step := "";
    if diff != Origin {
      if diff.y == 0 {
        step := "h" + IntToString(diff.x);
      } else if diff.x == 0 {
        step := "v" + IntToString(diff.y);
      } else {
        step := "l" + IntToString(diff.x) + Pad(diff.y);
      }
    }
  }

  /** Before any step there is no relative command. */
  lemma PathStart(points: seq<Point>)
    requires |points| >= 1
    ensures MovesText(Moves(points[..1])) == ""
  {
    assert Moves(points[..1]) == [];
  }

  /** After the last step, the text so far and the optional `z` are the path data. */
  lemma PathDone(points: seq<Point>, close: bool, head: string, data: string)
    requires |points| >= 1 && head == "M" + IntToString(points[0].x) + Pad(points[0].y)
    requires data == head + MovesText(Moves(points[..|points|]))
    ensures PathData(points, close) == if close then data + "z" else data
  {
    assert points[..|points|] == points;
  }

  /** The path data is `z` alone exactly when there are no points; otherwise
      it starts with an absolute move. */
  lemma PathDataEmpty(points: seq<Point>, close: bool)
    ensures PathData(points, close) == "z" <==> |points| == 0
    ensures |points| > 0 ==> PathData(points, close)[0] == 'M'
  {
    if |points| > 0 {
      var s1 := "M" + IntToString(points[0].x);
      assert s1[0] == 'M';
      var s2 := s1 + Pad(points[0].y);
      assert s2[0] == 'M';
      var s3 := s2 + MovesText(Moves(points));
      assert s3[0] == 'M';
      var s4 := s3 + (if close then "z" else "");
      assert s4[0] == 'M';
      assert PathData(points, close) == s4;
    }
  }

  /** `points2path(points, close)` on grid points. */
  method Points2Path(points: seq<Point>, close: bool) returns (data: string)
    ensures data == PathData(points, close)
  {
    if |points| == 0 {
      return "z";
    }
    var head := "M" + IntToString(points[0].x) + Pad(points[0].y);
    data := head;
    ghost var text := "";
    PathStart(points);
    var prev := points[0];
    var i := 1;
    while i < |points|
      invariant 1 <= i <= |points| && prev == points[i - 1]
      invariant text == MovesText(Moves(points[..i]))
      invariant data == head + text
    {
      var pt := points[i];
      var step := StepCommand(prev, pt);
      MovesTextStep(points, i);
      ConcatAssoc(head, text, step);
      data := data + step;
      text := text + step;
      prev := pt;
      i := i + 1;
    }
    PathDone(points, close, head, data);
    if close {
      data := data + "z";
    }
  }

  // ------------------------------------------- sort_terminals_counterclockwise

  /** The sort key of each side's run: top to bottom on the left, left to
      right along the bottom, bottom to top on the right, right to left
      along the top. */
  function SideKey(s: Side, t: Terminal): int
  {
    match s
    case Left => t.pt.y
    case Bottom => t.pt.x
    case Right => -t.pt.y
    case Top => -t.pt.x
  }

  predicate SortedBy(s: Side, ts: seq<Terminal>)
  {
    forall i, j {:trigger SideKey(s, ts[i]), SideKey(s, ts[j])} :: 0 <= i < j < |ts| ==> SideKey(s, ts[i]) <= SideKey(s, ts[j])
  }

  /** Put t into a sorted list after every element whose key is not larger. */
  function InsertBy(s: Side, ts: seq<Terminal>, t: Terminal): (r: seq<Terminal>)
    requires SortedBy(s, ts)
    ensures SortedBy(s, r) && multiset(r) == multiset(ts) + multiset{t}
    decreases |ts|
  {
    if |ts| == 0 then [t]
    else
      var n := |ts|;
      var last := ts[n - 1];
      if SideKey(s, last) <= SideKey(s, t) then ts + [t]
      else
        var init := InsertBy(s, ts[..n - 1], t);
        assert ts == ts[..n - 1] + [last];
        KeysBelow(s, init, ts[..n - 1], t, SideKey(s, last));
        init + [last]
  }

  lemma KeysBelow(s: Side, r: seq<Terminal>, ts: seq<Terminal>, t: Terminal, bound: int)
    requires multiset(r) == multiset(ts) + multiset{t}
    requires forall u :: u in ts ==> SideKey(s, u) <= bound
    requires SideKey(s, t) <= bound
    ensures forall k :: 0 <= k < |r| ==> SideKey(s, r[k]) <= bound
  {
    forall k | 0 <= k < |r| ensures SideKey(s, r[k]) <= bound {
      assert r[k] in multiset(r);
      if r[k] != t {
        assert r[k] in multiset(ts);
      }
    }
  }

  /** `sorted(ts, key=...)`: a stable insertion sort on the side's key. */
  function SortBy(s: Side, ts: seq<Terminal>): (r: seq<Terminal>)
    ensures SortedBy(s, r) && multiset(r) == multiset(ts)
    decreases |ts|
  {
    if |ts| == 0 then []
    else
      var n := |ts|;
      LastSplit(ts);
      InsertBy(s, SortBy(s, ts[..n - 1]), ts[n - 1])
  }

  /** `itertools.groupby` on the side: the maximal runs of neighbouring
      terminals on the same side, in order. */
  function Runs(ts: seq<Terminal>): (runs: seq<seq<Terminal>>)
    ensures forall k :: 0 <= k < |runs| ==> |runs[k]| >= 1
    decreases |ts|
  {
    if |ts| == 0 then []
    else
      var n := |ts|;
      var runs := Runs(ts[..n - 1]);
      if |runs| > 0 && runs[|runs| - 1][0].side == ts[n - 1].side then
        runs[..|runs| - 1] + [runs[|runs| - 1] + [ts[n - 1]]]
      else runs + [[ts[n - 1]]]
  }

  /** The dict comprehension over the runs: a later run on a side replaces
      an earlier one. */
  function Partitioned(runs: seq<seq<Terminal>>): map<Side, seq<Terminal>>
    requires forall k :: 0 <= k < |runs| ==> |runs[k]| >= 1
    decreases |runs|
  {
    if |runs| == 0 then map[]
    else
      var n := |runs|;
      Partitioned(runs[..n - 1])[runs[n - 1][0].side := runs[n - 1]]
  }

  function Get(m: map<Side, seq<Terminal>>, s: Side): seq<Terminal>
  {
    if s in m then m[s] else []
  }

  /** `sort_terminals_counterclockwise(terminals)` as written: only the last
      run of each side survives the dict comprehension. */
  function SortCounterclockwiseAsWritten(ts: seq<Terminal>): seq<Terminal>
  {
    var p := Partitioned(Runs(ts));
    SortBy(Left, Get(p, Left)) + SortBy(Bottom, Get(p, Bottom))
      + SortBy(Right, Get(p, Right)) + SortBy(Top, Get(p, Top))
  }

  /** As written, a side split into two runs loses its earlier run. */
  lemma SortCounterclockwiseDropsTerminal()
    ensures var a, b, c := Terminal(Point(0, 0), None, Left), Terminal(Point(1, -1), None, Top),
                           Terminal(Point(0, 1), None, Left);
      SortCounterclockwiseAsWritten([a, b, c]) == [c, b]
  {
    var a, b, c := Terminal(Point(0, 0), None, Left), Terminal(Point(1, -1), None, Top),
                   Terminal(Point(0, 1), None, Left);
    ThreeRuns(a, b, c);
    var p := Partitioned([[a], [b], [c]]);
    LastRunWins(a, b, c);
    assert Get(p, Left) == [c] && Get(p, Top) == [b] && Get(p, Bottom) == [] && Get(p, Right) == [];
    assert [c][..0] == [] && [b][..0] == [];
  }

  lemma ThreeRuns(a: Terminal, b: Terminal, c: Terminal)
    requires a.side != b.side && b.side != c.side
    ensures Runs([a, b, c]) == [[a], [b], [c]]
  {
    assert [a, b, c][..2] == [a, b] && [a, b][..1] == [a];
    assert Runs([a]) == [[a]];
    assert Runs([a, b]) == [[a], [b]];
  }

  lemma LastRunWins(a: Terminal, b: Terminal, c: Terminal)
    requires a.side == c.side != b.side
    ensures Partitioned([[a], [b], [c]]) == map[c.side := [c], b.side := [b]]
  {
    var runs := [[a], [b], [c]];
    assert runs[..2] == [[a], [b]] && [[a], [b]][..1] == [[a]];
    assert Partitioned([[a]]) == map[a.side := [a]];
    assert Partitioned([[a], [b]]) == map[a.side := [a], b.side := [b]];
  }

  /** The terminals on one side, in input order. */
  function OnSide(ts: seq<Terminal>, s: Side): seq<Terminal>
    decreases |ts|
  {
    if |ts| == 0 then []
    else
      var n := |ts|;
      OnSide(ts[..n - 1], s) + (if ts[n - 1].side == s then [ts[n - 1]] else [])
  }

  /** All the terminals on one side, sorted along it. */
  function SideRun(ts: seq<Terminal>, s: Side): seq<Terminal>
  {
    SortBy(s, OnSide(ts, s))
  }

  /** `sort_terminals_counterclockwise(terminals)` as evidently intended:
      every terminal of each side, the sides in the order left, bottom,
      right, top. */
  function SortCounterclockwise(ts: seq<Terminal>): seq<Terminal>
  {
    SideRun(ts, Left) + SideRun(ts, Bottom) + SideRun(ts, Right) + SideRun(ts, Top)
  }

  /** Each terminal appears on its own side's list as often as in the input,
      and on no other. */
  lemma {:induction false} OnSideCount(ts: seq<Terminal>, s: Side, t: Terminal)
    ensures multiset(OnSide(ts, s))[t] == if t.side == s then multiset(ts)[t] else 0
    decreases |ts|
  {
    if |ts| > 0 {
      var n := |ts|;
      OnSideCount(ts[..n - 1], s, t);
      LastSplit(ts);
    }
  }

  /** The intended order is a permutation of the terminals. */
  lemma SortCounterclockwiseIsPermutation(ts: seq<Terminal>)
    ensures multiset(SortCounterclockwise(ts)) == multiset(ts)
  {
    var r := SortCounterclockwise(ts);
    forall t ensures multiset(r)[t] == multiset(ts)[t] {
      SideRunSorted(ts, Left);
      SideRunSorted(ts, Bottom);
      SideRunSorted(ts, Right);
      SideRunSorted(ts, Top);
      OnSideCount(ts, Left, t);
      OnSideCount(ts, Bottom, t);
      OnSideCount(ts, Right, t);
      OnSideCount(ts, Top, t);
    }
  }

  /** Each side's part of the intended order holds exactly that side's
      terminals, sorted along the side. */
  lemma SideRunSorted(ts: seq<Terminal>, s: Side)
    ensures SortedBy(s, SideRun(ts, s)) && multiset(SideRun(ts, s)) == multiset(OnSide(ts, s))
    ensures forall t :: t in SideRun(ts, s) ==> t in ts && t.side == s
  {
    var r := SideRun(ts, s);
    forall t | t in r ensures t in ts && t.side == s {
      assert t in multiset(OnSide(ts, s));
      OnSideCount(ts, s, t);
    }
  }

  /** A prefix of a sorted list is sorted, and its last key is at most the
      key of the element after it. */
  lemma SortedFront(s: Side, ts: seq<Terminal>)
    requires |ts| > 0 && SortedBy(s, ts)
    ensures SortedBy(s, ts[..|ts| - 1])
    ensures |ts| > 1 ==> SideKey(s, ts[..|ts| - 1][|ts| - 2]) <= SideKey(s, ts[|ts| - 1])
  {
    var init := ts[..|ts| - 1];
    forall i, j | 0 <= i < j < |init| ensures SideKey(s, init[i]) <= SideKey(s, init[j]) {
      assert init[i] == ts[i] && init[j] == ts[j];
    }
    if |ts| > 1 {
      assert init[|ts| - 2] == ts[|ts| - 2];
    }
  }

  /** Inserting a key no smaller than every key of a sorted list appends it. */
  lemma InsertAtEnd(s: Side, ts: seq<Terminal>, x: Terminal)
    requires SortedBy(s, ts) && (|ts| > 0 ==> SideKey(s, ts[|ts| - 1]) <= SideKey(s, x))
    ensures InsertBy(s, ts, x) == ts + [x]
  {
  }

  /** Sorting a list that is already sorted changes nothing (the sort is stable). */
  lemma {:induction false} SortBySorted(s: Side, ts: seq<Terminal>)
    requires SortedBy(s, ts)
    ensures SortBy(s, ts) == ts
    decreases |ts|
  {
    if |ts| > 0 {
      var n := |ts|;
      SortedFront(s, ts);
      SortBySorted(s, ts[..n - 1]);
      InsertAtEnd(s, ts[..n - 1], ts[n - 1]);
      LastSplit(ts);
    }
  }

  lemma {:induction false} OnSideAppend(a: seq<Terminal>, b: seq<Terminal>, s: Side)
    ensures OnSide(a + b, s) == OnSide(a, s) + OnSide(b, s)
    decreases |b|
  {
    if |b| == 0 {
      assert a + b == a;
    } else {
      var n := |b|;
      OnSideAppend(a, b[..n - 1], s);
      assert (a + b)[..|a + b| - 1] == a + b[..n - 1];
      assert (a + b)[|a + b| - 1] == b[n - 1];
    }
  }

  /** OnSide keeps a list of that side's terminals whole and drops a list
      without any. */
  lemma {:induction false} OnSideOfOneSide(ts: seq<Terminal>, s: Side, side: Side)
    requires forall t :: t in ts ==> t.side == side
    ensures OnSide(ts, s) == if s == side then ts else []
    decreases |ts|
  {
    if |ts| > 0 {
      var n := |ts|;
      OnSideOfOneSide(ts[..n - 1], s, side);
      LastSplit(ts);
    }
  }

  /** Four runs, each keeping only its own side's part: the side's part of
      their concatenation is that side's run. */
  lemma OnSideOfQuarters(l: seq<Terminal>, b: seq<Terminal>, r: seq<Terminal>, t: seq<Terminal>, s: Side)
    requires OnSide(l, s) == (if s == Left then l else [])
    requires OnSide(b, s) == (if s == Bottom then b else [])
    requires OnSide(r, s) == (if s == Right then r else [])
    requires OnSide(t, s) == (if s == Top then t else [])
    ensures OnSide(l + b + r + t, s) == match s case Left => l case Bottom => b case Right => r case Top => t
  {
    OnSideAppend(l + b + r, t, s);
    OnSideAppend(l + b, r, s);
    OnSideAppend(l, b, s);
    var e: seq<Terminal> := [];
    match s
    case Left => assert ((l + e) + e) + e == l;
    case Bottom => assert ((e + b) + e) + e == b;
    case Right => assert ((e + e) + r) + e == r;
    case Top => assert ((e + e) + e) + t == t;
  }

  /** Each side's part of the intended order, taken out again. */
  lemma OnSideOfSorted(ts: seq<Terminal>, s: Side)
    ensures OnSide(SortCounterclockwise(ts), s) == SideRun(ts, s)
  {
    SideRunSorted(ts, Left);
    SideRunSorted(ts, Bottom);
    SideRunSorted(ts, Right);
    SideRunSorted(ts, Top);
    OnSideOfOneSide(SideRun(ts, Left), s, Left);
    OnSideOfOneSide(SideRun(ts, Bottom), s, Bottom);
    OnSideOfOneSide(SideRun(ts, Right), s, Right);
    OnSideOfOneSide(SideRun(ts, Top), s, Top);
    OnSideOfQuarters(SideRun(ts, Left), SideRun(ts, Bottom), SideRun(ts, Right), SideRun(ts, Top), s);
  }

  /** The intended order is a fixed point: sorting it again changes nothing. */
  lemma SortCounterclockwiseIdempotent(ts: seq<Terminal>)
    ensures SortCounterclockwise(SortCounterclockwise(ts)) == SortCounterclockwise(ts)
  {
    var r := SortCounterclockwise(ts);
    forall s ensures SideRun(r, s) == SideRun(ts, s) {
      OnSideOfSorted(ts, s);
      SideRunSorted(ts, s);
      SortBySorted(s, SideRun(ts, s));
    }
  }

  // ------------------------------------------------------------- is_clockwise

  /** The list turned k places to the left. */
  function Rotate<T>(s: seq<T>, k: nat): (r: seq<T>)
    requires k <= |s|
    ensures |r| == |s|
    ensures forall i :: 0 <= i < |s| - k ==> r[i] == s[i + k]
    ensures forall i :: |s| - k <= i < |s| ==> r[i] == s[i - (|s| - k)]
  {
    s[k..] + s[..k]
  }

  /** Turning once more moves the head to the back. */
  lemma RotateStep<T>(s: seq<T>, k: nat)
    requires k < |s|
    ensures Rotate(s, k + 1) == Rotate(s, k)[1..] + [Rotate(s, k)[0]]
  {
    var r, q := Rotate(s, k), Rotate(s, k + 1);
    var u := r[1..] + [r[0]];
    assert |q| == |u|;
    forall i | 0 <= i < |s| ensures q[i] == u[i] {
      if i < |s| - 1 {
        assert u[i] == r[i + 1];
      } else {
        assert u[i] == r[0];
      }
    }
  }

  /** Some rotation of `sort`, of fewer turns than its length, is `target`. */
  predicate RotationOf<T(==)>(sort: seq<T>, target: seq<T>)
  {
    exists k :: 0 <= k < |sort| && Rotate(sort, k) == target
  }

  /** The `for` loop of `is_clockwise`. */
  method FindRotation<T(==)>(sort: seq<T>, target: seq<T>) returns (r: bool)
    ensures r <==> RotationOf(sort, target)
  {
    var cur := sort;
    var i := 0;
    while i < |sort|
      invariant 0 <= i <= |sort| && cur == Rotate(sort, i)
      invariant forall k :: 0 <= k < i ==> Rotate(sort, k) != target
    {
      if cur == target {
        return true;
      }
      RotateStep(sort, i);
      cur := cur[1..] + [cur[0]];
      i := i + 1;
    }
    return false;
  }

  /** `is_clockwise(terminals)` as written: some rotation of the output of
      the as-written sort, of fewer turns than its length, is the list
      itself. That sort may have lost a side's earlier run. */
  method IsClockwiseAsWritten(terminals: seq<Terminal>) returns (r: bool)
    ensures r <==> RotationOf(SortCounterclockwiseAsWritten(terminals), terminals)
  {
    r := FindRotation(SortCounterclockwiseAsWritten(terminals), terminals);
  }

  /** `is_clockwise(terminals)` as evidently intended: some rotation of the
      sorted terminals, of fewer turns than there are terminals, is the
      list itself. */
  method IsClockwise(terminals: seq<Terminal>) returns (r: bool)
    ensures r <==> RotationOf(SortCounterclockwise(terminals), terminals)
  {
    r := FindRotation(SortCounterclockwise(terminals), terminals);
  }

  /** A clockwise list that starts partway through the left side's run: the
      as-written sort keeps only the last left run, so no rotation of it is
      the list, while the intended sort turned once is the list. */
  lemma IsClockwiseSplitRun()
    ensures var l1, t, l2 := Terminal(Point(0, 0), None, Left), Terminal(Point(1, -1), None, Top),
                             Terminal(Point(0, 1), None, Left);
      && !RotationOf(SortCounterclockwiseAsWritten([l2, t, l1]), [l2, t, l1])
      && RotationOf(SortCounterclockwise([l2, t, l1]), [l2, t, l1])
  {
    SplitRunClockwise(Terminal(Point(0, 0), None, Left), Terminal(Point(1, -1), None, Top),
                      Terminal(Point(0, 1), None, Left));
  }

  /** The same for any two left terminals, the upper one last, around a top
      one. */
  lemma SplitRunClockwise(l1: Terminal, t: Terminal, l2: Terminal)
    requires l1.side == Left && l2.side == Left && t.side == Top && l1.pt.y < l2.pt.y
    ensures !RotationOf(SortCounterclockwiseAsWritten([l2, t, l1]), [l2, t, l1])
    ensures RotationOf(SortCounterclockwise([l2, t, l1]), [l2, t, l1])
  {
    var ts := [l2, t, l1];
    SplitRunAsWritten(l1, t, l2);
    var written := SortCounterclockwiseAsWritten(ts);
    assert |written| == 2;
    assert !RotationOf(written, ts) by {
      forall k | 0 <= k < |written| ensures Rotate(written, k) != ts {
        assert |Rotate(written, k)| != |ts|;
      }
    }
    SplitRunIntended(l1, t, l2);
    var sorted := SortCounterclockwise(ts);
    assert sorted == [l1, l2, t];
    assert Rotate(sorted, 1) == ts;
  }

  /** As written, the earlier left run [l2] is replaced by the later [l1]. */
  lemma SplitRunAsWritten(l1: Terminal, t: Terminal, l2: Terminal)
    requires l1.side == Left && l2.side == Left && t.side == Top
    ensures SortCounterclockwiseAsWritten([l2, t, l1]) == [l1, t]
  {
    ThreeRuns(l2, t, l1);
    LastRunWins(l2, t, l1);
    var p := Partitioned([[l2], [t], [l1]]);
    assert Get(p, Left) == [l1] && Get(p, Top) == [t] && Get(p, Bottom) == [] && Get(p, Right) == [];
    SortOne(Left, l1);
    SortOne(Top, t);
  }

  /** A single terminal is sorted as it is. */
  lemma SortOne(s: Side, t: Terminal)
    ensures SortBy(s, [t]) == [t]
  {
    assert [t][..0] == [];
  }

  /** As intended, both left terminals are kept, sorted down the side. */
  lemma SplitRunIntended(l1: Terminal, t: Terminal, l2: Terminal)
    requires l1.side == Left && l2.side == Left && t.side == Top && l1.pt.y < l2.pt.y
    ensures SortCounterclockwise([l2, t, l1]) == [l1, l2, t]
  {
    var ts := [l2, t, l1];
    SplitRunLeft(l1, t, l2);
    SplitRunOthers(l1, t, l2);
    RunsJoined(SideRun(ts, Left), SideRun(ts, Bottom), SideRun(ts, Right), SideRun(ts, Top), l1, l2, t);
  }

  /** Two runs of one and two terminals around two empty ones. */
  lemma RunsJoined(a: seq<Terminal>, b: seq<Terminal>, c: seq<Terminal>, d: seq<Terminal>, x: Terminal, y: Terminal, z: Terminal)
    requires a == [x, y] && b == [] && c == [] && d == [z]
    ensures a + b + c + d == [x, y, z]
  {
  }

  lemma SplitRunLeft(l1: Terminal, t: Terminal, l2: Terminal)
    requires l1.side == Left && l2.side == Left && t.side == Top && l1.pt.y < l2.pt.y
    ensures SideRun([l2, t, l1], Left) == [l1, l2]
  {
    SplitRunSides(l1, t, l2);
    SortPairDown(l1, l2);
  }

  lemma SplitRunOthers(l1: Terminal, t: Terminal, l2: Terminal)
    requires l1.side == Left && l2.side == Left && t.side == Top
    ensures SideRun([l2, t, l1], Top) == [t]
    ensures SideRun([l2, t, l1], Bottom) == [] && SideRun([l2, t, l1], Right) == []
  {
    SplitRunSides(l1, t, l2);
    SortOne(Top, t);
  }

  lemma SplitRunSides(l1: Terminal, t: Terminal, l2: Terminal)
    requires l1.side == Left && l2.side == Left && t.side == Top
    ensures OnSide([l2, t, l1], Left) == [l2, l1] && OnSide([l2, t, l1], Top) == [t]
    ensures OnSide([l2, t, l1], Bottom) == [] && OnSide([l2, t, l1], Right) == []
  {
    var ts := [l2, t, l1];
    assert ts[..2] == [l2, t] && [l2, t][..1] == [l2] && [l2][..0] == [];
    forall sd: Side ensures OnSide(ts, sd) == if sd == Left then [l2, l1] else if sd == Top then [t] else [] {
      assert OnSide([l2], sd) == (if sd == Left then [l2] else []);
      assert OnSide([l2, t], sd) == (if sd == Left then [l2] else if sd == Top then [t] else []);
    }
  }

  lemma SortPairDown(l1: Terminal, l2: Terminal)
    requires l1.pt.y < l2.pt.y
    ensures SortBy(Left, [l2, l1]) == [l1, l2]
  {
    assert [l2, l1][..1] == [l2];
    SortOne(Left, l2);
  }

  /** An already sorted, non-empty list is recognised. */
  lemma IsClockwiseOfSorted(ts: seq<Terminal>)
    requires |ts| >= 1
    ensures RotationOf(SortCounterclockwise(SortCounterclockwise(ts)), SortCounterclockwise(ts))
  {
    var s := SortCounterclockwise(ts);
    SortCounterclockwiseIdempotent(ts);
    SortCounterclockwiseIsPermutation(ts);
    assert |s| == |multiset(s)| == |ts|;
    assert Rotate(s, 0) == s;
  }

  // ----------------------------------------------------------- sort_for_flags

  /** The terminals carrying the flag, in order. */
  function Matching(ts: seq<Terminal>, flag: char): (r: seq<Terminal>)
    ensures forall t :: t in r <==> t in ts && t.flag == Some(flag)
    decreases |ts|
  {
    if |ts| == 0 then []
    else
      var n := |ts|;
      LastSplit(ts);
      Matching(ts[..n - 1], flag) + (if ts[n - 1].flag == Some(flag) then [ts[n - 1]] else [])
  }

  /** The error a flag raises: none when exactly one terminal carries it. */
  function FlagProblem(ts: seq<Terminal>, box: Cbox, flag: char): (e: Option<Error>)
    ensures e.None? <==> |Matching(ts, flag)| == 1
  {
    var n := |Matching(ts, flag)|;
    if n > 1 then
      Some(TerminalsError("Multiple terminals with the same flag " + [flag] + " on component " + box.typ + IntToString(box.id)))
    else if n == 0 then
      Some(TerminalsError("Need a terminal with the flag " + [flag] + " on component " + box.typ + IntToString(box.id)))
    else None
  }

  /** flags[i] is the first flag that raises. */
  predicate FirstProblem(ts: seq<Terminal>, box: Cbox, flags: seq<char>, i: int)
  {
    0 <= i < |flags| && FlagProblem(ts, box, flags[i]).Some?
    && forall j :: 0 <= j < i ==> FlagProblem(ts, box, flags[j]).None?
  }

  /** One turn of the loop of `sort_for_flags`: the one terminal carrying
      the flag, or the error the flag raises. */
  method CheckFlag(ts: seq<Terminal>, box: Cbox, flag: char) returns (r: Result<Terminal>)
    ensures r.Err? <==> |Matching(ts, flag)| != 1
    ensures r.Err? ==> Some(r.error) == FlagProblem(ts, box, flag)
    ensures r.Ok? ==> r.value in ts && r.value.flag == Some(flag)
  {
    var matching := Matching(ts, flag);
    if |matching| > 1 || |matching| == 0 {
      return Err(FlagProblem(ts, box, flag).value);
    }
    assert matching[0] in matching;
    return Ok(matching[0]);
  }

  /** A flag that no terminal or several carry, after flags that raise
      nothing, is the first that raises. */
  lemma FlagFails(ts: seq<Terminal>, box: Cbox, flags: seq<char>, i: int)
    requires 0 <= i < |flags| && forall j :: 0 <= j < i ==> FlagProblem(ts, box, flags[j]).None?
    requires |Matching(ts, flags[i])| != 1
    ensures FirstProblem(ts, box, flags, i)
    ensures FlagProblem(ts, box, flags[i]).Some?
    ensures !forall k :: 0 <= k < |flags| ==> FlagProblem(ts, box, flags[k]).None?
  {
  }

  /** `sort_for_flags(terminals, box, *flags)`: for each flag in order, the
      one terminal carrying it; the first flag carried by no terminal or by
      several raises its TerminalsError. */
  method SortForFlags(terminals: seq<Terminal>, box: Cbox, flags: seq<char>) returns (r: Result<seq<Terminal>>)
    ensures r.Ok? <==> forall i :: 0 <= i < |flags| ==> FlagProblem(terminals, box, flags[i]).None?
    ensures r.Ok? ==> |r.value| == |flags|
    ensures r.Ok? ==> forall i :: 0 <= i < |flags| ==> r.value[i] in terminals && r.value[i].flag == Some(flags[i])
    ensures r.Err? ==> (exists i :: FirstProblem(terminals, box, flags, i) && Some(r.error) == FlagProblem(terminals, box, flags[i]))
  {
    var out: seq<Terminal> := [];
    var i := 0;
    while i < |flags|
      invariant 0 <= i <= |flags| && |out| == i
      invariant forall j :: 0 <= j < i ==> FlagProblem(terminals, box, flags[j]).None?
      invariant forall j :: 0 <= j < i ==> out[j] in terminals && out[j].flag == Some(flags[j])
    {
      var t := CheckFlag(terminals, box, flags[i]);
      if t.Err? {
        FlagFails(terminals, box, flags, i);
        return Err(t.error);
      }
      out := out + [t.value];
      i := i + 1;
    }
    return Ok(out);
  }
}
