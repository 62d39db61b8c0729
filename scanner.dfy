/** `re.finditer` over one line, for the patterns schemascii scans its rows
    with. A pattern is given by where its match starting at a column ends,
    if it matches there; none of the patterns matches the empty string. */
module Scanner {
  import opened Base

  /** The end of the pattern's match at column i of the line, if any. */
  type Pattern = (string, nat) -> Option<nat>

  /** Every match is non-empty and inside the line. */
  ghost predicate Advances(p: Pattern, line: string)
  {
    forall i: nat :: i <= |line| && p(line, i).Some? ==> i < p(line, i).value <= |line|
  }

  /** A match: the columns `[start, end)`. */
  datatype Span = Span(start: nat, end: nat)

  /** `finditer` from column i on: try each column in turn, and after a
      match go on at its end. */
  function FindIter(line: string, i: nat, p: Pattern): (r: seq<Span>)
    requires i <= |line| && Advances(p, line)
    decreases |line| - i
  {
    if i == |line| then []
    else match p(line, i)
      case None => FindIter(line, i + 1, p)
      case Some(e) => [Span(i, e)] + FindIter(line, e, p)
  }

  /** The matches found from column i on are matches of the pattern, at or
      after i, left to right without overlapping. */
  lemma {:induction false} FindIterShape(line: string, i: nat, p: Pattern)
    requires i <= |line| && Advances(p, line)
    ensures forall k :: 0 <= k < |FindIter(line, i, p)| ==>
      var s := FindIter(line, i, p)[k];
      i <= s.start && p(line, s.start) == Some(s.end) && s.end <= |line|
    ensures forall j, k :: 0 <= j < k < |FindIter(line, i, p)| ==> FindIter(line, i, p)[j].end <= FindIter(line, i, p)[k].start
    decreases |line| - i
  {
    if i < |line| {
      match p(line, i)
      case None =>
        FindIterShape(line, i + 1, p);
      case Some(e) =>
        FindIterShape(line, e, p);
        var r := FindIter(line, i, p);
        assert forall k :: 1 <= k < |r| ==> r[k] == FindIter(line, e, p)[k - 1];
    }
  }

  /** No match is missed: wherever the pattern matches at or after i, a
      match found covers that column. */
  lemma {:induction false} FindIterCovers(line: string, i: nat, p: Pattern, c: nat)
    requires i <= c < |line| && Advances(p, line) && p(line, c).Some?
    ensures exists k :: 0 <= k < |FindIter(line, i, p)| && FindIter(line, i, p)[k].start <= c < FindIter(line, i, p)[k].end
    decreases |line| - i
  {
    match p(line, i)
    case None =>
      FindIterCovers(line, i + 1, p, c);
      var k :| 0 <= k < |FindIter(line, i + 1, p)| && FindIter(line, i + 1, p)[k].start <= c < FindIter(line, i + 1, p)[k].end;
      assert FindIter(line, i, p)[k] == FindIter(line, i + 1, p)[k];
    case Some(e) =>
      if c >= e {
        FindIterCovers(line, e, p, c);
        var k :| 0 <= k < |FindIter(line, e, p)| && FindIter(line, e, p)[k].start <= c < FindIter(line, e, p)[k].end;
        assert FindIter(line, i, p)[k + 1] == FindIter(line, e, p)[k];
      } else {
        assert FindIter(line, i, p)[0] == Span(i, e);
      }
  }

  /** Columns where the pattern does not match are passed over. */
  lemma {:induction false} FindIterSkips(line: string, i: nat, j: nat, p: Pattern)
    requires i <= j <= |line| && Advances(p, line)
    requires forall k :: i <= k < j ==> p(line, k) == None
    ensures FindIter(line, i, p) == FindIter(line, j, p)
    decreases j - i
  {
    if i < j {
      FindIterSkips(line, i + 1, j, p);
    }
  }

  /** The end of the longest run from i on of characters satisfying q. */
  function RunEnd(line: string, i: nat, q: char -> bool): (e: nat)
    requires i <= |line|
    ensures i <= e <= |line|
    ensures forall k :: i <= k < e ==> q(line[k])
    ensures e == |line| || !q(line[e])
    decreases |line| - i
  {
    if i == |line| || !q(line[i]) then i else RunEnd(line, i + 1, q)
  }

  /** A run that stops at e ends at e. */
  lemma {:induction false} RunEndStops(line: string, i: nat, e: nat, q: char -> bool)
    requires i <= e <= |line|
    requires forall k :: i <= k < e ==> q(line[k])
    requires e == |line| || !q(line[e])
    ensures RunEnd(line, i, q) == e
    decreases e - i
  {
    if i < e {
      RunEndStops(line, i + 1, e, q);
    }
  }

  /** `open` then a non-empty run of characters other than `stop` and those
      excluded by `ok`, then `stop` (`open([^stop...]+)stop`): the end of the
      match at i. Greedy matching needs no backtracking, since the run
      cannot contain `stop`. */
  function Bracketed(line: string, i: nat, open: char, ok: char -> bool, stop: char): (r: Option<nat>)
    ensures r.Some? ==> i < |line| && line[i] == open && i + 3 <= r.value <= |line| && line[r.value - 1] == stop
    ensures r.Some? ==> forall k :: i + 1 <= k < r.value - 1 ==> ok(line[k]) && line[k] != stop
  {
    if i >= |line| || line[i] != open then None
    else
      var e := RunEnd(line, i + 1, c => ok(c) && c != stop);
      if e == i + 1 || e == |line| || line[e] != stop then None else Some(e + 1)
  }

  lemma BracketedAdvances(line: string, open: char, ok: char -> bool, stop: char)
    ensures Advances((s, i) => Bracketed(s, i, open, ok, stop), line)
  {
  }
}
