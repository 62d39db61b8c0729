/** Inline options (schemascii/inline_config.py): `!key=value!` anywhere in
    the drawing sets an option, and the text is masked out of the grid. */
module InlineConfigs {
  import opened Base
  import opened Text
  import opened Geometry
  import opened Grids
  import opened Scanner

  /** The end of the key of a match at i: the run of letters after `!`. */
  function KeyEnd(line: string, i: nat): (k: nat)
    requires i < |line|
    ensures i + 1 <= k <= |line|
  {
    RunEnd(line, i + 1, c => IsAlpha(c))
  }

  /** `INLINE_CONFIG_RE`, `!([a-z]+)=([^!]*)!` ignoring case: the end of its
      match at i. Neither run can hold the character that ends it, so the
      greedy runs need no backtracking. */
  function ConfigEnd(line: string, i: nat): (r: Option<nat>)
    ensures r.Some? ==> i < |line| && i + 1 < KeyEnd(line, i) < r.value - 1 && r.value <= |line|
  {
    if i >= |line| || line[i] != '!' then None
    else
      var k := KeyEnd(line, i);
      if k == i + 1 || k == |line| || line[k] != '=' then None
      else
        var e := RunEnd(line, k + 1, c => c != '!');
        if e == |line| then None else Some(e + 1)
  }

  /** A match is `!`, a non-empty run of letters, `=`, a run without `!`,
      and `!`. */
  lemma ConfigEndShape(line: string, i: nat)
    requires ConfigEnd(line, i).Some?
    ensures var k, e := KeyEnd(line, i), ConfigEnd(line, i).value;
      && line[i] == '!' && line[k] == '=' && line[e - 1] == '!'
      && (forall x :: i + 1 <= x < k ==> IsAlpha(line[x]))
      && (forall x :: k < x < e - 1 ==> line[x] != '!')
  {
  }

  const ConfigPat: Pattern := (line, i) => ConfigEnd(line, i)

  lemma ConfigAdvances(line: string)
    ensures Advances(ConfigPat, line)
  {
  }

  /** The matches of a row, left to right. */
  function RowSpans(line: string): seq<Span>
  {
    ConfigAdvances(line);
    FindIter(line, 0, ConfigPat)
  }

  /** Each of them is a match. */
  lemma RowSpansMatch(line: string, k: int)
    requires 0 <= k < |RowSpans(line)|
    ensures ConfigEnd(line, RowSpans(line)[k].start) == Some(RowSpans(line)[k].end)
  {
    ConfigAdvances(line);
    FindIterShape(line, 0, ConfigPat);
  }

  /** `(m.group(1), m.group(2))` of the match s. */
  function PairOf(line: string, s: Span): (string, string)
    requires ConfigEnd(line, s.start) == Some(s.end)
  {
    var k := KeyEnd(line, s.start);
    (line[s.start + 1..k], line[k + 1..s.end - 1])
  }

  /** The key and raw value of each match of a row, in order. */
  function RowPairs(line: string): (r: seq<(string, string)>)
    ensures |r| == |RowSpans(line)|
  {
    var spans := RowSpans(line);
    ConfigAdvances(line);
    FindIterShape(line, 0, ConfigPat);
    seq(|spans|, k requires 0 <= k < |spans| => PairOf(line, spans[k]))
  }

  /** The pair of the k-th match. */
  lemma RowPairsAt(line: string, k: int)
    requires 0 <= k < |RowSpans(line)|
    ensures ConfigEnd(line, RowSpans(line)[k].start) == Some(RowSpans(line)[k].end)
    ensures RowPairs(line)[k] == PairOf(line, RowSpans(line)[k])
  {
    RowSpansMatch(line, k);
  }

  /** The pairs of the first n rows, row by row. */
  function AllPairs(rows: seq<string>, n: nat): seq<(string, string)>
    requires n <= |rows|
  {
    if n == 0 then [] else AllPairs(rows, n - 1) + RowPairs(rows[n - 1])
  }

  /** `float(val)` where it succeeds, the raw string where it raises.
      `acceptsFloat` says which texts `float` accepts. */
  function ToValue(raw: string, acceptsFloat: string -> bool): Value
  {
    if acceptsFloat(raw) then VFloat(raw) else VStr(raw)
  }

  /** `out[key] = val` for each pair in turn, starting from m. */
  function Assign(m: map<string, Value>, pairs: seq<(string, string)>, acceptsFloat: string -> bool): map<string, Value>
  {
    if |pairs| == 0 then m
    else Assign(m, pairs[..|pairs| - 1], acceptsFloat)[pairs[|pairs| - 1].0 := ToValue(pairs[|pairs| - 1].1, acceptsFloat)]
  }

  /** Assigning two runs of pairs is assigning the first, then the second. */
  lemma {:induction false} AssignAppend(m: map<string, Value>, a: seq<(string, string)>, b: seq<(string, string)>,
                                        acceptsFloat: string -> bool)
    ensures Assign(m, a + b, acceptsFloat) == Assign(Assign(m, a, acceptsFloat), b, acceptsFloat)
    decreases |b|
  {
    if |b| > 0 {
      var last := b[|b| - 1];
      assert (a + b)[..|a + b| - 1] == a + b[..|b| - 1] && (a + b)[|a + b| - 1] == last;
      AssignAppend(m, a, b[..|b| - 1], acceptsFloat);
      calc {
        Assign(m, a + b, acceptsFloat);
        Assign(m, a + b[..|b| - 1], acceptsFloat)[last.0 := ToValue(last.1, acceptsFloat)];
        Assign(Assign(m, a, acceptsFloat), b[..|b| - 1], acceptsFloat)[last.0 := ToValue(last.1, acceptsFloat)];
        Assign(Assign(m, a, acceptsFloat), b, acceptsFloat);
      }
    } else {
      assert a + b == a;
    }
  }

  /** Assigning one more pair. */
  lemma AssignSnoc(m: map<string, Value>, pairs: seq<(string, string)>, k: int, acceptsFloat: string -> bool)
    requires 0 <= k < |pairs|
    ensures Assign(m, pairs[..k + 1], acceptsFloat) == Assign(m, pairs[..k], acceptsFloat)[pairs[k].0 := ToValue(pairs[k].1, acceptsFloat)]
  {
    assert pairs[..k + 1][..k] == pairs[..k] && pairs[..k + 1][k] == pairs[k];
  }

  /** A key is bound after the assignments exactly when it was bound before
      or some pair sets it. */
  lemma {:induction false} AssignKeys(m: map<string, Value>, pairs: seq<(string, string)>, acceptsFloat: string -> bool,
                                      key: string)
    ensures key in Assign(m, pairs, acceptsFloat) <==> key in m || exists i :: 0 <= i < |pairs| && pairs[i].0 == key
    decreases |pairs|
  {
    if |pairs| > 0 {
      var front := pairs[..|pairs| - 1];
      AssignKeys(m, front, acceptsFloat, key);
      if key != pairs[|pairs| - 1].0 && exists i :: 0 <= i < |pairs| && pairs[i].0 == key {
        var i :| 0 <= i < |pairs| && pairs[i].0 == key;
        assert front[i].0 == key;
      }
      if exists i :: 0 <= i < |front| && front[i].0 == key {
        var i :| 0 <= i < |front| && front[i].0 == key;
        assert pairs[i].0 == key;
      }
    }
  }

  /** A key set by some pair ends up with the value of the last pair
      setting it: a later key overrides an earlier one. */
  lemma {:induction false} AssignLastWins(m: map<string, Value>, pairs: seq<(string, string)>, acceptsFloat: string -> bool,
                                          i: int)
    requires 0 <= i < |pairs| && forall j :: i < j < |pairs| ==> pairs[j].0 != pairs[i].0
    ensures pairs[i].0 in Assign(m, pairs, acceptsFloat)
    ensures Assign(m, pairs, acceptsFloat)[pairs[i].0] == ToValue(pairs[i].1, acceptsFloat)
    decreases |pairs|
  {
    if i < |pairs| - 1 {
      var front := pairs[..|pairs| - 1];
      assert front[i] == pairs[i];
      forall j | i < j < |front| ensures front[j].0 != front[i].0 {
        assert front[j] == pairs[j];
      }
      AssignLastWins(m, front, acceptsFloat, i);
    }
  }

  /** A key no pair sets keeps its binding. */
  lemma {:induction false} AssignUntouched(m: map<string, Value>, pairs: seq<(string, string)>, acceptsFloat: string -> bool,
                                           key: string)
    requires key in m && forall i :: 0 <= i < |pairs| ==> pairs[i].0 != key
    ensures key in Assign(m, pairs, acceptsFloat) && Assign(m, pairs, acceptsFloat)[key] == m[key]
    decreases |pairs|
  {
    if |pairs| > 0 {
      var front := pairs[..|pairs| - 1];
      forall i | 0 <= i < |front| ensures front[i].0 != key {
        assert front[i] == pairs[i];
      }
      AssignUntouched(m, front, acceptsFloat, key);
    }
  }

  /** A row of masks with the columns `[a, b)` masked by a space. */
  function SetRun(row: seq<Mask>, a: int, b: int): (r: seq<Mask>)
    ensures |r| == |row|
  {
    seq(|row|, x requires 0 <= x < |row| => if a <= x < b then Some(' ') else row[x])
  }

  /** A row of masks with the columns of every match masked, in order. */
  function MaskedRow(row: seq<Mask>, spans: seq<Span>): (r: seq<Mask>)
    ensures |r| == |row|
  {
    if |spans| == 0 then row
    else SetRun(MaskedRow(row, spans[..|spans| - 1]), spans[|spans| - 1].start, spans[|spans| - 1].end)
  }

  /** The masks once the first n rows have had their matches masked. */
  function MaskedRows(masks: seq<seq<Mask>>, rows: seq<string>, n: nat): (r: seq<seq<Mask>>)
    requires n <= |rows| == |masks|
    ensures |r| == |masks|
  {
    seq(|masks|, y requires 0 <= y < |masks| => if y < n then MaskedRow(masks[y], RowSpans(rows[y])) else masks[y])
  }

  /** Masking one more match. */
  lemma MaskedRowSnoc(row: seq<Mask>, spans: seq<Span>, k: int)
    requires 0 <= k < |spans|
    ensures MaskedRow(row, spans[..k + 1]) == SetRun(MaskedRow(row, spans[..k]), spans[k].start, spans[k].end)
  {
    assert spans[..k + 1][..k] == spans[..k] && spans[..k + 1][k] == spans[k];
  }

  /** Masking one more row. */
  lemma MaskedRowsStep(masks: seq<seq<Mask>>, rows: seq<string>, y: nat)
    requires y < |rows| == |masks|
    ensures MaskedRows(masks, rows, y)[y := MaskedRow(masks[y], RowSpans(rows[y]))] == MaskedRows(masks, rows, y + 1)
  {
  }

  /** Column x lies in one of the matches. */
  predicate InSpans(spans: seq<Span>, x: int)
  {
    exists k :: 0 <= k < |spans| && spans[k].start <= x < spans[k].end
  }

  /** Masking the matches of a row masks exactly their columns. */
  lemma {:induction false} MaskedRowAt(row: seq<Mask>, spans: seq<Span>, x: int)
    requires 0 <= x < |row|
    ensures MaskedRow(row, spans)[x] == if InSpans(spans, x) then Some(' ') else row[x]
    decreases |spans|
  {
    if |spans| > 0 {
      var front := spans[..|spans| - 1];
      MaskedRowAt(row, front, x);
      if InSpans(spans, x) && !InSpans(front, x) {
        var k :| 0 <= k < |spans| && spans[k].start <= x < spans[k].end;
        assert k == |spans| - 1;
      }
      if InSpans(front, x) {
        var k :| 0 <= k < |front| && front[k].start <= x < front[k].end;
        assert spans[k] == front[k];
      }
    }
  }

  /** `get_inline_configs(grid)`: every match of every row of `grid.lines`
      (read once, before any masking), top to bottom and left to right. Each
      match's cells are masked, and its key is set to its value, a later key
      overriding an earlier one. Only the masks change. */
  method GetInlineConfigs(g: Grid, acceptsFloat: string -> bool) returns (out: map<string, Value>)
    requires g.Valid()
    modifies g`masks
    ensures g.Valid()
    ensures out == Assign(map[], AllPairs(old(g.Lines()), g.height), acceptsFloat)
    ensures g.masks == MaskedRows(old(g.masks), old(g.Lines()), g.height)
  {
    var rows := g.Lines();
    ghost var m0 := g.masks;
    out := map[];
    var y := 0;
    while y < |rows|
      invariant 0 <= y <= |rows| == g.height
      invariant g.Valid() && g.width == old(g.width)
      invariant forall i :: 0 <= i < |rows| ==> |rows[i]| == g.width
      invariant out == Assign(map[], AllPairs(rows, y), acceptsFloat)
      invariant g.masks == MaskedRows(m0, rows, y)
    {
      out := NextRow(g, rows, y, m0, out, acceptsFloat);
      y := y + 1;
    }
  }

  /** One iteration of the loop over the rows. */
  method NextRow(g: Grid, rows: seq<string>, y: int, ghost m0: seq<seq<Mask>>, out0: map<string, Value>,
                 acceptsFloat: string -> bool)
    returns (out: map<string, Value>)
    requires g.Valid() && |rows| == g.height == |m0| && 0 <= y < g.height && |rows[y]| == g.width
    requires g.masks == MaskedRows(m0, rows, y) && out0 == Assign(map[], AllPairs(rows, y), acceptsFloat)
    modifies g`masks
    ensures g.Valid() && g.masks == MaskedRows(m0, rows, y + 1)
    ensures out == Assign(map[], AllPairs(rows, y + 1), acceptsFloat)
  {
    AssignAppend(map[], AllPairs(rows, y), RowPairs(rows[y]), acceptsFloat);
    assert g.masks[y] == m0[y];
    out := ScanRow(g, rows[y], y, out0, acceptsFloat);
    MaskedRowsStep(m0, rows, y);
  }

  /** The loop over one row's matches: mask each, then record its pair. */
  method ScanRow(g: Grid, line: string, y: int, out0: map<string, Value>, acceptsFloat: string -> bool)
    returns (out: map<string, Value>)
    requires g.Valid() && 0 <= y < g.height && |line| == g.width
    modifies g`masks
    ensures g.Valid()
    ensures g.masks == old(g.masks)[y := MaskedRow(old(g.masks)[y], RowSpans(line))]
    ensures out == Assign(out0, RowPairs(line), acceptsFloat)
  {
    var spans := RowSpans(line);
    ghost var m0 := g.masks;
    ghost var pairs := RowPairs(line);
    out := out0;
    var k := 0;
    while k < |spans|
      invariant 0 <= k <= |spans| == |pairs|
      invariant g.Valid()
      invariant g.masks == m0[y := MaskedRow(m0[y], spans[..k])]
      invariant out == Assign(out0, pairs[..k], acceptsFloat)
    {
      RowSpansMatch(line, k);
      out := TakeMatch(g, line, y, spans[k], out, acceptsFloat);
      MaskedRowSnoc(m0[y], spans, k);
      RowPairsAt(line, k);
      AssignSnoc(out0, pairs, k, acceptsFloat);
      k := k + 1;
    }
    assert spans[..k] == spans;
    assert pairs[..k] == pairs;
  }

  /** One match: mask its cells, then set its key. */
  method TakeMatch(g: Grid, line: string, y: int, s: Span, out0: map<string, Value>, acceptsFloat: string -> bool)
    returns (out: map<string, Value>)
    requires g.Valid() && 0 <= y < g.height && |line| == g.width
    requires ConfigEnd(line, s.start) == Some(s.end)
    modifies g`masks
    ensures g.Valid() && g.height == old(g.height) && g.width == old(g.width)
    ensures g.masks == old(g.masks)[y := SetRun(old(g.masks)[y], s.start, s.end)]
    ensures out == out0[PairOf(line, s).0 := ToValue(PairOf(line, s).1, acceptsFloat)]
  {
    MaskRun(g, y, s.start, s.end);
    var keyEnd := RunEnd(line, s.start + 1, c => IsAlpha(c));
    var key, val := line[s.start + 1..keyEnd], line[keyEnd + 1..s.end - 1];
    var v := if acceptsFloat(val) then VFloat(val) else VStr(val);
    out := out0[key := v];
  }

  /** `for x in range(*interval): grid.setmask(complex(x, y))`. */
  method MaskRun(g: Grid, y: int, a: nat, b: nat)
    requires g.Valid() && 0 <= y < g.height && a <= b <= g.width
    modifies g`masks
    ensures g.Valid()
    ensures g.masks == old(g.masks)[y := SetRun(old(g.masks)[y], a, b)]
  {
    ghost var m0 := g.masks;
    assert SetRun(m0[y], a, a) == m0[y];
    for x := a to b
      invariant g.Valid() && g.height == old(g.height) && g.width == old(g.width)
      invariant g.masks == m0[y := SetRun(m0[y], a, x)]
    {
      g.SetMask(Point(x, y), Some(' '));
      assert SetRun(m0[y], a, x)[x := Some(' ')] == SetRun(m0[y], a, x + 1);
    }
  }

  /** What each pair of a row is: the match is `!`, the key, `=`, the value
      and `!`; the key is a non-empty run of letters and the value holds no
      `!`. */
  lemma RowPairsShape(line: string, k: int)
    requires 0 <= k < |RowPairs(line)|
    ensures var s, p := RowSpans(line)[k], RowPairs(line)[k];
      && |p.0| > 0 && (forall j :: 0 <= j < |p.0| ==> IsAlpha(p.0[j]))
      && (forall j :: 0 <= j < |p.1| ==> p.1[j] != '!')
      && s.start <= s.end <= |line| && line[s.start..s.end] == "!" + p.0 + "=" + p.1 + "!"
  {
    var s := RowSpans(line)[k];
    RowSpansMatch(line, k);
    assert RowPairs(line)[k] == PairOf(line, s);
    MatchText(line, s.start, s.end);
  }

  /** The text of a match at i ending at e. */
  lemma MatchText(line: string, i: nat, e: nat)
    requires ConfigEnd(line, i) == Some(e)
    ensures var ke := KeyEnd(line, i);
      line[i..e] == "!" + line[i + 1..ke] + "=" + line[ke + 1..e - 1] + "!"
  {
    var ke := KeyEnd(line, i);
    ConfigEndShape(line, i);
    assert line[i..e] == line[i..i + 1] + line[i + 1..e];
    assert line[i + 1..e] == line[i + 1..ke] + line[ke..e];
    assert line[ke..e] == line[ke..ke + 1] + line[ke + 1..e];
    assert line[ke + 1..e] == line[ke + 1..e - 1] + line[e - 1..e];
  }

  /** The matches of a row do not overlap. */
  lemma RowSpansOrdered(line: string, j: int, k: int)
    requires 0 <= j < k < |RowSpans(line)|
    ensures RowSpans(line)[j].end <= RowSpans(line)[k].start
  {
    ConfigAdvances(line);
    FindIterShape(line, 0, ConfigPat);
  }

  /** The example in the source: `!padding=30!!label=!` sets `padding` to
      `30` and `label` to the empty string; the second `!` of the first
      match does not start a match. */
  lemma PaddingLabelExample()
    ensures RowPairs("!padding=30!!label=!") == [("padding", "30"), ("label", "")]
  {
    var line := "!padding=30!!label=!";
    PaddingLabelSpans();
    RowPairsAt(line, 0);
    RowPairsAt(line, 1);
    PaddingMatch();
    LabelMatch();
    assert line[1..8] == "padding" && line[9..11] == "30" && line[13..18] == "label";
  }

  /** The example row holds two matches, the second starting right after
      the first. */
  lemma PaddingLabelSpans()
    ensures RowSpans("!padding=30!!label=!") == [Span(0, 12), Span(12, 20)]
  {
    var line := "!padding=30!!label=!";
    ConfigAdvances(line);
    PaddingMatch();
    LabelMatch();
    assert ConfigPat(line, 0) == Some(12) && ConfigPat(line, 12) == Some(20);
    assert FindIter(line, 12, ConfigPat) == [Span(12, 20)] + FindIter(line, 20, ConfigPat);
    assert FindIter(line, 0, ConfigPat) == [Span(0, 12)] + FindIter(line, 12, ConfigPat);
  }

  lemma PaddingMatch()
    ensures KeyEnd("!padding=30!!label=!", 0) == 8 && ConfigEnd("!padding=30!!label=!", 0) == Some(12)
  {
    var line := "!padding=30!!label=!";
    PaddingKey();
    assert line[8] == '=' && line[9] == '3' && line[10] == '0' && line[11] == '!';
    RunEndStops(line, 9, 11, c => c != '!');
  }

  lemma PaddingKey()
    ensures KeyEnd("!padding=30!!label=!", 0) == 8
  {
    var line := "!padding=30!!label=!";
    assert line[1..8] == "padding";
    assert forall k :: 1 <= k < 8 ==> line[k] == "padding"[k - 1];
    RunEndStops(line, 1, 8, c => IsAlpha(c));
  }

  lemma LabelMatch()
    ensures KeyEnd("!padding=30!!label=!", 12) == 18 && ConfigEnd("!padding=30!!label=!", 12) == Some(20)
  {
    var line := "!padding=30!!label=!";
    RunEndStops(line, 13, 18, c => IsAlpha(c));
    RunEndStops(line, 19, 19, c => c != '!');
  }
}
