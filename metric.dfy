/** Metric multipliers (schemascii/metric.py): the letters of `"pnum kMGT"`
    stand for the powers of ten from -12 to 12 in steps of three, and
    `format_metric_unit` moves the multiplier and unit after a number. */
module Metric {
  import opened Base
  import opened Text

  /** The multiplier letters, pico first; the space stands for no multiplier. */
  const Prefixes := "pnum kMGT"

  /** Python's `s[i]` on a string: a negative index counts from the end,
      and an index outside `-len(s) .. len(s) - 1` raises IndexError. */
  function PyIndex(s: string, i: int): (r: Result<char>)
    ensures 0 <= i < |s| ==> r == Ok(s[i])
    ensures -|s| <= i < 0 ==> r == Ok(s[i + |s|])
    ensures r.Err? <==> i < -|s| || |s| <= i
  {
    if 0 <= i < |s| then Ok(s[i])
    else if -|s| <= i < 0 then Ok(s[i + |s|])
    else Err(IndexError("string index out of range"))
  }

  /** `c.strip()` of one character of the table: the space becomes `""`. */
  function StripChar(c: char): string
  {
    if c == ' ' then "" else [c]
  }

  /** `exponent_to_multiplier(exponent)` as written: None when the exponent
      is not a multiple of 3, else the letter at `exponent // 3 + 4`. The
      index is not checked, so a negative one counts from the end of the
      table. (`%` and `//` by 3 agree with Python's for every sign.) */
  function ExponentToMultiplier(exponent: int): (r: Result<Option<string>>)
    ensures exponent % 3 != 0 <==> r == Ok(None)
    ensures r.Err? <==> exponent % 3 == 0 && (exponent > 12 || exponent < -39)
    ensures r.Ok? && r.value.Some? ==> |r.value.value| <= 1
  {
    if exponent % 3 != 0 then Ok(None)
    else
      match PyIndex(Prefixes, exponent / 3 + 4)
      case Err(e) => Err(e)
      case Ok(c) => Ok(Some(StripChar(c)))
  }

  /** `multiplier_to_exponent(multiplier)`: `" "` and `""` are 0, `µ` is
      read as `u` and `K` as `k`, and otherwise the position of the text in
      the table (`str.index`, a substring search) gives the exponent; text
      not in the table raises ValueError. */
  function MultiplierToExponent(multiplier: string): (r: Result<int>)
    ensures multiplier == " " || multiplier == "" ==> r == Ok(0)
    ensures r.Ok? ==> r.value % 3 == 0 && -12 <= r.value <= 12
    ensures r.Err? ==> r.error == ValueError("substring not found")
  {
    if multiplier == " " || multiplier == "" then Ok(0)
    else
      var m := if multiplier == "µ" then "u" else if multiplier == "K" then "k" else multiplier;
      match Find(Prefixes, m, 0)
      case None => Err(ValueError("substring not found"))
      case Some(i) => Ok((i - 4) * 3)
  }

  /** The table's letters are all different, so a single letter is found
      at its own position. */
  lemma FindLetter(i: nat)
    requires i < |Prefixes|
    ensures Find(Prefixes, [Prefixes[i]], 0) == Some(i)
  {
    assert OccursAt(Prefixes, [Prefixes[i]], i);
    forall k | 0 <= k < i ensures !OccursAt(Prefixes, [Prefixes[i]], k) {
      assert Prefixes[k..k + 1][0] == Prefixes[k] != Prefixes[i];
    }
  }

  /** Round trip: every exponent from -12 to 12 that is a multiple of 3 has
      a multiplier, and reading that multiplier gives the exponent back. */
  lemma ExponentRoundTrip(exponent: int)
    requires -12 <= exponent <= 12 && exponent % 3 == 0
    ensures ExponentToMultiplier(exponent).Ok? && ExponentToMultiplier(exponent).value.Some?
    ensures MultiplierToExponent(ExponentToMultiplier(exponent).value.value) == Ok(exponent)
  {
    var i := exponent / 3 + 4;
    assert 0 <= i < 9 && exponent == (i - 4) * 3;
    assert PyIndex(Prefixes, i) == Ok(Prefixes[i]);
    assert ExponentToMultiplier(exponent) == Ok(Some(StripChar(Prefixes[i])));
    if i != 4 {
      FindLetter(i);
      assert StripChar(Prefixes[i]) == [Prefixes[i]] != "µ";
    }
  }

  /** Round trip the other way: a letter of the table, or `µ` or `K`, gives
      an exponent whose multiplier is that letter (`u` for `µ`, `k` for
      `K`). */
  lemma MultiplierRoundTrip(c: char)
    requires (c in Prefixes && c != ' ') || c == 'µ' || c == 'K'
    ensures MultiplierToExponent([c]).Ok?
    ensures ExponentToMultiplier(MultiplierToExponent([c]).value)
      == Ok(Some(if c == 'µ' then "u" else if c == 'K' then "k" else [c]))
  {
    var m := if c == 'µ' then 'u' else if c == 'K' then 'k' else c;
    assert Prefixes[2] == 'u' && Prefixes[5] == 'k';
    var i :| 0 <= i < |Prefixes| && Prefixes[i] == m;
    FindLetter(i);
  }

  /** A single character outside the table (other than the space, `µ` and
      `K`) raises ValueError. */
  lemma UnknownMultiplier(c: char)
    requires c !in Prefixes && c != 'µ' && c != 'K'
    ensures MultiplierToExponent([c]).Err?
  {
    forall k: nat ensures !OccursAt(Prefixes, [c], k) {
      if k + 1 <= |Prefixes| {
        assert Prefixes[k..k + 1][0] == Prefixes[k];
      }
    }
  }

  /** The wrap-around of the written code: -15 is not a metric exponent,
      yet it maps to `T`, which reads back as 12. */
  lemma NegativeIndexWraps()
    ensures ExponentToMultiplier(-15) == Ok(Some("T"))
    ensures MultiplierToExponent("T") == Ok(12)
  {
    FindLetter(8);
  }

  /** The conversion as intended: an exponent outside -12 .. 12 that is a
      multiple of 3 raises IndexError instead of wrapping. */
  function ExponentToMultiplierChecked(exponent: int): (r: Result<Option<string>>)
    ensures exponent % 3 != 0 <==> r == Ok(None)
    ensures r.Err? <==> exponent % 3 == 0 && (exponent > 12 || exponent < -12)
  {
    if exponent % 3 != 0 then Ok(None)
    else
      var i := exponent / 3 + 4;
      if 0 <= i < |Prefixes| then Ok(Some(StripChar(Prefixes[i])))
      else Err(IndexError("string index out of range"))
  }

  /** With the check, every multiplier returned reads back as the exponent
      it came from. */
  lemma CheckedRoundTrip(exponent: int)
    requires ExponentToMultiplierChecked(exponent).Ok? && ExponentToMultiplierChecked(exponent).value.Some?
    ensures MultiplierToExponent(ExponentToMultiplierChecked(exponent).value.value) == Ok(exponent)
  {
    ExponentRoundTrip(exponent);
  }

  /** The letters `METRIC_NUMBER` accepts after the digits. */
  predicate IsMultiplierLetter(c: char) { c in "pnumKkMGT" }

  /** The end of a leading run of ASCII digits from i. */
  function DigitsEnd(s: string, i: nat): (e: nat)
    requires i <= |s|
    ensures i <= e <= |s| && (forall k :: i <= k < e ==> IsDigit(s[k])) && (e == |s| || !IsDigit(s[e]))
    decreases |s| - i
  {
    if i < |s| && IsDigit(s[i]) then DigitsEnd(s, i + 1) else i
  }

  /** The end of a match of `\d*\.?\d+` at i, with Python's backtracking:
      the integer digits, then `.` and at least one digit when they follow,
      else the integer digits alone when there is one. */
  function NumberEnd(s: string, i: nat): (r: Option<nat>)
    requires i <= |s|
    ensures r.Some? ==> i < r.value <= |s|
  {
    var d := DigitsEnd(s, i);
    if d < |s| && s[d] == '.' && DigitsEnd(s, d + 1) > d + 1 then Some(DigitsEnd(s, d + 1))
    else if d > i then Some(d)
    else None
  }

  /** The end of a match of `\d*\.?\d+[pnumKkMGT]?` at i. */
  function QuantityEnd(s: string, i: nat): (r: Option<nat>)
    requires i <= |s|
    ensures r.Some? ==> i < r.value <= |s|
  {
    match NumberEnd(s, i)
    case None => None
    case Some(e) => if e < |s| && IsMultiplierLetter(s[e]) then Some(e + 1) else Some(e)
  }

  /** `METRIC_RANGE.match(s)`: two quantities joined by `-`; the groups and
      the end of the match. Neither quantity can end in `-`, so the greedy
      first quantity is the only one a `-` can follow. */
  function RangeMatch(s: string): (r: Option<(string, string, nat)>)
    ensures r.Some? ==> r.value.2 <= |s| && r.value.0 + "-" + r.value.1 == s[..r.value.2]
  {
    match QuantityEnd(s, 0)
    case None => None
    case Some(a) =>
      if a < |s| && s[a] == '-' then
        match QuantityEnd(s, a + 1)
        case None => None
        case Some(b) =>
          assert s[..b] == s[..a] + "-" + s[a + 1..b];
          Some((s[..a], s[a + 1..b], b))
      else None
  }

  /** `format_metric_unit(num, unit, six, unicode, allow_range)`. The
      Decimal arithmetic of `normalize_metric` is not part of this model:
      `normalize` stands for `normalize_metric(·, six, unicode)` and gives
      the digits and the multiplier of a matched number. */
  function FormatMetricUnit(num: string, unit: string, allowRange: bool, normalize: string -> (string, string)): (r: Result<string>)
    ensures r.Err? <==> !allowRange && RangeMatch(Strip(num)).Some?
    ensures r.Err? ==> r.error == ValueError("range not allowed")
    ensures RangeMatch(Strip(num)).None? && QuantityEnd(Strip(num), 0).None? ==> r == Ok(Strip(num))
  {
    var s := Strip(num);
    match RangeMatch(s)
    case Some((n0, n1, e)) =>
      if !allowRange then Err(ValueError("range not allowed"))
      else
        var suffix := s[e..];
        var (d0, m0) := normalize(n0);
        var (d1, m1) := normalize(n1);
        if m0 != m1 then Ok(RStrip(d0 + " " + m0 + unit + " - " + d1 + " " + m1 + unit + " " + suffix))
        else Ok(RStrip(d0 + "-" + d1 + " " + m0 + unit + " " + suffix))
    case None =>
      match QuantityEnd(s, 0)
      case None => Ok(s)
      case Some(e) =>
        var (d, m) := normalize(s[..e]);
        Ok(RStrip(d + " " + m + unit + " " + s[e..]))
  }

  /** Text that does not start with a number comes back stripped, and
      anything else is passed through `normalize`: with a `normalize` that
      never fails the result depends only on the stripped input. */
  lemma NoNumberUnchanged(num: string, unit: string, allowRange: bool, normalize: string -> (string, string))
    requires |Strip(num)| > 0 && !IsDigit(Strip(num)[0]) && Strip(num)[0] != '.'
    ensures FormatMetricUnit(num, unit, allowRange, normalize) == Ok(Strip(num))
  {
    var s := Strip(num);
    assert DigitsEnd(s, 0) == 0;
  }

  /** `10k-20k` is a range: it is refused when ranges are not allowed. */
  lemma RangeRefused(unit: string, normalize: string -> (string, string))
    ensures FormatMetricUnit("10k-20k", unit, false, normalize) == Err(ValueError("range not allowed"))
  {
    var s := "10k-20k";
    StripExample();
    assert DigitsEnd(s, 2) == 2 && DigitsEnd(s, 1) == 2 && DigitsEnd(s, 0) == 2;
    assert NumberEnd(s, 0) == Some(2) && QuantityEnd(s, 0) == Some(3);
    assert DigitsEnd(s, 6) == 6 && DigitsEnd(s, 5) == 6 && DigitsEnd(s, 4) == 6;
    assert NumberEnd(s, 4) == Some(6) && QuantityEnd(s, 4) == Some(7);
  }

  lemma StripExample()
    ensures Strip("10k-20k") == "10k-20k"
  {
    assert LStrip("10k-20k") == "10k-20k";
  }
}
