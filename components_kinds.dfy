/** The component base classes of schemascii/components/__init__.py: the
    terminal-count check of `NTerminalComponent`, the `+` handling of
    `PolarizedTwoTerminalComponent`, and the value tuples of
    `SimpleComponent.format_id_text`. */
module ComponentKinds {
  import opened Base
  import opened Text
  import opened Geometry

  /** What a component class checks when it is built (`__post_init__`):
      nothing, the number of terminals, or the number of terminals and the
      `+` flags of a two-terminal polarized part. */
  datatype Check = NoCheck | NTerminal(n: nat) | Polarized(alwaysPolarized: bool)

  /** A component class: its name and its check. */
  datatype ComponentClass = ComponentClass(name: string, check: Check)

  /** `TwoTerminalComponent` fixes the count at 2. */
  const TwoTerminal: Check := NTerminal(2)

  /** The terminal is flagged `+`. */
  predicate IsPlus(t: Terminal) { t.flag == Some('+') }

  /** `sum(t.flag == "+" for t in terminals)`. */
  function CountPlus(ts: seq<Terminal>): (n: nat)
    ensures n <= |ts|
  {
    if |ts| == 0 then 0 else CountPlus(ts[..|ts| - 1]) + (if IsPlus(ts[|ts| - 1]) then 1 else 0)
  }

  /** `is_polarized`: some terminal is flagged `+`. */
  predicate IsPolarized(ts: seq<Terminal>)
  {
    exists k :: 0 <= k < |ts| && IsPlus(ts[k])
  }

  /** The count is positive exactly when some terminal is flagged `+`. */
  lemma {:induction false} CountPlusPositive(ts: seq<Terminal>)
    ensures CountPlus(ts) > 0 <==> IsPolarized(ts)
  {
    if |ts| > 0 {
      var front := ts[..|ts| - 1];
      CountPlusPositive(front);
      if IsPolarized(front) {
        var k :| 0 <= k < |front| && IsPlus(front[k]);
        assert ts[k] == front[k];
      }
      if IsPolarized(ts) && !IsPlus(ts[|ts| - 1]) {
        var k :| 0 <= k < |ts| && IsPlus(ts[k]);
        assert front[k] == ts[k];
      }
    }
  }

  /** For two terminals the count is the number of the two flagged `+`. */
  lemma CountPlusTwo(ts: seq<Terminal>)
    requires |ts| == 2
    ensures CountPlus(ts) == (if IsPlus(ts[0]) then 1 else 0) + (if IsPlus(ts[1]) then 1 else 0)
  {
    assert ts[..1][..0] == [];
  }

  /** The message of the count check. */
  function CountMessage(name: string, n: nat, found: nat): string
  {
    name + ": can only have " + NatToString(n) + " terminals (found " + NatToString(found) + ")"
  }

  /** `NTerminalComponent.__post_init__`: raises exactly when the count is
      wrong, naming the expected and the found count, and otherwise keeps the
      terminals as they are. */
  function CheckCount(name: string, n: nat, ts: seq<Terminal>): (r: Result<seq<Terminal>>)
    ensures r.Err? <==> |ts| != n
    ensures r.Err? ==> r.error == TerminalsError(CountMessage(name, n, |ts|))
    ensures r.Ok? ==> r.value == ts
  {
    if n != |ts| then Err(TerminalsError(CountMessage(name, n, |ts|))) else Ok(ts)
  }

  /** `PolarizedTwoTerminalComponent.__post_init__`: the count check first,
      then at most one `+` (exactly one when always polarized), then a `+`
      on the second terminal moves it to the front. */
  function CheckPolarized(name: string, always: bool, ts: seq<Terminal>): (r: Result<seq<Terminal>>)
  {
    match CheckCount(name, 2, ts)
    case Err(e) => Err(e)
    case Ok(ts) =>
      var plus := CountPlus(ts);
      if (always && plus != 1) || plus > 1 then
        Err(TerminalsError(name + ": need '+' on only one terminal to indicate polarization"))
      else if IsPlus(ts[1]) then Ok([ts[1], ts[0]])
      else Ok(ts)
  }

  /** What building a component of class `check` does to its terminals:
      they come back, maybe reordered, or the check raises. */
  function PostInit(check: Check, name: string, ts: seq<Terminal>): (r: Result<seq<Terminal>>)
  {
    match check
    case NoCheck => Ok(ts)
    case NTerminal(n) => CheckCount(name, n, ts)
    case Polarized(always) => CheckPolarized(name, always, ts)
  }

  /** The polarized check accepts exactly two terminals, at most one of
      them `+`, and exactly one when the class is always polarized. */
  lemma CheckPolarizedAccepts(name: string, always: bool, ts: seq<Terminal>)
    ensures CheckPolarized(name, always, ts).Ok? <==>
      |ts| == 2 && !(IsPlus(ts[0]) && IsPlus(ts[1])) && (always ==> IsPlus(ts[0]) || IsPlus(ts[1]))
  {
    if |ts| == 2 {
      CountPlusTwo(ts);
    }
  }

  /** An accepted pair is the same two terminals, with the `+` one, if any,
      first; without a `+` the order is kept. */
  lemma CheckPolarizedOrders(name: string, always: bool, ts: seq<Terminal>)
    requires CheckPolarized(name, always, ts).Ok?
    ensures var r := CheckPolarized(name, always, ts).value;
      && |r| == 2 && multiset(r) == multiset(ts)
      && (IsPolarized(ts) ==> IsPlus(r[0]) && !IsPlus(r[1]))
      && (!IsPolarized(ts) ==> r == ts)
  {
    CountPlusTwo(ts);
    var r := CheckPolarized(name, always, ts).value;
    if IsPolarized(ts) {
      var k :| 0 <= k < |ts| && IsPlus(ts[k]);
    }
    if IsPlus(ts[1]) {
      assert r == [ts[1], ts[0]];
      calc {
        multiset(r);
        multiset([ts[1]]) + multiset([ts[0]]);
        multiset([ts[0]]) + multiset([ts[1]]);
        { assert ts == [ts[0]] + [ts[1]]; }
        multiset(ts);
      }
    }
  }

  /** The polarized check keeps polarization: the reordered terminals are
      polarized exactly when the given ones are. */
  lemma PolarizedKept(name: string, always: bool, ts: seq<Terminal>)
    requires CheckPolarized(name, always, ts).Ok?
    ensures IsPolarized(CheckPolarized(name, always, ts).value) <==> IsPolarized(ts)
  {
    CheckPolarizedOrders(name, always, ts);
    var r := CheckPolarized(name, always, ts).value;
    if IsPolarized(ts) {
      assert IsPlus(r[0]);
    }
  }

  /** One entry of `value_format`: the option name, its unit, and up to two
      flags. */
  datatype ValueFormat = ValueFormat(option: string, unit: string, flags: seq<bool>)

  /** The tuple built from an entry: the option's value in the name's place. */
  datatype FormattedValue = FormattedValue(value: Value, unit: string, flags: seq<bool>)

  /** `options[name]` raises KeyError for a name that is missing. */
  function ValueTuples(fmt: seq<ValueFormat>, options: map<string, Value>): (r: Result<seq<FormattedValue>>)
    decreases |fmt|
  {
    if |fmt| == 0 then Ok([])
    else if fmt[0].option !in options then Err(KeyError(Repr(fmt[0].option)))
    else match ValueTuples(fmt[1..], options)
      case Err(e) => Err(e)
      case Ok(rest) => Ok([FormattedValue(options[fmt[0].option], fmt[0].unit, fmt[0].flags)] + rest)
  }

  /** Every option the entries name is present. */
  predicate AllPresent(fmt: seq<ValueFormat>, options: map<string, Value>)
  {
    forall k :: 0 <= k < |fmt| ==> fmt[k].option in options
  }

  /** The names before entry k are present and entry k's is missing. */
  predicate FirstMissing(fmt: seq<ValueFormat>, options: map<string, Value>, k: nat)
  {
    k < |fmt| && (forall j :: 0 <= j < k ==> fmt[j].option in options) && fmt[k].option !in options
  }

  /** One tuple per entry, in order, with the option's value and the rest of
      the entry unchanged. */
  predicate Formatted(fmt: seq<ValueFormat>, options: map<string, Value>, vs: seq<FormattedValue>)
    requires AllPresent(fmt, options)
  {
    |vs| == |fmt| && forall k :: 0 <= k < |fmt| ==> vs[k] == FormattedValue(options[fmt[k].option], fmt[k].unit, fmt[k].flags)
  }

  /** The tuples are built exactly when every option named is present, and
      then hold each option's value in its entry's place. */
  lemma {:induction false} ValueTuplesOk(fmt: seq<ValueFormat>, options: map<string, Value>)
    ensures ValueTuples(fmt, options).Ok? <==> AllPresent(fmt, options)
    ensures ValueTuples(fmt, options).Ok? ==> Formatted(fmt, options, ValueTuples(fmt, options).value)
    decreases |fmt|
  {
    if |fmt| > 0 {
      var rest := fmt[1..];
      ValueTuplesOk(rest, options);
      assert forall k :: 1 <= k < |fmt| ==> fmt[k] == rest[k - 1];
      assert AllPresent(fmt, options) <==> fmt[0].option in options && AllPresent(rest, options);
    }
  }

  /** A failure is the KeyError of the first missing name. */
  lemma {:induction false} ValueTuplesErr(fmt: seq<ValueFormat>, options: map<string, Value>)
    ensures ValueTuples(fmt, options).Err? ==>
      exists k: nat :: FirstMissing(fmt, options, k) && ValueTuples(fmt, options).error == KeyError(Repr(fmt[k].option))
    decreases |fmt|
  {
    if |fmt| > 0 && ValueTuples(fmt, options).Err? {
      if fmt[0].option !in options {
        assert FirstMissing(fmt, options, 0);
      } else {
        var rest := fmt[1..];
        ValueTuplesErr(rest, options);
        var k: nat :| FirstMissing(rest, options, k) && ValueTuples(rest, options).error == KeyError(Repr(rest[k].option));
        assert fmt[k + 1] == rest[k];
        forall j | 0 <= j < k + 1 ensures fmt[j].option in options {
          if j > 0 { assert fmt[j] == rest[j - 1]; }
        }
        assert FirstMissing(fmt, options, k + 1);
      }
    }
  }

  /** The message `format_id_text` raises when the id text cannot be made. */
  function RangeMessage(rdName: string): string
  {
    rdName + ": Range of values not allowed on fixed-value component"
  }

  /** `SimpleComponent.format_id_text`: build the value tuples, then the id
      text. `idText` stands for `utils.id_text` on the tuples (float
      formatting, left out), None where it raises ValueError. */
  method FormatIdText(rdName: string, fmt: seq<ValueFormat>, options: map<string, Value>,
                      idText: seq<FormattedValue> -> Option<string>)
    returns (r: Result<string>)
    ensures ValueTuples(fmt, options).Err? ==> r == Err(ValueTuples(fmt, options).error)
    ensures ValueTuples(fmt, options).Ok? ==>
      r == match idText(ValueTuples(fmt, options).value)
           case None => Err(BOMError(RangeMessage(rdName)))
           case Some(s) => Ok(s)
  {
    var vals: seq<FormattedValue> := [];
    var i := 0;
    while i < |fmt|
      invariant 0 <= i <= |fmt|
      invariant forall k :: 0 <= k < i ==> fmt[k].option in options
      invariant |vals| == i
      invariant forall k :: 0 <= k < i ==> vals[k] == FormattedValue(options[fmt[k].option], fmt[k].unit, fmt[k].flags)
    {
      if fmt[i].option !in options {
        ValueTuplesFirstMissing(fmt, options, i);
        return Err(KeyError(Repr(fmt[i].option)));
      }
      vals := vals + [FormattedValue(options[fmt[i].option], fmt[i].unit, fmt[i].flags)];
      i := i + 1;
    }
    ValueTuplesOk(fmt, options);
    assert vals == ValueTuples(fmt, options).value;
    match idText(vals)
    case None => return Err(BOMError(RangeMessage(rdName)));
    case Some(s) => return Ok(s);
  }

  /** When the first i names are present and name i is missing, the KeyError
      is for name i. */
  lemma {:induction false} ValueTuplesFirstMissing(fmt: seq<ValueFormat>, options: map<string, Value>, i: nat)
    requires i < |fmt| && fmt[i].option !in options
    requires forall k :: 0 <= k < i ==> fmt[k].option in options
    ensures ValueTuples(fmt, options) == Err(KeyError(Repr(fmt[i].option)))
    decreases i
  {
    if i > 0 {
      ValueTuplesFirstMissing(fmt[1..], options, i - 1);
    }
  }
}
