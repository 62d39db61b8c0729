/** The parsed data of a drawing (schemascii/data.py `Section` and `Data`,
    and `global_options` of schemascii/data_parse.py): sections are looked
    up by glob-matching their headers against a namespace, and options are
    declared per namespace. */
module DataSections {
  import opened Base
  import opened Text
  import DataConsumers
  import DataParse

  type Section = DataParse.Section

  /** `fnmatch.fnmatch(name, pattern)` for the wildcards `*` (any run of
      characters) and `?` (any one character); every other character
      stands for itself. */
  function GlobMatch(name: string, pat: string): bool
    decreases |pat| + |name|
  {
    if |pat| == 0 then |name| == 0
    else if pat[0] == '*' then GlobMatch(name, pat[1..]) || (|name| > 0 && GlobMatch(name[1..], pat))
    else |name| > 0 && (pat[0] == '?' || pat[0] == name[0]) && GlobMatch(name[1..], pat[1..])
  }

  /** `*` matches every name. */
  lemma {:induction false} StarMatchesAll(name: string)
    ensures GlobMatch(name, "*")
    decreases |name|
  {
    if |name| == 0 {
      assert GlobMatch(name, "*"[1..]);
    } else {
      StarMatchesAll(name[1..]);
    }
  }

  /** A pattern without wildcards matches exactly itself. */
  lemma {:induction false} LiteralMatch(name: string, pat: string)
    requires '*' !in pat && '?' !in pat
    ensures GlobMatch(name, pat) <==> name == pat
    decreases |pat|
  {
    if |pat| > 0 && |name| > 0 {
      LiteralMatch(name[1..], pat[1..]);
      if name[0] == pat[0] && name[1..] == pat[1..] {
        assert name == [name[0]] + name[1..] && pat == [pat[0]] + pat[1..];
      }
    }
  }

  /** `?` matches the names of exactly one character. */
  lemma QuestionMatchesOne(name: string)
    ensures GlobMatch(name, "?") <==> |name| == 1
  {
    if |name| > 0 {
      assert GlobMatch(name[1..], "?"[1..]) <==> |name[1..]| == 0;
    }
  }

  /** A literal prefix and `*` match every name with that prefix. */
  lemma {:induction false} PrefixStar(prefix: string, rest: string)
    requires '*' !in prefix && '?' !in prefix
    ensures GlobMatch(prefix + rest, prefix + "*")
    decreases |prefix|
  {
    if |prefix| == 0 {
      assert prefix + rest == rest && prefix + "*" == "*";
      StarMatchesAll(rest);
    } else {
      PrefixStar(prefix[1..], rest);
      assert (prefix + rest)[1..] == prefix[1..] + rest;
      assert (prefix + "*")[1..] == prefix[1..] + "*";
    }
  }

  /** `Section.matches(name)`. */
  predicate Matches(sec: Section, name: string)
  {
    GlobMatch(name, sec.header)
  }

  /** The sections of a drawing, in the order they were written. */
  datatype Data = Data(sections: seq<Section>)

  /** What `get_values_for(namespace)` returns: the data of every section
      whose header matches, merged in order. */
  function ValuesFor(sections: seq<Section>, ns: string): map<string, Value>
  {
    if |sections| == 0 then map[]
    else
      var last := sections[|sections| - 1];
      ValuesFor(sections[..|sections| - 1], ns) + (if Matches(last, ns) then last.data else map[])
  }

  /** `get_values_for(namespace)`: `out |= section.data` for each matching
      section. */
  method GetValuesFor(d: Data, ns: string) returns (out: map<string, Value>)
    ensures out == ValuesFor(d.sections, ns)
  {
    out := map[];
    for i := 0 to |d.sections|
      invariant out == ValuesFor(d.sections[..i], ns)
    {
      var section := d.sections[i];
      assert d.sections[..i + 1][..i] == d.sections[..i];
      if Matches(section, ns) {
        out := out + section.data;
      } else {
        assert out + map[] == out;
      }
    }
    assert d.sections[..|d.sections|] == d.sections;
  }

  /** Some section matching ns has key k. */
  predicate SomeHas(sections: seq<Section>, ns: string, k: string)
  {
    exists i :: 0 <= i < |sections| && Matches(sections[i], ns) && k in sections[i].data
  }

  /** A key is in the result exactly when some matching section has it. */
  lemma {:induction false} ValuesForKeys(sections: seq<Section>, ns: string, k: string)
    ensures k in ValuesFor(sections, ns) <==> SomeHas(sections, ns, k)
    decreases |sections|
  {
    if |sections| > 0 {
      var n := |sections|;
      var front, last := sections[..n - 1], sections[n - 1];
      ValuesForKeys(front, ns, k);
      if Matches(last, ns) && k in last.data {
        assert SomeHas(sections, ns, k);
      } else {
        if SomeHas(sections, ns, k) {
          var i :| 0 <= i < n && Matches(sections[i], ns) && k in sections[i].data;
          assert front[i] == sections[i];
        }
        if SomeHas(front, ns, k) {
          var i :| 0 <= i < n - 1 && Matches(front[i], ns) && k in front[i].data;
          assert sections[i] == front[i];
        }
      }
    }
  }

  /** The value of a key is the one of the last matching section that has
      it: later sections override earlier ones. */
  lemma {:induction false} ValuesForLastWins(sections: seq<Section>, ns: string, k: string, i: nat)
    requires i < |sections| && Matches(sections[i], ns) && k in sections[i].data
    requires forall j :: i < j < |sections| && Matches(sections[j], ns) ==> k !in sections[j].data
    ensures k in ValuesFor(sections, ns) && ValuesFor(sections, ns)[k] == sections[i].data[k]
    decreases |sections|
  {
    var n := |sections|;
    if i < n - 1 {
      var front := sections[..n - 1];
      assert front[i] == sections[i];
      forall j | i < j < |front| && Matches(front[j], ns) ensures k !in front[j].data {
        assert front[j] == sections[j];
      }
      ValuesForLastWins(front, ns, k, i);
      assert !(Matches(sections[n - 1], ns) && k in sections[n - 1].data);
    }
  }

  /** The merge of two runs of sections is the merge of the first run
      updated by the merge of the second. */
  lemma {:induction false} ValuesForAppend(a: seq<Section>, b: seq<Section>, ns: string)
    ensures ValuesFor(a + b, ns) == ValuesFor(a, ns) + ValuesFor(b, ns)
    decreases |b|
  {
    if |b| == 0 {
      assert a + b == a;
      assert ValuesFor(a, ns) + map[] == ValuesFor(a, ns);
    } else {
      var front, last := b[..|b| - 1], b[|b| - 1];
      assert (a + b)[..|a + b| - 1] == a + front && (a + b)[|a + b| - 1] == last;
      ValuesForAppend(a, front, ns);
      MergeAssoc(ValuesFor(a, ns), ValuesFor(front, ns), if Matches(last, ns) then last.data else map[]);
    }
  }

  lemma MergeAssoc(m: map<string, Value>, f: map<string, Value>, l: map<string, Value>)
    ensures (m + f) + l == m + (f + l)
  {
  }

  /** The right operand of `|`: a Data, a dict, or anything else. */
  datatype Operand = DataOperand(d: Data) | DictOperand(m: map<string, Value>) | OtherOperand

  /** `data | other`: the other's sections after this one's, a dict being
      one section headed `*`; None stands for `NotImplemented`. */
  function Or(d: Data, other: Operand): (r: Option<Data>)
  {
    match other
    case DataOperand(o) => Some(Data(d.sections + o.sections))
    case DictOperand(m) => Some(Data(d.sections + [DataParse.Section("*", m)]))
    case OtherOperand => None
  }

  /** What `|` means for lookups: the right operand overrides the left one
      in every namespace, and a dict overrides in every namespace because
      `*` matches them all. */
  lemma OrValues(d: Data, other: Operand, ns: string)
    ensures Or(d, other).None? <==> other.OtherOperand?
    ensures other.DataOperand? ==>
      ValuesFor(Or(d, other).value.sections, ns) == ValuesFor(d.sections, ns) + ValuesFor(other.d.sections, ns)
    ensures other.DictOperand? ==>
      ValuesFor(Or(d, other).value.sections, ns) == ValuesFor(d.sections, ns) + other.m
  {
    match other
    case DataOperand(o) =>
      ValuesForAppend(d.sections, o.sections, ns);
    case DictOperand(m) =>
      var sec := DataParse.Section("*", m);
      ValuesForAppend(d.sections, [sec], ns);
      StarMatchesAll(ns);
      assert [sec][..0] == [];
      assert ValuesFor([sec], ns) == map[] + m;
      assert map[] + m == m;
    case OtherOperand =>
  }

  /** `global_options()`: the values for the namespace `*`. */
  function GlobalOptions(d: Data): map<string, Value>
  {
    ValuesFor(d.sections, "*")
  }

  /** A section headed `*` takes part in the global options. */
  lemma GlobalStar(d: Data, m: map<string, Value>)
    ensures GlobalOptions(Data(d.sections + [DataParse.Section("*", m)])) == GlobalOptions(d) + m
  {
    OrValues(d, DictOperand(m), "*");
  }

  /** A section with a literal header other than `*` takes no part in the
      global options. */
  lemma GlobalLiteral(d: Data, m: map<string, Value>, header: string)
    requires '*' !in header && '?' !in header
    ensures GlobalOptions(Data(d.sections + [DataParse.Section(header, m)])) == GlobalOptions(d)
  {
    var secs := d.sections + [DataParse.Section(header, m)];
    assert secs[..|secs| - 1] == d.sections;
    LiteralMatch("*", header);
    assert "*"[0] == '*';
    assert GlobalOptions(d) + map[] == GlobalOptions(d);
  }

  /** Every option declared in a namespace has a name no other option of
      that namespace has. */
  ghost predicate NamesUnique(allowed: map<string, seq<DataConsumers.Opt>>)
  {
    forall ns, i, j :: ns in allowed && 0 <= i < j < |allowed[ns]| ==> allowed[ns][i].name != allowed[ns][j].name
  }

  /** What `define_option(ns, opt)` leaves in `allowed_options`, and the
      error it raises: another option of the same name in the namespace is
      refused, the same option again changes nothing, and a new one is
      appended. */
  function Define(allowed: map<string, seq<DataConsumers.Opt>>, ns: string, opt: DataConsumers.Opt)
    : (map<string, seq<DataConsumers.Opt>>, Option<Error>)
  {
    if ns !in allowed then (allowed[ns := [opt]], None)
    else if exists eo: DataConsumers.Opt :: eo in allowed[ns] && eo.name == opt.name && eo != opt then
      (allowed, Some(ValueError("duplicate option name " + Repr(opt.name))))
    else if opt in allowed[ns] then (allowed, None)
    else (allowed[ns := allowed[ns] + [opt]], None)
  }

  /** Declaring keeps names unique in each namespace, refuses exactly a
      clash of names, and leaves the other namespaces alone. */
  lemma DefineKeepsNames(allowed: map<string, seq<DataConsumers.Opt>>, ns: string, opt: DataConsumers.Opt)
    requires NamesUnique(allowed)
    ensures var (after, err) := Define(allowed, ns, opt);
      && NamesUnique(after)
      && (err.Some? <==> ns in allowed && exists i :: 0 <= i < |allowed[ns]| && allowed[ns][i].name == opt.name && allowed[ns][i] != opt)
      && (err.None? ==> ns in after && opt in after[ns])
      && (forall n :: n != ns ==> (n in after <==> n in allowed) && (n in allowed ==> after[n] == allowed[n]))
  {
    var (after, err) := Define(allowed, ns, opt);
    if ns in allowed {
      var opts := allowed[ns];
      if err.Some? {
        var eo: DataConsumers.Opt :| eo in opts && eo.name == opt.name && eo != opt;
        var i :| 0 <= i < |opts| && opts[i] == eo;
      } else if opt !in opts {
        var opts' := opts + [opt];
        forall i, j | 0 <= i < j < |opts'| ensures opts'[i].name != opts'[j].name {
          if j == |opts| {
            assert opts'[i] == opts[i] && opts[i] in opts;
          }
        }
        assert forall i :: 0 <= i < |opts| && opts[i].name == opt.name ==> opts[i] == opt by {
          forall i | 0 <= i < |opts| && opts[i].name == opt.name ensures opts[i] == opt {
            assert opts[i] in opts;
          }
        }
      }
    }
  }

  /** Declaring the same option twice is the same as declaring it once. */
  lemma DefineIdempotent(allowed: map<string, seq<DataConsumers.Opt>>, ns: string, opt: DataConsumers.Opt)
    requires Define(allowed, ns, opt).1.None?
    ensures Define(Define(allowed, ns, opt).0, ns, opt) == (Define(allowed, ns, opt).0, None)
  {
    var after := Define(allowed, ns, opt).0;
    assert opt in after[ns] by {
      if ns in allowed && opt !in allowed[ns] {
        assert after[ns][|allowed[ns]|] == opt;
      } else if ns !in allowed {
        assert after[ns][0] == opt;
      }
    }
  }

  /** The registry of allowed options, one list per namespace, updated in
      place by `define_option`. */
  class OptionRegistry {
    var allowed: map<string, seq<DataConsumers.Opt>>

    constructor ()
      ensures allowed == map[]
    {
      allowed := map[];
    }

    /** `define_option(ns, opt)`: the `any(...)` scan is the loop. */
    method DefineOption(ns: string, opt: DataConsumers.Opt) returns (err: Option<Error>)
      modifies this
      ensures (allowed, err) == Define(old(allowed), ns, opt)
    {
      if ns !in allowed {
        allowed := allowed[ns := [opt]];
        return None;
      }
      var opts := allowed[ns];
      for i := 0 to |opts|
        invariant forall k :: 0 <= k < i ==> !(opts[k].name == opt.name && opts[k] != opt)
      {
        if opts[i].name == opt.name && opts[i] != opt {
          return Some(ValueError("duplicate option name " + Repr(opt.name)));
        }
      }
      if opt !in opts {
        allowed := allowed[ns := opts + [opt]];
      }
      return None;
    }
  }
}
