/** The parser of `Data.parse_from_string` (schemascii/data.py and
    schemascii/data_parse.py) as the source writes it: closures that update
    `index`, `line`, `col` and `lastsig` in place, and `while` loops that
    build the sections and their dicts. Each method is proved to do what
    the function of the same name in module DataParse describes. */
module DataParser {
  import opened Base
  import opened DataTokens
  import DataParse

  class Parser {
    const tokens: seq<string>
    const startline: int
    const acceptsFloat: string -> bool
    const variant: DataParse.Variant
    var index: nat
    var line: nat
    var col: nat
    var lastsig: DataParse.Pos

    /** The positions stay within the tokens. */
    ghost predicate Valid()
      reads this
    {
      index <= |tokens| && lastsig.index <= |tokens|
    }

    function Src(): DataParse.Src
    {
      DataParse.Src(tokens, startline)
    }

    /** `save()`. */
    function Save(): DataParse.Pos
      reads this
    {
      DataParse.Pos(index, line, col)
    }

    function State(): DataParse.PState
      reads this
    {
      DataParse.PState(Save(), lastsig)
    }

    /** The tokens of the text; everything starts at zero. */
    constructor (text: string, startline: int, acceptsFloat: string -> bool, variant: DataParse.Variant)
      ensures Valid() && tokens == Tokenize(text) && this.startline == startline
      ensures this.acceptsFloat == acceptsFloat && this.variant == variant
      ensures State() == DataParse.Start
    {
      tokens := Tokenize(text);
      this.startline := startline;
      this.acceptsFloat := acceptsFloat;
      this.variant := variant;
      index, line, col := 0, 0, 0;
      lastsig := DataParse.Pos(0, 0, 0);
    }

    /** `restore(dat)`. */
    method Restore(dat: DataParse.Pos)
      requires dat.index <= |tokens|
      modifies this
      ensures Save() == dat && lastsig == old(lastsig)
    {
      index, line, col := dat.index, dat.line, dat.col;
    }

    /** `mark_used()`. */
    method MarkUsed()
      modifies this
      ensures State() == DataParse.MarkUsed(old(State()))
    {
      lastsig := Save();
    }

    /** `look()`. */
    method Look() returns (tok: string)
      ensures tok == DataParse.Look(tokens, Save())
    {
      if index >= |tokens| {
        return "\0";
      }
      return tokens[index];
    }

    /** `skip_space(newlines)`: whether anything was skipped. */
    method SkipSpace(newlines: bool) returns (moved: bool)
      requires Valid()
      modifies this
      ensures Valid() && lastsig == old(lastsig)
      ensures Save() == DataParse.SkipSpace(tokens, old(Save()), newlines)
      ensures moved <==> index != old(index)
    {
      moved := false;
      while true
        invariant Valid() && lastsig == old(lastsig) && old(index) <= index
        invariant DataParse.SkipSpace(tokens, Save(), newlines) == DataParse.SkipSpace(tokens, old(Save()), newlines)
        invariant moved <==> index != old(index)
        decreases |tokens| - index
      {
        var l := Look();
        if !(Text.IsSpaceString(l) && (newlines || l != "\n")) {
          return;
        }
        Advance();
        moved := true;
      }
    }

    /** `complain_eof()`: back to the last significant token, past all
        whitespace, and the complaint. */
    method ComplainEof() returns (e: Error)
      requires Valid()
      modifies this
      ensures Valid()
      ensures e == DataParse.EofError(Src(), old(lastsig))
    {
      Restore(lastsig);
      var _ := SkipSpace(true);
      if index >= |tokens| {
        return DataParse.Complain(Src(), Save(), "unexpected EOF");
      }
      return DataParse.Complain(Src(), Save(), "cannot parse after this");
    }

    /** `eat()`. */
    method Eat() returns (r: Result<string>)
      requires Valid()
      modifies this
      ensures Valid()
      ensures DataParse.Outcome(r, State()) == DataParse.Eat(Src(), old(State()))
    {
      if index >= |tokens| {
        var e := ComplainEof();
        return Err(e);
      }
      var token := tokens[index];
      Advance();
      return Ok(token);
    }

    /** The part of `eat()` after the end-of-input check: past the current
        token, on a new line after a newline token. */
    method Advance()
      requires index < |tokens|
      modifies this
      ensures Save() == DataParse.Step(tokens, old(Save())) && lastsig == old(lastsig)
    {
      var token := tokens[index];
      index := index + 1;
      if token == "\n" {
        line := line + 1;
        col := 0;
      } else {
        col := col + |token|;
      }
    }

    /** `skip_comment()`. */
    method SkipComment() returns (err: Option<Error>)
      requires Valid()
      modifies this
      ensures Valid()
      ensures DataParse.Done(err, State()) == DataParse.SkipComment(Src(), old(State()))
    {
      var l := Look();
      if l != "%%" {
        return None;
      }
      while l != "\n"
        invariant Valid() && lastsig == old(lastsig) && l == DataParse.Look(tokens, Save())
        invariant DataParse.CommentRest(Src(), State()) == DataParse.CommentRest(Src(), old(State()))
        decreases |tokens| - index
      {
        var r := Eat();
        if r.Err? {
          return Some(r.error);
        }
        l := Look();
      }
      return None;
    }

    /** `skip_i(newlines)`. */
    method SkipI(newlines: bool) returns (err: Option<Error>)
      requires Valid()
      modifies this
      ensures Valid()
      ensures DataParse.Done(err, State()) == DataParse.SkipI(Src(), old(State()), newlines)
    {
      while true
        invariant Valid() && lastsig == old(lastsig)
        invariant DataParse.SkipI(Src(), State(), newlines) == DataParse.SkipI(Src(), old(State()), newlines)
        decreases |tokens| - index
      {
        var l := Look();
        if newlines && l == "\n" {
          var _ := Eat();
          var _ := SkipSpace(false);
        } else if l == "%%" {
          err := SkipComment();
          if err.Some? {
            return;
          }
        } else {
          var moved := SkipSpace(false);
          if !moved {
            return None;
          }
        }
      }
    }

    /** `expect(expected)`, with the message it builds. */
    method Expect(expected: set<string>, msg: string) returns (err: Option<Error>)
      requires Valid()
      modifies this
      ensures Valid()
      ensures DataParse.Done(err, State()) == DataParse.Expect(Src(), old(State()), expected, msg)
    {
      var got := Look();
      if got in expected {
        var r := Eat();
        if r.Err? {
          return Some(r.error);
        }
        MarkUsed();
        return None;
      }
      return Some(DataParse.Complain(Src(), Save(), msg));
    }

    /** `expect_not(SPECIAL)`. */
    method ExpectNot() returns (err: Option<Error>)
      ensures err == DataParse.ExpectNot(Src(), State())
    {
      var got := Look();
      if DataParse.IsSpecial(got) {
        return Some(DataParse.Complain(Src(), Save(), "unexpected " + DataParse.TokenRepr(got)));
      }
      return None;
    }

    /** The value loop of `parse_kv_pair`. */
    method ParseValue() returns (r: Result<string>)
      requires Valid()
      modifies this
      ensures Valid()
      ensures DataParse.Outcome(r, State()) == DataParse.ValueRest(Src(), old(State()), "", variant)
    {
      var value := "";
      while true
        invariant Valid()
        invariant DataParse.ValueRest(Src(), State(), value, variant) == DataParse.ValueRest(Src(), old(State()), "", variant)
        decreases |tokens| - index
      {
        var tok := Eat();
        if tok.Err? {
          return Err(tok.error);
        }
        value := value + tok.value;
        MarkUsed();
        var here := Save();
        var err := SkipI(false);
        if err.Some? {
          return Err(err.value);
        }
        var ahead := Look();
        if variant == DataParse.Intended && DataParse.IsSpecial(ahead) {
          // The repair: the blanks and comments looked past stay skipped.
          return Ok(value);
        }
        Restore(here);
        if DataParse.IsSpecial(ahead) {
          return Ok(value);
        }
      }
    }

    /** `parse_kv_pair()`: None for the `{}` it returns at a `}`. */
    method ParseKvPair() returns (r: Result<Option<(string, Value)>>)
      requires Valid()
      modifies this
      ensures Valid()
      ensures DataParse.Outcome(r, State()) == DataParse.ParseKvPair(Src(), old(State()), acceptsFloat, variant)
    {
      ghost var st0 := State();
      var err := SkipI(true);
      if err.Some? {
        return Err(err.value);
      }
      var l := Look();
      if l == "}" {
        return Ok(None);
      }
      err := ExpectNot();
      if err.Some? {
        return Err(err.value);
      }
      var key := Eat();
      if key.Err? {
        return Err(key.error);
      }
      MarkUsed();
      err := SkipI(true);
      if err.Some? {
        return Err(err.value);
      }
      err := Expect({"="}, DataParse.ExpectEquals);
      if err.Some? {
        return Err(err.value);
      }
      var _ := SkipSpace(false);
      assert DataParse.KeyPart(Src(), st0) == Ok(Some((key.value, State())));
      var value := ParseValuePart();
      if value.Err? {
        return Err(value.error);
      }
      return Ok(Some((key.value, value.value)));
    }

    /** The rest of `parse_kv_pair`, from the value on. */
    method ParseValuePart() returns (r: Result<Value>)
      requires Valid()
      modifies this
      ensures Valid()
      ensures DataParse.Outcome(r, State()) == DataParse.ValuePart(Src(), old(State()), acceptsFloat, variant)
    {
      var err := ExpectNot();
      if err.Some? {
        return Err(err.value);
      }
      var raw := ParseValue();
      if raw.Err? {
        return Err(raw.error);
      }
      var value := DataParse.Convert(raw.value, acceptsFloat);
      if value.Err? {
        return Err(value.error);
      }
      var l := Look();
      if l != "}" {
        // A pair ends at a newline or `;`; the `}` is left for the section.
        err := Expect({"\n", ";"}, DataParse.ExpectLineEnd);
        if err.Some? {
          return Err(err.value);
        }
      }
      return Ok(value.value);
    }

    /** `parse_section()`: the pairs go into `data` one at a time. */
    method ParseSection() returns (r: Result<DataParse.Section>)
      requires Valid()
      modifies this
      ensures Valid()
      ensures DataParse.Outcome(r, State()) == DataParse.ParseSection(Src(), old(State()), acceptsFloat, variant)
    {
      var err := ExpectNot();
      if err.Some? {
        return Err(err.value);
      }
      var name := Eat();
      if name.Err? {
        return Err(name.error);
      }
      MarkUsed();
      err := SkipI(true);
      if err.Some? {
        return Err(err.value);
      }
      err := Expect({"{"}, DataParse.ExpectOpen);
      if err.Some? {
        return Err(err.value);
      }
      var data := ParsePairs();
      if data.Err? {
        return Err(data.error);
      }
      var _ := Eat();
      err := SkipI(true);
      if err.Some? {
        return Err(err.value);
      }
      return Ok(DataParse.Section(name.value, data.value));
    }

    /** One turn of the loop of `parse_section`: a pair is parsed, and the
        pairs still to come are those of the text after it. */
    method PairsTurn(ghost pairs: seq<(string, Value)>) returns (kv: Result<Option<(string, Value)>>)
      requires Valid() && DataParse.Look(tokens, Save()) != "}"
      modifies this
      ensures Valid()
      ensures kv.Err? ==> DataParse.Pairs(Src(), old(State()), pairs, acceptsFloat, variant) == Err(kv.error)
      ensures kv.Ok? ==>
        DataParse.Pairs(Src(), old(State()), pairs, acceptsFloat, variant)
          == DataParse.Pairs(Src(), State(), if kv.value.Some? then pairs + [kv.value.value] else pairs, acceptsFloat, variant)
      ensures kv.Ok? && kv.value.Some? ==> old(index) < index
      ensures kv.Ok? && kv.value.None? ==> DataParse.Look(tokens, Save()) == "}"
    {
      DataParse.PairsStep(Src(), State(), pairs, acceptsFloat, variant);
      kv := ParseKvPair();
    }

    /** The loop of `parse_section`: pairs are merged into `data` until a
        `}` comes. */
    method ParsePairs() returns (r: Result<map<string, Value>>)
      requires Valid()
      modifies this
      ensures Valid()
      ensures var spec := DataParse.Pairs(Src(), old(State()), [], acceptsFloat, variant);
        && (spec.Err? ==> r == Err(spec.error))
        && (spec.Ok? ==> r == Ok(DataParse.MapOf(spec.value.0)) && State() == spec.value.1)
    {
      ghost var st3 := State();
      ghost var pairs: seq<(string, Value)> := [];
      var data: map<string, Value> := map[];
      while DataParse.Look(tokens, Save()) != "}"
        invariant Valid() && data == DataParse.MapOf(pairs)
        invariant DataParse.Pairs(Src(), State(), pairs, acceptsFloat, variant)
          == DataParse.Pairs(Src(), st3, [], acceptsFloat, variant)
        decreases |tokens| - index
      {
        var kv := PairsTurn(pairs);
        if kv.Err? {
          return Err(kv.error);
        }
        if kv.value.Some? {
          var (key, value) := kv.value.value;
          DataParse.MapOfSnoc(pairs, (key, value));
          data := data[key := value];
          pairs := pairs + [(key, value)];
        }
      }
      DataParse.PairsStep(Src(), State(), pairs, acceptsFloat, variant);
      return Ok(data);
    }
  }

  /** `Data.parse_from_string(text, startline)`: the sections, in the
      order they appear, or the first syntax error. */
  method ParseFromString(text: string, startline: int, acceptsFloat: string -> bool, variant: DataParse.Variant)
    returns (r: Result<seq<DataParse.Section>>)
    ensures r == DataParse.ParseFromString(text, startline, acceptsFloat, variant)
  {
    var p := new Parser(text, startline, acceptsFloat, variant);
    var err := p.SkipI(true);
    if err.Some? {
      return Err(err.value);
    }
    ghost var st := p.State();
    var sections: seq<DataParse.Section> := [];
    while p.index < |p.tokens|
      invariant p.Valid() && p.tokens == Tokenize(text) && p.startline == startline
      invariant p.acceptsFloat == acceptsFloat && p.variant == variant
      invariant DataParse.SectionsFrom(p.Src(), p.State(), sections, acceptsFloat, variant)
        == DataParse.SectionsFrom(p.Src(), st, [], acceptsFloat, variant)
      decreases |p.tokens| - p.index
    {
      var sec := p.ParseSection();
      if sec.Err? {
        return Err(sec.error);
      }
      sections := sections + [sec.value];
    }
    return Ok(sections);
  }
}
