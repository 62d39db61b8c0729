/** The recursive-descent parser of the data section
    (`Data.parse_from_string` in schemascii/data.py and
    schemascii/data_parse.py) as functions of the token list and the parser
    state. The nested helpers of the source become one function each; the
    imperative parser of module DataParser is proved against them.

    The parser state is the triple `(index, line, col)` that `save` and
    `restore` handle, plus `lastsig`, the state saved by `mark_used` after
    the last significant token, from which the end-of-input complaint
    starts. */
module DataParse {
  import opened Base
  import opened Text
  import opened DataTokens

  datatype Pos = Pos(index: nat, line: nat, col: nat)

  datatype PState = PState(pos: Pos, lastsig: Pos)

  /** What the parser reads, and the line number of its first line, which
      messages add to the line count. */
  datatype Src = Src(tokens: seq<string>, startline: int)

  /** The code as written, and with the repair described under Findings:
      after a value, parsing goes on after the blanks and comments the
      look-ahead skipped. */
  datatype Variant = AsWritten | Intended

  /** A section: its header and its key/value pairs. */
  datatype Section = Section(header: string, data: map<string, Value>)

  /** A result and the state it leaves, as the spec functions return them. */
  function Outcome<T>(r: Result<T>, st: PState): Result<(T, PState)>
  {
    match r
    case Ok(v) => Ok((v, st))
    case Err(e) => Err(e)
  }

  /** The same for a step that returns nothing or raises. */
  function Done(err: Option<Error>, st: PState): Result<PState>
  {
    match err
    case None => Ok(st)
    case Some(e) => Err(e)
  }

  /** `SPECIAL`. */
  predicate IsSpecial(tok: string)
  {
    tok == ";" || tok == "\n" || tok == "%%" || tok == "{" || tok == "}"
  }

  /** `look()`: the current token, or `"\0"` at the end. */
  function Look(t: seq<string>, p: Pos): (tok: string)
  {
    if p.index >= |t| then "\0" else t[p.index]
  }

  /** The position after the current token: a newline token starts a new
      line at column 0; any other token moves the column by its length. */
  function Step(t: seq<string>, p: Pos): (q: Pos)
    requires p.index < |t|
    ensures q.index == p.index + 1
  {
    if t[p.index] == "\n" then Pos(p.index + 1, p.line + 1, 0)
    else Pos(p.index + 1, p.line, p.col + |t[p.index]|)
  }

  /** `skip_space(newlines)`: past whitespace tokens, and past a lone
      newline token only when `newlines` is set. */
  function SkipSpace(t: seq<string>, p: Pos, newlines: bool): (q: Pos)
    ensures p.index <= q.index
    ensures !(IsSpaceString(Look(t, q)) && (newlines || Look(t, q) != "\n"))
    decreases |t| - p.index
  {
    if p.index < |t| && IsSpaceString(t[p.index]) && (newlines || t[p.index] != "\n") then
      SkipSpace(t, Step(t, p), newlines)
    else
      assert !IsSpaceString("\0") by {
        assert "\0"[0] == '\0';
      }
      p
  }

  /** `complain(msg)` at position p: the message, the line counted from
      `startline`, the column of the caret and the number of carets (the
      length of the current token). */
  function Complain(src: Src, p: Pos, msg: string): Error
  {
    DiagramSyntaxError(msg, p.line + src.startline, p.col, |Look(src.tokens, p)|)
  }

  /** `complain_eof()`: back to the last significant token, past all
      whitespace, then "unexpected EOF" when nothing follows and "cannot
      parse after this" otherwise. */
  function EofError(src: Src, lastsig: Pos): (e: Error)
    ensures e.DiagramSyntaxError?
  {
    var p := SkipSpace(src.tokens, lastsig, true);
    if p.index >= |src.tokens| then Complain(src, p, "unexpected EOF")
    else Complain(src, p, "cannot parse after this")
  }

  /** `eat()`: the current token and the state after it; at the end, the
      end-of-input complaint. */
  function Eat(src: Src, st: PState): (r: Result<(string, PState)>)
    ensures r.Err? <==> st.pos.index >= |src.tokens|
    ensures r.Ok? ==> r.value.0 == src.tokens[st.pos.index]
    ensures r.Ok? ==> r.value.1 == PState(Step(src.tokens, st.pos), st.lastsig)
  {
    if st.pos.index >= |src.tokens| then Err(EofError(src, st.lastsig))
    else Ok((src.tokens[st.pos.index], PState(Step(src.tokens, st.pos), st.lastsig)))
  }

  /** `mark_used()`. */
  function MarkUsed(st: PState): PState
  {
    PState(st.pos, st.pos)
  }

  /** The loop of `skip_comment`: tokens are eaten up to a newline token. */
  function CommentRest(src: Src, st: PState): (r: Result<PState>)
    ensures r.Ok? ==> r.value.lastsig == st.lastsig && st.pos.index <= r.value.pos.index
    ensures r.Ok? ==> Look(src.tokens, r.value.pos) == "\n"
    ensures r.Err? ==> r.error.DiagramSyntaxError?
    decreases |src.tokens| - st.pos.index
  {
    if Look(src.tokens, st.pos) == "\n" then Ok(st)
    else if st.pos.index >= |src.tokens| then Err(EofError(src, st.lastsig))
    else CommentRest(src, PState(Step(src.tokens, st.pos), st.lastsig))
  }

  /** `skip_comment()`: from `%%` to the next newline token. */
  function SkipComment(src: Src, st: PState): (r: Result<PState>)
    ensures r.Ok? ==> r.value.lastsig == st.lastsig && st.pos.index <= r.value.pos.index
    ensures r.Ok? && Look(src.tokens, st.pos) == "%%" ==> st.pos.index < r.value.pos.index
    ensures r.Err? ==> r.error.DiagramSyntaxError?
  {
    if Look(src.tokens, st.pos) == "%%" then CommentRest(src, st) else Ok(st)
  }

  /** `skip_i(newlines)`: past whitespace and comments, and past newline
      tokens when `newlines` is set. It stops where none of these is
      next. */
  function SkipI(src: Src, st: PState, newlines: bool): (r: Result<PState>)
    ensures r.Ok? ==> r.value.lastsig == st.lastsig && st.pos.index <= r.value.pos.index
    ensures r.Ok? ==> var l := Look(src.tokens, r.value.pos);
      l != "%%" && !(newlines && l == "\n") && !(IsSpaceString(l) && l != "\n")
    ensures r.Err? ==> r.error.DiagramSyntaxError?
    decreases |src.tokens| - st.pos.index
  {
    var t := src.tokens;
    if newlines && Look(t, st.pos) == "\n" then
      SkipI(src, PState(SkipSpace(t, Step(t, st.pos), false), st.lastsig), newlines)
    else if Look(t, st.pos) == "%%" then
      match SkipComment(src, st)
      case Err(e) => Err(e)
      case Ok(st2) => SkipI(src, st2, newlines)
    else
      var q := SkipSpace(t, st.pos, false);
      if q.index == st.pos.index then Ok(st) else SkipI(src, PState(q, st.lastsig), newlines)
  }

  /** `expect(expected)`: the current token must be one of `expected`; it
      is eaten and marked used. Otherwise the complaint `msg`. */
  function Expect(src: Src, st: PState, expected: set<string>, msg: string): (r: Result<PState>)
    ensures r.Ok? ==> Look(src.tokens, st.pos) in expected && st.pos.index < |src.tokens|
    ensures r.Ok? ==> r.value == MarkUsed(PState(Step(src.tokens, st.pos), st.lastsig))
    ensures Look(src.tokens, st.pos) !in expected ==> r == Err(Complain(src, st.pos, msg))
  {
    if Look(src.tokens, st.pos) in expected then
      match Eat(src, st)
      case Err(e) => Err(e)
      case Ok((_, st1)) => Ok(MarkUsed(st1))
    else Err(Complain(src, st.pos, msg))
  }

  /** `repr` of a special token. */
  function TokenRepr(tok: string): string
  {
    if tok == "\n" then "'\\n'" else "'" + tok + "'"
  }

  /** `expect_not(SPECIAL)`: the complaint when the current token is
      special. */
  function ExpectNot(src: Src, st: PState): (r: Option<Error>)
    ensures r.None? <==> !IsSpecial(Look(src.tokens, st.pos))
  {
    var got := Look(src.tokens, st.pos);
    if IsSpecial(got) then Some(Complain(src, st.pos, "unexpected " + TokenRepr(got))) else None
  }

  /** The messages of the three `expect` calls. The source builds the
      last one from a set, whose iteration order Python does not fix. */
  const ExpectOpen := "expected '{'"
  const ExpectEquals := "expected '='"
  const ExpectLineEnd := "expected '\\n' or ';'"

  /** The value loop of `parse_kv_pair`: a token is added to the value and
      marked used; then a look past blanks and comments (not newlines)
      decides whether the value ends there. The look is undone (`restore`)
      as written; the repair keeps it when the value ends. */
  function ValueRest(src: Src, st: PState, acc: string, v: Variant): (r: Result<(string, PState)>)
    ensures r.Ok? ==> st.pos.index < r.value.1.pos.index
    ensures r.Err? ==> r.error.DiagramSyntaxError?
    decreases |src.tokens| - st.pos.index
  {
    match Eat(src, st)
    case Err(e) => Err(e)
    case Ok((tok, st1)) =>
      var st2 := MarkUsed(st1);
      match SkipI(src, st2, false)
      case Err(e) => Err(e)
      case Ok(st3) =>
        if IsSpecial(Look(src.tokens, st3.pos)) then
          Ok((acc + tok, if v == AsWritten then st2 else st3))
        else ValueRest(src, st2, acc + tok, v)
  }

  /** The character a backslash escape stands for, for the escapes of
      Python's `unicode-escape` codec that name one character. */
  function EscapeChar(c: char): Option<char>
  {
    match c
    case '\\' => Some('\\')
    case '\'' => Some('\'')
    case '"' => Some('"')
    case 'n' => Some('\n')
    case 't' => Some('\t')
    case 'r' => Some('\r')
    case 'a' => Some('\U{7}')
    case 'b' => Some('\U{8}')
    case 'f' => Some('\U{C}')
    case 'v' => Some('\U{B}')
    case _ => None
  }

  /** The `unicode-escape` decoder on its bytes, each byte given as the
      character with that code: a known escape is replaced by its
      character, a backslash before a line break is dropped with it, an
      unknown escape is kept with its backslash, and a backslash at the
      very end is an error. */
  function Unescape(s: string): (r: Result<string>)
    ensures r.Err? ==> r.error == UnicodeDecodeError("\\ at end of string")
    ensures '\\' !in s ==> r == Ok(s)
    ensures r.Ok? ==> |r.value| <= |s|
    decreases |s|
  {
    if |s| == 0 then Ok("")
    else if s[0] != '\\' then
      match Unescape(s[1..])
      case Err(e) => Err(e)
      case Ok(rest) =>
        assert s == [s[0]] + s[1..];
        Ok([s[0]] + rest)
    else if |s| == 1 then Err(UnicodeDecodeError("\\ at end of string"))
    else
      match Unescape(s[2..])
      case Err(e) => Err(e)
      case Ok(rest) =>
        if s[1] == '\n' then Ok(rest)
        else match EscapeChar(s[1])
          case Some(c) => Ok([c] + rest)
          case None => Ok(s[..2] + rest)
  }

  /** A byte, as the Latin-1 character with its code. */
  function Byte(k: int): (c: char)
    requires 0 <= k < 0x100
    ensures c as int == k
  {
    k as char
  }

  /** The UTF-8 encoding of `c`, one Latin-1 character per byte. */
  function Utf8(c: char): (r: string)
    ensures 1 <= |r| <= 4
    ensures forall i :: 0 <= i < |r| ==> r[i] as int < 0x100
    ensures c as int < 0x80 <==> r == [c]
    ensures c as int >= 0x80 ==> forall i :: 0 <= i < |r| ==> r[i] as int >= 0x80
  {
    var n := c as int;
    if n < 0x80 then [c]
    else if n < 0x800 then [Byte(0xC0 + n / 0x40), Byte(0x80 + n % 0x40)]
    else if n < 0x10000 then [Byte(0xE0 + n / 0x1000), Byte(0x80 + n / 0x40 % 0x40), Byte(0x80 + n % 0x40)]
    else [Byte(0xF0 + n / 0x40000), Byte(0x80 + n / 0x1000 % 0x40), Byte(0x80 + n / 0x40 % 0x40), Byte(0x80 + n % 0x40)]
  }

  /** The code point a UTF-8 sequence of one to four bytes stands for: the
      payload bits of the lead byte, then six bits per continuation byte. */
  function Utf8Decode(r: string): int
    requires 1 <= |r| <= 4
  {
    var lead := r[0] as int;
    if |r| == 1 then lead
    else if |r| == 2 then (lead - 0xC0) * 0x40 + (r[1] as int - 0x80)
    else if |r| == 3 then ((lead - 0xE0) * 0x40 + (r[1] as int - 0x80)) * 0x40 + (r[2] as int - 0x80)
    else (((lead - 0xF0) * 0x40 + (r[1] as int - 0x80)) * 0x40 + (r[2] as int - 0x80)) * 0x40 + (r[3] as int - 0x80)
  }

  /** The encoding is UTF-8: the lead byte tells the length, every other
      byte is a continuation byte, and decoding gives the character back. */
  lemma Utf8RoundTrip(c: char)
    ensures var r := Utf8(c);
            && Utf8Decode(r) == c as int
            && (|r| == 1 <==> r[0] as int < 0x80)
            && (|r| == 2 <==> 0xC0 <= r[0] as int < 0xE0)
            && (|r| == 3 <==> 0xE0 <= r[0] as int < 0xF0)
            && (|r| == 4 <==> 0xF0 <= r[0] as int < 0xF8)
            && forall i :: 1 <= i < |r| ==> 0x80 <= r[i] as int < 0xC0
  {
    var n := c as int;
    var r := Utf8(c);
    if 0x80 <= n < 0x800 {
      assert r[0] as int == 0xC0 + n / 0x40 && r[1] as int == 0x80 + n % 0x40;
    } else if 0x800 <= n < 0x10000 {
      Utf8Three(n);
    } else if 0x10000 <= n {
      Utf8Four(n);
    }
  }

  lemma Utf8Three(n: int)
    requires 0x800 <= n < 0x10000
    ensures ((n / 0x1000) * 0x40 + n / 0x40 % 0x40) * 0x40 + n % 0x40 == n
  {
    assert n / 0x1000 * 0x40 + n / 0x40 % 0x40 == n / 0x40;
  }

  lemma Utf8Four(n: int)
    requires 0x10000 <= n < 0x110000
    ensures (((n / 0x40000) * 0x40 + n / 0x1000 % 0x40) * 0x40 + n / 0x40 % 0x40) * 0x40 + n % 0x40 == n
    ensures n / 0x40000 < 8
  {
    assert n / 0x40000 * 0x40 + n / 0x1000 % 0x40 == n / 0x1000;
    assert n / 0x1000 * 0x40 + n / 0x40 % 0x40 == n / 0x40;
  }

  /** `bytes(value, "utf-8")`, one Latin-1 character per byte. */
  function EncodeUtf8(s: string): (r: string)
    ensures forall i :: 0 <= i < |r| ==> r[i] as int < 0x100
    decreases |s|
  {
    if |s| == 0 then "" else Utf8(s[0]) + EncodeUtf8(s[1..])
  }

  predicate IsAscii(s: string)
  {
    forall i :: 0 <= i < |s| ==> s[i] as int < 0x80
  }

  /** ASCII text is its own encoding. */
  lemma {:induction false} EncodeAscii(s: string)
    requires IsAscii(s)
    ensures EncodeUtf8(s) == s
    decreases |s|
  {
    if |s| > 0 {
      EncodeAscii(s[1..]);
      assert s == [s[0]] + s[1..];
    }
  }

  /** `bytes(value, "utf-8").decode("unicode-escape")`: the escapes are
      decoded over the UTF-8 bytes, and each byte that is not part of an
      escape becomes the Latin-1 character of that code. */
  function UnicodeEscapeDecode(s: string): (r: Result<string>)
    ensures r.Err? ==> r.error == UnicodeDecodeError("\\ at end of string")
  {
    Unescape(EncodeUtf8(s))
  }

  /** ASCII text without a backslash decodes to itself. */
  lemma DecodePlainAscii(s: string)
    requires IsAscii(s) && '\\' !in s
    ensures UnicodeEscapeDecode(s) == Ok(s)
  {
    EncodeAscii(s);
  }

  /** Non-ASCII text comes back re-read as Latin-1: `é` becomes `Ã©`. */
  lemma DecodeAccent()
    ensures UnicodeEscapeDecode("\U{E9}") == Ok("\U{C3}\U{A9}")
  {
    EncodeOneHigh('\U{E9}', "\U{C3}\U{A9}");
    assert Unescape("\U{C3}\U{A9}") == Ok("\U{C3}\U{A9}");
  }

  /** `10kΩ` becomes `10kÎ©`. */
  lemma DecodeOhm()
    ensures UnicodeEscapeDecode("10k\U{3A9}") == Ok("10k\U{CE}\U{A9}")
  {
    OhmBytes();
    assert '\\' !in "10k\U{CE}\U{A9}";
  }

  lemma OhmBytes()
    ensures EncodeUtf8("10k\U{3A9}") == "10k\U{CE}\U{A9}"
  {
    EncodeOneHigh('\U{3A9}', "\U{CE}\U{A9}");
    EncodeAscii("10k");
    EncodeAppend("10k", "\U{3A9}");
    assert "10k" + "\U{3A9}" == "10k\U{3A9}";
    assert "10k" + "\U{CE}\U{A9}" == "10k\U{CE}\U{A9}";
  }

  /** A single character of a two-byte encoding. */
  lemma EncodeOneHigh(c: char, bytes: string)
    requires 0x80 <= c as int < 0x800 && |bytes| == 2
    requires bytes[0] as int == 0xC0 + c as int / 0x40 && bytes[1] as int == 0x80 + c as int % 0x40
    ensures EncodeUtf8([c]) == bytes
  {
    assert EncodeUtf8([c]) == Utf8(c) + EncodeUtf8([]);
  }

  /** The encoding of a concatenation is the concatenation of the encodings. */
  lemma {:induction false} EncodeAppend(a: string, b: string)
    ensures EncodeUtf8(a + b) == EncodeUtf8(a) + EncodeUtf8(b)
    decreases |a|
  {
    if |a| > 0 {
      EncodeAppend(a[1..], b);
      assert (a + b)[0] == a[0] && (a + b)[1..] == a[1..] + b;
      assert EncodeUtf8(a + b) == Utf8(a[0]) + EncodeUtf8(a[1..] + b);
    } else {
      assert a + b == b;
    }
  }

  /** A backslash before a line break is dropped together with it. */
  lemma LineContinuation()
    ensures UnicodeEscapeDecode("a\\\nb") == Ok("ab")
  {
    var s := "a\\\nb";
    EncodeAscii(s);
    assert s[1..] == "\\\nb" && s[1..][2..] == "b";
    assert Unescape("b") == Ok("b");
    assert Unescape(s[1..]) == Ok("b");
    assert [s[0]] + "b" == "ab";
    assert Unescape(s) == Ok("ab");
  }

  /** How a writer of the data section would escape one character:
      backslash, quote and the usual control characters get a backslash
      escape. */
  function EscapeOne(c: char): (e: string)
    ensures |e| >= 1
  {
    if c == '\\' then "\\\\" else if c == '"' then "\\\"" else if c == '\n' then "\\n"
    else if c == '\t' then "\\t" else if c == '\r' then "\\r" else [c]
  }

  function Escape(s: string): (r: string)
    decreases |s|
  {
    if |s| == 0 then "" else EscapeOne(s[0]) + Escape(s[1..])
  }

  /** Decoding one escaped character in front of decodable text. */
  lemma UnescapeOne(c: char, rest: string, s: string)
    requires Unescape(rest) == Ok(s)
    ensures Unescape(EscapeOne(c) + rest) == Ok([c] + s)
  {
    var e := EscapeOne(c) + rest;
    if |EscapeOne(c)| == 2 {
      assert e[0] == '\\' && e[2..] == rest;
      assert EscapeChar(e[1]) == Some(c);
    } else {
      assert e[0] == c && e[1..] == rest;
    }
  }

  /** Round trip: decoding the escaped text gives the text back. */
  lemma {:induction false} UnescapeEscape(s: string)
    ensures Unescape(Escape(s)) == Ok(s)
    decreases |s|
  {
    if |s| > 0 {
      UnescapeEscape(s[1..]);
      UnescapeOne(s[0], Escape(s[1..]), s[1..]);
      assert s == [s[0]] + s[1..];
    }
  }

  /** Escaping a concatenation escapes each part. */
  lemma {:induction false} EscapeAppend(a: string, b: string)
    ensures Escape(a + b) == Escape(a) + Escape(b)
    decreases |a|
  {
    if |a| > 0 {
      EscapeAppend(a[1..], b);
      assert (a + b)[0] == a[0] && (a + b)[1..] == a[1..] + b;
      assert Escape(a + b) == EscapeOne(a[0]) + Escape(a[1..] + b);
    } else {
      assert a + b == b;
    }
  }

  /** Text whose characters are all at or above 0x80 needs no escape. */
  lemma {:induction false} EscapeHigh(t: string)
    requires forall i :: 0 <= i < |t| ==> t[i] as int >= 0x80
    ensures Escape(t) == t
    decreases |t|
  {
    if |t| > 0 {
      EscapeHigh(t[1..]);
      assert t == [t[0]] + t[1..];
    }
  }

  /** Escaping and UTF-8 encoding commute: the escaped characters are
      ASCII, and no byte of a longer encoding is one of them. */
  lemma {:induction false} EncodeEscape(s: string)
    ensures EncodeUtf8(Escape(s)) == Escape(EncodeUtf8(s))
    decreases |s|
  {
    if |s| > 0 {
      var c, rest := s[0], s[1..];
      EncodeEscape(rest);
      EncodeAppend(EscapeOne(c), Escape(rest));
      EscapeAppend(Utf8(c), EncodeUtf8(rest));
      EncodeEscapeOne(c);
    }
  }

  /** One character: its escape encodes to the escape of its encoding. */
  lemma EncodeEscapeOne(c: char)
    ensures EncodeUtf8(EscapeOne(c)) == Escape(Utf8(c))
  {
    if c as int < 0x80 {
      EncodeAscii(EscapeOne(c));
      assert Escape(Utf8(c)) == EscapeOne(c) + Escape("");
    } else {
      assert EncodeUtf8(EscapeOne(c)) == Utf8(c) + EncodeUtf8("");
      EscapeHigh(Utf8(c));
    }
  }

  /** What a raw value becomes: a text in double quotes loses them and is
      decoded; otherwise a text `float()` accepts becomes an int when
      `int()` accepts it too, and stays a float otherwise; any other text
      stays a string. `acceptsFloat` says which texts `float()` accepts. */
  function Convert(raw: string, acceptsFloat: string -> bool): (r: Result<Value>)
    ensures !(|raw| >= 1 && raw[0] == '"' && raw[|raw| - 1] == '"') && !acceptsFloat(raw) ==> r == Ok(VStr(raw))
    ensures r.Err? ==> r.error.UnicodeDecodeError?
  {
    if |raw| >= 1 && raw[0] == '"' && raw[|raw| - 1] == '"' then
      var inner := if |raw| >= 2 then raw[1..|raw| - 1] else "";
      match UnicodeEscapeDecode(inner)
      case Err(e) => Err(e)
      case Ok(s) => Ok(VStr(s))
    else if acceptsFloat(raw) then
      match ParseInt(raw)
      case Some(i) => Ok(VInt(i))
      case None => Ok(VFloat(raw))
    else Ok(VStr(raw))
  }

  /** A quoted value comes back as the UTF-8 encoding of the text that was
      escaped into it, read as Latin-1. */
  lemma QuotedValue(s: string, acceptsFloat: string -> bool)
    ensures Convert("\"" + Escape(s) + "\"", acceptsFloat) == Ok(VStr(EncodeUtf8(s)))
  {
    var raw := "\"" + Escape(s) + "\"";
    assert raw[1..|raw| - 1] == Escape(s);
    EncodeEscape(s);
    UnescapeEscape(EncodeUtf8(s));
  }

  /** An ASCII text comes back exactly. */
  lemma QuotedAscii(s: string, acceptsFloat: string -> bool)
    requires IsAscii(s)
    ensures Convert("\"" + Escape(s) + "\"", acceptsFloat) == Ok(VStr(s))
  {
    QuotedValue(s, acceptsFloat);
    EncodeAscii(s);
  }

  /** A decimal number is read back as the int it prints as. */
  lemma IntegerValue(n: nat, acceptsFloat: string -> bool)
    requires acceptsFloat(NatToString(n))
    ensures Convert(NatToString(n), acceptsFloat) == Ok(VInt(n))
  {
    ParseIntOfNatToString(n);
    var r := NatToString(n);
    assert IsDigit(r[0]);
  }

  /** The start of `parse_kv_pair` up to the value: blanks and comments,
      the key (not special), `=`, then blanks. None when a `}` comes first
      (the `;}` case). */
  function KeyPart(src: Src, st: PState): (r: Result<Option<(string, PState)>>)
    ensures r.Ok? && r.value.None? ==> SkipI(src, st, true).Ok?
    ensures r.Ok? && r.value.None? ==> Look(src.tokens, SkipI(src, st, true).value.pos) == "}"
    ensures r.Ok? && r.value.Some? ==> st.pos.index < r.value.value.1.pos.index
    ensures r.Ok? && r.value.Some? ==> !IsSpecial(r.value.value.0)
    ensures r.Err? ==> r.error.DiagramSyntaxError?
  {
    match SkipI(src, st, true)
    case Err(e) => Err(e)
    case Ok(st1) =>
      if Look(src.tokens, st1.pos) == "}" then Ok(None)
      else if ExpectNot(src, st1).Some? then Err(ExpectNot(src, st1).value)
      else
        match Eat(src, st1)
        case Err(e) => Err(e)
        case Ok((key, st2)) =>
          match SkipI(src, MarkUsed(st2), true)
          case Err(e) => Err(e)
          case Ok(st3) =>
            match Expect(src, st3, {"="}, ExpectEquals)
            case Err(e) => Err(e)
            case Ok(st4) => Ok(Some((key, PState(SkipSpace(src.tokens, st4.pos, false), st4.lastsig))))
  }

  /** The rest of `parse_kv_pair`: the value (not starting with a special
      token), converted; then a `}` may follow (it is left for the
      section), and otherwise a newline or `;` must, and is eaten. */
  function ValuePart(src: Src, st: PState, acceptsFloat: string -> bool, v: Variant): (r: Result<(Value, PState)>)
    ensures r.Ok? ==> st.pos.index < r.value.1.pos.index
    ensures r.Ok? ==> var p := r.value.1.pos;
      Look(src.tokens, p) == "}" || (0 < p.index <= |src.tokens| && src.tokens[p.index - 1] in {"\n", ";"})
  {
    if ExpectNot(src, st).Some? then Err(ExpectNot(src, st).value)
    else
      match ValueRest(src, st, "", v)
      case Err(e) => Err(e)
      case Ok((raw, st6)) =>
        match Convert(raw, acceptsFloat)
        case Err(e) => Err(e)
        case Ok(value) =>
          if Look(src.tokens, st6.pos) == "}" then Ok((value, st6))
          else
            match Expect(src, st6, {"\n", ";"}, ExpectLineEnd)
            case Err(e) => Err(e)
            case Ok(st7) =>
              assert st7.pos.index == st6.pos.index + 1 && src.tokens[st6.pos.index] in {"\n", ";"};
              Ok((value, st7))
  }

  /** `parse_kv_pair()`: the key and its value, or None for a `}` reached
      after blanks. */
  function ParseKvPair(src: Src, st: PState, acceptsFloat: string -> bool, v: Variant): (r: Result<(Option<(string, Value)>, PState)>)
    ensures r.Ok? && r.value.0.None? ==> Look(src.tokens, r.value.1.pos) == "}" && st.pos.index <= r.value.1.pos.index
    ensures r.Ok? && r.value.0.Some? ==> st.pos.index < r.value.1.pos.index && !IsSpecial(r.value.0.value.0)
    ensures r.Ok? && r.value.0.Some? ==> var p := r.value.1.pos;
      Look(src.tokens, p) == "}" || (0 < p.index <= |src.tokens| && src.tokens[p.index - 1] in {"\n", ";"})
  {
    match KeyPart(src, st)
    case Err(e) => Err(e)
    case Ok(None) => Ok((None, SkipI(src, st, true).value))
    case Ok(Some((key, st5))) =>
      match ValuePart(src, st5, acceptsFloat, v)
      case Err(e) => Err(e)
      case Ok((value, st7)) => Ok((Some((key, value)), st7))
  }

  /** The pairs of a section body, up to its `}`, appended to `acc`. */
  function Pairs(src: Src, st: PState, acc: seq<(string, Value)>, acceptsFloat: string -> bool, v: Variant)
    : (r: Result<(seq<(string, Value)>, PState)>)
    ensures r.Ok? ==> Look(src.tokens, r.value.1.pos) == "}" && st.pos.index <= r.value.1.pos.index
    ensures r.Ok? ==> |acc| <= |r.value.0| && r.value.0[..|acc|] == acc
    decreases |src.tokens| - st.pos.index
  {
    if Look(src.tokens, st.pos) == "}" then Ok((acc, st))
    else
      match ParseKvPair(src, st, acceptsFloat, v)
      case Err(e) => Err(e)
      case Ok((kv, st1)) =>
        var acc' := if kv.Some? then acc + [kv.value] else acc;
        var r := Pairs(src, st1, acc', acceptsFloat, v);
        if r.Ok? then
          assert r.value.0[..|acc|] == r.value.0[..|acc'|][..|acc|];
          r
        else r
  }

  /** One turn of the pairs loop, and its end at a `}`. */
  lemma PairsStep(src: Src, st: PState, acc: seq<(string, Value)>, acceptsFloat: string -> bool, v: Variant)
    ensures Look(src.tokens, st.pos) == "}" ==> Pairs(src, st, acc, acceptsFloat, v) == Ok((acc, st))
    ensures Look(src.tokens, st.pos) != "}" ==>
      match ParseKvPair(src, st, acceptsFloat, v)
      case Err(e) => Pairs(src, st, acc, acceptsFloat, v) == Err(e)
      case Ok((kv, st1)) =>
        Pairs(src, st, acc, acceptsFloat, v) == Pairs(src, st1, if kv.Some? then acc + [kv.value] else acc, acceptsFloat, v)
  {
  }

  /** `data |= {key: value}` for each pair in turn. */
  function MapOf(pairs: seq<(string, Value)>): (m: map<string, Value>)
  {
    if |pairs| == 0 then map[]
    else MapOf(pairs[..|pairs| - 1])[pairs[|pairs| - 1].0 := pairs[|pairs| - 1].1]
  }

  /** One more pair updates the map with it. */
  lemma MapOfSnoc(pairs: seq<(string, Value)>, kv: (string, Value))
    ensures MapOf(pairs + [kv]) == MapOf(pairs)[kv.0 := kv.1]
  {
    assert (pairs + [kv])[..|pairs|] == pairs;
  }

  /** Some pair has key k. */
  predicate HasKey(pairs: seq<(string, Value)>, k: string)
  {
    exists i :: 0 <= i < |pairs| && pairs[i].0 == k
  }

  /** The keys of the section are exactly those of its pairs. */
  lemma {:induction false} MapOfKeys(pairs: seq<(string, Value)>, k: string)
    ensures k in MapOf(pairs) <==> HasKey(pairs, k)
    decreases |pairs|
  {
    if |pairs| > 0 {
      var n := |pairs|;
      var front := pairs[..n - 1];
      MapOfKeys(front, k);
      if pairs[n - 1].0 == k {
        assert k in MapOf(pairs);
        assert HasKey(pairs, k);
      } else {
        if HasKey(pairs, k) {
          var i :| 0 <= i < n && pairs[i].0 == k;
          assert front[i].0 == k;
        }
        if HasKey(front, k) {
          var i :| 0 <= i < n - 1 && front[i].0 == k;
          assert pairs[i].0 == k;
        }
      }
    }
  }

  /** A key of the section holds the value of its last pair. */
  lemma {:induction false} MapOfLastWins(pairs: seq<(string, Value)>, k: string, i: nat)
    requires i < |pairs| && pairs[i].0 == k
    requires forall j :: i < j < |pairs| ==> pairs[j].0 != k
    ensures k in MapOf(pairs) && MapOf(pairs)[k] == pairs[i].1
    decreases |pairs|
  {
    var n := |pairs|;
    if i < n - 1 {
      var front := pairs[..n - 1];
      assert front[i] == pairs[i];
      forall j | i < j < |front| ensures front[j].0 != k {
        assert front[j] == pairs[j];
      }
      MapOfLastWins(front, k, i);
      assert pairs[n - 1].0 != k;
    }
  }

  /** `parse_section()`: a header that is not special, blanks, `{`, the
      pairs, the `}`, and blanks after it. */
  function ParseSection(src: Src, st: PState, acceptsFloat: string -> bool, v: Variant): (r: Result<(Section, PState)>)
    ensures r.Ok? ==> st.pos.index < |src.tokens| && r.value.0.header == src.tokens[st.pos.index]
    ensures r.Ok? ==> !IsSpecial(r.value.0.header) && st.pos.index < r.value.1.pos.index
  {
    if ExpectNot(src, st).Some? then Err(ExpectNot(src, st).value)
    else
      match Eat(src, st)
      case Err(e) => Err(e)
      case Ok((name, st1)) =>
        match SkipI(src, MarkUsed(st1), true)
        case Err(e) => Err(e)
        case Ok(st2) =>
          match Expect(src, st2, {"{"}, ExpectOpen)
          case Err(e) => Err(e)
          case Ok(st3) =>
            match Pairs(src, st3, [], acceptsFloat, v)
            case Err(e) => Err(e)
            case Ok((pairs, st4)) =>
              match Eat(src, st4)
              case Err(e) => Err(e)
              case Ok((_, st5)) =>
                match SkipI(src, st5, true)
                case Err(e) => Err(e)
                case Ok(st6) => Ok((Section(name, MapOf(pairs)), st6))
  }

  /** The sections from the current position to the end, appended to
      `acc`. */
  function SectionsFrom(src: Src, st: PState, acc: seq<Section>, acceptsFloat: string -> bool, v: Variant)
    : (r: Result<seq<Section>>)
    ensures r.Ok? ==> |acc| <= |r.value| && r.value[..|acc|] == acc
    decreases |src.tokens| - st.pos.index
  {
    if st.pos.index >= |src.tokens| then Ok(acc)
    else
      match ParseSection(src, st, acceptsFloat, v)
      case Err(e) => Err(e)
      case Ok((sec, st1)) =>
        var acc' := acc + [sec];
        var r := SectionsFrom(src, st1, acc', acceptsFloat, v);
        if r.Ok? then
          assert r.value[..|acc|] == r.value[..|acc'|][..|acc|];
          r
        else r
  }

  /** The state the parser starts in. */
  const Start := PState(Pos(0, 0, 0), Pos(0, 0, 0))

  /** `Data.parse_from_string(text, startline)`: blanks first, then
      sections until the tokens run out. */
  function ParseTokens(src: Src, acceptsFloat: string -> bool, v: Variant): (r: Result<seq<Section>>)
  {
    match SkipI(src, Start, true)
    case Err(e) => Err(e)
    case Ok(st) => SectionsFrom(src, st, [], acceptsFloat, v)
  }

  function ParseFromString(text: string, startline: int, acceptsFloat: string -> bool, v: Variant): (r: Result<seq<Section>>)
  {
    ParseTokens(Src(Tokenize(text), startline), acceptsFloat, v)
  }

  /** One section parsed: the loop goes on after it. */
  lemma SectionsStep(src: Src, st: PState, acc: seq<Section>, acceptsFloat: string -> bool, v: Variant)
    requires st.pos.index < |src.tokens|
    ensures SectionsFrom(src, st, acc, acceptsFloat, v).Ok? ==> ParseSection(src, st, acceptsFloat, v).Ok?
    ensures ParseSection(src, st, acceptsFloat, v).Ok? ==> var (sec, st1) := ParseSection(src, st, acceptsFloat, v).value;
      SectionsFrom(src, st, acc, acceptsFloat, v) == SectionsFrom(src, st1, acc + [sec], acceptsFloat, v)
  {
  }

  /** Every section header is a token that is not special: the sections
      after `acc` come from `parse_section`, which refuses special ones. */
  lemma {:induction false} HeadersNotSpecial(src: Src, st: PState, acc: seq<Section>, acceptsFloat: string -> bool, v: Variant)
    requires SectionsFrom(src, st, acc, acceptsFloat, v).Ok?
    ensures var secs := SectionsFrom(src, st, acc, acceptsFloat, v).value;
      forall i :: |acc| <= i < |secs| ==> !IsSpecial(secs[i].header) && secs[i].header in src.tokens
    decreases |src.tokens| - st.pos.index
  {
    if st.pos.index < |src.tokens| {
      var r := ParseSection(src, st, acceptsFloat, v);
      var sec, st1 := r.value.0, r.value.1;
      SectionsStep(src, st, acc, acceptsFloat, v);
      HeadersNotSpecial(src, st1, acc + [sec], acceptsFloat, v);
      var secs := SectionsFrom(src, st1, acc + [sec], acceptsFloat, v).value;
      forall i | |acc| <= i < |secs| ensures !IsSpecial(secs[i].header) && secs[i].header in src.tokens {
        if i == |acc| {
          assert secs[i] == secs[..|acc| + 1][|acc|] == sec;
          assert sec.header == src.tokens[st.pos.index];
        }
      }
    } else {
      assert SectionsFrom(src, st, acc, acceptsFloat, v) == Ok(acc);
    }
  }

  /** The sections `Data.parse_from_string` returns are headed by tokens of
      the text that are not special. */
  lemma ParsedHeaders(text: string, startline: int, acceptsFloat: string -> bool, v: Variant)
    requires ParseFromString(text, startline, acceptsFloat, v).Ok?
    ensures var secs := ParseFromString(text, startline, acceptsFloat, v).value;
      forall i :: 0 <= i < |secs| ==> !IsSpecial(secs[i].header) && secs[i].header in Tokenize(text)
  {
    var src := Src(Tokenize(text), startline);
    HeadersNotSpecial(src, SkipI(src, Start, true).value, [], acceptsFloat, v);
  }

  lemma JoinCons(x: string, rest: seq<string>)
    ensures Join("", [x] + rest) == x + Join("", rest)
  {
    if |rest| == 0 {
      assert [x] + rest == [x];
    } else {
      assert ([x] + rest)[1..] == rest;
    }
  }

  lemma JoinSlice(t: seq<string>, i: nat, j: nat)
    requires i < j <= |t|
    ensures Join("", t[i..j]) == t[i] + Join("", t[i + 1..j])
  {
    assert t[i..j] == [t[i]] + t[i + 1..j];
    JoinCons(t[i], t[i + 1..j]);
  }

  /** One turn of the value loop. */
  lemma ValueRestStep(src: Src, st: PState, acc: string, v: Variant)
    requires ValueRest(src, st, acc, v).Ok?
    ensures st.pos.index < |src.tokens|
    ensures var st2 := MarkUsed(PState(Step(src.tokens, st.pos), st.lastsig));
      var tok := src.tokens[st.pos.index];
      && SkipI(src, st2, false).Ok?
      && (IsSpecial(Look(src.tokens, SkipI(src, st2, false).value.pos)) ==>
            ValueRest(src, st, acc, v) == Ok((acc + tok, if v == AsWritten then st2 else SkipI(src, st2, false).value)))
      && (!IsSpecial(Look(src.tokens, SkipI(src, st2, false).value.pos)) ==>
            ValueRest(src, st, acc, v) == ValueRest(src, st2, acc + tok, v))
  {
  }

  /** A value is every token from its first to the last one before the
      look-ahead finds a special token, blanks between them included, in
      order. */
  lemma {:induction false} ValueRestTokens(src: Src, st: PState, acc: string)
    requires ValueRest(src, st, acc, AsWritten).Ok?
    ensures var (raw, st') := ValueRest(src, st, acc, AsWritten).value;
      && st'.pos.index <= |src.tokens|
      && raw == acc + Join("", src.tokens[st.pos.index..st'.pos.index])
      && SkipI(src, st', false).Ok? && IsSpecial(Look(src.tokens, SkipI(src, st', false).value.pos))
    decreases |src.tokens| - st.pos.index
  {
    var t := src.tokens;
    ValueRestStep(src, st, acc, AsWritten);
    var tok := t[st.pos.index];
    var st2 := MarkUsed(PState(Step(t, st.pos), st.lastsig));
    var st3 := SkipI(src, st2, false).value;
    var (raw, st') := ValueRest(src, st, acc, AsWritten).value;
    if !IsSpecial(Look(t, st3.pos)) {
      ValueRestTokens(src, st2, acc + tok);
      JoinSlice(t, st.pos.index, st'.pos.index);
    } else {
      assert st' == st2;
      assert t[st.pos.index..st2.pos.index] == [tok];
    }
  }

  /** The look-ahead past one blank token that a `}` follows. */
  lemma BlankThenBrace(src: Src, p: Pos, lastsig: Pos)
    requires p.index + 1 < |src.tokens|
    requires IsSpaceString(src.tokens[p.index]) && src.tokens[p.index] != "\n" && src.tokens[p.index + 1] == "}"
    ensures SkipI(src, PState(p, lastsig), false) == Ok(PState(Step(src.tokens, p), lastsig))
  {
    var t := src.tokens;
    var q := Step(t, p);
    assert !IsSpaceString(t[q.index]) by {
      assert t[q.index][0] == '}';
    }
    assert t[p.index] != "%%" by {
      assert IsSpace(t[p.index][0]);
    }
    assert SkipSpace(t, q, false) == q;
    assert SkipI(src, PState(q, lastsig), false) == Ok(PState(q, lastsig));
    assert SkipSpace(t, p, false) == q;
  }

  /** The value of a pair when its one token is followed by a blank token
      and `}`: the value, and where each variant goes on from. */
  lemma ValueBeforeBlankBrace(src: Src, vs: PState, v: Variant)
    requires vs.pos.index + 2 < |src.tokens|
    requires IsSpaceString(src.tokens[vs.pos.index + 1]) && src.tokens[vs.pos.index + 1] != "\n"
    requires src.tokens[vs.pos.index + 2] == "}"
    ensures var p1 := Step(src.tokens, vs.pos);
      ValueRest(src, vs, "", v)
      == Ok((src.tokens[vs.pos.index], if v == AsWritten then PState(p1, p1) else PState(Step(src.tokens, p1), p1)))
  {
    var t := src.tokens;
    var p1 := Step(t, vs.pos);
    BlankThenBrace(src, p1, p1);
    assert "" + t[vs.pos.index] == t[vs.pos.index];
  }

  /** The value half once its raw text is read and converts: done at a
      `}`, refused at anything but a line end. */
  lemma ValuePartAfter(src: Src, st: PState, acceptsFloat: string -> bool, v: Variant, raw: string, st6: PState)
    requires ExpectNot(src, st).None?
    requires ValueRest(src, st, "", v) == Ok((raw, st6))
    requires Convert(raw, acceptsFloat).Ok?
    ensures Look(src.tokens, st6.pos) == "}" ==>
      ValuePart(src, st, acceptsFloat, v) == Ok((Convert(raw, acceptsFloat).value, st6))
    ensures Look(src.tokens, st6.pos) != "}" && Look(src.tokens, st6.pos) != "\n" && Look(src.tokens, st6.pos) != ";" ==>
      ValuePart(src, st, acceptsFloat, v) == Err(Complain(src, st6.pos, ExpectLineEnd))
  {
  }

  /** As written, the value half of a pair whose one value token is
      followed by a blank token and `}` checks the end of the pair where the
      value ended, at the blank, and refuses it. */
  lemma ValueBlankBraceAsWritten(src: Src, vs: PState, acceptsFloat: string -> bool)
    requires vs.pos.index + 2 < |src.tokens| && !IsSpecial(src.tokens[vs.pos.index])
    requires IsSpaceString(src.tokens[vs.pos.index + 1]) && src.tokens[vs.pos.index + 1] != "\n"
    requires src.tokens[vs.pos.index + 2] == "}"
    requires Convert(src.tokens[vs.pos.index], acceptsFloat).Ok?
    ensures ValuePart(src, vs, acceptsFloat, AsWritten) == Err(Complain(src, Step(src.tokens, vs.pos), ExpectLineEnd))
  {
    var t := src.tokens;
    var p1 := Step(t, vs.pos);
    ValueBeforeBlankBrace(src, vs, AsWritten);
    assert Look(t, p1) == t[vs.pos.index + 1];
    assert t[vs.pos.index + 1] != "}" && t[vs.pos.index + 1] != ";" by {
      assert t[vs.pos.index + 1][0] != '}' && t[vs.pos.index + 1][0] != ';';
    }
    ValuePartAfter(src, vs, acceptsFloat, AsWritten, t[vs.pos.index], PState(p1, p1));
  }

  /** Repaired, the same value half checks the end of the pair at the `}`
      and ends there. */
  lemma ValueBlankBraceIntended(src: Src, vs: PState, acceptsFloat: string -> bool)
    requires vs.pos.index + 2 < |src.tokens| && !IsSpecial(src.tokens[vs.pos.index])
    requires IsSpaceString(src.tokens[vs.pos.index + 1]) && src.tokens[vs.pos.index + 1] != "\n"
    requires src.tokens[vs.pos.index + 2] == "}"
    requires Convert(src.tokens[vs.pos.index], acceptsFloat).Ok?
    ensures var p1 := Step(src.tokens, vs.pos);
      ValuePart(src, vs, acceptsFloat, Intended)
      == Ok((Convert(src.tokens[vs.pos.index], acceptsFloat).value, PState(Step(src.tokens, p1), p1)))
  {
    var t := src.tokens;
    var p1 := Step(t, vs.pos);
    ValueBeforeBlankBrace(src, vs, Intended);
    assert Look(t, Step(t, p1)) == "}";
    ValuePartAfter(src, vs, acceptsFloat, Intended, t[vs.pos.index], PState(Step(t, p1), p1));
  }

  /** A pair whose key part succeeds is its key with the outcome of the
      value part. */
  lemma KvPairSplit(src: Src, st: PState, acceptsFloat: string -> bool, v: Variant, key: string, vs: PState)
    requires KeyPart(src, st) == Ok(Some((key, vs)))
    ensures var r := ParseKvPair(src, st, acceptsFloat, v);
      && (ValuePart(src, vs, acceptsFloat, v).Err? ==> r == Err(ValuePart(src, vs, acceptsFloat, v).error))
      && (ValuePart(src, vs, acceptsFloat, v).Ok? ==>
            r == Ok((Some((key, ValuePart(src, vs, acceptsFloat, v).value.0)), ValuePart(src, vs, acceptsFloat, v).value.1)))
  {
  }

  /** As written, a blank between a pair's value and the closing `}` is
      refused, so `a { x = 1 }` does not parse. */
  lemma BlankBeforeBraceAsWritten(src: Src, st: PState, acceptsFloat: string -> bool, key: string, vs: PState)
    requires KeyPart(src, st) == Ok(Some((key, vs)))
    requires vs.pos.index + 2 < |src.tokens| && !IsSpecial(src.tokens[vs.pos.index])
    requires IsSpaceString(src.tokens[vs.pos.index + 1]) && src.tokens[vs.pos.index + 1] != "\n"
    requires src.tokens[vs.pos.index + 2] == "}"
    requires Convert(src.tokens[vs.pos.index], acceptsFloat).Ok?
    ensures ParseKvPair(src, st, acceptsFloat, AsWritten) == Err(Complain(src, Step(src.tokens, vs.pos), ExpectLineEnd))
  {
    ValueBlankBraceAsWritten(src, vs, acceptsFloat);
    KvPairSplit(src, st, acceptsFloat, AsWritten, key, vs);
  }

  /** Repaired, the same pair parses and the parser stops at the `}` that
      closes the section. */
  lemma BlankBeforeBraceIntended(src: Src, st: PState, acceptsFloat: string -> bool, key: string, vs: PState)
    requires KeyPart(src, st) == Ok(Some((key, vs)))
    requires vs.pos.index + 2 < |src.tokens| && !IsSpecial(src.tokens[vs.pos.index])
    requires IsSpaceString(src.tokens[vs.pos.index + 1]) && src.tokens[vs.pos.index + 1] != "\n"
    requires src.tokens[vs.pos.index + 2] == "}"
    requires Convert(src.tokens[vs.pos.index], acceptsFloat).Ok?
    ensures var r := ParseKvPair(src, st, acceptsFloat, Intended);
      && r.Ok?
      && r.value.0 == Some((key, Convert(src.tokens[vs.pos.index], acceptsFloat).value))
      && Look(src.tokens, r.value.1.pos) == "}" && r.value.1.pos.index == vs.pos.index + 2
  {
    ValueBlankBraceIntended(src, vs, acceptsFloat);
    KvPairSplit(src, st, acceptsFloat, Intended, key, vs);
  }

  lemma OneIsInt(acceptsFloat: string -> bool)
    requires acceptsFloat("1")
    ensures Convert("1", acceptsFloat) == Ok(VInt(1))
  {
    assert NatToString(1) == "1";
    IntegerValue(1, acceptsFloat);
  }
}
