/** The tokenizer of the data section (`TOKEN_PAT.findall` in
    schemascii/data.py and schemascii/data_parse.py): at each position the
    alternatives are tried in order, and a position where none matches is
    passed over. */
module DataTokens {
  import opened Base
  import opened Text
  import opened Scanner
  import Metric

  /** The one-character tokens `[\n{};=]`. */
  predicate IsSpecialChar(c: char) { c == '\n' || c == '{' || c == '}' || c == ';' || c == '=' }

  /** Characters the catch-all alternative stops at: `"`, whitespace and
      `{};=`. */
  predicate IsPlainChar(c: char) { c != '"' && !IsSpace(c) && c != '{' && c != '}' && c != ';' && c != '=' }

  /** `(?:[Ee][+-]?\d+)?` after a mantissa ending at m: the end of the
      exponent when there is one, else m. */
  function ExponentEnd(s: string, m: nat): (e: nat)
    requires m <= |s|
    ensures m <= e <= |s|
  {
    if m < |s| && (s[m] == 'e' || s[m] == 'E') then
      var k := if m + 1 < |s| && (s[m + 1] == '+' || s[m + 1] == '-') then m + 2 else m + 1;
      var d := Metric.DigitsEnd(s, k);
      if d > k then d else m
    else m
  }

  /** The number alternative `(?:\d*\.)?\d+(?:[Ee][+-]?\d+)?`. */
  function NumberToken(s: string, i: nat): (r: Option<nat>)
    requires i <= |s|
    ensures r.Some? ==> i < r.value <= |s|
  {
    match Metric.NumberEnd(s, i)
    case None => None
    case Some(m) => Some(ExponentEnd(s, m))
  }

  /** The quoted-string alternative `"(?:\\"|[^"])+"` from column k on, the
      opening quote being at i. Each step takes `\"` when it can, else one
      character other than `"`; at a bare `"` the string closes. When the
      text ends first, the engine backtracks to the last `\"` taken and lets
      its quote close the string; with none, there is no match. */
  function StringRest(s: string, i: nat, k: nat, lastEscape: Option<nat>): (r: Option<nat>)
    requires i < k <= |s|
    requires lastEscape.Some? ==> i < lastEscape.value && lastEscape.value + 2 <= k
    ensures r.Some? ==> i + 2 < r.value <= |s|
    decreases |s| - k
  {
    if k == |s| then
      if lastEscape.Some? then Some(lastEscape.value + 2) else None
    else if k + 1 < |s| && s[k] == '\\' && s[k + 1] == '"' then StringRest(s, i, k + 2, Some(k))
    else if s[k] != '"' then StringRest(s, i, k + 1, lastEscape)
    else if k == i + 1 then None
    else Some(k + 1)
  }

  /** The match at column i, if any, of the whole token pattern. */
  function TokenAt(s: string, i: nat): (r: Option<nat>)
    ensures r.Some? ==> i < r.value <= |s|
  {
    if i >= |s| then None
    else if IsSpecialChar(s[i]) then Some(i + 1)
    else if i + 1 < |s| && s[i] == '%' && s[i + 1] == '%' then Some(i + 2)
    else match NumberToken(s, i)
      case Some(e) => Some(e)
      case None =>
        if s[i] == '"' then StringRest(s, i, i + 1, None)
        else if IsSpace(s[i]) then Some(RunEnd(s, i, IsSpace))
        else Some(RunEnd(s, i, IsPlainChar))
  }

  lemma TokenAtAdvances(s: string)
    ensures Advances(TokenAt, s)
  {
  }

  /** The spans of the tokens of s. */
  function TokenSpans(s: string): (r: seq<Span>)
  {
    TokenAtAdvances(s);
    FindIter(s, 0, TokenAt)
  }

  /** `tokenize(stuff)`: the matched texts, left to right. */
  function Tokenize(s: string): (tokens: seq<string>)
    ensures |tokens| == |TokenSpans(s)|
  {
    var spans := TokenSpans(s);
    TokenAtAdvances(s);
    FindIterShape(s, 0, TokenAt);
    seq(|spans|, k requires 0 <= k < |spans| => s[spans[k].start..spans[k].end])
  }

  /** Every token is a match of the pattern where it was found: no token is
      empty; `{`, `}`, `;`, `=` and a newline that starts a token are tokens
      of their own; and any other token that is not a quoted string holds
      no `{`, `}`, `;` or `=`. */
  lemma TokenShape(s: string, k: nat)
    requires k < |Tokenize(s)|
    ensures var tok := Tokenize(s)[k];
      && |tok| > 0
      && (IsSpecialChar(tok[0]) ==> |tok| == 1)
      && (tok[0] != '"' && !IsSpecialChar(tok[0]) ==> forall j :: 0 <= j < |tok| && tok[j] != '\n' ==> !IsSpecialChar(tok[j]))
  {
    TokenAtAdvances(s);
    FindIterShape(s, 0, TokenAt);
    var sp := TokenSpans(s)[k];
    var tok := Tokenize(s)[k];
    assert TokenAt(s, sp.start) == Some(sp.end);
    assert tok == s[sp.start..sp.end];
    TokenAtShape(s, sp.start);
    assert forall j :: 0 <= j < |tok| ==> tok[j] == s[sp.start + j];
  }

  /** The same facts about the match at column i. */
  lemma TokenAtShape(s: string, i: nat)
    requires TokenAt(s, i).Some?
    ensures var e := TokenAt(s, i).value;
      && (IsSpecialChar(s[i]) ==> e == i + 1)
      && (s[i] != '"' && !IsSpecialChar(s[i]) ==> forall j :: i <= j < e && s[j] != '\n' ==> !IsSpecialChar(s[j]))
  {
    var e := TokenAt(s, i).value;
    if IsSpecialChar(s[i]) || s[i] == '"' {
    } else if i + 1 < |s| && s[i] == '%' && s[i + 1] == '%' {
      assert e == i + 2;
    } else {
      match NumberToken(s, i)
      case Some(n) =>
        assert e == n;
        NumberTokenChars(s, i);
        forall j | i <= j < e ensures !IsSpecialChar(s[j]) {
          assert IsDigit(s[j]) || s[j] in ".eE+-";
        }
      case None =>
        if IsSpace(s[i]) {
          assert forall j :: i <= j < e ==> IsSpace(s[j]);
        } else {
          assert forall j :: i <= j < e ==> IsPlainChar(s[j]);
        }
    }
  }

  /** A number token is made of digits, `.`, `e`, `E`, `+` and `-`. */
  lemma NumberTokenChars(s: string, i: nat)
    requires i <= |s| && NumberToken(s, i).Some?
    ensures forall j :: i <= j < NumberToken(s, i).value ==> IsDigit(s[j]) || s[j] in ".eE+-"
  {
  }
}
