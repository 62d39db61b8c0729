/** Failure-carrying wrappers and the exceptions schemascii raises.

    Python exceptions become `Err(e)` values; the `Error` datatype names the
    exception class and keeps the facts its message is built from. */
module Base {

  datatype Option<+T> = None | Some(value: T)

  /** The exception classes raised by the modelled code: schemascii's own
      (errors.py) and the Python built-ins that escape from it. */
  datatype Error =
    | DiagramSyntaxError(detail: string, line: int, col: int, caret: nat)
    | TerminalsError(detail: string)
    | BOMError(detail: string)
    | UnsupportedComponentError(detail: string)
    | NoDataError(detail: string)
    | DataTypeError(detail: string)
    | ValueError(detail: string)
    | SyntaxError(detail: string)
    | TypeError(detail: string)
    | IndexError(detail: string)
    | NameError(detail: string)
    | RuntimeError(detail: string)
    | AttributeError(detail: string)
    | NotImplementedError
    | UnicodeDecodeError(detail: string)
    | KeyError(detail: string)
    | ArgumentError(detail: string)

  datatype Result<+T> = Ok(value: T) | Err(error: Error)

  /** A value read from the data section or an inline option: an int, a
      string, or a number int() rejects, kept as its text; and the booleans
      some option defaults are. */
  datatype Value = VInt(i: int) | VStr(s: string) | VFloat(text: string) | VBool(b: bool)

  /** No element occurs twice. */
  predicate Distinct<T(==)>(xs: seq<T>)
  {
    forall i, j :: 0 <= i < j < |xs| ==> xs[i] != xs[j]
  }

  /** A non-empty sequence is its front followed by its last element. */
  lemma LastSplit<T>(s: seq<T>)
    requires |s| > 0
    ensures s == s[..|s| - 1] + [s[|s| - 1]]
  {
  }

  /** Appending the next element of w to a prefix of w, after a, extends the prefix. */
  lemma PrefixSnoc<T>(a: seq<T>, w: seq<T>, k: nat)
    requires k < |w|
    ensures (a + w[..k]) + [w[k]] == a + w[..k + 1]
  {
    assert w[..k + 1] == w[..k] + [w[k]];
  }

  /** The elements of a sequence, as a set. */
  function Elements<T>(xs: seq<T>): set<T>
  {
    set x | x in xs
  }

  /** The elements of all the sequences of xss. */
  ghost function Union<T>(xss: seq<seq<T>>): set<T>
  {
    if |xss| == 0 then {} else Union(xss[..|xss| - 1]) + Elements(xss[|xss| - 1])
  }

  lemma UnionSnoc<T>(xss: seq<seq<T>>, xs: seq<T>)
    ensures Union(xss + [xs]) == Union(xss) + Elements(xs)
  {
    assert (xss + [xs])[..|xss|] == xss;
  }
}
