/** The XML tag builder (schemascii/svg.py `xmltag` and the identical
    `XML.<tag>` of schemascii/svg_utils.py) and the wrappers built on it. */
module Svg {
  import opened Text

  /** An attribute value other than a float: `False` (the attribute is left
      out), `True`, a string or an int. A float is passed already formatted,
      as the text `fix_number` would give. */
  datatype AttrValue = AFalse | ATrue | AStr(s: string) | AInt(i: int)

  /** `f"{v}"`. */
  function ValueText(v: AttrValue): string
    requires v != AFalse
  {
    match v
    case ATrue => "True"
    case AStr(s) => s
    case AInt(i) => IntToString(i)
  }

  /** `k.removesuffix("_").replace("__", "-")`: one trailing `_` goes (so a
      Python keyword can be used, as in `class_`), then each `__` is a `-`. */
  function AttrName(k: string): string
  {
    Replace(RemoveSuffix(k, "_"), "__", "-")
  }

  /** The text one keyword argument adds: nothing for `False`, else
      ` name="value"`. */
  function AttrText(k: string, v: AttrValue): string
  {
    if v == AFalse then "" else " " + AttrName(k) + "=\"" + ValueText(v) + "\""
  }

  /** The attributes in argument order. */
  function Attrs(attrs: seq<(string, AttrValue)>): string
  {
    if |attrs| == 0 then ""
    else Attrs(attrs[..|attrs| - 1]) + AttrText(attrs[|attrs| - 1].0, attrs[|attrs| - 1].1)
  }

  /** `"".join(contents)`. */
  function Concat(contents: seq<string>): string
  {
    if |contents| == 0 then "" else Concat(contents[..|contents| - 1]) + contents[|contents| - 1]
  }

  /** The tag the builder produces: `<tag`, the attributes, `>`, the
      contents, `</tag>`. */
  function XmlTag(tag: string, contents: seq<string>, attrs: seq<(string, AttrValue)>): string
  {
    "<" + tag + Attrs(attrs) + ">" + Concat(contents) + "</" + tag + ">"
  }

  /** `xmltag(tag, *contents, **attrs)`: the attribute loop appends to `out`
      one attribute at a time. */
  method BuildTag(tag: string, contents: seq<string>, attrs: seq<(string, AttrValue)>) returns (out: string)
    ensures out == XmlTag(tag, contents, attrs)
  {
    out := "<" + tag;
    for k := 0 to |attrs|
      invariant out == "<" + tag + Attrs(attrs[..k])
    {
      var (name, v) := attrs[k];
      ghost var before := Attrs(attrs[..k]);
      AttrsSnoc(attrs, k);
      if v != AFalse {
        var piece := " " + AttrName(name) + "=\"" + ValueText(v) + "\"";
        assert piece == AttrText(name, v);
        AppendAssoc("<" + tag, before, piece);
        out := out + piece;
      } else {
        assert AttrText(name, v) == "";
        assert before + "" == before;
      }
    }
    assert attrs[..|attrs|] == attrs;
    out := out + ">" + Concat(contents);
    out := out + "</" + tag + ">";
  }

  lemma AppendAssoc(a: string, b: string, c: string)
    ensures (a + b) + c == a + (b + c)
  {
  }

  /** One more argument adds its attribute text at the end. */
  lemma AttrsSnoc(attrs: seq<(string, AttrValue)>, k: int)
    requires 0 <= k < |attrs|
    ensures Attrs(attrs[..k + 1]) == Attrs(attrs[..k]) + AttrText(attrs[k].0, attrs[k].1)
  {
    assert attrs[..k + 1][..k] == attrs[..k];
  }

  /** The attributes with every `False` one removed. */
  function DropFalse(attrs: seq<(string, AttrValue)>): (r: seq<(string, AttrValue)>)
    ensures forall i :: 0 <= i < |r| ==> r[i].1 != AFalse
    ensures |r| <= |attrs|
  {
    if |attrs| == 0 then []
    else
      var front := DropFalse(attrs[..|attrs| - 1]);
      if attrs[|attrs| - 1].1 == AFalse then front else front + [attrs[|attrs| - 1]]
  }

  /** An attribute passed as `False` leaves no trace: the tag is the one
      built without it. */
  lemma {:induction false} FalseOmitted(attrs: seq<(string, AttrValue)>)
    ensures Attrs(attrs) == Attrs(DropFalse(attrs))
  {
    if |attrs| > 0 {
      var front := attrs[..|attrs| - 1];
      var last := attrs[|attrs| - 1];
      FalseOmitted(front);
      if last.1 == AFalse {
        assert Attrs(attrs) == Attrs(front) + "";
      } else {
        var r := DropFalse(front) + [last];
        assert r[..|r| - 1] == DropFalse(front) && r[|r| - 1] == last;
      }
    }
  }

  /** The attributes of two runs of arguments are the first run's, then the
      second's: argument order is kept. */
  lemma {:induction false} AttrsAppend(a: seq<(string, AttrValue)>, b: seq<(string, AttrValue)>)
    ensures Attrs(a + b) == Attrs(a) + Attrs(b)
    decreases |b|
  {
    if |b| == 0 {
      assert a + b == a;
      assert Attrs(a) + "" == Attrs(a);
    } else {
      var front, last := b[..|b| - 1], b[|b| - 1];
      assert (a + b)[..|a + b| - 1] == a + front && (a + b)[|a + b| - 1] == last;
      AttrsAppend(a, front);
      AppendAssoc(Attrs(a), Attrs(front), AttrText(last.0, last.1));
    }
  }

  /** Arguments whose names mangle alike give the same attributes. */
  lemma {:induction false} SameNames(a: seq<(string, AttrValue)>, b: seq<(string, AttrValue)>)
    requires |a| == |b|
    requires forall i :: 0 <= i < |a| ==> AttrName(a[i].0) == AttrName(b[i].0) && a[i].1 == b[i].1
    ensures Attrs(a) == Attrs(b)
    decreases |a|
  {
    if |a| > 0 {
      SameNames(a[..|a| - 1], b[..|b| - 1]);
    }
  }

  /** A name without `_` is used as it is. */
  lemma PlainName(k: string)
    requires '_' !in k
    ensures RemoveSuffix(k, "_") == k && Replace(k, "__", "-") == k && AttrName(k) == k
  {
    forall i: nat ensures !OccursAt(k, "__", i) {
      if i + 2 <= |k| {
        assert k[i..i + 2][0] == k[i];
      }
    }
    ReplaceAbsent(k, "__", "-");
  }

  /** The first `__` after a run without `_` becomes `-`. */
  lemma {:induction false} ReplaceAfterPlain(a: string, b: string)
    requires '_' !in a
    ensures Replace(a + "__" + b, "__", "-") == a + "-" + Replace(b, "__", "-")
  {
    var s := a + "__" + b;
    if |a| == 0 {
      assert s[..2] == "__" && s[2..] == b;
    } else {
      assert s[..2] != "__" by {
        assert s[0] == a[0];
      }
      assert s[1..] == a[1..] + "__" + b;
      ReplaceAfterPlain(a[1..], b);
      assert [a[0]] + (a[1..] + "-" + Replace(b, "__", "-")) == a + "-" + Replace(b, "__", "-");
    }
  }

  /** The names the wrappers use: `class_` is written `class` and
      `stroke__width` is written `stroke-width`. */
  lemma NameExamples()
    ensures AttrName("class_") == AttrName("class") == "class"
    ensures AttrName("stroke__width") == AttrName("stroke-width") == "stroke-width"
  {
    ClassName();
    StrokeWidthName();
  }

  lemma ClassName()
    ensures AttrName("class_") == AttrName("class") == "class"
  {
    assert RemoveSuffix("class_", "_") == "class";
    PlainName("class");
  }

  lemma StrokeWidthName()
    ensures AttrName("stroke__width") == AttrName("stroke-width") == "stroke-width"
  {
    PlainName("stroke-width");
    StrokeWidthReplace();
    assert RemoveSuffix("stroke__width", "_") == "stroke__width";
  }

  lemma StrokeWidthReplace()
    ensures Replace("stroke__width", "__", "-") == "stroke-width"
  {
    MangleAt("stroke__width", 6);
  }

  /** A name with one `__`, at i, has it replaced by `-`. */
  lemma MangleAt(s: string, i: nat)
    requires i + 2 < |s| && s[i..i + 2] == "__"
    requires forall k :: 0 <= k < |s| && k != i && k != i + 1 ==> s[k] != '_'
    ensures Replace(s, "__", "-") == s[..i] + "-" + s[i + 2..]
  {
    var a, b := s[..i], s[i + 2..];
    PlainName(b);
    assert s == a + "__" + b;
    ReplaceAfterPlain(a, b);
  }

  /** `group(*items, class_=...)`: a `g` tag around the items, with a
      `class` attribute unless it is False. */
  function Group(items: seq<string>, cls: AttrValue): (r: string)
    ensures cls == AFalse ==> r == XmlTag("g", items, [])
    ensures cls != AFalse ==> r == XmlTag("g", items, [("class", cls)])
  {
    NameExamples();
    assert [("class_", cls)][..0] == [] && [("class", cls)][..0] == [];
    XmlTag("g", items, [("class_", cls)])
  }

  /** `path(data, fill, linewidth, stroke, class_)`: the attributes that are
      not False, in this order, with the width written `stroke-width`. */
  function Path(data: string, fill: AttrValue, linewidth: AttrValue, stroke: AttrValue, cls: AttrValue): (r: string)
    ensures r == XmlTag("path", [], DropFalse([("d", AStr(data)), ("fill", fill), ("stroke-width", linewidth), ("stroke", stroke), ("class", cls)]))
  {
    var given := [("d", AStr(data)), ("fill", fill), ("stroke__width", linewidth), ("stroke", stroke), ("class_", cls)];
    var meant := [("d", AStr(data)), ("fill", fill), ("stroke-width", linewidth), ("stroke", stroke), ("class", cls)];
    forall i | 0 <= i < |given| ensures AttrName(given[i].0) == AttrName(meant[i].0) && given[i].1 == meant[i].1 {
      if i == 2 {
        StrokeWidthName();
      } else if i == 4 {
        ClassName();
      }
    }
    SameNames(given, meant);
    FalseOmitted(meant);
    XmlTag("path", [], given)
  }

  /** `circle(center, radius, stroke, fill, class_)`: the coordinates and
      radius come as the text `fix_number` makes of them. */
  function Circle(cx: string, cy: string, r: string, stroke: AttrValue, fill: AttrValue, cls: AttrValue): (t: string)
    ensures t == XmlTag("circle", [], DropFalse([("cx", AStr(cx)), ("cy", AStr(cy)), ("r", AStr(r)), ("stroke", stroke), ("fill", fill), ("class", cls)]))
  {
    var given := [("cx", AStr(cx)), ("cy", AStr(cy)), ("r", AStr(r)), ("stroke", stroke), ("fill", fill), ("class_", cls)];
    var meant := [("cx", AStr(cx)), ("cy", AStr(cy)), ("r", AStr(r)), ("stroke", stroke), ("fill", fill), ("class", cls)];
    forall i | 0 <= i < |given| ensures AttrName(given[i].0) == AttrName(meant[i].0) && given[i].1 == meant[i].1 {
      if i == 5 {
        ClassName();
      }
    }
    SameNames(given, meant);
    FalseOmitted(meant);
    XmlTag("circle", [], given)
  }
}
