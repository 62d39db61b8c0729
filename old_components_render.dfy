/** The older renderer module, schemascii/OLD_components_render.py: the
    `component` registry, the checks its decorators put in front of a
    renderer, the parsing of the BOM text of jacks, transistors, grounds and
    switches, and `render_component`. The drawing itself (float geometry
    and SVG paths) is not part of this model. */
module OldComponentsRender {
  import opened Base
  import opened Text
  import opened Geometry
  import opened RenderRegistry
  import opened Svg

  /** A registered renderer: box, terminals and the BOM entries of the
      component, giving the SVG text. */
  type Draw = (Cbox, seq<Terminal>, seq<BOMData>) -> Result<string>

  /** A renderer behind `no_ambiguous`: it receives one BOM entry. */
  type DrawOne = (Cbox, seq<Terminal>, BOMData) -> Result<string>

  /** The error raised for a designator already taken. */
  function Taken(rdu: string): Error
  {
    RuntimeError(rdu + " reference designator already taken")
  }

  /** `component(*rd_s)(func)`: registers `func` under every upper-cased
      designator, raising RuntimeError at the first one already taken, and
      gives `func` back. */
  method Component(renderers: Table<Draw>, rds: seq<string>, func: Draw) returns (r: Result<Draw>)
    modifies renderers
    ensures r.Ok? ==> r.value == func
    ensures (renderers.entries, if r.Err? then Some(r.error) else None)
      == RegisterAll(old(renderers.entries), rds, func, Taken)
  {
    var err := renderers.Register(rds, func, Taken);
    if err.Some? {
      return Err(err.value);
    }
    return Ok(func);
  }

  /** The type and number of a component as its messages print them. */
  function Name(box: Cbox): string
  {
    box.typ + IntToString(box.id)
  }

  /** `n_terminal(n)(func)`: the renderer runs only when the component has
      exactly n terminals; otherwise TerminalsError. */
  function NTerminal(n: int, func: Draw, box: Cbox, terminals: seq<Terminal>, bom: seq<BOMData>): (r: Result<string>)
    ensures |terminals| != n ==> r == Err(TerminalsError(Name(box) + " component can only have " + IntToString(n) + " terminals"))
    ensures r.Ok? ==> |terminals| == n && r == func(box, terminals, bom)
  {
    if |terminals| != n then Err(TerminalsError(Name(box) + " component can only have " + IntToString(n) + " terminals"))
    else func(box, terminals, bom)
  }

  /** `repr` of a BOMData named tuple. */
  function BOMRepr(b: BOMData): string
  {
    "BOMData(type=" + Repr(b.typ) + ", id=" + IntToString(b.id) + ", data=" + Repr(b.data) + ")"
  }

  /** `repr` of a list of BOMData. */
  function BOMListRepr(bom: seq<BOMData>): string
  {
    "[" + Join(", ", seq(|bom|, i requires 0 <= i < |bom| => BOMRepr(bom[i]))) + "]"
  }

  /** The unwrapping `no_ambiguous` does: more than one entry is
      ambiguous, none stands for an entry with empty data for this box, and
      a single one is taken as it is. */
  function Unwrap(box: Cbox, bom: seq<BOMData>): (r: Result<BOMData>)
    ensures r.Err? <==> |bom| > 1
    ensures r.Err? ==> r.error == BOMError("Ambiguous BOM data for " + Name(box) + ": " + BOMListRepr(bom))
    ensures |bom| == 1 ==> r == Ok(bom[0])
    ensures |bom| == 0 ==> r == Ok(BOMData(box.typ, box.id, ""))
  {
    if |bom| > 1 then Err(BOMError("Ambiguous BOM data for " + Name(box) + ": " + BOMListRepr(bom)))
    else if |bom| == 0 then Ok(BOMData(box.typ, box.id, ""))
    else Ok(bom[0])
  }

  /** `no_ambiguous(func)`: the renderer gets the single BOM entry. */
  function NoAmbiguous(func: DrawOne, box: Cbox, terminals: seq<Terminal>, bom: seq<BOMData>): (r: Result<string>)
    ensures Unwrap(box, bom).Err? ==> r == Err(Unwrap(box, bom).error)
    ensures Unwrap(box, bom).Ok? ==> r == func(box, terminals, Unwrap(box, bom).value)
  {
    match Unwrap(box, bom)
    case Err(e) => Err(e)
    case Ok(b) => func(box, terminals, b)
  }

  /** The decorators apply outside in: with `n_terminal` above
      `no_ambiguous`, a wrong terminal count is reported whatever the BOM
      entries, and ambiguity only once the count is right. */
  lemma CountCheckedFirst(n: int, func: DrawOne, box: Cbox, terminals: seq<Terminal>, bom: seq<BOMData>)
    ensures var r := NTerminal(n, (b, t, d) => NoAmbiguous(func, b, t, d), box, terminals, bom);
      && (|terminals| != n ==> r.Err? && r.error.TerminalsError?)
      && (|terminals| == n && |bom| > 1 ==> r.Err? && r.error.BOMError?)
      && (|terminals| == n && |bom| <= 1 ==> r == func(box, terminals, Unwrap(box, bom).value))
  {
  }

  /** The terminal pair `polarized` leaves: the second goes first when it
      is flagged `+`. */
  function PlusFirst(ts: seq<Terminal>): (r: seq<Terminal>)
    requires |ts| == 2
    ensures |r| == 2 && multiset(r) == multiset(ts)
    ensures r[0].flag == Some('+') <==> ts[0].flag == Some('+') || ts[1].flag == Some('+')
    ensures ts[1].flag != Some('+') ==> r == ts
  {
    if ts[1].flag == Some('+') then
      assert ts == [ts[0], ts[1]];
      [ts[1], ts[0]]
    else ts
  }

  /** Applying the swap twice: with both terminals flagged `+` each
      application swaps them again, otherwise the second changes nothing. */
  lemma PlusFirstTwice(ts: seq<Terminal>)
    requires |ts| == 2
    ensures ts[0].flag == Some('+') && ts[1].flag == Some('+') ==> PlusFirst(PlusFirst(ts)) == ts
    ensures !(ts[0].flag == Some('+') && ts[1].flag == Some('+')) ==> PlusFirst(PlusFirst(ts)) == PlusFirst(ts)
  {
  }

  /** `polarized`'s check: TerminalsError unless there are two terminals,
      then the list is reordered in place so a `+` second terminal comes
      first. */
  method SortTerminals(box: Cbox, terminals: array<Terminal>) returns (err: Option<Error>)
    modifies terminals
    ensures terminals.Length != 2 ==> err == Some(TerminalsError(Name(box) + " component can only have 2 terminals"))
    ensures terminals.Length != 2 ==> terminals[..] == old(terminals[..])
    ensures terminals.Length == 2 ==> err == None && terminals[..] == PlusFirst(old(terminals[..]))
  {
    if terminals.Length != 2 {
      return Some(TerminalsError(Name(box) + " component can only have 2 terminals"));
    }
    if terminals[1].flag == Some('+') {
      terminals[0], terminals[1] := terminals[1], terminals[0];
    }
    return None;
  }

  predicate EndsWith(s: string, suffix: string)
  {
    |suffix| <= |s| && s[|s| - |suffix|..] == suffix
  }

  predicate StartsWith(s: string, prefix: string)
  {
    |prefix| <= |s| && s[..|prefix|] == prefix
  }

  /** `s.rstrip(chars)`: the longest prefix not ending in one of `chars`. */
  function RStripChars(s: string, chars: string): (r: string)
    ensures |r| <= |s| && r == s[..|r|]
    ensures |r| == 0 || r[|r| - 1] !in chars
    ensures forall k :: |r| <= k < |s| ==> s[k] in chars
  {
    if |s| == 0 || s[|s| - 1] !in chars then s else RStripChars(s[..|s| - 1], chars)
  }

  /** Characters in `chars` after a text whose last character is not one of
      them are exactly what `rstrip` removes. */
  lemma {:induction false} RStripAfter(a: string, b: string, chars: string)
    requires |a| > 0 && a[|a| - 1] !in chars
    requires forall k :: 0 <= k < |b| ==> b[k] in chars
    ensures RStripChars(a + b, chars) == a
    decreases |b|
  {
    if |b| == 0 {
      assert a + b == a;
    } else {
      assert (a + b)[..|a + b| - 1] == a + b[..|b| - 1];
      RStripAfter(a, b[..|b| - 1], chars);
    }
  }

  /** A jack's style and label: the style is `input` on the left and top
      sides and `output` on the others, unless the data ends in `,circle`,
      `,input` or `,output`; then the text after the last comma is the
      style, and the data loses its trailing letters of `cirlenputo` and one
      comma. */
  function JackStyle(side: Side, data: string): (r: (string, string))
    ensures !(EndsWith(data, ",circle") || EndsWith(data, ",input") || EndsWith(data, ",output")) ==>
      r == (if side == Left || side == Top then "input" else "output", data)
  {
    if EndsWith(data, ",circle") || EndsWith(data, ",input") || EndsWith(data, ",output") then
      var parts := Split(data, ',');
      (parts[|parts| - 1], RemoveSuffix(RStripChars(data, "cirlenputo"), ","))
    else (if side == Left || side == Top then "input" else "output", data)
  }

  /** Round trip: a label followed by `,` and a style gives that style and
      the label back, whatever the side and whatever the label holds. */
  lemma JackStyleSuffix(side: Side, caption: string, style: string)
    requires style == "circle" || style == "input" || style == "output"
    ensures JackStyle(side, caption + "," + style) == (style, caption)
  {
    var data := caption + "," + style;
    StyleSelected(caption, style);
    SplitLast(caption, style, ',');
    assert data == caption + [','] + style;
    JackStripped(caption, style);
  }

  /** The data ends in one of the three style suffixes. */
  lemma StyleSelected(caption: string, style: string)
    requires style == "circle" || style == "input" || style == "output"
    ensures var data := caption + "," + style;
      EndsWith(data, ",circle") || EndsWith(data, ",input") || EndsWith(data, ",output")
  {
    var data := caption + "," + style;
    var suffix := "," + style;
    assert data[|data| - |suffix|..] == suffix;
    if style == "circle" {
      assert suffix == ",circle";
    } else if style == "input" {
      assert suffix == ",input";
    } else {
      assert suffix == ",output";
    }
  }

  /** Stripping the style letters stops at the comma, which then goes. */
  lemma JackStripped(caption: string, style: string)
    requires style == "circle" || style == "input" || style == "output"
    ensures RemoveSuffix(RStripChars(caption + "," + style, "cirlenputo"), ",") == caption
  {
    forall k | 0 <= k < |style| ensures style[k] in "cirlenputo" {
    }
    assert ',' !in "cirlenputo";
    RStripAfter(caption + ",", style, "cirlenputo");
    assert caption + "," + style == (caption + ",") + style;
  }

  /** The transistor types a BOM text may start with, in any case. */
  predicate KnownTransistor(data: string)
  {
    var l := Lower(data);
    StartsWith(l, "pnp") || StartsWith(l, "npn") || StartsWith(l, "nfet") || StartsWith(l, "pfet")
  }

  /** What `transistor` reads from its BOM text: the type (lower-cased),
      the part number, and the flags naming the three terminals in the
      order the drawing takes them. */
  datatype TransistorBom = TransistorBom(silicon: string, partNumber: string, flags: seq<char>)

  /** The flags a type selects: source, drain and gate when the type
      contains `fet`, else emitter, collector and base. */
  function TransistorFlags(silicon: string): (f: seq<char>)
  {
    if Find(silicon, "fet", 0).Some? then ['s', 'd', 'g'] else ['e', 'c', 'b']
  }

  /** `transistor`'s BOM parsing: BOMError unless the text starts with a
      known type; the type is the text before the first `:` and the part
      number the rest after it. */
  function Transistor(box: Cbox, data: string): (r: Result<TransistorBom>)
    ensures r.Err? <==> !KnownTransistor(data)
    ensures r.Err? ==> r.error == BOMError("Need type of transistor for " + Name(box))
    ensures r.Ok? ==> r.value.flags == TransistorFlags(r.value.silicon)
    ensures r.Ok? ==> ':' !in r.value.silicon
  {
    if !KnownTransistor(data) then Err(BOMError("Need type of transistor for " + Name(box)))
    else
      var parts := Split(data, ':');
      var silicon := Lower(parts[0]);
      assert ':' !in parts[0];
      assert ':' !in silicon by {
        forall k | 0 <= k < |silicon| ensures silicon[k] != ':' {
          assert silicon[k] == LowerChar(parts[0][k]);
        }
      }
      Ok(TransistorBom(silicon, Join(":", parts[1..]), TransistorFlags(silicon)))
  }

  /** Lower-casing a text lower-cases each of its prefixes. */
  lemma LowerPrefix(t: string, part: string)
    ensures Lower(t + part)[..|t|] == Lower(t)
  {
  }

  /** Round trip: a known type, `:` and a part number give the type
      lower-cased and the part number back, even when the part number holds
      more colons. */
  lemma TransistorParts(box: Cbox, t: string, part: string)
    requires ':' !in t && KnownTransistor(t)
    ensures Transistor(box, t + ":" + part) == Ok(TransistorBom(Lower(t), part, TransistorFlags(Lower(t))))
  {
    var data := t + ":" + part;
    assert data == t + [':'] + part;
    LowerPrefix(t, ":" + part);
    assert Lower(data)[..|t|] == Lower(t);
    assert KnownTransistor(data);
    SplitAtFirst(t, part, ':');
    JoinSplit(part, ':');
    assert (([t] + Split(part, ':'))[1..]) == Split(part, ':');
  }

  /** `ground`'s symbol type: empty data means `earth`; other texts must
      name one of the four symbols. */
  function GroundType(data: string): (r: Result<string>)
    ensures data == "" ==> r == Ok("earth")
    ensures r.Ok? ==> r.value in ["earth", "chassis", "signal", "common"]
    ensures data != "" ==> (r.Ok? <==> data in ["earth", "chassis", "signal", "common"])
    ensures data != "" && r.Ok? ==> r.value == data
    ensures r.Err? ==> r.error == BOMError("Unknown ground symbol type: " + data)
  {
    var t := if data == "" then "earth" else data;
    if t in ["earth", "chassis", "signal", "common"] then Ok(t)
    else Err(BOMError("Unknown ground symbol type: " + t))
  }

  /** The error the written `render_component` raises for every registered
      type: the module never imports `xmltag`, and the name is looked up
      before the renderer is called. */
  const XmlTagUndefined := NameError("name 'xmltag' is not defined")

  /** `switch` as written, past its terminal and BOM checks: after the
      BOM text is split, the drawing code evaluates `xmltag`, which the
      module never defines, before the symbol type is matched; so every
      call raises NameError, whatever the text. The `options["scale"]`
      lookup just before it (OLD_components_render.py:378) is not modelled:
      a call without `scale` raises KeyError there instead. */
  function SwitchAsWritten(data: string): (r: Result<(string, string)>)
    ensures r.Err? && r.error.NameError?
  {
    var t := if data == "" then "no" else data;
    var split := if ':' in t then (Split(t, ':')[0], Join(":", Split(t, ':')[1..])) else (t, "");
    Err(XmlTagUndefined)
  }

  /** The unknown-type BOMError `switch` was written to raise is never
      reached: for the text `xy` it raises NameError, where the symbol type
      check refuses `xy` as an unknown type; and for a valid text such as
      `nc:main` it raises where the check accepts. */
  lemma SwitchTypeUnreached()
    ensures SwitchAsWritten("xy") == Err(XmlTagUndefined)
    ensures SwitchType("xy") == Err(BOMError("Unknown switch symbol type: xy"))
    ensures SwitchAsWritten("nc:main").Err? && SwitchType("nc:main") == Ok(("nc", "main"))
  {
    assert "xy" !in SwitchTypes by {
      assert "xy"[0] == 'x';
    }
    assert ':' !in "xy";
    assert "Unknown switch symbol type: " + "xy" == "Unknown switch symbol type: xy";
    assert "nc" + ":" + "main" == "nc:main";
    SwitchParts("nc", "main");
  }

  /** The switch symbols. */
  const SwitchTypes := ["nc", "no", "ncm", "nom"]

  /** `switch`'s BOM text: empty means `no`; the text before the first `:`
      is the symbol type and the rest, after it, the label (empty without
      `:`); the type must be one of the four symbols. */
  function SwitchType(data: string): (r: Result<(string, string)>)
    ensures r.Ok? ==> r.value.0 in SwitchTypes && ':' !in r.value.0
    ensures data == "" ==> r == Ok(("no", ""))
  {
    var t := if data == "" then "no" else data;
    var (kind, caption) := if ':' in t then (Split(t, ':')[0], Join(":", Split(t, ':')[1..])) else (t, "");
    if kind in SwitchTypes then Ok((kind, caption))
    else Err(BOMError("Unknown switch symbol type: " + kind))
  }

  /** Round trip: a symbol type, `:` and a label give both back; a bare
      symbol type has an empty label; and a type outside the four is
      refused with its name in the message. */
  lemma SwitchParts(kind: string, caption: string)
    requires ':' !in kind && kind != ""
    ensures kind in SwitchTypes ==> SwitchType(kind + ":" + caption) == Ok((kind, caption))
    ensures kind in SwitchTypes ==> SwitchType(kind) == Ok((kind, ""))
    ensures kind !in SwitchTypes ==> SwitchType(kind + ":" + caption) == Err(BOMError("Unknown switch symbol type: " + kind))
  {
    var data := kind + ":" + caption;
    assert data == kind + [':'] + caption;
    assert ':' in data by {
      assert data[|kind|] == ':';
    }
    SplitAtFirst(kind, caption, ':');
    JoinSplit(caption, ':');
    assert (([kind] + Split(caption, ':'))[1..]) == Split(caption, ':');
  }

  /** `render_component` as written: an unregistered type raises
      UnsupportedComponentError; any other raises NameError. */
  function RenderComponentAsWritten(renderers: map<string, Draw>, box: Cbox, terminals: seq<Terminal>, bom: seq<BOMData>): (r: Result<string>)
    ensures box.typ !in renderers ==> r == Err(UnsupportedComponentError(box.typ))
    ensures box.typ in renderers ==> r == Err(XmlTagUndefined)
  {
    if box.typ !in renderers then Err(UnsupportedComponentError(box.typ))
    else Err(XmlTagUndefined)
  }

  /** `render_component` as intended: the registered renderer's output
      wrapped in a group whose class is `component` and the type. */
  function RenderComponent(renderers: map<string, Draw>, box: Cbox, terminals: seq<Terminal>, bom: seq<BOMData>): (r: Result<string>)
    ensures box.typ !in renderers ==> r == Err(UnsupportedComponentError(box.typ))
  {
    if box.typ !in renderers then Err(UnsupportedComponentError(box.typ))
    else
      match renderers[box.typ](box, terminals, bom)
      case Err(e) => Err(e)
      case Ok(svg) => Ok(Group([svg], AStr("component " + box.typ)))
  }

  /** As written, no component is ever drawn; as intended, a registered
      one whose renderer succeeds is drawn inside `<g class="component
      TYPE">`, and a renderer's error passes through. */
  lemma RenderComponentWraps(renderers: map<string, Draw>, box: Cbox, terminals: seq<Terminal>, bom: seq<BOMData>)
    ensures RenderComponentAsWritten(renderers, box, terminals, bom).Err?
    ensures box.typ in renderers && renderers[box.typ](box, terminals, bom).Ok? ==>
      RenderComponent(renderers, box, terminals, bom)
        == Ok(XmlTag("g", [renderers[box.typ](box, terminals, bom).value], [("class", AStr("component " + box.typ))]))
    ensures box.typ in renderers && renderers[box.typ](box, terminals, bom).Err? ==>
      RenderComponent(renderers, box, terminals, bom) == renderers[box.typ](box, terminals, bom)
  {
  }
}
