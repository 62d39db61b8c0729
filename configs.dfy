/** The rendering options every drawing accepts (schemascii/configs.py):
    the `OPTIONS` table and `apply_config_defaults`, which fills in the
    defaults of a dict of options and checks or converts the given ones. */
module Configs {
  import opened Base
  import opened Text
  import opened Builtins

  /** The `clazz` of an option: the type its value is converted to, or the
      list of strings it must be one of. */
  datatype OptionClass = Float | Str | Bool | Choices(choices: seq<string>)

  /** `ConfigConfig(name, clazz, default, help)`. */
  datatype ConfigConfig = ConfigConfig(name: string, clazz: OptionClass, default: Value, help: string)

  /** `OPTIONS`, in order. */
  const Options: seq<ConfigConfig> := [
    ConfigConfig("padding", Float, VInt(10), "Amount of padding to add to the edges around the drawing."),
    ConfigConfig("scale", Float, VInt(15), "Scale by which to enlarge the entire diagram by."),
    ConfigConfig("stroke_width", Float, VInt(2), "Width of lines."),
    ConfigConfig("stroke", Str, VStr("black"), "Color of lines."),
    ConfigConfig("label", Choices(["L", "V", "VL"]), VStr("VL"),
                 "Component label style (L=include label, V=include value, VL=both)"),
    ConfigConfig("nolabels", Bool, VBool(false),
                 "Turns off labels on all components, except for part numbers on ICs.")
  ]

  /** No two options share a name. */
  predicate DistinctNames(opts: seq<ConfigConfig>)
  {
    forall i, j :: 0 <= i < j < |opts| ==> opts[i].name != opts[j].name
  }

  /** `clazz.__name__` of a type. */
  function ClassName(c: OptionClass): string
  {
    match c
    case Float => "float"
    case Str => "str"
    case Bool => "bool"
    case Choices(_) => "list"
  }

  /** `map(repr, xs)`. */
  function Reprs(xs: seq<string>): (r: seq<string>)
    ensures |r| == |xs| && forall i :: 0 <= i < |xs| ==> r[i] == Repr(xs[i])
  {
    if |xs| == 0 then [] else [Repr(xs[0])] + Reprs(xs[1..])
  }

  /** The message for a value not among an option's choices. */
  function ChoiceMessage(opt: ConfigConfig, v: Value): string
    requires opt.clazz.Choices?
  {
    "config option " + opt.name + ": invalid choice: " + StrText(v)
    + " (valid options are " + Join(", ", Reprs(opt.clazz.choices)) + ")"
  }

  /** The message for a value the option's type rejects. */
  function ConversionMessage(opt: ConfigConfig, v: Value): string
  {
    "config option " + opt.name + ": invalid " + ClassName(opt.clazz) + " value: " + StrText(v)
  }

  /** `opt.clazz(value)` for a type: the converted value, or None when the
      conversion raises ValueError. */
  type Converter = (OptionClass, Value) -> Option<Value>

  /** The conversion the options' classes make: `float`, `str` or `bool`
      called on the value. */
  function ClassConverter(acceptsFloat: string -> bool, floatNonZero: string -> bool): Converter
  {
    (c: OptionClass, v: Value) => Call(ClassName(c), v, acceptsFloat, floatNonZero)
  }

  /** A given value the option accepts: one of its choices, or a value its
      type converts. */
  predicate Acceptable(opt: ConfigConfig, v: Value, convert: Converter)
  {
    if opt.clazz.Choices? then v.VStr? && v.s in opt.clazz.choices
    else convert(opt.clazz, v).Some?
  }

  /** The value an option ends with when nothing fails: its default when
      absent, a given choice as it is, else the converted value. */
  function Resolved(opt: ConfigConfig, options: map<string, Value>, convert: Converter): Value
  {
    if opt.name !in options then opt.default
    else if opt.clazz.Choices? then options[opt.name]
    else match convert(opt.clazz, options[opt.name])
      case Some(v) => v
      case None => options[opt.name]
  }

  /** The dict and the exception raised, if any: the updates made before a
      raise stay in the dict. */
  datatype Outcome = Outcome(options: map<string, Value>, error: Option<Error>)

  /** What `raise _errors.ArgumentError(message)` raises. */
  type Raise = string -> Error

  /** The intended exception. */
  function Intended(message: string): Error { ArgumentError(message) }

  /** What the written code raises: `ArgumentError` is not defined in the
      errors module, so looking it up fails first. */
  const MissingArgumentError := AttributeError("module 'schemascii.errors' has no attribute 'ArgumentError'")

  function AsWritten(message: string): Error { MissingArgumentError }

  /** One turn of the loop, for one option. */
  function Step(opt: ConfigConfig, options: map<string, Value>, convert: Converter, raise: Raise): Outcome
  {
    if opt.name !in options then Outcome(options[opt.name := opt.default], None)
    else
      var v := options[opt.name];
      if opt.clazz.Choices? then
        if v.VStr? && v.s in opt.clazz.choices then Outcome(options, None)
        else Outcome(options, Some(raise(ChoiceMessage(opt, v))))
      else
        match convert(opt.clazz, v)
        case None => Outcome(options, Some(raise(ConversionMessage(opt, v))))
        case Some(w) => Outcome(options[opt.name := w], None)
  }

  /** The loop over `opts`, stopping at the first raise. */
  function Applied(options: map<string, Value>, opts: seq<ConfigConfig>, convert: Converter, raise: Raise): Outcome
  {
    if |opts| == 0 then Outcome(options, None)
    else
      var o := Applied(options, opts[..|opts| - 1], convert, raise);
      if o.error.Some? then o else Step(opts[|opts| - 1], o.options, convert, raise)
  }

  /** A dict of options, changed in place. */
  class OptionsDict {
    var items: map<string, Value>

    constructor (items: map<string, Value>)
      ensures this.items == items
    {
      this.items := items;
    }
  }

  /** `apply_config_defaults(options)`, raising ArgumentError as intended:
      the dict is updated option by option and returned, or the first
      failure is raised with the updates made so far left in it. */
  method ApplyConfigDefaults(options: OptionsDict, acceptsFloat: string -> bool, floatNonZero: string -> bool)
    returns (r: Result<OptionsDict>)
    modifies options
    ensures Applied(old(options.items), Options, ClassConverter(acceptsFloat, floatNonZero), Intended)
         == Outcome(options.items, if r.Err? then Some(r.error) else None)
    ensures r.Ok? ==> r.value == options
  {
    var convert := ClassConverter(acceptsFloat, floatNonZero);
    ghost var start := options.items;
    for i := 0 to |Options|
      invariant Applied(start, Options[..i], convert, Intended) == Outcome(options.items, None)
    {
      var opt := Options[i];
      AppliedSnoc(start, Options, i, convert, Intended);
      if opt.name !in options.items {
        options.items := options.items[opt.name := opt.default];
        continue;
      }
      var v := options.items[opt.name];
      if opt.clazz.Choices? {
        if !(v.VStr? && v.s in opt.clazz.choices) {
          AppliedStops(start, Options, i + 1, convert, Intended);
          return Err(ArgumentError(ChoiceMessage(opt, v)));
        }
        continue;
      }
      match convert(opt.clazz, v)
      case None =>
        AppliedStops(start, Options, i + 1, convert, Intended);
        return Err(ArgumentError(ConversionMessage(opt, v)));
      case Some(w) =>
        options.items := options.items[opt.name := w];
    }
    assert Options[..|Options|] == Options;
    return Ok(options);
  }

  /** One more option is one more turn, unless an earlier one raised. */
  lemma AppliedSnoc(options: map<string, Value>, opts: seq<ConfigConfig>, i: nat, convert: Converter, raise: Raise)
    requires i < |opts|
    ensures Applied(options, opts[..i + 1], convert, raise)
         == (var o := Applied(options, opts[..i], convert, raise);
             if o.error.Some? then o else Step(opts[i], o.options, convert, raise))
  {
    assert opts[..i + 1][..i] == opts[..i];
  }

  /** Once an option raised, the later ones are not looked at. */
  lemma {:induction false} AppliedStops(options: map<string, Value>, opts: seq<ConfigConfig>, i: nat,
                                        convert: Converter, raise: Raise)
    requires i <= |opts| && Applied(options, opts[..i], convert, raise).error.Some?
    ensures Applied(options, opts, convert, raise) == Applied(options, opts[..i], convert, raise)
    decreases |opts|
  {
    if i == |opts| {
      assert opts[..i] == opts;
    } else {
      var front := opts[..|opts| - 1];
      assert front[..i] == opts[..i];
      AppliedStops(options, front, i, convert, raise);
    }
  }

  /** Keys no option names are left as they were, even when an option
      raises. */
  lemma {:induction false} AppliedKeepsOthers(options: map<string, Value>, opts: seq<ConfigConfig>, key: string,
                                              convert: Converter, raise: Raise)
    requires forall i :: 0 <= i < |opts| ==> opts[i].name != key
    ensures var out := Applied(options, opts, convert, raise).options;
            (key in out <==> key in options) && (key in options ==> out[key] == options[key])
    decreases |opts|
  {
    if |opts| > 0 {
      AppliedKeepsOthers(options, opts[..|opts| - 1], key, convert, raise);
    }
  }

  /** With distinct names, when nothing raises every option is in the dict
      with its resolved value: the default when it was absent, the given
      choice, or the converted value. */
  lemma {:induction false} AppliedResolves(options: map<string, Value>, opts: seq<ConfigConfig>,
                                           convert: Converter, raise: Raise)
    requires DistinctNames(opts)
    ensures var out := Applied(options, opts, convert, raise);
            out.error.None? ==>
              forall i :: 0 <= i < |opts| ==>
                opts[i].name in out.options && out.options[opts[i].name] == Resolved(opts[i], options, convert)
    decreases |opts|
  {
    if |opts| > 0 {
      var n := |opts| - 1;
      var front := opts[..n];
      var last := opts[n];
      var o := Applied(options, front, convert, raise);
      AppliedResolves(options, front, convert, raise);
      AppliedKeepsOthers(options, front, last.name, convert, raise);
      var out := Applied(options, opts, convert, raise);
      if out.error.None? {
        assert o.error.None?;
        forall i | 0 <= i < |opts|
          ensures opts[i].name in out.options && out.options[opts[i].name] == Resolved(opts[i], options, convert)
        {
          if i < n {
            assert front[i] == opts[i] && opts[i].name != last.name;
          }
        }
      }
    }
  }

  /** With distinct names, nothing raises exactly when every given option
      is acceptable. */
  lemma {:induction false} AppliedSucceeds(options: map<string, Value>, opts: seq<ConfigConfig>,
                                           convert: Converter, raise: Raise)
    requires DistinctNames(opts)
    ensures Applied(options, opts, convert, raise).error.None?
        <==> forall i :: 0 <= i < |opts| && opts[i].name in options ==> Acceptable(opts[i], options[opts[i].name], convert)
    decreases |opts|
  {
    if |opts| > 0 {
      var n := |opts| - 1;
      var front := opts[..n];
      var last := opts[n];
      AppliedSucceeds(options, front, convert, raise);
      AppliedKeepsOthers(options, front, last.name, convert, raise);
      var o := Applied(options, front, convert, raise);
      if o.error.None? {
        forall i | 0 <= i < n && front[i].name in options
          ensures Acceptable(opts[i], options[opts[i].name], convert)
        {
          assert front[i] == opts[i];
        }
      } else {
        var i :| 0 <= i < n && front[i].name in options && !Acceptable(front[i], options[front[i].name], convert);
        assert opts[i] == front[i];
      }
    }
  }

  /** The written code and the intended one update the dict alike and fail
      on the same inputs; the written one always raises AttributeError where
      the intended one raises ArgumentError. */
  lemma {:induction false} AsWrittenRaisesAttributeError(options: map<string, Value>, opts: seq<ConfigConfig>,
                                                         convert: Converter)
    ensures var w := Applied(options, opts, convert, AsWritten);
            var c := Applied(options, opts, convert, Intended);
            && w.options == c.options
            && (w.error.Some? <==> c.error.Some?)
            && (w.error.Some? ==> w.error.value == MissingArgumentError)
            && (c.error.Some? ==> c.error.value.ArgumentError?)
    decreases |opts|
  {
    if |opts| > 0 {
      AsWrittenRaisesAttributeError(options, opts[..|opts| - 1], convert);
    }
  }

  /** The option names are all different. */
  lemma OptionNamesDistinct()
    ensures DistinctNames(Options)
  {
  }

  /** An empty dict gets every default: `label` is `VL`, `nolabels` is False
      and the padding 10. */
  lemma EmptyGetsDefaults(convert: Converter, raise: Raise)
    ensures var out := Applied(map[], Options, convert, raise);
            && out.error.None?
            && "padding" in out.options && out.options["padding"] == VInt(10)
            && "label" in out.options && out.options["label"] == VStr("VL")
            && "nolabels" in out.options && out.options["nolabels"] == VBool(false)
  {
    OptionNamesDistinct();
    AppliedSucceeds(map[], Options, convert, raise);
    AppliedResolves(map[], Options, convert, raise);
    assert Options[0].name == "padding" && Options[4].name == "label" && Options[5].name == "nolabels";
  }

  /** `label` takes one of L, V, VL; any other string is refused, and by the
      written code with AttributeError. */
  lemma LabelOutsideChoices(convert: Converter)
    ensures Applied(map["label" := VStr("X")], Options, convert, Intended).error.Some?
    ensures Applied(map["label" := VStr("X")], Options, convert, AsWritten).error == Some(MissingArgumentError)
  {
    var m := map["label" := VStr("X")];
    OptionNamesDistinct();
    AppliedSucceeds(m, Options, convert, Intended);
    assert Options[4].name == "label" && !Acceptable(Options[4], m["label"], convert);
    AsWrittenRaisesAttributeError(m, Options, convert);
  }

  /** With the options' own classes, a given value is refused only when it
      is outside a list of choices, or a string `float()` refuses for a
      float option: `str` and `bool` accept anything. */
  lemma AcceptableByClass(opt: ConfigConfig, v: Value, acceptsFloat: string -> bool, floatNonZero: string -> bool)
    requires opt in Options
    ensures Acceptable(opt, v, ClassConverter(acceptsFloat, floatNonZero))
        <==> if opt.clazz.Choices? then v.VStr? && v.s in opt.clazz.choices
             else !(opt.clazz.Float? && v.VStr? && !acceptsFloat(v.s))
  {
    if !opt.clazz.Choices? {
      CallRaises(ClassName(opt.clazz), v, acceptsFloat, floatNonZero);
    }
  }

  /** `nolabels = "False"` is accepted and becomes True, since any
      non-empty string is true. */
  lemma NolabelsFalseText(acceptsFloat: string -> bool, floatNonZero: string -> bool)
    ensures var convert := ClassConverter(acceptsFloat, floatNonZero);
            var out := Applied(map["nolabels" := VStr("False")], Options, convert, Intended);
            out.error.None? && "nolabels" in out.options && out.options["nolabels"] == VBool(true)
  {
    var convert := ClassConverter(acceptsFloat, floatNonZero);
    var m := map["nolabels" := VStr("False")];
    OptionNamesDistinct();
    forall i | 0 <= i < |Options| && Options[i].name in m
      ensures Acceptable(Options[i], m[Options[i].name], convert)
    {
      assert i == 5 && Options[i].clazz == Bool && ClassName(Bool) == "bool";
      assert convert(Bool, m["nolabels"]) == Call("bool", m["nolabels"], acceptsFloat, floatNonZero);
    }
    AppliedSucceeds(m, Options, convert, Intended);
    AppliedResolves(m, Options, convert, Intended);
    assert Options[5].name == "nolabels";
  }

  /** A padding that is not a number is refused with the float message. */
  lemma PaddingNotNumber(text: string, acceptsFloat: string -> bool, floatNonZero: string -> bool)
    requires !acceptsFloat(text)
    ensures Applied(map["padding" := VStr(text)], Options, ClassConverter(acceptsFloat, floatNonZero), Intended).error
         == Some(ArgumentError("config option padding: invalid float value: " + text))
  {
    var convert := ClassConverter(acceptsFloat, floatNonZero);
    var m := map["padding" := VStr(text)];
    PaddingFirstStep(text, acceptsFloat, floatNonZero);
    AppliedStops(m, Options, 1, convert, Intended);
    PaddingMessage(text);
  }

  lemma PaddingMessage(text: string)
    ensures ConversionMessage(Options[0], VStr(text)) == "config option padding: invalid float value: " + text
  {
    assert Options[0].name == "padding" && ClassName(Options[0].clazz) == "float" && StrText(VStr(text)) == text;
    assert "config option " + "padding" + ": invalid " + "float" + " value: " == "config option padding: invalid float value: ";
  }

  lemma PaddingFirstStep(text: string, acceptsFloat: string -> bool, floatNonZero: string -> bool)
    requires !acceptsFloat(text)
    ensures Applied(map["padding" := VStr(text)], Options[..1], ClassConverter(acceptsFloat, floatNonZero), Intended).error
         == Some(ArgumentError(ConversionMessage(Options[0], VStr(text))))
  {
    var convert := ClassConverter(acceptsFloat, floatNonZero);
    var m := map["padding" := VStr(text)];
    AppliedSnoc(m, Options, 0, convert, Intended);
    assert Options[..0] == [];
    assert Options[0].clazz == Float && ClassName(Float) == "float";
    assert convert(Float, VStr(text)) == Call("float", VStr(text), acceptsFloat, floatNonZero);
  }
}
