/** The nodes that draw themselves from the data section
    (schemascii/data_consumer.py): each consumer class has namespaces in a
    shared registry and a set of options, both inherited from its parents,
    and before rendering it looks its options up in the data and checks
    them. */
module DataConsumers {
  import opened Base
  import opened Text
  import opened Builtins

  /** A consumer class, by identity. */
  type ClassId = nat

  /** `inherit`: a flag, or the names of the parent options to take. */
  datatype Inherit = InheritAll(flag: bool) | InheritNamed(names: set<string>)

  /** `if copt.inherit:` — True, or a non-empty set. */
  predicate Inherits(h: Inherit)
  {
    if h.InheritAll? then h.flag else h.names != {}
  }

  /** `Option.type`: a type, by its `__name__`, or a list of allowed values. */
  datatype OptionType = Typed(typeName: string) | Choices(choices: seq<Value>)

  /** `Option(name, type, help, default)`; None stands for `_OPT_IS_REQUIRED`. */
  datatype Opt = Opt(name: string, kind: OptionType, help: string, default: Option<Value>)

  /** `OptionsSet(self_opts, inherit, inherit_from)`; None is an
      `inherit_from` not yet set. */
  datatype OptionsSet = OptionsSet(selfOpts: seq<Opt>, inherit: Inherit, inheritFrom: Option<seq<ClassId>>)

  /** A consumer class: its name, `options`, `__bases__`, whether
      DataConsumer is in its MRO, and its depth in the class hierarchy. */
  datatype ClassInfo = ClassInfo(name: string, options: OptionsSet, bases: seq<ClassId>, isConsumer: bool, rank: nat)

  /** `DataConsumer.options`: scale, linewidth and color, not inherited. */
  const BaseOptions := OptionsSet([
    Opt("scale", Typed("float"), "Scale by which to enlarge the entire diagram by", Some(VInt(15))),
    Opt("linewidth", Typed("float"), "Width of drawn lines", Some(VInt(2))),
    Opt("color", Typed("str"), "Default color for everything", Some(VStr("black")))
  ], InheritAll(false), None)

  /** The class table is a hierarchy: every base and every class inherited
      from is in the table and lower in it, as Python's class graph is. */
  predicate Ranked(t: map<ClassId, ClassInfo>)
  {
    forall c | c in t :: RankedAt(t, c)
  }

  /** The bases and the classes inherited from of c are lower than c. */
  predicate RankedAt(t: map<ClassId, ClassInfo>, c: ClassId)
    requires c in t
  {
    && (forall p | p in t[c].bases :: Below(t, p, t[c].rank))
    && (t[c].options.inheritFrom.Some? ==> forall p | p in t[c].options.inheritFrom.value :: Below(t, p, t[c].rank))
  }

  /** p is a class of the table lower than `bound`. */
  predicate Below(t: map<ClassId, ClassInfo>, p: ClassId, bound: nat)
  {
    p in t && t[p].rank < bound
  }

  /** Iterating an `inherit_from` that was never set. */
  const NoneNotIterable := TypeError("'NoneType' object is not iterable")

  /** `[k for k, v in registry.items() if v is cls]`, in registry order. */
  function Own(registry: seq<(string, ClassId)>, c: ClassId): (r: seq<string>)
    ensures forall x :: x in r <==> exists i :: 0 <= i < |registry| && registry[i] == (x, c)
  {
    if |registry| == 0 then []
    else
      var n := |registry| - 1;
      Own(registry[..n], c) + (if registry[n].1 == c then [registry[n].0] else [])
  }

  /** `itertools.chain` of two lists being built: the first failure is
      the one raised. */
  function Chain<T>(x: Result<seq<T>>, y: Result<seq<T>>): (r: Result<seq<T>>)
    ensures r.Ok? <==> x.Ok? && y.Ok?
    ensures r.Ok? ==> r.value == x.value + y.value
    ensures x.Err? ==> r == x
  {
    match x
    case Err(e) => Err(e)
    case Ok(a) =>
      match y
      case Err(e) => Err(e)
      case Ok(b) => Ok(a + b)
  }

  /** Chaining is associative. */
  lemma ChainAssoc<T>(x: Result<seq<T>>, y: Result<seq<T>>, z: Result<seq<T>>)
    ensures Chain(Chain(x, y), z) == Chain(x, Chain(y, z))
  {
    if x.Ok? && y.Ok? && z.Ok? {
      assert (x.value + y.value) + z.value == x.value + (y.value + z.value);
    }
  }

  /** `cls.get_namespaces()`. */
  function Namespaces(t: map<ClassId, ClassInfo>, registry: seq<(string, ClassId)>, c: ClassId): (r: Result<seq<string>>)
    requires Ranked(t) && c in t
    ensures r.Ok? ==> Own(registry, c) <= r.value
    ensures !Inherits(t[c].options.inherit) ==> r == Ok(Own(registry, c))
    ensures Inherits(t[c].options.inherit) && t[c].options.inheritFrom.None? ==> r == Err(NoneNotIterable)
    decreases t[c].rank, 1
  {
    var o := t[c].options;
    if !Inherits(o.inherit) then Ok(Own(registry, c))
    else if o.inheritFrom.None? then Err(NoneNotIterable)
    else
      match ParentNamespaces(t, registry, o.inheritFrom.value, t[c].rank)
      case Err(e) => Err(e)
      case Ok(ns) => Ok(Own(registry, c) + ns)
  }

  /** The namespaces of the parents, chained in order. */
  function ParentNamespaces(t: map<ClassId, ClassInfo>, registry: seq<(string, ClassId)>, ps: seq<ClassId>, bound: nat)
    : Result<seq<string>>
    requires Ranked(t) && forall p | p in ps :: p in t && t[p].rank < bound
    decreases bound, 0, |ps|
  {
    if |ps| == 0 then Ok([])
    else Chain(Namespaces(t, registry, ps[0]), ParentNamespaces(t, registry, ps[1..], bound))
  }

  /** `cls.get_options()`. */
  function Options(t: map<ClassId, ClassInfo>, c: ClassId): (r: Result<seq<Opt>>)
    requires Ranked(t) && c in t
    ensures r.Ok? ==> t[c].options.selfOpts <= r.value
    ensures !Inherits(t[c].options.inherit) ==> r == Ok(t[c].options.selfOpts)
    ensures Inherits(t[c].options.inherit) && t[c].options.inheritFrom.None? ==> r == Err(NoneNotIterable)
    ensures r.Ok? && t[c].options.inherit.InheritNamed? ==>
              forall k :: |t[c].options.selfOpts| <= k < |r.value| ==> r.value[k].name in t[c].options.inherit.names
    decreases t[c].rank, 1
  {
    var o := t[c].options;
    if !Inherits(o.inherit) then Ok(o.selfOpts)
    else if o.inheritFrom.None? then Err(NoneNotIterable)
    else
      match ParentOptions(t, o.inheritFrom.value, t[c].rank)
      case Err(e) => Err(e)
      case Ok(po) => Ok(o.selfOpts + (if o.inherit.InheritAll? then po else Named(po, o.inherit.names)))
  }

  /** The options of the parents, chained in order. */
  function ParentOptions(t: map<ClassId, ClassInfo>, ps: seq<ClassId>, bound: nat): Result<seq<Opt>>
    requires Ranked(t) && forall p | p in ps :: p in t && t[p].rank < bound
    decreases bound, 0, |ps|
  {
    if |ps| == 0 then Ok([])
    else Chain(Options(t, ps[0]), ParentOptions(t, ps[1..], bound))
  }

  /** `[opt for opt in opts if opt.name in names]`. */
  function Named(opts: seq<Opt>, names: set<string>): (r: seq<Opt>)
    ensures forall o :: o in r <==> o in opts && o.name in names
  {
    if |opts| == 0 then []
    else
      var n := |opts| - 1;
      Named(opts[..n], names) + (if opts[n].name in names then [opts[n]] else [])
  }

  /** x is a key of the registry. */
  predicate Registered(registry: seq<(string, ClassId)>, x: string)
  {
    exists i :: 0 <= i < |registry| && registry[i].0 == x
  }

  /** Every namespace of a class is a registered one. */
  lemma {:induction false} NamespacesRegistered(t: map<ClassId, ClassInfo>, registry: seq<(string, ClassId)>, c: ClassId)
    requires Ranked(t) && c in t
    ensures Namespaces(t, registry, c).Ok? ==>
              forall x | x in Namespaces(t, registry, c).value :: Registered(registry, x)
    decreases t[c].rank, 1
  {
    var o := t[c].options;
    if Inherits(o.inherit) && o.inheritFrom.Some? {
      ParentNamespacesRegistered(t, registry, o.inheritFrom.value, t[c].rank);
    }
  }

  lemma {:induction false} ParentNamespacesRegistered(t: map<ClassId, ClassInfo>, registry: seq<(string, ClassId)>,
                                                      ps: seq<ClassId>, bound: nat)
    requires Ranked(t) && forall p | p in ps :: p in t && t[p].rank < bound
    ensures ParentNamespaces(t, registry, ps, bound).Ok? ==>
              forall x | x in ParentNamespaces(t, registry, ps, bound).value :: Registered(registry, x)
    decreases bound, 0, |ps|
  {
    if |ps| > 0 {
      NamespacesRegistered(t, registry, ps[0]);
      ParentNamespacesRegistered(t, registry, ps[1..], bound);
    }
  }

  /** The parents' namespaces come in `inherit_from` order: chaining two
      runs of parents gives the first run's, then the second's, and the
      first failure is the one raised. */
  lemma {:induction false} ParentNamespacesAppend(t: map<ClassId, ClassInfo>, registry: seq<(string, ClassId)>,
                                                  a: seq<ClassId>, b: seq<ClassId>, bound: nat)
    requires Ranked(t) && forall p | p in a + b :: p in t && t[p].rank < bound
    ensures ParentNamespaces(t, registry, a + b, bound)
         == Chain(ParentNamespaces(t, registry, a, bound), ParentNamespaces(t, registry, b, bound))
    decreases |a|
  {
    if |a| == 0 {
      assert a + b == b;
      var y := ParentNamespaces(t, registry, b, bound);
      if y.Ok? {
        assert [] + y.value == y.value;
      }
    } else {
      assert (a + b)[0] == a[0] && (a + b)[1..] == a[1..] + b;
      ParentNamespacesAppend(t, registry, a[1..], b, bound);
      ChainAssoc(Namespaces(t, registry, a[0]), ParentNamespaces(t, registry, a[1..], bound),
                 ParentNamespaces(t, registry, b, bound));
    }
  }

  /** A class that inherits has, after its own namespaces, all those of
      each parent it inherits from. */
  lemma {:induction false} ParentNamespacesIncluded(t: map<ClassId, ClassInfo>, registry: seq<(string, ClassId)>,
                                                    ps: seq<ClassId>, bound: nat, j: nat)
    requires Ranked(t) && forall p | p in ps :: p in t && t[p].rank < bound
    requires j < |ps|
    ensures ParentNamespaces(t, registry, ps, bound).Ok? ==>
              && Namespaces(t, registry, ps[j]).Ok?
              && multiset(Namespaces(t, registry, ps[j]).value) <= multiset(ParentNamespaces(t, registry, ps, bound).value)
    decreases |ps|
  {
    if j > 0 {
      ParentNamespacesIncluded(t, registry, ps[1..], bound, j - 1);
      assert ps[1..][j - 1] == ps[j];
    }
  }

  /** A class that inherits every parent option has all options of each
      parent; one that inherits named options has each parent option whose
      name is in the set. */
  lemma {:induction false} ParentOptionsIncluded(t: map<ClassId, ClassInfo>, c: ClassId, j: nat, opt: Opt)
    requires Ranked(t) && c in t
    requires Inherits(t[c].options.inherit) && t[c].options.inheritFrom.Some?
    requires j < |t[c].options.inheritFrom.value| && t[c].options.inheritFrom.value[j] in t
    requires Options(t, c).Ok?
    ensures Options(t, t[c].options.inheritFrom.value[j]).Ok?
    ensures opt in Options(t, t[c].options.inheritFrom.value[j]).value
            && (t[c].options.inherit.InheritAll? || opt.name in t[c].options.inherit.names)
            ==> opt in Options(t, c).value
  {
    var ps := t[c].options.inheritFrom.value;
    ParentOptionsMember(t, ps, t[c].rank, j, opt);
  }

  lemma {:induction false} ParentOptionsMember(t: map<ClassId, ClassInfo>, ps: seq<ClassId>, bound: nat, j: nat, opt: Opt)
    requires Ranked(t) && forall p | p in ps :: p in t && t[p].rank < bound
    requires j < |ps|
    ensures ParentOptions(t, ps, bound).Ok? ==>
              && Options(t, ps[j]).Ok?
              && (opt in Options(t, ps[j]).value ==> opt in ParentOptions(t, ps, bound).value)
    decreases |ps|
  {
    if j > 0 {
      ParentOptionsMember(t, ps[1..], bound, j - 1, opt);
      assert ps[1..][j - 1] == ps[j];
    }
  }

  /** `values |= data.get_values_for(name)` for each namespace in turn,
      starting from `{}`; `valuesFor` is `data.get_values_for`. */
  function Merged(namespaces: seq<string>, valuesFor: string -> map<string, Value>): map<string, Value>
  {
    if |namespaces| == 0 then map[]
    else Merged(namespaces[..|namespaces| - 1], valuesFor) + valuesFor(namespaces[|namespaces| - 1])
  }

  /** A key is in the merged values exactly when some namespace gives it. */
  lemma {:induction false} MergedKeys(namespaces: seq<string>, valuesFor: string -> map<string, Value>, key: string)
    ensures key in Merged(namespaces, valuesFor) <==> exists i :: 0 <= i < |namespaces| && key in valuesFor(namespaces[i])
  {
    if |namespaces| > 0 {
      var n := |namespaces| - 1;
      MergedKeys(namespaces[..n], valuesFor, key);
      if key in Merged(namespaces[..n], valuesFor) {
        var i :| 0 <= i < n && key in valuesFor(namespaces[..n][i]);
        assert namespaces[..n][i] == namespaces[i];
      }
      if exists i :: 0 <= i < |namespaces| && key in valuesFor(namespaces[i]) {
        var i :| 0 <= i < |namespaces| && key in valuesFor(namespaces[i]);
        if i < n {
          assert namespaces[..n][i] == namespaces[i];
        }
      }
    }
  }

  /** Later namespaces override earlier ones: a key takes its value from
      the last namespace that gives it. */
  lemma {:induction false} MergedLastWins(namespaces: seq<string>, valuesFor: string -> map<string, Value>,
                                          key: string, i: nat)
    requires i < |namespaces| && key in valuesFor(namespaces[i])
    requires forall j :: i < j < |namespaces| ==> key !in valuesFor(namespaces[j])
    ensures key in Merged(namespaces, valuesFor) && Merged(namespaces, valuesFor)[key] == valuesFor(namespaces[i])[key]
  {
    var n := |namespaces| - 1;
    if i < n {
      assert namespaces[..n][i] == namespaces[i];
      MergedLastWins(namespaces[..n], valuesFor, key, i);
    }
  }

  /** `f"{v!r}"`. */
  function ValueRepr(v: Value): string
  {
    match v
    case VInt(i) => IntToString(i)
    case VStr(s) => Repr(s)
    case VFloat(t) => t
    case VBool(b) => if b then "True" else "False"
  }

  /** `map(repr, values)`. */
  function ValueReprs(vs: seq<Value>): (r: seq<string>)
    ensures |r| == |vs| && forall i :: 0 <= i < |vs| ==> r[i] == ValueRepr(vs[i])
  {
    if |vs| == 0 then [] else [ValueRepr(vs[0])] + ValueReprs(vs[1..])
  }

  /** Raising an error whose message names `namespaces[-1]`: with no
      namespace at all the index itself fails first. */
  function RaiseFor(namespaces: seq<string>, make: string -> Error): (r: Result<map<string, Value>>)
    ensures r.Err?
    ensures |namespaces| == 0 ==> r.error == IndexError("list index out of range")
    ensures |namespaces| > 0 ==> r.error == make(namespaces[|namespaces| - 1])
  {
    if |namespaces| == 0 then Err(IndexError("list index out of range"))
    else Err(make(namespaces[|namespaces| - 1]))
  }

  function MissingMessage(ns: string, opt: Opt): string
  {
    "missing value for " + ns + "." + opt.name
  }

  function ChoiceMessage(ns: string, opt: Opt, v: Value): string
    requires opt.kind.Choices?
  {
    ns + "." + opt.name + ": invalid choice: " + ValueRepr(v)
    + " (valid options are " + Join(", ", ValueReprs(opt.kind.choices)) + ")"
  }

  function TypeMessage(ns: string, opt: Opt, v: Value): string
    requires opt.kind.Typed?
  {
    "option " + ns + "." + opt.name + ": invalid " + opt.kind.typeName + " value: " + ValueRepr(v)
  }

  /** `opt.type(value)`, by the type's name: the converted value, or None
      when the conversion raises ValueError. */
  type Converter = (string, Value) -> Option<Value>

  /** The conversion of the types the options declare, by name: `str`,
      `float` or `bool` called on the value. */
  function TypeConverter(acceptsFloat: string -> bool, floatNonZero: string -> bool): Converter
  {
    (typeName: string, v: Value) => Call(typeName, v, acceptsFloat, floatNonZero)
  }

  /** One turn of the validation loop. */
  function Check(opt: Opt, values: map<string, Value>, namespaces: seq<string>, convert: Converter): Result<map<string, Value>>
  {
    if opt.name !in values then
      if opt.default.Some? then Ok(values[opt.name := opt.default.value])
      else RaiseFor(namespaces, ns => NoDataError(MissingMessage(ns, opt)))
    else
      var v := values[opt.name];
      match opt.kind
      case Choices(cs) =>
        if v in cs then Ok(values)
        else RaiseFor(namespaces, ns => BOMError(ChoiceMessage(ns, opt, v)))
      case Typed(tn) =>
        match convert(tn, v)
        case Some(w) => Ok(values[opt.name := w])
        case None => RaiseFor(namespaces, ns => DataTypeError(TypeMessage(ns, opt, v)))
  }

  /** The validation loop over `opts`, stopping at the first raise. */
  function Resolve(values: map<string, Value>, opts: seq<Opt>, namespaces: seq<string>, convert: Converter)
    : Result<map<string, Value>>
  {
    if |opts| == 0 then Ok(values)
    else
      match Resolve(values, opts[..|opts| - 1], namespaces, convert)
      case Err(e) => Err(e)
      case Ok(v) => Check(opts[|opts| - 1], v, namespaces, convert)
  }

  /** What the option needs of the merged values: a value when it has no
      default, one of its choices, or a value its type converts. */
  predicate Acceptable(opt: Opt, values: map<string, Value>, convert: Converter)
  {
    if opt.name !in values then opt.default.Some?
    else if opt.kind.Choices? then values[opt.name] in opt.kind.choices
    else convert(opt.kind.typeName, values[opt.name]).Some?
  }

  /** The value an acceptable option ends with: its default, the given
      choice, or the converted value. */
  function Resolved(opt: Opt, values: map<string, Value>, convert: Converter): Value
    requires Acceptable(opt, values, convert)
  {
    if opt.name !in values then opt.default.value
    else if opt.kind.Choices? then values[opt.name]
    else convert(opt.kind.typeName, values[opt.name]).value
  }

  /** No two options share a name. */
  predicate DistinctNames(opts: seq<Opt>)
  {
    forall i, j :: 0 <= i < j < |opts| ==> opts[i].name != opts[j].name
  }

  /** The merge and validation part of `to_xml_string`: the two loops over
      the namespaces and the options, building the `values` dict. */
  method ResolveValues(namespaces: seq<string>, opts: seq<Opt>, valuesFor: string -> map<string, Value>,
                       convert: Converter) returns (r: Result<map<string, Value>>)
    ensures r == Resolve(Merged(namespaces, valuesFor), opts, namespaces, convert)
  {
    var values: map<string, Value> := map[];
    for i := 0 to |namespaces|
      invariant values == Merged(namespaces[..i], valuesFor)
    {
      assert namespaces[..i + 1][..i] == namespaces[..i];
      values := values + valuesFor(namespaces[i]);
    }
    assert namespaces[..|namespaces|] == namespaces;
    ghost var merged := values;
    for i := 0 to |opts|
      invariant Resolve(merged, opts[..i], namespaces, convert) == Ok(values)
    {
      var opt := opts[i];
      ResolveSnoc(merged, opts, i, namespaces, convert);
      var step: Result<map<string, Value>>;
      if opt.name !in values {
        if opt.default.Some? {
          values := values[opt.name := opt.default.value];
          continue;
        }
        step := RaiseFor(namespaces, ns => NoDataError(MissingMessage(ns, opt)));
      } else {
        var v := values[opt.name];
        match opt.kind
        case Choices(cs) =>
          if v in cs {
            continue;
          }
          step := RaiseFor(namespaces, ns => BOMError(ChoiceMessage(ns, opt, v)));
        case Typed(tn) =>
          var w := convert(tn, v);
          if w.Some? {
            values := values[opt.name := w.value];
            continue;
          }
          step := RaiseFor(namespaces, ns => DataTypeError(TypeMessage(ns, opt, v)));
      }
      ResolveStops(merged, opts, i + 1, namespaces, convert);
      return step;
    }
    assert opts[..|opts|] == opts;
    return Ok(values);
  }

  lemma ResolveSnoc(values: map<string, Value>, opts: seq<Opt>, i: nat, namespaces: seq<string>, convert: Converter)
    requires i < |opts|
    ensures Resolve(values, opts[..i + 1], namespaces, convert)
         == match Resolve(values, opts[..i], namespaces, convert)
            case Err(e) => Err(e)
            case Ok(v) => Check(opts[i], v, namespaces, convert)
  {
    assert opts[..i + 1][..i] == opts[..i];
  }

  /** Once an option raised, the later ones are not looked at. */
  lemma {:induction false} ResolveStops(values: map<string, Value>, opts: seq<Opt>, i: nat, namespaces: seq<string>,
                                        convert: Converter)
    requires i <= |opts| && Resolve(values, opts[..i], namespaces, convert).Err?
    ensures Resolve(values, opts, namespaces, convert) == Resolve(values, opts[..i], namespaces, convert)
    decreases |opts|
  {
    if i == |opts| {
      assert opts[..i] == opts;
    } else {
      var front := opts[..|opts| - 1];
      assert front[..i] == opts[..i];
      ResolveStops(values, front, i, namespaces, convert);
    }
  }

  /** Keys no option names (the unknown data keys, which only warn) are
      kept as merged. */
  lemma {:induction false} ResolveKeepsOthers(values: map<string, Value>, opts: seq<Opt>, namespaces: seq<string>,
                                              convert: Converter, key: string)
    requires forall i :: 0 <= i < |opts| ==> opts[i].name != key
    ensures var r := Resolve(values, opts, namespaces, convert);
            r.Ok? ==> (key in r.value <==> key in values) && (key in values ==> r.value[key] == values[key])
    decreases |opts|
  {
    if |opts| > 0 {
      ResolveKeepsOthers(values, opts[..|opts| - 1], namespaces, convert, key);
    }
  }

  /** Only the typed errors are raised, naming the last namespace; with no
      namespace the message cannot be built and IndexError escapes. */
  lemma {:induction false} ResolveErrors(values: map<string, Value>, opts: seq<Opt>, namespaces: seq<string>,
                                         convert: Converter)
    ensures var r := Resolve(values, opts, namespaces, convert);
            && (r.Err? && |namespaces| == 0 ==> r.error == IndexError("list index out of range"))
            && (r.Err? && |namespaces| > 0 ==> r.error.NoDataError? || r.error.BOMError? || r.error.DataTypeError?)
    decreases |opts|
  {
    if |opts| > 0 {
      ResolveErrors(values, opts[..|opts| - 1], namespaces, convert);
    }
  }

  /** With distinct names, the validation succeeds exactly when every
      option is acceptable, and then each option has its resolved value. */
  lemma ResolveSucceeds(values: map<string, Value>, opts: seq<Opt>, namespaces: seq<string>, convert: Converter)
    requires DistinctNames(opts)
    ensures var r := Resolve(values, opts, namespaces, convert);
            && (r.Ok? <==> forall i :: 0 <= i < |opts| ==> Acceptable(opts[i], values, convert))
            && (r.Ok? ==> forall i :: 0 <= i < |opts| ==>
                  opts[i].name in r.value && r.value[opts[i].name] == Resolved(opts[i], values, convert))
  {
    ResolveOkIff(values, opts, namespaces, convert);
    if Resolve(values, opts, namespaces, convert).Ok? {
      ResolveOkValues(values, opts, namespaces, convert);
    }
  }

  lemma {:induction false} ResolveOkIff(values: map<string, Value>, opts: seq<Opt>, namespaces: seq<string>,
                                        convert: Converter)
    requires DistinctNames(opts)
    ensures Resolve(values, opts, namespaces, convert).Ok? <==> forall i :: 0 <= i < |opts| ==> Acceptable(opts[i], values, convert)
    decreases |opts|
  {
    if |opts| > 0 {
      var n := |opts| - 1;
      var front, last := opts[..n], opts[n];
      assert DistinctNames(front);
      ResolveOkIff(values, front, namespaces, convert);
      ResolveKeepsOthers(values, front, namespaces, convert, last.name);
      if Resolve(values, front, namespaces, convert).Ok? {
        forall i | 0 <= i < n ensures Acceptable(opts[i], values, convert) {
          assert front[i] == opts[i];
        }
      } else {
        var i :| 0 <= i < n && !Acceptable(front[i], values, convert);
        assert opts[i] == front[i];
      }
    }
  }

  lemma {:induction false} ResolveOkValues(values: map<string, Value>, opts: seq<Opt>, namespaces: seq<string>,
                                           convert: Converter)
    requires DistinctNames(opts) && forall i :: 0 <= i < |opts| ==> Acceptable(opts[i], values, convert)
    ensures var r := Resolve(values, opts, namespaces, convert);
            r.Ok? ==> forall i :: 0 <= i < |opts| ==>
              opts[i].name in r.value && r.value[opts[i].name] == Resolved(opts[i], values, convert)
    decreases |opts|
  {
    var r := Resolve(values, opts, namespaces, convert);
    if |opts| > 0 && r.Ok? {
      var n := |opts| - 1;
      var front, last := opts[..n], opts[n];
      assert DistinctNames(front);
      forall i | 0 <= i < n ensures Acceptable(front[i], values, convert) {
        assert front[i] == opts[i];
      }
      ResolveOkValues(values, front, namespaces, convert);
      ResolveKeepsOthers(values, front, namespaces, convert, last.name);
      forall i | 0 <= i < |opts|
        ensures opts[i].name in r.value && r.value[opts[i].name] == Resolved(opts[i], values, convert)
      {
        if i < n {
          assert front[i] == opts[i] && opts[i].name != last.name;
        }
      }
    }
  }

  /** With distinct names, the first option that is not acceptable decides
      the outcome: it is what that option raises on the merged values. */
  lemma ResolveFirstFailure(values: map<string, Value>, opts: seq<Opt>, namespaces: seq<string>,
                            convert: Converter, i: nat)
    requires DistinctNames(opts) && i < |opts|
    requires forall j :: 0 <= j < i ==> Acceptable(opts[j], values, convert)
    requires !Acceptable(opts[i], values, convert)
    ensures Check(opts[i], values, namespaces, convert).Err?
    ensures Resolve(values, opts, namespaces, convert) == Check(opts[i], values, namespaces, convert)
  {
    var front := opts[..i];
    assert DistinctNames(front);
    forall j | 0 <= j < i ensures Acceptable(front[j], values, convert) {
      assert front[j] == opts[j];
    }
    ResolveSucceeds(values, front, namespaces, convert);
    ResolveKeepsOthers(values, front, namespaces, convert, opts[i].name);
    ResolveSnoc(values, opts, i, namespaces, convert);
    ResolveStops(values, opts, i + 1, namespaces, convert);
  }

  /** `self.dynamic_namespaces()` as written: the base method is declared
      without `self`, so calling it on an instance raises TypeError. */
  const DynamicNamespacesAsWritten: Result<seq<string>> :=
    Err(TypeError("DataConsumer.dynamic_namespaces() takes 0 positional arguments but 1 was given"))

  /** As intended: no namespaces beyond the class's own. */
  const DynamicNamespacesIntended: Result<seq<string>> := Ok([])

  /** The values `to_xml_string` passes to `render`: the namespaces (the
      class's, then the dynamic ones), the options, the merge and the
      validation, each step raising what it raises. */
  function XmlValues(t: map<ClassId, ClassInfo>, registry: seq<(string, ClassId)>, c: ClassId,
                     dynamic: Result<seq<string>>, valuesFor: string -> map<string, Value>, convert: Converter)
    : (r: Result<map<string, Value>>)
    requires Ranked(t) && c in t
    ensures Namespaces(t, registry, c).Err? ==> r == Err(Namespaces(t, registry, c).error)
    ensures Namespaces(t, registry, c).Ok? && dynamic.Err? ==> r == Err(dynamic.error)
  {
    match Namespaces(t, registry, c)
    case Err(e) => Err(e)
    case Ok(own) =>
      match dynamic
      case Err(e) => Err(e)
      case Ok(extra) =>
        match Options(t, c)
        case Err(e) => Err(e)
        case Ok(opts) => Resolve(Merged(own + extra, valuesFor), opts, own + extra, convert)
  }

  /** As written, `to_xml_string` never gets past the namespaces: it
      raises TypeError whenever the class's namespaces can be listed. */
  lemma AsWrittenNeverRenders(t: map<ClassId, ClassInfo>, registry: seq<(string, ClassId)>, c: ClassId,
                              valuesFor: string -> map<string, Value>, convert: Converter)
    requires Ranked(t) && c in t
    ensures XmlValues(t, registry, c, DynamicNamespacesAsWritten, valuesFor, convert).Err?
    ensures Namespaces(t, registry, c).Ok? ==>
              XmlValues(t, registry, c, DynamicNamespacesAsWritten, valuesFor, convert).error.TypeError?
  {
  }

  /** As intended, a class whose namespaces and options can be listed, with
      distinct option names, gets its values exactly when every option is
      acceptable in the values merged over its own namespaces, and each
      option then has its resolved value. */
  lemma IntendedRenders(t: map<ClassId, ClassInfo>, registry: seq<(string, ClassId)>, c: ClassId,
                        valuesFor: string -> map<string, Value>, convert: Converter)
    requires Ranked(t) && c in t
    requires Namespaces(t, registry, c).Ok? && Options(t, c).Ok? && DistinctNames(Options(t, c).value)
    ensures var ns := Namespaces(t, registry, c).value;
            var opts := Options(t, c).value;
            var r := XmlValues(t, registry, c, DynamicNamespacesIntended, valuesFor, convert);
            && (r.Ok? <==> forall i :: 0 <= i < |opts| ==> Acceptable(opts[i], Merged(ns, valuesFor), convert))
            && (r.Ok? ==> forall i :: 0 <= i < |opts| ==>
                  opts[i].name in r.value && r.value[opts[i].name] == Resolved(opts[i], Merged(ns, valuesFor), convert))
  {
    var ns := Namespaces(t, registry, c).value;
    assert ns + [] == ns;
    ResolveSucceeds(Merged(ns, valuesFor), Options(t, c).value, ns, convert);
  }

  /** The base class with no data gets its three defaults. */
  lemma BaseDefaults(namespaces: seq<string>, convert: Converter)
    ensures Resolve(map[], BaseOptions.selfOpts, namespaces, convert)
         == Ok(map["scale" := VInt(15), "linewidth" := VInt(2), "color" := VStr("black")])
  {
    var opts := BaseOptions.selfOpts;
    var m0: map<string, Value> := map[];
    ResolveSnoc(m0, opts, 0, namespaces, convert);
    assert opts[..0] == [];
    var m1 := m0["scale" := VInt(15)];
    assert Resolve(m0, opts[..1], namespaces, convert) == Ok(m1);
    ResolveSnoc(m0, opts, 1, namespaces, convert);
    var m2 := m1["linewidth" := VInt(2)];
    assert Resolve(m0, opts[..2], namespaces, convert) == Ok(m2);
    ResolveSnoc(m0, opts, 2, namespaces, convert);
    assert opts[..3] == opts;
  }

  /** With the built-in types, a given value is refused only when it is
      outside the option's choices, or a string `float()` refuses for a
      float option: `str` and `bool` accept anything. */
  lemma AcceptableByType(opt: Opt, values: map<string, Value>, acceptsFloat: string -> bool,
                         floatNonZero: string -> bool)
    requires opt.kind.Typed? ==> opt.kind.typeName in {"str", "float", "bool"}
    ensures Acceptable(opt, values, TypeConverter(acceptsFloat, floatNonZero))
        <==> if opt.name !in values then opt.default.Some?
             else if opt.kind.Choices? then values[opt.name] in opt.kind.choices
             else !(opt.kind.typeName == "float" && values[opt.name].VStr? && !acceptsFloat(values[opt.name].s))
  {
    if opt.name in values && opt.kind.Typed? {
      CallRaises(opt.kind.typeName, values[opt.name], acceptsFloat, floatNonZero);
    }
  }

  /** A `scale` that is not a number raises DataTypeError, naming the last
      namespace and the value's repr. */
  lemma BaseScaleNotNumber(namespaces: seq<string>, text: string, acceptsFloat: string -> bool,
                           floatNonZero: string -> bool)
    requires |namespaces| > 0 && !acceptsFloat(text)
    ensures Resolve(map["scale" := VStr(text)], BaseOptions.selfOpts, namespaces, TypeConverter(acceptsFloat, floatNonZero))
         == Err(DataTypeError("option " + namespaces[|namespaces| - 1] + ".scale: invalid float value: '" + text + "'"))
  {
    var convert := TypeConverter(acceptsFloat, floatNonZero);
    var opts := BaseOptions.selfOpts;
    var values := map["scale" := VStr(text)];
    ScaleRefused(text, acceptsFloat, floatNonZero);
    ResolveFirstFailure(values, opts, namespaces, convert, 0);
    ScaleMessage(namespaces[|namespaces| - 1], text);
  }

  lemma ScaleRefused(text: string, acceptsFloat: string -> bool, floatNonZero: string -> bool)
    requires !acceptsFloat(text)
    ensures !Acceptable(BaseOptions.selfOpts[0], map["scale" := VStr(text)], TypeConverter(acceptsFloat, floatNonZero))
  {
    var convert := TypeConverter(acceptsFloat, floatNonZero);
    assert convert("float", VStr(text)) == Call("float", VStr(text), acceptsFloat, floatNonZero);
  }

  lemma ScaleMessage(ns: string, text: string)
    ensures TypeMessage(ns, BaseOptions.selfOpts[0], VStr(text)) == "option " + ns + ".scale: invalid float value: '" + text + "'"
  {
    ScaleMessageParts(ns, text);
    var a := "option " + ns + ".scale: invalid float value: ";
    assert a + ("'" + text + "'") == a + "'" + text + "'";
    assert a + "'" == "option " + ns + ".scale: invalid float value: '";
  }

  lemma ScaleMessageParts(ns: string, text: string)
    ensures TypeMessage(ns, BaseOptions.selfOpts[0], VStr(text)) == "option " + ns + ".scale: invalid float value: " + Repr(text)
  {
    var opt := BaseOptions.selfOpts[0];
    assert opt.name == "scale" && opt.kind.typeName == "float";
    var a := "option " + ns;
    assert a + "." + "scale" + ": invalid " + "float" + " value: " == a + ".scale: invalid float value: ";
  }

  /** No namespace is registered twice. */
  predicate DistinctKeys(registry: seq<(string, ClassId)>)
  {
    forall i, j :: 0 <= i < j < |registry| ==> registry[i].0 != registry[j].0
  }

  /** The class a registered namespace maps to. */
  function Lookup(registry: seq<(string, ClassId)>, x: string): (c: ClassId)
    requires Registered(registry, x)
    ensures exists i :: 0 <= i < |registry| && registry[i] == (x, c)
  {
    var n := |registry| - 1;
    if registry[n].0 == x then registry[n].1
    else
      var i :| 0 <= i < |registry| && registry[i].0 == x;
      assert registry[..n][i] == registry[i];
      var c := Lookup(registry[..n], x);
      var k :| 0 <= k < n && registry[..n][k] == (x, c);
      assert registry[k] == (x, c);
      c
  }

  /** `f"{cls}"` for a class. */
  function ClassText(t: map<ClassId, ClassInfo>, c: ClassId): string
  {
    "<class '" + (if c in t then t[c].name else "") + "'>"
  }

  /** The registry and the class table. */
  datatype Consumers = Consumers(registry: seq<(string, ClassId)>, classes: map<ClassId, ClassInfo>)

  /** `cls2` with `inherit_from` set to its bases, when it was not set and
      the class is a consumer. */
  function WithInheritFrom(t: map<ClassId, ClassInfo>, c: ClassId): map<ClassId, ClassInfo>
    requires c in t
  {
    var info := t[c];
    if info.options.inheritFrom.None? && info.isConsumer then
      t[c := info.(options := info.options.(inheritFrom := Some(info.bases)))]
    else t
  }

  /** `cls.register(namespace)(cls2)`: the empty namespace stands for a
      falsy one (None or ""), which registers nothing. A namespace already
      taken raises ValueError before anything changes; otherwise the
      namespace maps to `cls2` and its `inherit_from` defaults to its bases. */
  function Registration(s: Consumers, c: ClassId, namespace: string): (r: (Consumers, Option<Error>))
    requires c in s.classes
  {
    if namespace != "" && Registered(s.registry, namespace) then
      (s, Some(ValueError(namespace + " already registered as " + ClassText(s.classes, Lookup(s.registry, namespace)))))
    else
      var registry := if namespace != "" then s.registry + [(namespace, c)] else s.registry;
      (Consumers(registry, WithInheritFrom(s.classes, c)), None)
  }

  /** A registry and class table the program can reach. */
  predicate Valid(s: Consumers)
  {
    Ranked(s.classes) && DistinctKeys(s.registry)
  }

  /** Registering keeps the hierarchy well formed and no namespace doubled,
      and fails exactly on a namespace already taken. */
  lemma RegisterValid(s: Consumers, c: ClassId, namespace: string)
    requires Valid(s) && c in s.classes
    ensures Valid(Registration(s, c, namespace).0)
    ensures Registration(s, c, namespace).1.Some? <==> namespace != "" && Registered(s.registry, namespace)
    ensures Registration(s, c, namespace).1.Some? ==> Registration(s, c, namespace).0 == s
  {
    if !(namespace != "" && Registered(s.registry, namespace)) {
      WithInheritFromRanked(s.classes, c);
      if namespace != "" {
        AppendKeyDistinct(s.registry, namespace, c);
      }
    }
  }

  /** Setting `inherit_from` to the bases keeps the hierarchy ranked. */
  lemma WithInheritFromRanked(t: map<ClassId, ClassInfo>, c: ClassId)
    requires Ranked(t) && c in t
    ensures Ranked(WithInheritFrom(t, c))
  {
    var t2 := WithInheritFrom(t, c);
    assert t2.Keys == t.Keys;
    forall d | d in t2
      ensures t2[d].bases == t[d].bases && t2[d].rank == t[d].rank
      ensures t2[d].options.inheritFrom.Some? ==>
                t2[d].options.inheritFrom == t[d].options.inheritFrom || t2[d].options.inheritFrom == Some(t[d].bases)
    {
    }
  }

  /** Adding a namespace not yet registered keeps the keys distinct. */
  lemma AppendKeyDistinct(registry: seq<(string, ClassId)>, x: string, c: ClassId)
    requires DistinctKeys(registry) && !Registered(registry, x)
    ensures DistinctKeys(registry + [(x, c)])
  {
    var r := registry + [(x, c)];
    forall i, j | 0 <= i < j < |r| ensures r[i].0 != r[j].0 {
      assert r[i] == registry[i];
      if j == |registry| {
        assert r[j].0 == x;
      }
    }
  }

  /** After a successful registration the class has the new namespace last
      among its own, and no other class's own namespaces change. */
  lemma RegisterOwn(s: Consumers, c: ClassId, namespace: string, d: ClassId)
    requires c in s.classes && namespace != ""
    requires Registration(s, c, namespace).1.None?
    ensures Own(Registration(s, c, namespace).0.registry, d) == Own(s.registry, d) + (if d == c then [namespace] else [])
  {
    var r := s.registry + [(namespace, c)];
    assert r[..|r| - 1] == s.registry;
  }

  /** `DataConsumer.registry` with the class table, changed in place by
      registration. */
  class Registry {
    var registry: seq<(string, ClassId)>
    var classes: map<ClassId, ClassInfo>

    ghost predicate Inv()
      reads this
    {
      Valid(Consumers(registry, classes))
    }

    constructor (classes: map<ClassId, ClassInfo>)
      requires Ranked(classes)
      ensures Inv() && registry == [] && this.classes == classes
    {
      registry := [];
      this.classes := classes;
    }

    /** `cls.register(namespace)` applied to `cls2`. */
    method Register(cls2: ClassId, namespace: string) returns (err: Option<Error>)
      requires Inv() && cls2 in classes
      modifies this
      ensures Inv()
      ensures (Consumers(registry, classes), err) == Registration(old(Consumers(registry, classes)), cls2, namespace)
    {
      ghost var target := Registration(Consumers(registry, classes), cls2, namespace);
      RegisterValid(Consumers(registry, classes), cls2, namespace);
      if namespace != "" {
        if Registered(registry, namespace) {
          var owner := Lookup(registry, namespace);
          return Some(ValueError(namespace + " already registered as " + ClassText(classes, owner)));
        }
        registry := registry + [(namespace, cls2)];
      }
      var info := classes[cls2];
      if info.options.inheritFrom.None? && info.isConsumer {
        classes := classes[cls2 := info.(options := info.options.(inheritFrom := Some(info.bases)))];
      }
      assert Consumers(registry, classes) == target.0;
      return None;
    }
  }
}
