/** What a `class` statement does with its keyword arguments: Python passes
    them to the nearest `__init_subclass__` of the new class's bases, and
    that call raising TypeError makes the class statement (and the import of
    its module) fail. This decides whether the consumer classes of
    schemascii/annotation.py and schemascii/annoline.py, and the component
    kinds of schemascii/components/__init__.py, come to exist at all. */
module ClassStatements {
  import opened Base
  import opened Text
  import DataConsumers
  import ComponentKinds
  import Components

  /** A parameter of an `__init_subclass__` after `cls`, and whether it has
      a default. */
  datatype Param = Param(name: string, hasDefault: bool)

  /** The `__init_subclass__` a class statement reaches: `object`'s, which
      takes no keyword arguments, or one defined in a base with these
      parameters. */
  datatype Hook = ObjectHook | Defined(params: seq<Param>)

  /** Some parameter is called k. */
  predicate Declares(ps: seq<Param>, k: string)
  {
    exists i :: 0 <= i < |ps| && ps[i].name == k
  }

  /** The keywords fit the hook: none for `object`'s; otherwise each names
      a parameter, and each parameter without a default is given. */
  predicate Accepts(hook: Hook, keywords: seq<string>)
  {
    match hook
    case ObjectHook => |keywords| == 0
    case Defined(ps) =>
      && (forall k :: 0 <= k < |keywords| ==> Declares(ps, keywords[k]))
      && (forall i :: 0 <= i < |ps| ==> ps[i].hasDefault || ps[i].name in keywords)
  }

  /** The first keyword that names no parameter. */
  function FirstUnexpected(ps: seq<Param>, keywords: seq<string>): (r: Option<string>)
    ensures r.None? <==> forall k :: 0 <= k < |keywords| ==> Declares(ps, keywords[k])
    ensures r.Some? ==> r.value in keywords && !Declares(ps, r.value)
    decreases |keywords|
  {
    if |keywords| == 0 then None
    else if !Declares(ps, keywords[0]) then Some(keywords[0])
    else
      var r := FirstUnexpected(ps, keywords[1..]);
      assert forall k :: 1 <= k < |keywords| ==> keywords[k] == keywords[1..][k - 1];
      r
  }

  /** The first parameter without a default that no keyword gives. */
  function FirstMissing(ps: seq<Param>, keywords: seq<string>): (r: Option<string>)
    ensures r.None? <==> forall i :: 0 <= i < |ps| ==> ps[i].hasDefault || ps[i].name in keywords
    ensures r.Some? ==> r.value !in keywords && exists i :: 0 <= i < |ps| && ps[i] == Param(r.value, false)
    decreases |ps|
  {
    if |ps| == 0 then None
    else if !ps[0].hasDefault && ps[0].name !in keywords then Some(ps[0].name)
    else
      var r := FirstMissing(ps[1..], keywords);
      assert forall i :: 1 <= i < |ps| ==> ps[i] == ps[1..][i - 1];
      r
  }

  /** The call of the hook with the class keywords: a TypeError exactly when
      they do not fit it. */
  function InitSubclass(hook: Hook, keywords: seq<string>): (r: Option<Error>)
    ensures r.None? <==> Accepts(hook, keywords)
    ensures r.Some? ==> r.value.TypeError?
  {
    match hook
    case ObjectHook =>
      if |keywords| > 0 then Some(TypeError("__init_subclass__() takes no keyword arguments")) else None
    case Defined(ps) =>
      match FirstUnexpected(ps, keywords)
      case Some(k) => Some(TypeError("__init_subclass__() got an unexpected keyword argument " + Repr(k)))
      case None =>
        match FirstMissing(ps, keywords)
        case Some(p) => Some(TypeError("__init_subclass__() missing 1 required positional argument: " + Repr(p)))
        case None => None
  }

  // ------------------------------------------------------------ consumers

  /** No class from `DataConsumer` up to `object` defines
      `__init_subclass__` (data_consumer.py:36-158, whose base is
      `abc.ABC`). */
  const ConsumerHook: Hook := ObjectHook

  /** The evidently intended hook: an optional `namespaces` tuple under
      which the class is registered. */
  const ConsumerHookIntended: Hook := Defined([Param("namespaces", true)])

  /** `cls.register(ns)(cls)` for each namespace in turn, stopping at the
      first that raises. */
  function RegisterNamespaces(s: DataConsumers.Consumers, c: DataConsumers.ClassId, namespaces: seq<string>)
    : (r: (DataConsumers.Consumers, Option<Error>))
    requires c in s.classes
    decreases |namespaces|
  {
    if |namespaces| == 0 then (s, None)
    else
      var (s1, err) := DataConsumers.Registration(s, c, namespaces[0]);
      if err.Some? then (s1, err)
      else RegisterNamespaces(s1, c, namespaces[1..])
  }

  /** `class C(..., namespaces=ns)` for a consumer class c (ns None: no
      keyword): the hook's TypeError, with nothing registered, or the
      namespaces registered. */
  function ConsumerClassStatement(hook: Hook, s: DataConsumers.Consumers, c: DataConsumers.ClassId,
                                  namespaces: Option<seq<string>>): (r: (DataConsumers.Consumers, Option<Error>))
    requires c in s.classes
    ensures !Accepts(hook, if namespaces.Some? then ["namespaces"] else []) ==> r.0 == s && r.1.Some? && r.1.value.TypeError?
  {
    match InitSubclass(hook, if namespaces.Some? then ["namespaces"] else [])
    case Some(e) => (s, Some(e))
    case None => RegisterNamespaces(s, c, if namespaces.Some? then namespaces.value else [])
  }

  /** As written, `class Annotation(DataConsumer, namespaces=(":annotation",))`
      raises TypeError and registers nothing. */
  lemma AnnotationClassRaises(s: DataConsumers.Consumers, c: DataConsumers.ClassId)
    requires c in s.classes
    ensures var r := ConsumerClassStatement(ConsumerHook, s, c, Some([":annotation"]));
            r.0 == s && r.1 == Some(TypeError("__init_subclass__() takes no keyword arguments"))
  {
  }

  /** As written, `class AnnotationLine(DataConsumer, namespaces=(":annotation",
      ":annotation-line"))` raises TypeError and registers nothing. */
  lemma AnnotationLineClassRaises(s: DataConsumers.Consumers, c: DataConsumers.ClassId)
    requires c in s.classes
    ensures var r := ConsumerClassStatement(ConsumerHook, s, c, Some([":annotation", ":annotation-line"]));
            r.0 == s && r.1 == Some(TypeError("__init_subclass__() takes no keyword arguments"))
  {
  }

  /** One more namespace registered: the keys are the old ones and it. */
  lemma RegisteredSnoc(registry: seq<(string, DataConsumers.ClassId)>, x: string, c: DataConsumers.ClassId, y: string)
    ensures DataConsumers.Registered(registry + [(x, c)], y) <==> DataConsumers.Registered(registry, y) || y == x
  {
    var r := registry + [(x, c)];
    if DataConsumers.Registered(registry, y) {
      var i :| 0 <= i < |registry| && registry[i].0 == y;
      assert r[i] == registry[i];
    }
    if y == x {
      assert r[|registry|].0 == y;
    }
    if DataConsumers.Registered(r, y) {
      var i :| 0 <= i < |r| && r[i].0 == y;
      if i < |registry| {
        assert registry[i] == r[i];
      }
    }
  }

  /** Registering non-empty namespaces keeps the registry well formed; it
      succeeds exactly when they are distinct and none is taken, and then
      they are added, in order, to the class's own namespaces. */
  lemma {:induction false} RegisterNamespacesSpec(s: DataConsumers.Consumers, c: DataConsumers.ClassId, ns: seq<string>)
    requires DataConsumers.Valid(s) && c in s.classes
    requires forall k :: 0 <= k < |ns| ==> ns[k] != ""
    ensures var r := RegisterNamespaces(s, c, ns);
            && DataConsumers.Valid(r.0)
            && (r.1.None? <==> Fresh(s.registry, ns))
            && (r.1.None? ==> DataConsumers.Own(r.0.registry, c) == DataConsumers.Own(s.registry, c) + ns)
    decreases |ns|
  {
    if |ns| > 0 {
      var x := ns[0];
      DataConsumers.RegisterValid(s, c, x);
      FreshSplit(s.registry, c, ns);
      if !DataConsumers.Registered(s.registry, x) {
        RegisterRest(s, c, ns);
      }
    }
  }

  /** The namespaces are distinct and none is registered yet. */
  predicate Fresh(registry: seq<(string, DataConsumers.ClassId)>, ns: seq<string>)
  {
    Distinct(ns) && forall k :: 0 <= k < |ns| ==> !DataConsumers.Registered(registry, ns[k])
  }

  /** The induction step of RegisterNamespacesSpec after the first
      namespace is registered. */
  lemma {:induction false} RegisterRest(s: DataConsumers.Consumers, c: DataConsumers.ClassId, ns: seq<string>)
    requires DataConsumers.Valid(s) && c in s.classes && |ns| > 0
    requires forall k :: 0 <= k < |ns| ==> ns[k] != ""
    requires !DataConsumers.Registered(s.registry, ns[0])
    ensures var r := RegisterNamespaces(s, c, ns);
            && DataConsumers.Valid(r.0)
            && (r.1.None? <==> Fresh(s.registry + [(ns[0], c)], ns[1..]))
            && (r.1.None? ==> DataConsumers.Own(r.0.registry, c) == DataConsumers.Own(s.registry, c) + ns)
    decreases |ns|, 0
  {
    var x, rest := ns[0], ns[1..];
    DataConsumers.RegisterValid(s, c, x);
    var s1 := DataConsumers.Registration(s, c, x).0;
    assert s1.registry == s.registry + [(x, c)];
    assert c in s1.classes;
    assert RegisterNamespaces(s, c, ns) == RegisterNamespaces(s1, c, rest);
    assert forall k :: 0 <= k < |rest| ==> rest[k] != "" by {
      forall k | 0 <= k < |rest| ensures rest[k] != "" {
        assert rest[k] == ns[k + 1];
      }
    }
    RegisterNamespacesSpec(s1, c, rest);
    DataConsumers.RegisterOwn(s, c, x, c);
    ConsSplit(DataConsumers.Own(s.registry, c), ns);
  }

  /** Appending the head, then the tail, appends the whole. */
  lemma ConsSplit(o: seq<string>, ns: seq<string>)
    requires |ns| > 0
    ensures o + [ns[0]] + ns[1..] == o + ns
  {
    assert ns == [ns[0]] + ns[1..];
  }

  /** The first namespace is fresh and the rest are fresh after it is
      registered, exactly when all are fresh. */
  lemma FreshSplit(registry: seq<(string, DataConsumers.ClassId)>, c: DataConsumers.ClassId, ns: seq<string>)
    requires |ns| > 0
    ensures Fresh(registry, ns) <==> !DataConsumers.Registered(registry, ns[0]) && Fresh(registry + [(ns[0], c)], ns[1..])
  {
    var x, rest := ns[0], ns[1..];
    forall k | 0 <= k < |rest|
      ensures DataConsumers.Registered(registry + [(x, c)], rest[k])
              <==> DataConsumers.Registered(registry, rest[k]) || rest[k] == x
    {
      RegisteredSnoc(registry, x, c, rest[k]);
    }
    assert forall k :: 0 <= k < |rest| ==> rest[k] == ns[k + 1];
    if Fresh(registry, ns) {
      assert !DataConsumers.Registered(registry, ns[0]);
      forall i, j | 0 <= i < j < |rest| ensures rest[i] != rest[j] {
        assert ns[i + 1] != ns[j + 1];
      }
      forall k | 0 <= k < |rest| ensures rest[k] != x {
        assert ns[0] != ns[k + 1];
      }
    }
    if !DataConsumers.Registered(registry, ns[0]) && Fresh(registry + [(ns[0], c)], ns[1..]) {
      forall i, j | 0 <= i < j < |ns| ensures ns[i] != ns[j] {
        if i > 0 {
          assert rest[i - 1] != rest[j - 1];
        } else {
          assert ns[j] == rest[j - 1];
        }
      }
      forall k | 0 <= k < |ns| ensures !DataConsumers.Registered(registry, ns[k]) {
        if k > 0 {
          assert ns[k] == rest[k - 1];
        }
      }
    }
  }

  /** As intended, the keyword registers the class under its namespaces,
      with the outcome RegisterNamespacesSpec describes; no keyword
      registers nothing. */
  lemma ConsumerClassIntended(s: DataConsumers.Consumers, c: DataConsumers.ClassId, ns: seq<string>)
    requires c in s.classes
    ensures ConsumerClassStatement(ConsumerHookIntended, s, c, Some(ns)) == RegisterNamespaces(s, c, ns)
    ensures ConsumerClassStatement(ConsumerHookIntended, s, c, None) == (s, None)
  {
    var ps := ConsumerHookIntended.params;
    assert ps[0].name == "namespaces";
    assert Declares(ps, "namespaces");
    assert Accepts(ConsumerHookIntended, ["namespaces"]);
  }

  // ----------------------------------------------------------- components

  /** `Component.__init_subclass__(cls, names)` (component.py:89): `names`
      has no default. */
  const ComponentHook: Hook := Defined([Param("names", false)])

  /** The evidently intended hook: a helper base such as
      `NTerminalComponent` may leave out `names` and registers nothing. */
  const ComponentHookIntended: Hook := Defined([Param("names", true)])

  /** `class K(Component-subclass, names=ns)` for kind k (ns None: no
      keyword): the hook's TypeError with the registry unchanged, or the
      letters registered as `Components.RegisterAll` does. */
  function ComponentClassStatement(hook: Hook, entries: map<string, ComponentKinds.ComponentClass>,
                                   names: Option<seq<string>>, kind: ComponentKinds.ComponentClass)
    : (r: (map<string, ComponentKinds.ComponentClass>, Option<Error>))
    ensures !Accepts(hook, if names.Some? then ["names"] else []) ==> r.0 == entries && r.1.Some? && r.1.value.TypeError?
  {
    match InitSubclass(hook, if names.Some? then ["names"] else [])
    case Some(e) => (entries, Some(e))
    case None => Components.RegisterAll(entries, if names.Some? then names.value else [], kind)
  }

  /** As written, `class NTerminalComponent(Component)` (no `names=`)
      raises TypeError, and so no later class of that file is defined. */
  lemma NTerminalClassRaises(entries: map<string, ComponentKinds.ComponentClass>, kind: ComponentKinds.ComponentClass)
    ensures var r := ComponentClassStatement(ComponentHook, entries, None, kind);
            r.0 == entries && r.1 == Some(TypeError("__init_subclass__() missing 1 required positional argument: " + Repr("names")))
  {
    var ps := ComponentHook.params;
    assert ps[0] == Param("names", false);
    assert FirstUnexpected(ps, []) == None;
    assert FirstMissing(ps, []) == Some("names");
  }

  /** As intended, leaving `names` out registers nothing and raises
      nothing, and giving it registers the letters exactly as the written
      hook does. */
  lemma ComponentClassIntended(entries: map<string, ComponentKinds.ComponentClass>, names: seq<string>,
                               kind: ComponentKinds.ComponentClass)
    ensures ComponentClassStatement(ComponentHookIntended, entries, None, kind) == (entries, None)
    ensures ComponentClassStatement(ComponentHookIntended, entries, Some(names), kind)
         == ComponentClassStatement(ComponentHook, entries, Some(names), kind)
         == Components.RegisterAll(entries, names, kind)
  {
    var ps, qs := ComponentHookIntended.params, ComponentHook.params;
    assert ps[0].name == "names" && qs[0].name == "names";
    assert Declares(ps, "names") && Declares(qs, "names");
    assert Accepts(ComponentHook, ["names"]);
  }
}
