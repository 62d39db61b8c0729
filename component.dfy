/** Components (schemascii/component.py): the registry of component classes
    by designator letters, and `Component.from_rd`, which finds the blobs of
    `#` cells around a designator and the terminals where wires meet them. */
module Components {
  import opened Base
  import opened Text
  import opened Geometry
  import opened Grids
  import opened Flood
  import opened Utils
  import opened Refdes
  import opened ComponentKinds
  import opened Wires

  /** Letters a component class may register: non-empty, alphabetic and
      already upper case (`name.isalpha() and name.upper() == name`). */
  predicate ValidLetters(name: string)
  {
    |name| > 0 && forall k :: 0 <= k < |name| ==> IsUpper(name[k])
  }

  /** What registering `names` for class `kind` leaves in the registry, and
      the error raised, if any. Names are handled in order; a bad name raises
      ValueError and the names before it stay registered. */
  function RegisterAll(entries: map<string, ComponentClass>, names: seq<string>, kind: ComponentClass): (r: (map<string, ComponentClass>, Option<Error>))
    decreases |names|
  {
    if |names| == 0 then (entries, None)
    else if !ValidLetters(names[0]) then
      (entries, Some(ValueError("invalid reference designator letters: " + Repr(names[0]))))
    else if names[0] in entries then
      (entries, Some(ValueError("duplicate reference designator letters: " + Repr(names[0]))))
    else RegisterAll(entries[names[0] := kind], names[1..], kind)
  }

  /** Every name of the list is valid, not registered yet, and listed once. */
  predicate AllNew(entries: map<string, ComponentClass>, names: seq<string>)
  {
    (forall k :: 0 <= k < |names| ==> ValidLetters(names[k]) && names[k] !in entries) && Distinct(names)
  }

  lemma AllNewCons(entries: map<string, ComponentClass>, names: seq<string>, kind: ComponentClass)
    requires |names| > 0 && ValidLetters(names[0]) && names[0] !in entries
    ensures AllNew(entries[names[0] := kind], names[1..]) <==> AllNew(entries, names)
  {
    var rest := names[1..];
    assert forall k :: 0 <= k < |rest| ==> rest[k] == names[k + 1];
    if AllNew(entries[names[0] := kind], rest) {
      forall i, j | 0 <= i < j < |names| ensures names[i] != names[j] {
        if i > 0 {
          assert names[i] == rest[i - 1] && names[j] == rest[j - 1];
        }
      }
    }
  }

  /** Registration succeeds exactly when every name is valid, new, and not
      repeated, and then maps each name to the class and keeps the rest. */
  lemma {:induction false} RegisterAllSucceeds(entries: map<string, ComponentClass>, names: seq<string>, kind: ComponentClass)
    ensures RegisterAll(entries, names, kind).1.None? <==> AllNew(entries, names)
    ensures RegisterAll(entries, names, kind).1.None? ==>
      RegisterAll(entries, names, kind).0 == entries + map n | n in names :: kind
    decreases |names|
  {
    if |names| > 0 && ValidLetters(names[0]) && names[0] !in entries {
      var rest := names[1..];
      RegisterAllSucceeds(entries[names[0] := kind], rest, kind);
      AllNewCons(entries, names, kind);
      MapOfCons(entries, names, kind);
    }
  }

  lemma MapOfCons(entries: map<string, ComponentClass>, names: seq<string>, kind: ComponentClass)
    requires |names| > 0
    ensures entries[names[0] := kind] + (map n | n in names[1..] :: kind) == entries + map n | n in names :: kind
  {
    assert forall n :: n in names <==> n == names[0] || n in names[1..] by {
      assert names == [names[0]] + names[1..];
    }
  }

  /** Registration only adds: every earlier entry stays as it was, a new
      key is a name of the list mapped to the class, and the only error is
      ValueError — also when it fails part way, with the names before the
      bad one left registered. */
  lemma {:induction false} RegisterAllKeeps(entries: map<string, ComponentClass>, names: seq<string>, kind: ComponentClass)
    ensures var (e, err) := RegisterAll(entries, names, kind);
      && (err.Some? ==> err.value.ValueError?)
      && (forall n :: n in entries ==> n in e && e[n] == entries[n])
      && (forall n :: n in e ==> n in entries || (n in names && e[n] == kind))
    decreases |names|
  {
    if |names| > 0 && ValidLetters(names[0]) && names[0] !in entries {
      RegisterAllKeeps(entries[names[0] := kind], names[1..], kind);
      assert forall n :: n in names[1..] ==> n in names;
    }
  }

  /** `Component.all_components`, the registry every component class adds
      itself to. */
  class Registry {
    var entries: map<string, ComponentClass>

    constructor ()
      ensures entries == map[]
    {
      entries := map[];
    }

    /** `__init_subclass__(names)` of class `kind`: add the names one by one,
        raising ValueError at the first invalid or already-registered one. */
    method Register(names: seq<string>, kind: ComponentClass) returns (err: Option<Error>)
      modifies this
      ensures (entries, err) == RegisterAll(old(entries), names, kind)
    {
      var i := 0;
      while i < |names|
        invariant 0 <= i <= |names|
        invariant RegisterAll(entries, names[i..], kind) == RegisterAll(old(entries), names, kind)
      {
        var name := names[i];
        assert names[i..][1..] == names[i + 1..];
        if !ValidLetters(name) {
          return Some(ValueError("invalid reference designator letters: " + Repr(name)));
        }
        if name in entries {
          return Some(ValueError("duplicate reference designator letters: " + Repr(name)));
        }
        entries := entries[name := kind];
        i := i + 1;
      }
      return None;
    }
  }

  /** The class `from_rd` builds: the one registered under exactly the
      designator's letters, else the class it was called on. */
  function ChooseClass(entries: map<string, ComponentClass>, letter: string, caller: ComponentClass): (k: ComponentClass)
    ensures letter in entries ==> k == entries[letter]
    ensures letter !in entries ==> k == caller
  {
    if letter in entries then entries[letter] else caller
  }

  /** `iterate_line(p1, p2)` along a row: the points from p1 to p2 inclusive. */
  function IterateLine(p1: Point, p2: Point): (r: seq<Point>)
    requires p1.y == p2.y && p1.x <= p2.x
    ensures |r| == p2.x - p1.x + 1 && r[0] == p1
    ensures forall k :: 0 <= k < |r| ==> r[k] == Point(p1.x + k, p1.y)
  {
    seq(p2.x - p1.x + 1, k requires 0 <= k <= p2.x - p1.x => Point(p1.x + k, p1.y))
  }

  /** The walk tables of the main blob: any seed may step orthogonally, and
      only `#` continues, again orthogonally (`EVERYWHERE`). */
  const OrthTables: WalkTables := WalkTables(c => Orthogonal, (c, v) => if c == '#' then Orthogonal else [])

  /** The walk tables of an auxiliary blob: the same with all eight neighbours. */
  const MooreTables: WalkTables := WalkTables(c => Moore, (c, v) => if c == '#' then Moore else [])

  /** The main blob: every designator cell, and the `#` cells reached from
      them by orthogonal steps through `#` cells, each once; no `#` cell next
      to it is left out. */
  ghost predicate MainBlob(data: seq<string>, masks: seq<seq<Mask>>, span: seq<Point>, blob: seq<Point>)
  {
    && Distinct(blob)
    && (forall p :: p in span ==> p in blob)
    && (forall i :: 0 <= i < |blob| ==>
          blob[i] in span || (Look(data, masks, blob[i]) == '#' && exists j :: 0 <= j < i && Diff(blob[j], blob[i]) in Orthogonal))
    && (forall i, d :: 0 <= i < |blob| && d in Orthogonal ==>
          blob[i].Add(d) in blob || Look(data, masks, blob[i].Add(d)) != '#')
  }

  /** An auxiliary blob: it starts at an unseen `#` cell diagonal to a
      perimeter cell of the main blob, and grows through `#` cells by any of
      the eight steps, up to cells seen before. */
  ghost predicate AuxBlob(data: seq<string>, masks: seq<seq<Mask>>, perim: seq<Point>, before: set<Point>, blob: seq<Point>)
  {
    && Distinct(blob) && blob != []
    && (forall p :: p in blob ==> p !in before)
    && Look(data, masks, blob[0]) == '#'
    && (exists k, d :: 0 <= k < |perim| && d in Diagonal && blob[0] == perim[k].Add(d))
    && (forall i :: 1 <= i < |blob| ==>
          Look(data, masks, blob[i]) == '#' && exists j :: 0 <= j < i && Diff(blob[j], blob[i]) in Moore)
    && (forall i, d :: 0 <= i < |blob| && d in Moore ==>
          blob[i].Add(d) in before || blob[i].Add(d) in blob || Look(data, masks, blob[i].Add(d)) != '#')
  }

  /** The main blob walk ends with the main blob. */
  method MainWalk(g: Grid, span: seq<Point>) returns (blob: seq<Point>, seen: set<Point>)
    requires g.Valid()
    ensures MainBlob(g.data, g.masks, span, blob) && seen == Elements(blob)
  {
    ghost var dirsOf;
    assert StopsAtBlank(OrthTables) by {
      forall d: Point ensures OrthTables.next(' ', d) == [] { }
    }
    blob, seen, dirsOf := FloodWalk(g, span, OrthTables, {});
    TracedSteps(g.data, g.masks, OrthTables, span, blob, dirsOf);
    assert forall c :: OrthTables.start(c) == Orthogonal;
    assert forall c, v :: OrthTables.next(c, v) == [] || OrthTables.next(c, v) == Orthogonal;
    TracedDirsConst(g.data, g.masks, OrthTables, span, blob, dirsOf, Orthogonal);
    forall i | 0 <= i < |blob| && blob[i] !in span
      ensures Look(g.data, g.masks, blob[i]) == '#' && exists j :: 0 <= j < i && Diff(blob[j], blob[i]) in Orthogonal
    {
      var j :| 0 <= j < i && Diff(blob[j], blob[i]) in dirsOf[j]
        && OrthTables.next(Look(g.data, g.masks, blob[i]), Diff(blob[j], blob[i])) != [];
    }
    forall p | p in span ensures p in blob {
      var k :| 0 <= k < |span| && span[k] == p;
    }
    forall i, d | 0 <= i < |blob| && d in Orthogonal
      ensures blob[i].Add(d) in blob || Look(g.data, g.masks, blob[i].Add(d)) != '#'
    {
      assert d in dirsOf[i];
    }
  }

  /** One auxiliary blob walk from `start`, an unseen `#` cell. */
  method AuxWalk(g: Grid, start: Point, seen0: set<Point>) returns (blob: seq<Point>, seen: set<Point>)
    requires g.Valid() && start !in seen0 && Look(g.data, g.masks, start) == '#'
    ensures seen == seen0 + Elements(blob) && blob != [] && blob[0] == start && Distinct(blob)
    ensures forall p :: p in blob ==> p !in seen0
    ensures forall i :: 1 <= i < |blob| ==>
      Look(g.data, g.masks, blob[i]) == '#' && exists j :: 0 <= j < i && Diff(blob[j], blob[i]) in Moore
    ensures forall i, d :: 0 <= i < |blob| && d in Moore ==> blob[i].Add(d) in seen || Look(g.data, g.masks, blob[i].Add(d)) != '#'
  {
    ghost var dirsOf;
    assert StopsAtBlank(MooreTables) by {
      forall d: Point ensures MooreTables.next(' ', d) == [] { }
    }
    blob, seen, dirsOf := FloodWalk(g, [start], MooreTables, seen0);
    assert [start][0] == start && MooreTables.start(Look(g.data, g.masks, start)) != [];
    TracedSteps(g.data, g.masks, MooreTables, [start], blob, dirsOf);
    assert forall c :: MooreTables.start(c) == Moore;
    assert forall c, v :: MooreTables.next(c, v) == [] || MooreTables.next(c, v) == Moore;
    TracedDirsConst(g.data, g.masks, MooreTables, [start], blob, dirsOf, Moore);
    forall i | 1 <= i < |blob|
      ensures Look(g.data, g.masks, blob[i]) == '#' && exists j :: 0 <= j < i && Diff(blob[j], blob[i]) in Moore
    {
      assert blob[i] != blob[0];
      var j :| 0 <= j < i && Diff(blob[j], blob[i]) in dirsOf[j]
        && MooreTables.next(Look(g.data, g.masks, blob[i]), Diff(blob[j], blob[i])) != [];
    }
    forall i, d | 0 <= i < |blob| && d in Moore
      ensures blob[i].Add(d) in seen || Look(g.data, g.masks, blob[i].Add(d)) != '#'
    {
      assert d in dirsOf[i];
    }
  }

  /** The blobs after the first are auxiliary blobs around `perim`, each
      apart from all the blobs before it. */
  ghost predicate AuxBlobs(data: seq<string>, masks: seq<seq<Mask>>, perim: seq<Point>, blobs: seq<seq<Point>>)
  {
    forall k :: 1 <= k < |blobs| ==> AuxBlob(data, masks, perim, Union(blobs[..k]), blobs[k])
  }

  /** The blobs `from_rd` finds: the main one first, then auxiliary ones
      around its perimeter. */
  ghost predicate BlobsFound(data: seq<string>, masks: seq<seq<Mask>>, span: seq<Point>, blobs: seq<seq<Point>>)
  {
    && |blobs| >= 1
    && MainBlob(data, masks, span, blobs[0])
    && AuxBlobs(data, masks, Perimeter(blobs[0]), blobs)
  }

  lemma AuxBlobsSnoc(data: seq<string>, masks: seq<seq<Mask>>, perim: seq<Point>, blobs: seq<seq<Point>>, blob: seq<Point>)
    requires AuxBlobs(data, masks, perim, blobs)
    requires AuxBlob(data, masks, perim, Union(blobs), blob)
    ensures AuxBlobs(data, masks, perim, blobs + [blob])
  {
    var blobs' := blobs + [blob];
    forall k | 1 <= k < |blobs'|
      ensures AuxBlob(data, masks, perim, Union(blobs'[..k]), blobs'[k])
    {
      if k < |blobs| {
        assert blobs'[..k] == blobs[..k] && blobs'[k] == blobs[k];
      } else {
        assert blobs'[..k] == blobs;
      }
    }
  }

  /** The blob search of `from_rd`: the main blob from the designator's
      span, then one auxiliary blob per unseen `#` cell diagonal to a
      perimeter cell of the main blob, all sharing one `seen` set. */
  method FindBlobs(g: Grid, span: seq<Point>) returns (blobs: seq<seq<Point>>, seen: set<Point>)
    requires g.Valid()
    ensures BlobsFound(g.data, g.masks, span, blobs) && seen == Union(blobs)
  {
    var main;
    main, seen := MainWalk(g, span);
    blobs := [main];
    assert Union(blobs) == Union(blobs[..0]) + Elements(main);
    var perim := Perimeter(main);
    var i := 0;
    while i < |perim|
      invariant 0 <= i <= |perim|
      invariant |blobs| >= 1 && blobs[0] == main && AuxBlobs(g.data, g.masks, perim, blobs) && seen == Union(blobs)
    {
      blobs, seen := AuxAround(g, perim, i, blobs, seen);
      i := i + 1;
    }
  }

  /** The auxiliary blobs started diagonally from perimeter cell i. */
  method AuxAround(g: Grid, perim: seq<Point>, i: int, blobs0: seq<seq<Point>>, seen0: set<Point>)
    returns (blobs: seq<seq<Point>>, seen: set<Point>)
    requires g.Valid() && 0 <= i < |perim|
    requires |blobs0| >= 1 && AuxBlobs(g.data, g.masks, perim, blobs0) && seen0 == Union(blobs0)
    ensures |blobs| >= 1 && blobs[0] == blobs0[0] && AuxBlobs(g.data, g.masks, perim, blobs) && seen == Union(blobs)
  {
    blobs, seen := blobs0, seen0;
    var e := 0;
    while e < |Diagonal|
      invariant 0 <= e <= |Diagonal|
      invariant |blobs| >= 1 && blobs[0] == blobs0[0] && AuxBlobs(g.data, g.masks, perim, blobs) && seen == Union(blobs)
    {
      var p := perim[i].Add(Diagonal[e]);
      if p !in seen && g.Get(p) == '#' {
        var aux, seen' := AuxWalk(g, p, seen);
        assert AuxBlob(g.data, g.masks, perim, seen, aux) by {
          assert 0 <= i < |perim| && Diagonal[e] in Diagonal && aux[0] == perim[i].Add(Diagonal[e]);
        }
        AuxBlobsSnoc(g.data, g.masks, perim, blobs, aux);
        UnionSnoc(blobs, aux);
        blobs, seen := blobs + [aux], seen';
      }
      e := e + 1;
    }
  }

  /** Step d out of perimeter cell pp finds a terminal: the cell pp + d is
      unseen, neither `#` nor whitespace; the next cell outward is a wire
      character that may start back towards it; and if the cell is itself a
      wire character, it may start back towards pp as well. */
  predicate Candidate(data: seq<string>, masks: seq<seq<Mask>>, wires: WireTable, seen: set<Point>, pp: Point, d: Point)
  {
    var q := pp.Add(d);
    var ch := Look(data, masks, q);
    var nch := Look(data, masks, q.Add(d));
    && d in Orthogonal && q !in seen && ch != '#' && !IsSpace(ch)
    && nch in wires.startDirs && d.Neg() in wires.startDirs[nch]
    && (ch in wires.startDirs ==> d.Neg() in wires.startDirs[ch])
  }

  /** The terminal found at pp + d: a wire character there is a bare wire
      end, any other character is its flag; the side is that of d. */
  function TerminalFor(data: seq<string>, masks: seq<seq<Mask>>, wires: WireTable, pp: Point, d: Point): (t: Terminal)
    requires d in Orthogonal
    ensures t.pt == pp.Add(d) && SideVector(t.side) == d
    ensures t.flag.None? <==> Look(data, masks, pp.Add(d)) in wires.startDirs
    ensures t.flag.Some? ==> t.flag.value == Look(data, masks, pp.Add(d))
  {
    var ch := Look(data, masks, pp.Add(d));
    Terminal(pp.Add(d), if ch in wires.startDirs then None else Some(ch), SideFromPhase(d))
  }

  /** Some terminal already sits at q. */
  predicate HasTerminalAt(terminals: seq<Terminal>, q: Point)
  {
    exists t :: t in terminals && t.pt == q
  }

  /** The terminals found so far: each from a candidate step out of a
      perimeter cell, no two at the same point. */
  ghost predicate TerminalsFound(data: seq<string>, masks: seq<seq<Mask>>, wires: WireTable, seen: set<Point>,
                                 perim: seq<Point>, terminals: seq<Terminal>, origin: seq<(Point, Point)>)
  {
    && |origin| == |terminals|
    && (forall k :: 0 <= k < |terminals| ==>
          origin[k].0 in perim && Candidate(data, masks, wires, seen, origin[k].0, origin[k].1)
          && terminals[k] == TerminalFor(data, masks, wires, origin[k].0, origin[k].1))
    && (forall i, j :: 0 <= i < j < |terminals| ==> terminals[i].pt != terminals[j].pt)
  }

  /** The body of the terminal loop for perimeter cell pp and step d. */
  method TryTerminal(g: Grid, wires: WireTable, seen: set<Point>, perim: seq<Point>, pp: Point, d: Point,
                     terminals0: seq<Terminal>, ghost origin0: seq<(Point, Point)>)
    returns (terminals: seq<Terminal>, ghost origin: seq<(Point, Point)>)
    requires g.Valid() && pp in perim && d in Orthogonal
    requires TerminalsFound(g.data, g.masks, wires, seen, perim, terminals0, origin0)
    ensures TerminalsFound(g.data, g.masks, wires, seen, perim, terminals, origin)
    ensures terminals == terminals0 || terminals == terminals0 + [TerminalFor(g.data, g.masks, wires, pp, d)]
    ensures Candidate(g.data, g.masks, wires, seen, pp, d) ==> HasTerminalAt(terminals, pp.Add(d))
    ensures forall q :: HasTerminalAt(terminals0, q) ==> HasTerminalAt(terminals, q)
  {
    terminals, origin := terminals0, origin0;
    var q := pp.Add(d);
    if q in seen {
      return;
    }
    var ch := g.Get(q);
    if ch != '#' && !IsSpace(ch) {
      var nch := g.Get(d.Add(q));
      assert d.Add(q) == q.Add(d);
      if nch !in wires.startDirs {
        return;
      }
      if !(exists c :: c in wires.startDirs[nch] && c == d.Neg()) {
        return;
      }
      if exists t :: t in terminals && t.pt == q {
        return;
      }
      var flag: Option<char> := Some(ch);
      if ch in wires.startDirs {
        if !(exists c :: c in wires.startDirs[ch] && c == d.Neg()) {
          return;
        }
        flag := None;
      }
      var t := Terminal(q, flag, SideFromPhase(d));
      assert t == TerminalFor(g.data, g.masks, wires, pp, d);
      terminals := terminals + [t];
      origin := origin + [(pp, d)];
      assert terminals[|terminals0|] == t;
    }
  }

  /** Every candidate step out of the first i perimeter cells, and out of
      cell i by the first e steps, has a terminal at its point. */
  ghost predicate ScannedUpTo(data: seq<string>, masks: seq<seq<Mask>>, wires: WireTable, seen: set<Point>,
                              perim: seq<Point>, i: int, e: int, terminals: seq<Terminal>)
  {
    forall a, b ::
      (0 <= a < |perim| && 0 <= b < |Orthogonal| && (a < i || (a == i && b < e))
       && Candidate(data, masks, wires, seen, perim[a], Orthogonal[b])) ==> HasTerminalAt(terminals, perim[a].Add(Orthogonal[b]))
  }

  /** The terminal search of `from_rd`: for every perimeter cell of the seen
      cells, in order, and every orthogonal step, a terminal at each new
      candidate point. */
  method FindTerminals(g: Grid, wires: WireTable, seen: set<Point>, perim: seq<Point>)
    returns (terminals: seq<Terminal>, ghost origin: seq<(Point, Point)>)
    requires g.Valid()
    ensures TerminalsFound(g.data, g.masks, wires, seen, perim, terminals, origin)
    ensures forall pp, d :: pp in perim && d in Orthogonal && Candidate(g.data, g.masks, wires, seen, pp, d) ==>
      HasTerminalAt(terminals, pp.Add(d))
  {
    terminals, origin := [], [];
    var i := 0;
    while i < |perim|
      invariant 0 <= i <= |perim|
      invariant TerminalsFound(g.data, g.masks, wires, seen, perim, terminals, origin)
      invariant ScannedUpTo(g.data, g.masks, wires, seen, perim, i, 0, terminals)
    {
      var e := 0;
      while e < |Orthogonal|
        invariant 0 <= e <= |Orthogonal|
        invariant TerminalsFound(g.data, g.masks, wires, seen, perim, terminals, origin)
        invariant ScannedUpTo(g.data, g.masks, wires, seen, perim, i, e, terminals)
      {
        terminals, origin := TryTerminal(g, wires, seen, perim, perim[i], Orthogonal[e], terminals, origin);
        e := e + 1;
      }
      i := i + 1;
    }
    forall pp, d | pp in perim && d in Orthogonal && Candidate(g.data, g.masks, wires, seen, pp, d)
      ensures HasTerminalAt(terminals, pp.Add(d))
    {
      var a :| 0 <= a < |perim| && perim[a] == pp;
      var b :| 0 <= b < |Orthogonal| && Orthogonal[b] == d;
    }
  }

  /** The points of a set, one each, in the set's iteration order. */
  method Enumerate(s: set<Point>) returns (r: seq<Point>)
    ensures Distinct(r) && Elements(r) == s
  {
    r := [];
    var rest := s;
    while rest != {}
      invariant Distinct(r) && Elements(r) + rest == s && Elements(r) !! rest
      decreases |rest|
    {
      var x :| x in rest;
      r := r + [x];
      rest := rest - {x};
    }
  }

  /** `Component(rd, blobs, terminals)` of the class it was built as. */
  datatype Component = Component(kind: ComponentClass, rd: RefDes, blobs: seq<seq<Point>>, terminals: seq<Terminal>)

  /** `Component.from_rd(rd, grid)` called on class `caller`: choose the
      class, find the blobs and the terminals, and build the component, which
      runs the class's `__post_init__` check on the terminals. `wires` stands
      for the wire-character table the source reads from `Wire`; the ghost
      `order` is the order the set of seen cells was walked in. A designator
      from `RefDes.find_all` spans one row left to right. */
  method FromRd(reg: Registry, caller: ComponentClass, rd: RefDes, g: Grid, wires: WireTable)
    returns (r: Result<Component>, blobs: seq<seq<Point>>, ghost found: seq<Terminal>, ghost order: seq<Point>)
    requires g.Valid() && rd.left.y == rd.right.y && rd.left.x <= rd.right.x
    ensures BlobsFound(g.data, g.masks, IterateLine(rd.left, rd.right), blobs)
    ensures Distinct(order) && Elements(order) == Union(blobs)
    ensures exists origin :: TerminalsFound(g.data, g.masks, wires, Union(blobs), Perimeter(order), found, origin)
    ensures forall pp, d :: pp in Perimeter(order) && d in Orthogonal && Candidate(g.data, g.masks, wires, Union(blobs), pp, d) ==>
      HasTerminalAt(found, pp.Add(d))
    ensures var kind := ChooseClass(reg.entries, rd.letter, caller);
      r == match PostInit(kind.check, Name(rd), found)
           case Err(e) => Err(e)
           case Ok(ts) => Ok(Component(kind, rd, blobs, ts))
  {
    var kind := caller;
    if rd.letter in reg.entries {
      kind := reg.entries[rd.letter];
    }
    var seen;
    blobs, seen := FindBlobs(g, IterateLine(rd.left, rd.right));
    var pts := Enumerate(seen);
    order := pts;
    var terminals, origin := FindTerminals(g, wires, seen, Perimeter(pts));
    found := terminals;
    var checked := PostInit(kind.check, Name(rd), terminals);
    match checked
    case Err(e) => r := Err(e);
    case Ok(ts) => r := Ok(Component(kind, rd, blobs, ts));
  }
}
