/** The renderer registry of schemascii/components_render.py: the
    `renderer` decorator, the two-terminal wrapper, `render_component`, and
    the one registration the module makes when it loads. */
module ComponentsRender {
  import opened Base
  import opened Text
  import opened Geometry
  import opened RenderRegistry

  /** A registered renderer: it takes the box and its terminals. The
      drawing is not written yet, so a renderer gives back None or raises. */
  type Draw = (Cbox, seq<Terminal>) -> Result<Option<string>>

  /** The decorator raises a bare RuntimeError on a taken designator. */
  function Taken(rdu: string): Error
  {
    RuntimeError("")
  }

  /** The message of the two-terminal check: type and number, then the
      complaint. */
  function TwoTerminalsMessage(box: Cbox): string
  {
    box.typ + IntToString(box.id) + " component can only have 2 terminals"
  }

  /** `two_check`: the wrapped renderer runs only when the component has
      exactly two terminals; otherwise TypeError. */
  function TwoCheck(func: Draw, box: Cbox, terminals: seq<Terminal>): (r: Result<Option<string>>)
    ensures |terminals| != 2 ==> r == Err(TypeError(TwoTerminalsMessage(box)))
    ensures r.Ok? ==> |terminals| == 2 && r == func(box, terminals)
  {
    if |terminals| != 2 then Err(TypeError(TwoTerminalsMessage(box)))
    else func(box, terminals)
  }

  /** `renderer(*rd_s)(func)`: registers `func` under every upper-cased
      designator, raising RuntimeError at the first one already taken.
      The inner decorator returns nothing, so the name it decorates is
      bound to None. */
  method Renderer(renderers: Table<Draw>, rds: seq<string>, func: Draw) returns (r: Result<Option<Draw>>)
    modifies renderers
    ensures r.Ok? ==> r.value == None
    ensures (renderers.entries, if r.Err? then Some(r.error) else None)
      == RegisterAll(old(renderers.entries), rds, func, Taken)
  {
    var err := renderers.Register(rds, func, Taken);
    if err.Some? {
      return Err(err.value);
    }
    return Ok(None);
  }

  /** `two_terminal(*rd_s)(func)`: registers the wrapper that checks the
      terminal count before calling `func`; the decorated name is bound to
      None as well. */
  method TwoTerminal(renderers: Table<Draw>, rds: seq<string>, func: Draw) returns (r: Result<Option<Draw>>)
    modifies renderers
    ensures r.Ok? ==> r.value == None
    ensures (renderers.entries, if r.Err? then Some(r.error) else None)
      == RegisterAll(old(renderers.entries), rds, (box, terminals) => TwoCheck(func, box, terminals), Taken)
  {
    r := Renderer(renderers, rds, (box, terminals) => TwoCheck(func, box, terminals));
  }

  /** `render_component(box, flags)`: the type is looked up as it is (not
      upper-cased); an unknown one raises NameError, a known one gives None
      because the drawing is not written. */
  function RenderComponent(renderers: map<string, Draw>, box: Cbox, flags: seq<Terminal>): (r: Result<Option<string>>)
    ensures r.Ok? <==> box.typ in renderers
    ensures r.Ok? ==> r.value == None
    ensures r.Err? ==> r.error == NameError("No renderer defined for " + box.typ + " component")
  {
    if box.typ !in renderers then Err(NameError("No renderer defined for " + box.typ + " component"))
    else Ok(None)
  }

  /** `resistor`: its body is empty. */
  function Resistor(box: Cbox, terminals: seq<Terminal>): Result<Option<string>>
  {
    Ok(None)
  }

  /** The resistor as registered: the two-terminal wrapper around it. */
  function RegisteredResistor(box: Cbox, terminals: seq<Terminal>): Result<Option<string>>
  {
    TwoCheck(Resistor, box, terminals)
  }

  lemma UpperR()
    ensures Upper("R") == "R"
  {
    assert Upper("R")[0] == UpperChar('R') == 'R';
  }

  /** The table the module leaves: `R` is its only entry, bound to the
      checked resistor, and loading raises nothing. */
  lemma LoadedTable()
    ensures RegisterAll(map[], ["R"], (box, terminals) => TwoCheck(Resistor, box, terminals), Taken)
      == (map["R" := (box, terminals) => TwoCheck(Resistor, box, terminals)], None)
  {
    UpperR();
    assert ["R"][1..] == [];
  }

  /** Loading the module: `@two_terminal("R")` on `resistor` into an empty
      table. Afterwards `R` is registered and `resistor` itself is None. */
  method Load() returns (renderers: Table<Draw>, resistor: Option<Draw>)
    ensures fresh(renderers)
    ensures renderers.entries.Keys == {"R"}
    ensures resistor == None
    ensures forall box, terminals :: renderers.entries["R"](box, terminals) == RegisteredResistor(box, terminals)
  {
    renderers := new Table<Draw>();
    LoadedTable();
    var r := TwoTerminal(renderers, ["R"], Resistor);
    resistor := r.value;
  }

  /** Through the loaded table, a resistor with two terminals renders to
      None, with any other count it raises TypeError, and an unknown type
      raises NameError. */
  lemma RenderAfterLoad(box: Cbox, terminals: seq<Terminal>)
    ensures var table := map["R" := (b, t) => TwoCheck(Resistor, b, t)];
      && (box.typ == "R" ==> RenderComponent(table, box, terminals) == Ok(None))
      && (box.typ != "R" ==> RenderComponent(table, box, terminals).Err?)
      && (table["R"](box, terminals).Ok? <==> |terminals| == 2)
  {
  }
}
