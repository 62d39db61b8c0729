/** The drawing document (schemascii/drawing.py): a text is split at its
    data marker into the drawing area above and the data area below. */
module Drawings {
  import opened Base
  import opened Text

  /** The marker used when the options name none. */
  const DefaultMarker := "---"

  /** `Drawing(wire_nets, components, annotations, data)`: the four parts of
      a parsed document, stored as given. */
  class Drawing<N, C, A, D> {
    var nets: N
    var components: C
    var annotations: A
    var data: D

    constructor (wireNets: N, components: C, annotations: A, data: D)
      ensures nets == wireNets && this.components == components
      ensures this.annotations == annotations && this.data == data
    {
      nets := wireNets;
      this.components := components;
      this.annotations := annotations;
      this.data := data;
    }
  }

  /** `options.get("data-marker", "---")`. */
  function MarkerOf(options: map<string, string>): (m: string)
    ensures "data-marker" in options ==> m == options["data-marker"]
    ensures "data-marker" !in options ==> m == DefaultMarker
  {
    if "data-marker" in options then options["data-marker"] else DefaultMarker
  }

  /** The message of the SyntaxError raised for a drawing without its marker. */
  function MissingMarkerMessage(marker: string): string
  {
    "data-marker must be present in a drawing! (current data-marker is: " + Repr(marker) + ")"
  }

  /** The text above and below the marker line. */
  datatype Areas = Areas(drawing: string, data: string)

  /** k is the first line equal to the marker. */
  predicate FirstMarkerLine(lines: seq<string>, marker: string, k: int)
  {
    0 <= k < |lines| && lines[k] == marker && forall j :: 0 <= j < k ==> lines[j] != marker
  }

  /** The areas of a split at the first marker line k. */
  predicate SplitAt(lines: seq<string>, marker: string, k: int, areas: Areas)
  {
    && FirstMarkerLine(lines, marker, k)
    && areas.drawing == Join("\n", lines[..k])
    && areas.data == Join("\n", lines[k + 1..])
  }

  /** `lines.index(marker)` on the lines of the text, then the lines before
      and after it joined by `"\n"`; a SyntaxError when no line is the
      marker. */
  function SplitAreas(lines: seq<string>, marker: string): (r: Result<Areas>)
    ensures r.Err? <==> forall k :: 0 <= k < |lines| ==> lines[k] != marker
    ensures r.Err? ==> r.error == SyntaxError(MissingMarkerMessage(marker))
    ensures r.Ok? ==> exists k :: SplitAt(lines, marker, k, r.value)
  {
    match IndexOf(lines, marker)
    case None => Err(SyntaxError(MissingMarkerMessage(marker)))
    case Some(k) =>
      assert FirstMarkerLine(lines, marker, k) by {
        forall j | 0 <= j < k ensures lines[j] != marker {
          assert lines[j] in lines[..k];
        }
      }
      var areas := Areas(Join("\n", lines[..k]), Join("\n", lines[k + 1..]));
      assert SplitAt(lines, marker, k, areas);
      Ok(areas)
  }

  /** `Drawing.parse_from_string(data, **options)`: it never returns a
      drawing; it raises SyntaxError when no line of `data.splitlines()` is
      the marker and NotImplementedError once the text has been split. */
  function ParseFromString<N, C, A, D>(text: string, options: map<string, string>): (r: Result<Drawing<N, C, A, D>>)
    ensures r.Err?
    ensures r.error == NotImplementedError <==> MarkerOf(options) in SplitLines(text)
    ensures r.error != NotImplementedError ==> r.error == SyntaxError(MissingMarkerMessage(MarkerOf(options)))
  {
    var areas := SplitAreas(SplitLines(text), MarkerOf(options));
    if areas.Err? then Err(areas.error) else Err(NotImplementedError)
  }

  /** Only the first marker line splits: later ones belong to the data. */
  lemma SplitAtFirstMarker()
    ensures SplitAreas(["a", "---", "b", "---"], DefaultMarker) == Ok(Areas("a", "b\n---"))
  {
    var lines := ["a", "---", "b", "---"];
    assert |lines[0]| != |DefaultMarker| && lines[1..][0] == DefaultMarker;
    assert IndexOf(lines[1..], DefaultMarker) == Some(0);
    assert IndexOf(lines, DefaultMarker) == Some(1);
    assert lines[..1] == ["a"] && lines[2..] == ["b", "---"];
    assert Join("\n", ["b", "---"]) == "b\n---";
  }

  /** A non-empty text without line boundaries is one line. */
  lemma SplitLinesOne(s: string)
    requires |s| > 0 && forall i :: 0 <= i < |s| ==> !IsLineBreak(s[i])
    ensures SplitLines(s) == [s]
  {
    assert LineEnd(s) == |s|;
  }

  /** A marker that only occurs inside a longer line does not split. */
  lemma MarkerMustBeWholeLine()
    ensures ParseFromString<int, int, int, int>("x ---", map[]) == Err(SyntaxError(MissingMarkerMessage("---")))
  {
    SplitLinesOne("x ---");
  }
}
