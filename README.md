# schemascii recognition core, modelled in Dafny

schemascii turns an ASCII-art circuit diagram into SVG. This project models
the part that reads the drawing and the string-level machinery around it:

- the character grid with its masks, and how it is clipped and shrunk;
- the flood walk that follows wires and annotation lines, and how nets and
  lines are gathered from it;
- the scanners for reference designators, wire tags, annotations and inline
  `name=value` configs;
- the blob and terminal search of a component, and the checks a component
  class makes on its terminals;
- the older box finders (`findsmall`, `findbig`, `findall`) and edge scanners
  (`take_flags`, `find_edge_marks`, `find_flags`, `getflags`), and the older
  wire search (`next_in_dir`, `search_wire`);
- the data language: its tokenizer, its recursive-descent parser (written
  once as functions and once as the parser object's methods, and proved to
  agree), section matching and merging, and option resolution for data
  consumers and command-line configs;
- metric prefixes, the split of a drawing from its data, the renderer
  registries and the BOM-text parsing of the older renderer, and the XML tag
  builder.

There is one Dafny module per source file, plus five shared modules:

- `Base` holds the Option and Result types, the error datatype standing for
  schemascii/errors.py, and sequence helpers.
- `Text` holds string functions with Python's semantics.
- `Geometry` holds points, sides and the records of utils.py.
- `Builtins` holds Python's `str`, `float` and `bool` applied to a value,
  the conversions the options of configs.py and data_consumer.py name.
- `ClassStatements` holds what a `class` statement does with its keyword
  arguments. As written, the class statements of annotation.py, annoline.py
  and `NTerminalComponent` in components/__init__.py raise TypeError, so
  those modules cannot be imported (see "## Findings"). The modules
  `Annotations`, `Annolines` and `ComponentKinds` model the bodies of those
  classes as the intended class statements would define them.

Points are integer pairs `Point(x, y)` with y growing downward, as the
complex numbers of the source are used. The grid is a class whose `data` and
`masks` fields are changed in place.

Where the source loops or mutates, the model is a method with loop
invariants, proved equal to a recursive function. The properties are lemmas
about that function.

Regular expressions are written as matchers. One `FindIter` turns a matcher
into Python's `finditer`: matches left to right, without overlap.

schemascii/data.py and schemascii/data_parse.py hold the same tokenizer and
parser, so they are modelled once. A quoted value is decoded as the source
does it: its UTF-8 bytes go through the `unicode-escape` decoder, which reads
every byte that is not part of an escape as a Latin-1 character, so any
non-ASCII text comes back altered (`10kΩ` becomes `10kÎ©`). In the same way, schemascii/svg_utils.py
(lines 17-59) builds the same tags as schemascii/svg.py, and `Svg` stands for
both.

`Wire.is_wire_character` and `Wire.start_dirs` are called in several places
but defined nowhere. The model takes them as a parameter, a `WireTable` from
characters to starting directions.

The `IDENTITY` table (wire.py:14-15,24-34) lets a walk pass straight
through a crossing glyph, so crossing wires join. The model does the same
(`Wires.NextStepsKeepDirection`).

## Model

| member | source | states |
|---|---|---|
| Grids.MaxLen | schemascii/grid.py:13 | the width is the longest line: no line is longer and some line has exactly that length |
| Grids.Grid.constructor | schemascii/grid.py:10-20 | rows are the `"\n"`-separated lines right-padded with spaces to the longest line; height is the number of lines, width that length, and no mask is set |
| Grids.Grid.GetMask | schemascii/grid.py:44-50 | outside the bounds the mask is unset (False) |
| Grids.Grid.Get | schemascii/grid.py:22-34 | a space outside `0 <= x < width, 0 <= y < height`; inside, the mask when one is set, otherwise the stored character |
| Grids.Grid.Lines | schemascii/grid.py:36-42 | one string per row, each `width` long, whose characters are exactly what `get` sees through the masks |
| Grids.Grid.SetMask | schemascii/grid.py:52-56 | outside the grid nothing changes; inside, only that cell's mask changes, `data` never does, and every other point reads as before |
| Grids.Grid.ClrMask | schemascii/grid.py:58-60 | afterwards the cell reads as its original character and every other point reads as before |
| Grids.Grid.ClrAll | schemascii/grid.py:62-65 | every mask is unset and each in-bounds point reads as its stored character; data and size untouched |
| Grids.Grid.Clip | schemascii/grid.py:67-74 | a fresh grid with the same file name and no masks, whose rows are the slices `data[p1.y..p2.y][p1.x..p2.x)`; for a box inside the grid the size is `(p2.x - p1.x) × (p2.y - p1.y + 1)` and each cell is the corresponding original cell |
| Grids.ClipPiecesInside | schemascii/grid.py:71-73 | for a box inside the grid the clipped rows have the box's size and copy the original cells |
| Grids.Grid.DropBlankTopRows | schemascii/grid.py:80-85 | drops exactly the leading rows that look blank; if no cell anywhere has ink, the loop runs off the end and fails with IndexError (pop from an empty list) |
| Grids.Grid.DropBlankBottomRows | schemascii/grid.py:86-91 | drops exactly the trailing blank rows, so the first and last rows both have ink and no dropped row had any |
| Grids.Grid.DropBlankRows | schemascii/grid.py:80-91 | the rows kept are a contiguous slice holding every inked cell, with ink in its first and last rows; IndexError exactly when the grid has no ink at all |
| Grids.Grid.LeftIndent | schemascii/grid.py:92-96 | the smallest left indent over all rows: no ink left of it, and ink in that column (unless the grid is blank) |
| Grids.Grid.RightIndent | schemascii/grid.py:105-109 | the smallest right indent over all rows: no ink right of it, and ink in the column just inside it |
| Grids.Grid.ShrinkLeft | schemascii/grid.py:99-104 | the first `n` columns are deleted from both data and masks and the width drops by `n` |
| Grids.Grid.ShrinkRight | schemascii/grid.py:111-116 | the last `n` columns are deleted from both data and masks and the width drops by `n` |
| Grids.Grid.ChopLeft | schemascii/grid.py:92-104 | measures the left indent and deletes exactly those all-blank columns |
| Grids.Grid.ChopRight | schemascii/grid.py:105-116 | measures the right indent and deletes exactly those all-blank columns |
| Grids.Grid.ChopBlankColumns | schemascii/grid.py:92-116 | the result is a column crop that keeps every inked cell and has ink in its first and last columns and rows |
| Grids.Grid.Shrink | schemascii/grid.py:76-116 | on a grid with ink the result is one rectangular crop of data and masks that contains every inked cell, with ink on all four edges and sizes that match the arrays; on a grid without ink, IndexError |
| Grids.ShrinkComposes | schemascii/grid.py:76-116 | the row cut followed by the column cut is a single crop of the original, and all ink lies inside it |
| Geometry.SideFromPhase | schemascii/utils.py:61-88 | on the four unit steps, the side whose direction vector is that step |
| Geometry.SideFromPhaseOfVector | schemascii/utils.py:61-88 | `from_phase` inverts the side-to-vector map on all four sides |
| Flood.FloodWalk | schemascii/utils.py:91-125 | the returned points are pairwise distinct, none was in `seen` on entry, each has a non-empty direction set; `seen` on exit is exactly the entry set plus the returned points; each point is a seed or one allowed step from an earlier point, with its directions read from the tables; and every seed and step still reachable is in `seen` (the walk is closed) |
| Flood.TracedSteps | schemascii/utils.py:117-124 | the first point returned is a seed, and every point is a seed or entered from an earlier point through one of its allowed directions |
| Flood.KeepNewUnion | schemascii/net.py:22-29 | the walks kept by the keep-if-new rule cover exactly the points of all the walks made |
| Flood.KeepNewKeeps | schemascii/net.py:26-28 | every kept walk is one of the walks made and had a point not covered by the walks kept before it |
| Flood.KeepNewSnoc | schemascii/net.py:26-29 | one more walk is kept exactly when it has a point the kept walks do not cover |
| Utils.Perimeter | schemascii/utils.py:128-139 | the points, in input order, that have one of their 8 neighbours outside the set, with their multiplicity, and no others |
| Utils.Intersecting | schemascii/utils.py:186-195 | as written: true only when the two real-part ranges do overlap |
| Utils.IntersectingImpliesOverlapping | schemascii/utils.py:186-195 | the test as written is sound: anything it reports does overlap |
| Utils.IntersectingMissesOverlap | schemascii/utils.py:195 | [0,5] against [2,10] overlaps, but the test as written says false |
| Utils.Overlapping | schemascii/utils.py:186-191 | true exactly when some coordinate lies in both ranges, as the doc string promises |
| Utils.TakeNextGroup | schemascii/utils.py:198-220 | on an empty list, IndexError; otherwise a non-empty chain in which each link ends where the next starts, made of input links or their reverses; those links are removed, the rest is what remains (as a multiset), and no remaining link touches either end of the chain |
| Utils.FirstTouching | schemascii/utils.py:205-217 | the first link that touches either end of the chain, or none |
| Utils.MergeColinear | schemascii/utils.py:223-238 | the loop as written: never more links and no new endpoints; with no zero-length link and nothing colinear the list is unchanged |
| Utils.MergeKeepsEnds | schemascii/utils.py:223-238 | merging never adds links or endpoints |
| Utils.MergeColinearKeepsZeroLink | schemascii/utils.py:231-232 | `list.remove` deletes the first equal link, not the one at `i`, so a zero-length link behind it survives |
| Utils.MergeFixedDropsZeroLinks | schemascii/utils.py:223-238 | with positional deletion and nothing colinear, the links before `i` stay and every zero-length link after is dropped |
| Utils.MergeFixedKeepsPrefix | schemascii/utils.py:227-238 | the links before the cursor are never changed |
| Utils.Points2Path | schemascii/utils.py:320-349 | the text is the path data of the points: `z` for none; otherwise `M` and the first point, then one `h`, `v` or `l` move per non-zero step, then `z` when closing |
| Utils.Pad | schemascii/utils.py:327-330 | a non-negative number gets a leading space, a negative one keeps its minus sign |
| Utils.MovesReachLastPoint | schemascii/utils.py:336-346 | replaying the relative moves from the first point ends at the last point, and no move is zero |
| Utils.PathDataEmpty | schemascii/utils.py:332-334 | the path is exactly `z` when there are no points, and otherwise starts with `M` |
| Utils.FindDots | schemascii/utils.py:369-384 | exactly the endpoints that occur in more than 3 links of non-zero length, each once, in the order in which they first appear as endpoints |
| Utils.AddNew | schemascii/utils.py:376-383 | a key is added to the dict only when it is not there yet, so the keys stay distinct |
| Utils.FirstAppearance | schemascii/utils.py:371-383 | the keys of the `seen` dict: each endpoint of a link of non-zero length once, in order of first appearance |
| Utils.SelectDots | schemascii/utils.py:384 | the keys counted more than 3 times, each once and in key order: exactly those of the order with a count above 3 |
| Utils.SortCounterclockwiseDropsTerminal | schemascii/utils.py:531-535 | with two separate runs on one side, the dict keeps only the last run, so a terminal is lost |
| Utils.SortCounterclockwiseIsPermutation | schemascii/utils.py:528-543 | the sort (with all of a side's terminals kept together) is a permutation of its input |
| Utils.SideRunSorted | schemascii/utils.py:538-541 | each side's run is ordered by that side's key and holds exactly that side's terminals |
| Utils.OnSideOfSorted | schemascii/utils.py:536-542 | in the sorted list, the terminals of one side are exactly that side's sorted run |
| Utils.SortCounterclockwiseIdempotent | schemascii/utils.py:528-543 | sorting a sorted list changes nothing |
| Utils.SortBySorted | schemascii/utils.py:538-541 | the stable sort leaves an already sorted list unchanged |
| Utils.InsertBy | schemascii/utils.py:538-541 | inserting keeps the list sorted and adds exactly that terminal |
| Utils.SortBy | schemascii/utils.py:538-541 | the result is sorted by the side's key and is a permutation of the input |
| Utils.FindRotation | schemascii/utils.py:548-553 | true exactly when one of the `len` rotations of the sorted list equals the target |
| Utils.IsClockwiseAsWritten | schemascii/utils.py:546-553 | as written: true exactly when the terminals are a rotation of the as-written sort, which may have lost a side's earlier run |
| Utils.IsClockwise | schemascii/utils.py:546-553 | as intended: true exactly when the terminals are a rotation of the sort that keeps every terminal |
| Utils.IsClockwiseSplitRun | schemascii/utils.py:528-553 | on [L2 (0,1) left, T (1,-1) top, L1 (0,0) left], a clockwise list starting inside the left run, the code as written says False, having sorted to [L1, T], while the intended sort [L1, L2, T] turned once is the list |
| Utils.SplitRunClockwise | schemascii/utils.py:528-553 | for any list [L2, T, L1] with L1, L2 on the left side, L1 above L2, and T on top: the sort as written is no rotation of the list, the intended sort is |
| Utils.IsClockwiseOfSorted | schemascii/utils.py:546-553 | a counterclockwise-sorted list is reported as clockwise |
| Utils.Rotate | schemascii/utils.py:552 | rotating by `k` moves the first `k` elements to the end |
| Utils.Matching | schemascii/utils.py:563 | the terminals carrying that flag, and only those |
| Utils.FlagProblem | schemascii/utils.py:564-573 | no error exactly when exactly one terminal carries the flag; TerminalsError otherwise |
| Utils.SortForFlags | schemascii/utils.py:556-577 | succeeds exactly when every flag matches exactly one terminal; then one terminal per flag, in flag order, each carrying its flag; otherwise the TerminalsError of the first flag matching zero or several |
| Utils.CheckFlag | schemascii/utils.py:563-574 | for one flag: an error exactly when no terminal or several carry it, and then the error `FlagProblem` names; otherwise a terminal of the list that carries the flag |
| Wires.Char2Dir | schemascii/wire.py:17 | the four direction characters map to unit steps: `>` to −1, `<` to +1, `^` to +1j, `v` to −1j |
| Wires.Char2DirDistinct | schemascii/wire.py:17 | the four direction characters map to four distinct steps |
| Wires.Continue | schemascii/wire.py:14-15 | `IDENTITY` keeps the incoming direction and `EVERYWHERE` gives all four |
| Wires.Directions | schemascii/wire.py:24-34 | `*` continues everywhere; `-`, `\|`, `(`, `)`, `~` and `:` keep the direction of travel; nothing else continues |
| Wires.StartingDirections | schemascii/wire.py:35-43 | `-` starts horizontally, `\|`, `(`, `)` vertically, `*` all four ways; no other character starts a wire |
| Wires.DottedGlyphsDoNotStart | schemascii/wire.py:24-43 | `~` and `:` can be walked through but have no starting directions |
| Wires.StartersContinue | schemascii/wire.py:24-43 | every starting glyph can also be walked through |
| Wires.NextStepsKeepDirection | schemascii/wire.py:14-34 | on every walkable glyph but `*` the step out equals the step in; `*` gives all four orthogonal steps; other cells give none |
| Wires.NextStepsAgree | schemascii/wire.py:60-64 | the step table the walk uses is `CHAR2DIR` applied to the `directions` entry keyed by the incoming direction |
| Wires.WireTablesStopAtBlank | schemascii/wire.py:62-64 | a space (which is what lies outside the grid) has no continuation, so the walk never leaves the grid |
| Wires.GetFromGrid | schemascii/wire.py:48-65 | fails (iterating None) exactly when the start cell has no starting directions; otherwise the start comes first, no point repeats, each later point is one `CHAR2DIR` step from an earlier point and is a walkable glyph, and every step the tables allow from a walked point lands on a walked point (the wire is closed) |
| Wires.NeighbourPairsMembers | schemascii/wire.py:69-72 | a pair is linked exactly when it is two points of the wire, in list order, at distance 1 |
| Wires.NeighbourLinks | schemascii/wire.py:67-72 | the links are the neighbour pairs of `combinations(points, 2)` at distance 1, in that order |
| WireSearch.NextInDirOf | schemascii/wires.py:11-42 | the method's loops compute exactly the recursive definition of `next_in_dir` as written, including its error |
| WireSearch.NextInDirAgrees | schemascii/wires.py:32-38 | as written, `next_in_dir` fails (unpacking None) exactly when it is on a `*`, the next cell is a wire glyph, and the recursion finds no run; otherwise it gives what the intended version gives |
| WireSearch.StarBeforeCrossing | schemascii/wires.py:32-38 | a `*` followed by a `\|` met horizontally makes the source raise where the intended result is None |
| WireSearch.NoTurn | schemascii/wires.py:14-41 | a vertical glyph met horizontally, a `-` met vertically, or a non-wire cell gives None |
| WireSearch.RunShape | schemascii/wires.py:17-27 | the run stops at the first non-straight cell after a stretch of straight glyphs in the step direction |
| WireSearch.RunEndShape | schemascii/wires.py:17-28 | the end is `k` steps along a straight stretch, is a wire glyph, and is stepped back from a cell outside `-\|()*` |
| WireSearch.NextInDirShape | schemascii/wires.py:11-42 | the answer is `(end, start)`, with start the cell itself unless it was a `*`, and end settled after the run from start |
| WireSearch.AnswerOnGrid | schemascii/wires.py:11-42 | every end found lies on the grid |
| WireSearch.SearchWire | schemascii/wires.py:45-61 | breadth-first over the four directions: the start and the found ends are pairwise distinct, each entry is the answer for an earlier point, and on success every point's four answers lead to seen points; it fails exactly when some visited point has a direction in which `next_in_dir` raises |
| WireSearch.FailsIffStuck | schemascii/wires.py:50-60 | the search fails exactly when some visited point and direction make `next_in_dir` raise |
| WireSearch.Finish | schemascii/wires.py:46-61 | when the frontier is empty, each end appears once, none equals the start, and the seen list is closed |
| Annolines.StartDirs | schemascii/annoline.py:46-53 | only `~`, `:`, `.` and `'` start a line; `~` only horizontally and `:` only vertically |
| Annolines.AnnolineCharacters | schemascii/annoline.py:65-70 | a character belongs to an annotation line exactly when it is `~`, `:`, `.` or `'` |
| Annolines.AnnoNextShape | schemascii/annoline.py:23-45 | the wire glyphs and `:`/`~` continue in the direction of travel; `.` entered moving +y and `'` entered moving −y give no continuation |
| Annolines.AnnoTablesStopAtBlank | schemascii/annoline.py:23-45 | a blank cell has no continuation, so a line never leaves the grid |
| Annolines.GetFromGrid | schemascii/annoline.py:58-63 | a flood walk from a fresh `seen` set: the line starts at `start` when that cell can start a line, its points are distinct, each later point continues an earlier one, and the walk is closed |
| Annolines.Wrap | schemascii/annoline.py:84 | each kept line is wrapped once more, as a line holding that line |
| Annolines.WrapAll | schemascii/annoline.py:84 | one wrapped line per kept walk |
| Annolines.FindAll | schemascii/annoline.py:72-86 | every cell holding a line character is walked, in row-major order; the lines kept are exactly the walks that add an unseen point (the others are dropped); each is wrapped; every walkable cell ends up covered |
| Annolines.KeepLine | schemascii/annoline.py:82-85 | a walk with an unseen point is kept and the scan moves on |
| Annolines.KeepLineFound | schemascii/annoline.py:84-85 | after keeping a walk, the starts stay in row-major order and `seen_points` grows by its points |
| Annolines.DropLine | schemascii/annoline.py:82-83 | a walk whose points were all seen is dropped and nothing else changes |
| Nets.FindAll | schemascii/net.py:17-30 | every cell holding a wire character is tried as a start, in row-major order; a wire is dropped exactly when all its points were seen, and each kept wire becomes its own net; `seen_points` is the union of the kept wires; an undefined wire-start lookup fails (iterating None) exactly when some cell has no start directions |
| Nets.VisitCell | schemascii/net.py:23-29 | one cell of the scan: fails exactly for a wire cell without start directions; otherwise the scan state is kept and a wire cell ends up seen |
| Nets.TakeWire | schemascii/net.py:25-29 | a walked wire is appended as a one-wire net exactly when it has an unseen point, and its points join `seen_points` |
| Nets.ScanRow | schemascii/net.py:23-29 | a whole row is scanned left to right; it fails only at a cell with no start directions |
| Nets.DropWire | schemascii/net.py:26-27 | a wire whose points were all seen leaves the kept list unchanged |
| Nets.KeepWire | schemascii/net.py:26-29 | a wire with an unseen point is kept, and the kept starts stay in row-major order |
| Nets.NetsOfSnoc | schemascii/net.py:28 | each accepted net holds exactly one wire |
| Components.RegisterAllSucceeds | schemascii/component.py:89-98 | registering succeeds exactly when every name is upper-case alphabetic, not yet registered and listed once; then each name maps to the class |
| Components.RegisterAllKeeps | schemascii/component.py:89-98 | a failure is a ValueError; names registered before are never changed and no other name appears |
| Components.Registry.Register | schemascii/component.py:89-98 | the registry and the error are those of registering the names in order, stopping at the first bad one |
| Components.ChooseClass | schemascii/component.py:24-27 | the class registered under exactly the designator's letters, or the calling class when none is, with no error |
| Components.IterateLine | schemascii/component.py:42 | the designator span: every cell from `left` to `right` on its row, in order |
| Components.MainWalk | schemascii/component.py:33-43 | the main blob holds every span cell and grows only through `#` cells by orthogonal steps, leaving no adjacent `#` cell out |
| Components.AuxWalk | schemascii/component.py:51-53 | an auxiliary blob starts at its unseen `#` cell, grows through `#` cells by any of the 8 steps, avoids earlier `seen` points and is closed |
| Components.FindBlobs | schemascii/component.py:29-53 | the main blob first, then one auxiliary blob per unseen `#` cell diagonal to a perimeter cell of the main blob; `seen` is their union |
| Components.AuxAround | schemascii/component.py:45-53 | the loop over the main blob's perimeter keeps the main blob first and adds only auxiliary blobs |
| Components.TerminalFor | schemascii/component.py:78-85 | the terminal at the stepped-to cell: a wire character there gives no flag, any other character is the flag; the side is `from_phase(d)` |
| Components.TryTerminal | schemascii/component.py:58-85 | a candidate cell (unseen, not `#` nor blank, with a wire beyond it that starts back towards it, and starting back itself when it is a wire) becomes a terminal unless one is already there |
| Components.FindTerminals | schemascii/component.py:54-85 | every terminal comes from a candidate step out of a perimeter cell, no two share a point, and every candidate step yields a terminal at its point |
| Components.Enumerate | schemascii/component.py:56 | the set of seen points is listed once each |
| Components.FromRd | schemascii/component.py:21-87 | the class is chosen by the letters, the blobs and the terminals are as above, and the result is that class's post-init check applied to the terminals |
| ComponentKinds.CountPlus | schemascii/components/__init__.py:67 | the number of terminals flagged `+` |
| ComponentKinds.CountPlusPositive | schemascii/components/__init__.py:76-78 | `is_polarized` holds exactly when some terminal has the flag `+` |
| ClassStatements.InitSubclass | schemascii/component.py:89 | the call of the nearest `__init_subclass__` with the class keywords raises TypeError exactly when they do not fit it: any keyword for `object`'s, otherwise a keyword naming no parameter or a parameter without a default left out |
| ClassStatements.ConsumerClassStatement | schemascii/data_consumer.py:36-37 | a consumer class statement whose keywords the hook refuses raises TypeError and registers nothing; otherwise its namespaces are registered in turn |
| ClassStatements.AnnotationClassRaises | schemascii/annotation.py:15 | as written, `namespaces=(":annotation",)` reaches `object.__init_subclass__`: TypeError, nothing registered |
| ClassStatements.AnnotationLineClassRaises | schemascii/annoline.py:14-15 | as written, `namespaces=(":annotation", ":annotation-line")` reaches `object.__init_subclass__`: TypeError, nothing registered |
| ClassStatements.RegisterNamespacesSpec | schemascii/data_consumer.py:144-157 | registering non-empty namespaces in turn keeps the registry well formed, succeeds exactly when they are distinct and none is taken, and then appends them, in order, to the class's own namespaces |
| ClassStatements.ConsumerClassIntended | schemascii/data_consumer.py:144-157 | with an optional `namespaces` hook, the keyword registers the class under its namespaces as `register` does, and no keyword registers nothing |
| ClassStatements.ComponentClassStatement | schemascii/component.py:89-98 | a component class statement whose keywords the hook refuses raises TypeError with the letters unchanged; otherwise its letters are registered as `__init_subclass__` does |
| ClassStatements.NTerminalClassRaises | schemascii/components/__init__.py:35 | as written, `class NTerminalComponent(Component)` leaves out `names`: TypeError for the missing argument, letters unchanged |
| ClassStatements.ComponentClassIntended | schemascii/component.py:89-98 | with `names` optional, leaving it out registers nothing and raises nothing, and giving it registers the letters exactly as the written hook does |
| ComponentKinds.CheckCount | schemascii/components/__init__.py:42-52 | TerminalsError exactly when the terminal count differs from `n_terminals` (2 for two-terminal parts); otherwise the terminals are unchanged |
| ComponentKinds.CheckPolarizedAccepts | schemascii/components/__init__.py:65-71 | accepted exactly when the count check passes, at most one terminal is `+`, and, if always polarized, one is |
| ComponentKinds.CheckPolarizedOrders | schemascii/components/__init__.py:72-74 | the two terminals are kept as a permutation, with `+` first when there is one, and unchanged otherwise |
| ComponentKinds.PolarizedKept | schemascii/components/__init__.py:72-78 | the swap keeps `is_polarized` |
| ComponentKinds.ValueTuplesOk | schemascii/components/__init__.py:21-23 | the tuples are built exactly when every named option is present, one per entry with the option's value in place of its name |
| ComponentKinds.ValueTuplesErr | schemascii/components/__init__.py:21-23 | a missing option raises KeyError for the first missing name |
| ComponentKinds.FormatIdText | schemascii/components/__init__.py:19-31 | a missing option's KeyError propagates; a ValueError from the text builder becomes BOMError "Range of values not allowed on fixed-value component" |
| Scanner.FindIterShape | schemascii/refdes.py:30 | `finditer`: every match starts at or after the scan position, is a match of the pattern there, and matches come left to right without overlapping |
| Scanner.FindIterCovers | schemascii/refdes.py:30 | every cell the pattern could start a match at is inside some reported match |
| Scanner.RunEnd | schemascii/refdes.py:7 | a greedy run: every character up to the end satisfies the class and the next does not |
| Scanner.Bracketed | schemascii/annotation.py:11 | an `open … stop` match holds at least one character, none of them the stop character |
| Refdes.MatchAt | schemascii/refdes.py:7 | `([A-Z_]+)(\d*)([A-Z_\d]*)` matches at `i` exactly when that character is an upper-case letter or `_` |
| Refdes.MatchAtWellFormed | schemascii/refdes.py:7 | the match is a maximal letter group, then a maximal digit group, then a maximal suffix group of letters, `_` and digits |
| Refdes.MatchesShape | schemascii/refdes.py:29-30 | each match is well formed, starts a run (the cell before it is not a letter), and matches are non-overlapping and left to right |
| Refdes.MatchesCover | schemascii/refdes.py:30 | every letter or `_` on the row lies inside some match |
| Refdes.Bat3V3 | schemascii/refdes.py:53-60 | `BAT3V3` gives letter `BAT`, number 3, suffix `V3` |
| Refdes.RDotHeater | schemascii/refdes.py:53-60 | `R.Heater` yields only `R` and `H` |
| Refdes.RowRefDesShape | schemascii/refdes.py:31-39 | each designator is on its row, `left` is the match start and `right` its last column, its text is letter, digits and suffix, and an empty digit group gives number 0 |
| Refdes.FindAll | schemascii/refdes.py:23-40 | the designators of each row of the masked `grid.lines`, top to bottom and left to right within a row |
| Refdes.AppendRow | schemascii/refdes.py:30-39 | appends one designator per match of the row, in order |
| Refdes.ShortName | schemascii/refdes.py:46-48 | letter, decimal number, then suffix |
| Refdes.Name | schemascii/refdes.py:42-44 | `short_name` followed by the suffix once more |
| Refdes.NameRepeatsSuffix | schemascii/refdes.py:42-48 | the name ends with the suffix twice; `U3A` is named `U3AA` |
| WireTags.RowTagsShape | schemascii/wire_tag.py:11-53 | each tag comes from a match: `<name=` points left and `=name>` right; the name is non-empty, without whitespace and without `=` (left form) or `>` (right form); a wire character just left of the match attaches it on the left at the match start with the connection point one to the left, otherwise on the right at the last column with the connection point one to the right, outside the match |
| WireTags.RowTagsOrdered | schemascii/wire_tag.py:32-33 | tags of a row come left to right |
| WireTags.FindAll | schemascii/wire_tag.py:29-54 | one tag per match, rows top to bottom and matches left to right |
| WireTags.AppendRow | schemascii/wire_tag.py:33-53 | appends one tag per match of the row, in order |
| WireTags.MakeTag | schemascii/wire_tag.py:34-53 | the tag of one match, looking up the grid cell just left of it |
| WireTags.FooExample | schemascii/wire_tag.py:59-62 | `-------=foo[0:9]>` yields one tag named `foo[0:9]`, pointing right and attached on the left |
| Annotations.RowAnnotationsShape | schemascii/annotation.py:11-36 | each annotation sits at the column of its `[` on its row, and its content is the non-empty text before the next `]` |
| Annotations.RowAnnotationsOrdered | schemascii/annotation.py:32-36 | annotations of a row do not overlap and come left to right |
| Annotations.RowAnnotationsCover | schemascii/annotation.py:33 | every `[` followed by a non-empty text and `]` is inside some annotation |
| Annotations.AllAnnotationsShape | schemascii/annotation.py:32-36 | every annotation found has the shape of a match on its own row |
| Annotations.FindAll | schemascii/annotation.py:28-37 | the annotations of every row, in row-major order, without changing the grid |
| Annotations.AppendRow | schemascii/annotation.py:33-36 | appends one annotation per match of the row, in order |
| InlineConfigs.ConfigEndShape | schemascii/inline_config.py:4 | a match is `!`, a non-empty run of letters (either case), `=`, a value without `!`, and `!` |
| InlineConfigs.RowPairsShape | schemascii/inline_config.py:4-13 | each match's text is exactly `!key=value!`, with its key letters only and its value without `!` |
| InlineConfigs.RowSpansOrdered | schemascii/inline_config.py:10 | matches of a row do not overlap and come left to right |
| InlineConfigs.PaddingLabelExample | schemascii/inline_config.py:27-28 | `!padding=30!!label=!` yields `padding` = `30` and `label` = the empty string |
| InlineConfigs.AssignKeys | schemascii/inline_config.py:20 | the keys of the result are the keys assigned by some match, and no others |
| InlineConfigs.AssignLastWins | schemascii/inline_config.py:20 | a later duplicate key overrides an earlier one |
| InlineConfigs.AssignUntouched | schemascii/inline_config.py:20 | a key no match assigns keeps its old value |
| InlineConfigs.MaskedRowAt | schemascii/inline_config.py:14-15 | a cell inside a match span is masked with a space; every other cell's mask is unchanged |
| InlineConfigs.GetInlineConfigs | schemascii/inline_config.py:7-21 | the result assigns every match's key to its value in match order, over the masked lines read at the start; every cell of every match span is masked and nothing else changes |
| InlineConfigs.ScanRow | schemascii/inline_config.py:10-20 | one row: its spans are masked and its pairs assigned in order |
| InlineConfigs.TakeMatch | schemascii/inline_config.py:11-20 | one match: its span is masked and its key set to its value |
| InlineConfigs.MaskRun | schemascii/inline_config.py:14-15 | masks exactly the cells of one span |
| Drawings.Drawing.constructor | schemascii/drawing.py:7-16 | stores its four arguments unchanged |
| Drawings.MarkerOf | schemascii/drawing.py:21 | the data marker is the `data-marker` option, defaulting to `---` |
| Drawings.SplitAreas | schemascii/drawing.py:20-29 | SyntaxError naming the marker exactly when no line equals it; otherwise the split is at the first line exactly equal to the marker, the drawing area is the lines before it joined by `"\n"` and the data area the lines after it |
| Drawings.ParseFromString | schemascii/drawing.py:19-30 | always an error: NotImplementedError exactly when some line equals the marker, otherwise the SyntaxError |
| Drawings.SplitAtFirstMarker | schemascii/drawing.py:23-29 | the split uses the first marker line; a later one stays in the data area |
| Drawings.MarkerMustBeWholeLine | schemascii/drawing.py:23-27 | a marker inside a longer line is not a marker |
| Metric.PyIndex | schemascii/metric.py:24 | Python string indexing: negative indices count from the end, out of range is IndexError |
| Metric.ExponentToMultiplier | schemascii/metric.py:11-24 | as written: None exactly when the exponent is not a multiple of 3; IndexError above 12 or below −39; otherwise at most one character |
| Metric.MultiplierToExponent | schemascii/metric.py:27-42 | `" "` and `""` give 0; any result is a multiple of 3 in [−12, 12]; an unknown letter raises ValueError from `index` |
| Metric.ExponentRoundTrip | schemascii/metric.py:11-42 | for every multiple of 3 in [−12, 12], the multiplier converts back to the exponent |
| Metric.MultiplierRoundTrip | schemascii/metric.py:27-42 | every known letter converts to an exponent and back, with `µ` coming back as `u` and `K` as `k` |
| Metric.UnknownMultiplier | schemascii/metric.py:41 | a letter not in `pnum kMGT` (nor `µ`, `K`) raises ValueError |
| Metric.NegativeIndexWraps | schemascii/metric.py:22-24 | −15 wraps to the last letter and gives `T`, which converts back to 12 |
| Metric.ExponentToMultiplierChecked | schemascii/metric.py:11-24 | as intended: None for non-multiples of 3, an error outside [−12, 12] |
| Metric.CheckedRoundTrip | schemascii/metric.py:11-42 | the checked conversion round-trips for every exponent it accepts |
| Metric.RangeMatch | schemascii/metric.py:6-108 | a range match is two metric quantities joined by `-`, as a prefix of the input |
| Metric.FormatMetricUnit | schemascii/metric.py:93-127 | ValueError "range not allowed" exactly when a range is given and ranges are not allowed; input with no leading number comes back stripped |
| Metric.NoNumberUnchanged | schemascii/metric.py:107-124 | input with no leading number (and no range) is returned stripped |
| Metric.RangeRefused | schemascii/metric.py:108-111 | `10k-20k` with ranges disallowed raises ValueError |
| DataTokens.TokenAtShape | schemascii/data.py:12-18 | the alternation is tried in order: a character of `\n{};=` is a token on its own, and an unquoted catch-all token contains none of them except newlines |
| DataTokens.TokenShape | schemascii/data.py:12-24 | every token `tokenize` returns is non-empty; a special-character token is one character long; a token that is not a quoted string contains no special character other than a newline |
| DataTokens.NumberTokenChars | schemascii/data.py:15 | a number token consists only of digits, `.`, `e`/`E` and signs |
| DataParse.SkipSpace | schemascii/data.py:129-134 | never moves backwards, and stops at a token that is not whitespace, or at `\n` when newlines are not being skipped |
| DataParse.Eat | schemascii/data.py:97-114 | fails exactly when the tokens are used up; otherwise it returns the current token and moves one token ahead, leaving the last significant position unchanged |
| DataParse.EofError | schemascii/data.py:85-90 | running out of tokens raises DiagramSyntaxError |
| DataParse.SkipComment | schemascii/data.py:136-139 | a `%%` comment is skipped up to its newline, and the position moves forward; an unterminated comment raises DiagramSyntaxError |
| DataParse.SkipI | schemascii/data.py:141-150 | stops at a token that is not `%%`, not blank space, and not `\n` when newlines are being skipped; the only error is DiagramSyntaxError |
| DataParse.Expect | schemascii/data.py:152-158 | succeeds only when the current token is one of those expected: it is eaten and marked used; any other token gives the complaint at that position |
| DataParse.ExpectNot | schemascii/data.py:160-163 | reports no error exactly when the current token is not in SPECIAL |
| DataParse.ValueRest | schemascii/data.py:192-202 | the value loop always eats at least one token; its only error is DiagramSyntaxError |
| DataParse.ValueRestTokens | schemascii/data.py:192-202 | the value is the concatenation of consecutive tokens, and the loop stops where the next token after spaces and comments (newlines not skipped) is in SPECIAL |
| DataParse.Unescape | schemascii/data.py:205 | the `unicode-escape` decoder over bytes: text without a backslash is unchanged, the result is never longer than the input, and the only failure is the UnicodeDecodeError for a trailing backslash |
| DataParse.Utf8 | schemascii/data.py:205 | one character's bytes: an ASCII character is its own single byte, and every byte of a longer encoding is at or above 0x80; all are below 0x100 |
| DataParse.Utf8RoundTrip | schemascii/data.py:205 | the encoding is UTF-8: the lead byte tells the length, the other bytes are continuation bytes, and decoding gives the code point back |
| DataParse.EncodeUtf8 | schemascii/data.py:205 | `bytes(value, "utf-8")` is a sequence of bytes |
| DataParse.EncodeAscii | schemascii/data.py:205 | ASCII text is its own UTF-8 encoding |
| DataParse.EncodeAppend | schemascii/data.py:205 | the encoding of a concatenation is the concatenation of the encodings |
| DataParse.UnicodeEscapeDecode | schemascii/data.py:205 | the decoding of a value's bytes fails only with the UnicodeDecodeError for a trailing backslash |
| DataParse.DecodePlainAscii | schemascii/data.py:205 | ASCII text without a backslash decodes to itself |
| DataParse.DecodeAccent | schemascii/data.py:205 | non-ASCII text is re-read as Latin-1: `é` decodes to `Ã©` |
| DataParse.DecodeOhm | schemascii/data.py:205 | `10kΩ` decodes to `10kÎ©` |
| DataParse.LineContinuation | schemascii/data.py:205 | a backslash before a line break is dropped together with it |
| DataParse.UnescapeEscape | schemascii/data.py:205 | for every string, unescaping its escaped form gives it back |
| DataParse.Convert | schemascii/data.py:203-213 | unquoted text that `float` refuses stays a string; the only failure is UnicodeDecodeError |
| DataParse.QuotedValue | schemascii/data.py:203-205 | a quoted, escaped string reads back as its UTF-8 bytes taken as Latin-1 characters |
| DataParse.QuotedAscii | schemascii/data.py:203-205 | a quoted, escaped ASCII string reads back as exactly that string |
| DataParse.IntegerValue | schemascii/data.py:208-211 | the decimal text of any natural number becomes that integer |
| DataParse.OneIsInt | schemascii/data.py:208-211 | `1` becomes the integer 1 |
| DataParse.KeyPart | schemascii/data.py:180-189 | returns no key only when `}` comes next after blanks (the `;}` case); otherwise it eats a key that is not in SPECIAL; the only error is DiagramSyntaxError |
| DataParse.ValuePart | schemascii/data.py:190-216 | after a value, either `}` comes next (left uneaten) or a `\n` or `;` has just been eaten |
| DataParse.ValuePartAfter | schemascii/data.py:214-216 | `}` after the value ends the pair; any token other than `}`, `\n` or `;` gives the line-end complaint |
| DataParse.KvPairSplit | schemascii/data.py:179-218 | a key/value pair fails with the value part's error or returns the single key/value it parsed |
| DataParse.ParseKvPair | schemascii/data.py:179-218 | no pair is returned only at `}`; a pair's key is not in SPECIAL, and the pair ends before `}` or just after `\n`/`;` |
| DataParse.Pairs | schemascii/data.py:172-175 | pairs already found stay a prefix, and the loop ends at the section's `}` |
| DataParse.PairsStep | schemascii/data.py:173-174 | at `}` the loop stops; otherwise it either fails with the pair's error or goes on with the pair appended |
| DataParse.MapOfSnoc | schemascii/data.py:174 | `data \|= {k: v}` sets one key |
| DataParse.MapOfKeys | schemascii/data.py:172-174 | the section's keys are exactly the keys of its pairs |
| DataParse.MapOfLastWins | schemascii/data.py:173-174 | a repeated key keeps the value of its last pair |
| DataParse.ParseSection | schemascii/data.py:165-177 | a section's header is the token it starts at, which is not in SPECIAL, and the parse moves forward |
| DataParse.SectionsFrom | schemascii/data.py:220-224 | sections already parsed stay a prefix of the result |
| DataParse.SectionsStep | schemascii/data.py:222-223 | the loop succeeds only if its next section parses, and then goes on with that section appended |
| DataParse.HeadersNotSpecial | schemascii/data.py:165-224 | every section header parsed from a position on is a token of the text that is not in SPECIAL |
| DataParse.ParsedHeaders | schemascii/data.py:68-224 | every header `parse_from_string` gives is a token of the text that is not in SPECIAL |
| DataParse.ValueRestStep | schemascii/data.py:193-202 | one turn of the value loop: stop if the token ahead is in SPECIAL, otherwise go on with the token appended |
| DataParse.BlankBeforeBraceAsWritten | schemascii/data.py:192-216 | for `a { x = 1 }`, the value loop restores to just before the blank, so the blank is where `\n` or `;` is expected, and the parse fails |
| DataParse.BlankBeforeBraceIntended | schemascii/data.py:192-218 | when the blank is skipped, the same input gives the pair `x = 1` and stops at `}` |
| DataParse.ValueBlankBraceAsWritten | schemascii/data.py:196-216 | on a blank before `}`, the value part as written fails with the line-end complaint at the blank |
| DataParse.ValueBlankBraceIntended | schemascii/data.py:192-216 | on a blank before `}`, the value part as intended succeeds and stops at `}` |
| DataParser.Parser.constructor | schemascii/data.py:74-78 | tokenizes the text and starts at the first token |
| DataParser.Parser.Restore | schemascii/data.py:119-123 | the position becomes the saved one; the last significant position is kept |
| DataParser.Parser.MarkUsed | schemascii/data.py:125-127 | the last significant position becomes the current one |
| DataParser.Parser.Look | schemascii/data.py:92-95 | the current token, or `"\0"` past the end |
| DataParser.Parser.SkipSpace | schemascii/data.py:129-134 | the loop stops where the function definition does, and reports whether it moved |
| DataParser.Parser.ComplainEof | schemascii/data.py:85-90 | the end-of-input DiagramSyntaxError at the last significant position |
| DataParser.Parser.Eat | schemascii/data.py:97-114 | the object's new state and result are those of `eat` |
| DataParser.Parser.Advance | schemascii/data.py:103-109 | moves one token ahead: a newline token starts a new line at column 0; any other token moves the column by its length |
| DataParser.Parser.SkipComment | schemascii/data.py:136-139 | new state and error as `skip_comment` |
| DataParser.Parser.SkipI | schemascii/data.py:141-150 | new state and error as `skip_i` |
| DataParser.Parser.Expect | schemascii/data.py:152-158 | new state and error as `expect` |
| DataParser.Parser.ExpectNot | schemascii/data.py:160-163 | error as `expect_not` |
| DataParser.Parser.ParseValue | schemascii/data.py:192-202 | the value loop with save and restore gives what the value function gives |
| DataParser.Parser.ParseValuePart | schemascii/data.py:190-216 | as the value part |
| DataParser.Parser.ParseKvPair | schemascii/data.py:179-218 | as `parse_kv_pair` |
| DataParser.Parser.ParseSection | schemascii/data.py:165-177 | as `parse_section` |
| DataParser.Parser.ParsePairs | schemascii/data.py:172-175 | the section's dictionary is its pairs merged in order, or the first pair's error |
| DataParser.ParseFromString | schemascii/data.py:68-224 | the imperative parse gives exactly the sections, or the error, of the recursive definition |
| DataSections.StarMatchesAll | schemascii/data.py:36-38 | the header `*` matches every namespace |
| DataSections.LiteralMatch | schemascii/data.py:36-38 | a header without wildcards matches exactly itself |
| DataSections.QuestionMatchesOne | schemascii/data.py:36-38 | `?` matches exactly the names one character long |
| DataSections.PrefixStar | schemascii/data.py:36-38 | `prefix*` matches every name that starts with the prefix |
| DataSections.GetValuesFor | schemascii/data.py:226-231 | the loop gives every matching section's data merged in order |
| DataSections.ValuesForKeys | schemascii/data.py:226-231 | a key is in the result exactly when some matching section has it |
| DataSections.ValuesForLastWins | schemascii/data.py:226-231 | the value comes from the last matching section that has the key |
| DataSections.ValuesForAppend | schemascii/data.py:226-238 | the values over appended sections are the later values merged over the earlier ones |
| DataSections.MergeAssoc | schemascii/data.py:230 | merging dictionaries is associative |
| DataSections.OrValues | schemascii/data.py:233-238 | `d \| other` is NotImplemented exactly when other is neither Data nor dict; otherwise other's values win over d's, and a dict acts as a `*` section |
| DataSections.GlobalStar | schemascii/data_parse.py:206-207 | `global_options` takes the values of an appended `*` section |
| DataSections.GlobalLiteral | schemascii/data_parse.py:206-207 | `global_options` ignores a section with a literal header |
| DataSections.DefineKeepsNames | schemascii/data.py:56-66 | `define_option` fails exactly when the namespace already has a different option with that name; otherwise the option is present afterwards; other namespaces are untouched and option names stay unique |
| DataSections.DefineIdempotent | schemascii/data.py:61-62 | defining the same option a second time changes nothing and raises nothing |
| DataSections.OptionRegistry.DefineOption | schemascii/data.py:56-66 | the registry and error are those the function definition gives |
| DataConsumers.Own | schemascii/data_consumer.py:63-64 | the class's own namespaces are exactly the registry keys bound to that class |
| DataConsumers.Chain | schemascii/data_consumer.py:66-77 | chaining succeeds exactly when both parts do, concatenates them, and raises the first part's error first |
| DataConsumers.ChainAssoc | schemascii/data_consumer.py:66-67 | chaining is associative |
| DataConsumers.Namespaces | schemascii/data_consumer.py:61-68 | `get_namespaces` starts with the class's own namespaces; a class that does not inherit has exactly those; an inheriting class whose `inherit_from` is None raises TypeError |
| DataConsumers.NamespacesRegistered | schemascii/data_consumer.py:61-68 | every namespace returned is a key of the registry |
| DataConsumers.ParentNamespacesRegistered | schemascii/data_consumer.py:66-67 | every namespace the parents contribute is a key of the registry |
| DataConsumers.ParentNamespacesAppend | schemascii/data_consumer.py:66-67 | the parents' namespaces over concatenated parent lists are the chain of the two |
| DataConsumers.ParentNamespacesIncluded | schemascii/data_consumer.py:66-67 | every parent's namespaces occur, with multiplicity, among those collected from the parents |
| DataConsumers.Options | schemascii/data_consumer.py:72-83 | `get_options` starts with the class's own options; a class that does not inherit has exactly those; an inheriting class whose `inherit_from` is None raises TypeError; an inherit set admits only parent options with those names |
| DataConsumers.Named | schemascii/data_consumer.py:81-82 | keeps exactly the options whose names are in the set |
| DataConsumers.ParentOptionsIncluded | schemascii/data_consumer.py:75-82 | a parent option is inherited when inheriting is total or its name is listed |
| DataConsumers.ParentOptionsMember | schemascii/data_consumer.py:76-77 | each parent's options are among the options chained from the parents |
| DataConsumers.MergedKeys | schemascii/data_consumer.py:94-96 | a key is in the merged values exactly when some namespace supplies it |
| DataConsumers.MergedLastWins | schemascii/data_consumer.py:94-96 | a key's merged value comes from the last namespace that supplies it |
| DataConsumers.ValueReprs | schemascii/data_consumer.py:112 | the choices are listed one repr per choice, in order |
| DataConsumers.RaiseFor | schemascii/data_consumer.py:102-120 | every validation error names `namespaces[-1]`, and with no namespaces that index raises IndexError first |
| DataConsumers.ResolveValues | schemascii/data_consumer.py:89-120 | the merge loop and the validation loop give the specification's merged, checked values or its error |
| DataConsumers.ResolveSnoc | schemascii/data_consumer.py:99-120 | one more option: the earlier error, or that option's check on the earlier values |
| DataConsumers.ResolveStops | schemascii/data_consumer.py:99-120 | once an option fails, later options are never looked at |
| DataConsumers.ResolveKeepsOthers | schemascii/data_consumer.py:99-120 | validation succeeds without adding or dropping keys and without changing keys that are no option's |
| DataConsumers.ResolveErrors | schemascii/data_consumer.py:99-120 | a failure is IndexError when there are no namespaces, and otherwise NoDataError, BOMError or DataTypeError |
| DataConsumers.ResolveSucceeds | schemascii/data_consumer.py:99-120 | validation succeeds exactly when every option is acceptable, and then each option's value is its resolved value |
| DataConsumers.ResolveOkIff | schemascii/data_consumer.py:99-120 | validation succeeds exactly when every option is present with an acceptable value or has a default |
| DataConsumers.ResolveOkValues | schemascii/data_consumer.py:99-120 | on success each option holds its default, its checked choice or its converted value |
| DataConsumers.AcceptableByType | schemascii/data_consumer.py:99-120 | with the built-in types, a given value is refused only when it is outside the choices, or a string `float()` refuses for a float option |
| DataConsumers.BaseScaleNotNumber | schemascii/data_consumer.py:46-120 | a `scale` that is not a number raises DataTypeError `option <last namespace>.scale: invalid float value: '<text>'` |
| DataConsumers.ResolveFirstFailure | schemascii/data_consumer.py:99-120 | the error raised is the check of the first option that fails |
| DataConsumers.XmlValues | schemascii/data_consumer.py:85-120 | `to_xml_string` first fails with `get_namespaces`'s error, then with `dynamic_namespaces`' error |
| DataConsumers.AsWrittenNeverRenders | schemascii/data_consumer.py:56-90 | as written, `dynamic_namespaces` takes no `self`, so calling it through the instance always raises TypeError and nothing renders |
| DataConsumers.IntendedRenders | schemascii/data_consumer.py:85-120 | with `dynamic_namespaces` callable, values are resolved exactly when every option is acceptable over the merged namespaces |
| DataConsumers.BaseDefaults | schemascii/data_consumer.py:45-50 | with no data, the base class gives scale 15, linewidth 2 and color "black" |
| DataConsumers.Lookup | schemascii/data_consumer.py:149-151 | the class a registered namespace is bound to |
| DataConsumers.RegisterValid | schemascii/data_consumer.py:144-157 | registration keeps the registry's keys distinct and the class ranking; it fails exactly when the namespace is non-empty and already registered, and then nothing changes |
| DataConsumers.WithInheritFromRanked | schemascii/data_consumer.py:153-155 | setting `inherit_from` to the bases keeps every class above its parents |
| DataConsumers.AppendKeyDistinct | schemascii/data_consumer.py:152 | adding an unregistered namespace keeps the keys distinct |
| DataConsumers.RegisterOwn | schemascii/data_consumer.py:147-152 | registration adds the namespace to exactly the registered class's own namespaces |
| DataConsumers.Registry.constructor | schemascii/data_consumer.py:54 | an empty registry over the given classes |
| DataConsumers.Registry.Register | schemascii/data_consumer.py:144-157 | the registry and classes change as the registration function gives |
| Configs.Reprs | schemascii/configs.py:73 | the choices are listed one repr per choice, in order |
| Configs.OptionsDict.constructor | schemascii/configs.py:62 | wraps the dict that `apply_config_defaults` mutates |
| Configs.ApplyConfigDefaults | schemascii/configs.py:62-84 | the loop mutates the dict exactly as the specification does, with `float`, `str` and `bool` converting the values, and returns the same dict or the first error |
| Configs.AcceptableByClass | schemascii/configs.py:15-83 | with the options' own classes, a given value is refused only when it is outside the choices, or a string `float()` refuses for a float option |
| Configs.NolabelsFalseText | schemascii/configs.py:28-77 | `nolabels = "False"` is accepted and becomes True, as `bool` of any non-empty string is |
| Configs.PaddingNotNumber | schemascii/configs.py:16-83 | a padding that is not a number raises `config option padding: invalid float value: ` followed by the text |
| Configs.AppliedSnoc | schemascii/configs.py:64-83 | one more option: the earlier error, or that option's step on the earlier dict |
| Configs.AppliedStops | schemascii/configs.py:64-83 | once an option fails, later options are never looked at |
| Configs.AppliedKeepsOthers | schemascii/configs.py:64-83 | keys that are no option's keep their values, and no key is added or dropped except options |
| Configs.AppliedResolves | schemascii/configs.py:64-84 | on success every option holds its default, its checked choice or its converted value |
| Configs.AppliedSucceeds | schemascii/configs.py:64-83 | the loop succeeds exactly when every option given has an acceptable value |
| Configs.AsWrittenRaisesAttributeError | schemascii/configs.py:70-79 | as written, the loop fails exactly where the intended one does, but with AttributeError because `errors.ArgumentError` does not exist; the dict is changed the same way |
| Configs.OptionNamesDistinct | schemascii/configs.py:15-34 | OPTIONS has no two options with the same name |
| Configs.EmptyGetsDefaults | schemascii/configs.py:15-67 | an empty dict gets padding 10, label "VL" and nolabels False |
| Configs.LabelOutsideChoices | schemascii/configs.py:22-74 | a label outside L, V and VL is refused, and as written the refusal is the AttributeError |
| FindComponents.Search | schemascii/findcomponents.py:22-30 | `boxtop.search(line)`: the first position from which `.~+.` matches, and no match before it |
| FindComponents.FirstTop | schemascii/findcomponents.py:29-30 | the first row holding a box top, and no box top in any row above it |
| FindComponents.ScanDownShape | schemascii/findcomponents.py:37-50 | the scan under a box top closes at the first row repeating the top, with one inner text per row between; it is fragmented at a row that is neither the top nor framed by `:`; it is unfinished when every remaining row is a side |
| FindComponents.ScanDownUnfinished | schemascii/findcomponents.py:48-50 | the box is unfinished exactly when every row below the top is a side row |
| FindComponents.GridRows | schemascii/findcomponents.py:51 | `Grid(filename, '\n'.join(inners))` gives at least one row, all padded to the same width |
| FindComponents.DesignateAccepts | schemascii/findcomponents.py:53-58 | the box gets a designator exactly when there is one plain match or one BOM match; "missing reference designator" exactly when there is neither |
| FindComponents.MessagesDiffer | schemascii/findcomponents.py:54-58 | the two ValueError messages are different |
| FindComponents.DesignateChooses | schemascii/findcomponents.py:59-62 | the plain match is preferred, else the BOM match |
| FindComponents.NextBigAt | schemascii/findcomponents.py:29-50 | the search scans down from the first box top, using that top's text |
| FindComponents.NextBigNone | schemascii/findcomponents.py:28-71 | the search stops exactly when no row holds a box top; an error needs a box top |
| FindComponents.NextBigShape | schemascii/findcomponents.py:31-64 | a box found has its top and bottom equal, `:` sides, and a designator inside; its BOM data is what the inner search returned |
| FindComponents.MaskBox | schemascii/findcomponents.py:66-68 | exactly the cells of the box are masked to a space, and every other mask is kept |
| FindComponents.MaskRect | schemascii/findcomponents.py:66-68 | masking keeps the grid's shape |
| FindComponents.Screen | schemascii/findcomponents.py:29 | `grid.lines` shows each cell's mask over its character, one row per data row |
| FindComponents.MaskShrinks | schemascii/findcomponents.py:66-69 | masking a found box strictly shrinks the set of unmasked non-space cells, so the `while True` loop ends |
| FindComponents.PassShrinks | schemascii/findcomponents.py:29-69 | each pass that finds a box masks it, and that shrinks what is left to search |
| FindComponents.PassFound | schemascii/findcomponents.py:31-63 | the box a pass appends is well formed on the grid it was found on |
| FindComponents.MaskBoxMasks | schemascii/findcomponents.py:66-68 | masking another box keeps earlier boxes masked, and masks the box itself |
| FindComponents.BigKeepsMasks | schemascii/findcomponents.py:25-72 | a box masked before `findbig` starts stays masked |
| FindComponents.BigMasksBoxes | schemascii/findcomponents.py:25-72 | on success every box found is masked afterwards, and no box top remains visible |
| FindComponents.BigAvoidsMasked | schemascii/findcomponents.py:29-68 | no box found overlaps a box that was already masked |
| FindComponents.BigSeparate | schemascii/findcomponents.py:25-72 | the boxes `findbig` returns never overlap |
| FindComponents.BigCons | schemascii/findcomponents.py:28-69 | `findbig` is the first box found, followed by `findbig` of the grid with it masked |
| FindComponents.Cleared | schemascii/findcomponents.py:76 | `clrall` leaves no masks, at the grid's shape |
| FindComponents.AllSeparate | schemascii/findcomponents.py:75-79 | `findall`'s big boxes never overlap, and no small component lies inside one |
| FindComponents.MaskedBlank | schemascii/findcomponents.py:78 | small components are found only outside masked boxes |
| FindComponents.BigDone | schemascii/findcomponents.py:49-72 | a pass that raises or finds nothing ends the loop with that outcome |
| FindComponents.BigAdvance | schemascii/findcomponents.py:63-69 | a pass that finds a box masks it, shrinks what is left, and keeps the loop on course |
| FindComponents.ScanBox | schemascii/findcomponents.py:37-50 | the inner `for j` loop gives the scan the function defines |
| FindComponents.SearchInside | schemascii/findcomponents.py:51-52 | the box's inner lines are searched as a grid of their own |
| FindComponents.NextBox | schemascii/findcomponents.py:29-64 | one pass of the outer `for` gives the box, its BOM data or the error the function defines |
| FindComponents.MaskColumn | schemascii/findcomponents.py:67-68 | one column of the box masked in place |
| FindComponents.MaskBoxOf | schemascii/findcomponents.py:66-68 | the nested masking loops mask exactly the box |
| FindComponents.BigPass | schemascii/findcomponents.py:29-69 | one pass of the `while True`: done with the final outcome, or a new box masked and less left to search |
| FindComponents.FindBig | schemascii/findcomponents.py:25-72 | the result and the masks left in the grid are those of the recursive definition |
| FindComponents.FindAll | schemascii/findcomponents.py:75-79 | `clrall`, then the big boxes, then the small ones on what is left; the result is the definition's |
| SmallComponents.RunDigits | schemascii/findcomponents.py:5 | the `\d+` group is all digits |
| SmallComponents.SmallAtShape | schemascii/findcomponents.py:5 | the pattern matches at i exactly when i starts a run of capitals followed by a digit; the match starts at i and is well formed |
| SmallComponents.SmallAtWellFormed | schemascii/findcomponents.py:5 | a match is capitals, then digits, then optionally `:` and non-space text |
| SmallComponents.SmallAtGroups | schemascii/findcomponents.py:5-18 | the groups are the letters, the digits and the text after `:` |
| SmallComponents.TailShape | schemascii/findcomponents.py:5 | `(:[^\s]+)?` takes the longest run of non-space characters after `:` |
| SmallComponents.SmallAdvances | schemascii/findcomponents.py:12 | each match is non-empty, so `finditer` moves forward |
| SmallComponents.SmallMatchesShape | schemascii/findcomponents.py:12 | `finditer` gives well-formed matches, in order, without overlap, and every position where a match could start lies inside one of them |
| SmallComponents.RowSmallShape | schemascii/findcomponents.py:12-18 | each match of a row adds one component (a match without a `:` tail) or one BOM entry (with a tail), in order |
| SmallComponents.AllSmallCountBy | schemascii/findcomponents.py:11-18 | there are as many results as matches |
| SmallComponents.AllSmallBoxesBy | schemascii/findcomponents.py:11-18 | every component is a match without a tail, at its row |
| SmallComponents.AllSmallDataBy | schemascii/findcomponents.py:11-18 | every BOM entry is a match with a tail |
| SmallComponents.ScannerAgrees | schemascii/findcomponents.py:5-12 | the scanner's matches are the pattern's matches |
| SmallComponents.AllSmallShape | schemascii/findcomponents.py:8-19 | one result per match over all rows; each component is a match without a tail at its row, spanning the match, and each BOM entry is a match with a tail |
| SmallComponents.FindSmall | schemascii/findcomponents.py:8-19 | the nested loops give the definition's components and BOM entries |
| EdgeScan.LookMasked | schemascii/grid.py:26-56 | masking one cell changes what is seen only at that cell, and a cell inside the grid then shows the mask, even one that showed a space |
| EdgeScan.PointsSnoc | schemascii/edgemarks.py:11-24 | the cells visited grow one at a time |
| EdgeScan.ScanFirstVisits | schemascii/edgemarks.py:25-28 | the flags the walk records are the first visits of the non-skipped cells; cells outside the walk keep their masks; each recorded cell shows its mark afterwards |
| EdgeScan.FirstVisitsDistinct | schemascii/edgemarks.py:25-28 | no point is recorded twice, and every record is a visited cell whose character is not skipped |
| EdgeScan.ScanUnmarked | schemascii/findwires.py:12-24 | a walk that masks nothing records every visit of a non-skipped cell and leaves the masks as they were |
| EdgeScan.OverEdges | schemascii/edgemarks.py:7-29 | the loop over the four sides gives the records and masks of the definition |
| EdgeMarks.RowMember | schemascii/edgemarks.py:12-20 | a cell is on a side row exactly when it has that side, that row, and a column in the range |
| EdgeMarks.ColMember | schemascii/edgemarks.py:15-23 | a cell is on a side column exactly when it has that side, that column, and a row in the range |
| EdgeMarks.EdgeCellsAround | schemascii/edgemarks.py:11-24 | the cells visited are exactly the cells just outside the box, each with the side it touches |
| EdgeMarks.TakeFlags | schemascii/edgemarks.py:32-42 | the records and the new masks are those of the walk with `' -\|()*'` skipped and `*` as the mark |
| EdgeMarks.TakeFlagsRecords | schemascii/edgemarks.py:32-42 | `take_flags` records each non-wire character next to the box once, in walk order; each shows `*` afterwards, and cells away from the box are untouched |
| EdgeMarks.FlagAtDistinct | schemascii/edgemarks.py:54-56 | with distinct points, the flag looked up at a flag's point is that flag's character |
| EdgeMarks.TerminalsOfShape | schemascii/edgemarks.py:49-58 | a terminal is reported exactly at each visited cell holding a wire end for its side (`*\|()` above or below, `*-` left or right), with the flag at that point if any |
| EdgeMarks.TerminalsPass | schemascii/edgemarks.py:49-58 | the second walk gives the definition's terminals |
| EdgeMarks.FindEdgeMarks | schemascii/edgemarks.py:45-59 | the flags are taken first, and the terminals are then read from the masked grid |
| EdgeMarks.FlagsBecomeTerminals | schemascii/edgemarks.py:45-58 | every flag taken becomes a terminal carrying that flag, since its cell now shows `*` |
| Flags.WithBox | schemascii/flags.py:30-33 | one `Flag(c, box, s)` per hit |
| Flags.FindFlags | schemascii/flags.py:6-34 | the records and the new masks are those of the walk over this file's cells, with `' -\|()*'` skipped and the side's wire glyph as the mark |
| Flags.FindFlagsRecords | schemascii/flags.py:6-34 | the flags are the first visits of non-wire cells; each shows `\|` on the top or bottom and `-` on the left or right afterwards; cells away from the walk are untouched |
| Flags.TopSideRow | schemascii/flags.py:10-11 | as written, the top side is walked on row `p2.y - 1`, inside the box, rather than above it |
| FindFlags.GetFlags | schemascii/findflags.py:6-31 | the loop gives the result and masks of the definition |
| FindFlags.Visit | schemascii/findflags.py:17-31 | `*` or `o` raises ValueError; a space is passed over; any other character is recorded and masked with its side's wire glyph |
| FindFlags.GetFlagsSnoc | schemascii/findflags.py:8-31 | one more cell: the earlier error, or that cell's visit |
| FindFlags.ErrStays | schemascii/findflags.py:22-23 | after the first raise, later cells are never visited |
| FindFlags.GetFlagsRaises | schemascii/findflags.py:6-31 | the walk raises exactly when some cell shows `*` or `o`; otherwise it records one flag per non-space cell; it masks only visited cells, with their side's wire glyph |
| FindWires.GetFlags | schemascii/findwires.py:6-24 | the loop gives the definition's flags and changes nothing |
| FindWires.WireFlagsUnmarked | schemascii/findwires.py:6-24 | the flags are the walk's records with `\|-*o ` skipped, each carrying the box, and the masks are unchanged |
| FindWires.AllVisitsWires | schemascii/findwires.py:6-24 | the flags are every visit of a non-wire cell, in walk order |
| FindWires.AgreesWithFindFlags | schemascii/findwires.py:6-24 | on the same box, when no cell beside it shows `\|`, `-`, `*` or `o` and no cell is visited twice, the flag finder of findflags.py succeeds with exactly these flags, and only ever masks a cell with its side's glyph; with a `*` beside the box findflags.py raises where this file passes over it |
| FindWires.UnvisitedUnmasked | schemascii/findflags.py:6-31 | the findflags.py walk leaves every cell it does not visit as it was |
| RenderRegistry.Uppers | schemascii/components_render.py:11-12 | one upper-cased designator per designator |
| RenderRegistry.UppersAt | schemascii/components_render.py:12 | each designator is upper-cased on its own |
| RenderRegistry.AllFreeCons | schemascii/components_render.py:11-15 | registering the first designator leaves the rest free exactly when all were free before |
| RenderRegistry.RegisterAllSucceeds | schemascii/components_render.py:10-15 | registration raises nothing exactly when every upper-cased designator is free (and distinct); then each maps to the function |
| RenderRegistry.RegisterAllKeeps | schemascii/OLD_components_render.py:31-37 | a raise names a designator already taken; existing entries are never overwritten; every new entry is one of the designators mapped to the function |
| RenderRegistry.Table.constructor | schemascii/components_render.py:5 | `_RENDERERS = {}` |
| RenderRegistry.Table.Register | schemascii/components_render.py:10-15 | the loop leaves the table and error the definition gives, the designators before a raise staying registered |
| ComponentsRender.TwoCheck | schemascii/components_render.py:23-27 | with other than two terminals, TypeError naming the component; otherwise the wrapped function's result |
| ComponentsRender.Renderer | schemascii/components_render.py:8-16 | registers under every designator, raising RuntimeError at the first one taken; the decorator returns None, so the decorated name is bound to None |
| ComponentsRender.TwoTerminal | schemascii/components_render.py:19-28 | registers the two-terminal check around the function, and returns None |
| ComponentsRender.RenderComponent | schemascii/components_render.py:31-36 | NameError "No renderer defined for …" exactly when the type has no renderer; otherwise None, since the drawing is not written |
| ComponentsRender.UpperR | schemascii/components_render.py:39 | `"R".upper()` is `"R"` |
| ComponentsRender.LoadedTable | schemascii/components_render.py:39-41 | loading the module registers exactly `R`, with the two-terminal check around `resistor` |
| ComponentsRender.Load | schemascii/components_render.py:5-41 | after loading, the table holds only `R`, it renders as the checked resistor, and the name `resistor` is None |
| ComponentsRender.RenderAfterLoad | schemascii/components_render.py:31-41 | after loading, an `R` box renders to None, any other type is refused, and the `R` renderer accepts exactly two terminals |
| OldComponentsRender.Component | schemascii/OLD_components_render.py:28-39 | registers under every designator, raising RuntimeError "… reference designator already taken" at the first one taken; returns the function |
| OldComponentsRender.NTerminal | schemascii/OLD_components_render.py:42-58 | with other than n terminals, TerminalsError "… can only have n terminals"; otherwise the wrapped function's result |
| OldComponentsRender.Unwrap | schemascii/OLD_components_render.py:61-73 | BOMError "Ambiguous BOM data …" exactly when there is more than one entry; one entry is passed on; none gives an empty entry for the box |
| OldComponentsRender.NoAmbiguous | schemascii/OLD_components_render.py:61-75 | the wrapped function is called with the unwrapped entry, or the error is raised |
| OldComponentsRender.CountCheckedFirst | schemascii/OLD_components_render.py:42-75 | the terminal count is checked before the BOM data, and with both right the drawing gets the unwrapped entry |
| OldComponentsRender.PlusFirst | schemascii/OLD_components_render.py:86-90 | two terminals, the same ones, with the `+` terminal first when either has it; a second terminal without `+` leaves the order |
| OldComponentsRender.PlusFirstTwice | schemascii/OLD_components_render.py:89-90 | with both flagged `+` the swap undoes itself; otherwise sorting twice is sorting once |
| OldComponentsRender.SortTerminals | schemascii/OLD_components_render.py:78-93 | TerminalsError with the list unchanged unless there are two terminals; otherwise the list is sorted in place as PlusFirst says |
| OldComponentsRender.RStripChars | schemascii/OLD_components_render.py:222 | `rstrip(chars)` keeps the longest prefix whose last character is not in chars, and every character removed is in chars |
| OldComponentsRender.RStripAfter | schemascii/OLD_components_render.py:222 | stripping a tail made only of chars gives back what came before it |
| OldComponentsRender.JackStyle | schemascii/OLD_components_render.py:215-223 | without a style suffix, the style is input on the left or top and output otherwise, and the text is kept |
| OldComponentsRender.JackStyleSuffix | schemascii/OLD_components_render.py:216-223 | a caption followed by `,circle`, `,input` or `,output` gives that style and the caption |
| OldComponentsRender.StyleSelected | schemascii/OLD_components_render.py:216-217 | such a text ends with one of the three suffixes |
| OldComponentsRender.JackStripped | schemascii/OLD_components_render.py:222 | stripping the style letters stops at the comma, and removing the comma gives back the caption |
| OldComponentsRender.Transistor | schemascii/OLD_components_render.py:252-259 | BOMError "Need type of transistor …" exactly when the text does not start with pnp, npn, nfet or pfet in any case; otherwise the lower-cased type, with no `:` in it, and its flags |
| OldComponentsRender.LowerPrefix | schemascii/OLD_components_render.py:253 | lower-casing a text lower-cases its prefix |
| OldComponentsRender.TransistorParts | schemascii/OLD_components_render.py:256-259 | `type:part` splits into the lower-cased type and the part number |
| OldComponentsRender.GroundType | schemascii/OLD_components_render.py:341-358 | empty text means earth; the result is one of earth, chassis, signal and common, and is the text itself when that names one; any other text raises BOMError |
| OldComponentsRender.SwitchAsWritten | schemascii/OLD_components_render.py:369-390 | as written, the switch draws circles with `xmltag`, which the module never imports, so every switch raises NameError |
| OldComponentsRender.SwitchTypeUnreached | schemascii/OLD_components_render.py:369-414 | on `xy` the code as written raises NameError where the intended code raises the unknown-type BOMError; on `nc:main` the intended code gives `nc` and `main` |
| OldComponentsRender.SwitchType | schemascii/OLD_components_render.py:369-414 | empty text means `no`; a result's kind is one of nc, no, ncm and nom, with no `:` |
| OldComponentsRender.SwitchParts | schemascii/OLD_components_render.py:370-414 | `kind:caption` and a bare kind are accepted exactly for the four kinds; any other kind raises "Unknown switch symbol type" |
| OldComponentsRender.RenderComponentAsWritten | schemascii/OLD_components_render.py:444-453 | an unknown type raises UnsupportedComponentError; a known one raises NameError, because `xmltag` is not imported |
| OldComponentsRender.RenderComponent | schemascii/OLD_components_render.py:444-453 | an unknown type raises UnsupportedComponentError |
| OldComponentsRender.RenderComponentWraps | schemascii/OLD_components_render.py:444-453 | the code as written always fails; as intended, a renderer's output is wrapped in `<g class="component T">`, and a renderer's error is passed on |
| Svg.BuildTag | schemascii/svg.py:21-36 | the loop over the attributes builds `<tag attrs>contents</tag>` as the definition does |
| Svg.AttrsSnoc | schemascii/svg.py:23-34 | each attribute adds its own text after the ones before |
| Svg.DropFalse | schemascii/svg.py:24-25 | no False value remains, and nothing is added |
| Svg.FalseOmitted | schemascii/svg.py:24-25 | an attribute whose value is False adds nothing |
| Svg.AttrsAppend | schemascii/svg.py:23-34 | the attributes' text over two lists is the concatenation |
| Svg.SameNames | schemascii/svg.py:34 | attribute lists that mangle to the same names and values give the same text |
| Svg.PlainName | schemascii/svg.py:34 | a name with no trailing `_` and no `__` is written as it is |
| Svg.ReplaceAfterPlain | schemascii/svg.py:34 | `replace("__", "-")` replaces the first `__` and then goes on after it |
| Svg.NameExamples | schemascii/svg.py:34 | `class_` is written `class`, and `stroke__width` is written `stroke-width` |
| Svg.ClassName | schemascii/svg.py:34-40 | `class_` and `class` both give `class` |
| Svg.StrokeWidthName | schemascii/svg.py:34-46 | `stroke__width` gives `stroke-width` |
| Svg.Group | schemascii/svg.py:39-40 | a `g` tag around the items, with a class only when one is given |
| Svg.Path | schemascii/svg.py:43-47 | a `path` tag with d, fill, stroke-width, stroke and class in that order, the False ones left out |
| Svg.Circle | schemascii/svg.py:50-53 | a `circle` tag with cx, cy, r, stroke, fill and class in that order, the False ones left out |

## Left out

- DataSections.GlobMatch: handles `*` and `?` only. `fnmatch`'s `[seq]` and `[!seq]` classes, and its platform case folding, are not modelled.
- Text.Upper: ASCII only. Python's `str.upper`, the `\d` and `[A-Z]` classes of the regexes, and `re.I` (which also lets `[a-z]` match `İ`, `ı`, `ſ` and the Kelvin sign) are Unicode-aware. The same holds for Text.Lower, Text.IsDigit, Text.IsUpper and Text.IsAlpha.
- DataParse.Convert: `float()` is not modelled. Text that `int()` refuses but `float()` accepts becomes `VFloat(text)`. Which texts those are is the parameter `acceptsFloat`. Such a value is printed as its text, so DataConsumers.ValueRepr and Builtins.StrText do not normalise it the way Python's float `repr` and `str` do (`1e3` prints as `1000.0` there).
- InlineConfigs.ToValue: the `float()` conversion of an inline config value is the same `acceptsFloat` parameter.
- Text.Repr: a string's `repr` is the string between single quotes. Python's escaping of `'`, `\` and non-printable characters, and its switch to double quotes, are not modelled.
- DataParse.Unescape: only the simple backslash escapes of `unicode-escape`, and a backslash before a line break, are decoded. `\x`, `\u`, `\U`, `\N{…}` and octal escapes are kept as they are.
- Builtins.FloatOf: `float(n)` of an int is written `n.0`; Python writes an int of 17 or more digits in exponent form. Whether a float text is zero, which `bool` needs, is the parameter `floatNonZero`.
- Builtins.Call: only the types `str`, `float` and `bool` are modelled. Another type named by a consumer's option is taken to raise ValueError. The options in this repository use only `str` and `float`.
- DataConsumers.Check: the conversion `opt.type(value)` is the parameter `convert`, so the validation lemmas hold for any conversion. DataConsumers.TypeConverter is the one the built-in types give, and DataConsumers.AcceptableByType and DataConsumers.BaseScaleNotNumber are proved for it.
- Configs.Step: the lemmas about the loop hold for any conversion, given as the parameter `convert`. Configs.ApplyConfigDefaults uses Configs.ClassConverter, the conversion of the options' own classes.
- DataParse.ExpectLineEnd: the message names `'\n'` before `';'`. Python builds it by iterating the set `{"\n", ";"}`, whose order depends on the per-process string hash, so a run may name them the other way round.
- ClassStatements.InitSubclass: Python's TypeError messages begin with the class-qualified name of the hook (`Annotation.__init_subclass__()`), and report every missing argument at once. The model's messages start at `__init_subclass__()` and name the first missing argument only.
- ClassStatements: the component classes of schemascii/components/ other than those of components/__init__.py pass `ids=` and `namespaces=`, which `Component.__init_subclass__` refuses too. Those files are not part of this model.
- Utils.Points2Path: integer points only. The source may pass `x * scale` as floats, formatted by `fix`.
- Utils.MergeColinear: `colinear` is a floating-point phase test (utils.py:158-160). Here it is an unconstrained parameter.
- ComponentKinds.FormatIdText: `utils.id_text` draws text with float geometry. Here it is a parameter `idText`.
- Metric.FormatMetricUnit: `normalize_metric` and `best_exponent` use Decimal formatting. They are parameters, and only the range and no-number branches are modelled.
- OldComponentsRender.JackStyle: the jack's drawing is not modelled, nor the circle style's `xmltag` call at OLD_components_render.py:227, which raises NameError like the switch's. The same holds for all drawing bodies of OLD_components_render.py, components_render.py and schemascii/components/.
- Components.FromRd: Python's iteration order over the set of seen cells is left open. Any order of the cells is allowed (`Components.Enumerate`).
- `Wire.is_wire_character` and `Wire.start_dirs` do not exist in the source. They become the `WireTable` parameter.
- The `options` class variable is shared by every data-consumer subclass that does not assign its own. Writing `inherit_from` through it (data_consumer.py:153-155) therefore reaches every class that shares it. The model gives each class its own entry.
- `print` and `warnings.warn` output is not modelled, including the unknown-key warning of `to_xml_string` and its SVG wrapping.
- DiagramSyntaxError messages keep their text, but the line and caret echo of `complain` is reduced to the position.
- Floating-point geometry in utils.py is left out: `centroid`, `sort_counterclockwise`, `sharpness_score`, `deep_transform`, `fix_number`, `polylinegon`, `bunch_o_lines`, `make_text_point`, `arrow_points`, `make_variable`, `light_arrows`, `make_plus`.
- `next_wire` and `find_wires` in wires.py are left out: they use float `phase`, emit SVG and call the undefined `utils.extend`.
- The file-reading branch of `Grid.__init__` and `spark`, which prints with ANSI colours, are left out.
- `__main__.py`, `__init__.py` and `configs.add_config_arguments` are argparse front ends and file I/O, and are left out.
- The scripts under scripts/ and release.py are tooling and are left out.
- errors.py has no behaviour. Its classes are the constructors of one `Error` datatype.

## Findings

| source | as written | input that shows it | evidently intended | confidence | as-written member | corrected member |
|---|---|---|---|---|---|---|
| schemascii/utils.py:186-195 | `intersecting` tests whether the sorted start of PQ lies in AB, or the sorted end of AB lies in PQ | A=2, B=10, P=0, Q=5 share [2, 5], but the result is false (Utils.IntersectingMissesOverlap) | true exactly when the two ranges share a point | not executed | Utils.Intersecting | Utils.Overlapping |
| schemascii/utils.py:528-543 | `groupby` then a dict comprehension keeps only the last run of each side | terminals on sides left, top, left: the first left terminal is dropped (Utils.SortCounterclockwiseDropsTerminal) | every terminal of each side, sides in the order left, bottom, right, top; proved a permutation and idempotent (Utils.SortCounterclockwiseIsPermutation, Utils.SortCounterclockwiseIdempotent) | not executed | Utils.SortCounterclockwiseAsWritten | Utils.SortCounterclockwise |
| schemascii/utils.py:231-232 | `links.remove(links[i])` removes the first equal link, not the one at i | links (p,p), (q,s), (p,p): the first link is lost and a zero-length link stays (Utils.MergeColinearKeepsZeroLink) | `del links[i]`, which leaves no zero-length link (Utils.MergeFixedDropsZeroLinks) | not executed | Utils.MergeFrom | Utils.MergeFromFixed |
| schemascii/metric.py:20-24 | `"pnum kMGT"[index]` with an unchecked index counts back from the end on a negative index | exponent -15 gives "T", which reads back as 12 (Metric.NegativeIndexWraps) | IndexError outside -12..12, and a round trip inside (Metric.CheckedRoundTrip) | not executed | Metric.ExponentToMultiplier | Metric.ExponentToMultiplierChecked |
| schemascii/data.py:192-202,215-216 | the value loop restores to before the blanks it skipped, so a blank between a value and `}` is where `\n` or `;` is expected | `a { x = 1 }` raises DiagramSyntaxError | the pair `x = 1`, stopping at `}` | not executed | DataParse.BlankBeforeBraceAsWritten | DataParse.BlankBeforeBraceIntended |
| schemascii/data_consumer.py:56-57,89-90 | `dynamic_namespaces` takes no `self` but is called on the instance | any node: TypeError before anything renders | an empty tuple of namespaces | not executed | DataConsumers.AsWrittenNeverRenders | DataConsumers.IntendedRenders |
| schemascii/configs.py:70,79 | raises `_errors.ArgumentError`, which errors.py does not define | `label = "X"` raises AttributeError | ArgumentError with the message | not executed | Configs.AsWrittenRaisesAttributeError | Configs.AppliedResolves |
| schemascii/wires.py:35-37 | `point, s = next_in_dir(...)` unpacks before the None check | a `*` with `\|` to its right, searched rightward, raises TypeError (WireSearch.StarBeforeCrossing, WireSearch.NextInDirAgrees) | None, as the check on the next line shows | not executed | WireSearch.NextInDir | WireSearch.NextInDirIntended |
| schemascii/utils.py:546-553 | `is_clockwise` rotates the output of `sort_terminals_counterclockwise`, which drops a side's earlier run | [L2 (0,1) left, T (1,-1) top, L1 (0,0) left] is clockwise but gives False, since the sort returns only [L1, T] (Utils.IsClockwiseSplitRun) | True exactly when the list is a rotation of the sort that keeps every terminal | not executed | Utils.IsClockwiseAsWritten | Utils.IsClockwise |
| schemascii/OLD_components_render.py:450 | `render_component` calls `xmltag`, which the module never imports | any registered component type raises NameError | the renderer's output wrapped in `<g class="component T">` (OldComponentsRender.RenderComponentWraps) | not executed | OldComponentsRender.RenderComponentAsWritten | OldComponentsRender.RenderComponent |
| schemascii/OLD_components_render.py:379 | `switch` calls `xmltag` before it looks at the switch type | bom text `xy` raises NameError, never the unknown-type BOMError (OldComponentsRender.SwitchTypeUnreached) | parse the type, then draw | not executed | OldComponentsRender.SwitchAsWritten | OldComponentsRender.SwitchType |
| schemascii/annotation.py:15 | `class Annotation(DataConsumer, namespaces=...)` passes a class keyword, but no class from `DataConsumer` up to `object` defines `__init_subclass__`, so `object.__init_subclass__` gets it | the keyword `namespaces=(":annotation",)`: TypeError when the module is imported (ClassStatements.AnnotationClassRaises) | the class registered under its namespace, succeeding exactly when the namespace is free (ClassStatements.RegisterNamespacesSpec) | not executed | ClassStatements.AnnotationClassRaises | ClassStatements.ConsumerClassIntended |
| schemascii/annoline.py:14-15 | `class AnnotationLine(DataConsumer, namespaces=...)` passes a class keyword to `object.__init_subclass__` | the keyword `namespaces=(":annotation", ":annotation-line")`: TypeError when the module is imported (ClassStatements.AnnotationLineClassRaises) | the class registered under both namespaces in turn, succeeding exactly when they are distinct and neither is taken (ClassStatements.RegisterNamespacesSpec) | not executed | ClassStatements.AnnotationLineClassRaises | ClassStatements.ConsumerClassIntended |
| schemascii/components/__init__.py:35 | `class NTerminalComponent(Component)` gives no `names`, which `Component.__init_subclass__(cls, names)` requires | no class keywords: TypeError for the missing `names`, so no later class of the file is defined (ClassStatements.NTerminalClassRaises) | a helper base that registers no letters and raises nothing | not executed | ClassStatements.NTerminalClassRaises | ClassStatements.ComponentClassIntended |
