# Graph ingestion and encoding of the guideline visualisation page

This project models, in Dafny, the data-handling core of `app.js`. That file is the
script of a web page that draws a network twice, once plainly and once with
visual-design guidelines applied. The model covers:

- **CSV ingestion** (`parseCSV`). An edge list with a header line becomes a dataset. Its links follow the data lines, and its
  nodes are the distinct endpoint ids in the order they were first seen. A line
  without a comma gives a link whose target is JavaScript's `undefined`, modelled as `None`.
- **The degree table** that `renderGraph` builds. Every node starts at 0, and every link adds 1 to its
  source and 1 to its target, whether or not those ids are nodes.
- **The node encoding**: the `r` and `fill` callbacks. The radius is `5 + degree * 0.5` under the
  `size` guideline on the annotated view, and 5 otherwise. It is kept here in half-units
  as `10 + degree` or `10`. The fill is `palette[i % 7]` under `color`, and `#999` otherwise.
- **The guideline checkboxes**. The page state is a class holding the active set
  and the current dataset. The `change` listener adds or removes one guideline,
  and it redraws only once a dataset is loaded.
- **The dataset preview**. This is the first five links, rendered cell by cell. A cell whose endpoint is
  `undefined` throws a `TypeError`.
- **The sample generator** (`loadSampleData`). It builds a 30-node ring with at most one long-range link per node. The
  two `Math.random()` calls of each iteration become an oracle. One `Sample.Draw` per
  node says whether a long-range link was attempted and which target was drawn.

JavaScript details are modelled as follows:

- `String.prototype.trim` removes the ECMAScript WhiteSpace and LineTerminator code points.
- `split` with a one-character separator always yields at least one piece.
- `${i}` is the decimal rendering.
- `Set` and `Map` keep insertion order, so a `Set` is a duplicate-free sequence.
- `typeof e === 'object' ? e.id : e` is `Graph.Endpoint.Id`.
- `degrees.get(id) || 0` is `Degrees.Lookup`.

The modules are:

- `JsText`: trim, split and decimal digits.
- `Graph`: the dataset and the insertion-ordered set.
- `Csv`, `Degrees`, `Encoding` and `Render`: the pipeline stages.
- `Guidelines`: the guideline set and the page state.
- `Preview` and `Sample`.
- `Upload`: the `.csv` branch of the upload handler, and a worked example from CSV text to degrees.
- `Wrappers`: `Option`.

## Model

| member | source | states |
|---|---|---|
| Csv.ParseCsv | app.js:80-99 | the dataset returned for a CSV text is the one obtained by trimming, splitting into lines and scanning every line after the header |
| Csv.ScanLines | app.js:83-98 | the loop appends one link per line after the first and adds source then target to an insertion-ordered set; the result's nodes are that set's elements |
| Csv.Lines | app.js:81 | splitting the trimmed text always gives at least one line (the header) |
| Csv.Fields | app.js:87 | splitting a line always gives at least one value |
| Csv.LinkOfFields | app.js:88-92 | the source is the first value; the target is the second value, or `undefined` exactly when there is only one value |
| Csv.LineLink | app.js:87-92 | the link of one data line has a defined raw source and a raw target that is `undefined` exactly when the line has no comma |
| Csv.DataLinksByLine | app.js:86-92 | exactly `lines.length - 1` links, link `k` built from line `k + 1` |
| Csv.DataLinksSnoc | app.js:86-92 | one more iteration appends the link of the next line |
| Csv.CsvLinksFollowLines | app.js:86-92 | for any text, one link per data line, in line order |
| Csv.LineLinkNoComma | app.js:87-89 | a line without a comma gives its trimmed text as source and an undefined target |
| Csv.LineLinkComma | app.js:87-89 | a line `a,b[,...]` gives `trim(a)` as source and `trim(b)` as target; later fields are ignored |
| Csv.LineLinkShape | app.js:87-89 | the source is always defined; the target is undefined exactly when the line has no comma |
| Csv.CsvLinkShape | app.js:86-92 | the same per parsed link `k` of any text, in terms of line `k + 1` |
| Csv.CsvNodes | app.js:83-96 | the node ids are duplicate-free, cover every endpoint, contain nothing else and appear in first-seen order |
| Csv.ExampleLine | app.js:87-92 | the line `x,y` gives the link `x -> y` |
| JsText.TrimStartSpec | app.js:81 | trimming the start keeps a suffix, removes only whitespace, and stops at a non-whitespace character |
| JsText.TrimEndSpec | app.js:81 | trimming the end keeps a prefix, removes only whitespace, and stops at a non-whitespace character |
| JsText.Trim | app.js:81 | `trim()` never lengthens the text, and what it returns is empty or starts and ends with a non-whitespace character |
| JsText.TrimIsInfix | app.js:81 | `trim` returns an infix whose cut-off ends are whitespace and whose own ends are not |
| JsText.TrimIdempotent | app.js:87 | trimming twice is trimming once |
| JsText.TrimNoop | app.js:87 | a string with non-whitespace ends is left unchanged by `trim` |
| JsText.TrimStartNoop | app.js:81 | a string not starting with whitespace keeps its start |
| JsText.TrimEndNoop | app.js:81 | a string not ending with whitespace keeps its end |
| JsText.TrimAll | app.js:87 | `map(v => v.trim())` keeps the number of values |
| JsText.Split | app.js:81 | `split` always yields at least one piece |
| JsText.SplitPieces | app.js:87 | the pieces contain no separator, glue back to the input, and there is more than one exactly when the input has a separator |
| JsText.SplitPiecesFree | app.js:87 | no piece of a split contains the separator |
| JsText.SplitJoinsBack | app.js:87 | gluing the pieces with the separator gives back the input |
| JsText.SplitSingle | app.js:87 | one piece exactly when there is no separator |
| JsText.SplitNoSeparator | app.js:87 | a string without a separator splits into itself |
| JsText.SplitAtFirst | app.js:87 | splitting `a + sep + t`, with no separator in `a`, gives `a` then the pieces of `t` |
| JsText.SplitJoin | app.js:87 | splitting the separator-free parts glued together gives back the parts |
| JsText.NatToString | app.js:362-363 | `${i}` is a non-empty string of decimal digits without a leading zero: it starts with `0` only when it is exactly `"0"` |
| JsText.DigitChar | app.js:362 | a digit renders as its own character |
| JsText.DecimalRoundTrip | app.js:362-363 | reading back `${n}` gives `n` |
| JsText.NatToStringInjective | app.js:362-372 | different indices render as different ids |
| Graph.NodesOf | app.js:96 | `map(id => ({ id }))` gives nodes whose ids are exactly the set's elements |
| Graph.Endpoint.Id | app.js:185-186 | a raw endpoint gives its own id; an endpoint already replaced by its node object gives that node's `id` |
| Graph.LinkIds | app.js:90-91 | two endpoint ids per link |
| Graph.LinkIdsAt | app.js:90-91 | positions `2k` and `2k + 1` of the scan are link `k`'s source and target ids |
| Graph.LinkIdsAppend | app.js:90-91 | one more link appends its source id and target id |
| Graph.InLinkIds | app.js:185-186 | an id occurs in the scan exactly when some link has it as source or target |
| Graph.SetAdd | app.js:90-91 | `set.add` keeps the set duplicate-free, contains the new element, and only appends |
| Graph.InsertionOrder | app.js:83-91 | a set filled from a sequence is duplicate-free and holds exactly that sequence's elements |
| Graph.InsertionOrderAppend | app.js:90 | one more element is one more `set.add` |
| Graph.InsertionOrderAppend2 | app.js:90-91 | two more elements are two more `set.add`s |
| Graph.InsertionOrderSnocLink | app.js:90-92 | one more link adds its source, then its target |
| Graph.FirstIndex | app.js:90-91 | the position of the first occurrence |
| Graph.FirstIndexExtend | app.js:90-91 | appending keeps the first positions of what was there |
| Graph.FirstSeenExtend | app.js:90-91 | appending any element to the scan keeps a list that was in first-seen order in that order |
| Graph.FirstSeenAppendNew | app.js:90-91 | an element seen for the first time goes last |
| Graph.InsertionOrderFirstSeen | app.js:96 | `Array.from(set)` lists the ids by increasing first occurrence |
| Graph.DatasetOfLinksNodes | app.js:95-97 | the nodes built from the links are distinct, cover all endpoints, include nothing else, and are in first-seen order |
| Degrees.ComputeDegrees | app.js:182-189 | the map built by both loops is the degree table: every node id and endpoint id mapped to its number of link ends |
| Degrees.ZeroDegrees | app.js:183 | after the first loop every node id maps to 0 and nothing else is a key |
| Degrees.CountEnds | app.js:184-189 | the second loop turns the zero table into the degree table |
| Degrees.CountLink | app.js:185-188 | one iteration turns the table of the first `i` links into that of the first `i + 1` |
| Degrees.CountLinkEnds | app.js:185-189 | the `forEach` callback adds the link's two end ids to the keys and raises each entry by the number of the link's ends carrying its id, a missing entry counting as 0, so a self-loop adds 2 |
| Degrees.Lookup | app.js:187-188 | reading an entry with a fallback of 0 gives the stored entry when the id is a key and 0 otherwise |
| Degrees.Bump | app.js:187-188 | one `degrees.set` of the callback: the entry of `id` becomes one more than its lookup with fallback 0; its keys and values for two updates are stated by `Degrees.BumpTwice` |
| Degrees.NoLinks | app.js:183 | without links the degree table is the zero table of the node ids |
| Degrees.UntouchedNodeIsZero | app.js:183-189 | a node no link touches has an entry of 0 |
| Degrees.UnknownEndpointCounted | app.js:187-188 | a link end whose id is no node still gets an entry, at least 1 |
| Degrees.AddLink | app.js:187-188 | one more link adds 1 to the source entry and then 1 to the target entry, creating them at 0 if missing; other entries are unchanged |
| Degrees.AddLinkKeys | app.js:187-188 | one more link adds its two ids to the keys |
| Degrees.AddLinkValues | app.js:187-188 | one more link adds 1 per end it has at an id and leaves other entries unchanged |
| Degrees.BumpTwice | app.js:187-188 | two increments of a possibly missing entry add their keys and only change their own entries |
| Degrees.IncidenceAppend | app.js:187-188 | one more link adds its own ends to the counts |
| Degrees.SelfLoopAddsTwo | app.js:185-188 | a self-loop adds 2 to its node's degree |
| Degrees.DegreeKeys | app.js:182-189 | the map's keys in insertion order are distinct and are exactly the table's keys |
| Degrees.SumCountsEmpty | app.js:187-188 | counting any keys over an empty endpoint scan gives 0 |
| Degrees.SumCountsSnoc | app.js:187-188 | counting in one more sequence element adds 1 to the sum over keys that contain it |
| Degrees.SumCountsAll | app.js:187-188 | summing the counts over keys that hold every element gives the sequence length |
| Degrees.SumOverIsSumCounts | app.js:187-188 | summing the table equals summing the counts |
| Degrees.DegreeSum | app.js:182-189 | the degrees sum to twice the number of links |
| Encoding.RadiusHalfUnits | app.js:209-215 | the radius is never below 5 |
| Encoding.RadiusInSourceUnits | app.js:209-215 | the radius is `5 + degree * 0.5` under `size` on the annotated view and `5` otherwise |
| Encoding.RadiusIgnoresOtherGuidelines | app.js:210 | only the `size` guideline affects the radius |
| Encoding.Fill | app.js:216-222 | the fill is a palette colour or `#999` |
| Encoding.Style | app.js:209-222 | a node's radius is never below 5 and its fill is `#999` or a palette colour; on the plain view it is exactly radius 5 and `#999`; with `size` the radius is `5 + degree * 0.5` for the degree looked up with fallback 0; with `color` the fill is the palette entry at `index % 7`; on the annotated view without `size` the radius is 5, and without `color` the fill is `#999` |
| Encoding.FillIgnoresOtherGuidelines | app.js:217 | only the `color` guideline affects the fill, never the degree |
| Encoding.FillCycles | app.js:218-219 | the palette has seven colours and the fill repeats every seven nodes |
| Encoding.PlainViewIsUniform | app.js:209-222 | on the plain view every node is radius 5 and `#999` whatever the guidelines |
| Encoding.EncodingIndependence | app.js:209-222 | with `color` alone the radius stays 5 and the fill is the palette entry; with `size` alone the radius grows and the fill stays grey |
| Render.RenderNodeStyles | app.js:182-222 | node `i` gets the radius of its degree in the degree table and the fill of its index |
| Guidelines.Toggle | app.js:140-147 | the guideline is in the result exactly when the box is checked; other guidelines are unchanged |
| Guidelines.ToggleIdempotent | app.js:140-147 | the same change event twice has the effect of once |
| Guidelines.ToggleLastWins | app.js:140-147 | only the last change of a box matters |
| Guidelines.ToggleCommutes | app.js:140-147 | changes of two different boxes commute |
| Guidelines.AppState.constructor | app.js:2-3 | no dataset and all four guidelines active at start |
| Guidelines.AppState.OnGuidelineChange | app.js:140-150 | the active set becomes the toggled one, the dataset is unchanged, and a redraw happens exactly when a dataset is loaded |
| Preview.PreviewLinks | app.js:113 | `slice(0, 5)` is the first `min(5, n)` links |
| Preview.CellText | app.js:116 | three cases of the cell template, which reads the endpoint's `id` and falls back to the endpoint itself: an `undefined` raw endpoint throws; a defined raw id shows itself; a node object shows its id when that is non-empty and `"[object Object]"` otherwise, so it is never empty |
| Preview.DisplayPreview | app.js:113-118 | at most five rows; row `k` shows the cells of link `k`; the preview throws exactly when one of the first five links has an `undefined` endpoint, and otherwise shows all of them |
| Preview.RenderRows | app.js:114-118 | rows are appended in order until the first link whose cells throw; the table is complete exactly when no link throws |
| Preview.LineLinkRenders | app.js:87-89 | a parsed line's cells render exactly when it has a comma, and show its first two trimmed fields |
| Preview.PreviewLinesShape | app.js:113 | the links shown are those of data lines `1` to `min(5, lines - 1)` |
| Preview.RowsOfLineLinks | app.js:114-118 | rendering the links of consecutive data lines throws exactly when one lacks a comma; each row shows its line's first two fields |
| Preview.PreviewOfLines | app.js:113-118 | the same for the first five data lines |
| Preview.CsvPreview | app.js:86-118 | for a parsed CSV file, the preview throws exactly when one of the first five data lines has no comma; row `k` shows data line `k + 1` |
| Sample.SampleNodes | app.js:354 | exactly 30 nodes with pairwise distinct ids; the id of node `i` is a decimal string that reads back as `i` and starts with `0` only when it is `"0"`, so the ids are exactly `"0"` to `"29"` |
| Sample.SampleId | app.js:354 | the id `${i}`, the decimal rendering of `i` (its properties are in `JsText.NatToString` and `JsText.DecimalRoundTrip`) |
| Sample.RingLink | app.js:362-365 | the ring link goes from `${i}` to `${(i + 1) % 30}`, and its two ends always differ |
| Sample.StepLinks | app.js:362-374 | iteration `i` pushes its ring link first, then a second link to `${target}` exactly when a long-range link was drawn and its target is not `i` |
| Sample.BuildSampleData | app.js:353-376 | the loop builds the sample graph determined by the draws |
| Sample.LoadSampleData | app.js:352-378 | the sample becomes the current dataset; the guidelines are untouched |
| Sample.SampleLinkCount | app.js:359-376 | each iteration adds one or two links |
| Sample.SampleLinkBounds | app.js:359-376 | between 30 and 60 links whatever the draws |
| Sample.SampleLinksPrefix | app.js:359-376 | iteration `i`'s links follow those of the earlier iterations |
| Sample.SampleHasRing | app.js:361-364 | every ring link `i -> (i + 1) % 30` is present |
| Sample.StepLinksShape | app.js:361-374 | iteration `i`'s links go from node `i` to another node |
| Sample.SampleLinksWellFormed | app.js:359-376 | every link joins two different sample nodes |
| Sample.SampleNoSelfLoops | app.js:363-369 | no link is a self-loop |
| Sample.SampleCovers | app.js:353-376 | every endpoint is a sample node |
| Sample.SamplePreview | app.js:379 | the preview of the sample shows five rows and does not throw |
| Upload.UploadCsv | app.js:62-69 | a `.csv` upload makes the parsed dataset the current one before the preview is drawn, leaves the guidelines alone, returns that dataset's preview, thrown or not, and redraws exactly when the preview did not throw |
| Upload.TriangleLines | app.js:81 | a header and the lines `x,y`, `y,z`, `x,z` split into exactly those four lines |
| Upload.TriangleIds | app.js:83-96 | the insertion-ordered set filled with `x, y, y, z, x, z` holds `x, y, z` in that order |
| Upload.ThreeLinkIds | app.js:90-91 | the endpoint ids of three links are, in order, each link's source then its target |
| Upload.TriangleZero | app.js:184 | the first loop over the nodes `x, y, z` leaves the table `{x: 0, y: 0, z: 0}` |
| Upload.BumpThree | app.js:187-188 | adding 1 to one key of a three-key table changes that entry alone |
| Upload.TriangleBumps | app.js:185-189 | adding 1 for the ends `x, y`, `y, z`, `x, z` to the zero table of `x, y, z` gives `{x: 2, y: 2, z: 2}` |
| Upload.TriangleTable | app.js:182-189 | nodes `x, y, z` and links `x -> y`, `y -> z`, `x -> z` give the degree table `{x: 2, y: 2, z: 2}`, computed one link at a time as the second loop does |
| Upload.TriangleExample | app.js:182-189 | parsing a header, `x,y`, `y,z` and `x,z` gives three links in line order, the nodes `x, y, z`, and degree 2 for each node |

## Left out

- The DOM is not modelled: drag and drop, `FileReader`, the download, the chat panel and the agent status messages (timers). Of the upload handler `handleFile` (app.js:51-78) only the `.csv` branch is modelled (`Upload.UploadCsv`). A file whose name ends neither in `.json` nor in `.csv` leaves `data` undefined, so `currentData` becomes `undefined` and the preview then throws; that branch is not modelled.
- JSON ingestion (`JSON.parse` of an uploaded file) is not modelled. It is library code, outside the CSV path.
- The deep copy `JSON.parse(JSON.stringify(data))` in `renderGraph` is treated as the identity. It only isolates the drawn copy from `currentData`.
- The d3 force simulation is not modelled: forces, ticks, dragging and SVG drawing. Its floating-point layout is outside the model. The `Graph.Endpoint.Resolved` case stands for an endpoint that is already a node object.
- `Math.random` is not modelled. It becomes the `Sample.Draw` oracle: one draw per iteration, with a target already floored into `0..29`.
- `renderVisualizations` and `updateDatasetInfo` are not modelled. The model records only whether a redraw happens (`Guidelines.AppState.OnGuidelineChange` and `Upload.UploadCsv` return it).
- The click handler on a guideline item (app.js:133-138) is not modelled. It only flips the checkbox and re-dispatches `change`, which is what `OnGuidelineChange` models.
- The preview header text and the CSS class toggles are not modelled. They are display only.
- `headers` (app.js:82) is computed but never used, so it is not modelled.
- Strings are sequences of Unicode scalar values, not UTF-16 code units. A lone surrogate cannot be written.
- Encoding.RadiusHalfUnits: the radius is doubled to stay in integers. `Encoding.RadiusInSourceUnits` states the source's `5 + degree * 0.5` in reals.

## Behaviour worth knowing

These are what the code does. Each is modelled as written.

- A blank data line is not skipped. A blank line inside the file gives a link from `""` to `undefined`, and `undefined` then becomes a node (`Csv.LineLinkShape`).
- A line without a comma makes `displayDataPreview` throw a `TypeError` if it is among the first five data lines (`Preview.CsvPreview`). Rows already appended stay in the table.
- A link end whose id is no node still gets an entry in the degree table (`Degrees.UnknownEndpointCounted`).
- On upload the dataset is replaced before the preview can throw (app.js:66-69). A CSV whose preview throws still becomes `currentData` but is not redrawn by the upload; the next guideline change draws it (`Upload.UploadCsv`, `Guidelines.AppState.OnGuidelineChange`).
- No CSV or sample dataset ever has an object endpoint. d3 replaces raw ids by node objects only in `renderGraph`'s deep copy (app.js:179, app.js:192), after the degree loop (app.js:184-189) has run, and the preview reads `currentData` (app.js:67, app.js:379), which d3 never touches. Only a JSON upload whose links already hold objects would reach the `Graph.Endpoint.Resolved` branch of `Graph.Endpoint.Id` and `Preview.CellText`.
- Windows line endings are harmless. The `\r` left on each line is removed by the per-field `trim`.
