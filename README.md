# Family tree editor — verified model

The editor keeps a family tree: person nodes placed on a 5000 × 5000 board and
directed links from parent to child. This project models the editor's core in
Dafny and proves properties of that model:

- **Graph store** (`Layout.GraphStore`). It owns the node list, the link list,
  the selected node, the zoom factor and the id counter. Its operations hand out
  ids, zoom, import a document, add the user's own node, a child or two parents,
  rename the selection, and remove a node. Removing a node also removes its
  ancestors, and its descendants too when the node is the user's own (named "Я").
- **Lineage traversals** (`Graph`). These are the iterative depth-first searches
  for descendants and ancestors. They are proved to terminate on any link list,
  cyclic ones included. They are also proved to return exactly the ids reachable
  in one or more steps, each id once, and never the start id.
- **Canvas interaction** (`CanvasArea.Canvas`). This covers the start, move and
  end of a pan or drag, opening the inline form, tap handling, and merging an
  edit. It also covers the clamp that keeps a dragged node on the board and the
  filter that skips links whose ends are missing.
- **Sidebar** (`Sidebar`). This is the classification of an uploaded document
  (a wrapped object, a bare array, a wrong format, or a read error) and the
  guarded remove button.
- **Report** (`DownloadPdf`). This is the content of the downloadable report:
  an optional picture, a title, a heading and a group of lines per node. The
  JSON download comes first.
- **Inline form** (`DynamicWatch`). This covers the four editable keys, how the
  form is filled from a node, and the single-key update each keystroke sends.

The files are `family.dfy` (shared entities), `graph.dfy`, `layout.dfy`,
`canvas_area.dfy`, `sidebar.dfy`, `download_pdf.dfy` and `dynamic_watch.dfy`.

How JavaScript behaves is written out in the model:
- absent, `""` and `0` are falsy;
- a template literal prints an absent attribute as `undefined` and an integer
  of magnitude at most 2^53 as its decimal numeral (larger ones are left out,
  see "## Left out");
- `{...a, ...b}` lets `b`'s keys win;
- `Array.find` returns the first match;
- reading `null.nodes` throws;
- `x ?? y` replaces only an absent or null `x`.

Numbers on the board are `real`. Ids are exact unbounded integers, whereas the program stores them as double-precision numbers (see "## Left out").

Removing a node that is not named "Я" also removes all its ancestors (`src/layouts/layout.tsx:210-212`). A child added under "Я" has "Я" as its parent, so removing that child removes "Я" as well. `CanvasArea.RemovingChildOfSelf` shows this on a two-node tree.

## Model

| member | source | states |
|---|---|---|
| Family.Find | src/layouts/layout.tsx:81 | `nodes.find` by id: nothing exactly when no node carries the id; otherwise the first node that carries it |
| Family.Merge | src/features/canvas_area.tsx:148 | `{...n.node, ...data}`: id and position kept, every patch key takes the patch's value, every other attribute kept as it was |
| Family.ApplyEdit | src/features/canvas_area.tsx:146-150 | same length; a node with another id is unchanged; a node with the id gets the patch merged in; no node moves or changes id |
| Family.Truthy | src/hooks/download_pdf.ts:57-64 | an attribute is truthy exactly when it is present and neither `""` nor `0` |
| Family.Digits | src/layouts/layout.tsx:90 | the decimal form of a natural number is canonical (digits only, no leading zero except "0") and reads back as that number |
| Family.DigitsRoundTrip | src/layouts/layout.tsx:90 | reading a canonical unsigned numeral and printing its value gives the same numeral, so the canonical form of a number is unique |
| Family.Decimal | src/layouts/layout.tsx:90 | the decimal form of an integer is canonical, starts with `-` exactly when the integer is negative (never "-0"), and reads back as that integer |
| Family.DecimalRoundTrip | src/layouts/layout.tsx:90 | reading a canonical signed numeral and printing its value gives the same numeral |
| Family.Render | src/hooks/download_pdf.ts:56-61 | a template literal prints an absent attribute as `undefined`, a string as itself and a number as the canonical numeral that reads back as it (the program's own form for magnitudes up to 2^53) |
| Graph.Next | src/layouts/layout.tsx:162-164 | the neighbour list holds exactly the ids one link away (forward for descendants, backward for ancestors) |
| Graph.Without | src/layouts/layout.tsx:173 | deleting from an insertion-ordered set keeps it repetition-free and removes exactly that element |
| Graph.ClosedHoldsPath | src/layouts/layout.tsx:158-171 | a visited set closed under the link relation holds the end of every walk from the start |
| Graph.DistinctBound | src/layouts/layout.tsx:166-168 | a repetition-free list of ids drawn from a finite set is no longer than the set; this bounds the search and proves it ends |
| Graph.Walk | src/layouts/layout.tsx:155-174 | the stack-based search terminates on every link list, cycles included; its result has no repeats, excludes the start, and holds exactly the ids reachable from the start in one or more steps |
| Graph.GetDescendants | src/layouts/layout.tsx:154-175 | the result holds exactly the ids reachable by following links forward, each once, never the start id |
| Graph.GetAncestors | src/layouts/layout.tsx:177-198 | the result holds exactly the ids reachable by following links backward, each once, never the start id |
| Graph.ReachesEndpoint | src/layouts/layout.tsx:162-164 | every reachable id occurs on some link |
| Layout.ZoomedIn | src/layouts/layout.tsx:23-25 | the result is never above 2.5, and is either z + 0.1 or 2.5 |
| Layout.ZoomedOut | src/layouts/layout.tsx:27-29 | the result is never below 0.3, and is either z − 0.1 or 0.3 |
| Layout.ZoomStaysInRange | src/layouts/layout.tsx:10-29 | from a zoom in [0.3, 2.5], any sequence of clicks keeps it in [0.3, 2.5], so it is strictly positive |
| Layout.Placed | src/layouts/layout.tsx:32-40 | an imported entry is unwrapped from `node` if wrapped; a missing x or y becomes 2500; id and attributes are kept |
| Layout.MaxNodeId | src/layouts/layout.tsx:49-52 | the fold is non-negative, at least every node id, and either 0 or one of the ids |
| Layout.MaxEndpoint | src/layouts/layout.tsx:53-56 | the fold is non-negative, at least every link endpoint, and either 0 or one of the endpoints |
| Layout.AdvancedCounter | src/layouts/layout.tsx:57-58 | the new counter is never below the old one and lies above every imported node id and link endpoint; it is the old counter or one more than such an id |
| Layout.KeepNodes | src/layouts/layout.tsx:218 | a node survives exactly when it was present and its id is not being removed |
| Layout.KeepEdges | src/layouts/layout.tsx:215-217 | a link survives exactly when it was present and neither endpoint is being removed |
| Layout.KeepNodesAppend | src/layouts/layout.tsx:218 | the node filter splits over concatenation, so survivors keep their relative order |
| Layout.KeepEdgesAppend | src/layouts/layout.tsx:215-217 | the link filter splits over concatenation, so survivors keep their relative order |
| Layout.IsSelf | src/layouts/layout.tsx:206 | a node is the user's own exactly when its name is the string "Я" |
| Layout.SelfNode | src/layouts/layout.tsx:75 | the user's own node carries the given id and position, is named "Я", and the name is its only attribute |
| Layout.ChildNode | src/layouts/layout.tsx:87-95 | a child carries the given id, sits 200 below the anchor, is named "Ребёнок " followed by the canonical numeral of its id, has no attribute besides the name, and is never the user's own node |
| Layout.NamedWithIdExact | src/layouts/layout.tsx:90 | a name of the form prefix plus canonical numeral of the id is exactly the template literal `${prefix}${id}` |
| Layout.ParentNode | src/layouts/layout.tsx:109-128 | a parent carries the given id, sits 200 above the anchor shifted by the given offset, is named "Родитель " followed by the canonical numeral of its id, has no attribute besides the name, and is never the user's own node |
| Layout.RemovingChildTakesParent | src/layouts/layout.tsx:206-213 | removing a node removes every parent linked to it; for a child of "Я" that includes "Я" |
| Layout.KeepPreservesIds | src/layouts/layout.tsx:215-218 | filtering keeps every id below a bound that held before |
| Layout.AsSet | src/layouts/layout.tsx:209-212 | collecting a traversal's result into a set gives exactly the lineage |
| Layout.IdsToRemove | src/layouts/layout.tsx:204-213 | the removal set is the id plus its ancestors, plus its descendants only when the node is named "Я" |
| Layout.GraphStore.constructor | src/layouts/layout.tsx:10-16 | empty lists, no selection, zoom 1, counter 1 |
| Layout.GraphStore.GenerateId | src/layouts/layout.tsx:17-21 | returns the counter and advances it by one; the id is carried by no node and no link |
| Layout.GraphStore.ZoomIn | src/layouts/layout.tsx:23-25 | zoom becomes the zoomed-in value, and the store stays valid (zoom in range) |
| Layout.GraphStore.ZoomOut | src/layouts/layout.tsx:27-29 | zoom becomes the zoomed-out value, and the store stays valid |
| Layout.GraphStore.LoadNodesFromJson | src/layouts/layout.tsx:31-59 | replaces both lists wholesale with the placed entries and the given links; selects the first imported node, or leaves the selection alone for an empty import; advances the counter past every imported id |
| Layout.GraphStore.AddNode | src/layouts/layout.tsx:61-140 | without a selection, appends "Я" with a fresh id at the view centre or (400, 100) and selects it, with no link; with a selection naming no node, changes nothing and consumes no id; otherwise adds a child at (px, py+200) linked from the selection, or two parents with consecutive ids at (px∓120, py−200) linked to it; the selection stays |
| Layout.GraphStore.AddChild | src/layouts/layout.tsx:84-101 | one node with the next id, 200 below the anchor and named "Ребёнок <id>", linked from the anchor; the counter advances by one |
| Layout.GraphStore.AddParents | src/layouts/layout.tsx:103-139 | two nodes with consecutive ids, 200 above the anchor and 120 to its left and right, named "Родитель <id>", each linked to the anchor; the counter advances by two |
| Layout.GraphStore.ChangeName | src/layouts/layout.tsx:142-152 | without a selection nothing changes; otherwise every node with the selected id gets the new name |
| Layout.GraphStore.RemoveNode | src/layouts/layout.tsx:200-228 | an unknown id changes nothing; otherwise drops exactly the nodes in the removal set and the links touching it, in order, and clears the selection only if it was removed; ids stay below the counter |
| Layout.StaleSelectionAfterEmptyImport | src/layouts/layout.tsx:45-82 | after an empty import the stale selection makes both add buttons do nothing: no node, no link, and no id consumed |
| CanvasArea.Clamp | src/features/canvas_area.tsx:58-65 | the result lies in [30, 4970]; a value already there is unchanged; the result is the closest point of that range |
| CanvasArea.Dragged | src/features/canvas_area.tsx:51-70 | only nodes carrying the id move, by the delta divided by the zoom and clamped to the board; their attributes are kept |
| CanvasArea.DragZeroIdempotent | src/features/canvas_area.tsx:51-70 | a drag step without movement, repeated, changes nothing further |
| CanvasArea.Drawn | src/features/canvas_area.tsx:212-215 | a link draws one segment exactly when both its ends resolve, and none otherwise; that segment joins the first nodes carrying its two ids |
| CanvasArea.RenderedEdges | src/features/canvas_area.tsx:211-216 | never more segments than links; each segment joins nodes that are present |
| CanvasArea.RenderedSound | src/features/canvas_area.tsx:211-216 | every drawn segment comes from a link whose ends both resolve, and joins the first nodes carrying its two ids |
| CanvasArea.RenderedAppend | src/features/canvas_area.tsx:211-216 | segments come in link order: drawing two link lists one after the other draws their segments one after the other |
| CanvasArea.RenderedComplete | src/features/canvas_area.tsx:211-216 | every link whose ends both resolve is drawn, joining the first nodes carrying its two ids |
| CanvasArea.RenderedAllIff | src/features/canvas_area.tsx:211-216 | all links are drawn exactly when no link dangles |
| CanvasArea.Canvas.constructor | src/features/canvas_area.tsx:19-22 | idle: no drag, no pan, no recorded position, no open form |
| CanvasArea.Canvas.StartPanOrDrag | src/features/canvas_area.tsx:28-41 | on a node: drag it and select it; on the board: pan and close the form; both record the cursor position |
| CanvasArea.Canvas.MovePanOrDrag | src/features/canvas_area.tsx:43-79 | no recorded position: nothing changes; drag wins over pan and moves the node by the scaled, clamped delta; pan scrolls by the negated delta; the cursor position is recorded |
| CanvasArea.Canvas.EndPanOrDrag | src/features/canvas_area.tsx:81-85 | back to idle; the form and the selection are untouched |
| CanvasArea.Canvas.OnNodeDoubleClick | src/features/canvas_area.tsx:132-134 | opens that node's form |
| CanvasArea.Canvas.HandleTapNode | src/features/canvas_area.tsx:136-140 | opens the form, starts the drag and selects the node |
| CanvasArea.Canvas.HandleChangeNode | src/features/canvas_area.tsx:142-151 | merges the edit into the node carrying the id; ids stay below the counter |
| CanvasArea.RemovingChildOfSelf | src/layouts/layout.tsx:200-228 | "Я" plus one child; tapping the child selects it, and removing the selection leaves no nodes and no links |
| Sidebar.NodesMember | src/components/sidebar/sidebar.tsx:40 | `json.nodes` throws exactly for null, is present exactly for an object with that member, and is then that member's value |
| Sidebar.EdgesOrEmpty | src/components/sidebar/sidebar.tsx:41 | `json.edges ?? []` is never null: the edges member when present and not null, the empty array otherwise |
| Sidebar.HandleFileChange | src/components/sidebar/sidebar.tsx:32-56 | no file: no effect; a load happens exactly for an object whose `nodes` is an array (with `edges ?? []`) or a bare array (with no links); the read-error alert comes exactly for an unreadable file or a top-level null; every other value gives the wrong-format alert |
| Sidebar.RemoveRequest | src/components/sidebar/sidebar.tsx:146-147 | a removal is asked for exactly when a node is selected, and for its id |
| DownloadPdf.Preamble | src/hooks/download_pdf.ts:13-53 | the blocks before the per-node groups number 2 + [image]: the picture first when present, then the title and the heading last |
| DownloadPdf.StartContent | src/hooks/download_pdf.ts:13-53 | the picture when present, then the title and the heading |
| DownloadPdf.AppendEntry | src/hooks/download_pdf.ts:55-74 | one iteration appends exactly that node's group of lines |
| DownloadPdf.Download | src/hooks/download_pdf.ts:9-79 | the JSON file is saved first, then an A4 report with 20-point margins whose content is the report content of the nodes |
| DownloadPdf.EntryShape | src/hooks/download_pdf.ts:56-73 | a group has 2 + [birthYear] + [location] + 2·[biography] blocks, starts with the name line, ends with the separator, and holds only text |
| DownloadPdf.ConcatAppend | src/hooks/download_pdf.ts:55 | groups follow the node order: the groups of two lists concatenate |
| DownloadPdf.ReportGrows | src/hooks/download_pdf.ts:55-74 | one more node adds exactly its group at the end of the report |
| DownloadPdf.EntriesSize | src/hooks/download_pdf.ts:55-74 | all groups together have the sum of the group sizes |
| DownloadPdf.ReportSize | src/hooks/download_pdf.ts:13-74 | the report has 2 + [image] + the sum over nodes of (2 + [birthYear] + [location] + 2·[biography]) blocks |
| DownloadPdf.EntriesAllText | src/hooks/download_pdf.ts:55-74 | every block of every group is text |
| DownloadPdf.PictureOnlyFirst | src/hooks/download_pdf.ts:13-53 | the picture, when present, is the first block, and every later block is text |
| DownloadPdf.EntryIgnoresBirthDate | src/hooks/download_pdf.ts:56-68 | merging a `birthDate` into a node leaves its group of lines unchanged |
| DownloadPdf.EntriesIgnoreBirthDate | src/hooks/download_pdf.ts:55-74 | no `birthDate` edit of any node changes the groups |
| DownloadPdf.BirthDateEditInvisible | src/hooks/download_pdf.ts:57 | the form writes `birthDate` but the report reads `birthYear`, so editing a birth date never changes the report |
| DynamicWatch.FormOf | src/components/nodes/dynamic_watch.tsx:32-38 | the form has an entry for exactly the four editable keys, each the node's value or "" |
| DynamicWatch.WithEntry | src/components/nodes/dynamic_watch.tsx:41 | the typed key gets the typed value; every other entry is kept |
| DynamicWatch.Patch | src/components/nodes/dynamic_watch.tsx:42 | the update holds exactly one key, with the typed value |
| DynamicWatch.InitialForm | src/components/nodes/dynamic_watch.tsx:32-38 | the field-by-field fill gives the form of the node |
| DynamicWatch.FormTracksEdits | src/components/nodes/dynamic_watch.tsx:40-43 | once the canvas merges the update into the node, the form of the edited node equals the form the keystroke produced |
| DynamicWatch.PatchReachesNode | src/features/canvas_area.tsx:142-151 | after the canvas merges an update, looking up the edited id gives the old node with the update merged in |
| DynamicWatch.Watch.constructor | src/components/nodes/dynamic_watch.tsx:26-28 | the form starts empty |
| DynamicWatch.Watch.Sync | src/components/nodes/dynamic_watch.tsx:32-38 | the effect refills the form from the node |
| DynamicWatch.Watch.HandleChange | src/components/nodes/dynamic_watch.tsx:40-43 | the form gets the new entry and the single-key update is returned for the canvas |

## Left out

- JSON parsing and serialisation are not modelled. The loader receives typed node entries and links; turning JSON array elements into those is not modelled. That includes the truthiness test `n.node ? n.node : n` (`src/layouts/layout.tsx:33`): whether an entry is wrapped is chosen by the caller through the `Wrapped` or `Bare` constructor, so `Layout.Placed` unwraps by construction.
- Layout.GraphStore.LoadNodesFromJson: imported ids are assumed present. The `cur.node.id ?? 0` fallback for a node without an id is not modelled, and neither are `null` coordinates.
- Layout.GraphStore.AddNode: the view centre comes from the board's scroll offsets and client size. It is an optional parameter here, with the (400, 100) fallback when absent.
- Graph.Walk: states membership, no repeats and the absence of the start. It does not state the insertion order of `Array.from(result)`.
- CanvasArea.Canvas.MovePanOrDrag: panning assumes the board element exists. The browser's clamping of scroll offsets is not modelled.
- Floating-point rounding is not modelled: coordinates and zoom are exact reals, so `z + 0.1` is exact.
- Layout.GraphStore.GenerateId, Layout.AdvancedCounter and Layout.GraphStore.LoadNodesFromJson: ids are exact integers in the model, but the program's ids are doubles. From 2^53 on, adding 1 is rounded to the nearest double. That is sometimes the number itself (2^53 + 1 gives 2^53) and sometimes the next double up (2^53 + 2, plus 1, gives 2^53 + 4). After at most one such step the sum is the number itself. So once an imported id is 2^53 or more, the counter set at `src/layouts/layout.tsx:57-58` changes at most once more and then stays put. From then on `generateID` (`src/layouts/layout.tsx:17-21`) hands out ids already in use. For example, after importing id 2^53, the next child of that node gets the node's own id and a self-link. The model's promises that a generated id is carried by no node or link, and that the counter lies above every imported id, hold only for ids below 2^53.
- Attribute keys are limited to name, age, birthYear, birthDate, location and biography. Any other key, which the spread in `src/features/canvas_area.tsx:148`, the import and `src/hooks/save.ts` would carry along unchanged, is not modelled.
- Family.Render and Family.Decimal: a number is always printed as its exact decimal numeral. The two forms agree only for magnitudes up to 2^53, where every integer is an exact double. Above 2^53, JavaScript's `${n}` prints the shortest digit string that reads back as the same double, padded with zeros: 2^64 prints as "18446744073709552000", where the model ends in "…551616". From 10^21 on it uses exponent notation (10^21 prints as "1e+21"). For such a numeric name or `birthYear`, the report lines of `src/hooks/download_pdf.ts:56-58` differ from the model's. So do the names `Ребёнок ${id}` and `Родитель ${id}` (`src/layouts/layout.tsx:90,113,123`) for such an id.
- Attribute values are strings or integers. Fractional numbers and other JSON types as attribute values are not modelled.
- Event plumbing is not modelled: the svg-target test, touch target lookup via `data-id`, `stopPropagation` and bubbling order. Handlers receive an optional node id instead.
- The recentering effect, the resize listener and the form's focus scrolling are not modelled. They depend on DOM geometry and animation frames.
- React's batching of state updates is not modelled. Each handler applies its updates at once, in order.
- Sidebar.HandleFileChange: an exception thrown by the loader inside the `try` block would also give the read-error alert; that path is not modelled. The console logging is not modelled either.
- The picture is not rendered. The SVG serialisation, canvas drawing and PNG encoding are replaced by an optional data URL parameter, and the document rendering and file downloads are the two returned effects.
- The sidebar passes the link list as `DownloadPDF`'s second argument, where a picture element is expected (`src/components/sidebar/sidebar.tsx:168`). As written, that argument is an array and so always truthy, and `XMLSerializer.serializeToString` throws on it (`src/hooks/download_pdf.ts:13-15`): the JSON file is saved and no PDF is produced. The model takes the picture as an explicit optional parameter instead and describes the report the function is meant to build.
- `src/hooks/save.ts` writes only the node list, not the links. This is reflected in the `SaveJson` effect, which holds the nodes only; the file encoding is not modelled.
- Font loading (`src/hooks/loadfont.ts`, `src/hooks/pdffonts.ts`, `src/generate-vfs.js`) is file and network I/O and is not modelled.
- JSX, styling, labels, icons and the sidebar toggle are presentational and are not modelled.
