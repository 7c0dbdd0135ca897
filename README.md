# wgo.js board rendering and simple player, modelled in Dafny

This project models three pieces of the wgo.js Go-board library and proves
properties of them:

- **The SVG board's object/element bookkeeping** (`svg_board.dfy`, module
  `SvgBoard`). Every board object owns one or more SVG elements, kept in
  `objectsElementMap` and keyed by layer name. Each element is put into that
  layer's container in `contexts`; it stays there until its object is removed,
  unless `setSize` replaces the container (see `Orphans` below). The model covers `addObject`,
  `removeObject`, `updateObject`, `createObjectElements`, `drawObjects`,
  `redraw`, handler lookup, `setViewport`, `setSize`, `setCoordinates` and
  `resize`.
  - DOM elements are opaque numbers handed out by a counter (`nextElement`).
  - A container is the sequence of object-element numbers it holds.
  - The base class's object collection is a sequence of object references.
  - Calls of a handler's `updateElement` are recorded in a log (`calls`).
  - The class invariant `Valid` says that no two objects share an element in a
    layer, that every element in the map has been created, and that every
    element of the objects layer is a child of that layer's container.
    `Synced` says that the map has an entry for exactly the objects in the
    collection.
  - `Orphans` is the set of objects whose entry has an element that is not a
    child of its layer's container. A new board and a redraw leave none.
    `setSize` adds exactly the objects with a grid or label element, because
    those containers are replaced. Adding and removing objects leave the set as it
    was.
- **The simple player** (`simple_player.dfy`, module `SimplePlayer`).
  - The variation-markup rules, read from the record's variation-style value
    (the SGF `ST` property), with a configuration fallback.
  - The keyboard and mouse-wheel navigation.
  - The edit-mode state machine: hover stone, mouse-out, click and node change.
  - The game record, the validity test and whose turn it is are parameters.
  - Calls on the board (add/update/remove of a hover stone) and on the game
    (save, restore, next, play) are logged.
  - Invariant: the board holds a hover stone of the current edit-mode entry
    exactly when `addedStone` names it.
- **The image-backed stone strategy of the canvas board**
  (`realistic_stone.dfy`, module `RealisticStone`).
  - `isOkay` and the deterministic choice of a graphic variant.
  - The in-place replacement of a file name by a loading image.
  - The fallback to another stone strategy.
  - The debounced board redraw. Image loads and timer callbacks are explicit
    events.

`common.dfy` (module `Common`) holds an option type and a few facts about
sequences without repeats.

Two behaviours of the source are kept as they are:

- Leaving edit mode does not remove a hover stone that is still on the board.
- The pending redraw belongs to the handler instance, not to the board. If two
  boards share one handler, a burst of loads from both redraws only the board
  of the last load (`RealisticStone.BurstYieldsOneRedraw`).

## Model

| member | source | states |
|---|---|---|
| SvgBoard.ObjectHandler | src/SVGBoard/SVGBoard.ts:149-151 | a string type resolves to the registry's handler and to nothing when the key is missing; any other type is returned as the handler itself |
| SvgBoard.CustomHandlerIgnoresRegistry | src/SVGBoard/SVGBoard.ts:149-151 | a per-object handler gives the same result under every registry |
| SvgBoard.LabelAllowance | src/SVGBoard/SVGBoard.ts:192-195 | an edge gets the font size of room iff labels are on and that edge is not cropped |
| SvgBoard.ViewBoxOf | src/SVGBoard/SVGBoard.ts:185-196 | the viewBox starts half a unit, the margin and the edge's label allowance before the first visible line, and ends the same amounts after the last one; the extent is the number of visible lines plus both margins and both allowances |
| SvgBoard.ViewBoxNonEmpty | src/SVGBoard/SVGBoard.ts:192-195 | with at least one visible line each way and non-negative theme sizes, the frame is at least one unit wide and high |
| SvgBoard.TopLabelRoomIff | src/SVGBoard/SVGBoard.ts:192 | with a positive font size, the top edge has extra room iff labels are on and the top is uncropped |
| SvgBoard.FullBoardFrame | src/SVGBoard/SVGBoard.ts:192-195 | the frame of an uncropped 19x19 board with labels, and of one with the top row cropped |
| SvgBoard.SizingFor | src/SVGBoard/SVGBoard.ts:42-56 | each configured dimension gets its pixel size; an unset one is `auto`, except the width is `100%` when neither is set |
| SvgBoard.Board.Resize | src/SVGBoard/SVGBoard.ts:42-56 | the style sizing becomes the decision-table result for the configured width and height |
| SvgBoard.AttachDetachRoundTrip | src/SVGBoard/SVGBoard.ts:144-160 | detaching an entry of fresh elements after attaching it restores every container |
| SvgBoard.DetachRemovesExactly | src/SVGBoard/SVGBoard.ts:160 | after detaching, the entry's element is gone from its layer's container and every other element is where it was |
| SvgBoard.AddToCollection | src/SVGBoard/SVGBoard.ts:118 | the collection gains exactly the object, keeps no repeats, and an absent object is appended last |
| SvgBoard.RemoveFromCollection | src/SVGBoard/SVGBoard.ts:154 | the collection loses exactly the object and keeps no repeats |
| SvgBoard.AddAllToCollectionSpec | src/SVGBoard/SVGBoard.ts:117-120 | the array form keeps the old collection as a prefix, gains exactly the array's objects and keeps no repeats |
| SvgBoard.RemoveAllFromCollectionSpec | src/SVGBoard/SVGBoard.ts:153-156 | the array form leaves exactly the objects not in the array, without repeats |
| SvgBoard.ConsistentAfterAttach | src/SVGBoard/SVGBoard.ts:143-144 | recording a new entry of fresh elements and attaching them keeps the map and the containers in agreement |
| SvgBoard.ConsistentAfterDetach | src/SVGBoard/SVGBoard.ts:157-160 | deleting an entry and detaching its elements keeps the map and the containers in agreement |
| SvgBoard.OrphansAfterAttach | src/SVGBoard/SVGBoard.ts:143-144 | recording a new entry of fresh elements and attaching them changes no object's orphan status, and the new entry is attached |
| SvgBoard.OrphansAfterDetach | src/SVGBoard/SVGBoard.ts:157-160 | deleting an entry and detaching its elements takes exactly its object out of the orphans |
| SvgBoard.EntryAttachedAfterDetach | src/SVGBoard/SVGBoard.ts:160 | detaching one entry leaves every element of another attached entry in its container |
| SvgBoard.EntryAttachedBeforeDetach | src/SVGBoard/SVGBoard.ts:160 | detaching one entry attaches no element of another entry that was not attached |
| SvgBoard.GrewFromAttach | src/SVGBoard/SVGBoard.ts:144 | attaching new elements only extends containers, never drops or reorders a child |
| SvgBoard.Board.UpdateTraceInOrder | src/SVGBoard/SVGBoard.ts:165-183 | when every object has an entry and a handler, each gets exactly one updateElement call, in array order |
| SvgBoard.Board.UpdateTraceOnlyPresent | src/SVGBoard/SVGBoard.ts:174-179 | every updateElement call is for an object that has an entry; there are no more calls than objects |
| SvgBoard.Board.UpdateTraceOkIff | src/SVGBoard/SVGBoard.ts:174-182 | updating fails iff some object with an entry has no handler |
| SvgBoard.Board.UpdateTraceStopsAtFailure | src/SVGBoard/SVGBoard.ts:167-171 | once an update throws, later objects make no calls |
| SvgBoard.Board.constructor | src/SVGBoard/SVGBoard.ts:26-40 | a new board has an empty collection, an empty map, four empty containers, the configured viewBox and sizing, no orphans, and satisfies the invariant |
| SvgBoard.Board.SetViewport | src/SVGBoard/SVGBoard.ts:185-197 | the viewport is stored and the viewBox recomputed from it |
| SvgBoard.Board.SetCoordinates | src/SVGBoard/SVGBoard.ts:206-210 | label visibility and the viewBox change; the map, the containers and the collection do not |
| SvgBoard.Board.SetSize | src/SVGBoard/SVGBoard.ts:199-204 | the grid-mask, grid and label containers are replaced by empty ones and the viewBox is recomputed from the unchanged viewport; the map, the collection and the objects container are untouched; an entry's element in a regenerated layer is then no longer a child of its layer's container; the invariant is kept; the orphans become the old orphans plus exactly the objects with an element in a regenerated layer |
| SvgBoard.OrphansAfterRegenerate | src/SVGBoard/SVGBoard.ts:199-202 | emptying the three regenerated containers orphans exactly the entries with an element under one of them, on top of those already orphaned |
| SvgBoard.Board.DrawGridAndCoordinates | src/SVGBoard/SVGBoard.ts:72-102 | exactly the three regenerated containers are replaced by empty ones |
| SvgBoard.Board.CreateElement | src/SVGBoard/SVGBoard.ts:135-142 | a single element is filed under the objects layer, otherwise one element per layer of the handler, all freshly created |
| SvgBoard.Board.AttachElements | src/SVGBoard/SVGBoard.ts:144 | each element of the entry is appended to its layer's container; nothing else changes |
| SvgBoard.Board.DetachElements | src/SVGBoard/SVGBoard.ts:160 | each element of the entry is removed from its layer's container; nothing else changes |
| SvgBoard.Board.CreateObjectElements | src/SVGBoard/SVGBoard.ts:131-147 | the map gains exactly one entry for the object; each of its fresh elements is appended to its layer's container; updateElement is called once; the invariant is kept and the orphans are unchanged; an unresolvable handler changes nothing |
| SvgBoard.Board.AddObject | src/SVGBoard/SVGBoard.ts:117-129 | an object that already has an entry is only updated and no elements are created; any other object gets new elements; also after `setSize`, the invariant is kept, the orphans are unchanged, and so is agreement of map and collection |
| SvgBoard.Board.AddObjects | src/SVGBoard/SVGBoard.ts:117-129 | the array form is addObject on each object in index order: it succeeds iff every handler resolves, makes one updateElement call per object in array order, stops at the first throw, ends with the collection of the array form and an entry for each object; the entries of objects that already had one are unchanged, and every new entry has exactly its handler's layers and elements created during the call; on success every container is what it held before followed by its layer's elements of the new objects in order of first occurrence in the array; when an object's handler does not resolve, the collection is that of the array through that object, and the entries and the containers are those of the objects before it; the invariant, the orphans and agreement of map and collection are kept |
| SvgBoard.NewObjects | src/SVGBoard/SVGBoard.ts:121-127 | the objects of an array that get new elements: those without an entry beforehand, each once, in order of first occurrence |
| SvgBoard.NewObjectsStep | src/SVGBoard/SVGBoard.ts:121-127 | one more object of the array is a new object exactly when it has no entry and did not occur earlier |
| SvgBoard.AddedLaidOutStep | src/SVGBoard/SVGBoard.ts:121-144 | adding the next object of an array extends every container by the layer's element of that object if it is new, and changes nothing if it already has an entry |
| SvgBoard.Board.ExtendsStep | src/SVGBoard/SVGBoard.ts:121-143 | adding the next object keeps the old entries unchanged and gives a new object an entry of its handler's layers with freshly created elements |
| SvgBoard.AddAllSnoc | src/SVGBoard/SVGBoard.ts:117-118 | adding an array with one more object is adding the shorter array and then that object |
| SvgBoard.AddStep | src/SVGBoard/SVGBoard.ts:117-118 | after adding the next object of an array, the collection is that of the prefix through it |
| SvgBoard.EntryStep | src/SVGBoard/SVGBoard.ts:121-127 | after the next object of an array is updated or gets new elements, the objects with an entry are those of the prefix through it |
| SvgBoard.Board.RemoveObject | src/SVGBoard/SVGBoard.ts:153-163 | for an object that is not an orphan, also after `setSize`: the map loses the object's entry and exactly its elements leave their containers; without an entry, the map and the containers are unchanged; the invariant and the orphans are kept |
| SvgBoard.Board.RemoveObjects | src/SVGBoard/SVGBoard.ts:153-163 | the array form is removeObject on each object in index order, for an array with no orphan: the collection loses exactly the array's objects, the map loses exactly their entries, no element of theirs stays in its layer's container, every container keeps all its other elements in their order (paint order), and the invariant, the orphans and agreement of map and collection are kept |
| SvgBoard.RemoveAllSnoc | src/SVGBoard/SVGBoard.ts:153-154 | removing an array with one more object is removing the shorter array and then that object |
| SvgBoard.RemoveStep | src/SVGBoard/SVGBoard.ts:153-163 | after removeObject on the next object of an array, the collection and the map are those of the prefix through it |
| SvgBoard.RemovedStep | src/SVGBoard/SVGBoard.ts:157-160 | removing one more object takes exactly its elements out of the containers, on top of those of the earlier removed objects, keeping the order of the rest |
| Common.Filtered | src/SVGBoard/SVGBoard.ts:160 | filtering keeps exactly the elements not taken out |
| Common.FilteredNothing | src/SVGBoard/SVGBoard.ts:153-160 | taking nothing out leaves a container as it was |
| Common.FilteredWithout | src/SVGBoard/SVGBoard.ts:160 | removing one more element from a filtered container is filtering out that element too |
| Common.WithoutConcat | src/SVGBoard/SVGBoard.ts:160 | removing an element from two joined sequences removes it from each part |
| Common.WithoutAbsent | src/SVGBoard/SVGBoard.ts:154 | removing an object that is not in the collection leaves the collection as it was |
| SvgBoard.Board.UpdateObject | src/SVGBoard/SVGBoard.ts:174-183 | an object without an entry causes nothing; otherwise one updateElement call; the map never changes |
| SvgBoard.Board.UpdateObjects | src/SVGBoard/SVGBoard.ts:165-172 | each object is updated in index order, stopping at the first throw |
| SvgBoard.Board.CreationTraceSpec | src/SVGBoard/SVGBoard.ts:114 | creating for all objects succeeds iff every handler resolves, and then makes one updateElement call per object, in collection order |
| SvgBoard.Board.CreationTraceStopsAtFailure | src/SVGBoard/SVGBoard.ts:114 | once creation throws, later objects make no calls |
| SvgBoard.Board.DrawObjects | src/SVGBoard/SVGBoard.ts:104-115 | the map is rebuilt; on success its keys are exactly the collection; each entry fills exactly its handler's layers; the calls follow collection order; on success every container is what it held before (the objects container empty) followed by the new elements of its layer in collection order; no object is an orphan |
| SvgBoard.LaidOutStep | src/SVGBoard/SVGBoard.ts:143-144 | creating elements for the next object extends every container by that object's element of its layer |
| SvgBoard.LaidOutAttached | src/SVGBoard/SVGBoard.ts:114 | when the entries of the objects are laid out in the containers, no object is an orphan |
| SvgBoard.LayerElementsStep | src/SVGBoard/SVGBoard.ts:114 | one more object appends its element of the layer, if it has one |
| SvgBoard.LayerElementsFrame | src/SVGBoard/SVGBoard.ts:143 | the entry of an object outside the sequence plays no part in the layer's elements |
| SvgBoard.LayerElementsHas | src/SVGBoard/SVGBoard.ts:114 | every element an entry holds under a layer is among that layer's elements |
| SvgBoard.LayerElementsOrder | src/SVGBoard/SVGBoard.ts:114 | paint order: of two objects with an element in the same layer, the earlier object's element comes first |
| SvgBoard.Board.TraceStep | src/SVGBoard/SVGBoard.ts:114 | an object whose handler resolves extends the calls on the prefix by its updateElement call |
| SvgBoard.Board.TraceFailure | src/SVGBoard/SVGBoard.ts:114 | an object whose handler does not resolve ends the run with the calls made before it |
| SvgBoard.Board.Redraw | src/SVGBoard/SVGBoard.ts:58-70 | needs only a collection without repeats and the four containers, so it also repairs the board after `setSize`; after a redraw every container holds exactly the elements of its layer in collection order, all made by it, each entry fills exactly its handler's layers, no object is an orphan, and the invariant holds |
| SvgBoard.Board.OneEntryPerObject | src/SVGBoard/SVGBoard.ts:109-114 | when map and collection agree, there is one entry per object of the collection |
| Common.DistinctCardinality | src/SVGBoard/SVGBoard.ts:114 | a collection without repeats has as many distinct objects as it has positions |
| SvgBoard.Board.AddThenRemove | src/SVGBoard/SVGBoard.ts:117-163 | adding a fresh object and removing it restores the collection, the map and the containers |
| SimplePlayer.MoveOf | src/SimplePlayer/SimplePlayer.ts:97 | a node's move is its black move if present, else its white move; absent iff neither is present |
| SimplePlayer.MovesOf | src/SimplePlayer/SimplePlayer.ts:97-100 | one move per node, in node order |
| SimplePlayer.SecondBitByRemainder | src/SimplePlayer/SimplePlayer.ts:110 | bit 2 of the style is set iff the style modulo 4 is 2 or 3 |
| SimplePlayer.ShouldShowVariations | src/SimplePlayer/SimplePlayer.ts:106-115 | with a style present, markup is shown iff bit 2 is clear (style mod 4 below 2); otherwise the configuration decides |
| SimplePlayer.ShouldShowCurrentVariations | src/SimplePlayer/SimplePlayer.ts:117-131 | never in edit mode; otherwise with a style present iff bit 1 is set; otherwise the configuration decides |
| SimplePlayer.VariationStyleTable | src/SimplePlayer/SimplePlayer.ts:106-131 | only the style modulo 4 matters: 0 marks children, 1 marks siblings, 2 and 3 show nothing |
| SimplePlayer.GetVariations | src/SimplePlayer/SimplePlayer.ts:93-104 | nothing unless markup is shown; in current-variation mode the parent's children's moves (nothing at the root); otherwise the current node's children's moves |
| SimplePlayer.EditModeMarksNextMoves | src/SimplePlayer/SimplePlayer.ts:93-104 | in edit mode the markup, when shown, is exactly the moves of the current node's children |
| SimplePlayer.WheelNavigation | src/SimplePlayer/SimplePlayer.ts:47-57 | with focus and the flag on, a positive delta goes forward and a negative one back; otherwise nothing |
| SimplePlayer.KeyNavigation | src/SimplePlayer/SimplePlayer.ts:59-69 | with focus and the flag on, the right arrow goes forward and the left arrow back; otherwise nothing |
| SimplePlayer.WheelReversal | src/SimplePlayer/SimplePlayer.ts:49-53 | scrolling the opposite way navigates the opposite way |
| SimplePlayer.FirstChildAt | src/SimplePlayer/SimplePlayer.ts:187-192 | the first child whose move is at the point, and none when no child's move is |
| SimplePlayer.ClickDecision | src/SimplePlayer/SimplePlayer.ts:182-198 | go to the first child whose move is at the point; with none, play iff the move is legal; never throws (children without a move are skipped) |
| SimplePlayer.ClickDecisionAsWritten | src/SimplePlayer/SimplePlayer.ts:186-198 | the loop as written throws iff a child without a move comes before any matching child |
| SimplePlayer.ClickDecisionAgrees | src/SimplePlayer/SimplePlayer.ts:186-198 | when every child has a move, the loop as written decides like the corrected one |
| SimplePlayer.ClickOnSetupChild | src/SimplePlayer/SimplePlayer.ts:188-189 | a single child without a move makes the click throw as written, while the corrected decision plays the point |
| SimplePlayer.HoverAdd | src/SimplePlayer/SimplePlayer.ts:158-159 | adding the first hover stone keeps the board in agreement with `addedStone` |
| SimplePlayer.HoverUpdate | src/SimplePlayer/SimplePlayer.ts:155-156 | updating a stone changes which stones are on the board in no way |
| SimplePlayer.HoverRemove | src/SimplePlayer/SimplePlayer.ts:171-173 | removing the hover stone leaves no stone of the entry on the board |
| SimplePlayer.HoverNewSession | src/SimplePlayer/SimplePlayer.ts:138-147 | a new edit-mode entry starts with none of its stones on the board |
| SimplePlayer.Player.constructor | src/SimplePlayer/SimplePlayer.ts:40-41 | a new player is not in edit mode, has no hover stone and has made no calls |
| SimplePlayer.Player.AtMostOneHoverStone | src/SimplePlayer/SimplePlayer.ts:147-177 | at most one hover stone of the current entry is on the board |
| SimplePlayer.Player.SetEditMode | src/SimplePlayer/SimplePlayer.ts:133-220 | entering saves and starts with no hover stone and no last point; leaving restores; asking for the current mode changes nothing |
| SimplePlayer.Player.MouseOut | src/SimplePlayer/SimplePlayer.ts:170-177 | the hover stone, if any, is removed, `addedStone` becomes null and the last point (-1, -1) |
| SimplePlayer.Player.MouseMove | src/SimplePlayer/SimplePlayer.ts:149-168 | the last point is ignored; at a legal point the turn's stone is added the first time and updated afterwards; elsewhere the hover stone is removed; the point becomes the last point |
| SimplePlayer.Player.Click | src/SimplePlayer/SimplePlayer.ts:179-199 | the hover stone is cleared first; a click off the board does nothing more; otherwise the game call is the corrected click decision |
| SimplePlayer.Player.NodeChange | src/SimplePlayer/SimplePlayer.ts:201-205 | the hover stone is taken away and put back at the unchanged last point when that point is legal and set |
| RealisticStone.IsOkay | src/CanvasBoard/drawHandlers/realisticStone.ts:10-17 | false for a file name, an incomplete image or a zero natural width; true otherwise |
| RealisticStone.VariantIndex | src/CanvasBoard/drawHandlers/realisticStone.ts:29-30 | the index is below the number of graphics, and a seed below that number is the index everywhere |
| RealisticStone.SingleGraphic | src/CanvasBoard/drawHandlers/realisticStone.ts:29-30 | with one graphic, every position uses it |
| RealisticStone.Idle | src/CanvasBoard/drawHandlers/realisticStone.ts:23 | initially nothing is requested or pending |
| RealisticStone.OnLoad | src/CanvasBoard/drawHandlers/realisticStone.ts:38-47 | the old request is cancelled before the new one is scheduled, so exactly one redraw is pending, for the loading board |
| RealisticStone.Fire | src/CanvasBoard/drawHandlers/realisticStone.ts:43-46 | the timer redraws its board once and clears the request; nothing stays pending |
| RealisticStone.LoadsCoherent | src/CanvasBoard/drawHandlers/realisticStone.ts:38-47 | during a burst of loads no redraw happens and at most one stays pending |
| RealisticStone.BurstYieldsOneRedraw | src/CanvasBoard/drawHandlers/realisticStone.ts:38-47 | a burst of loads followed by the timer yields exactly one redraw, of the board of the last load |
| RealisticStone.StoneHandler.constructor | src/CanvasBoard/drawHandlers/realisticStone.ts:21-23 | the seed is fixed once per instance, within [0, 9999999], nothing is pending, and the handler keeps the caller's graphic list itself, so handlers made from one list share what any of them writes into it |
| RealisticStone.StoneHandler.Draw | src/CanvasBoard/drawHandlers/realisticStone.ts:27-58 | a file-name slot becomes a not-yet-loaded image in place, whose load handler belongs to this handler instance and redraws the drawing board; every other slot is unchanged; a later draw on the slot starts no load; the image is drawn iff it is usable, else the fallback is used |
| RealisticStone.StoneHandler.ImageLoaded | src/CanvasBoard/drawHandlers/realisticStone.ts:34-49 | an incomplete image whose load handler this instance's draw installed completes once, and exactly one redraw is pending on this instance's timer, for the board that started the load |
| RealisticStone.StoneHandler.ImageFailed | src/CanvasBoard/drawHandlers/realisticStone.ts:13-15 | a broken image is never usable, so draws keep using the fallback |
| RealisticStone.StoneHandler.TimerFired | src/CanvasBoard/drawHandlers/realisticStone.ts:43-46 | the pending redraw runs once and nothing stays pending |

## Left out

- DOM and styling are not modelled. This covers the svg and defs elements, background colour and image, mask ids, `innerHTML`, the contents that `createGrid` and `createCoordinates` produce, label opacity, `generateId` and the shared definitions pool. Containers hold only the elements of board objects.
- The removal of the old grid, label and objects containers from the svg element is not modelled. A replaced container is simply a new, empty sequence.
- BoardBase (the collection, and the base-class `setViewport`, `setSize` and `setCoordinates`) is not part of this model.
- SvgBoard.AddToCollection: assumes that the base class does not add a reference twice, because BoardBase is not part of this model.
- SvgBoard.BoardObject: an object's `type` is a constant, because the board only reads it.
- SvgBoard.Board.CreateObjectElements: a handler that files elements under a layer without a container makes the source throw midway. This case is excluded by `Placeable`, a precondition.
- Unresolvable handlers: a type string with no registry entry makes the source throw after the base-class update. This is modelled as `ok == false` with no further change.
- SvgBoard.Board.RemoveObject: removing an orphan is not modelled, and a precondition excludes it. An orphan is an object whose grid or label element was thrown away by `setSize`. For such an object the source's `removeChild` throws a NotFoundError after the entry has been deleted. Removing any other object after `setSize`, and adding objects after `setSize`, are modelled.
- SvgBoard.Board.RemoveObjects: an array that holds an orphan is excluded by a precondition, for the same reason.
- SvgBoard.Board.AddObjects: assumes that the base-class `addObject` for an array calls `addObject` on each object in index order, which reaches the single-object form of this board, because BoardBase is not part of this model.
- SvgBoard.Board.RemoveObjects: assumes that the base-class `removeObject` for an array calls `removeObject` on each object in index order, for the same reason.
- The handlers' `createElement` and `updateElement` are not modelled. Only which layers a handler fills, and that `updateElement` is called, are modelled.
- Default parameters (`setViewport()` with the configured viewport, `setSize()` with 19) are not modelled. Callers pass the values.
- `BoardLineObject`, `glassStoneWhite` and the `drawHandlers` index are not part of this model.
- SimplePlayer: `init` layout and components, `destroy`, listener registration with `on`/`off` and `addEventListener` are not modelled. The listeners' `return false` has no effect in the source.
- PlayerBase (`save`, `restore`, `next`, `previous`, `play`, `game.isValid`, `game.turn`, the current node) is not part of this model. Validity and turn are parameters, and game operations are logged calls.
- The hover stones' opacity is not modelled. `setPosition` is modelled as the position carried by the add or update call.
- SimplePlayer.WheelNavigation: a NaN `deltaY` is not modelled, because the delta is an exact real.
- SimplePlayer.ShouldShowVariations: a non-integer variation style, which JavaScript truncates before the bit test, is not modelled.
- RealisticStone: the shadow handler, canvas drawing, `drawImage` radius arithmetic and the fallback handler's own drawing are not modelled. Only the choice between image and fallback is modelled.
- `Math.random` is not modelled. The seed is a constructor parameter within the same range.
- `window.setTimeout` and `clearTimeout` are not modelled. Timer ids are handed out by a counter, and a firing timer is an event.
- RealisticStone.StoneHandler.Draw: a new image is modelled as incomplete, so an image served from cache that completes at once is not modelled.
- RealisticStone.StoneHandler.constructor: an empty graphic list makes every draw throw in the source. It is excluded by a precondition.
- RealisticStone.StoneHandler.ImageFailed: no error handler is set in the source, so a failed load schedules nothing.

## Findings

| source | as written | input that shows it | evidently intended | confidence | as-written member | corrected member |
|---|---|---|---|---|---|---|
| src/SimplePlayer/SimplePlayer.ts:188-189 | the click handler reads `move.x` where `move` is the child's B or W property | clicking in edit mode at a node with a child that has no B or W property (for example an SGF setup node with only AB/AW); `move` is undefined, so a TypeError is thrown | children without a move are skipped, and the click goes on to match other children or play the point | medium, not executed | SimplePlayer.ClickOnSetupChild | SimplePlayer.ClickDecision |
