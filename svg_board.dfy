/**
 * The retained-mode (SVG) board: every board object owns one or more elements,
 * filed by layer name, and each element is a child of the container of that layer.
 * DOM elements are opaque identities; a container is the sequence of the element
 * identities it holds (grid lines, mask rectangle and label text are not modelled).
 */
module SvgBoard {
  import opened Common

  /** Identity of an SVG element created for a board object. */
  type ElementId = nat

  /** A key of `contexts`, the layer containers. */
  type LayerKey = string

  // The four containers the board itself creates. OBJECTS and GRID_MASK are named
  // constants of the board's type module; only their distinctness matters here.
  const OBJECTS: LayerKey := "objects"
  const GRID_MASK: LayerKey := "gridMask"
  const GRID: LayerKey := "gridElement"
  const COORDINATES: LayerKey := "coordinatesElement"

  /** Every layer that has a container once the board is constructed. */
  const Layers: set<LayerKey> := {OBJECTS, GRID_MASK, GRID, COORDINATES}

  /** The containers that drawGrid and drawCoordinates throw away and create anew. */
  const Regenerated: set<LayerKey> := {GRID_MASK, GRID, COORDINATES}

  // ---------------------------------------------------------------------------
  // Draw handlers and their lookup
  // ---------------------------------------------------------------------------

  /** What a handler's createElement returns: a single element, or elements keyed by layer. */
  datatype Shape = SingleElement | LayeredElements(keys: set<LayerKey>)

  /** A draw handler: its identity and the shape of what its createElement produces. */
  datatype Handler = Handler(id: nat, shape: Shape) {
    /** The layers under which the board files this handler's elements. */
    function LayerKeys(): set<LayerKey> {
      match shape
      case SingleElement => {OBJECTS}
      case LayeredElements(keys) => keys
    }
  }

  /** A board object's `type`: a key of the theme's handler registry, or a handler of its own. */
  datatype ObjectType = Registered(name: string) | Custom(handler: Handler)

  /** A board object; identity is by reference. The board only reads its type. */
  class BoardObject {
    const kind: ObjectType

    constructor (kind: ObjectType)
      ensures this.kind == kind
    {
      this.kind := kind;
    }
  }

  /**
   * getObjectHandler: a string type is looked up in the registry (and is absent
   * when the registry has no such key); any other type is the handler itself.
   */
  function ObjectHandler(registry: map<string, Handler>, kind: ObjectType): (r: Option<Handler>)
    ensures kind.Custom? ==> r == Some(kind.handler)
    ensures kind.Registered? ==> (r.Some? <==> kind.name in registry)
    ensures kind.Registered? && kind.name in registry ==> r == Some(registry[kind.name])
  {
    match kind
    case Custom(h) => Some(h)
    case Registered(name) => if name in registry then Some(registry[name]) else None
  }

  /** A handler given to an object directly wins over whatever the registry holds. */
  lemma CustomHandlerIgnoresRegistry(r1: map<string, Handler>, r2: map<string, Handler>, h: Handler)
    ensures ObjectHandler(r1, Custom(h)) == ObjectHandler(r2, Custom(h)) == Some(h)
  {
  }

  /** One call of a handler's updateElement, made for the given object. */
  datatype HandlerCall = UpdateElement(obj: BoardObject, handler: nat)

  // ---------------------------------------------------------------------------
  // The viewBox arithmetic of setViewport
  // ---------------------------------------------------------------------------

  /** Crop margins, in grid units, taken from each edge of the size x size grid. */
  datatype Viewport = Viewport(top: nat, right: nat, bottom: nat, left: nat)

  /** The four numbers written into the svg element's viewBox attribute. */
  datatype ViewBox = ViewBox(left: real, top: real, width: real, height: real)

  /** Room for coordinate labels on one edge: the font size when labels are on and the edge is not cropped. */
  function LabelAllowance(coordinates: bool, crop: nat, fontSize: real): (a: real)
    ensures a == fontSize <==> (coordinates && crop == 0) || fontSize == 0.0
    ensures a == 0.0 <==> !coordinates || crop != 0 || fontSize == 0.0
  {
    if coordinates && crop == 0 then fontSize else 0.0
  }

  /**
   * The viewBox set by setViewport. The frame runs from the first visible
   * intersection minus half a unit, the margin and the label allowance, to the
   * last visible intersection plus the same three amounts on the far side.
   */
  function ViewBoxOf(size: nat, v: Viewport, coordinates: bool, marginSize: real, fontSize: real): (b: ViewBox)
    // the first visible row and column are v.top and v.left
    ensures b.top == v.top as real - (0.5 + marginSize + LabelAllowance(coordinates, v.top, fontSize))
    ensures b.left == v.left as real - (0.5 + marginSize + LabelAllowance(coordinates, v.left, fontSize))
    // the last visible row and column are size - 1 - v.bottom and size - 1 - v.right
    ensures b.top + b.height == (size - 1 - v.bottom) as real + 0.5 + marginSize + LabelAllowance(coordinates, v.bottom, fontSize)
    ensures b.left + b.width == (size - 1 - v.right) as real + 0.5 + marginSize + LabelAllowance(coordinates, v.right, fontSize)
    // so the extent is the number of visible lines plus both margins and both allowances
    ensures b.height == (size - v.top - v.bottom) as real + 2.0 * marginSize
                        + LabelAllowance(coordinates, v.top, fontSize) + LabelAllowance(coordinates, v.bottom, fontSize)
    ensures b.width == (size - v.left - v.right) as real + 2.0 * marginSize
                       + LabelAllowance(coordinates, v.left, fontSize) + LabelAllowance(coordinates, v.right, fontSize)
  {
    var top := v.top as real - 0.5 - LabelAllowance(coordinates, v.top, fontSize) - marginSize;
    var left := v.left as real - 0.5 - LabelAllowance(coordinates, v.left, fontSize) - marginSize;
    var height := size as real - 0.5 - top - v.bottom as real + LabelAllowance(coordinates, v.bottom, fontSize) + marginSize;
    var width := size as real - 0.5 - left - v.right as real + LabelAllowance(coordinates, v.right, fontSize) + marginSize;
    ViewBox(left, top, width, height)
  }

  /** A frame with at least one visible line each way and non-negative theme sizes is never empty. */
  lemma ViewBoxNonEmpty(size: nat, v: Viewport, coordinates: bool, marginSize: real, fontSize: real)
    requires v.top + v.bottom < size && v.left + v.right < size
    requires marginSize >= 0.0 && fontSize >= 0.0
    ensures ViewBoxOf(size, v, coordinates, marginSize, fontSize).width >= 1.0
    ensures ViewBoxOf(size, v, coordinates, marginSize, fontSize).height >= 1.0
  {
  }

  /** The top edge gets more than half a unit plus the margin exactly when labels are on and the top is not cropped. */
  lemma TopLabelRoomIff(size: nat, v: Viewport, coordinates: bool, marginSize: real, fontSize: real)
    requires fontSize > 0.0
    ensures ViewBoxOf(size, v, coordinates, marginSize, fontSize).top < v.top as real - 0.5 - marginSize
            <==> coordinates && v.top == 0
  {
  }

  /** A full 19x19 board with labels: one font unit of room on every edge; cropping the top drops it there. */
  lemma FullBoardFrame(marginSize: real, fontSize: real)
    ensures ViewBoxOf(19, Viewport(0, 0, 0, 0), true, marginSize, fontSize)
            == ViewBox(-0.5 - marginSize - fontSize, -0.5 - marginSize - fontSize,
                       19.0 + 2.0 * marginSize + 2.0 * fontSize, 19.0 + 2.0 * marginSize + 2.0 * fontSize)
    ensures ViewBoxOf(19, Viewport(1, 0, 0, 0), true, marginSize, fontSize).top == 0.5 - marginSize
  {
  }

  // ---------------------------------------------------------------------------
  // The sizing decision of resize
  // ---------------------------------------------------------------------------

  /** A CSS length written into the svg element's style: `<n>px`, `auto` or `100%`. */
  datatype Length = Px(n: int) | Auto | Full

  datatype Sizing = Sizing(width: Length, height: Length)

  /** JavaScript truthiness of an optional number: present and not zero. */
  predicate IsSet(n: Option<int>) {
    n.Some? && n.value != 0
  }

  /** resize: explicit pixels for each configured dimension; otherwise auto, or full width when neither is set. */
  function SizingFor(width: Option<int>, height: Option<int>): (s: Sizing)
    ensures s.width.Px? <==> IsSet(width)
    ensures s.height.Px? <==> IsSet(height)
    ensures IsSet(width) ==> s.width == Px(width.value)
    ensures IsSet(height) ==> s.height == Px(height.value)
    ensures s.width == Full <==> !IsSet(width) && !IsSet(height)
    ensures s.width == Auto <==> !IsSet(width) && IsSet(height)
    ensures s.height == Auto <==> !IsSet(height)
  {
    if IsSet(width) && IsSet(height) then Sizing(Px(width.value), Px(height.value))
    else if IsSet(width) then Sizing(Px(width.value), Auto)
    else if IsSet(height) then Sizing(Auto, Px(height.value))
    else Sizing(Full, Auto)
  }

  // ---------------------------------------------------------------------------
  // Attaching and detaching one object's elements
  // ---------------------------------------------------------------------------

  /** The containers after each element of `entry` is appended to the container of its layer. */
  function Attach(contexts: map<LayerKey, seq<ElementId>>, entry: map<LayerKey, ElementId>): map<LayerKey, seq<ElementId>> {
    map k | k in contexts :: if k in entry then contexts[k] + [entry[k]] else contexts[k]
  }

  /** The containers after each element of `entry` is removed from the container of its layer. */
  function Detach(contexts: map<LayerKey, seq<ElementId>>, entry: map<LayerKey, ElementId>): map<LayerKey, seq<ElementId>> {
    map k | k in contexts :: if k in entry then Without(contexts[k], entry[k]) else contexts[k]
  }

  /** Attaching fresh elements and then detaching them gives back exactly the containers there were. */
  lemma AttachDetachRoundTrip(contexts: map<LayerKey, seq<ElementId>>, entry: map<LayerKey, ElementId>)
    requires forall k | k in entry && k in contexts :: entry[k] !in contexts[k]
    ensures Detach(Attach(contexts, entry), entry) == contexts
  {
    forall k | k in contexts && k in entry
      ensures Without(contexts[k] + [entry[k]], entry[k]) == contexts[k]
    {
      WithoutAppended(contexts[k], entry[k]);
    }
  }

  /** Detaching an entry leaves no element of it in any container, and every other element where it was. */
  lemma DetachRemovesExactly(contexts: map<LayerKey, seq<ElementId>>, entry: map<LayerKey, ElementId>, k: LayerKey, e: ElementId)
    requires k in contexts
    ensures k in entry && e == entry[k] ==> e !in Detach(contexts, entry)[k]
    ensures (k !in entry || e != entry[k]) ==> (e in Detach(contexts, entry)[k] <==> e in contexts[k])
  {
  }

  /** The base class's addObject: a reference already in the collection is not added twice. */
  function AddToCollection(objects: seq<BoardObject>, o: BoardObject): (r: seq<BoardObject>)
    ensures Elements(r) == Elements(objects) + {o}
    ensures Distinct(objects) ==> Distinct(r)
    ensures o !in objects ==> |r| == |objects| + 1 && r[..|objects|] == objects && r[|objects|] == o
  {
    if o in objects then objects else objects + [o]
  }

  /** The base class's removeObject: the object leaves the collection, which stays free of repeats. */
  lemma RemoveFromCollection(objects: seq<BoardObject>, o: BoardObject)
    requires Distinct(objects)
    ensures Distinct(Without(objects, o))
    ensures Elements(Without(objects, o)) == Elements(objects) - {o}
  {
    WithoutDistinct(objects, o);
  }

  /** The base class's addObject for an array: each element in turn. */
  function AddAllToCollection(objects: seq<BoardObject>, arr: seq<BoardObject>): (r: seq<BoardObject>)
    decreases |arr|
  {
    if arr == [] then objects else AddAllToCollection(AddToCollection(objects, arr[0]), arr[1..])
  }

  /** Adding an array keeps the collection free of repeats, keeps what was there and gains exactly the array's objects. */
  lemma {:induction false} AddAllToCollectionSpec(objects: seq<BoardObject>, arr: seq<BoardObject>)
    requires Distinct(objects)
    ensures Distinct(AddAllToCollection(objects, arr))
    ensures Elements(AddAllToCollection(objects, arr)) == Elements(objects) + Elements(arr)
    ensures objects <= AddAllToCollection(objects, arr)
    decreases |arr|
  {
    if arr != [] {
      var next := AddToCollection(objects, arr[0]);
      AddAllToCollectionSpec(next, arr[1..]);
      ElementsCons(arr);
      assert objects <= next;
    }
  }

  /** Adding an array with one more object is adding the shorter array, then that object. */
  lemma {:induction false} AddAllSnoc(objects: seq<BoardObject>, arr: seq<BoardObject>, o: BoardObject)
    ensures AddAllToCollection(objects, arr + [o]) == AddToCollection(AddAllToCollection(objects, arr), o)
    decreases |arr|
  {
    if arr == [] {
      assert ([] + [o])[1..] == [];
    } else {
      assert (arr + [o])[0] == arr[0] && (arr + [o])[1..] == arr[1..] + [o];
      AddAllSnoc(AddToCollection(objects, arr[0]), arr[1..], o);
    }
  }

  /** Adding the next object of an array gives the collection of the prefix through it. */
  lemma AddStep(objects0: seq<BoardObject>, arr: seq<BoardObject>, i: nat, objects: seq<BoardObject>)
    requires i < |arr| && objects == AddAllToCollection(objects0, arr[..i])
    ensures AddToCollection(objects, arr[i]) == AddAllToCollection(objects0, arr[..i + 1])
  {
    var prefix := arr[..i];
    assert arr[..i + 1] == prefix + [arr[i]];
    AddAllSnoc(objects0, prefix, arr[i]);
  }

  /** After the next object of an array gets or keeps an entry, the objects with an entry are those of the prefix through it. */
  lemma EntryStep(keys0: set<BoardObject>, arr: seq<BoardObject>, i: nat, m: ElementMap, m': ElementMap)
    requires i < |arr| && m.Keys == keys0 + Elements(arr[..i])
    requires arr[i] in m ==> m' == m
    requires arr[i] !in m ==> arr[i] in m' && m' == m[arr[i] := m'[arr[i]]]
    ensures m'.Keys == keys0 + Elements(arr[..i + 1])
  {
    assert m'.Keys == m.Keys + {arr[i]};
    ElementsStep(arr, i);
  }

  /**
   * The objects of `arr` that have no entry among `keys`, each once, in the
   * order of their first occurrence: those that addObject on the array gives
   * new elements.
   */
  function NewObjects(keys: set<BoardObject>, arr: seq<BoardObject>): (r: seq<BoardObject>)
    ensures Distinct(r)
    ensures Elements(r) == Elements(arr) - keys
    decreases |arr|
  {
    if arr == [] then []
    else
      var init := NewObjects(keys, arr[..|arr| - 1]);
      var o := arr[|arr| - 1];
      assert Elements(arr) == Elements(arr[..|arr| - 1]) + {o} by {
        assert arr == arr[..|arr| - 1] + [o];
      }
      assert o in init <==> o in Elements(init);
      if o in keys || o in init then init
      else
        assert Elements(init + [o]) == Elements(init) + {o};
        init + [o]
  }

  /** The new objects of a one-longer prefix gain its last object exactly when that object has no entry yet. */
  lemma NewObjectsStep(keys: set<BoardObject>, arr: seq<BoardObject>, i: nat)
    requires i < |arr|
    ensures NewObjects(keys, arr[..i + 1]) ==
      if arr[i] in keys + Elements(arr[..i]) then NewObjects(keys, arr[..i]) else NewObjects(keys, arr[..i]) + [arr[i]]
  {
    var arr' := arr[..i + 1];
    assert arr'[..|arr'| - 1] == arr[..i] && arr'[|arr'| - 1] == arr[i];
    var init := NewObjects(keys, arr[..i]);
    assert arr[i] in init <==> arr[i] in Elements(init);
  }

  /** The base class's removeObject for an array: every object of the array leaves the collection. */
  function RemoveAllFromCollection(objects: seq<BoardObject>, arr: seq<BoardObject>): (r: seq<BoardObject>)
    decreases |arr|
  {
    if arr == [] then objects else RemoveAllFromCollection(Without(objects, arr[0]), arr[1..])
  }

  /** Removing an array with one more object is removing the shorter array, then that object. */
  lemma {:induction false} RemoveAllSnoc(objects: seq<BoardObject>, arr: seq<BoardObject>, o: BoardObject)
    ensures RemoveAllFromCollection(objects, arr + [o]) == Without(RemoveAllFromCollection(objects, arr), o)
    decreases |arr|
  {
    if arr == [] {
      assert ([] + [o])[1..] == [];
    } else {
      assert (arr + [o])[0] == arr[0] && (arr + [o])[1..] == arr[1..] + [o];
      RemoveAllSnoc(Without(objects, arr[0]), arr[1..], o);
    }
  }

  /**
   * Removing the next object of an array shrinks the collection and the map
   * from the prefix before it to the prefix through it.
   */
  lemma RemoveStep(
    objects0: seq<BoardObject>, m0: ElementMap, arr: seq<BoardObject>, i: nat,
    objects: seq<BoardObject>, m: ElementMap)
    requires i < |arr|
    requires objects == RemoveAllFromCollection(objects0, arr[..i]) && m == m0 - Elements(arr[..i])
    ensures Without(objects, arr[i]) == RemoveAllFromCollection(objects0, arr[..i + 1])
    ensures m - {arr[i]} == m0 - Elements(arr[..i + 1])
  {
    RemoveAllSnoc(objects0, arr[..i], arr[i]);
    assert arr[..i + 1] == arr[..i] + [arr[i]];
    ElementsStep(arr, i);
  }

  /** Removing an array leaves exactly the objects not in it, still without repeats. */
  lemma {:induction false} RemoveAllFromCollectionSpec(objects: seq<BoardObject>, arr: seq<BoardObject>)
    requires Distinct(objects)
    ensures Distinct(RemoveAllFromCollection(objects, arr))
    ensures Elements(RemoveAllFromCollection(objects, arr)) == Elements(objects) - Elements(arr)
    decreases |arr|
  {
    if arr != [] {
      WithoutDistinct(objects, arr[0]);
      RemoveAllFromCollectionSpec(Without(objects, arr[0]), arr[1..]);
      ElementsCons(arr);
    }
  }

  /** objectsElementMap: each object's elements, keyed by layer. */
  type ElementMap = map<BoardObject, map<LayerKey, ElementId>>

  /** contexts: the children of each layer container. */
  type Containers = map<LayerKey, seq<ElementId>>

  /** Every element held by a container was created before element `n`. */
  ghost predicate Allocated(c: Containers, n: nat) {
    forall k, e | k in c && e in c[k] :: e < n
  }

  /**
   * The map and the containers agree: the four containers exist, every element
   * of an entry has been created and is filed under a layer that has a
   * container, every element of the objects layer is a child of the objects
   * container, and no two entries share an element in a layer. An element of a
   * grid or label layer may have lost its container to setSize.
   */
  ghost predicate Consistent(m: ElementMap, c: Containers, n: nat) {
    && c.Keys == Layers
    && Allocated(c, n)
    && (forall o | o in m :: m[o].Keys <= c.Keys)
    && (forall o, k | o in m && k in m[o] :: m[o][k] < n)
    && (forall o | o in m && OBJECTS in m[o] :: m[o][OBJECTS] in c[OBJECTS])
    && (forall o1, o2, k | o1 in m && o2 in m && o1 != o2 && k in m[o1] && k in m[o2] :: m[o1][k] != m[o2][k])
  }

  /** Every element of the entry of `o`, if it has one, is a child of its layer's container. */
  ghost predicate EntryAttached(m: ElementMap, c: Containers, o: BoardObject) {
    o in m ==> forall k {:trigger m[o][k]} | k in m[o] :: k in c && m[o][k] in c[k]
  }

  /** The objects whose entry has an element that is not a child of its layer's container. */
  ghost function Orphans(m: ElementMap, c: Containers): set<BoardObject> {
    set o | o in m && !EntryAttached(m, c, o)
  }

  /** Recording a new object's fresh elements and attaching them keeps the map and the containers in agreement. */
  lemma ConsistentAfterAttach(m: ElementMap, c: Containers, n: nat, o: BoardObject, entry: map<LayerKey, ElementId>, n': nat)
    requires Consistent(m, c, n) && o !in m
    requires entry.Keys <= Layers
    requires forall k | k in entry :: n <= entry[k] < n'
    requires n <= n'
    ensures Consistent(m[o := entry], Attach(c, entry), n')
  {
    var m', c' := m[o := entry], Attach(c, entry);
    assert Allocated(c', n') by {
      forall k, e | k in c' && e in c'[k] ensures e < n' {
        assert e in c[k] || (k in entry && e == entry[k]);
      }
    }
    forall o1 | o1 in m' && OBJECTS in m'[o1] ensures m'[o1][OBJECTS] in c'[OBJECTS] {
      if o1 != o {
        assert m'[o1][OBJECTS] == m[o1][OBJECTS] && m[o1][OBJECTS] in c[OBJECTS];
      }
    }
    forall o1, o2, k | o1 in m' && o2 in m' && o1 != o2 && k in m'[o1] && k in m'[o2]
      ensures m'[o1][k] != m'[o2][k]
    {
      if o1 == o {
        assert m[o2][k] < n;
      } else if o2 == o {
        assert m[o1][k] < n;
      }
    }
  }

  /** Deleting an entry and detaching its elements keeps the map and the containers in agreement. */
  lemma ConsistentAfterDetach(m: ElementMap, c: Containers, n: nat, o: BoardObject)
    requires Consistent(m, c, n) && o in m
    ensures Consistent(m - {o}, Detach(c, m[o]), n)
  {
    var m', c' := m - {o}, Detach(c, m[o]);
    forall o1 | o1 in m' && OBJECTS in m'[o1] ensures m'[o1][OBJECTS] in c'[OBJECTS] {
      assert m'[o1][OBJECTS] == m[o1][OBJECTS] && m[o1][OBJECTS] in c[OBJECTS];
      if OBJECTS in m[o] {
        assert m[o1][OBJECTS] != m[o][OBJECTS];
      }
    }
  }

  /**
   * Recording a new object's fresh elements and attaching them orphans no
   * entry: the new entry is attached, and every other entry keeps its status.
   */
  lemma OrphansAfterAttach(m: ElementMap, c: Containers, n: nat, o: BoardObject, entry: map<LayerKey, ElementId>)
    requires o !in m && forall p, k | p in m && k in m[p] :: m[p][k] < n
    requires entry.Keys <= c.Keys && forall k | k in entry :: n <= entry[k]
    ensures Orphans(m[o := entry], Attach(c, entry)) == Orphans(m, c)
  {
    var m', c' := m[o := entry], Attach(c, entry);
    forall p | p in m ensures EntryAttached(m', c', p) <==> EntryAttached(m, c, p) {
      assert m'[p] == m[p];
      forall k | k in m[p] && k in c ensures m[p][k] in c'[k] <==> m[p][k] in c[k] {
        if k in entry {
          assert m[p][k] < n <= entry[k];
          assert c'[k] == c[k] + [entry[k]];
        }
      }
    }
    assert EntryAttached(m', c', o);
  }

  /** Detaching the elements of the entry of `o` leaves every element of another attached entry where it was. */
  lemma EntryAttachedAfterDetach(m: ElementMap, c: Containers, n: nat, o: BoardObject, p: BoardObject)
    requires Consistent(m, c, n) && o in m && p != o && EntryAttached(m, c, p)
    ensures EntryAttached(m - {o}, Detach(c, m[o]), p)
  {
    if p in m {
      forall k | k in m[p] ensures m[p][k] in Detach(c, m[o])[k] {
        if k in m[o] {
          assert m[p][k] != m[o][k];
        }
      }
    }
  }

  /**
   * Emptying the grid mask, grid and label containers orphans exactly the
   * entries with an element under one of them, on top of those already
   * orphaned.
   */
  lemma OrphansAfterRegenerate(m: ElementMap, c: Containers)
    ensures Orphans(m, c[GRID_MASK := []][GRID := []][COORDINATES := []]) ==
      Orphans(m, c) + set o | o in m && m[o].Keys * Regenerated != {}
  {
    var c' := c[GRID_MASK := []][GRID := []][COORDINATES := []];
    forall o | o in m && m[o].Keys !! Regenerated
      ensures EntryAttached(m, c', o) <==> EntryAttached(m, c, o)
    {
    }
    forall o | o in m && m[o].Keys * Regenerated != {}
      ensures !EntryAttached(m, c', o)
    {
      var k :| k in m[o].Keys * Regenerated;
      assert m[o][k] !in c'[k];
    }
  }

  /** Detaching the elements of the entry of `o` cannot attach an element of another entry that was not attached. */
  lemma EntryAttachedBeforeDetach(m: ElementMap, c: Containers, n: nat, o: BoardObject, p: BoardObject)
    requires Consistent(m, c, n) && o in m && p != o && EntryAttached(m - {o}, Detach(c, m[o]), p)
    ensures EntryAttached(m, c, p)
  {
    if p in m {
      assert (m - {o})[p] == m[p];
      forall k | k in m[p] ensures k in c && m[p][k] in c[k] {
        assert m[p][k] in Detach(c, m[o])[k];
        if k in m[o] {
          assert m[p][k] != m[o][k];
        }
        DetachRemovesExactly(c, m[o], k, m[p][k]);
      }
    }
  }

  /** Deleting an entry and detaching its elements takes its object out of the orphans and leaves every other entry as it was. */
  lemma OrphansAfterDetach(m: ElementMap, c: Containers, n: nat, o: BoardObject)
    requires Consistent(m, c, n) && o in m
    ensures Orphans(m - {o}, Detach(c, m[o])) == Orphans(m, c) - {o}
  {
    forall p | p in m && p != o ensures EntryAttached(m - {o}, Detach(c, m[o]), p) <==> EntryAttached(m, c, p) {
      if EntryAttached(m, c, p) {
        EntryAttachedAfterDetach(m, c, n, o, p);
      }
      if EntryAttached(m - {o}, Detach(c, m[o]), p) {
        EntryAttachedBeforeDetach(m, c, n, o, p);
      }
    }
  }

  /** The elements under layer `k` of the entries that the objects in `gone` have in `m0`. */
  ghost function RemovedElements(m0: ElementMap, gone: set<BoardObject>, k: LayerKey): set<ElementId> {
    set p | p in m0 && p in gone && k in m0[p] :: m0[p][k]
  }

  /**
   * Removing one more object filters its element of each layer, if it still
   * had an entry, out of the containers, on top of the elements of the
   * objects removed before it; every other element keeps its place.
   */
  lemma RemovedStep(m0: ElementMap, gone: set<BoardObject>, m: ElementMap, c0: Containers, c: Containers, o: BoardObject, c': Containers)
    requires m == m0 - gone
    requires forall k | k in c0 :: k in c && c[k] == Filtered(c0[k], RemovedElements(m0, gone, k))
    requires o in m ==> c' == Detach(c, m[o])
    requires o !in m ==> c' == c
    ensures forall k | k in c0 :: k in c' && c'[k] == Filtered(c0[k], RemovedElements(m0, gone + {o}, k))
  {
    forall k | k in c0 ensures k in c' && c'[k] == Filtered(c0[k], RemovedElements(m0, gone + {o}, k)) {
      if o in m && k in m[o] {
        assert m[o] == m0[o];
        assert RemovedElements(m0, gone + {o}, k) == RemovedElements(m0, gone, k) + {m[o][k]};
        FilteredWithout(c0[k], RemovedElements(m0, gone, k), m[o][k]);
      } else {
        assert RemovedElements(m0, gone + {o}, k) == RemovedElements(m0, gone, k);
      }
    }
  }

  /**
   * Containers `c` grew from `c0` by appending only elements created from
   * element `n0` on: each old container is a prefix of the new one.
   */
  ghost predicate GrewFrom(c0: Containers, c: Containers, n0: nat) {
    && c.Keys == c0.Keys
    && (forall k | k in c :: c0[k] <= c[k])
    && (forall k, e | k in c && e in c[k] :: e in c0[k] || n0 <= e)
  }

  /** Attaching elements created from `n0` on keeps containers grown from `c0` that way. */
  lemma GrewFromAttach(c0: Containers, c: Containers, n0: nat, entry: map<LayerKey, ElementId>)
    requires GrewFrom(c0, c, n0)
    requires forall k | k in entry :: n0 <= entry[k]
    ensures GrewFrom(c0, Attach(c, entry), n0)
  {
    var c' := Attach(c, entry);
    forall k | k in c' ensures c0[k] <= c'[k] {
      if k in entry {
        assert c'[k] == c[k] + [entry[k]];
      }
    }
  }

  /** The elements that the entries of `objs` hold under layer `k`, in the order of `objs`. */
  function LayerElements(objs: seq<BoardObject>, m: ElementMap, k: LayerKey): seq<ElementId>
    decreases |objs|
  {
    if objs == [] then []
    else
      var o := objs[|objs| - 1];
      LayerElements(objs[..|objs| - 1], m, k) + (if o in m && k in m[o] then [m[o][k]] else [])
  }

  /** Each container holds what it held in `c1`, followed by the layer sequence of `objs`. */
  ghost predicate LaidOut(objs: seq<BoardObject>, m: ElementMap, c: Containers, c1: Containers) {
    forall k | k in c :: k in c1 && c[k] == c1[k] + LayerElements(objs, m, k)
  }

  /** Attaching the entry of the next object, which is not among the earlier ones, extends every container by its element. */
  lemma LaidOutStep(objs: seq<BoardObject>, i: nat, m: ElementMap, c: Containers, c1: Containers, entry: map<LayerKey, ElementId>)
    requires i < |objs| && objs[i] !in objs[..i]
    requires LaidOut(objs[..i], m, c, c1)
    ensures LaidOut(objs[..i + 1], m[objs[i] := entry], Attach(c, entry), c1)
  {
    var o, m', c' := objs[i], m[objs[i] := entry], Attach(c, entry);
    forall k | k in c' ensures k in c1 && c'[k] == c1[k] + LayerElements(objs[..i + 1], m', k) {
      LayerElementsStep(objs, i, m', k);
      LayerElementsFrame(objs[..i], m, o, entry, k);
      var tail := if k in entry then [entry[k]] else [];
      assert c'[k] == c[k] + tail;
      AppendAssoc(c1[k], LayerElements(objs[..i], m, k), tail);
    }
  }

  /** When the entries of exactly the objects of `objs` are laid out in the containers, no entry is orphaned. */
  lemma LaidOutAttached(objs: seq<BoardObject>, m: ElementMap, c: Containers, c1: Containers)
    requires m.Keys == Elements(objs) && LaidOut(objs, m, c, c1)
    requires forall o | o in m :: m[o].Keys <= c.Keys
    ensures Orphans(m, c) == {}
  {
    forall o | o in m ensures EntryAttached(m, c, o) {
      var i :| 0 <= i < |objs| && objs[i] == o;
      forall k | k in m[o] ensures k in c && m[o][k] in c[k] {
        LayerElementsHas(objs, m, k, i);
      }
    }
  }

  /**
   * After addObject on the next object of an array, each container holds what
   * it held before the array, followed by its layer's elements of the new
   * objects of the prefix through that object.
   */
  lemma AddedLaidOutStep(
    keys0: set<BoardObject>, arr: seq<BoardObject>, i: nat, m: ElementMap, c: Containers, c0: Containers,
    m': ElementMap, c': Containers)
    requires i < |arr| && m.Keys == keys0 + Elements(arr[..i])
    requires LaidOut(NewObjects(keys0, arr[..i]), m, c, c0)
    requires arr[i] in m ==> m' == m && c' == c
    requires arr[i] !in m ==> arr[i] in m' && m' == m[arr[i] := m'[arr[i]]] && c' == Attach(c, m'[arr[i]])
    ensures LaidOut(NewObjects(keys0, arr[..i + 1]), m', c', c0)
  {
    NewObjectsStep(keys0, arr, i);
    var before := NewObjects(keys0, arr[..i]);
    if arr[i] in m {
      assert NewObjects(keys0, arr[..i + 1]) == before;
    } else {
      var objs := before + [arr[i]];
      assert NewObjects(keys0, arr[..i + 1]) == objs;
      assert objs[..|before|] == before && objs[|before|] == arr[i];
      assert arr[i] !in Elements(before);
      LaidOutStep(objs, |before|, m, c, c0, m'[arr[i]]);
      assert objs[..|before| + 1] == objs;
    }
  }

  /** One more object appends its element of layer `k`, if it has one. */
  lemma LayerElementsStep(objs: seq<BoardObject>, i: nat, m: ElementMap, k: LayerKey)
    requires i < |objs|
    ensures LayerElements(objs[..i + 1], m, k) ==
      LayerElements(objs[..i], m, k) + (if objs[i] in m && k in m[objs[i]] then [m[objs[i]][k]] else [])
  {
    assert objs[..i + 1][..i] == objs[..i];
  }

  /** The entry of an object outside `objs` plays no part in their layer sequence. */
  lemma {:induction false} LayerElementsFrame(objs: seq<BoardObject>, m: ElementMap, o: BoardObject, entry: map<LayerKey, ElementId>, k: LayerKey)
    requires o !in objs
    ensures LayerElements(objs, m[o := entry], k) == LayerElements(objs, m, k)
    decreases |objs|
  {
    if objs != [] {
      LayerElementsFrame(objs[..|objs| - 1], m, o, entry, k);
    }
  }

  /** Every element an entry of `objs` holds under layer `k` is in their layer sequence. */
  lemma {:induction false} LayerElementsHas(objs: seq<BoardObject>, m: ElementMap, k: LayerKey, i: nat)
    requires i < |objs| && objs[i] in m && k in m[objs[i]]
    ensures m[objs[i]][k] in LayerElements(objs, m, k)
    decreases |objs|
  {
    var init := objs[..|objs| - 1];
    if i < |objs| - 1 {
      LayerElementsHas(init, m, k, i);
    }
  }

  /**
   * Paint order: when two objects both have an element in layer `k`, the
   * element of the earlier object comes first in the layer sequence.
   */
  lemma {:induction false} LayerElementsOrder(objs: seq<BoardObject>, m: ElementMap, k: LayerKey, i: nat, j: nat)
    requires i < j < |objs|
    requires objs[i] in m && k in m[objs[i]] && objs[j] in m && k in m[objs[j]]
    ensures exists p, q | 0 <= p < q < |LayerElements(objs, m, k)| ::
      LayerElements(objs, m, k)[p] == m[objs[i]][k] && LayerElements(objs, m, k)[q] == m[objs[j]][k]
    decreases |objs|
  {
    var init := objs[..|objs| - 1];
    var le := LayerElements(objs, m, k);
    assert le == LayerElements(init, m, k) + (if objs[|objs| - 1] in m && k in m[objs[|objs| - 1]] then [m[objs[|objs| - 1]][k]] else []);
    if j == |objs| - 1 {
      LayerElementsHas(init, m, k, i);
      var p :| 0 <= p < |LayerElements(init, m, k)| && LayerElements(init, m, k)[p] == m[objs[i]][k];
      assert le[p] == m[objs[i]][k];
      assert le[|le| - 1] == m[objs[j]][k];
    } else {
      LayerElementsOrder(init, m, k, i, j);
      var p, q :| 0 <= p < q < |LayerElements(init, m, k)| &&
        LayerElements(init, m, k)[p] == m[init[i]][k] && LayerElements(init, m, k)[q] == m[init[j]][k];
      assert le[p] == m[objs[i]][k] && le[q] == m[objs[j]][k];
    }
  }

  /** The result of running a handler step over objects in order: the updateElement calls made, and whether no lookup failed. */
  datatype Trace = Trace(calls: seq<HandlerCall>, ok: bool)

  // ---------------------------------------------------------------------------
  // The board
  // ---------------------------------------------------------------------------

  class Board {
    /** config.theme.drawHandlers */
    const registry: map<string, Handler>
    /** config.theme.marginSize and config.theme.coordinates.fontSize */
    const marginSize: real
    const fontSize: real
    /** config.width and config.height */
    const width: Option<int>
    const height: Option<int>

    /** config.size, config.viewport, config.coordinates */
    var size: nat
    var viewport: Viewport
    var coordinates: bool
    /** The svg element's viewBox attribute and style width/height. */
    var viewBox: ViewBox
    var sizing: Sizing

    /** The base class's object collection, in paint order. */
    var objects: seq<BoardObject>
    /** objectsElementMap: each object's elements, keyed by layer. */
    var elementMap: map<BoardObject, map<LayerKey, ElementId>>
    /** contexts: the children of each layer container. */
    var contexts: map<LayerKey, seq<ElementId>>
    /** Every element id below this one has been created; createElement returns ids from here on. */
    var nextElement: nat
    /** The updateElement calls made so far, in order. */
    var calls: seq<HandlerCall>

    /**
     * The map and the containers agree, and the collection has no repeats. An
     * entry's grid or label element may have lost its container to setSize.
     */
    ghost predicate Valid()
      reads this
    {
      Distinct(objects) && Consistent(elementMap, contexts, nextElement)
    }

    /** The map has an entry for exactly the objects in the collection. */
    ghost predicate Synced()
      reads this
    {
      elementMap.Keys == Elements(objects)
    }

    /** getObjectHandler */
    function GetObjectHandler(o: BoardObject): Option<Handler>
    {
      ObjectHandler(registry, o.kind)
    }

    /** The handler of `o`, if it resolves, only files elements under layers that have a container. */
    predicate Placeable(o: BoardObject)
    {
      match GetObjectHandler(o)
      case None => true
      case Some(h) => h.LayerKeys() <= Layers
    }

    /**
     * The updateElement calls that updating `arr` in order makes, given the
     * objects that have an entry; an unresolvable handler of an object with an
     * entry throws, which ends the run.
     */
    function UpdateTrace(present: set<BoardObject>, arr: seq<BoardObject>): Trace
      decreases |arr|
    {
      if arr == [] then Trace([], true)
      else
        var t := UpdateTrace(present, arr[..|arr| - 1]);
        var o := arr[|arr| - 1];
        if !t.ok || o !in present then t
        else match GetObjectHandler(o)
          case None => Trace(t.calls, false)
          case Some(h) => Trace(t.calls + [UpdateElement(o, h.id)], true)
    }

    /** When every object has an entry and a handler, each gets exactly one updateElement call, in array order. */
    lemma {:induction false} UpdateTraceInOrder(present: set<BoardObject>, arr: seq<BoardObject>)
      requires forall i | 0 <= i < |arr| :: arr[i] in present && GetObjectHandler(arr[i]).Some?
      ensures UpdateTrace(present, arr).ok
      ensures |UpdateTrace(present, arr).calls| == |arr|
      ensures forall i | 0 <= i < |arr| :: UpdateTrace(present, arr).calls[i] == UpdateElement(arr[i], GetObjectHandler(arr[i]).value.id)
      decreases |arr|
    {
      if arr != [] {
        var init := arr[..|arr| - 1];
        UpdateTraceInOrder(present, init);
      }
    }

    /** Objects without an entry are passed over: every call is for an object with an entry. */
    lemma {:induction false} UpdateTraceOnlyPresent(present: set<BoardObject>, arr: seq<BoardObject>)
      ensures forall c | c in UpdateTrace(present, arr).calls :: c.obj in present
      ensures |UpdateTrace(present, arr).calls| <= |arr|
      decreases |arr|
    {
      if arr != [] {
        UpdateTraceOnlyPresent(present, arr[..|arr| - 1]);
      }
    }

    /** The run fails exactly when some object with an entry has no handler. */
    lemma {:induction false} UpdateTraceOkIff(present: set<BoardObject>, arr: seq<BoardObject>)
      ensures UpdateTrace(present, arr).ok <==> forall i | 0 <= i < |arr| && arr[i] in present :: GetObjectHandler(arr[i]).Some?
      decreases |arr|
    {
      if arr != [] {
        var init := arr[..|arr| - 1];
        UpdateTraceOkIff(present, init);
        assert forall i | 0 <= i < |init| :: init[i] == arr[i];
      }
    }

    constructor (registry: map<string, Handler>, size: nat, viewport: Viewport, coordinates: bool,
                 marginSize: real, fontSize: real, width: Option<int>, height: Option<int>)
      ensures Valid() && Synced() && Orphans(elementMap, contexts) == {}
      ensures this.registry == registry && this.marginSize == marginSize && this.fontSize == fontSize
      ensures this.width == width && this.height == height
      ensures this.size == size && this.viewport == viewport && this.coordinates == coordinates
      ensures objects == [] && elementMap == map[] && calls == []
      ensures forall k | k in Layers :: contexts[k] == []
      ensures viewBox == ViewBoxOf(size, viewport, coordinates, marginSize, fontSize)
      ensures sizing == SizingFor(width, height)
    {
      this.registry := registry;
      this.marginSize := marginSize;
      this.fontSize := fontSize;
      this.width := width;
      this.height := height;
      this.size := size;
      this.viewport := viewport;
      this.coordinates := coordinates;
      viewBox := ViewBoxOf(size, viewport, coordinates, marginSize, fontSize);
      sizing := SizingFor(width, height);
      objects := [];
      elementMap := map[];
      contexts := map k | k in Layers :: [];
      nextElement := 0;
      calls := [];
    }

    /** resize */
    method Resize()
      modifies this`sizing
      ensures sizing == SizingFor(width, height)
    {
      sizing := SizingFor(width, height);
    }

    /** setViewport: stores the viewport and recomputes the viewBox; no object element is touched. */
    method SetViewport(v: Viewport)
      modifies this`viewport, this`viewBox
      ensures viewport == v
      ensures viewBox == ViewBoxOf(size, v, coordinates, marginSize, fontSize)
    {
      viewport := v;
      viewBox := ViewBoxOf(size, viewport, coordinates, marginSize, fontSize);
    }

    /** setCoordinates: label visibility and the viewBox change; the map and the containers do not. */
    method SetCoordinates(b: bool)
      modifies this`coordinates, this`viewBox
      ensures coordinates == b
      ensures viewBox == ViewBoxOf(size, viewport, b, marginSize, fontSize)
      ensures elementMap == old(elementMap) && contexts == old(contexts) && objects == old(objects)
    {
      coordinates := b;
      viewBox := ViewBoxOf(size, viewport, coordinates, marginSize, fontSize);
    }

    /**
     * setSize: the grid mask, the grid and the label containers are created
     * anew and the viewBox recomputed from the stored viewport;
     * objectsElementMap is left as it is. An entry's element under a
     * regenerated layer is then no longer a child of its layer's container, so
     * exactly the entries with such an element join the orphans; a redraw
     * repairs it.
     */
    method SetSize(n: nat)
      modifies this`size, this`contexts, this`viewport, this`viewBox
      ensures size == n && viewport == old(viewport)
      ensures contexts == old(contexts)[GRID_MASK := []][GRID := []][COORDINATES := []]
      ensures viewBox == ViewBoxOf(n, viewport, coordinates, marginSize, fontSize)
      ensures elementMap == old(elementMap) && objects == old(objects)
      ensures OBJECTS in old(contexts) ==> contexts[OBJECTS] == old(contexts)[OBJECTS]
      ensures forall o, k | o in elementMap && k in elementMap[o] && k in Regenerated :: elementMap[o][k] !in contexts[k]
      ensures old(Valid()) ==> Valid()
      ensures Orphans(elementMap, contexts) ==
        old(Orphans(elementMap, contexts)) + set o | o in elementMap && elementMap[o].Keys * Regenerated != {}
    {
      OrphansAfterRegenerate(elementMap, contexts);
      size := n;
      DrawGridAndCoordinates();
      SetViewport(viewport);
    }

    /** drawGrid followed by drawCoordinates: their three containers are replaced by new, empty ones. */
    method DrawGridAndCoordinates()
      modifies this`contexts
      ensures contexts == old(contexts)[GRID_MASK := []][GRID := []][COORDINATES := []]
    {
      contexts := contexts[GRID_MASK := []];
      contexts := contexts[GRID := []];
      contexts := contexts[COORDINATES := []];
    }

    /**
     * The handler's createElement, with a single element filed under OBJECTS:
     * one new element per layer of the handler.
     */
    method CreateElement(h: Handler) returns (entry: map<LayerKey, ElementId>)
      modifies this`nextElement
      ensures entry.Keys == h.LayerKeys()
      ensures forall k | k in entry :: old(nextElement) <= entry[k] < nextElement
      ensures old(nextElement) <= nextElement
    {
      match h.shape {
        case SingleElement =>
          entry := map[OBJECTS := nextElement];
          nextElement := nextElement + 1;
        case LayeredElements(keys) =>
          entry := map[];
          var rest := keys;
          while rest != {}
            invariant rest <= keys
            invariant entry.Keys == keys - rest
            invariant old(nextElement) <= nextElement
            invariant forall k | k in entry :: old(nextElement) <= entry[k] < nextElement
            decreases rest
          {
            var k :| k in rest;
            entry := entry[k := nextElement];
            nextElement := nextElement + 1;
            rest := rest - {k};
          }
      }
    }

    /** The forEach of createObjectElements: each element is appended to the container of its layer. */
    method AttachElements(entry: map<LayerKey, ElementId>)
      requires entry.Keys <= contexts.Keys
      modifies this`contexts
      ensures contexts == Attach(old(contexts), entry)
    {
      var rest := entry.Keys;
      while rest != {}
        invariant rest <= entry.Keys
        invariant contexts.Keys == old(contexts).Keys
        invariant forall k | k in contexts ::
          contexts[k] == if k in entry && k !in rest then old(contexts)[k] + [entry[k]] else old(contexts)[k]
        decreases rest
      {
        var k :| k in rest;
        contexts := contexts[k := contexts[k] + [entry[k]]];
        rest := rest - {k};
      }
    }

    /** The forEach of removeObject: each element is removed from the container of its layer. */
    method DetachElements(entry: map<LayerKey, ElementId>)
      requires entry.Keys <= contexts.Keys
      modifies this`contexts
      ensures contexts == Detach(old(contexts), entry)
    {
      var rest := entry.Keys;
      while rest != {}
        invariant rest <= entry.Keys
        invariant contexts.Keys == old(contexts).Keys
        invariant forall k | k in contexts ::
          contexts[k] == if k in entry && k !in rest then Without(old(contexts)[k], entry[k]) else old(contexts)[k]
        decreases rest
      {
        var k :| k in rest;
        contexts := contexts[k := Without(contexts[k], entry[k])];
        rest := rest - {k};
      }
    }

    /**
     * createObjectElements: create the handler's elements, record them in the
     * map, append each to its layer's container, then call updateElement once.
     * An unresolvable handler throws before anything is recorded.
     */
    method CreateObjectElements(o: BoardObject) returns (ok: bool)
      requires Valid() && o !in elementMap && Placeable(o)
      modifies this`nextElement, this`elementMap, this`contexts, this`calls
      ensures Valid()
      ensures ok == GetObjectHandler(o).Some?
      ensures !ok ==> elementMap == old(elementMap) && contexts == old(contexts) && calls == old(calls) && nextElement == old(nextElement)
      ensures ok ==> o in elementMap && elementMap == old(elementMap)[o := elementMap[o]]
      ensures ok ==> elementMap[o].Keys == GetObjectHandler(o).value.LayerKeys()
      ensures ok ==> forall k | k in elementMap[o] :: old(nextElement) <= elementMap[o][k] < nextElement
      ensures ok ==> contexts == Attach(old(contexts), elementMap[o])
      ensures ok ==> calls == old(calls) + [UpdateElement(o, GetObjectHandler(o).value.id)]
      ensures old(nextElement) <= nextElement
      ensures Orphans(elementMap, contexts) == old(Orphans(elementMap, contexts))
    {
      var handler := GetObjectHandler(o);
      if handler.None? {
        return false;
      }
      var h := handler.value;
      var entry := CreateElement(h);
      elementMap := elementMap[o := entry];
      ghost var c0 := contexts;
      AttachElements(entry);
      ConsistentAfterAttach(old(elementMap), c0, old(nextElement), o, entry, nextElement);
      OrphansAfterAttach(old(elementMap), c0, old(nextElement), o, entry);
      calls := calls + [UpdateElement(o, h.id)];
      ok := true;
    }

    /**
     * addObject for a single object: the base class adds it to the collection;
     * an object that already has elements is only updated, any other gets new
     * elements.
     */
    method AddObject(o: BoardObject) returns (ok: bool)
      requires Valid() && Placeable(o)
      modifies this`objects, this`nextElement, this`elementMap, this`contexts, this`calls
      ensures Valid()
      ensures objects == AddToCollection(old(objects), o)
      ensures o in old(elementMap) ==>
        && elementMap == old(elementMap) && contexts == old(contexts) && nextElement == old(nextElement)
        && ok == GetObjectHandler(o).Some?
        && calls == old(calls) + (if ok then [UpdateElement(o, GetObjectHandler(o).value.id)] else [])
      ensures o !in old(elementMap) ==>
        && ok == GetObjectHandler(o).Some?
        && (!ok ==> elementMap == old(elementMap) && contexts == old(contexts) && calls == old(calls) && nextElement == old(nextElement))
        && (ok ==> o in elementMap && elementMap == old(elementMap)[o := elementMap[o]])
        && (ok ==> elementMap[o].Keys == GetObjectHandler(o).value.LayerKeys())
        && (ok ==> forall k | k in elementMap[o] :: old(nextElement) <= elementMap[o][k] < nextElement)
        && (ok ==> contexts == Attach(old(contexts), elementMap[o]))
        && (ok ==> calls == old(calls) + [UpdateElement(o, GetObjectHandler(o).value.id)])
      ensures old(nextElement) <= nextElement
      ensures old(Synced()) && ok ==> Synced()
      ensures Orphans(elementMap, contexts) == old(Orphans(elementMap, contexts))
    {
      objects := AddToCollection(objects, o);
      if o in elementMap {
        ok := UpdateObject(o);
        return;
      }
      ok := CreateObjectElements(o);
    }

    /**
     * addObject for an array: the base class hands each object of the array,
     * in index order, back to addObject as a single object; a throw ends the
     * loop. Every object gets one updateElement call, from creation or update.
     */
    method AddObjects(arr: seq<BoardObject>) returns (ok: bool)
      requires Valid() && forall i | 0 <= i < |arr| :: Placeable(arr[i])
      modifies this`objects, this`nextElement, this`elementMap, this`contexts, this`calls
      ensures Valid()
      ensures ok == CreationTrace(arr).ok
      ensures calls == old(calls) + CreationTrace(arr).calls
      ensures ok ==> objects == AddAllToCollection(old(objects), arr)
      ensures ok ==> elementMap.Keys == old(elementMap).Keys + Elements(arr)
      ensures ok ==> LaidOut(NewObjects(old(elementMap).Keys, arr), elementMap, contexts, old(contexts))
      ensures !ok ==> exists i | 0 <= i < |arr| ::
        && GetObjectHandler(arr[i]).None?
        && objects == AddAllToCollection(old(objects), arr[..i + 1])
        && elementMap.Keys == old(elementMap).Keys + Elements(arr[..i])
        && LaidOut(NewObjects(old(elementMap).Keys, arr[..i]), elementMap, contexts, old(contexts))
      ensures Extends(old(elementMap), old(nextElement), elementMap, nextElement)
      ensures old(Synced()) && ok ==> Synced()
      ensures Orphans(elementMap, contexts) == old(Orphans(elementMap, contexts))
    {
      ok := true;
      assert arr[..0] == [];
      assert LaidOut([], elementMap, contexts, contexts) by {
        forall k | k in contexts ensures contexts[k] == contexts[k] + LayerElements([], elementMap, k) {
          assert contexts[k] + [] == contexts[k];
        }
      }
      var i := 0;
      while i < |arr|
        invariant 0 <= i <= |arr|
        invariant Valid()
        invariant CreationTrace(arr[..i]).ok && calls == old(calls) + CreationTrace(arr[..i]).calls
        invariant objects == AddAllToCollection(old(objects), arr[..i])
        invariant elementMap.Keys == old(elementMap).Keys + Elements(arr[..i])
        invariant LaidOut(NewObjects(old(elementMap).Keys, arr[..i]), elementMap, contexts, old(contexts))
        invariant Extends(old(elementMap), old(nextElement), elementMap, nextElement)
        invariant Orphans(elementMap, contexts) == old(Orphans(elementMap, contexts))
      {
        ghost var callsPrev, objectsPrev, mPrev, cPrev, nPrev := calls, objects, elementMap, contexts, nextElement;
        var r := AddObject(arr[i]);
        if !r {
          TraceFailure(arr, i, callsPrev, old(calls));
          AddStep(old(objects), arr, i, objectsPrev);
          return false;
        }
        TraceStep(arr, i, callsPrev, old(calls), GetObjectHandler(arr[i]).value);
        AddStep(old(objects), arr, i, objectsPrev);
        EntryStep(old(elementMap).Keys, arr, i, mPrev, elementMap);
        AddedLaidOutStep(old(elementMap).Keys, arr, i, mPrev, cPrev, old(contexts), elementMap, contexts);
        ExtendsStep(old(elementMap), old(nextElement), mPrev, nPrev, arr[i], elementMap, nextElement);
        i := i + 1;
      }
      assert arr[..i] == arr;
      AddAllToCollectionSpec(old(objects), arr);
    }

    /**
     * removeObject for a single object: the base class drops it from the
     * collection; if it has an entry, the entry is deleted and each of its
     * elements detached from its layer's container.
     */
    method RemoveObject(o: BoardObject)
      requires Valid() && o !in Orphans(elementMap, contexts)
      modifies this`objects, this`elementMap, this`contexts
      ensures Valid()
      ensures objects == Without(old(objects), o)
      ensures elementMap == old(elementMap) - {o}
      ensures o in old(elementMap) ==> contexts == Detach(old(contexts), old(elementMap)[o])
      ensures o !in old(elementMap) ==> contexts == old(contexts)
      ensures old(Synced()) ==> Synced()
      ensures Orphans(elementMap, contexts) == old(Orphans(elementMap, contexts))
    {
      RemoveFromCollection(objects, o);
      objects := Without(objects, o);
      if o in elementMap {
        var entry := elementMap[o];
        ConsistentAfterDetach(elementMap, contexts, nextElement, o);
        OrphansAfterDetach(elementMap, contexts, nextElement, o);
        elementMap := elementMap - {o};
        DetachElements(entry);
      }
    }

    /**
     * removeObject for an array: the base class hands each object of the
     * array, in index order, back to removeObject as a single object. Every
     * entry of a removed object is deleted and none of its elements stays
     * attached.
     */
    method RemoveObjects(arr: seq<BoardObject>)
      requires Valid() && Elements(arr) !! Orphans(elementMap, contexts)
      modifies this`objects, this`elementMap, this`contexts
      ensures Valid()
      ensures objects == RemoveAllFromCollection(old(objects), arr)
      ensures Elements(objects) == Elements(old(objects)) - Elements(arr)
      ensures elementMap == old(elementMap) - Elements(arr)
      ensures forall k | k in old(contexts) ::
        k in contexts && contexts[k] == Filtered(old(contexts)[k], RemovedElements(old(elementMap), Elements(arr), k))
      ensures forall o, k | o in old(elementMap) && o in Elements(arr) && k in old(elementMap)[o] ::
        k in contexts && old(elementMap)[o][k] !in contexts[k]
      ensures old(Synced()) ==> Synced()
      ensures Orphans(elementMap, contexts) == old(Orphans(elementMap, contexts))
    {
      RemoveAllFromCollectionSpec(objects, arr);
      assert Elements(arr[..0]) == {};
      forall k | k in contexts ensures contexts[k] == Filtered(contexts[k], RemovedElements(elementMap, Elements(arr[..0]), k)) {
        assert RemovedElements(elementMap, Elements(arr[..0]), k) == {};
        FilteredNothing(contexts[k]);
      }
      var i := 0;
      while i < |arr|
        invariant 0 <= i <= |arr|
        invariant Valid()
        invariant objects == RemoveAllFromCollection(old(objects), arr[..i])
        invariant elementMap == old(elementMap) - Elements(arr[..i])
        invariant forall k | k in old(contexts) ::
          k in contexts && contexts[k] == Filtered(old(contexts)[k], RemovedElements(old(elementMap), Elements(arr[..i]), k))
        invariant Orphans(elementMap, contexts) == old(Orphans(elementMap, contexts))
      {
        ghost var objectsPrev, mPrev, cPrev := objects, elementMap, contexts;
        RemoveObject(arr[i]);
        RemoveStep(old(objects), old(elementMap), arr, i, objectsPrev, mPrev);
        ElementsStep(arr, i);
        RemovedStep(old(elementMap), Elements(arr[..i]), mPrev, old(contexts), cPrev, arr[i], contexts);
        i := i + 1;
      }
      assert arr[..i] == arr;
      forall o, k | o in old(elementMap) && o in Elements(arr) && k in old(elementMap)[o]
        ensures k in contexts && old(elementMap)[o][k] !in contexts[k]
      {
        assert old(elementMap)[o][k] in RemovedElements(old(elementMap), Elements(arr), k);
      }
    }

    /**
     * updateObject for a single object: nothing happens to an object without an
     * entry; otherwise its handler is looked up again (an unresolvable one
     * throws) and updateElement is called once. No entry is added or removed.
     */
    method UpdateObject(o: BoardObject) returns (ok: bool)
      modifies this`calls
      ensures ok == (o !in elementMap || GetObjectHandler(o).Some?)
      ensures calls == old(calls) + UpdateTrace(elementMap.Keys, [o]).calls
      ensures o in elementMap && ok ==> calls == old(calls) + [UpdateElement(o, GetObjectHandler(o).value.id)]
      ensures o !in elementMap ==> calls == old(calls)
    {
      assert [o][..0] == [];
      if o !in elementMap {
        return true;
      }
      var handler := GetObjectHandler(o);
      if handler.None? {
        return false;
      }
      calls := calls + [UpdateElement(o, handler.value.id)];
      ok := true;
    }

    /** updateObject for an array: each object in index order; a throw ends the loop. */
    method UpdateObjects(arr: seq<BoardObject>) returns (ok: bool)
      modifies this`calls
      ensures ok == UpdateTrace(elementMap.Keys, arr).ok
      ensures calls == old(calls) + UpdateTrace(elementMap.Keys, arr).calls
    {
      var i := 0;
      ok := true;
      while i < |arr|
        invariant 0 <= i <= |arr|
        invariant ok
        invariant UpdateTrace(elementMap.Keys, arr[..i]).ok
        invariant calls == old(calls) + UpdateTrace(elementMap.Keys, arr[..i]).calls
      {
        assert arr[..i + 1][..i] == arr[..i];
        var r := UpdateObject(arr[i]);
        if !r {
          assert !UpdateTrace(elementMap.Keys, arr[..i + 1]).ok;
          UpdateTraceStopsAtFailure(elementMap.Keys, arr, i + 1);
          return false;
        }
        i := i + 1;
      }
      assert arr[..i] == arr;
    }

    /** Once the run has failed on a prefix, the longer runs fail with the same calls. */
    lemma {:induction false} UpdateTraceStopsAtFailure(present: set<BoardObject>, arr: seq<BoardObject>, n: nat)
      requires n <= |arr|
      requires !UpdateTrace(present, arr[..n]).ok
      ensures UpdateTrace(present, arr) == UpdateTrace(present, arr[..n])
      decreases |arr| - n
    {
      if n < |arr| {
        assert arr[..n + 1][..n] == arr[..n];
        UpdateTraceStopsAtFailure(present, arr, n + 1);
      } else {
        assert arr[..n] == arr;
      }
    }

    /**
     * The updateElement calls made while createObjectElements runs for each
     * object in order; an unresolvable handler throws, which ends the run.
     * addObject on an array makes the same calls, since updateObject on an
     * object that already has an entry also calls updateElement once.
     */
    function CreationTrace(arr: seq<BoardObject>): Trace
      decreases |arr|
    {
      if arr == [] then Trace([], true)
      else
        var t := CreationTrace(arr[..|arr| - 1]);
        var o := arr[|arr| - 1];
        if !t.ok then t
        else match GetObjectHandler(o)
          case None => Trace(t.calls, false)
          case Some(h) => Trace(t.calls + [UpdateElement(o, h.id)], true)
    }

    /** Creation succeeds exactly when every object's handler resolves, and then calls updateElement once per object, in order. */
    lemma {:induction false} CreationTraceSpec(arr: seq<BoardObject>)
      ensures CreationTrace(arr).ok <==> forall i | 0 <= i < |arr| :: GetObjectHandler(arr[i]).Some?
      ensures CreationTrace(arr).ok ==> |CreationTrace(arr).calls| == |arr|
      ensures CreationTrace(arr).ok ==>
        forall i | 0 <= i < |arr| :: CreationTrace(arr).calls[i] == UpdateElement(arr[i], GetObjectHandler(arr[i]).value.id)
      decreases |arr|
    {
      if arr != [] {
        var init := arr[..|arr| - 1];
        CreationTraceSpec(init);
        assert forall i | 0 <= i < |init| :: init[i] == arr[i];
      }
    }

    /**
     * drawObjects: the OBJECTS container is replaced by an empty one, the map
     * reset, and elements created for each object of the collection in order.
     * The other containers are not cleared.
     */
    method DrawObjects() returns (ok: bool)
      requires Distinct(objects) && contexts.Keys == Layers && Allocated(contexts, nextElement)
      requires forall i | 0 <= i < |objects| :: Placeable(objects[i])
      modifies this`nextElement, this`elementMap, this`contexts, this`calls
      ensures Valid()
      ensures ok == CreationTrace(objects).ok
      ensures calls == old(calls) + CreationTrace(objects).calls
      ensures ok ==> Synced()
      ensures elementMap.Keys <= Elements(objects)
      ensures forall o | o in elementMap :: GetObjectHandler(o).Some? && elementMap[o].Keys == GetObjectHandler(o).value.LayerKeys()
      ensures GrewFrom(old(contexts)[OBJECTS := []], contexts, old(nextElement))
      ensures ok ==> forall k | k in contexts :: contexts[k] == old(contexts)[OBJECTS := []][k] + LayerElements(objects, elementMap, k)
      ensures Orphans(elementMap, contexts) == {}
    {
      contexts := contexts[OBJECTS := []];
      ghost var c1 := contexts;
      elementMap := map[];
      DrawnStart(objects, contexts, nextElement, calls);
      ok := true;
      var i := 0;
      while i < |objects|
        invariant Drawn(objects, i, elementMap, contexts, nextElement, calls, c1, old(nextElement), old(calls))
      {
        ghost var mPrev, cPrev, nPrev, callsPrev := elementMap, contexts, nextElement, calls;
        assert Valid() && elementMap.Keys == Elements(objects[..i]);
        DrawnFresh(objects, i, elementMap, contexts, nextElement, calls, c1, old(nextElement), old(calls));
        var r := CreateObjectElements(objects[i]);
        if !r {
          DrawnFailure(objects, i, elementMap, calls, old(calls));
          LaidOutAttached(objects[..i], elementMap, contexts, c1);
          return false;
        }
        DrawnStep(objects, i, mPrev, cPrev, nPrev, callsPrev, c1, old(nextElement), old(calls),
          elementMap[objects[i]], nextElement, GetObjectHandler(objects[i]).value);
        i := i + 1;
      }
      LaidOutAttached(objects[..i], elementMap, contexts, c1);
      DrawnEnd(objects, elementMap, contexts, nextElement, calls, c1, old(nextElement), old(calls));
    }

    /**
     * `m` keeps every entry of `m0` as it was, and every entry it adds was
     * made by its object's handler: the handler resolves, the entry has
     * exactly its layers, and its elements were created from `n0` on, below `n`.
     */
    ghost predicate Extends(m0: ElementMap, n0: nat, m: ElementMap, n: nat) {
      && n0 <= n
      && m0.Keys <= m.Keys
      && (forall p | p in m0 :: m[p] == m0[p])
      && (forall p | p in m && p !in m0 ::
            && GetObjectHandler(p).Some?
            && m[p].Keys == GetObjectHandler(p).value.LayerKeys()
            && forall k | k in m[p] :: n0 <= m[p][k] < n)
    }

    /** An object that keeps its entry, or gets one from its handler with elements created from `n` on, keeps the map an extension. */
    lemma ExtendsStep(m0: ElementMap, n0: nat, m: ElementMap, n: nat, o: BoardObject, m': ElementMap, n': nat)
      requires Extends(m0, n0, m, n) && n <= n'
      requires o in m ==> m' == m
      requires o !in m ==>
        && o in m' && m' == m[o := m'[o]]
        && GetObjectHandler(o).Some? && m'[o].Keys == GetObjectHandler(o).value.LayerKeys()
        && forall k | k in m'[o] :: n <= m'[o][k] < n'
      ensures Extends(m0, n0, m', n')
    {
      forall p | p in m' && p !in m0
        ensures GetObjectHandler(p).Some? && m'[p].Keys == GetObjectHandler(p).value.LayerKeys()
        ensures forall k | k in m'[p] :: n0 <= m'[p][k] < n'
      {
        if p != o || o in m {
          assert p in m && m'[p] == m[p];
        }
      }
    }

    /** Every entry was made by its object's handler: the handler resolves and the entry has exactly its layers. */
    ghost predicate Resolved(m: ElementMap) {
      forall o | o in m :: GetObjectHandler(o).Some? && m[o].Keys == GetObjectHandler(o).value.LayerKeys()
    }

    /**
     * The state of drawObjects after the first `i` objects: the containers and
     * the map agree, the map has entries for exactly those objects, the
     * containers grew from `c1` by elements made from `n0` on, and their
     * updateElement calls were made.
     */
    ghost predicate Drawn(
      objs: seq<BoardObject>, i: nat, m: ElementMap, c: Containers, n: nat, cl: seq<HandlerCall>,
      c1: Containers, n0: nat, cl0: seq<HandlerCall>)
    {
      && i <= |objs| && Distinct(objs) && Consistent(m, c, n) && n0 <= n
      && m.Keys == Elements(objs[..i])
      && GrewFrom(c1, c, n0)
      && Resolved(m)
      && LaidOut(objs[..i], m, c, c1)
      && CreationTrace(objs[..i]).ok
      && cl == cl0 + CreationTrace(objs[..i]).calls
    }

    /** Before the first object nothing is drawn. */
    lemma DrawnStart(objs: seq<BoardObject>, c: Containers, n: nat, cl: seq<HandlerCall>)
      requires Distinct(objs) && c.Keys == Layers && Allocated(c, n)
      ensures Drawn(objs, 0, map[], c, n, cl, c, n, cl)
    {
      assert objs[..0] == [];
      assert cl + [] == cl;
      forall k | k in c ensures c[k] == c[k] + LayerElements(objs[..0], map[], k) {
        assert c[k] + [] == c[k];
      }
    }

    /** The next object has no entry yet. */
    lemma DrawnFresh(
      objs: seq<BoardObject>, i: nat, m: ElementMap, c: Containers, n: nat, cl: seq<HandlerCall>,
      c1: Containers, n0: nat, cl0: seq<HandlerCall>)
      requires Drawn(objs, i, m, c, n, cl, c1, n0, cl0) && i < |objs|
      ensures objs[i] !in m
    {
      assert objs[i] !in objs[..i];
    }

    /** An object whose handler resolves extends the drawn prefix by one. */
    lemma DrawnStep(
      objs: seq<BoardObject>, i: nat, m: ElementMap, c: Containers, n: nat, cl: seq<HandlerCall>,
      c1: Containers, n0: nat, cl0: seq<HandlerCall>,
      entry: map<LayerKey, ElementId>, n': nat, h: Handler)
      requires Drawn(objs, i, m, c, n, cl, c1, n0, cl0) && i < |objs|
      requires GetObjectHandler(objs[i]) == Some(h)
      requires Consistent(m[objs[i] := entry], Attach(c, entry), n') && n <= n'
      requires forall k | k in entry :: n <= entry[k]
      requires entry.Keys == h.LayerKeys()
      ensures Drawn(objs, i + 1, m[objs[i] := entry], Attach(c, entry), n', cl + [UpdateElement(objs[i], h.id)], c1, n0, cl0)
    {
      TraceStep(objs, i, cl, cl0, h);
      GrewFromAttach(c1, c, n0, entry);
      ElementsStep(objs, i);
      assert objs[i] !in objs[..i];
      LaidOutStep(objs, i, m, c, c1, entry);
      ResolvedStep(m, objs[i], entry, h);
    }

    /** The next object's handler resolves: its call extends the run on the prefix. */
    lemma TraceStep(objs: seq<BoardObject>, i: nat, cl: seq<HandlerCall>, cl0: seq<HandlerCall>, h: Handler)
      requires i < |objs| && CreationTrace(objs[..i]).ok && cl == cl0 + CreationTrace(objs[..i]).calls
      requires GetObjectHandler(objs[i]) == Some(h)
      ensures CreationTrace(objs[..i + 1]).ok
      ensures cl + [UpdateElement(objs[i], h.id)] == cl0 + CreationTrace(objs[..i + 1]).calls
    {
      CreationTraceStep(objs, i);
      AppendAssoc(cl0, CreationTrace(objs[..i]).calls, [UpdateElement(objs[i], h.id)]);
    }

    /** Recording an entry made by the object's own handler keeps every entry made by its handler. */
    lemma ResolvedStep(m: ElementMap, o: BoardObject, entry: map<LayerKey, ElementId>, h: Handler)
      requires Resolved(m) && GetObjectHandler(o) == Some(h) && entry.Keys == h.LayerKeys()
      ensures Resolved(m[o := entry])
    {
    }

    /** An object whose handler does not resolve ends the whole run, with the calls made before it. */
    lemma TraceFailure(objs: seq<BoardObject>, i: nat, cl: seq<HandlerCall>, cl0: seq<HandlerCall>)
      requires i < |objs| && CreationTrace(objs[..i]).ok && cl == cl0 + CreationTrace(objs[..i]).calls
      requires GetObjectHandler(objs[i]).None?
      ensures !CreationTrace(objs).ok && cl == cl0 + CreationTrace(objs).calls
    {
      CreationTraceStep(objs, i);
      CreationTraceStopsAtFailure(objs, i + 1);
    }

    /** An object whose handler does not resolve ends the whole run. */
    lemma DrawnFailure(objs: seq<BoardObject>, i: nat, m: ElementMap, cl: seq<HandlerCall>, cl0: seq<HandlerCall>)
      requires i < |objs| && CreationTrace(objs[..i]).ok && cl == cl0 + CreationTrace(objs[..i]).calls
      requires m.Keys == Elements(objs[..i])
      requires GetObjectHandler(objs[i]).None?
      ensures !CreationTrace(objs).ok && cl == cl0 + CreationTrace(objs).calls
      ensures m.Keys <= Elements(objs)
    {
      CreationTraceStep(objs, i);
      CreationTraceStopsAtFailure(objs, i + 1);
    }

    /** After the last object every object has its entry and its call. */
    lemma DrawnEnd(
      objs: seq<BoardObject>, m: ElementMap, c: Containers, n: nat, cl: seq<HandlerCall>,
      c1: Containers, n0: nat, cl0: seq<HandlerCall>)
      requires Drawn(objs, |objs|, m, c, n, cl, c1, n0, cl0)
      ensures CreationTrace(objs).ok && cl == cl0 + CreationTrace(objs).calls
      ensures m.Keys == Elements(objs)
      ensures forall k | k in c :: c[k] == c1[k] + LayerElements(objs, m, k)
    {
      assert objs[..|objs|] == objs;
    }

    /** One more object extends the run on a prefix by that object's updateElement call, or ends it. */
    lemma CreationTraceStep(arr: seq<BoardObject>, i: nat)
      requires i < |arr|
      ensures CreationTrace(arr[..i + 1]) ==
        if !CreationTrace(arr[..i]).ok then CreationTrace(arr[..i])
        else match GetObjectHandler(arr[i])
          case None => Trace(CreationTrace(arr[..i]).calls, false)
          case Some(h) => Trace(CreationTrace(arr[..i]).calls + [UpdateElement(arr[i], h.id)], true)
    {
      assert arr[..i + 1][..i] == arr[..i];
    }

    /** Once creation has failed on a prefix, the longer runs fail with the same calls. */
    lemma {:induction false} CreationTraceStopsAtFailure(arr: seq<BoardObject>, n: nat)
      requires n <= |arr|
      requires !CreationTrace(arr[..n]).ok
      ensures CreationTrace(arr) == CreationTrace(arr[..n])
      decreases |arr| - n
    {
      if n < |arr| {
        assert arr[..n + 1][..n] == arr[..n];
        CreationTraceStopsAtFailure(arr, n + 1);
      } else {
        assert arr[..n] == arr;
      }
    }

    /**
     * redraw: grid, labels and the objects layer are rebuilt from scratch.
     * Afterwards every container holds only elements made by this redraw.
     */
    method Redraw() returns (ok: bool)
      requires Distinct(objects) && contexts.Keys == Layers && Allocated(contexts, nextElement)
      requires forall i | 0 <= i < |objects| :: Placeable(objects[i])
      modifies this`nextElement, this`elementMap, this`contexts, this`calls
      ensures Valid()
      ensures ok == CreationTrace(objects).ok
      ensures calls == old(calls) + CreationTrace(objects).calls
      ensures ok ==> Synced()
      ensures forall o | o in elementMap :: GetObjectHandler(o).Some? && elementMap[o].Keys == GetObjectHandler(o).value.LayerKeys()
      ensures forall k, e | k in contexts && e in contexts[k] :: old(nextElement) <= e
      ensures ok ==> forall k | k in Layers :: contexts[k] == LayerElements(objects, elementMap, k)
      ensures Orphans(elementMap, contexts) == {}
    {
      DrawGridAndCoordinates();
      ok := DrawObjects();
      assert forall k | k in Layers :: old(contexts)[GRID_MASK := []][GRID := []][COORDINATES := []][OBJECTS := []][k] == [];
    }

    /** With the invariant and the map in step with the collection, there is one element group per object. */
    lemma OneEntryPerObject()
      requires Valid() && Synced()
      ensures |elementMap| == |objects|
    {
      DistinctCardinality(objects);
      assert elementMap.Keys == Elements(objects);
    }

    /** Adding an object that is not on the board and removing it again restores the collection, the map and the containers. */
    method AddThenRemove(o: BoardObject)
      requires Valid() && Placeable(o) && o !in objects && o !in elementMap
      modifies this`objects, this`nextElement, this`elementMap, this`contexts, this`calls
      ensures Valid()
      ensures objects == old(objects)
      ensures elementMap == old(elementMap)
      ensures contexts == old(contexts)
    {
      ghost var before := contexts;
      var ok := AddObject(o);
      if ok {
        ghost var entry := elementMap[o];
        AttachDetachRoundTrip(before, entry);
      }
      assert elementMap - {o} == old(elementMap);
      RemoveObject(o);
      WithoutAppended(old(objects), o);
    }
  }
}
