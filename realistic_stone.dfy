/**
 * The image-backed stone strategy of the canvas board: each stone is drawn
 * with one of several graphics, picked deterministically from a per-handler
 * seed and the stone's position; a graphic named by a file is turned into a
 * loading image the first time it is needed; until an image is usable the
 * fallback strategy draws the stone; and image loads schedule one debounced
 * board redraw.
 *
 * Image loading and the timer are events: `ImageLoaded`, `ImageFailed` and
 * `TimerFired`. Boards are identified by number, timers by the id the timer
 * service hands out.
 */
module RealisticStone {
  import opened Common

  /** The largest seed: the seed is a random fraction of this, rounded up. */
  const MAX_SEED: nat := 9999999

  /**
   * The load handler an image was given when a draw requested it: it belongs
   * to the handler instance whose draw that was, and redraws that draw's board.
   */
  datatype Load = Load(handler: StoneHandler, board: nat)

  /**
   * One entry of the graphic list: a file name not yet requested, or an image.
   * An image supplied ready made has no load handler.
   */
  datatype Slot =
    | FileName(name: string)
    | Image(src: string, complete: bool, naturalWidth: Option<int>, loader: Option<Load>)

  /** isOkay: an image that finished loading and does not report a zero natural width. */
  function IsOkay(s: Slot): (r: bool)
    ensures s.FileName? ==> !r
    ensures s.Image? && !s.complete ==> !r
    ensures s.Image? && s.naturalWidth == Some(0) ==> !r
    ensures s.Image? && s.complete && s.naturalWidth != Some(0) ==> r
  {
    match s
    case FileName(_) => false
    case Image(_, complete, width, _) =>
      if !complete then false
      else if width.Some? && width.value == 0 then false
      else true
  }

  /**
   * The graphic a stone at (`x`, `y`) on a board of `size` lines uses: the
   * seed reduced modulo `count + x * size + y`, then modulo `count`.
   */
  function VariantIndex(seed: nat, count: nat, x: nat, y: nat, size: nat): (idx: nat)
    requires count > 0
    ensures idx < count
    ensures seed < count ==> idx == seed
  {
    var modulus := count + x * size + y;
    TwoRemainders(seed, modulus, count);
    seed % modulus % count
  }

  /** Reducing by a modulus at least `count`, then by `count`, lands below `count` and fixes what is already below. */
  lemma TwoRemainders(a: nat, modulus: int, count: nat)
    requires 0 < count <= modulus
    ensures 0 <= a % modulus % count < count
    ensures a < count ==> a % modulus % count == a
  {
    var r := a % modulus;
    assert 0 <= r < modulus;
    if a < count {
      assert a < modulus;
      assert r == a;
    }
  }

  /** Whatever the position, the index is one of the graphics, and with a single graphic it is always that one. */
  lemma SingleGraphic(seed: nat, x: nat, y: nat, size: nat)
    ensures VariantIndex(seed, 1, x, y, size) == 0
  {
  }

  // ---------------------------------------------------------------------------
  // Debounced redraw
  // ---------------------------------------------------------------------------

  /**
   * The redraw timer: the id of the requested redraw, if any; the timers that
   * are scheduled and not cancelled, each with the board it will redraw; the
   * next id the timer service hands out; and the boards redrawn so far.
   */
  datatype Debounce = Debounce(request: Option<nat>, pending: map<nat, nat>, nextTimer: nat, redraws: seq<nat>)

  /** At most one redraw is scheduled, and it is the requested one. */
  predicate Coherent(d: Debounce) {
    && d.pending.Keys == AsSet(d.request)
    && (d.request.Some? ==> d.request.value < d.nextTimer)
  }

  /** No redraw requested and none pending. */
  function Idle(): (d: Debounce)
    ensures Coherent(d) && d.request == None && d.pending == map[] && d.redraws == []
  {
    Debounce(None, map[], 0, [])
  }

  /**
   * The load handler: a requested redraw is cancelled, then a new one of
   * `board` is scheduled and becomes the request.
   */
  function OnLoad(d: Debounce, board: nat): (r: Debounce)
    ensures r.request.Some?
    ensures Coherent(d) ==> Coherent(r) && r.request.value !in d.pending && r.pending == map[r.request.value := board]
    ensures r.redraws == d.redraws
  {
    var kept := if d.request.Some? then d.pending - {d.request.value} else d.pending;
    Debounce(Some(d.nextTimer), kept[d.nextTimer := board], d.nextTimer + 1, d.redraws)
  }

  /** The scheduled callback: its board is redrawn once and the request is cleared. */
  function Fire(d: Debounce, id: nat): (r: Debounce)
    requires id in d.pending
    ensures r.redraws == d.redraws + [d.pending[id]]
    ensures r.request == None && id !in r.pending
    ensures Coherent(d) ==> Coherent(r) && r.pending == map[]
  {
    Debounce(None, d.pending - {id}, d.nextTimer, d.redraws + [d.pending[id]])
  }

  /** A burst of loads, each from a draw on the given board, in order, with no timer firing in between. */
  function Loads(d: Debounce, boards: seq<nat>): Debounce
    decreases |boards|
  {
    if boards == [] then d
    else OnLoad(Loads(d, boards[..|boards| - 1]), boards[|boards| - 1])
  }

  /** During a burst of loads no redraw happens and at most one stays scheduled. */
  lemma {:induction false} LoadsCoherent(d: Debounce, boards: seq<nat>)
    requires Coherent(d)
    ensures Coherent(Loads(d, boards))
    ensures Loads(d, boards).redraws == d.redraws
    decreases |boards|
  {
    if boards != [] {
      LoadsCoherent(d, boards[..|boards| - 1]);
    }
  }

  /**
   * A burst of loads yields exactly one redraw when the timer fires, of the
   * board of the last load; the requests of earlier loads are cancelled.
   */
  lemma BurstYieldsOneRedraw(d: Debounce, boards: seq<nat>)
    requires Coherent(d) && boards != []
    ensures Loads(d, boards).request.Some?
    ensures Loads(d, boards).pending == map[Loads(d, boards).request.value := boards[|boards| - 1]]
    ensures Fire(Loads(d, boards), Loads(d, boards).request.value).redraws == d.redraws + [boards[|boards| - 1]]
    ensures Coherent(Fire(Loads(d, boards), Loads(d, boards).request.value))
    ensures Fire(Loads(d, boards), Loads(d, boards).request.value).pending == map[]
  {
    LoadsCoherent(d, boards[..|boards| - 1]);
  }

  // ---------------------------------------------------------------------------
  // The handler
  // ---------------------------------------------------------------------------

  /** What one stone draw did: draw the graphic at an index, or hand over to the fallback strategy. */
  datatype Paint = DrewImage(index: nat) | UsedFallback

  /** One handler instance: its seed, the graphic list it rewrites in place, and its redraw timer. */
  class StoneHandler {
    const seed: nat
    const graphic: array<Slot>
    var timer: Debounce

    ghost predicate Valid()
      reads this
    {
      seed <= MAX_SEED && graphic.Length > 0 && Coherent(timer)
    }

    /**
     * A handler over the caller's `graphics`, with a seed drawn once for this
     * instance. The list is kept, not copied: handlers made from one list
     * share the images that any of them loads into it.
     */
    constructor (graphics: array<Slot>, seed: nat)
      requires seed <= MAX_SEED && graphics.Length > 0
      ensures Valid()
      ensures this.seed == seed && graphic == graphics
      ensures timer == Idle()
    {
      this.seed := seed;
      graphic := graphics;
      timer := Idle();
    }

    /**
     * stone.draw: the slot of the stone's variant is looked up; a file name is
     * replaced, in that slot only, by an image of the theme's folder plus the
     * name that has not loaded yet; then the image is drawn if it is usable and
     * the fallback strategy is used otherwise.
     */
    method Draw(x: nat, y: nat, size: nat, folder: string, board: nat) returns (out: Paint)
      requires Valid()
      modifies graphic
      ensures Valid()
      ensures var idx := VariantIndex(seed, graphic.Length, x, y, size);
        && (old(graphic[idx]).FileName? ==>
             graphic[idx] == Image(folder + old(graphic[idx]).name, false, Some(0), Some(Load(this, board))))
        && (!old(graphic[idx]).FileName? ==> graphic[idx] == old(graphic[idx]))
        && (forall j | 0 <= j < graphic.Length && j != idx :: graphic[j] == old(graphic[j]))
        && !graphic[idx].FileName?
        && (out == if IsOkay(graphic[idx]) then DrewImage(idx) else UsedFallback)
    {
      var idx := VariantIndex(seed, graphic.Length, x, y, size);
      if graphic[idx].FileName? {
        graphic[idx] := Image(folder + graphic[idx].name, false, Some(0), Some(Load(this, board)));
      }
      if IsOkay(graphic[idx]) {
        out := DrewImage(idx);
      } else {
        out := UsedFallback;
      }
    }

    /**
     * A loading image whose load handler this instance's draw installed
     * finishes, once: it is complete with its natural width, and the load
     * handler requests, on this instance's timer, a redraw of the board whose
     * draw started the load.
     */
    method ImageLoaded(idx: nat, width: nat)
      requires Valid()
      requires idx < graphic.Length && graphic[idx].Image? && !graphic[idx].complete
      requires graphic[idx].loader.Some? && graphic[idx].loader.value.handler == this
      modifies graphic, this`timer
      ensures Valid()
      ensures graphic[idx] == old(graphic[idx]).(complete := true, naturalWidth := Some(width))
      ensures forall j | 0 <= j < graphic.Length && j != idx :: graphic[j] == old(graphic[j])
      ensures timer == OnLoad(old(timer), old(graphic[idx]).loader.value.board)
      ensures timer.pending == map[timer.request.value := old(graphic[idx]).loader.value.board]
      ensures IsOkay(graphic[idx]) <==> width != 0
    {
      var board := graphic[idx].loader.value.board;
      graphic[idx] := graphic[idx].(complete := true, naturalWidth := Some(width));
      timer := OnLoad(timer, board);
    }

    /** A loading image fails: it is complete with no natural width, and nothing is scheduled. */
    method ImageFailed(idx: nat)
      requires Valid()
      requires idx < graphic.Length && graphic[idx].Image?
      modifies graphic
      ensures Valid()
      ensures graphic[idx] == old(graphic[idx]).(complete := true, naturalWidth := Some(0))
      ensures forall j | 0 <= j < graphic.Length && j != idx :: graphic[j] == old(graphic[j])
      ensures !IsOkay(graphic[idx])
    {
      graphic[idx] := graphic[idx].(complete := true, naturalWidth := Some(0));
    }

    /** The scheduled redraw runs: its board is redrawn once and nothing stays scheduled. */
    method TimerFired(id: nat)
      requires Valid() && id in timer.pending
      modifies this`timer
      ensures Valid()
      ensures timer == Fire(old(timer), id)
      ensures timer.redraws == old(timer.redraws) + [old(timer.pending[id])]
      ensures timer.request == None && timer.pending == map[]
    {
      timer := Fire(timer, id);
    }
  }
}
