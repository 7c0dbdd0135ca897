/**
 * The simple player's variation-display rules, its keyboard and wheel
 * navigation, and the edit-mode state machine that shows a translucent hover
 * stone on the board and turns clicks into moves.
 *
 * The game record, the game position and the board are outside this module:
 * the variation-style property, the children of the current node, the result
 * of the game's validity test and whose turn it is are parameters; the calls
 * the player makes on the board and on the game are recorded in logs.
 */
module SimplePlayer {
  import opened Common

  datatype Point = Point(x: int, y: int)

  datatype Color = Black | White

  /** The move properties of one game-record node: a black move, a white move, either or neither. */
  datatype NodeMoves = NodeMoves(b: Option<Point>, w: Option<Point>)

  /** `getProperty('B') || getProperty('W')`: the black move when there is one, else the white move (possibly absent). */
  function MoveOf(n: NodeMoves): (m: Option<Point>)
    ensures n.b.Some? ==> m == n.b
    ensures n.b.None? ==> m == n.w
    ensures m.None? <==> n.b.None? && n.w.None?
  {
    if n.b.Some? then n.b else n.w
  }

  /** The moves of a list of nodes, one per node, in order. */
  function MovesOf(nodes: seq<NodeMoves>): (r: seq<Option<Point>>)
    ensures |r| == |nodes|
    ensures forall i | 0 <= i < |nodes| :: r[i] == MoveOf(nodes[i])
  {
    seq(|nodes|, i requires 0 <= i < |nodes| => MoveOf(nodes[i]))
  }

  /** The configuration values the rules below fall back on. */
  datatype PlayerConfig = PlayerConfig(
    showVariations: bool,
    showCurrentVariations: bool,
    enableMouseWheel: bool,
    enableKeys: bool)

  // ---------------------------------------------------------------------------
  // Variation style
  // ---------------------------------------------------------------------------

  /**
   * `(st & 1) != 0` for an integer `st`. A bitwise operator first converts to a
   * 32-bit two's-complement integer, which keeps the low bits, and for a
   * positive modulus Dafny's `%` is the floor remainder, so negative values
   * give the same bits too.
   */
  predicate LowBit(st: int) {
    st % 2 == 1
  }

  /** `(st & 2) != 0` for an integer `st`, on the same grounds as LowBit. */
  predicate SecondBit(st: int) {
    (st / 2) % 2 == 1
  }

  /**
   * shouldShowVariations: a variation style in the record decides (markup is
   * shown unless bit 2 is set); without one the configuration decides.
   */
  function ShouldShowVariations(st: Option<int>, config: PlayerConfig): (r: bool)
    ensures st.Some? ==> (r <==> st.value % 4 < 2)
    ensures st.None? ==> r == config.showVariations
  {
    match st
    case Some(s) =>
      SecondBitByRemainder(s);
      !SecondBit(s)
    case None => config.showVariations
  }

  /** Bit 2 of an integer is set exactly when its remainder modulo 4 is 2 or 3. */
  lemma SecondBitByRemainder(s: int)
    ensures SecondBit(s) <==> s % 4 >= 2
  {
    var q, m := s / 4, s % 4;
    assert s == 4 * q + m && 0 <= m < 4;
    assert s / 2 == 2 * q + m / 2;
    assert (s / 2) % 2 == (m / 2) % 2;
  }

  /**
   * shouldShowCurrentVariations: never in edit mode; otherwise a variation
   * style in the record decides (bit 1), and without one the configuration.
   */
  function ShouldShowCurrentVariations(st: Option<int>, config: PlayerConfig, editMode: bool): (r: bool)
    ensures editMode ==> !r
    ensures !editMode && st.Some? ==> (r <==> st.value % 2 != 0)
    ensures !editMode && st.None? ==> r == config.showCurrentVariations
  {
    if editMode then false
    else match st
      case Some(s) => LowBit(s)
      case None => config.showCurrentVariations
  }

  /**
   * The four variation styles of a game record, as the rules read them: 0 marks
   * the children of the current node, 1 its siblings, 2 and 3 show no markup.
   * Only the style's remainder modulo 4 matters.
   */
  lemma VariationStyleTable(st: int, config: PlayerConfig)
    ensures ShouldShowVariations(Some(st), config) == ShouldShowVariations(Some(st % 4), config)
    ensures ShouldShowCurrentVariations(Some(st), config, false) == ShouldShowCurrentVariations(Some(st % 4), config, false)
    ensures ShouldShowVariations(Some(0), config) && !ShouldShowCurrentVariations(Some(0), config, false)
    ensures ShouldShowVariations(Some(1), config) && ShouldShowCurrentVariations(Some(1), config, false)
    ensures !ShouldShowVariations(Some(2), config) && !ShouldShowVariations(Some(3), config)
  {
    RemainderModFour(st);
  }

  /** Reducing modulo 4 keeps the remainder modulo 2, and is idempotent. */
  lemma RemainderModFour(n: int)
    ensures (n % 4) % 2 == n % 2
    ensures (n % 4) % 4 == n % 4
  {
    var q, m := n / 4, n % 4;
    var h := 2 * q;
    assert n == 2 * h + m;
    if m < 2 {
      assert n % 2 == m;
    } else {
      assert n == 2 * (h + 1) + (m - 2);
      assert n % 2 == m - 2;
    }
  }

  /**
   * getVariations: no markup unless variations are shown; in current-variation
   * mode the moves of the parent's children (none at the root), otherwise the
   * moves of the current node's children.
   */
  function GetVariations(
    st: Option<int>, config: PlayerConfig, editMode: bool,
    parentChildren: Option<seq<NodeMoves>>, children: seq<NodeMoves>): (r: seq<Option<Point>>)
    ensures !ShouldShowVariations(st, config) ==> r == []
    ensures ShouldShowVariations(st, config) && ShouldShowCurrentVariations(st, config, editMode) ==>
      r == if parentChildren.Some? then MovesOf(parentChildren.value) else []
    ensures ShouldShowVariations(st, config) && !ShouldShowCurrentVariations(st, config, editMode) ==>
      r == MovesOf(children)
  {
    if ShouldShowVariations(st, config) then
      if ShouldShowCurrentVariations(st, config, editMode) then
        if parentChildren.Some? then MovesOf(parentChildren.value) else []
      else MovesOf(children)
    else []
  }

  /** In edit mode the markup, when shown, is always for the moves that can be played next. */
  lemma EditModeMarksNextMoves(
    st: Option<int>, config: PlayerConfig, parentChildren: Option<seq<NodeMoves>>, children: seq<NodeMoves>)
    ensures |GetVariations(st, config, true, parentChildren, children)| == (if ShouldShowVariations(st, config) then |children| else 0)
    ensures forall i | 0 <= i < |GetVariations(st, config, true, parentChildren, children)| ::
      GetVariations(st, config, true, parentChildren, children)[i] == MoveOf(children[i])
  {
  }

  // ---------------------------------------------------------------------------
  // Keyboard and mouse wheel
  // ---------------------------------------------------------------------------

  /** `next()` and `previous()` of the player. */
  datatype Navigation = Forward | Back

  function Opposite(n: Navigation): Navigation {
    match n
    case Forward => Back
    case Back => Forward
  }

  /**
   * The wheel listener: only while the player element has focus and wheel
   * navigation is enabled; scrolling down moves forward, up moves back.
   */
  function WheelNavigation(focused: bool, enabled: bool, deltaY: real): (r: Option<Navigation>)
    ensures r == Some(Forward) <==> focused && enabled && deltaY > 0.0
    ensures r == Some(Back) <==> focused && enabled && deltaY < 0.0
    ensures r == None <==> !focused || !enabled || deltaY == 0.0
  {
    if focused && enabled then
      if deltaY > 0.0 then Some(Forward)
      else if deltaY < 0.0 then Some(Back)
      else None
    else None
  }

  /** The key listener: only while focused and enabled; the right arrow moves forward, the left arrow back. */
  function KeyNavigation(focused: bool, enabled: bool, key: string): (r: Option<Navigation>)
    ensures r == Some(Forward) <==> focused && enabled && key == "ArrowRight"
    ensures r == Some(Back) <==> focused && enabled && key == "ArrowLeft"
    ensures r == None <==> !focused || !enabled || (key != "ArrowRight" && key != "ArrowLeft")
  {
    if focused && enabled then
      if key == "ArrowRight" then Some(Forward)
      else if key == "ArrowLeft" then Some(Back)
      else None
    else None
  }

  /** Scrolling the opposite way navigates the opposite way. */
  lemma WheelReversal(focused: bool, enabled: bool, deltaY: real)
    ensures WheelNavigation(focused, enabled, -deltaY) ==
      match WheelNavigation(focused, enabled, deltaY)
      case None => None
      case Some(n) => Some(Opposite(n))
  {
  }

  // ---------------------------------------------------------------------------
  // Click decision
  // ---------------------------------------------------------------------------

  /** What a click in edit mode leads to. `Fault` is a thrown TypeError. */
  datatype ClickAction = NoAction | GoToChild(index: nat) | PlayAt(p: Point) | Fault

  /** The first child, from index `from` on, whose move is at `p`, if any. */
  function FirstChildAt(children: seq<NodeMoves>, p: Point, from: nat): (r: Option<nat>)
    requires from <= |children|
    ensures r.Some? ==> from <= r.value < |children| && MoveOf(children[r.value]) == Some(p)
    ensures r.Some? ==> forall j | from <= j < r.value :: MoveOf(children[j]) != Some(p)
    ensures r.None? ==> forall j | from <= j < |children| :: MoveOf(children[j]) != Some(p)
    decreases |children| - from
  {
    if from == |children| then None
    else if MoveOf(children[from]) == Some(p) then Some(from)
    else FirstChildAt(children, p, from + 1)
  }

  /**
   * The click handler's decision, with children that carry no move skipped:
   * the first child whose move is at the point is entered; with none, the point
   * is played if it is a legal move.
   */
  function ClickDecision(children: seq<NodeMoves>, p: Point, valid: bool): (r: ClickAction)
    ensures r != Fault
    ensures r.GoToChild? ==>
      && r.index < |children| && MoveOf(children[r.index]) == Some(p)
      && forall j | 0 <= j < r.index :: MoveOf(children[j]) != Some(p)
    ensures r.PlayAt? <==> valid && forall j | 0 <= j < |children| :: MoveOf(children[j]) != Some(p)
    ensures r.PlayAt? ==> r.p == p
    ensures r == NoAction <==> !valid && forall j | 0 <= j < |children| :: MoveOf(children[j]) != Some(p)
  {
    match FirstChildAt(children, p, 0)
    case Some(i) => GoToChild(i)
    case None => if valid then PlayAt(p) else NoAction
  }

  /**
   * The click handler's decision as written: a child with neither a black nor
   * a white move makes it read a coordinate of `undefined`, which throws.
   */
  function ClickDecisionAsWritten(children: seq<NodeMoves>, p: Point, valid: bool, from: nat): (r: ClickAction)
    requires from <= |children|
    ensures r.GoToChild? ==> from <= r.index < |children| && MoveOf(children[r.index]) == Some(p)
    ensures r == Fault <==> exists j | from <= j < |children| ::
      MoveOf(children[j]).None? && forall k | from <= k < j :: MoveOf(children[k]) != Some(p)
    decreases |children| - from
  {
    if from == |children| then (if valid then PlayAt(p) else NoAction)
    else match MoveOf(children[from])
      case None => Fault
      case Some(m) =>
        if m == p then GoToChild(from)
        else ClickDecisionAsWritten(children, p, valid, from + 1)
  }

  /** When every child carries a move, the handler as written decides exactly as the corrected one. */
  lemma {:induction false} ClickDecisionAgrees(children: seq<NodeMoves>, p: Point, valid: bool, from: nat)
    requires from <= |children|
    requires forall j | from <= j < |children| :: MoveOf(children[j]).Some?
    ensures ClickDecisionAsWritten(children, p, valid, from) ==
      match FirstChildAt(children, p, from)
      case Some(i) => GoToChild(i)
      case None => if valid then PlayAt(p) else NoAction
    decreases |children| - from
  {
    if from < |children| && MoveOf(children[from]) != Some(p) {
      ClickDecisionAgrees(children, p, valid, from + 1);
    }
  }

  /** A setup node (no move) as the only child: the click throws as written, and plays the point when corrected. */
  lemma ClickOnSetupChild(p: Point)
    ensures ClickDecisionAsWritten([NodeMoves(None, None)], p, true, 0) == Fault
    ensures ClickDecision([NodeMoves(None, None)], p, true) == PlayAt(p)
  {
    assert MoveOf([NodeMoves(None, None)][0]).None?;
  }

  // ---------------------------------------------------------------------------
  // Edit mode
  // ---------------------------------------------------------------------------

  /**
   * One of the two translucent hover stones made each time edit mode is
   * entered; `session` counts the entries, so stones of different entries are
   * different objects.
   */
  datatype Stone = Stone(session: nat, color: Color)

  /** A call on the board: add or update a stone placed at a point, or remove it. */
  datatype BoardCall = Add(stone: Stone, at: Point) | Update(stone: Stone, at: Point) | Remove(stone: Stone)

  /** A call on the game: save and restore the position, go to a child, play a move. */
  datatype GameCall = Save | Restore | Next(index: nat) | Play(at: Point)

  /** Every stone a list of board calls mentions. */
  function Mentioned(calls: seq<BoardCall>): set<Stone> {
    set i | 0 <= i < |calls| :: calls[i].stone
  }

  /** The stones on the board after a list of calls: an update changes no membership. */
  function OnBoard(calls: seq<BoardCall>): (r: set<Stone>)
    ensures r <= Mentioned(calls)
    decreases |calls|
  {
    if calls == [] then {}
    else
      var init := calls[..|calls| - 1];
      MentionedPrefix(calls);
      var prev := OnBoard(init);
      match calls[|calls| - 1]
      case Add(s, _) => prev + {s}
      case Update(_, _) => prev
      case Remove(s) => prev - {s}
  }

  /** Dropping the last call mentions no stone that the whole list does not. */
  lemma MentionedPrefix(calls: seq<BoardCall>)
    requires calls != []
    ensures Mentioned(calls[..|calls| - 1]) <= Mentioned(calls)
    ensures calls[|calls| - 1].stone in Mentioned(calls)
  {
    var init := calls[..|calls| - 1];
    forall x | x in Mentioned(init) ensures x in Mentioned(calls) {
      var i :| 0 <= i < |init| && init[i].stone == x;
      assert calls[i] == init[i];
    }
  }

  /** Replaying one more call. */
  lemma OnBoardStep(calls: seq<BoardCall>, c: BoardCall)
    ensures c.Add? ==> OnBoard(calls + [c]) == OnBoard(calls) + {c.stone}
    ensures c.Update? ==> OnBoard(calls + [c]) == OnBoard(calls)
    ensures c.Remove? ==> OnBoard(calls + [c]) == OnBoard(calls) - {c.stone}
    ensures Mentioned(calls + [c]) == Mentioned(calls) + {c.stone}
  {
    assert (calls + [c])[..|calls|] == calls;
    forall st | st in Mentioned(calls + [c]) ensures st in Mentioned(calls) + {c.stone} {
      var i :| 0 <= i < |calls + [c]| && (calls + [c])[i].stone == st;
      if i < |calls| {
        assert calls[i] == (calls + [c])[i];
      }
    }
    forall st | st in Mentioned(calls) ensures st in Mentioned(calls + [c]) {
      var i :| 0 <= i < |calls| && calls[i].stone == st;
      assert (calls + [c])[i] == calls[i];
    }
    assert (calls + [c])[|calls|] == c;
  }

  /** The stones of one edit-mode entry that are on the board after a list of calls. */
  ghost function SessionOnBoard(calls: seq<BoardCall>, session: nat): set<Stone> {
    set x | x in OnBoard(calls) && x.session == session
  }

  /** Replaying one more call, restricted to the stones of one entry. */
  lemma SessionStep(calls: seq<BoardCall>, c: BoardCall, session: nat)
    requires c.stone.session == session
    ensures c.Add? ==> SessionOnBoard(calls + [c], session) == SessionOnBoard(calls, session) + {c.stone}
    ensures c.Update? ==> SessionOnBoard(calls + [c], session) == SessionOnBoard(calls, session)
    ensures c.Remove? ==> SessionOnBoard(calls + [c], session) == SessionOnBoard(calls, session) - {c.stone}
    ensures Mentioned(calls + [c]) == Mentioned(calls) + {c.stone}
  {
    OnBoardStep(calls, c);
  }

  /**
   * The hover-stone bookkeeping of one edit-mode entry: the board holds a
   * stone of the entry exactly when `added` names it, and no call mentions a
   * stone of a later entry.
   */
  ghost predicate HoverAgrees(calls: seq<BoardCall>, session: nat, added: Option<Stone>) {
    && SessionOnBoard(calls, session) == AsSet(added)
    && (added.Some? ==> added.value.session == session)
    && (forall st | st in Mentioned(calls) :: st.session <= session)
  }

  /** Adding the first hover stone of the entry. */
  lemma HoverAdd(calls: seq<BoardCall>, session: nat, st: Stone, p: Point)
    requires HoverAgrees(calls, session, None) && st.session == session
    ensures HoverAgrees(calls + [Add(st, p)], session, Some(st))
  {
    SessionStep(calls, Add(st, p), session);
  }

  /** Updating a stone of the entry changes nothing on the board. */
  lemma HoverUpdate(calls: seq<BoardCall>, session: nat, added: Option<Stone>, st: Stone, p: Point)
    requires HoverAgrees(calls, session, added) && st.session == session
    ensures HoverAgrees(calls + [Update(st, p)], session, added)
  {
    SessionStep(calls, Update(st, p), session);
  }

  /** Removing the hover stone leaves none of the entry on the board. */
  lemma HoverRemove(calls: seq<BoardCall>, session: nat, st: Stone)
    requires HoverAgrees(calls, session, Some(st))
    ensures HoverAgrees(calls + [Remove(st)], session, None)
  {
    SessionStep(calls, Remove(st), session);
  }

  /** A new entry starts with none of its stones on the board. */
  lemma HoverNewSession(calls: seq<BoardCall>, session: nat, added: Option<Stone>)
    requires HoverAgrees(calls, session, added)
    ensures HoverAgrees(calls, session + 1, None)
  {
    forall st | st in OnBoard(calls) ensures st.session != session + 1 {
      assert st in Mentioned(calls);
    }
  }

  /** The calls a click decision makes on the game. */
  function GameCallsOf(a: ClickAction): seq<GameCall> {
    match a
    case GoToChild(i) => [Next(i)]
    case PlayAt(p) => [Play(p)]
    case _ => []
  }

  /**
   * The edit-mode part of the player. The handlers exist only while edit mode
   * is on, so an event outside edit mode changes nothing.
   */
  class Player {
    var editMode: bool
    var session: nat
    var lastX: int
    var lastY: int
    var addedStone: Option<Stone>
    var boardCalls: seq<BoardCall>
    var gameCalls: seq<GameCall>

    /** The current entry's hover stones that are on the board. */
    ghost function HoverStones(): set<Stone>
      reads this
    {
      SessionOnBoard(boardCalls, session)
    }

    /** The board holds a hover stone of the current entry exactly when `addedStone` names it. */
    ghost predicate Valid()
      reads this
    {
      HoverAgrees(boardCalls, session, addedStone)
    }

    constructor ()
      ensures Valid()
      ensures !editMode && addedStone == None && boardCalls == [] && gameCalls == []
    {
      editMode := false;
      session := 0;
      lastX, lastY := -1, -1;
      addedStone := None;
      boardCalls := [];
      gameCalls := [];
    }

    /** At most one hover stone of the current entry is on the board. */
    lemma AtMostOneHoverStone()
      requires Valid()
      ensures |HoverStones()| <= 1
    {
    }

    /**
     * setEditMode: entering saves the position and starts with no hover stone
     * and no last point; leaving restores the position. Asking for the mode
     * the player is already in changes nothing.
     */
    method SetEditMode(b: bool)
      requires Valid()
      modifies this
      ensures Valid()
      ensures editMode == b
      ensures b == old(editMode) ==>
        && session == old(session) && lastX == old(lastX) && lastY == old(lastY)
        && addedStone == old(addedStone) && boardCalls == old(boardCalls) && gameCalls == old(gameCalls)
      ensures b && !old(editMode) ==>
        && session == old(session) + 1 && lastX == -1 && lastY == -1 && addedStone == None
        && HoverStones() == {} && boardCalls == old(boardCalls) && gameCalls == old(gameCalls) + [Save]
      ensures !b && old(editMode) ==>
        && session == old(session) && lastX == old(lastX) && lastY == old(lastY) && addedStone == old(addedStone)
        && boardCalls == old(boardCalls) && gameCalls == old(gameCalls) + [Restore]
    {
      if b && !editMode {
        HoverNewSession(boardCalls, session, addedStone);
        gameCalls := gameCalls + [Save];
        editMode := true;
        session := session + 1;
        lastX, lastY := -1, -1;
        addedStone := None;
      } else if !b && editMode {
        editMode := false;
        gameCalls := gameCalls + [Restore];
      }
    }

    /**
     * The mouse-out handler: the hover stone, if added, is removed, and the
     * last point is forgotten.
     */
    method MouseOut()
      requires Valid()
      modifies this`addedStone, this`boardCalls, this`lastX, this`lastY
      ensures Valid()
      ensures !old(editMode) ==> unchanged(this)
      ensures old(editMode) ==>
        && addedStone == None && HoverStones() == {} && lastX == -1 && lastY == -1
        && boardCalls == old(boardCalls) + (if old(addedStone).Some? then [Remove(old(addedStone).value)] else [])
    {
      if !editMode {
        return;
      }
      if addedStone.Some? {
        var st := addedStone.value;
        HoverRemove(boardCalls, session, st);
        boardCalls := boardCalls + [Remove(st)];
        addedStone := None;
      }
      lastX, lastY := -1, -1;
    }

    /**
     * The mouse-move handler. A move to the last point is ignored. At a point
     * where a move is legal the stone of the side to move is put there, added
     * the first time and updated afterwards; anywhere else the hover stone is
     * taken away. Either way the point becomes the last point.
     */
    method MouseMove(p: Point, valid: bool, turn: Color)
      requires Valid()
      modifies this`addedStone, this`boardCalls, this`lastX, this`lastY
      ensures Valid()
      ensures !old(editMode) || (old(lastX) == p.x && old(lastY) == p.y) ==> unchanged(this)
      ensures old(editMode) && (old(lastX) != p.x || old(lastY) != p.y) ==>
        && lastX == p.x && lastY == p.y
        && (valid ==>
          && addedStone == (if old(addedStone).Some? then old(addedStone) else Some(Stone(session, turn)))
          && boardCalls == old(boardCalls) +
            [if old(addedStone).Some? then Update(Stone(session, turn), p) else Add(Stone(session, turn), p)])
        && (!valid ==>
          && addedStone == None && HoverStones() == {}
          && boardCalls == old(boardCalls) + (if old(addedStone).Some? then [Remove(old(addedStone).value)] else []))
    {
      if !editMode || (lastX == p.x && lastY == p.y) {
        return;
      }
      if valid {
        var st := Stone(session, turn);
        if addedStone.Some? {
          HoverUpdate(boardCalls, session, addedStone, st, p);
          boardCalls := boardCalls + [Update(st, p)];
        } else {
          HoverAdd(boardCalls, session, st, p);
          boardCalls := boardCalls + [Add(st, p)];
          addedStone := Some(st);
        }
      } else {
        MouseOut();
      }
      lastX, lastY := p.x, p.y;
    }

    /**
     * The click handler: the hover stone is cleared first; a click off the
     * board does nothing else; otherwise the children are searched in index
     * order for one whose move is at the point, and the point is played if
     * none is and the move is legal.
     */
    method Click(p: Option<Point>, children: seq<NodeMoves>, valid: bool) returns (action: ClickAction)
      requires Valid()
      modifies this`addedStone, this`boardCalls, this`lastX, this`lastY, this`gameCalls
      ensures Valid()
      ensures action == if old(editMode) && p.Some? then ClickDecision(children, p.value, valid) else NoAction
      ensures gameCalls == old(gameCalls) + GameCallsOf(action)
      ensures !old(editMode) ==> unchanged(this)
      ensures old(editMode) ==>
        && addedStone == None && HoverStones() == {} && lastX == -1 && lastY == -1
        && boardCalls == old(boardCalls) + (if old(addedStone).Some? then [Remove(old(addedStone).value)] else [])
    {
      if !editMode {
        return NoAction;
      }
      MouseOut();
      if p.None? {
        return NoAction;
      }
      var target := p.value;
      var i := 0;
      while i < |children|
        invariant 0 <= i <= |children|
        invariant forall j | 0 <= j < i :: MoveOf(children[j]) != Some(target)
      {
        var move := MoveOf(children[i]);
        if move == Some(target) {
          gameCalls := gameCalls + [Next(i)];
          return GoToChild(i);
        }
        i := i + 1;
      }
      if valid {
        gameCalls := gameCalls + [Play(target)];
        return PlayAt(target);
      }
      return NoAction;
    }

    /**
     * The node-change handler: the hover stone is taken away and put back at
     * the last point for the new position (legal there or not, side to move).
     */
    method NodeChange(valid: bool, turn: Color)
      requires Valid()
      modifies this`addedStone, this`boardCalls, this`lastX, this`lastY
      ensures Valid()
      ensures !old(editMode) ==> unchanged(this)
      ensures old(editMode) ==> lastX == old(lastX) && lastY == old(lastY)
      ensures old(editMode) && (old(lastX) != -1 || old(lastY) != -1) && valid ==>
        && addedStone == Some(Stone(session, turn))
        && boardCalls == old(boardCalls)
          + (if old(addedStone).Some? then [Remove(old(addedStone).value)] else [])
          + [Add(Stone(session, turn), Point(old(lastX), old(lastY)))]
      ensures old(editMode) && ((old(lastX) == -1 && old(lastY) == -1) || !valid) ==>
        && addedStone == None && HoverStones() == {}
        && boardCalls == old(boardCalls) + (if old(addedStone).Some? then [Remove(old(addedStone).value)] else [])
    {
      if !editMode {
        return;
      }
      var current := Point(lastX, lastY);
      MouseOut();
      MouseMove(current, valid, turn);
    }
  }
}
