/**
 * The swipe controller attached to a list: which row is open, the buttons of
 * that row, the per-row button caches filled while dragging, the recover
 * queue of rows to reset, and the dispatch of confirmed taps.
 */
module Swiper {
  import opened Wrappers
  import opened Geometry
  import opened Buttons
  import opened RecoverQueue
  import opened Layout

  /** ItemTouchHelper.LEFT and ItemTouchHelper.RIGHT. */
  const LEFT: int := 4
  const RIGHT: int := 8

  /** MotionEvent.ACTION_DOWN, ACTION_UP and ACTION_MOVE. */
  const ACTION_DOWN: int := 0
  const ACTION_UP: int := 1
  const ACTION_MOVE: int := 2

  /** Initial button width in pixels; setButtonWidth changes it. */
  const DEFAULT_BUTTON_WIDTH: int := 200

  /** One invocation of a host builder callback, for the given row. */
  datatype BuilderCall = InitRight(position: int) | InitLeft(position: int)

  /**
   * The buttons a commit makes active: a leftward swipe takes the row's
   * right-side buffer entry, a rightward one its left-side entry, a missing
   * entry gives no buttons, and any other direction keeps the current list.
   */
  function SelectActive(direction: int, position: int, left: map<int, seq<SwipeButton>>,
                        right: map<int, seq<SwipeButton>>, current: seq<SwipeButton>): seq<SwipeButton>
  {
    if direction == LEFT then (if position in right then right[position] else [])
    else if direction == RIGHT then (if position in left then left[position] else [])
    else current
  }

  /** The buttons of `bs` carry the right-side layout of a frame with translation dX on row `item`. */
  ghost predicate DrawnRight(bs: seq<SwipeButton>, item: Rect, dX: real, position: int)
    reads set b | b in bs
  {
    forall i :: 0 <= i < |bs| ==>
      bs[i].clickRegion == Some(RightLayout(item.right, item.top, item.bottom, -dX / |bs| as real, |bs|)[i]) &&
      bs[i].position == position
  }

  /** The buttons of `bs` carry the left-side layout of a frame with translation dX on row `item`. */
  ghost predicate DrawnLeft(bs: seq<SwipeButton>, item: Rect, dX: real, position: int)
    reads set b | b in bs
  {
    forall i :: 0 <= i < |bs| ==>
      bs[i].clickRegion == Some(LeftLayout(item.left, item.top, item.bottom, dX / |bs| as real, |bs|)[i]) &&
      bs[i].position == position
  }

  /** The buttons were built from these descriptors, in this order. */
  predicate BuiltFrom(bs: seq<SwipeButton>, specs: seq<ButtonSpec>)
  {
    |bs| == |specs| && forall i :: 0 <= i < |bs| ==> bs[i].Spec() == specs[i]
  }

  class RecyclerViewSwiper {
    /** The host's two builder callbacks, given the row position. */
    const initRight: int -> seq<ButtonSpec>
    const initLeft: int -> seq<ButtonSpec>

    var buttonWidth: int
    /** Buttons of the open row, in draw order. */
    var swipeButtons: seq<SwipeButton>
    var swipeButtonsBufferLeft: map<int, seq<SwipeButton>>
    var swipeButtonsBufferRight: map<int, seq<SwipeButton>>
    var recoverQueue: seq<int>
    /** The open row, or a negative value for none. */
    var swipedItemPosition: int
    var swipeThreshold: real

    /** Every position the adapter was told had changed, in order. */
    ghost var notified: seq<int>
    /** Every builder callback invocation, in order. */
    ghost var builderCalls: seq<BuilderCall>

    /**
     * Between events the recover queue is empty (every handler drains it), and
     * no cached list holds the same button twice.
     */
    ghost predicate Valid()
      reads this
    {
      && recoverQueue == []
      && (forall k :: k in swipeButtonsBufferLeft ==> Distinct(swipeButtonsBufferLeft[k]))
      && (forall k :: k in swipeButtonsBufferRight ==> Distinct(swipeButtonsBufferRight[k]))
    }

    constructor (initRight: int -> seq<ButtonSpec>, initLeft: int -> seq<ButtonSpec>)
      ensures Valid()
      ensures this.initRight == initRight && this.initLeft == initLeft
      ensures buttonWidth == DEFAULT_BUTTON_WIDTH && swipedItemPosition == -1 && swipeThreshold == 0.5
      ensures swipeButtons == [] && swipeButtonsBufferLeft == map[] && swipeButtonsBufferRight == map[]
      ensures recoverQueue == [] && notified == [] && builderCalls == []
    {
      this.initRight := initRight;
      this.initLeft := initLeft;
      buttonWidth := DEFAULT_BUTTON_WIDTH;
      swipeButtons := [];
      swipeButtonsBufferLeft := map[];
      swipeButtonsBufferRight := map[];
      recoverQueue := [];
      swipedItemPosition := -1;
      swipeThreshold := 0.5;
      notified := [];
      builderCalls := [];
    }

    method SetButtonWidth(width: int)
      modifies this`buttonWidth
      ensures buttonWidth == width
    {
      buttonWidth := width;
    }

    /** The recover queue's `add`: appends `p` unless it is already queued. */
    method RecoverQueueAdd(p: int) returns (added: bool)
      modifies this`recoverQueue
      ensures added <==> p !in old(recoverQueue)
      ensures recoverQueue == Enqueue(old(recoverQueue), p)
    {
      added := p !in recoverQueue;
      if added {
        recoverQueue := recoverQueue + [p];
      }
    }

    /**
     * Drains the recover queue front to back, notifying the adapter of every
     * drained position greater than -1.
     */
    method RecoverSwipedItem()
      modifies this`recoverQueue, this`notified
      ensures recoverQueue == []
      ensures notified == old(notified) + NotifiedPositions(old(recoverQueue))
    {
      ghost var drained: seq<int> := [];
      while recoverQueue != []
        invariant old(recoverQueue) == drained + recoverQueue
        invariant notified == old(notified) + NotifiedPositions(drained)
        decreases |recoverQueue|
      {
        var position := recoverQueue[0];
        recoverQueue := recoverQueue[1..];
        NotifiedAppend(drained, [position]);
        drained := drained + [position];
        if position > -1 {
          notified := notified + [position];
        }
      }
      assert drained == old(recoverQueue);
    }

    /**
     * A swipe committed on row `position` in `direction`: the previously open
     * row is reset if it is another, real row; the committed row becomes the
     * open one with the buttons cached for it in that direction; both caches
     * are emptied and the snap threshold becomes half the active buttons'
     * total width.
     */
    method OnSwiped(position: int, direction: int)
      requires Valid()
      modifies this
      ensures Valid()
      ensures swipedItemPosition == position
      ensures swipeButtons == SelectActive(direction, position, old(swipeButtonsBufferLeft),
                                           old(swipeButtonsBufferRight), old(swipeButtons))
      ensures swipeButtonsBufferLeft == map[] && swipeButtonsBufferRight == map[]
      ensures swipeThreshold == 0.5 * |swipeButtons| as real * buttonWidth as real
      ensures notified == old(notified) + NotifiedPositions(
        if old(swipedItemPosition) != position then Enqueue(old(recoverQueue), old(swipedItemPosition))
        else old(recoverQueue))
      ensures notified == old(notified) +
        (if old(swipedItemPosition) != position && old(swipedItemPosition) >= 0
         then [old(swipedItemPosition)] else [])
      ensures buttonWidth == old(buttonWidth) && builderCalls == old(builderCalls)
    {
      if swipedItemPosition != position {
        var _ := RecoverQueueAdd(swipedItemPosition);
      }
      swipedItemPosition := position;
      if direction == LEFT {
        if position in swipeButtonsBufferRight {
          swipeButtons := swipeButtonsBufferRight[position];
        } else {
          swipeButtons := [];
        }
      }
      if direction == RIGHT {
        if position in swipeButtonsBufferLeft {
          swipeButtons := swipeButtonsBufferLeft[position];
        } else {
          swipeButtons := [];
        }
      }
      swipeButtonsBufferRight := map[];
      swipeButtonsBufferLeft := map[];
      swipeThreshold := 0.5 * |swipeButtons| as real * buttonWidth as real;
      RecoverSwipedItem();
    }

    /** The stored snap threshold: as the last commit set it, or the initial 0.5. */
    function GetSwipeThreshold(): (t: real)
      reads this
      ensures t == swipeThreshold
    {
      swipeThreshold
    }

    /**
     * The buttons a drag frame on `position` with offset dX may redraw: none
     * for a row without adapter position or outside the swipe state.
     */
    ghost function DrawTargets(position: int, dX: real, actionState: int): set<SwipeButton>
      reads this
    {
      if position < 0 || actionState != ACTION_STATE_SWIPE then {}
      else if dX < 0.0 && position in swipeButtonsBufferRight then set b | b in swipeButtonsBufferRight[position]
      else if dX > 0.0 && position in swipeButtonsBufferLeft then set b | b in swipeButtonsBufferLeft[position]
      else {}
    }

    /**
     * One drag frame for row `position` (view bounds `item`) at offset dX.
     * Returns the translation handed to the default row drawing, or None when
     * the row has no adapter position and the frame is abandoned.
     */
    method OnChildDraw(position: int, item: Rect, dX: real, actionState: int) returns (translation: Option<real>)
      requires Valid()
      modifies this, DrawTargets(position, dX, actionState)
      ensures Valid()
      ensures swipeButtons == old(swipeButtons) && recoverQueue == old(recoverQueue)
      ensures swipeThreshold == old(swipeThreshold) && buttonWidth == old(buttonWidth)
      ensures notified == old(notified)
      // a row without adapter position: remember it as the swiped position, draw nothing
      ensures position < 0 ==>
        && translation == None && swipedItemPosition == position
        && swipeButtonsBufferLeft == old(swipeButtonsBufferLeft)
        && swipeButtonsBufferRight == old(swipeButtonsBufferRight)
        && builderCalls == old(builderCalls)
      ensures position >= 0 ==> swipedItemPosition == old(swipedItemPosition)
      // not swiping, or no offset: the offset passes through and no cache is touched
      ensures position >= 0 && (actionState != ACTION_STATE_SWIPE || dX == 0.0) ==>
        && translation == Some(dX)
        && swipeButtonsBufferLeft == old(swipeButtonsBufferLeft)
        && swipeButtonsBufferRight == old(swipeButtonsBufferRight)
        && builderCalls == old(builderCalls)
      // leftward swipe: the right-side cache is reused or filled once, then drawn
      ensures position >= 0 && actionState == ACTION_STATE_SWIPE && dX < 0.0 ==>
        && swipeButtonsBufferLeft == old(swipeButtonsBufferLeft)
        && position in swipeButtonsBufferRight
        && (position in old(swipeButtonsBufferRight) ==>
              swipeButtonsBufferRight == old(swipeButtonsBufferRight) && builderCalls == old(builderCalls))
        && (position !in old(swipeButtonsBufferRight) ==>
              && swipeButtonsBufferRight == old(swipeButtonsBufferRight)[position := swipeButtonsBufferRight[position]]
              && builderCalls == old(builderCalls) + [InitRight(position)]
              && BuiltFrom(swipeButtonsBufferRight[position], initRight(position))
              && (forall i :: 0 <= i < |swipeButtonsBufferRight[position]| ==> fresh(swipeButtonsBufferRight[position][i])))
        && translation == Some(EffectiveTranslation(actionState, dX, |swipeButtonsBufferRight[position]|, buttonWidth))
        && DrawnRight(swipeButtonsBufferRight[position], item, translation.value, position)
      // rightward swipe: the same with the left-side cache
      ensures position >= 0 && actionState == ACTION_STATE_SWIPE && dX > 0.0 ==>
        && swipeButtonsBufferRight == old(swipeButtonsBufferRight)
        && position in swipeButtonsBufferLeft
        && (position in old(swipeButtonsBufferLeft) ==>
              swipeButtonsBufferLeft == old(swipeButtonsBufferLeft) && builderCalls == old(builderCalls))
        && (position !in old(swipeButtonsBufferLeft) ==>
              && swipeButtonsBufferLeft == old(swipeButtonsBufferLeft)[position := swipeButtonsBufferLeft[position]]
              && builderCalls == old(builderCalls) + [InitLeft(position)]
              && BuiltFrom(swipeButtonsBufferLeft[position], initLeft(position))
              && (forall i :: 0 <= i < |swipeButtonsBufferLeft[position]| ==> fresh(swipeButtonsBufferLeft[position][i])))
        && translation == Some(EffectiveTranslation(actionState, dX, |swipeButtonsBufferLeft[position]|, buttonWidth))
        && DrawnLeft(swipeButtonsBufferLeft[position], item, translation.value, position)
    {
      var translationX := dX;
      if position < 0 {
        swipedItemPosition := position;
        return None;
      }
      if actionState == ACTION_STATE_SWIPE {
        if dX < 0.0 {
          var buffer: seq<SwipeButton>;
          if position !in swipeButtonsBufferRight {
            buffer := NewButtons(initRight(position));
            builderCalls := builderCalls + [InitRight(position)];
            swipeButtonsBufferRight := swipeButtonsBufferRight[position := buffer];
          } else {
            buffer := swipeButtonsBufferRight[position];
          }
          var limit := (|buffer| * -buttonWidth) as real;
          translationX := if dX < limit then limit else dX;
          if |buffer| > 0 {
            DrawSwipeButtonsRight(buffer, item, position, translationX);
          }
        } else if dX > 0.0 {
          var buffer: seq<SwipeButton>;
          if position !in swipeButtonsBufferLeft {
            buffer := NewButtons(initLeft(position));
            builderCalls := builderCalls + [InitLeft(position)];
            swipeButtonsBufferLeft := swipeButtonsBufferLeft[position := buffer];
          } else {
            buffer := swipeButtonsBufferLeft[position];
          }
          var limit := (|buffer| * buttonWidth) as real;
          translationX := if dX > limit then limit else dX;
          if |buffer| > 0 {
            DrawSwipeButtonsLeft(buffer, item, position, translationX);
          }
        }
      }
      translation := Some(translationX);
    }

    /**
     * Draws `buttons` right to left from the row's right edge, each -dX/n
     * wide, so every button's hit state afterwards is its slot of the right
     * layout on row `position`.
     */
    method DrawSwipeButtonsRight(buttons: seq<SwipeButton>, item: Rect, position: int, dX: real)
      requires |buttons| > 0 && Distinct(buttons)
      modifies set b | b in buttons
      ensures DrawnRight(buttons, item, dX, position)
    {
      var right := item.right;
      var width := -1.0 * dX / |buttons| as real;
      for i := 0 to |buttons|
        invariant right == item.right - i as real * width
        invariant forall j :: 0 <= j < i ==>
          buttons[j].clickRegion == Some(RightSlot(item.right, item.top, item.bottom, width, j)) &&
          buttons[j].position == position
      {
        var left := right - width;
        StepWidth(i, width);
        assert Rect(left, item.top, right, item.bottom) == RightSlot(item.right, item.top, item.bottom, width, i);
        buttons[i].OnDraw(Rect(left, item.top, right, item.bottom), position);
        right := left;
      }
      forall i | 0 <= i < |buttons|
        ensures RightLayout(item.right, item.top, item.bottom, width, |buttons|)[i]
             == RightSlot(item.right, item.top, item.bottom, width, i)
      {
        RightLayoutAt(item.right, item.top, item.bottom, width, |buttons|, i);
      }
    }

    /**
     * Draws `buttons` left to right from the row's left edge, each dX/n wide,
     * so every button's hit state afterwards is its slot of the left layout.
     */
    method DrawSwipeButtonsLeft(buttons: seq<SwipeButton>, item: Rect, position: int, dX: real)
      requires |buttons| > 0 && Distinct(buttons)
      modifies set b | b in buttons
      ensures DrawnLeft(buttons, item, dX, position)
    {
      var left := item.left;
      var width := dX / |buttons| as real;
      for i := 0 to |buttons|
        invariant left == item.left + i as real * width
        invariant forall j :: 0 <= j < i ==>
          buttons[j].clickRegion == Some(LeftSlot(item.left, item.top, item.bottom, width, j)) &&
          buttons[j].position == position
      {
        var right := left + width;
        StepWidth(i, width);
        assert Rect(left, item.top, right, item.bottom) == LeftSlot(item.left, item.top, item.bottom, width, i);
        buttons[i].OnDraw(Rect(left, item.top, right, item.bottom), position);
        left := right;
      }
      forall i | 0 <= i < |buttons|
        ensures LeftLayout(item.left, item.top, item.bottom, width, |buttons|)[i]
             == LeftSlot(item.left, item.top, item.bottom, width, i)
      {
        LeftLayoutAt(item.left, item.top, item.bottom, width, |buttons|, i);
      }
    }

    /**
     * A raw touch event (action, raw y) while the open row's visible bounds
     * are rowTop..rowBottom. With no open row nothing happens. A down, move
     * or up strictly inside the row's height goes to the tap detector;
     * elsewhere it resets the open row. The event is never consumed.
     */
    method OnTouch(action: int, rawY: real, rowTop: int, rowBottom: int) returns (consumed: bool, forwarded: bool)
      requires Valid()
      modifies this
      ensures Valid() && !consumed
      ensures old(swipedItemPosition) < 0 ==> !forwarded && unchanged(this)
      ensures old(swipedItemPosition) >= 0 && action != ACTION_DOWN && action != ACTION_UP && action != ACTION_MOVE ==>
        !forwarded && unchanged(this)
      ensures old(swipedItemPosition) >= 0 && (action == ACTION_DOWN || action == ACTION_UP || action == ACTION_MOVE) ==>
        var y := TruncateToInt(rawY);
        && (rowTop < y < rowBottom ==> forwarded && unchanged(this))
        && (!(rowTop < y < rowBottom) ==>
              && !forwarded && swipedItemPosition == -1
              && notified == old(notified) + [old(swipedItemPosition)]
              && swipeButtons == old(swipeButtons) && swipeThreshold == old(swipeThreshold)
              && swipeButtonsBufferLeft == old(swipeButtonsBufferLeft)
              && swipeButtonsBufferRight == old(swipeButtonsBufferRight)
              && buttonWidth == old(buttonWidth) && builderCalls == old(builderCalls))
    {
      consumed, forwarded := false, false;
      if swipedItemPosition < 0 {
        return;
      }
      var y := TruncateToInt(rawY);
      if action == ACTION_DOWN || action == ACTION_UP || action == ACTION_MOVE {
        if rowTop < y && rowBottom > y {
          forwarded := true;
        } else {
          var _ := RecoverQueueAdd(swipedItemPosition);
          swipedItemPosition := -1;
          RecoverSwipedItem();
        }
      }
    }

    /**
     * A confirmed single tap at (x, y): the active buttons are asked in draw
     * order and the first whose last-drawn region contains the point fires;
     * at most one listener is called, and none when no region contains it.
     */
    method OnSingleTapConfirmed(x: real, y: real) returns (handled: bool, clicks: seq<Click>)
      ensures handled
      ensures |clicks| <= 1
      ensures clicks == [] <==> forall i :: 0 <= i < |swipeButtons| ==> !swipeButtons[i].Hits(x, y)
      ensures clicks != [] ==> exists k ::
        && 0 <= k < |swipeButtons|
        && swipeButtons[k].Hits(x, y)
        && (forall j :: 0 <= j < k ==> !swipeButtons[j].Hits(x, y))
        && clicks == [Click(swipeButtons[k], swipeButtons[k].position)]
    {
      clicks := [];
      var i := 0;
      while i < |swipeButtons|
        invariant 0 <= i <= |swipeButtons|
        invariant clicks == []
        invariant forall j :: 0 <= j < i ==> !swipeButtons[j].Hits(x, y)
      {
        var hit, click := swipeButtons[i].OnClick(x, y);
        if click.Some? {
          clicks := clicks + [click.value];
        }
        if hit {
          break;
        }
        i := i + 1;
      }
      handled := true;
    }
  }
}
