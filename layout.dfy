/**
 * Drag-frame geometry: how far the row is allowed to follow the finger, and
 * the rectangles the revealed buttons are drawn into.
 */
module Layout {
  import opened Geometry

  /** ItemTouchHelper.ACTION_STATE_SWIPE. */
  const ACTION_STATE_SWIPE: int := 1

  /**
   * The translation a drag frame hands to the default row drawing, for a raw
   * offset `dX` and `n` buffered buttons of width `w` in the drag direction:
   * while swiping, a leftward drag stops at -n*w and a rightward one at n*w;
   * otherwise the offset passes through unchanged.
   */
  function EffectiveTranslation(actionState: int, dX: real, n: nat, w: int): (t: real)
    ensures actionState != ACTION_STATE_SWIPE || dX == 0.0 ==> t == dX
    ensures actionState == ACTION_STATE_SWIPE && dX < 0.0 ==>
      dX <= t && -(n * w) as real <= t && (t == dX || t == -(n * w) as real)
    ensures actionState == ACTION_STATE_SWIPE && dX > 0.0 ==>
      t <= dX && t <= (n * w) as real && (t == dX || t == (n * w) as real)
    ensures 0 <= w && dX != 0.0 ==> (t < 0.0 ==> dX < 0.0) && (t > 0.0 ==> dX > 0.0)
  {
    if actionState != ACTION_STATE_SWIPE then dX
    else if dX < 0.0 then (if dX < (n * -w) as real then (n * -w) as real else dX)
    else if dX > 0.0 then (if dX > (n * w) as real then (n * w) as real else dX)
    else dX
  }

  /**
   * The rectangles drawSwipeButtonsRight gives its buttons, in list order: the
   * first ends at `right`, and each next one ends where the previous began.
   */
  function RightLayout(right: real, top: real, bottom: real, width: real, n: nat): (rs: seq<Rect>)
    ensures |rs| == n
    decreases n
  {
    if n == 0 then []
    else [Rect(right - width, top, right, bottom)] + RightLayout(right - width, top, bottom, width, n - 1)
  }

  /**
   * The rectangles drawSwipeButtonsLeft gives its buttons, in list order: the
   * first starts at `left`, and each next one starts where the previous ended.
   */
  function LeftLayout(left: real, top: real, bottom: real, width: real, n: nat): (rs: seq<Rect>)
    ensures |rs| == n
    decreases n
  {
    if n == 0 then []
    else [Rect(left, top, left + width, bottom)] + LeftLayout(left + width, top, bottom, width, n - 1)
  }

  /** Slot i of a right layout in closed form: [right - (i+1)*width, right - i*width]. */
  function RightSlot(right: real, top: real, bottom: real, width: real, i: nat): Rect
  {
    Rect(right - (i + 1) as real * width, top, right - i as real * width, bottom)
  }

  /** Slot i of a left layout in closed form: [left + i*width, left + (i+1)*width]. */
  function LeftSlot(left: real, top: real, bottom: real, width: real, i: nat): Rect
  {
    Rect(left + i as real * width, top, left + (i + 1) as real * width, bottom)
  }

  /** One more button shifts the running edge by exactly one width. */
  lemma StepWidth(i: nat, w: real)
    ensures (i + 1) as real * w == i as real * w + w
  {
  }

  /** n copies of a/n add up to a. */
  lemma SplitEvenly(a: real, n: nat)
    requires n > 0
    ensures n as real * (a / n as real) == a
  {
  }

  /** k >= i + 1 buttons of positive width reach at least as far as i + 1 of them. */
  lemma FurtherEdge(i: nat, k: nat, w: real)
    requires i < k && 0.0 < w
    ensures (i + 1) as real * w <= k as real * w
  {
    assert k as real * w == (i + 1) as real * w + (k - i - 1) as real * w;
    assert 0.0 <= (k - i - 1) as real * w;
  }

  /** The running `right` of drawSwipeButtonsRight, unrolled: button i gets RightSlot i. */
  lemma {:induction false} RightLayoutAt(right: real, top: real, bottom: real, width: real, n: nat, i: nat)
    requires i < n
    ensures RightLayout(right, top, bottom, width, n)[i] == RightSlot(right, top, bottom, width, i)
    decreases i
  {
    if i > 0 {
      RightLayoutAt(right - width, top, bottom, width, n - 1, i - 1);
      StepWidth(i - 1, width);
    }
  }

  /** The running `left` of drawSwipeButtonsLeft, unrolled: button i gets LeftSlot i. */
  lemma {:induction false} LeftLayoutAt(left: real, top: real, bottom: real, width: real, n: nat, i: nat)
    requires i < n
    ensures LeftLayout(left, top, bottom, width, n)[i] == LeftSlot(left, top, bottom, width, i)
    decreases i
  {
    if i > 0 {
      LeftLayoutAt(left + width, top, bottom, width, n - 1, i - 1);
      StepWidth(i - 1, width);
    }
  }

  /** Distinct right slots share no point: they abut for a positive width and are empty otherwise. */
  lemma RightSlotsDisjoint(right: real, top: real, bottom: real, w: real, i: nat, j: nat, x: real, y: real)
    requires i < j
    ensures !(Contains(RightSlot(right, top, bottom, w, i), x, y) && Contains(RightSlot(right, top, bottom, w, j), x, y))
  {
    var a, b, d := (i + 1) as real * w, i as real * w, j as real * w;
    StepWidth(i, w);
    assert a == b + w;
    if 0.0 < w {
      FurtherEdge(i, j, w);
      assert right - d <= right - a;
    } else {
      assert right - a >= right - b;
    }
  }

  /** Distinct left slots share no point. */
  lemma LeftSlotsDisjoint(left: real, top: real, bottom: real, w: real, i: nat, j: nat, x: real, y: real)
    requires i < j
    ensures !(Contains(LeftSlot(left, top, bottom, w, i), x, y) && Contains(LeftSlot(left, top, bottom, w, j), x, y))
  {
    var a, b, d := (i + 1) as real * w, i as real * w, j as real * w;
    StepWidth(i, w);
    assert a == b + w;
    if 0.0 < w {
      FurtherEdge(i, j, w);
      assert left + a <= left + d;
    } else {
      assert left + a <= left + b;
    }
  }

  /**
   * For a leftward translation dX < 0 and n > 0 buttons, the right layout with
   * width -dX/n tiles [right + dX, right] without gaps: it starts at the row's
   * right edge, each button is -dX/n wide and spans the row's height, each one
   * begins where the next ends, and the last ends exactly at right + dX.
   */
  lemma RightLayoutTiles(right: real, top: real, bottom: real, dX: real, n: nat)
    requires n > 0
    ensures var rs := RightLayout(right, top, bottom, -dX / n as real, n);
      && rs[0].right == right
      && rs[n - 1].left == right + dX
      && (forall i :: 0 <= i < n - 1 ==> rs[i].left == rs[i + 1].right)
      && (forall i :: 0 <= i < n ==>
            rs[i].right - rs[i].left == -dX / n as real && rs[i].top == top && rs[i].bottom == bottom)
  {
    var w := -dX / n as real;
    var rs := RightLayout(right, top, bottom, w, n);
    RightEnds(right, top, bottom, w, n);
    var nw := n as real * w;
    SplitEvenly(-dX, n);
    assert nw == -dX;
    forall i | 0 <= i < n - 1 ensures rs[i].left == rs[i + 1].right {
      RightLayoutAt(right, top, bottom, w, n, i);
      RightLayoutAt(right, top, bottom, w, n, i + 1);
    }
    forall i | 0 <= i < n
      ensures rs[i].right - rs[i].left == w && rs[i].top == top && rs[i].bottom == bottom
    {
      RightSlotWidth(right, top, bottom, w, n, i);
    }
  }

  /** The first right slot starts at `right`; the last ends n widths further left. */
  lemma RightEnds(right: real, top: real, bottom: real, w: real, n: nat)
    requires n > 0
    ensures RightLayout(right, top, bottom, w, n)[0].right == right
    ensures RightLayout(right, top, bottom, w, n)[n - 1].left == right - n as real * w
  {
    RightLayoutAt(right, top, bottom, w, n, 0);
    RightLayoutAt(right, top, bottom, w, n, n - 1);
  }

  /** Every right slot is one width wide and as tall as the row. */
  lemma RightSlotWidth(right: real, top: real, bottom: real, w: real, n: nat, i: nat)
    requires i < n
    ensures var r := RightLayout(right, top, bottom, w, n)[i];
      r.right - r.left == w && r.top == top && r.bottom == bottom
  {
    RightLayoutAt(right, top, bottom, w, n, i);
    StepWidth(i, w);
  }

  /**
   * For a rightward translation dX > 0 and n > 0 buttons, the left layout with
   * width dX/n tiles [left, left + dX] the same way, from the row's left edge.
   */
  lemma LeftLayoutTiles(left: real, top: real, bottom: real, dX: real, n: nat)
    requires n > 0
    ensures var rs := LeftLayout(left, top, bottom, dX / n as real, n);
      && rs[0].left == left
      && rs[n - 1].right == left + dX
      && (forall i :: 0 <= i < n - 1 ==> rs[i].right == rs[i + 1].left)
      && (forall i :: 0 <= i < n ==>
            rs[i].right - rs[i].left == dX / n as real && rs[i].top == top && rs[i].bottom == bottom)
  {
    var w := dX / n as real;
    var rs := LeftLayout(left, top, bottom, w, n);
    LeftEnds(left, top, bottom, w, n);
    var nw := n as real * w;
    SplitEvenly(dX, n);
    assert nw == dX;
    forall i | 0 <= i < n - 1 ensures rs[i].right == rs[i + 1].left {
      LeftLayoutAt(left, top, bottom, w, n, i);
      LeftLayoutAt(left, top, bottom, w, n, i + 1);
    }
    forall i | 0 <= i < n
      ensures rs[i].right - rs[i].left == w && rs[i].top == top && rs[i].bottom == bottom
    {
      LeftSlotWidth(left, top, bottom, w, n, i);
    }
  }

  /** The first left slot starts at `left`; the last ends n widths further right. */
  lemma LeftEnds(left: real, top: real, bottom: real, w: real, n: nat)
    requires n > 0
    ensures LeftLayout(left, top, bottom, w, n)[0].left == left
    ensures LeftLayout(left, top, bottom, w, n)[n - 1].right == left + n as real * w
  {
    LeftLayoutAt(left, top, bottom, w, n, 0);
    LeftLayoutAt(left, top, bottom, w, n, n - 1);
  }

  /** Every left slot is one width wide and as tall as the row. */
  lemma LeftSlotWidth(left: real, top: real, bottom: real, w: real, n: nat, i: nat)
    requires i < n
    ensures var r := LeftLayout(left, top, bottom, w, n)[i];
      r.right - r.left == w && r.top == top && r.bottom == bottom
  {
    LeftLayoutAt(left, top, bottom, w, n, i);
    StepWidth(i, w);
  }

  /** No point lies in two rectangles of one right layout, whatever the width. */
  lemma RightLayoutDisjoint(right: real, top: real, bottom: real, width: real, n: nat, i: nat, j: nat, x: real, y: real)
    requires i < j < n
    ensures var rs := RightLayout(right, top, bottom, width, n);
      !(Contains(rs[i], x, y) && Contains(rs[j], x, y))
  {
    RightLayoutAt(right, top, bottom, width, n, i);
    RightLayoutAt(right, top, bottom, width, n, j);
    RightSlotsDisjoint(right, top, bottom, width, i, j, x, y);
  }

  /** No point lies in two rectangles of one left layout, whatever the width. */
  lemma LeftLayoutDisjoint(left: real, top: real, bottom: real, width: real, n: nat, i: nat, j: nat, x: real, y: real)
    requires i < j < n
    ensures var rs := LeftLayout(left, top, bottom, width, n);
      !(Contains(rs[i], x, y) && Contains(rs[j], x, y))
  {
    LeftLayoutAt(left, top, bottom, width, n, i);
    LeftLayoutAt(left, top, bottom, width, n, j);
    LeftSlotsDisjoint(left, top, bottom, width, i, j, x, y);
  }
}
