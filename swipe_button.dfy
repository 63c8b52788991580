/**
 * One swipe action button: an immutable descriptor (label, colour, click
 * listener) and the hit state that every draw overwrites.
 */
module Buttons {
  import opened Wrappers
  import opened Geometry

  /** Identity of the host's click listener; the listener itself is host code. */
  type ListenerId = nat

  /** What a host builder callback supplies for one button. */
  datatype ButtonSpec = ButtonSpec(text: string, color: int, listener: ListenerId)

  /** A recorded listener invocation: `button`'s listener was called with `position`. */
  datatype Click = Click(button: SwipeButton, position: int)

  class SwipeButton {
    const text: string
    const color: int
    const listener: ListenerId

    /** Rectangle of the last draw; None until the button is first drawn. */
    var clickRegion: Option<Rect>
    /** Adapter position of the last draw (Java's int default 0 before that). */
    var position: int

    constructor (text: string, color: int, listener: ListenerId)
      ensures this.text == text && this.color == color && this.listener == listener
      ensures clickRegion == None && position == 0
    {
      this.text := text;
      this.color := color;
      this.listener := listener;
      clickRegion := None;
      position := 0;
    }

    /** The descriptor fixed at construction. */
    function Spec(): ButtonSpec
    {
      ButtonSpec(text, color, listener)
    }

    /** Whether a tap at (x, y) falls inside the region of the last draw. */
    predicate Hits(x: real, y: real)
      reads this
    {
      clickRegion.Some? && Contains(clickRegion.value, x, y)
    }

    /**
     * The hit test: when (x, y) lies in the last-drawn region the listener is
     * called once, with the position of that draw, and the test reports true.
     * It changes nothing (no modifies clause), so hit state and descriptor
     * stay as they were.
     */
    method OnClick(x: real, y: real) returns (clicked: bool, click: Option<Click>)
      ensures clicked <==> clickRegion.Some? && Contains(clickRegion.value, x, y)
      ensures clickRegion.None? ==> !clicked && click.None?
      ensures clicked ==> click == Some(Click(this, position))
      ensures !clicked ==> click.None?
    {
      if clickRegion.Some? && Contains(clickRegion.value, x, y) {
        click := Some(Click(this, position));
        clicked := true;
      } else {
        click := None;
        clicked := false;
      }
    }

    /**
     * The hit-state part of drawing: whatever was stored before, the button
     * now answers taps for `rect` on row `position`. Painting is not modelled.
     */
    method OnDraw(rect: Rect, position: int)
      modifies this
      ensures clickRegion == Some(rect) && this.position == position
    {
      clickRegion := Some(rect);
      this.position := position;
    }
  }

  /** No button object occurs twice in the list. */
  predicate Distinct(bs: seq<SwipeButton>)
  {
    forall i, j :: 0 <= i < j < |bs| ==> bs[i] != bs[j]
  }

  /**
   * The host side of a builder callback: one new, never-drawn button per
   * descriptor, in the order given.
   */
  method NewButtons(specs: seq<ButtonSpec>) returns (bs: seq<SwipeButton>)
    ensures |bs| == |specs| && Distinct(bs)
    ensures forall i :: 0 <= i < |bs| ==>
      fresh(bs[i]) && bs[i].Spec() == specs[i] && bs[i].clickRegion == None
  {
    bs := [];
    for i := 0 to |specs|
      invariant |bs| == i && Distinct(bs)
      invariant forall j :: 0 <= j < i ==>
        fresh(bs[j]) && bs[j].Spec() == specs[j] && bs[j].clickRegion == None
    {
      var b := new SwipeButton(specs[i].text, specs[i].color, specs[i].listener);
      bs := bs + [b];
    }
  }
}
