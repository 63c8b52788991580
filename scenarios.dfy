/**
 * End-to-end uses of the controller through its contracts alone, with a host
 * shaped like the demo application: two right-side buttons (DELETE, COPY) and
 * one left-side button (INFO).
 */
module Scenarios {
  import opened Wrappers
  import opened Geometry
  import opened Buttons
  import opened Layout
  import opened Swiper

  /** android.graphics.Color values used by the demo host. */
  const RED: int := 0xFFFF0000 - 0x1_0000_0000
  const BLACK: int := 0xFF000000 - 0x1_0000_0000
  const BLUE: int := 0xFF0000FF - 0x1_0000_0000

  function DemoRight(position: int): seq<ButtonSpec>
  {
    [ButtonSpec("DELETE", RED, 1), ButtonSpec("COPY", BLACK, 2)]
  }

  function DemoLeft(position: int): seq<ButtonSpec>
  {
    [ButtonSpec("INFO", BLUE, 3)]
  }

  /**
   * Row 7 occupies x in [0, 200), y in [50, 150); buttons are 100 wide. The
   * first frame builds the buttons; a later leftward drag of 350 reuses them
   * and is held at -200, DELETE is laid out at [100, 200)
   * and COPY at [0, 100). After the commit the threshold is 100, and a tap
   * at (150, 100) fires DELETE's listener for row 7 and nothing else. A
   * touch below the row then closes it and notifies row 7 once.
   */
  method TapRoutingScenario() returns (translation: Option<real>, threshold: real, clicks: seq<Click>)
    ensures translation == Some(-200.0)
    ensures threshold == 100.0
    ensures |clicks| == 1 && clicks[0].button.text == "DELETE" && clicks[0].position == 7
  {
    var swiper := new RecyclerViewSwiper(DemoRight, DemoLeft);
    swiper.SetButtonWidth(100);
    var item := Rect(0.0, 50.0, 200.0, 150.0);

    // the first frame builds and caches the right-side buttons
    var first := swiper.OnChildDraw(7, item, -120.0, ACTION_STATE_SWIPE);
    assert first == Some(-120.0);
    var drawn := swiper.swipeButtonsBufferRight[7];
    assert swiper.builderCalls == [InitRight(7)];
    assert |drawn| == 2 && drawn[0].Spec() == ButtonSpec("DELETE", RED, 1);

    // a later frame reuses them, is clamped and lays them out again
    translation := swiper.OnChildDraw(7, item, -350.0, ACTION_STATE_SWIPE);
    assert swiper.builderCalls == [InitRight(7)] && swiper.swipeButtonsBufferRight[7] == drawn;
    assert translation == Some(-200.0);
    assert RightLayout(200.0, 50.0, 150.0, 100.0, 2) == [Rect(100.0, 50.0, 200.0, 150.0), Rect(0.0, 50.0, 100.0, 150.0)];
    assert drawn[0].clickRegion == Some(Rect(100.0, 50.0, 200.0, 150.0));
    assert drawn[1].clickRegion == Some(Rect(0.0, 50.0, 100.0, 150.0));

    swiper.OnSwiped(7, LEFT);
    assert swiper.swipeButtons == drawn && swiper.notified == [];
    assert drawn[0].clickRegion == Some(Rect(100.0, 50.0, 200.0, 150.0));
    threshold := swiper.GetSwipeThreshold();

    assert drawn[0].Hits(150.0, 100.0);
    var handled;
    handled, clicks := swiper.OnSingleTapConfirmed(150.0, 100.0);
    assert clicks == [Click(drawn[0], 7)];

    var consumed, forwarded := swiper.OnTouch(ACTION_DOWN, 300.0, 50, 150);
    assert !forwarded && swiper.swipedItemPosition == -1 && swiper.notified == [7];
  }
}
