# RecyclerViewSwiper in Dafny

This project models the swipe-to-reveal controller of the RecyclerViewSwiper
Android library. A user drags a list row sideways. Action buttons slide in from
the opposite edge, and tapping one calls the host's listener with the row's
position.

The controller is `Swiper.RecyclerViewSwiper`, a class with the same state as
the Java class:

- `swipedItemPosition`: the open row, or a negative value for none;
- `swipeButtons`: the active buttons;
- `swipeButtonsBufferLeft` and `swipeButtonsBufferRight`: per-row button caches;
- `recoverQueue`: the duplicate-suppressing recover queue;
- `swipeThreshold` and `buttonWidth`.

It handles the four events of the Java class as methods. Three of them have a
`modifies` clause. `OnSingleTapConfirmed` has none, because a tap only calls a
listener and changes no state:

- `OnChildDraw`: a drag frame;
- `OnSwiped`: a swipe commit;
- `OnTouch`: a raw touch on the list;
- `OnSingleTapConfirmed`: a confirmed tap.

Each `Buttons.SwipeButton` has these parts:

- an immutable descriptor (`text`, `color`, `listener`);
- mutable hit state (`clickRegion`, `position`), which only `OnDraw` writes.

The Android collaborators become plain inputs and outputs:

- The adapter's `notifyItemChanged` becomes the ghost log `notified`.
- Calls of the host's builder callbacks are logged in the ghost `builderCalls`.
- Each builder callback is a function from row position to button descriptors
  (`initRight`, `initLeft`). The controller makes one new `SwipeButton` per
  descriptor (`Buttons.NewButtons`), as the demo host does.
- A listener call is the value `Click(button, position)`.
- `super.onChildDraw` is the translation `OnChildDraw` returns. It is `None`
  when the frame returns early.
- A row's view bounds are the `item` rectangle. The visible vertical bounds of
  the open row are `rowTop`/`rowBottom`.
- Passing a touch to the gesture detector is the `forwarded` result.
- The detector's single-tap heuristic is not modelled. A confirmed tap is
  simply what calls `OnSingleTapConfirmed`.

Modules follow the source:

- `Geometry`: `RectF` and its `contains`, and Java's `(int)` cast.
- `Buttons`: `SwipeButton.java`.
- `RecoverQueue`: the overridden `add` and the drain.
- `Layout`: clamping and button rectangles.
- `Swiper`: the controller.
- `Scenarios`: a host like the demo app, driven through the contracts alone.

Design choices:

- Containment is Android's `RectF.contains`. A rectangle must be non-empty.
  It includes its left and top edges and excludes its right and bottom edges.
- Directions and motion actions are the framework's integer constants. So a
  commit direction that is neither LEFT nor RIGHT keeps the active list, as
  the Java does.
- Offsets and rectangles are `real`. `buttonWidth` is an `int`, as in the Java.
- `Valid()` states that the recover queue is empty between events, because
  every handler drains it before returning. So inside those handlers the
  queue holds at most the one position just added, and duplicate suppression
  never actually drops anything. `RecoverQueue.DuplicateSuppression` proves
  the rule in general.

Behaviours of the code worth noting:

- `onTouch` always returns false. An outside touch resets the open row but
  still reaches the list.
- `onSwiped` also queues the "no row" value -1. The drain then skips it.
- The threshold starts at 0.5, not at 0.5 × 0 × width.
- `setButtonWidth` accepts any integer at any time.
- `findViewHolderForAdapterPosition` is taken to always find the open row.

Staleness follows from the contracts:

- `OnSwiped` empties both caches, so frames after a commit build new buttons.
- Taps test the committed list, which keeps the regions of its last draw
  before the commit.

## Model

| member | source | states |
|---|---|---|
| `Geometry.TruncateToInt` | recyclerviewswiper/src/main/java/ch/huber/recyclerviewswiper/RecyclerViewSwiper.java:91 | the cast of the raw y coordinate rounds toward zero: same sign, magnitude at most the input's and within 1 of it |
| `Buttons.SwipeButton.constructor` | recyclerviewswiper/src/main/java/ch/huber/recyclerviewswiper/SwipeButton.java:34-39 | text, colour and listener are the given ones (they are `const`, so no later operation changes them); the button starts never drawn (`clickRegion == None`), with position 0 |
| `Buttons.SwipeButton.OnClick` | recyclerviewswiper/src/main/java/ch/huber/recyclerviewswiper/SwipeButton.java:48-57 | returns true exactly when the last-drawn region exists and contains (x, y), and then reports one listener call with the stored position; otherwise false and no call; a never-drawn button never fires; it changes no field |
| `Buttons.SwipeButton.OnDraw` | recyclerviewswiper/src/main/java/ch/huber/recyclerviewswiper/SwipeButton.java:99-100 | afterwards the hit region is the given rectangle and the position the given one, whatever they were before, so of two draws the last one wins |
| `Buttons.NewButtons` | recyclerviewswiper/src/main/java/ch/huber/recyclerviewswiper/RecyclerViewSwiper.java:257 | the builder callback yields one new, distinct, never-drawn button per descriptor, in order |
| `RecoverQueue.Enqueue` | recyclerviewswiper/src/main/java/ch/huber/recyclerviewswiper/RecyclerViewSwiper.java:135-140 | a position already queued leaves the queue unchanged; a new one is appended at the back with the old order kept; membership is the old one plus the position; no duplicates are ever introduced |
| `RecoverQueue.NotifiedPositions` | recyclerviewswiper/src/main/java/ch/huber/recyclerviewswiper/RecyclerViewSwiper.java:307-312 | a position is notified if and only if it was queued and is greater than -1; never more notifications than queued entries |
| `RecoverQueue.NotifiedAppend` | recyclerviewswiper/src/main/java/ch/huber/recyclerviewswiper/RecyclerViewSwiper.java:307-312 | the drain is FIFO: draining a + b notifies a's rows, then b's |
| `RecoverQueue.NotifiedAllRows` | recyclerviewswiper/src/main/java/ch/huber/recyclerviewswiper/RecyclerViewSwiper.java:307-312 | a queue of real rows is notified entry for entry in queue order |
| `RecoverQueue.NotifiedNoDup` | recyclerviewswiper/src/main/java/ch/huber/recyclerviewswiper/RecyclerViewSwiper.java:307-312 | a duplicate-free queue notifies each row at most once |
| `RecoverQueue.DuplicateSuppression` | recyclerviewswiper/src/main/java/ch/huber/recyclerviewswiper/RecyclerViewSwiper.java:135-140 | adding the same position twice equals adding it once, so the row is notified exactly once, and only if it is greater than -1 |
| `Layout.EffectiveTranslation` | recyclerviewswiper/src/main/java/ch/huber/recyclerviewswiper/RecyclerViewSwiper.java:245-296 | outside the swipe state or at dX = 0 the offset passes unchanged; a leftward swipe gives max(dX, -n·w): never below -n·w, never beyond dX, and equal to one of them; a rightward one gives min(dX, n·w) likewise; for w ≥ 0 the sign of a non-zero translation is dX's |
| `Layout.RightLayout` | recyclerviewswiper/src/main/java/ch/huber/recyclerviewswiper/RecyclerViewSwiper.java:324-333 | the running right edge of the draw loop yields one rectangle per button |
| `Layout.LeftLayout` | recyclerviewswiper/src/main/java/ch/huber/recyclerviewswiper/RecyclerViewSwiper.java:344-353 | the running left edge of the draw loop yields one rectangle per button |
| `Layout.RightLayoutAt` | recyclerviewswiper/src/main/java/ch/huber/recyclerviewswiper/RecyclerViewSwiper.java:325-332 | button i of the right layout spans [right - (i+1)·width, right - i·width] |
| `Layout.LeftLayoutAt` | recyclerviewswiper/src/main/java/ch/huber/recyclerviewswiper/RecyclerViewSwiper.java:345-352 | button i of the left layout spans [left + i·width, left + (i+1)·width] |
| `Layout.RightLayoutTiles` | recyclerviewswiper/src/main/java/ch/huber/recyclerviewswiper/RecyclerViewSwiper.java:324-333 | with width -dX/n the right buttons tile [right + dX, right] contiguously from the right edge, in list order, each -dX/n wide and row-high |
| `Layout.LeftLayoutTiles` | recyclerviewswiper/src/main/java/ch/huber/recyclerviewswiper/RecyclerViewSwiper.java:344-353 | with width dX/n the left buttons tile [left, left + dX] contiguously from the left edge, each dX/n wide and row-high |
| `Layout.RightLayoutDisjoint` | recyclerviewswiper/src/main/java/ch/huber/recyclerviewswiper/RecyclerViewSwiper.java:324-333 | no point lies in two right-layout rectangles, whatever the width (empty rectangles contain nothing) |
| `Layout.LeftLayoutDisjoint` | recyclerviewswiper/src/main/java/ch/huber/recyclerviewswiper/RecyclerViewSwiper.java:344-353 | no point lies in two left-layout rectangles, whatever the width |
| `Swiper.RecyclerViewSwiper.constructor` | recyclerviewswiper/src/main/java/ch/huber/recyclerviewswiper/RecyclerViewSwiper.java:123-143 | no open row (-1), no active buttons, empty caches and queue, threshold 0.5, button width 200, nothing notified or built |
| `Swiper.RecyclerViewSwiper.SetButtonWidth` | recyclerviewswiper/src/main/java/ch/huber/recyclerviewswiper/RecyclerViewSwiper.java:145-147 | the button width becomes the given value and nothing else changes |
| `Swiper.RecyclerViewSwiper.RecoverQueueAdd` | recyclerviewswiper/src/main/java/ch/huber/recyclerviewswiper/RecyclerViewSwiper.java:135-140 | the overridden add: reports whether the position was absent, and the queue becomes `Enqueue` of the old queue |
| `Swiper.RecyclerViewSwiper.RecoverSwipedItem` | recyclerviewswiper/src/main/java/ch/huber/recyclerviewswiper/RecyclerViewSwiper.java:303-313 | empties the queue and appends to the notification log exactly `NotifiedPositions` of the old queue: FIFO, -1 never notified |
| `Swiper.RecyclerViewSwiper.OnSwiped` | recyclerviewswiper/src/main/java/ch/huber/recyclerviewswiper/RecyclerViewSwiper.java:171-213 | the committed row becomes the open one; the previous open row is notified if and only if it differs and is ≥ 0; active buttons are the right cache entry for LEFT, the left one for RIGHT, empty when missing, unchanged for any other direction; both caches end empty; threshold = 0.5 × active count × width (0 with no buttons); queue empty |
| `Swiper.RecyclerViewSwiper.GetSwipeThreshold` | recyclerviewswiper/src/main/java/ch/huber/recyclerviewswiper/RecyclerViewSwiper.java:216-218 | returns the stored threshold unchanged: the value the last commit computed, or the initial 0.5 |
| `Swiper.RecyclerViewSwiper.OnChildDraw` | recyclerviewswiper/src/main/java/ch/huber/recyclerviewswiper/RecyclerViewSwiper.java:231-297 | a negative position becomes the swiped position and nothing is drawn or cached; outside the swipe state or at dX = 0 the offset passes through untouched; in both cases the frame may change no button; otherwise the builder for that direction runs (logged) only when its cache lacks the row, and the stored list is reused with the map unchanged on later frames; the other direction's cache is untouched; the translation is `EffectiveTranslation`; the cached buttons carry the layout of the frame, and only they may change |
| `Swiper.RecyclerViewSwiper.DrawSwipeButtonsRight` | recyclerviewswiper/src/main/java/ch/huber/recyclerviewswiper/RecyclerViewSwiper.java:324-333 | every button's hit region is its `RightLayout` rectangle for width -dX/n and its position the row's |
| `Swiper.RecyclerViewSwiper.DrawSwipeButtonsLeft` | recyclerviewswiper/src/main/java/ch/huber/recyclerviewswiper/RecyclerViewSwiper.java:344-353 | every button's hit region is its `LeftLayout` rectangle for width dX/n and its position the row's |
| `Swiper.RecyclerViewSwiper.OnTouch` | recyclerviewswiper/src/main/java/ch/huber/recyclerviewswiper/RecyclerViewSwiper.java:80-114 | with no open row, or an action other than down/move/up, nothing changes; a down/move/up strictly inside (top, bottom) is forwarded to the tap detector and changes nothing; otherwise the open row is notified, the open position becomes -1 and the queue is drained; the event is never consumed |
| `Swiper.RecyclerViewSwiper.OnSingleTapConfirmed` | recyclerviewswiper/src/main/java/ch/huber/recyclerviewswiper/RecyclerViewSwiper.java:62-70 | at most one listener call; none if and only if no active button's last-drawn region contains the point; otherwise exactly the call of the first such button in draw order, with its stored position; always handled |
| `Scenarios.TapRoutingScenario` | recyclerviewswiper/src/main/java/ch/huber/recyclerviewswiper/RecyclerViewSwiper.java:62-70 | with buttons 100 wide on a 200-wide row, a drag of -350 is held at -200, the threshold after the commit is 100, and a tap at (150, 100) fires DELETE's listener alone, for row 7 |

## Left out

- Painting in `SwipeButton.onDraw` is not modelled (background fill, white label centred by font metrics, the commented-out icon), because it is rendering on float font metrics. Only the hit-state update is modelled.
- `SwipeButton`'s `context` field is not modelled, because it is stored but never read.
- Floats are modelled as reals, so float rounding in the running edges and the clamp is not captured.
- `buffer.size() * -buttonWidth` is modelled as an unbounded integer, so 32-bit wrap-around for huge widths is not captured.
- The `ItemTouchHelper` wiring (`attachSwipe`) is not modelled, because it is framework plumbing. The same goes for `onMove`, which always returns false, and the translated row drawing in `super.onChildDraw`; the model returns that translation instead of drawing.
- `getSwipeEscapeVelocity` and `getSwipeVelocityThreshold` are not modelled, because they only scale framework defaults by constants.
- The framework reads `getSwipeThreshold` as a fraction of the row width. The model only stores and returns the value.
- `GestureDetector` is left out. Its press/release heuristic decides which touches become confirmed taps; the model takes a confirmed tap as an input event.
- `onTouch` tests raw screen coordinates and the tap detector uses view-local ones. Here both come in as given numbers.
- `findViewHolderForAdapterPosition` and `getGlobalVisibleRect` become the given bounds `rowTop`/`rowBottom`. The null pointer the Java hits when the open row has no view holder is not modelled.
- TruncateToInt: does not model that Java's float-to-int cast saturates at ±2³¹ and maps NaN to 0, because screen coordinates stay far inside that range.
- `synchronized` on `recoverSwipedItem` is not modelled, because all events arrive one at a time on the UI thread.
- Builder callbacks are modelled as functions of the row position that return descriptors, each turned into a new button. A host that puts the same `SwipeButton` object into several lists or twice in one list (where the Java's later draw wins), or that looks at the view holder, is not modelled.
- `swipeButtons.clear()` is modelled as assigning the empty list. The Java clears the list object in place, but by then no cache still refers to it.
- `SwipeButtonClickListener` is a callback interface with no logic. It is modelled as the `Click` event value.
