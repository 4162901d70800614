# Drag-to-scroll "infinite" carousel

This project models the carousel that `initCarousel` sets up in `js/main.js`. It proves the carousel's behaviour in Dafny. The carousel is a horizontal track of items that the user drags with the mouse or a finger.

This variant has no cloned items, no momentum and no snapping. Instead, the track looks endless because its children are rotated in place:

- When empty space would show on the left, the last item moves to the front. Both translates then drop by one item width.
- When empty space would show on the right, the first item moves to the end. Both translates then rise by one item width.

Every item but the moved one keeps its on-screen place, or shifts 24px when the computed gap is 0 or not a number (`normal`): `getItemWidth` then adds the 24px fallback, while the browser lays items out with no gap (`Drift`, `ShiftedRightKeepsScreen`). The moved item jumps one track length, which takes it off screen only when the track is long enough compared to the container. After every move, the item whose centre is nearest the container's centre gets the `active` class.

Modules:

- `Layout` (`layout.dfy`) covers the geometry one handler reads:
  - Every handler reads the page layout afresh. Here those values are a `Metrics` parameter: an item's width, the track's computed `gap` as `parseFloat` sees it, and the container's width.
  - It defines the effective gap (`|| 24`) and the item width including that gap (`Pitch`, which is `getItemWidth`).
  - It defines the spacing the browser actually lays out (`Spacing`: the width plus the computed gap, or no gap when that is not a number), and each item's on-screen position from it.
  - It also defines the translate computed by the click and resize handlers.
  - Pixel values are exact reals.
- `Items` (`items.dfy`) covers the track's children: a sequence of items, each with its content and its `active` class. It also covers the two rotations, the count of active items, re-marking around one index and the search for the active item.
- `InfiniteCarousel` (`carousel.dfy`) has three parts:
  - Pure specifications of the rotation loop (`Turns`, `Applied`, `Settle`) and of the closest-item choice (`IsClosest`, `ClosestOf`).
  - The class `Carousel`. It holds the closure state `isDragging`, `startX`, `currentTranslate` and `prevTranslate`, plus the item sequence. Its handlers are methods proved against those specifications.
  - `Init`.
- `Carousel.Valid()` is the invariant every handler keeps: exactly one item is active (none on an empty track), and outside a drag the live translate equals the committed one.

The click and resize handlers are modelled as written. They measure the item's centre with `offsetLeft`, which ignores the translate already applied, and then add the resulting offset to that translate. So the item's centre ends at the container's centre plus the old translate (`Recentred`). It lands exactly in the middle only when the old translate was zero (`RecentredIsCentredOnlyFromZero`).

## Model

| member | source | states |
|---|---|---|
| Layout.EffectiveGap | js/main.js:90 | The gap is never 0. It is the parsed gap when that is a nonzero number, and 24 when the parsed gap is 0 or NaN. It equals 24 exactly in those cases or when the gap itself is 24. |
| Layout.Pitch | js/main.js:86-92 | `getItemWidth` is never the bare item width. It is the width plus the computed gap when that gap is a nonzero number, and the width plus 24 otherwise. |
| Layout.Drift | js/main.js:86-92 | `getItemWidth` exceeds the laid-out spacing by 0 exactly when the computed gap is a nonzero number, and by 24 otherwise. |
| Layout.OffsetIsProduct | js/main.js:104 | With uniform widths, the `offsetLeft` of item `i` is `i` times the laid-out spacing. |
| Layout.Distance | js/main.js:104-106 | An item's distance to the container's centre is never negative, and it is zero exactly when the item's on-screen centre is the container's centre. |
| Layout.Recentred | js/main.js:245-250 | The translate computed for a clicked item puts that item's on-screen centre at the container's centre plus the translate before the click. |
| Layout.RecentredIsCentredOnlyFromZero | js/main.js:247-250 | The item ends exactly at the container's centre if and only if the translate before the update was zero. |
| Items.RotatedRightMoves | js/main.js:120-122 | `appendChild(firstElementChild)`: the old first item becomes the last, every other item moves down one place, and the multiset of items is unchanged. |
| Items.RotatedLeftMoves | js/main.js:128-130 | `insertBefore(lastElementChild, firstChild)`: the old last item becomes the first, every other item moves up one place, and the multiset of items is unchanged. |
| Items.RotationsAreInverse | js/main.js:120-133 | Moving the first item to the end and then the last item to the front restores the order, and so does the reverse. |
| Items.RotationsKeepActiveCount | js/main.js:120-133 | Rotating the track moves elements with their classes, so the number of active items is unchanged. |
| Items.ActiveCount | js/main.js:114-116 | The number of items carrying the `active` class that the toggle loop sets. `Valid` and `Marked` are stated with it. Its own contract only bounds it by the number of items. |
| Items.NoneActiveCountsZero | js/main.js:114-116 | A track in which no item is active counts zero active items. |
| Items.OnlyOneActive | js/main.js:114-116 | A track in which exactly the item at `ci` is active counts one active item. |
| Items.Marked | js/main.js:114-116 | `classList.toggle('active', index === closestIndex)` keeps every item's content. It makes an item active if and only if its index is the chosen one. The result has exactly one active item when the index is in range, and none otherwise. |
| Items.FirstActive | js/main.js:273 | `items.find(... contains('active'))` returns the index of an active item with no active item before it, or nothing when no item is active. |
| Items.FirstActiveFindsAny | js/main.js:273 | The search comes back empty if and only if no item is active. |
| InfiniteCarousel.ShiftedRight | js/main.js:120-125 | `rotateRight` on the strip keeps the number of items and the difference between the live and committed translates. |
| InfiniteCarousel.ShiftedLeft | js/main.js:128-133 | `rotateLeft` on the strip keeps the number of items and the difference between the live and committed translates. |
| InfiniteCarousel.ShiftsAreInverse | js/main.js:120-133 | `rotateLeft` after `rotateRight`, or the reverse, restores the item order and both translates. |
| InfiniteCarousel.ShiftedRightKeepsScreen | js/main.js:119-125 | After `rotateRight`, every item but the moved one shifts on screen by `Drift`: it stays put when the computed gap is a nonzero number, and jumps 24px right otherwise. The moved item goes from first to last, one track length (`n` spacings) further right plus the same drift. |
| InfiniteCarousel.ShiftedLeftKeepsScreen | js/main.js:127-133 | After `rotateLeft`, every item but the moved one shifts on screen by minus `Drift`: it stays put when the computed gap is a nonzero number, and jumps 24px left otherwise. The moved item goes from last to first, one track length (`n` spacings) further left minus the same drift. |
| InfiniteCarousel.Applied | js/main.js:144-169 | A series of rotations keeps the number of items and the difference between the two translates. |
| InfiniteCarousel.AppliedTranslate | js/main.js:120-133 | After a series of rotations, the live translate is the one `TranslateAfter` gives for the same rotations. |
| InfiniteCarousel.TranslateAfterCounts | js/main.js:123-132 | After a series of rotations, the live translate has moved by `getItemWidth` times the number of right rotations less the number of left ones. |
| InfiniteCarousel.AppliedFirst | js/main.js:144-169 | Applying a series of rotations is the first rotation followed by the rest. |
| InfiniteCarousel.AppliedKeepsItems | js/main.js:144-169 | A series of rotations keeps the same multiset of items. |
| InfiniteCarousel.GapOnLeft | js/main.js:151-156 | The first item's left edge lies more than one item width right of the container's left edge exactly when the translate exceeds `getItemWidth`. |
| InfiniteCarousel.GapOnRight | js/main.js:153-161 | The last item's right edge falls short of the container width minus one item width exactly when the translate is below that bound, less the item's width and its `offsetLeft`. |
| InfiniteCarousel.Turns | js/main.js:141-169 | The loop makes at most one rotation per pass and at most `totalItems` passes. If it stops early, it stops at a translate where the first item starts at most one item width from the left edge and the last item's right edge is at least the container width minus one item width. The loop can also alternate left and right rotations and stop after `totalItems` passes with empty space still showing (`TurnsCanAlternate`). |
| InfiniteCarousel.PassLeft | js/main.js:151-157 | A pass that sees empty space on the left rotates left, and the remaining passes continue from the rotated strip. |
| InfiniteCarousel.PassRight | js/main.js:153-162 | A pass that sees no empty space on the left but some on the right rotates right, and the remaining passes continue from the rotated strip. |
| InfiniteCarousel.PassBreak | js/main.js:144-166 | A pass that sees both edges covered leaves the strip as it is, and so does running out of passes. |
| InfiniteCarousel.Settle | js/main.js:136-170 | `checkRotation` keeps the number of items and the difference between the two translates. |
| InfiniteCarousel.SettleMeaning | js/main.js:141-169 | `checkRotation` only reorders the items and makes at most `totalItems` rotations. If it leaves through the `break`, the first item's left edge is at most one item width and the last item's right edge is at least the container width minus one item width. The loop can also alternate left and right rotations and stop after `totalItems` passes with empty space still showing (`TurnsCanAlternate`). |
| InfiniteCarousel.TurnsCanAlternate | js/main.js:144-169 | Three 300px items with a 24px gap in a 1400px container, from translate 330: the loop turns left, right, left, and stops after its three passes at translate 6 with empty space still showing on the right. |
| InfiniteCarousel.SettleIdleWhenCovered | js/main.js:156-166 | When neither edge shows empty space, `checkRotation` changes nothing. |
| InfiniteCarousel.ClosestUnique | js/main.js:100-112 | At most one index is nearest the centre with every earlier item strictly farther. |
| InfiniteCarousel.ClosestExists | js/main.js:100-112 | Every non-empty track has such a nearest index. |
| InfiniteCarousel.ClosestOf | js/main.js:100-112 | This is the nearest index, the first of equally near items (0 on an empty track). |
| InfiniteCarousel.ClosestIndex | js/main.js:97-112 | The search loop returns an index whose distance to the container's centre is minimal, with every earlier item strictly farther. The loop starts from `Infinity` and replaces the minimum only when a distance is strictly smaller. |
| InfiniteCarousel.Positioned | js/main.js:173-177 | After `setPosition`, the number of items and the difference between the translates are unchanged. Exactly one item is active, or none on an empty track. |
| InfiniteCarousel.ResizeTarget | js/main.js:273 | The resize handler picks the first active item, or item 0 when none is active. |
| InfiniteCarousel.Carousel.constructor | js/main.js:263-267 | Start-up leaves the carousel idle, with both translates at 50 and the item nearest the centre marked active. |
| InfiniteCarousel.Carousel.UpdateActiveClass | js/main.js:95-117 | `updateActiveClass` makes an item active if and only if it is nearest the container's centre, with the lowest index winning ties. Exactly one item ends active, contents are kept, and no other state changes. |
| InfiniteCarousel.Carousel.RotateRight | js/main.js:120-125 | `rotateRight` moves the first item to the end and adds one item width to both translates. |
| InfiniteCarousel.Carousel.RotateLeft | js/main.js:128-133 | `rotateLeft` moves the last item to the front and subtracts one item width from both translates. |
| InfiniteCarousel.Carousel.CheckRotation | js/main.js:136-170 | The loop leaves the strip exactly as `Settle` describes and does not touch the drag state. |
| InfiniteCarousel.Carousel.SetPosition | js/main.js:173-177 | `setPosition` runs the rotation loop and then `updateActiveClass`, keeping `Valid`. |
| InfiniteCarousel.Carousel.DragStart | js/main.js:180-185 | A mouse press (and a touch start, lines 204-208) starts a drag at the press position (`pageX`) and changes nothing else. |
| InfiniteCarousel.Carousel.DragMove | js/main.js:187-194 | A move outside a drag changes nothing. During a drag, the live translate first becomes the committed one plus the horizontal travel since the press, and then `setPosition` runs. The touch move at lines 210-216 does the same. |
| InfiniteCarousel.Carousel.DragEnd | js/main.js:196-201 | A mouse release (and `mouseleave` or a touch end, lines 218-228) outside a drag changes nothing. Otherwise it ends the drag and commits the live translate, leaving the items untouched. |
| InfiniteCarousel.Carousel.Click | js/main.js:241-251 | A click outside every item changes nothing. A click on an item moves the live translate by the distance from the item's track-relative centre to the container's centre and commits it. Items and drag state are untouched. |
| InfiniteCarousel.Carousel.Resize | js/main.js:270-278 | On resize, the active item (or the first item when none is active) is recentred the same way as a click, and the translate is committed. |
| InfiniteCarousel.Init | js/main.js:70-73 | Nothing is set up when the container or the track is missing. Otherwise a fresh, idle, valid carousel is created, with `startX` 0, both translates at 50 and the items marked around the one nearest the centre. |

## Left out

- Page layout: `offsetWidth`, `offsetLeft`, `getComputedStyle` and `querySelectorAll` are not modelled. Each handler receives the values it would read as a `Metrics` parameter, and the layout is taken to be fixed while one handler runs.
- Item widths: the laid-out width of an item is taken to be exactly its `offsetWidth`. The browser rounds `offsetWidth` and `offsetLeft` to whole pixels, so a fractional width would make `getItemWidth` differ from the real spacing by the rounding, and each rotation would shift items by that amount. The model does not capture this.
- Item positions: items are taken to have one common width. Item `i`'s `offsetLeft` is then `i` times the width plus the computed gap, and a gap that is not a number is taken to be laid out as 0.
- DOM writes are not modelled, because they do not change the state the model tracks. These include the `transform`, `cursor` and `transition` strings, `preventDefault`, and the image `dragstart` suppression.
- Event listener registration is not modelled. Mouse and touch handlers do the same state updates, so each pair is one method. `mouseleave` is bound to the release handler.
- The click's 300ms `setTimeout` is not modelled as a timer. Its body, `checkRotation` followed by `updateActiveClass`, is `Carousel.SetPosition`, which a caller runs after `Click`.
- CheckRotation and Resize on an empty track: the source throws a `TypeError` (in `checkRotation`, `getItemWidth` reads `offsetWidth` of a missing item; in the resize handler, it reads `offsetLeft` of one) before changing any state. The model treats these calls as doing nothing, and ignores the skipped rest of `setPosition`, which would also do nothing on an empty track.
- Floating-point rounding is not modelled: pixel values are exact reals. NaN and infinite widths are also excluded; only the gap's NaN is modelled.
- `initSmoothScroll` and `initFlipCards` in `js/main.js` are not part of this model. They are floating-point scroll animation and a single class toggle.
- `projects/caprimaid/js/main.js` is not part of this model. It is a Three.js scene, a render loop and fade-in observers.
