/** The drag-to-scroll carousel of `initCarousel` (js/main.js), the version without
    cloned items. Its closure state is the class `Carousel`; the illusion of an
    endless track comes from moving the first item to the end (or the last to the
    front) and shifting the translate by one item width. Every item but the moved
    one keeps its on-screen place (or shifts 24px when the computed gap is 0 or not
    a number); the moved item jumps one track length, which takes it off screen
    only when the track is long enough. */
module InfiniteCarousel {
  import opened Layout
  import opened Items

  /** The translate applied at start-up: a 50px margin on the left. */
  const InitialTranslate: real := 50.0

  /** What the rotation loop reads and changes: the items in track order, the live
      translate (`currentTranslate`) and the committed one (`prevTranslate`). */
  datatype Strip = Strip(items: seq<Item>, current: real, prev: real)

  /** `rotateRight` on the strip: first item to the end, both translates up one item width. */
  function ShiftedRight(m: Metrics, s: Strip): (r: Strip)
    ensures |r.items| == |s.items|
    ensures r.current - r.prev == s.current - s.prev
  {
    Strip(RotatedRight(s.items), s.current + Pitch(m), s.prev + Pitch(m))
  }

  /** `rotateLeft` on the strip: last item to the front, both translates down one item width. */
  function ShiftedLeft(m: Metrics, s: Strip): (r: Strip)
    ensures |r.items| == |s.items|
    ensures r.current - r.prev == s.current - s.prev
  {
    Strip(RotatedLeft(s.items), s.current - Pitch(m), s.prev - Pitch(m))
  }

  /** Rotating one way and then the other restores the item order and both translates. */
  lemma ShiftsAreInverse(m: Metrics, s: Strip)
    ensures ShiftedLeft(m, ShiftedRight(m, s)) == s
    ensures ShiftedRight(m, ShiftedLeft(m, s)) == s
  {
    RotationsAreInverse(s.items);
    var w := Pitch(m);
    var r, l := ShiftedRight(m, s), ShiftedLeft(m, s);
    assert r.current == s.current + w && r.prev == s.prev + w;
    assert l.current == s.current - w && l.prev == s.prev - w;
    var lr := ShiftedLeft(m, r);
    assert lr.items == s.items && lr.current == s.current && lr.prev == s.prev;
    var rl := ShiftedRight(m, l);
    assert rl.items == s.items && rl.current == s.current && rl.prev == s.prev;
  }

  /** After `rotateRight` every item but the moved one shifts on screen by `Drift`:
      it stays put when the computed gap is a nonzero number and jumps 24px right
      otherwise. The moved one goes from the front to one track length (`n`
      spacings) further right, plus the same drift. */
  lemma ShiftedRightKeepsScreen(m: Metrics, s: Strip)
    requires s.items != []
    ensures var r, n := ShiftedRight(m, s), |s.items|;
      (forall k :: 1 <= k < n ==>
         r.items[k - 1] == s.items[k] && ScreenLeft(m, k - 1, r.current) == ScreenLeft(m, k, s.current) + Drift(m)) &&
      r.items[n - 1] == s.items[0] &&
      ScreenLeft(m, n - 1, r.current) == ScreenLeft(m, 0, s.current) + Offset(n, Spacing(m)) + Drift(m)
  {
    RotatedRightMoves(s.items);
  }

  /** After `rotateLeft` every item but the moved one shifts on screen by minus
      `Drift`: it stays put when the computed gap is a nonzero number and jumps 24px
      left otherwise. The moved one goes from the end to one track length (`n`
      spacings) further left, minus the same drift. */
  lemma ShiftedLeftKeepsScreen(m: Metrics, s: Strip)
    requires s.items != []
    ensures var r, n := ShiftedLeft(m, s), |s.items|;
      (forall k :: 0 <= k < n - 1 ==>
         r.items[k + 1] == s.items[k] && ScreenLeft(m, k + 1, r.current) == ScreenLeft(m, k, s.current) - Drift(m)) &&
      r.items[0] == s.items[n - 1] &&
      ScreenLeft(m, 0, r.current) == ScreenLeft(m, n - 1, s.current) - Offset(n, Spacing(m)) - Drift(m)
  {
    RotatedLeftMoves(s.items);
  }

  /** The direction of one rotation: `rotateLeft` brings the last item to the front,
      `rotateRight` sends the first item to the back. */
  datatype Turn = TurnLeft | TurnRight

  /** One rotation applied to the strip. */
  function Shifted(m: Metrics, turn: Turn, s: Strip): Strip
  {
    match turn
    case TurnLeft => ShiftedLeft(m, s)
    case TurnRight => ShiftedRight(m, s)
  }

  /** How much one rotation moves both translates. */
  function TurnShift(m: Metrics, turn: Turn): real
  {
    match turn
    case TurnLeft => -Pitch(m)
    case TurnRight => Pitch(m)
  }

  /** The live translate after a series of rotations. */
  function TranslateAfter(m: Metrics, turns: seq<Turn>, current: real): real
  {
    if turns == [] then current else TranslateAfter(m, turns[1..], current + TurnShift(m, turns[0]))
  }

  /** A series of rotations applied to the strip, one after the other. */
  function Applied(m: Metrics, turns: seq<Turn>, s: Strip): (r: Strip)
    ensures |r.items| == |s.items|
    ensures r.current - r.prev == s.current - s.prev
  {
    if turns == [] then s else Applied(m, turns[1..], Shifted(m, turns[0], s))
  }

  /** The live translate after the rotations is the one `TranslateAfter` predicts. */
  lemma {:induction false} AppliedTranslate(m: Metrics, turns: seq<Turn>, s: Strip)
    ensures Applied(m, turns, s).current == TranslateAfter(m, turns, s.current)
  {
    if turns != [] {
      AppliedTranslate(m, turns[1..], Shifted(m, turns[0], s));
    }
  }

  /** The live translate after a series of rotations, counted as offsets: as many
      item widths up as there are right rotations, as many down as left ones. */
  lemma {:induction false} TranslateAfterOffsets(m: Metrics, turns: seq<Turn>, current: real)
    ensures TranslateAfter(m, turns, current)
         == current + Offset(multiset(turns)[TurnRight], Pitch(m)) - Offset(multiset(turns)[TurnLeft], Pitch(m))
  {
    if turns != [] {
      var rest := turns[1..];
      assert turns == [turns[0]] + rest;
      assert multiset(turns) == multiset{turns[0]} + multiset(rest);
      TranslateAfterOffsets(m, rest, current + TurnShift(m, turns[0]));
    }
  }

  /** The live translate after a series of rotations, in closed form: the item
      width times the number of right rotations less the number of left ones. */
  lemma {:induction false} TranslateAfterCounts(m: Metrics, turns: seq<Turn>, current: real)
    ensures TranslateAfter(m, turns, current)
         == current + ((multiset(turns)[TurnRight] as int - multiset(turns)[TurnLeft] as int) as real) * Pitch(m)
  {
    var rights, lefts, w := multiset(turns)[TurnRight], multiset(turns)[TurnLeft], Pitch(m);
    TranslateAfterOffsets(m, turns, current);
    OffsetDifference(rights, lefts, w);
  }

  /** Applying a first rotation and then the rest. */
  lemma AppliedFirst(m: Metrics, turn: Turn, rest: seq<Turn>, s: Strip)
    ensures Applied(m, [turn] + rest, s) == Applied(m, rest, Shifted(m, turn, s))
  {
    assert ([turn] + rest)[1..] == rest;
  }

  /** Rotations keep the same items, only reordered. */
  lemma {:induction false} AppliedKeepsItems(m: Metrics, turns: seq<Turn>, s: Strip)
    ensures multiset(Applied(m, turns, s).items) == multiset(s.items)
  {
    if turns != [] {
      RotatedLeftMoves(s.items);
      RotatedRightMoves(s.items);
      AppliedKeepsItems(m, turns[1..], Shifted(m, turns[0], s));
    }
  }

  /** Empty space shows on the left: the first item (`offsetLeft` 0) starts more than
      one item width from the container's left edge. */
  predicate GapOnLeft(m: Metrics, current: real): (b: bool)
    ensures b <==> current > Pitch(m)
  {
    ScreenLeft(m, 0, current) > Pitch(m)
  }

  /** Empty space shows on the right: the last of `n` items ends more than one item
      width before the container's right edge. */
  predicate GapOnRight(m: Metrics, n: nat, current: real): (b: bool)
    requires n > 0
    ensures b <==> current < m.containerWidth - Pitch(m) - m.itemWidth - Offset(n - 1, Spacing(m))
  {
    ScreenLeft(m, n - 1, current) + m.itemWidth < m.containerWidth - Pitch(m)
  }

  /** The rotations the loop of `checkRotation` performs on `n` items from translate
      `current`, with `fuel` passes left: one rotation per pass (left when empty space
      shows on the left, otherwise right when it shows on the right), stopping at the
      first pass that finds both edges covered. Which way each pass turns depends only
      on the number of items and the translate, never on the items themselves. */
  function Turns(m: Metrics, n: nat, current: real, fuel: nat): (r: seq<Turn>)
    requires n > 0
    ensures |r| <= fuel
    ensures |r| < fuel ==>
      !GapOnLeft(m, TranslateAfter(m, r, current)) && !GapOnRight(m, n, TranslateAfter(m, r, current))
    decreases fuel
  {
    if fuel == 0 then []
    else if GapOnLeft(m, current) then
      var rest := Turns(m, n, current - Pitch(m), fuel - 1);
      assert ([TurnLeft] + rest)[1..] == rest;
      [TurnLeft] + rest
    else if GapOnRight(m, n, current) then
      var rest := Turns(m, n, current + Pitch(m), fuel - 1);
      assert ([TurnRight] + rest)[1..] == rest;
      [TurnRight] + rest
    else []
  }

  /** What the remaining `fuel` passes of the rotation loop make of the strip. */
  function Remaining(m: Metrics, s: Strip, fuel: nat): Strip
    requires s.items != []
  {
    Applied(m, Turns(m, |s.items|, s.current, fuel), s)
  }

  /** A pass that finds empty space on the left rotates left and leaves the rest of
      the passes to the rotated strip `r`. */
  lemma PassLeft(m: Metrics, s: Strip, r: Strip, fuel: nat)
    requires s.items != [] && fuel > 0 && GapOnLeft(m, s.current)
    requires r == ShiftedLeft(m, s)
    ensures Remaining(m, s, fuel) == Remaining(m, r, fuel - 1)
  {
    var rest := Turns(m, |s.items|, s.current - Pitch(m), fuel - 1);
    assert Turns(m, |s.items|, s.current, fuel) == [TurnLeft] + rest;
    AppliedFirst(m, TurnLeft, rest, s);
  }

  /** A pass that finds empty space only on the right rotates right and leaves the
      rest of the passes to the rotated strip `r`. */
  lemma PassRight(m: Metrics, s: Strip, r: Strip, fuel: nat)
    requires s.items != [] && fuel > 0 && !GapOnLeft(m, s.current) && GapOnRight(m, |s.items|, s.current)
    requires r == ShiftedRight(m, s)
    ensures Remaining(m, s, fuel) == Remaining(m, r, fuel - 1)
  {
    var rest := Turns(m, |s.items|, s.current + Pitch(m), fuel - 1);
    assert Turns(m, |s.items|, s.current, fuel) == [TurnRight] + rest;
    AppliedFirst(m, TurnRight, rest, s);
  }

  /** A pass that finds both edges covered ends the loop, leaving the strip as it is;
      so does running out of passes. */
  lemma PassBreak(m: Metrics, s: Strip, fuel: nat)
    requires s.items != []
    requires fuel == 0 || (!GapOnLeft(m, s.current) && !GapOnRight(m, |s.items|, s.current))
    ensures Remaining(m, s, fuel) == s
  {
    assert Turns(m, |s.items|, s.current, fuel) == [];
  }

  /** `checkRotation` as a function of the strip: at most one rotation per item.
      An empty track is left alone (there `getItemWidth` throws first). */
  function Settle(m: Metrics, s: Strip): (r: Strip)
    ensures |r.items| == |s.items|
    ensures r.current - r.prev == s.current - s.prev
  {
    if s.items == [] then s else Applied(m, Turns(m, |s.items|, s.current, |s.items|), s)
  }

  /** What the rotation loop promises: the same items, only reordered; at most one
      rotation per item; and, unless it ran out of passes, neither edge showing
      empty space. */
  lemma SettleMeaning(m: Metrics, s: Strip)
    requires s.items != []
    ensures multiset(Settle(m, s).items) == multiset(s.items)
    ensures var n := |s.items|; var turns := Turns(m, n, s.current, n);
      |turns| <= n &&
      Settle(m, s) == Applied(m, turns, s) &&
      (|turns| < n ==> !GapOnLeft(m, Settle(m, s).current) && !GapOnRight(m, n, Settle(m, s).current))
  {
    AppliedKeepsItems(m, Turns(m, |s.items|, s.current, |s.items|), s);
    AppliedTranslate(m, Turns(m, |s.items|, s.current, |s.items|), s);
  }

  /** The loop can alternate directions and run out of passes with empty space
      still showing: three 300px items with a 24px gap in a 1400px container, from
      translate 330, turn left, right, left and stop at translate 6, where the right
      edge still shows empty space. */
  lemma TurnsCanAlternate()
    ensures var m := Metrics(300.0, Px(24.0), 1400.0);
      Turns(m, 3, 330.0, 3) == [TurnLeft, TurnRight, TurnLeft] &&
      TranslateAfter(m, [TurnLeft, TurnRight, TurnLeft], 330.0) == 6.0 &&
      GapOnRight(m, 3, 6.0)
  {
    var m := Metrics(300.0, Px(24.0), 1400.0);
    assert Pitch(m) == 324.0 && Spacing(m) == 324.0;
    assert Offset(2, 324.0) == 648.0;
    assert Turns(m, 3, 6.0, 0) == [];
    assert Turns(m, 3, 330.0, 1) == [TurnLeft];
    assert Turns(m, 3, 6.0, 2) == [TurnRight, TurnLeft];
    assert TranslateAfter(m, [TurnLeft], 330.0) == 6.0;
    assert TranslateAfter(m, [TurnRight, TurnLeft], 6.0) == 6.0;
  }

  /** A rotation loop that does nothing: when neither edge shows empty space the
      strip is left exactly as it was. */
  lemma SettleIdleWhenCovered(m: Metrics, s: Strip)
    requires s.items != []
    requires ScreenLeft(m, 0, s.current) <= Pitch(m)
    requires ScreenLeft(m, |s.items| - 1, s.current) + m.itemWidth >= m.containerWidth - Pitch(m)
    ensures Settle(m, s) == s
  {
  }

  /** `k` is the index `updateActiveClass` picks among `n` items under translate `t`:
      its centre is nearest the container's centre, and every earlier item is
      strictly farther (the strict `<` keeps the first of equally near items). */
  ghost predicate IsClosest(m: Metrics, n: nat, t: real, k: nat)
  {
    k < n &&
    (forall j :: 0 <= j < n ==> Distance(m, k, t) <= Distance(m, j, t)) &&
    (forall j :: 0 <= j < k ==> Distance(m, k, t) < Distance(m, j, t))
  }

  /** At most one index is the closest. */
  lemma ClosestUnique(m: Metrics, n: nat, t: real, a: nat, b: nat)
    requires IsClosest(m, n, t, a) && IsClosest(m, n, t, b)
    ensures a == b
  {
    assert a < b ==> Distance(m, b, t) < Distance(m, a, t);
    assert b < a ==> Distance(m, a, t) < Distance(m, b, t);
  }

  /** Among any items there is a closest one. */
  lemma {:induction false} ClosestExists(m: Metrics, n: nat, t: real)
    requires n > 0
    ensures exists k :: IsClosest(m, n, t, k)
  {
    if n == 1 {
      assert IsClosest(m, n, t, 0);
    } else {
      ClosestExists(m, n - 1, t);
      var k :| IsClosest(m, n - 1, t, k);
      if Distance(m, n - 1, t) < Distance(m, k, t) {
        assert IsClosest(m, n, t, n - 1);
      } else {
        assert IsClosest(m, n, t, k);
      }
    }
  }

  /** The closest index, as a specification (0 when there are no items). */
  ghost function ClosestOf(m: Metrics, n: nat, t: real): (k: nat)
    ensures n > 0 ==> IsClosest(m, n, t, k)
    ensures n == 0 ==> k == 0
  {
    if n == 0 then 0
    else
      ClosestExists(m, n, t);
      var k: nat :| IsClosest(m, n, t, k);
      k
  }

  /** The search loop of `updateActiveClass`: the running minimum starts at
      `Infinity` (here: `found` is false) and is replaced only by a strictly
      smaller distance. */
  method ClosestIndex(m: Metrics, n: nat, t: real) returns (closestIndex: nat)
    ensures n > 0 ==> IsClosest(m, n, t, closestIndex)
    ensures n == 0 ==> closestIndex == 0
  {
    var containerCenter := m.containerWidth / 2.0;
    closestIndex := 0;
    var closestDistance := 0.0;
    var found := false;
    var index := 0;
    while index < n
      invariant 0 <= index <= n
      invariant found <==> index > 0
      invariant found ==> closestIndex < index && closestDistance == Distance(m, closestIndex, t)
      invariant !found ==> closestIndex == 0
      invariant forall j :: 0 <= j < index ==> closestDistance <= Distance(m, j, t)
      invariant forall j :: 0 <= j < closestIndex ==> closestDistance < Distance(m, j, t)
    {
      var itemLeft := Offset(index, Spacing(m)) + t;
      var itemCenter := itemLeft + m.itemWidth / 2.0;
      var distance := Abs(containerCenter - itemCenter);
      assert distance == Distance(m, index, t);
      if !found || distance < closestDistance {
        closestDistance := distance;
        closestIndex := index;
      }
      found := true;
      index := index + 1;
    }
  }

  /** What `setPosition` leaves behind: the rotation loop, then the items re-marked
      around the item nearest the centre. */
  ghost function Positioned(m: Metrics, s: Strip): (r: Strip)
    ensures |r.items| == |s.items|
    ensures r.current - r.prev == s.current - s.prev
    ensures ActiveCount(r.items) == (if s.items == [] then 0 else 1)
  {
    var settled := Settle(m, s);
    settled.(items := Marked(settled.items, ClosestOf(m, |settled.items|, settled.current)))
  }

  /** The item the resize handler recentres: the first active one, or the first item
      when none is active. */
  function ResizeTarget(s: seq<Item>): (r: nat)
    requires s != []
    ensures r < |s|
    ensures ActiveCount(s) > 0 ==> s[r].active && forall j :: 0 <= j < r ==> !s[j].active
    ensures ActiveCount(s) == 0 ==> r == 0
  {
    FirstActiveFindsAny(s);
    match FirstActive(s)
    case Some(k) => k
    case None => 0
  }

  /** The closure state of `initCarousel`. */
  class Carousel {
    var isDragging: bool
    var startX: real
    var currentTranslate: real
    var prevTranslate: real
    /** The track's children, in order. */
    var items: seq<Item>

    /** Exactly one item is active (none on an empty track), and outside a drag the
        live translate is the committed one. */
    ghost predicate Valid()
      reads this
    {
      ActiveCount(items) == (if items == [] then 0 else 1) &&
      (!isDragging ==> currentTranslate == prevTranslate)
    }

    function CurrentStrip(): Strip
      reads this
    {
      Strip(items, currentTranslate, prevTranslate)
    }

    /** The start-up code: translate 50, then `updateActiveClass`. */
    constructor (initial: seq<Item>, m: Metrics)
      ensures Valid()
      ensures !isDragging && startX == 0.0
      ensures currentTranslate == InitialTranslate && prevTranslate == InitialTranslate
      ensures items == Marked(initial, ClosestOf(m, |initial|, InitialTranslate))
    {
      isDragging := false;
      startX := 0.0;
      currentTranslate := 0.0;
      prevTranslate := 0.0;
      items := initial;
      new;
      currentTranslate := InitialTranslate;
      prevTranslate := currentTranslate;
      UpdateActiveClass(m);
    }

    /** `updateActiveClass`: exactly the item nearest the container's centre gets
        the `active` class (the first of equally near ones). */
    method UpdateActiveClass(m: Metrics)
      modifies this
      ensures items == Marked(old(items), ClosestOf(m, |old(items)|, currentTranslate))
      ensures forall k :: 0 <= k < |items| ==>
        (items[k].active <==> IsClosest(m, |items|, currentTranslate, k))
      ensures ActiveCount(items) == (if items == [] then 0 else 1)
      ensures isDragging == old(isDragging) && startX == old(startX)
      ensures currentTranslate == old(currentTranslate) && prevTranslate == old(prevTranslate)
    {
      var closestIndex := ClosestIndex(m, |items|, currentTranslate);
      var index := 0;
      while index < |items|
        invariant 0 <= index <= |items| == |old(items)|
        invariant forall j :: 0 <= j < index ==> items[j] == old(items)[j].(active := j == closestIndex)
        invariant forall j :: index <= j < |items| ==> items[j] == old(items)[j]
        invariant isDragging == old(isDragging) && startX == old(startX)
        invariant currentTranslate == old(currentTranslate) && prevTranslate == old(prevTranslate)
      {
        items := items[index := items[index].(active := index == closestIndex)];
        index := index + 1;
      }
      if items != [] {
        ClosestUnique(m, |items|, currentTranslate, closestIndex, ClosestOf(m, |items|, currentTranslate));
      }
      assert items == Marked(old(items), closestIndex);
    }

    /** `rotateRight`. */
    method RotateRight(m: Metrics)
      requires items != []
      modifies this
      ensures CurrentStrip() == ShiftedRight(m, old(CurrentStrip()))
      ensures isDragging == old(isDragging) && startX == old(startX)
    {
      items := RotatedRight(items);
      currentTranslate := currentTranslate + Pitch(m);
      prevTranslate := prevTranslate + Pitch(m);
    }

    /** `rotateLeft`. */
    method RotateLeft(m: Metrics)
      requires items != []
      modifies this
      ensures CurrentStrip() == ShiftedLeft(m, old(CurrentStrip()))
      ensures isDragging == old(isDragging) && startX == old(startX)
    {
      items := RotatedLeft(items);
      currentTranslate := currentTranslate - Pitch(m);
      prevTranslate := prevTranslate - Pitch(m);
    }

    /** `checkRotation`: rotate until neither edge shows empty space, at most once
        per item. On an empty track `getItemWidth` throws before anything changes. */
    method CheckRotation(m: Metrics)
      modifies this
      ensures CurrentStrip() == Settle(m, old(CurrentStrip()))
      ensures isDragging == old(isDragging) && startX == old(startX)
    {
      if items == [] {
        return;
      }
      var containerWidth := m.containerWidth;
      var itemWidth := Pitch(m);
      var totalItems := |items|;
      ghost var target := Settle(m, CurrentStrip());
      ghost var fuel: nat := totalItems;
      var iterations := 0;
      while iterations < totalItems
        invariant 0 <= iterations <= totalItems == |items|
        invariant fuel == totalItems - iterations
        invariant Remaining(m, CurrentStrip(), fuel) == target
        invariant isDragging == old(isDragging) && startX == old(startX)
      {
        var firstItemLeft := ScreenLeft(m, 0, currentTranslate);
        var lastItemRight := ScreenLeft(m, |items| - 1, currentTranslate) + m.itemWidth;
        ghost var before := CurrentStrip();
        if firstItemLeft > itemWidth {
          RotateLeft(m);
          PassLeft(m, before, CurrentStrip(), fuel);
        } else if lastItemRight < containerWidth - itemWidth {
          RotateRight(m);
          PassRight(m, before, CurrentStrip(), fuel);
        } else {
          PassBreak(m, before, fuel);
          break;
        }
        fuel := fuel - 1;
        iterations := iterations + 1;
      }
      if iterations == totalItems {
        PassBreak(m, CurrentStrip(), 0);
      }
    }

    /** `setPosition`, and also the body the click handler defers by 300ms: the
        rotation loop, then `updateActiveClass`. */
    method SetPosition(m: Metrics)
      requires Valid()
      modifies this
      ensures Valid()
      ensures CurrentStrip() == Positioned(m, old(CurrentStrip()))
      ensures isDragging == old(isDragging) && startX == old(startX)
    {
      CheckRotation(m);
      UpdateActiveClass(m);
    }

    /** `handleMouseDown` / `handleTouchStart`. */
    method DragStart(x: real)
      requires Valid()
      modifies this
      ensures Valid()
      ensures isDragging && startX == x
      ensures CurrentStrip() == old(CurrentStrip())
    {
      isDragging := true;
      startX := x;
    }

    /** `handleMouseMove` / `handleTouchMove`: ignored outside a drag; otherwise the
        live translate becomes the committed one plus the horizontal travel since the
        press, and `setPosition` runs. */
    method DragMove(m: Metrics, x: real)
      requires Valid()
      modifies this
      ensures Valid()
      ensures !old(isDragging) ==> unchanged(this)
      ensures old(isDragging) ==> isDragging && startX == old(startX)
      ensures old(isDragging) ==>
        CurrentStrip() == Positioned(m, Strip(old(items), old(prevTranslate) + (x - old(startX)), old(prevTranslate)))
      ensures old(isDragging) ==> currentTranslate - prevTranslate == x - startX
    {
      if !isDragging {
        return;
      }
      var currentX := x;
      var diff := currentX - startX;
      currentTranslate := prevTranslate + diff;
      SetPosition(m);
    }

    /** `handleMouseUp` / `handleTouchEnd` (also bound to `mouseleave`): ignored
        outside a drag; otherwise the drag ends and the live translate is committed. */
    method DragEnd()
      requires Valid()
      modifies this
      ensures Valid()
      ensures !old(isDragging) ==> unchanged(this)
      ensures old(isDragging) ==> !isDragging && startX == old(startX)
      ensures old(isDragging) ==>
        currentTranslate == old(currentTranslate) && prevTranslate == old(currentTranslate) && items == old(items)
    {
      if !isDragging {
        return;
      }
      isDragging := false;
      prevTranslate := currentTranslate;
    }

    /** The click handler, up to the deferred `SetPosition`: a click outside every
        item does nothing; a click on item `target` shifts the translate by the
        distance from that item's track-relative centre to the container's centre
        and commits it. The item order is untouched and the drag state is not read. */
    method Click(m: Metrics, target: Option<nat>)
      requires Valid()
      requires target.Some? ==> target.value < |items|
      modifies this
      ensures Valid()
      ensures isDragging == old(isDragging) && startX == old(startX) && items == old(items)
      ensures target.None? ==> CurrentStrip() == old(CurrentStrip())
      ensures target.Some? ==>
        currentTranslate == Recentred(m, target.value, old(currentTranslate)) && prevTranslate == currentTranslate
    {
      if target.None? {
        return;
      }
      var containerWidth := m.containerWidth;
      var containerCenter := containerWidth / 2.0;
      var itemCenter := Offset(target.value, Spacing(m)) + m.itemWidth / 2.0;
      var offset := containerCenter - itemCenter;
      currentTranslate := currentTranslate + offset;
      prevTranslate := currentTranslate;
    }

    /** The resize handler: the same update as a click, on the active item (the first
        item when none is active). On an empty track it throws before changing
        anything. */
    method Resize(m: Metrics)
      requires Valid()
      modifies this
      ensures Valid()
      ensures isDragging == old(isDragging) && startX == old(startX) && items == old(items)
      ensures items == [] ==> CurrentStrip() == old(CurrentStrip())
      ensures items != [] ==> items[ResizeTarget(items)].active
      ensures items != [] ==>
        currentTranslate == Recentred(m, ResizeTarget(items), old(currentTranslate)) && prevTranslate == currentTranslate
    {
      if items == [] {
        return;
      }
      var containerWidth := m.containerWidth;
      var activeIndex := ResizeTarget(items);
      var itemCenter := Offset(activeIndex, Spacing(m)) + m.itemWidth / 2.0;
      currentTranslate := containerWidth / 2.0 - itemCenter + currentTranslate;
      prevTranslate := currentTranslate;
    }
  }

  /** `initCarousel`: nothing is set up when the container or the track is missing. */
  method Init(hasContainer: bool, hasTrack: bool, initial: seq<Item>, m: Metrics) returns (c: Carousel?)
    ensures c != null <==> hasContainer && hasTrack
    ensures c != null ==> fresh(c) && c.Valid() && !c.isDragging && c.startX == 0.0
    ensures c != null ==> c.currentTranslate == InitialTranslate && c.prevTranslate == InitialTranslate
    ensures c != null ==> c.items == Marked(initial, ClosestOf(m, |initial|, InitialTranslate))
  {
    if !hasTrack || !hasContainer {
      return null;
    }
    c := new Carousel(initial, m);
  }
}
