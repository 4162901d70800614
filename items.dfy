/** The track's children: an ordered list of items, each carrying its content and
    whether it has the `active` class. Rotations move whole elements, so an item's
    class travels with it. */
module Items {

  datatype Option<T> = None | Some(value: T)

  /** One `.carousel-item` element: the content it shows and its `active` class. */
  datatype Item = Item(id: int, active: bool)

  /** `track.appendChild(track.firstElementChild)`: the first item moves to the end. */
  function RotatedRight<T>(s: seq<T>): (r: seq<T>)
    ensures |r| == |s|
  {
    if s == [] then [] else s[1..] + [s[0]]
  }

  /** `track.insertBefore(track.lastElementChild, track.firstChild)`: the last item
      moves to the front. */
  function RotatedLeft<T>(s: seq<T>): (r: seq<T>)
    ensures |r| == |s|
  {
    if s == [] then [] else [s[|s| - 1]] + s[..|s| - 1]
  }

  /** A right rotation puts the old first item last and moves every other item
      down one place, keeping the same items. */
  lemma RotatedRightMoves<T>(s: seq<T>)
    ensures multiset(RotatedRight(s)) == multiset(s)
    ensures s != [] ==> RotatedRight(s)[|s| - 1] == s[0]
    ensures forall k :: 0 <= k < |s| - 1 ==> RotatedRight(s)[k] == s[k + 1]
  {
    if s != [] {
      assert s == [s[0]] + s[1..];
    }
  }

  /** A left rotation puts the old last item first and moves every other item up
      one place, keeping the same items. */
  lemma RotatedLeftMoves<T>(s: seq<T>)
    ensures multiset(RotatedLeft(s)) == multiset(s)
    ensures s != [] ==> RotatedLeft(s)[0] == s[|s| - 1]
    ensures forall k :: 0 <= k < |s| - 1 ==> RotatedLeft(s)[k + 1] == s[k]
  {
    if s != [] {
      assert s == s[..|s| - 1] + [s[|s| - 1]];
    }
  }

  /** Each rotation undoes the other. */
  lemma RotationsAreInverse<T>(s: seq<T>)
    ensures RotatedLeft(RotatedRight(s)) == s
    ensures RotatedRight(RotatedLeft(s)) == s
  {
    var n := |s|;
    RotatedRightMoves(s);
    RotatedLeftMoves(s);
    RotatedLeftMoves(RotatedRight(s));
    RotatedRightMoves(RotatedLeft(s));
    var rl := RotatedLeft(RotatedRight(s));
    forall k | 0 <= k < n ensures rl[k] == s[k] {
      if k > 0 {
        assert rl[k] == RotatedRight(s)[k - 1];
      }
    }
    var lr := RotatedRight(RotatedLeft(s));
    forall k | 0 <= k < n ensures lr[k] == s[k] {
      if k < n - 1 {
        assert lr[k] == RotatedLeft(s)[k + 1];
      }
    }
  }

  /** The number of items with the `active` class. */
  function ActiveCount(s: seq<Item>): (r: nat)
    ensures r <= |s|
  {
    if s == [] then 0 else (if s[0].active then 1 else 0) + ActiveCount(s[1..])
  }

  lemma {:induction false} ActiveCountAppend(a: seq<Item>, b: seq<Item>)
    ensures ActiveCount(a + b) == ActiveCount(a) + ActiveCount(b)
  {
    if a == [] {
      assert a + b == b;
    } else {
      assert (a + b)[1..] == a[1..] + b;
      ActiveCountAppend(a[1..], b);
    }
  }

  /** Rotating the track neither adds nor removes an `active` class. */
  lemma RotationsKeepActiveCount(s: seq<Item>)
    ensures ActiveCount(RotatedRight(s)) == ActiveCount(s)
    ensures ActiveCount(RotatedLeft(s)) == ActiveCount(s)
  {
    if s != [] {
      var n := |s|;
      assert s == [s[0]] + s[1..];
      ActiveCountAppend([s[0]], s[1..]);
      ActiveCountAppend(s[1..], [s[0]]);
      assert s == s[..n - 1] + [s[n - 1]];
      ActiveCountAppend(s[..n - 1], [s[n - 1]]);
      ActiveCountAppend([s[n - 1]], s[..n - 1]);
    }
  }

  /** A list in which no item is active counts none. */
  lemma {:induction false} NoneActiveCountsZero(s: seq<Item>)
    requires forall k :: 0 <= k < |s| ==> !s[k].active
    ensures ActiveCount(s) == 0
  {
    if s != [] {
      NoneActiveCountsZero(s[1..]);
    }
  }

  /** A list in which exactly the item at `ci` is active counts one. */
  lemma {:induction false} OnlyOneActive(s: seq<Item>, ci: nat)
    requires ci < |s|
    requires forall k :: 0 <= k < |s| ==> (s[k].active <==> k == ci)
    ensures ActiveCount(s) == 1
  {
    if ci == 0 {
      NoneActiveCountsZero(s[1..]);
    } else {
      OnlyOneActive(s[1..], ci - 1);
    }
  }

  /** `classList.toggle('active', index === closestIndex)` applied to every item. */
  function Marked(s: seq<Item>, ci: int): (r: seq<Item>)
    ensures |r| == |s|
    ensures forall k :: 0 <= k < |s| ==> r[k].id == s[k].id && (r[k].active <==> k == ci)
    ensures 0 <= ci < |s| ==> ActiveCount(r) == 1
    ensures !(0 <= ci < |s|) ==> ActiveCount(r) == 0
  {
    var r := seq(|s|, k requires 0 <= k < |s| => s[k].(active := k == ci));
    if 0 <= ci < |s| then
      OnlyOneActive(r, ci);
      r
    else
      NoneActiveCountsZero(r);
      r
  }

  /** `items.find(item => item.classList.contains('active'))`: the index of the
      first active item, if there is one. */
  function FirstActive(s: seq<Item>): (r: Option<nat>)
    ensures r.Some? ==> r.value < |s| && s[r.value].active
    ensures r.Some? ==> forall j :: 0 <= j < r.value ==> !s[j].active
    ensures r.None? ==> forall j :: 0 <= j < |s| ==> !s[j].active
  {
    if s == [] then None
    else if s[0].active then Some(0)
    else match FirstActive(s[1..])
      case None => None
      case Some(k) => Some(k + 1)
  }

  /** The search for the active item comes back empty exactly when no item is active. */
  lemma {:induction false} FirstActiveFindsAny(s: seq<Item>)
    ensures FirstActive(s).None? <==> ActiveCount(s) == 0
  {
    if s != [] && !s[0].active {
      FirstActiveFindsAny(s[1..]);
    }
  }
}
