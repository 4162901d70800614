/** Geometry of the carousel. Every handler reads the page layout afresh; here the
    values it reads are a `Metrics` parameter. Item widths are uniform, so item `i`
    of the track sits `i` spacings (width plus the laid-out gap) from the track's
    left edge. */
module Layout {

  /** What `parseFloat` makes of the track's computed `gap`: a number or NaN. */
  datatype Gap = Px(value: real) | NotANumber

  /** The metrics one handler reads: an item's `offsetWidth`, the track's gap and
      the container's `offsetWidth`. */
  datatype Metrics = Metrics(itemWidth: real, gap: Gap, containerWidth: real)

  /** The fallback gap, used when the computed gap is falsy. */
  const DefaultGap: real := 24.0

  /** `parseFloat(gap) || 24`: both 0 and NaN are falsy and fall back to 24. */
  function EffectiveGap(g: Gap): (r: real)
    ensures r != 0.0
    ensures r == DefaultGap <==> (g.NotANumber? || g.value == 0.0 || g.value == DefaultGap)
    ensures g.Px? && g.value != 0.0 ==> r == g.value
  {
    match g
    case NotANumber => DefaultGap
    case Px(v) => if v == 0.0 then DefaultGap else v
  }

  /** `getItemWidth`: the width of one item plus the effective gap, the amount a
      rotation moves both translates by. It is never the bare item width. */
  function Pitch(m: Metrics): (r: real)
    ensures r != m.itemWidth
    ensures m.gap.Px? && m.gap.value != 0.0 ==> r == m.itemWidth + m.gap.value
    ensures m.gap.NotANumber? || m.gap.value == 0.0 ==> r == m.itemWidth + DefaultGap
  {
    m.itemWidth + EffectiveGap(m.gap)
  }

  /** The distance the browser lays out between the left edges of two neighbouring
      items: the item width plus the gap it actually applies, which is 0 when the
      computed gap is not a number (`normal`). */
  function Spacing(m: Metrics): real
  {
    match m.gap
    case NotANumber => m.itemWidth
    case Px(v) => m.itemWidth + v
  }

  /** How far `getItemWidth` overshoots the real spacing: nothing when the computed
      gap is a nonzero number, the 24px fallback otherwise. */
  function Drift(m: Metrics): (r: real)
    ensures r == 0.0 <==> m.gap.Px? && m.gap.value != 0.0
    ensures r == 0.0 || r == DefaultGap
  {
    Pitch(m) - Spacing(m)
  }

  /** `offsetLeft` of the item at `index`: `index` spacings, counted one at a time. */
  function Offset(index: nat, pitch: real): real
  {
    if index == 0 then 0.0 else Offset(index - 1, pitch) + pitch
  }

  /** The offset is the index times the spacing. */
  lemma {:induction false} OffsetIsProduct(index: nat, pitch: real)
    ensures Offset(index, pitch) == (index as real) * pitch
  {
    if index > 0 {
      OffsetIsProduct(index - 1, pitch);
      assert (index as real) * pitch == ((index - 1) as real) * pitch + pitch;
    }
  }

  /** The gap between two offsets is the difference of the indices times the spacing. */
  lemma {:induction false} OffsetDifference(a: nat, b: nat, pitch: real)
    ensures Offset(a, pitch) - Offset(b, pitch) == ((a as int - b as int) as real) * pitch
  {
    OffsetIsProduct(a, pitch);
    OffsetIsProduct(b, pitch);
    assert (a as real) * pitch - (b as real) * pitch == ((a as real) - (b as real)) * pitch;
  }

  /** On-screen left edge of the item at `index` under translate `t`:
      its `offsetLeft` plus the track's translate. */
  function ScreenLeft(m: Metrics, index: nat, t: real): real
  {
    Offset(index, Spacing(m)) + t
  }

  /** On-screen centre of the item at `index` under translate `t`. */
  function ScreenCentre(m: Metrics, index: nat, t: real): real
  {
    ScreenLeft(m, index, t) + m.itemWidth / 2.0
  }

  function Abs(x: real): (r: real)
    ensures r >= 0.0 && (r == x || r == -x)
  {
    if x < 0.0 then -x else x
  }

  /** `Math.abs(containerCenter - itemCenter)` for the item at `index`: never
      negative, and zero exactly when the item is centred on screen. */
  function Distance(m: Metrics, index: nat, t: real): (r: real)
    ensures r >= 0.0
    ensures r == 0.0 <==> ScreenCentre(m, index, t) == m.containerWidth / 2.0
  {
    Abs(m.containerWidth / 2.0 - ScreenCentre(m, index, t))
  }

  /** The translate that the click and resize handlers compute for the item at
      `index`: the current translate plus the distance from the item's
      track-relative centre to the container's centre. Because that centre ignores
      the translate already applied, the item's on-screen centre ends at the
      container's centre shifted by the old translate, not at the container's
      centre itself. */
  function Recentred(m: Metrics, index: nat, t: real): (r: real)
    ensures ScreenCentre(m, index, r) == m.containerWidth / 2.0 + t
  {
    var containerCenter := m.containerWidth / 2.0;
    var itemCenter := Offset(index, Spacing(m)) + m.itemWidth / 2.0;
    containerCenter - itemCenter + t
  }

  /** The recentred item lands exactly on the container's centre only when the
      translate before the update was zero. */
  lemma RecentredIsCentredOnlyFromZero(m: Metrics, index: nat, t: real)
    ensures ScreenCentre(m, index, Recentred(m, index, t)) == m.containerWidth / 2.0 <==> t == 0.0
  {
  }
}
