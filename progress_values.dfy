/**
 * What the two `StepProgressView` classes share: how `setGoal` and `setProgress` clamp their
 * argument, the `RectF` rectangles they draw into, and the geometry of `onSizeChanged`.
 * Float coordinates are modelled as exact reals.
 */
module ProgressValues {
  import opened Int32

  /** `viewPaddingFactor`: the inset of the progress ring, as a share of the square's side. */
  const ViewPaddingFactor: real := 0.06

  /** `goal = if (value > 0) value else abs(value)`: the absolute value, except that `abs(MIN) == MIN`. */
  function StoredGoal(value: int32): (goal: int32)
    ensures value != MIN ==> goal >= 0 && (goal == value || goal == -value)
    ensures value == MIN ==> goal == MIN
    ensures goal == 0 <==> value == 0
  {
    if value > 0 then value else Abs(value)
  }

  /** `progress = if (value < 0) 0 else value`: the larger of the value and zero. */
  function StoredProgress(value: int32): (progress: int32)
    ensures progress >= 0 && progress >= value
    ensures progress == value || progress == 0
  {
    if value < 0 then 0 else value
  }

  /** Storing an already stored value changes nothing. */
  lemma StoredValuesIdempotent(value: int32)
    ensures StoredGoal(StoredGoal(value)) == StoredGoal(value)
    ensures StoredProgress(StoredProgress(value)) == StoredProgress(value)
  {
  }

  /** `RectF(left, top, right, bottom)`. */
  datatype RectF = RectF(left: real, top: real, right: real, bottom: real)

  const EmptyRect: RectF := RectF(0.0, 0.0, 0.0, 0.0)

  function Width(r: RectF): real { r.right - r.left }

  function Height(r: RectF): real { r.bottom - r.top }

  /** The rectangle moved inwards by `d` on every side. */
  function Inset(r: RectF, d: real): (s: RectF)
    ensures Width(s) == Width(r) - 2.0 * d && Height(s) == Height(r) - 2.0 * d
    ensures s.left + s.right == r.left + r.right && s.top + s.bottom == r.top + r.bottom
  {
    RectF(r.left + d, r.top + d, r.right - d, r.bottom - d)
  }

  function Min(a: int, b: int): (m: int)
    ensures m <= a && m <= b && (m == a || m == b)
  {
    if a <= b then a else b
  }

  /**
   * The background square of the root-package view: side `min(w, h)`, centred on the middle of
   * the view, `(w / 2.0, h / 2.0)`, computed in floating point.
   */
  function CenteredSquare(w: int, h: int): (r: RectF)
    ensures Width(r) == Min(w, h) as real && Height(r) == Min(w, h) as real
    ensures r.left + r.right == w as real && r.top + r.bottom == h as real
  {
    var halfSize := Min(w, h) as real / 2.0;
    RectF(w as real / 2.0 - halfSize, h as real / 2.0 - halfSize, w as real / 2.0 + halfSize, h as real / 2.0 + halfSize)
  }

  /** The view's padding in pixels; `paddingStart`/`paddingEnd` are left/right or, right to left, the reverse. */
  datatype Padding = Padding(left: int, top: int, right: int, bottom: int, rightToLeft: bool)
  {
    function Start(): int { if rightToLeft then right else left }
    function End(): int { if rightToLeft then left else right }
  }

  /** `availableWidth = w - paddingStart - paddingEnd`. */
  function AvailableWidth(w: int, p: Padding): (aw: int)
    ensures aw == w - p.left - p.right
  {
    w - p.Start() - p.End()
  }

  /** `availableHeight = h - paddingTop - paddingBottom`. */
  function AvailableHeight(h: int, p: Padding): (ah: int)
    ensures ah + p.top + p.bottom == h
    ensures p.top >= 0 && p.bottom >= 0 ==> ah <= h
  {
    h - p.top - p.bottom
  }

  /**
   * The background square of the `ui` view, in whole pixels: its side is the smaller available
   * extent and its corner is `available / 2 - side / 2 + padding` with Kotlin's truncating division.
   */
  function PaddedSquare(w: int, h: int, p: Padding): (r: RectF)
    ensures var side := Min(AvailableWidth(w, p), AvailableHeight(h, p));
      && Width(r) == side as real && Height(r) == side as real
      && r.left == (TruncDiv(AvailableWidth(w, p), 2) - TruncDiv(side, 2) + p.left) as real
      && r.top == (TruncDiv(AvailableHeight(h, p), 2) - TruncDiv(side, 2) + p.top) as real
  {
    var availableWidth, availableHeight := AvailableWidth(w, p), AvailableHeight(h, p);
    var side := Min(availableWidth, availableHeight);
    var left := TruncDiv(availableWidth, 2) - TruncDiv(side, 2) + p.left;
    var top := TruncDiv(availableHeight, 2) - TruncDiv(side, 2) + p.top;
    RectF(left as real, top as real, (left + side) as real, (top + side) as real)
  }

  /** A half, rounded down, of a smaller non-negative extent leaves at least as much on each side. */
  lemma HalvesOrdered(side: int, extent: int)
    requires 0 <= side <= extent
    ensures TruncDiv(side, 2) <= TruncDiv(extent, 2)
    ensures side - TruncDiv(side, 2) <= extent - TruncDiv(extent, 2)
  {
  }

  /**
   * When the padding leaves a non-negative content box, the `ui` view's square lies inside it,
   * touching it on both sides along its shorter extent, whether that is the width or the height.
   */
  lemma PaddedSquareFitsContentBox(w: int, h: int, p: Padding)
    requires AvailableWidth(w, p) >= 0 && AvailableHeight(h, p) >= 0
    ensures var r := PaddedSquare(w, h, p);
      && p.left as real <= r.left && r.right <= (w - p.right) as real
      && p.top as real <= r.top && r.bottom <= (h - p.bottom) as real
    ensures var r := PaddedSquare(w, h, p);
      AvailableWidth(w, p) <= AvailableHeight(h, p) ==> r.left == p.left as real && r.right == (w - p.right) as real
    ensures var r := PaddedSquare(w, h, p);
      AvailableHeight(h, p) <= AvailableWidth(w, p) ==> r.top == p.top as real && r.bottom == (h - p.bottom) as real
  {
    var aw, ah := AvailableWidth(w, p), AvailableHeight(h, p);
    var side := Min(aw, ah);
    HalvesOrdered(side, aw);
    HalvesOrdered(side, ah);
  }

  /** The square of the root-package view lies inside the view. */
  lemma CenteredSquareInsideView(w: int, h: int)
    requires w >= 0 && h >= 0
    ensures var r := CenteredSquare(w, h);
      0.0 <= r.left && r.right <= w as real && 0.0 <= r.top && r.bottom <= h as real
  {
  }
}
