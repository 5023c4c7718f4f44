/**
 * The `ui` package's `StepProgressView`: like the root one, but `onSizeChanged` fits the square
 * into the area left by the view's padding, using integer pixel arithmetic.
 */
module UiProgressView {
  import opened Int32
  import opened ProgressValues

  class StepProgressView {
    var goal: int32
    var progress: int32
    var viewPadding: real
    var rect: RectF
    var rectBackground: RectF

    /** `progress` is never negative; `goal` neither, unless `setGoal(MIN)` stored `abs(MIN) == MIN`. */
    ghost predicate Valid()
      reads this
    {
      progress >= 0 && (goal >= 0 || goal == MIN)
    }

    constructor ()
      ensures Valid()
      ensures goal == 1 && progress == 0
      ensures viewPadding == 0.0 && rect == EmptyRect && rectBackground == EmptyRect
    {
      goal := 1;
      progress := 0;
      viewPadding := 0.0;
      rect := EmptyRect;
      rectBackground := EmptyRect;
    }

    /** `setGoal`: stores the absolute value of `value`; nothing else changes. */
    method SetGoal(value: int32)
      requires Valid()
      modifies this
      ensures Valid()
      ensures goal == StoredGoal(value)
      ensures progress == old(progress) && viewPadding == old(viewPadding)
      ensures rect == old(rect) && rectBackground == old(rectBackground)
    {
      goal := if value > 0 then value else Abs(value);
    }

    /** `setProgress`: stores `value`, or 0 when it is negative; nothing else changes. */
    method SetProgress(value: int32)
      requires Valid()
      modifies this
      ensures Valid()
      ensures progress == StoredProgress(value)
      ensures goal == old(goal) && viewPadding == old(viewPadding)
      ensures rect == old(rect) && rectBackground == old(rectBackground)
    {
      progress := if value < 0 then 0 else value;
    }

    /** `getProgress`. */
    method GetProgress() returns (p: int32)
      ensures p == progress
    {
      p := progress;
    }

    /**
     * `onSizeChanged`: the background is the square of side `min(availableWidth, availableHeight)`
     * placed by `PaddedSquare`, and the ring's rectangle is that square inset by `viewPadding`.
     */
    method OnSizeChanged(w: int32, h: int32, oldw: int32, oldh: int32, padding: Padding)
      requires Valid()
      modifies this
      ensures Valid()
      ensures viewPadding == Min(AvailableWidth(w, padding), AvailableHeight(h, padding)) as real * ViewPaddingFactor
      ensures rectBackground == PaddedSquare(w, h, padding)
      ensures rect == Inset(rectBackground, viewPadding)
      ensures goal == old(goal) && progress == old(progress)
    {
      var availableWidth := w - padding.Start() - padding.End();
      var availableHeight := h - padding.top - padding.bottom;
      var size := Min(availableWidth, availableHeight);
      viewPadding := size as real * ViewPaddingFactor;
      var left := (TruncDiv(availableWidth, 2) - TruncDiv(size, 2) + padding.left) as real;
      var top := (TruncDiv(availableHeight, 2) - TruncDiv(size, 2) + padding.top) as real;
      var right := left + size as real;
      var bottom := top + size as real;
      rectBackground := RectF(left, top, right, bottom);
      assert availableWidth == AvailableWidth(w, padding) && availableHeight == AvailableHeight(h, padding);
      rect := RectF(left + viewPadding, top + viewPadding, right - viewPadding, bottom - viewPadding);
    }
  }
}
