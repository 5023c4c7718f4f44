/** The root-package `StepProgressView`: a goal, a progress value and the rectangles it draws into. */
module ProgressView {
  import opened Int32
  import opened ProgressValues

  class StepProgressView {
    var goal: int32
    var progress: int32
    var viewPadding: real
    var rect: RectF
    var rectBackground: RectF

    /** `progress` is never negative; `goal` neither, unless `setGoal(MIN)` stored `abs(MIN) == MIN`. */
    ghost predicate Valid()
      reads this
    {
      progress >= 0 && (goal >= 0 || goal == MIN)
    }

    constructor ()
      ensures Valid()
      ensures goal == 1 && progress == 0
      ensures viewPadding == 0.0 && rect == EmptyRect && rectBackground == EmptyRect
    {
      goal := 1;
      progress := 0;
      viewPadding := 0.0;
      rect := EmptyRect;
      rectBackground := EmptyRect;
    }

    /** `setGoal`: stores the absolute value of `value`; nothing else changes. */
    method SetGoal(value: int32)
      requires Valid()
      modifies this
      ensures Valid()
      ensures goal == StoredGoal(value)
      ensures progress == old(progress) && viewPadding == old(viewPadding)
      ensures rect == old(rect) && rectBackground == old(rectBackground)
    {
      goal := if value > 0 then value else Abs(value);
    }

    /** `setProgress`: stores `value`, or 0 when it is negative; nothing else changes. */
    method SetProgress(value: int32)
      requires Valid()
      modifies this
      ensures Valid()
      ensures progress == StoredProgress(value)
      ensures goal == old(goal) && viewPadding == old(viewPadding)
      ensures rect == old(rect) && rectBackground == old(rectBackground)
    {
      progress := if value < 0 then 0 else value;
    }

    /** `getProgress`. */
    method GetProgress() returns (p: int32)
      ensures p == progress
    {
      p := progress;
    }

    /**
     * `onSizeChanged`: the background is the centred square of side `min(w, h)` and the ring's
     * rectangle is that square inset by `viewPadding` on every side.
     */
    method OnSizeChanged(w: int32, h: int32, oldw: int32, oldh: int32)
      requires Valid()
      modifies this
      ensures Valid()
      ensures viewPadding == Min(w, h) as real * ViewPaddingFactor
      ensures rectBackground == CenteredSquare(w, h)
      ensures rect == Inset(rectBackground, viewPadding)
      ensures goal == old(goal) && progress == old(progress)
    {
      var size := Min(w, h);
      viewPadding := size as real * ViewPaddingFactor;
      var halfSize := size as real / 2.0;
      rectBackground := RectF(w as real / 2.0 - halfSize, h as real / 2.0 - halfSize,
                              w as real / 2.0 + halfSize, h as real / 2.0 + halfSize);
      rect := RectF(w as real / 2.0 - halfSize + viewPadding, h as real / 2.0 - halfSize + viewPadding,
                    w as real / 2.0 + halfSize - viewPadding, h as real / 2.0 + halfSize - viewPadding);
    }
  }

  /** A caller's view: each setter affects only its own value, and `getProgress` returns the last one set. */
  method SettersAreIndependent(v: StepProgressView, g: int32, p: int32, q: int32) returns (read: int32)
    requires v.Valid()
    modifies v
    ensures read == StoredProgress(q) && v.goal == StoredGoal(g)
  {
    v.SetProgress(p);
    v.SetGoal(g);
    v.SetProgress(q);
    read := v.GetProgress();
  }
}
