/** The value rules shared by the controls: snapping to the step grid and clamping
    into [min, max], change detection, the events a commit sends, and the gesture
    arithmetic of the wheel, of relative dragging and of absolute tracking. */
module ValueRule {
  import opened Wrappers
  import opened JsNumber
  import JsText

  /** What pressed a control: a mouse with its `buttons`/`button` state and whether
      ctrl or meta was held, or a touch (a `Touch` carries no modifier keys). */
  datatype Pointer = Mouse(buttons: int, button: int, ctrlOrMeta: bool) | Touch

  /** A mouse press is taken unless `buttons != 1 && button != 0`. */
  predicate Accepts(p: Pointer) {
    p.Touch? || p.buttons == 1 || p.button == 0
  }

  /** A pointer sample: page coordinates, the shift state (`None` for a touch, whose
      `shiftKey` is undefined), and the position as a fraction of the track along x
      and y, which absolute tracking and the XY pad use (the element geometry that
      yields these fractions is not modelled). */
  datatype Sample = Sample(x: real, y: real, shift: Option<bool>, ratioX: real, ratioY: real)

  /** The DOM events a control dispatches. */
  datatype Event = Input | Change | Click

  /** What the tooltip formats: `convValue` is a number, an `{x, y}` pair (the XY pad
      without a conversion), or `undefined` before anything was computed. */
  datatype TipValue = Undefined | Scalar(v: real) | Pair(x: real, y: real)

  /** `x` lies on the grid `min + k * step` for an integer k. */
  predicate OnGrid(x: real, min: real, step: real)
    requires step != 0.0
  {
    ((x - min) / step).Floor as real == (x - min) / step
  }

  /** `round((v - min) / step) * step + min`, the nearest grid point. */
  function Quantize(v: real, min: real, step: real): (q: real)
    requires step != 0.0
    ensures OnGrid(q, min, step)
  {
    var n := Round((v - min) / step);
    GridPointOnGrid(min, step, n);
    min + n as real * step
  }

  /** Quantising never moves a value by more than half a step. */
  lemma QuantizeNearest(v: real, min: real, step: real)
    requires step > 0.0
    ensures v - step / 2.0 < Quantize(v, min, step) <= v + step / 2.0
  {
    var x := (v - min) / step;
    var n := Round(x);
    var e := n as real - x;
    assert -0.5 < e <= 0.5;
    assert x * step == v - min;
    assert Quantize(v, min, step) == n as real * step + min;
    assert n as real * step == x * step + e * step;
    assert Quantize(v, min, step) - v == e * step;
    MulNonneg(0.5 - e, step);
    assert (0.5 - e) * step == 0.5 * step - e * step;
    MulPos(e + 0.5, step);
    assert (e + 0.5) * step == e * step + 0.5 * step;
  }

  lemma MulMono(a: real, b: real, c: real)
    requires a <= b && c >= 0.0
    ensures a * c <= b * c && c * a <= c * b
  {
    MulNonneg(b - a, c);
    assert b * c - a * c == (b - a) * c;
    assert c * b - c * a == (b - a) * c;
  }

  lemma MulStrict(a: real, b: real, c: real)
    requires a < b && c > 0.0
    ensures a * c < b * c && c * a < c * b
  {
    MulPos(b - a, c);
    assert b * c - a * c == (b - a) * c;
    assert c * b - c * a == (b - a) * c;
  }

  /** Equal factors give equal products (spelled out for the solver's nonlinear terms). */
  lemma MulCongruence(a: real, b: real, c: real)
    requires a == b
    ensures a * c == b * c
  {
  }

  lemma DivThenMul(a: real, b: real)
    requires b != 0.0
    ensures (a / b) * b == a
  {
  }

  lemma MulThenDiv(a: real, b: real)
    requires b != 0.0
    ensures (a * b) / b == a
  {
  }

  lemma MulNonneg(a: real, b: real)
    requires a >= 0.0 && b >= 0.0
    ensures a * b >= 0.0
  {
  }

  lemma MulPos(a: real, b: real)
    requires a > 0.0 && b > 0.0
    ensures a * b > 0.0
  {
  }

  /** Grid points are left where they are. */
  lemma QuantizeFixesGrid(k: int, min: real, step: real)
    requires step != 0.0
    ensures Quantize(k as real * step + min, min, step) == k as real * step + min
  {
    assert (k as real * step + min - min) / step == k as real;
    RoundOfInteger(k);
  }

  /** The value the slider and the XY pad store: snapped to the grid, then clamped. */
  function SliderTarget(v: real, min: real, max: real, step: real): (r: real)
    requires step != 0.0
    ensures min <= max ==> min <= r <= max
    ensures min <= Quantize(v, min, step) <= max ==> r == Quantize(v, min, step)
    ensures Quantize(v, min, step) > max ==> r == max
    ensures Quantize(v, min, step) < min ==> r == Min(max, min)
  {
    Clamp(Quantize(v, min, step), min, max)
  }

  /** Anything at or below min stores min: rounding cannot lift it onto a grid point
      above min. */
  lemma {:induction false} SliderTargetAtOrBelowMin(v: real, min: real, max: real, step: real)
    requires step > 0.0 && min <= max && v <= min
    ensures SliderTarget(v, min, max, step) == min
  {
    var x := (v - min) / step;
    DivSign(v - min, step);
    var n := Round(x);
    assert n <= 0;
    MulMono(n as real, 0.0, step);
    assert Quantize(v, min, step) == n as real * step + min;
  }

  /** The value the knob and the keyboard store: snapped only when step is not 0. */
  function KnobTarget(v: real, min: real, max: real, step: real): (r: real)
    ensures min <= max ==> min <= r <= max
    ensures step == 0.0 && min <= v <= max ==> r == v
    ensures step == 0.0 ==> r == Clamp(v, min, max)
    ensures step != 0.0 ==> r == SliderTarget(v, min, max, step)
  {
    Clamp(if step != 0.0 then Quantize(v, min, step) else v, min, max)
  }

  /** When max lies on the grid, every stored value does. */
  lemma SliderTargetOnGrid(v: real, min: real, max: real, step: real)
    requires step != 0.0 && min <= max && OnGrid(max, min, step)
    ensures OnGrid(SliderTarget(v, min, max, step), min, step)
  {
    var q := Quantize(v, min, step);
    if q < min {
      assert (min - min) / step == 0.0;
    }
  }

  /** When max is off the grid, a value clamped to max is off the grid: with min 0,
      max 10 and step 3, the input 11 is stored as 10. */
  lemma SliderTargetOffGrid()
    ensures SliderTarget(11.0, 0.0, 10.0, 3.0) == 10.0
    ensures !OnGrid(10.0, 0.0, 3.0)
  {
    assert Round(11.0 / 3.0) == 4;
  }

  /** Committing the stored value again can move it: 10 from the example above becomes 9. */
  lemma SliderTargetNotIdempotent()
    ensures SliderTarget(SliderTarget(11.0, 0.0, 10.0, 3.0), 0.0, 10.0, 3.0) == 9.0
  {
    SliderTargetOffGrid();
    assert Round(10.0 / 3.0) == 3;
  }

  /** `convValue` after a commit: the `conv` expression applied to the value, or the
      value itself when there is no `conv`. */
  function ConvOf(conv: Option<real -> real>, x: real): TipValue {
    match conv
    case None => Scalar(x)
    case Some(f) => Scalar(f(x))
  }

  /** A commit changed the stored value when it differs from `oldvalue`. */
  predicate Changed(stored: real, oldvalue: Option<real>) {
    oldvalue != Some(stored)
  }

  /** `setValue(v, f)` sends "input" then "change" exactly when the commit changed the
      value and `f` is set. */
  function Notify(changed: bool, f: bool): (events: seq<Event>)
    ensures events != [] <==> changed && f
    ensures events != [] ==> events == [Input, Change]
  {
    if changed && f then [Input, Change] else []
  }

  /** The wheel step: 1% of the range, negated for `deltaY > 0`, five times larger
      without shift, and at least one step in magnitude. */
  function WheelDelta(min: real, max: real, step: real, deltaY: real, shift: bool): (r: real)
    ensures step >= 0.0 ==> Abs(r) == Max(step, Abs(max - min) * (if shift then 0.01 else 0.05))
    ensures min < max ==> (r < 0.0 <==> deltaY > 0.0)
    ensures min == max && step > 0.0 ==> r == -step
  {
    var d0 := (max - min) * 0.01;
    var d1 := if deltaY > 0.0 then -d0 else d0;
    var d2 := if !shift then d1 * 5.0 else d1;
    if Abs(d2) < step then (if d2 > 0.0 then step else -step) else d2
  }

  /** The state a relative drag keeps between samples: the shift state seen last
      (`None` while undefined), and the anchor position and value. */
  datatype Anchor = Anchor(lastShift: Option<bool>, startX: real, startY: real, startVal: real)

  /** A sample whose shift state differs from the last one becomes the new anchor. */
  function Follow(a: Anchor, shift: Option<bool>, x: real, y: real, value: real): (b: Anchor)
    ensures b.lastShift == shift
    ensures a.lastShift == shift ==> b == a
    ensures a.lastShift != shift ==> b.startX == x && b.startY == y && b.startVal == value
  {
    if a.lastShift != shift then Anchor(shift, x, y, value) else a
  }

  /** The knob's drag offset: upward and rightward motion both count. */
  function KnobOffset(a: Anchor, x: real, y: real, sensitivity: real): real {
    (a.startY - y - a.startX + x) * sensitivity
  }

  /** The slider's drag offset: a horizontal slider (`sensex = 1, sensey = 0`) follows
      x only, a vertical one (`sensex = 0, sensey = 1`) follows y only. */
  function SliderOffset(horizontal: bool, a: Anchor, x: real, y: real, sensitivity: real): (r: real)
    ensures horizontal ==> r == (x - a.startX) * sensitivity
    ensures !horizontal ==> r == (a.startY - y) * sensitivity
  {
    var sensex := if horizontal then 1.0 else 0.0;
    var sensey := if horizontal then 0.0 else 1.0;
    ((a.startY - y) * sensey - (a.startX - x) * sensex) * sensitivity
  }

  /** The knob's offset is the sum of the horizontal and the vertical slider offsets. */
  lemma KnobOffsetSumsAxes(a: Anchor, x: real, y: real, sensitivity: real)
    ensures KnobOffset(a, x, y, sensitivity)
         == SliderOffset(true, a, x, y, sensitivity) + SliderOffset(false, a, x, y, sensitivity)
  {
  }

  /** At the sample that re-anchors, the offset is 0. */
  lemma AnchorSampleHasNoOffset(a: Anchor, shift: Option<bool>, x: real, y: real, value: real, horizontal: bool, sensitivity: real)
    requires a.lastShift != shift
    ensures KnobOffset(Follow(a, shift, x, y, value), x, y, sensitivity) == 0.0
    ensures SliderOffset(horizontal, Follow(a, shift, x, y, value), x, y, sensitivity) == 0.0
  {
  }

  /** The raw value a drag proposes before the commit:
      `min + ((startVal + range * offset / ((shift ? 4 : 1) * len) - min) / step | 0) * step`.
      A zero `len` or `step` makes the quotient infinite or NaN, which `| 0` turns into 0. */
  function DragProposal(min: real, max: real, step: real, startVal: real, offset: real, shift: bool, len: real): real {
    if step == 0.0 || len == 0.0 then min
    else TruncateToGrid(DragAim(min, max, startVal, offset, shift, len), min, step)
  }

  /** `min + ((aim - min) / step | 0) * step`. */
  function TruncateToGrid(aim: real, min: real, step: real): real
    requires step != 0.0
  {
    min + ToInt32((aim - min) / step) as real * step
  }

  /** The unsnapped position a drag aims at: `startVal + range * offset / ((shift ? 4 : 1) * len)`. */
  function DragAim(min: real, max: real, startVal: real, offset: real, shift: bool, len: real): real
    requires len != 0.0
  {
    var k := if shift then 4.0 else 1.0;
    startVal + (max - min) * offset / (k * len)
  }

  /** Within the 32-bit range, `| 0` truncates the aim onto the grid towards min: the
      result is a grid point at most one step short of the aim. */
  lemma TruncateToGridBounds(aim: real, min: real, step: real)
    requires step > 0.0
    requires -TwoTo31 as real < (aim - min) / step < TwoTo31 as real
    ensures var p := TruncateToGrid(aim, min, step);
            OnGrid(p, min, step) &&
            (aim >= min ==> min <= p <= aim < p + step) &&
            (aim < min ==> p - step < aim <= p <= min)
  {
    var k := Trunc((aim - min) / step);
    TruncateToGridIndex(aim, min, step);
    GridPointOnGrid(min, step, k);
    assert TruncateToGrid(aim, min, step) == min + k as real * step;
    if aim >= min {
      TruncateAbove(aim, min, step);
    } else {
      TruncateBelow(aim, min, step);
    }
  }

  lemma TruncateAbove(aim: real, min: real, step: real)
    requires step > 0.0 && aim >= min
    requires -TwoTo31 as real < (aim - min) / step < TwoTo31 as real
    ensures var p := TruncateToGrid(aim, min, step); min <= p <= aim < p + step
  {
    var r := aim - min;
    TruncateToGridIndex(aim, min, step);
    TruncStepAbove(r, step);
  }

  lemma TruncateBelow(aim: real, min: real, step: real)
    requires step > 0.0 && aim < min
    requires -TwoTo31 as real < (aim - min) / step < TwoTo31 as real
    ensures var p := TruncateToGrid(aim, min, step); p - step < aim <= p <= min
  {
    var r := aim - min;
    TruncateToGridIndex(aim, min, step);
    TruncStepBelow(r, step);
  }

  /** Within the 32-bit range, `| 0` is truncation. */
  lemma TruncateToGridIndex(aim: real, min: real, step: real)
    requires step > 0.0
    requires -TwoTo31 as real < (aim - min) / step < TwoTo31 as real
    ensures TruncateToGrid(aim, min, step) == min + Trunc((aim - min) / step) as real * step
  {
    ToInt32Small((aim - min) / step);
  }

  /** `min + k * step` lies on the grid. */
  lemma GridPointOnGrid(min: real, step: real, k: int)
    requires step != 0.0
    ensures OnGrid(min + k as real * step, min, step)
  {
    GridIndex(min, step, k as real);
  }

  /** For r >= 0, the truncated number of steps reaches r and one more step passes it. */
  lemma TruncStepAbove(r: real, step: real)
    requires step > 0.0 && r >= 0.0
    ensures var t := Trunc(r / step) as real; 0.0 <= t * step <= r < t * step + step
  {
    DivSign(r, step);
    var t := Trunc(r / step) as real;
    LeDivMul(t, r, step);
    LtDivMulNext(t, r, step);
    MulMono(0.0, t, step);
    assert (t + 1.0) * step == t * step + step;
  }

  /** For r < 0, the truncated number of steps stops short of r and one step less
      passes it. */
  lemma TruncStepBelow(r: real, step: real)
    requires step > 0.0 && r < 0.0
    ensures var t := Trunc(r / step) as real; t * step - step < r <= t * step <= 0.0
  {
    DivSign(r, step);
    var t := Trunc(r / step) as real;
    GtDivMulPrev(t, r, step);
    GeDivMul(t, r, step);
    MulMono(t, 0.0, step);
    assert (t - 1.0) * step == t * step - step;
  }

  lemma DivSign(r: real, s: real)
    requires s > 0.0
    ensures r >= 0.0 <==> r / s >= 0.0
  {
    DivThenMul(r, s);
    if r / s < 0.0 {
      MulStrict(r / s, 0.0, s);
    } else {
      MulMono(0.0, r / s, s);
    }
  }

  lemma LeDivMul(t: real, r: real, s: real)
    requires s > 0.0 && t <= r / s
    ensures t * s <= r
  {
    MulMono(t, r / s, s);
    DivThenMul(r, s);
  }

  lemma GeDivMul(t: real, r: real, s: real)
    requires s > 0.0 && r / s <= t
    ensures r <= t * s
  {
    MulMono(r / s, t, s);
    DivThenMul(r, s);
  }

  lemma LtDivMulNext(t: real, r: real, s: real)
    requires s > 0.0 && r / s < t + 1.0
    ensures r < (t + 1.0) * s
  {
    MulStrict(r / s, t + 1.0, s);
    DivThenMul(r, s);
  }

  lemma GtDivMulPrev(t: real, r: real, s: real)
    requires s > 0.0 && t - 1.0 < r / s
    ensures (t - 1.0) * s < r
  {
    MulStrict(t - 1.0, r / s, s);
    DivThenMul(r, s);
  }

  /** A grid point within the 32-bit range is left where it is. */
  lemma TruncateToGridOnPoint(min: real, step: real, k: int)
    requires step > 0.0 && -TwoTo31 < k < TwoTo31
    ensures TruncateToGrid(min + k as real * step, min, step) == min + k as real * step
  {
    GridIndex(min, step, k as real);
    TruncateAtIndex(min + k as real * step, min, step, k);
  }

  lemma GridIndex(min: real, step: real, r: real)
    requires step != 0.0
    ensures (min + r * step - min) / step == r
  {
    MulThenDiv(r, step);
    assert min + r * step - min == r * step;
  }

  lemma TruncateAtIndex(aim: real, min: real, step: real, k: int)
    requires step != 0.0 && (aim - min) / step == k as real && -TwoTo31 < k < TwoTo31
    ensures TruncateToGrid(aim, min, step) == min + k as real * step
  {
    ToInt32OfInteger(k);
    MulCongruence(ToInt32((aim - min) / step) as real, k as real, step);
  }

  /** The first sample of a drag (offset 0) keeps a value on the grid. */
  lemma DragKeepsGridValue(min: real, max: real, step: real, k: int, shift: bool, len: real)
    requires step > 0.0 && len != 0.0 && -TwoTo31 < k < TwoTo31
    ensures DragProposal(min, max, step, min + k as real * step, 0.0, shift, len) == min + k as real * step
  {
    assert DragAim(min, max, min + k as real * step, 0.0, shift, len) == min + k as real * step;
    TruncateToGridOnPoint(min, step, k);
  }

  /** Dragging `len` pixels (four times that with shift) from min reaches max when the
      range is a whole number of steps. */
  lemma DragFullSweep(min: real, step: real, j: int, shift: bool, len: real)
    requires step > 0.0 && len != 0.0 && 0 <= j < TwoTo31
    ensures var k := if shift then 4.0 else 1.0;
            DragProposal(min, min + j as real * step, step, min, k * len, shift, len) == min + j as real * step
  {
    var k := if shift then 4.0 else 1.0;
    var a := j as real * step;
    NonzeroLength(shift, len);
    SweepAim(min, a, k * len);
    assert DragAim(min, min + a, min, k * len, shift, len) == min + a;
    TruncateToGridOnPoint(min, step, j);
    assert DragProposal(min, min + a, step, min, k * len, shift, len) == TruncateToGrid(min + a, min, step);
  }

  lemma NonzeroLength(shift: bool, len: real)
    requires len != 0.0
    ensures (if shift then 4.0 else 1.0) * len != 0.0
  {
  }

  /** An offset of d over a length of d moves the whole range. */
  lemma SweepAim(min: real, a: real, d: real)
    requires d != 0.0
    ensures min + (min + a - min) * d / d == min + a
  {
    assert min + a - min == a;
    MulThenDiv(a, d);
  }

  /** A knob with step 0 is sent to min by every drag sample. */
  lemma DragWithZeroStep(min: real, max: real, startVal: real, offset: real, shift: bool)
    ensures KnobTarget(DragProposal(min, max, 0.0, startVal, offset, shift, 128.0), min, max, 0.0) == Min(max, min)
  {
  }

  /** Absolute tracking: the pointer's raw position ratio along the track clamped to
      [0, 1], counted from the bottom when the `direction` attribute is not "horz". */
  function AbsoluteFraction(directionHorz: bool, ratioX: real, ratioY: real): (f: real)
    ensures 0.0 <= f <= 1.0
    ensures directionHorz && 0.0 <= ratioX <= 1.0 ==> f == ratioX
    ensures !directionHorz && 0.0 <= ratioY <= 1.0 ==> f == 1.0 - ratioY
  {
    if directionHorz then Max(0.0, Min(1.0, ratioX)) else 1.0 - Max(0.0, Min(1.0, ratioY))
  }

  /** `min + range * fraction`: an absolute-tracking proposal lies in [min, max]. */
  function AbsoluteProposal(min: real, max: real, fraction: real): (r: real)
    requires 0.0 <= fraction <= 1.0
    ensures min <= max ==> min <= r <= max
  {
    if min <= max then
      ScaleWithin(min, max, fraction);
      min + (max - min) * fraction
    else
      min + (max - min) * fraction
  }

  /** The value a MIDI data byte selects: `min + (max - min) * d / 127`. */
  function MidiValue(min: real, max: real, d: int): (r: real)
    ensures d == 0 ==> r == min
    ensures d == 127 ==> r == max
    ensures min <= max && 0 <= d <= 127 ==> min <= r <= max
  {
    if min <= max && 0 <= d <= 127 then
      ScaleWithin(min, max, d as real / 127.0);
      min + (max - min) * (d as real / 127.0)
    else
      min + (max - min) * (d as real / 127.0)
  }

  /** A fraction in [0, 1] of a non-negative range stays within the range. */
  lemma ScaleWithin(min: real, max: real, f: real)
    requires min <= max && 0.0 <= f <= 1.0
    ensures 0.0 <= (max - min) * f <= max - min
  {
    MulNonneg(max - min, f);
    MulNonneg(max - min, 1.0 - f);
  }

  /** `d` decimals show a step exactly when `step * 10^d` reaches 1. */
  predicate DecimalsShowStep(step: real, d: int) {
    step * JsText.Pow10(d) >= 1.0
  }

  /** The number of decimals shown for a fractional step: the least d with
      `step * 10^d >= 1`, and 0 when step is 0 or at least 1. */
  method Digits(step: real) returns (digits: nat)
    requires step >= 0.0
    ensures step == 0.0 || step >= 1.0 ==> digits == 0
    ensures 0.0 < step ==> DecimalsShowStep(step, digits)
    ensures 0.0 < step && digits > 0 ==> !DecimalsShowStep(step, digits - 1)
  {
    digits := 0;
    if step != 0.0 && step < 1.0 {
      var n := step;
      while n < 1.0
        invariant n == step * JsText.Pow10(digits) && n > 0.0
        invariant digits > 0 ==> !DecimalsShowStep(step, digits - 1)
        decreases (1.0 / n).Floor
      {
        ShrinkReciprocal(n);
        assert JsText.Pow10(digits + 1) == 10.0 * JsText.Pow10(digits);
        assert !DecimalsShowStep(step, digits);
        n := n * 10.0;
        digits := digits + 1;
      }
      assert DecimalsShowStep(step, digits);
    }
  }

  /** Multiplying a number below 1 by ten strictly lowers the floor of its reciprocal. */
  lemma ShrinkReciprocal(n: real)
    requires 0.0 < n < 1.0
    ensures 0 <= (1.0 / (n * 10.0)).Floor < (1.0 / n).Floor
  {
    var a := 1.0 / n;
    assert a > 1.0;
    assert 1.0 / (n * 10.0) == a / 10.0;
    var f := a.Floor;
    assert f >= 1;
    assert (a / 10.0).Floor as real <= a / 10.0 < (f as real + 1.0) / 10.0;
    assert (f as real + 1.0) / 10.0 <= f as real;
  }
}
