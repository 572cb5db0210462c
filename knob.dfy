/** The knob of packages/webaudio-knob: the value commit (`_setValue`/`setValue`), the
    wheel, and the pointer gesture (reset on ctrl/meta, relative drag, release). */
module KnobControl {
  import opened Wrappers
  import opened JsNumber
  import opened ValueRule
  import JsText
  import Tooltip

  /** The full range spans 128 pixels of drag, four times that with shift. */
  const DragLength: real := 128.0

  class Knob {
    const min: real
    const max: real
    const step: real
    const defvalue: real
    const sensitivity: real
    const enable: bool
    const conv: Option<real -> real>
    /** The `tooltip` attribute (TypeScript default '') and `valuetip` (default true). */
    const tooltip: Option<string>
    const valuetip: bool

    /** The Lit property `value` (attribute `value`, default 0). Nothing in the knob
        writes it: a commit stores into `_value` (see README, Findings). */
    const value: real
    /** `_value` and `oldvalue` at once: `_setValue` always leaves the two equal, and
        both are `undefined` (None) until the first commit. */
    var stored: Option<real>
    var convValue: TipValue
    var drag: bool
    /** Whether the pointer is over the knob (`pointerover`/`pointerout`). */
    var hover: bool
    /** The drag closure's anchor while its move listener is installed. */
    var gesture: Option<Anchor>
    /** Whether a release listener is installed. */
    var upListening: bool

    /** A stored value lies in [min, max]; a move listener never outlives its release
        listener. */
    ghost predicate Valid()
      reads this
    {
      (stored.Some? && min <= max ==> min <= stored.value <= max)
      && (gesture.Some? ==> upListening)
    }

    /** What a wheel tick or a drag evidently means to start from: the stored value,
        or the `value` property before the first commit. */
    function Current(): real
      reads this
    {
      if stored.Some? then stored.value else value
    }

    /** The knob's state once `connectedCallback` ran: nothing stored yet, so
        `convValue` is `_value` itself, undefined, or the `conv` expression evaluated
        with `x` undefined (`convOfUndefined`, computed by code outside the model). */
    constructor (min: real, max: real, step: real, defvalue: real, sensitivity: real,
                 enable: bool, conv: Option<real -> real>, convOfUndefined: TipValue,
                 tooltip: Option<string>, valuetip: bool, value: real)
      ensures this.min == min && this.max == max && this.step == step
      ensures this.defvalue == defvalue && this.sensitivity == sensitivity
      ensures this.enable == enable && this.conv == conv
      ensures this.tooltip == tooltip && this.valuetip == valuetip
      ensures this.value == value && stored == None
      ensures convValue == if conv.None? then Undefined else convOfUndefined
      ensures !drag && !hover && gesture == None && !upListening
      ensures Valid()
    {
      this.min := min;
      this.max := max;
      this.step := step;
      this.defvalue := defvalue;
      this.sensitivity := sensitivity;
      this.enable := enable;
      this.conv := conv;
      this.tooltip := tooltip;
      this.valuetip := valuetip;
      this.value := value;
      stored := None;
      convValue := if conv.None? then Undefined else convOfUndefined;
      drag := false;
      hover := false;
      gesture := None;
      upListening := false;
    }

    /** `_setValue(v)`: snap (when step is not 0) and clamp into `_value`, and report
        whether that differs from `oldvalue`; `convValue` follows only a change. */
    method StoreValue(v: real) returns (changed: bool)
      requires Valid()
      modifies this
      ensures stored == Some(KnobTarget(v, min, max, step))
      ensures changed <==> Changed(stored.value, old(stored))
      ensures convValue == if changed then ConvOf(conv, stored.value) else old(convValue)
      ensures drag == old(drag) && hover == old(hover) && gesture == old(gesture) && upListening == old(upListening)
      ensures Valid()
    {
      var target := KnobTarget(v, min, max, step);
      changed := stored != Some(target);
      stored := Some(target);
      if changed {
        convValue := ConvOf(conv, target);
      }
    }

    /** `setValue(v, f)`: commit, then send "input" and "change" when the commit
        changed the value and `f` is set. */
    method SetValue(v: real, f: bool) returns (events: seq<Event>)
      requires Valid()
      modifies this
      ensures stored == Some(KnobTarget(v, min, max, step))
      ensures events == Notify(Changed(stored.value, old(stored)), f)
      ensures convValue == if Changed(stored.value, old(stored)) then ConvOf(conv, stored.value) else old(convValue)
      ensures drag == old(drag) && hover == old(hover) && gesture == old(gesture) && upListening == old(upListening)
      ensures Valid()
    {
      var changed := StoreValue(v);
      events := Notify(changed, f);
    }

    /** `wheel` as written: nothing on a disabled knob, otherwise a commit, with
        events, of the `value` property moved by the wheel step. Whatever was stored
        before plays no part. */
    method Wheel(deltaY: real, shift: bool) returns (events: seq<Event>)
      requires Valid()
      modifies this
      ensures !enable ==> events == [] && unchanged(this)
      ensures enable ==> stored == Some(KnobTarget(value + WheelDelta(min, max, step, deltaY, shift), min, max, step))
      ensures enable ==> events == Notify(Changed(stored.value, old(stored)), true)
      ensures drag == old(drag) && hover == old(hover) && gesture == old(gesture) && upListening == old(upListening)
      ensures Valid()
    {
      if !enable {
        return [];
      }
      events := SetValue(value + WheelDelta(min, max, step, deltaY, shift), true);
    }

    /** `wheel` as evidently intended: the tick moves on from the current value. */
    method WheelIntended(deltaY: real, shift: bool) returns (events: seq<Event>)
      requires Valid()
      modifies this
      ensures !enable ==> events == [] && unchanged(this)
      ensures enable ==> stored == Some(KnobTarget(old(Current()) + WheelDelta(min, max, step, deltaY, shift), min, max, step))
      ensures enable ==> events == Notify(Changed(stored.value, old(stored)), true)
      ensures drag == old(drag) && hover == old(hover) && gesture == old(gesture) && upListening == old(upListening)
      ensures Valid()
    {
      if !enable {
        return [];
      }
      events := SetValue(Current() + WheelDelta(min, max, step, deltaY, shift), true);
    }

    /** `pointerdown`: a disabled knob or an unaccepted mouse press does nothing. With
        ctrl or meta the default value is committed with events and no move listener
        is installed; otherwise the press anchors a drag at the `value` property.
        Either way a release listener is installed. */
    method PointerDown(p: Pointer, s: Sample) returns (events: seq<Event>)
      requires Valid()
      modifies this
      ensures !enable || !Accepts(p) ==> events == [] && unchanged(this)
      ensures enable && Accepts(p) ==> drag && upListening
      ensures enable && Accepts(p) && p.Mouse? && p.ctrlOrMeta ==>
                stored == Some(KnobTarget(defvalue, min, max, step))
                && events == Notify(Changed(stored.value, old(stored)), true)
                && gesture == None
      ensures enable && Accepts(p) && !(p.Mouse? && p.ctrlOrMeta) ==>
                events == [] && stored == old(stored) && convValue == old(convValue)
                && gesture == Some(Anchor(None, s.x, s.y, value))
      ensures hover == old(hover)
      ensures Valid()
    {
      if !enable || !Accepts(p) {
        return [];
      }
      drag := true;
      if p.Mouse? && p.ctrlOrMeta {
        events := SetValue(defvalue, true);
        gesture := None;
      } else {
        gesture := Some(Anchor(None, s.x, s.y, value));
        events := [];
      }
      upListening := true;
    }

    /** The drag closure's move handler: a change of shift state re-anchors at this
        sample and at the `value` property, the offset is turned into a proposal
        truncated onto the grid, the proposal is committed without events, and
        "input" is sent regardless. */
    method PointerMove(s: Sample) returns (events: seq<Event>)
      requires Valid()
      modifies this
      ensures old(gesture) == None ==> events == [] && unchanged(this)
      ensures old(gesture).Some? ==>
                var a := Follow(old(gesture).value, s.shift, s.x, s.y, value);
                gesture == Some(a)
                && stored == Some(KnobTarget(DragProposal(min, max, step, a.startVal,
                                               KnobOffset(a, s.x, s.y, sensitivity),
                                               s.shift == Some(true), DragLength), min, max, step))
                && events == [Input]
      ensures drag == old(drag) && hover == old(hover) && upListening == old(upListening)
      ensures Valid()
    {
      if gesture == None {
        return [];
      }
      var a := Follow(gesture.value, s.shift, s.x, s.y, value);
      var offset := KnobOffset(a, s.x, s.y, sensitivity);
      var proposal := DragProposal(min, max, step, a.startVal, offset, s.shift == Some(true), DragLength);
      gesture := Some(a);
      var _ := StoreValue(proposal);
      events := [Input];
    }

    /** The release handler: it ends the drag, removes both listeners and sends
        "change", whether or not the value moved. */
    method PointerUp() returns (events: seq<Event>)
      requires Valid()
      modifies this
      ensures !old(upListening) ==> events == [] && unchanged(this)
      ensures old(upListening) ==> events == [Change] && !drag && gesture == None && !upListening
      ensures stored == old(stored) && convValue == old(convValue)
      ensures hover == old(hover)
      ensures Valid()
    {
      if !upListening {
        return [];
      }
      drag := false;
      gesture := None;
      upListening := false;
      events := [Change];
    }

    /** `pointerover` and `pointerout`: the hover flag that, with `drag`, shows the
        tooltip. */
    method PointerOver()
      modifies this
      ensures hover && stored == old(stored) && convValue == old(convValue)
      ensures drag == old(drag) && gesture == old(gesture) && upListening == old(upListening)
    {
      hover := true;
    }

    method PointerOut()
      modifies this
      ensures !hover && stored == old(stored) && convValue == old(convValue)
      ensures drag == old(drag) && gesture == old(gesture) && upListening == old(upListening)
    {
      hover := false;
    }

    /** `showtip` as written: `render` keeps its decimal count in a local, so
        `this.digits` is undefined and the value directive reads `%.undefinedf`.
        With `valuetip` on, a tooltip without its own directive shows its text,
        " : " and the converted value truncated to an integer (see README, Findings). */
    method ShowTip(pr: Tooltip.Printers) returns (tip: Tooltip.Tip)
      ensures !(drag || hover) ==> tip == Tooltip.Hidden
      ensures (drag || hover) && valuetip && (tooltip.Some? ==> '%' !in tooltip.value) && convValue.Scalar? ==>
                tip == Tooltip.Shown(Some(Tooltip.TipPrefix(tooltip) + JsText.IntToString(ToInt32(convValue.v), 10)))
      ensures (drag || hover) && valuetip && convValue.Undefined? ==> tip == Tooltip.Shown(None)
    {
      tip := Tooltip.ShowTip(tooltip, valuetip, None, drag || hover, convValue, pr);
      if (drag || hover) && valuetip && (tooltip.Some? ==> '%' !in tooltip.value) && convValue.Scalar? {
        Tooltip.UndefinedDigitsPrintInteger(tooltip, convValue.v, pr);
      }
    }

    /** `showtip` as evidently intended, with the decimals the step needs, counted as
        `render` counts them (the least d with `step * 10^d >= 1`). With `valuetip`
        on, a tooltip without its own directive shows its text, " : " and the
        converted value with exactly those decimals. */
    method ShowTipIntended(pr: Tooltip.Printers) returns (digits: nat, tip: Tooltip.Tip)
      requires step >= 0.0
      ensures step == 0.0 || step >= 1.0 ==> digits == 0
      ensures 0.0 < step ==> DecimalsShowStep(step, digits)
      ensures 0.0 < step && digits > 0 ==> !DecimalsShowStep(step, digits - 1)
      ensures !(drag || hover) ==> tip == Tooltip.Hidden
      ensures (drag || hover) && valuetip && (tooltip.Some? ==> '%' !in tooltip.value) && convValue.Scalar? ==>
                tip == Tooltip.Shown(Some(Tooltip.TipPrefix(tooltip) + pr.fixed(convValue.v, digits)))
      ensures (drag || hover) && valuetip && convValue.Undefined? ==> tip == Tooltip.Shown(None)
    {
      digits := Digits(step);
      tip := Tooltip.ShowTip(tooltip, valuetip, Some(digits), drag || hover, convValue, pr);
      if (drag || hover) && valuetip && (tooltip.Some? ==> '%' !in tooltip.value) && convValue.Scalar? {
        Tooltip.ValueTipShowsDigits(tooltip, digits, convValue.v, pr);
      }
    }
  }

  /** A knob over [0, 100] with step 1 and `value` 50: as written, every wheel tick up
      stores 55, so after the first the ticks report no change and send nothing. */
  lemma WheelStuckAsWritten()
    ensures KnobTarget(50.0 + WheelDelta(0.0, 100.0, 1.0, -1.0, false), 0.0, 100.0, 1.0) == 55.0
    ensures !Changed(KnobTarget(50.0 + WheelDelta(0.0, 100.0, 1.0, -1.0, false), 0.0, 100.0, 1.0), Some(55.0))
  {
    assert WheelDelta(0.0, 100.0, 1.0, -1.0, false) == 5.0;
    assert Round((55.0 - 0.0) / 1.0) == 55;
  }

  /** The same knob, as written: a drag anchors at `value`, so a move that has not
      left the press point stores 50, whatever an earlier drag or wheel stored. */
  lemma DragRestartsAsWritten(x: real, y: real, shift: Option<bool>, sensitivity: real)
    ensures var a := Follow(Anchor(None, x, y, 50.0), shift, x, y, 50.0);
            KnobTarget(DragProposal(0.0, 100.0, 1.0, a.startVal, KnobOffset(a, x, y, sensitivity),
                                    shift == Some(true), DragLength), 0.0, 100.0, 1.0) == 50.0
  {
    var a := Follow(Anchor(None, x, y, 50.0), shift, x, y, 50.0);
    assert a.startX == x && a.startY == y && a.startVal == 50.0;
    assert KnobOffset(a, x, y, sensitivity) == 0.0;
    DragKeepsGridValue(0.0, 100.0, 1.0, 50, shift == Some(true), DragLength);
    assert Round((50.0 - 0.0) / 1.0) == 50;
  }

  /** With the stored value read back, two wheel ticks from 50 reach 60. */
  lemma WheelAccumulates()
    ensures var first := KnobTarget(50.0 + WheelDelta(0.0, 100.0, 1.0, -1.0, false), 0.0, 100.0, 1.0);
            first == 55.0
            && KnobTarget(first + WheelDelta(0.0, 100.0, 1.0, -1.0, false), 0.0, 100.0, 1.0) == 60.0
  {
    assert WheelDelta(0.0, 100.0, 1.0, -1.0, false) == 5.0;
    assert Round((55.0 - 0.0) / 1.0) == 55;
    assert Round((60.0 - 0.0) / 1.0) == 60;
  }
}
