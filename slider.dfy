/** The slider of webaudio-controls.js: the value commit, the wheel, the orientation
    chosen at setup, and the pointer gesture with relative or absolute tracking. */
module SliderControl {
  import opened Wrappers
  import opened JsNumber
  import opened ValueRule

  /** The element size after setup: a zero width or height takes the default of the
      `direction` attribute's orientation (128 x 24 for "horz", 24 x 128 otherwise). */
  function SliderSize(direction: Option<string>, width: real, height: real): (wh: (real, real))
    ensures width != 0.0 ==> wh.0 == width
    ensures height != 0.0 ==> wh.1 == height
    ensures direction == Some("horz") && width == 0.0 && height == 0.0 ==> wh == (128.0, 24.0)
    ensures direction != Some("horz") && width == 0.0 && height == 0.0 ==> wh == (24.0, 128.0)
  {
    var horz := direction == Some("horz");
    (if width == 0.0 then (if horz then 128.0 else 24.0) else width,
     if height == 0.0 then (if horz then 24.0 else 128.0) else height)
  }

  /** The drag orientation `dr`: the `direction` attribute when given, otherwise
      vertical exactly when the slider is at most as wide as it is tall. Anything but
      "vert" drags horizontally (`sensex = 1`). */
  function Horizontal(direction: Option<string>, width: real, height: real): (h: bool)
    ensures direction.Some? ==> (h <==> direction.value != "vert")
    ensures direction.None? ==> (h <==> SliderSize(direction, width, height).0 > SliderSize(direction, width, height).1)
  {
    match direction
    case Some(d) => d != "vert"
    case None =>
      var wh := SliderSize(direction, width, height);
      !(wh.0 <= wh.1)
  }

  /** The track length `dlen`: the `ditchlength` attribute, or the long side minus the
      short side when it is 0. */
  function TrackLength(ditchlength: real, horizontal: bool, width: real, height: real): (len: real)
    ensures ditchlength != 0.0 ==> len == ditchlength
    ensures ditchlength == 0.0 && horizontal ==> len == width - height
    ensures ditchlength == 0.0 && !horizontal ==> len == height - width
  {
    if ditchlength != 0.0 then ditchlength
    else if horizontal then width - height
    else height - width
  }

  /** A slider with no attributes drags vertically along a 104-pixel track. */
  lemma DefaultSliderIsVertical()
    ensures var wh := SliderSize(None, 0.0, 0.0);
            !Horizontal(None, 0.0, 0.0) && TrackLength(0.0, false, wh.0, wh.1) == 104.0
  {
  }

  class Slider {
    const min: real
    const max: real
    const step: real
    const defvalue: real
    const sensitivity: real
    const enable: bool
    const conv: Option<real -> real>
    /** `tracking == "abs"` */
    const absTracking: bool
    /** `direction == "horz"`, which absolute tracking tests */
    const directionHorz: bool
    /** `dr != "vert"`, which relative dragging tests */
    const horizontal: bool
    const dlen: real

    /** The stored value, `_value`. */
    var value: real
    var oldvalue: Option<real>
    var convValue: TipValue
    var drag: bool
    /** `lastShift`, `startPosX`, `startPosY` and `startVal`: fields of the element,
        so they outlive a gesture; a release sets the positions to null (0). */
    var anchor: Anchor
    var moveListening: bool
    var upListening: bool

    ghost predicate Valid()
      reads this
    {
      step > 0.0 && min <= max
      && min <= value <= max
      && (oldvalue.Some? ==> oldvalue.value == value)
      && (moveListening ==> upListening)
    }

    /** Setup: the redraw at the end of setup clamps the initial value into range.
        The slider divides by `step` and its redraw clamps by recursion, so it needs
        a positive step and min <= max. */
    constructor (min: real, max: real, step: real, defvalue: real, sensitivity: real, enable: bool,
                 conv: Option<real -> real>, tracking: string, direction: Option<string>,
                 width: real, height: real, ditchlength: real, value: real)
      requires step > 0.0 && min <= max
      ensures this.min == min && this.max == max && this.step == step
      ensures this.defvalue == defvalue && this.sensitivity == sensitivity
      ensures this.enable == enable && this.conv == conv
      ensures absTracking == (tracking == "abs") && directionHorz == (direction == Some("horz"))
      ensures horizontal == Horizontal(direction, width, height)
      ensures var wh := SliderSize(direction, width, height);
              dlen == TrackLength(ditchlength, horizontal, wh.0, wh.1)
      ensures this.value == Clamp(value, min, max) && oldvalue == None
      ensures convValue == ConvOf(conv, value)
      ensures !drag && !moveListening && !upListening && anchor.lastShift == None
      ensures Valid()
    {
      this.min := min;
      this.max := max;
      this.step := step;
      this.defvalue := defvalue;
      this.sensitivity := sensitivity;
      this.enable := enable;
      this.conv := conv;
      absTracking := tracking == "abs";
      directionHorz := direction == Some("horz");
      var h := Horizontal(direction, width, height);
      horizontal := h;
      var wh := SliderSize(direction, width, height);
      dlen := TrackLength(ditchlength, h, wh.0, wh.1);
      this.value := Clamp(value, min, max);
      oldvalue := None;
      convValue := ConvOf(conv, value);
      drag := false;
      anchor := Anchor(None, 0.0, 0.0, 0.0);
      moveListening := false;
      upListening := false;
    }

    /** `_setValue(v)`: snap onto the grid and clamp, and report whether the stored
        value differs from `oldvalue`; `convValue` follows only a change. */
    method StoreValue(v: real) returns (changed: bool)
      requires Valid()
      modifies this
      ensures value == SliderTarget(v, min, max, step)
      ensures changed <==> Changed(value, old(oldvalue))
      ensures oldvalue == Some(value)
      ensures convValue == if changed then ConvOf(conv, value) else old(convValue)
      ensures drag == old(drag) && anchor == old(anchor)
      ensures moveListening == old(moveListening) && upListening == old(upListening)
      ensures Valid()
    {
      value := SliderTarget(v, min, max, step);
      changed := oldvalue != Some(value);
      if changed {
        oldvalue := Some(value);
        convValue := ConvOf(conv, value);
      }
    }

    /** `setValue(v, f)`: commit, then send "input" and "change" when the commit
        changed the value and `f` is set. */
    method SetValue(v: real, f: bool) returns (events: seq<Event>)
      requires Valid()
      modifies this
      ensures value == SliderTarget(v, min, max, step) && oldvalue == Some(value)
      ensures events == Notify(Changed(value, old(oldvalue)), f)
      ensures convValue == if Changed(value, old(oldvalue)) then ConvOf(conv, value) else old(convValue)
      ensures drag == old(drag) && anchor == old(anchor)
      ensures moveListening == old(moveListening) && upListening == old(upListening)
      ensures Valid()
    {
      var changed := StoreValue(v);
      events := Notify(changed, f);
    }

    /** `wheel`: a commit of the value moved by the wheel step, with events (the slider
        does not test `enable` here). */
    method Wheel(deltaY: real, shift: bool) returns (events: seq<Event>)
      requires Valid()
      modifies this
      ensures value == SliderTarget(old(value) + WheelDelta(min, max, step, deltaY, shift), min, max, step)
      ensures events == Notify(Changed(value, old(oldvalue)), true)
      ensures drag == old(drag) && anchor == old(anchor)
      ensures moveListening == old(moveListening) && upListening == old(upListening)
      ensures Valid()
    {
      events := SetValue(value + WheelDelta(min, max, step, deltaY, shift), true);
    }

    /** The value the move handler proposes for sample `s` from anchor `a`: the
        pointer's place along the track with absolute tracking, otherwise the drag
        proposal truncated onto the grid. */
    function MoveProposal(a: Anchor, s: Sample): real {
      if absTracking then AbsoluteProposal(min, max, AbsoluteFraction(directionHorz, s.ratioX, s.ratioY))
      else DragProposal(min, max, step, a.startVal, SliderOffset(horizontal, a, s.x, s.y, sensitivity),
                        s.shift == Some(true), dlen)
    }

    /** The move handler: a change of shift state re-anchors at this sample, the
        proposal is committed without events, and "input" is sent regardless. */
    method Move(s: Sample) returns (events: seq<Event>)
      requires Valid()
      modifies this
      ensures anchor == Follow(old(anchor), s.shift, s.x, s.y, old(value))
      ensures value == SliderTarget(MoveProposal(anchor, s), min, max, step) && oldvalue == Some(value)
      ensures convValue == if Changed(value, old(oldvalue)) then ConvOf(conv, value) else old(convValue)
      ensures events == [Input]
      ensures drag == old(drag) && moveListening == old(moveListening) && upListening == old(upListening)
      ensures Valid()
    {
      anchor := Follow(anchor, s.shift, s.x, s.y, value);
      var _ := StoreValue(MoveProposal(anchor, s));
      events := [Input];
    }

    /** A move event reaches the handler only while its listener is installed. */
    method PointerMove(s: Sample) returns (events: seq<Event>)
      requires Valid()
      modifies this
      ensures !old(moveListening) ==> events == [] && unchanged(this)
      ensures old(moveListening) ==>
                anchor == Follow(old(anchor), s.shift, s.x, s.y, old(value))
                && value == SliderTarget(MoveProposal(anchor, s), min, max, step)
                && events == [Input]
      ensures drag == old(drag) && moveListening == old(moveListening) && upListening == old(upListening)
      ensures Valid()
    {
      if !moveListening {
        return [];
      }
      events := Move(s);
    }

    /** `pointerdown` as written: a disabled slider or an unaccepted mouse press does
        nothing. With ctrl or meta the default value is committed with events and no
        move listener is installed; otherwise the press anchors at the sample and the
        current value. Then, on both paths, the move handler runs once on the press. */
    method PointerDown(p: Pointer, s: Sample) returns (events: seq<Event>)
      requires Valid()
      modifies this
      ensures !enable || !Accepts(p) ==> events == [] && unchanged(this)
      ensures enable && Accepts(p) ==> drag && upListening
      ensures enable && Accepts(p) && p.Mouse? && p.ctrlOrMeta ==>
                var reset := SliderTarget(defvalue, min, max, step);
                anchor == Follow(old(anchor), s.shift, s.x, s.y, reset)
                && value == SliderTarget(MoveProposal(anchor, s), min, max, step)
                && events == Notify(Changed(reset, old(oldvalue)), true) + [Input]
                && moveListening == old(moveListening)
      ensures enable && Accepts(p) && !(p.Mouse? && p.ctrlOrMeta) ==>
                anchor == Follow(old(anchor).(startX := s.x, startY := s.y, startVal := old(value)),
                                 s.shift, s.x, s.y, old(value))
                && value == SliderTarget(MoveProposal(anchor, s), min, max, step)
                && events == [Input]
                && moveListening
      ensures Valid()
    {
      if !enable || !Accepts(p) {
        return [];
      }
      drag := true;
      var first: seq<Event>;
      if p.Mouse? && p.ctrlOrMeta {
        first := SetValue(defvalue, true);
      } else {
        anchor := anchor.(startX := s.x, startY := s.y, startVal := value);
        moveListening := true;
        first := [];
      }
      upListening := true;
      var moved := Move(s);
      events := first + moved;
    }

    /** `pointerdown` as evidently intended: a ctrl or meta press resets to the
        default value and stops there; other presses are as written. */
    method PointerDownIntended(p: Pointer, s: Sample) returns (events: seq<Event>)
      requires Valid()
      modifies this
      ensures !enable || !Accepts(p) ==> events == [] && unchanged(this)
      ensures enable && Accepts(p) ==> drag && upListening
      ensures enable && Accepts(p) && p.Mouse? && p.ctrlOrMeta ==>
                value == SliderTarget(defvalue, min, max, step)
                && events == Notify(Changed(value, old(oldvalue)), true)
                && anchor == old(anchor) && moveListening == old(moveListening)
      ensures enable && Accepts(p) && !(p.Mouse? && p.ctrlOrMeta) ==>
                anchor == Follow(old(anchor).(startX := s.x, startY := s.y, startVal := old(value)),
                                 s.shift, s.x, s.y, old(value))
                && value == SliderTarget(MoveProposal(anchor, s), min, max, step)
                && events == [Input]
                && moveListening
      ensures Valid()
    {
      if !enable || !Accepts(p) {
        return [];
      }
      drag := true;
      upListening := true;
      if p.Mouse? && p.ctrlOrMeta {
        events := SetValue(defvalue, true);
      } else {
        anchor := anchor.(startX := s.x, startY := s.y, startVal := value);
        moveListening := true;
        events := Move(s);
      }
    }

    /** The release handler: it ends the drag, nulls the anchor position, removes the
        listeners and sends "change". `lastShift` and `startVal` stay. */
    method PointerUp() returns (events: seq<Event>)
      requires Valid()
      modifies this
      ensures !old(upListening) ==> events == [] && unchanged(this)
      ensures old(upListening) ==>
                events == [Change] && !drag && !moveListening && !upListening
                && anchor == old(anchor).(startX := 0.0, startY := 0.0)
      ensures value == old(value) && oldvalue == old(oldvalue) && convValue == old(convValue)
      ensures Valid()
    {
      if !upListening {
        return [];
      }
      drag := false;
      anchor := anchor.(startX := 0.0, startY := 0.0);
      moveListening := false;
      upListening := false;
      events := [Change];
    }
  }

  /** As written, a ctrl-click on a horizontal relative slider over [0, 100] (step 1,
      track 104 px) that was last dragged from the value 30 and released with shift
      up: the reset to 50 is followed by the move handler, which keeps the stale
      anchor (the shift state did not change) and, at page x 52, stores 80. */
  lemma CtrlResetOverriddenAsWritten()
    ensures var a := Anchor(Some(false), 0.0, 0.0, 30.0);
            var offset := SliderOffset(true, a, 52.0, 10.0, 1.0);
            SliderTarget(DragProposal(0.0, 100.0, 1.0, a.startVal, offset, false, 104.0), 0.0, 100.0, 1.0) == 80.0
  {
    var a := Anchor(Some(false), 0.0, 0.0, 30.0);
    assert SliderOffset(true, a, 52.0, 10.0, 1.0) == 52.0;
    assert DragAim(0.0, 100.0, 30.0, 52.0, false, 104.0) == 80.0;
    TruncateToGridOnPoint(0.0, 1.0, 80);
    assert DragProposal(0.0, 100.0, 1.0, 30.0, 52.0, false, 104.0) == 80.0;
    assert Round(80.0 / 1.0) == 80;
  }

  /** With absolute tracking, every pointer sample proposes a value in [min, max]. */
  lemma AbsoluteProposalInRange(min: real, max: real, directionHorz: bool, ratioX: real, ratioY: real)
    requires min <= max
    ensures min <= AbsoluteProposal(min, max, AbsoluteFraction(directionHorz, ratioX, ratioY)) <= max
  {
  }
}
