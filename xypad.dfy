/** The XY pad of webaudio-controls.js: two values on one grid, each committed on
    its own, and a pointer gesture that tracks the pointer's absolute position. */
module XYPadControl {
  import opened Wrappers
  import opened ValueRule

  /** `convValue` after a change of either axis: the conversion applied to both
      values, or the pair `{x, y}` without one. */
  function ConvXY(conv: Option<(real, real) -> TipValue>, x: real, y: real): (t: TipValue)
    ensures conv.None? ==> t == Pair(x, y)
  {
    match conv
    case None => Pair(x, y)
    case Some(f) => f(x, y)
  }

  class XYPad {
    const min: real
    const max: real
    const step: real
    const enable: bool
    const conv: Option<(real, real) -> TipValue>

    var x: real
    var y: real
    var oldx: Option<real>
    var oldy: Option<real>
    var convValue: TipValue
    var drag: bool
    var moveListening: bool
    var upListening: bool

    ghost predicate Valid()
      reads this
    {
      step > 0.0
      && (oldx.Some? ==> oldx.value == x && (min <= max ==> min <= x <= max))
      && (oldy.Some? ==> oldy.value == y && (min <= max ==> min <= y <= max))
      && (moveListening ==> upListening)
    }

    /** Setup: the attribute values are taken as they are (the pad's redraw clamps
        nothing). Its redraw counts the step's decimals, which needs a positive step. */
    constructor (min: real, max: real, step: real, enable: bool,
                 conv: Option<(real, real) -> TipValue>, x: real, y: real)
      requires step > 0.0
      ensures this.min == min && this.max == max && this.step == step
      ensures this.enable == enable && this.conv == conv
      ensures this.x == x && this.y == y && oldx == None && oldy == None
      ensures convValue == ConvXY(conv, x, y)
      ensures !drag && !moveListening && !upListening
      ensures Valid()
    {
      this.min := min;
      this.max := max;
      this.step := step;
      this.enable := enable;
      this.conv := conv;
      this.x := x;
      this.y := y;
      oldx := None;
      oldy := None;
      convValue := ConvXY(conv, x, y);
      drag := false;
      moveListening := false;
      upListening := false;
    }

    /** `_setX(v)`: snap and clamp x, report whether it differs from `oldx`; y is
        left alone and `convValue` follows only a change. */
    method StoreX(v: real) returns (changed: bool)
      requires Valid()
      modifies this
      ensures x == SliderTarget(v, min, max, step) && y == old(y)
      ensures changed <==> Changed(x, old(oldx))
      ensures oldx == Some(x) && oldy == old(oldy)
      ensures convValue == if changed then ConvXY(conv, x, y) else old(convValue)
      ensures drag == old(drag) && moveListening == old(moveListening) && upListening == old(upListening)
      ensures Valid()
    {
      x := SliderTarget(v, min, max, step);
      changed := oldx != Some(x);
      if changed {
        oldx := Some(x);
        convValue := ConvXY(conv, x, y);
      }
    }

    /** `_setY(v)`: the same for y. */
    method StoreY(v: real) returns (changed: bool)
      requires Valid()
      modifies this
      ensures y == SliderTarget(v, min, max, step) && x == old(x)
      ensures changed <==> Changed(y, old(oldy))
      ensures oldy == Some(y) && oldx == old(oldx)
      ensures convValue == if changed then ConvXY(conv, x, y) else old(convValue)
      ensures drag == old(drag) && moveListening == old(moveListening) && upListening == old(upListening)
      ensures Valid()
    {
      y := SliderTarget(v, min, max, step);
      changed := oldy != Some(y);
      if changed {
        oldy := Some(y);
        convValue := ConvXY(conv, x, y);
      }
    }

    /** `setX(v, f)`: events only for a change with `f` set. */
    method SetX(v: real, f: bool) returns (events: seq<Event>)
      requires Valid()
      modifies this
      ensures x == SliderTarget(v, min, max, step) && y == old(y) && oldy == old(oldy)
      ensures events == Notify(Changed(x, old(oldx)), f)
      ensures drag == old(drag) && moveListening == old(moveListening) && upListening == old(upListening)
      ensures Valid()
    {
      var changed := StoreX(v);
      events := Notify(changed, f);
    }

    /** `setY(v, f)`: events only for a change with `f` set. */
    method SetY(v: real, f: bool) returns (events: seq<Event>)
      requires Valid()
      modifies this
      ensures y == SliderTarget(v, min, max, step) && x == old(x) && oldx == old(oldx)
      ensures events == Notify(Changed(y, old(oldy)), f)
      ensures drag == old(drag) && moveListening == old(moveListening) && upListening == old(upListening)
      ensures Valid()
    {
      var changed := StoreY(v);
      events := Notify(changed, f);
    }

    /** The move handler: x follows the pointer left to right, y bottom to top, each
        committed without events; "input" is sent regardless. */
    method Move(s: Sample) returns (events: seq<Event>)
      requires Valid()
      modifies this
      ensures x == SliderTarget(min + (max - min) * s.ratioX, min, max, step)
      ensures y == SliderTarget(min + (max - min) * (1.0 - s.ratioY), min, max, step)
      ensures oldx == Some(x) && oldy == Some(y)
      ensures events == [Input]
      ensures drag == old(drag) && moveListening == old(moveListening) && upListening == old(upListening)
      ensures Valid()
    {
      var _ := StoreX(min + (max - min) * s.ratioX);
      var _ := StoreY(min + (max - min) * (1.0 - s.ratioY));
      events := [Input];
    }

    /** A move event reaches the handler only while its listener is installed. */
    method PointerMove(s: Sample) returns (events: seq<Event>)
      requires Valid()
      modifies this
      ensures !old(moveListening) ==> events == [] && unchanged(this)
      ensures old(moveListening) ==>
                x == SliderTarget(min + (max - min) * s.ratioX, min, max, step)
                && y == SliderTarget(min + (max - min) * (1.0 - s.ratioY), min, max, step)
                && events == [Input]
      ensures drag == old(drag) && moveListening == old(moveListening) && upListening == old(upListening)
      ensures Valid()
    {
      if !moveListening {
        return [];
      }
      events := Move(s);
    }

    /** `pointerdown`: a disabled pad or an unaccepted mouse press does nothing.
        Otherwise the drag starts and the move handler runs on the press. A ctrl or
        meta press then calls the pad's missing `setValue`, which throws, so no
        listener is installed; any other press installs both. */
    method PointerDown(p: Pointer, s: Sample) returns (events: seq<Event>, thrown: bool)
      requires Valid()
      modifies this
      ensures !enable || !Accepts(p) ==> events == [] && !thrown && unchanged(this)
      ensures enable && Accepts(p) ==>
                drag && events == [Input]
                && x == SliderTarget(min + (max - min) * s.ratioX, min, max, step)
                && y == SliderTarget(min + (max - min) * (1.0 - s.ratioY), min, max, step)
      ensures enable && Accepts(p) ==> (thrown <==> p.Mouse? && p.ctrlOrMeta)
      ensures enable && Accepts(p) && thrown ==>
                moveListening == old(moveListening) && upListening == old(upListening)
      ensures enable && Accepts(p) && !thrown ==> moveListening && upListening
      ensures Valid()
    {
      if !enable || !Accepts(p) {
        return [], false;
      }
      drag := true;
      events := Move(s);
      thrown := p.Mouse? && p.ctrlOrMeta;
      if !thrown {
        moveListening := true;
        upListening := true;
      }
    }

    /** The release handler: it ends the drag, removes the listeners and sends
        "change". */
    method PointerUp() returns (events: seq<Event>)
      requires Valid()
      modifies this
      ensures !old(upListening) ==> events == [] && unchanged(this)
      ensures old(upListening) ==> events == [Change] && !drag && !moveListening && !upListening
      ensures x == old(x) && y == old(y) && oldx == old(oldx) && oldy == old(oldy)
      ensures convValue == old(convValue)
      ensures Valid()
    {
      if !upListening {
        return [];
      }
      drag := false;
      moveListening := false;
      upListening := false;
      events := [Change];
    }
  }

  /** A pointer left of the pad stores x = min, and one below it stores y = min. */
  lemma {:induction false} OutsidePadStoresMin(min: real, max: real, step: real, ratioX: real, ratioY: real)
    requires step > 0.0 && min <= max
    ensures ratioX <= 0.0 ==> SliderTarget(min + (max - min) * ratioX, min, max, step) == min
    ensures ratioY >= 1.0 ==> SliderTarget(min + (max - min) * (1.0 - ratioY), min, max, step) == min
  {
    if ratioX <= 0.0 {
      MulMono(ratioX, 0.0, max - min);
      SliderTargetAtOrBelowMin(min + (max - min) * ratioX, min, max, step);
    }
    if ratioY >= 1.0 {
      MulMono(1.0 - ratioY, 0.0, max - min);
      SliderTargetAtOrBelowMin(min + (max - min) * (1.0 - ratioY), min, max, step);
    }
  }
}
