/** The switch of webaudio-controls.js: `setValue`, and the press and release of its
    three types (kick, toggle, radio). */
module SwitchControl {
  import opened Wrappers
  import opened ValueRule

  /** The `type` attribute: "kick", "toggle" (the default), "radio", or anything else,
      which makes a press do nothing but start the drag. */
  datatype SwitchType = Kick | Toggle | Radio | Other

  /** `getAttr("type", "toggle")`: a missing or empty attribute is "toggle". */
  function TypeOf(attr: Option<string>): (t: SwitchType)
    ensures attr == None || attr == Some("") ==> t == Toggle
    ensures t == Radio <==> attr == Some("radio")
  {
    match attr
    case None => Toggle
    case Some(a) =>
      if a == "" || a == "toggle" then Toggle
      else if a == "kick" then Kick
      else if a == "radio" then Radio
      else Other
  }

  /** `getAttr("group", "")`. */
  function GroupOf(attr: Option<string>): string {
    attr.GetOr("")
  }

  /** The radio query `webaudio-switch[type='radio'][group='g']` with g the group of
      the pressed switch: an attribute selector matches only a switch that has the
      `group` attribute with exactly that text. */
  predicate InRadioGroup(kind: SwitchType, groupAttr: Option<string>, g: string) {
    kind == Radio && groupAttr == Some(g)
  }

  /** A radio switch without a `group` attribute is not matched by its own query. */
  lemma UngroupedRadioMissesItself()
    ensures !InRadioGroup(Radio, None, GroupOf(None))
  {
  }

  class Switch {
    const enable: bool
    const kind: SwitchType
    const groupAttr: Option<string>
    const defvalue: real

    var value: real
    var oldvalue: Option<real>
    /** `checked`, left undefined (None) by setup. */
    var checked: Option<bool>
    var drag: bool
    var upListening: bool

    ghost predicate Valid()
      reads this
    {
      checked.Some? ==> checked.value == (value != 0.0)
    }

    constructor (enable: bool, typeAttr: Option<string>, groupAttr: Option<string>, defvalue: real, value: real)
      ensures this.enable == enable && kind == TypeOf(typeAttr) && this.groupAttr == groupAttr
      ensures this.defvalue == defvalue
      ensures this.value == value && oldvalue == None && checked == None
      ensures !drag && !upListening
      ensures Valid()
    {
      this.enable := enable;
      kind := TypeOf(typeAttr);
      this.groupAttr := groupAttr;
      this.defvalue := defvalue;
      this.value := value;
      oldvalue := None;
      checked := None;
      drag := false;
      upListening := false;
    }

    /** `setValue(v, f)`: the value is stored as given (no range, no grid) and
        `checked` follows it; a value different from `oldvalue` becomes the new
        `oldvalue` and, with `f`, sends "input" and "change". */
    method SetValue(v: real, f: bool) returns (events: seq<Event>)
      modifies this
      ensures value == v && checked == Some(v != 0.0) && oldvalue == Some(v)
      ensures events == Notify(Changed(v, old(oldvalue)), f)
      ensures drag == old(drag) && upListening == old(upListening)
      ensures Valid()
    {
      value := v;
      checked := Some(v != 0.0);
      var changed := oldvalue != Some(value);
      if changed {
        oldvalue := Some(value);
      }
      events := Notify(changed, f);
    }

    /** The radio loop: every switch of the group query is set without events, this
        one to 1 and the others to 0. */
    method SelectInGroup(group: seq<Switch>)
      requires forall j, k :: 0 <= j < k < |group| ==> group[j] != group[k]
      modifies group
      ensures forall k :: 0 <= k < |group| ==>
                group[k].value == (if group[k] == this then 1.0 else 0.0)
                && group[k].checked == Some(group[k] == this)
                && group[k].oldvalue == Some(group[k].value)
                && group[k].drag == old(group[k].drag)
                && group[k].upListening == old(group[k].upListening)
      ensures forall k :: 0 <= k < |group| ==> (group[k].value == 1.0 <==> group[k] == this)
      ensures this !in group ==> unchanged(this)
    {
      for i := 0 to |group|
        invariant forall k :: 0 <= k < i ==>
                    group[k].value == (if group[k] == this then 1.0 else 0.0)
                    && group[k].checked == Some(group[k] == this)
                    && group[k].oldvalue == Some(group[k].value)
                    && group[k].drag == old(group[k].drag)
                    && group[k].upListening == old(group[k].upListening)
        invariant forall k :: i <= k < |group| ==>
                    group[k].value == old(group[k].value) && group[k].checked == old(group[k].checked)
                    && group[k].oldvalue == old(group[k].oldvalue)
                    && group[k].drag == old(group[k].drag)
                    && group[k].upListening == old(group[k].upListening)
        invariant this !in group ==> unchanged(this)
      {
        var _ := group[i].SetValue(if group[i] == this then 1.0 else 0.0, false);
      }
    }

    /** `pointerdown`: a disabled switch or an unaccepted mouse press does nothing.
        Otherwise the drag starts and the type decides: a kick sets 1 without events
        and sends "change"; a toggle flips `1 - value` (leaving `oldvalue`) and sends
        "change", except that with ctrl or meta it reads an undeclared `defvalue`
        and throws before anything else happens; a radio selects this switch in its
        group and sends "change". Unless it threw, the release listener is installed. */
    method PointerDown(p: Pointer, group: seq<Switch>) returns (events: seq<Event>, thrown: bool)
      requires Valid()
      requires forall j, k :: 0 <= j < k < |group| ==> group[j] != group[k]
      requires forall s :: s in group ==> s.Valid()
      modifies this, group
      ensures !enable || !Accepts(p) ==> events == [] && !thrown && unchanged(this) && unchanged(group)
      ensures enable && Accepts(p) ==> drag && (if thrown then upListening == old(upListening) else upListening)
      ensures thrown <==> enable && Accepts(p) && kind == Toggle && p.Mouse? && p.ctrlOrMeta
      ensures thrown ==>
                events == [] && value == old(value) && checked == old(checked)
                && unchanged(set s | s in group && s != this)
      ensures enable && Accepts(p) && kind == Kick ==>
                value == 1.0 && checked == Some(true) && oldvalue == Some(1.0)
                && events == [Change] && unchanged(set s | s in group && s != this)
      ensures enable && Accepts(p) && kind == Toggle && !thrown ==>
                value == 1.0 - old(value) && checked == Some(value != 0.0) && oldvalue == old(oldvalue)
                && events == [Change] && unchanged(set s | s in group && s != this)
      ensures enable && Accepts(p) && kind == Radio ==>
                events == [Change]
                && (forall k :: 0 <= k < |group| ==>
                      group[k].value == (if group[k] == this then 1.0 else 0.0)
                      && group[k].checked == Some(group[k] == this)
                      && group[k].oldvalue == Some(group[k].value))
                && (this !in group ==> value == old(value) && checked == old(checked) && oldvalue == old(oldvalue))
      ensures enable && Accepts(p) && kind == Other ==>
                events == [] && value == old(value) && checked == old(checked) && unchanged(set s | s in group && s != this)
      ensures Valid() && forall s :: s in group ==> s.Valid()
    {
      if !enable || !Accepts(p) {
        return [], false;
      }
      drag := true;
      thrown := false;
      match kind {
        case Kick =>
          var _ := SetValue(1.0, false);
          events := [Change];
        case Toggle =>
          if p.Mouse? && p.ctrlOrMeta {
            thrown := true;
            events := [];
          } else {
            value := 1.0 - value;
            checked := Some(value != 0.0);
            events := [Change];
          }
        case Radio =>
          SelectInGroup(group);
          events := [Change];
        case Other =>
          events := [];
      }
      if !thrown {
        upListening := true;
      }
    }

    /** The release listener: it ends the drag; a kick switch falls back to 0 (with
        `oldvalue` left at 1) and sends "change"; every switch then sends "click". */
    method PointerUp() returns (events: seq<Event>)
      requires Valid()
      modifies this
      ensures !old(upListening) ==> events == [] && unchanged(this)
      ensures old(upListening) && kind == Kick ==>
                events == [Change, Click] && value == 0.0 && checked == Some(false)
      ensures old(upListening) && kind != Kick ==>
                events == [Click] && value == old(value) && checked == old(checked)
      ensures old(upListening) ==> !drag && !upListening
      ensures oldvalue == old(oldvalue)
      ensures Valid()
    {
      if !upListening {
        return [];
      }
      drag := false;
      upListening := false;
      if kind == Kick {
        value := 0.0;
        checked := Some(false);
        events := [Change, Click];
      } else {
        events := [Click];
      }
    }
  }
}
