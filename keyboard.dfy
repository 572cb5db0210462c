/** The keyboard of webaudio-controls.js: the value commit, the computer-keyboard
    note keys with repeat suppression, the pointer gesture that collects the keys
    under the contacts, `sendevent`'s note diff and the duplicate-free display set. */
module KeyboardControl {
  import opened Wrappers
  import opened JsNumber
  import opened ValueRule
  import opened Sequences
  import opened KeyboardNotes

  /** A window event seen by the gesture's listeners: a mouse event at one contact,
      or a touch event with the element's target touches and the count of all
      touches still down. */
  datatype PointerEvent = MouseAt(at: Contact) | Touches(targetTouches: seq<Contact>, touches: nat)

  /** The contacts the move handler reads: the target touches of a touch event, the
      mouse itself while a press is counted, and none otherwise. */
  function Contacts(ev: PointerEvent, press: int): (p: seq<Contact>)
    ensures ev.Touches? ==> p == ev.targetTouches
    ensures ev.MouseAt? ==> (p != [] <==> press != 0)
  {
    match ev
    case Touches(targetTouches, _) => targetTouches
    case MouseAt(at) => if press != 0 then [at] else []
  }

  /** The press count a release leaves: the touches still down, or 0 for a mouse. */
  function PressAfterUp(ev: PointerEvent): (press: nat)
    ensures ev.MouseAt? ==> press == 0
  {
    match ev
    case Touches(_, touches) => touches
    case MouseAt(_) => 0
  }

  /** The first two loops of `sendevent`: a release for every key of `held` not in
      `now`, then a press for every key of `now` not in `held`. */
  method NoteDiffLoop(held: seq<int>, now: seq<int>) returns (notes: seq<Note>)
    ensures notes == NoteDiff(held, now)
  {
    notes := [];
    var i := 0;
    while i < |held|
      invariant 0 <= i <= |held|
      invariant notes == Releases(held[..i], now)
    {
      assert held[..i + 1][..i] == held[..i];
      if IndexOf(now, held[i]) < 0 {
        notes := notes + [Note(false, held[i])];
      }
      i := i + 1;
    }
    assert held[..i] == held;
    i := 0;
    while i < |now|
      invariant 0 <= i <= |now|
      invariant notes == Releases(held, now) + Presses(now[..i], held)
    {
      assert now[..i + 1][..i] == now[..i];
      if IndexOf(held, now[i]) < 0 {
        notes := notes + [Note(true, now[i])];
      }
      i := i + 1;
    }
    assert now[..i] == now;
  }

  class Keyboard {
    const enable: bool
    /** `min` and `max` after setup stepped a black end outward. */
    const min: int
    const max: int

    /** `_value` and `oldvalue`: both undefined until the first commit. */
    var value: Option<real>
    var oldvalue: Option<real>
    /** `currentKey`: undefined until the first note key, -1 after a key-up. */
    var currentKey: Option<int>
    var press: int
    var drag: bool
    /** The keys the last pointer sample collected, and the keys last reported. */
    var values: seq<int>
    var valuesold: seq<int>
    /** The keys drawn as pressed. */
    var dispvalues: seq<int>
    /** How many pointer-downs have installed window listeners not yet removed. */
    var listenerSets: nat

    ghost predicate Valid()
      reads this
    {
      NoDup(dispvalues)
      && (value.Some? ==> oldvalue == value)
      && (value.Some? && min <= max ==> min as real <= value.value <= max as real)
    }

    /** `sendevent` took the held list `held` to `values` and emitted `notes`, and the
        display set `disp` took each of them in turn. */
    ghost predicate SentFrom(held: seq<int>, disp: seq<int>, notes: seq<Note>)
      reads this
    {
      notes == NoteDiff(held, values)
      && valuesold == (if notes == [] then held else values)
      && dispvalues == ApplyNotes(disp, notes)
    }

    /** Setup: the range from `min` and `keys`, nothing held and nothing shown. */
    constructor (enable: bool, min: int, keys: int)
      ensures this.enable == enable
      ensures (this.min, this.max) == KeyRange(min, keys)
      ensures value == None && oldvalue == None && currentKey == None
      ensures press == 0 && !drag && listenerSets == 0
      ensures values == [] && valuesold == [] && dispvalues == []
      ensures Valid()
    {
      this.enable := enable;
      var r := KeyRange(min, keys);
      this.min := r.0;
      this.max := r.1;
      value := None;
      oldvalue := None;
      currentKey := None;
      press := 0;
      drag := false;
      values := [];
      valuesold := [];
      dispvalues := [];
      listenerSets := 0;
    }

    /** `_setValue(v)`: the keyboard has no `step`, so the value is only clamped, and
        the result reports whether it differs from `oldvalue`. */
    method StoreValue(v: real) returns (changed: bool)
      requires Valid()
      modifies this
      ensures Valid()
      ensures value == Some(Clamp(v, min as real, max as real))
      ensures changed <==> old(oldvalue) != value
      ensures oldvalue == value
      ensures currentKey == old(currentKey) && press == old(press) && drag == old(drag)
      ensures values == old(values) && valuesold == old(valuesold)
      ensures dispvalues == old(dispvalues) && listenerSets == old(listenerSets)
    {
      var stored := Clamp(v, min as real, max as real);
      value := Some(stored);
      changed := false;
      if value != oldvalue {
        oldvalue := value;
        changed := true;
      }
    }

    /** `setValue(v, f)`: "input" then "change" when the commit changed the value and
        `f` asks for events. */
    method SetValue(v: real, f: bool) returns (events: seq<Event>)
      requires Valid()
      modifies this
      ensures Valid()
      ensures value == Some(Clamp(v, min as real, max as real)) && oldvalue == value
      ensures events == Notify(old(oldvalue) != value, f)
      ensures currentKey == old(currentKey) && press == old(press) && drag == old(drag)
      ensures values == old(values) && valuesold == old(valuesold)
      ensures dispvalues == old(dispvalues) && listenerSets == old(listenerSets)
    {
      var changed := StoreValue(v);
      events := Notify(changed, f);
    }

    /** `setdispvalues(state, note)`: a press adds the key unless shown, a release
        cuts its first occurrence out. */
    method SetDispValues(on: bool, k: int)
      requires Valid()
      modifies this
      ensures Valid()
      ensures dispvalues == DispAfter(old(dispvalues), on, k)
      ensures forall x :: x in dispvalues <==> if on then x in old(dispvalues) || x == k else x in old(dispvalues) && x != k
      ensures value == old(value) && oldvalue == old(oldvalue) && currentKey == old(currentKey)
      ensures press == old(press) && drag == old(drag) && values == old(values)
      ensures valuesold == old(valuesold) && listenerSets == old(listenerSets)
    {
      DispAfterMembers(dispvalues, on, k);
      var n := IndexOf(dispvalues, k);
      if on {
        if n < 0 {
          dispvalues := dispvalues + [k];
        }
      } else if n >= 0 {
        dispvalues := dispvalues[..n] + dispvalues[n + 1..];
      }
    }

    /** `sendevent`: a release for every reported key no longer collected, then a
        press for every collected key not reported; when there is any, the collected
        keys become the reported ones and each note in turn updates the display set
        and is dispatched. */
    method SendEvent() returns (notes: seq<Note>)
      requires Valid()
      modifies this
      ensures Valid()
      ensures SentFrom(old(valuesold), old(dispvalues), notes)
      ensures value == old(value) && oldvalue == old(oldvalue) && currentKey == old(currentKey)
      ensures press == old(press) && drag == old(drag) && values == old(values)
      ensures listenerSets == old(listenerSets)
    {
      notes := NoteDiffLoop(valuesold, values);
      if |notes| > 0 {
        valuesold := values;
        ShowNotes(notes);
      }
    }

    /** The last loop of `sendevent`: each note in turn updates the display set. */
    method ShowNotes(notes: seq<Note>)
      requires Valid()
      modifies this
      ensures Valid()
      ensures dispvalues == ApplyNotes(old(dispvalues), notes)
      ensures value == old(value) && oldvalue == old(oldvalue) && currentKey == old(currentKey)
      ensures press == old(press) && drag == old(drag) && values == old(values)
      ensures valuesold == old(valuesold) && listenerSets == old(listenerSets)
    {
      var i := 0;
      while i < |notes|
        invariant 0 <= i <= |notes|
        invariant Valid()
        invariant dispvalues == ApplyNotes(old(dispvalues), notes[..i])
        invariant value == old(value) && oldvalue == old(oldvalue) && currentKey == old(currentKey)
        invariant press == old(press) && drag == old(drag) && values == old(values)
        invariant valuesold == old(valuesold) && listenerSets == old(listenerSets)
      {
        ApplyNotesStep(old(dispvalues), notes, i);
        SetDispValues(notes[i].on, notes[i].key);
        i := i + 1;
      }
      assert notes[..i] == notes;
    }

    /** `keydown`: a note key plays its key unless that key is already `currentKey`,
        which suppresses auto-repeat; other keys do nothing. */
    method KeyDown(code: int) returns (notes: seq<Note>)
      requires Valid()
      modifies this
      ensures Valid()
      ensures KeyOfCode(code, min).None? ==> notes == [] && currentKey == old(currentKey) && dispvalues == old(dispvalues)
      ensures KeyOfCode(code, min).Some? ==>
                var k := KeyOfCode(code, min).value;
                currentKey == Some(k)
                && (old(currentKey) == Some(k) ==> notes == [] && dispvalues == old(dispvalues))
                && (old(currentKey) != Some(k) ==> notes == [Note(true, k)] && dispvalues == DispAfter(old(dispvalues), true, k))
      ensures value == old(value) && oldvalue == old(oldvalue) && press == old(press) && drag == old(drag)
      ensures values == old(values) && valuesold == old(valuesold) && listenerSets == old(listenerSets)
    {
      notes := [];
      var key := KeyOfCode(code, min);
      if key.Some? {
        var k := key.value;
        if currentKey != Some(k) {
          currentKey := Some(k);
          notes := [Note(true, k)];
          SetDispValues(true, k);
        }
      }
    }

    /** `keyup`: a note key releases its key and resets `currentKey` to -1. */
    method KeyUp(code: int) returns (notes: seq<Note>)
      requires Valid()
      modifies this
      ensures Valid()
      ensures KeyOfCode(code, min).None? ==> notes == [] && currentKey == old(currentKey) && dispvalues == old(dispvalues)
      ensures KeyOfCode(code, min).Some? ==>
                var k := KeyOfCode(code, min).value;
                currentKey == Some(-1) && notes == [Note(false, k)]
                && dispvalues == DispAfter(old(dispvalues), false, k)
      ensures value == old(value) && oldvalue == old(oldvalue) && press == old(press) && drag == old(drag)
      ensures values == old(values) && valuesold == old(valuesold) && listenerSets == old(listenerSets)
    {
      notes := [];
      var key := KeyOfCode(code, min);
      if key.Some? {
        var k := key.value;
        currentKey := Some(-1);
        notes := [Note(false, k)];
        SetDispValues(false, k);
      }
    }

    /** The gesture's move handler: on an enabled keyboard, collect the keys under
        the contacts that lie in [min, max], mark a drag when there is a contact, and
        send the note diff. */
    method Move(ev: PointerEvent) returns (notes: seq<Note>)
      requires Valid()
      modifies this
      ensures Valid()
      ensures !enable ==> notes == [] && drag == old(drag) && values == old(values)
                          && valuesold == old(valuesold) && dispvalues == old(dispvalues)
      ensures enable ==>
                var p := Contacts(ev, press);
                drag == (old(drag) || |p| > 0) && values == KeysIn(min, max, p)
                && SentFrom(old(valuesold), old(dispvalues), notes)
      ensures value == old(value) && oldvalue == old(oldvalue) && currentKey == old(currentKey)
      ensures press == old(press) && listenerSets == old(listenerSets)
    {
      notes := [];
      if !enable {
        return;
      }
      var p := Contacts(ev, press);
      if |p| > 0 {
        drag := true;
      }
      var v := [];
      var i := 0;
      while i < |p|
        invariant 0 <= i <= |p|
        invariant v == KeysIn(min, max, p[..i])
      {
        assert p[..i + 1][..i] == p[..i];
        var key := KeyAt(min, p[i]);
        if key.Some? && key.value >= min && key.value <= max {
          v := v + [key.value];
        }
        i := i + 1;
      }
      assert p[..i] == p;
      values := v;
      notes := SendEvent();
    }

    /** A window move event runs the move handler of every installed listener set;
        after the first, the rest find the same keys and emit nothing, so the whole
        is one move. */
    method PointerMove(ev: PointerEvent) returns (notes: seq<Note>)
      requires Valid()
      modifies this
      ensures Valid()
      ensures !(enable && listenerSets > 0) ==>
                notes == [] && drag == old(drag) && values == old(values)
                && valuesold == old(valuesold) && dispvalues == old(dispvalues)
      ensures enable && listenerSets > 0 ==>
                var p := Contacts(ev, press);
                drag == (old(drag) || |p| > 0) && values == KeysIn(min, max, p)
                && SentFrom(old(valuesold), old(dispvalues), notes)
      ensures value == old(value) && oldvalue == old(oldvalue) && currentKey == old(currentKey)
      ensures press == old(press) && listenerSets == old(listenerSets)
    {
      notes := [];
      var p := Contacts(ev, press);
      for i := 0 to listenerSets
        invariant Valid()
        invariant value == old(value) && oldvalue == old(oldvalue) && currentKey == old(currentKey)
        invariant press == old(press) && listenerSets == old(listenerSets)
        invariant !(enable && i > 0) ==>
                    notes == [] && drag == old(drag) && values == old(values)
                    && valuesold == old(valuesold) && dispvalues == old(dispvalues)
        invariant enable && i > 0 ==>
                    drag == (old(drag) || |p| > 0) && values == KeysIn(min, max, p)
                    && SentFrom(old(valuesold), old(dispvalues), notes)
      {
        if enable && i > 0 {
          SettledAfterSend(old(valuesold), values);
        }
        var more := Move(ev);
        notes := notes + more;
      }
    }

    /** `pointerdown`: an enabled keyboard counts the press; every pointer-down
        installs another set of window listeners and runs the move handler once. */
    method PointerDown(ev: PointerEvent) returns (notes: seq<Note>)
      requires Valid()
      modifies this
      ensures Valid()
      ensures press == if enable then old(press) + 1 else old(press)
      ensures listenerSets == old(listenerSets) + 1
      ensures !enable ==> notes == [] && drag == old(drag) && values == old(values)
                          && valuesold == old(valuesold) && dispvalues == old(dispvalues)
      ensures enable ==>
                var p := Contacts(ev, press);
                drag == (old(drag) || |p| > 0) && values == KeysIn(min, max, p)
                && SentFrom(old(valuesold), old(dispvalues), notes)
      ensures value == old(value) && oldvalue == old(oldvalue) && currentKey == old(currentKey)
    {
      if enable {
        press := press + 1;
      }
      listenerSets := listenerSets + 1;
      notes := Move(ev);
    }

    /** The release handler of one listener set: on an enabled keyboard, set the
        press count to the touches still down, run the move handler and `sendevent`;
        in any case end the drag. */
    method Release(ev: PointerEvent) returns (notes: seq<Note>)
      requires Valid()
      modifies this
      ensures Valid()
      ensures !drag
      ensures !enable ==> notes == [] && press == old(press) && values == old(values)
                          && valuesold == old(valuesold) && dispvalues == old(dispvalues)
      ensures enable ==>
                press == PressAfterUp(ev) && values == KeysIn(min, max, Contacts(ev, press))
                && SentFrom(old(valuesold), old(dispvalues), notes)
      ensures value == old(value) && oldvalue == old(oldvalue) && currentKey == old(currentKey)
      ensures listenerSets == old(listenerSets)
    {
      notes := [];
      if enable {
        press := PressAfterUp(ev);
        var moved := Move(ev);
        SettledAfterSend(old(valuesold), values);
        var sent := SendEvent();
        notes := moved + sent;
      }
      drag := false;
    }

    /** A window release event runs the release handler of every installed listener
        set, each of which removes its own listeners when no press remains. After the
        first handler the rest find the same keys and emit nothing. */
    method PointerUp(ev: PointerEvent) returns (notes: seq<Note>)
      requires Valid()
      modifies this
      ensures Valid()
      ensures old(listenerSets) == 0 ==>
                notes == [] && press == old(press) && drag == old(drag) && listenerSets == 0
                && values == old(values) && valuesold == old(valuesold) && dispvalues == old(dispvalues)
      ensures old(listenerSets) > 0 ==> !drag
      ensures old(listenerSets) > 0 && !enable ==>
                notes == [] && press == old(press) && listenerSets == old(listenerSets)
                && values == old(values) && valuesold == old(valuesold) && dispvalues == old(dispvalues)
      ensures old(listenerSets) > 0 && enable ==>
                press == PressAfterUp(ev)
                && listenerSets == (if press == 0 then 0 else old(listenerSets))
                && values == KeysIn(min, max, Contacts(ev, press))
                && SentFrom(old(valuesold), old(dispvalues), notes)
      ensures value == old(value) && oldvalue == old(oldvalue) && currentKey == old(currentKey)
    {
      notes := [];
      var sets := listenerSets;
      var removed := 0;
      for i := 0 to sets
        invariant Valid()
        invariant listenerSets == sets
        invariant value == old(value) && oldvalue == old(oldvalue) && currentKey == old(currentKey)
        invariant i > 0 ==> !drag
        invariant i == 0 ==> drag == old(drag)
        invariant !(enable && i > 0) ==>
                    notes == [] && press == old(press) && removed == 0
                    && values == old(values) && valuesold == old(valuesold) && dispvalues == old(dispvalues)
        invariant enable && i > 0 ==>
                    press == PressAfterUp(ev) && removed == (if press == 0 then i else 0)
                    && values == KeysIn(min, max, Contacts(ev, press))
                    && SentFrom(old(valuesold), old(dispvalues), notes)
      {
        if enable && i > 0 {
          SettledAfterSend(old(valuesold), values);
        }
        var more := Release(ev);
        notes := notes + more;
        if enable && press == 0 {
          removed := removed + 1;
        }
      }
      listenerSets := sets - removed;
    }
  }
}
