/** The MIDI side of the shared widget base: the controller binding, its match and
    rebinding, the learn capture, and how one widget answers a 3-byte message
    (`processMidiEvent`). Widgets are seen here as the values the binding and the
    value commit touch, keyed by an id; the document is the map of all of them. */
module MidiWidget {
  import opened Wrappers
  import opened JsText
  import opened ValueRule
  import opened Attributes
  import SwitchControl

  newtype byte = x: int | 0 <= x < 256

  /** A three-byte MIDI message: status, then two data bytes. */
  datatype Message = Message(status: byte, data1: byte, data2: byte)

  /** `data[0] & 0xf`: the channel, the low nibble of the status byte. */
  function Channel(m: Message): (c: int)
    ensures 0 <= c < 16
  {
    m.status as int % 16
  }

  /** `midiController`: `{}` (Unbound) or `{channel, cc}`, either of which may be NaN
      when it came from an unreadable `midicc` attribute. */
  datatype Binding = Unbound | Bound(channel: IntOrNaN, cc: IntOrNaN)

  /** `===` on numbers: NaN equals nothing, not even NaN. */
  predicate StrictEquals(a: IntOrNaN, b: IntOrNaN) {
    a.Int? && b.Int? && a.i == b.i
  }

  /** `listeningToThisMidiController(channel, cc)`: the bound controller is cc and the
      bound channel is the given one or negative (any channel). */
  predicate Listening(b: Binding, channel: IntOrNaN, cc: IntOrNaN) {
    b.Bound? && (StrictEquals(b.channel, channel) || (b.channel.Int? && b.channel.i < 0))
    && StrictEquals(b.cc, cc)
  }

  /** `setMidiController(channel, cc)`: no change when already listening to it (so a
      wildcard channel survives), otherwise the binding becomes {channel, cc}. */
  function SetMidiController(b: Binding, channel: IntOrNaN, cc: IntOrNaN): (r: Binding)
    ensures Listening(b, channel, cc) ==> r == b
    ensures !Listening(b, channel, cc) ==> r == Bound(channel, cc)
  {
    if Listening(b, channel, cc) then b else Bound(channel, cc)
  }

  /** An empty binding matches no message. */
  lemma UnboundHearsNothing(channel: int, cc: int)
    ensures !Listening(Unbound, Int(channel), Int(cc))
  {
  }

  /** After binding to a channel and controller, the widget listens to them, and
      binding again to the same pair changes nothing. */
  lemma SetThenListening(b: Binding, channel: int, cc: int)
    ensures Listening(SetMidiController(b, Int(channel), Int(cc)), Int(channel), Int(cc))
    ensures var r := SetMidiController(b, Int(channel), Int(cc));
            SetMidiController(r, Int(channel), Int(cc)) == r
  {
  }

  /** A binding with a negative channel hears its controller on every channel, and
      learning that controller on any channel keeps the wildcard. */
  lemma WildcardKept(w: int, channel: int, cc: int)
    requires w < 0
    ensures Listening(Bound(Int(w), Int(cc)), Int(channel), Int(cc))
    ensures SetMidiController(Bound(Int(w), Int(cc)), Int(channel), Int(cc)) == Bound(Int(w), Int(cc))
  {
  }

  /** A controller that read as NaN is never matched. */
  lemma NaNControllerDeaf(channel: IntOrNaN, c: IntOrNaN, k: IntOrNaN)
    ensures !Listening(Bound(channel, NaN), c, k)
  {
  }

  /** The binding `connectedCallback` sets up: from a non-empty `midicc` attribute
      read as "C.N", otherwise none. */
  function InitialBinding(midicc: Option<string>): (b: Binding)
    ensures midicc.None? || midicc == Some("") ==> b == Unbound
  {
    match midicc
    case Some(s) =>
      if s != "" then
        var (channel, cc) := ParseMidiCC(s);
        SetMidiController(Unbound, channel, cc)
      else Unbound
    case None => Unbound
  }

  /** `midicc` "C.N" listens to controller N on channel C - 1 of a message; "0.N"
      gives channel -1 and so listens on every channel. */
  lemma InitialBindingOfMidiCC(c: int, n: int, channel: int)
    requires channel == c - 1 || c <= 0
    ensures Listening(InitialBinding(Some(IntToString(c, 10) + "." + IntToString(n, 10))), Int(channel), Int(n))
  {
    var s := IntToString(c, 10) + "." + IntToString(n, 10);
    MidiCCRoundTrip(c, n);
    assert s != "" by {
      assert |s| >= 1;
    }
  }

  /** `midiMode`. */
  datatype Mode = Normal | Learn

  /** What `processMidiEvent` does with a matched message depends on the widget: a
      ranged value (knob, slider, keyboard: the knob's commit rule, which is the
      slider's for a non-zero step and plain clamping for the keyboard's absent
      step), a switch of some type in some group, or the XY pad, which has no
      `setValue`. */
  datatype WidgetKind =
    | Ranged(min: real, max: real, step: real)
    | Switch(switchType: SwitchControl.SwitchType, group: Option<string>)
    | Pad

  datatype WidgetState = WidgetState(kind: WidgetKind, binding: Binding, mode: Mode, value: real, oldvalue: Option<real>)

  type WidgetId = nat

  /** The value `setValue(v)` stores for a widget of this kind. */
  function Stored(kind: WidgetKind, v: real): (s: real)
    ensures kind.Ranged? && kind.min <= kind.max ==> kind.min <= s <= kind.max
    ensures kind.Switch? ==> s == v
  {
    match kind
    case Ranged(min, max, step) => KnobTarget(v, min, max, step)
    case _ => v
  }

  /** `setValue(v, f)` on a widget: the stored value becomes `oldvalue`, and "input"
      and "change" are sent when it changed and f is set. */
  function Commit(w: WidgetState, v: real, f: bool): (r: (WidgetState, seq<Event>))
    ensures r.0 == w.(value := Stored(w.kind, v), oldvalue := Some(Stored(w.kind, v)))
    ensures r.1 == Notify(Changed(Stored(w.kind, v), w.oldvalue), f)
  {
    var s := Stored(w.kind, v);
    (w.(value := s, oldvalue := Some(s)), Notify(Changed(s, w.oldvalue), f))
  }

  /** The context menu: the widget it was last opened on (`menu.knob`), whether it is
      shown, and the text of its Learn item. */
  datatype Menu = Menu(target: Option<WidgetId>, active: bool, itemText: string)

  /** Everything `processMidiEvent` can touch: every widget of the document, and the
      context menu. */
  datatype Scene = Scene(world: map<WidgetId, WidgetState>, menu: Menu)

  /** The result of delivering a message: the new scene, the events sent (by widget),
      and whether a TypeError escaped. */
  datatype Outcome = Outcome(scene: Scene, log: seq<(WidgetId, Event)>, thrown: bool)

  /** Events of one widget, tagged with its id. */
  function Tag(id: WidgetId, events: seq<Event>): (t: seq<(WidgetId, Event)>)
    ensures |t| == |events| && forall i :: 0 <= i < |t| ==> t[i] == (id, events[i])
  {
    if events == [] then [] else [(id, events[0])] + Tag(id, events[1..])
  }

  /** `contextMenuClose()`: with no target, reading its listener throws before
      anything changes; otherwise the menu hides, its item reads "Learn" again and
      the target returns to normal mode. */
  function CloseMenu(s: Scene): (r: (Scene, bool))
    ensures r.0.world.Keys == s.world.Keys
    ensures r.1 <==> s.menu.target.None?
    ensures !r.1 ==> !r.0.menu.active && r.0.menu.itemText == "Learn" && r.0.menu.target == s.menu.target
    ensures !r.1 && s.menu.target.value in s.world ==>
              r.0.world == s.world[s.menu.target.value := s.world[s.menu.target.value].(mode := Normal)]
  {
    match s.menu.target
    case None => (s, true)
    case Some(t) =>
      var world := if t in s.world then s.world[t := s.world[t].(mode := Normal)] else s.world;
      (Scene(world, Menu(Some(t), false, "Learn")), false)
  }

  /** The learn capture: bind to the message's channel and controller, close the
      menu, and return this widget to normal mode. */
  function Capture(s: Scene, id: WidgetId, channel: int, cc: int): (r: (Scene, bool))
    requires id in s.world
    ensures r.0.world.Keys == s.world.Keys
    ensures r.0.world[id].binding == SetMidiController(s.world[id].binding, Int(channel), Int(cc))
    ensures !r.1 ==> r.0.world[id].mode == Normal
    ensures r.1 <==> s.menu.target.None?
  {
    var w := s.world[id];
    var bound := Scene(s.world[id := w.(binding := SetMidiController(w.binding, Int(channel), Int(cc)))], s.menu);
    var (closed, thrown) := CloseMenu(bound);
    if thrown then (bound, true)
    else (closed.(world := closed.world[id := closed.world[id].(mode := Normal)]), false)
  }

  /** A switch the radio query `webaudio-switch[type="radio"][group="g"]` returns. */
  predicate InRadioGroup(w: WidgetState, g: string) {
    w.kind.Switch? && SwitchControl.InRadioGroup(w.kind.switchType, w.kind.group, g)
  }

  /** The radio loop: every switch of the group gets `setValue(1)` if it is `self`,
      `setValue(0)` otherwise (no events); the rest of the document is untouched. */
  function RadioSelect(world: map<WidgetId, WidgetState>, g: string, self: WidgetId): (r: map<WidgetId, WidgetState>)
    ensures r.Keys == world.Keys
  {
    map k | k in world :: if InRadioGroup(world[k], g) then Commit(world[k], if k == self then 1.0 else 0.0, false).0 else world[k]
  }

  /** What a matched message does to the widget `id`. */
  function Respond(s: Scene, id: WidgetId, d: int): (o: Outcome)
    requires id in s.world
    ensures o.scene.world.Keys == s.world.Keys && o.scene.menu == s.menu
  {
    var w := s.world[id];
    match w.kind
    case Ranged(min, max, _) =>
      var (w', events) := Commit(w, MidiValue(min, max, d), true);
      Outcome(s.(world := s.world[id := w']), Tag(id, events), false)
    case Switch(switchType, group) =>
      (match switchType
       case Toggle =>
         if d >= 64 then
           var (w', events) := Commit(w, 1.0 - w.value, true);
           Outcome(s.(world := s.world[id := w']), Tag(id, events), false)
         else Outcome(s, [], false)
       case Kick =>
         var (w', _) := Commit(w, if d >= 64 then 1.0 else 0.0, false);
         Outcome(s.(world := s.world[id := w']), [], false)
       case Radio =>
         Outcome(s.(world := RadioSelect(s.world, SwitchControl.GroupOf(group), id)), [], false)
       case Other => Outcome(s, [], false))
    case Pad => Outcome(s, [], true)
  }

  /** `processMidiEvent(event)` on the widget `id`: in learn mode the capture comes
      first (and may throw); then a message the binding listens to is answered. */
  function Process(s: Scene, id: WidgetId, m: Message): (o: Outcome)
    requires id in s.world
    ensures o.scene.world.Keys == s.world.Keys
  {
    var (s1, thrown) :=
      if s.world[id].mode == Learn then Capture(s, id, Channel(m), m.data1 as int) else (s, false);
    if thrown then Outcome(s1, [], true)
    else if Listening(s1.world[id].binding, Int(Channel(m)), Int(m.data1 as int)) then Respond(s1, id, m.data2 as int)
    else Outcome(s1, [], false)
  }

  /** A message the binding does not listen to changes nothing in normal mode. */
  lemma UnmatchedIgnored(s: Scene, id: WidgetId, m: Message)
    requires id in s.world && s.world[id].mode == Normal
    requires !Listening(s.world[id].binding, Int(Channel(m)), Int(m.data1 as int))
    ensures Process(s, id, m) == Outcome(s, [], false)
  {
  }

  /** Learn mode binds to the message's channel and controller, returns the widget
      and the menu to normal, and then applies that same message: a ranged widget
      stores the value the data byte selects. */
  lemma LearnThenApply(s: Scene, id: WidgetId, m: Message)
    requires id in s.world && s.world[id].mode == Learn && s.world[id].kind.Ranged?
    requires s.menu.target.Some?
    ensures var o := Process(s, id, m);
            var w, k := o.scene.world[id], s.world[id].kind;
            !o.thrown && w.mode == Normal && !o.scene.menu.active
            && Listening(w.binding, Int(Channel(m)), Int(m.data1 as int))
            && w.value == KnobTarget(MidiValue(k.min, k.max, m.data2 as int), k.min, k.max, k.step)
  {
    var c, cc := Channel(m), m.data1 as int;
    var (s1, thrown) := Capture(s, id, c, cc);
    SetThenListening(s.world[id].binding, c, cc);
    assert s1.world[id].kind == s.world[id].kind;
  }

  /** A ranged widget in normal mode stores the knob's target for the data's value. */
  lemma RangedStores(s: Scene, id: WidgetId, m: Message)
    requires id in s.world && s.world[id].mode == Normal && s.world[id].kind.Ranged?
    requires Listening(s.world[id].binding, Int(Channel(m)), Int(m.data1 as int))
    ensures var k := s.world[id].kind;
            Process(s, id, m).scene.world[id].value == KnobTarget(MidiValue(k.min, k.max, m.data2 as int), k.min, k.max, k.step)
  {
  }

  /** The knob's target keeps both ends of the range: min always, max when it lies on
      the grid. */
  lemma KnobTargetEnds(min: real, max: real, step: real)
    requires min <= max
    ensures KnobTarget(min, min, max, step) == min
    ensures step == 0.0 || OnGrid(max, min, step) ==> KnobTarget(max, min, max, step) == max
  {
    if step != 0.0 {
      QuantizeFixesGrid(0, min, step);
      assert 0 as real * step + min == min;
      if OnGrid(max, min, step) {
        var j :| max == min + j as real * step;
        QuantizeFixesGrid(j, min, step);
        assert j as real * step + min == max;
      }
    }
  }

  /** A ranged widget maps data 0 to min and 127 to max, and stays within its range. */
  lemma RangedFollowsData(s: Scene, id: WidgetId, m: Message)
    requires id in s.world && s.world[id].mode == Normal && s.world[id].kind.Ranged?
    requires Listening(s.world[id].binding, Int(Channel(m)), Int(m.data1 as int))
    ensures var k, v := s.world[id].kind, Process(s, id, m).scene.world[id].value;
            (k.min <= k.max ==> k.min <= v <= k.max)
            && (m.data2 == 0 && k.min <= k.max ==> v == k.min)
            && (m.data2 == 127 && k.min <= k.max && (k.step == 0.0 || OnGrid(k.max, k.min, k.step)) ==> v == k.max)
  {
    var k := s.world[id].kind;
    RangedStores(s, id, m);
    if k.min <= k.max {
      KnobTargetEnds(k.min, k.max, k.step);
    }
  }

  /** A toggle flips only on data 64 and above, and then sends its events. */
  lemma ToggleFlipsAtHalf(s: Scene, id: WidgetId, m: Message)
    requires id in s.world && s.world[id].mode == Normal
    requires s.world[id].kind.Switch? && s.world[id].kind.switchType == SwitchControl.Toggle
    requires Listening(s.world[id].binding, Int(Channel(m)), Int(m.data1 as int))
    ensures var o, v := Process(s, id, m), s.world[id].value;
            o.scene.world[id].value == (if m.data2 >= 64 then 1.0 - v else v)
            && (m.data2 < 64 ==> o == Outcome(s, [], false))
            && (m.data2 >= 64 ==> o.log == Tag(id, Notify(Changed(1.0 - v, s.world[id].oldvalue), true)))
  {
  }

  /** A kick follows the data: 1 from 64 up, 0 below, without events. */
  lemma KickFollowsData(s: Scene, id: WidgetId, m: Message)
    requires id in s.world && s.world[id].mode == Normal
    requires s.world[id].kind.Switch? && s.world[id].kind.switchType == SwitchControl.Kick
    requires Listening(s.world[id].binding, Int(Channel(m)), Int(m.data1 as int))
    ensures var o := Process(s, id, m);
            o.scene.world[id].value == (if m.data2 >= 64 then 1.0 else 0.0) && o.log == [] && !o.thrown
  {
  }

  /** A matched radio switch turns on every switch of its group query that is
      itself and off every other one, whatever the data byte, and touches nothing
      outside the group. */
  lemma RadioSelectsSelf(s: Scene, id: WidgetId, m: Message)
    requires id in s.world && s.world[id].mode == Normal
    requires s.world[id].kind.Switch? && s.world[id].kind.switchType == SwitchControl.Radio
    requires Listening(s.world[id].binding, Int(Channel(m)), Int(m.data1 as int))
    ensures var o, g := Process(s, id, m), SwitchControl.GroupOf(s.world[id].kind.group);
            !o.thrown && o.log == []
            && (forall k :: k in s.world && InRadioGroup(s.world[k], g) ==> o.scene.world[k].value == (if k == id then 1.0 else 0.0))
            && (forall k :: k in s.world && !InRadioGroup(s.world[k], g) ==> o.scene.world[k] == s.world[k])
  {
  }

  /** A matched message on the XY pad calls its missing `setValue` and throws. */
  lemma PadThrows(s: Scene, id: WidgetId, m: Message)
    requires id in s.world && s.world[id].mode == Normal && s.world[id].kind.Pad?
    requires Listening(s.world[id].binding, Int(Channel(m)), Int(m.data1 as int))
    ensures Process(s, id, m) == Outcome(s, [], true)
  {
  }

  /** The status byte is not inspected: a Note On (0x9n) for note N on a channel
      drives a widget bound to controller N there exactly as a Control Change would. */
  lemma NoteOnActsAsControlChange(s: Scene, id: WidgetId, ch: byte, n: byte, v: byte)
    requires id in s.world && ch < 16
    ensures Process(s, id, Message(0x90 + ch, n, v)) == Process(s, id, Message(0xB0 + ch, n, v))
  {
    assert Channel(Message(0x90 + ch, n, v)) == Channel(Message(0xB0 + ch, n, v)) == ch as int;
  }
}
