/** The MIDI manager: the registry of widgets, the external listeners, the message
    filter, the fan-out to every registered widget in registration order, and the
    Learn / Clear / Close transitions of the context menu. */
module MidiManager {
  import opened Wrappers
  import opened JsText
  import opened ValueRule
  import opened MidiWidget
  import SwitchControl

  type ListenerId = nat

  /** `data[0] & 0xf0`: the message kind, the high nibble of the status byte. */
  function Kind(m: Message): (k: int)
    ensures k % 16 == 0 && k <= m.status as int < k + 16
  {
    m.status as int - m.status as int % 16
  }

  /** Messages never passed to widgets: System messages (0xF_) and the Channel Mode
      messages (Control Change, 0xB_, with controller 120 or above). */
  predicate Filtered(m: Message) {
    Kind(m) == 0xF0 || (Kind(m) == 0xB0 && m.data1 >= 120)
  }

  /** The filter by status ranges: a status of 0xF0 or more, or a status in
      0xB0..0xBF with a controller of 120 or more. */
  lemma FilteredRanges(m: Message)
    ensures Filtered(m) <==> m.status >= 0xF0 || (0xB0 <= m.status <= 0xBF && m.data1 >= 120)
  {
    var s := m.status as int;
    var k := Kind(m);
    assert k == s - s % 16;
    if 0xB0 <= s <= 0xBF {
      assert k == 0xB0;
    } else if k == 0xB0 {
      assert false;
    }
    if s >= 0xF0 {
      assert k == 0xF0;
    }
  }

  /** The loop over the registry: each widget processes the message in turn, seeing
      what the earlier ones changed; a TypeError ends the loop. */
  function Dispatch(s: Scene, ids: seq<WidgetId>, m: Message): (o: Outcome)
    requires forall i :: 0 <= i < |ids| ==> ids[i] in s.world
    ensures o.scene.world.Keys == s.world.Keys
    decreases |ids|
  {
    if ids == [] then Outcome(s, [], false)
    else
      var first := Process(s, ids[0], m);
      if first.thrown then first
      else
        var rest := Dispatch(first.scene, ids[1..], m);
        Outcome(rest.scene, first.log + rest.log, rest.thrown)
  }

  /** An outcome whose log is preceded by what earlier widgets already logged. */
  function After(log: seq<(WidgetId, Event)>, o: Outcome): Outcome {
    Outcome(o.scene, log + o.log, o.thrown)
  }

  /** Logs accumulate by concatenation. */
  lemma AfterAfter(a: seq<(WidgetId, Event)>, b: seq<(WidgetId, Event)>, o: Outcome)
    ensures After(a, After(b, o)) == After(a + b, o)
  {
    assert a + (b + o.log) == (a + b) + o.log;
  }

  /** The first widget of the loop answers, then the rest run from its scene unless it threw. */
  lemma DispatchFirst(s: Scene, ids: seq<WidgetId>, m: Message, first: Outcome)
    requires ids != [] && forall i :: 0 <= i < |ids| ==> ids[i] in s.world
    requires first == Process(s, ids[0], m)
    ensures first.thrown ==> Dispatch(s, ids, m) == first
    ensures !first.thrown ==> Dispatch(s, ids, m) == After(first.log, Dispatch(first.scene, ids[1..], m))
  {
  }

  /** Registration order: the widgets registered first answer first, and the rest
      start from the scene they leave behind. */
  lemma {:induction false} DispatchAppend(s: Scene, a: seq<WidgetId>, b: seq<WidgetId>, m: Message)
    requires forall i :: 0 <= i < |a| ==> a[i] in s.world
    requires forall i :: 0 <= i < |b| ==> b[i] in s.world
    ensures var p := Dispatch(s, a, m);
            Dispatch(s, a + b, m) ==
              if p.thrown then p
              else var q := Dispatch(p.scene, b, m); Outcome(q.scene, p.log + q.log, q.thrown)
    decreases |a|
  {
    if a == [] {
      assert a + b == b;
      assert Dispatch(s, b, m).log == [] + Dispatch(s, b, m).log;
    } else {
      var first := Process(s, a[0], m);
      assert (a + b)[0] == a[0];
      assert (a + b)[1..] == a[1..] + b;
      if !first.thrown {
        DispatchAppend(first.scene, a[1..], b, m);
        var p := Dispatch(first.scene, a[1..], m);
        if !p.thrown {
          var q := Dispatch(p.scene, b, m);
          assert first.log + (p.log + q.log) == (first.log + p.log) + q.log;
        }
      }
    }
  }

  /** A widget registered twice answers twice: a toggle hearing a message of 64 or
      more flips back to where it was. */
  lemma ToggleRegisteredTwice(s: Scene, id: WidgetId, m: Message)
    requires id in s.world && s.world[id].mode == Normal && m.data2 >= 64
    requires s.world[id].kind.Switch? && s.world[id].kind.switchType == SwitchControl.Toggle
    requires Listening(s.world[id].binding, Int(Channel(m)), Int(m.data1 as int))
    ensures var o := Dispatch(s, [id, id], m);
            !o.thrown && o.scene.world[id].value == s.world[id].value
  {
    var w := s.world[id];
    var first := Process(s, id, m);
    ToggleFlipsAtHalf(s, id, m);
    assert first.scene.world[id] == w.(value := 1.0 - w.value, oldvalue := Some(1.0 - w.value));
    ToggleFlipsAtHalf(first.scene, id, m);
    assert [id, id][1..] == [id] && [id][1..] == [];
    var second := Process(first.scene, id, m);
    assert second.scene.world[id].value == 1.0 - (1.0 - w.value);
    assert Dispatch(first.scene, [id], m).scene == second.scene && !second.thrown;
    assert Dispatch(s, [id, id], m).scene == Dispatch(first.scene, [id], m).scene;
  }

  class Manager {
    /** Every widget of the document, by id. */
    var world: map<WidgetId, WidgetState>
    /** `listOfWidgets`, in registration order, duplicates included. */
    var registry: seq<WidgetId>
    /** `listOfExternalMidiListeners`. */
    var listeners: seq<ListenerId>
    /** Whether `requestMIDIAccess` has resolved. */
    var midiAccess: bool
    var menu: Menu

    /** Registered widgets and the menu's target are widgets of the document. */
    ghost predicate Valid()
      reads this
    {
      (forall i :: 0 <= i < |registry| ==> registry[i] in world)
      && (menu.target.Some? ==> menu.target.value in world)
    }

    /** The manager starts with no widgets, no listeners, no MIDI access and a
        hidden menu reading "Learn"; `world` holds the widgets already in the
        document. */
    constructor (world: map<WidgetId, WidgetState>)
      ensures this.world == world && registry == [] && listeners == [] && !midiAccess
      ensures menu == Menu(None, false, "Learn")
      ensures Valid()
    {
      this.world := world;
      registry := [];
      listeners := [];
      midiAccess := false;
      menu := Menu(None, false, "Learn");
    }

    /** The resolution of `requestMIDIAccess`. */
    method AccessGranted()
      requires Valid()
      modifies this
      ensures midiAccess && world == old(world) && registry == old(registry)
      ensures listeners == old(listeners) && menu == old(menu)
      ensures Valid()
    {
      midiAccess := true;
    }

    /** `addWidget(w)`: appended, without looking for an earlier registration. */
    method AddWidget(id: WidgetId)
      requires Valid() && id in world
      modifies this
      ensures registry == old(registry) + [id]
      ensures world == old(world) && listeners == old(listeners) && menu == old(menu) && midiAccess == old(midiAccess)
      ensures Valid()
    {
      registry := registry + [id];
    }

    /** The MIDI part of `connectedCallback`. A widget connected for the first time
        starts unbound in normal mode, is bound from its `midicc` attribute and
        registers; `value` is what it then holds (`getAttr("value", 0)`; the knob's
        `_value` stays undefined until its first commit, and its MIDI path never
        reads it). Connected again, the Lit knob (`lit`) is rebound and registered a
        second time but keeps its value and `oldvalue`; an element of
        webaudio-controls.js throws before its MIDI part, since its
        `Object.defineProperty` calls, run a second time, redefine properties that
        are not configurable. */
    method Connect(id: WidgetId, kind: WidgetKind, lit: bool, midicc: Option<string>, value: real)
      returns (thrown: bool)
      requires Valid()
      modifies this
      ensures thrown <==> id in old(world) && !lit
      ensures id !in old(world) ==>
                world == old(world)[id := WidgetState(kind, InitialBinding(midicc), Normal, value, None)]
      ensures id in old(world) && lit ==>
                world == old(world)[id := old(world)[id].(binding := InitialBinding(midicc), mode := Normal)]
      ensures thrown ==> world == old(world) && registry == old(registry)
      ensures !thrown ==> registry == old(registry) + [id]
      ensures listeners == old(listeners) && menu == old(menu) && midiAccess == old(midiAccess)
      ensures Valid()
    {
      if id in world {
        if !lit {
          return true;
        }
        world := world[id := world[id].(binding := InitialBinding(midicc), mode := Normal)];
      } else {
        world := world[id := WidgetState(kind, InitialBinding(midicc), Normal, value, None)];
      }
      AddWidget(id);
      thrown := false;
    }

    /** `addMidiListener(callback)`. */
    method AddMidiListener(l: ListenerId)
      requires Valid()
      modifies this
      ensures listeners == old(listeners) + [l]
      ensures world == old(world) && registry == old(registry) && menu == old(menu) && midiAccess == old(midiAccess)
      ensures Valid()
    {
      listeners := listeners + [l];
    }

    /** `processMidiEvent` on the widget `id`, with the radio loop over the group. */
    method ProcessMidiEvent(id: WidgetId, m: Message) returns (log: seq<(WidgetId, Event)>, thrown: bool)
      requires Valid() && id in world
      modifies this
      ensures var o := Process(old(Scene(world, menu)), id, m);
              Scene(world, menu) == o.scene && log == o.log && thrown == o.thrown
      ensures registry == old(registry) && listeners == old(listeners) && midiAccess == old(midiAccess)
      ensures Valid()
    {
      var channel, cc := Channel(m), m.data1 as int;
      log, thrown := [], false;
      if world[id].mode == Learn {
        var w := world[id];
        world := world[id := w.(binding := SetMidiController(w.binding, Int(channel), Int(cc)))];
        thrown := ContextMenuClose();
        if thrown {
          return;
        }
        world := world[id := world[id].(mode := Normal)];
      }
      var w := world[id];
      if !Listening(w.binding, Int(channel), Int(cc)) {
        return;
      }
      log, thrown := RespondTo(id, m.data2 as int);
    }

    /** The part of `processMidiEvent` after the controller matched: what the widget
        does with the data byte d. */
    method RespondTo(id: WidgetId, d: int) returns (log: seq<(WidgetId, Event)>, thrown: bool)
      requires Valid() && id in world
      modifies this
      ensures var o := Respond(old(Scene(world, menu)), id, d);
              Scene(world, menu) == o.scene && log == o.log && thrown == o.thrown
      ensures registry == old(registry) && listeners == old(listeners) && midiAccess == old(midiAccess)
      ensures Valid()
    {
      log, thrown := [], false;
      var w := world[id];
      match w.kind
      case Ranged(min, max, _) =>
        var (w', events) := Commit(w, MidiValue(min, max, d), true);
        world := world[id := w'];
        log := Tag(id, events);
      case Switch(switchType, group) => {
        match switchType
        case Toggle =>
          if d >= 64 {
            var (w', events) := Commit(w, 1.0 - w.value, true);
            world := world[id := w'];
            log := Tag(id, events);
          }
        case Kick =>
          var (w', _) := Commit(w, if d >= 64 then 1.0 else 0.0, false);
          world := world[id := w'];
        case Radio =>
          SelectRadio(SwitchControl.GroupOf(group), id);
        case Other =>
      }
      case Pad =>
        thrown := true;
    }

    /** The radio loop: the switches the group query returns get `setValue(1)` if they
        are `self` and `setValue(0)` otherwise. */
    method SelectRadio(g: string, self: WidgetId)
      requires Valid()
      modifies this
      ensures world == RadioSelect(old(world), g, self)
      ensures registry == old(registry) && listeners == old(listeners) && menu == old(menu) && midiAccess == old(midiAccess)
      ensures Valid()
    {
      var todo := world.Keys;
      var updated := world;
      ghost var target := RadioSelect(world, g, self);
      while todo != {}
        modifies {}
        invariant updated.Keys == world.Keys && todo <= world.Keys
        invariant forall k :: k in world && k !in todo ==> updated[k] == target[k]
        invariant forall k :: k in todo ==> updated[k] == world[k]
        decreases |todo|
      {
        var k :| k in todo;
        if InRadioGroup(updated[k], g) {
          var (w', _) := Commit(updated[k], if k == self then 1.0 else 0.0, false);
          updated := updated[k := w'];
        }
        todo := todo - {k};
      }
      assert updated == target;
      world := updated;
    }

    /** `handleMIDIMessage(event)`: every external listener hears the message first,
        whatever it is; then unless it is filtered out, every registered widget
        processes it in registration order. */
    method HandleMidiMessage(m: Message) returns (heard: seq<ListenerId>, log: seq<(WidgetId, Event)>, thrown: bool)
      requires Valid()
      modifies this
      ensures heard == listeners
      ensures Filtered(m) ==> log == [] && !thrown && world == old(world) && menu == old(menu)
      ensures !Filtered(m) ==>
                var o := Dispatch(old(Scene(world, menu)), old(registry), m);
                Scene(world, menu) == o.scene && log == o.log && thrown == o.thrown
      ensures registry == old(registry) && listeners == old(listeners) && midiAccess == old(midiAccess)
      ensures Valid()
    {
      heard := NotifyListeners();
      log, thrown := [], false;
      if Filtered(m) {
        return;
      }
      log, thrown := DispatchToWidgets(m);
    }

    /** The `forEach` over the external listeners, in the order they were added. */
    method NotifyListeners() returns (heard: seq<ListenerId>)
      ensures heard == listeners
    {
      heard := [];
      for j := 0 to |listeners|
        invariant heard == listeners[..j]
      {
        heard := heard + [listeners[j]];
      }
    }

    /** The loop over `listOfWidgets`: each registered widget processes the message
        in turn; a TypeError leaves the loop. */
    method DispatchToWidgets(m: Message) returns (log: seq<(WidgetId, Event)>, thrown: bool)
      requires Valid()
      modifies this
      ensures var o := Dispatch(old(Scene(world, menu)), old(registry), m);
              Scene(world, menu) == o.scene && log == o.log && thrown == o.thrown
      ensures registry == old(registry) && listeners == old(listeners) && midiAccess == old(midiAccess)
      ensures Valid()
    {
      ghost var start := Scene(world, menu);
      var ids := registry;
      log, thrown := [], false;
      var i := 0;
      while i < |ids|
        invariant 0 <= i <= |ids|
        invariant registry == ids && listeners == old(listeners) && midiAccess == old(midiAccess)
        invariant Valid()
        invariant Dispatch(start, ids, m) == After(log, Dispatch(Scene(world, menu), ids[i..], m))
      {
        ghost var before := Scene(world, menu);
        var events, threw := ProcessMidiEvent(ids[i], m);
        ghost var first := Outcome(Scene(world, menu), events, threw);
        assert ids[i..][0] == ids[i] && ids[i..][1..] == ids[i + 1..];
        DispatchFirst(before, ids[i..], m, first);
        if threw {
          log, thrown := log + events, true;
          return;
        }
        ghost var rest := Dispatch(Scene(world, menu), ids[i + 1..], m);
        assert Dispatch(before, ids[i..], m) == After(events, rest);
        AfterAfter(log, events, rest);
        log := log + events;
        i := i + 1;
      }
      assert ids[i..] == [] && log + [] == log;
    }

    /** `contextMenuOpen(e, knob)`: nothing without MIDI access; otherwise the menu
        shows for this widget. */
    method ContextMenuOpen(id: WidgetId)
      requires Valid() && id in world
      modifies this
      ensures !old(midiAccess) ==> menu == old(menu)
      ensures old(midiAccess) ==> menu == old(menu).(target := Some(id), active := true)
      ensures world == old(world) && registry == old(registry) && listeners == old(listeners) && midiAccess == old(midiAccess)
      ensures Valid()
    {
      if !midiAccess {
        return;
      }
      menu := menu.(target := Some(id), active := true);
    }

    /** `contextMenuClose()`: throws when the menu was never opened; otherwise the menu
        hides, its item reads "Learn" and the target returns to normal mode. */
    method ContextMenuClose() returns (thrown: bool)
      requires Valid()
      modifies this
      ensures var r := CloseMenu(old(Scene(world, menu))); Scene(world, menu) == r.0 && thrown == r.1
      ensures thrown <==> old(menu).target.None?
      ensures !thrown ==> var t := old(menu).target.value;
                world == old(world)[t := old(world)[t].(mode := Normal)] && !menu.active && menu.itemText == "Learn"
      ensures registry == old(registry) && listeners == old(listeners) && midiAccess == old(midiAccess)
      ensures Valid()
    {
      if menu.target.None? {
        return true;
      }
      var t := menu.target.value;
      world := world[t := world[t].(mode := Normal)];
      menu := Menu(Some(t), false, "Learn");
      thrown := false;
    }

    /** `contextMenuLearn()`: the Learn item reads "Listening..." and the target
        enters learn mode; without a target the second step throws. */
    method ContextMenuLearn() returns (thrown: bool)
      requires Valid()
      modifies this
      ensures menu == old(menu).(itemText := "Listening...")
      ensures thrown <==> old(menu).target.None?
      ensures thrown ==> world == old(world)
      ensures !thrown ==> var t := old(menu).target.value; world == old(world)[t := old(world)[t].(mode := Learn)]
      ensures registry == old(registry) && listeners == old(listeners) && midiAccess == old(midiAccess)
      ensures Valid()
    {
      menu := menu.(itemText := "Listening...");
      if menu.target.None? {
        return true;
      }
      var t := menu.target.value;
      world := world[t := world[t].(mode := Learn)];
      thrown := false;
    }

    /** `contextMenuClear()`: the target loses its binding, then the menu closes. */
    method ContextMenuClear() returns (thrown: bool)
      requires Valid()
      modifies this
      ensures thrown <==> old(menu).target.None?
      ensures thrown ==> world == old(world) && menu == old(menu)
      ensures !thrown ==> var t := old(menu).target.value;
                world == old(world)[t := old(world)[t].(binding := Unbound, mode := Normal)]
                && !menu.active && menu.itemText == "Learn" && menu.target == old(menu).target
      ensures registry == old(registry) && listeners == old(listeners) && midiAccess == old(midiAccess)
      ensures Valid()
    {
      if menu.target.None? {
        return true;
      }
      var t := menu.target.value;
      world := world[t := world[t].(binding := Unbound)];
      thrown := ContextMenuClose();
    }

    /** `contextMenuCloseByKey(e)`: Escape (key code 27) closes the menu. */
    method ContextMenuCloseByKey(keyCode: int) returns (thrown: bool)
      requires Valid()
      modifies this
      ensures keyCode != 27 ==> !thrown && world == old(world) && menu == old(menu)
      ensures keyCode == 27 ==> var r := CloseMenu(old(Scene(world, menu))); Scene(world, menu) == r.0 && thrown == r.1
      ensures registry == old(registry) && listeners == old(listeners) && midiAccess == old(midiAccess)
      ensures Valid()
    {
      thrown := false;
      if keyCode == 27 {
        thrown := ContextMenuClose();
      }
    }
  }

  /** After Learn on a widget, the next message it processes binds it to that
      message's channel and controller, which it then listens to. */
  lemma LearnedBindingListens(s: Scene, id: WidgetId, m: Message)
    requires id in s.world && s.world[id].mode == Learn && s.menu.target == Some(id)
    ensures var o := Process(s, id, m);
            !o.thrown ==> Listening(o.scene.world[id].binding, Int(Channel(m)), Int(m.data1 as int))
                          && o.scene.world[id].mode == Normal && !o.scene.menu.active
  {
    SetThenListening(s.world[id].binding, Channel(m), m.data1 as int);
  }
}
