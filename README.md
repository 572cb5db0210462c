# webaudio-controls: the value and MIDI core, in Dafny

webaudio-controls is a set of HTML custom elements for audio user interfaces: knob,
slider, switch, keyboard and XY pad, with an optional MIDI manager that routes
incoming MIDI messages to them. This project models the parts of it that carry
behaviour rather than presentation, and proves properties of that model:

- **The value rule of each control.** The grid snap (`Math.round`) and the clamp.
  The report that the stored value changed (`oldvalue`), and the "input"/"change"
  events that follow.
- **The gestures around the value rule.** The wheel step. The relative drag with
  its re-anchoring on a change of shift state and its truncation onto the grid
  (`| 0`). Absolute tracking. The ctrl/meta reset.
- **The keyboard's note surface.** Setup widens the key range to white keys. The
  two computer-key rows are mapped to keys, and auto-repeat is suppressed. The
  column-to-key formulas of the black and white bands. The note diff `sendevent`
  emits. The duplicate-free display set `setdispvalues` keeps.
- **The MIDI side of the widget base.** The controller binding, its match
  (`listeningToThisMidiController`), rebinding and learn capture. How each kind of
  widget answers a three-byte message (`processMidiEvent`).
- **The MIDI manager.** The registry of widgets (duplicates included), the
  external listeners, the filter for System and Channel Mode messages, and the
  fan-out in registration order. The Learn / Clear / Close transitions of the
  context menu.
- **The text side of the widget base.** `getAttr` with its typed default, the
  `"C.N"` form of `midicc`, `valstr`, and the printf-like `numformat` (scan, pad,
  replace). The template `showtip` chooses.

## How the source maps onto the model

- The controls update their fields in place, so each control is a `class`:
  `KnobControl.Knob`, `SliderControl.Slider`, `SwitchControl.Switch`,
  `KeyboardControl.Keyboard` and `XYPadControl.XYPad`.
  - Their methods carry `modifies this`.
  - Each method states the whole new state against pure functions of the old one.
  - Those functions are the shared rules in `ValueRule` and `KeyboardNotes`.
- The MIDI manager is the class `MidiManager.Manager`.
  - Its `listOfWidgets` is a `seq` of widget ids into a map of widget states, so
    the same widget can be registered twice.
  - The fan-out and the radio loop are `while` loops proved against the functions
    `Dispatch` and `RadioSelect`.
- JavaScript semantics are written out:
  - `===` never equates NaN;
  - `x | 0` is ToInt32, truncation with 32-bit wrap-around;
  - `%` and `/ | 0` on integers truncate toward zero (`JsRem`, `JsQuot`);
  - `parseInt` and unary `+` on strings follow ECMAScript (`JsText`);
  - a `TypeError` is a `thrown` result.
- Numbers are exact reals, not IEEE doubles.
- `eval(conv)` is a function parameter.
- `toFixed` and `toString` are a `Printers` parameter.
- Element geometry is abstracted: the model receives the pointer's position as a
  fraction of the track, or as a key column.

## Model

| member | source | states |
|---|---|---|
| JsNumber.Round | webaudio-controls.js:290 | `Math.round(x)` is an integer within half of x, halves rounded up |
| JsNumber.Trunc | webaudio-controls.js:366 | truncation toward zero stays between 0 and x, within 1 of x |
| JsNumber.ToInt32 | webaudio-controls.js:366 | `x \| 0` lies in the signed 32-bit range and agrees with truncation modulo 2^32 |
| JsNumber.ToInt32Small | webaudio-controls.js:366 | inside the 32-bit range `x \| 0` is plain truncation |
| JsNumber.RoundOfInteger | webaudio-controls.js:290 | `Math.round` keeps integers |
| JsNumber.TruncOfInteger | webaudio-controls.js:366 | truncation keeps integers |
| JsNumber.ToInt32OfInteger | webaudio-controls.js:366 | `\| 0` keeps integers in the signed 32-bit range |
| JsNumber.Clamp | webaudio-controls.js:291 | `Math.min(max, Math.max(min, v))` lies in [min, max] when min <= max, keeps in-range values, sends values below min to `Math.min(max, min)` and values above max to max |
| JsNumber.JsRem | webaudio-controls.js:849 | JavaScript `%` takes the sign of the dividend |
| JsNumber.JsQuot | webaudio-controls.js:984 | `(a / b) \| 0` and `a % b` recompose a |
| JsNumber.JsOpsOfNonnegative | webaudio-controls.js:984 | on non-negative dividends JavaScript `%` and truncated division agree with Euclidean ones |
| JsText.NatToString | packages/base/webaudio-controls-widget.ts:85 | `toString(radix)` of a natural is non-empty digits without a leading zero |
| JsText.NatToStringRoundTrip | packages/base/webaudio-controls-widget.ts:85-89 | the printed digits read back as the number |
| JsText.UpperCase | packages/base/webaudio-controls-widget.ts:87 | `toUpperCase` raises exactly the ASCII lower-case letters, keeping the length |
| JsText.TrimStart | packages/base/webaudio-controls-widget.ts:74 | leading white space is removed, and only white space |
| JsText.TrimEnd | packages/base/webaudio-controls-widget.ts:74 | trailing white space is removed, and only white space |
| JsText.ParseDigitRun | packages/webaudio-knob/webaudio-knob.ts:207-208 | `parseInt` finds a number exactly when a digit starts the text, and it is non-negative |
| JsText.ParseIntOfDecimal | packages/webaudio-knob/webaudio-knob.ts:207-208 | `parseInt(String(n)) == n` for every integer n |
| JsText.StringToNumberOfDecimal | packages/base/webaudio-controls-widget.ts:74 | `+String(n) == n` for every integer n |
| JsText.StringToNumberIgnoresSpaces | packages/base/webaudio-controls-widget.ts:74 | white space around a numeric string does not change `+s` |
| Attributes.GetAttr | packages/base/webaudio-controls-widget.ts:68-79 | a missing or empty attribute gives the default; against a numeric default "true" is 1, any other text is its unary-plus conversion (`StringToNumber`), or 0 when that is NaN, so the result is never NaN; against any other default the raw text is returned |
| Attributes.GetAttrOfDecimal | packages/base/webaudio-controls-widget.ts:74-76 | a decimal integer attribute reads as that number against a numeric default |
| Attributes.GetAttrIgnoresSpaces | packages/base/webaudio-controls-widget.ts:74-76 | white space around a numeric attribute does not change what it reads as |
| Attributes.GetAttrOfWord | packages/base/webaudio-controls-widget.ts:75 | a word that is not a number reads as 0 against a numeric default |
| Attributes.Substring | packages/webaudio-knob/webaudio-knob.ts:207-208 | `substring(a, b)` within bounds is the slice `s[a..b]` |
| Attributes.MidiCCRoundTrip | packages/webaudio-knob/webaudio-knob.ts:206-210 | "C.N" binds channel C - 1 and controller N for all integers C and N |
| Attributes.MidiCCWithoutDot | packages/webaudio-knob/webaudio-knob.ts:206-210 | without a '.', the channel is NaN and the whole text is the controller |
| ValueRule.Quantize | webaudio-controls.js:290 | `round((v - min) / step) * step + min` lies on the grid `min + k * step` |
| ValueRule.QuantizeNearest | webaudio-controls.js:290 | snapping moves a value by at most half a step |
| ValueRule.QuantizeFixesGrid | webaudio-controls.js:290 | grid points are left where they are |
| ValueRule.SliderTarget | webaudio-controls.js:289-291 | the slider's stored value lies in [min, max]: it is the snapped value whenever that is in range, max when the snap lies above max, and `Math.min(max, min)` when it lies below min |
| ValueRule.SliderTargetAtOrBelowMin | webaudio-controls.js:289-291 | anything at or below min is stored as min |
| ValueRule.SliderTargetOnGrid | webaudio-controls.js:289-291 | when max is on the grid every stored value is on the grid |
| ValueRule.SliderTargetOffGrid | webaudio-controls.js:289-291 | when max is off the grid the clamp can store an off-grid value (0..10, step 3: 11 stores 10) |
| ValueRule.SliderTargetNotIdempotent | webaudio-controls.js:289-291 | committing that stored value again moves it (10 becomes 9) |
| ValueRule.KnobTarget | packages/webaudio-knob/webaudio-knob.ts:273-276 | the knob's stored value lies in [min, max]; with step 0 it is the value clamped (`Clamp`), so an in-range value is kept as is; otherwise it is the slider's rule |
| ValueRule.Notify | packages/webaudio-knob/webaudio-knob.ts:293-296 | `setValue` sends events exactly when the commit changed the value and `f` is set, and then "input" before "change" |
| ValueRule.WheelDelta | packages/webaudio-knob/webaudio-knob.ts:304-308 | the wheel step has magnitude max(step, 1% or 5% of the range), points down exactly when `deltaY > 0`, and is `-step` on an empty range |
| ValueRule.Follow | packages/webaudio-knob/webaudio-knob.ts:340-345 | a change of shift state re-anchors at the sample; the same state keeps the anchor |
| ValueRule.SliderOffset | webaudio-controls.js:365 | a horizontal slider's offset follows x only, a vertical one's y only |
| ValueRule.KnobOffsetSumsAxes | packages/webaudio-knob/webaudio-knob.ts:346 | the knob's offset is the sum of both slider offsets |
| ValueRule.AnchorSampleHasNoOffset | webaudio-controls.js:349-354 | at the sample that re-anchors, the drag offset is 0 for knob and slider |
| ValueRule.TruncateToGridBounds | webaudio-controls.js:366 | within 32 bits, `\| 0` puts the aim on a grid point at most one step short of it, toward min |
| ValueRule.TruncateToGridIndex | webaudio-controls.js:366 | within 32 bits, the grid index is the truncated quotient |
| ValueRule.TruncateToGridOnPoint | webaudio-controls.js:366 | a grid point within 32 bits is kept by the truncation |
| ValueRule.TruncateAtIndex | webaudio-controls.js:366 | an aim exactly k steps from min, k within 32 bits, is kept |
| ValueRule.DragKeepsGridValue | packages/webaudio-knob/webaudio-knob.ts:347 | the first drag sample (offset 0) keeps a value that is on the grid |
| ValueRule.DragFullSweep | packages/webaudio-knob/webaudio-knob.ts:347 | a drag of one track length (four with shift) from min reaches any max a whole number of steps away |
| ValueRule.DragWithZeroStep | packages/webaudio-knob/webaudio-knob.ts:347 | a knob with step 0 is sent to `Math.min(max, min)` by every drag sample |
| ValueRule.AbsoluteFraction | webaudio-controls.js:358-361 | the absolute-tracking fraction lies in [0, 1], is the x ratio for "horz" and the inverted y ratio otherwise |
| ValueRule.AbsoluteProposal | webaudio-controls.js:362 | the absolute-tracking proposal lies in [min, max] |
| ValueRule.MidiValue | packages/base/webaudio-controls-widget.ts:220 | data 0 selects min, data 127 selects max, and every data byte lies between them |
| ValueRule.Digits | webaudio-controls.js:263-267 | the decimals shown are the least d with `step * 10^d >= 1`, and 0 for a step of 0 or at least 1 |
| KnobControl.Knob.constructor | packages/webaudio-knob/webaudio-knob.ts:192-204 | a knob starts with its attributes and nothing stored (`_value` and `oldvalue` undefined); `convValue` is therefore undefined, or `conv` evaluated on undefined; no gesture |
| KnobControl.Knob.StoreValue | packages/webaudio-knob/webaudio-knob.ts:273-291 | `_setValue` stores the knob target in `_value` and `oldvalue`, reports a change exactly when it differs from the previous `oldvalue`, and recomputes `convValue` only on a change; the `value` property is not written |
| KnobControl.Knob.SetValue | packages/webaudio-knob/webaudio-knob.ts:293-296 | `setValue` commits and sends events per `Notify` |
| KnobControl.Knob.Wheel | packages/webaudio-knob/webaudio-knob.ts:298-311 | as written: a disabled knob ignores the wheel; otherwise the `value` property plus the wheel step is committed with events, whatever was stored before |
| KnobControl.Knob.WheelIntended | packages/webaudio-knob/webaudio-knob.ts:298-311 | corrected reading (see Findings): the tick is committed from the stored value, or from `value` before the first commit |
| KnobControl.Knob.PointerDown | packages/webaudio-knob/webaudio-knob.ts:313-404 | an unaccepted press does nothing; ctrl/meta commits `defvalue` with events and installs no move listener; otherwise the drag anchors at the `value` property, as written (see Findings); the release listener is always installed |
| KnobControl.Knob.PointerMove | packages/webaudio-knob/webaudio-knob.ts:330-352 | a move re-anchors at the `value` property on a change of shift state, as written (see Findings), commits the truncated drag proposal without events, and sends "input" |
| KnobControl.Knob.PointerUp | packages/webaudio-knob/webaudio-knob.ts:354-379 | the release ends the drag and always sends "change", whether or not the value moved |
| KnobControl.Knob.PointerOver | packages/base/webaudio-controls-widget.ts:158-161 | hovering sets the hover flag and nothing else |
| KnobControl.Knob.PointerOut | packages/base/webaudio-controls-widget.ts:163-166 | leaving clears the hover flag and nothing else |
| KnobControl.Knob.ShowTip | packages/base/webaudio-controls-widget.ts:126-136 | as written (see Findings): with `this.digits` undefined, a value tip shows the tooltip text, " : " and the value truncated to an integer; before the first commit it shows undefined; hidden unless dragged or hovered |
| KnobControl.Knob.ShowTipIntended | packages/webaudio-knob/webaudio-knob.ts:145-150 | corrected reading (see Findings): with the decimals the step needs, a value tip shows the tooltip text, " : " and the value with exactly those decimals; before the first commit it shows undefined |
| KnobControl.WheelStuckAsWritten | packages/webaudio-knob/webaudio-knob.ts:298-311 | as written, with `value` 50 every wheel tick stores 55, so a second tick reports no change |
| KnobControl.DragRestartsAsWritten | packages/webaudio-knob/webaudio-knob.ts:340-347 | as written, with `value` 50 a drag whose pointer has not moved stores 50, whatever was stored before |
| KnobControl.WheelAccumulates | packages/webaudio-knob/webaudio-knob.ts:298-311 | reading the stored value back, two ticks from 50 reach 60 |
| SliderControl.SliderSize | webaudio-controls.js:208-219 | a zero width or height takes the orientation's default (128 x 24 for "horz", 24 x 128 otherwise) |
| SliderControl.Horizontal | webaudio-controls.js:220-221 | the drag orientation is the `direction` attribute when given, otherwise vertical exactly when width <= height |
| SliderControl.TrackLength | webaudio-controls.js:222-229 | the track length is `ditchlength`, or the long side minus the short side |
| SliderControl.DefaultSliderIsVertical | webaudio-controls.js:204-229 | a slider with no attributes drags vertically over 104 px |
| SliderControl.Slider.constructor | webaudio-controls.js:149-196 | setup stores the attributes, the orientation and track length, and the initial value clamped into range |
| SliderControl.Slider.StoreValue | webaudio-controls.js:289-307 | `_setValue` stores the slider target, reports a change exactly when it differs from `oldvalue`, and recomputes `convValue` only on a change |
| SliderControl.Slider.SetValue | webaudio-controls.js:308-311 | `setValue` commits and sends events per `Notify` |
| SliderControl.Slider.Wheel | webaudio-controls.js:312-323 | the stored value plus the wheel step is committed with events; `enable` is not tested |
| SliderControl.Slider.Move | webaudio-controls.js:339-374 | a move re-anchors on a change of shift state, commits the absolute or relative proposal without events, and sends "input" |
| SliderControl.Slider.PointerMove | webaudio-controls.js:339-374 | a move reaches the handler only while its listener is installed |
| SliderControl.Slider.PointerDown | webaudio-controls.js:324-419 | as written: ctrl/meta commits `defvalue` with events and then the move handler runs too; other presses anchor and run the move handler |
| SliderControl.Slider.PointerDownIntended | webaudio-controls.js:400-410 | a ctrl/meta press resets to `defvalue` and stops there |
| SliderControl.Slider.PointerUp | webaudio-controls.js:375-396 | the release ends the drag, clears the anchor position, keeps `lastShift` and `startVal`, and sends "change" |
| SliderControl.CtrlResetOverriddenAsWritten | webaudio-controls.js:400-415 | a ctrl-click reset to 50 is overwritten by the move handler, which stores 80 from a stale anchor |
| SliderControl.AbsoluteProposalInRange | webaudio-controls.js:355-362 | with absolute tracking every sample proposes a value in [min, max] |
| SwitchControl.TypeOf | webaudio-controls.js:463 | a missing or empty `type` is "toggle", and only "radio" is radio |
| SwitchControl.UngroupedRadioMissesItself | webaudio-controls.js:595 | a radio switch without a `group` attribute is not matched by its own group query |
| SwitchControl.Switch.constructor | webaudio-controls.js:459-486 | a switch starts with its attributes, no `oldvalue`, `checked` undefined, no gesture |
| SwitchControl.Switch.SetValue | webaudio-controls.js:526-538 | the value is stored as given, `checked` follows it, and events are sent only for a change with `f` |
| SwitchControl.Switch.SelectInGroup | webaudio-controls.js:595-601 | the radio loop turns on exactly this switch of the group and turns off every other |
| SwitchControl.Switch.PointerDown | webaudio-controls.js:539-614 | a kick sets 1 and sends "change"; a toggle flips and sends "change", but throws on ctrl/meta; a radio selects itself in its group; others only start the drag |
| SwitchControl.Switch.PointerUp | webaudio-controls.js:559-577 | the release ends the drag; a kick falls back to 0 and sends "change"; every switch sends "click" |
| XYPadControl.ConvXY | webaudio-controls.js:1235-1236 | without `conv`, `convValue` is the pair `{x, y}` |
| XYPadControl.XYPad.constructor | webaudio-controls.js:1121-1158 | the pad starts with its attributes as given, no `oldx`/`oldy` |
| XYPadControl.XYPad.StoreX | webaudio-controls.js:1223-1242 | `_setX` stores the slider target for x, leaves y alone, and reports a change against `oldx` |
| XYPadControl.XYPad.StoreY | webaudio-controls.js:1243-1262 | `_setY` stores the slider target for y, leaves x alone, and reports a change against `oldy` |
| XYPadControl.XYPad.SetX | webaudio-controls.js:1263-1266 | `setX` sends events only for a change of x with `f` |
| XYPadControl.XYPad.SetY | webaudio-controls.js:1267-1270 | `setY` sends events only for a change of y with `f` |
| XYPadControl.XYPad.Move | webaudio-controls.js:1298-1325 | a move commits x left to right and y bottom to top without events, and sends "input" |
| XYPadControl.XYPad.PointerMove | webaudio-controls.js:1298-1325 | a move reaches the handler only while its listener is installed |
| XYPadControl.XYPad.PointerDown | webaudio-controls.js:1283-1370 | the press runs the move handler; a ctrl/meta press then calls the missing `setValue` and throws before installing listeners |
| XYPadControl.XYPad.PointerUp | webaudio-controls.js:1326-1347 | the release ends the drag and sends "change" without touching x or y |
| XYPadControl.OutsidePadStoresMin | webaudio-controls.js:1317-1318 | a pointer left of the pad stores x = min, one below it y = min |
| KeyboardNotes.KeyRange | webaudio-controls.js:846-852 | setup's range is `min + keys - 1`, with a black min stepped down and a black max stepped up |
| KeyboardNotes.BlackNeighboursAreWhite | webaudio-controls.js:835 | the keys next to a black key are white |
| KeyboardNotes.NotBlackIsWhite | webaudio-controls.js:835-837 | a non-negative key that `kf` does not flag is a pitch class of `kn` |
| KeyboardNotes.KeyRangeEndsWhite | webaudio-controls.js:846-852 | both ends of the normalised range are white keys, at most one key wider on each side |
| KeyboardNotes.OctaveBaseBounds | webaudio-controls.js:924 | `m` is the first C at or above min |
| KeyboardNotes.CodeIndex | webaudio-controls.js:925-929 | a key code gets an index exactly when it is in one of the rows |
| KeyboardNotes.KeyOfCode | webaudio-controls.js:924-931 | a key code plays a key exactly when it is in one of the rows |
| KeyboardNotes.LowerCodesNoDup | webaudio-controls.js:814 | `keycodes1` repeats no code |
| KeyboardNotes.UpperCodesNoDup | webaudio-controls.js:815 | `keycodes2` repeats no code |
| KeyboardNotes.KeyCodeTablesDisjoint | webaudio-controls.js:814-815 | no code of the upper row is in the lower row |
| KeyboardNotes.CodeIndexLower | webaudio-controls.js:925 | `indexOf` in a repeat-free row finds each code at its own index |
| KeyboardNotes.CodeIndexUpper | webaudio-controls.js:927-928 | an upper-row code not in the lower row gets its index plus 12 |
| KeyboardNotes.LowerRowIndex | webaudio-controls.js:925 | the i-th lower-row code gets index i |
| KeyboardNotes.UpperRowIndex | webaudio-controls.js:927-928 | the i-th upper-row code gets index i + 12 |
| KeyboardNotes.KeyOfLowerRow | webaudio-controls.js:924-931 | the i-th code of `keycodes1` plays m + i |
| KeyboardNotes.KeyOfUpperRow | webaudio-controls.js:924-931 | the i-th code of `keycodes2` plays m + 12 + i |
| KeyboardNotes.WhiteIndex | webaudio-controls.js:834 | `kp` gives a white pitch class its index in `kn`, and only white ones get one |
| KeyboardNotes.WhiteIndexOfKey | webaudio-controls.js:982 | `kp[min % 12]` of a white min indexes min's pitch class in `kn` |
| KeyboardNotes.LowerBandFormula | webaudio-controls.js:981-984 | for a white min the lower-band key is `min + (c / 7) * 12 + kn[c % 7] - kn[ko]` with c = col + ko |
| KeyboardNotes.LowerBandIsWhite | webaudio-controls.js:981-984 | from a white min, every lower-band column lands on a white key at or above min |
| KeyboardNotes.FirstLowerColumnIsMin | webaudio-controls.js:981-984 | the first lower-band column is min itself |
| KeyboardNotes.LowerBandIncreasing | webaudio-controls.js:981-984 | one column right in the lower band is a higher key |
| KeyboardNotes.KeysInLast | webaudio-controls.js:971-988 | the last contact adds its key exactly when it lands in [min, max] |
| KeyboardNotes.KeysInMembers | webaudio-controls.js:971-988 | a key is collected exactly when it is in [min, max] and some contact lands on it |
| KeyboardNotes.ReleasesMembers | webaudio-controls.js:1038-1041 | the first loop releases exactly the held keys no longer held |
| KeyboardNotes.PressesMembers | webaudio-controls.js:1042-1045 | the second loop presses exactly the keys held now that were not held |
| KeyboardNotes.NoteDiffMembers | webaudio-controls.js:1038-1045 | a release is emitted exactly for a key held before and not now, a press exactly for one held now and not before |
| KeyboardNotes.NoteDiffEmpty | webaudio-controls.js:1038-1046 | nothing is emitted exactly when both lists hold the same keys |
| KeyboardNotes.SettledAfterSend | webaudio-controls.js:1046-1047 | a second `sendevent` on the same keys emits nothing |
| KeyboardNotes.CutMembers | webaudio-controls.js:1063 | `splice(n, 1)` on a repeat-free list removes exactly that value and stays repeat-free |
| KeyboardNotes.PushMembers | webaudio-controls.js:1060 | pushing an absent key keeps the list repeat-free |
| KeyboardNotes.DispAfterMembers | webaudio-controls.js:1057-1065 | `setdispvalues` adds exactly k on a press, removes exactly k on a release, and keeps the set repeat-free |
| KeyboardNotes.ApplyNotesNoDup | webaudio-controls.js:1048-1049 | the display set stays repeat-free through a whole batch of notes |
| KeyboardControl.Contacts | webaudio-controls.js:963-968 | a touch event reads its target touches; a mouse reads itself only while a press is counted |
| KeyboardControl.PressAfterUp | webaudio-controls.js:998-1001 | a mouse release leaves no press counted |
| KeyboardControl.NoteDiffLoop | webaudio-controls.js:1037-1045 | the two loops of `sendevent` emit exactly the note diff |
| KeyboardControl.Keyboard.constructor | webaudio-controls.js:803-853 | setup takes the normalised key range, with nothing held or shown |
| KeyboardControl.Keyboard.StoreValue | webaudio-controls.js:906-917 | `_setValue` only clamps (no step) and reports a change against `oldvalue` |
| KeyboardControl.Keyboard.SetValue | webaudio-controls.js:918-921 | `setValue` sends events only for a change with `f` |
| KeyboardControl.Keyboard.SetDispValues | webaudio-controls.js:1057-1065 | the display set gains exactly k on a press and loses exactly k on a release |
| KeyboardControl.Keyboard.SendEvent | webaudio-controls.js:1036-1056 | `sendevent` emits the note diff, adopts the new keys only when it emitted, and updates the display set note by note |
| KeyboardControl.Keyboard.ShowNotes | webaudio-controls.js:1048-1049 | the display set takes each note in turn |
| KeyboardControl.Keyboard.KeyDown | webaudio-controls.js:923-938 | a note key plays its key unless it is `currentKey` (repeat suppressed); other keys do nothing |
| KeyboardControl.Keyboard.KeyUp | webaudio-controls.js:939-952 | a note key releases its key and resets `currentKey` to -1 |
| KeyboardControl.Keyboard.Move | webaudio-controls.js:958-994 | an enabled keyboard collects the keys under the contacts within [min, max] and sends their diff |
| KeyboardControl.Keyboard.PointerMove | webaudio-controls.js:958-994 | every installed listener set runs the move handler; together they act as one move |
| KeyboardControl.Keyboard.PointerDown | webaudio-controls.js:953-1029 | a press is counted when enabled, installs another listener set, and runs the move handler |
| KeyboardControl.Keyboard.Release | webaudio-controls.js:996-1016 | a release sets the press count from the touches left, runs the move handler and `sendevent`, and ends the drag |
| KeyboardControl.Keyboard.PointerUp | webaudio-controls.js:996-1016 | the listeners go away only when no press remains |
| MidiWidget.Channel | packages/base/webaudio-controls-widget.ts:192 | `data[0] & 0xf` is a channel in 0..15 |
| MidiWidget.SetMidiController | packages/base/webaudio-controls-widget.ts:175-182 | rebinding keeps a binding that already listens (a wildcard survives), and otherwise binds {channel, cc} |
| MidiWidget.UnboundHearsNothing | packages/base/webaudio-controls-widget.ts:184-189 | an empty binding matches no message |
| MidiWidget.SetThenListening | packages/base/webaudio-controls-widget.ts:175-189 | after binding, the widget listens to that pair, and binding it again changes nothing |
| MidiWidget.WildcardKept | packages/base/webaudio-controls-widget.ts:184-189 | a negative channel hears its controller on every channel and survives learning |
| MidiWidget.NaNControllerDeaf | packages/base/webaudio-controls-widget.ts:186 | a NaN controller is never matched |
| MidiWidget.InitialBinding | packages/webaudio-knob/webaudio-knob.ts:203-210 | no `midicc` leaves the widget unbound |
| MidiWidget.InitialBindingOfMidiCC | packages/webaudio-knob/webaudio-knob.ts:206-210 | "C.N" listens to controller N on channel C - 1, and with C <= 0 on every channel |
| MidiWidget.Stored | packages/base/webaudio-controls-widget.ts:204-221 | a ranged widget stores within its range; a switch stores the value as given |
| MidiWidget.Commit | packages/base/webaudio-controls-widget.ts:204-221 | a commit sets value and `oldvalue` and sends events per `Notify` |
| MidiWidget.Tag | packages/base/webaudio-controls-widget.ts:221 | each event is tagged with the widget that sent it |
| MidiWidget.CloseMenu | packages/webaudio-controls-midi-manager/webaudio-controls-midi-manager.ts:99-106 | closing throws without a target; otherwise it hides the menu, resets the item text and returns the target to normal mode |
| MidiWidget.Capture | packages/base/webaudio-controls-widget.ts:194-198 | the learn capture binds to the message and returns the widget to normal unless the close throws |
| MidiWidget.RadioSelect | packages/base/webaudio-controls-widget.ts:209-217 | the radio loop changes no widget's presence in the document |
| MidiWidget.Respond | packages/base/webaudio-controls-widget.ts:199-223 | answering a message leaves the menu and the set of widgets as they were |
| MidiWidget.Process | packages/base/webaudio-controls-widget.ts:191-224 | processing a message changes no widget's presence |
| MidiWidget.UnmatchedIgnored | packages/base/webaudio-controls-widget.ts:199 | a message the binding does not listen to changes nothing in normal mode |
| MidiWidget.LearnThenApply | packages/base/webaudio-controls-widget.ts:194-222 | learn mode binds to the message, returns to normal, and applies the same message |
| MidiWidget.RangedStores | packages/base/webaudio-controls-widget.ts:220-221 | a ranged widget stores the knob target of `min + (max - min) * d / 127` |
| MidiWidget.KnobTargetEnds | packages/webaudio-knob/webaudio-knob.ts:273-276 | the knob target keeps min, and keeps max when max is on the grid |
| MidiWidget.RangedFollowsData | packages/base/webaudio-controls-widget.ts:220-221 | data 0 gives min, data 127 gives max (on the grid), and every value stays in range |
| MidiWidget.ToggleFlipsAtHalf | packages/base/webaudio-controls-widget.ts:202-205 | a toggle flips only at data 64 and above, and then sends events |
| MidiWidget.KickFollowsData | packages/base/webaudio-controls-widget.ts:206-208 | a kick stores 1 from 64 up and 0 below, without events |
| MidiWidget.RadioSelectsSelf | packages/base/webaudio-controls-widget.ts:209-217 | a radio switch turns on itself and off every other switch of its group, and touches nothing else |
| MidiWidget.PadThrows | packages/base/webaudio-controls-widget.ts:219-221 | a matched message on the XY pad throws |
| MidiWidget.NoteOnActsAsControlChange | packages/base/webaudio-controls-widget.ts:191-199 | the status kind is not inspected: a Note On drives a widget exactly like a Control Change |
| MidiManager.Kind | packages/webaudio-controls-midi-manager/webaudio-controls-midi-manager.ts:70-71 | `data[0] & 0xf0` is the status rounded down to a multiple of 16 |
| MidiManager.FilteredRanges | packages/webaudio-controls-midi-manager/webaudio-controls-midi-manager.ts:70-72 | a message is filtered exactly when its status is 0xF0 or more, or it is a Control Change with controller 120 or more |
| MidiManager.Dispatch | packages/webaudio-controls-midi-manager/webaudio-controls-midi-manager.ts:74-76 | the fan-out changes no widget's presence |
| MidiManager.DispatchAppend | packages/webaudio-controls-midi-manager/webaudio-controls-midi-manager.ts:74-76 | widgets registered first answer first, and later ones start from the scene they leave |
| MidiManager.ToggleRegisteredTwice | packages/webaudio-controls-midi-manager/webaudio-controls-midi-manager.ts:16-18 | a toggle registered twice flips twice and ends where it was |
| MidiManager.LearnedBindingListens | packages/webaudio-controls-midi-manager/webaudio-controls-midi-manager.ts:108-113 | after Learn, the next message binds the widget to its channel and controller |
| MidiManager.Manager.constructor | packages/webaudio-controls-midi-manager/webaudio-controls-midi-manager.ts:8-14 | the manager starts with no widgets, no listeners and no MIDI access |
| MidiManager.Manager.AccessGranted | packages/webaudio-controls-midi-manager/webaudio-controls-midi-manager.ts:26-29 | resolving `requestMIDIAccess` grants access and changes nothing else |
| MidiManager.Manager.AddWidget | packages/webaudio-controls-midi-manager/webaudio-controls-midi-manager.ts:16-18 | `addWidget` appends, without de-duplicating |
| MidiManager.Manager.Connect | packages/webaudio-knob/webaudio-knob.ts:192-214 | a first connect adds the widget unbound-then-bound from `midicc`, in normal mode, and registers it; a knob connected again is rebound and registered again with its value and `oldvalue` kept; an element of webaudio-controls.js connected again throws (its `Object.defineProperty` calls at webaudio-controls.js:151-176 redefine non-configurable properties) and changes nothing |
| MidiManager.Manager.AddMidiListener | packages/webaudio-controls-midi-manager/webaudio-controls-midi-manager.ts:57-59 | a listener is appended |
| MidiManager.Manager.ProcessMidiEvent | packages/base/webaudio-controls-widget.ts:191-224 | the method's new state is `Process` of the old scene |
| MidiManager.Manager.RespondTo | packages/base/webaudio-controls-widget.ts:199-223 | the method's new state is `Respond` of the old scene |
| MidiManager.Manager.SelectRadio | packages/base/webaudio-controls-widget.ts:209-217 | the radio loop leaves the document as `RadioSelect` says |
| MidiManager.Manager.HandleMidiMessage | packages/webaudio-controls-midi-manager/webaudio-controls-midi-manager.ts:65-79 | every listener hears every message; a filtered message reaches no widget; otherwise the registry is dispatched in order |
| MidiManager.Manager.NotifyListeners | packages/webaudio-controls-midi-manager/webaudio-controls-midi-manager.ts:66-68 | the listeners hear the message in the order they were added |
| MidiManager.Manager.DispatchToWidgets | packages/webaudio-controls-midi-manager/webaudio-controls-midi-manager.ts:74-76 | the loop over the registry ends in `Dispatch` of the old scene |
| MidiManager.Manager.ContextMenuOpen | packages/webaudio-controls-midi-manager/webaudio-controls-midi-manager.ts:81-93 | without MIDI access nothing happens; otherwise the menu shows for this widget |
| MidiManager.Manager.ContextMenuClose | packages/webaudio-controls-midi-manager/webaudio-controls-midi-manager.ts:99-106 | closing throws when never opened; otherwise it hides the menu and returns the target to normal |
| MidiManager.Manager.ContextMenuLearn | packages/webaudio-controls-midi-manager/webaudio-controls-midi-manager.ts:108-113 | Learn shows "Listening..." and puts the target into learn mode |
| MidiManager.Manager.ContextMenuClear | packages/webaudio-controls-midi-manager/webaudio-controls-midi-manager.ts:115-119 | Clear empties the target's binding and closes the menu |
| MidiManager.Manager.ContextMenuCloseByKey | packages/webaudio-controls-midi-manager/webaudio-controls-midi-manager.ts:95-97 | only Escape (27) closes the menu |
| Tooltip.ValStr | packages/base/webaudio-controls-widget.ts:82-96 | an unknown or missing directive letter prints nothing |
| Tooltip.ValStrDecimalReadsBack | packages/base/webaudio-controls-widget.ts:88-89 | 'd' prints what `parseInt` reads back as the truncated value |
| Tooltip.ValStrHexReadsBack | packages/base/webaudio-controls-widget.ts:84-85 | 'x' prints hex digits whose value is the truncated value |
| Tooltip.ValStrUpperHex | packages/base/webaudio-controls-widget.ts:86-87 | 'X' is 'x' in upper case |
| Tooltip.Scan | packages/base/webaudio-controls-widget.ts:107-116 | the scan stops only at a letter of "dfxXs" |
| Tooltip.ParseIntOfChar | packages/base/webaudio-controls-widget.ts:115 | `parseInt` of one character is its digit value, NaN for any other character |
| Tooltip.ScanWidthDigits | packages/base/webaudio-controls-widget.ts:107-116 | digits before '.' accumulate into the width |
| Tooltip.ScanPrecisionDigits | packages/base/webaudio-controls-widget.ts:107-116 | digits after '.' accumulate into the precision |
| Tooltip.ScanDirectiveAt | packages/base/webaudio-controls-widget.ts:107-116 | width, '.', precision and letter scan back as that directive |
| Tooltip.DirectiveRoundTrip | packages/base/webaudio-controls-widget.ts:101-116 | serialising `%W.Pk` and scanning it back gives W, P and k, whatever text without '%' precedes it |
| Tooltip.ScanDirectiveIn | packages/base/webaudio-controls-widget.ts:107-116 | a serialised `%W.Pk` inside any text scans back as W, P and k from just after its '%' |
| Tooltip.DirectiveFound | packages/base/webaudio-controls-widget.ts:101 | the directive's '%' is found when no '%' precedes it |
| Tooltip.LastKindOnLine | packages/base/webaudio-controls-widget.ts:123 | the greedy `.*` ends at a directive letter on the same line |
| Tooltip.MatchFrom | packages/base/webaudio-controls-widget.ts:123 | a match starts at a '%' and ends at a later directive letter |
| Tooltip.LastKindOfLine | packages/base/webaudio-controls-widget.ts:123 | the match ends at the last directive letter of the line |
| Tooltip.MatchSkips | packages/base/webaudio-controls-widget.ts:123 | the match starts at the first '%' |
| Tooltip.ReplaceSpan | packages/base/webaudio-controls-widget.ts:123 | the span from the first '%' to the last letter on its line is replaced |
| Tooltip.LastKindNone | packages/base/webaudio-controls-widget.ts:123 | with no directive letter left on the line, the match keeps its last end |
| Tooltip.ReplaceTrailing | packages/base/webaudio-controls-widget.ts:123 | a directive ending the text is replaced in full, and what precedes it is kept |
| Tooltip.ReplaceValueDirective | packages/base/webaudio-controls-widget.ts:123 | a trailing `%.<d>f` is replaced by the printed value |
| Tooltip.Pad | packages/base/webaudio-controls-widget.ts:121-122 | a positive width gives the piece that many characters, as far as the blank padding reaches; otherwise the piece is kept |
| Tooltip.PadRightAligns | packages/base/webaudio-controls-widget.ts:121-122 | a short piece is right-aligned with spaces |
| Tooltip.PadTruncates | packages/base/webaudio-controls-widget.ts:121-122 | a longer piece is cut to its last `width` characters |
| Tooltip.Format | packages/base/webaudio-controls-widget.ts:98-125 | `numformat` is undefined exactly for an undefined value |
| Tooltip.NumFormat | packages/base/webaudio-controls-widget.ts:98-125 | the scanning loop computes `Format` |
| Tooltip.FormatScalar | packages/base/webaudio-controls-widget.ts:117-124 | a scalar prints its padded piece in place of the directive span |
| Tooltip.Template | packages/base/webaudio-controls-widget.ts:126-134 | without `valuetip` the tooltip is the template; with it the template always holds a '%' |
| Tooltip.ValueTemplate | packages/base/webaudio-controls-widget.ts:129-134 | a tooltip without '%' gets " : %.<digits>f" appended, and none becomes "%.<digits>f" |
| Tooltip.ShowTip | packages/base/webaudio-controls-widget.ts:126-155 | the tip is hidden unless dragged or hovered, and shown with `valuetip` |
| Tooltip.FormatValueDirective | packages/base/webaudio-controls-widget.ts:117-124 | `%.<d>f` prints the value with d decimals |
| Tooltip.ValueDirective | packages/base/webaudio-controls-widget.ts:101-116 | `%.<d>f` after text without '%' is read as precision d, letter 'f', no width |
| Tooltip.ValueTipShowsDigits | packages/base/webaudio-controls-widget.ts:126-137 | with known digits, a value tip shows the text, " : " and the value with those decimals |
| Tooltip.UndefinedDirective | packages/base/webaudio-controls-widget.ts:107-116 | `%.undefinedf` scans as precision NaN with letter 'd' |
| Tooltip.FormatUndefinedDirective | packages/base/webaudio-controls-widget.ts:117-124 | `%.undefinedf` prints the value as a truncated integer |
| Tooltip.ScanUndefinedAt | packages/base/webaudio-controls-widget.ts:107-116 | a scan that meets ".und" reads precision NaN and stops at the 'd' of "undefined" |
| Tooltip.UndefinedDigitsPrintInteger | packages/base/webaudio-controls-widget.ts:129-137 | with `digits` never set, a value tip prints the truncated integer |
| Sequences.IndexOf | packages/base/webaudio-controls-widget.ts:101 | `indexOf` is -1 exactly when absent, else the first position |
| Sequences.LastIndexOf | packages/webaudio-knob/webaudio-knob.ts:207 | `lastIndexOf` is -1 exactly when absent, else the last position |
| Sequences.IndexOfDistinct | webaudio-controls.js:925 | in a repeat-free list, `indexOf` finds each element at its own position |
| Sequences.IndexOfAfter | packages/base/webaudio-controls-widget.ts:101 | `indexOf` finds the first x after a prefix without x |
| Sequences.LastIndexOfBefore | packages/webaudio-knob/webaudio-knob.ts:207 | the last x is the one after which no x follows |

## Left out

- Rendering is not modelled: SVG and canvas drawing, sprite offsets and knob rotation. Also left out: tooltip placement, its transition delay and the `ttframe` DOM.
- DOM plumbing is not modelled: listener objects, `preventDefault`, `focus`, and the search through `changedTouches`. Pixel geometry is not modelled either; the pointer's position arrives as a track fraction or a key column.
- Asynchronous MIDI I/O is left out: `requestMIDIAccess` is the single transition `Manager.AccessGranted`. `enableInputs`, `onMIDIStarted`, connection changes and console logging are not modelled.
- MIDI messages are exactly three bytes; shorter messages are not modelled.
- What external MIDI listeners do is not modelled: the model records only that each one heard the message, and in what order.
- `getCurrentConfigAsJSON` is not modelled: it reads an undefined `currentConfig` and always throws.
- `eval(conv)` is an arbitrary function parameter.
- Numbers are exact reals: IEEE rounding is not modelled.
  - `toFixed` and `toString` are the `Printers` parameter. Their `RangeError` for more than 100 decimals is not modelled.
  - The float loop that counts `digits` is modelled on exact reals; its drift on steps like 0.1 is not captured.
- `Tooltip.ReplaceDirective`: special `$` patterns in the replacement text of `String.replace` are not interpreted.
- `KeyboardControl.Keyboard.Move`: the `v.sort()` before `sendevent` is left out. It sorts lexicographically, and `sendevent` only tests membership, so the emitted notes are the same up to order.
- The keyboard's `min` setter (a later redraw) and the XY pad's `wheel`, which calls a missing `setValue`, are not modelled.
- `webaudio-param` is not modelled, in the MIDI world or otherwise. The MIDI world holds knobs, sliders and keyboards as ranged widgets, switches, and XY pads, which throw.
- `MidiWidget.Process`: the MIDI world sees each widget as its binding, mode, value and `oldvalue`. `convValue`, the tooltip and the redraw that a MIDI commit also triggers are not tracked there; the control classes track them.
- `MidiManager.Manager.ContextMenuOpen`: each open adds another `keydown` listener to the target, and the close never removes it (the bound function differs). This pile-up of listeners is not modelled.
- `contextMenuLearn` has the typo `=.` in its source, which does not parse. It is modelled as the evident assignment.
- `KnobControl.Knob.ShowTipIntended` requires `step >= 0`: with a negative step the decimal-counting loop in `render` never ends.
- `SliderControl.Slider.constructor` and `XYPadControl.XYPad.constructor` require a positive step: both controls divide by `step` without a guard, and their redraws count decimals from it.
- `SliderControl.Slider.constructor` also requires `min <= max`: with min above max, `redraw` (webaudio-controls.js:268-275) sets `value` to min, whose setter redraws and sets it to max, and so on without end, a defect of the source that the model does not reproduce.
- `KnobControl.Knob.constructor`: the value of the `conv` expression evaluated with `x` undefined is a parameter (`convOfUndefined`); the knob's `value` property is a constant, since only the page changes it, through the attribute.
- `Tooltip.Scan`: the contract only says the scan stops at a directive letter. It does not say where that letter is in the text; `DirectiveRoundTrip` states the position for serialised directives.

## Findings

| source | as written | input that shows it | evidently intended | confidence | as-written member | corrected member |
|---|---|---|---|---|---|---|
| packages/webaudio-knob/webaudio-knob.ts:310 | `wheel` (and the drag anchors at lines 344 and 390) reads the Lit property `value`. `_setValue` writes only `_value`, so the wheel and every drag start from `value`, never from the stored value (`DragRestartsAsWritten` shows the drag half) | a knob over [0, 100], step 1, `value` 50: the first tick up stores 55, the second stores 55 again and reports no change | each tick moves on from the stored value: 50, 55, 60 (`WheelAccumulates`) | not executed | KnobControl.WheelStuckAsWritten | KnobControl.Knob.WheelIntended |
| webaudio-controls.js:400-415 | after a ctrl/meta press commits `defvalue`, `pointermove(ev)` still runs and commits a drag proposal from the old anchor | a horizontal relative slider over [0, 100] last dragged from 30: ctrl-click at x 52 resets to 50 and then stores 80 | the reset stands | not executed | SliderControl.Slider.PointerDown | SliderControl.Slider.PointerDownIntended |
| packages/webaudio-knob/webaudio-knob.ts:145-150 | `render` counts the step's decimals in a local `digits` and never stores it, so `showtip` builds the template `%.undefinedf` | any knob with `valuetip` and the default empty `tooltip`, hovered: the template is `" : %.undefinedf"`, and the value 0.37 shows as " : 0" | the tip shows the value with the decimals of the step | not executed | KnobControl.Knob.ShowTip | KnobControl.Knob.ShowTipIntended |
