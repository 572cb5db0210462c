/** The note arithmetic of the keyboard in webaudio-controls.js: which keys are black,
    how setup widens the key range to white keys, the computer-key tables, the
    column-to-key formulas of the two bands, the note diff `sendevent` emits, and the
    duplicate-free display set `setdispvalues` maintains. */
module KeyboardNotes {
  import opened Wrappers
  import opened JsNumber
  import opened Sequences

  /** `kf`: which of the twelve pitch classes are black keys. */
  const BlackFlags: seq<bool> := [false, true, false, true, false, false, true, false, true, false, true, false]

  /** `kn`: the pitch classes of the seven white keys, in order. */
  const WhitePitches: seq<int> := [0, 2, 4, 5, 7, 9, 11]

  /** `keycodes1`: the lower row of computer keys, from C of the first full octave. */
  const KeyCodes1: seq<int> := [90, 83, 88, 68, 67, 86, 71, 66, 72, 78, 74, 77, 188, 76, 190, 187, 191, 226]

  /** `keycodes2`: the upper row, one octave higher. */
  const KeyCodes2: seq<int> := [81, 50, 87, 51, 69, 82, 53, 84, 54, 89, 55, 85, 73, 57, 79, 48, 80, 192, 222, 219]

  /** `kf[k % 12]` is 1. The JavaScript remainder of a negative key is negative,
      an index that reads undefined, so no negative key counts as black. */
  predicate IsBlack(k: int) {
    var r := JsRem(k, 12);
    0 <= r && BlackFlags[r]
  }

  /** A key whose pitch class is one of the white ones (for keys >= 0). */
  predicate IsWhite(k: int) {
    k % 12 in WhitePitches
  }

  /** Setup's range: `max = min + keys - 1`, then a black `min` steps down one and a
      black `max` steps up one. */
  function KeyRange(min: int, keys: int): (r: (int, int))
    ensures r.0 == (if IsBlack(min) then min - 1 else min)
    ensures r.1 == (if IsBlack(min + keys - 1) then min + keys else min + keys - 1)
  {
    var max := min + keys - 1;
    (if IsBlack(min) then min - 1 else min, if IsBlack(max) then max + 1 else max)
  }

  /** Below a black key lies a white one, and above it too. */
  lemma BlackNeighboursAreWhite(k: int)
    requires k >= 0 && IsBlack(k)
    ensures k - 1 >= 0 && IsWhite(k - 1) && IsWhite(k + 1)
  {
    var r := k % 12;
    assert JsRem(k, 12) == r;
    assert r in {1, 3, 6, 8, 10};
    assert (k - 1) % 12 == r - 1;
    assert (k + 1) % 12 == r + 1;
  }

  /** A non-negative key that is not black is white. */
  lemma NotBlackIsWhite(k: int)
    requires k >= 0 && !IsBlack(k)
    ensures IsWhite(k)
  {
    assert JsRem(k, 12) == k % 12;
  }

  /** For a range starting at a non-negative key, both ends of the normalised range
      are white keys, and it covers the requested keys with at most one key more on
      each side. */
  lemma KeyRangeEndsWhite(min: int, keys: int)
    requires min >= 0 && keys >= 1
    ensures var r := KeyRange(min, keys);
            IsWhite(r.0) && IsWhite(r.1)
            && min - 1 <= r.0 <= min && min + keys - 1 <= r.1 <= min + keys
  {
    var max := min + keys - 1;
    if IsBlack(min) { BlackNeighboursAreWhite(min); } else { NotBlackIsWhite(min); }
    if IsBlack(max) { BlackNeighboursAreWhite(max); } else { NotBlackIsWhite(max); }
  }

  /** `m = floor((min + 11) / 12) * 12`: the first C at or above `min`. */
  function OctaveBase(min: int): int {
    12 * ((min + 11) / 12)
  }

  /** The first C at or above `min` is a C, and fewer than 12 keys above it. */
  lemma OctaveBaseBounds(min: int)
    ensures var m := OctaveBase(min); min <= m < min + 12 && m % 12 == 0
  {
  }

  /** The index `keydown`/`keyup` compute: the position in the lower row, else the
      position in the upper row plus 12, else -1. */
  function CodeIndex(lower: seq<int>, upper: seq<int>, code: int): (j: int)
    ensures j < 0 <==> code !in lower && code !in upper
  {
    var i := IndexOf(lower, code);
    if i >= 0 then i
    else
      var t := IndexOf(upper, code);
      if t >= 0 then t + 12 else t
  }

  /** `keydown`/`keyup`: the key of a computer-key code, counted from the first C at
      or above `min`; a code in neither table is no key. */
  function KeyOfCode(code: int, min: int): (k: Option<int>)
    ensures k.None? <==> code !in KeyCodes1 && code !in KeyCodes2
  {
    var j := CodeIndex(KeyCodes1, KeyCodes2, code);
    if j >= 0 then Some(OctaveBase(min) + j) else None
  }

  /** Neither table repeats a code. */
  lemma LowerCodesNoDup()
    ensures NoDup(KeyCodes1)
  {
    // One case per position keeps each comparison against a concrete index.
    var s := KeyCodes1;
    forall j | 0 <= j < |s| ensures forall i :: 0 <= i < j ==> s[i] != s[j] {
      match j
      case 0 => case 1 => case 2 => case 3 => case 4 => case 5 => case 6 => case 7 => case 8 =>
      case 9 => case 10 => case 11 => case 12 => case 13 => case 14 => case 15 => case 16 =>
      case _ =>
    }
  }

  lemma UpperCodesNoDup()
    ensures NoDup(KeyCodes2)
  {
    // One case per position keeps each comparison against a concrete index.
    var s := KeyCodes2;
    forall j | 0 <= j < |s| ensures forall i :: 0 <= i < j ==> s[i] != s[j] {
      match j
      case 0 => case 1 => case 2 => case 3 => case 4 => case 5 => case 6 => case 7 => case 8 =>
      case 9 => case 10 => case 11 => case 12 => case 13 => case 14 => case 15 => case 16 => case 17 =>
      case 18 =>
      case _ =>
    }
  }

  /** No code of the upper row sits in the lower row. */
  lemma KeyCodeTablesDisjoint(i: int)
    requires 0 <= i < |KeyCodes2|
    ensures KeyCodes2[i] !in KeyCodes1
  {
  }

  /** In a sequence without repeats, `indexOf` finds each element at its own index. */
  lemma CodeIndexLower(lower: seq<int>, upper: seq<int>, i: int)
    requires NoDup(lower) && 0 <= i < |lower|
    ensures CodeIndex(lower, upper, lower[i]) == i
  {
    IndexOfDistinct(lower, i);
  }

  lemma CodeIndexUpper(lower: seq<int>, upper: seq<int>, i: int)
    requires NoDup(upper) && 0 <= i < |upper| && upper[i] !in lower
    ensures CodeIndex(lower, upper, upper[i]) == i + 12
  {
    IndexOfDistinct(upper, i);
  }

  lemma LowerRowIndex(i: int)
    requires 0 <= i < |KeyCodes1|
    ensures CodeIndex(KeyCodes1, KeyCodes2, KeyCodes1[i]) == i
  {
    LowerCodesNoDup();
    CodeIndexLower(KeyCodes1, KeyCodes2, i);
  }

  lemma UpperRowIndex(i: int)
    requires 0 <= i < |KeyCodes2|
    ensures CodeIndex(KeyCodes1, KeyCodes2, KeyCodes2[i]) == i + 12
  {
    UpperCodesNoDup();
    KeyCodeTablesDisjoint(i);
    CodeIndexUpper(KeyCodes1, KeyCodes2, i);
  }

  /** The lower row maps its i-th code to m + i. */
  lemma KeyOfLowerRow(min: int, i: int)
    requires 0 <= i < |KeyCodes1|
    ensures KeyOfCode(KeyCodes1[i], min).Some? && KeyOfCode(KeyCodes1[i], min).value == OctaveBase(min) + i
  {
    LowerRowIndex(i);
  }

  /** The upper row maps its i-th code to m + 12 + i. */
  lemma KeyOfUpperRow(min: int, i: int)
    requires 0 <= i < |KeyCodes2|
    ensures KeyOfCode(KeyCodes2[i], min).Some? && KeyOfCode(KeyCodes2[i], min).value == OctaveBase(min) + 12 + i
  {
    UpperRowIndex(i);
  }

  /** Where a pointer sample lands on the keyboard: outside its height, or at a
      column of the upper (black-key) band or of the lower (white-key) band. The
      columns are the 32-bit results of `(x / width) | 0` computed from the
      element's geometry, which is not modelled. */
  datatype Contact = Outside | Upper(col: int) | Lower(col: int)

  /** `kp`: for each pitch class, its index among the white keys; None stands for the
      fractional entries of the black ones, which make the key NaN. */
  const WhiteIndexTable: seq<Option<int>> :=
    [Some(0), None, Some(1), None, Some(2), Some(3), None, Some(4), None, Some(5), None, Some(6)]

  /** `kp[p]` for a pitch class p. */
  function WhiteIndex(p: int): (r: Option<int>)
    requires 0 <= p < 12
    ensures r.Some? ==> 0 <= r.value < 7 && WhitePitches[r.value] == p
    ensures r.None? <==> p !in WhitePitches
  {
    WhiteIndexTable[p]
  }

  /** The key under a contact, None where the source computes NaN or skips it. The
      upper band counts one key per column from `min`. The lower band counts white
      keys: c = col + kp[min % 12], then `min + ((c / 7) | 0) * 12 + kn[c % 7] -
      kn[kp[min % 12]]`. A negative `min % 12`, a black `min` or a negative `c % 7`
      reads an undefined entry. */
  function KeyAt(min: int, contact: Contact): Option<int> {
    match contact
    case Outside => None
    case Upper(col) => Some(min + col)
    case Lower(col) =>
      var p := JsRem(min, 12);
      if p < 0 then None
      else match WhiteIndex(p)
        case None => None
        case Some(ko) =>
          var c := col + ko;
          var r := JsRem(c, 7);
          if r < 0 then None
          else Some(min + JsQuot(c, 7) * 12 + WhitePitches[r] - WhitePitches[ko])
  }

  /** `kp[min % 12]` for a white `min >= 0`. */
  function WhiteIndexOfKey(min: int): (ko: int)
    requires min >= 0 && IsWhite(min)
    ensures 0 <= ko < 7 && WhitePitches[ko] == min % 12
  {
    WhiteIndex(min % 12).value
  }

  /** The lower-band key of a column right of the first, in closed form: from the
      octave `o` of `min` and the white index `ko` of its pitch class, whole octaves
      of seven columns, plus the white pitch class the remaining columns reach. */
  function LowerKey(o: int, ko: int, col: int): int
    requires 0 <= ko < 7 && col >= 0
  {
    var c := col + ko;
    (o + c / 7) * 12 + WhitePitches[c % 7]
  }

  /** The lower band read straight from the source's formula, for a white `min >= 0`. */
  lemma LowerBandFormula(min: int, col: int)
    requires min >= 0 && IsWhite(min) && col >= 0
    ensures var ko := WhiteIndexOfKey(min); var c := col + ko;
            KeyAt(min, Lower(col)) == Some(min + (c / 7) * 12 + WhitePitches[c % 7] - WhitePitches[ko])
  {
    var ko := WhiteIndexOfKey(min);
    var c := col + ko;
    JsOpsOfNonnegative(min, 12);
    JsOpsOfNonnegative(c, 7);
    assert JsRem(min, 12) == min % 12 && WhiteIndex(min % 12) == Some(ko);
    assert JsRem(c, 7) == c % 7 >= 0 && JsQuot(c, 7) == c / 7;
  }

  /** Replacing `min` by its octave and pitch class. */
  lemma ShiftOctaves(min: int, o: int, a: int, q: int, b: int)
    requires min == o * 12 + a
    ensures min + q * 12 + b - a == (o + q) * 12 + b
  {
  }

  lemma LowerBandKey(min: int, col: int)
    requires min >= 0 && IsWhite(min) && col >= 0
    ensures KeyAt(min, Lower(col)).Some?
    ensures KeyAt(min, Lower(col)).value == LowerKey(min / 12, WhiteIndexOfKey(min), col)
  {
    var ko := WhiteIndexOfKey(min);
    var c := col + ko;
    LowerBandFormula(min, col);
    OctaveSplit(min, min % 12);
    ShiftOctaves(min, min / 12, WhitePitches[ko], c / 7, WhitePitches[c % 7]);
  }

  lemma RemOfOctaves(q: int, p: int)
    requires 0 <= p < 12
    ensures (q * 12 + p) % 12 == p
  {
  }

  /** `kn` rises. */
  lemma WhitePitchesRise(a: int, b: int)
    requires 0 <= a <= b < 7
    ensures WhitePitches[a] <= WhitePitches[b]
    ensures a < b ==> WhitePitches[a] < WhitePitches[b]
  {
  }

  /** A key written as octaves plus a white pitch class is white. */
  lemma OctavesPlusWhite(n: int, r: int)
    requires 0 <= r < 7
    ensures IsWhite(n * 12 + WhitePitches[r])
  {
    RemOfOctaves(n, WhitePitches[r]);
    assert WhitePitches[r] in WhitePitches;
  }

  /** Going no fewer octaves up, and in the same octave to no lower pitch class,
      stays at or above the start. */
  lemma OctavesAbove(o: int, q: int, r: int, ko: int)
    requires q >= 0 && 0 <= r < 7 && 0 <= ko < 7 && (q == 0 ==> ko <= r)
    ensures (o + q) * 12 + WhitePitches[r] >= o * 12 + WhitePitches[ko]
  {
    if q == 0 {
      WhitePitchesRise(ko, r);
    } else {
      assert WhitePitches[r] >= 0 && WhitePitches[ko] <= 11;
    }
  }

  lemma OctaveSplit(min: int, p: int)
    requires min >= 0 && p == min % 12
    ensures min == (min / 12) * 12 + p
  {
  }

  lemma ColumnSplit(c: int, ko: int)
    requires 0 <= ko <= c
    ensures c / 7 >= 0 && 0 <= c % 7 < 7 && (c / 7 == 0 ==> ko <= c % 7)
  {
  }

  lemma LowerKeyIsWhite(o: int, ko: int, col: int)
    requires 0 <= ko < 7 && col >= 0
    ensures LowerKey(o, ko, col) >= o * 12 + WhitePitches[ko]
    ensures IsWhite(LowerKey(o, ko, col))
  {
    var c := col + ko;
    ColumnSplit(c, ko);
    OctavesPlusWhite(o + c / 7, c % 7);
    OctavesAbove(o, c / 7, c % 7, ko);
  }

  /** From a white `min >= 0`, every column of the lower band at or right of the
      first lands on a white key no lower than `min`. */
  lemma LowerBandIsWhite(min: int, col: int)
    requires min >= 0 && IsWhite(min) && col >= 0
    ensures KeyAt(min, Lower(col)).Some?
    ensures var k := KeyAt(min, Lower(col)).value; k >= min && IsWhite(k)
  {
    LowerBandKey(min, col);
    var ko := WhiteIndexOfKey(min);
    LowerKeyIsWhite(min / 12, ko, col);
    OctaveSplit(min, WhitePitches[ko]);
  }

  lemma FirstLowerKey(o: int, ko: int)
    requires 0 <= ko < 7
    ensures LowerKey(o, ko, 0) == o * 12 + WhitePitches[ko]
  {
    assert ko / 7 == 0 && ko % 7 == ko;
  }

  /** The first lower-band column is `min` itself. */
  lemma FirstLowerColumnIsMin(min: int)
    requires min >= 0 && IsWhite(min)
    ensures KeyAt(min, Lower(0)).Some? && KeyAt(min, Lower(0)).value == min
  {
    LowerBandKey(min, 0);
    var ko := WhiteIndexOfKey(min);
    FirstLowerKey(min / 12, ko);
    OctaveSplit(min, WhitePitches[ko]);
  }

  lemma NextColumn(c: int)
    requires c >= 0
    ensures c % 7 < 6 ==> (c + 1) % 7 == c % 7 + 1 && (c + 1) / 7 == c / 7
    ensures c % 7 == 6 ==> (c + 1) % 7 == 0 && (c + 1) / 7 == c / 7 + 1
  {
  }

  lemma LowerKeyIncreasing(o: int, ko: int, col: int)
    requires 0 <= ko < 7 && col >= 0
    ensures LowerKey(o, ko, col) < LowerKey(o, ko, col + 1)
  {
    var c := col + ko;
    NextColumn(c);
    var q, r := c / 7, c % 7;
    if r < 6 {
      WhitePitchesRise(r, r + 1);
    } else {
      assert WhitePitches[r] == 11 && WhitePitches[0] == 0;
    }
  }

  /** Moving one column right in the lower band moves to a higher key. */
  lemma LowerBandIncreasing(min: int, col: int)
    requires min >= 0 && IsWhite(min) && col >= 0
    ensures KeyAt(min, Lower(col)).Some? && KeyAt(min, Lower(col + 1)).Some?
    ensures KeyAt(min, Lower(col)).value < KeyAt(min, Lower(col + 1)).value
  {
    LowerBandKey(min, col);
    LowerBandKey(min, col + 1);
    LowerKeyIncreasing(min / 12, WhiteIndexOfKey(min), col);
  }

  /** The keys the move handler collects from its contacts, in contact order: each
      contact that lands on a key within [min, max] contributes that key. */
  function KeysIn(min: int, max: int, contacts: seq<Contact>): seq<int> {
    if contacts == [] then []
    else
      var init := KeysIn(min, max, contacts[..|contacts| - 1]);
      match KeyAt(min, contacts[|contacts| - 1])
      case Some(k) => if min <= k <= max then init + [k] else init
      case None => init
  }

  /** The last contact adds its key when it lands on one within [min, max]. */
  lemma KeysInLast(min: int, max: int, contacts: seq<Contact>)
    requires contacts != []
    ensures var last := KeyAt(min, contacts[|contacts| - 1]);
            KeysIn(min, max, contacts) ==
              KeysIn(min, max, contacts[..|contacts| - 1]) + (if last.Some? && min <= last.value <= max then [last.value] else [])
  {
  }

  /** Some contact lands on key k. */
  predicate Landed(min: int, contacts: seq<Contact>, k: int) {
    exists i :: 0 <= i < |contacts| && KeyAt(min, contacts[i]) == Some(k)
  }

  /** A key is collected exactly when it is within [min, max] and some contact lands
      on it. */
  lemma {:induction false} KeysInMembers(min: int, max: int, contacts: seq<Contact>)
    ensures forall k :: k in KeysIn(min, max, contacts) <==> min <= k <= max && Landed(min, contacts, k)
  {
    if contacts != [] {
      var n := |contacts| - 1;
      var init := contacts[..n];
      var last := KeyAt(min, contacts[n]);
      KeysInMembers(min, max, init);
      KeysInLast(min, max, contacts);
      forall k ensures Landed(min, contacts, k) <==> Landed(min, init, k) || last == Some(k) {
        if Landed(min, contacts, k) {
          var i :| 0 <= i < |contacts| && KeyAt(min, contacts[i]) == Some(k);
          if i < n {
            assert init[i] == contacts[i];
          }
        }
        if Landed(min, init, k) {
          var i :| 0 <= i < |init| && KeyAt(min, init[i]) == Some(k);
          assert contacts[i] == init[i];
        }
      }
    }
  }

  /** A played note: [1, k] presses key k and [0, k] releases it. */
  datatype Note = Note(on: bool, key: int)

  /** The first loop of `sendevent`: a release for every held key (in order) that is
      no longer held. */
  function Releases(held: seq<int>, now: seq<int>): seq<Note> {
    if held == [] then []
    else
      var k := held[|held| - 1];
      Releases(held[..|held| - 1], now) + (if k in now then [] else [Note(false, k)])
  }

  /** The second loop: a press for every key held now (in order) that was not held. */
  function Presses(now: seq<int>, held: seq<int>): seq<Note> {
    if now == [] then []
    else
      var k := now[|now| - 1];
      Presses(now[..|now| - 1], held) + (if k in held then [] else [Note(true, k)])
  }

  /** Everything `sendevent` emits for the change from `held` to `now`. */
  function NoteDiff(held: seq<int>, now: seq<int>): seq<Note> {
    Releases(held, now) + Presses(now, held)
  }

  lemma {:induction false} ReleasesMembers(held: seq<int>, now: seq<int>)
    ensures forall n :: n in Releases(held, now) <==> !n.on && n.key in held && n.key !in now
  {
    if held != [] {
      var init := held[..|held| - 1];
      ReleasesMembers(init, now);
      assert held == init + [held[|held| - 1]];
    }
  }

  lemma {:induction false} PressesMembers(now: seq<int>, held: seq<int>)
    ensures forall n :: n in Presses(now, held) <==> n.on && n.key in now && n.key !in held
  {
    if now != [] {
      var init := now[..|now| - 1];
      PressesMembers(init, held);
      assert now == init + [now[|now| - 1]];
    }
  }

  /** A release of k is emitted exactly when k was held and is not now, a press
      exactly when k is held now and was not before. */
  lemma NoteDiffMembers(held: seq<int>, now: seq<int>)
    ensures forall n :: n in NoteDiff(held, now) <==>
              (!n.on && n.key in held && n.key !in now) || (n.on && n.key in now && n.key !in held)
  {
    ReleasesMembers(held, now);
    PressesMembers(now, held);
  }

  /** Nothing is emitted exactly when the two key lists hold the same keys; in
      particular a second `sendevent` right after one that emitted emits nothing. */
  lemma NoteDiffEmpty(held: seq<int>, now: seq<int>)
    ensures NoteDiff(held, now) == [] <==> (set k | k in held) == (set k | k in now)
  {
    NoteDiffMembers(held, now);
    var before, after := set k | k in held, set k | k in now;
    if NoteDiff(held, now) != [] {
      var n := NoteDiff(held, now)[0];
      assert n in NoteDiff(held, now);
      if n.on {
        assert n.key in after && n.key !in before;
      } else {
        assert n.key in before && n.key !in after;
      }
    }
    if exists k :: (k in held && k !in now) || (k in now && k !in held) {
      var k :| (k in held && k !in now) || (k in now && k !in held);
      if k in held {
        assert Note(false, k) in NoteDiff(held, now);
      } else {
        assert Note(true, k) in NoteDiff(held, now);
      }
    } else {
      assert before == after;
    }
  }

  /** Once `sendevent` has run, running it again on the same keys emits nothing:
      either nothing was emitted and the held list is as before, or it now equals
      the current keys. */
  lemma SettledAfterSend(held: seq<int>, now: seq<int>)
    ensures var notes := NoteDiff(held, now);
            NoteDiff(if notes == [] then held else now, now) == []
  {
    NoteDiffEmpty(now, now);
  }

  /** `setdispvalues(state, note)`: a press appends the key unless present, a release
      cuts out its first occurrence. */
  function DispAfter(disp: seq<int>, on: bool, k: int): seq<int> {
    var n := IndexOf(disp, k);
    if on then (if n < 0 then disp + [k] else disp)
    else if n >= 0 then disp[..n] + disp[n + 1..]
    else disp
  }

  /** Cutting one entry out of a duplicate-free list removes exactly that value and
      keeps the list duplicate-free. */
  lemma CutMembers(s: seq<int>, n: int)
    requires NoDup(s) && 0 <= n < |s|
    ensures NoDup(s[..n] + s[n + 1..])
    ensures forall x :: x in s[..n] + s[n + 1..] <==> x in s && x != s[n]
  {
    var r := s[..n] + s[n + 1..];
    forall x | x in r ensures x in s && x != s[n] {
      var i :| 0 <= i < |r| && r[i] == x;
      var i' := if i < n then i else i + 1;
      assert r[i] == s[i'];
    }
    forall x | x in s && x != s[n] ensures x in r {
      var i :| 0 <= i < |s| && s[i] == x;
      if i < n { assert r[i] == x; } else { assert r[i - 1] == x; }
    }
    forall i, j | 0 <= i < j < |r| ensures r[i] != r[j] {
      var i' := if i < n then i else i + 1;
      var j' := if j < n then j else j + 1;
      assert r[i] == s[i'] && r[j] == s[j'];
    }
  }

  /** Appending a value not yet present keeps a list duplicate-free. */
  lemma PushMembers(s: seq<int>, k: int)
    requires NoDup(s) && k !in s
    ensures NoDup(s + [k])
  {
  }

  /** On a duplicate-free display set, a press adds exactly k and a release removes
      exactly k, and the set stays duplicate-free. */
  lemma DispAfterMembers(disp: seq<int>, on: bool, k: int)
    requires NoDup(disp)
    ensures NoDup(DispAfter(disp, on, k))
    ensures forall x :: x in DispAfter(disp, on, k) <==> if on then x in disp || x == k else x in disp && x != k
  {
    var n := IndexOf(disp, k);
    if on && n < 0 {
      PushMembers(disp, k);
    } else if !on && n >= 0 {
      CutMembers(disp, n);
    }
  }

  /** The display set after each note of a batch in turn. */
  function ApplyNotes(disp: seq<int>, notes: seq<Note>): seq<int> {
    if notes == [] then disp
    else
      var n := notes[|notes| - 1];
      DispAfter(ApplyNotes(disp, notes[..|notes| - 1]), n.on, n.key)
  }

  /** Taking one more note of the batch applies it to the display set so far. */
  lemma ApplyNotesStep(disp: seq<int>, notes: seq<Note>, i: nat)
    requires i < |notes|
    ensures ApplyNotes(disp, notes[..i + 1]) == DispAfter(ApplyNotes(disp, notes[..i]), notes[i].on, notes[i].key)
  {
    assert notes[..i + 1][..i] == notes[..i];
  }

  lemma {:induction false} ApplyNotesNoDup(disp: seq<int>, notes: seq<Note>)
    requires NoDup(disp)
    ensures NoDup(ApplyNotes(disp, notes))
  {
    if notes != [] {
      var n := notes[|notes| - 1];
      ApplyNotesNoDup(disp, notes[..|notes| - 1]);
      DispAfterMembers(ApplyNotes(disp, notes[..|notes| - 1]), n.on, n.key);
    }
  }
}
