/**
  The duration picker dialog: a digit buffer typed on a keypad, a label typed
  in a text field, the hours/minutes/seconds read off the buffer, and the
  confirm button that emits a `TimerData`.

  The dialog's two pieces of state, `name` and `input`, form `PickerState`;
  every button handler is a pure function from one state to the next.
*/
module TimePicker {
  import opened Options
  import opened TimerDataModel

  /** Longest name the name field accepts. */
  const MaxCharacters: nat := 100
  /** Longest digit buffer the keypad builds (two digits each for h, m, s). */
  const MaxLength: nat := 6
  /** Largest total a six-digit buffer can denote: 99h 99m 99s. */
  const MaxSeconds: nat := 99 * 3600 + 99 * 60 + 99

  predicate IsDigit(c: char) {
    '0' <= c <= '9'
  }

  predicate AllDigits(s: string) {
    forall i :: 0 <= i < |s| ==> IsDigit(s[i])
  }

  /** The buffer does not start with '0' (the empty buffer qualifies). */
  predicate NoLeadingZero(s: string) {
    |s| == 0 || s[0] != '0'
  }

  predicate HasNonZeroDigit(s: string) {
    exists i :: 0 <= i < |s| && s[i] != '0'
  }

  /** A buffer the keypad can hold: digits only, at most `MaxLength` of them. */
  predicate ValidInput(input: string) {
    AllDigits(input) && |input| <= MaxLength
  }

  /** The labels of the nine digit buttons "1" to "9". */
  type NonZeroDigit = c: char | '1' <= c <= '9' witness '1'

  /** The keypad's buttons: nine digit keys, "00", "0" and backspace. */
  datatype Key = Digit(d: NonZeroDigit) | DoubleZero | Zero | Backspace

  datatype PickerState = PickerState(name: string, input: string)

  /** What the user does in the dialog: press a key or edit the name field. */
  datatype Edit = Press(key: Key) | NameChange(newName: string)

  // ---------------------------------------------------------------------
  // The Kotlin string functions the derived values are built from

  /** `s.padStart(length, padChar)`: left-pads with `padChar` up to `length`. */
  function PadStart(s: string, length: nat, padChar: char): (r: string)
    ensures |r| == if |s| < length then length else |s|
    ensures r[|r| - |s|..] == s
    ensures forall i :: 0 <= i < |r| - |s| ==> r[i] == padChar
  {
    if |s| >= length then s else seq(length - |s|, _ => padChar) + s
  }

  /** `s.take(n)`: the first `n` characters, or all of them. */
  function Take(s: string, n: nat): (r: string)
    ensures |r| == if n < |s| then n else |s|
    ensures r == s[..|r|]
  {
    if n < |s| then s[..n] else s
  }

  /** `s.takeLast(n)`: the last `n` characters, or all of them. */
  function TakeLast(s: string, n: nat): (r: string)
    ensures |r| == if n < |s| then n else |s|
    ensures r == s[|s| - |r|..]
  {
    if n < |s| then s[|s| - n..] else s
  }

  /** `s.substring(start)`; Kotlin throws when `start > |s|`, which the
      callers here never do. */
  function Substring(s: string, start: nat): (r: string)
    requires start <= |s|
    ensures |r| == |s| - start
    ensures r == s[start..]
  {
    s[start..]
  }

  /** A run of `k` zero characters. */
  function Zeros(k: nat): (z: string)
    ensures |z| == k
    ensures forall i :: 0 <= i < k ==> z[i] == '0'
  {
    seq(k, _ => '0')
  }

  function Pow10(k: nat): (p: nat)
    ensures p >= 1
  {
    if k == 0 then 1 else 10 * Pow10(k - 1)
  }

  function DigitValue(c: char): (d: nat)
    requires IsDigit(c)
    ensures d <= 9
  {
    (c - '0') as nat
  }

  /** The number a string of decimal digits denotes (empty string: 0). */
  function DecimalValue(s: string): (n: nat)
    requires AllDigits(s)
    ensures n < Pow10(|s|)
  {
    if |s| == 0 then 0
    else
      var n' := DecimalValue(s[..|s| - 1]);
      assert n' * 10 <= (Pow10(|s| - 1) - 1) * 10;
      n' * 10 + DigitValue(s[|s| - 1])
  }

  /** `s.toLong()` on a digit string short enough to fit a `Long`; the two-
      character fields below always are. */
  function ToLong(s: string): (n: nat)
    requires AllDigits(s) && 0 < |s| <= 18
    ensures n < Pow10(|s|)
  {
    DecimalValue(s)
  }

  // ---------------------------------------------------------------------
  // The derived hours, minutes, seconds and total

  /** The buffer left-padded with '0' to `MaxLength` characters. */
  function Padded(input: string): (r: string)
    ensures |r| >= MaxLength
    ensures AllDigits(input) ==> AllDigits(r)
    ensures |input| <= MaxLength ==> |r| == MaxLength
  {
    PadStart(input, MaxLength, '0')
  }

  /** The hours field: the padded buffer's first two characters. */
  function HoursText(input: string): (r: string)
    ensures |r| == 2
  {
    Take(Padded(input), 2)
  }

  /** The minutes field: the first two of the padded buffer's last four
      characters. */
  function MinutesText(input: string): (r: string)
    ensures |r| == 2
  {
    Take(TakeLast(Padded(input), 4), 2)
  }

  /** The seconds field: the last two characters of the padded buffer from
      index 4 on. */
  function SecondsText(input: string): (r: string)
    ensures |r| == 2
  {
    TakeLast(Substring(Padded(input), 4), 2)
  }

  function Hours(input: string): (h: nat)
    requires AllDigits(input)
    ensures h <= 99
  {
    ToLong(HoursText(input))
  }

  function Minutes(input: string): (m: nat)
    requires AllDigits(input)
    ensures m <= 99
  {
    ToLong(MinutesText(input))
  }

  function Seconds(input: string): (s: nat)
    requires AllDigits(input)
    ensures s <= 99
  {
    ToLong(SecondsText(input))
  }

  /** `calculatedSeconds`: minutes and seconds are not normalised, so each
      field contributes up to 99 units. */
  function CalculatedSeconds(input: string): (total: nat)
    requires AllDigits(input)
    ensures total <= MaxSeconds
    ensures total == 0 <==> Hours(input) == 0 && Minutes(input) == 0 && Seconds(input) == 0
  {
    Hours(input) * 3600 + Minutes(input) * 60 + Seconds(input)
  }

  // ---------------------------------------------------------------------
  // The keypad handlers

  /** Digit keys "1" to "9": append the digit while there is room. */
  function DigitKey(input: string, d: NonZeroDigit): (r: string)
    ensures |input| < MaxLength <==> r == input + [d]
    ensures |input| >= MaxLength <==> r == input
  {
    if |input| < MaxLength then input + [d] else input
  }

  /** Key "00": two zeros while two fit, one zero when one fits, nothing on
      an empty or full buffer. */
  function DoubleZeroKey(input: string): (r: string)
    ensures |input| == 0 ==> r == input
    ensures 0 < |input| <= MaxLength - 2 ==> r == input + "00"
    ensures |input| == MaxLength - 1 ==> r == input + "0"
    ensures |input| >= MaxLength ==> r == input
  {
    if |input| > 0 && |input| < MaxLength - 1 then input + "00"
    else if |input| > 0 && |input| < MaxLength then input + "0"
    else input
  }

  /** Key "0": one zero, but never as the first character. */
  function ZeroKey(input: string): (r: string)
    ensures 0 < |input| < MaxLength <==> r == input + "0"
    ensures |input| == 0 || |input| >= MaxLength <==> r == input
  {
    if |input| > 0 && |input| < MaxLength then input + "0" else input
  }

  /** Backspace: `dropLast(1)`, which leaves an empty buffer empty. */
  function BackspaceKey(input: string): (r: string)
    ensures |input| == 0 ==> r == input
    ensures |input| > 0 ==> r + [input[|input| - 1]] == input
  {
    if |input| == 0 then input else input[..|input| - 1]
  }

  /** One press of a keypad button. Every handler keeps the buffer within
      `MaxLength`, keeps it all digits and never creates a leading zero. */
  function PressKey(s: PickerState, key: Key): (r: PickerState)
    ensures r.name == s.name
    ensures |s.input| <= MaxLength ==> |r.input| <= MaxLength
    ensures AllDigits(s.input) ==> AllDigits(r.input)
    ensures NoLeadingZero(s.input) ==> NoLeadingZero(r.input)
  {
    match key
    case Digit(d) => s.(input := DigitKey(s.input, d))
    case DoubleZero => s.(input := DoubleZeroKey(s.input))
    case Zero => s.(input := ZeroKey(s.input))
    case Backspace => s.(input := BackspaceKey(s.input))
  }

  /** A character outside the Basic Multilingual Plane, which a JVM string
      stores as a surrogate pair. */
  predicate IsSupplementary(c: char) {
    c as int >= 0x1_0000
  }

  /** Kotlin's `String.length`: the number of UTF-16 code units, one per
      character of the Basic Multilingual Plane and two per other character. */
  function Utf16Length(s: string): (n: nat)
    ensures |s| <= n <= 2 * |s|
    ensures (forall i :: 0 <= i < |s| ==> !IsSupplementary(s[i])) ==> n == |s|
    ensures (forall i :: 0 <= i < |s| ==> IsSupplementary(s[i])) ==> n == 2 * |s|
  {
    if |s| == 0 then 0
    else Utf16Length(s[..|s| - 1]) + (if IsSupplementary(s[|s| - 1]) then 2 else 1)
  }

  /** A buffer of ASCII digits has the same length in characters as in UTF-16
      code units, so the keypad's length checks can count characters. */
  lemma DigitBufferUtf16Length(s: string)
    requires AllDigits(s)
    ensures Utf16Length(s) == |s|
  {
    assert forall i :: 0 <= i < |s| ==> !IsSupplementary(s[i]) by {
      forall i | 0 <= i < |s| ensures !IsSupplementary(s[i]) {
        assert IsDigit(s[i]);
      }
    }
  }

  /** The name field's `onValueChange`: the new text replaces the name only
      when its UTF-16 length is at most `MaxCharacters`. */
  function ChangeName(s: PickerState, newName: string): (r: PickerState)
    ensures r.input == s.input
    ensures Utf16Length(newName) <= MaxCharacters ==> r.name == newName
    ensures Utf16Length(newName) > MaxCharacters ==> r.name == s.name
    ensures Utf16Length(s.name) <= MaxCharacters ==> Utf16Length(r.name) <= MaxCharacters
  {
    if Utf16Length(newName) <= MaxCharacters then s.(name := newName) else s
  }

  function Apply(s: PickerState, e: Edit): PickerState {
    match e
    case Press(key) => PressKey(s, key)
    case NameChange(newName) => ChangeName(s, newName)
  }

  /** The state after a sequence of edits, applied left to right. */
  function ApplyAll(s: PickerState, edits: seq<Edit>): PickerState
    decreases |edits|
  {
    if |edits| == 0 then s else ApplyAll(Apply(s, edits[0]), edits[1..])
  }

  // ---------------------------------------------------------------------
  // Confirm

  /** The confirm button is enabled when a name is given and the total is
      positive. */
  predicate ConfirmEnabled(s: PickerState)
    requires AllDigits(s.input)
  {
    s.name != "" && CalculatedSeconds(s.input) > 0
  }

  /** Pressing confirm: the emitted `TimerData`, or `None` while the button
      is disabled. */
  function Confirm(s: PickerState): (r: Option<TimerData>)
    requires AllDigits(s.input)
    ensures r.Some? <==> |s.name| > 0 && (Hours(s.input) > 0 || Minutes(s.input) > 0 || Seconds(s.input) > 0)
    ensures r.Some? ==> r.value.name == s.name && 0 < r.value.timeInSeconds <= MaxSeconds
    ensures r.Some? ==> r.value.timeInSeconds == 3600 * Hours(s.input) + 60 * Minutes(s.input) + Seconds(s.input)
  {
    if ConfirmEnabled(s) then Some(TimerData(s.name, CalculatedSeconds(s.input))) else None
  }

  // ---------------------------------------------------------------------
  // Lemmas

  /** For a buffer of at most six characters the three fields are characters
      [0,2), [2,4) and [4,6) of the zero-padded buffer. */
  lemma FieldsArePaddedPairs(input: string)
    requires |input| <= MaxLength
    ensures var p := Padded(input);
      && |p| == 6
      && HoursText(input) == p[0..2]
      && MinutesText(input) == p[2..4]
      && SecondsText(input) == p[4..6]
  {
    SixCharacterFields(Padded(input));
  }

  lemma SixCharacterFields(p: string)
    requires |p| == 6
    ensures Take(p, 2) == p[0..2]
    ensures Take(TakeLast(p, 4), 2) == p[2..4]
    ensures TakeLast(Substring(p, 4), 2) == p[4..6]
  {
    assert TakeLast(p, 4) == p[2..];
  }

  /** A buffer of six or more characters is not padded: hours are its first
      two characters, minutes and seconds its last four, so characters 2 to
      |input| - 5 are never read. */
  lemma LongBufferFields(input: string)
    requires |input| >= MaxLength
    ensures HoursText(input) == input[..2]
    ensures MinutesText(input) == input[|input| - 4..|input| - 2]
    ensures SecondsText(input) == input[|input| - 2..]
  {
    var n := |input|;
    assert Padded(input) == input;
    assert TakeLast(input, 4) == input[n - 4..];
    assert Substring(input, 4) == input[4..];
    assert input[4..][|input[4..]| - 2..] == input[n - 2..];
  }

  lemma {:induction false} DecimalValueOfZeros(k: nat)
    ensures AllDigits(Zeros(k))
    ensures DecimalValue(Zeros(k)) == 0
  {
    var z := Zeros(k);
    if k > 0 {
      assert z[..k - 1] == Zeros(k - 1);
      DecimalValueOfZeros(k - 1);
    }
  }

  lemma ShiftStep(x: int, y: int, p: int, d: int)
    ensures (x * p + y) * 10 + d == x * (10 * p) + (y * 10 + d)
  {
  }

  /** Reading digits left to right: the value of `a + b` shifts `a` by the
      length of `b`. */
  lemma {:induction false} DecimalValueConcat(a: string, b: string)
    requires AllDigits(a) && AllDigits(b)
    ensures AllDigits(a + b)
    ensures DecimalValue(a + b) == DecimalValue(a) * Pow10(|b|) + DecimalValue(b)
    decreases |b|
  {
    var ab := a + b;
    if |b| == 0 {
      assert ab == a;
    } else {
      var b' := b[..|b| - 1];
      assert ab[..|ab| - 1] == a + b';
      assert ab[|ab| - 1] == b[|b| - 1];
      DecimalValueConcat(a, b');
      var d := DigitValue(b[|b| - 1]);
      assert DecimalValue(ab) == DecimalValue(a + b') * 10 + d;
      assert DecimalValue(b) == DecimalValue(b') * 10 + d;
      ShiftStep(DecimalValue(a), DecimalValue(b'), Pow10(|b'|), d);
    }
  }

  /** A digit string denotes a positive number exactly when one of its digits
      is not '0'. */
  lemma {:induction false} DecimalValuePositive(s: string)
    requires AllDigits(s)
    ensures DecimalValue(s) > 0 <==> HasNonZeroDigit(s)
  {
    if |s| > 0 {
      var s' := s[..|s| - 1];
      DecimalValuePositive(s');
      assert HasNonZeroDigit(s) <==> HasNonZeroDigit(s') || s[|s| - 1] != '0' by {
        if HasNonZeroDigit(s') {
          var i :| 0 <= i < |s'| && s'[i] != '0';
          assert s[i] != '0';
        }
        if HasNonZeroDigit(s) {
          var i :| 0 <= i < |s| && s[i] != '0';
          assert i == |s| - 1 || s'[i] != '0';
        }
      }
    }
  }

  /** Three base-100 digits are recovered by division and remainder. */
  lemma Base100Digits(h: nat, m: nat, sec: nat)
    requires h <= 99 && m <= 99 && sec <= 99
    ensures var n := h * 10000 + m * 100 + sec;
      n / 10000 == h && n / 100 % 100 == m && n % 100 == sec
  {
    var n := h * 10000 + m * 100 + sec;
    assert n == (h * 100 + m) * 100 + sec;
    assert n / 100 == h * 100 + m;
    assert n == h * 10000 + (m * 100 + sec);
    assert 0 <= m * 100 + sec < 10000;
  }

  /** Left-padding with zeros does not change the number a buffer denotes. */
  lemma PaddingKeepsValue(input: string)
    requires ValidInput(input)
    ensures AllDigits(Padded(input))
    ensures DecimalValue(Padded(input)) == DecimalValue(input)
  {
    var k := MaxLength - |input|;
    var z := Zeros(k);
    assert Padded(input) == z + input;
    DecimalValueOfZeros(k);
    DecimalValueConcat(z, input);
  }

  /** Six digits read as three base-100 digits of two characters each. */
  lemma SixDigitsAsBase100(p: string)
    requires AllDigits(p) && |p| == 6
    ensures DecimalValue(p) == DecimalValue(p[0..2]) * 10000 + DecimalValue(p[2..4]) * 100 + DecimalValue(p[4..6])
  {
    var hp, mp, sp := p[0..2], p[2..4], p[4..6];
    assert p == hp + mp + sp;
    DecimalValueConcat(hp, mp);
    DecimalValueConcat(hp + mp, sp);
    assert Pow10(2) == 100;
    Regroup(DecimalValue(hp), DecimalValue(mp), DecimalValue(sp));
  }

  lemma Regroup(h: int, m: int, sec: int)
    ensures (h * 100 + m) * 100 + sec == h * 10000 + m * 100 + sec
  {
  }

  /** The total of three base-100 digits, computed from the number they
      spell. */
  lemma TotalOfBase100(n: int, h: nat, m: nat, sec: nat)
    requires h <= 99 && m <= 99 && sec <= 99 && n == h * 10000 + m * 100 + sec
    ensures h * 3600 + m * 60 + sec == 3600 * (n / 10000) + 60 * (n / 100 % 100) + n % 100
  {
    Base100Digits(h, m, sec);
  }

  /** The number the buffer denotes is its three fields read as base-100
      digits. */
  lemma FieldsAsBase100(input: string)
    requires ValidInput(input)
    ensures DecimalValue(input) == Hours(input) * 10000 + Minutes(input) * 100 + Seconds(input)
  {
    var p := Padded(input);
    FieldsArePaddedPairs(input);
    PaddingKeepsValue(input);
    SixDigitsAsBase100(p);
  }

  /** Reference definition of `calculatedSeconds`: with `n` the number the
      buffer denotes, hours are `n / 10000`, minutes `n / 100 % 100` and
      seconds `n % 100`. */
  lemma CalculatedSecondsOfNumber(input: string)
    requires ValidInput(input)
    ensures var n := DecimalValue(input);
      CalculatedSeconds(input) == 3600 * (n / 10000) + 60 * (n / 100 % 100) + n % 100
  {
    FieldsAsBase100(input);
    TotalOfBase100(DecimalValue(input), Hours(input), Minutes(input), Seconds(input));
  }

  /** The total is positive exactly when the buffer holds a non-zero digit. */
  lemma CalculatedSecondsPositive(input: string)
    requires ValidInput(input)
    ensures CalculatedSeconds(input) > 0 <==> HasNonZeroDigit(input)
  {
    FieldsAsBase100(input);
    DecimalValuePositive(input);
  }

  /** Confirm is enabled exactly when a name is given and the buffer holds a
      non-zero digit. */
  lemma ConfirmEnabledIff(s: PickerState)
    requires ValidInput(s.input)
    ensures ConfirmEnabled(s) <==> |s.name| > 0 && HasNonZeroDigit(s.input)
    ensures ConfirmEnabled(s) ==> Confirm(s) == Some(TimerData(s.name, CalculatedSeconds(s.input)))
  {
    CalculatedSecondsPositive(s.input);
  }

  /** The six-character buffer spelling h, m and s in two digits each reads
      back as exactly those fields. */
  lemma FieldsRoundTrip(h: nat, m: nat, sec: nat)
    requires h <= 99 && m <= 99 && sec <= 99
    ensures var input := TwoDigits(h) + TwoDigits(m) + TwoDigits(sec);
      && ValidInput(input)
      && Hours(input) == h && Minutes(input) == m && Seconds(input) == sec
      && CalculatedSeconds(input) == 3600 * h + 60 * m + sec
  {
    var input := TwoDigits(h) + TwoDigits(m) + TwoDigits(sec);
    FieldsArePaddedPairs(input);
    assert Padded(input) == input;
    assert input[0..2] == TwoDigits(h);
    assert input[2..4] == TwoDigits(m);
    assert input[4..6] == TwoDigits(sec);
  }

  /** The two decimal digits of a number below 100. */
  function TwoDigits(n: nat): (r: string)
    requires n <= 99
    ensures |r| == 2 && AllDigits(r)
    ensures DecimalValue(r) == n
  {
    var r := [('0' as int + n / 10) as char, ('0' as int + n % 10) as char];
    assert r[..1] == [r[0]];
    r
  }

  /** A non-empty buffer without a leading zero always has a positive total. */
  lemma NonEmptyBufferIsPositive(input: string)
    requires ValidInput(input) && NoLeadingZero(input) && |input| > 0
    ensures CalculatedSeconds(input) > 0
  {
    CalculatedSecondsPositive(input);
  }

  /** The buffer without its leading zeros. */
  function StripLeadingZeros(s: string): (r: string)
    ensures NoLeadingZero(r)
    ensures |r| <= |s|
    ensures s == Zeros(|s| - |r|) + r
    ensures AllDigits(s) ==> AllDigits(r)
    decreases |s|
  {
    if |s| > 0 && s[0] == '0' then
      var r := StripLeadingZeros(s[1..]);
      assert s == [s[0]] + s[1..];
      assert [s[0]] + Zeros(|s| - 1 - |r|) == Zeros(|s| - |r|);
      r
    else
      assert Zeros(0) + s == s;
      s
  }

  /** Leading zeros do not change the padded buffer, and so change none of
      the three fields. */
  lemma PaddedIgnoresLeadingZeros(input: string)
    requires |input| <= MaxLength
    ensures Padded(StripLeadingZeros(input)) == Padded(input)
  {
    var r := StripLeadingZeros(input);
    PaddedZerosPrefix(|input| - |r|, r);
  }

  lemma PaddedZerosPrefix(k: nat, r: string)
    requires k + |r| <= MaxLength
    ensures Padded(Zeros(k) + r) == Padded(r)
  {
    PaddedIsZerosPlus(Zeros(k) + r);
    PaddedIsZerosPlus(r);
    assert Zeros(MaxLength - k - |r|) + (Zeros(k) + r) == Zeros(MaxLength - |r|) + r;
  }

  lemma PaddedIsZerosPlus(input: string)
    requires |input| <= MaxLength
    ensures Padded(input) == Zeros(MaxLength - |input|) + input
  {
    if |input| == MaxLength {
      assert Zeros(0) + input == input;
    }
  }

  /** The key that types one digit: "0" for '0', otherwise that digit key. */
  function KeyFor(c: char): (k: Key)
    requires IsDigit(c)
    ensures c == '0' <==> k == Zero
    ensures c != '0' ==> k == Digit(c)
  {
    if c == '0' then Zero else Digit(c)
  }

  /** The key presses that type a buffer left to right. */
  function KeysFor(buf: string): (keys: seq<Edit>)
    requires AllDigits(buf)
    ensures |keys| == |buf|
    ensures forall i :: 0 <= i < |keys| ==> keys[i] == Press(KeyFor(buf[i]))
  {
    if |buf| == 0 then []
    else KeysFor(buf[..|buf| - 1]) + [Press(KeyFor(buf[|buf| - 1]))]
  }

  lemma {:induction false} ApplyAllAppend(s: PickerState, edits: seq<Edit>, e: Edit)
    ensures ApplyAll(s, edits + [e]) == Apply(ApplyAll(s, edits), e)
    decreases |edits|
  {
    if |edits| > 0 {
      assert (edits + [e])[1..] == edits[1..] + [e];
      ApplyAllAppend(Apply(s, edits[0]), edits[1..], e);
    }
  }

  /** Every buffer the keypad can hold without a leading zero is typed, from
      an empty buffer, by pressing its digits in order. */
  lemma {:induction false} TypingBuildsBuffer(name: string, buf: string)
    requires ValidInput(buf) && NoLeadingZero(buf)
    ensures ApplyAll(PickerState(name, ""), KeysFor(buf)) == PickerState(name, buf)
    decreases |buf|
  {
    if |buf| > 0 {
      var init := buf[..|buf| - 1];
      var c := buf[|buf| - 1];
      assert NoLeadingZero(init) by {
        if |init| > 0 {
          assert init[0] == buf[0];
        }
      }
      TypingBuildsBuffer(name, init);
      ApplyAllAppend(PickerState(name, ""), KeysFor(init), Press(KeyFor(c)));
      assert c == '0' ==> |init| > 0;
      assert init + [c] == buf;
    }
  }

  /** Every duration of at most 99h 99m 99s can be typed: its six-digit
      spelling without leading zeros is typed from an empty buffer by
      pressing its digits, and reads back as exactly the given fields. */
  lemma DurationTypeable(name: string, h: nat, m: nat, sec: nat)
    requires h <= 99 && m <= 99 && sec <= 99
    ensures var buf := StripLeadingZeros(TwoDigits(h) + TwoDigits(m) + TwoDigits(sec));
      && ValidInput(buf)
      && ApplyAll(PickerState(name, ""), KeysFor(buf)) == PickerState(name, buf)
      && Hours(buf) == h && Minutes(buf) == m && Seconds(buf) == sec
      && CalculatedSeconds(buf) == 3600 * h + 60 * m + sec
  {
    var full := TwoDigits(h) + TwoDigits(m) + TwoDigits(sec);
    var buf := StripLeadingZeros(full);
    FieldsRoundTrip(h, m, sec);
    PaddedIgnoresLeadingZeros(full);
    TypingBuildsBuffer(name, buf);
  }

  /** A name of 60 emoji is 120 UTF-16 units long, so the name field
      rejects it. */
  lemma SupplementaryNameRejected(s: PickerState)
    ensures ChangeName(s, seq(60, _ => '\U{1F600}')) == s
  {
    assert Utf16Length(seq(60, _ => '\U{1F600}')) == 120;
  }

  /** Backspace undoes a digit key that had room. */
  lemma BackspaceUndoesDigit(s: PickerState, d: NonZeroDigit)
    requires |s.input| < MaxLength
    ensures PressKey(PressKey(s, Digit(d)), Backspace) == s
  {
    assert (s.input + [d])[..|s.input|] == s.input;
  }

  /** Backspace undoes "00": twice when both zeros fitted, once when only
      one did. */
  lemma BackspaceUndoesDoubleZero(s: PickerState)
    requires 0 < |s.input| < MaxLength
    ensures var t := PressKey(s, DoubleZero);
      if |s.input| <= MaxLength - 2 then PressKey(PressKey(t, Backspace), Backspace) == s
      else PressKey(t, Backspace) == s
  {
    assert (s.input + "00")[..|s.input| + 1] == s.input + "0";
    assert (s.input + "0")[..|s.input|] == s.input;
  }

  /** Every state reached by keypad presses and name edits from a valid
      starting state keeps the buffer valid, free of leading zeros, and the
      name within `MaxCharacters`. */
  lemma {:induction false} EditsPreserveInvariant(s: PickerState, edits: seq<Edit>)
    requires ValidInput(s.input) && NoLeadingZero(s.input) && Utf16Length(s.name) <= MaxCharacters
    ensures var t := ApplyAll(s, edits);
      ValidInput(t.input) && NoLeadingZero(t.input) && Utf16Length(t.name) <= MaxCharacters
    decreases |edits|
  {
    if |edits| > 0 {
      EditsPreserveInvariant(Apply(s, edits[0]), edits[1..]);
    }
  }

  /** Keypad presses never change the name. */
  lemma {:induction false} PressesKeepName(s: PickerState, edits: seq<Edit>)
    requires forall i :: 0 <= i < |edits| ==> edits[i].Press?
    ensures ApplyAll(s, edits).name == s.name
    decreases |edits|
  {
    if |edits| > 0 {
      PressesKeepName(Apply(s, edits[0]), edits[1..]);
    }
  }
}
