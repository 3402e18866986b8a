# Interval timer: keypad, timer view model and repeat preference

A Dafny model of the logic of the Android interval-timer app
(`com.projecteugene.interval`). It covers three sequential pieces, each as
pure functions over an immutable state record:

- **The duration picker** (`TimePicker.kt`, module `TimePicker`). The
  dialog's state is the digit buffer `input` and the label `name`. Keys
  "1"–"9", "00", "0" and backspace edit the buffer, which is capped at six
  characters and can never start with '0'. The name field accepts a text of
  at most 100 UTF-16 code units, which is what Kotlin's `length` counts. The buffer is left-padded with zeros to six characters and
  split into two-digit hours, minutes and seconds. Their total,
  `calculatedSeconds = 3600h + 60m + s`, is not normalised, so minutes and
  seconds can each reach 99. Confirm is enabled when the name is non-empty
  and the total positive, and it emits `TimerData(name, total)`. The Kotlin
  `padStart`, `take`, `takeLast` and `substring` calls are modelled as
  written, except that lengths and positions count characters rather than
  UTF-16 code units; the two agree on the ASCII-digit buffers the keypad
  builds. `toLong` is modelled only on strings of ASCII digits, which is all
  the keypad can produce from the empty buffer the app starts the dialog
  with. The "[0,2), [2,4), [4,6)" reading is proved for buffers of at
  most six characters, not assumed.
- **The timer view model** (`TimerViewModel.kt`, module `TimerViewModel`). It
  holds the interval list (append, remove by position via `filterIndexed`,
  clear), the show-dialog flag, and the elapsed-seconds counter. The
  coroutine job is reduced to `JobState` (no job, cancelled, active). One pass
  of the `while (true)` loop body is the explicit step `Tick`. Its `chime`
  output stands for playing the tone. The chime test (the counter truncated
  to an `Int`, remainder by ten, equals zero) is modelled with Kotlin's truncating `Long.toInt()` and truncated `%`.
  Below 2^31 the tone plays exactly on multiples of ten. From 2^31 to 2^32 it
  plays when the counter ends in 6.
- **The repeat preference** (`DataStoreManager.kt`, module
  `DataStoreManager`). The preference store is a map from key names to stored
  booleans. The key is `packageName + "_preferences" + ".repeatable"`. An
  absent flag reads `false`. Toggling an absent flag stores `true`, and
  toggling a stored `v` stores `!v`.

`TimerData` (module `TimerDataModel`) is the record the picker emits and the
view model stores. `Options.Option` stands for Kotlin's nullable values.

The view model only counts seconds and chimes every ten. It has no
per-segment logic. `TimerScreen.kt` calls view-model members that
`TimerViewModel.kt` does not declare: `timerUIState`, `isRepeated`,
`onToggleRepeat`, and a `removeTimer` taking a `TimerData`. The model follows
`TimerViewModel.kt`, where `removeTimer` takes a position.

## Model

| member | source | states |
|---|---|---|
| TimePicker.Padded | app/src/main/java/com/projecteugene/interval/compose/timer/TimePicker.kt:141 | the padded buffer has at least six characters, exactly six for a buffer of at most six, and stays all digits |
| TimePicker.Hours | app/src/main/java/com/projecteugene/interval/compose/timer/TimePicker.kt:141-142 | the hours field read as a number is at most 99 |
| TimePicker.Minutes | app/src/main/java/com/projecteugene/interval/compose/timer/TimePicker.kt:143-145 | the minutes field read as a number is at most 99 (not normalised to 59) |
| TimePicker.Seconds | app/src/main/java/com/projecteugene/interval/compose/timer/TimePicker.kt:146-148 | the seconds field read as a number is at most 99 (not normalised to 59) |
| TimePicker.CalculatedSeconds | app/src/main/java/com/projecteugene/interval/compose/timer/TimePicker.kt:149-152 | the total lies in 0..362439 and is zero exactly when all three fields are zero |
| TimePicker.FieldsArePaddedPairs | app/src/main/java/com/projecteugene/interval/compose/timer/TimePicker.kt:141-148 | for a buffer of at most six characters, hours, minutes and seconds are characters [0,2), [2,4) and [4,6) of the zero-padded buffer |
| TimePicker.LongBufferFields | app/src/main/java/com/projecteugene/interval/compose/timer/TimePicker.kt:141-148 | a buffer of six or more characters is not padded: hours are its first two characters, minutes and seconds its last four, so the characters in between are never read |
| TimePicker.FieldsAsBase100 | app/src/main/java/com/projecteugene/interval/compose/timer/TimePicker.kt:141-152 | the number the buffer spells equals hours*10000 + minutes*100 + seconds, so padding and splitting lose no digit |
| TimePicker.CalculatedSecondsOfNumber | app/src/main/java/com/projecteugene/interval/compose/timer/TimePicker.kt:149-152 | independent definition: with n the number the buffer spells, the total is 3600*(n/10000) + 60*(n/100 mod 100) + n mod 100 |
| TimePicker.CalculatedSecondsPositive | app/src/main/java/com/projecteugene/interval/compose/timer/TimePicker.kt:149-152 | the total is positive exactly when the buffer contains a non-zero digit |
| TimePicker.FieldsRoundTrip | app/src/main/java/com/projecteugene/interval/compose/timer/TimePicker.kt:141-152 | the six-character buffer spelling h, m and s (each 0..99) in two digits each reads back as exactly h, m and s, total 3600h + 60m + s |
| TimePicker.StripLeadingZeros | app/src/main/java/com/projecteugene/interval/compose/timer/TimePicker.kt:141 | helper for `PaddedIgnoresLeadingZeros` and `DurationTypeable`, not a source operation: the buffer without its leading zeros has no leading zero, is a suffix after a run of zeros, and keeps all-digits |
| TimePicker.PaddedIgnoresLeadingZeros | app/src/main/java/com/projecteugene/interval/compose/timer/TimePicker.kt:141-148 | dropping leading zeros leaves the padded buffer, and so all three fields, unchanged |
| TimePicker.KeysFor | app/src/main/java/com/projecteugene/interval/compose/timer/TimePicker.kt:200-256 | helper for `TypingBuildsBuffer`, not a source operation: the key presses that type a buffer, one per character, the "0" button for '0' and the digit button otherwise |
| TimePicker.TypingBuildsBuffer | app/src/main/java/com/projecteugene/interval/compose/timer/TimePicker.kt:200-256 | every buffer of at most six digits without a leading zero is typed from the empty buffer by pressing its digits in order |
| TimePicker.DurationTypeable | app/src/main/java/com/projecteugene/interval/compose/timer/TimePicker.kt:141-256 | every duration up to 99h 99m 99s can be typed from the empty buffer and reads back as exactly its hours, minutes and seconds |
| TimePicker.DigitKey | app/src/main/java/com/projecteugene/interval/compose/timer/TimePicker.kt:200-244 | a digit key 1-9 appends exactly that digit if and only if the buffer is shorter than six, and otherwise leaves it unchanged |
| TimePicker.DoubleZeroKey | app/src/main/java/com/projecteugene/interval/compose/timer/TimePicker.kt:245-251 | "00" does nothing on an empty buffer, appends two zeros at length 1-4, one zero at length 5 and nothing at length 6 or more |
| TimePicker.ZeroKey | app/src/main/java/com/projecteugene/interval/compose/timer/TimePicker.kt:252-256 | "0" appends a zero if and only if the buffer is non-empty and shorter than six |
| TimePicker.BackspaceKey | app/src/main/java/com/projecteugene/interval/compose/timer/TimePicker.kt:257-259 | backspace removes exactly the last character and leaves the empty buffer empty |
| TimePicker.PressKey | app/src/main/java/com/projecteugene/interval/compose/timer/TimePicker.kt:200-259 | every keypad handler keeps the name, keeps the buffer within six characters and all digits, and never introduces a leading zero |
| TimePicker.Utf16Length | app/src/main/java/com/projecteugene/interval/compose/timer/TimePicker.kt:169 | Kotlin's length of a string: between its character count and twice that, equal to the count when all characters are in the Basic Multilingual Plane and to twice it when none is |
| TimePicker.DigitBufferUtf16Length | app/src/main/java/com/projecteugene/interval/compose/timer/TimePicker.kt:201-258 | a buffer of ASCII digits has the same UTF-16 length as character count, so the keypad's `input.length` checks count characters |
| TimePicker.ChangeName | app/src/main/java/com/projecteugene/interval/compose/timer/TimePicker.kt:168-172 | a name edit is taken if and only if the new text has at most 100 UTF-16 code units; otherwise the name stays; the buffer never changes |
| TimePicker.SupplementaryNameRejected | app/src/main/java/com/projecteugene/interval/compose/timer/TimePicker.kt:169-171 | a name of 60 emoji (120 UTF-16 units) is rejected and leaves the state unchanged |
| TimePicker.Confirm | app/src/main/java/com/projecteugene/interval/compose/timer/TimePicker.kt:264-272 | confirm emits a value exactly when the name is non-empty and some field is non-zero; the value carries the name and 3600h + 60m + s, which lies in 1..362439 |
| TimePicker.ConfirmEnabledIff | app/src/main/java/com/projecteugene/interval/compose/timer/TimePicker.kt:265 | for a keypad-held buffer, the button is enabled exactly when the name is non-empty and the buffer has a non-zero digit, and then confirms TimerData(name, total) |
| TimePicker.NonEmptyBufferIsPositive | app/src/main/java/com/projecteugene/interval/compose/timer/TimePicker.kt:245-256 | since "0" and "00" cannot start a buffer, any non-empty buffer without a leading zero has a positive total |
| TimePicker.BackspaceUndoesDigit | app/src/main/java/com/projecteugene/interval/compose/timer/TimePicker.kt:200-259 | backspace is the inverse of a digit key that had room |
| TimePicker.BackspaceUndoesDoubleZero | app/src/main/java/com/projecteugene/interval/compose/timer/TimePicker.kt:245-259 | backspace undoes "00": two presses after two zeros, one press after the single zero at length 5 |
| TimePicker.EditsPreserveInvariant | app/src/main/java/com/projecteugene/interval/compose/timer/TimePicker.kt:168-259 | from a valid start, any sequence of key presses and name edits keeps the buffer all digits, at most six long and free of a leading zero, and the name at most 100 UTF-16 code units |
| TimePicker.PressesKeepName | app/src/main/java/com/projecteugene/interval/compose/timer/TimePicker.kt:200-259 | a sequence of key presses never changes the name |
| TimerViewModel.Initial | app/src/main/java/com/projecteugene/interval/viewmodel/TimerViewModel.kt:27-29 | a new view model has no intervals, zero elapsed time, the dialog hidden and no running loop |
| TimerViewModel.OnShowDialog | app/src/main/java/com/projecteugene/interval/viewmodel/TimerViewModel.kt:36-40 | raises the dialog flag and changes nothing else |
| TimerViewModel.OnDismiss | app/src/main/java/com/projecteugene/interval/viewmodel/TimerViewModel.kt:42-46 | lowers the dialog flag and changes nothing else |
| TimerViewModel.DialogFlagIdempotent | app/src/main/java/com/projecteugene/interval/viewmodel/TimerViewModel.kt:36-46 | each dialog handler is idempotent, and each undoes the other when the flag started in its state |
| TimerViewModel.AddTimer | app/src/main/java/com/projecteugene/interval/viewmodel/TimerViewModel.kt:50-54 | the list grows by one, ends with the new interval and keeps every earlier element; nothing else changes |
| TimerViewModel.WithoutIndex | app/src/main/java/com/projecteugene/interval/viewmodel/TimerViewModel.kt:58 | filtering out one index shortens the list by one exactly when the index is in range, and keeps only elements of the list |
| TimerViewModel.WithoutIndexShape | app/src/main/java/com/projecteugene/interval/viewmodel/TimerViewModel.kt:56-60 | filtering out index p of a list is list[..p] + list[p+1..] when 0 <= p < |list|, and the list itself for any other p |
| TimerViewModel.RemoveTimer | app/src/main/java/com/projecteugene/interval/viewmodel/TimerViewModel.kt:56-60 | removes exactly the interval at an in-range position, ignores any other position, and changes nothing else |
| TimerViewModel.RemoveUndoesAdd | app/src/main/java/com/projecteugene/interval/viewmodel/TimerViewModel.kt:50-60 | removing at the old length undoes an add |
| TimerViewModel.RemoveAllTimer | app/src/main/java/com/projecteugene/interval/viewmodel/TimerViewModel.kt:62-66 | empties the list and changes nothing else |
| TimerViewModel.RemoveAllIdempotent | app/src/main/java/com/projecteugene/interval/viewmodel/TimerViewModel.kt:62-66 | clearing twice equals clearing once |
| TimerViewModel.StartTimer | app/src/main/java/com/projecteugene/interval/viewmodel/TimerViewModel.kt:68-79 | afterwards the job slot holds an active loop; the list, the elapsed time and the dialog flag are unchanged |
| TimerViewModel.StartIdempotent | app/src/main/java/com/projecteugene/interval/viewmodel/TimerViewModel.kt:68-70 | starting twice equals starting once |
| TimerViewModel.CancelJob | app/src/main/java/com/projecteugene/interval/viewmodel/TimerViewModel.kt:82 | cancelling leaves no active job and turns a null job into nothing |
| TimerViewModel.PauseTimer | app/src/main/java/com/projecteugene/interval/viewmodel/TimerViewModel.kt:81-83 | stops the loop and keeps the elapsed time, the list and the dialog flag |
| TimerViewModel.StopTimer | app/src/main/java/com/projecteugene/interval/viewmodel/TimerViewModel.kt:85-88 | stops the loop and resets the elapsed time to 0; the list and the dialog flag are unchanged |
| TimerViewModel.ToInt | app/src/main/java/com/projecteugene/interval/viewmodel/TimerViewModel.kt:74 | Long.toInt keeps the value modulo 2^32 within the signed 32-bit range, and is the identity on 0..2^31-1 |
| TimerViewModel.Tick | app/src/main/java/com/projecteugene/interval/viewmodel/TimerViewModel.kt:71-77 | a tick of an active loop adds exactly 1 to the elapsed time and, below 2^31, chimes exactly when the new value is a multiple of 10; a cancelled loop does nothing |
| TimerViewModel.ChimeDrift | app/src/main/java/com/projecteugene/interval/viewmodel/TimerViewModel.kt:74 | for an elapsed time in [2^31, 2^32) the truncating toInt makes the tone play exactly when the time ends in 6 |
| TimerViewModel.Ticks | app/src/main/java/com/projecteugene/interval/viewmodel/TimerViewModel.kt:71-77 | repeated ticks never touch the list, the dialog flag or the job, and chime at most once per tick |
| TimerViewModel.TicksChimeEveryTenSeconds | app/src/main/java/com/projecteugene/interval/viewmodel/TimerViewModel.kt:71-77 | n ticks from e reach e + n and chime once per multiple of 10 in (e, e + n] |
| TimerViewModel.PausedTicksKeepElapsed | app/src/main/java/com/projecteugene/interval/viewmodel/TimerViewModel.kt:81-83 | a loop that is not active changes nothing and never chimes |
| TimerViewModel.Step | app/src/main/java/com/projecteugene/interval/viewmodel/TimerViewModel.kt:36-88 | no handler lowers the elapsed time except stop, which sets it to 0 |
| TimerViewModel.ElapsedMonotoneWithoutStop | app/src/main/java/com/projecteugene/interval/viewmodel/TimerViewModel.kt:68-88 | no sequence of events without a stop lowers the elapsed time |
| TimerViewModel.TimerControlsKeepList | app/src/main/java/com/projecteugene/interval/viewmodel/TimerViewModel.kt:68-88 | start, pause, stop and ticks never touch the interval list or the dialog flag |
| DataStoreManager.StoreName | app/src/main/java/com/projecteugene/interval/utilities/DataStoreManager.kt:17 | the store name is the package name followed by "_preferences" |
| DataStoreManager.RepeatKey | app/src/main/java/com/projecteugene/interval/utilities/DataStoreManager.kt:17-18 | the repeat key is the package name followed by "_preferences.repeatable" |
| DataStoreManager.Lookup | app/src/main/java/com/projecteugene/interval/utilities/DataStoreManager.kt:25 | a key reads as present with its stored value, or absent |
| DataStoreManager.IsRepeatable | app/src/main/java/com/projecteugene/interval/utilities/DataStoreManager.kt:21-27 | an absent flag reads false; a stored flag reads as stored |
| DataStoreManager.ToggleRepeatable | app/src/main/java/com/projecteugene/interval/utilities/DataStoreManager.kt:29-34 | an absent flag becomes true, a stored v becomes !v, and every other entry is unchanged |
| DataStoreManager.ToggleNegatesRead | app/src/main/java/com/projecteugene/interval/utilities/DataStoreManager.kt:21-34 | the flag read after a toggle is the negation of the flag read before it |
| DataStoreManager.ToggleTwice | app/src/main/java/com/projecteugene/interval/utilities/DataStoreManager.kt:29-34 | two toggles restore a stored flag, and turn an absent one into a stored false that reads the same |

## Left out

- TimePicker.PressKey: the buffer's `length < maxLength` checks and `dropLast(1)` count characters, whereas Kotlin counts UTF-16 code units. The two agree on every buffer of ASCII digits (`DigitBufferUtf16Length`), which is all the keypad builds from the empty buffer the dialog starts with; a caller-supplied `defaultInput` holding supplementary characters would be counted differently and is not modelled.
- TimerViewModel.StartTimer: the job is a single slot, so "at most one loop" holds by construction. It does not come from the model of the cancel that precedes the launch; a start without that cancel would give the same model.
- Coroutines and timing: `viewModelScope.launch`, `delay(1000)` and `Job.cancel` are reduced to `JobState` and the explicit `Tick` step. Nothing models real time or cancellation at a suspension point.
- `MediaPlayer` playback and `onCleared` are platform side effects. The chime is the boolean `chime` output of `Tick`.
- TimerViewModel.Tick: `elapsedTime` is a `Long`, modelled as an unbounded `nat`. Wrap-around at 2^63 seconds is not modelled because no run can reach it. The 32-bit `toInt()` truncation in the chime test is modelled.
- TimePicker.Hours: the fields are parsed only for an all-ASCII-digit buffer (the `AllDigits` precondition, shared by `Minutes`, `Seconds` and `CalculatedSeconds`). On other caller-supplied `defaultInput` strings the JVM parser may throw, may accept a sign (a `defaultInput` of "-5" gives a negative total) or non-ASCII decimal digits, and for buffers of six or more characters the fields are the first two and the last four characters, so characters 2 to |input|-5 are never read (`LongBufferFields`). None of this is modelled. The app always opens the dialog with `defaultInput = ""` (TimerScreen.kt line 189), and the keypad only adds ASCII digits.
- The dialog's `defaultName` and `defaultInput` arguments are the starting `PickerState`. Lemmas about sequences of edits assume a valid start. The formatted "%sh %sm %ss" text and the "n/100" counter are display only.
- DataStore I/O (the `Flow` from `data.map`, the suspending `edit`, file persistence) is left out. Only the map update is kept. Stored preference values are booleans only, since the one key in the source is a boolean key.
- `TimerView.kt` (floating-point arc drawing), `TimerScreen.kt`, `TimerItemView.kt`, `Theme.kt`, `IntervalTimerApp.kt` and `MainActivity.kt` are UI and layout. `VibratorHelper.kt` and `MediaPlayerHelper.kt` only call Android APIs. `TimerDataDao.kt` is a Room interface with no logic.
