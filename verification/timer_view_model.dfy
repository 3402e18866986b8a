/**
  The timer screen's view model: the list of intervals, the elapsed-seconds
  counter driven by a once-a-second loop, and the add-interval dialog flag.

  The coroutine job is reduced to its observable status (`JobState`); the
  loop body that runs once a second while the job is active is the explicit
  step `Tick`, whose `chime` output stands for starting the media player.
*/
module TimerViewModel {
  import opened TimerDataModel

  /** 2^32 and 2^31, the width and sign bit of a Kotlin `Int`. */
  const IntModulus: int := 0x1_0000_0000
  const IntBound: int := 0x8000_0000

  /** The loop's chime interval in seconds. */
  const ChimeEvery: nat := 10

  /** `timerJob`: never launched (`null`), cancelled, or running its loop. */
  datatype JobState = NoJob | Cancelled | Active

  datatype ViewModelState = ViewModelState(
    timers: seq<TimerData>,
    elapsedTime: nat,
    showDialog: bool,
    timerJob: JobState)

  /** One pass of the loop body: the new state and whether it chimed. */
  datatype TickResult = TickResult(state: ViewModelState, chime: bool)

  /** `n` passes of the loop body: the final state and how many chimed. */
  datatype TicksResult = TicksResult(state: ViewModelState, chimes: nat)

  /** Everything the screen can do to the view model, plus the loop's tick. */
  datatype Event =
    | Added(timer: TimerData)
    | Removed(position: int)
    | ClearedAll
    | Started
    | Paused
    | Stopped
    | DialogShown
    | Dismissed
    | Ticked

  predicate IsRunning(s: ViewModelState) {
    s.timerJob == Active
  }

  /** The state at construction: no intervals, zero elapsed, dialog hidden,
      no job. */
  function Initial(): (s: ViewModelState)
    ensures |s.timers| == 0 && s.elapsedTime == 0 && !s.showDialog && !IsRunning(s)
  {
    ViewModelState([], 0, false, NoJob)
  }

  // ---------------------------------------------------------------------
  // Kotlin integer semantics used by the chime test

  /** `Long.toInt()`: keeps the low 32 bits, read as a signed `Int`. */
  function ToInt(v: int): (r: int)
    ensures -IntBound <= r < IntBound
    ensures (v - r) % IntModulus == 0
    ensures 0 <= v < IntBound ==> r == v
  {
    var low := v % IntModulus;
    if low < IntBound then low else low - IntModulus
  }

  /** Kotlin's `%` on `Int`: the remainder of truncated division, which has
      the sign of the dividend. */
  function Rem(a: int, b: int): (r: int)
    requires b > 0
    ensures -b < r < b
    ensures a >= 0 ==> r == a % b
    ensures a < 0 ==> r <= 0
  {
    if a >= 0 then a % b else -((-a) % b)
  }

  /** The loop's chime test: the elapsed time, truncated to an `Int`, leaves
      no remainder when divided by ten. */
  predicate ChimesAt(elapsed: int) {
    Rem(ToInt(elapsed), ChimeEvery) == 0
  }

  // ---------------------------------------------------------------------
  // The dialog flag

  /** `onShowDialog`: raises the flag and changes nothing else. */
  function OnShowDialog(s: ViewModelState): (r: ViewModelState)
    ensures r.showDialog
    ensures r.timers == s.timers && r.elapsedTime == s.elapsedTime && r.timerJob == s.timerJob
  {
    s.(showDialog := true)
  }

  /** `onDismiss`: lowers the flag and changes nothing else. */
  function OnDismiss(s: ViewModelState): (r: ViewModelState)
    ensures !r.showDialog
    ensures r.timers == s.timers && r.elapsedTime == s.elapsedTime && r.timerJob == s.timerJob
  {
    s.(showDialog := false)
  }

  // ---------------------------------------------------------------------
  // The interval list

  /** Kotlin's `filterIndexed` as `removeTimer` uses it: keeps every element
      whose index differs from `position`, in order. */
  function WithoutIndex(list: seq<TimerData>, position: int): (r: seq<TimerData>)
    ensures |r| == if 0 <= position < |list| then |list| - 1 else |list|
    ensures forall t :: t in r ==> t in list
  {
    if |list| == 0 then []
    else
      var last := list[|list| - 1];
      WithoutIndex(list[..|list| - 1], position) + (if position == |list| - 1 then [] else [last])
  }

  /** `addTimer`: appends one interval; nothing else changes. */
  function AddTimer(s: ViewModelState, t: TimerData): (r: ViewModelState)
    ensures |r.timers| == |s.timers| + 1 && r.timers[|s.timers|] == t
    ensures r.timers[..|s.timers|] == s.timers
    ensures r.elapsedTime == s.elapsedTime && r.showDialog == s.showDialog && r.timerJob == s.timerJob
  {
    s.(timers := s.timers + [t])
  }

  /** `removeTimer(position)`: drops the interval at `position`; a position
      outside the list removes nothing. */
  function RemoveTimer(s: ViewModelState, position: int): (r: ViewModelState)
    ensures 0 <= position < |s.timers| ==> r.timers == s.timers[..position] + s.timers[position + 1..]
    ensures !(0 <= position < |s.timers|) ==> r.timers == s.timers
    ensures r.elapsedTime == s.elapsedTime && r.showDialog == s.showDialog && r.timerJob == s.timerJob
  {
    WithoutIndexShape(s.timers, position);
    s.(timers := WithoutIndex(s.timers, position))
  }

  /** `removeAllTimer`: empties the list; nothing else changes. */
  function RemoveAllTimer(s: ViewModelState): (r: ViewModelState)
    ensures |r.timers| == 0
    ensures r.elapsedTime == s.elapsedTime && r.showDialog == s.showDialog && r.timerJob == s.timerJob
  {
    s.(timers := [])
  }

  // ---------------------------------------------------------------------
  // The elapsed-time loop

  /** `startTimer`: the job slot ends up holding an active loop. The model
      has a single job slot, so the cancel of the previous job that precedes
      the launch leaves no trace here: the new loop simply takes the slot. */
  function StartTimer(s: ViewModelState): (r: ViewModelState)
    ensures IsRunning(r)
    ensures r.timers == s.timers && r.elapsedTime == s.elapsedTime && r.showDialog == s.showDialog
  {
    s.(timerJob := Active)
  }

  /** The null-safe cancel of the job: a job that exists ends up cancelled; no job
      stays no job. */
  function CancelJob(job: JobState): (r: JobState)
    ensures r != Active
    ensures job == NoJob <==> r == NoJob
  {
    if job == NoJob then NoJob else Cancelled
  }

  /** `pauseTimer`: cancels the loop and keeps the elapsed time. */
  function PauseTimer(s: ViewModelState): (r: ViewModelState)
    ensures !IsRunning(r)
    ensures r.timers == s.timers && r.elapsedTime == s.elapsedTime && r.showDialog == s.showDialog
  {
    s.(timerJob := CancelJob(s.timerJob))
  }

  /** `stopTimer`: resets the elapsed time to zero and cancels the loop. */
  function StopTimer(s: ViewModelState): (r: ViewModelState)
    ensures !IsRunning(r) && r.elapsedTime == 0
    ensures r.timers == s.timers && r.showDialog == s.showDialog
  {
    s.(elapsedTime := 0, timerJob := CancelJob(s.timerJob))
  }

  /** One pass of the loop body after its one-second delay: the counter goes
      up by one and the tone plays when the new value passes the chime test.
      A job that is not active runs no more passes. */
  function Tick(s: ViewModelState): (r: TickResult)
    ensures IsRunning(s) ==> r.state.elapsedTime == s.elapsedTime + 1
    ensures r.state.elapsedTime < IntBound ==>
      (r.chime <==> IsRunning(s) && r.state.elapsedTime % ChimeEvery == 0)
    ensures !IsRunning(s) ==> r.state == s && !r.chime
    ensures r.state.timers == s.timers && r.state.showDialog == s.showDialog && r.state.timerJob == s.timerJob
  {
    if !IsRunning(s) then TickResult(s, false)
    else
      var e := s.elapsedTime + 1;
      TickResult(s.(elapsedTime := e), ChimesAt(e))
  }

  /** `n` consecutive passes of the loop body. */
  function Ticks(s: ViewModelState, n: nat): (r: TicksResult)
    ensures r.state.timers == s.timers && r.state.showDialog == s.showDialog && r.state.timerJob == s.timerJob
    ensures r.chimes <= n
    decreases n
  {
    if n == 0 then TicksResult(s, 0)
    else
      var t := Tick(s);
      var rest := Ticks(t.state, n - 1);
      TicksResult(rest.state, rest.chimes + (if t.chime then 1 else 0))
  }

  function Step(s: ViewModelState, e: Event): (r: ViewModelState)
    ensures r.elapsedTime >= s.elapsedTime || (e == Stopped && r.elapsedTime == 0)
  {
    match e
    case Added(t) => AddTimer(s, t)
    case Removed(p) => RemoveTimer(s, p)
    case ClearedAll => RemoveAllTimer(s)
    case Started => StartTimer(s)
    case Paused => PauseTimer(s)
    case Stopped => StopTimer(s)
    case DialogShown => OnShowDialog(s)
    case Dismissed => OnDismiss(s)
    case Ticked => Tick(s).state
  }

  /** The state after a sequence of events, applied left to right. */
  function Run(s: ViewModelState, events: seq<Event>): ViewModelState
    decreases |events|
  {
    if |events| == 0 then s else Run(Step(s, events[0]), events[1..])
  }

  // ---------------------------------------------------------------------
  // Lemmas

  /** `filterIndexed` with an index inside the list is the list with that one
      element cut out; with any other index it is the list itself. */
  lemma {:induction false} WithoutIndexShape(list: seq<TimerData>, position: int)
    ensures 0 <= position < |list| ==> WithoutIndex(list, position) == list[..position] + list[position + 1..]
    ensures !(0 <= position < |list|) ==> WithoutIndex(list, position) == list
    decreases |list|
  {
    if |list| > 0 {
      var init := list[..|list| - 1];
      WithoutIndexShape(init, position);
      if 0 <= position < |list| - 1 {
        assert init[..position] + init[position + 1..] + [list[|list| - 1]]
            == list[..position] + list[position + 1..];
      } else if position == |list| - 1 {
        assert list[..position] + list[position + 1..] == init;
      } else {
        assert init + [list[|list| - 1]] == list;
      }
    }
  }

  /** Removing the interval just added restores the list. */
  lemma RemoveUndoesAdd(s: ViewModelState, t: TimerData)
    ensures RemoveTimer(AddTimer(s, t), |s.timers|) == s
  {
    assert (s.timers + [t])[..|s.timers|] == s.timers;
  }

  /** Clearing twice is the same as clearing once. */
  lemma RemoveAllIdempotent(s: ViewModelState)
    ensures RemoveAllTimer(RemoveAllTimer(s)) == RemoveAllTimer(s)
    ensures RemoveAllTimer(s).timers == []
  {
  }

  /** Starting twice reaches the same state as starting once. */
  lemma StartIdempotent(s: ViewModelState)
    ensures StartTimer(StartTimer(s)) == StartTimer(s)
  {
  }

  /** The dialog handlers are idempotent, and each undoes the other on the
      flag alone. */
  lemma DialogFlagIdempotent(s: ViewModelState)
    ensures OnShowDialog(OnShowDialog(s)) == OnShowDialog(s)
    ensures OnDismiss(OnDismiss(s)) == OnDismiss(s)
    ensures !s.showDialog ==> OnDismiss(OnShowDialog(s)) == s
    ensures s.showDialog ==> OnShowDialog(OnDismiss(s)) == s
  {
  }

  /** Past the `Int` range the truncating `toInt()` moves the chimes: for an
      elapsed time in [2^31, 2^32) the truncated value is `e - 2^32`, so the
      tone plays when `e` ends in 6, not in 0. */
  lemma ChimeDrift(e: int)
    requires IntBound <= e < IntModulus
    ensures ChimesAt(e) <==> e % ChimeEvery == 6
  {
    assert ToInt(e) == e - IntModulus;
  }

  /** From elapsed time `e`, `n` ticks of a running loop reach `e + n` and
      chime once for each multiple of ten in `(e, e + n]`. */
  lemma {:induction false} TicksChimeEveryTenSeconds(s: ViewModelState, n: nat)
    requires IsRunning(s) && s.elapsedTime + n < IntBound
    ensures Ticks(s, n).state.elapsedTime == s.elapsedTime + n
    ensures Ticks(s, n).chimes == (s.elapsedTime + n) / ChimeEvery - s.elapsedTime / ChimeEvery
    decreases n
  {
    if n > 0 {
      var t := Tick(s);
      TicksChimeEveryTenSeconds(t.state, n - 1);
      var e := s.elapsedTime;
      assert (e + 1) / 10 - e / 10 == if (e + 1) % 10 == 0 then 1 else 0;
    }
  }

  /** A paused loop does not move the counter, however many ticks arrive. */
  lemma {:induction false} PausedTicksKeepElapsed(s: ViewModelState, n: nat)
    requires !IsRunning(s)
    ensures Ticks(s, n).state == s && Ticks(s, n).chimes == 0
    decreases n
  {
    if n > 0 {
      PausedTicksKeepElapsed(Tick(s).state, n - 1);
    }
  }

  /** Without a stop, no sequence of events lowers the elapsed time. */
  lemma {:induction false} ElapsedMonotoneWithoutStop(s: ViewModelState, events: seq<Event>)
    requires forall i :: 0 <= i < |events| ==> events[i] != Stopped
    ensures Run(s, events).elapsedTime >= s.elapsedTime
    decreases |events|
  {
    if |events| > 0 {
      ElapsedMonotoneWithoutStop(Step(s, events[0]), events[1..]);
    }
  }

  /** Start, pause, stop and ticks leave the interval list and the dialog
      flag untouched. */
  lemma {:induction false} TimerControlsKeepList(s: ViewModelState, events: seq<Event>)
    requires forall i :: 0 <= i < |events| ==> events[i] in {Started, Paused, Stopped, Ticked}
    ensures Run(s, events).timers == s.timers
    ensures Run(s, events).showDialog == s.showDialog
    decreases |events|
  {
    if |events| > 0 {
      TimerControlsKeepList(Step(s, events[0]), events[1..]);
    }
  }
}
