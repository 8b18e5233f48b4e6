/**
 * `TimerStopwatch` of timer.py. The clock (`time.time()`) is a parameter `now` of every
 * operation that reads it; the lock only serialises calls and is not modelled. The
 * stopwatch's three fields are mirrored by the value `Watch`, on which the transitions and
 * their properties are stated.
 */
module Timer {
  import opened Wrappers
  import opened Text

  /** `_running`, `_start_time` (None before the first start and after a reset) and `_elapsed`. */
  datatype Watch = Watch(running: bool, start: Option<real>, total: real)

  /** The state after `__init__` and after `reset`. */
  const Initial := Watch(false, None, 0.0)

  /** A running watch has a start time. */
  predicate Consistent(w: Watch) {
    w.running ==> w.start.Some?
  }

  /** `start`: a stopped watch starts at `now`; a running one is left as it is. */
  function Started(w: Watch, now: real): (r: Watch)
    ensures r.running && r.total == w.total
    ensures Consistent(w) ==> Consistent(r)
  {
    if w.running then w else Watch(true, Some(now), w.total)
  }

  /** `stop`: a running watch adds the time since its start and stops; a stopped one is left as it is. */
  function Stopped(w: Watch, now: real): (r: Watch)
    requires Consistent(w)
    ensures !r.running && r.start == w.start
  {
    if w.running then Watch(false, w.start, w.total + (now - w.start.value)) else w
  }

  /** `elapsed()` at time `now`. */
  function Reading(w: Watch, now: real): (r: real)
    requires Consistent(w)
    ensures !w.running ==> r == w.total
    ensures w.running ==> r - w.total == now - w.start.value
  {
    if w.running then w.total + (now - w.start.value) else w.total
  }

  /** Starting twice is starting once: the second start does not move the start time. */
  lemma StartIdempotent(w: Watch, t1: real, t2: real)
    requires Consistent(w)
    ensures Started(Started(w, t1), t2) == Started(w, t1)
    ensures Started(w, t1).start == (if w.running then w.start else Some(t1))
  {
  }

  /** Stopping twice is stopping once. */
  lemma StopIdempotent(w: Watch, t1: real, t2: real)
    requires Consistent(w)
    ensures Stopped(Stopped(w, t1), t2) == Stopped(w, t1)
  {
  }

  /** Starting does not change the reading at the moment of the start. */
  lemma StartKeepsReading(w: Watch, now: real)
    requires Consistent(w)
    ensures Reading(Started(w, now), now) == Reading(w, now)
  {
  }

  /** Stopping freezes the reading at its value when stopped, at every later (or earlier) time. */
  lemma StopFreezesReading(w: Watch, now: real, later: real)
    requires Consistent(w)
    ensures Reading(Stopped(w, now), later) == Reading(w, now)
  {
  }

  /** A reset watch reads zero at every time. */
  lemma InitialReadsZero(now: real)
    ensures Consistent(Initial) && Reading(Initial, now) == 0.0
  {
  }

  /** A watch observed at time t: consistent, never negative, and not started after t. */
  predicate Clocked(w: Watch, t: real) {
    Consistent(w) && w.total >= 0.0 && (w.running ==> w.start.value <= t)
  }

  /** The calls that read or change a watch without resetting it. */
  datatype Call = StartCall | StopCall | ElapsedCall

  /** A call made when the clock reads `time`. */
  datatype Event = Event(call: Call, time: real)

  function Step(w: Watch, e: Event): (r: Watch)
    requires Consistent(w)
    ensures Consistent(r)
  {
    match e.call
    case StartCall => Started(w, e.time)
    case StopCall => Stopped(w, e.time)
    case ElapsedCall => w
  }

  /** The watch after some calls, in order. */
  function Run(w: Watch, events: seq<Event>): (r: Watch)
    requires Consistent(w)
    ensures Consistent(r)
  {
    if events == [] then w else Step(Run(w, events[..|events| - 1]), events[|events| - 1])
  }

  /** The clock never goes backwards and starts at t0 or later. */
  predicate Monotone(t0: real, events: seq<Event>) {
    (forall i :: 0 <= i < |events| ==> t0 <= events[i].time)
    && (forall i, j :: 0 <= i < j < |events| ==> events[i].time <= events[j].time)
  }

  /** What `elapsed()` would report right after event i. */
  function ReadingAfter(w: Watch, events: seq<Event>, i: nat): real
    requires Consistent(w) && i < |events|
  {
    Reading(Run(w, events[..i + 1]), events[i].time)
  }

  /** One call at a time no earlier than t never lowers the reading, and keeps the watch well clocked. */
  lemma StepNeverDecreases(w: Watch, t: real, e: Event)
    requires Clocked(w, t) && t <= e.time
    ensures Clocked(Step(w, e), e.time)
    ensures Reading(w, t) <= Reading(Step(w, e), e.time)
  {
  }

  lemma RunSnoc(w: Watch, events: seq<Event>, e: Event)
    requires Consistent(w)
    ensures Run(w, events + [e]) == Step(Run(w, events), e)
  {
    assert (events + [e])[..|events|] == events;
  }

  /** A prefix of a monotone run is monotone. */
  lemma MonotonePrefix(t0: real, events: seq<Event>, k: nat)
    requires Monotone(t0, events) && k <= |events|
    ensures Monotone(t0, events[..k])
  {
  }

  /** Running the calls one after another: the watch stays well clocked and the reading does not drop. */
  lemma {:induction false} RunNeverDecreases(w: Watch, t0: real, events: seq<Event>)
    requires Clocked(w, t0) && Monotone(t0, events) && events != []
    ensures Clocked(Run(w, events), events[|events| - 1].time)
    ensures Reading(w, t0) <= Reading(Run(w, events), events[|events| - 1].time)
  {
    var n := |events|;
    var init := events[..n - 1];
    var e := events[n - 1];
    if n == 1 {
      assert Run(w, events) == Step(Run(w, init), e) && init == [];
      StepNeverDecreases(w, t0, e);
    } else {
      MonotonePrefix(t0, events, n - 1);
      RunNeverDecreases(w, t0, init);
      var last := init[n - 2];
      assert last == events[n - 2];
      StepNeverDecreases(Run(w, init), last.time, e);
    }
  }

  /** Running a + b is running a, then b. */
  lemma {:induction false} RunConcat(w: Watch, a: seq<Event>, b: seq<Event>)
    requires Consistent(w)
    ensures Run(w, a + b) == Run(Run(w, a), b)
  {
    if b == [] {
      assert a + b == a;
    } else {
      var init := b[..|b| - 1];
      assert a + b == (a + init) + [b[|b| - 1]];
      RunConcat(w, a, init);
      RunSnoc(w, a + init, b[|b| - 1]);
    }
  }

  /** The calls after call i up to call j run on a clock that starts at call i's time. */
  lemma MonotoneSlice(t0: real, events: seq<Event>, i: nat, j: nat)
    requires Monotone(t0, events) && i <= j < |events|
    ensures Monotone(events[i].time, events[i + 1..j + 1])
  {
  }

  /** The watch after calls 0..j is the watch after calls 0..i, then calls i+1..j. */
  lemma RunSplit(w: Watch, events: seq<Event>, i: nat, j: nat)
    requires Consistent(w) && i <= j < |events|
    ensures Run(w, events[..j + 1]) == Run(Run(w, events[..i + 1]), events[i + 1..j + 1])
  {
    assert events[..j + 1] == events[..i + 1] + events[i + 1..j + 1];
    RunConcat(w, events[..i + 1], events[i + 1..j + 1]);
  }

  /**
   * With a clock that never goes backwards, the values `elapsed()` reports across start,
   * stop and elapsed calls (no reset) never decrease.
   */
  lemma ReadingsNeverDecrease(w: Watch, t0: real, events: seq<Event>, i: nat, j: nat)
    requires Clocked(w, t0) && Monotone(t0, events)
    requires i <= j < |events|
    ensures Reading(w, t0) <= ReadingAfter(w, events, i) <= ReadingAfter(w, events, j)
  {
    var pre := events[..i + 1];
    MonotonePrefix(t0, events, i + 1);
    RunNeverDecreases(w, t0, pre);
    assert pre[|pre| - 1] == events[i];
    if i < j {
      var post := events[i + 1..j + 1];
      MonotoneSlice(t0, events, i, j);
      RunSplit(w, events, i, j);
      RunNeverDecreases(Run(w, pre), events[i].time, post);
      assert post[|post| - 1] == events[j];
    }
  }

  class TimerStopwatch {
    var running: bool
    var startTime: Option<real>
    var total: real

    /** The fields as a Watch. */
    function State(): Watch
      reads this
    {
      Watch(running, startTime, total)
    }

    predicate Valid()
      reads this
    {
      Consistent(State())
    }

    /** `__init__`: stopped, no start time, nothing elapsed. */
    constructor ()
      ensures State() == Initial && Valid()
    {
      running := false;
      startTime := None;
      total := 0.0;
    }

    /** `start()` at time `now`. */
    method Start(now: real)
      requires Valid()
      modifies this
      ensures State() == Started(old(State()), now) && Valid()
    {
      if !running {
        running := true;
        startTime := Some(now);
      }
    }

    /** `stop()` at time `now`. */
    method Stop(now: real)
      requires Valid()
      modifies this
      ensures State() == Stopped(old(State()), now) && Valid()
    {
      if running {
        total := total + (now - startTime.value);
        running := false;
      }
    }

    /** `reset()`: back to the initial state. */
    method Reset()
      modifies this
      ensures State() == Initial && Valid()
    {
      running := false;
      startTime := None;
      total := 0.0;
    }

    /** `elapsed()` at time `now`. */
    method Elapsed(now: real) returns (r: real)
      requires Valid()
      ensures r == Reading(State(), now)
    {
      if running {
        return total + (now - startTime.value);
      }
      return total;
    }
  }

  /** What `countdown` receives as `seconds`, by Python type. */
  datatype Seconds =
    | IntSeconds(i: int)
    | BoolSeconds(b: bool)
    | RealSeconds(r: real)     // a finite float
    | TextSeconds(s: string)
    | OtherSeconds             // None, or an object `int()` rejects

  /** `int(x)` on a real: truncation toward zero. */
  function Truncate(x: real): (n: int)
    ensures x >= 0.0 ==> n as real <= x < n as real + 1.0
    ensures x < 0.0 ==> n as real - 1.0 < x <= n as real
  {
    if x >= 0.0 then x.Floor else -((-x).Floor)
  }

  /** `int(seconds)`; None stands for the exception `countdown` turns into ValueError. */
  function ToInt(s: Seconds): (r: Option<int>)
    ensures s.IntSeconds? ==> r == Some(s.i)
    ensures s.BoolSeconds? ==> r == Some(if s.b then 1 else 0)
    ensures s.RealSeconds? ==> r == Some(Truncate(s.r))
    ensures s.TextSeconds? ==> r == ParseInt(s.s)
    ensures s.OtherSeconds? ==> r.None?
  {
    match s
    case IntSeconds(i) => Some(i)
    case BoolSeconds(b) => Some(if b then 1 else 0)
    case RealSeconds(x) => Some(Truncate(x))
    case TextSeconds(t) => ParseInt(t)
    case OtherSeconds => None
  }

  /** The countdown thread's observable run: the values handed to `tick`, and how many one-second sleeps it took. */
  datatype Countdown = Countdown(ticks: seq<int>, sleeps: nat)

  /**
   * `countdown(seconds, tick)`: ValueError when `seconds` is not convertible; otherwise the
   * background run ticks n, n-1, ..., 1 and then 0 (only 0 when n <= 0), sleeping once per
   * positive tick. Without a callback nothing is ticked but the sleeps are the same.
   */
  method RunCountdown(seconds: Seconds, hasTick: bool) returns (r: Result<Countdown>)
    ensures ToInt(seconds).None? <==> r == Err(InvalidSeconds)
    ensures ToInt(seconds).Some? <==> r.Ok?
    ensures r.Ok? ==>
      var n := ToInt(seconds).value;
      var top := if n > 0 then n else 0;
      && r.value.sleeps == top
      && (hasTick ==> |r.value.ticks| == top + 1 && forall i :: 0 <= i < |r.value.ticks| ==> r.value.ticks[i] == top - i)
      && (!hasTick ==> r.value.ticks == [])
  {
    var converted := ToInt(seconds);
    if converted.None? {
      return Err(InvalidSeconds);
    }
    var cd := converted.value;
    ghost var top := if cd > 0 then cd else 0;
    var ticks: seq<int> := [];
    var sleeps: nat := 0;
    while cd > 0
      invariant cd <= 0 ==> top == sleeps
      invariant cd > 0 ==> cd + sleeps == top
      invariant hasTick ==> |ticks| == sleeps && forall i :: 0 <= i < |ticks| ==> ticks[i] == top - i
      invariant !hasTick ==> ticks == []
    {
      if hasTick {
        ticks := ticks + [cd];
      }
      sleeps := sleeps + 1;
      cd := cd - 1;
    }
    if hasTick {
      ticks := ticks + [0];
    }
    return Ok(Countdown(ticks, sleeps));
  }
}
