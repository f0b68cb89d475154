/**
 The timer machine with a clock: pending timers fire when they are due, and time does not
 pass them by. Each first of a month then finds a maintenance run.
 */
module PartitionSchedule {
  import opened Optional
  import opened Calendar
  import Timers = PartitionTimer

  /** A maintenance run, from its start to its end if it has ended. */
  datatype Run = Run(start: int, end: Option<int>)

  datatype State = State(timing: Timers.State, now: Date, runs: seq<Run>)

  datatype Action =
    | Init
    | Advance(to: Date)
    | Fire(timer: Timers.Timer)
    | Finish
    | Destroy

  predicate MayAdvance(s: State, to: Date) {
    ValidDate(to) && Millis(s.now) <= Millis(to) && forall t | t in s.timing.pending :: Millis(to) <= t.due
  }

  function Step(s: State, a: Action): State {
    match a
    case Init =>
      if s.timing != Timers.FRESH then s
      else s.(timing := Timers.Step(s.timing, Timers.Init), runs := s.runs + [Run(Millis(s.now), None)])
    case Advance(to) => if MayAdvance(s, to) then s.(now := to) else s
    case Fire(t) =>
      if t !in s.timing.pending || Millis(s.now) < t.due then s
      else s.(timing := Timers.Step(s.timing, Timers.Fire(t)), runs := s.runs + [Run(Millis(s.now), None)])
    case Finish =>
      if s.timing.running == 0 || s.runs == [] then s
      else
        var last := |s.runs| - 1;
        s.(timing := Timers.Step(s.timing, Timers.Finish(s.now)),
           runs := s.runs[last := s.runs[last].(end := Some(Millis(s.now)))])
    case Destroy => s.(timing := Timers.Step(s.timing, Timers.Destroy))
  }

  function Exec(s: State, actions: seq<Action>): State
    decreases |actions|
  {
    if actions == [] then s else Exec(Step(s, actions[0]), actions[1..])
  }

  /** The service started up at `now`. */
  function Started(now: Date): State {
    Step(State(Timers.FRESH, now, []), Init)
  }

  /** The run starts at this time, or is in progress then. */
  predicate At(r: Run, time: int) {
    r.start <= time && (r.end.None? || time <= r.end.value)
  }

  ghost predicate RunAt(s: State, time: int) {
    exists r :: r in s.runs && At(r, time)
  }

  /** The timer is not overdue, and due by the first of the next month. */
  ghost predicate DueInTime(t: Timers.Timer, now: Date) {
    Millis(now) <= t.due && forall m | Millis(FirstOf(m)) > Millis(now) :: t.due <= Millis(FirstOf(m))
  }

  /** Every first of a month since then has found a run, or its timer is to fire this instant. */
  ghost predicate FirstsMet(s: State, since: int) {
    forall m | since < Millis(FirstOf(m)) <= Millis(s.now) ::
      RunAt(s, Millis(FirstOf(m))) || exists t :: t in s.timing.pending && t.due <= Millis(FirstOf(m))
  }

  ghost predicate InProgress(s: State) {
    s.runs != [] && s.runs[|s.runs| - 1].end == None && s.runs[|s.runs| - 1].start <= Millis(s.now)
  }

  ghost predicate OnTime(s: State, since: int) {
    && Timers.TimerOk(s.timing) && ValidDate(s.now) && s.timing != Timers.FRESH
    && (s.timing.running > 0 ==> InProgress(s))
    && (forall t | t in s.timing.pending :: DueInTime(t, s.now))
    && (!s.timing.destroyed ==> (s.timing.running > 0 || s.timing.pending != {}) && FirstsMet(s, since))
  }

  lemma StartedOnTime(now: Date)
    requires ValidDate(now)
    ensures OnTime(Started(now), Millis(now))
  {
    hide Millis;
  }

  lemma AdvanceKeeps(s: State, to: Date, since: int)
    requires OnTime(s, since) && MayAdvance(s, to)
    ensures OnTime(Step(s, Advance(to)), since)
  {
    hide Millis, DaysIn;
    var s' := Step(s, Advance(to));
    if !s.timing.destroyed {
      forall m | since < Millis(FirstOf(m)) <= Millis(to)
        ensures RunAt(s', Millis(FirstOf(m))) || exists t :: t in s'.timing.pending && t.due <= Millis(FirstOf(m))
      {
        if Millis(FirstOf(m)) <= Millis(s.now) {
          assert RunAt(s, Millis(FirstOf(m))) ==> RunAt(s', Millis(FirstOf(m)));
        } else if s.timing.running > 0 {
          assert At(s.runs[|s.runs| - 1], Millis(FirstOf(m)));
        } else {
          var t :| t in s.timing.pending;
          assert DueInTime(t, s.now);
        }
      }
    }
  }

  lemma RunsGrow(s: State, s': State, time: int)
    requires s.runs <= s'.runs && RunAt(s, time)
    ensures RunAt(s', time)
  {
    var r :| r in s.runs && At(r, time);
    assert r in s'.runs;
  }

  lemma FireKeeps(s: State, t: Timers.Timer, since: int)
    requires OnTime(s, since) && t in s.timing.pending && t.due <= Millis(s.now)
    ensures OnTime(Step(s, Fire(t)), since)
  {
    hide Millis, DaysIn;
    var s' := Step(s, Fire(t));
    Timers.StepKeeps(s.timing, Timers.Fire(t));
    Timers.OneIsAll(s.timing.pending, t);
    assert s'.runs[|s'.runs| - 1] == Run(Millis(s.now), None);
    forall m | !s.timing.destroyed && since < Millis(FirstOf(m)) <= Millis(s.now)
      ensures RunAt(s', Millis(FirstOf(m)))
    {
      if RunAt(s, Millis(FirstOf(m))) {
        RunsGrow(s, s', Millis(FirstOf(m)));
      } else {
        assert DueInTime(t, s.now);
        assert At(s'.runs[|s'.runs| - 1], Millis(FirstOf(m)));
      }
    }
  }

  lemma FirstsUpToNow(now: Date, m: int)
    requires ValidDate(now) && m <= now.month
    ensures Millis(FirstOf(m)) <= Millis(now)
  {
    hide MonthStart, DaysIn;
    MonthStartOrders(m, now.month);
  }

  /** The first of the next month is the first one after now. */
  lemma NextFirst(now: Date, m: int)
    requires ValidDate(now) && Millis(FirstOf(m)) > Millis(now)
    ensures Millis(FirstOf(now.month + 1)) <= Millis(FirstOf(m))
  {
    hide MonthStart, DaysIn;
    if m <= now.month {
      FirstsUpToNow(now, m);
    }
    MonthStartOrders(now.month + 1, m);
  }

  lemma ScheduledInTime(id: nat, now: Date)
    requires ValidDate(now)
    ensures DueInTime(Timers.NextTimer(id, now), now)
  {
    hide Millis, DaysIn;
    Timers.DueByTheFirst(id, now);
    forall m | Millis(FirstOf(m)) > Millis(now) ensures Timers.NextTimer(id, now).due <= Millis(FirstOf(m)) {
      NextFirst(now, m);
    }
  }

  lemma EndedRunStillCovers(s: State, time: int)
    requires InProgress(s) && time <= Millis(s.now) && RunAt(s, time)
    ensures var last := |s.runs| - 1;
      RunAt(s.(runs := s.runs[last := s.runs[last].(end := Some(Millis(s.now)))]), time)
  {
    hide Millis;
    var last := |s.runs| - 1;
    var runs := s.runs[last := s.runs[last].(end := Some(Millis(s.now)))];
    var r :| r in s.runs && At(r, time);
    var k :| 0 <= k < |s.runs| && s.runs[k] == r;
    assert runs[k] in runs && At(runs[k], time);
  }

  lemma FinishKeeps(s: State, since: int)
    requires OnTime(s, since) && s.timing.running > 0
    ensures OnTime(Step(s, Finish), since)
  {
    hide Millis, DaysIn;
    var s' := Step(s, Finish);
    Timers.StepKeeps(s.timing, Timers.Finish(s.now));
    ScheduledInTime(s.timing.nextId, s.now);
    assert s.timing.pending == {};
    forall m | !s.timing.destroyed && since < Millis(FirstOf(m)) <= Millis(s.now)
      ensures RunAt(s', Millis(FirstOf(m)))
    {
      EndedRunStillCovers(s, Millis(FirstOf(m)));
      var last := |s.runs| - 1;
      assert s'.runs == s.runs[last := s.runs[last].(end := Some(Millis(s.now)))];
    }
    if !s.timing.destroyed {
      assert Timers.NextTimer(s.timing.nextId, s.now) in s'.timing.pending;
    }
  }

  lemma StepOnTime(s: State, a: Action, since: int)
    requires OnTime(s, since)
    ensures OnTime(Step(s, a), since)
  {
    hide Millis, DaysIn, FirstsMet, DueInTime;
    match a
    case Init =>
    case Advance(to) => if MayAdvance(s, to) { AdvanceKeeps(s, to, since); }
    case Fire(t) => if t in s.timing.pending && t.due <= Millis(s.now) { FireKeeps(s, t, since); }
    case Finish => if s.timing.running > 0 { FinishKeeps(s, since); }
    case Destroy => Timers.StepKeeps(s.timing, Timers.Destroy);
  }

  lemma {:induction false} ExecOnTime(s: State, actions: seq<Action>, since: int)
    requires OnTime(s, since)
    ensures OnTime(Exec(s, actions), since)
    decreases |actions|
  {
    hide OnTime, Step;
    if actions != [] {
      StepOnTime(s, actions[0], since);
      ExecOnTime(Step(s, actions[0]), actions[1..], since);
    }
  }

  /** In every run in which timers fire when due and the service is not destroyed: at each first
      of a month that has passed since start-up a maintenance run started at that very instant,
      or one was in progress. */
  lemma EveryFirstFindsARun(start: Date, actions: seq<Action>, m: int)
    requires ValidDate(start) && !Exec(Started(start), actions).timing.destroyed
    requires Millis(start) < Millis(FirstOf(m)) < Millis(Exec(Started(start), actions).now)
    ensures RunAt(Exec(Started(start), actions), Millis(FirstOf(m)))
  {
    hide Millis, Exec, Started;
    StartedOnTime(start);
    ExecOnTime(Started(start), actions, Millis(start));
    var s := Exec(Started(start), actions);
    assert forall t | t in s.timing.pending :: DueInTime(t, s.now);
    assert forall t | t in s.timing.pending :: Millis(FirstOf(m)) < t.due;
    assert FirstsMet(s, Millis(start));
  }

  /** And no timer is ever pending past the first of the month after the current one. */
  lemma NoTimerIsLate(start: Date, actions: seq<Action>, t: Timers.Timer)
    requires ValidDate(start) && t in Exec(Started(start), actions).timing.pending
    ensures var now := Exec(Started(start), actions).now;
      ValidDate(now) && Millis(now) <= t.due <= Millis(FirstOf(now.month + 1))
  {
    hide Millis, Exec, Started, DaysIn;
    StartedOnTime(start);
    ExecOnTime(Started(start), actions, Millis(start));
    var now := Exec(Started(start), actions).now;
    assert DueInTime(t, now);
    DateOrder(now, FirstOf(now.month + 1));
  }
}
