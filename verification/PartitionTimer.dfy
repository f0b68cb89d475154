/**
 When maintenance runs: once at start-up, then whenever the timer set for the first of the
 next month fires. The timer facility turns delays beyond 2^31 - 1 ms into 1 ms.
 */
module PartitionTimer {
  import opened Optional
  import opened Calendar

  const MAX_DELAY: int := 2147483647

  datatype Timer = Timer(id: nat, due: int)

  /** `pending` are the timers waiting in the event loop, `running` the maintenance runs not
      yet finished, `starts` how many were ever started. */
  datatype State = State(
    pending: set<Timer>,
    nextId: nat,
    timer: Option<Timer>,
    destroyed: bool,
    running: nat,
    starts: nat)

  datatype Action =
    | Init
    | Finish(now: Date)
    | Fire(timer: Timer)
    | Destroy

  const FRESH := State({}, 0, None, false, 0, 0)

  /** Milliseconds from `now` to the first of the next month. */
  function DelayToNextMonth(now: Date): int {
    Millis(FirstOf(now.month + 1)) - Millis(now)
  }

  function EffectiveDelay(delay: int): int {
    if delay > MAX_DELAY || delay < 1 then 1 else delay
  }

  /** The timer that scheduling at `now` sets, under the event loop's next id. */
  function NextTimer(id: nat, now: Date): Timer {
    Timer(id, Millis(now) + EffectiveDelay(DelayToNextMonth(now)))
  }

  function ScheduleNext(s: State, now: Date): State {
    if s.destroyed then s
    else
      var t := NextTimer(s.nextId, now);
      s.(pending := s.pending + {t}, nextId := s.nextId + 1, timer := Some(t))
  }

  /** Start-up happens once; a finished run schedules the next one. */
  function Step(s: State, a: Action): State {
    match a
    case Init => if s == FRESH then s.(running := 1, starts := 1) else s
    case Finish(now) => if s.running == 0 then s else ScheduleNext(s.(running := s.running - 1), now)
    case Fire(t) =>
      if t in s.pending then s.(pending := s.pending - {t}, running := s.running + 1, starts := s.starts + 1) else s
    case Destroy => s.(destroyed := true, pending := if s.timer.Some? then s.pending - {s.timer.value} else s.pending)
  }

  function Exec(s: State, actions: seq<Action>): State
    decreases |actions|
  {
    if actions == [] then s else Exec(Step(s, actions[0]), actions[1..])
  }

  /** A timer and a run never overlap, the one pending timer is the stored one, and none is
      left once destroyed. */
  ghost predicate TimerOk(s: State) {
    && |s.pending| + s.running <= 1
    && (forall t | t in s.pending :: s.timer == Some(t))
    && (s.destroyed ==> s.pending == {})
  }

  lemma StepKeeps(s: State, a: Action)
    requires TimerOk(s)
    ensures TimerOk(Step(s, a))
    ensures s.destroyed ==> Step(s, a).destroyed && (s != FRESH ==> Step(s, a).starts == s.starts)
  {
    match a
    case Init =>
    case Finish(now) =>
      if s.running > 0 && !s.destroyed {
        assert s.pending == {};
        assert Step(s, a).pending == {NextTimer(s.nextId, now)};
      }
    case Fire(t) =>
      if t in s.pending {
        assert s.pending == {t} by { OneIsAll(s.pending, t); }
      }
    case Destroy =>
      forall t | t in Step(s, a).pending ensures false {
      }
      assert Step(s, a).pending == {};
  }

  lemma OneIsAll(p: set<Timer>, t: Timer)
    requires t in p && |p| <= 1
    ensures p == {t}
  {
    assert |p - {t}| == |p| - 1;
    assert p - {t} == {};
  }

  /** In every interleaving of start-up, firing, finishing and destruction at most one timer
      is pending, never while a run is in progress, and none after destruction. */
  lemma {:induction false} AtMostOneTimer(s: State, actions: seq<Action>)
    requires TimerOk(s)
    ensures TimerOk(Exec(s, actions)) && |Exec(s, actions).pending| <= 1
    decreases |actions|
  {
    if actions != [] {
      StepKeeps(s, actions[0]);
      AtMostOneTimer(Step(s, actions[0]), actions[1..]);
    }
  }

  /** Once destroyed, no maintenance run starts in any continuation. */
  lemma {:induction false} NoStartAfterDestroy(s: State, actions: seq<Action>)
    requires TimerOk(s) && s.destroyed
    ensures Exec(s, actions).starts == s.starts && Exec(s, actions).pending == {}
    decreases |actions|
  {
    if actions != [] {
      StepKeeps(s, actions[0]);
      NoStartAfterDestroy(Step(s, actions[0]), actions[1..]);
    }
  }

  // ---------------------------------------------------------------- when it fires

  lemma DelayIsWithinTheMonth(now: Date)
    requires ValidDate(now)
    ensures 0 < DelayToNextMonth(now)
    ensures DelayToNextMonth(now) == (DaysIn(now.month) - now.day + 1) * MS_PER_DAY - now.ms
  {
    hide MonthStart, DaysIn;
    MonthStartNext(now.month);
  }

  /** The timer is due after now and never past the first of the next month; it is due exactly
      then if and only if the month's remainder fits the timer limit, and otherwise 1 ms later. */
  lemma DueByTheFirst(id: nat, now: Date)
    requires ValidDate(now)
    ensures var due := NextTimer(id, now).due;
      && Millis(now) < due <= Millis(FirstOf(now.month + 1))
      && var delay := Millis(FirstOf(now.month + 1)) - Millis(now);
      && (due == Millis(FirstOf(now.month + 1)) <==> delay <= 2147483647)
      && (due == Millis(now) + 1 <==> delay > 2147483647 || delay == 1)
  {
    hide MonthStart, DaysIn, Millis;
    DelayIsWithinTheMonth(now);
  }

  /** Every month is longer than the limit: scheduled at midnight on the first, the timer is
      due 1 ms later instead of a month later. */
  lemma FirstOfMonthOverflows(id: nat, month: int)
    ensures NextTimer(id, FirstOf(month)).due == Millis(FirstOf(month)) + 1
  {
    hide MonthStart, Millis;
    DelayIsWithinTheMonth(FirstOf(month));
  }

  /** The remainder of a month fits the limit exactly in its last 24 days, 20 h 31 min 23.647 s. */
  lemma FitsInTheLastDays(now: Date)
    requires ValidDate(now)
    ensures Millis(FirstOf(now.month + 1)) - Millis(now) <= 2147483647 <==>
      (now.day > DaysIn(now.month) - 24
       || (now.day == DaysIn(now.month) - 24 && now.ms >= 25 * 86400000 - 2147483647))
  {
    hide MonthStart, DaysIn;
    DelayIsWithinTheMonth(now);
  }
}
