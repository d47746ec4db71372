/**
 The Pomodoro timer and the play-session timer. Time is a whole number of
 seconds `now` supplied by the caller; a stored start time is the second the
 timer was started, and a missing start counts as no elapsed time.
 */
module PlayTimers {
  import opened GameState

  function Max(a: int, b: int): int { if a >= b then a else b }
  function Min(a: int, b: int): int { if a <= b then a else b }

  /** Seconds from `start` to `now`; no start means zero seconds. */
  function SecondsSince(start: Option<int>, now: int): int {
    match start
    case Some(t) => now - t
    case None => 0
  }

  // ---------------------------------------------------------------- Pomodoro

  /** Seconds the Pomodoro has run: wall-clock time since its start plus the
      paused-seconds counter, which the source subtracts from the remaining time. */
  function PomodoroUsed(s: State, now: int): int {
    SecondsSince(s.timers.pomodoroStart, now) + s.timers.pomodoroPausedSeconds
  }

  /** `pomodoro_remaining_seconds`: zero for a stopped timer; otherwise the
      length minus the time used, clamped at zero. */
  function PomodoroRemaining(s: State, now: int): (r: int)
    ensures r >= 0
    ensures !s.timers.pomodoroRunning ==> r == 0
    ensures s.timers.pomodoroRunning ==>
      r >= s.timers.pomodoroLength * 60 - PomodoroUsed(s, now)
      && (r == 0 || r == s.timers.pomodoroLength * 60 - PomodoroUsed(s, now))
  {
    if !s.timers.pomodoroRunning then 0
    else Max(0, s.timers.pomodoroLength * 60 - PomodoroUsed(s, now))
  }

  /** A running Pomodoro never gains time as the clock advances. */
  lemma PomodoroRemainingNonIncreasing(s: State, now: int, later: int)
    requires now <= later
    ensures PomodoroRemaining(s, later) <= PomodoroRemaining(s, now)
  {
  }

  /** `start_pomodoro` at second `now`: a running timer is left alone; otherwise
      the timer starts now with no paused seconds and the start is logged. */
  function StartPomodoro(s: State, now: int): (r: State)
    ensures s.timers.pomodoroRunning ==> r == s
    ensures !s.timers.pomodoroRunning ==>
      && r.timers.pomodoroRunning
      && r.timers.pomodoroStart == Some(now)
      && r.timers.pomodoroPausedSeconds == 0
      && r.timers == s.timers.(pomodoroRunning := true, pomodoroStart := Some(now), pomodoroPausedSeconds := 0)
      && r == s.(timers := r.timers, logs := s.logs + [PomodoroStarted(s.timers.pomodoroLength)])
  {
    if s.timers.pomodoroRunning then s
    else
      s.(timers := s.timers.(pomodoroStart := Some(now), pomodoroPausedSeconds := 0, pomodoroRunning := true),
         logs := s.logs + [PomodoroStarted(s.timers.pomodoroLength)])
  }

  /** Right after a start, the whole length remains, and then one second less
      for every second that passes, down to zero. */
  lemma StartPomodoroRemaining(s: State, now: int, t: int)
    requires !s.timers.pomodoroRunning
    requires t >= 0
    ensures PomodoroRemaining(StartPomodoro(s, now), now + t) == Max(0, s.timers.pomodoroLength * 60 - t)
  {
  }

  /** Starting twice is starting once: the second start changes nothing. */
  lemma StartPomodoroIdempotent(s: State, now: int, later: int)
    ensures StartPomodoro(StartPomodoro(s, now), later) == StartPomodoro(s, now)
  {
  }

  /** `stop_pomodoro` as the source writes it: the running flag is cleared
      first, so the remaining time it then reads is that of a stopped timer. */
  function StopPomodoroAsWritten(s: State, now: int): (r: State)
    ensures !s.timers.pomodoroRunning ==> r == s
    ensures s.timers.pomodoroRunning ==>
      r == s.(timers := s.timers.(pomodoroRunning := false),
              logs := s.logs + [PomodoroStopped(Max(0, s.timers.pomodoroLength * 60))])
  {
    if !s.timers.pomodoroRunning then s
    else
      var s1 := s.(timers := s.timers.(pomodoroRunning := false));
      var rem := PomodoroRemaining(s1, now);
      var spent := Max(0, s.timers.pomodoroLength * 60 - rem);
      s1.(logs := s1.logs + [PomodoroStopped(spent)])
  }

  /** As written, the logged time is the full length, however long the timer ran. */
  lemma StopPomodoroAsWrittenLogsFullLength(s: State, now: int)
    requires s.timers.pomodoroRunning
    ensures StopPomodoroAsWritten(s, now).logs
         == s.logs + [PomodoroStopped(Max(0, s.timers.pomodoroLength * 60))]
  {
  }

  /** A 25-minute Pomodoro started at second 0 and stopped at second 60 is
      logged as 1500 seconds spent instead of 60. */
  lemma StopPomodoroAsWrittenCounterexample(s: State)
    requires s.timers.pomodoroRunning && s.timers.pomodoroLength == 25
    requires s.timers.pomodoroStart == Some(0) && s.timers.pomodoroPausedSeconds == 0
    ensures PomodoroUsed(s, 60) == 60
    ensures StopPomodoroAsWritten(s, 60).logs == s.logs + [PomodoroStopped(1500)]
  {
  }

  /** `stop_pomodoro` with the remaining time read before the flag is cleared:
      a stopped timer is left alone; otherwise the timer stops and the time it
      actually ran, between zero and its length, is logged. */
  function StopPomodoro(s: State, now: int): (r: State)
    ensures !s.timers.pomodoroRunning ==> r == s
    ensures s.timers.pomodoroRunning ==>
      && r.timers == s.timers.(pomodoroRunning := false)
      && r == s.(timers := r.timers, logs := r.logs)
      && |r.logs| == |s.logs| + 1 && r.logs[..|s.logs|] == s.logs
      && r.logs[|s.logs|].PomodoroStopped?
      && (s.timers.pomodoroLength >= 0 ==>
            r.logs[|s.logs|].spentSeconds == Min(s.timers.pomodoroLength * 60, Max(0, PomodoroUsed(s, now))))
  {
    if !s.timers.pomodoroRunning then s
    else
      var rem := PomodoroRemaining(s, now);
      var spent := Max(0, s.timers.pomodoroLength * 60 - rem);
      s.(timers := s.timers.(pomodoroRunning := false),
         logs := s.logs + [PomodoroStopped(spent)])
  }

  /** Spent and remaining time add up to the length: what the stop logs is
      exactly what the display had counted down (for a clock that did not run
      backwards). */
  lemma StopPomodoroSpentPlusRemaining(s: State, now: int)
    requires s.timers.pomodoroRunning && s.timers.pomodoroLength >= 0
    requires PomodoroUsed(s, now) >= 0
    ensures var r := StopPomodoro(s, now);
      r.logs[|s.logs|].spentSeconds + PomodoroRemaining(s, now) == s.timers.pomodoroLength * 60
  {
  }

  /** Stopping twice is stopping once. */
  lemma StopPomodoroIdempotent(s: State, now: int, later: int)
    ensures StopPomodoro(StopPomodoro(s, now), later) == StopPomodoro(s, now)
  {
  }

  /** Seconds of the Pomodoro shown as elapsed by the progress bar. */
  function PomodoroElapsed(s: State, now: int): int {
    Max(0, s.timers.pomodoroLength * 60 - PomodoroRemaining(s, now))
  }

  /** `pomodoro_block_index`: which of five equal blocks of the Pomodoro the
      elapsed time falls in, the last block once the end is reached; 0 for a
      non-positive length. */
  function PomodoroBlockIndex(s: State, now: int): (b: int)
    ensures 0 <= b <= 4
    ensures var secs := s.timers.pomodoroLength * 60;
      secs > 0 && b < 4 ==> b * secs <= 5 * PomodoroElapsed(s, now) < (b + 1) * secs
    ensures var secs := s.timers.pomodoroLength * 60;
      secs > 0 && b == 4 ==> 4 * secs <= 5 * PomodoroElapsed(s, now)
  {
    var secs := s.timers.pomodoroLength * 60;
    var elapsed := PomodoroElapsed(s, now);
    if secs > 0 then
      DivBounds(5 * elapsed, secs);
      Min(4, (5 * elapsed) / secs)
    else
      0
  }

  /** Euclidean division brackets its dividend. */
  lemma DivBounds(n: int, d: int)
    requires n >= 0 && d > 0
    ensures n / d >= 0
    ensures (n / d) * d <= n < (n / d + 1) * d
  {
    assert n == d * (n / d) + n % d;
  }

  /** The block index of a running Pomodoro never moves backwards. */
  lemma PomodoroBlockIndexMonotone(s: State, now: int, later: int)
    requires now <= later
    ensures PomodoroBlockIndex(s, now) <= PomodoroBlockIndex(s, later)
  {
    var secs := s.timers.pomodoroLength * 60;
    PomodoroRemainingNonIncreasing(s, now, later);
    if secs > 0 {
      var e1 := PomodoroElapsed(s, now);
      var e2 := PomodoroElapsed(s, later);
      DivMonotone(5 * e1, 5 * e2, secs);
    }
  }

  lemma DivMonotone(a: int, b: int, d: int)
    requires 0 <= a <= b && d > 0
    ensures a / d <= b / d
  {
    DivBounds(a, d);
    DivBounds(b, d);
    if b / d + 1 <= a / d {
      MulMonotone(b / d + 1, a / d, d);
      assert false;
    }
  }

  lemma MulMonotone(x: int, y: int, d: int)
    requires x <= y && d > 0
    ensures x * d <= y * d
  {
    var k := y - x;
    assert y * d == x * d + k * d;
  }

  /** A stopped Pomodoro of positive length shows its last block, and one just
      started with no paused seconds shows its first. */
  lemma PomodoroBlockIndexEnds(s: State, now: int)
    requires s.timers.pomodoroLength > 0
    ensures !s.timers.pomodoroRunning ==> PomodoroBlockIndex(s, now) == 4
    ensures !s.timers.pomodoroRunning ==> PomodoroBlockIndex(StartPomodoro(s, now), now) == 0
  {
  }

  // ------------------------------------------------------------ Play session

  /** Seconds of the play session used: time since its start plus the stored
      spent-seconds counter. */
  function SessionUsed(s: State, now: int): int {
    SecondsSince(s.timers.sessionStart, now) + s.timers.sessionSpentSeconds
  }

  /** `session_remaining_seconds`: zero when no session runs; otherwise the
      target minus the time used, clamped at zero. */
  function SessionRemaining(s: State, now: int): (r: int)
    ensures r >= 0
    ensures !s.timers.sessionRunning ==> r == 0
    ensures s.timers.sessionRunning ==>
      r >= s.timers.sessionTargetMinutes * 60 - SessionUsed(s, now)
      && (r == 0 || r == s.timers.sessionTargetMinutes * 60 - SessionUsed(s, now))
  {
    if !s.timers.sessionRunning then 0
    else Max(0, s.timers.sessionTargetMinutes * 60 - SessionUsed(s, now))
  }

  /** `start_session` of `minutes` at second `now`. A running session or a
      non-positive request changes nothing; a bank too small only logs the
      refusal; otherwise the minutes leave the bank and the session starts. */
  function StartSession(s: State, minutes: int, now: int): (r: State)
    ensures s.timers.sessionRunning || minutes <= 0 ==> r == s
    ensures !s.timers.sessionRunning && minutes > 0 && s.player.minutesBank < minutes ==>
      r == s.(logs := s.logs + [NotEnoughMinutes])
    ensures !s.timers.sessionRunning && minutes > 0 && s.player.minutesBank >= minutes ==>
      && r.player == s.player.(minutesBank := s.player.minutesBank - minutes)
      && r.player.minutesBank >= 0
      && r.timers == s.timers.(sessionTargetMinutes := minutes, sessionStart := Some(now),
                               sessionSpentSeconds := 0, sessionRunning := true)
      && r == s.(player := r.player, timers := r.timers, logs := s.logs + [SessionStarted(minutes)])
  {
    if s.timers.sessionRunning || minutes <= 0 then s
    else if s.player.minutesBank < minutes then s.(logs := s.logs + [NotEnoughMinutes])
    else
      s.(player := s.player.(minutesBank := s.player.minutesBank - minutes),
         timers := s.timers.(sessionTargetMinutes := minutes, sessionStart := Some(now),
                             sessionSpentSeconds := 0, sessionRunning := true),
         logs := s.logs + [SessionStarted(minutes)])
  }

  /** `stop_session` at second `now`: a stopped session is left alone;
      otherwise the whole minutes still remaining go back to the bank and the
      session stops (its start time is kept). */
  function StopSession(s: State, now: int): (r: State)
    ensures !s.timers.sessionRunning ==> r == s
    ensures s.timers.sessionRunning ==>
      var credit := SessionRemaining(s, now) / 60;
      && r.player == s.player.(minutesBank := s.player.minutesBank + credit)
      && r.timers == s.timers.(sessionRunning := false)
      && r == s.(player := r.player, timers := r.timers, logs := s.logs + [SessionStopped(credit)])
  {
    if !s.timers.sessionRunning then s
    else
      var rem := SessionRemaining(s, now);
      var credit := rem / 60;
      s.(player := s.player.(minutesBank := s.player.minutesBank + credit),
         timers := s.timers.(sessionRunning := false),
         logs := s.logs + [SessionStopped(credit)])
  }

  /** The refund is never negative and, when no negative time was used, never
      more than the minutes the session was started with. */
  lemma StopSessionRefundBounded(s: State, now: int)
    requires s.timers.sessionRunning
    ensures var r := StopSession(s, now);
      && r.player.minutesBank >= s.player.minutesBank
      && (SessionUsed(s, now) >= 0 ==>
            r.player.minutesBank <= s.player.minutesBank + Max(0, s.timers.sessionTargetMinutes))
  {
  }

  /** Start a session of `minutes` and stop it `t >= 0` seconds later: the bank
      ends `minutes` lower plus the whole minutes not played, so it is restored
      exactly when the session is stopped at once, and otherwise loses at least
      one minute and at most `minutes`. */
  lemma SessionRoundTrip(s: State, minutes: int, now: int, t: int)
    requires !s.timers.sessionRunning && minutes > 0 && s.player.minutesBank >= minutes
    requires t >= 0
    ensures var u := StopSession(StartSession(s, minutes, now), now + t);
      && u.player.minutesBank == s.player.minutesBank - minutes + Max(0, minutes * 60 - t) / 60
      && s.player.minutesBank - minutes <= u.player.minutesBank <= s.player.minutesBank
      && (u.player.minutesBank == s.player.minutesBank <==> t == 0)
  {
    var m := Max(0, minutes * 60 - t) / 60;
    if t > 0 {
      assert Max(0, minutes * 60 - t) < minutes * 60;
      assert m < minutes;
    }
  }

  /** Stopping twice is stopping once. */
  lemma StopSessionIdempotent(s: State, now: int, later: int)
    ensures StopSession(StopSession(s, now), later) == StopSession(s, now)
  {
  }

  /** Starting a session while one runs changes nothing. */
  lemma StartSessionIdempotent(s: State, minutes: int, now: int, later: int, again: int)
    requires !s.timers.sessionRunning && minutes > 0 && s.player.minutesBank >= minutes
    ensures var t := StartSession(s, minutes, now);
      StartSession(t, again, later) == t
  {
  }

  /** The session timer keeps the bookkeeping invariant: the bank never goes
      negative, since a start is refused when the bank is short and a stop only
      refunds. */
  lemma SessionPreservesValid(s: State, minutes: int, now: int)
    requires Valid(s)
    ensures Valid(StartSession(s, minutes, now))
    ensures Valid(StopSession(s, now))
  {
    var r := StopSession(s, now);
    assert r.player.minutesBank >= s.player.minutesBank;
  }

  /** The Pomodoro timer touches neither the player nor the tasks. */
  lemma PomodoroPreservesValid(s: State, now: int)
    requires Valid(s)
    ensures Valid(StartPomodoro(s, now))
    ensures Valid(StopPomodoro(s, now))
  {
  }
}
