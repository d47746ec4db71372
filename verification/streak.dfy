/**
 The daily check-in (`check_in`): at most one successful check-in per calendar
 day, a streak that grows on consecutive days and restarts after a gap, and a
 bonus on reaching a streak of 3, 7 or 14 days.
 */
module Streak {
  import opened GameState
  import opened Leveling

  const StreakBonusXp: int := 20
  const StreakBonusMinutes: int := 5

  /** The streak lengths that earn the bonus. */
  predicate IsBonusStreak(streak: int) {
    streak == 3 || streak == 7 || streak == 14
  }

  /** The first half of a successful check-in on day `today`: the streak grows
      by one when the previous check-in was exactly the day before and restarts
      at 1 otherwise (also when there was none), and today becomes the last
      check-in day. */
  function RecordCheckIn(s: State, today: int): (r: State)
    ensures r.player.lastCheckin == Some(today)
    ensures s.player.lastCheckin == Some(today - 1) ==> r.player.streakDays == s.player.streakDays + 1
    ensures s.player.lastCheckin != Some(today - 1) ==> r.player.streakDays == 1
    ensures r.player == s.player.(streakDays := r.player.streakDays, lastCheckin := Some(today))
    ensures r == s.(player := r.player, logs := s.logs + [CheckedIn(r.player.streakDays)])
  {
    var streak := match s.player.lastCheckin
      case Some(last) => if today - last == 1 then s.player.streakDays + 1 else 1
      case None => 1;
    s.(player := s.player.(streakDays := streak, lastCheckin := Some(today)),
       logs := s.logs + [CheckedIn(streak)])
  }

  /** The second half: when the streak just reached is 3, 7 or 14, grant the
      bonus XP (through the level-up loop) and the bonus minutes; otherwise
      change nothing. */
  function GrantStreakBonus(s: State): (r: State)
    requires s.player.xpForNext > 0
    ensures IsBonusStreak(s.player.streakDays) ==> Credited(s.player, StreakBonusXp, StreakBonusMinutes, r.player)
    ensures IsBonusStreak(s.player.streakDays) ==>
      BadgesFollow(s.achievements, s.player.level, r.player.level, r.achievements)
    ensures IsBonusStreak(s.player.streakDays) ==>
      r == s.(player := r.player, achievements := r.achievements, logs := r.logs)
    ensures IsPrefix(s.logs, r.logs)
    ensures !IsBonusStreak(s.player.streakDays) ==> r == s
  {
    if IsBonusStreak(s.player.streakDays) then
      var s2 := AddXp(s, StreakBonusXp);
      var p := s2.player.(minutesBank := s2.player.minutesBank + StreakBonusMinutes);
      CreditedPlusMinutes(s.player, StreakBonusXp, s2.player, StreakBonusMinutes, p);
      PrefixExtend(s.logs, s2.logs, [StreakBonus]);
      s2.(player := p, logs := s2.logs + [StreakBonus])
    else
      s
  }

  /** `check_in` on day `today`. Returns whether the check-in happened and the
      new state: nothing happens on a second call the same day. */
  function CheckIn(s: State, today: int): (r: (bool, State))
    requires s.player.xpForNext > 0
    ensures s.player.lastCheckin == Some(today) ==> r == (false, s)
    ensures s.player.lastCheckin != Some(today) ==>
      r.0 && r.1 == GrantStreakBonus(RecordCheckIn(s, today))
  {
    if s.player.lastCheckin == Some(today) then
      (false, s)
    else
      (true, GrantStreakBonus(RecordCheckIn(s, today)))
  }

  /** Checking in twice on the same day: the second call reports false and
      changes nothing. */
  lemma CheckInIdempotent(s: State, today: int)
    requires s.player.xpForNext > 0
    ensures var (_, t) := CheckIn(s, today);
      t.player.xpForNext > 0 && CheckIn(t, today) == (false, t)
  {
  }

  /** The bonus is paid exactly when the new streak is 3, 7 or 14: the bank grows
      by at least the bonus minutes then, and stays put otherwise. */
  lemma StreakBonusExactly(s: State, today: int)
    requires s.player.xpForNext > 0
    requires s.player.lastCheckin != Some(today)
    ensures var (_, t) := CheckIn(s, today);
      && (IsBonusStreak(t.player.streakDays) <==>
            t.player.minutesBank >= s.player.minutesBank + StreakBonusMinutes)
      && (!IsBonusStreak(t.player.streakDays) ==> t.player.minutesBank == s.player.minutesBank)
  {
  }

  /** A successful check-in leaves the streak and the check-in day that
      `RecordCheckIn` set: the bonus touches neither. */
  lemma CheckInRecords(s: State, today: int)
    requires s.player.xpForNext > 0
    requires s.player.lastCheckin != Some(today)
    ensures var t := CheckIn(s, today).1;
      && t.player.xpForNext > 0
      && t.player.lastCheckin == Some(today)
      && t.player.streakDays == RecordCheckIn(s, today).player.streakDays
  {
    var s1 := RecordCheckIn(s, today);
    var t := GrantStreakBonus(s1);
    if IsBonusStreak(s1.player.streakDays) {
      assert Credited(s1.player, StreakBonusXp, StreakBonusMinutes, t.player);
    }
  }

  /** Consecutive days grow the streak by one each; a gap of more than one day
      restarts it at 1. */
  lemma ConsecutiveDays(s: State, day: int)
    requires s.player.xpForNext > 0
    requires s.player.lastCheckin != Some(day)
    ensures var t := CheckIn(s, day).1;
      && t.player.xpForNext > 0
      && CheckIn(t, day + 1).1.player.streakDays == t.player.streakDays + 1
      && CheckIn(t, day + 2).1.player.streakDays == 1
  {
    CheckInRecords(s, day);
    var t := CheckIn(s, day).1;
    CheckInRecords(t, day + 1);
    CheckInRecords(t, day + 2);
  }

  /** A check-in keeps the bookkeeping invariant. */
  lemma CheckInPreservesValid(s: State, today: int)
    requires Valid(s)
    ensures Valid(CheckIn(s, today).1)
  {
    var t := CheckIn(s, today).1;
    if s.player.lastCheckin != Some(today) {
      var streak := t.player.streakDays;
      var s1 := s.(player := s.player.(streakDays := streak, lastCheckin := Some(today)),
                   logs := s.logs + [CheckedIn(streak)]);
      assert Valid(s1);
      if IsBonusStreak(streak) {
        AddXpPreservesValid(s1, StreakBonusXp);
      }
    }
  }
}
