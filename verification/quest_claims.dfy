/**
 Claiming daily and weekly quests (`claim_daily_quest`, `claim_weekly_quest`):
 a known quest pays its XP (through the level-up loop) and its play minutes at
 most once per day, respectively once per ISO week.
 */
module QuestClaims {
  import opened GameState
  import opened Leveling

  /** `claim_daily_quest` of quest `name` on day `today`. An unknown name and a
      quest already done today change nothing; otherwise the quest's XP and
      minutes are credited, the quest is marked done today and the claim logged. */
  function ClaimDaily(s: State, name: string, today: int): (r: State)
    requires s.player.xpForNext > 0
    ensures name !in s.quests.daily ==> r == s
    ensures name in s.quests.daily && s.quests.daily[name].doneOn == Some(today) ==> r == s
    ensures name in s.quests.daily && s.quests.daily[name].doneOn != Some(today) ==>
      var q := s.quests.daily[name];
      && Credited(s.player, q.xp, q.minutes, r.player)
      && BadgesFollow(s.achievements, s.player.level, r.player.level, r.achievements)
      && r.quests == s.quests.(daily := s.quests.daily[name := q.(doneOn := Some(today))])
      && r == s.(player := r.player, quests := r.quests, achievements := r.achievements, logs := r.logs)
      && IsPrefix(s.logs, r.logs) && |r.logs| > |s.logs| && r.logs[|r.logs| - 1] == DailyQuestDone(name, q.xp, q.minutes)
  {
    if name !in s.quests.daily then
      s
    else
      var q := s.quests.daily[name];
      if q.doneOn == Some(today) then
        s
      else
        var s2 := AddXp(s, q.xp);
        var p := s2.player.(minutesBank := s2.player.minutesBank + q.minutes);
        CreditedPlusMinutes(s.player, q.xp, s2.player, q.minutes, p);
        PrefixExtend(s.logs, s2.logs, [DailyQuestDone(name, q.xp, q.minutes)]);
        s2.(player := p,
            quests := s2.quests.(daily := s2.quests.daily[name := q.(doneOn := Some(today))]),
            logs := s2.logs + [DailyQuestDone(name, q.xp, q.minutes)])
  }

  /** `claim_weekly_quest` of quest `name` in ISO week `week`: the same as a
      daily claim, keyed on the week instead of the day. */
  function ClaimWeekly(s: State, name: string, week: WeekId): (r: State)
    requires s.player.xpForNext > 0
    ensures name !in s.quests.weekly ==> r == s
    ensures name in s.quests.weekly && s.quests.weekly[name].doneOnWeek == Some(week) ==> r == s
    ensures name in s.quests.weekly && s.quests.weekly[name].doneOnWeek != Some(week) ==>
      var q := s.quests.weekly[name];
      && Credited(s.player, q.xp, q.minutes, r.player)
      && BadgesFollow(s.achievements, s.player.level, r.player.level, r.achievements)
      && r.quests == s.quests.(weekly := s.quests.weekly[name := q.(doneOnWeek := Some(week))])
      && r == s.(player := r.player, quests := r.quests, achievements := r.achievements, logs := r.logs)
      && IsPrefix(s.logs, r.logs) && |r.logs| > |s.logs| && r.logs[|r.logs| - 1] == WeeklyQuestDone(name, q.xp, q.minutes)
  {
    if name !in s.quests.weekly then
      s
    else
      var q := s.quests.weekly[name];
      if q.doneOnWeek == Some(week) then
        s
      else
        var s2 := AddXp(s, q.xp);
        var p := s2.player.(minutesBank := s2.player.minutesBank + q.minutes);
        CreditedPlusMinutes(s.player, q.xp, s2.player, q.minutes, p);
        PrefixExtend(s.logs, s2.logs, [WeeklyQuestDone(name, q.xp, q.minutes)]);
        s2.(player := p,
            quests := s2.quests.(weekly := s2.quests.weekly[name := q.(doneOnWeek := Some(week))]),
            logs := s2.logs + [WeeklyQuestDone(name, q.xp, q.minutes)])
  }

  /** A daily quest pays at most once per day: claiming it again the same day
      changes nothing, whether or not the first claim paid. */
  lemma ClaimDailyIdempotent(s: State, name: string, today: int)
    requires s.player.xpForNext > 0
    ensures var t := ClaimDaily(s, name, today);
      t.player.xpForNext > 0 && ClaimDaily(t, name, today) == t
  {
  }

  /** A weekly quest pays at most once per week. */
  lemma ClaimWeeklyIdempotent(s: State, name: string, week: WeekId)
    requires s.player.xpForNext > 0
    ensures var t := ClaimWeekly(s, name, week);
      t.player.xpForNext > 0 && ClaimWeekly(t, name, week) == t
  {
  }

  /** A quest done on one day can be claimed again on any other day, and the
      claim pays at least the quest's minutes. */
  lemma ClaimDailyAgainNextDay(s: State, name: string, day: int, later: int)
    requires s.player.xpForNext > 0
    requires name in s.quests.daily && s.quests.daily[name].minutes >= 0 && s.quests.daily[name].xp >= 0
    requires later != day
    ensures var t := ClaimDaily(s, name, day);
      var u := ClaimDaily(t, name, later);
      && name in t.quests.daily && t.quests.daily[name].doneOn == Some(day)
      && u.quests.daily[name].doneOn == Some(later)
      && u.player.minutesBank >= t.player.minutesBank + s.quests.daily[name].minutes
  {
    var t := ClaimDaily(s, name, day);
    assert t.quests.daily[name] == s.quests.daily[name].(doneOn := Some(day));
  }

  /** A quest done in one week can be claimed again in any other week, and the
      claim pays at least the quest's minutes. */
  lemma ClaimWeeklyAgainNextWeek(s: State, name: string, week: WeekId, later: WeekId)
    requires s.player.xpForNext > 0
    requires name in s.quests.weekly && s.quests.weekly[name].minutes >= 0 && s.quests.weekly[name].xp >= 0
    requires later != week
    ensures var t := ClaimWeekly(s, name, week);
      var u := ClaimWeekly(t, name, later);
      && name in t.quests.weekly && t.quests.weekly[name].doneOnWeek == Some(week)
      && u.quests.weekly[name].doneOnWeek == Some(later)
      && u.player.minutesBank >= t.player.minutesBank + s.quests.weekly[name].minutes
  {
    var t := ClaimWeekly(s, name, week);
    assert t.quests.weekly[name] == s.quests.weekly[name].(doneOnWeek := Some(week));
  }

  /** A claim keeps the bookkeeping invariant: the credit goes through the
      level-up loop, and only the claimed quest's completion mark moves. */
  lemma ClaimDailyPreservesValid(s: State, name: string, today: int)
    requires Valid(s)
    ensures Valid(ClaimDaily(s, name, today))
  {
    if name in s.quests.daily && s.quests.daily[name].doneOn != Some(today) {
      var q := s.quests.daily[name];
      var r := ClaimDaily(s, name, today);
      AddXpPreservesValid(s, q.xp);
      assert r.player.level >= s.player.level;
      assert Qualified(LevelBadges, r.player.level) <= Elems(r.achievements.levelBadges) by {
        if r.player.level == s.player.level {
          assert r.achievements == s.achievements;
        }
      }
    }
  }

  /** The weekly claim keeps the bookkeeping invariant too. */
  lemma ClaimWeeklyPreservesValid(s: State, name: string, week: WeekId)
    requires Valid(s)
    ensures Valid(ClaimWeekly(s, name, week))
  {
    if name in s.quests.weekly && s.quests.weekly[name].doneOnWeek != Some(week) {
      var q := s.quests.weekly[name];
      var r := ClaimWeekly(s, name, week);
      AddXpPreservesValid(s, q.xp);
      assert r.player.level >= s.player.level;
      assert Qualified(LevelBadges, r.player.level) <= Elems(r.achievements.levelBadges) by {
        if r.player.level == s.player.level {
          assert r.achievements == s.achievements;
        }
      }
    }
  }
}
