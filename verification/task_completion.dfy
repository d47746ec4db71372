/**
 Task completion (`complete_task`) and the cumulative task-count achievements
 (`check_special_achievements`).
 */
module TaskCompletion {
  import opened GameState
  import opened Leveling

  /** The difficulty multiplier, in quarters: 1.0, 1.5, 2.5 and 4.0. */
  function MultiplierQuarters(d: Difficulty): int {
    match d
    case Noob => 4
    case Normal => 6
    case Hardcore => 10
    case Hoellenfeuer => 16
  }

  /** Rounds the rational n/d to the nearest integer, ties to the even neighbour,
      as Python's `round` does on floats that hold n/d exactly. */
  function RoundHalfEven(n: int, d: int): (r: int)
    requires d > 0
    ensures -d <= 2 * (d * r - n) <= d                     // r is a nearest integer
    ensures 2 * (d * r - n) == d || 2 * (d * r - n) == -d ==> r % 2 == 0  // ties go to even
  {
    var q := n / d;
    var rem := n % d;
    if 2 * rem < d then q
    else if 2 * rem > d then q + 1
    else if q % 2 == 0 then q
    else q + 1
  }

  /** XP for a task: the source's `round(10 * multiplier * (1.25 if hardcore else 1))`,
      tabulated. */
  function XpGain(d: Difficulty, hardcore: bool): int {
    match d
    case Noob => if hardcore then 12 else 10
    case Normal => if hardcore then 19 else 15
    case Hardcore => if hardcore then 31 else 25
    case Hoellenfeuer => if hardcore then 50 else 40
  }

  /** Play minutes for a task: the source's `round(1 * multiplier)`, tabulated. */
  function MinutesGain(d: Difficulty): int {
    match d
    case Noob => 1
    case Normal => 2
    case Hardcore => 2
    case Hoellenfeuer => 4
  }

  /** The tables agree with rounding the exact products half to even:
      XP = 10 * (q/4) * (5/4 or 4/4) = 10*q*(5 or 4) / 16, minutes = q / 4. */
  lemma GainTablesAreRoundedProducts(d: Difficulty, hardcore: bool)
    ensures XpGain(d, hardcore) == RoundHalfEven(10 * MultiplierQuarters(d) * (if hardcore then 5 else 4), 16)
    ensures MinutesGain(d) == RoundHalfEven(MultiplierQuarters(d), 4)
    ensures XpGain(d, hardcore) > 0 && MinutesGain(d) > 0
  {
  }

  /** Appends one event per newly unlocked special achievement. */
  function AchievementEvents(names: seq<Special>): (r: seq<LogEvent>)
    ensures |r| == |names|
    ensures forall i :: 0 <= i < |names| ==> r[i] == AchievementUnlocked(names[i])
  {
    if names == [] then [] else [AchievementUnlocked(names[0])] + AchievementEvents(names[1..])
  }

  /** The milestone loop of `check_special_achievements` over `table`, as the
      source runs it: a name is appended when `total` reaches its threshold and
      the list, as grown so far, does not hold it yet. */
  function AwardMilestones(table: seq<(int, Special)>, total: int, special: seq<Special>): (r: seq<Special>)
    ensures IsPrefix(special, r)
    decreases |table|
  {
    if |table| == 0 then
      special
    else
      var (threshold, name) := table[0];
      var special' := if total >= threshold && name !in special then special + [name] else special;
      var r := AwardMilestones(table[1..], total, special');
      assert r[..|special|] == r[..|special'|][..|special|];
      r
  }

  /** A name that is not in the table does not influence the award loop. */
  lemma {:induction false} NewNamesIgnoresOthers<T>(table: seq<(int, T)>, total: int, have: set<T>, x: T)
    requires forall i :: 0 <= i < |table| ==> table[i].1 != x
    ensures NewNames(table, total, have + {x}) == NewNames(table, total, have)
    decreases |table|
  {
    if |table| > 0 {
      NewNamesIgnoresOthers(table[1..], total, have, x);
    }
  }

  /** Because the table's names are distinct, checking each name against the
      growing list is the same as checking it against the names held at the
      start: the loop appends exactly `NewNames`. */
  lemma {:induction false} AwardMilestonesAppendsNewNames(table: seq<(int, Special)>, total: int, special: seq<Special>)
    requires DistinctNames(table)
    ensures AwardMilestones(table, total, special) == special + NewNames(table, total, Elems(special))
    decreases |table|
  {
    if |table| > 0 {
      DistinctTail(table);
      if total >= table[0].0 && table[0].1 !in special {
        var special' := special + [table[0].1];
        AwardMilestonesAppendsNewNames(table[1..], total, special');
        AppendedNameIsNew(table, total, special);
      } else {
        AwardMilestonesAppendsNewNames(table[1..], total, special);
      }
    }
  }

  /** The step of the loop that appends the first name of the table: the name
      appended now plus the names appended later are the new names. */
  lemma AppendedNameIsNew(table: seq<(int, Special)>, total: int, special: seq<Special>)
    requires |table| > 0 && total >= table[0].0 && table[0].1 !in special
    requires forall i :: 0 <= i < |table[1..]| ==> table[1..][i].1 != table[0].1
    ensures (special + [table[0].1]) + NewNames(table[1..], total, Elems(special + [table[0].1]))
         == special + NewNames(table, total, Elems(special))
  {
    var name := table[0].1;
    var have := Elems(special);
    assert Elems(special + [name]) == have + {name};
    NewNamesIgnoresOthers(table[1..], total, have, name);
    var tail := NewNames(table[1..], total, have);
    assert NewNames(table, total, have) == [name] + tail;
    assert (special + [name]) + tail == special + ([name] + tail);
  }

  /** The "Grinder m" milestones `total` has reached that are not in `have`, in
      table order. */
  function MissingMilestones(total: int, have: set<Special>): (added: seq<Special>)
    ensures Elems(added) == Qualified(GrinderMilestones, total) - have
    ensures NoDup(added)
  {
    GrinderNamesDistinct();
    NewNames(GrinderMilestones, total, have)
  }

  /** `check_special_achievements`: every "Grinder m" milestone reached by the
      total number of completed tasks is held afterwards; nothing is removed,
      and one unlock event is logged per new milestone. */
  function CheckSpecialAchievements(s: State): (r: State)
    ensures r == s.(achievements := r.achievements, logs := r.logs)
    ensures r.achievements.levelBadges == s.achievements.levelBadges
    ensures IsPrefix(s.achievements.special, r.achievements.special)
    ensures Elems(r.achievements.special)
         == Elems(s.achievements.special) + Qualified(GrinderMilestones, s.tasks.counts.Total())
    ensures NoDup(s.achievements.special) ==> NoDup(r.achievements.special)
    ensures IsPrefix(s.logs, r.logs)
  {
    var held := s.achievements.special;
    var added := MissingMilestones(s.tasks.counts.Total(), Elems(held));
    var special := held + added;
    assert Elems(special) == Elems(held) + Elems(added);
    assert NoDup(held) ==> NoDup(special) by {
      if NoDup(held) { NoDupConcat(held, added); }
    }
    var events := AchievementEvents(added);
    PrefixExtend(held, held, added);
    PrefixExtend(s.logs, s.logs, events);
    s.(achievements := s.achievements.(special := special), logs := s.logs + events)
  }

  /** The special achievements after `check_special_achievements` are those the
      source's loop, run name by name against the growing list, produces. */
  lemma CheckSpecialAchievementsIsTheLoop(s: State)
    ensures CheckSpecialAchievements(s).achievements.special
         == AwardMilestones(GrinderMilestones, s.tasks.counts.Total(), s.achievements.special)
  {
    GrinderNamesDistinct();
    AwardMilestonesAppendsNewNames(GrinderMilestones, s.tasks.counts.Total(), s.achievements.special);
  }

  /** `complete_task`: the task log gains one entry recording the title, the
      difficulty and the tabulated gains; the difficulty's counter rises by one;
      the XP goes through the level-up loop; the bank gains the task minutes plus
      the level-up bonus; and the task-count achievements are brought up to date. */
  function CompleteTask(s: State, title: string, d: Difficulty, now: int): (r: State)
    requires s.player.xpForNext > 0
    ensures r.tasks.log == s.tasks.log + [TaskEntry(now, title, d, XpGain(d, s.meta.hardcore), MinutesGain(d))]
    ensures r.tasks.counts.Get(d) == s.tasks.counts.Get(d) + 1
    ensures forall e :: e != d ==> r.tasks.counts.Get(e) == s.tasks.counts.Get(e)
    ensures Credited(s.player, XpGain(d, s.meta.hardcore), MinutesGain(d), r.player)
    ensures s.player.xp >= 0 ==> 0 <= r.player.xp < r.player.xpForNext
    ensures r == s.(player := r.player, tasks := r.tasks, achievements := r.achievements, logs := r.logs)
    ensures IsPrefix(s.logs, r.logs)
  {
    var xp := XpGain(d, s.meta.hardcore);
    var minutes := MinutesGain(d);
    GainTablesAreRoundedProducts(d, s.meta.hardcore);
    var s1 := s.(tasks := TaskBook(s.tasks.log + [TaskEntry(now, title, d, xp, minutes)], s.tasks.counts.Bump(d)));
    var s2 := AddXp(s1, xp);
    var s3 := s2.(player := s2.player.(minutesBank := s2.player.minutesBank + minutes),
                  logs := s2.logs + [TaskCompleted(title, d, xp, minutes)]);
    CreditedPlusMinutes(s.player, xp, s2.player, minutes, s3.player);
    PrefixExtend(s.logs, s2.logs, [TaskCompleted(title, d, xp, minutes)]);
    CheckSpecialAchievements(s3)
  }

  /** Completing a task only appends level badges: those a level-up reached. */
  lemma CompleteTaskBadges(s: State, title: string, d: Difficulty, now: int)
    requires s.player.xpForNext > 0
    ensures var r := CompleteTask(s, title, d, now);
      && IsPrefix(s.achievements.levelBadges, r.achievements.levelBadges)
      && (r.player.level > s.player.level ==>
            Elems(r.achievements.levelBadges) == Elems(s.achievements.levelBadges) + Qualified(LevelBadges, r.player.level))
      && (r.player.level == s.player.level ==> r.achievements.levelBadges == s.achievements.levelBadges)
      && (NoDup(s.achievements.levelBadges) ==> NoDup(r.achievements.levelBadges))
  {
    var xp := XpGain(d, s.meta.hardcore);
    var minutes := MinutesGain(d);
    var s1 := s.(tasks := TaskBook(s.tasks.log + [TaskEntry(now, title, d, xp, minutes)], s.tasks.counts.Bump(d)));
    var s2 := AddXp(s1, xp);
    assert BadgesFollow(s.achievements, s.player.level, s2.player.level, s2.achievements);
  }

  /** Completing a task only appends special achievements, and afterwards every
      "Grinder m" milestone the new task total has reached is held. */
  lemma CompleteTaskSpecials(s: State, title: string, d: Difficulty, now: int)
    requires s.player.xpForNext > 0
    ensures var r := CompleteTask(s, title, d, now);
      && IsPrefix(s.achievements.special, r.achievements.special)
      && Elems(r.achievements.special)
         == Elems(s.achievements.special) + Qualified(GrinderMilestones, s.tasks.counts.Total() + 1)
      && (NoDup(s.achievements.special) ==> NoDup(r.achievements.special))
  {
    var xp := XpGain(d, s.meta.hardcore);
    var minutes := MinutesGain(d);
    var s1 := s.(tasks := TaskBook(s.tasks.log + [TaskEntry(now, title, d, xp, minutes)], s.tasks.counts.Bump(d)));
    var s2 := AddXp(s1, xp);
    assert s2.achievements.special == s.achievements.special;
    assert s2.tasks.counts.Total() == s.tasks.counts.Total() + 1;
  }

  /** Completing a task keeps the bookkeeping invariant. */
  lemma CompleteTaskPreservesValid(s: State, title: string, d: Difficulty, now: int)
    requires Valid(s)
    ensures Valid(CompleteTask(s, title, d, now))
  {
    var r := CompleteTask(s, title, d, now);
    CompleteTaskBadges(s, title, d, now);
    CompleteTaskSpecials(s, title, d, now);
    assert r.quests == s.quests;
    assert r.player.level >= s.player.level && r.player.minutesBank >= s.player.minutesBank;
    assert r.tasks.counts.Total() == s.tasks.counts.Total() + 1;
    assert Qualified(LevelBadges, r.player.level) <= Elems(r.achievements.levelBadges) by {
      if r.player.level == s.player.level {
        assert r.achievements.levelBadges == s.achievements.levelBadges;
      }
    }
  }
}
