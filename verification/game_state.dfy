/**
 The persistent record of the Retro Task RPG: player statistics, the Pomodoro and
 play-session timers, the task log, daily and weekly quests, achievements, meta
 flags and the event log. Every operation of the game engine is a pure function
 from one `State` to the next; wall-clock time enters only as explicit integer
 arguments (a day number, an opaque ISO week id, seconds).
 */
module GameState {

  datatype Option<+T> = None | Some(value: T) {
    /** The encapsulated value, or `default` when there is none. */
    function GetOr(default: T): T {
      match this
      case Some(v) => v
      case None => default
    }
  }

  /** The four task tiers; "Hoellenfeuer" stands for the tier spelled Höllenfeuer. */
  datatype Difficulty = Noob | Normal | Hardcore | Hoellenfeuer

  /** An ISO year-week identifier such as "2026-W41"; only compared for equality. */
  type WeekId = string

  datatype Meta = Meta(
    version: Option<string>,
    created: int,
    lastOpened: Option<int>,   // seconds
    hardcore: bool,
    dead: bool)

  datatype Player = Player(
    name: string,
    level: int,
    xp: int,
    xpForNext: int,
    streakDays: int,
    lastCheckin: Option<int>,  // day number
    minutesBank: int,          // earned play minutes
    quotesLevelIndex: int)

  datatype Timers = Timers(
    pomodoroLength: int,         // minutes
    pomodoroStart: Option<int>,  // seconds
    pomodoroRunning: bool,
    pomodoroPausedSeconds: int,
    sessionStart: Option<int>,   // seconds
    sessionRunning: bool,
    sessionTargetMinutes: int,
    sessionSpentSeconds: int)

  datatype TaskEntry = TaskEntry(ts: int, title: string, difficulty: Difficulty, xpGain: int, minutesGain: int)

  /** Number of completed tasks per difficulty. */
  datatype Counts = Counts(noob: int, normal: int, hardcore: int, hoellenfeuer: int) {

    function Get(d: Difficulty): int {
      match d
      case Noob => noob
      case Normal => normal
      case Hardcore => hardcore
      case Hoellenfeuer => hoellenfeuer
    }

    /** The table with the counter of `d` incremented. */
    function Bump(d: Difficulty): (c: Counts)
      ensures c.Get(d) == Get(d) + 1
      ensures forall e :: e != d ==> c.Get(e) == Get(e)
      ensures c.Total() == Total() + 1
    {
      match d
      case Noob => this.(noob := noob + 1)
      case Normal => this.(normal := normal + 1)
      case Hardcore => this.(hardcore := hardcore + 1)
      case Hoellenfeuer => this.(hoellenfeuer := hoellenfeuer + 1)
    }

    function Total(): int {
      noob + normal + hardcore + hoellenfeuer
    }
  }

  datatype TaskBook = TaskBook(log: seq<TaskEntry>, counts: Counts)

  datatype DailyQuest = DailyQuest(xp: int, minutes: int, doneOn: Option<int>)

  datatype WeeklyQuest = WeeklyQuest(xp: int, minutes: int, doneOnWeek: Option<WeekId>)

  datatype Quests = Quests(daily: map<string, DailyQuest>, weekly: map<string, WeeklyQuest>)

  /** The level badges, named as in the source. */
  datatype Badge = Bronze | Silver | Gold | Platinum | Diamond

  /** A special achievement: "Grinder m" for a cumulative task count m. */
  datatype Special = Grinder(milestone: int)

  datatype Achievements = Achievements(levelBadges: seq<Badge>, special: seq<Special>)

  /** The textual log, reduced to what each line reports. */
  datatype LogEvent =
    | LevelUp(times: nat, bonusMinutes: int)
    | BadgeUnlocked(badge: Badge)
    | TaskCompleted(title: string, difficulty: Difficulty, xpGain: int, minutesGain: int)
    | AchievementUnlocked(achievement: Special)
    | CheckedIn(streak: int)
    | StreakBonus
    | DailyQuestDone(dailyQuest: string, dailyXp: int, dailyMinutes: int)
    | WeeklyQuestDone(weeklyQuest: string, weeklyXp: int, weeklyMinutes: int)
    | PomodoroStarted(lengthMinutes: int)
    | PomodoroStopped(spentSeconds: int)
    | NotEnoughMinutes
    | SessionStarted(sessionMinutes: int)
    | SessionStopped(refundedMinutes: int)
    | Respawned

  datatype State = State(
    meta: Meta,
    player: Player,
    timers: Timers,
    tasks: TaskBook,
    quests: Quests,
    achievements: Achievements,
    logs: seq<LogEvent>)

  const Version: string := "7.9"
  const InitialXpForNext: int := 100
  const DefaultPomodoroLength: int := 25
  /** Play minutes granted per level-up. */
  const LevelMinutesBonus: int := 5
  /** Level thresholds of the level badges. */
  const LevelBadges: seq<(int, Badge)> :=
    [(5, Bronze), (10, Silver), (20, Gold), (30, Platinum), (40, Diamond)]
  /** Cumulative task-count thresholds of the special achievements. */
  const GrinderMilestones: seq<(int, Special)> :=
    [(10, Grinder(10)), (25, Grinder(25)), (50, Grinder(50)), (100, Grinder(100)), (200, Grinder(200))]
  /** A player not seen for more than seven days is dead. */
  const GameOverSeconds: int := 7 * 24 * 60 * 60

  const DefaultDailyQuests: map<string, DailyQuest> := map[
    "Power-Up Workout" := DailyQuest(30, 5, None),
    "Deep Focus 60" := DailyQuest(40, 10, None)]

  const DefaultWeeklyQuests: map<string, WeeklyQuest> := map[
    "NoPo Weekly" := WeeklyQuest(60, 15, None),
    "Project Push" := WeeklyQuest(80, 20, None)]

  /** The state a new game starts from; `bootTime` is when the defaults were built
      and becomes both the creation and the last-opened time. */
  function DefaultState(bootTime: int): State {
    State(
      Meta(Some(Version), bootTime, Some(bootTime), false, false),
      Player("Player One", 1, 0, InitialXpForNext, 0, None, 0, 0),
      Timers(DefaultPomodoroLength, None, false, 0, None, false, 0, 0),
      TaskBook([], Counts(0, 0, 0, 0)),
      Quests(DefaultDailyQuests, DefaultWeeklyQuests),
      Achievements([], []),
      [])
  }

  predicate NoDup<T(==)>(s: seq<T>) {
    forall i, j :: 0 <= i < j < |s| ==> s[i] != s[j]
  }

  /** `a` is an initial segment of `b`: what append-only lists guarantee. */
  predicate IsPrefix<T(==)>(a: seq<T>, b: seq<T>) {
    |a| <= |b| && b[..|a|] == a
  }

  lemma PrefixExtend<T>(a: seq<T>, b: seq<T>, c: seq<T>)
    requires IsPrefix(a, b)
    ensures IsPrefix(a, b + c)
  {
    assert (b + c)[..|a|] == b[..|a|];
  }

  function Elems<T>(s: seq<T>): set<T> {
    set x | x in s
  }

  /** The names in a (threshold, name) table whose threshold `score` has reached. */
  function Qualified<T>(table: seq<(int, T)>, score: int): set<T> {
    set i | 0 <= i < |table| && table[i].0 <= score :: table[i].1
  }

  /** No name appears twice in a (threshold, name) table. */
  predicate DistinctNames<T(==)>(table: seq<(int, T)>) {
    forall i, j :: 0 <= i < j < |table| ==> table[i].1 != table[j].1
  }

  /** The bookkeeping invariant every operation keeps: the XP bar is in range,
      counters and the bank are non-negative, achievement lists hold no duplicate
      and contain every badge and milestone already reached. */
  predicate Valid(s: State) {
    && s.player.level >= 1
    && 0 <= s.player.xp < s.player.xpForNext
    && s.player.streakDays >= 0
    && s.player.minutesBank >= 0
    && s.tasks.counts.noob >= 0 && s.tasks.counts.normal >= 0
    && s.tasks.counts.hardcore >= 0 && s.tasks.counts.hoellenfeuer >= 0
    && (forall n :: n in s.quests.daily ==> s.quests.daily[n].xp >= 0 && s.quests.daily[n].minutes >= 0)
    && (forall n :: n in s.quests.weekly ==> s.quests.weekly[n].xp >= 0 && s.quests.weekly[n].minutes >= 0)
    && NoDup(s.achievements.levelBadges)
    && NoDup(s.achievements.special)
    && Qualified(LevelBadges, s.player.level) <= Elems(s.achievements.levelBadges)
    && Qualified(GrinderMilestones, s.tasks.counts.Total()) <= Elems(s.achievements.special)
  }

  lemma DefaultStateValid(bootTime: int)
    ensures Valid(DefaultState(bootTime))
    ensures DefaultState(bootTime).player.level == 1 && DefaultState(bootTime).player.xp == 0
  {
    assert Qualified(LevelBadges, 1) == {} by {
      forall i | 0 <= i < |LevelBadges| ensures LevelBadges[i].0 > 1 { }
    }
    assert Qualified(GrinderMilestones, 0) == {} by {
      forall i | 0 <= i < |GrinderMilestones| ensures GrinderMilestones[i].0 > 0 { }
    }
  }

  lemma LevelBadgeNamesDistinct()
    ensures DistinctNames(LevelBadges)
  {
  }

  lemma GrinderNamesDistinct()
    ensures DistinctNames(GrinderMilestones)
  {
  }
}
