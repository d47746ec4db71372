# Retro Task RPG game engine in Dafny

This project models the game engine of Retro Task RPG (`main.py`), a
gamified to-do list. Finished tasks earn XP and play minutes. XP fills a
level bar whose threshold grows by a quarter with each level. Levels unlock
badges, and cumulative task counts unlock "Grinder" achievements. Players can
also earn rewards through:

- a daily check-in with a streak bonus,
- daily and weekly quests,
- a Pomodoro timer,
- a play-session timer that spends banked minutes and refunds the unused ones.

A player who stays away for more than a week is dead and must respawn.

Each engine operation is a pure function from one `State` to the next. The
source reads the wall clock; here time is an explicit argument:

- a day number for check-ins and daily quests;
- an opaque week id for weekly quests;
- whole seconds for the timers and the game-over test.

Modules:

- `GameState` (`game_state.dfy`): the record, the constants and defaults of
  the source, and the bookkeeping invariant `Valid`.
- `Leveling` (`leveling.dfy`): `add_xp` and `maybe_add_level_badge`.
- `TaskCompletion` (`task_completion.dfy`): `complete_task` and
  `check_special_achievements`.
- `Streak` (`streak.dfy`): `check_in`.
- `QuestClaims` (`quest_claims.dfy`): `claim_daily_quest` and
  `claim_weekly_quest`.
- `PlayTimers` (`timers.dfy`): the Pomodoro and session timers.
- `Lifecycle` (`lifecycle.dfy`): `reset_if_game_over` and `respawn`.

Key facts and modelling choices:

- `Credited(p, xp, minutes, q)` states what an XP credit does to the player. It
  says how many level-ups happened (k), that each was paid at the threshold
  then in force, that the bank gained `minutes` plus 5 per level-up, and that
  nothing else changed. It also says that a non-negative XP bar stays
  non-negative, which makes k the loop's own count
  (`CreditedLevelsAsTheLoop`).
- Every operation that grants XP (tasks, streak bonus, quests) is stated
  through `Credited`. Each has a lemma showing it keeps `Valid`.
- The log becomes a list of `LogEvent` values that carry the numbers the text
  line reports. Timestamps are dropped.
- Badges and special achievements are datatypes (`Badge`, `Special`), not
  strings.
- `maybe_add_level_badge` awards every badge whose threshold the level has
  reached, not only the next one.
- Level 1 with threshold 100 gaining 250 XP ends at threshold
  `ceil(156.25) = 157` (see `AddXpExample`).

## Model

| member | source | states |
|---|---|---|
| GameState.DefaultStateValid | main.py:71-118 | The default state (level 1, 0 XP, threshold 100, empty counters and achievements, the four default quests) satisfies the bookkeeping invariant. |
| GameState.LevelBadgeNamesDistinct | main.py:125-127 | The five level badges have pairwise distinct names. |
| GameState.GrinderNamesDistinct | main.py:258-260 | The five task-count milestones have pairwise distinct names. |
| Leveling.NextThreshold | main.py:212 | The next threshold is the least integer at or above 1.25 times the current one, and it is strictly larger. |
| Leveling.Climb | main.py:209-214 | The level-up loop: after k rounds the level is up by k, the bank by 5k, the threshold has grown k times, the XP has paid the k thresholds in force, the XP is below the final threshold and stays non-negative, and no other field changes. |
| Leveling.ClimbCountIsMaximal | main.py:209-214 | The loop levels up exactly j times or more iff the XP covers the summed cost of j level-ups, so the number of level-ups is determined by the XP alone. |
| Leveling.CreditedLevelsAsTheLoop | main.py:206-214 | Any credit of a positive amount to a non-negative XP bar makes exactly as many level-ups as the loop does. So the XP credits of tasks, the streak bonus and quests fix the new level. |
| Leveling.NewNames | main.py:224-227 | An award loop over a (threshold, name) table appends exactly the names whose threshold is reached and which are not held yet, without repeats when the table's names are distinct. |
| Leveling.MaybeAddLevelBadge | main.py:221-227 | Afterwards the held badges are the old ones plus every badge the level has reached. Old badges stay in front, none is repeated, and special achievements, other fields and earlier log entries are untouched. |
| Leveling.AddXp | main.py:203-218 | A non-positive amount changes nothing. Otherwise the player is credited with the amount through the level-up loop, the XP bar ends in range, the badges follow the level, and only player, achievements and the log change. |
| Leveling.AddXpPreservesValid | main.py:203-218 | Adding XP keeps the invariant and never lowers the level or the bank. |
| Leveling.AddXpExample | main.py:209-214 | Level 1 with threshold 100 gaining 250 XP ends at level 3 with 25 XP, threshold 157 and 10 more play minutes. |
| TaskCompletion.RoundHalfEven | main.py:235-238 | The rounding of the task rewards: the result is a nearest integer to n/d, and ties go to the even neighbour. |
| TaskCompletion.GainTablesAreRoundedProducts | main.py:231-238 | The XP and minutes tables are the rounded products of base 10 XP or 1 minute, the difficulty multiplier and, in hardcore mode, 1.25. All of them are positive. |
| TaskCompletion.AwardMilestones | main.py:257-263 | The milestone loop as written, checking each name against the list as it grows, only appends. |
| TaskCompletion.AwardMilestonesAppendsNewNames | main.py:257-263 | With distinct milestone names, that loop appends exactly the milestones reached and not held at the start, in table order. |
| TaskCompletion.CheckSpecialAchievements | main.py:254-263 | Afterwards the held achievements are the old ones plus every milestone the task total has reached. Old ones stay in front, none is repeated, and badges, other fields and earlier log entries are untouched. |
| TaskCompletion.CheckSpecialAchievementsIsTheLoop | main.py:254-263 | The achievements produced agree with running the source's loop name by name. |
| TaskCompletion.CompleteTask | main.py:230-251 | The task log gains one entry with the tabulated gains. Only the task's difficulty counter rises, by one. The player is credited with the XP through the level-up loop plus the task minutes. Only player, tasks, achievements and log change, and the log only grows. |
| TaskCompletion.CompleteTaskBadges | main.py:230-251 | Completing a task appends level badges only after a level-up, and then holds every badge reached, with no repeat. |
| TaskCompletion.CompleteTaskSpecials | main.py:230-251 | Completing a task leaves every milestone of the new task total held, with no repeat and nothing removed. |
| TaskCompletion.CompleteTaskPreservesValid | main.py:230-251 | Completing a task keeps the invariant. |
| Streak.RecordCheckIn | main.py:285-295 | The streak grows by one when the last check-in was the day before and restarts at 1 otherwise. Today becomes the last check-in day, and the check-in is logged with the streak. |
| Streak.GrantStreakBonus | main.py:297-301 | On a streak of 3, 7 or 14 the player is credited with 20 XP through the level-up loop plus 5 minutes, and badges follow the level. On any other streak nothing changes. |
| Streak.CheckIn | main.py:280-302 | A second check-in on the same day reports false and changes nothing. Otherwise it reports true, records the check-in and grants any bonus. |
| Streak.CheckInIdempotent | main.py:280-284 | Checking in twice on one day equals checking in once. |
| Streak.StreakBonusExactly | main.py:297-301 | The bank grows by at least the bonus minutes iff the new streak is 3, 7 or 14, and it is unchanged otherwise. |
| Streak.CheckInRecords | main.py:285-301 | After a check-in the streak and the check-in day are those recorded, whatever the bonus did. |
| Streak.ConsecutiveDays | main.py:286-293 | A check-in the next day grows the streak by one. One two days later restarts it at 1. |
| Streak.CheckInPreservesValid | main.py:280-302 | Checking in keeps the invariant. |
| QuestClaims.ClaimDaily | main.py:328-338 | An unknown quest and a quest done today change nothing. Otherwise the quest's XP goes through the level-up loop and its minutes to the bank, the quest is marked done today, and the claim is logged last. |
| QuestClaims.ClaimWeekly | main.py:341-352 | The same as a daily claim, keyed on the ISO week. |
| QuestClaims.ClaimDailyIdempotent | main.py:328-333 | Claiming a daily quest twice on one day equals claiming it once. |
| QuestClaims.ClaimWeeklyIdempotent | main.py:341-347 | Claiming a weekly quest twice in one week equals claiming it once. |
| QuestClaims.ClaimDailyAgainNextDay | main.py:328-338 | A daily quest done on one day is claimable on any other day and pays its minutes again. |
| QuestClaims.ClaimWeeklyAgainNextWeek | main.py:341-352 | A weekly quest done in one week is claimable in any other week and pays its minutes again. |
| QuestClaims.ClaimDailyPreservesValid | main.py:328-338 | A daily claim keeps the invariant. |
| QuestClaims.ClaimWeeklyPreservesValid | main.py:341-352 | A weekly claim keeps the invariant. |
| PlayTimers.PomodoroRemaining | main.py:373-380 | A stopped Pomodoro has 0 seconds left. A running one has its length minus the elapsed and paused seconds, clamped at 0. |
| PlayTimers.PomodoroRemainingNonIncreasing | main.py:373-380 | The remaining time never grows as the clock advances. |
| PlayTimers.StartPomodoro | main.py:383-389 | A running timer is left alone. Otherwise it starts now, with no paused seconds, and the start is logged with the length. |
| PlayTimers.StartPomodoroRemaining | main.py:373-389 | t seconds after a start, the length minus t seconds remain, but never less than 0. |
| PlayTimers.StartPomodoroIdempotent | main.py:383-385 | Starting twice equals starting once. |
| PlayTimers.StopPomodoroAsWritten | main.py:392-398 | The stop exactly as written. A stopped timer is left alone. A running one has only its running flag cleared, and the log gains one stop entry reporting the full length (never less than 0) as spent, however long the timer ran. |
| PlayTimers.StopPomodoroAsWrittenLogsFullLength | main.py:395-398 | As written, the stop always logs the full length as time spent. |
| PlayTimers.StopPomodoroAsWrittenCounterexample | main.py:395-398 | A 25-minute Pomodoro stopped after 60 seconds is logged as 1500 seconds spent. |
| PlayTimers.StopPomodoro | main.py:392-398 | With the remaining time read before the flag is cleared, the stop clears only the running flag. It logs the seconds actually run, clamped between 0 and the length. |
| PlayTimers.StopPomodoroSpentPlusRemaining | main.py:392-398 | The logged spent seconds plus the remaining seconds before the stop equal the length. |
| PlayTimers.StopPomodoroIdempotent | main.py:392-394 | Stopping twice equals stopping once. |
| PlayTimers.PomodoroBlockIndex | main.py:401-407 | The progress block is in 0..4. Below 4 it is the fifth of the length the elapsed time falls in, and 4 means at least four fifths have elapsed. |
| PlayTimers.PomodoroBlockIndexMonotone | main.py:401-407 | The block index never moves backwards as time passes. |
| PlayTimers.PomodoroBlockIndexEnds | main.py:401-407 | A stopped Pomodoro shows the last block. One just started shows the first. |
| PlayTimers.SessionRemaining | main.py:439-443 | No session means 0 seconds left. A running one has its target minus the used seconds, clamped at 0. |
| PlayTimers.StartSession | main.py:410-422 | A running session or a non-positive request changes nothing. A short bank only logs the refusal. Otherwise the minutes leave the bank, which stays non-negative, and the session starts now with that target. |
| PlayTimers.StopSession | main.py:425-436 | Stopping a stopped session changes nothing. Otherwise the whole minutes still remaining go back to the bank and only the running flag is cleared. |
| PlayTimers.StopSessionRefundBounded | main.py:428-434 | The refund is never negative. Unless time ran backwards, it never exceeds the session's target. |
| PlayTimers.SessionRoundTrip | main.py:410-436 | Starting a session of m minutes and stopping it t seconds later leaves the bank m lower plus the unplayed whole minutes. The bank is fully restored iff the stop comes at once. |
| PlayTimers.StopSessionIdempotent | main.py:425-427 | Stopping twice equals stopping once. |
| PlayTimers.StartSessionIdempotent | main.py:410-412 | Starting a session while one runs changes nothing. |
| PlayTimers.SessionPreservesValid | main.py:410-436 | Starting and stopping sessions keep the invariant, so the bank never goes negative. |
| PlayTimers.PomodoroPreservesValid | main.py:383-398 | Starting and stopping the Pomodoro keep the invariant. |
| Lifecycle.ResetIfGameOver | main.py:305-315 | Afterwards the player is dead iff they were dead already or were last seen more than seven days ago. Nothing else changes. |
| Lifecycle.ResetIfGameOverIdempotent | main.py:305-315 | Checking twice at one moment equals checking once. |
| Lifecycle.ResetIfGameOverMonotone | main.py:305-315 | A player dead at one moment is dead at every later one. |
| Lifecycle.GameOverBoundary | main.py:314 | Exactly seven days of absence is survived. One second more is not. |
| Lifecycle.Respawn | main.py:318-325 | The state becomes the defaults, keeping the save's version or the current one. The player is alive and the log holds only the respawn. |
| Lifecycle.RespawnFresh | main.py:318-325 | A respawned game is a valid level-1 game with nothing earned, and respawning again changes nothing. |
| Lifecycle.RespawnRevives | main.py:318-325 | A respawn revives a dead player until a week after the defaults' last-opened time. |

## Left out

- Sounds, quotes and the launcher are not modelled, and neither is the
  Streamlit user interface. The interface also writes the state directly,
  outside the operations above, and none of these writes is modelled:
  - it edits the player name (main.py:525);
  - it switches hardcore mode on (main.py:547);
  - it sets the Pomodoro length from a slider (main.py:581);
  - it logs a save (main.py:561);
  - it replaces the whole state on reload and logs that (main.py:564-566);
  - it stamps `last_opened` with the current time on every run (main.py:759).
    This is the value `reset_if_game_over` measures; the model takes it as
    part of the given state.
- Loading and saving the state as JSON (local and iCloud copies) is not
  modelled.
- Clocks and calendars become parameters:
  - `today_str` and `week_id` become a day number and an opaque week id.
  - `seconds_since` works on whole seconds. The source truncates a fractional
    difference toward zero, and an unparsable timestamp counts as no time;
    a missing timestamp is `None`.
  - `reset_if_game_over` compares timestamps with microsecond resolution. Any
    absence longer than seven days kills, so seven days and half a second
    already does. The model's whole seconds cannot express that: it counts
    the player dead only from seven days and one second.
- Log text and timestamps are left out. Each log line becomes an event
  carrying the same numbers.
- The source has no pause operation, so `pomodoro_paused_seconds` is only
  ever reset. The model carries it as a field.
- Respawn: the source copies the default state shallowly, so its nested
  dictionaries are shared with the module-level defaults until the program
  reloads. That sharing has no counterpart in an immutable model.
- Respawn: a save whose version is stored as null would keep null. The model
  treats a missing and a null version alike and restores the current version.
- Floating point is left out. Threshold growth, task rewards and the block
  index use floats in the source. The model uses exact integer arithmetic,
  which agrees with them for all values a game reaches (thresholds below
  2^50).
- An unknown difficulty makes `complete_task` raise `KeyError`. `Difficulty`
  is a closed datatype, so that error path cannot be expressed.
- `add_xp` with a non-positive threshold never terminates in the source. The
  XP operations require a positive threshold, which every reachable state
  has.
- The `xp_total` placeholder in `check_special_achievements` is a local
  variable that nothing reads, and it is dropped. `quotes_level_index` is
  never used by the engine and is kept only as a field.
- Hardcore mode is switched on only by the user interface, and that write is
  not modelled. The model reads the flag, and `Respawn` resets it to false
  with the rest of the defaults.

## Findings

| source | as written | input that shows it | evidently intended | confidence | as-written member | corrected member |
|---|---|---|---|---|---|---|
| main.py:395-397 | `stop_pomodoro` clears the running flag before reading the remaining time. A stopped timer reports 0 seconds left, so the logged time spent is always the full length | A 25-minute Pomodoro started at second 0 and stopped at second 60 logs 1500 seconds (25m 0s) | Read the remaining time first, so the log shows the seconds actually run (60) | high, not executed | PlayTimers.StopPomodoroAsWrittenCounterexample | PlayTimers.StopPomodoro |
