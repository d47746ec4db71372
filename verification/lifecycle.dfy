/**
 Game over and respawn (`reset_if_game_over`, `respawn`): a player not seen for
 more than seven days dies, and a respawn starts the game over from the
 defaults, keeping only the save's version.
 */
module Lifecycle {
  import opened GameState

  /** The player last opened the game more than `GameOverSeconds` before `now`. */
  predicate Abandoned(m: Meta, now: int) {
    m.lastOpened.Some? && now - m.lastOpened.value > GameOverSeconds
  }

  /** `reset_if_game_over` at second `now`: without a last-opened time nothing
      happens; after more than seven days of absence the player is marked dead.
      The flag is only ever set, never cleared, and nothing else changes. */
  function ResetIfGameOver(s: State, now: int): (r: State)
    ensures r.meta.dead <==> s.meta.dead || Abandoned(s.meta, now)
    ensures r == s.(meta := s.meta.(dead := r.meta.dead))
  {
    match s.meta.lastOpened
    case None => s
    case Some(last) =>
      if now - last > GameOverSeconds then s.(meta := s.meta.(dead := true)) else s
  }

  /** Checking twice at the same moment is checking once. */
  lemma ResetIfGameOverIdempotent(s: State, now: int)
    ensures ResetIfGameOver(ResetIfGameOver(s, now), now) == ResetIfGameOver(s, now)
  {
  }

  /** Death is permanent as time goes on: a player dead at `now` is dead at any
      later moment. */
  lemma ResetIfGameOverMonotone(s: State, now: int, later: int)
    requires now <= later
    requires ResetIfGameOver(s, now).meta.dead
    ensures ResetIfGameOver(s, later).meta.dead
  {
  }

  /** Exactly seven days of absence is still alive; one second more is not. */
  lemma GameOverBoundary(s: State, last: int)
    requires !s.meta.dead && s.meta.lastOpened == Some(last)
    ensures !ResetIfGameOver(s, last + 7 * 24 * 60 * 60).meta.dead
    ensures ResetIfGameOver(s, last + 7 * 24 * 60 * 60 + 1).meta.dead
  {
  }

  /** `respawn`: everything goes back to the defaults (built at `bootTime`,
      when the program loaded) except the save's version, which is kept, or
      the current version when the save has none; the player is alive and the
      log holds only the respawn. */
  function Respawn(s: State, bootTime: int): (r: State)
    ensures r.meta.version == Some(s.meta.version.GetOr(Version))
    ensures !r.meta.dead
    ensures r.logs == [Respawned]
    ensures r == DefaultState(bootTime).(meta := r.meta, logs := r.logs)
    ensures r.meta == DefaultState(bootTime).meta.(version := r.meta.version)
  {
    var keep := s.meta.version.GetOr(Version);
    var d := DefaultState(bootTime);
    d.(meta := d.meta.(version := Some(keep), dead := false), logs := d.logs + [Respawned])
  }

  /** A respawned game is a fresh level-1 game that keeps the invariant, and
      respawning again changes nothing. */
  lemma RespawnFresh(s: State, bootTime: int)
    ensures var r := Respawn(s, bootTime);
      && Valid(r)
      && r.player.level == 1 && r.player.xp == 0 && r.player.minutesBank == 0
      && r.tasks.counts.Total() == 0
      && r.achievements == Achievements([], [])
      && Respawn(r, bootTime) == r
  {
    DefaultStateValid(bootTime);
  }

  /** A respawn revives a dead player, and the revived player is not dead
      again until a week passes after the last opening. */
  lemma RespawnRevives(s: State, bootTime: int, now: int)
    requires s.meta.dead
    requires now - bootTime <= GameOverSeconds
    ensures !ResetIfGameOver(Respawn(s, bootTime), now).meta.dead
  {
  }
}
