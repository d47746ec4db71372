/**
 XP and levelling: the level-up loop of `add_xp` and the level badges awarded
 after a level-up (`maybe_add_level_badge`).
 */
module Leveling {
  import opened GameState

  /** The threshold after one level-up: the source's `ceil(t * 1.25)`, in integers. */
  function NextThreshold(t: int): (r: int)
    requires t > 0
    ensures 5 * t <= 4 * r < 5 * t + 4  // r is the least integer with r >= 1.25 * t
    ensures r > t
  {
    (5 * t + 3) / 4
  }

  /** The threshold after `k` level-ups starting from threshold `t`. */
  function ThresholdAfter(t: int, k: nat): (r: int)
    requires t > 0
    ensures r >= t + k
    decreases k
  {
    if k == 0 then t else ThresholdAfter(NextThreshold(t), k - 1)
  }

  /** The XP consumed by `k` level-ups starting from threshold `t`: the sum of the
      first `k` thresholds. */
  function Cost(t: int, k: nat): (r: int)
    requires t > 0
    ensures r >= k
    decreases k
  {
    if k == 0 then 0 else t + Cost(NextThreshold(t), k - 1)
  }

  /** The (k+1)-th level-up costs the threshold reached after k of them. */
  lemma {:induction false} CostStep(t: int, k: nat)
    requires t > 0
    ensures Cost(t, k + 1) == Cost(t, k) + ThresholdAfter(t, k)
    decreases k
  {
    if k > 0 {
      CostStep(NextThreshold(t), k - 1);
    }
  }

  /** More level-ups always cost strictly more XP. */
  lemma {:induction false} CostStrictlyIncreasing(t: int, i: nat, j: nat)
    requires t > 0
    requires i < j
    ensures Cost(t, i) < Cost(t, j)
    decreases j
  {
    CostStep(t, j - 1);
    if i < j - 1 {
      CostStrictlyIncreasing(t, i, j - 1);
    }
  }

  /** The level-up loop of `add_xp`: while the XP reaches the threshold, pay the
      threshold, gain a level and the per-level play minutes, and raise the
      threshold. Returns the new player and the number of level-ups. */
  function Climb(p: Player): (r: (Player, nat))
    requires p.xpForNext > 0
    ensures r.0 == p.(level := r.0.level, xp := r.0.xp, xpForNext := r.0.xpForNext, minutesBank := r.0.minutesBank)
    ensures r.0.level == p.level + r.1
    ensures r.0.minutesBank == p.minutesBank + LevelMinutesBonus * r.1
    ensures r.0.xpForNext == ThresholdAfter(p.xpForNext, r.1)
    ensures r.0.xp == p.xp - Cost(p.xpForNext, r.1)
    ensures r.0.xp < r.0.xpForNext
    ensures p.xp >= 0 ==> r.0.xp >= 0
    decreases p.xp
  {
    if p.xp >= p.xpForNext then
      var next := p.(xp := p.xp - p.xpForNext,
                     level := p.level + 1,
                     xpForNext := NextThreshold(p.xpForNext),
                     minutesBank := p.minutesBank + LevelMinutesBonus);
      var (q, k) := Climb(next);
      (q, k + 1)
    else
      (p, 0)
  }

  /** The number of level-ups is determined by the XP alone: exactly those counts
      whose cumulative cost the XP covers are reached. */
  lemma ClimbCountIsMaximal(p: Player, j: nat)
    requires p.xpForNext > 0 && p.xp >= 0
    ensures Cost(p.xpForNext, j) <= p.xp <==> j <= Climb(p).1
  {
    var (q, k) := Climb(p);
    if j < k {
      CostStrictlyIncreasing(p.xpForNext, j, k);
    } else if j > k {
      CostStep(p.xpForNext, k);
      assert Cost(p.xpForNext, k + 1) == p.xp - q.xp + q.xpForNext;
      if j > k + 1 {
        CostStrictlyIncreasing(p.xpForNext, k + 1, j);
      }
    }
  }

  /** `q` is `p` credited with `xpGain` XP through the level-up loop and with
      `minutesGain` play minutes on top of the level-up bonus: k = q.level - p.level
      level-ups happened, each paid by the current threshold and worth
      `LevelMinutesBonus` minutes; nothing else about the player changed. */
  ghost predicate Credited(p: Player, xpGain: int, minutesGain: int, q: Player)
  {
    var k := q.level - p.level;
    && p.xpForNext > 0
    && k >= 0
    && q == p.(level := q.level, xp := q.xp, xpForNext := q.xpForNext, minutesBank := q.minutesBank)
    && (xpGain <= 0 ==> k == 0 && q.xp == p.xp)
    && (xpGain > 0 ==> q.xp == p.xp + xpGain - Cost(p.xpForNext, k) && q.xp < q.xpForNext)
    && (xpGain > 0 && p.xp >= 0 ==> q.xp >= 0)
    && q.xpForNext == ThresholdAfter(p.xpForNext, k)
    && q.minutesBank == p.minutesBank + minutesGain + LevelMinutesBonus * k
  }

  /** Play minutes paid on top of an XP credit extend it. */
  lemma CreditedPlusMinutes(p: Player, xpGain: int, q: Player, minutes: int, q': Player)
    requires Credited(p, xpGain, 0, q)
    requires q' == q.(minutesBank := q.minutesBank + minutes)
    ensures Credited(p, xpGain, minutes, q')
  {
  }

  /** A positive credit to a non-negative XP bar fixes the number of level-ups:
      it is the number the level-up loop makes. */
  lemma CreditedLevelsAsTheLoop(p: Player, xpGain: int, minutesGain: int, q: Player)
    requires Credited(p, xpGain, minutesGain, q)
    requires xpGain > 0 && p.xp >= 0
    ensures q.level - p.level == Climb(p.(xp := p.xp + xpGain)).1
  {
    var k := q.level - p.level;
    var p' := p.(xp := p.xp + xpGain);
    ClimbCountIsMaximal(p', k);
    CostStep(p.xpForNext, k);
    ClimbCountIsMaximal(p', k + 1);
  }

  /** How the achievements evolve when the level moves from `before` to `after`:
      special achievements are untouched, level badges only get appended, and a
      level-up leaves every badge reached held. */
  ghost predicate BadgesFollow(a: Achievements, before: int, after: int, b: Achievements)
  {
    && b.special == a.special
    && IsPrefix(a.levelBadges, b.levelBadges)
    && (after == before ==> b == a)
    && (after != before ==> Elems(b.levelBadges) == Elems(a.levelBadges) + Qualified(LevelBadges, after))
    && (NoDup(a.levelBadges) ==> NoDup(b.levelBadges))
  }

  /** An award loop over a (threshold, name) table: the names it appends, in
      table order. A name is appended when `level` reaches its threshold and it
      is not in `have`, the names held before the loop started. */
  function NewNames<T(==)>(table: seq<(int, T)>, level: int, have: set<T>): (added: seq<T>)
    ensures Elems(added) == Qualified(table, level) - have
    ensures DistinctNames(table) ==> NoDup(added)
    decreases |table|
  {
    if |table| == 0 then
      []
    else
      var (threshold, name) := table[0];
      var rest := NewNames(table[1..], level, have);
      QualifiedSplit(table, level);
      if level >= threshold && name !in have then
        assert DistinctNames(table) ==> name !in Elems(rest) by {
          if DistinctNames(table) {
            forall i | 0 <= i < |table[1..]| ensures table[1..][i].1 != name {
              assert table[1..][i] == table[i + 1];
            }
          }
        }
        assert Elems([name] + rest) == {name} + Elems(rest);
        [name] + rest
      else
        rest
  }

  /** The rest of a table with distinct names has distinct names, none of them
      the first one's. */
  lemma DistinctTail<T>(table: seq<(int, T)>)
    requires |table| > 0 && DistinctNames(table)
    ensures DistinctNames(table[1..])
    ensures forall i :: 0 <= i < |table[1..]| ==> table[1..][i].1 != table[0].1
  {
    forall i, j | 0 <= i < j < |table[1..]| ensures table[1..][i].1 != table[1..][j].1 {
      assert table[1..][i] == table[i + 1] && table[1..][j] == table[j + 1];
    }
    forall i | 0 <= i < |table[1..]| ensures table[1..][i].1 != table[0].1 {
      assert table[1..][i] == table[i + 1];
    }
  }

  lemma QualifiedSplit<T>(table: seq<(int, T)>, score: int)
    requires |table| > 0
    ensures Qualified(table, score) == Qualified(table[..1], score) + Qualified(table[1..], score)
    ensures Qualified(table[..1], score) == if table[0].0 <= score then {table[0].1} else {}
  {
    forall x | x in Qualified(table, score)
      ensures x in Qualified(table[..1], score) + Qualified(table[1..], score)
    {
      var i :| 0 <= i < |table| && table[i].0 <= score && table[i].1 == x;
      if i > 0 {
        assert table[1..][i - 1] == table[i];
      }
    }
    forall x | x in Qualified(table[1..], score) ensures x in Qualified(table, score) {
      var i :| 0 <= i < |table[1..]| && table[1..][i].0 <= score && table[1..][i].1 == x;
      assert table[i + 1] == table[1..][i];
    }
  }

  /** `held` followed by `added` has no duplicate when neither part has one and
      they share nothing. */
  lemma NoDupConcat<T>(held: seq<T>, added: seq<T>)
    requires NoDup(held) && NoDup(added)
    requires Elems(held) !! Elems(added)
    ensures NoDup(held + added)
  {
    forall i, j | 0 <= i < j < |held + added| ensures (held + added)[i] != (held + added)[j] {
      if j >= |held| && i < |held| {
        assert (held + added)[i] in Elems(held);
        assert (held + added)[j] in Elems(added);
      }
    }
  }

  /** The level badges `level` has reached that are not in `have`, in table order. */
  function MissingBadges(level: int, have: set<Badge>): (added: seq<Badge>)
    ensures Elems(added) == Qualified(LevelBadges, level) - have
    ensures NoDup(added)
  {
    LevelBadgeNamesDistinct();
    NewNames(LevelBadges, level, have)
  }

  /** `maybe_add_level_badge`: append every level badge the current level has
      reached and that is not held yet, logging one event per new badge. */
  function MaybeAddLevelBadge(s: State): (r: State)
    ensures r == s.(achievements := r.achievements, logs := r.logs)
    ensures r.achievements.special == s.achievements.special
    ensures IsPrefix(s.achievements.levelBadges, r.achievements.levelBadges)
    ensures Elems(r.achievements.levelBadges)
         == Elems(s.achievements.levelBadges) + Qualified(LevelBadges, s.player.level)
    ensures NoDup(s.achievements.levelBadges) ==> NoDup(r.achievements.levelBadges)
    ensures IsPrefix(s.logs, r.logs)
  {
    var held := s.achievements.levelBadges;
    var added := MissingBadges(s.player.level, Elems(held));
    var badges := held + added;
    assert Elems(badges) == Elems(held) + Elems(added);
    assert NoDup(held) ==> NoDup(badges) by {
      if NoDup(held) { NoDupConcat(held, added); }
    }
    var events := BadgeEvents(added);
    PrefixExtend(held, held, added);
    PrefixExtend(s.logs, s.logs, events);
    s.(achievements := s.achievements.(levelBadges := badges), logs := s.logs + events)
  }

  /** One unlock event per newly awarded badge, in award order. */
  function BadgeEvents(names: seq<Badge>): (r: seq<LogEvent>)
    ensures |r| == |names|
    ensures forall i :: 0 <= i < |names| ==> r[i] == BadgeUnlocked(names[i])
  {
    if names == [] then [] else [BadgeUnlocked(names[0])] + BadgeEvents(names[1..])
  }

  /** `add_xp`: a non-positive amount changes nothing; otherwise the XP is added,
      the level-up loop runs, and when at least one level was gained the level-up
      is logged and the level badges are updated. */
  function AddXp(s: State, amount: int): (r: State)
    requires s.player.xpForNext > 0
    ensures amount <= 0 ==> r == s
    ensures Credited(s.player, amount, 0, r.player)
    ensures amount > 0 && s.player.xp >= 0 ==> 0 <= r.player.xp < r.player.xpForNext
    ensures BadgesFollow(s.achievements, s.player.level, r.player.level, r.achievements)
    ensures r == s.(player := r.player, achievements := r.achievements, logs := r.logs)
    ensures IsPrefix(s.logs, r.logs)
  {
    if amount <= 0 then
      s
    else
      var (p, leveled) := Climb(s.player.(xp := s.player.xp + amount));
      if leveled > 0 then
        var s1 := s.(player := p, logs := s.logs + [LevelUp(leveled, LevelMinutesBonus * leveled)]);
        MaybeAddLevelBadge(s1)
      else
        s.(player := p)
  }

  /** The XP bar stays in range, the level and bank never drop, and the badge
      bookkeeping stays complete. */
  lemma AddXpPreservesValid(s: State, amount: int)
    requires Valid(s)
    ensures Valid(AddXp(s, amount))
    ensures AddXp(s, amount).player.level >= s.player.level
    ensures AddXp(s, amount).player.minutesBank >= s.player.minutesBank
  {
    var r := AddXp(s, amount);
    if r.player.level == s.player.level {
      assert r.achievements == s.achievements;
    } else {
      assert Qualified(LevelBadges, r.player.level) <= Elems(r.achievements.levelBadges);
    }
  }

  /** A worked example: level 1 with threshold 100 gaining 250 XP
      levels up twice (paying 100, then 125) and ends at level 3 with 25 XP, a
      threshold of ceil(156.25) = 157 and 10 extra play minutes. */
  lemma AddXpExample(s: State)
    requires s.player.level == 1 && s.player.xp == 0 && s.player.xpForNext == 100
    ensures var r := AddXp(s, 250);
      && r.player.level == 3
      && r.player.xp == 25
      && r.player.xpForNext == 157
      && r.player.minutesBank == s.player.minutesBank + 10
  {
    var r := AddXp(s, 250);
    var k := r.player.level - s.player.level;
    assert Cost(100, 0) == 0;
    assert Cost(100, 1) == 100;
    assert Cost(100, 2) == 225 by { assert NextThreshold(100) == 125; }
    assert Cost(100, 3) == 382 by { assert NextThreshold(125) == 157; }
    ClimbCountIsMaximal(s.player.(xp := 250), 2);
    ClimbCountIsMaximal(s.player.(xp := 250), 3);
    assert k == 2;
  }
}
