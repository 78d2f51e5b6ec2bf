/** Experience points and levels: the six levels, the XP at which each is
    left, promotion when XP is gained, the level a given XP total reaches,
    and what the next level still costs. */
module Leveling {
  import opened Wrappers

  /** The levels, lowest first. */
  const Levels: seq<string> := ["Iron", "Bronze", "Silver", "Gold", "Platinum", "Diamond"]

  /** The XP at which a user leaves each level; Diamond's value stands for
      "never". */
  const XpThresholds: map<string, int> := map[
    "Iron" := 100, "Bronze" := 300, "Silver" := 700,
    "Gold" := 1500, "Platinum" := 3000, "Diamond" := 999999999]

  /** A dictionary lookup with a default, `XP_THRESHOLDS.get(level, default)`. */
  function ThresholdOr(level: string, default: int): int {
    if level in XpThresholds then XpThresholds[level] else default
  }

  /** The thresholds in level order. */
  const LevelThresholds: seq<int> := [100, 300, 700, 1500, 3000, 999999999]

  /** Looking a level's threshold up by name gives its entry in level order,
      whatever the default. */
  lemma ThresholdsInLevelOrder()
    ensures forall i, d :: 0 <= i < |Levels| ==> ThresholdOr(Levels[i], d) == LevelThresholds[i]
  {
    forall i, d | 0 <= i < |Levels| ensures ThresholdOr(Levels[i], d) == LevelThresholds[i] {
      assert Levels[i] in XpThresholds && XpThresholds[Levels[i]] == LevelThresholds[i];
    }
  }

  /** `xs.index(s)`: the first position of `s`, or `None` where Python
      raises `ValueError`. */
  function IndexIn(xs: seq<string>, s: string): (r: Option<nat>)
    ensures r.None? <==> s !in xs
    ensures r.Some? ==> r.value < |xs| && xs[r.value] == s && s !in xs[..r.value]
  {
    if xs == [] then None
    else if xs[0] == s then Some(0)
    else match IndexIn(xs[1..], s)
      case None => None
      case Some(i) => assert xs[1..][..i] == xs[1..i + 1]; Some(i + 1)
  }

  /** The level the XP table gives for an XP total: below 100 Iron, below
      300 Bronze, below 700 Silver, below 1500 Gold, below 3000 Platinum,
      Diamond from 3000 on. */
  function TableLevelIndex(xp: int): (i: nat)
    ensures i < |Levels|
    ensures i == 0 || xp >= LevelThresholds[i - 1]
    ensures i == |Levels| - 1 || xp < LevelThresholds[i]
  {
    if xp < 100 then 0
    else if xp < 300 then 1
    else if xp < 700 then 2
    else if xp < 1500 then 3
    else if xp < 3000 then 4
    else 5
  }

  /** More XP never gives a lower level. */
  lemma TableLevelMonotone(x: int, y: int)
    requires x <= y
    ensures TableLevelIndex(x) <= TableLevelIndex(y)
  {
  }

  /** The promotion loop of the XP gain: starting at index `i`, each met
      threshold moves one level up; it stops at the first unmet threshold
      and never moves past Diamond. */
  function PromotedIndex(i: nat, xp: int): (j: nat)
    requires i < |Levels|
    ensures i <= j < |Levels|
    ensures forall k :: i <= k < j ==> xp >= LevelThresholds[k]
    ensures j < |Levels| - 1 ==> xp < LevelThresholds[j]
    decreases |Levels| - i
  {
    if i < |Levels| - 1 && xp >= LevelThresholds[i] then PromotedIndex(i + 1, xp)
    else i
  }

  /** Promotion from index `i` ends at the higher of `i` and the level the
      XP table gives, so promoting from Iron computes the same level as
      `CalculateLevelFromXp`. */
  lemma {:induction false} PromotionReachesTableLevel(i: nat, xp: int)
    requires i < |Levels|
    ensures PromotedIndex(i, xp) == if i < TableLevelIndex(xp) then TableLevelIndex(xp) else i
    decreases |Levels| - i
  {
    if i < |Levels| - 1 && xp >= LevelThresholds[i] {
      PromotionReachesTableLevel(i + 1, xp);
    }
  }

  /** The level stored on a user, with `None` and the empty string read as
      Iron (`user.level or "Iron"`). */
  function StoredLevel(level: Option<string>): (s: string)
    ensures s != ""
    ensures level.Some? && level.value != "" ==> s == level.value
  {
    if level.None? || level.value == "" then "Iron" else level.value
  }

  /** The XP stored on a user, with `None` read as 0 (`user.xp or 0`). */
  function StoredXp(xp: Option<int>): int {
    if xp.None? then 0 else xp.value
  }

  /** The index the promotion loop starts from: the stored level's, or
      Iron's when the stored level is not a known one. */
  function StartIndex(level: string): (i: nat)
    ensures i < |Levels|
    ensures level in Levels ==> Levels[i] == level
    ensures level !in Levels ==> i == 0
  {
    match IndexIn(Levels, level)
    case None => 0
    case Some(i) => i
  }

  /** The XP total that reaches the levels: below zero is Iron, and then
      each threshold met moves one level up, Diamond keeping Diamond. */
  method CalculateLevelFromXp(xp: int) returns (level: string)
    ensures level == Levels[TableLevelIndex(xp)]
  {
    if xp < 0 {
      return "Iron";
    }
    level := "Iron";
    ThresholdsInLevelOrder();
    for k := 0 to |Levels|
      invariant k < |Levels| ==> level == Levels[k]
      invariant k == |Levels| ==> level == Levels[|Levels| - 1]
      invariant forall j :: 0 <= j < k ==> xp >= LevelThresholds[j]
    {
      // `LEVELS.index(level)` is `k`: the level names are distinct.
      var threshold := ThresholdOr(Levels[k], 999999999);
      if xp >= threshold {
        level := if k + 1 < |Levels| then Levels[k + 1] else Levels[k];
      } else {
        assert TableLevelIndex(xp) == k by {
          if k > 0 {
            assert xp >= LevelThresholds[k - 1];
          }
        }
        return;
      }
    }
    assert xp >= LevelThresholds[|Levels| - 2];
  }

  /** What the next level costs: the next level's name, the XP still
      missing (never negative) and the current level's threshold; nothing
      beyond Diamond; a stored level that is not a known one raises. */
  datatype NextLevel = NextLevel(next: Option<string>, xpToGo: int, required: int)

  datatype LevelError = UnknownLevel(level: string)

  function NextLevelInfo(level: Option<string>, xp: Option<int>): (r: Result<NextLevel, LevelError>)
    ensures r.Err? <==> StoredLevel(level) !in Levels
    ensures StoredLevel(level) == "Diamond" ==> r == Ok(NextLevel(None, 0, 0))
    ensures r.Ok? && StoredLevel(level) != "Diamond" ==>
      var i := StartIndex(StoredLevel(level));
      && i < |Levels| - 1
      && r.value.next == Some(Levels[i + 1])
      && r.value.required == LevelThresholds[i]
      && r.value.xpToGo >= 0
      && (r.value.xpToGo == 0 <==> StoredXp(xp) >= r.value.required)
      && (r.value.xpToGo > 0 ==> StoredXp(xp) + r.value.xpToGo == r.value.required)
  {
    var current := StoredLevel(level);
    var x := StoredXp(xp);
    var threshold := ThresholdOr(current, 0);
    if current == "Diamond" then Ok(NextLevel(None, 0, 0))
    else match IndexIn(Levels, current)
      case None => Err(UnknownLevel(current))
      case Some(i) =>
        ThresholdsInLevelOrder();
        Ok(NextLevel(Some(Levels[i + 1]), if threshold - x > 0 then threshold - x else 0, threshold))
  }

  /** `xpToGo` is exactly what a promotion costs: from a known level below
      Diamond, gaining a non-negative amount promotes at least one level if
      and only if the amount is at least `xpToGo`. */
  lemma NextLevelCost(level: Option<string>, xp: Option<int>, amount: int)
    requires amount >= 0
    requires NextLevelInfo(level, xp).Ok? && StoredLevel(level) != "Diamond"
    ensures var i := StartIndex(StoredLevel(level));
      PromotedIndex(i, StoredXp(xp) + amount) > i <==> amount >= NextLevelInfo(level, xp).value.xpToGo
  {
  }

  /** The account fields the XP gain updates. */
  class UserAccount {
    var xp: Option<int>
    var level: Option<string>

    constructor(xp: Option<int>, level: Option<string>)
      ensures this.xp == xp && this.level == level
    {
      this.xp := xp;
      this.level := level;
    }
  }

  /** Awards `amount` XP and promotes: no user gives false; otherwise the XP
      grows by `amount`, an unknown stored level is reset to Iron, the
      promotion loop runs from the stored level, and the result says whether
      it promoted at all. A level that was not promoted is written back
      only in the reset case. */
  method GainXp(user: UserAccount?, amount: int) returns (leveledUp: bool)
    modifies user
    ensures user == null ==> !leveledUp
    ensures user != null ==>
      var oldLevel := StoredLevel(old(user.level));
      var start := StartIndex(oldLevel);
      var final := PromotedIndex(start, StoredXp(old(user.xp)) + amount);
      && user.xp == Some(StoredXp(old(user.xp)) + amount)
      && (leveledUp <==> final > start)
      && user.level == (if leveledUp then Some(Levels[final])
                        else if oldLevel !in Levels then Some("Iron")
                        else old(user.level))
  {
    if user == null {
      return false;
    }
    var oldLevel := StoredLevel(user.level);
    user.xp := Some(StoredXp(user.xp) + amount);
    var newXp := StoredXp(user.xp);
    var start := 0;
    match IndexIn(Levels, oldLevel) {
      case None =>
        user.level := Some("Iron");
        start := 0;
      case Some(i) =>
        start := i;
    }
    var newLevel;
    leveledUp, newLevel := Promote(start, newXp, oldLevel);
    if leveledUp {
      user.level := Some(newLevel);
    }
  }

  /** The promotion loop of the XP gain, from level index `start` with the
      new XP total: whether any threshold was met, and the level reached
      (`current` when none was). */
  method Promote(start: nat, xp: int, current: string) returns (leveledUp: bool, newLevel: string)
    requires start < |Levels|
    ensures leveledUp <==> PromotedIndex(start, xp) > start
    ensures newLevel == if leveledUp then Levels[PromotedIndex(start, xp)] else current
  {
    leveledUp, newLevel := false, current;
    ThresholdsInLevelOrder();
    ghost var reached := start;
    for i := start to |Levels| - 1
      invariant reached == i
      invariant PromotedIndex(start, xp) == PromotedIndex(i, xp)
      invariant leveledUp <==> i > start
      invariant newLevel == if leveledUp then Levels[i] else current
    {
      var threshold := ThresholdOr(Levels[i], 999999);
      if xp >= threshold {
        newLevel := Levels[i + 1];
        leveledUp := true;
        reached := i + 1;
      } else {
        break;
      }
    }
    assert PromotedIndex(start, xp) == reached;
  }
}
