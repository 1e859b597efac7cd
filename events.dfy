/** The streak and level events (backend/app/Events/Rewards/StreakUpdated.php and
    backend/app/Events/Rewards/LevelUp.php): values built once around a profile and read
    through their getters. */
module Events {
  import Php
  import Profiles

  /** `StreakUpdated`; the free-form `context` array is not modelled. */
  datatype StreakUpdated = StreakUpdated(
    profile: Profiles.Profile,
    previousStreak: int,
    currentStreak: int,
    isNewRecord: bool)

  /** The constructor, with `isNewRecord` false unless given. */
  function NewStreakUpdated(profile: Profiles.Profile, previousStreak: int, currentStreak: int,
                            isNewRecord: bool := false): (e: StreakUpdated)
    ensures e.profile == profile && e.previousStreak == previousStreak && e.currentStreak == currentStreak
    ensures e.isNewRecord == isNewRecord
  {
    StreakUpdated(profile, previousStreak, currentStreak, isNewRecord)
  }

  /** The streak lengths, in days, that count as milestones. */
  const StreakMilestones: seq<int> := [7, 14, 30, 60, 100]

  /** `StreakUpdated::getUserId`. */
  function StreakUserId(e: StreakUpdated): int {
    e.profile.userId
  }

  /** `wasStreakBroken`: the streak got shorter. */
  predicate WasStreakBroken(e: StreakUpdated) {
    e.currentStreak < e.previousStreak
  }

  /** `StreakUpdated::isMilestone`: the new streak is one of the listed lengths. */
  predicate IsStreakMilestone(e: StreakUpdated) {
    e.currentStreak in StreakMilestones
  }

  /** `getLongestStreak`: the carried profile's record. */
  function LongestStreak(e: StreakUpdated): int {
    e.profile.longestStreak
  }

  /** The milestones are exactly the five listed lengths: between two neighbours nothing counts,
      so no arithmetic rule reproduces the list. */
  lemma StreakMilestoneExactly(e: StreakUpdated)
    ensures IsStreakMilestone(e) <==>
      e.currentStreak == 7 || e.currentStreak == 14 || e.currentStreak == 30
      || e.currentStreak == 60 || e.currentStreak == 100
    ensures IsStreakMilestone(e) ==> 7 <= e.currentStreak <= 100
  {
  }

  /** Of an event and the one with the two streaks swapped, at most one reports a break, and
      neither does exactly when the streak stayed the same. */
  lemma StreakBrokenOneWay(e: StreakUpdated)
    ensures var back := e.(previousStreak := e.currentStreak, currentStreak := e.previousStreak);
      && !(WasStreakBroken(e) && WasStreakBroken(back))
      && (!WasStreakBroken(e) && !WasStreakBroken(back) <==> e.currentStreak == e.previousStreak)
  {
  }

  /** `LevelUp`; the free-form `context` array is not modelled. */
  datatype LevelUp = LevelUp(profile: Profiles.Profile, previousLevel: int, newLevel: int)

  /** `LevelUp::getUserId`. */
  function LevelUserId(e: LevelUp): int {
    e.profile.userId
  }

  /** `getLevelsGained`: the step from the old level to the new one. */
  function LevelsGained(e: LevelUp): (g: int)
    ensures e.previousLevel + g == e.newLevel
    ensures g > 0 <==> e.newLevel > e.previousLevel
  {
    e.newLevel - e.previousLevel
  }

  /** `LevelUp::isMilestone`, with PHP's remainder. */
  predicate IsLevelMilestone(e: LevelUp) {
    Php.TruncMod(e.newLevel, 10) == 0
  }

  /** `getCurrentXp`: the carried profile's experience. */
  function CurrentXp(e: LevelUp): int {
    e.profile.experiencePoints
  }

  /** A level is a milestone exactly when it is a multiple of ten, negative levels included:
      PHP's remainder and the mathematical one vanish together. */
  lemma LevelMilestoneIffMultipleOfTen(e: LevelUp)
    ensures IsLevelMilestone(e) <==> e.newLevel % 10 == 0
    ensures IsLevelMilestone(e) <==> exists k :: k * 10 == e.newLevel
  {
    var n := e.newLevel;
    if n < 0 {
      var q := (-n) / 10;
      assert -n == q * 10 + (-n) % 10;
      assert n == (-q) * 10 - (-n) % 10;
      if (-n) % 10 == 0 {
        assert (-q) * 10 == n;
      } else {
        assert n == (-q - 1) * 10 + (10 - (-n) % 10);
        assert n % 10 == 10 - (-n) % 10;
      }
    } else {
      assert n == (n / 10) * 10 + n % 10;
    }
    if exists k :: k * 10 == n {
      var k :| k * 10 == n;
      assert n % 10 == 0;
    }
  }

  /** A streak event raised for the profile that find-or-create hands back names that user,
      and for a user seen for the first time reports no record streak. */
  lemma StreakEventOfFoundProfile(profiles: seq<Profiles.Profile>, nextId: int, userId: int,
                                  previousStreak: int, currentStreak: int)
    requires Profiles.UniqueUsers(profiles) && Profiles.IdsBelow(profiles, nextId)
    ensures var e := NewStreakUpdated(Profiles.FindOrCreate(profiles, nextId, userId).profile, previousStreak, currentStreak);
      && StreakUserId(e) == userId && !e.isNewRecord
      && ((forall i :: 0 <= i < |profiles| ==> profiles[i].userId != userId) ==> LongestStreak(e) == 0)
  {
    Profiles.FindOrCreateContract(profiles, nextId, userId);
  }

  /** A level event raised for the profile that find-or-create hands back names that user, and
      for a user seen for the first time reports no experience. */
  lemma LevelEventOfFoundProfile(profiles: seq<Profiles.Profile>, nextId: int, userId: int,
                                 previousLevel: int, newLevel: int)
    requires Profiles.UniqueUsers(profiles) && Profiles.IdsBelow(profiles, nextId)
    ensures var e := LevelUp(Profiles.FindOrCreate(profiles, nextId, userId).profile, previousLevel, newLevel);
      && LevelUserId(e) == userId
      && ((forall i :: 0 <= i < |profiles| ==> profiles[i].userId != userId) ==> CurrentXp(e) == 0)
  {
    Profiles.FindOrCreateContract(profiles, nextId, userId);
  }
}
