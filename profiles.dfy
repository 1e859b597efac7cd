/** Reward profiles (backend/app/Models/Rewards/RewardUser.php): attribute defaults,
    find-or-create over the profile store, affordability, level progress, streak bonus
    and badge ownership. */
module Profiles {
  import opened Wrappers
  import Badges

  /** A row of reward_users. `id` is the row's own key, `userId` the CRM user it belongs to. */
  datatype Profile = Profile(
    id: int,
    userId: int,
    level: int,
    experiencePoints: int,
    totalPoints: int,
    lifetimePoints: int,
    currentStreak: int,
    longestStreak: int)

  /** A profile as `findOrCreateForUser` creates it: level 1, every counter zero. */
  function NewProfile(id: int, userId: int): (p: Profile)
    ensures p.id == id && p.userId == userId && p.level == 1
    ensures p.experiencePoints == 0 && p.totalPoints == 0 && p.lifetimePoints == 0
    ensures p.currentStreak == 0 && p.longestStreak == 0
  {
    Profile(id, userId, 1, 0, 0, 0, 0, 0)
  }

  /** `canAfford(points)`. */
  predicate CanAfford(p: Profile, points: int) {
    p.totalPoints >= points
  }

  /** Affordability is a threshold on the balance: the balance itself is the largest cost a
      profile can afford, and any cheaper cost is affordable too. */
  lemma AffordableCostsDownwardClosed(p: Profile, points: int, cheaper: int)
    requires cheaper <= points
    ensures CanAfford(p, points) ==> CanAfford(p, cheaper)
    ensures CanAfford(p, p.totalPoints) && !CanAfford(p, p.totalPoints + 1)
  {
  }

  /** `level_progress`, given the XP needed for the next level (`xp_for_next_level`, a
      floating-point curve the model takes as an input); exact, without the 2-decimal rounding. */
  function LevelProgress(p: Profile, xpForNext: int): (r: real)
    ensures xpForNext <= 0 ==> r == 100.0
    ensures r <= 100.0
    ensures xpForNext > 0 && p.experiencePoints >= 0 ==> 0.0 <= r
    ensures xpForNext > 0 ==> (r == 100.0 <==> p.experiencePoints >= xpForNext)
  {
    if xpForNext <= 0 then 100.0
    else
      var ratio := p.experiencePoints as real / xpForNext as real * 100.0;
      RatioFacts(p.experiencePoints, xpForNext);
      if ratio < 100.0 then ratio else 100.0
  }

  lemma RatioFacts(xp: int, x: int)
    requires x > 0
    ensures xp >= 0 ==> xp as real / x as real * 100.0 >= 0.0
    ensures xp as real / x as real * 100.0 >= 100.0 <==> xp >= x
  {
    var q := xp as real / x as real;
    assert q * x as real == xp as real;
  }

  /** One entry of the configured streak bonuses: from `days` consecutive days on, `multiplier`. */
  datatype BonusTier = BonusTier(days: int, multiplier: real)

  /** The bonus a streak earns: the multiplier of the last tier, in configuration order,
      whose `days` the streak reaches; 0 when none does. */
  function StreakBonus(tiers: seq<BonusTier>, streak: int): real
  {
    if tiers == [] then 0.0
    else if streak >= tiers[|tiers| - 1].days then tiers[|tiers| - 1].multiplier
    else StreakBonus(tiers[..|tiers| - 1], streak)
  }

  /** `streak_bonus`: the loop over the configured tiers, keeping the last one reached. */
  method GetStreakBonus(p: Profile, tiers: seq<BonusTier>) returns (bonus: real)
    ensures bonus == StreakBonus(tiers, p.currentStreak)
  {
    bonus := 0.0;
    var i := 0;
    while i < |tiers|
      invariant 0 <= i <= |tiers|
      invariant bonus == StreakBonus(tiers[..i], p.currentStreak)
    {
      assert tiers[..i + 1][..i] == tiers[..i];
      if p.currentStreak >= tiers[i].days {
        bonus := tiers[i].multiplier;
      }
      i := i + 1;
    }
    assert tiers[..i] == tiers;
  }

  /** No tier reached: no bonus. */
  lemma {:induction false} StreakBonusNoneReached(tiers: seq<BonusTier>, streak: int)
    requires forall i :: 0 <= i < |tiers| ==> streak < tiers[i].days
    ensures StreakBonus(tiers, streak) == 0.0
  {
    if tiers != [] {
      var front := tiers[..|tiers| - 1];
      assert forall i :: 0 <= i < |front| ==> front[i] == tiers[i];
      StreakBonusNoneReached(front, streak);
    }
  }

  /** The bonus is the multiplier of the last tier reached, whatever the order of the tiers. */
  lemma {:induction false} StreakBonusLastReached(tiers: seq<BonusTier>, streak: int, k: int)
    requires 0 <= k < |tiers| && streak >= tiers[k].days
    requires forall j :: k < j < |tiers| ==> streak < tiers[j].days
    ensures StreakBonus(tiers, streak) == tiers[k].multiplier
  {
    var n := |tiers| - 1;
    if k < n {
      var front := tiers[..n];
      assert front[k] == tiers[k];
      assert forall j :: k < j < |front| ==> front[j] == tiers[j];
      StreakBonusLastReached(front, streak, k);
    }
  }

  /** `hasBadge(badge)`: a user-badge row of this profile for that badge exists. */
  predicate HasBadge(p: Profile, rows: seq<Badges.UserBadgeRow>, badgeId: int) {
    exists i :: 0 <= i < |rows| && rows[i].rewardUserId == p.id && rows[i].rewardBadgeId == badgeId
  }

  /** `hasBadge` on the profile and `isEarnedBy` on the badge ask the same question. */
  lemma HasBadgeIffEarned(p: Profile, b: Badges.Badge, rows: seq<Badges.UserBadgeRow>)
    ensures HasBadge(p, rows, b.id) <==> Badges.IsEarnedBy(b, rows, p.id)
  {
  }

  /** Profile `userId`s are pairwise distinct, and so are row ids. */
  ghost predicate UniqueUsers(profiles: seq<Profile>) {
    forall i, j :: 0 <= i < j < |profiles| ==> profiles[i].userId != profiles[j].userId && profiles[i].id != profiles[j].id
  }

  /** The first profile of the user, if any (`firstOrCreate`'s lookup). */
  function FindByUserId(profiles: seq<Profile>, userId: int): (r: Option<Profile>)
    ensures r.None? <==> forall i :: 0 <= i < |profiles| ==> profiles[i].userId != userId
    ensures r.Some? ==> r.value in profiles && r.value.userId == userId
  {
    if profiles == [] then None
    else if profiles[0].userId == userId then Some(profiles[0])
    else FindByUserId(profiles[1..], userId)
  }

  /** The store after a find-or-create, and the profile handed back. */
  datatype Lookup = Lookup(profiles: seq<Profile>, nextId: int, profile: Profile)

  /** `findOrCreateForUser`: the existing profile of the user, or a new one with the
      defaults, appended under the next row id. */
  function FindOrCreate(profiles: seq<Profile>, nextId: int, userId: int): Lookup
  {
    match FindByUserId(profiles, userId)
    case Some(p) => Lookup(profiles, nextId, p)
    case None => Lookup(profiles + [NewProfile(nextId, userId)], nextId + 1, NewProfile(nextId, userId))
  }

  /** Row ids stay below the next id to hand out. */
  ghost predicate IdsBelow(profiles: seq<Profile>, nextId: int) {
    forall i :: 0 <= i < |profiles| ==> profiles[i].id < nextId
  }

  /** Find-or-create returns a profile of the user; it leaves the store alone when the user
      has one, and otherwise adds exactly one default profile; one profile per user stays true. */
  lemma FindOrCreateContract(profiles: seq<Profile>, nextId: int, userId: int)
    requires UniqueUsers(profiles) && IdsBelow(profiles, nextId)
    ensures var l := FindOrCreate(profiles, nextId, userId);
      && l.profile.userId == userId
      && l.profile in l.profiles
      && UniqueUsers(l.profiles) && IdsBelow(l.profiles, l.nextId)
      && ((exists i :: 0 <= i < |profiles| && profiles[i].userId == userId)
            ==> l.profiles == profiles && l.nextId == nextId && l.profile in profiles)
      && ((forall i :: 0 <= i < |profiles| ==> profiles[i].userId != userId)
            ==> l.profiles == profiles + [NewProfile(nextId, userId)] && l.nextId == nextId + 1)
  {
  }

  /** A second find-or-create for the same user changes nothing and returns the same profile. */
  lemma FindOrCreateIdempotent(profiles: seq<Profile>, nextId: int, userId: int)
    requires UniqueUsers(profiles)
    ensures var l := FindOrCreate(profiles, nextId, userId);
      FindOrCreate(l.profiles, l.nextId, userId) == l
  {
    var l := FindOrCreate(profiles, nextId, userId);
    if FindByUserId(profiles, userId).None? {
      FindFirstOfAppend(profiles, NewProfile(nextId, userId), userId);
    }
  }

  lemma {:induction false} FindFirstOfAppend(profiles: seq<Profile>, p: Profile, userId: int)
    requires FindByUserId(profiles, userId).None? && p.userId == userId
    ensures FindByUserId(profiles + [p], userId) == Some(p)
  {
    if profiles != [] {
      assert (profiles + [p])[1..] == profiles[1..] + [p];
      FindFirstOfAppend(profiles[1..], p, userId);
    }
  }

  /** The reward_users table. */
  class ProfileStore {
    var profiles: seq<Profile>
    var nextId: int

    ghost predicate Valid()
      reads this
    {
      UniqueUsers(profiles) && IdsBelow(profiles, nextId)
    }

    constructor ()
      ensures Valid() && profiles == [] && nextId == 1
    {
      profiles := [];
      nextId := 1;
    }

    /** `findOrCreateForUser(user)`. */
    method FindOrCreateForUser(userId: int) returns (p: Profile)
      requires Valid()
      modifies this
      ensures Valid()
      ensures FindOrCreate(old(profiles), old(nextId), userId) == Lookup(profiles, nextId, p)
    {
      FindOrCreateContract(profiles, nextId, userId);
      var found := FindByUserId(profiles, userId);
      if found.Some? {
        p := found.value;
      } else {
        p := NewProfile(nextId, userId);
        profiles := profiles + [p];
        nextId := nextId + 1;
      }
    }
  }
}
