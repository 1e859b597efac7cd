/** Challenges (backend/app/Models/Rewards/RewardChallenge.php): the time window, capacity,
    remaining time, participant lookups and the availability scope. */
module Challenges {
  import opened Wrappers
  import Seqs

  const Daily := "daily"
  const Weekly := "weekly"
  const Monthly := "monthly"
  const Special := "special"
  const Individual := "individual"
  const Team := "team"

  const Easy := "easy"
  const Medium := "medium"
  const Hard := "hard"
  const Expert := "expert"

  /** One entry of the `objectives` array; only its `target` is read by the model. */
  datatype Objective = Objective(target: Option<int>)

  /** A row of reward_challenges; times are seconds. */
  datatype Challenge = Challenge(
    id: int,
    kind: string,
    difficulty: string,
    pointsReward: int,
    xpReward: int,
    badgeRewardId: Option<int>,
    objectives: Option<seq<Objective>>,
    maxParticipants: Option<int>,
    startsAt: Option<int>,
    endsAt: Option<int>,
    isActive: bool,
    isFeatured: bool,
    sortOrder: int)

  /** A new challenge with the attribute defaults. */
  function NewChallenge(id: int, objectives: Option<seq<Objective>>, maxParticipants: Option<int>,
                        startsAt: Option<int>, endsAt: Option<int>): (c: Challenge)
    ensures c.id == id && c.objectives == objectives && c.maxParticipants == maxParticipants
    ensures c.startsAt == startsAt && c.endsAt == endsAt
    ensures c.kind == Individual && c.difficulty == Medium
    ensures c.pointsReward == 0 && c.xpReward == 0 && c.sortOrder == 0
    ensures c.isActive && !c.isFeatured && c.badgeRewardId.None?
  {
    Challenge(id, Individual, Medium, 0, 0, None, objectives, maxParticipants, startsAt, endsAt, true, false, 0)
  }

  /** A row of reward_challenge_participations as the counting queries see it. */
  datatype ParticipationRow = ParticipationRow(id: int, challengeId: int, rewardUserId: int, completedAt: Option<int>)

  /** `is_current`: active, and `now` inside the window, both ends included. */
  predicate IsCurrent(c: Challenge, now: int) {
    var afterStart := c.startsAt.None? || c.startsAt.value <= now;
    var beforeEnd := c.endsAt.None? || c.endsAt.value >= now;
    c.isActive && afterStart && beforeEnd
  }

  /** The participations of `c`. */
  function Participations(c: Challenge, rows: seq<ParticipationRow>): (r: seq<ParticipationRow>)
    ensures forall p :: p in r <==> p in rows && p.challengeId == c.id
  {
    Seqs.Filter(rows, (p: ParticipationRow) => p.challengeId == c.id)
  }

  /** `participant_count`. */
  function ParticipantCount(c: Challenge, rows: seq<ParticipationRow>): nat {
    |Participations(c, rows)|
  }

  /** `completion_count`: participations with a completion stamp. */
  function CompletionCount(c: Challenge, rows: seq<ParticipationRow>): nat {
    |Seqs.Filter(Participations(c, rows), (p: ParticipationRow) => p.completedAt.Some?)|
  }

  /** No more participations can be complete than there are participations. */
  lemma CompletionsWithinParticipants(c: Challenge, rows: seq<ParticipationRow>)
    ensures CompletionCount(c, rows) <= ParticipantCount(c, rows)
  {
  }

  /** `has_spots`: no cap, or fewer participants than the cap. */
  predicate HasSpots(c: Challenge, rows: seq<ParticipationRow>) {
    if c.maxParticipants.None? then true
    else ParticipantCount(c, rows) < c.maxParticipants.value
  }

  /** `remaining_time`: null without an end, otherwise the seconds left, never negative. */
  function RemainingTime(c: Challenge, now: int): (r: Option<int>)
    ensures r.None? <==> c.endsAt.None?
    ensures r.Some? ==> r.value >= 0
    ensures r.Some? ==> (r.value == 0 <==> c.endsAt.value <= now)
    ensures r.Some? && r.value > 0 ==> now + r.value == c.endsAt.value
  {
    if c.endsAt.None? then None
    else
      var diff := c.endsAt.value - now;
      Some(if diff > 0 then diff else 0)
  }

  /** Time still left in the window never exceeds what was left earlier. */
  lemma RemainingTimeShrinks(c: Challenge, earlier: int, later: int)
    requires earlier <= later && c.endsAt.Some?
    ensures RemainingTime(c, later).value <= RemainingTime(c, earlier).value
  {
  }

  /** `hasParticipant(user)`: some participation of `c` belongs to the user. */
  predicate HasParticipant(c: Challenge, rows: seq<ParticipationRow>, rewardUserId: int) {
    exists i :: 0 <= i < |rows| && rows[i].challengeId == c.id && rows[i].rewardUserId == rewardUserId
  }

  /** `getParticipation(user)`: the first participation of `c` that belongs to the user. */
  function GetParticipation(c: Challenge, rows: seq<ParticipationRow>, rewardUserId: int): (r: Option<ParticipationRow>)
    ensures r.Some? ==> r.value in rows && r.value.challengeId == c.id && r.value.rewardUserId == rewardUserId
  {
    if rows == [] then None
    else if rows[0].challengeId == c.id && rows[0].rewardUserId == rewardUserId then Some(rows[0])
    else GetParticipation(c, rows[1..], rewardUserId)
  }

  /** `getParticipation` finds nothing exactly when `hasParticipant` is false. */
  lemma {:induction false} GetParticipationIffHas(c: Challenge, rows: seq<ParticipationRow>, rewardUserId: int)
    ensures GetParticipation(c, rows, rewardUserId).None? <==> !HasParticipant(c, rows, rewardUserId)
  {
    if rows != [] {
      GetParticipationIffHas(c, rows[1..], rewardUserId);
      if HasParticipant(c, rows[1..], rewardUserId) {
        var i :| 0 <= i < |rows[1..]| && rows[1..][i].challengeId == c.id && rows[1..][i].rewardUserId == rewardUserId;
        assert rows[i + 1] == rows[1..][i];
      }
      if HasParticipant(c, rows, rewardUserId) && !(rows[0].challengeId == c.id && rows[0].rewardUserId == rewardUserId) {
        var i :| 0 <= i < |rows| && rows[i].challengeId == c.id && rows[i].rewardUserId == rewardUserId;
        assert rows[1..][i - 1] == rows[i];
      }
    }
  }

  /** `scopeActive`. */
  function ScopeActive(cs: seq<Challenge>): seq<Challenge> {
    Seqs.Filter(cs, (c: Challenge) => c.isActive)
  }

  /** `scopeCurrent`: the window clauses only; the active flag is not part of this scope. */
  function ScopeCurrent(cs: seq<Challenge>, now: int): seq<Challenge> {
    Seqs.Filter(cs, (c: Challenge) =>
      (c.startsAt.None? || c.startsAt.value <= now) && (c.endsAt.None? || c.endsAt.value >= now))
  }

  /** `scopeAvailable`: active, current, and no cap or a participant count below it. */
  function ScopeAvailable(cs: seq<Challenge>, rows: seq<ParticipationRow>, now: int): seq<Challenge> {
    Seqs.Filter(ScopeCurrent(ScopeActive(cs), now), (c: Challenge) =>
      c.maxParticipants.None? || ParticipantCount(c, rows) < c.maxParticipants.value)
  }

  /** The chain of query clauses keeps, in order, exactly the challenges that are current and
      have spots. */
  lemma ScopeAvailableMatchesAccessors(cs: seq<Challenge>, rows: seq<ParticipationRow>, now: int)
    ensures ScopeAvailable(cs, rows, now) == Seqs.Filter(cs, (c: Challenge) => IsCurrent(c, now) && HasSpots(c, rows))
    ensures forall c :: c in ScopeAvailable(cs, rows, now) <==> c in cs && IsCurrent(c, now) && HasSpots(c, rows)
  {
    var active := (c: Challenge) => c.isActive;
    var window := (c: Challenge) =>
      (c.startsAt.None? || c.startsAt.value <= now) && (c.endsAt.None? || c.endsAt.value >= now);
    var spots := (c: Challenge) => c.maxParticipants.None? || ParticipantCount(c, rows) < c.maxParticipants.value;
    var current := (c: Challenge) => IsCurrent(c, now);
    var available := (c: Challenge) => IsCurrent(c, now) && HasSpots(c, rows);
    Seqs.FilterTwice(cs, active, window, current);
    Seqs.FilterTwice(cs, current, spots, available);
  }
}
