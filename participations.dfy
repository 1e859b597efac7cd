/** A user's entry in a challenge (backend/app/Models/Rewards/RewardChallengeParticipation.php):
    per-objective progress, completion and the progress percentage. */
module Participations {
  import opened Wrappers
  import Challenges

  const Active := "active"
  const Completed := "completed"
  const Failed := "failed"
  const Abandoned := "abandoned"

  /** The `progress` array: objective index to its `current` value, `None` when the entry has no
      usable `current`. A null array and an empty one behave alike everywhere, so both are `map[]`. */
  type Progress = map<int, Option<int>>

  /** `progress[index]['current'] ?? 0`. */
  function Current(progress: Progress, index: int): int {
    if index in progress then progress[index].GetOr(0) else 0
  }

  /** `objective['target'] ?? 1`. */
  function Target(o: Challenges.Objective): int {
    o.target.GetOr(1)
  }

  /** `challenge->objectives ?? []`, with no challenge loaded giving no objectives. */
  function ObjectivesOf(challenge: Option<Challenges.Challenge>): seq<Challenges.Objective> {
    if challenge.Some? && challenge.value.objectives.Some? then challenge.value.objectives.value else []
  }

  /** Every objective's `current` has reached its `target`; true when there are none. */
  predicate ObjectivesMet(objectives: seq<Challenges.Objective>, progress: Progress) {
    forall i :: 0 <= i < |objectives| ==> Current(progress, i) >= Target(objectives[i])
  }

  /** The progress percentage, or the division by zero a zero target raises. */
  datatype Percentage = Pct(value: real) | DivisionByZero

  /** `min(100, current / target * 100)` for a non-zero target. */
  function Share(current: int, target: int): (r: real)
    requires target != 0
    ensures r <= 100.0
    ensures target > 0 ==> (r == 100.0 <==> current >= target)
    ensures target > 0 && current >= 0 ==> r >= 0.0
  {
    var ratio := (current as real) / (target as real) * 100.0;
    ShareFacts(current, target);
    if ratio < 100.0 then ratio else 100.0
  }

  /** For a positive target the scaled ratio reaches 100 exactly when `current` reaches `target`. */
  lemma ShareFacts(current: int, target: int)
    requires target != 0
    ensures target > 0 ==> ((current as real) / (target as real) * 100.0 >= 100.0 <==> current >= target)
    ensures target > 0 && current >= 0 ==> (current as real) / (target as real) >= 0.0
  {
    if target > 0 {
      var q := (current as real) / (target as real);
      assert q * (target as real) == current as real;
      if current >= target {
        assert q >= 1.0;
      }
      if q >= 1.0 {
        assert q * (target as real) >= target as real;
      }
    }
  }

  /** The running total of the `foreach` after the first `n` objectives: the sum of their
      shares, or the division by zero the first zero target raises. */
  function SumShares(objectives: seq<Challenges.Objective>, progress: Progress, n: nat): Percentage
    requires n <= |objectives|
  {
    if n == 0 then Pct(0.0)
    else
      match SumShares(objectives, progress, n - 1)
      case DivisionByZero => DivisionByZero
      case Pct(total) =>
        var target := Target(objectives[n - 1]);
        if target == 0 then DivisionByZero
        else Pct(total + Share(Current(progress, n - 1), target))
  }

  /** Once a zero target has raised, the rest of the loop never runs. */
  lemma {:induction false} FaultPersists(objectives: seq<Challenges.Objective>, progress: Progress, k: nat, n: nat)
    requires k <= n <= |objectives| && SumShares(objectives, progress, k) == DivisionByZero
    ensures SumShares(objectives, progress, n) == DivisionByZero
  {
    if n > k {
      FaultPersists(objectives, progress, k, n - 1);
    }
  }

  /** `progress_percentage` before the 2-decimal rounding. */
  function PercentageOf(challenge: Option<Challenges.Challenge>, progress: Progress, status: string): Percentage {
    if |progress| == 0 || challenge.None? then Pct(0.0)
    else
      var objectives := ObjectivesOf(challenge);
      if |objectives| == 0 then (if status == Completed then Pct(100.0) else Pct(0.0))
      else
        match SumShares(objectives, progress, |objectives|)
        case DivisionByZero => DivisionByZero
        case Pct(total) => Pct(total / (|objectives| as real))
  }

  /** All targets among the first `n` objectives are positive. */
  predicate PositiveTargets(objectives: seq<Challenges.Objective>, n: nat)
    requires n <= |objectives|
  {
    forall i :: 0 <= i < n ==> Target(objectives[i]) > 0
  }

  /** All recorded `current` values are non-negative. */
  predicate NonNegativeProgress(progress: Progress) {
    forall i :: i in progress ==> progress[i].GetOr(0) >= 0
  }

  /** With positive targets the total never faults and lies between 0 and 100 per objective;
      it reaches exactly 100 per objective when every one of them is met. */
  lemma {:induction false} SumSharesBounds(objectives: seq<Challenges.Objective>, progress: Progress, n: nat)
    requires n <= |objectives| && PositiveTargets(objectives, n)
    ensures SumShares(objectives, progress, n).Pct?
    ensures SumShares(objectives, progress, n).value <= 100.0 * (n as real)
    ensures NonNegativeProgress(progress) ==> SumShares(objectives, progress, n).value >= 0.0
    ensures SumShares(objectives, progress, n).value == 100.0 * (n as real)
        <==> forall i :: 0 <= i < n ==> Current(progress, i) >= Target(objectives[i])
  {
    if n > 0 {
      SumSharesBounds(objectives, progress, n - 1);
      var target := Target(objectives[n - 1]);
      var current := Current(progress, n - 1);
      var share := Share(current, target);
      var prior := SumShares(objectives, progress, n - 1).value;
      assert SumShares(objectives, progress, n).value == prior + share;
      if NonNegativeProgress(progress) {
        assert current >= 0 by {
          if n - 1 in progress {
            assert progress[n - 1].GetOr(0) >= 0;
          }
        }
      }
      assert prior + share == 100.0 * (n as real) <==> prior == 100.0 * ((n - 1) as real) && share == 100.0;
    }
  }

  /** Progress percentage stays within [0, 100] when targets are positive and progress is
      non-negative. */
  lemma PercentageBounds(challenge: Option<Challenges.Challenge>, progress: Progress, status: string)
    requires PositiveTargets(ObjectivesOf(challenge), |ObjectivesOf(challenge)|)
    requires NonNegativeProgress(progress)
    ensures PercentageOf(challenge, progress, status).Pct?
    ensures 0.0 <= PercentageOf(challenge, progress, status).value <= 100.0
  {
    var objectives := ObjectivesOf(challenge);
    SumSharesBounds(objectives, progress, |objectives|);
  }

  /** With progress recorded, at least one objective and positive targets, the percentage is
      100 exactly when every objective is met. */
  lemma FullIffMet(challenge: Option<Challenges.Challenge>, progress: Progress, status: string)
    requires |progress| > 0 && |ObjectivesOf(challenge)| > 0
    requires PositiveTargets(ObjectivesOf(challenge), |ObjectivesOf(challenge)|)
    ensures PercentageOf(challenge, progress, status) == Pct(100.0)
        <==> ObjectivesMet(ObjectivesOf(challenge), progress)
  {
    var objectives := ObjectivesOf(challenge);
    var n := |objectives|;
    SumSharesBounds(objectives, progress, n);
    var total := SumShares(objectives, progress, n).value;
    assert total / (n as real) == 100.0 <==> total == 100.0 * (n as real);
  }

  /** A negative target is met by a zero `current`, yet contributes nothing to the percentage:
      "all met" does not give 100 without positive targets. */
  lemma NegativeTargetMetButNotFull()
    ensures var challenge := Some(Challenges.NewChallenge(1, Some([Challenges.Objective(Some(-1))]), None, None, None));
      var progress := map[0 := Some(0)];
      ObjectivesMet(ObjectivesOf(challenge), progress)
      && PercentageOf(challenge, progress, Active) == Pct(0.0)
  {
    var challenge := Some(Challenges.NewChallenge(1, Some([Challenges.Objective(Some(-1))]), None, None, None));
    var progress := map[0 := Some(0)];
    assert |progress| == 1;
    assert SumShares(ObjectivesOf(challenge), progress, 1) == Pct(0.0);
  }

  /** A zero target is met by any non-negative `current`, while the percentage divides by it. */
  lemma ZeroTargetMetButFaults()
    ensures var challenge := Some(Challenges.NewChallenge(1, Some([Challenges.Objective(Some(0))]), None, None, None));
      var progress := map[0 := Some(3)];
      ObjectivesMet(ObjectivesOf(challenge), progress)
      && PercentageOf(challenge, progress, Active) == DivisionByZero
  {
    var challenge := Some(Challenges.NewChallenge(1, Some([Challenges.Objective(Some(0))]), None, None, None));
    var progress := map[0 := Some(3)];
    assert |progress| == 1;
  }

  /** Setting index `i` to `v` creates it if needed and changes no other index. */
  lemma UpdateTouchesOnlyIndex(progress: Progress, i: int, v: int)
    ensures Current(progress[i := Some(v)], i) == v
    ensures forall j :: j != i ==> Current(progress[i := Some(v)], j) == Current(progress, j)
  {
  }

  /** Incrementing index `i` by `a` adds `a` to its `current` (missing counting as 0) and changes
      no other index. */
  lemma IncrementTouchesOnlyIndex(progress: Progress, i: int, a: int)
    ensures Current(progress[i := Some(Current(progress, i) + a)], i) == Current(progress, i) + a
    ensures forall j :: j != i ==> Current(progress[i := Some(Current(progress, i) + a)], j) == Current(progress, j)
  {
  }

  /** A row of reward_challenge_participations with its loaded challenge. */
  class Participation {
    const challengeId: int
    const rewardUserId: int
    const challenge: Option<Challenges.Challenge>
    var progress: Progress
    var status: string
    var completedAt: Option<int>

    /** A participation that has just joined: status `active`, no progress, not completed. */
    constructor (challengeId: int, rewardUserId: int, challenge: Option<Challenges.Challenge>)
      ensures this.challengeId == challengeId && this.rewardUserId == rewardUserId && this.challenge == challenge
      ensures progress == map[] && status == Active && completedAt.None?
    {
      this.challengeId := challengeId;
      this.rewardUserId := rewardUserId;
      this.challenge := challenge;
      progress := map[];
      status := Active;
      completedAt := None;
    }

    /** `is_completed`. */
    predicate IsCompleted()
      reads this
    {
      status == Completed
    }

    /** `is_active`. */
    predicate IsActive()
      reads this
    {
      status == Active
    }

    /** `updateObjectiveProgress(index, value)`. */
    method UpdateObjectiveProgress(index: int, value: int)
      modifies this
      ensures progress == old(progress)[index := Some(value)]
      ensures status == old(status) && completedAt == old(completedAt)
    {
      var p := progress;
      if index !in p || p[index].None? {
        p := p[index := Some(0)];
      }
      p := p[index := Some(value)];
      progress := p;
    }

    /** `incrementObjectiveProgress(index, amount)`, one by default. */
    method IncrementObjectiveProgress(index: int, amount: int := 1)
      modifies this
      ensures progress == old(progress)[index := Some(Current(old(progress), index) + amount)]
      ensures status == old(status) && completedAt == old(completedAt)
    {
      var p := progress;
      if index !in p || p[index].None? {
        p := p[index := Some(0)];
      }
      p := p[index := Some(p[index].GetOr(0) + amount)];
      progress := p;
    }

    /** `markCompleted()` at time `now`. */
    method MarkCompleted(now: int)
      modifies this
      ensures status == Completed && completedAt == Some(now)
      ensures progress == old(progress)
    {
      status := Completed;
      completedAt := Some(now);
    }

    /** `progress_percentage`: the `foreach` that accumulates `totalProgress`. */
    method ProgressPercentage() returns (r: Percentage)
      ensures r == PercentageOf(challenge, progress, status)
    {
      if |progress| == 0 || challenge.None? {
        return Pct(0.0);
      }
      var objectives := ObjectivesOf(challenge);
      if |objectives| == 0 {
        return if IsCompleted() then Pct(100.0) else Pct(0.0);
      }
      var totalProgress := 0.0;
      var index := 0;
      while index < |objectives|
        invariant 0 <= index <= |objectives|
        invariant SumShares(objectives, progress, index) == Pct(totalProgress)
      {
        var target := Target(objectives[index]);
        var current := Current(progress, index);
        if target == 0 {
          FaultPersists(objectives, progress, index + 1, |objectives|);
          return DivisionByZero;
        }
        totalProgress := totalProgress + Share(current, target);
        index := index + 1;
      }
      return Pct(totalProgress / (|objectives| as real));
    }

    /** `areObjectivesMet()`: the loop with its early `return false`. */
    method AreObjectivesMet() returns (met: bool)
      ensures met <==> ObjectivesMet(ObjectivesOf(challenge), progress)
    {
      var objectives := ObjectivesOf(challenge);
      var index := 0;
      while index < |objectives|
        invariant 0 <= index <= |objectives|
        invariant forall i :: 0 <= i < index ==> Current(progress, i) >= Target(objectives[i])
      {
        if Current(progress, index) < Target(objectives[index]) {
          return false;
        }
        index := index + 1;
      }
      return true;
    }
  }

  /** Two objectives with targets 10 and 5: after recording 10 on the first and incrementing the
      second by one and then by four, both are met and the percentage is 100; marking the participation
      completed stamps it. */
  method TwoObjectivesScenario(now: int)
  {
    var c := Challenges.NewChallenge(7, Some([Challenges.Objective(Some(10)), Challenges.Objective(Some(5))]),
                                     None, None, None);
    var p := new Participation(7, 3, Some(c));
    var before := p.ProgressPercentage();
    assert before == Pct(0.0);
    p.UpdateObjectiveProgress(0, 10);
    p.IncrementObjectiveProgress(1);
    p.IncrementObjectiveProgress(1, 4);
    var met := p.AreObjectivesMet();
    assert Current(p.progress, 0) == 10 && Current(p.progress, 1) == 5;
    assert met;
    FullIffMet(p.challenge, p.progress, p.status);
    var pct := p.ProgressPercentage();
    assert pct == Pct(100.0);
    p.MarkCompleted(now);
    assert p.IsCompleted() && p.completedAt == Some(now);
  }
}
