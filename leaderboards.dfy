/** Leaderboards (backend/app/Models/Rewards/RewardLeaderboard.php): metric and period
    constants, the current-window test and its scopes. */
module Leaderboards {
  import opened Wrappers
  import Seqs

  const MetricPoints := "points"
  const MetricExperience := "experience"
  const MetricStreak := "streak"
  const MetricLevel := "level"

  const PeriodDaily := "daily"
  const PeriodWeekly := "weekly"
  const PeriodMonthly := "monthly"
  const PeriodAllTime := "all_time"

  const Metrics: seq<string> := [MetricPoints, MetricExperience, MetricStreak, MetricLevel]
  const Periods: seq<string> := [PeriodDaily, PeriodWeekly, PeriodMonthly, PeriodAllTime]

  /** Each constant set holds four distinct values. */
  lemma ConstantsDistinct()
    ensures |Metrics| == 4 && forall i, j :: 0 <= i < j < |Metrics| ==> Metrics[i] != Metrics[j]
    ensures |Periods| == 4 && forall i, j :: 0 <= i < j < |Periods| ==> Periods[i] != Periods[j]
  {
  }

  /** A row of reward_leaderboards; times are seconds. */
  datatype Leaderboard = Leaderboard(
    id: int,
    metric: string,
    period: string,
    startsAt: Option<int>,
    endsAt: Option<int>,
    isActive: bool)

  /** A new leaderboard: active unless stated otherwise. */
  function NewLeaderboard(id: int, metric: string, period: string,
                          startsAt: Option<int>, endsAt: Option<int>): (b: Leaderboard)
    ensures b.isActive
    ensures b.id == id && b.metric == metric && b.period == period
    ensures b.startsAt == startsAt && b.endsAt == endsAt
  {
    Leaderboard(id, metric, period, startsAt, endsAt, true)
  }

  /** `is_current`: active, and `now` inside the window, both ends included. */
  predicate IsCurrent(b: Leaderboard, now: int) {
    var afterStart := b.startsAt.None? || b.startsAt.value <= now;
    var beforeEnd := b.endsAt.None? || b.endsAt.value >= now;
    b.isActive && afterStart && beforeEnd
  }

  /** `scopeActive`. */
  function ScopeActive(bs: seq<Leaderboard>): seq<Leaderboard> {
    Seqs.Filter(bs, (b: Leaderboard) => b.isActive)
  }

  /** `scopeCurrent`: the window clauses only. */
  function ScopeCurrent(bs: seq<Leaderboard>, now: int): seq<Leaderboard> {
    Seqs.Filter(bs, (b: Leaderboard) =>
      (b.startsAt.None? || b.startsAt.value <= now) && (b.endsAt.None? || b.endsAt.value >= now))
  }

  /** `active()->current()` keeps, in order, exactly the leaderboards that are current. */
  lemma ActiveCurrentIsCurrent(bs: seq<Leaderboard>, now: int)
    ensures ScopeCurrent(ScopeActive(bs), now) == Seqs.Filter(bs, (b: Leaderboard) => IsCurrent(b, now))
    ensures forall b :: b in ScopeCurrent(ScopeActive(bs), now) <==> b in bs && IsCurrent(b, now)
  {
    Seqs.FilterTwice(bs, (b: Leaderboard) => b.isActive,
      (b: Leaderboard) => (b.startsAt.None? || b.startsAt.value <= now) && (b.endsAt.None? || b.endsAt.value >= now),
      (b: Leaderboard) => IsCurrent(b, now));
  }

  /** The current-window test does not depend on the active flag alone: an inactive board is
      never current, and a window-less active board always is. */
  lemma CurrentNeedsActive(b: Leaderboard, now: int)
    ensures !b.isActive ==> !IsCurrent(b, now)
    ensures b.isActive && b.startsAt.None? && b.endsAt.None? ==> IsCurrent(b, now)
  {
  }
}
