/** Catalog items (backend/app/Models/Rewards/RewardCatalogItem.php): availability, stock,
    the redemption eligibility check and the guarded stock decrement. */
module Catalog {
  import opened Wrappers
  import Seqs
  import Profiles
  import Badges
  import Redemptions

  /** A row of reward_redemptions as the per-user cap query sees it. */
  datatype RedemptionRow = RedemptionRow(rewardUserId: int, catalogItemId: int, status: string)

  /** The reasons `canBeRedeemedBy` can report. */
  datatype RedeemError =
    | NotAvailable
    | InsufficientPoints
    | MaxRedemptionsReached
    | LevelRequirementNotMet
    | BadgeRequirementNotMet
  {
    /** Position of the check in the source. */
    function Rank(): nat {
      match this
      case NotAvailable => 0
      case InsufficientPoints => 1
      case MaxRedemptionsReached => 2
      case LevelRequirementNotMet => 3
      case BadgeRequirementNotMet => 4
    }
  }

  /** The message the source appends to `errors` for each failed check. */
  function Message(e: RedeemError): (m: string)
    ensures |m| > 0
  {
    match e
    case NotAvailable => "Item is not available"
    case InsufficientPoints => "Insufficient points"
    case MaxRedemptionsReached => "Maximum redemptions reached"
    case LevelRequirementNotMet => "Level requirement not met"
    case BadgeRequirementNotMet => "Badge requirement not met"
  }

  /** Each failed check has its own message, so the messages determine the failed checks. */
  lemma MessagesDistinct(e1: RedeemError, e2: RedeemError)
    ensures Message(e1) == Message(e2) <==> e1 == e2
  {
  }

  /** The checks, in the order the source runs them. */
  const CheckOrder: seq<RedeemError> :=
    [NotAvailable, InsufficientPoints, MaxRedemptionsReached, LevelRequirementNotMet, BadgeRequirementNotMet]

  /** Errors listed in check order, each at most once. */
  predicate InCheckOrder(errors: seq<RedeemError>) {
    forall i, j :: 0 <= i < j < |errors| ==> errors[i].Rank() < errors[j].Rank()
  }

  /** The head of a report in check order ranks below everything after it, and the rest is
      again in check order. */
  lemma HeadRanksFirst(a: seq<RedeemError>)
    requires InCheckOrder(a) && a != []
    ensures InCheckOrder(a[1..])
    ensures forall e :: e in a[1..] ==> a[0].Rank() < e.Rank()
    ensures forall e :: e in a <==> e == a[0] || e in a[1..]
  {
    assert a == [a[0]] + a[1..];
    forall e | e in a[1..] ensures a[0].Rank() < e.Rank() {
      var k :| 0 <= k < |a[1..]| && a[1..][k] == e;
      assert a[k + 1] == e;
    }
  }

  /** Two reports that list the same reasons in check order are the same report. */
  lemma {:induction false} ReportIsDetermined(a: seq<RedeemError>, b: seq<RedeemError>)
    requires InCheckOrder(a) && InCheckOrder(b)
    requires forall e :: e in a <==> e in b
    ensures a == b
  {
    assert a != [] ==> a[0] in b;
    assert b != [] ==> b[0] in a;
    if a != [] && b != [] {
      HeadRanksFirst(a);
      HeadRanksFirst(b);
      assert a[0] == b[0];
      ReportIsDetermined(a[1..], b[1..]);
      assert a == [a[0]] + a[1..] && b == [b[0]] + b[1..];
    }
  }

  /** The reason for check `e` when it fails, nothing when it passes. */
  function Reason(fails: bool, e: RedeemError): seq<RedeemError> {
    if fails then [e] else []
  }

  /** The report of the first `|outcomes|` checks, `outcomes[k]` telling whether check `k` failed. */
  function Report(outcomes: seq<bool>): seq<RedeemError>
    requires |outcomes| <= |CheckOrder|
  {
    if outcomes == [] then []
    else
      var k := |outcomes| - 1;
      Report(outcomes[..k]) + Reason(outcomes[k], CheckOrder[k])
  }

  /** The report of all five checks, written out check by check. */
  lemma ReportUnfolded(outcomes: seq<bool>)
    requires |outcomes| == |CheckOrder|
    ensures Report(outcomes) == [] + Reason(outcomes[0], NotAvailable) + Reason(outcomes[1], InsufficientPoints)
      + Reason(outcomes[2], MaxRedemptionsReached) + Reason(outcomes[3], LevelRequirementNotMet)
      + Reason(outcomes[4], BadgeRequirementNotMet)
  {
    var o4, o3, o2, o1 := outcomes[..4], outcomes[..3], outcomes[..2], outcomes[..1];
    assert o4[..3] == o3 && o3[..2] == o2 && o2[..1] == o1 && o1[..0] == [];
    assert Report(o1) == [] + Reason(outcomes[0], NotAvailable);
    assert Report(o2) == Report(o1) + Reason(outcomes[1], InsufficientPoints);
    assert Report(o3) == Report(o2) + Reason(outcomes[2], MaxRedemptionsReached);
    assert Report(o4) == Report(o3) + Reason(outcomes[3], LevelRequirementNotMet);
    assert Report(outcomes) == Report(o4) + Reason(outcomes[4], BadgeRequirementNotMet);
  }

  /** Check number `k` has rank `k`, and it is the only check of that rank. */
  lemma RankIsPosition(e: RedeemError)
    ensures e.Rank() < |CheckOrder| && CheckOrder[e.Rank()] == e
  {
  }

  /** A report lists the failed checks among those run, each once and in check order. */
  lemma {:induction false} ReportFacts(outcomes: seq<bool>)
    requires |outcomes| <= |CheckOrder|
    ensures InCheckOrder(Report(outcomes))
    ensures forall i :: 0 <= i < |Report(outcomes)| ==> Report(outcomes)[i].Rank() < |outcomes|
    ensures forall e :: e in Report(outcomes) <==> e.Rank() < |outcomes| && outcomes[e.Rank()]
  {
    if outcomes != [] {
      var k := |outcomes| - 1;
      var prefix := outcomes[..k];
      ReportFacts(prefix);
      assert CheckOrder[k].Rank() == k;
      forall e ensures e in Report(outcomes) <==> e.Rank() < |outcomes| && outcomes[e.Rank()] {
        RankIsPosition(e);
        if e.Rank() < k {
          assert outcomes[e.Rank()] == prefix[e.Rank()];
        }
      }
    }
  }

  /** `isset($requirements[key])`: the key is present with a non-null value. */
  function Requirement(requirements: Option<map<string, Option<int>>>, key: string): (r: Option<int>)
    ensures r.Some? ==> requirements.Some? && key in requirements.value && requirements.value[key] == r
  {
    if requirements.Some? && key in requirements.value then requirements.value[key] else None
  }

  /** `!empty($requirements)`: not null and not the empty array. */
  predicate HasRequirements(requirements: Option<map<string, Option<int>>>) {
    requirements.Some? && |requirements.value| > 0
  }

  /** The redemptions of this item by this user that are not cancelled. */
  function ActiveRedemptionCount(rows: seq<RedemptionRow>, itemId: int, rewardUserId: int): nat {
    |Seqs.Filter(rows, (r: RedemptionRow) =>
        r.catalogItemId == itemId && r.rewardUserId == rewardUserId && r.status != Redemptions.Cancelled)|
  }

  /** A row of reward_catalog_items. Only `stock` changes after creation. */
  class CatalogItem {
    const id: int
    const pointsCost: int
    var stock: Option<int>
    const maxPerUser: Option<int>
    const requirements: Option<map<string, Option<int>>>
    const isActive: bool
    const availableFrom: Option<int>
    const availableUntil: Option<int>

    /** A new item; `points_cost` 0 and active unless given. */
    constructor (id: int, stock: Option<int>, maxPerUser: Option<int>,
                 requirements: Option<map<string, Option<int>>>,
                 availableFrom: Option<int>, availableUntil: Option<int>,
                 pointsCost: int := 0, isActive: bool := true)
      ensures this.id == id && this.stock == stock && this.maxPerUser == maxPerUser
      ensures this.requirements == requirements && this.availableFrom == availableFrom
      ensures this.availableUntil == availableUntil && this.pointsCost == pointsCost && this.isActive == isActive
    {
      this.id := id;
      this.stock := stock;
      this.maxPerUser := maxPerUser;
      this.requirements := requirements;
      this.availableFrom := availableFrom;
      this.availableUntil := availableUntil;
      this.pointsCost := pointsCost;
      this.isActive := isActive;
    }

    /** `in_stock`. */
    predicate InStock()
      reads this
    {
      stock.None? || stock.value > 0
    }

    /** `is_available`: the source's chain of early returns. */
    predicate IsAvailable(now: int)
      reads this
      ensures IsAvailable(now) ==> InStock()
    {
      if !isActive then false
      else if stock.Some? && stock.value <= 0 then false
      else if availableFrom.Some? && availableFrom.value > now then false
      else if availableUntil.Some? && availableUntil.value < now then false
      else true
    }

    /** The `where` clauses of `scopeAvailable`, as the query states them. */
    predicate MatchesAvailableScope(now: int)
      reads this
    {
      isActive
      && (stock.None? || stock.value > 0)
      && (availableFrom.None? || availableFrom.value <= now)
      && (availableUntil.None? || availableUntil.value >= now)
    }

    /** Whether check `e` fails for this user. */
    predicate Fails(e: RedeemError, user: Profiles.Profile, rows: seq<RedemptionRow>,
                    userBadges: seq<Badges.UserBadgeRow>, now: int)
      reads this
    {
      match e
      case NotAvailable => !IsAvailable(now)
      case InsufficientPoints => user.totalPoints < pointsCost
      case MaxRedemptionsReached =>
        maxPerUser.Some? && ActiveRedemptionCount(rows, id, user.id) >= maxPerUser.value
      case LevelRequirementNotMet =>
        HasRequirements(requirements) && Requirement(requirements, "min_level").Some?
        && user.level < Requirement(requirements, "min_level").value
      case BadgeRequirementNotMet =>
        HasRequirements(requirements) && Requirement(requirements, "badge_id").Some?
        && !Profiles.HasBadge(user, userBadges, Requirement(requirements, "badge_id").value)
    }

    /** `canBeRedeemedBy(user)`: runs all five checks, appending a reason for each that fails. */
    method CanBeRedeemedBy(user: Profiles.Profile, rows: seq<RedemptionRow>,
                           userBadges: seq<Badges.UserBadgeRow>, now: int)
      returns (canRedeem: bool, errors: seq<RedeemError>)
      ensures forall e :: e in errors <==> Fails(e, user, rows, userBadges, now)
      ensures InCheckOrder(errors)
      ensures canRedeem <==> errors == []
      ensures canRedeem <==> forall e :: e in CheckOrder ==> !Fails(e, user, rows, userBadges, now)
    {
      errors := [];
      var unavailable := !IsAvailable(now);
      errors := errors + Reason(unavailable, NotAvailable);
      var shortOfPoints := user.totalPoints < pointsCost;
      errors := errors + Reason(shortOfPoints, InsufficientPoints);
      // The cap query only runs when the item has a cap.
      var capReached := false;
      if maxPerUser.Some? {
        var userRedemptions := ActiveRedemptionCount(rows, id, user.id);
        capReached := userRedemptions >= maxPerUser.value;
      }
      errors := errors + Reason(capReached, MaxRedemptionsReached);
      // The requirements are only looked at when the array is not empty.
      var levelShort, badgeMissing := false, false;
      if HasRequirements(requirements) {
        var minLevel := Requirement(requirements, "min_level");
        levelShort := minLevel.Some? && user.level < minLevel.value;
        var badgeId := Requirement(requirements, "badge_id");
        badgeMissing := badgeId.Some? && !Profiles.HasBadge(user, userBadges, badgeId.value);
      }
      errors := errors + Reason(levelShort, LevelRequirementNotMet);
      errors := errors + Reason(badgeMissing, BadgeRequirementNotMet);
      canRedeem := errors == [];
      ReportOfChecks(errors, [unavailable, shortOfPoints, capReached, levelShort, badgeMissing],
                     user, rows, userBadges, now);
    }

    /** The report of five outcomes that agree with the five checks lists exactly the failing
        checks, in check order, and is empty exactly when every check passes. */
    lemma ReportOfChecks(errors: seq<RedeemError>, outcomes: seq<bool>, user: Profiles.Profile,
                         rows: seq<RedemptionRow>, userBadges: seq<Badges.UserBadgeRow>, now: int)
      requires |outcomes| == |CheckOrder|
      requires errors == [] + Reason(outcomes[0], NotAvailable) + Reason(outcomes[1], InsufficientPoints)
        + Reason(outcomes[2], MaxRedemptionsReached) + Reason(outcomes[3], LevelRequirementNotMet)
        + Reason(outcomes[4], BadgeRequirementNotMet)
      requires outcomes[0] == Fails(NotAvailable, user, rows, userBadges, now)
      requires outcomes[1] == Fails(InsufficientPoints, user, rows, userBadges, now)
      requires outcomes[2] == Fails(MaxRedemptionsReached, user, rows, userBadges, now)
      requires outcomes[3] == Fails(LevelRequirementNotMet, user, rows, userBadges, now)
      requires outcomes[4] == Fails(BadgeRequirementNotMet, user, rows, userBadges, now)
      ensures forall e :: e in errors <==> Fails(e, user, rows, userBadges, now)
      ensures InCheckOrder(errors)
      ensures errors == [] <==> forall e :: e in CheckOrder ==> !Fails(e, user, rows, userBadges, now)
    {
      ReportUnfolded(outcomes);
      ReportFacts(outcomes);
      forall e: RedeemError ensures e in errors <==> Fails(e, user, rows, userBadges, now) {
        RankIsPosition(e);
        match e
        case NotAvailable =>
        case InsufficientPoints =>
        case MaxRedemptionsReached =>
        case LevelRequirementNotMet =>
        case BadgeRequirementNotMet =>
      }
      AllChecks(user, rows, userBadges, now);
      if errors != [] {
        assert errors[0] in errors;
      }
    }

    /** Every reason is one of the five checks. */
    lemma AllChecks(user: Profiles.Profile, rows: seq<RedemptionRow>,
                    userBadges: seq<Badges.UserBadgeRow>, now: int)
      ensures forall e :: e in CheckOrder
    {
      forall e ensures e in CheckOrder {
        match e
        case NotAvailable => assert CheckOrder[0] == e;
        case InsufficientPoints => assert CheckOrder[1] == e;
        case MaxRedemptionsReached => assert CheckOrder[2] == e;
        case LevelRequirementNotMet => assert CheckOrder[3] == e;
        case BadgeRequirementNotMet => assert CheckOrder[4] == e;
      }
    }

    /** The points check fails exactly when the user cannot afford the cost. */
    lemma InsufficientPointsIffUnaffordable(user: Profiles.Profile, rows: seq<RedemptionRow>,
                                            userBadges: seq<Badges.UserBadgeRow>, now: int)
      ensures Fails(InsufficientPoints, user, rows, userBadges, now) <==> !Profiles.CanAfford(user, pointsCost)
    {
    }

    /** The level and badge checks are skipped unless the requirement key is set; an item
        without a per-user cap never fails the cap. */
    lemma OptionalChecksSkipped(user: Profiles.Profile, rows: seq<RedemptionRow>,
                                userBadges: seq<Badges.UserBadgeRow>, now: int)
      ensures Requirement(requirements, "min_level").None? ==> !Fails(LevelRequirementNotMet, user, rows, userBadges, now)
      ensures Requirement(requirements, "badge_id").None? ==> !Fails(BadgeRequirementNotMet, user, rows, userBadges, now)
      ensures maxPerUser.None? ==> !Fails(MaxRedemptionsReached, user, rows, userBadges, now)
    {
    }

    /** `decreaseStock(amount)`: unlimited stock always succeeds untouched; too little stock
        fails untouched; otherwise the stock drops by exactly `amount` and stays non-negative. */
    method DecreaseStock(amount: int := 1) returns (ok: bool)
      modifies this
      ensures old(stock).None? ==> ok && stock == old(stock)
      ensures old(stock).Some? && old(stock).value < amount ==> !ok && stock == old(stock)
      ensures old(stock).Some? && old(stock).value >= amount
          ==> ok && stock == Some(old(stock).value - amount) && stock.value >= 0
    {
      if stock.None? {
        return true;
      }
      if stock.value < amount {
        return false;
      }
      stock := Some(stock.value - amount);
      return true;
    }
  }

  /** `is_available` and the `scopeAvailable` query agree on every item. */
  lemma AvailableScopeMatchesAccessor(item: CatalogItem, now: int)
    ensures item.IsAvailable(now) <==> item.MatchesAvailableScope(now)
  {
  }

  /** `scopeAvailable`: the items its `where` clauses keep, in order. */
  function ScopeAvailable(items: seq<CatalogItem>, now: int): (r: seq<CatalogItem>)
    reads set i | i in items
    ensures forall k :: 0 <= k < |r| ==> r[k] in items && r[k].IsAvailable(now)
    ensures forall k :: 0 <= k < |items| && items[k].IsAvailable(now) ==> items[k] in r
  {
    if items == [] then []
    else (if items[0].MatchesAvailableScope(now) then [items[0]] else []) + ScopeAvailable(items[1..], now)
  }

  /** A user short of points and below the required level fails both checks, so a report
      lists both at once. */
  lemma BothFailuresReported(item: CatalogItem, user: Profiles.Profile, rows: seq<RedemptionRow>,
                             userBadges: seq<Badges.UserBadgeRow>, now: int, minLevel: int)
    requires item.requirements == Some(map["min_level" := Some(minLevel)])
    requires user.level < minLevel && user.totalPoints < item.pointsCost
    ensures item.Fails(InsufficientPoints, user, rows, userBadges, now)
    ensures item.Fails(LevelRequirementNotMet, user, rows, userBadges, now)
  {
    assert "min_level" in item.requirements.value;
  }

  /** One more redemption row raises the count by one exactly when it is a live redemption of
      this item by this user; a cancelled row, or a row of another user or item, changes nothing. */
  lemma ActiveRedemptionCountAppend(rows: seq<RedemptionRow>, r: RedemptionRow, itemId: int, rewardUserId: int)
    ensures ActiveRedemptionCount(rows + [r], itemId, rewardUserId)
      == ActiveRedemptionCount(rows, itemId, rewardUserId)
         + (if r.catalogItemId == itemId && r.rewardUserId == rewardUserId && r.status != Redemptions.Cancelled then 1 else 0)
  {
    var live := (x: RedemptionRow) =>
      x.catalogItemId == itemId && x.rewardUserId == rewardUserId && x.status != Redemptions.Cancelled;
    Seqs.FilterAppend(rows, [r], live);
    assert [r][1..] == [];
  }

  /** The cap check ignores a cancelled redemption of the item by the user, and counts a live one:
      after it the cap is reached exactly when the live count so far plus one reaches it. */
  lemma CapCountsOnlyLiveRedemptions(item: CatalogItem, user: Profiles.Profile, rows: seq<RedemptionRow>,
                                     userBadges: seq<Badges.UserBadgeRow>, now: int, status: string)
    ensures var more := rows + [RedemptionRow(user.id, item.id, status)];
      && (status == Redemptions.Cancelled ==>
            (item.Fails(MaxRedemptionsReached, user, more, userBadges, now)
             <==> item.Fails(MaxRedemptionsReached, user, rows, userBadges, now)))
      && (status != Redemptions.Cancelled ==>
            (item.Fails(MaxRedemptionsReached, user, more, userBadges, now)
             <==> item.maxPerUser.Some? && ActiveRedemptionCount(rows, item.id, user.id) + 1 >= item.maxPerUser.value))
  {
    ActiveRedemptionCountAppend(rows, RedemptionRow(user.id, item.id, status), item.id, user.id);
  }

  /** A user with 500 points, an item costing 300 with stock 5 and a cap of one: the first
      attempt passes; after the stock drops to 4 and a pending redemption is on record, the
      second attempt is refused with 'Maximum redemptions reached' only. */
  method RedeemTwiceScenario(now: int)
  {
    var item := new CatalogItem(1, Some(5), Some(1), None, None, None, 300);
    var user := Profiles.Profile(10, 20, 1, 0, 500, 500, 0, 0);
    var ok1, errs1 := item.CanBeRedeemedBy(user, [], [], now);
    assert item.IsAvailable(now);
    assert Seqs.Filter([], (r: RedemptionRow) => r.catalogItemId == 1 && r.rewardUserId == 10 && r.status != Redemptions.Cancelled) == [];
    assert ok1;
    var taken := item.DecreaseStock();
    assert taken && item.stock == Some(4);
    var rows := [RedemptionRow(user.id, item.id, Redemptions.Pending)];
    CapCountsOnlyLiveRedemptions(item, user, [], [], now, Redemptions.Pending);
    assert [] + rows == rows;
    assert item.Fails(MaxRedemptionsReached, user, rows, [], now);
    var ok2, errs2 := item.CanBeRedeemedBy(user, rows, [], now);
    assert MaxRedemptionsReached in errs2 <==> item.Fails(MaxRedemptionsReached, user, rows, [], now);
    assert MaxRedemptionsReached in errs2;
    assert !ok2;
    assert errs2 == [MaxRedemptionsReached] by {
      assert forall e :: e in errs2 ==> e == MaxRedemptionsReached;
      ReportIsDetermined(errs2, [MaxRedemptionsReached]);
    }
  }
}
