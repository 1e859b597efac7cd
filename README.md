# Rewards core — a Dafny model

This project models the gamification layer of a CRM built on a PHP/Laravel backend with a
Next.js front end. Users earn points and experience. They keep activity streaks, collect badges,
join challenges made of objectives and appear on leaderboards. They spend points on catalog items,
and those redemptions go through an admin-side lifecycle. The front end's collections page is
also covered: it splits credits in arrears into day-count buckets.

The model follows the Eloquent models and event classes one module per source file:

| module | source |
|---|---|
| `Catalog` | `backend/app/Models/Rewards/RewardCatalogItem.php` |
| `Redemptions` | `backend/app/Models/Rewards/RewardRedemption.php` |
| `Challenges` | `backend/app/Models/Rewards/RewardChallenge.php` |
| `Participations` | `backend/app/Models/Rewards/RewardChallengeParticipation.php` |
| `Profiles` | `backend/app/Models/Rewards/RewardUser.php` |
| `Badges` | `backend/app/Models/Rewards/RewardBadge.php` |
| `Transactions` | `backend/app/Models/Rewards/RewardTransaction.php` |
| `Leaderboards` | `backend/app/Models/Rewards/RewardLeaderboard.php` |
| `LeaderboardEntries` | `backend/app/Models/Rewards/RewardLeaderboardEntry.php` |
| `Events` | `backend/app/Events/Rewards/StreakUpdated.php`, `backend/app/Events/Rewards/LevelUp.php` |
| `Cobros` | `src/app/dashboard/cobros/page.tsx` |

There are also three small helper modules:
- `Wrappers` holds `Option`.
- `Php` holds `ucfirst`, PHP truthiness of a nullable string, and PHP's truncating `%`.
- `Seqs` holds an order-preserving filter, which every query scope is modelled as.

Conventions:
- The clock is an explicit `now` parameter, counted in whole seconds.
- Nullable columns are `Option`s.
- Database facts are plain sequences of rows, for example redemption rows, participation rows and user-badge rows. These rows back the counts and existence queries.
- Where the source updates fields in place, the model uses a class:
  - the catalog item's stock;
  - the redemption's status and processing stamps;
  - the participation's progress, status and completion stamp;
  - the profile table for find-or-create.
- Where the source only computes, the model uses functions over datatypes.
- The loops of the source are methods with invariants:
  - the objective loops of a participation, `progress_percentage` and `areObjectivesMet`;
  - the streak-bonus loop of `getStreakBonus`.

  `progress_percentage` is proved equal to the recursive function `PercentageOf` (built on `SumShares`), and `getStreakBonus` to the recursive function `StreakBonus`; the properties are proved about those functions. `areObjectivesMet` is proved against `ObjectivesMet`, a predicate that quantifies over all objectives.
- `canBeRedeemedBy` has no loop: it is straight-line code, five checks one after another. The method is proved against `Report`, a function of the five check outcomes, and the properties of the error list are proved about `Report`.

The transitions behave as follows, and the model follows them:
- `cancel` does not check the current status.
- `cancel` does not stamp `processed_by` or `processed_at`.
- None of the transitions refunds points.
- A zero objective target makes the progress percentage raise a division by zero. The model does not read that as 100 or 0.

## Model

| member | source | states |
|---|---|---|
| Catalog.CatalogItem.constructor | backend/app/Models/Rewards/RewardCatalogItem.php:49-55 | a new item costs 0 points and is active unless told otherwise; every other field is as given |
| Catalog.CatalogItem.IsAvailable | backend/app/Models/Rewards/RewardCatalogItem.php:155-176 | an available item is always in stock; availability also needs the active flag and both window ends, inclusive |
| Catalog.CatalogItem.InStock | backend/app/Models/Rewards/RewardCatalogItem.php:181-184 | `is_in_stock`: unlimited (null) stock, or a positive count; IsAvailable's contract rests on it |
| Catalog.AvailableScopeMatchesAccessor | backend/app/Models/Rewards/RewardCatalogItem.php:105-120 | the `where` clauses of `scopeAvailable` accept exactly the items `is_available` accepts |
| Catalog.ScopeAvailable | backend/app/Models/Rewards/RewardCatalogItem.php:105-120 | the scope returns only available items of the input, and every available input item appears in it |
| Catalog.CatalogItem.CanBeRedeemedBy | backend/app/Models/Rewards/RewardCatalogItem.php:203-246 | a reason is reported iff its check fails; reasons come in check order, each at most once; `can_redeem` holds iff the list is empty, iff no check fails |
| Catalog.CatalogItem.ReportOfChecks | backend/app/Models/Rewards/RewardCatalogItem.php:205-240 | the five appends, with outcomes that agree with the checks, list exactly the failing checks, in order, and are empty iff all pass |
| Catalog.ReportFacts | backend/app/Models/Rewards/RewardCatalogItem.php:205-240 | appending one reason per failed check, in order, gives a report in check order that holds a reason iff its check ran and failed |
| Catalog.ReportUnfolded | backend/app/Models/Rewards/RewardCatalogItem.php:205-240 | the recursive report of five outcomes is the five conditional appends written one after another |
| Catalog.RankIsPosition | backend/app/Models/Rewards/RewardCatalogItem.php:207-240 | each reason's position among the checks is its rank, so the check order tells the reasons apart |
| Catalog.ReportIsDetermined | backend/app/Models/Rewards/RewardCatalogItem.php:203-246 | two reports in check order with the same reasons are equal, so the membership contract fixes the error list completely |
| Catalog.CatalogItem.InsufficientPointsIffUnaffordable | backend/app/Models/Rewards/RewardCatalogItem.php:212-215 | 'Insufficient points' fails exactly when the profile cannot afford the cost |
| Catalog.CatalogItem.OptionalChecksSkipped | backend/app/Models/Rewards/RewardCatalogItem.php:217-240 | without `min_level` or `badge_id` the level or badge check never fails; without a cap the cap check never fails |
| Catalog.ActiveRedemptionCountAppend | backend/app/Models/Rewards/RewardCatalogItem.php:217-222 | one more row raises the per-user count by one exactly when it is a live (not cancelled) redemption of this item by this user; any other row leaves it unchanged |
| Catalog.CapCountsOnlyLiveRedemptions | backend/app/Models/Rewards/RewardCatalogItem.php:217-227 | for any rows on record and any cap: one more cancelled redemption by the user leaves the cap check as it was; one more live one makes it fail exactly when the live count so far plus one reaches the cap |
| Catalog.BothFailuresReported | backend/app/Models/Rewards/RewardCatalogItem.php:212-234 | the checks do not short-circuit: a user short of both points and level fails both |
| Catalog.Requirement | backend/app/Models/Rewards/RewardCatalogItem.php:232-237 | `isset` finds a value only for a present key with a non-null value |
| Catalog.HasRequirements | backend/app/Models/Rewards/RewardCatalogItem.php:230 | the requirements check runs only when `requirements` is present and non-empty; OptionalChecksSkipped covers the absent case |
| Catalog.ActiveRedemptionCount | backend/app/Models/Rewards/RewardCatalogItem.php:217-222 | the cap query counts this user's redemptions of this item whose status is not cancelled; ActiveRedemptionCountAppend states how it grows |
| Catalog.Message | backend/app/Models/Rewards/RewardCatalogItem.php:207-239 | each reason carries a non-empty message, the string the source appends |
| Catalog.MessagesDistinct | backend/app/Models/Rewards/RewardCatalogItem.php:207-239 | two reasons have the same message iff they are the same reason, so the strings identify the failed checks |
| Catalog.CatalogItem.DecreaseStock | backend/app/Models/Rewards/RewardCatalogItem.php:251-263 | unlimited stock: true and unchanged; too little: false and unchanged; otherwise true and lowered by exactly `amount`, never below 0 |
| Redemptions.StatusesDistinct | backend/app/Models/Rewards/RewardRedemption.php:45-57 | `STATUSES` holds five pairwise distinct statuses |
| Redemptions.IsPending | backend/app/Models/Rewards/RewardRedemption.php:144-147 | `is_pending`: the status is pending; StatusAccessors relates the four accessors |
| Redemptions.IsApproved | backend/app/Models/Rewards/RewardRedemption.php:152-155 | `is_approved`: the status is approved |
| Redemptions.IsFulfilled | backend/app/Models/Rewards/RewardRedemption.php:160-163 | `is_fulfilled`: the status is fulfilled |
| Redemptions.CanBeCancelled | backend/app/Models/Rewards/RewardRedemption.php:168-174 | `can_be_cancelled`: pending or approved, nothing else |
| Redemptions.Redemption.constructor | backend/app/Models/Rewards/RewardRedemption.php:38-40 | a new redemption is pending, cancellable and unprocessed |
| Redemptions.StatusAccessors | backend/app/Models/Rewards/RewardRedemption.php:144-174 | at most one of `is_pending`, `is_approved`, `is_fulfilled` holds; cancellable iff pending or approved |
| Redemptions.StatusLabel | backend/app/Models/Rewards/RewardRedemption.php:179-189 | an unknown status falls back to `ucfirst` of itself |
| Redemptions.StatusColor | backend/app/Models/Rewards/RewardRedemption.php:194-204 | an unknown status falls back to gray |
| Redemptions.StatusDisplayDistinct | backend/app/Models/Rewards/RewardRedemption.php:179-204 | the five statuses get five different labels; only cancelled shares the fallback gray |
| Redemptions.ZeroNoteIgnored | backend/app/Models/Rewards/RewardRedemption.php:221-223 | null, "" and "0" are falsy notes, so they leave `admin_notes` alone; "00" is truthy |
| Redemptions.Redemption.Approve | backend/app/Models/Rewards/RewardRedemption.php:215-226 | from any status: approved, processed by the admin now, notes replaced only by a truthy note |
| Redemptions.Redemption.Reject | backend/app/Models/Rewards/RewardRedemption.php:231-242 | from any status: rejected and no longer cancellable, processed by the admin now, notes replaced only by a truthy reason |
| Redemptions.Redemption.Fulfill | backend/app/Models/Rewards/RewardRedemption.php:247-258 | from any status: fulfilled, processed by the admin now, notes replaced only by a truthy note |
| Redemptions.Redemption.Cancel | backend/app/Models/Rewards/RewardRedemption.php:263-272 | from any status: cancelled; processing stamps untouched; notes replaced only by a truthy reason |
| Challenges.NewChallenge | backend/app/Models/Rewards/RewardChallenge.php:52-60 | defaults: individual, medium, no rewards, active, not featured, sort order 0 |
| Challenges.IsCurrent | backend/app/Models/Rewards/RewardChallenge.php:176-184 | `is_current`: active, and `now` inside the start and end, each end inclusive and optional |
| Challenges.ParticipantCount | backend/app/Models/Rewards/RewardChallenge.php:189-192 | the number of participation rows of this challenge |
| Challenges.CompletionCount | backend/app/Models/Rewards/RewardChallenge.php:197-200 | the number of those rows with a completion stamp; CompletionsWithinParticipants bounds it |
| Challenges.HasSpots | backend/app/Models/Rewards/RewardChallenge.php:205-212 | `has_spots`: no participant limit, or fewer participants than the limit |
| Challenges.HasParticipant | backend/app/Models/Rewards/RewardChallenge.php:235-242 | some participation row of this challenge belongs to the user; GetParticipationIffHas ties it to `getParticipation` |
| Challenges.ScopeActive | backend/app/Models/Rewards/RewardChallenge.php:111-114 | keeps, in order, the active challenges |
| Challenges.ScopeCurrent | backend/app/Models/Rewards/RewardChallenge.php:127-136 | keeps, in order, the challenges whose window holds `now`, each end inclusive and optional |
| Challenges.ScopeAvailable | backend/app/Models/Rewards/RewardChallenge.php:157-165 | active, then current, then under the participant limit; ScopeAvailableMatchesAccessors states its meaning |
| Challenges.Participations | backend/app/Models/Rewards/RewardChallenge.php:189-192 | the rows counted are exactly the rows of this challenge |
| Challenges.CompletionsWithinParticipants | backend/app/Models/Rewards/RewardChallenge.php:189-200 | the completion count never exceeds the participant count |
| Challenges.RemainingTime | backend/app/Models/Rewards/RewardChallenge.php:217-224 | null iff there is no end; otherwise never negative, 0 iff the end is not in the future, else exactly the seconds left |
| Challenges.RemainingTimeShrinks | backend/app/Models/Rewards/RewardChallenge.php:217-224 | the remaining time never grows as time advances |
| Challenges.GetParticipation | backend/app/Models/Rewards/RewardChallenge.php:247-254 | a found participation is a row of this challenge and this user |
| Challenges.GetParticipationIffHas | backend/app/Models/Rewards/RewardChallenge.php:235-254 | `getParticipation` finds nothing exactly when `hasParticipant` is false |
| Challenges.ScopeAvailableMatchesAccessors | backend/app/Models/Rewards/RewardChallenge.php:157-165 | active, then current, then capacity keeps, in order, exactly the challenges with `is_current` and `has_spots` |
| Participations.Participation.constructor | backend/app/Models/Rewards/RewardChallengeParticipation.php:36-38 | a new participation is active, without progress and not completed |
| Participations.Participation.IsCompleted | backend/app/Models/Rewards/RewardChallengeParticipation.php:109-112 | `is_completed`: the status is completed |
| Participations.Participation.IsActive | backend/app/Models/Rewards/RewardChallengeParticipation.php:117-120 | `is_active`: the status is active |
| Participations.Participation.UpdateObjectiveProgress | backend/app/Models/Rewards/RewardChallengeParticipation.php:158-170 | `current` of entry `index` becomes `value`, creating the entry if absent; nothing else changes |
| Participations.UpdateTouchesOnlyIndex | backend/app/Models/Rewards/RewardChallengeParticipation.php:158-170 | after the update, index `i` reads `v` and every other index reads as before |
| Participations.Participation.IncrementObjectiveProgress | backend/app/Models/Rewards/RewardChallengeParticipation.php:175-187 | `current` of entry `index` becomes the old `current` (missing is 0) plus `amount`; nothing else changes |
| Participations.IncrementTouchesOnlyIndex | backend/app/Models/Rewards/RewardChallengeParticipation.php:175-187 | after the increment, index `i` reads its old value plus `a` and every other index reads as before |
| Participations.Participation.MarkCompleted | backend/app/Models/Rewards/RewardChallengeParticipation.php:192-198 | status completed, completion stamped now, progress unchanged |
| Participations.Participation.AreObjectivesMet | backend/app/Models/Rewards/RewardChallengeParticipation.php:203-218 | true iff every objective's `current` (default 0) reaches its `target` (default 1); true with no objectives |
| Participations.Participation.ProgressPercentage | backend/app/Models/Rewards/RewardChallengeParticipation.php:125-147 | the loop computes the specified percentage: 0 without progress or challenge, 100 or 0 by status without objectives, else the mean share or the division by zero |
| Participations.Share | backend/app/Models/Rewards/RewardChallengeParticipation.php:143 | one objective's share is at most 100; for a positive target it is 100 iff met, and not negative for non-negative progress |
| Participations.FaultPersists | backend/app/Models/Rewards/RewardChallengeParticipation.php:140-144 | once a zero target has raised, the rest of the loop cannot produce a number |
| Participations.SumSharesBounds | backend/app/Models/Rewards/RewardChallengeParticipation.php:137-146 | with positive targets the total never faults, stays within 0 and 100 per objective, and is 100 per objective iff all are met |
| Participations.PercentageBounds | backend/app/Models/Rewards/RewardChallengeParticipation.php:125-147 | with positive targets and non-negative progress the percentage is a number in [0, 100] |
| Participations.FullIffMet | backend/app/Models/Rewards/RewardChallengeParticipation.php:125-147 | with progress, objectives and positive targets, the percentage is 100 exactly when `areObjectivesMet` holds |
| Participations.NegativeTargetMetButNotFull | backend/app/Models/Rewards/RewardChallengeParticipation.php:137-146 | a negative target counts as met, yet the percentage is 0 |
| Participations.ZeroTargetMetButFaults | backend/app/Models/Rewards/RewardChallengeParticipation.php:141-143 | a zero target counts as met, yet the percentage divides by zero |
| Profiles.NewProfile | backend/app/Models/Rewards/RewardUser.php:44-51 | a fresh profile has level 1 and every counter 0 |
| Profiles.CanAfford | backend/app/Models/Rewards/RewardUser.php:223-226 | `canAfford`: the point balance covers the cost |
| Profiles.AffordableCostsDownwardClosed | backend/app/Models/Rewards/RewardUser.php:223-226 | for any profile, any cost below an affordable one is affordable, and the balance is the largest affordable cost |
| Profiles.LevelProgress | backend/app/Models/Rewards/RewardUser.php:166-175 | 100 when the next-level XP is not positive; never above 100; not negative for non-negative XP; 100 iff XP reaches the next level |
| Profiles.GetStreakBonus | backend/app/Models/Rewards/RewardUser.php:180-192 | the loop returns the specified bonus of the configured tiers |
| Profiles.StreakBonusNoneReached | backend/app/Models/Rewards/RewardUser.php:180-192 | if no tier is reached the bonus is 0 |
| Profiles.StreakBonusLastReached | backend/app/Models/Rewards/RewardUser.php:180-192 | the bonus is the multiplier of the last tier, in configuration order, that the streak reaches |
| Profiles.HasBadge | backend/app/Models/Rewards/RewardUser.php:211-218 | `hasBadge`: a user-badge row links this profile and the badge |
| Profiles.HasBadgeIffEarned | backend/app/Models/Rewards/RewardUser.php:211-218 | `hasBadge` on the profile and `isEarnedBy` on the badge agree |
| Profiles.FindByUserId | backend/app/Models/Rewards/RewardUser.php:231-246 | nothing is found iff no profile has the user id; a found profile belongs to the user |
| Profiles.FindOrCreateContract | backend/app/Models/Rewards/RewardUser.php:231-246 | returns a profile of the user; an existing one leaves the table alone, otherwise exactly one default profile is added; one profile per user stays true |
| Profiles.FindOrCreateIdempotent | backend/app/Models/Rewards/RewardUser.php:231-246 | a second call for the same user changes nothing and returns the same profile |
| Profiles.ProfileStore.FindOrCreateForUser | backend/app/Models/Rewards/RewardUser.php:231-246 | the table and the returned profile are those of the find-or-create function, and the table stays valid |
| Badges.NewBadge | backend/app/Models/Rewards/RewardBadge.php:45-52 | defaults: common rarity, no point or XP reward, not secret, active, sort order 0 |
| Badges.RaritiesDistinct | backend/app/Models/Rewards/RewardBadge.php:57-69 | `RARITIES` holds five pairwise distinct rarities |
| Badges.RarityColor | backend/app/Models/Rewards/RewardBadge.php:164-174 | common and every unknown rarity get #9ca3af |
| Badges.RarityColorsDistinct | backend/app/Models/Rewards/RewardBadge.php:164-174 | the five rarities get five different colours, and an unknown rarity looks common |
| Badges.RarityLabel | backend/app/Models/Rewards/RewardBadge.php:156-159 | the label has the rarity's length, with the first letter upper-cased |
| Badges.NewBadgeDisplay | backend/app/Models/Rewards/RewardBadge.php:156-174 | a default badge shows as a grey "Common" |
| Badges.Split | backend/app/Models/Rewards/RewardBadge.php:185-188 | the path has at least one segment and no segment holds a dot; a dotless key is its own path |
| Badges.SplitJoin | backend/app/Models/Rewards/RewardBadge.php:185-188 | joining the segments with dots gives the key back, so no character of the key is lost or added |
| Badges.SplitAtDot | backend/app/Models/Rewards/RewardBadge.php:185-188 | a dot after a dotless first segment splits the key into that segment and the segments of the rest |
| Badges.DataGet | backend/app/Models/Rewards/RewardBadge.php:185-188 | an empty path gives the target; a first segment that is not a key gives the default |
| Badges.CriteriaValueAbsent | backend/app/Models/Rewards/RewardBadge.php:185-188 | without a configuration, or with the key's first segment absent, the default comes back |
| Badges.CriteriaValuePresent | backend/app/Models/Rewards/RewardBadge.php:185-188 | a present dotless key gives its stored value, even JSON null |
| Badges.CriteriaValueDotted | backend/app/Models/Rewards/RewardBadge.php:185-188 | a two-segment key `k1.k2` is `data_get` along the path `[k1, k2]`, and gives `config[k1][k2]` when both keys are present |
| Badges.GetCriteriaValue | backend/app/Models/Rewards/RewardBadge.php:185-188 | without a configuration the default comes back; the empty key is the path with the one empty segment |
| Badges.IsEarnedBy | backend/app/Models/Rewards/RewardBadge.php:193-200 | `isEarnedBy`: some user-badge row links this badge and the profile; HasBadgeIffEarned ties it to `hasBadge` |
| Transactions.TypesDistinct | backend/app/Models/Rewards/RewardTransaction.php:47-54 | `TYPES` holds six pairwise distinct types |
| Transactions.IsEarn | backend/app/Models/Rewards/RewardTransaction.php:136-139 | `is_earn`: a positive amount |
| Transactions.IsSpend | backend/app/Models/Rewards/RewardTransaction.php:144-147 | `is_spend`: a negative amount |
| Transactions.IsExpired | backend/app/Models/Rewards/RewardTransaction.php:169-172 | `is_expired`: an expiry stamp strictly before `now` |
| Transactions.ScopeEarned | backend/app/Models/Rewards/RewardTransaction.php:87-90 | keeps, in order, the transactions with a positive amount |
| Transactions.ScopeSpent | backend/app/Models/Rewards/RewardTransaction.php:95-98 | keeps, in order, the transactions with a negative amount |
| Transactions.ScopeNotExpired | backend/app/Models/Rewards/RewardTransaction.php:119-125 | keeps, in order, the transactions without expiry or expiring after `now` |
| Transactions.NumberFormat | backend/app/Models/Rewards/RewardTransaction.php:163 | `number_format` of a whole number: the grouped digits; GroupedShape and FormattedAmountRoundTrip state its meaning |
| Transactions.EarnSpendExclusive | backend/app/Models/Rewards/RewardTransaction.php:136-147 | never both earn and spend; a zero amount is neither |
| Transactions.AbsoluteAmount | backend/app/Models/Rewards/RewardTransaction.php:152-155 | a non-negative number equal to the amount or its negation |
| Transactions.ScopesMatchAccessors | backend/app/Models/Rewards/RewardTransaction.php:87-98 | the earned and spent scopes keep exactly what `is_earn` and `is_spend` accept, and share nothing |
| Transactions.NotExpiredVersusExpired | backend/app/Models/Rewards/RewardTransaction.php:119-125 | nothing is both kept by `scopeNotExpired` and `is_expired`; expiring exactly now is neither; every other transaction is exactly one |
| Transactions.FormattedAmount | backend/app/Models/Rewards/RewardTransaction.php:160-164 | starts with '+' iff the amount is not negative, and with '-' iff it is |
| Transactions.GroupedShape | backend/app/Models/Rewards/RewardTransaction.php:160-164 | `number_format` writes 1 to 3 leading digits, then groups of three after commas |
| Transactions.FormattedAmountRoundTrip | backend/app/Models/Rewards/RewardTransaction.php:160-164 | reading the formatted amount back gives the amount |
| Leaderboards.ConstantsDistinct | backend/app/Models/Rewards/RewardLeaderboard.php:43-54 | the four metrics are distinct, and so are the four periods |
| Leaderboards.NewLeaderboard | backend/app/Models/Rewards/RewardLeaderboard.php:36-38 | a new leaderboard is active |
| Leaderboards.IsCurrent | backend/app/Models/Rewards/RewardLeaderboard.php:123-131 | `is_current`: active, and `now` inside the optional, inclusive window |
| Leaderboards.ScopeActive | backend/app/Models/Rewards/RewardLeaderboard.php:79-82 | keeps, in order, the active leaderboards |
| Leaderboards.ScopeCurrent | backend/app/Models/Rewards/RewardLeaderboard.php:87-96 | keeps, in order, the leaderboards whose window holds `now` |
| Leaderboards.ActiveCurrentIsCurrent | backend/app/Models/Rewards/RewardLeaderboard.php:79-96 | `active()->current()` keeps, in order, exactly the leaderboards with `is_current` |
| Leaderboards.CurrentNeedsActive | backend/app/Models/Rewards/RewardLeaderboard.php:123-131 | an inactive board is never current; an active board without a window always is |
| LeaderboardEntries.RankChange | backend/app/Models/Rewards/RewardLeaderboardEntry.php:88-95 | 0 without a previous rank; otherwise rank plus change is the previous rank |
| LeaderboardEntries.RankDirection | backend/app/Models/Rewards/RewardLeaderboardEntry.php:100-111 | the direction is one of up, down, same |
| LeaderboardEntries.DirectionBySign | backend/app/Models/Rewards/RewardLeaderboardEntry.php:100-111 | up iff the change is positive, down iff negative, same iff zero |
| LeaderboardEntries.HasImproved | backend/app/Models/Rewards/RewardLeaderboardEntry.php:116-119 | `has_improved`: a previous rank larger than the current one; ImprovedIffUp relates it to the direction |
| LeaderboardEntries.ImprovedIffUp | backend/app/Models/Rewards/RewardLeaderboardEntry.php:116-119 | `has_improved` iff the direction is up, iff a previous rank exists and is larger |
| LeaderboardEntries.SortByRank | backend/app/Models/Rewards/RewardLeaderboardEntry.php:74-77 | `orderBy('rank')` gives a rank-ordered permutation of the entries |
| LeaderboardEntries.ScopeTop | backend/app/Models/Rewards/RewardLeaderboardEntry.php:74-77 | `top(limit = 10)`: order by rank, then keep the first `limit`; ScopeTopFacts states its meaning |
| LeaderboardEntries.ScopeTopFacts | backend/app/Models/Rewards/RewardLeaderboardEntry.php:74-77 | rank-ordered, at most `limit` rows when the limit is not negative, a sub-multiset of the entries (all of them when nothing is cut), and no dropped entry ranks ahead of a kept one |
| Events.NewStreakUpdated | backend/app/Events/Rewards/StreakUpdated.php:16-22 | `isNewRecord` is false unless given; the other fields are as given |
| Events.StreakUserId | backend/app/Events/Rewards/StreakUpdated.php:27-30 | the CRM user id of the profile the event carries |
| Events.WasStreakBroken | backend/app/Events/Rewards/StreakUpdated.php:35-38 | the current streak is below the previous one; StreakBrokenOneWay relates an event to its reverse |
| Events.IsStreakMilestone | backend/app/Events/Rewards/StreakUpdated.php:43-47 | the current streak is in the milestone list; StreakMilestoneExactly names the list |
| Events.LongestStreak | backend/app/Events/Rewards/StreakUpdated.php:52-55 | the longest streak stored on the profile the event carries |
| Events.StreakMilestoneExactly | backend/app/Events/Rewards/StreakUpdated.php:43-47 | a milestone iff the streak is 7, 14, 30, 60 or 100 |
| Events.StreakBrokenOneWay | backend/app/Events/Rewards/StreakUpdated.php:35-38 | an event and its reverse are never both broken; neither is iff the streak did not change |
| Events.StreakEventOfFoundProfile | backend/app/Events/Rewards/StreakUpdated.php:27-55 | the event names the user find-or-create was asked for; for a new user the longest streak is 0 |
| Events.LevelUserId | backend/app/Events/Rewards/LevelUp.php:26-29 | the CRM user id of the profile the event carries |
| Events.LevelsGained | backend/app/Events/Rewards/LevelUp.php:34-37 | the previous level plus the gain is the new level; a gain iff the level rose |
| Events.IsLevelMilestone | backend/app/Events/Rewards/LevelUp.php:42-45 | PHP's `newLevel % 10 === 0`; LevelMilestoneIffMultipleOfTen states its meaning |
| Events.CurrentXp | backend/app/Events/Rewards/LevelUp.php:50-53 | the experience points stored on the profile the event carries |
| Events.LevelMilestoneIffMultipleOfTen | backend/app/Events/Rewards/LevelUp.php:42-45 | with PHP's truncating remainder, a milestone iff the new level is a multiple of ten, negative levels included |
| Events.LevelEventOfFoundProfile | backend/app/Events/Rewards/LevelUp.php:26-53 | the event names the user find-or-create was asked for; for a new user the current XP is 0 |
| Cobros.StatusVariant | src/app/dashboard/cobros/page.tsx:39-48 | 'Al día' iff secondary, 'En mora' iff destructive, any other status iff outline |
| Cobros.Days | src/app/dashboard/cobros/page.tsx:59 | a missing day count reads as 0 |
| Cobros.FilterCreditsByArrears | src/app/dashboard/cobros/page.tsx:53-65 | only credits in arrears; without an end, days ≥ start; otherwise start ≤ days ≤ end |
| Cobros.AlDiaCredits | src/app/dashboard/cobros/page.tsx:67 | the credits whose status is 'Al día', in order |
| Cobros.Bucket | src/app/dashboard/cobros/page.tsx:68-72 | bucket k of the five day ranges 1-30, 31-60, 61-90, 91-180 and 181 or more; BucketMembership states its meaning |
| Cobros.BucketMembership | src/app/dashboard/cobros/page.tsx:68-72 | a credit is in bucket k iff it is in arrears, has at least one day, and k is the bucket of its day count |
| Cobros.BucketsDisjoint | src/app/dashboard/cobros/page.tsx:68-72 | no credit is in two buckets |
| Cobros.BucketsCover | src/app/dashboard/cobros/page.tsx:67-72 | every credit in arrears with a day or more is in its bucket; none with 0 days; none that is up to date |
| Cobros.PartitionCount | src/app/dashboard/cobros/page.tsx:67-72 | the up-to-date list, the five buckets and the unlisted credits together count every credit exactly once |

## Left out

- The services that redeem, refund, record transactions, apply XP, record streaks and rebuild leaderboards (`CatalogService`, `RewardService`, `RedemptionService`) are not part of this model.
- Controllers, HTTP validation, mail and file storage are not modelled. Relationships, `$fillable`/`$casts`, factories, event broadcasting and serialisation are not modelled either.
- Concurrency is not modelled: transactional locking, `firstOrCreate` races, and unique constraints.
- Participations.FullIffMet: holds only for the exact percentage. The source rounds it to two decimals with `round(…, 2)`, so one objective at 99999 of 100000 shows 100 while `areObjectivesMet` is false. The if-half (all met gives 100) survives the rounding; the only-if half does not.
- Integer width: PHP integers are 64 bits wide, and the model's are unbounded. `number_format` takes a float, so Transactions.FormattedAmountRoundTrip holds for PHP only up to 2^53. `abs(PHP_INT_MIN)` throws a TypeError in `getAbsoluteAmountAttribute` (backend/app/Models/Rewards/RewardTransaction.php:154), which Transactions.AbsoluteAmount does not model. The increment at backend/app/Models/Rewards/RewardChallengeParticipation.php:183 turns into a float on overflow, which Participations.Participation.IncrementObjectiveProgress does not model.
- Events: the events hold the live `RewardUser` model (backend/app/Events/Rewards/StreakUpdated.php:17 and :54), so their accessors read the profile as it is when they are called. The model stores a snapshot `Profile` value taken when the event is made.
- Profiles.LevelProgress: takes `xp_for_next_level` as an input. It is a floating-point `pow` curve read from configuration. The result is exact real arithmetic rather than floating point, without the rounding to two decimals.
- Participations.Participation.ProgressPercentage: uses real arithmetic and leaves out the final rounding to two decimals.
- Participations.Participation.ProgressPercentage: the objectives are a list indexed 0, 1, …; string-keyed objective arrays are not modelled. Only `target` is read from an objective, and only `current` from a progress entry.
- Participations.Participation.MarkCompleted: like the source, it does not check that the objectives are met. It also does not award the challenge rewards, which the services do.
- Catalog.CatalogItem.CanBeRedeemedBy: each `if (…) $errors[] = …` is written as an append of a reason list that is empty when the check passes. The meaning is the same.
- Catalog.CatalogItem.CanBeRedeemedBy: the reasons are a datatype, and `Catalog.Message` gives the source's strings.
- Catalog.CatalogItem.CanBeRedeemedBy: requirements are a map from key to a nullable integer. Non-integer requirement values are not modelled.
- Badges.GetCriteriaValue: `data_get` is modelled on plain keys and dotted paths. The `*` wildcard and object access are not modelled.
- Challenges.RemainingTime: Carbon's `diffInSeconds` is modelled as whole seconds between two instants.
- LeaderboardEntries.ScopeTopFacts: the database does not fix the order of equal ranks. The model keeps them in input order.
- LeaderboardEntries.ScopeTopFacts: a negative limit returns every row, as Laravel's `limit` ignores negative values.
- Cobros.Days: day counts are whole numbers. The page's `|| 0` also turns `NaN` into 0, and `NaN` has no counterpart here. A fractional count between two buckets (30.5, say) is not modelled.
- `Cobros`: the table rendering, tabs and payment list of the page are not modelled.
- Trivial one-clause scopes are not modelled separately from the filter they apply. These are `scopeFeatured`, `scopeOfType`, `scopeOfDifficulty`, `scopeByMetric`, `scopeByPeriod`, `scopeByRank`, `scopeInCategory`, `scopeMaxCost`, `scopeOrdered`, `scopeWithStatus`, `scopeBetweenDates`, and the ordering scopes of the profile table.
- The plain counts `redemption_count`, `badge_count`, `earned_count` and `entry_count` are not modelled.
- The events' free-form `context` arrays are not modelled.
