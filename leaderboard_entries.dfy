/** Leaderboard rows (backend/app/Models/Rewards/RewardLeaderboardEntry.php): rank change, its
    direction, and the top-N scope. */
module LeaderboardEntries {
  import opened Wrappers

  /** A row of reward_leaderboard_entries. */
  datatype Entry = Entry(leaderboardId: int, rewardUserId: int, rank: int, score: int, previousRank: Option<int>)

  /** `rank_change`: 0 without a previous rank, otherwise the places gained. */
  function RankChange(e: Entry): (c: int)
    ensures e.previousRank.None? ==> c == 0
    ensures e.previousRank.Some? ==> e.rank + c == e.previousRank.value
  {
    if e.previousRank.None? then 0 else e.previousRank.value - e.rank
  }

  const Up := "up"
  const Down := "down"
  const Same := "same"

  /** `rank_direction`. */
  function RankDirection(e: Entry): (d: string)
    ensures d == Up || d == Down || d == Same
  {
    var change := RankChange(e);
    if change > 0 then Up
    else if change < 0 then Down
    else Same
  }

  /** The direction is exactly one of the three, chosen by the sign of the change. */
  lemma DirectionBySign(e: Entry)
    ensures RankDirection(e) == Up <==> RankChange(e) > 0
    ensures RankDirection(e) == Down <==> RankChange(e) < 0
    ensures RankDirection(e) == Same <==> RankChange(e) == 0
  {
  }

  /** `has_improved`. */
  predicate HasImproved(e: Entry) {
    RankChange(e) > 0
  }

  /** An entry has improved exactly when its direction is up, that is, when its previous rank
      was a larger number. */
  lemma ImprovedIffUp(e: Entry)
    ensures HasImproved(e) <==> RankDirection(e) == Up
    ensures HasImproved(e) <==> e.previousRank.Some? && e.previousRank.value > e.rank
  {
  }

  /** Ranks never decrease along `s`. */
  predicate SortedByRank(s: seq<Entry>) {
    forall i, j :: 0 <= i < j < |s| ==> s[i].rank <= s[j].rank
  }

  /** `x` placed into the sorted `s` after every entry of rank at most its own. */
  function Insert(x: Entry, s: seq<Entry>): (r: seq<Entry>)
    requires SortedByRank(s)
    ensures SortedByRank(r)
    ensures multiset(r) == multiset(s) + multiset{x}
    ensures |r| == |s| + 1
    ensures r[0] == (if s == [] || x.rank < s[0].rank then x else s[0])
  {
    if s == [] then [x]
    else if x.rank < s[0].rank then
      [x] + s
    else
      var rest := Insert(x, s[1..]);
      assert s == [s[0]] + s[1..];
      assert s[0].rank <= rest[0].rank;
      [s[0]] + rest
  }

  /** `orderBy('rank')`: a stable insertion sort by rank. */
  function SortByRank(s: seq<Entry>): (r: seq<Entry>)
    ensures SortedByRank(r)
    ensures multiset(r) == multiset(s)
    ensures |r| == |s|
  {
    if s == [] then []
    else
      assert s == [s[0]] + s[1..];
      Insert(s[0], SortByRank(s[1..]))
  }

  /** `scopeTop(limit)`: ordered by rank, then at most `limit` rows; a negative limit is
      ignored by the query builder, so every row is returned. */
  function ScopeTop(entries: seq<Entry>, limit: int := 10): seq<Entry> {
    var sorted := SortByRank(entries);
    if limit >= 0 && limit < |sorted| then sorted[..limit] else sorted
  }

  /** Cutting a rank-ordered sequence leaves two rank-ordered parts that share out its
      entries, with every rank of the front at most every rank of the back. */
  lemma SortedCut(sorted: seq<Entry>, n: nat)
    requires SortedByRank(sorted) && n <= |sorted|
    ensures SortedByRank(sorted[..n])
    ensures multiset(sorted[..n]) + multiset(sorted[n..]) == multiset(sorted)
    ensures forall x, y :: x in sorted[..n] && y in sorted[n..] ==> x.rank <= y.rank
  {
    assert sorted == sorted[..n] + sorted[n..];
    forall x, y | x in sorted[..n] && y in sorted[n..] ensures x.rank <= y.rank {
      var i :| 0 <= i < n && sorted[..n][i] == x;
      var j :| 0 <= j < |sorted| - n && sorted[n..][j] == y;
      assert sorted[i] == x && sorted[n + j] == y;
    }
  }

  /** The top rows are in rank order, no more than the limit, drawn from the entries, and none
      of the rows left out ranks ahead of a row kept. */
  lemma ScopeTopFacts(entries: seq<Entry>, limit: int)
    ensures SortedByRank(ScopeTop(entries, limit))
    ensures limit >= 0 ==> |ScopeTop(entries, limit)| <= limit
    ensures |ScopeTop(entries, limit)| <= |entries|
    ensures multiset(ScopeTop(entries, limit)) <= multiset(entries)
    ensures limit < 0 || limit >= |entries| ==> multiset(ScopeTop(entries, limit)) == multiset(entries)
    ensures forall x, y ::
              x in ScopeTop(entries, limit) && y in multiset(entries) - multiset(ScopeTop(entries, limit)) ==> x.rank <= y.rank
  {
    var sorted := SortByRank(entries);
    var top := ScopeTop(entries, limit);
    var n := if limit >= 0 && limit < |sorted| then limit else |sorted|;
    assert top == sorted[..n];
    SortedCut(sorted, n);
    forall x, y | x in top && y in multiset(entries) - multiset(top) ensures x.rank <= y.rank {
      assert y in multiset(sorted[n..]);
    }
  }
}
