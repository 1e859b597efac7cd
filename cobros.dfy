/** The collections page (src/app/dashboard/cobros/page.tsx): the badge variant of a credit
    status, and the split of the credits into the up-to-date list and five arrears buckets. */
module Cobros {
  import opened Wrappers
  import Seqs

  const AlDia := "Al día"
  const EnMora := "En mora"

  /** A credit as the page reads it; `daysInArrears` may be missing. Other fields pass
      through to the table untouched. */
  datatype Credit = Credit(operationNumber: string, status: string, daysInArrears: Option<int>)

  /** `getStatusVariantCobros`: a total map from status to badge variant. */
  function StatusVariant(status: string): (v: string)
    ensures v == "secondary" <==> status == AlDia
    ensures v == "destructive" <==> status == EnMora
    ensures v == "outline" <==> status != AlDia && status != EnMora
  {
    if status == AlDia then "secondary"
    else if status == EnMora then "destructive"
    else "outline"
  }

  /** `c.daysInArrears || 0`: a missing count reads as zero. */
  function Days(c: Credit): (d: int)
    ensures c.daysInArrears.None? ==> d == 0
    ensures c.daysInArrears.Some? ==> d == c.daysInArrears.value
  {
    c.daysInArrears.GetOr(0)
  }

  /** `filterCreditsByArrears(daysStart, daysEnd)`: the credits in arrears whose day count lies
      in the range, both ends included; without an end the range is open above. */
  function FilterCreditsByArrears(credits: seq<Credit>, daysStart: int, daysEnd: Option<int> := None): (r: seq<Credit>)
    ensures |r| <= |credits|
    ensures forall c :: c in r ==> c in credits && c.status == EnMora
    ensures forall c :: c in r <==>
      c in credits && c.status == EnMora && daysStart <= Days(c) && (daysEnd.None? || Days(c) <= daysEnd.value)
  {
    Seqs.Filter(credits, (c: Credit) =>
      if c.status != EnMora then false
      else if daysEnd.None? then Days(c) >= daysStart
      else Days(c) >= daysStart && Days(c) <= daysEnd.value)
  }

  /** `alDiaCredits`. */
  function AlDiaCredits(credits: seq<Credit>): seq<Credit> {
    Seqs.Filter(credits, (c: Credit) => c.status == AlDia)
  }

  /** The five buckets of lines 68 to 72, by position: 1-30, 31-60, 61-90, 91-180, 181 and up. */
  function Bucket(credits: seq<Credit>, k: nat): seq<Credit>
    requires k < 5
  {
    if k == 0 then FilterCreditsByArrears(credits, 1, Some(30))
    else if k == 1 then FilterCreditsByArrears(credits, 31, Some(60))
    else if k == 2 then FilterCreditsByArrears(credits, 61, Some(90))
    else if k == 3 then FilterCreditsByArrears(credits, 91, Some(180))
    else FilterCreditsByArrears(credits, 181)
  }

  /** The bucket a day count at least one belongs to. */
  function BucketOf(days: int): (k: nat)
    requires days >= 1
    ensures k < 5
  {
    if days <= 30 then 0 else if days <= 60 then 1 else if days <= 90 then 2 else if days <= 180 then 3 else 4
  }

  /** A credit is in bucket `k` exactly when it is in arrears, counts at least one day, and
      `k` is the bucket of its day count; so the buckets are pairwise disjoint, a credit in
      arrears with one day or more lands in exactly one of them, and one with none in none. */
  lemma BucketMembership(credits: seq<Credit>, c: Credit, k: nat)
    requires k < 5
    ensures c in Bucket(credits, k) <==>
      c in credits && c.status == EnMora && Days(c) >= 1 && BucketOf(Days(c)) == k
  {
  }

  /** The buckets are pairwise disjoint. */
  lemma BucketsDisjoint(credits: seq<Credit>, c: Credit, j: nat, k: nat)
    requires j < 5 && k < 5 && j != k
    ensures !(c in Bucket(credits, j) && c in Bucket(credits, k))
  {
    BucketMembership(credits, c, j);
    BucketMembership(credits, c, k);
  }

  /** Every credit in arrears with at least one day is in some bucket; with no day (or a
      missing count) it is in none; an up-to-date credit is in none. */
  lemma BucketsCover(credits: seq<Credit>, c: Credit)
    requires c in credits
    ensures c.status == EnMora && Days(c) >= 1 ==> c in Bucket(credits, BucketOf(Days(c)))
    ensures Days(c) <= 0 ==> forall k: nat :: k < 5 ==> c !in Bucket(credits, k)
    ensures c in AlDiaCredits(credits) ==> forall k: nat :: k < 5 ==> c !in Bucket(credits, k)
  {
    forall k: nat | k < 5 ensures c in Bucket(credits, k) ==> c.status == EnMora && Days(c) >= 1 {
      BucketMembership(credits, c, k);
    }
    if c.status == EnMora && Days(c) >= 1 {
      BucketMembership(credits, c, BucketOf(Days(c)));
    }
  }

  /** The credits none of the six lists shows. */
  function Unlisted(credits: seq<Credit>): seq<Credit> {
    Seqs.Filter(credits, (c: Credit) => c.status != AlDia && !(c.status == EnMora && Days(c) >= 1))
  }

  /** The six lists and the unlisted credits partition the credits: counted with repetition,
      their lengths add up to the number of credits. */
  lemma {:induction false} PartitionCount(credits: seq<Credit>)
    ensures |AlDiaCredits(credits)| + |Bucket(credits, 0)| + |Bucket(credits, 1)| + |Bucket(credits, 2)|
      + |Bucket(credits, 3)| + |Bucket(credits, 4)| + |Unlisted(credits)| == |credits|
  {
    if credits != [] {
      PartitionCount(credits[1..]);
    }
  }
}
