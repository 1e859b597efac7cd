/** Ledger entries (backend/app/Models/Rewards/RewardTransaction.php): sign, absolute value,
    display format, expiry and the filter scopes. */
module Transactions {
  import opened Wrappers
  import Seqs

  const Earn := "earn"
  const Spend := "spend"
  const Bonus := "bonus"
  const Adjustment := "adjustment"
  const Expired := "expired"
  const Refund := "refund"

  /** `TYPES`, in declaration order. */
  const Types: seq<string> := [Earn, Spend, Bonus, Adjustment, Expired, Refund]

  lemma TypesDistinct()
    ensures |Types| == 6
    ensures forall i, j :: 0 <= i < j < |Types| ==> Types[i] != Types[j]
  {
  }

  /** A row of reward_transactions; times are seconds. */
  datatype Transaction = Transaction(
    rewardUserId: int,
    kind: string,
    amount: int,
    balanceAfter: int,
    expiresAt: Option<int>)

  /** `is_earn`. */
  predicate IsEarn(t: Transaction) {
    t.amount > 0
  }

  /** `is_spend`. */
  predicate IsSpend(t: Transaction) {
    t.amount < 0
  }

  /** A transaction is never both an earn and a spend, and a zero amount is neither. */
  lemma EarnSpendExclusive(t: Transaction)
    ensures !(IsEarn(t) && IsSpend(t))
    ensures t.amount == 0 <==> !IsEarn(t) && !IsSpend(t)
  {
  }

  /** `absolute_amount`. */
  function AbsoluteAmount(t: Transaction): (a: nat)
    ensures a == t.amount || a == -t.amount
  {
    if t.amount < 0 then -t.amount else t.amount
  }

  /** `is_expired`: an expiry is set and already past. */
  predicate IsExpired(t: Transaction, now: int) {
    t.expiresAt.Some? && t.expiresAt.value < now
  }

  /** `scopeEarned`: `amount > 0`. */
  function ScopeEarned(ts: seq<Transaction>): seq<Transaction> {
    Seqs.Filter(ts, (t: Transaction) => t.amount > 0)
  }

  /** `scopeSpent`: `amount < 0`. */
  function ScopeSpent(ts: seq<Transaction>): seq<Transaction> {
    Seqs.Filter(ts, (t: Transaction) => t.amount < 0)
  }

  /** `scopeNotExpired`: `expires_at` null or later than now. */
  function ScopeNotExpired(ts: seq<Transaction>, now: int): seq<Transaction> {
    Seqs.Filter(ts, (t: Transaction) => t.expiresAt.None? || t.expiresAt.value > now)
  }

  /** The earned and spent scopes select exactly what the accessors accept, and share nothing. */
  lemma ScopesMatchAccessors(ts: seq<Transaction>, t: Transaction)
    ensures t in ScopeEarned(ts) <==> t in ts && IsEarn(t)
    ensures t in ScopeSpent(ts) <==> t in ts && IsSpend(t)
    ensures !(t in ScopeEarned(ts) && t in ScopeSpent(ts))
  {
  }

  /** No transaction is both kept by `scopeNotExpired` and `is_expired`; one expiring exactly
      now is neither kept nor expired, and every other one is exactly one of the two. */
  lemma NotExpiredVersusExpired(ts: seq<Transaction>, t: Transaction, now: int)
    requires t in ts
    ensures !(t in ScopeNotExpired(ts, now) && IsExpired(t, now))
    ensures t.expiresAt == Some(now) ==> t !in ScopeNotExpired(ts, now) && !IsExpired(t, now)
    ensures t.expiresAt != Some(now) ==> (t in ScopeNotExpired(ts, now) <==> !IsExpired(t, now))
  {
  }

  // ---------------------------------------------------------------------------
  // number_format of an integer: thousands grouped with ',', no decimals.

  function DigitChar(d: nat): char
    requires d < 10
  {
    ('0' as int + d) as char
  }

  predicate IsDigit(c: char) {
    '0' <= c <= '9'
  }

  /** The shortest decimal spelling of `n`. */
  function Decimal(n: nat): (s: string)
    ensures |s| >= 1 && forall i :: 0 <= i < |s| ==> IsDigit(s[i])
  {
    if n < 10 then [DigitChar(n)] else Decimal(n / 10) + [DigitChar(n % 10)]
  }

  /** Three digits, with leading zeros. */
  function Pad3(n: nat): (s: string)
    requires n < 1000
    ensures |s| == 3 && forall i :: 0 <= i < 3 ==> IsDigit(s[i])
  {
    [DigitChar(n / 100), DigitChar(n / 10 % 10), DigitChar(n % 10)]
  }

  /** `n` in decimal with a comma before every group of three digits from the right. */
  function Grouped(n: nat): string {
    if n < 1000 then Decimal(n) else Grouped(n / 1000) + "," + Pad3(n % 1000)
  }

  /** PHP's `number_format` of an integer. */
  function NumberFormat(a: int): string {
    if a < 0 then "-" + Grouped(-a) else Grouped(a)
  }

  /** `formatted_amount`: '+' for a non-negative amount, then `number_format` (which
      carries the '-' of a negative one). */
  function FormattedAmount(t: Transaction): (s: string)
    ensures |s| >= 2
    ensures s[0] == '+' <==> t.amount >= 0
    ensures s[0] == '-' <==> t.amount < 0
  {
    GroupedShape(if t.amount < 0 then -t.amount else t.amount);
    (if t.amount >= 0 then "+" else "") + NumberFormat(t.amount)
  }

  /** A digit string in groups: 1 to 3 digits, then any number of ",ddd". */
  ghost predicate WellGrouped(s: string)
    decreases |s|
  {
    (1 <= |s| <= 3 && forall i :: 0 <= i < |s| ==> IsDigit(s[i]))
    || (|s| >= 5 && s[|s| - 4] == ',' && IsDigit(s[|s| - 3]) && IsDigit(s[|s| - 2]) && IsDigit(s[|s| - 1])
        && WellGrouped(s[..|s| - 4]))
  }

  lemma {:induction false} DecimalShort(n: nat)
    requires n < 1000
    ensures |Decimal(n)| <= 3
  {
    if n >= 10 { DecimalShort(n / 10); }
  }

  /** `number_format` groups the digits in threes and starts with a digit. */
  lemma {:induction false} GroupedShape(n: nat)
    ensures WellGrouped(Grouped(n))
    ensures IsDigit(Grouped(n)[0])
  {
    if n < 1000 {
      DecimalShort(n);
    } else {
      GroupedShape(n / 1000);
      var front := Grouped(n / 1000);
      var s := front + "," + Pad3(n % 1000);
      assert s[..|s| - 4] == front;
    }
  }

  // The inverse: reading a formatted amount back.

  function DigitValue(c: char): int {
    c as int - '0' as int
  }

  /** The number a digit string spells. */
  function ParseDecimal(s: string): int {
    if s == [] then 0 else ParseDecimal(s[..|s| - 1]) * 10 + DigitValue(s[|s| - 1])
  }

  function StripCommas(s: string): string {
    if s == [] then [] else (if s[0] == ',' then [] else [s[0]]) + StripCommas(s[1..])
  }

  /** Reads back a formatted amount: an optional sign, then grouped digits. */
  function ParseFormatted(s: string): Option<int> {
    if s == [] then None
    else if s[0] == '+' then Some(ParseDecimal(StripCommas(s[1..])))
    else if s[0] == '-' then Some(-ParseDecimal(StripCommas(s[1..])))
    else None
  }

  lemma {:induction false} StripCommasAppend(a: string, b: string)
    ensures StripCommas(a + b) == StripCommas(a) + StripCommas(b)
  {
    if a == [] {
      assert a + b == b;
    } else {
      assert (a + b)[0] == a[0];
      assert (a + b)[1..] == a[1..] + b;
      StripCommasAppend(a[1..], b);
    }
  }

  lemma {:induction false} StripCommasDigits(s: string)
    requires forall i :: 0 <= i < |s| ==> IsDigit(s[i])
    ensures StripCommas(s) == s
  {
    if s != [] { StripCommasDigits(s[1..]); }
  }

  lemma {:induction false} ParseDecimalOf(n: nat)
    ensures ParseDecimal(Decimal(n)) == n
  {
    if n >= 10 {
      ParseDecimalOf(n / 10);
      var s := Decimal(n / 10) + [DigitChar(n % 10)];
      assert s[..|s| - 1] == Decimal(n / 10);
    }
  }

  /** Appending a digit shifts the value one decimal place and adds the digit. */
  lemma ParseDecimalSnoc(front: string, c: char)
    ensures ParseDecimal(front + [c]) == ParseDecimal(front) * 10 + DigitValue(c)
  {
    var s := front + [c];
    assert s[..|s| - 1] == front && s[|s| - 1] == c;
  }

  /** The three characters of `Pad3(r)` are its hundreds, tens and units digits. */
  lemma Pad3Digits(r: nat)
    requires r < 1000
    ensures DigitValue(Pad3(r)[0]) * 100 + DigitValue(Pad3(r)[1]) * 10 + DigitValue(Pad3(r)[2]) == r
  {
    var d0, d1, d2 := r / 100, r / 10 % 10, r % 10;
    assert DigitValue(DigitChar(d0)) == d0;
    assert DigitValue(DigitChar(d1)) == d1;
    assert DigitValue(DigitChar(d2)) == d2;
    assert d0 * 100 + d1 * 10 + d2 == r;
  }

  lemma {:induction false} ParseDecimalPad3(front: string, r: nat)
    requires r < 1000
    ensures ParseDecimal(front + Pad3(r)) == ParseDecimal(front) * 1000 + r
  {
    var p := Pad3(r);
    var s1 := front + [p[0]];
    var s2 := s1 + [p[1]];
    assert front + p == s2 + [p[2]];
    ParseDecimalSnoc(front, p[0]);
    ParseDecimalSnoc(s1, p[1]);
    ParseDecimalSnoc(s2, p[2]);
    Pad3Digits(r);
  }

  lemma {:induction false} ParseGrouped(n: nat)
    ensures ParseDecimal(StripCommas(Grouped(n))) == n
  {
    if n < 1000 {
      StripCommasDigits(Decimal(n));
      ParseDecimalOf(n);
    } else {
      ParseGrouped(n / 1000);
      var front := Grouped(n / 1000);
      StripCommasAppend(front + ",", Pad3(n % 1000));
      StripCommasAppend(front, ",");
      StripCommasDigits(Pad3(n % 1000));
      assert StripCommas(",") == [];
      assert StripCommas(Grouped(n)) == StripCommas(front) + Pad3(n % 1000);
      ParseDecimalPad3(StripCommas(front), n % 1000);
      assert (n / 1000) * 1000 + n % 1000 == n;
    }
  }

  /** Reading a formatted amount back gives the amount: the format loses nothing. */
  lemma FormattedAmountRoundTrip(t: Transaction)
    ensures ParseFormatted(FormattedAmount(t)) == Some(t.amount)
  {
    var n := if t.amount < 0 then -t.amount else t.amount;
    ParseGrouped(n);
    var s := FormattedAmount(t);
    assert s[1..] == Grouped(n);
  }
}
