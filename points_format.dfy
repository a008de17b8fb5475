/**
 * The read-side projection of the ledger: staked amount and estimated reward
 * of a record, and the pretty-printing of amounts with one decimal and the
 * trailing ".0" removed.
 */
module PointsFormat {
  import opened Results
  import opened Models

  predicate IsDigit(c: char) {
    '0' <= c <= '9'
  }

  predicate AllDigits(s: string) {
    forall i :: 0 <= i < |s| ==> IsDigit(s[i])
  }

  function DigitChar(d: nat): (c: char)
    requires d < 10
    ensures IsDigit(c)
  {
    (('0' as int) + d) as char
  }

  function DigitValue(c: char): nat {
    if IsDigit(c) then (c as int) - ('0' as int) else 0
  }

  /** The decimal digits of n, most significant first, without leading zeros. */
  function Digits(n: nat): (s: string)
    ensures |s| > 0 && AllDigits(s)
    ensures n >= 10 ==> s[0] != '0'
    decreases n
  {
    if n < 10 then [DigitChar(n)] else Digits(n / 10) + [DigitChar(n % 10)]
  }

  /** The value of a string of decimal digits. */
  function ParseDigits(s: string): nat
    decreases |s|
  {
    if |s| == 0 then 0 else ParseDigits(s[..|s| - 1]) * 10 + DigitValue(s[|s| - 1])
  }

  lemma {:induction false} DigitsRoundTrip(n: nat)
    ensures ParseDigits(Digits(n)) == n
    decreases n
  {
    var s := Digits(n);
    if n < 10 {
      assert s[..|s| - 1] == [];
    } else {
      DigitsRoundTrip(n / 10);
      assert s[..|s| - 1] == Digits(n / 10);
    }
  }

  predicate EndsWith(s: string, suffix: string) {
    |s| >= |suffix| && s[|s| - |suffix|..] == suffix
  }

  function Sign(negative: bool): string {
    if negative then "-" else ""
  }

  /** `{value:.1f}` of a value already rounded to `tenths` tenths. */
  function FormatOneDecimal(negative: bool, tenths: nat): string {
    Sign(negative) + Digits(tenths / 10) + "." + [DigitChar(tenths % 10)]
  }

  /** The one-decimal form with a trailing ".0" removed. */
  function PrettyPoints(negative: bool, tenths: nat): string {
    var str := FormatOneDecimal(negative, tenths);
    var suffix := ".0";
    if EndsWith(str, suffix) then str[..|str| - |suffix|] else str
  }

  /** A whole number prints without decimals; any other value keeps its one decimal. */
  lemma PrettyPointsShape(negative: bool, tenths: nat)
    ensures tenths % 10 == 0 ==> PrettyPoints(negative, tenths) == Sign(negative) + Digits(tenths / 10)
    ensures tenths % 10 != 0 ==> PrettyPoints(negative, tenths) == FormatOneDecimal(negative, tenths)
  {
    PointZeroSuffix(negative, tenths);
  }

  /** The printed amount never ends in ".0" and has at most one digit after its point. */
  lemma PrettyPointsTrimmed(negative: bool, tenths: nat)
    ensures var s := PrettyPoints(negative, tenths);
      && !EndsWith(s, ".0")
      && forall i :: 0 <= i < |s| && s[i] == '.' ==> i == |s| - 2
  {
    PrettyPointsShape(negative, tenths);
    NoPoint(negative, tenths / 10);
    PointPosition(negative, tenths);
    PointZeroSuffix(negative, tenths);
  }

  /** The one-decimal form has its only point just before the last digit. */
  lemma PointPosition(negative: bool, tenths: nat)
    ensures var str := FormatOneDecimal(negative, tenths);
      forall i :: 0 <= i < |str| && str[i] == '.' ==> i == |str| - 2
  {
    var head := Sign(negative) + Digits(tenths / 10);
    var str := FormatOneDecimal(negative, tenths);
    NoPoint(negative, tenths / 10);
    assert str == head + ['.', DigitChar(tenths % 10)];
    forall i | 0 <= i < |head|
      ensures str[i] == head[i] && str[i] != '.'
    {
    }
  }

  /** A signed integer part contains no decimal point, so it cannot end in ".0". */
  lemma NoPoint(negative: bool, n: nat)
    ensures var s := Sign(negative) + Digits(n);
      (forall i :: 0 <= i < |s| ==> s[i] != '.') && !EndsWith(s, ".0")
  {
    var s := Sign(negative) + Digits(n);
    forall i | 0 <= i < |s|
      ensures s[i] != '.'
    {
      if negative && i == 0 {
      } else {
        assert s[i] == Digits(n)[i - |Sign(negative)|];
      }
    }
    if |s| >= 2 {
      assert s[|s| - 2..][0] == s[|s| - 2];
    }
  }

  lemma PointZeroSuffix(negative: bool, tenths: nat)
    ensures var str := FormatOneDecimal(negative, tenths);
      && (EndsWith(str, ".0") <==> tenths % 10 == 0)
      && |str| >= 2
      && str[..|str| - 2] == Sign(negative) + Digits(tenths / 10)
  {
    var str := FormatOneDecimal(negative, tenths);
    var head := Sign(negative) + Digits(tenths / 10);
    assert str == head + ['.', DigitChar(tenths % 10)];
    assert str[|str| - 2..] == ['.', DigitChar(tenths % 10)];
    assert str[..|str| - 2] == head;
  }

  /** Reads back a pretty-printed amount: an optional '-', digits, and optionally one decimal. */
  function ParsePoints(s: string): Option<(bool, nat)> {
    if |s| > 0 && s[0] == '-' then
      match ParseUnsigned(s[1..])
      case Some(t) => Some((true, t))
      case None => None
    else
      match ParseUnsigned(s)
      case Some(t) => Some((false, t))
      case None => None
  }

  function ParseUnsigned(s: string): Option<nat> {
    if |s| >= 3 && s[|s| - 2] == '.' && AllDigits(s[..|s| - 2]) && IsDigit(s[|s| - 1]) then
      Some(ParseDigits(s[..|s| - 2]) * 10 + DigitValue(s[|s| - 1]))
    else if |s| > 0 && AllDigits(s) then
      Some(ParseDigits(s) * 10)
    else
      None
  }

  /** Pretty-printing loses nothing beyond the rounding to tenths: it can be read back. */
  lemma PrettyPointsRoundTrip(negative: bool, tenths: nat)
    ensures ParsePoints(PrettyPoints(negative, tenths)) == Some((negative, tenths))
  {
    var q, d := tenths / 10, tenths % 10;
    var body := if d == 0 then Digits(q) else Digits(q) + "." + [DigitChar(d)];
    PrettyPointsShape(negative, tenths);
    assert PrettyPoints(negative, tenths) == Sign(negative) + body;
    UnsignedRoundTrip(tenths);
    var s := Sign(negative) + body;
    if negative {
      assert s[1..] == body;
    } else {
      assert s == body && IsDigit(s[0]);
    }
  }

  lemma UnsignedRoundTrip(tenths: nat)
    ensures var q, d := tenths / 10, tenths % 10;
      ParseUnsigned(if d == 0 then Digits(q) else Digits(q) + "." + [DigitChar(d)]) == Some(tenths)
  {
    var q, d := tenths / 10, tenths % 10;
    DigitsRoundTrip(q);
    if d == 0 {
      var body := Digits(q);
      if |body| >= 2 {
        assert IsDigit(body[|body| - 2]);
      }
      assert ParseUnsigned(body) == Some(ParseDigits(body) * 10);
    } else {
      var body := Digits(q) + "." + [DigitChar(d)];
      assert body[..|body| - 2] == Digits(q);
      assert body[|body| - 2] == '.';
      assert DigitValue(body[|body| - 1]) == d;
    }
  }

  function Pow10(n: nat): (p: nat)
    ensures p >= 1
  {
    if n == 0 then 1 else 10 * Pow10(n - 1)
  }

  /**
   * Rounds v / unit to the nearest integer, ties to even, as decimal
   * formatting does under the default context: the quotient is rounded down
   * when the remainder is below half a unit, up when above, and to the even
   * neighbour on a tie.
   */
  function RoundHalfEven(v: nat, unit: nat): (q: nat)
    requires unit > 0
    ensures q == v / unit || q == v / unit + 1
    ensures 2 * (v % unit) < unit ==> q == v / unit
    ensures 2 * (v % unit) > unit ==> q == v / unit + 1
    ensures 2 * (v % unit) == unit ==> q % 2 == 0
  {
    var down, rest := v / unit, v % unit;
    if 2 * rest > unit || (2 * rest == unit && down % 2 == 1) then down + 1 else down
  }

  /** `pp_points` of an amount held with `decimals` fractional digits. */
  function ShowAmount(v: int, decimals: nat): (s: string)
    requires decimals >= 1
    ensures !EndsWith(s, ".0")
  {
    PrettyPointsTrimmed(v < 0, RoundHalfEven(if v < 0 then -v else v, Pow10(decimals - 1)));
    PrettyPoints(v < 0, RoundHalfEven(if v < 0 then -v else v, Pow10(decimals - 1)))
  }

  /** The staked part of a record, with 8 fractional digits. */
  function StakedAmount(epochLowestBalance: int, epoch: Epoch): (staked: int)
    ensures 0 <= epochLowestBalance && 0 <= epoch.portfolioPercentage <= AMOUNT_SCALE ==>
      0 <= staked <= epochLowestBalance * AMOUNT_SCALE
  {
    epochLowestBalance * epoch.portfolioPercentage
  }

  /** The estimated reward of a record, with 12 fractional digits. */
  function EstimatedReward(epochLowestBalance: int, epoch: Epoch): (reward: int)
    ensures 0 <= epochLowestBalance && 0 <= epoch.portfolioPercentage && 0 <= epoch.apy <= AMOUNT_SCALE ==>
      0 <= reward <= StakedAmount(epochLowestBalance, epoch) * AMOUNT_SCALE
  {
    var staked := StakedAmount(epochLowestBalance, epoch);
    assert epochLowestBalance * epoch.apy * epoch.portfolioPercentage == staked * epoch.apy;
    epochLowestBalance * epoch.apy * epoch.portfolioPercentage
  }

  /** A lower low-water mark never yields a larger staked amount or reward. */
  lemma RewardMonotone(lower: int, higher: int, epoch: Epoch)
    requires 0 <= lower <= higher
    requires 0 <= epoch.apy && 0 <= epoch.portfolioPercentage
    ensures StakedAmount(lower, epoch) <= StakedAmount(higher, epoch)
    ensures EstimatedReward(lower, epoch) <= EstimatedReward(higher, epoch)
  {
    var d := higher - lower;
    assert StakedAmount(higher, epoch) == StakedAmount(lower, epoch) + d * epoch.portfolioPercentage;
    assert EstimatedReward(higher, epoch) == EstimatedReward(lower, epoch) + d * epoch.apy * epoch.portfolioPercentage;
  }

  datatype StakingInfo = StakingInfo(balance: string, staked: string, epochEnd: int, reward: string)

  /** The staking status block: balance, staked amount, epoch end (a timestamp) and reward. */
  function DisplayStakingInfo(points: int, epochLowestBalance: int, currentEpoch: Epoch): (info: StakingInfo)
    ensures info.epochEnd == currentEpoch.endDatetime
    ensures !EndsWith(info.balance, ".0") && !EndsWith(info.staked, ".0") && !EndsWith(info.reward, ".0")
  {
    StakingInfo(
      ShowAmount(points, 4),
      ShowAmount(StakedAmount(epochLowestBalance, currentEpoch), 8),
      currentEpoch.endDatetime,
      ShowAmount(EstimatedReward(epochLowestBalance, currentEpoch), 12))
  }

  /** A low-water mark of 60 points in a default epoch shows a reward of 0.6 and a stake of 12. */
  lemma DefaultEpochRewardExample()
    ensures var info := DisplayStakingInfo(900000, 600000, NewEpoch(0, EPOCH_DURATION));
      info.balance == "90" && info.staked == "12" && info.reward == "0.6"
  {
    var epoch := NewEpoch(0, EPOCH_DURATION);
    assert StakedAmount(600000, epoch) == 1200000000;
    assert EstimatedReward(600000, epoch) == 600000000000;
    assert Pow10(3) == 1000;
    assert Pow10(7) == 10000000;
    assert Pow10(11) == 100000000000;
    assert RoundHalfEven(900000, 1000) == 900;
    assert RoundHalfEven(1200000000, 10000000) == 120;
    assert RoundHalfEven(600000000000, 100000000000) == 6;
    assert Digits(9) == "9" && Digits(90) == "90";
    assert Digits(1) == "1" && Digits(12) == "12";
    assert Digits(0) == "0";
    PrettyPointsShape(false, 900);
    PrettyPointsShape(false, 120);
    PrettyPointsShape(false, 6);
    assert FormatOneDecimal(false, 6) == "0.6";
  }
}
