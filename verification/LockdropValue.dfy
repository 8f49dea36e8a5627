/**
 What one lockdrop contribution is worth: the early-participation bonus and the
 term multiplier, both in integer percent with floor division.
 Amounts are in wei and unbounded, like the big numbers of the original.
 */
module LockdropValue {
  import opened Wrappers
  import opened PollCalendar

  const JUNE_16TH_UTC: nat := 1560643200
  const JULY_1ST_UTC: nat := 1561939200
  const JULY_16TH_UTC: nat := 1563235200
  const JULY_31ST_UTC: nat := 1564531200
  const AUG_15TH_UTC: nat := 1565827200
  const AUG_30TH_UTC: nat := 1567123200

  const THREE_MONTHS := "0"
  const SIX_MONTHS := "1"
  const TWELVE_MONTHS := "2"
  const SIGNALING := "signaling"

  function EarlyParticipationBonus(lockTime: nat): nat
  {
    if lockTime <= JUNE_16TH_UTC then 150
    else if lockTime <= JULY_1ST_UTC then 135
    else if lockTime <= JULY_16TH_UTC then 123
    else if lockTime <= JULY_31ST_UTC then 114
    else if lockTime <= AUG_15TH_UTC then 108
    else if lockTime <= AUG_30TH_UTC then 105
    else 100
  }

  /** `None` stands for the argument the original leaves undefined. */
  function Bonus(lockTime: Option<nat>, lockStart: Option<nat>): nat
  {
    if lockTime.Some? && lockStart.Some? then EarlyParticipationBonus(lockTime.value) else 100
  }

  function EffectiveValue(eth: nat, term: string, lockTime: Option<nat>, lockStart: Option<nat>): nat
  {
    var bonus := Bonus(lockTime, lockStart);
    if term == THREE_MONTHS then eth * (100 * bonus) / 10000
    else if term == SIX_MONTHS then eth * (130 * bonus) / 10000
    else if term == TWELVE_MONTHS then eth * (220 * bonus) / 10000
    else if term == SIGNALING then eth * 20 / 100
    else 0
  }

  predicate IsLockTerm(term: string)
  {
    term == THREE_MONTHS || term == SIX_MONTHS || term == TWELVE_MONTHS
  }

  /** The numerator and the divisor that EffectiveValue multiplies and divides by. */
  function Rate(term: string, bonus: nat): nat
  {
    if term == THREE_MONTHS then 100 * bonus
    else if term == SIX_MONTHS then 130 * bonus
    else if term == TWELVE_MONTHS then 220 * bonus
    else if term == SIGNALING then 2000
    else 0
  }

  /** All five branches are one floor division by 10000. */
  lemma EffectiveValueIsRate(eth: nat, term: string, lockTime: Option<nat>, lockStart: Option<nat>)
    ensures EffectiveValue(eth, term, lockTime, lockStart) == eth * Rate(term, Bonus(lockTime, lockStart)) / 10000
  {
  }

  /**
   Locking earlier, or locking more, for the same term never lowers the effective value;
   in particular the bonus itself is non-increasing in the lock time.
   */
  lemma EarlierOrLargerLockIsWorthMore(eth: nat, eth': nat, term: string, t: nat, t': nat, start: Option<nat>)
    requires eth <= eth' && t' <= t
    ensures EarlyParticipationBonus(t) <= EarlyParticipationBonus(t')
    ensures EffectiveValue(eth, term, Some(t), start) <= EffectiveValue(eth', term, Some(t'), start)
  {
    EffectiveValueIsRate(eth, term, Some(t), start);
    EffectiveValueIsRate(eth', term, Some(t'), start);
    var rate, rate' := Rate(term, Bonus(Some(t), start)), Rate(term, Bonus(Some(t'), start));
    MulMonotone(eth, eth', rate);
    MulMonotone(rate, rate', eth');
  }

  lemma MulMonotone(a: nat, b: nat, c: nat)
    requires a <= b
    ensures a * c <= b * c
  {
  }

  /** One lock of a valid term is worth at least its amount and at most 1.5, 1.95 or 3.3 times it. */
  lemma LockValueBounds(eth: nat, term: string, lockTime: Option<nat>, lockStart: Option<nat>)
    requires IsLockTerm(term)
    ensures var v := EffectiveValue(eth, term, lockTime, lockStart);
      && eth <= v
      && 100 * v <= (if term == THREE_MONTHS then 150 else if term == SIX_MONTHS then 195 else 330) * eth
  {
  }

  /** A three-month value without a lock time is exact: this is how generalised locks are valued. */
  lemma GeneralizedLockIsExact(eth: nat)
    ensures EffectiveValue(eth, THREE_MONTHS, None, None) == eth
  {
  }

  // ----- splitting one lock into several

  function Sum(amounts: seq<nat>): nat
  {
    if amounts == [] then 0 else amounts[0] + Sum(amounts[1..])
  }

  function SumOfValues(amounts: seq<nat>, term: string, lockTime: Option<nat>, lockStart: Option<nat>): nat
  {
    if amounts == [] then 0
    else EffectiveValue(amounts[0], term, lockTime, lockStart) + SumOfValues(amounts[1..], term, lockTime, lockStart)
  }

  lemma MulDistributes(a: nat, b: nat, c: nat)
    ensures (a + b) * c == a * c + b * c
  {
  }

  /**
   Splitting a lock into n locks of the same term and bonus never raises its
   effective value, and loses at most n - 1 units.
   */
  lemma {:induction false} SplittingLosesLittle(amounts: seq<nat>, term: string,
                                               lockTime: Option<nat>, lockStart: Option<nat>)
    requires amounts != []
    ensures var whole := EffectiveValue(Sum(amounts), term, lockTime, lockStart);
      var parts := SumOfValues(amounts, term, lockTime, lockStart);
      parts <= whole <= parts + |amounts| - 1
  {
    if |amounts| == 1 {
      assert amounts[1..] == [];
    } else {
      hide EffectiveValue, Rate, Bonus;
      SplittingLosesLittle(amounts[1..], term, lockTime, lockStart);
      var rate := Rate(term, Bonus(lockTime, lockStart));
      var a, b := amounts[0], Sum(amounts[1..]);
      EffectiveValueIsRate(a, term, lockTime, lockStart);
      EffectiveValueIsRate(b, term, lockTime, lockStart);
      EffectiveValueIsRate(a + b, term, lockTime, lockStart);
      // two floors against the floor of the sum: nothing gained, at most one unit lost
      MulDistributes(a, b, rate);
    }
  }

  // ----- the tariff, without reference to the code's constants

  /** Percent earned by a term, before the bonus: "0", "1" and "2" are 3, 6 and 12 months. */
  function TermPercent(term: string): nat
  {
    if term == "0" then 100 else if term == "1" then 130 else if term == "2" then 220 else 0
  }

  /**
   The bonus in percent by the fifteen-day periods that have passed since midnight (UTC) on
   16 June 2019, of which the last instant belongs to the period it ends.
   */
  function BonusOfPeriod(seconds: int): nat
  {
    if seconds <= 0 then 150 else
    match (seconds - 1) / (15 * 86400)
    case 0 => 135
    case 1 => 123
    case 2 => 114
    case 3 => 108
    case 4 => 105
    case _ => 100
  }

  /** Midnight on 16 June 2019, in seconds since 1970. */
  function FirstDeadline(): int
  {
    (MonthStart(12 * 2019 + 5) + 15 - MonthStart(12 * 1970 + 0)) * 86400
  }

  lemma BonusByDate(lockTime: nat)
    ensures EarlyParticipationBonus(lockTime) == BonusOfPeriod(lockTime - FirstDeadline())
  {
    hide MonthStart, BonusOfPeriod, EarlyParticipationBonus;
    KnownDates();
    assert FirstDeadline() == 1560643200;
    BonusBySeconds(lockTime);
  }

  lemma BonusBySeconds(lockTime: nat)
    ensures EarlyParticipationBonus(lockTime) == BonusOfPeriod(lockTime - 1560643200)
  {
  }

  /** The value of a lock is its amount times the percentages of term and time, rounded down. */
  lemma LockValueByTariff(eth: nat, term: string, lockTime: nat, lockStart: nat)
    requires term != "signaling"
    ensures var v := EffectiveValue(eth, term, Some(lockTime), Some(lockStart));
      var exact := eth * (TermPercent(term) * BonusOfPeriod(lockTime - FirstDeadline()));
      10000 * v <= exact < 10000 * v + 10000
  {
    hide FirstDeadline, BonusOfPeriod, EarlyParticipationBonus;
    BonusByDate(lockTime);
  }

  /** Without a lock time or a start there is no bonus. */
  lemma ValueWithoutTime(eth: nat, term: string, lockTime: Option<nat>, lockStart: Option<nat>)
    requires lockTime.None? || lockStart.None?
    ensures var v := EffectiveValue(eth, term, lockTime, lockStart);
      if term == "signaling" then v == eth / 5
      else 100 * v <= eth * TermPercent(term) < 100 * v + 100
  {
  }
}
