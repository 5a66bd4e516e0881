/** The overdraft granted to a customer, in 64-bit integer arithmetic. */
module Overdraft {
  import opened MachineIntegers

  datatype Config = Config(
    minAgeDays: real,
    matureAgeDays: real,
    midTierPercent: int,
    maturePercent: int,
    maxCap: int,
    reconLagThreshold: int,
    reconLagPenaltyPct: int)

  /** Integer division as the program does it: towards zero. */
  function TruncDiv(a: int, b: int): int
    requires b > 0
  {
    if a >= 0 then a / b else -(-a / b)
  }

  function Percent(cfg: Config, ageDays: real): int {
    if ageDays < cfg.matureAgeDays then cfg.midTierPercent else cfg.maturePercent
  }

  function Capped(amount: int, cap: int): int {
    if amount > cap then cap else amount
  }

  predicate Penalised(cfg: Config, reconLag: int) {
    cfg.reconLagThreshold > 0 && reconLag > cfg.reconLagThreshold
  }

  /** What is left of a hundred after the penalty, kept between 0 and 100. */
  function Kept(cfg: Config): nat
    ensures Kept(cfg) <= 100
  {
    if cfg.reconLagPenaltyPct < 0 then 100 else if cfg.reconLagPenaltyPct > 100 then 0 else 100 - cfg.reconLagPenaltyPct
  }

  /** The intended amount, over unbounded integers. */
  function Exact(cfg: Config, ageDays: real, topupSum: int, reconLag: int): int {
    if ageDays < cfg.minAgeDays then 0
    else
      var granted := Capped(TruncDiv(topupSum * Percent(cfg, ageDays), 100), cfg.maxCap);
      if Penalised(cfg, reconLag) then TruncDiv(granted * Kept(cfg), 100) else granted
  }

  /** The top-ups leave the first product in range. */
  predicate Fits(cfg: Config, ageDays: real, topupSum: int) {
    InInt64(topupSum * Percent(cfg, ageDays))
  }

  /** What 64-bit arithmetic makes of it. */
  function Wrapped(cfg: Config, ageDays: real, topupSum: int, reconLag: int): int {
    if ageDays < cfg.minAgeDays then 0
    else
      var granted := Capped(TruncDiv(WrapI(topupSum * Percent(cfg, ageDays)), 100), cfg.maxCap);
      if Penalised(cfg, reconLag) then TruncDiv(WrapI(granted * Kept(cfg)), 100) else granted
  }

  method CalculateOverdraft(cfg: Config, ageDays: real, topupSum: int, reconLag: int) returns (overdraft: int)
    ensures overdraft == Wrapped(cfg, ageDays, topupSum, reconLag)
  {
    if ageDays < cfg.minAgeDays {
      return 0;
    }
    if ageDays < cfg.matureAgeDays {
      overdraft := TruncDiv(WrapI(topupSum * cfg.midTierPercent), 100);
    } else {
      overdraft := TruncDiv(WrapI(topupSum * cfg.maturePercent), 100);
    }
    if overdraft > cfg.maxCap {
      overdraft := cfg.maxCap;
    }
    if cfg.reconLagThreshold > 0 && reconLag > cfg.reconLagThreshold {
      var penalty := cfg.reconLagPenaltyPct;
      if penalty < 0 {
        penalty := 0;
      }
      if penalty > 100 {
        penalty := 100;
      }
      overdraft := TruncDiv(WrapI(overdraft * (100 - penalty)), 100);
    }
  }

  lemma WrapFits(n: int)
    ensures InInt64(WrapI(n)) && (InInt64(n) <==> WrapI(n) == n)
  {
  }

  /** The first product is the only one that can overflow: if it fits, the arithmetic is exact. */
  lemma WrappedIsExact(cfg: Config, ageDays: real, topupSum: int, reconLag: int)
    requires cfg.maxCap >= 0 && (ageDays < cfg.minAgeDays || Fits(cfg, ageDays, topupSum))
    ensures Wrapped(cfg, ageDays, topupSum, reconLag) == Exact(cfg, ageDays, topupSum, reconLag)
  {
    if ageDays >= cfg.minAgeDays {
      var product := topupSum * Percent(cfg, ageDays);
      WrapFits(product);
      var granted := Capped(TruncDiv(product, 100), cfg.maxCap);
      PenaltyFits(granted, Kept(cfg));
      WrapFits(granted * Kept(cfg));
    }
  }

  /** Whatever overflows, the cap holds. */
  lemma NeverAboveCap(cfg: Config, ageDays: real, topupSum: int, reconLag: int)
    requires cfg.maxCap >= 0
    ensures Wrapped(cfg, ageDays, topupSum, reconLag) <= cfg.maxCap
  {
    if ageDays >= cfg.minAgeDays {
      var product := WrapI(topupSum * Percent(cfg, ageDays));
      WrapFits(topupSum * Percent(cfg, ageDays));
      var granted := Capped(TruncDiv(product, 100), cfg.maxCap);
      PenaltyFits(granted, Kept(cfg));
      WrapFits(granted * Kept(cfg));
      if granted >= 0 {
        KeepsPart(granted, Kept(cfg));
      }
    }
  }

  /** Some part of the amount survives the penalty. */
  predicate SomethingKept(cfg: Config, reconLag: int) {
    !Penalised(cfg, reconLag) || Kept(cfg) > 0
  }

  /** The smallest top-ups whose product with the percentage overflows. */
  function FirstOverflow(percent: int): int
    requires percent > 0
  {
    MAX_INT64 / percent + 1
  }

  lemma FirstOverflowWraps(percent: int)
    requires 0 < percent <= MAX_INT64 - 10_000
    ensures var t := FirstOverflow(percent);
            && MAX_INT64 < t * percent <= MAX_INT64 + percent
            && MIN_INT64 <= WrapI(t * percent) <= -10_000
  {
    var q := MAX_INT64 / percent;
    assert MAX_INT64 == q * percent + MAX_INT64 % percent;
    var product := (q + 1) * percent;
    assert product == q * percent + percent;
    WrapsOnce(product);
  }

  lemma WrapsOnce(n: int)
    requires MAX_INT64 < n < TWO64
    ensures WrapI(n) == n - TWO64
  {
  }

  lemma NegativeStaysNegative(cfg: Config, granted: int)
    requires granted <= -100 && Kept(cfg) > 0 && MIN_INT64 <= granted * 100
    ensures TruncDiv(WrapI(granted * Kept(cfg)), 100) < 0
  {
    PenaltyFits(granted, Kept(cfg));
    WrapFits(granted * Kept(cfg));
    ProductGrows(1, Kept(cfg), -granted);
    assert granted * Kept(cfg) <= granted;
  }

  lemma FirstOverflowIsNegative(cfg: Config, ageDays: real, reconLag: int)
    requires cfg.minAgeDays <= ageDays && cfg.maxCap >= 0 && SomethingKept(cfg, reconLag)
    requires 0 < Percent(cfg, ageDays) <= MAX_INT64 - 10_000
    ensures Wrapped(cfg, ageDays, FirstOverflow(Percent(cfg, ageDays)), reconLag) < 0
  {
    var percent := Percent(cfg, ageDays);
    FirstOverflowWraps(percent);
    var granted := TruncDiv(WrapI(FirstOverflow(percent) * percent), 100);
    assert granted <= -100;
    if Penalised(cfg, reconLag) {
      NegativeStaysNegative(cfg, granted);
    }
  }

  ghost predicate WithinCapUpTo(cfg: Config, ageDays: real, top: int, reconLag: int) {
    forall t :: 0 <= t <= top ==> 0 <= Wrapped(cfg, ageDays, t, reconLag) <= cfg.maxCap
  }

  ghost predicate ExactUpTo(cfg: Config, ageDays: real, top: int, reconLag: int) {
    forall t :: 0 <= t <= top ==> Wrapped(cfg, ageDays, t, reconLag) == Exact(cfg, ageDays, t, reconLag)
  }

  lemma FitsBelow(cfg: Config, ageDays: real, top: int, t: int)
    requires 0 <= t <= top && Percent(cfg, ageDays) >= 0 && top * Percent(cfg, ageDays) <= MAX_INT64
    ensures Fits(cfg, ageDays, t)
  {
    ProductGrows(t, top, Percent(cfg, ageDays));
    ProductGrows(0, t, Percent(cfg, ageDays));
  }

  lemma OverflowIsReached(percent: int, top: int)
    requires percent > 0 && top * percent > MAX_INT64
    ensures 0 <= FirstOverflow(percent) <= top
  {
    var q := MAX_INT64 / percent;
    assert q * percent <= MAX_INT64;
    if top <= q {
      ProductGrows(top, q, percent);
    }
  }

  /** Exactly when the arithmetic can be trusted: every amount up to the given top-ups lies between 0
      and the cap, and is the intended one, if and only if the first product of the largest fits. */
  lemma TrustedIff(cfg: Config, ageDays: real, top: int, reconLag: int)
    requires cfg.minAgeDays <= ageDays && cfg.maxCap >= 0 && 0 <= top <= MAX_INT64 && SomethingKept(cfg, reconLag)
    requires 0 <= cfg.midTierPercent <= MAX_INT64 - 10_000 && 0 <= cfg.maturePercent <= MAX_INT64 - 10_000
    ensures WithinCapUpTo(cfg, ageDays, top, reconLag) <==> top * Percent(cfg, ageDays) <= MAX_INT64
    ensures ExactUpTo(cfg, ageDays, top, reconLag) <==> top * Percent(cfg, ageDays) <= MAX_INT64
  {
    var percent := Percent(cfg, ageDays);
    if top * percent <= MAX_INT64 {
      forall t | 0 <= t <= top
        ensures Wrapped(cfg, ageDays, t, reconLag) == Exact(cfg, ageDays, t, reconLag)
        ensures 0 <= Exact(cfg, ageDays, t, reconLag) <= cfg.maxCap
      {
        FitsBelow(cfg, ageDays, top, t);
        WrappedIsExact(cfg, ageDays, t, reconLag);
        ExactWithinCap(cfg, ageDays, t, reconLag);
      }
    } else {
      var t := FirstOverflow(percent);
      OverflowIsReached(percent, top);
      FirstOverflowIsNegative(cfg, ageDays, reconLag);
      ExactWithinCap(cfg, ageDays, t, reconLag);
      assert Wrapped(cfg, ageDays, t, reconLag) < 0;
    }
  }

  /** The bound on the percentages is needed: near the largest integer a product can wrap to almost
      nothing, and the amount is wrong without leaving the range. */
  lemma HugePercentHidesOverflow()
    ensures var cfg := Config(0.0, 0.0, MAX_INT64, MAX_INT64, 1_000_000, 0, 0);
            && WithinCapUpTo(cfg, 40.0, 2, 0) && !(2 * Percent(cfg, 40.0) <= MAX_INT64)
            && Wrapped(cfg, 40.0, 2, 0) != Exact(cfg, 40.0, 2, 0)
  {
    var cfg := Config(0.0, 0.0, MAX_INT64, MAX_INT64, 1_000_000, 0, 0);
    assert WrapI(2 * MAX_INT64) == -2 && WrapI(1 * MAX_INT64) == MAX_INT64 && WrapI(0 * MAX_INT64) == 0;
    forall t | 0 <= t <= 2 ensures 0 <= Wrapped(cfg, 40.0, t, 0) <= cfg.maxCap {
      assert t == 0 || t == 1 || t == 2;
    }
  }

  /** A penalty of a hundred percent hides every overflow. */
  lemma NothingKeptIsZero(cfg: Config, ageDays: real, topupSum: int, reconLag: int)
    requires !SomethingKept(cfg, reconLag)
    ensures Wrapped(cfg, ageDays, topupSum, reconLag) == 0
  {
  }

  /** But the amount can turn out negative: top-ups of 2^62 at two percent. */
  lemma OverflowGivesNegative()
    ensures Wrapped(Config(0.0, 0.0, 2, 2, 1_000_000, 0, 0), 40.0, TWO64 / 4, 0) < 0
  {
    var product := TWO64 / 4 * 2;
    assert WrapI(product) == -(TWO64 / 2);
  }

  lemma PenaltyFits(overdraft: int, kept: nat)
    requires MIN_INT64 <= overdraft * 100 <= MAX_INT64 && kept <= 100
    ensures InInt64(overdraft * kept)
    ensures overdraft >= 0 ==> 0 <= overdraft * kept <= overdraft * 100
    ensures overdraft <= 0 ==> overdraft * 100 <= overdraft * kept <= 0
  {
    if overdraft >= 0 {
      ProductGrows(kept, 100, overdraft);
      ProductGrows(0, kept, overdraft);
    } else {
      ProductGrows(kept, 100, -overdraft);
      ProductGrows(0, kept, -overdraft);
    }
  }

  lemma ProductGrows(a: int, b: int, k: int)
    requires a <= b && k >= 0
    ensures a * k <= b * k
  {
  }

  lemma TruncDivGrows(a: int, b: int)
    requires a <= b
    ensures TruncDiv(a, 100) <= TruncDiv(b, 100)
  {
  }

  // ------------------------------------------------------------------ laws of the amount

  /** Without a penalty: the tier's percentage of the top-ups, rounded down, and the cap if that is less.
      The tier is the mature one from `matureAgeDays` on, and nothing before `minAgeDays`. */
  lemma AmountIs(cfg: Config, ageDays: real, topupSum: int, reconLag: int)
    requires topupSum >= 0 && cfg.midTierPercent >= 0 && cfg.maturePercent >= 0 && cfg.maxCap >= 0
    requires cfg.reconLagThreshold <= 0 || reconLag <= cfg.reconLagThreshold
    ensures var percent := if ageDays >= cfg.matureAgeDays then cfg.maturePercent else cfg.midTierPercent;
            var amount := Exact(cfg, ageDays, topupSum, reconLag);
            if ageDays < cfg.minAgeDays then amount == 0
            else if topupSum * percent >= 100 * (cfg.maxCap + 1) then amount == cfg.maxCap
            else 100 * amount <= topupSum * percent < 100 * amount + 100
  {
    ProductGrows(0, topupSum, Percent(cfg, ageDays));
  }

  /** With one: a hundred less the penalty in percent, the penalty being kept between 0 and 100, of that,
      rounded down. */
  lemma PenaltyTakes(cfg: Config, ageDays: real, topupSum: int, reconLag: int)
    requires topupSum >= 0 && cfg.midTierPercent >= 0 && cfg.maturePercent >= 0 && cfg.maxCap >= 0
    requires 0 < cfg.reconLagThreshold < reconLag
    ensures var base := Exact(cfg, ageDays, topupSum, cfg.reconLagThreshold);
            var amount, penalty := Exact(cfg, ageDays, topupSum, reconLag), cfg.reconLagPenaltyPct;
            && (penalty <= 0 ==> amount == base)
            && (penalty >= 100 ==> amount == 0)
            && (0 <= penalty <= 100 ==> 100 * amount <= base * (100 - penalty) < 100 * amount + 100)
  {
    ProductGrows(0, topupSum, Percent(cfg, ageDays));
    var granted := Capped(TruncDiv(topupSum * Percent(cfg, ageDays), 100), cfg.maxCap);
    ProductGrows(0, Kept(cfg), granted);
  }

  /** Non-negative inputs give an amount between 0 and the cap. */
  lemma ExactWithinCap(cfg: Config, ageDays: real, topupSum: int, reconLag: int)
    requires topupSum >= 0 && cfg.midTierPercent >= 0 && cfg.maturePercent >= 0 && cfg.maxCap >= 0
    ensures 0 <= Exact(cfg, ageDays, topupSum, reconLag) <= cfg.maxCap
  {
    ProductGrows(0, topupSum, Percent(cfg, ageDays));
    var granted := Capped(TruncDiv(topupSum * Percent(cfg, ageDays), 100), cfg.maxCap);
    KeepsPart(granted, Kept(cfg));
  }

  /** The penalty takes something away, and never more than everything. */
  lemma KeepsPart(granted: int, kept: nat)
    requires granted >= 0 && kept <= 100
    ensures 0 <= TruncDiv(granted * kept, 100) <= granted
  {
    ProductGrows(0, kept, granted);
    ProductGrows(kept, 100, granted);
    assert granted * kept <= granted * 100;
  }

  /** A percentage applied to a larger amount is at least as large, before and after the penalty. */
  lemma PenaltyGrows(cfg: Config, a: int, b: int, reconLag: int)
    requires a <= b
    ensures var pa := if Penalised(cfg, reconLag) then TruncDiv(a * Kept(cfg), 100) else a;
            var pb := if Penalised(cfg, reconLag) then TruncDiv(b * Kept(cfg), 100) else b;
            pa <= pb
  {
    ProductGrows(a, b, Kept(cfg));
    TruncDivGrows(a * Kept(cfg), b * Kept(cfg));
  }

  /** More top-ups never lower the amount. */
  lemma MonotoneInTopups(cfg: Config, ageDays: real, less: int, more: int, reconLag: int)
    requires less <= more && cfg.midTierPercent >= 0 && cfg.maturePercent >= 0
    ensures Exact(cfg, ageDays, less, reconLag) <= Exact(cfg, ageDays, more, reconLag)
  {
    var percent := Percent(cfg, ageDays);
    ProductGrows(less, more, percent);
    TruncDivGrows(less * percent, more * percent);
    PenaltyGrows(cfg, Capped(TruncDiv(less * percent, 100), cfg.maxCap),
                 Capped(TruncDiv(more * percent, 100), cfg.maxCap), reconLag);
  }

  /** A larger reconciliation lag never raises it. */
  lemma AntitoneInLag(cfg: Config, ageDays: real, topupSum: int, less: int, more: int)
    requires less <= more && topupSum >= 0 && cfg.midTierPercent >= 0 && cfg.maturePercent >= 0 && cfg.maxCap >= 0
    ensures Exact(cfg, ageDays, topupSum, more) <= Exact(cfg, ageDays, topupSum, less)
  {
    ProductGrows(0, topupSum, Percent(cfg, ageDays));
    KeepsPart(Capped(TruncDiv(topupSum * Percent(cfg, ageDays), 100), cfg.maxCap), Kept(cfg));
  }

  ghost predicate MonotoneInAge(cfg: Config, reconLag: int) {
    forall young, older, topupSum :: young <= older && topupSum >= 0 ==>
      Exact(cfg, young, topupSum, reconLag) <= Exact(cfg, older, topupSum, reconLag)
  }

  /** Growing older never lowers the amount if the mature percentage is no smaller. */
  lemma OlderIsNoWorse(cfg: Config, young: real, older: real, topupSum: int, reconLag: int)
    requires young <= older && topupSum >= 0 && cfg.maxCap >= 0
    requires 0 <= cfg.midTierPercent <= cfg.maturePercent
    ensures Exact(cfg, young, topupSum, reconLag) <= Exact(cfg, older, topupSum, reconLag)
  {
    var p, q := Percent(cfg, young), Percent(cfg, older);
    ProductGrows(p, q, topupSum);
    TruncDivGrows(topupSum * p, topupSum * q);
    PenaltyGrows(cfg, Capped(TruncDiv(topupSum * p, 100), cfg.maxCap),
                 Capped(TruncDiv(topupSum * q, 100), cfg.maxCap), reconLag);
    ExactWithinCap(cfg, older, topupSum, reconLag);
  }

  /** With a middle tier, a cap that does not hide it, and no penalty in force: exactly then. */
  lemma MonotoneInAgeIff(cfg: Config, reconLag: int)
    requires cfg.minAgeDays < cfg.matureAgeDays && !Penalised(cfg, reconLag)
    requires cfg.midTierPercent >= 0 && 0 <= cfg.maturePercent < cfg.maxCap
    ensures MonotoneInAge(cfg, reconLag) <==> cfg.midTierPercent <= cfg.maturePercent
  {
    if cfg.midTierPercent <= cfg.maturePercent {
      forall young, older, topupSum | young <= older && topupSum >= 0
        ensures Exact(cfg, young, topupSum, reconLag) <= Exact(cfg, older, topupSum, reconLag)
      {
        OlderIsNoWorse(cfg, young, older, topupSum, reconLag);
      }
    } else {
      assert Exact(cfg, cfg.minAgeDays, 100, reconLag) > Exact(cfg, cfg.matureAgeDays, 100, reconLag);
    }
  }
}
