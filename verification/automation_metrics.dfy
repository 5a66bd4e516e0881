/** Placement metrics, the rates built from them, thresholds, and how both behave under addition. */
module AutomationMetrics {
  import opened MachineIntegers

  /** The numeric columns of a row; spend and profit are signed. */
  datatype Totals = Totals(spend: int, profit: int, clicks: int, conversions: int, fraud: int, silent: int)

  const ZERO := Totals(0, 0, 0, 0, 0, 0)

  function Plus(a: Totals, b: Totals): Totals {
    Totals(a.spend + b.spend, a.profit + b.profit, a.clicks + b.clicks, a.conversions + b.conversions,
           a.fraud + b.fraud, a.silent + b.silent)
  }

  /** What the machine's fields hold when the exact values are `t`. */
  function Wrap(t: Totals): Totals {
    Totals(WrapI(t.spend), WrapI(t.profit), WrapU(t.clicks), WrapU(t.conversions), WrapU(t.fraud), WrapU(t.silent))
  }

  predicate InRange(t: Totals) {
    && -TWO64 / 2 <= t.spend < TWO64 / 2 && -TWO64 / 2 <= t.profit < TWO64 / 2
    && 0 <= t.clicks < TWO64 && 0 <= t.conversions < TWO64 && 0 <= t.fraud < TWO64 && 0 <= t.silent < TWO64
  }

  lemma WrapAdds(a: Totals, b: Totals)
    ensures Wrap(Plus(Wrap(a), b)) == Wrap(Plus(a, b))
  {
    WrapIAdds(a.spend, b.spend);
    WrapIAdds(a.profit, b.profit);
    WrapUAdds(a.clicks, b.clicks);
    WrapUAdds(a.conversions, b.conversions);
    WrapUAdds(a.fraud, b.fraud);
    WrapUAdds(a.silent, b.silent);
  }

  lemma WrapInRange(t: Totals)
    requires InRange(t)
    ensures Wrap(t) == t
  {
  }

  // ------------------------------------------------------------------ rates and thresholds

  /** A ratio in percent; zero when there is nothing to divide by. */
  function RatePct(part: int, whole: int): real {
    if whole <= 0 then 0.0 else part as real / whole as real * 100.0
  }

  function Observed(metric: string, t: Totals): real {
    if metric == "clicks" then t.clicks as real
    else if metric == "spend_micro" then t.spend as real
    else if metric == "roi_pct" then RatePct(t.profit, t.spend)
    else if metric == "cr" then RatePct(t.conversions, t.clicks)
    else if metric == "fraud_reject_count" then t.fraud as real
    else if metric == "fraud_reject_rate" || metric == "ivt_rate" then RatePct(t.fraud, t.clicks)
    else if metric == "silent_reject_rate" then RatePct(t.silent, t.clicks)
    else 0.0
  }

  predicate Breached(operator: string, observed: real, threshold: real) {
    if operator == "gt" then observed > threshold
    else if operator == "gte" then observed >= threshold
    else if operator == "lt" then observed < threshold
    else if operator == "lte" then observed <= threshold
    else false
  }

  predicate IsRate(metric: string) {
    metric in {"roi_pct", "cr", "fraud_reject_rate", "ivt_rate", "silent_reject_rate"}
  }

  function Part(metric: string, t: Totals): int {
    if metric == "roi_pct" then t.profit
    else if metric == "cr" then t.conversions
    else if metric == "silent_reject_rate" then t.silent
    else t.fraud
  }

  function Whole(metric: string, t: Totals): int {
    if metric == "roi_pct" then t.spend else t.clicks
  }

  lemma ObservedIsRate(metric: string, t: Totals)
    requires IsRate(metric)
    ensures Observed(metric, t) == RatePct(Part(metric, t), Whole(metric, t))
  {
  }

  /** What each metric reads: a count, the spend, or a hundred times the part for each unit of the whole,
      and 0 where there is no whole. */
  lemma ObservedReads(metric: string, t: Totals)
    ensures metric == "clicks" ==> Observed(metric, t) == t.clicks as real
    ensures metric == "spend_micro" ==> Observed(metric, t) == t.spend as real
    ensures metric == "fraud_reject_count" ==> Observed(metric, t) == t.fraud as real
    ensures metric == "roi_pct" ==> Reads(Observed(metric, t), t.profit, t.spend)
    ensures metric == "cr" ==> Reads(Observed(metric, t), t.conversions, t.clicks)
    ensures metric in {"fraud_reject_rate", "ivt_rate"} ==> Reads(Observed(metric, t), t.fraud, t.clicks)
    ensures metric == "silent_reject_rate" ==> Reads(Observed(metric, t), t.silent, t.clicks)
  {
    RatePctReads(t.profit, t.spend);
    RatePctReads(t.conversions, t.clicks);
    RatePctReads(t.fraud, t.clicks);
    RatePctReads(t.silent, t.clicks);
  }

  predicate Reads(rate: real, part: int, whole: int) {
    if whole > 0 then rate * whole as real == 100.0 * part as real else rate == 0.0
  }

  lemma RatePctReads(part: int, whole: int)
    ensures Reads(RatePct(part, whole), part, whole)
  {
  }

  /** The thresholds on a ratio, over integers alone: a hundred times the part against the whole. */
  lemma RateBreaches(part: int, whole: int, threshold: real)
    requires whole > 0
    ensures Breached("gt", RatePct(part, whole), threshold) <==> 100.0 * part as real > threshold * whole as real
    ensures Breached("gte", RatePct(part, whole), threshold) <==> 100.0 * part as real >= threshold * whole as real
    ensures Breached("lt", RatePct(part, whole), threshold) <==> 100.0 * part as real < threshold * whole as real
    ensures Breached("lte", RatePct(part, whole), threshold) <==> 100.0 * part as real <= threshold * whole as real
    ensures forall operator :: operator !in {"gt", "gte", "lt", "lte"} ==>
              !Breached(operator, RatePct(part, whole), threshold)
  {
    BreachIsLinear("gt", part, whole, threshold);
    BreachIsLinear("gte", part, whole, threshold);
    BreachIsLinear("lt", part, whole, threshold);
    BreachIsLinear("lte", part, whole, threshold);
  }

  /** A threshold on a ratio is a linear condition on its two parts. */
  lemma BreachIsLinear(operator: string, part: int, whole: int, threshold: real)
    requires whole > 0
    ensures Breached(operator, RatePct(part, whole), threshold) <==>
            Breached(operator, part as real * 100.0, threshold * whole as real)
  {
    var w, p, r := whole as real, part as real, RatePct(part, whole);
    assert r * w == p * 100.0;
    if r > threshold {
      assert (r - threshold) * w > 0.0;
    } else if r < threshold {
      assert (threshold - r) * w > 0.0;
    }
  }

  lemma LinearAdds(operator: string, p1: real, w1: real, p2: real, w2: real)
    requires Breached(operator, p1, w1) && Breached(operator, p2, w2)
    ensures Breached(operator, p1 + p2, w1 + w2)
  {
  }

  lemma RatePools(operator: string, threshold: real, p1: int, w1: int, p2: int, w2: int)
    requires w1 > 0 && w2 > 0
    requires Breached(operator, RatePct(p1, w1), threshold) && Breached(operator, RatePct(p2, w2), threshold)
    ensures Breached(operator, RatePct(p1 + p2, w1 + w2), threshold)
  {
    BreachIsLinear(operator, p1, w1, threshold);
    BreachIsLinear(operator, p2, w2, threshold);
    LinearAdds(operator, p1 as real * 100.0, threshold * w1 as real, p2 as real * 100.0, threshold * w2 as real);
    Distributes(threshold, w1, w2);
    BreachIsLinear(operator, p1 + p2, w1 + w2, threshold);
  }

  lemma Distributes(k: real, a: int, b: int)
    ensures k * (a + b) as real == k * a as real + k * b as real
  {
    assert (a + b) as real == a as real + b as real;
  }

  /** Two groups that both breach still breach when pooled: a rate pools as a weighted mean. */
  lemma BreachPools(metric: string, operator: string, threshold: real, a: Totals, b: Totals)
    requires IsRate(metric) && Whole(metric, a) > 0 && Whole(metric, b) > 0
    requires Breached(operator, Observed(metric, a), threshold) && Breached(operator, Observed(metric, b), threshold)
    ensures Whole(metric, Plus(a, b)) > 0
    ensures Breached(operator, Observed(metric, Plus(a, b)), threshold)
  {
    ObservedIsRate(metric, a);
    ObservedIsRate(metric, b);
    ObservedIsRate(metric, Plus(a, b));
    RatePools(operator, threshold, Part(metric, a), Whole(metric, a), Part(metric, b), Whole(metric, b));
  }

  /** Not so when a group has nothing to divide by: its rate reads as zero, below the threshold, but
      its rejects still count in the pool. */
  lemma EmptyDenominatorDoesNotPool()
    ensures var a, b := Totals(0, 0, 0, 0, 9, 0), Totals(0, 0, 10, 0, 0, 0);
            && Breached("lt", Observed("fraud_reject_rate", a), 50.0)
            && Breached("lt", Observed("fraud_reject_rate", b), 50.0)
            && !Breached("lt", Observed("fraud_reject_rate", Plus(a, b)), 50.0)
  {
  }
}
