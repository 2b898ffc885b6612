/** Credit pricing of model usage (src/modules/ai/ai.pricing.ts). One credit is one micro-dollar. */
module Pricing {
  import opened Common

  const TOKEN_DENOMINATOR := 1_000_000
  const TOOL_DENOMINATOR := 1_000

  datatype BillingType = Token | Image | Audio | Tool

  /** Rates as stored; a rate that is not positive is charged as zero. */
  datatype PricingRecord = PricingRecord(
    billingType: BillingType,
    inputRate: int,    // micro-dollars per million input tokens
    outputRate: int,   // micro-dollars per million output or thinking tokens
    imageRate: int,    // micro-dollars per image
    searchRate: int)   // micro-dollars per thousand searches

  datatype Usage = Usage(input: nat, output: nat, thinking: nat, total: nat, images: nat, searches: nat)

  /** A JSON value after `Number(...)`: finite, or NaN / infinite / absent. */
  datatype RawNumber = NotFinite | Finite(value: real)

  /** The parts of a model response that pricing reads. */
  datatype Response = Response(
    prompt: RawNumber, thoughts: RawNumber, candidates: RawNumber, total: RawNumber, imagesReturned: nat)

  function NonNegativeInt(raw: RawNumber): (n: nat)
    ensures raw.Finite? && raw.value > 0.0 ==> n as real <= raw.value < n as real + 1.0
    ensures raw.NotFinite? || raw.value <= 0.0 ==> n == 0
  {
    if raw.Finite? && raw.value > 0.0 then raw.value.Floor else 0
  }

  function CeilDiv(numerator: int, denominator: int): nat
    requires denominator > 0
  {
    if numerator <= 0 then 0 else (numerator + denominator - 1) / denominator
  }

  function Rate(rate: int): nat { Max(rate, 0) }

  function ComponentCredits(units: nat, rate: int, denominator: int): nat
    requires denominator > 0
  {
    CeilDiv(units * Rate(rate), denominator)
  }

  function Credits(p: PricingRecord, u: Usage): nat {
    ComponentCredits(u.input, p.inputRate, TOKEN_DENOMINATOR)
    + ComponentCredits(u.output + u.thinking, p.outputRate, TOKEN_DENOMINATOR)
    + u.images * Rate(p.imageRate)
    + ComponentCredits(u.searches, p.searchRate, TOOL_DENOMINATOR)
  }

  function BillableSearches(enabled: bool): nat { if enabled then 1 else 0 }

  function ExtractUsage(r: Response, images: nat, searches: nat): (u: Usage)
    ensures u.input == NonNegativeInt(r.prompt) && u.thinking == NonNegativeInt(r.thoughts)
    ensures u.images == images && u.searches == searches
    ensures NonNegativeInt(r.candidates) > 0 ==> u.output == NonNegativeInt(r.candidates)
    ensures u.total >= u.input + u.output + u.thinking
    ensures NonNegativeInt(r.candidates) == 0 && NonNegativeInt(r.total) >= u.input + u.thinking
            ==> u.total == u.input + u.output + u.thinking == NonNegativeInt(r.total)
  {
    var input := NonNegativeInt(r.prompt);
    var thinking := NonNegativeInt(r.thoughts);
    var explicit := NonNegativeInt(r.candidates);
    var total := NonNegativeInt(r.total);
    var output := if explicit != 0 then explicit
                  else if total > input + thinking then total - input - thinking else 0;
    Usage(input, output, thinking, Max(total, input + output + thinking), images, searches)
  }

  /** `actualUsageCredits`: what a response costs, falling back to the estimate when it says nothing. */
  function ActualUsage(r: Response, p: PricingRecord, estimate: Usage, search: bool): Usage {
    var images := if p.billingType.Image?
                  then (if r.imagesReturned != 0 then r.imagesReturned else estimate.images) else 0;
    var usage := ExtractUsage(r, images, BillableSearches(search));
    var reported := usage.total > 0 || usage.input > 0 || usage.output > 0 || usage.thinking > 0
                    || usage.images > 0 || usage.searches > 0;
    if reported && Credits(p, usage) > 0 then usage else estimate
  }

  // ----- Ceiling division -----

  /** `CeilDiv` is the least number of denominators that covers the numerator. */
  lemma CeilDivBounds(n: nat, d: int)
    requires d > 0
    ensures n <= CeilDiv(n, d) * d < n + d
  {
    var m := n + d - 1;
    assert m == (m / d) * d + m % d;
  }

  /** Splitting a charge never makes it cheaper, and costs at most one credit more. */
  lemma CeilDivSplit(a: nat, b: nat, d: int)
    requires d > 0
    ensures CeilDiv(a + b, d) <= CeilDiv(a, d) + CeilDiv(b, d) <= CeilDiv(a + b, d) + 1
  {
    var x, y, z := CeilDiv(a, d), CeilDiv(b, d), CeilDiv(a + b, d);
    CeilDivBounds(a, d);
    CeilDivBounds(b, d);
    CeilDivBounds(a + b, d);
    assert (x + y) * d == x * d + y * d;
    assert (z + 2) * d == z * d + 2 * d;
    assert (x + y + 1) * d == x * d + y * d + d;
    CancelFactor(x + y, z + 2, d);
    CancelFactor(z, x + y + 1, d);
  }

  lemma ComponentSplit(u: nat, v: nat, rate: int, d: int)
    requires d > 0
    ensures ComponentCredits(u + v, rate, d)
            <= ComponentCredits(u, rate, d) + ComponentCredits(v, rate, d)
            <= ComponentCredits(u + v, rate, d) + 1
  {
    assert (u + v) * Rate(rate) == u * Rate(rate) + v * Rate(rate);
    CeilDivSplit(u * Rate(rate), v * Rate(rate), d);
  }

  lemma ComponentMonotone(u: nat, v: nat, rate: int, d: int)
    requires d > 0 && u <= v
    ensures ComponentCredits(u, rate, d) <= ComponentCredits(v, rate, d)
  {
    var a, b := u * Rate(rate), v * Rate(rate);
    assert a <= b;
    CeilDivBounds(a, d);
    CeilDivBounds(b, d);
    assert (CeilDiv(b, d) + 1) * d == CeilDiv(b, d) * d + d;
    CancelFactor(CeilDiv(a, d), CeilDiv(b, d) + 1, d);
  }

  // ----- Credits over whole usages -----

  function Plus(u: Usage, v: Usage): Usage {
    Usage(u.input + v.input, u.output + v.output, u.thinking + v.thinking,
          u.total + v.total, u.images + v.images, u.searches + v.searches)
  }

  function SumUsage(us: seq<Usage>): Usage
    requires us != []
  {
    if |us| == 1 then us[0] else Plus(us[0], SumUsage(us[1..]))
  }

  function SumCredits(p: PricingRecord, us: seq<Usage>): nat {
    if us == [] then 0 else Credits(p, us[0]) + SumCredits(p, us[1..])
  }

  lemma CreditsSplit(p: PricingRecord, u: Usage, v: Usage)
    ensures Credits(p, Plus(u, v)) <= Credits(p, u) + Credits(p, v) <= Credits(p, Plus(u, v)) + 3
  {
    ComponentSplit(u.input, v.input, p.inputRate, TOKEN_DENOMINATOR);
    ComponentSplit(u.output + u.thinking, v.output + v.thinking, p.outputRate, TOKEN_DENOMINATOR);
    assert u.output + u.thinking + (v.output + v.thinking) == Plus(u, v).output + Plus(u, v).thinking;
    ComponentSplit(u.searches, v.searches, p.searchRate, TOOL_DENOMINATOR);
    assert (u.images + v.images) * Rate(p.imageRate) == u.images * Rate(p.imageRate) + v.images * Rate(p.imageRate);
  }

  /** Billing n usages one by one costs at least the bill of their sum, and at most 3(n - 1) more. */
  lemma {:induction false} SplitBound(p: PricingRecord, us: seq<Usage>)
    requires us != []
    ensures Credits(p, SumUsage(us)) <= SumCredits(p, us) <= Credits(p, SumUsage(us)) + 3 * (|us| - 1)
  {
    if |us| == 1 {
      assert us[1..] == [];
    } else {
      SplitBound(p, us[1..]);
      CreditsSplit(p, us[0], SumUsage(us[1..]));
    }
  }

  ghost predicate Within(u: Usage, v: Usage) {
    && u.input <= v.input
    && u.output + u.thinking <= v.output + v.thinking
    && u.images <= v.images
    && u.searches <= v.searches
  }

  /** Credits grow with every billed component. */
  lemma CreditsMonotone(p: PricingRecord, u: Usage, v: Usage)
    requires Within(u, v)
    ensures Credits(p, u) <= Credits(p, v)
  {
    ComponentMonotone(u.input, v.input, p.inputRate, TOKEN_DENOMINATOR);
    ComponentMonotone(u.output + u.thinking, v.output + v.thinking, p.outputRate, TOKEN_DENOMINATOR);
    ComponentMonotone(u.searches, v.searches, p.searchRate, TOOL_DENOMINATOR);
    assert u.images * Rate(p.imageRate) <= v.images * Rate(p.imageRate);
  }

  ghost function ExactPrice(units: nat, rate: int, denominator: int): real
    requires denominator > 0
  {
    if rate > 0 then (units * rate) as real / denominator as real else 0.0
  }

  /** The cost of a usage in micro-dollars, before any rounding. */
  ghost function ExactCost(p: PricingRecord, u: Usage): real {
    ExactPrice(u.input, p.inputRate, 1_000_000)
    + ExactPrice(u.output + u.thinking, p.outputRate, 1_000_000)
    + ExactPrice(u.images, p.imageRate, 1)
    + ExactPrice(u.searches, p.searchRate, 1_000)
  }

  lemma CeilDivExact(n: nat, d: int)
    requires d > 0
    ensures n as real / d as real <= CeilDiv(n, d) as real < n as real / d as real + 1.0
  {
    CeilDivBounds(n, d);
    ProductAsReal(CeilDiv(n, d), d);
    RealQuotient(n as real, d as real, CeilDiv(n, d) as real);
  }

  lemma ProductAsReal(c: int, d: int)
    ensures (c * d) as real == c as real * d as real
  {
  }

  lemma RealQuotient(n: real, d: real, c: real)
    requires d > 0.0 && n <= c * d < n + d
    ensures n / d <= c < n / d + 1.0
  {
    var x := n / d;
    assert x * d == n;
    assert (x + 1.0) * d == x * d + d;
    CancelRealFactor(c, x + 1.0, d);
    CancelRealFactorWeak(x, c, d);
  }

  lemma CancelRealFactorWeak(p: real, q: real, d: real)
    requires d > 0.0 && p * d <= q * d
    ensures p <= q
  {
  }

  lemma CancelRealFactor(p: real, q: real, d: real)
    requires d > 0.0 && p * d < q * d
    ensures p < q
  {
  }

  lemma ComponentExact(units: nat, rate: int, d: int)
    requires d > 0
    ensures ExactPrice(units, rate, d) <= ComponentCredits(units, rate, d) as real < ExactPrice(units, rate, d) + 1.0
  {
    if rate > 0 {
      CeilDivExact(units * rate, d);
    }
  }

  /** A single charge rounds up, by less than three micro-dollars in all. */
  lemma RoundingBound(p: PricingRecord, u: Usage)
    ensures ExactCost(p, u) <= Credits(p, u) as real < ExactCost(p, u) + 3.0
  {
    ComponentExact(u.input, p.inputRate, TOKEN_DENOMINATOR);
    ComponentExact(u.output + u.thinking, p.outputRate, TOKEN_DENOMINATOR);
    ComponentExact(u.searches, p.searchRate, TOOL_DENOMINATOR);
  }

  /** A response within its estimate never costs more than the estimate. */
  lemma ActualWithinEstimate(r: Response, p: PricingRecord, estimate: Usage, search: bool)
    requires Within(ActualUsage(r, p, estimate, search), estimate)
    ensures Credits(p, ActualUsage(r, p, estimate, search)) <= Credits(p, estimate)
  {
    CreditsMonotone(p, ActualUsage(r, p, estimate, search), estimate);
  }

  /** The least number of whole credits that covers `units` at this rate; a rate that is not positive costs nothing. */
  ghost predicate IsPrice(credits: nat, units: nat, rate: int, denominator: int) {
    if rate <= 0 then credits == 0
    else units * rate <= credits * denominator < units * rate + denominator
  }

  /** Credits are the sum of four prices, each rounded up: input, output with thinking, images and searches. */
  lemma CreditsArePrices(p: PricingRecord, u: Usage, input: nat, output: nat, images: nat, searches: nat)
    requires IsPrice(input, u.input, p.inputRate, 1_000_000)
    requires IsPrice(output, u.output + u.thinking, p.outputRate, 1_000_000)
    requires IsPrice(images, u.images, p.imageRate, 1)
    requires IsPrice(searches, u.searches, p.searchRate, 1_000)
    ensures Credits(p, u) == input + output + images + searches
  {
    PriceIs(input, u.input, p.inputRate, 1_000_000);
    PriceIs(output, u.output + u.thinking, p.outputRate, 1_000_000);
    PriceIs(searches, u.searches, p.searchRate, 1_000);
  }

  lemma PriceIs(credits: nat, units: nat, rate: int, denominator: int)
    requires denominator > 0 && IsPrice(credits, units, rate, denominator)
    ensures ComponentCredits(units, rate, denominator) == credits
  {
    if rate > 0 {
      var n, c := units * rate, ComponentCredits(units, rate, denominator);
      CeilDivBounds(n, denominator);
      SamePrice(c, credits, n, denominator);
    }
  }

  lemma SamePrice(a: nat, b: nat, n: nat, d: int)
    requires d > 0 && n <= a * d < n + d && n <= b * d < n + d
    ensures a == b
  {
    assert (a + 1) * d == a * d + d && (b + 1) * d == b * d + d;
    CancelFactor(a, b + 1, d);
    CancelFactor(b, a + 1, d);
  }

  /**
   What a response is billed, from its own fields: the price of what it reports, when that is not zero, and
   the estimate otherwise. A missing output count is the rest of the total; a missing image count is the
   estimate's.
   */
  ghost predicate IsBill(r: Response, p: PricingRecord, estimate: Usage, search: bool, bill: nat) {
    var input, thinking := NonNegativeInt(r.prompt), NonNegativeInt(r.thoughts);
    var rest := NonNegativeInt(r.total) - input - thinking;
    var candidates := NonNegativeInt(r.candidates);
    var output := if candidates > 0 then candidates else if rest > 0 then rest else 0;
    var images := if !p.billingType.Image? then 0
                  else if r.imagesReturned > 0 then r.imagesReturned else estimate.images;
    var reported := Credits(p, Usage(input, output, thinking, 0, images, if search then 1 else 0));
    bill == if reported > 0 then reported else Credits(p, estimate)
  }

  lemma BilledAsReported(r: Response, p: PricingRecord, estimate: Usage, search: bool)
    ensures IsBill(r, p, estimate, search, Credits(p, ActualUsage(r, p, estimate, search)))
  {
    var images := if p.billingType.Image?
                  then (if r.imagesReturned != 0 then r.imagesReturned else estimate.images) else 0;
    var usage := ExtractUsage(r, images, BillableSearches(search));
    assert Credits(p, usage) == Credits(p, usage.(total := 0));
    if usage.input == usage.output == usage.thinking == usage.images == usage.searches == 0 {
      NothingCostsNothing(p, usage);
    }
  }

  lemma NothingCostsNothing(p: PricingRecord, u: Usage)
    requires u.input == u.output == u.thinking == u.images == u.searches == 0
    ensures Credits(p, u) == 0
  {
  }
}
