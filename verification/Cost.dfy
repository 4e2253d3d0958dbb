/** What provider calls cost, and how usage adds up. Counters saturate at 64 bits. */
module Cost {
  import opened Wrappers

  const U64_MAX: nat := 0xffff_ffff_ffff_ffff
  const U128_MAX: nat := 0xffff_ffff_ffff_ffff_ffff_ffff_ffff_ffff

  type u64 = x: nat | x <= U64_MAX

  function Min(a: nat, b: nat): nat {
    if a < b then a else b
  }

  function Add64(a: u64, b: u64): u64 {
    Min(a + b, U64_MAX)
  }

  function Add128(a: nat, b: nat): nat {
    Min(a + b, U128_MAX)
  }

  function Mul128(a: nat, b: nat): nat {
    Min(Times(a, b), U128_MAX)
  }

  function Times(a: nat, b: nat): nat {
    a * b
  }

  function DivCeil(a: nat, b: nat): nat
    requires b > 0
  {
    a / b + if a % b > 0 then 1 else 0
  }

  // ---------------------------------------------------------------- usage

  /** A floating-point number, without its rounding. */
  datatype Float = Num(x: real) | Infinity(negative: bool) | NaN
  {
    predicate IsFinite() {
      Num?
    }
  }

  function Plus(a: Float, b: Float): Float {
    match (a, b)
    case (Num(x), Num(y)) => Num(x + y)
    case (Num(_), _) => b
    case (_, Num(_)) => a
    case (Infinity(n), Infinity(m)) => if n == m then a else NaN
    case _ => NaN
  }

  datatype Units = Units(
    llmInputTokens: u64, llmOutputTokens: u64, llmRequests: u64, audioSeconds: Float, pages: u64, images: u64,
    externalRequests: u64, costMicroUsd: u64, unpricedCalls: u64)

  function Merged(a: Units, b: Units): Units {
    Units(Add64(a.llmInputTokens, b.llmInputTokens), Add64(a.llmOutputTokens, b.llmOutputTokens),
          Add64(a.llmRequests, b.llmRequests), Plus(a.audioSeconds, b.audioSeconds), Add64(a.pages, b.pages),
          Add64(a.images, b.images), Add64(a.externalRequests, b.externalRequests),
          Add64(a.costMicroUsd, b.costMicroUsd), Add64(a.unpricedCalls, b.unpricedCalls))
  }

  // ---------------------------------------------------------------- prices

  datatype Price = Price(inputPerMtok: u64, outputPerMtok: u64, perAudioSecond: u64, perRequest: u64)

  type Table = map<string, map<string, Price>>

  /** The model after the provider prefix of a Gateway id. */
  function BareModel(model: string): Option<string> {
    var slash := FirstIndex(model, '/');
    if slash < |model| then Some(model[slash + 1..]) else None
  }

  function FirstIndex(s: string, c: char): (r: nat)
    ensures r <= |s| && (r < |s| ==> s[r] == c) && forall k :: 0 <= k < r ==> s[k] != c
  {
    if s == "" then 0 else if s[0] == c then 0 else FirstIndex(s[1..], c) + 1
  }

  /** The exact entry, else the bare model's, else the plugin's default. */
  function PriceOf(table: Table, plugin: string, model: string): Option<Price> {
    if plugin !in table then None
    else
      var models := table[plugin];
      var bare := BareModel(model);
      if model in models then Some(models[model])
      else if bare.Some? && bare.value in models then Some(models[bare.value])
      else if "default" in models then Some(models["default"])
      else None
  }

  /** The table cannot price this call: no entry, or a priced quantity was not reported. */
  predicate Unpriceable(price: Option<Price>, u: Units) {
    match price
    case None => true
    case Some(p) =>
      || ((p.inputPerMtok > 0 || p.outputPerMtok > 0) && u.llmInputTokens == 0 && u.llmOutputTokens == 0)
      || (p.perAudioSecond > 0 && !(u.audioSeconds.IsFinite() && u.audioSeconds.x > 0.0))
  }

  function Ceil(x: real): int {
    if (x.Floor as real) < x then x.Floor + 1 else x.Floor
  }

  /** Nothing unless both are positive: a duration that is no number only gets here at the price 0,
      and 0 times it is no number either, which counts as 0. */
  function AudioCost(p: Price, u: Units): nat {
    match u.audioSeconds
    case Num(x) =>
      var c := Ceil(x * p.perAudioSecond as real);
      if c < 0 then 0 else c
    case _ => 0
  }

  function AtLeastOne(n: nat): nat {
    if n > 1 then n else 1
  }

  /** The price of some input and output tokens, in millionths of a micro-dollar. */
  function TokenPrice(p: Price, input: nat, output: nat): nat {
    Times(input, p.inputPerMtok) + Times(output, p.outputPerMtok)
  }

  function TokenCost(p: Price, input: nat, output: nat): nat {
    DivCeil(TokenPrice(p, input, output), 1_000_000)
  }

  /** The exact cost of a call, with no bound on the arithmetic. */
  function ExactCost(p: Price, u: Units): nat {
    TokenCost(p, u.llmInputTokens, u.llmOutputTokens)
    + AudioCost(p, u)
    + Times(AtLeastOne(u.llmRequests + u.externalRequests), p.perRequest)
  }

  /** The cost as the code computes it, saturating at every step. */
  function SaturatedCost(p: Price, u: Units): nat {
    var tokens := Add128(Mul128(u.llmInputTokens, p.inputPerMtok), Mul128(u.llmOutputTokens, p.outputPerMtok));
    var tokenCost := DivCeil(tokens, 1_000_000);
    var audioCost := Min(AudioCost(p, u), U128_MAX);
    var requests := AtLeastOne(Add64(u.llmRequests, u.externalRequests));
    var requestCost := Mul128(requests, p.perRequest);
    Add128(Add128(tokenCost, audioCost), requestCost)
  }

  /** The units after pricing one call in place: its exact cost is added, capped once, or the call is
      counted as unpriced. */
  function Applied(table: Table, plugin: string, model: string, u: Units): Units {
    var price := PriceOf(table, plugin, model);
    if Unpriceable(price, u) then u.(unpricedCalls := Min(u.unpricedCalls + 1, U64_MAX))
    else u.(costMicroUsd := Min(u.costMicroUsd + ExactCost(price.value, u), U64_MAX))
  }

  class UsageUnits {
    var units: Units

    constructor (units: Units)
      ensures this.units == units
    {
      this.units := units;
    }

    method Merge(other: Units)
      modifies this
      ensures units == Merged(old(units), other)
    {
      units := units.(
        llmInputTokens := Add64(units.llmInputTokens, other.llmInputTokens),
        llmOutputTokens := Add64(units.llmOutputTokens, other.llmOutputTokens),
        llmRequests := Add64(units.llmRequests, other.llmRequests));
      units := units.(
        audioSeconds := Plus(units.audioSeconds, other.audioSeconds),
        pages := Add64(units.pages, other.pages),
        images := Add64(units.images, other.images));
      units := units.(
        externalRequests := Add64(units.externalRequests, other.externalRequests),
        costMicroUsd := Add64(units.costMicroUsd, other.costMicroUsd),
        unpricedCalls := Add64(units.unpricedCalls, other.unpricedCalls));
    }

    /** Price one call in place. Nothing but its cost or the unpriced calls changes. */
    method Apply(table: Table, plugin: string, model: string)
      modifies this
      ensures units == Applied(table, plugin, model, old(units))
    {
      var price := PriceOf(table, plugin, model);
      if Unpriceable(price, units) {
        units := units.(unpricedCalls := Add64(units.unpricedCalls, 1));
        return;
      }
      SaturationIsOneCap(price.value, units);
      var total := SaturatedCost(price.value, units);
      var capped: u64 := if total <= U64_MAX then total else U64_MAX;
      units := units.(costMicroUsd := Add64(units.costMicroUsd, capped));
    }
  }

  // ---------------------------------------------------------------- one cap

  lemma MulMonotone(a: nat, b: nat, c: nat, d: nat)
    requires a <= c && b <= d
    ensures Times(a, b) <= Times(c, d)
  {
    assert a * b <= c * b;
    assert c * b <= c * d;
  }

  /** Two 64-bit factors never saturate 128 bits. */
  lemma Mul64Fits(a: u64, b: u64)
    ensures Mul128(a, b) == Times(a, b)
  {
    MulMonotone(a, b, U64_MAX, U64_MAX);
  }

  lemma DivCeilMonotone(a: nat, b: nat)
    requires a <= b
    ensures DivCeil(a, 1_000_000) <= DivCeil(b, 1_000_000)
  {
  }

  /** A saturated token total is still priced beyond 64 bits. */
  lemma TokensCapped(t: nat)
    ensures Min(DivCeil(Min(t, U128_MAX), 1_000_000), U64_MAX) == Min(DivCeil(t, 1_000_000), U64_MAX)
  {
    if t > U128_MAX {
      DivCeilMonotone(U128_MAX, t);
      assert DivCeil(U128_MAX, 1_000_000) > U64_MAX;
    }
  }

  /** Capping the number of requests changes no capped cost. */
  lemma RequestsCapped(r: nat, price: u64)
    ensures Min(Times(AtLeastOne(Min(r, U64_MAX)), price), U64_MAX) == Min(Times(AtLeastOne(r), price), U64_MAX)
  {
    if r > U64_MAX && price > 0 {
      MulMonotone(U64_MAX, 1, U64_MAX, price);
      MulMonotone(U64_MAX, price, r, price);
    }
  }

  lemma MinOfSum(a: nat, b: nat, cap: nat)
    ensures Min(Min(a, cap) + Min(b, cap), cap) == Min(a + b, cap)
  {
  }

  /** All the saturations together are one cap on the exact cost. */
  lemma SaturationIsOneCap(p: Price, u: Units)
    ensures Min(SaturatedCost(p, u), U64_MAX) == Min(ExactCost(p, u), U64_MAX)
  {
    var t := TokenPrice(p, u.llmInputTokens, u.llmOutputTokens);
    var r := u.llmRequests + u.externalRequests;
    var paid := Times(AtLeastOne(Min(r, U64_MAX)), p.perRequest);
    Mul64Fits(u.llmInputTokens, p.inputPerMtok);
    Mul64Fits(u.llmOutputTokens, p.outputPerMtok);
    Mul64Fits(AtLeastOne(Min(r, U64_MAX)), p.perRequest);
    TokensCapped(t);
    RequestsCapped(r, p.perRequest);
    SumOfCapped(DivCeil(Min(t, U128_MAX), 1_000_000), Min(AudioCost(p, u), U128_MAX), paid);
    MinOfThree(DivCeil(t, 1_000_000), AudioCost(p, u), Times(AtLeastOne(r), p.perRequest));
    MinOfThree(DivCeil(Min(t, U128_MAX), 1_000_000), Min(AudioCost(p, u), U128_MAX), paid);
  }

  lemma SumOfCapped(a: nat, b: nat, c: nat)
    ensures Min(Add128(Add128(a, b), c), U64_MAX) == Min(a + b + c, U64_MAX)
  {
  }

  lemma MinOfThree(a: nat, b: nat, c: nat)
    ensures Min(a + b + c, U64_MAX) == Min(Min(a, U64_MAX) + Min(b, U64_MAX) + Min(c, U64_MAX), U64_MAX)
  {
  }

  // ---------------------------------------------------------------- many calls

  lemma CeilOfSum(a: nat, b: nat)
    ensures DivCeil(a + b, 1_000_000) <= DivCeil(a, 1_000_000) + DivCeil(b, 1_000_000) <= DivCeil(a + b, 1_000_000) + 1
  {
  }

  function InputTokens(calls: seq<Units>): nat {
    if calls == [] then 0 else calls[0].llmInputTokens + InputTokens(calls[1..])
  }

  function OutputTokens(calls: seq<Units>): nat {
    if calls == [] then 0 else calls[0].llmOutputTokens + OutputTokens(calls[1..])
  }

  /** What the tokens of the calls cost, each call priced on its own. */
  function TokenCosts(p: Price, calls: seq<Units>): nat {
    if calls == [] then 0
    else TokenCost(p, calls[0].llmInputTokens, calls[0].llmOutputTokens) + TokenCosts(p, calls[1..])
  }

  /** What the calls cost, each priced on its own. */
  function ExactCosts(p: Price, calls: seq<Units>): nat {
    if calls == [] then 0 else ExactCost(p, calls[0]) + ExactCosts(p, calls[1..])
  }

  lemma TimesDistributes(a: nat, b: nat, c: nat)
    ensures Times(a + b, c) == Times(a, c) + Times(b, c)
  {
  }

  lemma TokenPriceAdds(p: Price, a: nat, b: nat, c: nat, d: nat)
    ensures TokenPrice(p, a + c, b + d) == TokenPrice(p, a, b) + TokenPrice(p, c, d)
  {
    TimesDistributes(a, c, p.inputPerMtok);
    TimesDistributes(b, d, p.outputPerMtok);
  }

  /** Pricing the tokens of `n` calls one by one costs at least what their sum costs, and at most
      `n - 1` micro-dollars more: each call rounds up by less than one, the first for free. */
  lemma {:induction false} PricedOneByOne(p: Price, calls: seq<Units>)
    requires calls != []
    ensures var together := TokenCost(p, InputTokens(calls), OutputTokens(calls));
            together <= TokenCosts(p, calls) <= together + |calls| - 1
    decreases |calls|
  {
    var first, rest := calls[0], calls[1..];
    if rest != [] {
      PricedOneByOne(p, rest);
      TokenPriceAdds(p, first.llmInputTokens, first.llmOutputTokens, InputTokens(rest), OutputTokens(rest));
      CeilOfSum(TokenPrice(p, first.llmInputTokens, first.llmOutputTokens),
          TokenPrice(p, InputTokens(rest), OutputTokens(rest)));
    }
  }

  /** The counter `start` after the costs of the calls, as computed, are added to it in turn. */
  function Charged(p: Price, calls: seq<Units>, start: nat): nat
    decreases |calls|
  {
    if calls == [] then start
    else Min(Charged(p, calls[..|calls| - 1], start) + Min(SaturatedCost(p, calls[|calls| - 1]), U64_MAX), U64_MAX)
  }

  lemma {:induction false} ExactCostsAppend(p: Price, calls: seq<Units>, u: Units)
    ensures ExactCosts(p, calls + [u]) == ExactCosts(p, calls) + ExactCost(p, u)
    decreases |calls|
  {
    if calls == [] {
      assert calls + [u] == [u];
    } else {
      assert (calls + [u])[1..] == calls[1..] + [u];
      ExactCostsAppend(p, calls[1..], u);
    }
  }

  /** Charging any number of calls to one counter ends at the exact sum of their costs, capped once. */
  lemma {:induction false} ChargedIsCappedSum(p: Price, calls: seq<Units>, start: u64)
    ensures Charged(p, calls, start) == Min(start + ExactCosts(p, calls), U64_MAX)
    decreases |calls|
  {
    if calls != [] {
      var init, last := calls[..|calls| - 1], calls[|calls| - 1];
      ChargedIsCappedSum(p, init, start);
      SaturationIsOneCap(p, last);
      ExactCostsAppend(p, init, last);
      assert init + [last] == calls;
      MinOfSum(start + ExactCosts(p, init), ExactCost(p, last), U64_MAX);
    }
  }

  // ---------------------------------------------------------------- any order, any grouping

  /** Ways of merging: one branch's units, or two merges merged. */
  datatype Merging = One(units: Units) | Both(left: Merging, right: Merging)

  function MergeAll(m: Merging): Units {
    match m
    case One(u) => u
    case Both(l, r) => Merged(MergeAll(l), MergeAll(r))
  }

  function Leaves(m: Merging): multiset<Units> {
    match m
    case One(u) => multiset{u}
    case Both(l, r) => Leaves(l) + Leaves(r)
  }

  /** One counter of the units. */
  datatype Counter = LlmInput | LlmOutput | LlmRequests | Pages | Images | External | CostCounter | Unpriced

  function Count(c: Counter, u: Units): u64 {
    match c
    case LlmInput => u.llmInputTokens
    case LlmOutput => u.llmOutputTokens
    case LlmRequests => u.llmRequests
    case Pages => u.pages
    case Images => u.images
    case External => u.externalRequests
    case CostCounter => u.costMicroUsd
    case Unpriced => u.unpricedCalls
  }

  function Total(c: Counter, m: Merging): nat {
    match m
    case One(u) => Count(c, u)
    case Both(l, r) => Total(c, l) + Total(c, r)
  }

  /** However branches are merged, each counter ends at the exact total, capped once. */
  lemma {:induction false} MergeIsCappedTotal(c: Counter, m: Merging)
    ensures Count(c, MergeAll(m)) == Min(Total(c, m), U64_MAX)
  {
    match m
    case One(u) =>
    case Both(l, r) =>
      MergeIsCappedTotal(c, l);
      MergeIsCappedTotal(c, r);
      MinOfSum(Total(c, l), Total(c, r), U64_MAX);
  }

  /** The exact total depends only on which units are merged, not on order or grouping. */
  lemma {:induction false} TotalOfLeaves(c: Counter, m: Merging)
    ensures Total(c, m) == SumOver(c, Leaves(m))
  {
    match m
    case One(u) =>
      SumOverPick(c, multiset{u}, u);
      assert multiset{u} - multiset{u} == multiset{};
    case Both(l, r) =>
      TotalOfLeaves(c, l);
      TotalOfLeaves(c, r);
      SumOverUnion(c, Leaves(l), Leaves(r));
  }

  ghost function Pick(s: multiset<Units>): (u: Units)
    requires s != multiset{}
    ensures u in s
  {
    var u :| u in s;
    u
  }

  ghost function SumOver(c: Counter, s: multiset<Units>): nat
    decreases |s|
  {
    if s == multiset{} then 0 else Count(c, Pick(s)) + SumOver(c, s - multiset{Pick(s)})
  }

  lemma {:induction false} SumOverPick(c: Counter, s: multiset<Units>, u: Units)
    requires u in s
    ensures SumOver(c, s) == Count(c, u) + SumOver(c, s - multiset{u})
    decreases |s|
  {
    var v := Pick(s);
    if v != u {
      SumOverPick(c, s - multiset{v}, u);
      SumOverPick(c, s - multiset{u}, v);
      assert s - multiset{v} - multiset{u} == s - multiset{u} - multiset{v};
    }
  }

  lemma {:induction false} SumOverUnion(c: Counter, s: multiset<Units>, t: multiset<Units>)
    ensures SumOver(c, s + t) == SumOver(c, s) + SumOver(c, t)
    decreases |t|
  {
    if t == multiset{} {
      assert s + t == s;
    } else {
      var u := Pick(t);
      SumOverPick(c, s + t, u);
      assert s + t - multiset{u} == s + (t - multiset{u});
      SumOverUnion(c, s, t - multiset{u});
    }
  }

  /** Merging the same units in any order and any grouping gives the same counters. */
  lemma MergeAnyWay(c: Counter, m: Merging, m': Merging)
    requires Leaves(m) == Leaves(m')
    ensures Count(c, MergeAll(m)) == Count(c, MergeAll(m'))
  {
    MergeIsCappedTotal(c, m);
    MergeIsCappedTotal(c, m');
    TotalOfLeaves(c, m);
    TotalOfLeaves(c, m');
  }
}
