/** What a call is charged, against its real price. */
module Charges {
  import opened Wrappers
  import opened Cost

  // ---------------------------------------------------------------- which price

  /** The model's own entry comes first. */
  lemma OwnEntryFirst(table: Table, plugin: string, model: string)
    requires plugin in table && model in table[plugin]
    ensures PriceOf(table, plugin, model) == Some(table[plugin][model])
  {
  }

  lemma BareOf(provider: string, bare: string)
    requires '/' !in provider
    ensures BareModel(provider + "/" + bare) == Some(bare)
  {
    var model := provider + "/" + bare;
    assert model[|provider|] == '/';
    assert forall k :: 0 <= k < |provider| ==> model[k] == provider[k];
    assert FirstIndex(model, '/') == |provider|;
    assert model[|provider| + 1..] == bare;
  }

  /** Then that of the model after its provider, then the plugin's default. */
  lemma ThenBareThenDefault(table: Table, plugin: string, provider: string, bare: string)
    requires plugin in table && '/' !in provider && provider + "/" + bare !in table[plugin]
    ensures var models, found := table[plugin], PriceOf(table, plugin, provider + "/" + bare);
            && (bare in models ==> found == Some(models[bare]))
            && (bare !in models && "default" in models ==> found == Some(models["default"]))
            && (bare !in models && "default" !in models ==> found == None)
  {
    BareOf(provider, bare);
  }

  lemma NoProviderThenDefault(table: Table, plugin: string, model: string)
    requires plugin in table && '/' !in model && model !in table[plugin]
    ensures var models := table[plugin];
            PriceOf(table, plugin, model) == if "default" in models then Some(models["default"]) else None
  {
    assert FirstIndex(model, '/') == |model|;
  }

  // ---------------------------------------------------------------- unpriced calls

  /** A call is counted as unpriced, once, and otherwise left as it is, exactly when its plugin has no
      price for it, or its tokens or seconds have a price and none were reported. */
  lemma UnpricedExactly(table: Table, plugin: string, model: string, u: Units)
    ensures var price := PriceOf(table, plugin, model);
            var missing :=
              || price == None
              || (price.value.inputPerMtok + price.value.outputPerMtok > 0 && u.llmInputTokens + u.llmOutputTokens == 0)
              || (price.value.perAudioSecond > 0 && !(u.audioSeconds.Num? && u.audioSeconds.x > 0.0));
            var u' := Applied(table, plugin, model, u);
            && (missing ==> u' == u.(unpricedCalls := u'.unpricedCalls))
            && (missing ==> u'.unpricedCalls == if u.unpricedCalls < U64_MAX then u.unpricedCalls + 1 else U64_MAX)
            && (!missing ==> u' == u.(costMicroUsd := u'.costMicroUsd) && u'.costMicroUsd >= u.costMicroUsd)
  {
  }

  // ---------------------------------------------------------------- the real price

  lemma CeilingOfQuotient(a: nat)
    ensures a as real / 1000000.0 <= DivCeil(a, 1_000_000) as real < a as real / 1000000.0 + 1.0
  {
    var q, r := a / 1_000_000, a % 1_000_000;
    assert a == q * 1_000_000 + r;
    assert a as real / 1000000.0 == q as real + r as real / 1000000.0;
  }

  lemma CeilingOfReal(x: real)
    ensures x <= Ceil(x) as real < x + 1.0
  {
  }

  lemma SumsOfQuotients(a: nat, b: nat)
    ensures (a + b) as real / 1000000.0 == a as real / 1000000.0 + b as real / 1000000.0
  {
  }

  lemma ProductNotNegative(x: real, y: real)
    requires x >= 0.0 && y >= 0.0
    ensures x * y >= 0.0
  {
  }

  /** The audio part is the least whole number of micro-dollars that covers it. */
  lemma AudioCovered(p: Price, u: Units, s: real)
    requires u.audioSeconds == Num(s) && s >= 0.0
    ensures s * p.perAudioSecond as real <= AudioCost(p, u) as real < s * p.perAudioSecond as real + 1.0
  {
    ProductNotNegative(s, p.perAudioSecond as real);
    CeilingOfReal(s * p.perAudioSecond as real);
  }

  /** The real price of a call: input and output tokens at their prices per million, seconds at theirs,
      and the requests, at least one, at theirs. */
  ghost predicate IsRealPrice(p: Price, u: Units, s: real, price: real) {
    var requests := if u.llmRequests + u.externalRequests > 1 then u.llmRequests + u.externalRequests else 1;
    var input := (u.llmInputTokens * p.inputPerMtok) as real / 1000000.0;
    var output := (u.llmOutputTokens * p.outputPerMtok) as real / 1000000.0;
    price == input + output + s * p.perAudioSecond as real + (requests * p.perRequest) as real
  }

  /** The exact cost covers the real price, rounding up by less than one micro-dollar for the tokens and
      less than one for the audio. */
  lemma CostCovered(p: Price, u: Units, s: real, price: real)
    requires u.audioSeconds == Num(s) && s >= 0.0 && IsRealPrice(p, u, s, price)
    ensures price <= ExactCost(p, u) as real < price + 2.0
  {
    CeilingOfQuotient(TokenPrice(p, u.llmInputTokens, u.llmOutputTokens));
    SumsOfQuotients(u.llmInputTokens * p.inputPerMtok, u.llmOutputTokens * p.outputPerMtok);
    AudioCovered(p, u, s);
  }

  /** Below the cap, a priced call adds its real price, rounded up by less than two micro-dollars. At the
      cap, it would have got there. */
  lemma ChargeIsRealPrice(table: Table, plugin: string, model: string, u: Units, s: real, price: real)
    requires PriceOf(table, plugin, model).Some? && u.audioSeconds == Num(s) && s >= 0.0
    requires IsRealPrice(PriceOf(table, plugin, model).value, u, s, price)
    requires var p := PriceOf(table, plugin, model).value;
             && (p.inputPerMtok + p.outputPerMtok > 0 ==> u.llmInputTokens + u.llmOutputTokens > 0)
             && (p.perAudioSecond > 0 ==> s > 0.0)
    ensures var u' := Applied(table, plugin, model, u);
            && u'.costMicroUsd >= u.costMicroUsd
            && (u'.costMicroUsd < U64_MAX ==> price <= (u'.costMicroUsd - u.costMicroUsd) as real < price + 2.0)
            && (u'.costMicroUsd == U64_MAX ==> (U64_MAX - u.costMicroUsd) as real < price + 2.0)
  {
    CostCovered(PriceOf(table, plugin, model).value, u, s, price);
    ChargeWithin(table, plugin, model, u, s, price);
  }

  lemma ChargeWithin(table: Table, plugin: string, model: string, u: Units, s: real, price: real)
    requires PriceOf(table, plugin, model).Some? && u.audioSeconds == Num(s)
    requires var p := PriceOf(table, plugin, model).value;
             && (p.inputPerMtok + p.outputPerMtok > 0 ==> u.llmInputTokens + u.llmOutputTokens > 0)
             && (p.perAudioSecond > 0 ==> s > 0.0)
    requires price <= ExactCost(PriceOf(table, plugin, model).value, u) as real < price + 2.0
    ensures var u' := Applied(table, plugin, model, u);
            && u'.costMicroUsd >= u.costMicroUsd
            && (u'.costMicroUsd < U64_MAX ==> price <= (u'.costMicroUsd - u.costMicroUsd) as real < price + 2.0)
            && (u'.costMicroUsd == U64_MAX ==> (U64_MAX - u.costMicroUsd) as real < price + 2.0)
  {
    CostAdded(table, plugin, model, u, s);
    AddedWithin(u.costMicroUsd, ExactCost(PriceOf(table, plugin, model).value, u), price);
  }

  lemma CostAdded(table: Table, plugin: string, model: string, u: Units, s: real)
    requires PriceOf(table, plugin, model).Some? && u.audioSeconds == Num(s)
    requires var p := PriceOf(table, plugin, model).value;
             && (p.inputPerMtok + p.outputPerMtok > 0 ==> u.llmInputTokens + u.llmOutputTokens > 0)
             && (p.perAudioSecond > 0 ==> s > 0.0)
    ensures Applied(table, plugin, model, u).costMicroUsd
         == Min(u.costMicroUsd + ExactCost(PriceOf(table, plugin, model).value, u), U64_MAX)
  {
  }

  lemma AddedWithin(before: u64, cost: nat, price: real)
    requires price <= cost as real < price + 2.0
    ensures var after := Min(before + cost, U64_MAX);
            && after >= before
            && (after < U64_MAX ==> price <= (after - before) as real < price + 2.0)
            && (after == U64_MAX ==> (U64_MAX - before) as real < price + 2.0)
  {
  }

  /** A call charged for its seconds alone adds the least whole number that covers them. */
  lemma AudioAloneIsRoundedUp(table: Table, plugin: string, model: string, u: Units, s: real)
    requires PriceOf(table, plugin, model).Some? && u.audioSeconds == Num(s) && s > 0.0
    requires var p := PriceOf(table, plugin, model).value; p.inputPerMtok == p.outputPerMtok == p.perRequest == 0
    ensures var p, u' := PriceOf(table, plugin, model).value, Applied(table, plugin, model, u);
            u'.costMicroUsd < U64_MAX ==>
              var price := s * p.perAudioSecond as real;
              price <= (u'.costMicroUsd - u.costMicroUsd) as real < price + 1.0
  {
    var p := PriceOf(table, plugin, model).value;
    AudioCovered(p, u, s);
    NoPrice(u.llmInputTokens);
    NoPrice(u.llmOutputTokens);
    NoPrice(AtLeastOne(u.llmRequests + u.externalRequests));
  }

  lemma NoPrice(n: nat)
    ensures Times(n, 0) == 0
  {
  }

  // ---------------------------------------------------------------- audio adds up

  /** Finite seconds add up; anything else stays no usable number. */
  lemma AudioAdds(a: Units, b: Units)
    ensures a.audioSeconds.Num? && b.audioSeconds.Num? ==>
              Merged(a, b).audioSeconds == Num(a.audioSeconds.x + b.audioSeconds.x)
    ensures Merged(a, b).audioSeconds.Num? <==> a.audioSeconds.Num? && b.audioSeconds.Num?
    ensures Merged(a, b).audioSeconds == Merged(b, a).audioSeconds
  {
  }
}
