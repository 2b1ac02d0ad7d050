/** `reward_for`: the reward one card gives for one purchase, given the
    month-to-date spend per "<card name>_<category>" key. */
module Rewards {
  import opened Text
  import opened Money
  import opened Catalog
  import opened Categories

  /** The note returned beside the reward: the rule's rate and type (rendered
      as text by `reward_for`), "Cap reached" or "No matching category". */
  datatype Note = Rated(rate: real, kind: string) | CapReached | NoMatchingCategory

  datatype Reward = Reward(value: real, note: Note)

  /** The month_spend key of a card and category. */
  function SpendKey(cardName: string, category: string): string {
    cardName + "_" + category
  }

  /** The month-to-date spend under `key`, zero when there is none. */
  function SpentOf(spend: map<string, real>, key: string): real {
    if key in spend then spend[key] else 0.0
  }

  /** The card's rule for `category`, else its "other" rule, else none. */
  function LookupRule(card: Card, category: string): Option<Rule> {
    if category in card.categories then Some(card.categories[category])
    else if "other" in card.categories then Some(card.categories["other"])
    else None
  }

  /** The rule names partners and none of them occurs in the lower-cased
      merchant name. */
  predicate PartnerMiss(rule: Rule, merchant: string) {
    |rule.partners| > 0 &&
    forall i :: 0 <= i < |rule.partners| ==> !Contains(Lower(merchant), rule.partners[i])
  }

  /** The rule `reward_for` goes on with: the looked-up rule, or the card's
      "other" rule when the partner test fails. */
  function AppliedRule(card: Card, category: string, merchant: string): (rule: Rule)
    requires LookupRule(card, category).Some?
    requires PartnerMiss(LookupRule(card, category).value, merchant) ==> "other" in card.categories
    ensures !PartnerMiss(LookupRule(card, category).value, merchant) ==> rule == LookupRule(card, category).value
    ensures PartnerMiss(LookupRule(card, category).value, merchant) ==> rule == card.categories["other"]
    ensures category !in card.categories ==> rule == card.categories["other"]
  {
    var found := LookupRule(card, category).value;
    if PartnerMiss(found, merchant) then card.categories["other"] else found
  }

  /** The cap in force: a missing cap and a cap of 0 both mean no cap. */
  function EffectiveCap(rule: Rule): Option<real> {
    if rule.cap.Some? && rule.cap.value != 0 then Some(rule.cap.value as real) else None
  }

  /** `cap and spent >= cap`. */
  predicate CapExhausted(rule: Rule, spent: real) {
    EffectiveCap(rule).Some? && spent >= EffectiveCap(rule).value
  }

  /** The eligible amount, once the cap is known not to be reached: never
      more than the amount, never more than what is left under the cap, the
      whole amount when there is no cap. */
  function Eligible(rule: Rule, amount: real, spent: real): (e: real)
    requires !CapExhausted(rule, spent)
    ensures e <= amount
    ensures EffectiveCap(rule).Some? ==> e <= EffectiveCap(rule).value - spent
    ensures EffectiveCap(rule).Some? ==> e == amount || e == EffectiveCap(rule).value - spent
    ensures EffectiveCap(rule).None? ==> e == amount
    ensures amount >= 0.0 ==> e >= 0.0
  {
    if EffectiveCap(rule).Some? then Min(amount, EffectiveCap(rule).value - spent) else amount
  }

  /** A "discount" rule past the cap test needs a discount cap: `reward_for`
      compares against it, which raises when it is missing. */
  predicate DiscountDefined(rule: Rule, spent: real) {
    rule.kind == "discount" && !CapExhausted(rule, spent) ==> rule.discountCap.Some?
  }

  /** The rate and discount cap are not negative. */
  predicate NonNegativeRule(rule: Rule) {
    rule.rate >= 0.0 && (rule.discountCap.Some? ==> rule.discountCap.value >= 0.0)
  }

  predicate NonNegativeRates(card: Card) {
    forall c :: c in card.categories ==> NonNegativeRule(card.categories[c])
  }

  /** The percentage of the eligible amount a rule earns before rounding. */
  function Percent(eligible: real, rate: real): real {
    (eligible * rate) / 100.0
  }

  /** `reward_for` once the rule is chosen: the cap short-circuit, then the
      reward by rule type, rounded to hundredths. */
  function EvalRule(rule: Rule, amount: real, spent: real): (r: Reward)
    requires DiscountDefined(rule, spent)
    ensures r.note == CapReached <==> CapExhausted(rule, spent)
    ensures CapExhausted(rule, spent) ==> r.value == 0.0
    ensures !CapExhausted(rule, spent) ==> r.note == Rated(rule.rate, rule.kind)
    ensures IsCents(r.value)
    ensures !CapExhausted(rule, spent) && rule.kind == "bogo" ==>
              r.value == Min(Round2(Eligible(rule, amount, spent)), Round2(rule.rate))
    ensures !CapExhausted(rule, spent) && rule.kind == "bogo" ==>
              r.value <= Round2(rule.rate) && r.value <= Round2(Eligible(rule, amount, spent))
    ensures !CapExhausted(rule, spent) && rule.kind == "discount" ==>
              r.value == Min(Round2(Percent(Eligible(rule, amount, spent), rule.rate)), Round2(rule.discountCap.value))
    ensures !CapExhausted(rule, spent) && rule.kind == "discount" ==>
              r.value <= Round2(rule.discountCap.value) &&
              r.value <= Round2(Percent(Eligible(rule, amount, spent), rule.rate))
    ensures !CapExhausted(rule, spent) && rule.kind != "bogo" && rule.kind != "discount" ==>
              r.value == Round2(Percent(Eligible(rule, amount, spent), rule.rate))
    ensures amount >= 0.0 && NonNegativeRule(rule) ==> r.value >= 0.0
  {
    if CapExhausted(rule, spent) then
      Reward(0.0, CapReached)
    else
      var eligible := Eligible(rule, amount, spent);
      var raw := RawReward(rule, eligible);
      RawRewardRounded(rule, eligible);
      Reward(Round2(raw), Rated(rule.rate, rule.kind))
  }

  /** The reward by rule type before rounding: the smaller of the eligible
      amount and the rate for "bogo"; the rate's percentage of the eligible
      amount, limited by the discount cap, for "discount"; that percentage
      alone for any other type. */
  function RawReward(rule: Rule, eligible: real): real
    requires rule.kind == "discount" ==> rule.discountCap.Some?
  {
    if rule.kind == "bogo" then Min(eligible, rule.rate)
    else if rule.kind == "discount" then Min(Percent(eligible, rule.rate), rule.discountCap.value)
    else Percent(eligible, rule.rate)
  }

  /** Rounding commutes with the per-type minimum: a "bogo" or "discount"
      reward is the smaller of the two rounded limits. */
  lemma RawRewardRounded(rule: Rule, eligible: real)
    requires rule.kind == "discount" ==> rule.discountCap.Some?
    ensures rule.kind == "bogo" ==>
              Round2(RawReward(rule, eligible)) == Min(Round2(eligible), Round2(rule.rate))
    ensures rule.kind == "discount" ==>
              Round2(RawReward(rule, eligible)) ==
              Min(Round2(Percent(eligible, rule.rate)), Round2(rule.discountCap.value))
    ensures eligible >= 0.0 && NonNegativeRule(rule) ==> RawReward(rule, eligible) >= 0.0
  {
    var raw := RawReward(rule, eligible);
    if rule.kind == "bogo" {
      Round2Monotone(raw, rule.rate);
      Round2Monotone(raw, eligible);
    } else if rule.kind == "discount" {
      Round2Monotone(raw, rule.discountCap.value);
      Round2Monotone(raw, Percent(eligible, rule.rate));
    }
    if eligible >= 0.0 && NonNegativeRule(rule) {
      PercentMonotone(0.0, eligible, rule.rate);
    }
  }

  /** `reward_for` raises no exception: a partner miss finds an "other" rule,
      and the rule used can be evaluated. */
  predicate Completes(card: Card, category: string, merchant: string, spent: real) {
    LookupRule(card, category).Some? ==>
      (PartnerMiss(LookupRule(card, category).value, merchant) ==> "other" in card.categories) &&
      DiscountDefined(AppliedRule(card, category, merchant), spent)
  }

  /** A card `reward_for` can always evaluate: it has an "other" rule, and
      each of its discount rules has a discount cap. */
  predicate WellFormedCard(card: Card) {
    "other" in card.categories &&
    forall c :: c in card.categories && card.categories[c].kind == "discount" ==>
      card.categories[c].discountCap.Some?
  }

  /** On a well-formed card `reward_for` completes for every category,
      merchant and running spend. */
  lemma WellFormedCompletes(card: Card, category: string, merchant: string, spent: real)
    requires WellFormedCard(card)
    ensures Completes(card, category, merchant, spent)
  {
    if LookupRule(card, category).Some? {
      var rule := AppliedRule(card, category, merchant);
      assert rule in card.categories.Values;
    }
  }

  /** `reward_for` with the category already resolved (`reward_for` resolves
      it from the merchant name first; see RewardFor). */
  function RewardForCategory(card: Card, category: string, merchant: string, amount: real,
                             spend: map<string, real>): (r: Reward)
    requires Completes(card, category, merchant, SpentOf(spend, SpendKey(card.name, category)))
    ensures r == Reward(0.0, NoMatchingCategory) <==> category !in card.categories && "other" !in card.categories
    ensures r.note == CapReached <==>
              LookupRule(card, category).Some? &&
              CapExhausted(AppliedRule(card, category, merchant), SpentOf(spend, SpendKey(card.name, category)))
    ensures r.note == CapReached ==> r.value == 0.0
    ensures IsCents(r.value)
    ensures amount >= 0.0 && NonNegativeRates(card) ==> r.value >= 0.0
  {
    match LookupRule(card, category)
    case None => Reward(0.0, NoMatchingCategory)
    case Some(_) =>
      EvalRule(AppliedRule(card, category, merchant), amount, SpentOf(spend, SpendKey(card.name, category)))
  }

  /** The spend `reward_for` reads for a card and merchant. */
  function SpentFor(card: Card, merchant: string, spend: map<string, real>): real {
    SpentOf(spend, SpendKey(card.name, MerchantCategory(merchant)))
  }

  /** `reward_for`: resolve the merchant's category, then evaluate. */
  function RewardFor(card: Card, merchant: string, amount: real, spend: map<string, real>): (r: Reward)
    requires Completes(card, MerchantCategory(merchant), merchant, SpentFor(card, merchant, spend))
    ensures r == Reward(0.0, NoMatchingCategory) <==>
              MerchantCategory(merchant) !in card.categories && "other" !in card.categories
    ensures IsCents(r.value)
    ensures amount >= 0.0 && NonNegativeRates(card) ==> r.value >= 0.0
  {
    RewardForCategory(card, MerchantCategory(merchant), merchant, amount, spend)
  }

  /** Partner fallback: when the looked-up rule's partners all miss, the result
      is what the card's "other" rule gives, with the spend still read under
      the resolved category's key. */
  lemma PartnerFallback(card: Card, category: string, merchant: string, amount: real,
                        spend: map<string, real>)
    requires Completes(card, category, merchant, SpentOf(spend, SpendKey(card.name, category)))
    requires LookupRule(card, category).Some? && PartnerMiss(LookupRule(card, category).value, merchant)
    ensures "other" in card.categories
    ensures DiscountDefined(card.categories["other"], SpentOf(spend, SpendKey(card.name, category)))
    ensures RewardForCategory(card, category, merchant, amount, spend) ==
            EvalRule(card.categories["other"], amount, SpentOf(spend, SpendKey(card.name, category)))
  {
  }

  /** For a fixed rule and spend, the reward does not decrease as the amount
      grows. */
  lemma EvalMonotone(rule: Rule, a1: real, a2: real, spent: real)
    requires DiscountDefined(rule, spent) && NonNegativeRule(rule)
    requires a1 <= a2
    ensures EvalRule(rule, a1, spent).value <= EvalRule(rule, a2, spent).value
  {
    if !CapExhausted(rule, spent) {
      var e1, e2 := Eligible(rule, a1, spent), Eligible(rule, a2, spent);
      assert e1 <= e2;
      PercentMonotone(e1, e2, rule.rate);
      Round2Monotone(RawReward(rule, e1), RawReward(rule, e2));
    }
  }

  lemma PercentMonotone(e1: real, e2: real, rate: real)
    requires e1 <= e2 && rate >= 0.0
    ensures Percent(e1, rate) <= Percent(e2, rate)
  {
    assert (e2 - e1) * rate >= 0.0;
  }

  /** For a fixed card, category, merchant and spend, with rates and discount
      caps not negative, the reward does not decrease as the amount grows. */
  lemma RewardMonotone(card: Card, category: string, merchant: string, a1: real, a2: real,
                       spend: map<string, real>)
    requires Completes(card, category, merchant, SpentOf(spend, SpendKey(card.name, category)))
    requires NonNegativeRates(card)
    requires a1 <= a2
    ensures RewardForCategory(card, category, merchant, a1, spend).value <=
            RewardForCategory(card, category, merchant, a2, spend).value
  {
    if LookupRule(card, category).Some? {
      var rule := AppliedRule(card, category, merchant);
      assert NonNegativeRule(rule);
      EvalMonotone(rule, a1, a2, SpentOf(spend, SpendKey(card.name, category)));
    }
  }

  /** Once the amount covers what is left under the cap, a larger amount
      earns nothing more: the reward is that of the amount left. */
  lemma CapSaturates(card: Card, category: string, merchant: string, amount: real,
                     spend: map<string, real>)
    requires Completes(card, category, merchant, SpentOf(spend, SpendKey(card.name, category)))
    requires LookupRule(card, category).Some?
    requires EffectiveCap(AppliedRule(card, category, merchant)).Some?
    requires amount >= EffectiveCap(AppliedRule(card, category, merchant)).value -
                       SpentOf(spend, SpendKey(card.name, category))
    ensures var left := EffectiveCap(AppliedRule(card, category, merchant)).value -
                        SpentOf(spend, SpendKey(card.name, category));
            RewardForCategory(card, category, merchant, amount, spend) ==
            RewardForCategory(card, category, merchant, left, spend)
  {
  }

  /** When the rate and the eligible amount are whole hundredths (as every
      catalogue rate is), a "bogo" reward is at most the rate and at most the
      eligible amount. */
  lemma BogoWithinCents(rule: Rule, amount: real, spent: real)
    requires rule.kind == "bogo" && !CapExhausted(rule, spent)
    ensures IsCents(rule.rate) ==> EvalRule(rule, amount, spent).value <= rule.rate
    ensures IsCents(Eligible(rule, amount, spent)) ==>
              EvalRule(rule, amount, spent).value <= Eligible(rule, amount, spent)
  {
    if IsCents(rule.rate) {
      Round2OfCents(rule.rate);
    }
    if IsCents(Eligible(rule, amount, spent)) {
      Round2OfCents(Eligible(rule, amount, spent));
    }
  }

  /** Without whole hundredths the rounding can lift a "bogo" reward above
      the eligible amount: half a hundredth at rate 1 earns a whole one. */
  lemma BogoRoundsUp()
    ensures var rule := Cat(1.0, kind := "bogo");
            EvalRule(rule, 0.005, 0.0) == Reward(0.01, Rated(1.0, "bogo")) &&
            EvalRule(rule, 0.005, 0.0).value > Eligible(rule, 0.005, 0.0)
  {
    var rule := Cat(1.0, kind := "bogo");
    assert Eligible(rule, 0.005, 0.0) == 0.005;
    assert RawReward(rule, 0.005) == 0.005;
    HundredthsAreCents(1);
    Round2Unique(0.005, 0.01);
  }

  /** A rate of 0 is no special case: a percentage rule of rate 0 earns 0, a
      "bogo" rule of rate 0 the smaller of the rounded eligible amount and 0,
      a "discount" rule of rate 0 the smaller of 0 and its rounded discount
      cap. */
  lemma ZeroRate(rule: Rule, amount: real, spent: real)
    requires rule.rate == 0.0 && DiscountDefined(rule, spent) && !CapExhausted(rule, spent)
    ensures rule.kind != "bogo" && rule.kind != "discount" ==> EvalRule(rule, amount, spent).value == 0.0
    ensures rule.kind == "bogo" ==> EvalRule(rule, amount, spent).value == Min(Round2(Eligible(rule, amount, spent)), 0.0)
    ensures rule.kind == "discount" ==> EvalRule(rule, amount, spent).value == Min(0.0, Round2(rule.discountCap.value))
  {
    Round2OfCents(0.0);
  }

  /** With a negative amount a "bogo" rule of rate 0 pays out a negative
      reward: -1.00 on -1. */
  lemma ZeroRateBogoNegative()
    ensures EvalRule(Cat(0.0, kind := "bogo"), -1.0, 0.0).value == -1.0
  {
    var rule := Cat(0.0, kind := "bogo");
    assert Eligible(rule, -1.0, 0.0) == -1.0;
    Round2OfCents(-1.0);
    Round2OfCents(0.0);
  }
}
