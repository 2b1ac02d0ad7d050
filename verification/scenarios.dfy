/** Worked cases over the shipped catalogue and keyword table. */
module Scenarios {
  import opened Text
  import opened Money
  import opened Catalog
  import opened Categories
  import opened Rewards
  import opened Ranking

  /** Every card of CARDS has an "other" rule and its one discount rule has a
      discount cap, so `reward_for` never raises for a catalogue card. */
  lemma CatalogWellFormed(id: string)
    requires id in Cards
    ensures WellFormedCard(Cards[id])
  {
    var card := Cards[id];
    assert card in {HdfcInfinia, HdfcDinersBlack, AxisAce, AxisAtlas, AxisMagnus, FlipkartAxis,
                    SbiCashback, SbiSimplyclick, SbiPrime, AmazonPayIcici, IciciCoral,
                    ScSuperValue, HsbcLivePlus, RblWorldSafari, IndusindPinnacle};
  }

  /** `best_cards` over CARDS can evaluate any list of known card ids, for
      every merchant and monthly spend. */
  lemma CatalogEvaluable(ids: seq<string>, merchant: string, spend: map<string, real>)
    requires forall i :: 0 <= i < |ids| ==> ids[i] in Cards
    ensures Evaluable(Cards, ids, merchant, spend)
  {
    forall i | 0 <= i < |ids|
      ensures EvaluableId(Cards, ids[i], merchant, spend)
    {
      var card := Cards[ids[i]];
      CatalogWellFormed(ids[i]);
      WellFormedCompletes(card, MerchantCategory(merchant), merchant, SpentFor(card, merchant, spend));
    }
  }

  /** The rewards of these cases are already whole hundredths. */
  lemma RoundedValues()
    ensures Round2(66.0) == 66.0 && Round2(3.3) == 3.3 && Round2(15.0) == 15.0
    ensures Round2(100.0) == 100.0 && Round2(4.0) == 4.0
  {
    Round2OfCents(66.0);
    Round2OfCents(3.3);
    Round2OfCents(15.0);
    Round2OfCents(100.0);
    Round2OfCents(4.0);
  }

  /** Every spelling of "swiggy", whatever its capitalisation, resolves to
      dining. */
  lemma SwiggyIsDining(s: string)
    requires Lower(s) == "swiggy"
    ensures MerchantCategory(s) == "dining"
  {
    assert Contains("swiggy", "swiggy");
  }

  /** The keyword table resolves no merchant to the categories of the
      catalogue's other rules, so `reward_for` never reaches those rules. */
  lemma UnreachableCategories(m: string)
    ensures MerchantCategory(m) !in {"movies", "fuel", "utilities", "travel", "online_spends"}
  {
  }

  /** ICICI Coral never gives its movie discount through `reward_for`: at
      every merchant it earns its 0.5% "other" rate on the whole amount. */
  lemma CoralNeverDiscounts(m: string, amount: real, spend: map<string, real>)
    ensures Completes(IciciCoral, MerchantCategory(m), m, SpentFor(IciciCoral, m, spend)) &&
            RewardFor(IciciCoral, m, amount, spend) == Reward(Round2(Percent(amount, 0.5)), Rated(0.5, "points"))
  {
    var card := IciciCoral;
    var category := MerchantCategory(m);
    assert category != "movies" && category != "other" ==> category !in card.categories by {
      assert card.categories.Keys == {"movies", "other"};
    }
    WellFormedCompletes(card, category, m, SpentFor(card, m, spend));
    assert AppliedRule(card, category, m) == card.categories["other"];
  }

  /** At "PVR" (no keyword matches, so the category is "other") ICICI Coral
      earns 0.5% of 1000: 5.00. */
  lemma CoralAtPvr()
    ensures MerchantCategory("PVR") == "other"
    ensures RewardFor(IciciCoral, "PVR", 1000.0, map[]) == Reward(5.0, Rated(0.5, "points"))
  {
    assert Lower("PVR") == "pvr";
    assert forall i :: 0 <= i < |MerchantCategories| ==> !Contains("pvr", MerchantCategories[i].0);
    CoralNeverDiscounts("PVR", 1000.0, map[]);
    assert Percent(1000.0, 0.5) == 5.0;
    Round2OfCents(5.0);
  }

  /** At Swiggy, HDFC Diners Club Black applies its dining rule to the spend
      under "HDFC Diners Club Black_dining". */
  lemma DinersAtSwiggy(amount: real, spend: map<string, real>)
    ensures Completes(HdfcDinersBlack, MerchantCategory("Swiggy"), "Swiggy", SpentFor(HdfcDinersBlack, "Swiggy", spend)) &&
            RewardFor(HdfcDinersBlack, "Swiggy", amount, spend) ==
            EvalRule(DinersDining, amount, SpentOf(spend, "HDFC Diners Club Black_dining"))
  {
    var card := HdfcDinersBlack;
    assert Lower("Swiggy") == "swiggy";
    SwiggyIsDining("Swiggy");
    assert SpendKey(card.name, "dining") == "HDFC Diners Club Black_dining";
    assert AppliedRule(card, "dining", "Swiggy") == card.categories["dining"];
    assert card.categories["dining"] == DinersDining;
  }

  /** The Diners Club Black dining rule as `cat` builds it. */
  const DinersDining: Rule := Rule(6.6, "points", Some(1_000), [], None)

  /** 6.6% on 1000 at the Diners Club Black's dining rule, nothing spent yet. */
  lemma DinersDiningFull()
    ensures RewardFor(HdfcDinersBlack, "Swiggy", 1000.0, map[]) == Reward(66.0, Rated(6.6, "points"))
  {
    var rule := DinersDining;
    DinersAtSwiggy(1000.0, map[]);
    assert Eligible(rule, 1000.0, 0.0) == 1000.0;
    assert Percent(1000.0, 6.6) == 66.0;
    RoundedValues();
  }

  /** With 950 of the 1000 cap spent, only 50 of an 800 purchase earns. */
  lemma DinersDiningPartialCap()
    ensures RewardFor(HdfcDinersBlack, "Swiggy", 800.0,
                      map["HDFC Diners Club Black_dining" := 950.0]) == Reward(3.3, Rated(6.6, "points"))
  {
    var rule := DinersDining;
    DinersAtSwiggy(800.0, map["HDFC Diners Club Black_dining" := 950.0]);
    assert Eligible(rule, 800.0, 950.0) == 50.0;
    assert Percent(50.0, 6.6) == 3.3;
    RoundedValues();
  }

  /** With the whole cap spent the card gives nothing, whatever the amount. */
  lemma DinersDiningCapReached(amount: real)
    ensures RewardFor(HdfcDinersBlack, "Swiggy", amount,
                      map["HDFC Diners Club Black_dining" := 1000.0]) == Reward(0.0, CapReached)
  {
    DinersAtSwiggy(amount, map["HDFC Diners Club Black_dining" := 1000.0]);
  }

  /** ICICI Coral's movie rule, evaluated on its own: the 25% discount on
      1000 stops at its discount cap of 100. */
  lemma CoralDiscountRule()
    ensures EvalRule(IciciCoral.categories["movies"], 1000.0, 0.0) == Reward(100.0, Rated(25.0, "discount"))
  {
    RoundedValues();
  }

  /** IndusInd Pinnacle's movie rule (rate 700, cap 4), evaluated on its own:
      the cap limits the eligible amount, so 1400 gives 4.00. */
  lemma PinnacleBogoRule()
    ensures EvalRule(IndusindPinnacle.categories["movies"], 1400.0, 0.0) == Reward(4.0, Rated(700.0, "bogo"))
  {
    RoundedValues();
  }

  /** A string of the same length as `needle` but another first character
      does not contain it. */
  lemma SameLengthAbsent(hay: string, needle: string)
    requires |hay| == |needle| > 0 && hay[0] != needle[0]
    ensures !Contains(hay, needle)
  {
    assert hay[..|needle|] != needle by { assert hay[..|needle|][0] != needle[0]; }
    assert !Contains(hay[1..], needle);
  }

  /** "Amazon" resolves to ecommerce, the category of the fifth keyword. */
  lemma AmazonIsEcommerce()
    ensures MerchantCategory("Amazon") == "ecommerce"
  {
    assert Lower("Amazon") == "amazon";
    SameLengthAbsent("amazon", "swiggy");
    SameLengthAbsent("amazon", "zomato");
    assert !Contains("amazon", "bigbasket") && !Contains("amazon", "grofers");
    assert Contains("amazon", "amazon");
    assert NoMatchBefore(MerchantCategories, "amazon", 4);
  }

  /** Neither of Flipkart Axis's ecommerce partners occurs in "Amazon". */
  lemma FlipkartPartnersMissAmazon()
    ensures PartnerMiss(FlipkartAxis.categories["ecommerce"], "Amazon")
  {
    assert Lower("Amazon") == "amazon";
    var ps := FlipkartAxis.categories["ecommerce"].partners;
    assert |ps| == 2 && ps[0] == Lower("flipkart") && ps[1] == Lower("myntra");
    LowerOfLower("flipkart");
    LowerOfLower("myntra");
    SameLengthAbsent("amazon", "myntra");
    assert !Contains("amazon", "flipkart");
  }

  /** Flipkart Axis's 5% ecommerce rule is for Flipkart and Myntra only: at
      Amazon the card falls back to its 1.5% "other" rule. */
  lemma FlipkartAxisAtAmazon()
    ensures RewardFor(FlipkartAxis, "Amazon", 1000.0, map[]) == Reward(15.0, Rated(1.5, "points"))
  {
    var card := FlipkartAxis;
    var rule := card.categories["other"];
    AmazonIsEcommerce();
    FlipkartPartnersMissAmazon();
    assert AppliedRule(card, "ecommerce", "Amazon") == rule;
    assert SpentFor(card, "Amazon", map[]) == 0.0;
    assert Eligible(rule, 1000.0, 0.0) == 1000.0;
    assert Percent(1000.0, 1.5) == 15.0;
    RoundedValues();
  }
}
