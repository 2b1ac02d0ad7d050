# Smart Credit-Card Recommender — reward engine model

A Dafny model of the reward recommendation engine of the Smart Credit-Card
Recommender (`app.py`). Given a merchant name, a purchase amount and the
month-to-date spend per card and category, the engine:

- resolves the merchant to a spending category. It lower-cases the name and
  takes the first keyword of the merchant table that occurs in it, in table
  order; with no match the category is "other".
- computes each card's reward. The steps are, in order:
  - take the rule for the category, else the card's "other" rule;
  - fall back to "other" when the rule names partner merchants and none of
    them matches;
  - read the spend under the key "<card name>_<category>";
  - give nothing once a monthly cap is reached;
  - clamp the eligible amount to what is left under the cap;
  - compute a "bogo", "discount" or percentage reward;
  - round it to hundredths, half-up.
- builds one record per candidate card and sorts the records stably. The sort
  is by reward, highest first, then by annual fee, lowest first.

Modules:

- `Text`: ASCII lower-casing and the substring test.
- `Money`: exact decimal amounts as `real`; half-up rounding to hundredths.
- `Catalog`: the rule and card records, the keyword table and the fifteen
  shipped cards.
- `Categories`: merchant resolution.
- `Rewards`: `reward_for`. It is a pure function: it only reads the spend
  map and never writes it.
- `Ranking`: `best_cards`. It is a method that appends one record per card in
  a loop and then sorts the records. The sort is an insertion sort, one
  record at a time. Its specification is the function `SortByKey`.
- `Scenarios`: worked cases on the shipped catalogue.

The places where `reward_for` or `best_cards` would raise are preconditions:

- a partner miss on a card without an "other" rule (`Rewards.Completes`);
- a "discount" rule without a discount cap that gets past the cap test
  (`Rewards.Completes`);
- an unknown card id (`Ranking.EvaluableId`).

`Rewards.WellFormedCard` names the cards on which the first two never
happen. `Scenarios.CatalogWellFormed` proves that every shipped card is one
of them.

Behaviour of `app.py` kept as written:

- merchant names are lower-cased but not trimmed;
- the note is the rule's rate and type, "Cap reached" or "No matching
  category";
- there is no special case for a rate of 0: a percentage rule of rate 0
  earns 0, and a "bogo" rule of rate 0 earns the smaller of the rounded
  eligible amount and 0, which is 0 for a non-negative amount and negative
  for a negative one, and a "discount" rule of rate 0 earns the smaller of 0
  and its rounded discount cap (`Rewards.ZeroRate`,
  `Rewards.ZeroRateBogoNegative`);
- the only rule types told apart are "bogo" and "discount"; every other type
  is a percentage;
- any amount is accepted, negative or zero included;
- records equal in both reward and fee keep their input order.

The shipped keyword table only ever resolves a merchant to "dining",
"grocery", "ecommerce" or "other". No merchant ever reaches the catalogue's
rules for "movies", "fuel", "utilities", "travel" or "online_spends"
(`Scenarios.UnreachableCategories`). A card applies its rule for the
resolved category (dining, grocery or ecommerce) when it has one, subject to
the partner test, else its "other" rule. ICICI Coral, IndusInd Pinnacle,
Axis Atlas, SBI Cashback, SC Super Value and RBL World Safari therefore
always apply their "other" rule, as do HDFC Infinia Metal and Axis Magnus,
whose only rule it is (for ICICI Coral: `Scenarios.CoralNeverDiscounts`,
`Scenarios.CoralAtPvr`). The evaluation of a rule is still modelled and
proved for every rule, reached or not: `Scenarios.CoralDiscountRule` and
`Scenarios.PinnacleBogoRule` evaluate two unreachable rules directly.

## Model

| member | source | states |
|---|---|---|
| Text.Lower | app.py:217 | lower-casing keeps the length, lower-cases every character and leaves no capital letter |
| Text.LowerOfLower | app.py:61 | lower-casing a name that has no capitals leaves it unchanged |
| Text.Contains | app.py:219 | the substring test is true exactly when the keyword occurs at some position of the name |
| Money.Round2 | app.py:30 | the rounded value is whole hundredths, within half a hundredth of the input, with a tie going away from zero, and it keeps the sign |
| Money.Round2Unique | app.py:30 | these half-up bounds determine the rounded value: no other whole number of hundredths meets them |
| Money.Round2OfCents | app.py:30 | rounding an amount that is already whole hundredths returns it unchanged |
| Money.Round2Monotone | app.py:30 | rounding preserves order |
| Catalog.Cat | app.py:53-62 | rate, type and cap are kept as given; partners are lower-cased one by one; a missing or zero discount cap becomes none, and any other discount cap is kept |
| Categories.FirstMatch | app.py:218-222 | the result is the category of the first table entry whose keyword occurs (no earlier entry matching, as `Categories.NoMatchBefore` says); it is "other" when no keyword occurs; it is always a table category or "other" |
| Categories.MerchantCategory | app.py:216-222 | `Categories.FirstMatch` over the keyword table `Catalog.MerchantCategories` on the lower-cased name: a merchant always resolves to "dining", "grocery", "ecommerce" or "other" |
| Categories.MerchantCategoryIgnoresCase | app.py:217 | a merchant and its lower-cased name resolve to the same category |
| Rewards.AppliedRule | app.py:231-236 | the rule used is `Rewards.LookupRule` (the category's rule, else the "other" rule); it is the "other" rule when `Rewards.PartnerMiss` holds, that is when the rule lists partners and every one misses the lower-cased merchant |
| Rewards.Eligible | app.py:240-247 | with the cap in force given by `Rewards.EffectiveCap` (a missing or zero cap is none) and not reached (`Rewards.CapExhausted`), the eligible amount is at most the purchase amount and at most what is left under the cap; it is one of the two; it is the whole amount when uncapped; it is not negative when the amount is not |
| Rewards.EvalRule | app.py:238-256 | with `Rewards.Percent` the rate's percentage of the eligible amount (eligible × rate / 100, app.py:252 and 254): the note is "Cap reached", with value 0, exactly when a non-zero cap is reached (`Rewards.CapExhausted`); otherwise the note carries the rate and type, and the reward is whole hundredths; a bogo reward is the smaller of the rounded eligible amount and the rounded rate; a discount reward is the smaller of the rounded percentage of the eligible amount and the rounded discount cap; any other type gives exactly the rounded percentage of the eligible amount; the reward is not negative for a non-negative amount and rule |
| Rewards.RawRewardRounded | app.py:249-256 | `Rewards.RawReward` is the unrounded reward by type; rounding it gives the smaller of the two rounded limits for "bogo" and for "discount"; the unrounded reward is not negative for a non-negative eligible amount and rule |
| Rewards.WellFormedCompletes | app.py:231-252 | on a card with an "other" rule and a discount cap on every discount rule, the reward can be computed for every category, merchant and spend |
| Rewards.RewardForCategory | app.py:231-256 | with the spend read by `Rewards.SpentOf` under the key `Rewards.SpendKey` builds ("<name>_<category>", app.py:243-244), the result is (0, "No matching category") exactly when the card has neither the category's rule nor an "other" rule; the note is "Cap reached" exactly when the applied rule's cap is reached by the spend under "<name>_<category>", and the value is then 0; the reward is whole hundredths and not negative for a non-negative amount and rates |
| Rewards.RewardFor | app.py:227-256 | with the merchant's category resolved first and the spend read under that category's key (`Rewards.SpentFor`, app.py:229 and 243-244): "No matching category" exactly when the card has neither that category's rule nor an "other" rule; whole hundredths; not negative for a non-negative amount and rates |
| Rewards.PartnerFallback | app.py:235-244 | on a partner miss the card has an "other" rule, and the reward is that rule's evaluation with the spend still read under the originally resolved category's key |
| Rewards.EvalMonotone | app.py:247-256 | for a fixed rule and spend, a larger amount never earns less |
| Rewards.PercentMonotone | app.py:252-254 | the percentage of a larger eligible amount at a non-negative rate is not smaller |
| Rewards.RewardMonotone | app.py:231-256 | for a fixed card, category, merchant and spend, with non-negative rates, the reward does not decrease as the amount grows |
| Rewards.CapSaturates | app.py:245-247 | once the amount covers what is left under the cap, the reward equals that of exactly the amount left |
| Rewards.BogoWithinCents | app.py:249-250 | a bogo reward is at most the rate when the rate is whole hundredths, and at most the eligible amount when that is whole hundredths |
| Rewards.ZeroRate | app.py:249-256 | a rule of rate 0 past the cap test earns 0 as a percentage rule, the smaller of the rounded eligible amount and 0 as a "bogo" rule, and the smaller of 0 and the rounded discount cap as a "discount" rule |
| Rewards.ZeroRateBogoNegative | app.py:247-256 | a "bogo" rule of rate 0 on an amount of -1 earns -1.00 |
| Rewards.BogoRoundsUp | app.py:249-256 | a bogo rule of rate 1 on an amount of 0.005 earns 0.01, which is more than the eligible amount |
| Ranking.SortRecords | app.py:270 | with `Ranking.KeyLess` the strict order of the sort key (-reward, fee): the loop of insertions (`Ranking.Insert` puts a record after every record whose key is not greater) produces exactly `Ranking.SortByKey`, the stable sort of the records |
| Ranking.SortByKeyRanked | app.py:270 | the sorted records are ordered by reward descending, then fee ascending, and are a permutation of the input |
| Ranking.SortByKeyStable | app.py:270 | records sharing a reward and fee come out in their input order |
| Ranking.SortByKeyCardIds | app.py:270 | sorting keeps every card id, each as often as it occurs |
| Ranking.SortByKeySpec | app.py:270 | ranked, a permutation, the same card ids, and stable for every key |
| Ranking.RecordFor | app.py:262-269 | the record built for an id carries that id |
| Ranking.EvaluationsPermuted | app.py:260-271 | every record of any permutation of the built list is the evaluation of the card it names |
| Ranking.BestCards | app.py:258-271 | the result is the stable sort of `Ranking.Evaluated`, one record per input id in input order, built by the loop; its card ids are the input ids as a multiset; every record is its own card's reward and note; the result is ranked; records with equal keys keep their input order |
| Scenarios.CatalogWellFormed | app.py:64-204 | every card of the shipped catalogue `Catalog.Cards` has an "other" rule and a discount cap on its discount rule |
| Scenarios.CatalogEvaluable | app.py:258-263 | `best_cards` over the shipped cards can evaluate any list of known ids, for every merchant and spend |
| Scenarios.SwiggyIsDining | app.py:216-222 | every name that lower-cases to "swiggy" resolves to dining, whatever its capitalisation |
| Scenarios.UnreachableCategories | app.py:216-222 | no merchant resolves to "movies", "fuel", "utilities", "travel" or "online_spends", so the catalogue rules for those categories are never reached through `reward_for` |
| Scenarios.CoralNeverDiscounts | app.py:229-236 | at every merchant and spend, ICICI Coral earns its 0.5% "other" rate on the whole amount, never its movie discount |
| Scenarios.CoralAtPvr | app.py:227-256 | "PVR" matches no keyword and resolves to "other"; ICICI Coral there earns 5.00 on 1000 at 0.5 |
| Scenarios.AmazonIsEcommerce | app.py:8-12 | "Amazon" passes the first four keywords and resolves to ecommerce |
| Scenarios.DinersAtSwiggy | app.py:229-244 | at Swiggy, HDFC Diners Club Black's reward is its dining rule evaluated on the spend under "HDFC Diners Club Black_dining" |
| Scenarios.DinersDiningFull | app.py:73-81 | HDFC Diners Club Black at Swiggy on 1000 with nothing spent earns 66.00 at 6.6 |
| Scenarios.DinersDiningPartialCap | app.py:243-247 | with 950 of the 1000 dining cap spent, an 800 purchase earns 3.30 |
| Scenarios.DinersDiningCapReached | app.py:245 | with the whole dining cap spent, any amount earns 0 with "Cap reached" |
| Scenarios.CoralDiscountRule | app.py:238-256 | ICICI Coral's movie rule evaluated on its own (it is unreachable through `reward_for`): the 25% discount on 1000 stops at its discount cap of 100 |
| Scenarios.PinnacleBogoRule | app.py:238-256 | IndusInd Pinnacle's movie rule (rate 700, cap 4) evaluated on its own (unreachable through `reward_for`): the cap limits the eligible amount, so 1400 gives 4.00 |
| Scenarios.FlipkartPartnersMissAmazon | app.py:235 | neither "flipkart" nor "myntra" occurs in "amazon" |
| Scenarios.FlipkartAxisAtAmazon | app.py:108-115 | Flipkart Axis at Amazon misses its partners and earns its 1.5% "other" rate: 15.00 on 1000 |

## Left out

- The Streamlit user interface: page setup, sidebar, tabs, buttons, session state and the "All Cards" table. It is presentation.
- The CSV scenario load and `run_suite`. They are file I/O, JSON and string parsing, and float-tolerance comparisons.
- The conversion of each reward to a float in `best_cards`. Rewards stay exact; the sort compares the exact values.
- `dec`'s exception-catching parse of arbitrary strings. Inputs are taken as exact numbers.
- The precision limits of the `Decimal` context.
- Display-only card fields: bank, perks and base rate.
- Lower-casing of non-ASCII letters. `Text.Lower` changes only `A`–`Z`.
- The note's text. The rate and type are carried as values, not rendered as a string.
- Access to the global CARDS map: `Ranking.BestCards` takes the catalogue as a parameter. The shipped catalogue is `Catalog.Cards`.
- Exceptions: a missing "other" rule on a partner miss, a discount rule without a discount cap, and an unknown card id are preconditions, not error values.
- The sort algorithm: Python's `list.sort` is Timsort, and the model uses an insertion sort. The ensures state what any stable sort by this key produces: ranked, a permutation, and equal keys in input order. Uniqueness of such a result is not proved.
- Rewards.EvalRule: a bogo reward is not promised to be at most the rate and at most the eligible amount themselves, only at most their rounded values. Rounding half-up can lift a value that is not whole hundredths (`Rewards.BogoRoundsUp`). `Rewards.BogoWithinCents` gives the unrounded bound when the values are whole hundredths, as every shipped rate is.
- Rewards.RewardFor: its "Cap reached" property is stated by `Rewards.RewardForCategory`, of which it is the instance at the resolved category.
- Scenarios: only a handful of catalogue cases are proved. The full thirty-case suite lives in an external CSV file and is not part of this model.
