/** The data the engine works over: reward rules as built by `cat`, cards as
    built by `_card`, the merchant keyword table and the card catalogue. */
module Catalog {
  import opened Text

  datatype Option<T> = None | Some(value: T)

  /** One reward rule: the dictionary `cat` builds. `kind` is the rule's
      "type" string ("points" unless given; "bogo" and "discount" are the
      other two the engine tells apart). `cap` is kept as given, including 0;
      `partners` are the lower-cased partner keywords, [] for none;
      `discountCap` is never zero. */
  datatype Rule = Rule(
    rate: real,
    kind: string,
    cap: Option<int>,
    partners: seq<string>,
    discountCap: Option<real>)

  /** A card: the fields of `_card` the engine reads. `categories` maps a
      category to its rule. */
  datatype Card = Card(name: string, annualFee: int, categories: map<string, Rule>)

  /** The rule builder `cat`. Both a missing and an
      empty partner list become []; both a missing and a zero discount cap
      become None. */
  function Cat(
    rate: real,
    kind: string := "points",
    cap: Option<int> := None,
    partners: seq<string> := [],
    discountCap: Option<int> := None): (r: Rule)
    ensures r.rate == rate && r.kind == kind && r.cap == cap
    ensures |r.partners| == |partners|
    ensures forall i :: 0 <= i < |partners| ==> r.partners[i] == Lower(partners[i])
    ensures forall i, j :: 0 <= i < |r.partners| && 0 <= j < |r.partners[i]| ==> IsLowerChar(r.partners[i][j])
    ensures r.discountCap.None? <==> discountCap.None? || discountCap == Some(0)
    ensures r.discountCap.Some? ==> r.discountCap.value != 0.0 && r.discountCap.value == discountCap.value as real
  {
    Rule(rate, kind, cap,
         seq(|partners|, i requires 0 <= i < |partners| => Lower(partners[i])),
         if discountCap.Some? && discountCap.value != 0 then Some(discountCap.value as real) else None)
  }

  /** MERCHANT_CATEGORIES: keyword -> category, in the order it is scanned. */
  const MerchantCategories: seq<(string, string)> := [
    ("swiggy", "dining"), ("zomato", "dining"),
    ("bigbasket", "grocery"), ("grofers", "grocery"),
    ("amazon", "ecommerce"), ("flipkart", "ecommerce")
  ]

  /** The cards of CARDS, one constant each. */
  const HdfcInfinia: Card := Card("HDFC Infinia Metal", 12_500, map[
    "other" := Cat(3.33)])

  const HdfcDinersBlack: Card := Card("HDFC Diners Club Black", 10_000, map[
    "dining" := Cat(6.6, cap := Some(1_000)),
    "movies" := Cat(500.0, kind := "bogo", cap := Some(2)),
    "other" := Cat(3.33)])

  const AxisAce: Card := Card("Axis ACE", 499, map[
    "utilities" := Cat(5.0, cap := Some(500)),
    "dining" := Cat(4.0, cap := Some(500)),
    "other" := Cat(1.5)])

  const AxisAtlas: Card := Card("Axis Atlas", 5_000, map[
    "travel" := Cat(10.0),
    "other" := Cat(2.0)])

  const AxisMagnus: Card := Card("Axis Magnus", 30_000, map[
    "other" := Cat(4.8)])

  const FlipkartAxis: Card := Card("Flipkart Axis", 500, map[
    "ecommerce" := Cat(5.0, partners := ["flipkart", "myntra"]),
    "other" := Cat(1.5)])

  const SbiCashback: Card := Card("SBI Cashback", 999, map[
    "online_spends" := Cat(5.0, cap := Some(5_000)),
    "other" := Cat(1.0)])

  const SbiSimplyclick: Card := Card("SBI SimplyCLICK", 499, map[
    "ecommerce" := Cat(2.5, partners := ["amazon", "bookmyshow", "cleartrip"]),
    "other" := Cat(0.25)])

  const SbiPrime: Card := Card("SBI Prime", 2_999, map[
    "dining" := Cat(2.5),
    "grocery" := Cat(2.5),
    "movies" := Cat(2.5),
    "other" := Cat(0.5)])

  const AmazonPayIcici: Card := Card("Amazon Pay ICICI", 0, map[
    "ecommerce" := Cat(5.0, partners := ["amazon"]),
    "other" := Cat(1.0)])

  const IciciCoral: Card := Card("ICICI Coral", 500, map[
    "movies" := Cat(25.0, kind := "discount", discountCap := Some(100)),
    "other" := Cat(0.5)])

  const ScSuperValue: Card := Card("SC Super Value", 750, map[
    "fuel" := Cat(5.0, cap := Some(200)),
    "utilities" := Cat(5.0, cap := Some(100)),
    "other" := Cat(0.25)])

  const HsbcLivePlus: Card := Card("HSBC Live+ Cashback", 999, map[
    "dining" := Cat(10.0, cap := Some(1_000)),
    "grocery" := Cat(10.0, cap := Some(1_000)),
    "fuel" := Cat(0.0),
    "other" := Cat(1.5)])

  const RblWorldSafari: Card := Card("RBL World Safari", 3_000, map[
    "travel" := Cat(1.87),
    "other" := Cat(0.75)])

  const IndusindPinnacle: Card := Card("IndusInd Pinnacle", 15_000, map[
    "movies" := Cat(700.0, kind := "bogo", cap := Some(4)),
    "other" := Cat(1.8)])

  /** CARDS: card id -> card. */
  const Cards: map<string, Card> := map[
    "hdfc_infinia" := HdfcInfinia,
    "hdfc_diners_black" := HdfcDinersBlack,
    "axis_ace" := AxisAce,
    "axis_atlas" := AxisAtlas,
    "axis_magnus" := AxisMagnus,
    "flipkart_axis" := FlipkartAxis,
    "sbi_cashback" := SbiCashback,
    "sbi_simplyclick" := SbiSimplyclick,
    "sbi_prime" := SbiPrime,
    "amazon_pay_icici" := AmazonPayIcici,
    "icici_coral" := IciciCoral,
    "sc_super_value" := ScSuperValue,
    "hsbc_live_plus" := HsbcLivePlus,
    "rbl_world_safari" := RblWorldSafari,
    "indusind_pinnacle" := IndusindPinnacle
  ]
}
