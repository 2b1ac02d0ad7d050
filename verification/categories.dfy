/** `merchant_category`: resolving a merchant name to a category by the first
    keyword of the table that the lower-cased name contains. */
module Categories {
  import opened Text
  import opened Catalog

  /** The scan over `table` in order, returning at the first keyword that
      occurs in `m`, or "other" when none does. The ensures clauses say that
      the result is the category of the first matching entry, and "other"
      exactly when no entry matches or the first match maps to "other". */
  function FirstMatch(table: seq<(string, string)>, m: string): (r: string)
    ensures r == "other" || exists i :: 0 <= i < |table| && r == table[i].1
    ensures (forall i :: 0 <= i < |table| ==> !Contains(m, table[i].0)) ==> r == "other"
    ensures forall i :: 0 <= i < |table| && Contains(m, table[i].0) && NoMatchBefore(table, m, i) ==> r == table[i].1
  {
    if table == [] then
      "other"
    else if Contains(m, table[0].0) then
      table[0].1
    else
      var r := FirstMatch(table[1..], m);
      assert forall i :: 1 <= i < |table| ==> table[i] == table[1..][i - 1];
      assert forall i :: 1 <= i < |table| && NoMatchBefore(table, m, i) ==> NoMatchBefore(table[1..], m, i - 1);
      r
  }

  /** No keyword among the first `i` entries of `table` occurs in `m`. */
  predicate NoMatchBefore(table: seq<(string, string)>, m: string, i: int)
    requires 0 <= i <= |table|
  {
    forall j :: 0 <= j < i ==> !Contains(m, table[j].0)
  }

  /** Resolution ignores case: a merchant and its lower-cased name resolve
      to the same category. */
  lemma MerchantCategoryIgnoresCase(merchant: string)
    ensures MerchantCategory(Lower(merchant)) == MerchantCategory(merchant)
  {
    LowerOfLower(Lower(merchant));
  }

  /** `merchant_category`: the result is always one of the table's
      categories or "other". */
  function MerchantCategory(merchant: string): (r: string)
    ensures r in {"dining", "grocery", "ecommerce", "other"}
  {
    var r := FirstMatch(MerchantCategories, Lower(merchant));
    assert forall i :: 0 <= i < |MerchantCategories| ==> MerchantCategories[i].1 in {"dining", "grocery", "ecommerce"};
    r
  }
}
