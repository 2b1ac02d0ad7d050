/** `best_cards`: one record per candidate card, sorted by reward descending,
    then annual fee ascending, ties kept in input order (`list.sort` is
    stable). */
module Ranking {
  import opened Catalog
  import opened Rewards

  /** One entry of the list `best_cards` returns (bank is display-only). */
  datatype Rec = Rec(cardId: string, name: string, fee: int, reward: real, note: Note)

  /** Sort key `(-reward, fee)` of `a` is strictly less than that of `b`. */
  predicate KeyLess(a: Rec, b: Rec) {
    a.reward > b.reward || (a.reward == b.reward && a.fee < b.fee)
  }

  /** `a` may come before `b`: reward no lower, and on equal reward fee no higher. */
  predicate InOrder(a: Rec, b: Rec) {
    a.reward > b.reward || (a.reward == b.reward && a.fee <= b.fee)
  }

  /** Every record comes no later than the ones after it. */
  predicate Ranked(s: seq<Rec>) {
    forall i, j :: 0 <= i < j < |s| ==> InOrder(s[i], s[j])
  }

  /** The records of `s` whose sort key is (reward, fee), in their order in `s`. */
  function WithKey(s: seq<Rec>, reward: real, fee: int): seq<Rec> {
    if s == [] then []
    else (if s[0].reward == reward && s[0].fee == fee then [s[0]] else []) + WithKey(s[1..], reward, fee)
  }

  /** The card ids of a list of records, in order. */
  function CardIds(s: seq<Rec>): seq<string> {
    if s == [] then [] else [s[0].cardId] + CardIds(s[1..])
  }

  /** Inserts `x` into `s` after every record whose key is not greater than
      x's: after its equals, so the insertion is stable. */
  function Insert(s: seq<Rec>, x: Rec): seq<Rec> {
    if s == [] then [x]
    else if KeyLess(x, s[0]) then [x] + s
    else [s[0]] + Insert(s[1..], x)
  }

  /** The stable sort by `(-reward, fee)`: each record inserted in turn. */
  function SortByKey(s: seq<Rec>): seq<Rec> {
    if s == [] then [] else Insert(SortByKey(s[..|s| - 1]), s[|s| - 1])
  }

  lemma {:induction false} WithKeyAppend(a: seq<Rec>, b: seq<Rec>, reward: real, fee: int)
    ensures WithKey(a + b, reward, fee) == WithKey(a, reward, fee) + WithKey(b, reward, fee)
  {
    if a != [] {
      var head := if a[0].reward == reward && a[0].fee == fee then [a[0]] else [];
      assert a + b != [] && (a + b)[0] == a[0] && (a + b)[1..] == a[1..] + b;
      assert WithKey(a + b, reward, fee) == head + WithKey(a[1..] + b, reward, fee);
      assert WithKey(a, reward, fee) == head + WithKey(a[1..], reward, fee);
      WithKeyAppend(a[1..], b, reward, fee);
    } else {
      assert a + b == b;
    }
  }

  lemma {:induction false} WithKeyNone(s: seq<Rec>, reward: real, fee: int)
    requires forall i :: 0 <= i < |s| ==> !(s[i].reward == reward && s[i].fee == fee)
    ensures WithKey(s, reward, fee) == []
  {
    if s != [] {
      WithKeyNone(s[1..], reward, fee);
    }
  }

  /** Insert adds `x` and keeps everything else. */
  lemma {:induction false} InsertPermutation(s: seq<Rec>, x: Rec)
    ensures multiset(Insert(s, x)) == multiset(s) + multiset{x}
  {
    if s != [] && !KeyLess(x, s[0]) {
      InsertPermutation(s[1..], x);
      assert s == [s[0]] + s[1..];
    }
  }

  /** Inserting into a ranked list keeps it ranked. */
  lemma {:induction false} InsertRanked(s: seq<Rec>, x: Rec)
    requires Ranked(s)
    ensures Ranked(Insert(s, x))
  {
    if s != [] && !KeyLess(x, s[0]) {
      var t := Insert(s[1..], x);
      InsertRanked(s[1..], x);
      InsertPermutation(s[1..], x);
      forall k | 0 <= k < |t|
        ensures InOrder(s[0], t[k])
      {
        assert t[k] in multiset(s[1..]) + multiset{x};
        if t[k] != x {
          var m :| 0 <= m < |s[1..]| && s[1..][m] == t[k];
          assert s[m + 1] == t[k];
        }
      }
      assert Insert(s, x) == [s[0]] + t;
    }
  }

  /** Inserting into a ranked list adds `x` after the records with its key. */
  lemma {:induction false} InsertWithKey(s: seq<Rec>, x: Rec, reward: real, fee: int)
    requires Ranked(s)
    ensures WithKey(Insert(s, x), reward, fee) == WithKey(s, reward, fee) + WithKey([x], reward, fee)
  {
    if s == [] {
    } else if KeyLess(x, s[0]) {
      WithKeyAppend([x], s, reward, fee);
      if x.reward == reward && x.fee == fee {
        WithKeyNone(s, reward, fee);
      }
    } else {
      InsertWithKey(s[1..], x, reward, fee);
      WithKeyAppend([s[0]], Insert(s[1..], x), reward, fee);
      WithKeyAppend([s[0]], s[1..], reward, fee);
      assert s == [s[0]] + s[1..];
    }
  }

  /** The result of SortByKey is ranked and is a permutation of its input. */
  lemma {:induction false} SortByKeyRanked(s: seq<Rec>)
    ensures Ranked(SortByKey(s))
    ensures multiset(SortByKey(s)) == multiset(s)
  {
    if s != [] {
      var init := s[..|s| - 1];
      SortByKeyRanked(init);
      InsertRanked(SortByKey(init), s[|s| - 1]);
      InsertPermutation(SortByKey(init), s[|s| - 1]);
      assert s == init + [s[|s| - 1]];
    }
  }

  /** SortByKey is stable: the records sharing any one key come out in the
      order they went in. */
  lemma {:induction false} SortByKeyStable(s: seq<Rec>, reward: real, fee: int)
    ensures WithKey(SortByKey(s), reward, fee) == WithKey(s, reward, fee)
  {
    if s != [] {
      var init := s[..|s| - 1];
      SortByKeyStable(init, reward, fee);
      SortByKeyRanked(init);
      InsertWithKey(SortByKey(init), s[|s| - 1], reward, fee);
      assert s == init + [s[|s| - 1]];
      WithKeyAppend(init, [s[|s| - 1]], reward, fee);
    }
  }

  /** Sorting keeps the card ids, each as often as it occurs. */
  lemma {:induction false} SortByKeyCardIds(s: seq<Rec>)
    ensures multiset(CardIds(SortByKey(s))) == multiset(CardIds(s))
  {
    if s != [] {
      var init := s[..|s| - 1];
      var last := s[|s| - 1];
      SortByKeyCardIds(init);
      assert multiset(CardIds(SortByKey(s))) == multiset(CardIds(SortByKey(init))) + multiset{last.cardId} by {
        InsertCardIds(SortByKey(init), last);
      }
      assert CardIds(s) == CardIds(init) + [last.cardId] by {
        assert s == init + [last];
        CardIdsAppend(init, [last]);
      }
    }
  }

  lemma {:induction false} InsertCardIds(s: seq<Rec>, x: Rec)
    ensures multiset(CardIds(Insert(s, x))) == multiset(CardIds(s)) + multiset{x.cardId}
  {
    if s != [] && !KeyLess(x, s[0]) {
      InsertCardIds(s[1..], x);
      CardIdsAppend([s[0]], Insert(s[1..], x));
      CardIdsAppend([s[0]], s[1..]);
      assert s == [s[0]] + s[1..];
    } else if s != [] {
      CardIdsAppend([x], s);
    }
  }

  lemma {:induction false} CardIdsAppend(a: seq<Rec>, b: seq<Rec>)
    ensures CardIds(a + b) == CardIds(a) + CardIds(b)
  {
    if a == [] {
      assert a + b == b;
    } else {
      assert (a + b)[0] == a[0] && (a + b)[1..] == a[1..] + b;
      CardIdsAppend(a[1..], b);
    }
  }

  /** `list.sort` on the records: an insertion sort, one record at a time. */
  method SortRecords(recs: seq<Rec>) returns (sorted: seq<Rec>)
    ensures sorted == SortByKey(recs)
  {
    sorted := [];
    for i := 0 to |recs|
      invariant sorted == SortByKey(recs[..i])
    {
      assert recs[..i + 1][..i] == recs[..i];
      sorted := Insert(sorted, recs[i]);
    }
    assert recs[..|recs|] == recs;
  }

  /** The id is in the catalogue (else the lookup raises KeyError) and its
      card's reward can be computed. */
  predicate EvaluableId(catalog: map<string, Card>, id: string, merchant: string,
                        spend: map<string, real>)
  {
    id in catalog &&
    Completes(catalog[id], Categories.MerchantCategory(merchant), merchant, SpentFor(catalog[id], merchant, spend))
  }

  predicate Evaluable(catalog: map<string, Card>, ids: seq<string>, merchant: string,
                      spend: map<string, real>)
  {
    forall i :: 0 <= i < |ids| ==> EvaluableId(catalog, ids[i], merchant, spend)
  }

  /** The record `best_cards` builds for one card id. */
  function RecordFor(catalog: map<string, Card>, id: string, merchant: string, amount: real,
                     spend: map<string, real>): (r: Rec)
    requires EvaluableId(catalog, id, merchant, spend)
    ensures r.cardId == id
  {
    var card := catalog[id];
    var r := RewardFor(card, merchant, amount, spend);
    Rec(id, card.name, card.annualFee, r.value, r.note)
  }

  /** The list `recs` before sorting: one record per id, in input order. */
  function Evaluated(catalog: map<string, Card>, ids: seq<string>, merchant: string, amount: real,
                     spend: map<string, real>): (recs: seq<Rec>)
    requires Evaluable(catalog, ids, merchant, spend)
  {
    seq(|ids|, i requires 0 <= i < |ids| && Evaluable(catalog, ids, merchant, spend) =>
                 RecordFor(catalog, ids[i], merchant, amount, spend))
  }

  /** Records naming `ids` one by one have exactly `ids` as their card ids. */
  lemma {:induction false} CardIdsOf(s: seq<Rec>, ids: seq<string>)
    requires |s| == |ids|
    requires forall i :: 0 <= i < |s| ==> s[i].cardId == ids[i]
    ensures CardIds(s) == ids
  {
    if s != [] {
      CardIdsOf(s[1..], ids[1..]);
      assert ids == [ids[0]] + ids[1..];
    }
  }

  /** What SortByKey promises: its result is ranked, is a permutation of its
      input (so it holds every card id as often as the input does), and keeps
      records of equal key in input order. */
  lemma SortByKeySpec(s: seq<Rec>)
    ensures Ranked(SortByKey(s))
    ensures multiset(SortByKey(s)) == multiset(s)
    ensures multiset(CardIds(SortByKey(s))) == multiset(CardIds(s))
    ensures forall reward, fee :: WithKey(SortByKey(s), reward, fee) == WithKey(s, reward, fee)
  {
    SortByKeyRanked(s);
    SortByKeyCardIds(s);
    forall reward, fee
      ensures WithKey(SortByKey(s), reward, fee) == WithKey(s, reward, fee)
    {
      SortByKeyStable(s, reward, fee);
    }
  }

  /** Each record of a permutation of the evaluated records is the
      evaluation of the card it names. */
  lemma EvaluationsPermuted(catalog: map<string, Card>, ids: seq<string>, merchant: string,
                            amount: real, spend: map<string, real>, recs: seq<Rec>)
    requires Evaluable(catalog, ids, merchant, spend)
    requires multiset(recs) == multiset(Evaluated(catalog, ids, merchant, amount, spend))
    ensures forall i :: 0 <= i < |recs| ==>
              EvaluableId(catalog, recs[i].cardId, merchant, spend) &&
              recs[i] == RecordFor(catalog, recs[i].cardId, merchant, amount, spend)
  {
    var unsorted := Evaluated(catalog, ids, merchant, amount, spend);
    forall i | 0 <= i < |recs|
      ensures EvaluableId(catalog, recs[i].cardId, merchant, spend)
      ensures recs[i] == RecordFor(catalog, recs[i].cardId, merchant, amount, spend)
    {
      assert recs[i] in multiset(unsorted);
      var j :| 0 <= j < |unsorted| && unsorted[j] == recs[i];
    }
  }

  /** `best_cards` over the catalogue
      `catalog`: builds one record per id in a loop, then sorts them. */
  method BestCards(catalog: map<string, Card>, cardIds: seq<string>, merchant: string, amount: real,
                   spend: map<string, real>) returns (recs: seq<Rec>)
    requires Evaluable(catalog, cardIds, merchant, spend)
    ensures recs == SortByKey(Evaluated(catalog, cardIds, merchant, amount, spend))
    ensures multiset(CardIds(recs)) == multiset(cardIds)
    ensures forall i :: 0 <= i < |recs| ==>
              EvaluableId(catalog, recs[i].cardId, merchant, spend) &&
              recs[i] == RecordFor(catalog, recs[i].cardId, merchant, amount, spend)
    ensures Ranked(recs)
    ensures forall reward, fee :: WithKey(recs, reward, fee) ==
                                  WithKey(Evaluated(catalog, cardIds, merchant, amount, spend), reward, fee)
  {
    recs := [];
    for i := 0 to |cardIds|
      invariant recs == Evaluated(catalog, cardIds[..i], merchant, amount, spend)
    {
      assert Evaluable(catalog, cardIds[..i + 1], merchant, spend);
      var card := catalog[cardIds[i]];
      var r := RewardFor(card, merchant, amount, spend);
      recs := recs + [Rec(cardIds[i], card.name, card.annualFee, r.value, r.note)];
    }
    assert cardIds[..|cardIds|] == cardIds;
    ghost var unsorted := recs;
    recs := SortRecords(recs);
    SortByKeySpec(unsorted);
    CardIdsOf(unsorted, cardIds);
    EvaluationsPermuted(catalog, cardIds, merchant, amount, spend, recs);
  }
}
