/** The analytics aggregator over a user's order history: totals, the
    favourite category, the most bought item, the month's spend and the
    frequently bought items. */
module Analytics {
  import opened Common
  import opened Model
  import opened Ranking
  import opened Calendar

  /** Every line item of every order, order by order (the nested
      `forEach`). */
  function Lines(orders: seq<Order>): (r: seq<LineItem>)
    ensures forall it :: it in r <==> exists o :: o in orders && it in o.items
  {
    if orders == [] then []
    else
      var n := |orders| - 1;
      var rest := Lines(orders[..n]);
      assert forall o :: o in orders <==> o in orders[..n] || o == orders[n] by {
        assert orders == orders[..n] + [orders[n]];
      }
      rest + orders[n].items
  }

  lemma {:induction false} LinesAppend(a: seq<Order>, b: seq<Order>)
    ensures Lines(a + b) == Lines(a) + Lines(b)
    decreases |b|
  {
    if b == [] {
      assert a + b == a;
    } else {
      var n := |b| - 1;
      assert (a + b)[..|a + b| - 1] == a + b[..n];
      LinesAppend(a, b[..n]);
    }
  }

  /** Each line item counted under its category with its quantity. */
  function CategoryObs(items: seq<LineItem>): (r: seq<Obs>)
    ensures |r| == |items|
    ensures forall i :: 0 <= i < |items| ==> r[i] == Obs(items[i].category, items[i].quantity, items[i])
  {
    seq(|items|, i requires 0 <= i < |items| => Obs(items[i].category, items[i].quantity, items[i]))
  }

  /** Each line item counted under its name with its quantity. */
  function NameObs(items: seq<LineItem>): (r: seq<Obs>)
    ensures |r| == |items|
    ensures forall i :: 0 <= i < |items| ==> r[i] == Obs(items[i].name, items[i].quantity, items[i])
  {
    seq(|items|, i requires 0 <= i < |items| => Obs(items[i].name, items[i].quantity, items[i]))
  }

  /** Sum of the stored order totals, left to right. For orders as the
      store creates them, it is the total of all the line items bought. */
  function TotalSpent(orders: seq<Order>): (r: int)
    ensures Consistent(orders) ==> r == Total(Lines(orders))
  {
    if orders == [] then 0
    else
      var n := |orders| - 1;
      assert orders[n] in orders;
      assert Consistent(orders) ==> Consistent(orders[..n]) by {
        assert forall o :: o in orders[..n] ==> o in orders;
      }
      TotalAppend(Lines(orders[..n]), orders[n].items);
      TotalSpent(orders[..n]) + orders[n].total
  }

  lemma {:induction false} TotalSpentAppend(a: seq<Order>, b: seq<Order>)
    ensures TotalSpent(a + b) == TotalSpent(a) + TotalSpent(b)
    decreases |b|
  {
    if b == [] {
      assert a + b == a;
    } else {
      var n := |b| - 1;
      assert (a + b)[..|a + b| - 1] == a + b[..n];
      TotalSpentAppend(a, b[..n]);
    }
  }

  /** The spend is read from the stored totals: replacing the items of the
      orders does not change it. */
  lemma {:induction false} TotalSpentIgnoresItems(orders: seq<Order>, items: seq<seq<LineItem>>)
    requires |items| == |orders|
    ensures TotalSpent(seq(|orders|, i requires 0 <= i < |orders| => orders[i].(items := items[i])))
         == TotalSpent(orders)
    decreases |orders|
  {
    var changed := seq(|orders|, i requires 0 <= i < |orders| => orders[i].(items := items[i]));
    if orders != [] {
      var n := |orders| - 1;
      assert changed[..n] == seq(n, i requires 0 <= i < n => orders[..n][i].(items := items[..n][i]));
      TotalSpentIgnoresItems(orders[..n], items[..n]);
    }
  }

  /** Orders whose stored total is the total of their items. */
  ghost predicate Consistent(orders: seq<Order>)
  {
    forall o :: o in orders ==> o.total == Total(o.items)
  }

  /** The mean order total, and 0 without orders. */
  function AverageOrderValue(orders: seq<Order>): (r: real)
    ensures orders == [] ==> r == 0.0
    ensures orders != [] ==> r * |orders| as real == TotalSpent(orders) as real
  {
    if |orders| > 0 then TotalSpent(orders) as real / |orders| as real else 0.0
  }

  /** The favourite category is `"none"` when nothing was bought. Otherwise
      it is a bought category of greatest quantity, and every category
      first bought after it has a smaller quantity: among equal maxima the
      last one in first-seen order wins. */
  function FavoriteCategory(orders: seq<Order>): (r: string)
    ensures Lines(orders) == [] ==> r == NoKey
    ensures Lines(orders) != [] ==>
      var obs := CategoryObs(Lines(orders));
      && BoughtCategory(orders, r)
      && (forall k :: BoughtCategory(orders, k) ==> CategoryQuantity(orders, k) <= CategoryQuantity(orders, r))
      && (forall k :: k in ObsKeys(obs) && r in ObsKeys(obs) && FirstIndex(obs, k) > FirstIndex(obs, r) ==>
            CategoryQuantity(orders, k) < CategoryQuantity(orders, r))
  {
    var items := Lines(orders);
    var obs := CategoryObs(items);
    var r := PickMax(Tally(obs));
    PickMaxOfTally(obs);
    CategoryKeys(items, r);
    assert forall k :: BoughtCategory(orders, k) ==> CategoryQuantity(orders, k) <= CategoryQuantity(orders, r) by {
      forall k | BoughtCategory(orders, k)
        ensures CategoryQuantity(orders, k) <= CategoryQuantity(orders, r)
      {
        CategoryKeys(items, k);
      }
    }
    r
  }

  /** The most bought item is `"none"` when nothing was bought. Otherwise it
      is a bought name of greatest quantity, the last such in first-seen
      order. */
  function MostBoughtItem(orders: seq<Order>): (r: string)
    ensures Lines(orders) == [] ==> r == NoKey
    ensures Lines(orders) != [] ==>
      var obs := NameObs(Lines(orders));
      && BoughtName(orders, r)
      && (forall k :: BoughtName(orders, k) ==> NameQuantity(orders, k) <= NameQuantity(orders, r))
      && (forall k :: k in ObsKeys(obs) && r in ObsKeys(obs) && FirstIndex(obs, k) > FirstIndex(obs, r) ==>
            NameQuantity(orders, k) < NameQuantity(orders, r))
  {
    var items := Lines(orders);
    var obs := NameObs(items);
    var r := PickMax(Tally(obs));
    PickMaxOfTally(obs);
    NameKeys(items, r);
    assert forall k :: BoughtName(orders, k) ==> NameQuantity(orders, k) <= NameQuantity(orders, r) by {
      forall k | BoughtName(orders, k)
        ensures NameQuantity(orders, k) <= NameQuantity(orders, r)
      {
        NameKeys(items, k);
      }
    }
    r
  }

  /** Quantity bought in category `k` over all orders. */
  function CategoryQuantity(orders: seq<Order>, k: string): int
  {
    SumFor(CategoryObs(Lines(orders)), k)
  }

  /** Quantity bought under item name `k` over all orders. */
  function NameQuantity(orders: seq<Order>, k: string): int
  {
    SumFor(NameObs(Lines(orders)), k)
  }

  /** A category occurs among the bought line items. */
  ghost predicate BoughtCategory(orders: seq<Order>, k: string)
  {
    exists it :: it in Lines(orders) && it.category == k
  }

  ghost predicate BoughtName(orders: seq<Order>, k: string)
  {
    exists it :: it in Lines(orders) && it.name == k
  }

  lemma CategoryKeys(items: seq<LineItem>, k: string)
    ensures k in ObsKeys(CategoryObs(items)) <==> exists it :: it in items && it.category == k
  {
    var keys := ObsKeys(CategoryObs(items));
    if k in keys {
      var i :| 0 <= i < |keys| && keys[i] == k;
      assert items[i] in items;
    }
    if exists it :: it in items && it.category == k {
      var it :| it in items && it.category == k;
      var i :| 0 <= i < |items| && items[i] == it;
      assert keys[i] == k;
    }
  }

  lemma NameKeys(items: seq<LineItem>, k: string)
    ensures k in ObsKeys(NameObs(items)) <==> exists it :: it in items && it.name == k
  {
    var keys := ObsKeys(NameObs(items));
    if k in keys {
      var i :| 0 <= i < |keys| && keys[i] == k;
      assert items[i] in items;
    }
    if exists it :: it in items && it.name == k {
      var it :| it in items && it.name == k;
      var i :| 0 <= i < |items| && items[i] == it;
      assert keys[i] == k;
    }
  }

  /** The orders placed in calendar month `ym` of the local zone. */
  function InMonth(orders: seq<Order>, ym: YearMonth, offsetMs: int): (r: seq<Order>)
    ensures forall o :: o in r <==> o in orders && MonthOf(o.date, offsetMs) == ym
    ensures forall o :: multiset(r)[o] == if MonthOf(o.date, offsetMs) == ym then multiset(orders)[o] else 0
    ensures IsSubsequence(r, orders)
  {
    if orders == [] then []
    else
      var rest := InMonth(orders[1..], ym, offsetMs);
      SubsequenceConsRight(orders[0], rest, orders[1..]);
      assert [orders[0]] + orders[1..] == orders;
      if MonthOf(orders[0].date, offsetMs) == ym then
        SubsequenceConsBoth(orders[0], rest, orders[1..]);
        [orders[0]] + rest
      else rest
  }

  /** Spend on the orders placed in the current month `now` (the caller's
      clock read in the local zone). */
  function MonthlySpending(orders: seq<Order>, now: YearMonth, offsetMs: int): (r: int)
    ensures r + TotalSpent(OutsideMonth(orders, now, offsetMs)) == TotalSpent(orders)
  {
    MonthPartition(orders, now, offsetMs);
    TotalSpent(InMonth(orders, now, offsetMs))
  }

  /** The orders outside month `ym`. */
  function OutsideMonth(orders: seq<Order>, ym: YearMonth, offsetMs: int): (r: seq<Order>)
    ensures forall o :: o in r <==> o in orders && MonthOf(o.date, offsetMs) != ym
    ensures forall o :: multiset(r)[o] == if MonthOf(o.date, offsetMs) != ym then multiset(orders)[o] else 0
  {
    if orders == [] then []
    else
      var o := orders[0];
      var rest := OutsideMonth(orders[1..], ym, offsetMs);
      assert [o] + orders[1..] == orders;
      assert multiset(orders) == multiset{o} + multiset(orders[1..]);
      if MonthOf(o.date, offsetMs) != ym then
        assert multiset([o] + rest) == multiset{o} + multiset(rest);
        [o] + rest
      else rest
  }

  lemma InMonthCons(o: Order, tail: seq<Order>, ym: YearMonth, offsetMs: int)
    ensures InMonth([o] + tail, ym, offsetMs)
         == if MonthOf(o.date, offsetMs) == ym then [o] + InMonth(tail, ym, offsetMs) else InMonth(tail, ym, offsetMs)
  {
    assert ([o] + tail)[1..] == tail;
  }

  lemma OutsideMonthCons(o: Order, tail: seq<Order>, ym: YearMonth, offsetMs: int)
    ensures OutsideMonth([o] + tail, ym, offsetMs)
         == if MonthOf(o.date, offsetMs) != ym then [o] + OutsideMonth(tail, ym, offsetMs) else OutsideMonth(tail, ym, offsetMs)
  {
    assert ([o] + tail)[1..] == tail;
  }

  /** The month's spend and the spend outside it add up to the whole spend. */
  lemma {:induction false} MonthPartition(orders: seq<Order>, ym: YearMonth, offsetMs: int)
    ensures TotalSpent(InMonth(orders, ym, offsetMs)) + TotalSpent(OutsideMonth(orders, ym, offsetMs))
         == TotalSpent(orders)
  {
    if orders != [] {
      var o, tail := orders[0], orders[1..];
      MonthPartition(tail, ym, offsetMs);
      PartitionStep(o, tail, ym, offsetMs);
      assert [o] + tail == orders;
    }
  }

  /** Putting one order in front keeps the two spends adding up. */
  lemma PartitionStep(o: Order, tail: seq<Order>, ym: YearMonth, offsetMs: int)
    requires TotalSpent(InMonth(tail, ym, offsetMs)) + TotalSpent(OutsideMonth(tail, ym, offsetMs))
          == TotalSpent(tail)
    ensures TotalSpent(InMonth([o] + tail, ym, offsetMs)) + TotalSpent(OutsideMonth([o] + tail, ym, offsetMs))
         == TotalSpent([o] + tail)
  {
    TotalSpentCons(o, tail);
    InMonthCons(o, tail, ym, offsetMs);
    OutsideMonthCons(o, tail, ym, offsetMs);
    if MonthOf(o.date, offsetMs) == ym {
      TotalSpentCons(o, InMonth(tail, ym, offsetMs));
    } else {
      TotalSpentCons(o, OutsideMonth(tail, ym, offsetMs));
    }
  }

  lemma TotalSpentCons(o: Order, s: seq<Order>)
    ensures TotalSpent([o] + s) == o.total + TotalSpent(s)
  {
    TotalSpentAppend([o], s);
    assert [o][..0] == [];
  }

  /** The analytics record. */
  datatype Report = Report(
    totalOrders: nat,
    totalSpent: int,
    averageOrderValue: real,
    favoriteCategory: string,
    mostBoughtItem: string,
    monthlySpending: int)

  /** The analytics of one user's order history. */
  function GetAnalytics(orders: seq<Order>, now: YearMonth, offsetMs: int): (r: Report)
    ensures r.totalOrders == |orders|
    ensures r.totalSpent == TotalSpent(orders)
    ensures r.averageOrderValue == AverageOrderValue(orders)
    ensures r.favoriteCategory == FavoriteCategory(orders)
    ensures r.mostBoughtItem == MostBoughtItem(orders)
    ensures r.monthlySpending == MonthlySpending(orders, now, offsetMs)
    ensures r.monthlySpending + TotalSpent(OutsideMonth(orders, now, offsetMs)) == r.totalSpent
    ensures orders == [] ==> r == Report(0, 0, 0.0, NoKey, NoKey, 0)
  {
    Report(|orders|, TotalSpent(orders), AverageOrderValue(orders),
           FavoriteCategory(orders), MostBoughtItem(orders), MonthlySpending(orders, now, offsetMs))
  }

  /** How many frequent items are returned when no limit is given. */
  const DefaultFrequentLimit: int := 6

  /** The frequent items: one entry per bought name, holding the first
      line item seen under it and the summed quantity, sorted by quantity
      and cut to `limit`. */
  function FrequentItems(orders: seq<Order>, limit: int): seq<Entry>
  {
    SliceTo(SortByCount(Tally(NameObs(Lines(orders)))), limit)
  }

  /** The frequent items are at most `limit` many (for a non-negative
      limit) and sorted by non-increasing count, each name at most once,
      and each entry holds a bought name with its summed quantity. */
  lemma FrequentItemsSpec(orders: seq<Order>, limit: int)
    ensures var r := FrequentItems(orders, limit);
      && (limit >= 0 ==> |r| <= limit)
      && (forall i, j :: 0 <= i < j < |r| ==> r[i].count >= r[j].count && r[i].key != r[j].key)
      && (forall i :: 0 <= i < |r| ==>
            BoughtName(orders, r[i].key) && r[i].count == NameQuantity(orders, r[i].key))
  {
    var items := Lines(orders);
    var obs := NameObs(items);
    var t := Tally(obs);
    var s := SortByCount(t);
    var r := FrequentItems(orders, limit);
    TallyCorrect(obs);
    SortByCountCorrect(t);
    forall i | 0 <= i < |r|
      ensures BoughtName(orders, r[i].key) && r[i].count == NameQuantity(orders, r[i].key)
    {
      assert r[i] == s[i] && s[i] in s;
      var a :| 0 <= a < |t| && t[a] == r[i];
      assert KeysOf(t)[a] == r[i].key;
      NameKeys(items, r[i].key);
    }
  }

  /** The frequent items are the top ones: a bought name left out was
      bought less often than each name that made the list, or as often and
      first bought later, so ties are cut in first-bought order. */
  lemma FrequentItemsTopK(orders: seq<Order>, limit: int)
    ensures var r := FrequentItems(orders, limit);
      var obs := NameObs(Lines(orders));
      forall k :: BoughtName(orders, k) && k !in KeysOf(r) ==>
        forall i :: 0 <= i < |r| ==>
          && NameQuantity(orders, k) <= r[i].count
          && (NameQuantity(orders, k) == r[i].count ==>
                r[i].key in ObsKeys(obs) && k in ObsKeys(obs) && FirstIndex(obs, r[i].key) < FirstIndex(obs, k))
  {
    var items := Lines(orders);
    var obs := NameObs(items);
    var t := Tally(obs);
    var r := FrequentItems(orders, limit);
    assert r == SortByCount(t)[..|r|];
    TallyCorrect(obs);
    TallyInFirstSeenOrder(t, obs);
    forall k | BoughtName(orders, k) && k !in KeysOf(r)
      ensures forall i :: 0 <= i < |r| ==>
        && NameQuantity(orders, k) <= r[i].count
        && (NameQuantity(orders, k) == r[i].count ==>
              r[i].key in ObsKeys(obs) && k in ObsKeys(obs) && FirstIndex(obs, r[i].key) < FirstIndex(obs, k))
    {
      NameKeys(items, k);
      var a := EntryOf(t, obs, k);
      LeftOutRanksBelow(t, obs, r, t[a]);
    }
  }

  /** Each frequent item carries the fields of the first line item bought
      under its name, and entries of equal count appear in the order their
      names were first bought. */
  lemma FrequentItemsFirstSeen(orders: seq<Order>, limit: int)
    ensures var r := FrequentItems(orders, limit);
      var obs := NameObs(Lines(orders));
      && (forall i :: 0 <= i < |r| ==> r[i].key in ObsKeys(obs) && r[i].first == obs[FirstIndex(obs, r[i].key)].item)
      && (forall i, j :: 0 <= i < j < |r| && r[i].count == r[j].count ==>
            r[i].key in ObsKeys(obs) && r[j].key in ObsKeys(obs)
            && FirstIndex(obs, r[i].key) < FirstIndex(obs, r[j].key))
  {
    var obs := NameObs(Lines(orders));
    var t := Tally(obs);
    var s := SortByCount(t);
    var r := FrequentItems(orders, limit);
    assert r == s[..|r|];
    TallyCorrect(obs);
    TallyInFirstSeenOrder(t, obs);
    PrefixTiesFirstSeen(t, obs, r);
    SortByCountCorrect(t);
    forall i | 0 <= i < |r|
      ensures r[i].key in ObsKeys(obs) && r[i].first == obs[FirstIndex(obs, r[i].key)].item
    {
      assert r[i] == s[i] && s[i] in s;
      var a :| 0 <= a < |t| && t[a] == r[i];
      assert KeysOf(t)[a] == r[i].key;
    }
  }

  /** A frequent-items list shorter than a non-negative limit names every
      bought item. */
  lemma FrequentItemsComplete(orders: seq<Order>, limit: int)
    requires limit >= 0 && |FrequentItems(orders, limit)| < limit
    ensures forall k :: BoughtName(orders, k) ==>
      exists i :: 0 <= i < |FrequentItems(orders, limit)| && FrequentItems(orders, limit)[i].key == k
  {
    var items := Lines(orders);
    var obs := NameObs(items);
    var t := Tally(obs);
    var s := SortByCount(t);
    var r := FrequentItems(orders, limit);
    TallyCorrect(obs);
    SortByCountCorrect(t);
    assert r == s;
    forall k | BoughtName(orders, k) ensures exists i :: 0 <= i < |r| && r[i].key == k {
      NameKeys(items, k);
      assert k in KeysOf(t);
      var a :| 0 <= a < |t| && KeysOf(t)[a] == k;
      assert t[a] in s;
      var i :| 0 <= i < |s| && s[i] == t[a];
      assert r[i].key == k;
    }
  }

  /** With no limit given, at most six frequent items are returned, and
      fewer only when every bought name is among them. */
  lemma FrequentItemsDefaultLimit(orders: seq<Order>)
    ensures var r := FrequentItems(orders, DefaultFrequentLimit);
      && |r| <= 6
      && (|r| < 6 ==> forall k :: BoughtName(orders, k) ==> k in KeysOf(r))
  {
    var r := FrequentItems(orders, DefaultFrequentLimit);
    FrequentItemsSpec(orders, DefaultFrequentLimit);
    if |r| < 6 {
      FrequentItemsComplete(orders, DefaultFrequentLimit);
      forall k | BoughtName(orders, k) ensures k in KeysOf(r) {
        var i :| 0 <= i < |r| && r[i].key == k;
        assert KeysOf(r)[i] == k;
      }
    }
  }
}
