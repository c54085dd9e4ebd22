/** The offer engine: which promotional offers a cart qualifies for, and
    how much each one saves. */
module OfferEngine {
  import opened Common
  import opened Model

  /** `percentage` takes a share of the category spend; any other type is a
      flat amount. */
  datatype DiscountKind = Percentage | Fixed

  datatype Offer = Offer(
    id: string,
    title: string,
    description: string,
    discount: int,
    kind: DiscountKind,
    category: string,
    minAmount: int,
    active: bool)

  /** An offer the cart qualifies for, with the amount it saves. */
  datatype AppliedOffer = AppliedOffer(offer: Offer, savings: int)

  /** The category name an offer uses to cover the whole cart. */
  const AllCategories: string := "all"

  const Dairy10: Offer := Offer("dairy10", "Dairy Products", "Get 10% off on all dairy products",
                                10, Percentage, "dairy", 200, true)
  const Bulk500: Offer := Offer("bulk500", "Bulk Shopping", "₹500 off on orders above ₹5000",
                                500, Fixed, AllCategories, 5000, true)
  const Vegetables15: Offer := Offer("vegetables15", "Fresh Vegetables", "15% off on fresh vegetables",
                                     15, Percentage, "vegetables", 300, true)
  const Fruits20: Offer := Offer("fruits20", "Seasonal Fruits", "20% off on seasonal fruits",
                                 20, Percentage, "fruits", 250, true)

  /** The offer table, in definition order: four active offers under
      distinct ids, each with a positive discount and threshold; a
      percentage never exceeds 100, and a flat discount never exceeds the
      spend that unlocks it. */
  function DefaultOffers(): (r: seq<Offer>)
    ensures |r| == 4
    ensures forall i, j :: 0 <= i < j < |r| ==> r[i].id != r[j].id
    ensures forall i :: 0 <= i < |r| ==> r[i].active && r[i].discount > 0 && r[i].minAmount > 0
    ensures forall i :: 0 <= i < |r| && r[i].kind == Percentage ==> r[i].discount <= 100
    ensures forall i :: 0 <= i < |r| && r[i].kind == Fixed ==> r[i].discount <= r[i].minAmount
  {
    [Dairy10, Bulk500, Vegetables15, Fruits20]
  }

  /** The active offers in table order. */
  function GetOffers(offers: seq<Offer>): (r: seq<Offer>)
    ensures forall o :: o in r <==> o in offers && o.active
    ensures forall o :: multiset(r)[o] == if o.active then multiset(offers)[o] else 0
    ensures IsSubsequence(r, offers)
  {
    if offers == [] then []
    else
      var rest := GetOffers(offers[1..]);
      SubsequenceConsRight(offers[0], rest, offers[1..]);
      assert [offers[0]] + offers[1..] == offers;
      if offers[0].active then
        SubsequenceConsBoth(offers[0], rest, offers[1..]);
        [offers[0]] + rest
      else rest
  }

  /** Whether an offer for `category` counts this cart item towards its
      category subtotal. */
  predicate Covers(category: string, it: LineItem)
  {
    category == AllCategories || it.category == category
  }

  /** The cart items an offer for `category` covers, in cart order. */
  function InScope(cart: seq<LineItem>, category: string): (r: seq<LineItem>)
    ensures forall it :: it in r <==> it in cart && Covers(category, it)
    ensures forall it :: multiset(r)[it] == if Covers(category, it) then multiset(cart)[it] else 0
  {
    if cart == [] then []
    else
      var last := cart[|cart| - 1];
      assert forall it :: it in cart <==> it in cart[..|cart| - 1] || it == last by {
        assert cart == cart[..|cart| - 1] + [last];
      }
      InScope(cart[..|cart| - 1], category) + (if Covers(category, last) then [last] else [])
  }

  /** Spend on the items an offer covers. */
  function CategoryTotal(cart: seq<LineItem>, category: string): int
  {
    Total(InScope(cart, category))
  }

  /** The amount compared with `minAmount`: the whole cart for an offer on
      every category, the category subtotal otherwise. */
  function QualifyingAmount(o: Offer, cart: seq<LineItem>): int
  {
    if o.category == AllCategories then Total(cart) else CategoryTotal(cart, o.category)
  }

  /** `Math.round(n / 100)` for an integer `n`: the nearest integer, halves
      rounded up. */
  function RoundHundredth(n: int): (r: int)
    ensures 100 * r - 50 <= n < 100 * r + 50
  {
    (n + 50) / 100
  }

  function Savings(o: Offer, cart: seq<LineItem>): int
  {
    match o.kind
    case Percentage => RoundHundredth(CategoryTotal(cart, o.category) * o.discount)
    case Fixed => o.discount
  }

  predicate Applies(o: Offer, cart: seq<LineItem>)
  {
    o.active && QualifyingAmount(o, cart) >= o.minAmount
  }

  /** Reference definition of the offer check: every applicable offer, in
      table order, with its savings. */
  function Evaluate(offers: seq<Offer>, cart: seq<LineItem>): seq<AppliedOffer>
  {
    if offers == [] then []
    else
      var o := offers[0];
      (if Applies(o, cart) then [AppliedOffer(o, Savings(o, cart))] else [])
      + Evaluate(offers[1..], cart)
  }

  /** The `forEach` over the cart for one offer: the whole total and the
      subtotal over the items the offer covers, accumulated side by side. */
  method SumCart(cart: seq<LineItem>, category: string) returns (totalAmount: int, categoryTotal: int)
    ensures totalAmount == Total(cart)
    ensures categoryTotal == CategoryTotal(cart, category)
  {
    categoryTotal := 0;
    totalAmount := 0;
    var i := 0;
    while i < |cart|
      invariant 0 <= i <= |cart|
      invariant totalAmount == Total(cart[..i])
      invariant categoryTotal == Total(InScope(cart[..i], category))
    {
      var item := cart[i];
      PrefixSums(cart, i, category);
      totalAmount := totalAmount + item.price * item.quantity;
      if category == AllCategories || item.category == category {
        categoryTotal := categoryTotal + item.price * item.quantity;
      }
      i := i + 1;
    }
    assert cart[..i] == cart;
  }

  /** How both sums grow when the prefix of the cart grows by one item. */
  lemma PrefixSums(cart: seq<LineItem>, i: nat, category: string)
    requires i < |cart|
    ensures Total(cart[..i + 1]) == Total(cart[..i]) + cart[i].price * cart[i].quantity
    ensures Total(InScope(cart[..i + 1], category))
         == Total(InScope(cart[..i], category))
            + (if Covers(category, cart[i]) then cart[i].price * cart[i].quantity else 0)
  {
    var item := cart[i];
    var pre := cart[..i];
    assert cart[..i + 1] == pre + [item];
    assert cart[..i + 1][..i] == pre;
    InScopeSnoc(pre, item, category);
    if Covers(category, item) {
      TotalAppend(InScope(pre, category), [item]);
      assert [item][..0] == [];
    } else {
      assert InScope(pre, category) + [] == InScope(pre, category);
    }
  }

  /** The offer check as the backend performs it: one pass over the offers,
      summing the cart for each active one. */
  method CheckOffers(offers: seq<Offer>, cart: seq<LineItem>) returns (applicable: seq<AppliedOffer>)
    ensures applicable == Evaluate(offers, cart)
  {
    applicable := [];
    var k := 0;
    while k < |offers|
      invariant 0 <= k <= |offers|
      invariant applicable + Evaluate(offers[k..], cart) == Evaluate(offers, cart)
    {
      var offer := offers[k];
      var applied := CheckOffer(offer, cart);
      EvaluateCons(offer, offers[k + 1..], cart);
      assert offers[k..] == [offer] + offers[k + 1..];
      assert applicable + Evaluate(offers[k..], cart) == (applicable + applied) + Evaluate(offers[k + 1..], cart);
      applicable := applicable + applied;
      k := k + 1;
    }
    assert offers[|offers|..] == [];
  }

  /** One pass of the offer loop: an active offer whose qualifying amount
      reaches its threshold yields itself with its savings, anything else
      yields nothing. */
  method CheckOffer(offer: Offer, cart: seq<LineItem>) returns (applied: seq<AppliedOffer>)
    ensures applied == if Applies(offer, cart) then [AppliedOffer(offer, Savings(offer, cart))] else []
  {
    applied := [];
    if offer.active {
      var totalAmount, categoryTotal := SumCart(cart, offer.category);
      var checkAmount := if offer.category == AllCategories then totalAmount else categoryTotal;
      if checkAmount >= offer.minAmount {
        var savings := if offer.kind == Percentage then (categoryTotal * offer.discount + 50) / 100
                       else offer.discount;
        applied := [AppliedOffer(offer, savings)];
      }
    }
  }

  /** For an offer on every category the subtotal is the whole cart total. */
  lemma {:induction false} AllCategoryTotalIsCartTotal(cart: seq<LineItem>)
    ensures CategoryTotal(cart, AllCategories) == Total(cart)
  {
    InScopeAll(cart);
  }

  lemma {:induction false} InScopeAll(cart: seq<LineItem>)
    ensures InScope(cart, AllCategories) == cart
  {
    if cart != [] {
      var init, last := cart[..|cart| - 1], cart[|cart| - 1];
      assert cart == init + [last];
      calc {
        InScope(cart, AllCategories);
        { InScopeSnoc(init, last, AllCategories); }
        InScope(init, AllCategories) + [last];
        { InScopeAll(init); }
        init + [last];
      }
    }
  }

  /** Appending an item extends the covered items by it exactly when the
      offer covers it. */
  lemma InScopeSnoc(s: seq<LineItem>, x: LineItem, category: string)
    ensures InScope(s + [x], category) == InScope(s, category) + (if Covers(category, x) then [x] else [])
  {
    assert (s + [x])[..|s + [x]| - 1] == s;
  }

  /** Every returned offer is active, comes from the table, is gated on its
      qualifying amount and carries the savings its kind prescribes. */
  lemma {:induction false} EvaluateSound(offers: seq<Offer>, cart: seq<LineItem>)
    ensures forall a :: a in Evaluate(offers, cart) ==>
      && a.offer in offers
      && a.offer.active
      && QualifyingAmount(a.offer, cart) >= a.offer.minAmount
      && a.savings == Savings(a.offer, cart)
  {
    if offers != [] {
      EvaluateSound(offers[1..], cart);
    }
  }

  /** Every active offer whose qualifying amount reaches its minimum is
      returned. */
  lemma {:induction false} EvaluateComplete(offers: seq<Offer>, cart: seq<LineItem>)
    ensures forall o :: o in offers && o.active && QualifyingAmount(o, cart) >= o.minAmount ==>
      AppliedOffer(o, Savings(o, cart)) in Evaluate(offers, cart)
  {
    if offers != [] {
      EvaluateComplete(offers[1..], cart);
      assert forall o :: o in offers ==> o == offers[0] || o in offers[1..];
    }
  }

  function OffersOf(applied: seq<AppliedOffer>): (r: seq<Offer>)
    ensures |r| == |applied|
    ensures forall i :: 0 <= i < |r| ==> r[i] == applied[i].offer
  {
    seq(|applied|, i requires 0 <= i < |applied| => applied[i].offer)
  }

  /** Returned offers keep the table's order. */
  lemma {:induction false} EvaluateKeepsOrder(offers: seq<Offer>, cart: seq<LineItem>)
    ensures IsSubsequence(OffersOf(Evaluate(offers, cart)), offers)
  {
    if offers != [] {
      var o := offers[0];
      var rest := Evaluate(offers[1..], cart);
      EvaluateKeepsOrder(offers[1..], cart);
      assert [o] + offers[1..] == offers;
      if Applies(o, cart) {
        assert OffersOf(Evaluate(offers, cart)) == [o] + OffersOf(rest);
        SubsequenceConsBoth(o, OffersOf(rest), offers[1..]);
      } else {
        assert OffersOf(Evaluate(offers, cart)) == OffersOf(rest);
        SubsequenceConsRight(o, OffersOf(rest), offers[1..]);
      }
    }
  }

  /** A flat offer saves its discount whatever the spend. */
  lemma FixedSavingsUncapped(o: Offer, cart: seq<LineItem>)
    requires o.kind == Fixed
    ensures Savings(o, cart) == o.discount
  {
  }

  /** Checking a table is checking its first offer, then the rest. */
  lemma EvaluateCons(o: Offer, rest: seq<Offer>, cart: seq<LineItem>)
    ensures Evaluate([o] + rest, cart)
         == (if Applies(o, cart) then [AppliedOffer(o, Savings(o, cart))] else []) + Evaluate(rest, cart)
  {
    assert ([o] + rest)[1..] == rest;
  }

  /** Against the whole offer table, three dairy items at 100 earn
      `dairy10` alone and save 30: there is no vegetable or fruit spend and
      300 is far below the 5000 `bulk500` needs. */
  lemma DairyScenario()
    ensures Evaluate(DefaultOffers(), [LineItem(1, "Milk", "dairy", 100, 3, false, 0, 1)])
         == [AppliedOffer(Dairy10, 30)]
  {
    var cart := [LineItem(1, "Milk", "dairy", 100, 3, false, 0, 1)];
    assert InScope(cart, "dairy") == cart;
    assert InScope(cart, "vegetables") == [] && InScope(cart, "fruits") == [];
    assert Total(cart) == 300;
    TableInOrder(cart);
  }

  /** Against the whole offer table, vegetables worth 100 earn nothing:
      they stay below the 300 `vegetables15` needs, and the cart holds no
      dairy or fruit and is far below 5000. */
  lemma VegetablesScenario()
    ensures Evaluate(DefaultOffers(), [LineItem(1, "Onion", "vegetables", 50, 2, false, 0, 1)]) == []
  {
    var cart := [LineItem(1, "Onion", "vegetables", 50, 2, false, 0, 1)];
    assert InScope(cart, "vegetables") == cart;
    assert InScope(cart, "dairy") == [] && InScope(cart, "fruits") == [];
    assert Total(cart) == 100;
    TableInOrder(cart);
  }

  /** Checking the four-offer table is the four checks in table order. */
  lemma TableInOrder(cart: seq<LineItem>)
    ensures Evaluate(DefaultOffers(), cart)
         == (if Applies(Dairy10, cart) then [AppliedOffer(Dairy10, Savings(Dairy10, cart))] else [])
          + ((if Applies(Bulk500, cart) then [AppliedOffer(Bulk500, Savings(Bulk500, cart))] else [])
          + ((if Applies(Vegetables15, cart) then [AppliedOffer(Vegetables15, Savings(Vegetables15, cart))] else [])
          + ((if Applies(Fruits20, cart) then [AppliedOffer(Fruits20, Savings(Fruits20, cart))] else [])
          + [])))
  {
    var t3: seq<Offer> := [Fruits20] + [];
    var t2 := [Vegetables15] + t3;
    var t1 := [Bulk500] + t2;
    assert DefaultOffers() == [Dairy10] + t1;
    EvaluateCons(Fruits20, [], cart);
    EvaluateCons(Vegetables15, t3, cart);
    EvaluateCons(Bulk500, t2, cart);
    EvaluateCons(Dairy10, t1, cart);
  }
}
