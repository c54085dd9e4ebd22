/** The backend's shopping-list and order store: per-user lists and order
    histories, and one id counter shared by list items and orders. */
module Store {
  import opened Common
  import opened Model

  datatype Db = Db(
    lists: map<UserId, seq<LineItem>>,
    orders: map<UserId, seq<Order>>,
    lastId: nat)

  /** The store as first initialised. */
  function EmptyDb(): Db
  {
    Db(map[], map[], 0)
  }

  /** What the list form submits: the item without id, date or owner. */
  datatype Draft = Draft(name: string, category: string, quantity: int, price: int)

  /** The fields an update may overwrite; `None` leaves a field as it is. */
  datatype Patch = Patch(
    name: Option<string>,
    category: Option<string>,
    price: Option<int>,
    quantity: Option<int>,
    bought: Option<bool>)

  /** A user's shopping list; a user without one has an empty list. */
  function ListOf(db: Db, u: UserId): seq<LineItem>
  {
    if u in db.lists then db.lists[u] else []
  }

  /** A user's order history; empty for a user without one. */
  function OrdersOf(db: Db, u: UserId): seq<Order>
  {
    if u in db.orders then db.orders[u] else []
  }

  /** Every id in the store is at most `bound`. */
  ghost predicate IdsAtMost(db: Db, bound: int)
  {
    && (forall u, it :: u in db.lists && it in db.lists[u] ==> it.id <= bound)
    && (forall u, o :: u in db.orders && o in db.orders[u] ==> o.id <= bound)
  }

  /** The store's invariant: the counter is at least every id handed out. */
  ghost predicate Valid(db: Db)
  {
    IdsAtMost(db, db.lastId)
  }

  /** Adds a drafted item to the end of a user's list under a fresh id. */
  function AddItemToList(db: Db, u: UserId, d: Draft, now: int): (r: (Db, LineItem))
    ensures r.1.id == db.lastId + 1 && r.0.lastId == r.1.id
    ensures r.1 == LineItem(r.1.id, d.name, d.category, d.price, d.quantity, false, now, u)
    ensures ListOf(r.0, u) == ListOf(db, u) + [r.1]
    ensures forall v :: v != u ==> ListOf(r.0, v) == ListOf(db, v)
    ensures r.0.orders == db.orders
  {
    var id := db.lastId + 1;
    var item := LineItem(id, d.name, d.category, d.price, d.quantity, false, now, u);
    (db.(lists := db.lists[u := ListOf(db, u) + [item]], lastId := id), item)
  }

  /** `findIndex`: the first position holding `id`. */
  function FindIndex(list: seq<LineItem>, id: nat): (r: Option<nat>)
    ensures r.None? <==> forall it :: it in list ==> it.id != id
    ensures r.Some? ==> r.value < |list| && list[r.value].id == id
    ensures r.Some? ==> forall j :: 0 <= j < r.value ==> list[j].id != id
  {
    if list == [] then None
    else if list[0].id == id then Some(0)
    else match FindIndex(list[1..], id)
      case None =>
        assert forall it :: it in list ==> it == list[0] || it in list[1..];
        None
      case Some(k) => Some(k + 1)
  }

  /** `{ ...item, ...updates }`. */
  function Merge(it: LineItem, p: Patch): LineItem
  {
    it.(
      name := if p.name.Some? then p.name.value else it.name,
      category := if p.category.Some? then p.category.value else it.category,
      price := if p.price.Some? then p.price.value else it.price,
      quantity := if p.quantity.Some? then p.quantity.value else it.quantity,
      bought := if p.bought.Some? then p.bought.value else it.bought)
  }

  /** Applies a patch to the first item of a user's list with the given id.
      Fails, changing nothing, when no item has that id. */
  function UpdateItem(db: Db, u: UserId, itemId: nat, p: Patch): (r: (Db, Option<LineItem>))
    ensures r.1.None? <==> forall it :: it in ListOf(db, u) ==> it.id != itemId
    ensures r.1.None? ==> r.0 == db
    ensures r.1.Some? ==> exists i ::
      && 0 <= i < |ListOf(db, u)|
      && ListOf(db, u)[i].id == itemId
      && (forall j :: 0 <= j < i ==> ListOf(db, u)[j].id != itemId)
      && r.1.value == Merge(ListOf(db, u)[i], p)
      && ListOf(r.0, u) == ListOf(db, u)[i := r.1.value]
    ensures forall v :: v != u ==> ListOf(r.0, v) == ListOf(db, v)
    ensures r.0.orders == db.orders && r.0.lastId == db.lastId
  {
    var list := ListOf(db, u);
    match FindIndex(list, itemId)
    case None => (db, None)
    case Some(i) =>
      var updated := Merge(list[i], p);
      (db.(lists := db.lists[u := list[i := updated]]), Some(updated))
  }

  /** Drops every item with the given id from a user's list. */
  function RemoveItem(db: Db, u: UserId, itemId: nat): (r: Db)
    ensures forall it :: it in ListOf(r, u) <==> it in ListOf(db, u) && it.id != itemId
    ensures forall it :: multiset(ListOf(r, u))[it] == if it.id == itemId then 0 else multiset(ListOf(db, u))[it]
    ensures IsSubsequence(ListOf(r, u), ListOf(db, u))
    ensures forall v :: v != u ==> ListOf(r, v) == ListOf(db, v)
    ensures r.orders == db.orders && r.lastId == db.lastId
  {
    db.(lists := db.lists[u := Without(ListOf(db, u), {itemId})])
  }

  /** Removing the same id twice is removing it once. */
  lemma RemoveItemIdempotent(db: Db, u: UserId, itemId: nat)
    ensures RemoveItem(RemoveItem(db, u, itemId), u, itemId) == RemoveItem(db, u, itemId)
  {
    WithoutIdempotent(ListOf(db, u), {itemId});
  }

  /** Records a purchase: a new order under a fresh id with the total of
      the purchased items frozen, and those items struck off the list. */
  function CreateOrder(db: Db, u: UserId, items: seq<LineItem>, now: int): (r: (Db, Order))
    ensures r.1.id == db.lastId + 1 && r.0.lastId == r.1.id
    ensures r.1.total == Total(items) && r.1.items == items && r.1.owner == u && r.1.date == now
    ensures OrdersOf(r.0, u) == OrdersOf(db, u) + [r.1]
    ensures ListOf(r.0, u) == Without(ListOf(db, u), IdsOf(items))
    ensures forall v :: v != u ==> ListOf(r.0, v) == ListOf(db, v) && OrdersOf(r.0, v) == OrdersOf(db, v)
  {
    var id := db.lastId + 1;
    var order := Order(id, u, items, Total(items), now);
    var db' := db.(orders := db.orders[u := OrdersOf(db, u) + [order]], lastId := id);
    (db'.(lists := db'.lists[u := Without(ListOf(db, u), IdsOf(items))]), order)
  }

  /** The list after a purchase keeps exactly the items whose ids were not
      bought, in their original order. */
  lemma CreateOrderStrikesPurchased(db: Db, u: UserId, items: seq<LineItem>, now: int)
    ensures var list' := ListOf(CreateOrder(db, u, items, now).0, u);
      && (forall it :: it in list' <==> it in ListOf(db, u) && (forall b :: b in items ==> b.id != it.id))
      && IsSubsequence(list', ListOf(db, u))
  {
  }

  /** Adding an item keeps the invariant, and the new id exceeds every id
      already in the store. */
  lemma AddItemFresh(db: Db, u: UserId, d: Draft, now: int)
    requires Valid(db)
    ensures Valid(AddItemToList(db, u, d, now).0)
    ensures IdsAtMost(db, AddItemToList(db, u, d, now).1.id - 1)
  {
    var (db', item) := AddItemToList(db, u, d, now);
    forall v, it | v in db'.lists && it in db'.lists[v] ensures it.id <= db'.lastId {
      if v != u {
        assert ListOf(db', v) == ListOf(db, v);
      } else if it != item {
        assert it in ListOf(db, u);
      }
    }
  }

  /** Creating an order keeps the invariant, and the order's id exceeds
      every id already in the store. */
  lemma CreateOrderFresh(db: Db, u: UserId, items: seq<LineItem>, now: int)
    requires Valid(db)
    ensures Valid(CreateOrder(db, u, items, now).0)
    ensures IdsAtMost(db, CreateOrder(db, u, items, now).1.id - 1)
  {
    var (db', order) := CreateOrder(db, u, items, now);
    forall v, it | v in db'.lists && it in db'.lists[v] ensures it.id <= db'.lastId {
      if v != u {
        assert ListOf(db', v) == ListOf(db, v);
      } else {
        assert it in ListOf(db, u);
      }
    }
    forall v, o | v in db'.orders && o in db'.orders[v] ensures o.id <= db'.lastId {
      if v != u {
        assert OrdersOf(db', v) == OrdersOf(db, v);
      } else if o != order {
        assert o in OrdersOf(db, u);
      }
    }
  }

  /** List edits keep the invariant. */
  lemma EditsKeepValid(db: Db, u: UserId, itemId: nat, p: Patch)
    requires Valid(db)
    ensures Valid(UpdateItem(db, u, itemId, p).0)
    ensures Valid(RemoveItem(db, u, itemId))
  {
    var (db', res) := UpdateItem(db, u, itemId, p);
    if res.Some? {
      forall v, it | v in db'.lists && it in db'.lists[v] ensures it.id <= db'.lastId {
        if v != u {
          assert ListOf(db', v) == ListOf(db, v);
        } else {
          var k :| 0 <= k < |ListOf(db', u)| && ListOf(db', u)[k] == it;
          assert it.id == ListOf(db, u)[k].id;
          assert ListOf(db, u)[k] in ListOf(db, u);
        }
      }
    }
    var db'' := RemoveItem(db, u, itemId);
    forall v, it | v in db''.lists && it in db''.lists[v] ensures it.id <= db''.lastId {
      if v != u {
        assert ListOf(db'', v) == ListOf(db, v);
      } else {
        assert it in ListOf(db, u);
      }
    }
  }

  /** Days of history the `week`, `month` and `year` filters keep; any
      other filter keeps everything. */
  function WindowDays(filter: string): Option<int>
  {
    if filter == "week" then Some(7)
    else if filter == "month" then Some(30)
    else if filter == "year" then Some(365)
    else None
  }

  predicate InWindow(o: Order, filter: string, now: int)
  {
    match WindowDays(filter)
    case None => true
    case Some(days) => o.date >= now - days * DayMs
  }

  function Recent(orders: seq<Order>, filter: string, now: int): (r: seq<Order>)
    ensures forall o :: o in r <==> o in orders && InWindow(o, filter, now)
    ensures forall o :: multiset(r)[o] == if InWindow(o, filter, now) then multiset(orders)[o] else 0
    ensures IsSubsequence(r, orders)
    ensures WindowDays(filter).None? ==> r == orders
  {
    if orders == [] then []
    else
      var rest := Recent(orders[1..], filter, now);
      SubsequenceConsRight(orders[0], rest, orders[1..]);
      assert [orders[0]] + orders[1..] == orders;
      if InWindow(orders[0], filter, now) then
        SubsequenceConsBoth(orders[0], rest, orders[1..]);
        [orders[0]] + rest
      else rest
  }

  /** A user's orders inside the filter's window, most recent first. */
  function GetOrders(db: Db, u: UserId, filter: string, now: int): (r: seq<Order>)
    ensures forall o :: o in r <==> o in OrdersOf(db, u) && InWindow(o, filter, now)
    ensures forall o :: multiset(r)[o] == if InWindow(o, filter, now) then multiset(OrdersOf(db, u))[o] else 0
    ensures IsSubsequence(Reverse(r), OrdersOf(db, u))
    ensures WindowDays(filter).None? ==> r == Reverse(OrdersOf(db, u))
  {
    var kept := Recent(OrdersOf(db, u), filter, now);
    ReverseInvolutive(kept);
    ReverseMembers(kept);
    ReverseMultiset(kept);
    Reverse(kept)
  }
}
