/** The records the shopping list, the order history and the offer engine
    share: line items and orders, with prices and quantities as integers in
    minor currency units. */
module Model {
  import opened Common

  type UserId = nat

  /** An entry of a shopping list or of an order. `added` is the time it was
      put on the list, in milliseconds since the epoch. */
  datatype LineItem = LineItem(
    id: nat,
    name: string,
    category: string,
    price: int,
    quantity: int,
    bought: bool,
    added: int,
    owner: UserId)

  /** A completed purchase: a frozen copy of the bought items and their
      total at the time of the purchase. */
  datatype Order = Order(
    id: nat,
    owner: UserId,
    items: seq<LineItem>,
    total: int,
    date: int)

  /** Milliseconds in a day. */
  const DayMs: int := 24 * 60 * 60 * 1000

  /** A restock reminder; `next` is when it is next due, in milliseconds
      since the epoch. */
  datatype Reminder = Reminder(id: int, item: string, frequency: string, created: int, next: int)

  function Amount(it: LineItem): int
  {
    it.price * it.quantity
  }

  /** Sum of `price * quantity`, accumulated left to right as `reduce` and
      `forEach` do in the source. */
  function Total(items: seq<LineItem>): int
  {
    if items == [] then 0 else Total(items[..|items| - 1]) + Amount(items[|items| - 1])
  }

  lemma {:induction false} TotalAppend(a: seq<LineItem>, b: seq<LineItem>)
    ensures Total(a + b) == Total(a) + Total(b)
    decreases |b|
  {
    if b == [] {
      assert a + b == a;
    } else {
      var b' := b[..|b| - 1];
      assert (a + b)[..|a + b| - 1] == a + b';
      TotalAppend(a, b');
    }
  }

  /** The total does not depend on anything but prices and quantities; in
      particular the `bought` flag plays no part. */
  lemma {:induction false} TotalIgnoresBought(items: seq<LineItem>, flags: seq<bool>)
    requires |flags| == |items|
    ensures Total(seq(|items|, i requires 0 <= i < |items| => items[i].(bought := flags[i]))) == Total(items)
    decreases |items|
  {
    var marked := seq(|items|, i requires 0 <= i < |items| => items[i].(bought := flags[i]));
    if items != [] {
      var n := |items| - 1;
      assert marked[..n] == seq(n, i requires 0 <= i < n => items[..n][i].(bought := flags[..n][i]));
      TotalIgnoresBought(items[..n], flags[..n]);
    }
  }

  function IdsOf(items: seq<LineItem>): (ids: set<nat>)
    ensures forall it :: it in items ==> it.id in ids
    ensures forall id :: id in ids ==> exists it :: it in items && it.id == id
  {
    set it | it in items :: it.id
  }

  /** The items of `list` whose id is not in `ids`, in their original order
      (`list.filter(item => !ids.includes(item.id))`). */
  function Without(list: seq<LineItem>, ids: set<nat>): (r: seq<LineItem>)
    ensures forall it :: it in r <==> it in list && it.id !in ids
    ensures forall it :: multiset(r)[it] == if it.id in ids then 0 else multiset(list)[it]
    ensures IsSubsequence(r, list)
    ensures |r| <= |list|
  {
    if list == [] then []
    else
      var rest := Without(list[1..], ids);
      SubsequenceConsRight(list[0], rest, list[1..]);
      assert [list[0]] + list[1..] == list;
      if list[0].id in ids then rest
      else
        SubsequenceConsBoth(list[0], rest, list[1..]);
        [list[0]] + rest
  }

  /** Filtering twice by the same ids is filtering once. */
  lemma {:induction false} WithoutIdempotent(list: seq<LineItem>, ids: set<nat>)
    ensures Without(Without(list, ids), ids) == Without(list, ids)
  {
    WithoutUnaffected(Without(list, ids), ids);
  }

  /** A list none of whose ids is filtered comes back unchanged. */
  lemma {:induction false} WithoutUnaffected(list: seq<LineItem>, ids: set<nat>)
    requires forall it :: it in list ==> it.id !in ids
    ensures Without(list, ids) == list
    decreases |list|
  {
    if list != [] {
      assert list[0] in list;
      WithoutUnaffected(list[1..], ids);
      assert [list[0]] + list[1..] == list;
    }
  }
}
