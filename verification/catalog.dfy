/** The static item catalog and the backend's item search. */
module Catalog {
  import opened Common

  datatype CatalogItem = CatalogItem(name: string, category: string, price: int, unit: string)

  /** One key of the catalog object with its item; a search result is the
      same pair (`{ id: key, ...item }`). */
  datatype CatalogEntry = CatalogEntry(key: string, item: CatalogItem)

  /** At most this many search results are returned. */
  const SearchLimit: nat := 5

  /** The catalog, in the key order of its definition: forty items under
      distinct keys, each with a positive price and one of five categories. */
  function Items(): (r: seq<CatalogEntry>)
    ensures |r| == 40
    ensures forall i :: 0 <= i < |r| ==> r[i].item.price > 0
  {
    [
      // Groceries
      CatalogEntry("rice", CatalogItem("Rice (1kg)", "groceries", 60, "1kg")),
      CatalogEntry("wheat", CatalogItem("Wheat Flour (1kg)", "groceries", 45, "1kg")),
      CatalogEntry("sugar", CatalogItem("Sugar (1kg)", "groceries", 50, "1kg")),
      CatalogEntry("salt", CatalogItem("Salt (1kg)", "groceries", 25, "1kg")),
      CatalogEntry("oil", CatalogItem("Cooking Oil (1L)", "groceries", 120, "1L")),
      CatalogEntry("dal", CatalogItem("Dal/Lentils (1kg)", "groceries", 80, "1kg")),
      CatalogEntry("tea", CatalogItem("Tea (250g)", "groceries", 150, "250g")),
      CatalogEntry("coffee", CatalogItem("Coffee (200g)", "groceries", 200, "200g")),
      CatalogEntry("biscuits", CatalogItem("Biscuits (200g)", "groceries", 30, "200g")),
      CatalogEntry("bread", CatalogItem("Bread (400g)", "groceries", 25, "400g")),
      // Vegetables
      CatalogEntry("onion", CatalogItem("Onion (1kg)", "vegetables", 40, "1kg")),
      CatalogEntry("potato", CatalogItem("Potato (1kg)", "vegetables", 30, "1kg")),
      CatalogEntry("tomato", CatalogItem("Tomato (1kg)", "vegetables", 50, "1kg")),
      CatalogEntry("carrot", CatalogItem("Carrot (1kg)", "vegetables", 60, "1kg")),
      CatalogEntry("cabbage", CatalogItem("Cabbage (1kg)", "vegetables", 35, "1kg")),
      CatalogEntry("cauliflower", CatalogItem("Cauliflower (1kg)", "vegetables", 45, "1kg")),
      CatalogEntry("beans", CatalogItem("Green Beans (1kg)", "vegetables", 70, "1kg")),
      CatalogEntry("spinach", CatalogItem("Spinach (1kg)", "vegetables", 40, "1kg")),
      CatalogEntry("pepper", CatalogItem("Bell Pepper (1kg)", "vegetables", 80, "1kg")),
      CatalogEntry("cucumber", CatalogItem("Cucumber (1kg)", "vegetables", 35, "1kg")),
      // Fruits
      CatalogEntry("apple", CatalogItem("Apple (1kg)", "fruits", 150, "1kg")),
      CatalogEntry("banana", CatalogItem("Banana (1kg)", "fruits", 50, "1kg")),
      CatalogEntry("orange", CatalogItem("Orange (1kg)", "fruits", 80, "1kg")),
      CatalogEntry("mango", CatalogItem("Mango (1kg)", "fruits", 120, "1kg")),
      CatalogEntry("grapes", CatalogItem("Grapes (1kg)", "fruits", 100, "1kg")),
      CatalogEntry("pomegranate", CatalogItem("Pomegranate (1kg)", "fruits", 200, "1kg")),
      CatalogEntry("watermelon", CatalogItem("Watermelon (1kg)", "fruits", 25, "1kg")),
      CatalogEntry("papaya", CatalogItem("Papaya (1kg)", "fruits", 40, "1kg")),
      CatalogEntry("pineapple", CatalogItem("Pineapple (1pc)", "fruits", 60, "1pc")),
      CatalogEntry("coconut", CatalogItem("Coconut (1pc)", "fruits", 30, "1pc")),
      // Dairy & Meat
      CatalogEntry("milk", CatalogItem("Milk (1L)", "dairy", 55, "1L")),
      CatalogEntry("curd", CatalogItem("Curd (500g)", "dairy", 40, "500g")),
      CatalogEntry("paneer", CatalogItem("Paneer (250g)", "dairy", 80, "250g")),
      CatalogEntry("butter", CatalogItem("Butter (100g)", "dairy", 60, "100g")),
      CatalogEntry("cheese", CatalogItem("Cheese (200g)", "dairy", 120, "200g")),
      CatalogEntry("eggs", CatalogItem("Eggs (12pcs)", "dairy", 70, "12pcs")),
      CatalogEntry("chicken", CatalogItem("Chicken (1kg)", "meat", 200, "1kg")),
      CatalogEntry("mutton", CatalogItem("Mutton (1kg)", "meat", 600, "1kg")),
      CatalogEntry("fish", CatalogItem("Fish (1kg)", "meat", 300, "1kg")),
      CatalogEntry("prawns", CatalogItem("Prawns (1kg)", "meat", 400, "1kg"))
    ]
  }

  /** An entry matches a query when the lower-cased query occurs in the
      lower-cased display name or in the lower-cased key. */
  ghost predicate Matches(e: CatalogEntry, query: string)
  {
    IsInfix(ToLower(query), ToLower(e.item.name)) || IsInfix(ToLower(query), ToLower(e.key))
  }

  /** The matching entries of `entries`, in order. */
  function MatchingEntries(entries: seq<CatalogEntry>, query: string): (r: seq<CatalogEntry>)
    ensures forall e :: e in r <==> e in entries && Matches(e, query)
    ensures forall e :: multiset(r)[e] == if Matches(e, query) then multiset(entries)[e] else 0
    ensures IsSubsequence(r, entries)
  {
    if entries == [] then []
    else
      var e := entries[0];
      var rest := MatchingEntries(entries[1..], query);
      SubsequenceConsRight(e, rest, entries[1..]);
      assert [e] + entries[1..] == entries;
      var q := ToLower(query);
      if Includes(ToLower(e.item.name), q) || Includes(ToLower(e.key), q) then
        SubsequenceConsBoth(e, rest, entries[1..]);
        [e] + rest
      else rest
  }

  /** The item search over a catalog: the first five matching entries in
      catalog order. When fewer than five come back, every matching entry
      is among them. */
  function SearchItems(catalog: seq<CatalogEntry>, query: string): (r: seq<CatalogEntry>)
    ensures |r| <= SearchLimit && |r| <= |MatchingEntries(catalog, query)|
    ensures |r| == SearchLimit || |r| == |MatchingEntries(catalog, query)|
    ensures r == MatchingEntries(catalog, query)[..|r|]
    ensures forall e :: e in r ==> e in catalog && Matches(e, query)
    ensures IsSubsequence(r, catalog)
    ensures |r| < SearchLimit ==> forall e :: e in catalog && Matches(e, query) ==> e in r
  {
    var all := MatchingEntries(catalog, query);
    var r := SliceTo(all, SearchLimit);
    PrefixIsSubsequence(all, |r|);
    SubsequenceMembers(r, all);
    SubsequenceTransitive(r, all, catalog);
    r
  }

  /** An empty query matches every entry, so it returns the first five. */
  lemma EmptyQueryReturnsFirstFive(catalog: seq<CatalogEntry>)
    ensures SearchItems(catalog, "") == SliceTo(catalog, SearchLimit)
  {
    AllMatchEmpty(catalog);
  }

  lemma {:induction false} AllMatchEmpty(entries: seq<CatalogEntry>)
    ensures MatchingEntries(entries, "") == entries
  {
    if entries != [] {
      AllMatchEmpty(entries[1..]);
      assert Includes(ToLower(entries[0].key), ToLower("")) by {
        assert OccursAt(ToLower(""), ToLower(entries[0].key), 0);
      }
      assert [entries[0]] + entries[1..] == entries;
    }
  }
}
