/** The inventory list view: the search-and-category filter, the low-stock
    flags on each item card, the wholesale price shown on the card, and the
    quantity buttons wired to the ledger. */
module InventoryTable {
  import opened Inventory
  import Seqs
  import Text
  import Ledger

  /** The category chip row: "ALL" or one category. */
  datatype CategoryFilter = AllCategories | OnlyCategory(category: Category)

  /** Search match: the lower-cased name or SKU includes the lower-cased query. */
  predicate MatchesSearch(x: Item, query: string)
  {
    Text.Includes(Text.Lower(x.name), Text.Lower(query)) || Text.Includes(Text.Lower(x.sku), Text.Lower(query))
  }

  predicate MatchesCategory(x: Item, cf: CategoryFilter)
  {
    cf.AllCategories? || x.category == cf.category
  }

  /** The filter callback: a card is shown exactly when the query occurs in
      its name or SKU, case aside, and its category passes the chip. */
  predicate Shown(x: Item, query: string, cf: CategoryFilter)
    ensures Shown(x, query, cf) <==> SearchHit(x, query) && MatchesCategory(x, cf)
  {
    MatchesSearch(x, query) && MatchesCategory(x, cf)
  }

  /** Reference statement of the search test: the query occurs in the name or
      in the SKU once both sides are lower-cased. */
  ghost predicate SearchHit(x: Item, query: string)
  {
    Text.IsSubstring(Text.Lower(query), Text.Lower(x.name)) || Text.IsSubstring(Text.Lower(query), Text.Lower(x.sku))
  }

  /** The cards the list shows, in ledger order. */
  function FilteredItems(items: seq<Item>, query: string, cf: CategoryFilter): (r: seq<Item>)
    ensures Seqs.Subsequence(r, items)
    ensures forall x :: x in r ==> SearchHit(x, query) && (cf.OnlyCategory? ==> x.category == cf.category)
    ensures forall x :: x in items && SearchHit(x, query) && (cf.OnlyCategory? ==> x.category == cf.category) ==> x in r
    ensures forall x :: multiset(r)[x] == if SearchHit(x, query) && MatchesCategory(x, cf) then multiset(items)[x] else 0
    ensures (forall i :: 0 <= i < |items| ==> SearchHit(items[i], query) && MatchesCategory(items[i], cf)) ==> r == items
    ensures query == [] && cf == AllCategories ==> r == items
  {
    var keep := (x: Item) => Shown(x, query, cf);
    assert forall i :: 0 <= i < |items| && query == [] ==> MatchesSearch(items[i], query) by {
      forall i | 0 <= i < |items| && query == [] ensures MatchesSearch(items[i], query) {
        assert Text.Lower(query) <= Text.Lower(items[i].name);
      }
    }
    Seqs.FilterSpec(items, keep);
    Seqs.FilterKeepsAll(items, keep);
    Seqs.Filter(items, keep)
  }

  /** The search is case-insensitive: queries that lower-case alike show the same cards. */
  lemma FilterIgnoresQueryCase(items: seq<Item>, q1: string, q2: string, cf: CategoryFilter)
    requires Text.Lower(q1) == Text.Lower(q2)
    ensures FilteredItems(items, q1, cf) == FilteredItems(items, q2, cf)
  {
    Seqs.FilterCongruent(items, (x: Item) => Shown(x, q1, cf), (x: Item) => Shown(x, q2, cf));
  }

  /** Narrowing to one category shows a subset of what "ALL" shows, in the same order. */
  lemma CategoryNarrows(items: seq<Item>, query: string, c: Category)
    ensures Seqs.Subsequence(FilteredItems(items, query, OnlyCategory(c)), FilteredItems(items, query, AllCategories))
    ensures forall x :: x in FilteredItems(items, query, OnlyCategory(c)) ==> x in FilteredItems(items, query, AllCategories)
  {
    Seqs.FilterNarrower(items, (x: Item) => Shown(x, query, OnlyCategory(c)), (x: Item) => Shown(x, query, AllCategories));
  }

  /** The two low-stock signals on a card: the red quantity styling and the
      warning badge. */
  datatype QuantityTone = Alert | Plain

  function QuantityToneOf(x: Item): QuantityTone
  {
    if x.quantity <= x.minThreshold then Alert else Plain
  }

  predicate ShowsLowStockBadge(x: Item)
  {
    x.quantity <= x.minThreshold
  }

  /** Both card signals fire exactly on the shared low-stock condition. */
  lemma CardFlagsAgree(x: Item)
    ensures ShowsLowStockBadge(x) <==> IsLowStock(x)
    ensures QuantityToneOf(x) == Alert <==> IsLowStock(x)
  {
  }

  /** The wholesale column: the wholesale price when it is present and
      non-zero, the retail price otherwise (JavaScript's `||` fallback). */
  function DisplayedWholesale(x: Item): (p: int)
    ensures p == x.price || (x.wholesalePrice == Some(p) && p != 0)
    ensures x.wholesalePrice.None? || x.wholesalePrice == Some(0) ==> p == x.price
    ensures x.wholesalePrice.Some? && x.wholesalePrice.value != 0 ==> p == x.wholesalePrice.value
  {
    match x.wholesalePrice
    case Some(w) => if w != 0 then w else x.price
    case None => x.price
  }

  /** The card's buttons and what they ask of the ledger. */
  datatype Button = DeleteButton | MinusButton | PlusButton

  const MinusDelta: int := -1
  const PlusDelta: int := 1

  /** The list after a button on card `x` is pressed (deletion already confirmed). */
  function Press(items: seq<Item>, x: Item, b: Button, now: string): (r: seq<Item>)
    ensures b.DeleteButton? ==> forall y :: y in r <==> y in items && y.id != x.id
    ensures !b.DeleteButton? ==> |r| == |items|
    ensures !b.DeleteButton? ==> forall i :: 0 <= i < |items| ==>
              r[i].id == items[i].id &&
              r[i].quantity == if items[i].id == x.id then Max(0, items[i].quantity + (if b.PlusButton? then 1 else -1))
                               else items[i].quantity
  {
    match b
    case DeleteButton => Ledger.DeleteItem(items, x.id)
    case MinusButton => Ledger.UpdateQuantity(items, x.id, MinusDelta, now)
    case PlusButton => Ledger.UpdateQuantity(items, x.id, PlusDelta, now)
  }

  /** The quantity buttons move stock by exactly one, and minus on an empty
      item leaves it at zero. */
  lemma PressSteps(items: seq<Item>, k: int, now: string)
    requires 0 <= k < |items|
    ensures Press(items, items[k], PlusButton, now)[k].quantity == Max(0, items[k].quantity + 1)
    ensures Press(items, items[k], MinusButton, now)[k].quantity == Max(0, items[k].quantity - 1)
    ensures items[k].quantity == 0 ==> Press(items, items[k], MinusButton, now)[k].quantity == 0
  {
  }

  /** Plus then minus on the same card restores every quantity when stock is
      non-negative; only timestamps move. */
  lemma PlusThenMinusRestores(items: seq<Item>, k: int, t1: string, t2: string)
    requires 0 <= k < |items|
    requires AllNonNegative(items)
    ensures var r := Press(Press(items, items[k], PlusButton, t1), items[k], MinusButton, t2);
            |r| == |items| && forall i :: 0 <= i < |items| ==> r[i].quantity == items[i].quantity
  {
    Ledger.UpdateCompose(items, items[k].id, PlusDelta, MinusDelta, t1, t2);
  }
}
