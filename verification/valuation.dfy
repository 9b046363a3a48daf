/** The two running totals over the item list: stock on hand (sum of
    quantities) and valuation (sum of quantity times retail price). Both are
    left folds from 0, the way the application reduces the list. */
module Valuation {
  import opened Inventory
  import Seqs

  /** The retail value of one item's stock, in cents. */
  function LineValue(x: Item): int
  {
    x.quantity * x.price
  }

  /** Total valuation: the sum of quantity times retail price. The running
      order of the reduce does not matter: it is the sum taken from the head. */
  function TotalValue(items: seq<Item>): (v: int)
    ensures v == Seqs.SumFromHead(items, LineValue)
  {
    Seqs.SumIsSumFromHead(items, LineValue);
    Seqs.Sum(items, LineValue)
  }

  /** Total stock on hand: the sum of quantities, in any running order. */
  function TotalItems(items: seq<Item>): (n: int)
    ensures n == Seqs.SumFromHead(items, QuantityOf)
  {
    Seqs.SumIsSumFromHead(items, QuantityOf);
    Seqs.Sum(items, QuantityOf)
  }

  /** Both totals are additive over a split of the list. */
  lemma TotalsAppend(a: seq<Item>, b: seq<Item>)
    ensures TotalValue(a + b) == TotalValue(a) + TotalValue(b)
    ensures TotalItems(a + b) == TotalItems(a) + TotalItems(b)
  {
    Seqs.SumAppend(a, b, LineValue);
    Seqs.SumAppend(a, b, QuantityOf);
  }

  /** Replacing one item changes each total by the difference of its shares. */
  lemma TotalsReplace(items: seq<Item>, k: int, y: Item)
    requires 0 <= k < |items|
    ensures TotalValue(items[k := y]) == TotalValue(items) - items[k].quantity * items[k].price + y.quantity * y.price
    ensures TotalItems(items[k := y]) == TotalItems(items) - items[k].quantity + y.quantity
  {
    Seqs.SumUpdate(items, k, y, LineValue);
    Seqs.SumUpdate(items, k, y, QuantityOf);
  }

  /** Cutting one item out of the list removes exactly its share. */
  lemma TotalsRemove(items: seq<Item>, k: int)
    requires 0 <= k < |items|
    ensures TotalValue(items[..k] + items[k + 1..]) == TotalValue(items) - items[k].quantity * items[k].price
    ensures TotalItems(items[..k] + items[k + 1..]) == TotalItems(items) - items[k].quantity
  {
    var pre, x, post := items[..k], items[k], items[k + 1..];
    assert items == pre + ([x] + post);
    TotalsAppend(pre, [x] + post);
    TotalsPrepend(x, post);
    TotalsAppend(pre, post);
  }

  /** Putting one item in front of the list adds exactly its own share. */
  lemma TotalsPrepend(x: Item, s: seq<Item>)
    ensures TotalValue([x] + s) == x.quantity * x.price + TotalValue(s)
    ensures TotalItems([x] + s) == x.quantity + TotalItems(s)
  {
    TotalsAppend([x], s);
    Seqs.SumSingleton(x, LineValue);
    Seqs.SumSingleton(x, QuantityOf);
  }

  /** Both totals are zero for an empty list, and non-negative when no
      quantity and no price is negative. */
  lemma TotalsNonNegative(items: seq<Item>)
    requires AllNonNegative(items)
    requires forall i :: 0 <= i < |items| ==> items[i].price >= 0
    ensures TotalItems(items) >= 0 && TotalValue(items) >= 0
    ensures |items| == 0 ==> TotalItems(items) == 0 && TotalValue(items) == 0
  {
    Seqs.SumNonNegative(items, QuantityOf);
    assert forall i :: 0 <= i < |items| ==> LineValue(items[i]) >= 0 by {
      forall i | 0 <= i < |items| ensures LineValue(items[i]) >= 0 {
        assert items[i].quantity >= 0 && items[i].price >= 0;
      }
    }
    Seqs.SumNonNegative(items, LineValue);
  }
}
