/** The item-list mutations of the application shell: quantity adjustment
    with clamping at zero, removal by id, and insertion of a new item at the
    head of the list. Each is a pure function from the previous list to the
    next; the clock reading that stamps `lastUpdated` is a parameter. */
module Ledger {
  import opened Inventory
  import Seqs
  import Valuation

  /** The value the hidden `minThreshold` field of the add form submits. */
  const FormThreshold: int := 10
  /** The value the hidden `cost` field of the add form submits. */
  const FormCost: int := 0

  /** One item after `delta` is applied: stock clamped at zero, timestamp refreshed. */
  function Adjusted(x: Item, delta: int, now: string): Item
  {
    x.(quantity := Max(0, x.quantity + delta), lastUpdated := now)
  }

  /** `updateQuantity(id, delta)`: every item carrying `id` gets its stock
      moved by `delta`, never below zero; every other item is left as it was. */
  function UpdateQuantity(items: seq<Item>, id: string, delta: int, now: string): (r: seq<Item>)
    ensures |r| == |items|
    ensures forall i :: 0 <= i < |items| && items[i].id != id ==> r[i] == items[i]
    ensures forall i :: 0 <= i < |items| && items[i].id == id ==>
              && r[i].quantity >= 0
              && r[i].quantity >= items[i].quantity + delta
              && (r[i].quantity == 0 || r[i].quantity == items[i].quantity + delta)
              && r[i] == items[i].(quantity := r[i].quantity, lastUpdated := now)
  {
    if |items| == 0 then []
    else
      var head := if items[0].id == id then Adjusted(items[0], delta, now) else items[0];
      var r := [head] + UpdateQuantity(items[1..], id, delta, now);
      assert forall i :: 1 <= i < |items| ==> r[i] == UpdateQuantity(items[1..], id, delta, now)[i - 1];
      r
  }

  /** `deleteItem(id)` once confirmed: the items whose id differs, in order. */
  function DeleteItem(items: seq<Item>, id: string): (r: seq<Item>)
    ensures Seqs.Subsequence(r, items)
    ensures forall x :: x in r <==> x in items && x.id != id
    ensures forall x :: multiset(r)[x] == if x.id != id then multiset(items)[x] else 0
    ensures !HasId(items, id) ==> r == items
  {
    var keep := (x: Item) => x.id != id;
    Seqs.FilterSpec(items, keep);
    Seqs.FilterKeepsAll(items, keep);
    Seqs.Filter(items, keep)
  }

  /** `addItem`: the new item goes in front of the existing ones. */
  function AddItem(items: seq<Item>, x: Item): (r: seq<Item>)
    ensures |r| == |items| + 1 && r[0] == x && r[1..] == items
    ensures forall y :: y in r <==> y == x || y in items
  {
    [x] + items
  }

  /** The item the add form submits: the entered fields plus the hidden
      defaults for threshold and cost, and no optional fields. */
  function FormItem(id: string, name: string, sku: string, category: Category, quantity: int,
                    price: int, safetyLevel: SafetyLevel, now: string): (x: Item)
    ensures x.minThreshold == FormThreshold && x.cost == FormCost
    ensures x.id == id && x.quantity == quantity && x.price == price && x.lastUpdated == now
    ensures IsLowStock(x) <==> quantity <= 10
  {
    Item(id, name, sku, category, quantity, FormThreshold, price, FormCost, safetyLevel, now, None, None, None)
  }

  /** An id no item carries makes the adjustment a no-op. */
  lemma UpdateUnknownId(items: seq<Item>, id: string, delta: int, now: string)
    requires !HasId(items, id)
    ensures UpdateQuantity(items, id, delta, now) == items
  {
  }

  /** With unique ids, adjusting the item at position `k` replaces just that
      position with the adjusted item. */
  lemma UpdateUnique(items: seq<Item>, k: int, delta: int, now: string)
    requires UniqueIds(items)
    requires 0 <= k < |items|
    ensures UpdateQuantity(items, items[k].id, delta, now) == items[k := Adjusted(items[k], delta, now)]
  {
  }

  /** Two adjustments of the same item compose into one when the first does
      not hit the clamp; only the later timestamp survives. */
  lemma UpdateCompose(items: seq<Item>, id: string, d1: int, d2: int, t1: string, t2: string)
    requires forall i :: 0 <= i < |items| && items[i].id == id ==> items[i].quantity + d1 >= 0
    ensures UpdateQuantity(UpdateQuantity(items, id, d1, t1), id, d2, t2) == UpdateQuantity(items, id, d1 + d2, t2)
  {
    var a := UpdateQuantity(UpdateQuantity(items, id, d1, t1), id, d2, t2);
    var b := UpdateQuantity(items, id, d1 + d2, t2);
    assert |a| == |b|;
    forall i | 0 <= i < |a| ensures a[i] == b[i] {
    }
  }

  /** Adjusting never introduces negative stock and never touches ids. */
  lemma UpdatePreservesInvariants(items: seq<Item>, id: string, delta: int, now: string)
    ensures AllNonNegative(items) ==> AllNonNegative(UpdateQuantity(items, id, delta, now))
    ensures UniqueIds(items) ==> UniqueIds(UpdateQuantity(items, id, delta, now))
  {
  }

  /** With unique ids, deleting a present id removes exactly its one entry. */
  lemma DeleteUnique(items: seq<Item>, k: int)
    requires UniqueIds(items)
    requires 0 <= k < |items|
    ensures DeleteItem(items, items[k].id) == items[..k] + items[k + 1..]
    ensures |DeleteItem(items, items[k].id)| == |items| - 1
  {
    var id := items[k].id;
    var keep := (x: Item) => x.id != id;
    var pre, post := items[..k], items[k + 1..];
    assert items == pre + ([items[k]] + post);
    assert Seqs.Filter(pre, keep) == pre by {
      assert forall i :: 0 <= i < |pre| ==> keep(pre[i]) by {
        forall i | 0 <= i < |pre| ensures keep(pre[i]) {
          assert pre[i] == items[i];
        }
      }
      Seqs.FilterKeepsAll(pre, keep);
    }
    assert Seqs.Filter(post, keep) == post by {
      assert forall i :: 0 <= i < |post| ==> keep(post[i]) by {
        forall i | 0 <= i < |post| ensures keep(post[i]) {
          assert post[i] == items[k + 1 + i];
        }
      }
      Seqs.FilterKeepsAll(post, keep);
    }
    assert Seqs.Filter([items[k]], keep) == [] by {
      Seqs.FilterDropsAll([items[k]], keep);
    }
    Seqs.FilterAppend(pre, [items[k]] + post, keep);
    Seqs.FilterAppend([items[k]], post, keep);
  }

  /** Deleting keeps stock non-negative and ids unique. */
  lemma DeletePreservesInvariants(items: seq<Item>, id: string)
    ensures AllNonNegative(items) ==> AllNonNegative(DeleteItem(items, id))
    ensures UniqueIds(items) ==> UniqueIds(DeleteItem(items, id))
  {
    var r := DeleteItem(items, id);
    if AllNonNegative(items) {
      forall i | 0 <= i < |r| ensures r[i].quantity >= 0 {
        assert r[i] in r;
      }
    }
    if UniqueIds(items) {
      SubsequenceKeepsUniqueIds(r, items);
    }
  }

  lemma {:induction false} SubsequenceKeepsUniqueIds(a: seq<Item>, b: seq<Item>)
    requires Seqs.Subsequence(a, b)
    requires UniqueIds(b)
    ensures UniqueIds(a)
    decreases |b|
  {
    if |a| > 0 {
      assert |b| > 0;
      if a[0] == b[0] && Seqs.Subsequence(a[1..], b[1..]) {
        SubsequenceKeepsUniqueIds(a[1..], b[1..]);
        Seqs.SubsequenceMembers(a[1..], b[1..]);
        forall j | 0 < j < |a| ensures a[0].id != a[j].id {
          assert a[j] == a[1..][j - 1];
          assert a[j] in b[1..];
          var m :| 0 <= m < |b[1..]| && b[1..][m] == a[j];
          assert b[m + 1] == a[j];
        }
      } else {
        SubsequenceKeepsUniqueIds(a, b[1..]);
      }
    }
  }

  /** Adding grows the list by one with the new item in front and the old
      items after it, unchanged; a fresh id keeps ids unique and a
      non-negative entry keeps stock non-negative. */
  lemma AddShape(items: seq<Item>, x: Item)
    ensures |AddItem(items, x)| == |items| + 1
    ensures AddItem(items, x)[0] == x && AddItem(items, x)[1..] == items
    ensures UniqueIds(items) && !HasId(items, x.id) ==> UniqueIds(AddItem(items, x))
    ensures AllNonNegative(items) && x.quantity >= 0 ==> AllNonNegative(AddItem(items, x))
  {
    var r := AddItem(items, x);
    assert forall i :: 1 <= i < |r| ==> r[i] == items[i - 1];
  }

  /** Deleting the id of a freshly added item undoes the addition. */
  lemma DeleteUndoesAdd(items: seq<Item>, x: Item)
    requires !HasId(items, x.id)
    ensures DeleteItem(AddItem(items, x), x.id) == items
  {
    var keep := (y: Item) => y.id != x.id;
    Seqs.FilterAppend([x], items, keep);
    Seqs.FilterDropsAll([x], keep);
    Seqs.FilterKeepsAll(items, keep);
  }

  /** What each mutation does to the valuation and to the stock total. */
  lemma AddValuation(items: seq<Item>, x: Item)
    ensures Valuation.TotalValue(AddItem(items, x)) == Valuation.TotalValue(items) + x.quantity * x.price
    ensures Valuation.TotalItems(AddItem(items, x)) == Valuation.TotalItems(items) + x.quantity
  {
    Valuation.TotalsPrepend(x, items);
  }

  lemma DeleteValuation(items: seq<Item>, k: int)
    requires UniqueIds(items)
    requires 0 <= k < |items|
    ensures Valuation.TotalValue(DeleteItem(items, items[k].id)) == Valuation.TotalValue(items) - items[k].quantity * items[k].price
    ensures Valuation.TotalItems(DeleteItem(items, items[k].id)) == Valuation.TotalItems(items) - items[k].quantity
  {
    DeleteUnique(items, k);
    Valuation.TotalsRemove(items, k);
  }

  lemma UpdateValuation(items: seq<Item>, k: int, delta: int, now: string)
    requires UniqueIds(items)
    requires 0 <= k < |items|
    ensures var q := Max(0, items[k].quantity + delta);
            && Valuation.TotalItems(UpdateQuantity(items, items[k].id, delta, now))
               == Valuation.TotalItems(items) - items[k].quantity + q
            && Valuation.TotalValue(UpdateQuantity(items, items[k].id, delta, now))
               == Valuation.TotalValue(items) - items[k].quantity * items[k].price + q * items[k].price
  {
    var y := Adjusted(items[k], delta, now);
    assert UpdateQuantity(items, items[k].id, delta, now) == items[k := y] by {
      UpdateUnique(items, k, delta, now);
    }
    Valuation.TotalsReplace(items, k, y);
  }
}
