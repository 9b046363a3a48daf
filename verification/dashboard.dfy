/** The dashboard's statistics over the item list: total stock, total
    valuation, the number of low-stock items, and stock per category. */
module Dashboard {
  import opened Inventory
  import Seqs
  import Valuation

  /** One slice of the category chart: a category and the stock summed over it. */
  datatype Entry = Entry(category: Category, value: int)

  datatype Stats = Stats(totalItems: int, totalValue: int, lowStockCount: nat, categoryDistribution: seq<Entry>)

  // ---- low stock -------------------------------------------------------

  /** Positions of the items at or below their threshold. */
  ghost function LowStockPositions(items: seq<Item>): set<nat>
  {
    set i: nat | i < |items| && IsLowStock(items[i])
  }

  /** `items.filter(low).length`: how many items are at or below threshold. */
  function LowStockCount(items: seq<Item>): (n: nat)
    ensures n <= |items|
    ensures n == |LowStockPositions(items)|
  {
    LowStockCountIsPositions(items);
    Seqs.FilterSpec(items, IsLowStock);
    |Seqs.Filter(items, IsLowStock)|
  }

  /** The positions of a list one longer are the old ones plus, possibly, the new last one. */
  lemma PositionsSnoc(items: seq<Item>)
    requires |items| > 0
    ensures var n := |items| - 1;
            LowStockPositions(items) == LowStockPositions(items[..n]) + (if IsLowStock(items[n]) then {n} else {})
  {
    var n := |items| - 1;
    var extra: set<nat> := if IsLowStock(items[n]) then {n} else {};
    forall i: nat ensures i in LowStockPositions(items) <==> i in LowStockPositions(items[..n]) + extra {
      if i < n {
        assert items[..n][i] == items[i];
      }
    }
  }

  lemma {:induction false} LowStockCountIsPositions(items: seq<Item>)
    ensures |Seqs.Filter(items, IsLowStock)| == |LowStockPositions(items)|
    decreases |items|
  {
    if |items| > 0 {
      var n := |items| - 1;
      var init := items[..n];
      LowStockCountIsPositions(init);
      assert items == init + [items[n]];
      Seqs.FilterAppend(init, [items[n]], IsLowStock);
      PositionsSnoc(items);
      if IsLowStock(items[n]) {
        Seqs.FilterKeepsAll([items[n]], IsLowStock);
        assert n !in LowStockPositions(init);
      } else {
        Seqs.FilterDropsAll([items[n]], IsLowStock);
      }
    }
  }

  // ---- category distribution ------------------------------------------

  /** The first entry's value for `c`, or 0 when `c` has no entry. */
  function Lookup(d: seq<Entry>, c: Category): int
  {
    if |d| == 0 then 0 else if d[0].category == c then d[0].value else Lookup(d[1..], c)
  }

  function Keys(d: seq<Entry>): set<Category>
  {
    set e | e in d :: e.category
  }

  ghost predicate NoDuplicateKeys(d: seq<Entry>)
  {
    forall i, j :: 0 <= i < j < |d| ==> d[i].category != d[j].category
  }

  function EntrySum(d: seq<Entry>): int
  {
    if |d| == 0 then 0 else d[0].value + EntrySum(d[1..])
  }

  /** One reduce step: add `q` to `c`'s entry, creating it at the end when absent. */
  function Bump(d: seq<Entry>, c: Category, q: int): seq<Entry>
  {
    if |d| == 0 then [Entry(c, q)]
    else if d[0].category == c then [Entry(c, d[0].value + q)] + d[1..]
    else [d[0]] + Bump(d[1..], c, q)
  }

  lemma KeysCons(e: Entry, d: seq<Entry>)
    ensures Keys([e] + d) == {e.category} + Keys(d)
  {
    var r := [e] + d;
    forall c ensures c in Keys(r) <==> c in {e.category} + Keys(d) {
      if c in Keys(r) {
        var x :| x in r && x.category == c;
      }
      if c in Keys(d) {
        var x :| x in d && x.category == c;
        assert x in r;
      }
    }
  }

  /** A reduce step adds `c` to the keys. */
  lemma {:induction false} BumpKeys(d: seq<Entry>, c: Category, q: int)
    ensures Keys(Bump(d, c, q)) == Keys(d) + {c}
  {
    if |d| == 0 {
      KeysCons(Entry(c, q), []);
    } else {
      assert d == [d[0]] + d[1..];
      KeysCons(d[0], d[1..]);
      if d[0].category == c {
        KeysCons(Entry(c, d[0].value + q), d[1..]);
      } else {
        BumpKeys(d[1..], c, q);
        KeysCons(d[0], Bump(d[1..], c, q));
      }
    }
  }

  /** A reduce step adds `q` to `c`'s value and leaves every other category's value alone. */
  lemma {:induction false} BumpLookup(d: seq<Entry>, c: Category, q: int, c': Category)
    ensures Lookup(Bump(d, c, q), c') == Lookup(d, c') + (if c' == c then q else 0)
  {
    if |d| > 0 && d[0].category != c {
      BumpLookup(d[1..], c, q, c');
      assert Bump(d, c, q)[1..] == Bump(d[1..], c, q);
    } else if |d| > 0 {
      assert Bump(d, c, q)[1..] == d[1..];
    }
  }

  /** A reduce step adds `q` to the sum of all values. */
  lemma {:induction false} BumpSum(d: seq<Entry>, c: Category, q: int)
    ensures EntrySum(Bump(d, c, q)) == EntrySum(d) + q
  {
    if |d| > 0 && d[0].category != c {
      BumpSum(d[1..], c, q);
      assert Bump(d, c, q)[1..] == Bump(d[1..], c, q);
    } else if |d| > 0 {
      assert Bump(d, c, q)[1..] == d[1..];
    } else {
      assert Bump(d, c, q)[1..] == [];
    }
  }

  /** A reduce step never creates a second entry for a category. */
  lemma {:induction false} BumpUnique(d: seq<Entry>, c: Category, q: int)
    requires NoDuplicateKeys(d)
    ensures NoDuplicateKeys(Bump(d, c, q))
  {
    var r := Bump(d, c, q);
    if |d| > 0 && d[0].category == c {
      forall i, j | 0 <= i < j < |r| ensures r[i].category != r[j].category {
        assert r[j] == d[j];
        if i > 0 { assert r[i] == d[i]; }
      }
    } else if |d| > 0 {
      var rest := Bump(d[1..], c, q);
      assert NoDuplicateKeys(d[1..]) by {
        forall i, j | 0 <= i < j < |d[1..]| ensures d[1..][i].category != d[1..][j].category {
          assert d[1..][i] == d[i + 1] && d[1..][j] == d[j + 1];
        }
      }
      BumpUnique(d[1..], c, q);
      BumpKeys(d[1..], c, q);
      assert d[0].category !in Keys(d[1..]) by {
        forall e | e in d[1..] ensures e.category != d[0].category {
          var m :| 0 <= m < |d[1..]| && d[1..][m] == e;
          assert d[m + 1] == e;
        }
      }
      assert r == [d[0]] + rest;
      forall i, j | 0 <= i < j < |r| ensures r[i].category != r[j].category {
        assert r[j] == rest[j - 1];
        assert rest[j - 1] in rest;
        assert rest[j - 1].category in Keys(rest);
        if i > 0 {
          assert r[i] == rest[i - 1];
        }
      }
    }
  }

  /** Stock of category `c`, summed over the list. */
  function CategoryTotal(items: seq<Item>, c: Category): int
  {
    Seqs.Sum(items, (x: Item) => if x.category == c then x.quantity else 0)
  }

  lemma CategoryTotalSnoc(items: seq<Item>, c: Category)
    requires |items| > 0
    ensures var n := |items| - 1;
            CategoryTotal(items, c) == CategoryTotal(items[..n], c) + (if items[n].category == c then items[n].quantity else 0)
  {
  }

  /** The categories that occur in the list. */
  function CategoriesOf(items: seq<Item>): set<Category>
  {
    set x | x in items :: x.category
  }

  /** The reduce into a per-category record followed by `Object.entries`:
      one entry per category present, in order of first appearance. */
  function Distribution(items: seq<Item>): (d: seq<Entry>)
    ensures NoDuplicateKeys(d)
    ensures Keys(d) == CategoriesOf(items)
    ensures forall c :: Lookup(d, c) == CategoryTotal(items, c)
    ensures EntrySum(d) == Valuation.TotalItems(items)
  {
    if |items| == 0 then []
    else
      var n := |items| - 1;
      var x := items[n];
      assert items == items[..n] + [x];
      assert CategoriesOf(items) == CategoriesOf(items[..n]) + {x.category};
      var prev := Distribution(items[..n]);
      BumpKeys(prev, x.category, x.quantity);
      BumpUnique(prev, x.category, x.quantity);
      BumpSum(prev, x.category, x.quantity);
      forall c ensures Lookup(Bump(prev, x.category, x.quantity), c) == CategoryTotal(items, c) {
        BumpLookup(prev, x.category, x.quantity, c);
        CategoryTotalSnoc(items, c);
      }
      Valuation.TotalsAppend(items[..n], [x]);
      Valuation.TotalsPrepend(x, []);
      Bump(prev, x.category, x.quantity)
  }

  /** Reading an entry through the list agrees with `Lookup` when keys are unique. */
  lemma {:induction false} LookupFindsEntry(d: seq<Entry>, i: int)
    requires NoDuplicateKeys(d)
    requires 0 <= i < |d|
    ensures Lookup(d, d[i].category) == d[i].value
  {
    if i > 0 {
      assert d[1..][i - 1] == d[i];
      LookupFindsEntry(d[1..], i - 1);
    }
  }

  /** Every entry of the distribution carries its category's summed stock,
      and the entries together account for all stock. */
  lemma DistributionEntries(items: seq<Item>)
    ensures forall i :: 0 <= i < |Distribution(items)| ==>
              Distribution(items)[i].value == CategoryTotal(items, Distribution(items)[i].category)
    ensures forall c :: c in CategoriesOf(items) <==> exists i :: 0 <= i < |Distribution(items)| && Distribution(items)[i].category == c
    ensures EntrySum(Distribution(items)) == Valuation.TotalItems(items)
  {
    var d := Distribution(items);
    forall i | 0 <= i < |d| ensures d[i].value == CategoryTotal(items, d[i].category) {
      LookupFindsEntry(d, i);
    }
    forall c ensures c in CategoriesOf(items) <==> exists i :: 0 <= i < |d| && d[i].category == c {
      if c in Keys(d) {
        var e :| e in d && e.category == c;
        var i :| 0 <= i < |d| && d[i] == e;
      }
    }
  }

  // ---- the statistics record -------------------------------------------

  /** The `useMemo` record. Its parts agree with one another: the
      distribution's slices add up to the stock total, one slice per category
      present, and no more items are low than there are items. */
  function StatsOf(items: seq<Item>): (s: Stats)
    ensures s.lowStockCount <= |items|
    ensures EntrySum(s.categoryDistribution) == s.totalItems
    ensures NoDuplicateKeys(s.categoryDistribution) && Keys(s.categoryDistribution) == CategoriesOf(items)
  {
    Stats(Valuation.TotalItems(items), Valuation.TotalValue(items), LowStockCount(items), Distribution(items))
  }

  lemma LowStockCountStep(items: seq<Item>, i: int)
    requires 0 <= i < |items|
    ensures LowStockCount(items[..i + 1]) == LowStockCount(items[..i]) + (if IsLowStock(items[i]) then 1 else 0)
  {
    assert items[..i + 1] == items[..i] + [items[i]];
    Seqs.FilterAppend(items[..i], [items[i]], IsLowStock);
    Seqs.FilterKeepsAll([items[i]], IsLowStock);
    Seqs.FilterDropsAll([items[i]], IsLowStock);
  }

  /** The `useMemo` computation: one pass over the list per statistic, as the
      reduces and the filter do, folded into one loop. */
  method ComputeStats(items: seq<Item>) returns (s: Stats)
    ensures s == StatsOf(items)
  {
    var totalItems := 0;
    var totalValue := 0;
    var low: nat := 0;
    var dist: seq<Entry> := [];
    var i := 0;
    while i < |items|
      invariant 0 <= i <= |items|
      invariant totalItems == Valuation.TotalItems(items[..i])
      invariant totalValue == Valuation.TotalValue(items[..i])
      invariant low == LowStockCount(items[..i])
      invariant dist == Distribution(items[..i])
    {
      var x := items[i];
      assert items[..i + 1][..i] == items[..i];
      LowStockCountStep(items, i);
      totalItems := totalItems + x.quantity;
      totalValue := totalValue + x.quantity * x.price;
      if x.quantity <= x.minThreshold {
        low := low + 1;
      }
      dist := Bump(dist, x.category, x.quantity);
      i := i + 1;
    }
    assert items[..i] == items;
    s := Stats(totalItems, totalValue, low, dist);
  }
}
