/** The three-item demonstration list the application starts from when
    nothing is stored, with prices in cents, and worked examples over it. */
module Seed {
  import opened Inventory
  import Ledger
  import Valuation
  import History
  import Dashboard
  import InventoryTable
  import Text

  function CakeItem(now: string): Item
  {
    Item("1", "锦绣中华 100发", "FW-CK-001", Cakes, 15, 5, 38800, 22000, High, now,
         Some("大型组合烟花，适合庆典活动"), None, None)
  }

  function SparklerItem(now: string): Item
  {
    Item("2", "仙女棒", "FW-SP-012", Sparklers, 200, 50, 500, 150, Low, now,
         Some("儿童及拍照必备，网红产品"), None, None)
  }

  function FirecrackerItem(now: string): Item
  {
    Item("3", "大地红 5000响", "FW-FC-005", Firecrackers, 4, 10, 12000, 7500, Medium, now,
         Some("传统红炮，声响巨大"), None, None)
  }

  function InitialItems(now: string): seq<Item>
  {
    [CakeItem(now), SparklerItem(now), FirecrackerItem(now)]
  }

  /** The demonstration list is a valid ledger: ids unique, stock non-negative. */
  lemma SeedIsValid(now: string)
    ensures UniqueIds(InitialItems(now)) && AllNonNegative(InitialItems(now))
  {
  }

  /** On the demonstration list only the firecrackers (4 in stock, threshold
      10) are low; 219 units are in stock, worth 7300.00 yuan. */
  lemma SeedStats(now: string)
    ensures Dashboard.LowStockCount(InitialItems(now)) == 1
    ensures Valuation.TotalItems(InitialItems(now)) == 219
    ensures Valuation.TotalValue(InitialItems(now)) == 730000
  {
    var s := InitialItems(now);
    assert Dashboard.LowStockPositions(s) == {2} by {
      forall i: nat | i < 3 ensures IsLowStock(s[i]) <==> i == 2 {}
    }
    assert s == [s[0]] + ([s[1]] + [s[2]]);
    assert [s[2]] == [s[2]] + [];
    Valuation.TotalsPrepend(s[2], []);
    Valuation.TotalsPrepend(s[1], [s[2]]);
    Valuation.TotalsPrepend(s[0], [s[1]] + [s[2]]);
  }

  /** The category chart of the demonstration list has one slice per
      category present, in order of first appearance. */
  lemma SeedDistribution(now: string)
    ensures Dashboard.Distribution(InitialItems(now))
            == [Dashboard.Entry(Cakes, 15), Dashboard.Entry(Sparklers, 200), Dashboard.Entry(Firecrackers, 4)]
  {
    var s := InitialItems(now);
    assert s[..1] == [s[0]];
    assert s[..1][..0] == [];
    assert Dashboard.Distribution(s[..1]) == [Dashboard.Entry(Cakes, 15)];
    assert s[..2][..1] == s[..1];
    var d1 := [Dashboard.Entry(Cakes, 15)];
    assert d1[1..] == [];
    assert Dashboard.Bump(d1, Sparklers, 200) == [Dashboard.Entry(Cakes, 15), Dashboard.Entry(Sparklers, 200)];
    var d2 := [Dashboard.Entry(Cakes, 15), Dashboard.Entry(Sparklers, 200)];
    assert d2[1..] == [Dashboard.Entry(Sparklers, 200)];
    assert d2[1..][1..] == [];
    assert Dashboard.Bump(d2, Firecrackers, 4) == d2 + [Dashboard.Entry(Firecrackers, 4)];
    assert Dashboard.Distribution(s[..2]) == [Dashboard.Entry(Cakes, 15), Dashboard.Entry(Sparklers, 200)];
    assert s[..3] == s;
  }

  /** A single firecracker item (4 in stock, threshold 10, 120 yuan) is low;
      ten more make 14, no longer low, worth 1680.00 yuan, and the first
      sample of the day records that value. */
  lemma RestockScenario(now: string, later: string, today: string)
    ensures Dashboard.LowStockCount([FirecrackerItem(now)]) == 1
    ensures var after := Ledger.UpdateQuantity([FirecrackerItem(now)], "3", 10, later);
            && after[0].quantity == 14
            && Dashboard.LowStockCount(after) == 0
            && Valuation.TotalValue(after) == 168000
            && History.Sample(after, [], today) == [HistoryPoint(today, 168000)]
  {
    var before := [FirecrackerItem(now)];
    assert Dashboard.LowStockPositions(before) == {0} by {
      forall i: nat | i < 1 ensures IsLowStock(before[i]) {}
    }
    var after := Ledger.UpdateQuantity(before, "3", 10, later);
    assert after[0].quantity == 14;
    assert Dashboard.LowStockPositions(after) == {};
    assert after == [after[0]] + [];
    Valuation.TotalsPrepend(after[0], []);
  }

  /** Any item whose SKU starts with "FW-" is a hit for the lower-case query "fw-". */
  lemma SkuPrefixHit(x: Item)
    requires |x.sku| >= 3 && x.sku[..3] == "FW-"
    ensures InventoryTable.SearchHit(x, "fw-")
  {
    var lowered := Text.Lower(x.sku);
    assert lowered[0] == 'f' && lowered[1] == 'w' && lowered[2] == '-' by {
      assert x.sku[0] == 'F' && x.sku[1] == 'W' && x.sku[2] == '-';
    }
    assert Text.Lower("fw-") == "fw-";
    assert lowered[0..3] == "fw-";
    assert Text.OccursAt("fw-", lowered, 0);
  }

  /** The search is case-insensitive: the lower-case query "fw-" finds every
      upper-case SKU of the list. */
  lemma SeedSkuSearch(now: string)
    ensures InventoryTable.FilteredItems(InitialItems(now), "fw-", InventoryTable.AllCategories) == InitialItems(now)
  {
    var s := InitialItems(now);
    forall i | 0 <= i < |s| ensures InventoryTable.SearchHit(s[i], "fw-") {
      SkuPrefixHit(s[i]);
    }
  }

  /** The firecracker chip with an empty search shows only the firecrackers. */
  lemma SeedCategoryChip(now: string)
    ensures InventoryTable.FilteredItems(InitialItems(now), "", InventoryTable.OnlyCategory(Firecrackers)) == [FirecrackerItem(now)]
  {
    var s := InitialItems(now);
    var r := InventoryTable.FilteredItems(s, "", InventoryTable.OnlyCategory(Firecrackers));
    assert Text.Lower("") == "";
    assert Text.OccursAt("", Text.Lower(s[2].name), 0);
    assert InventoryTable.SearchHit(s[2], "");
    assert forall x :: x in r ==> x == s[2];
    assert multiset(s)[s[2]] == 1;
    assert multiset(r) == multiset{s[2]} by {
      forall x ensures multiset(r)[x] == multiset{s[2]}[x] {
        if x != s[2] {
          assert x !in r;
        }
      }
    }
    assert |r| == |multiset(r)| == 1;
    assert r[0] in multiset(r);
  }
}
