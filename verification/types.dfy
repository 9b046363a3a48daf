/** The records of the fireworks inventory: stock items, their category and
    hazard class, and the daily valuation points of the history chart.

    Money (price, cost, wholesale price, valuations) is kept in integer cents;
    the application itself stores floating-point yuan. */
module Inventory {

  datatype Option<T> = None | Some(value: T)

  /** The eight product categories. The application keys the dashboard's
      category distribution by the category's display label (see `Label`). */
  datatype Category =
    | Cakes
    | Sparklers
    | Rockets
    | Fountains
    | Firecrackers
    | RomanCandles
    | Novelties
    | Others

  /** The display label each category carries as its enum value. */
  function Label(c: Category): string
  {
    match c
    case Cakes => "大型礼花弹"
    case Sparklers => "手持烟花"
    case Rockets => "火箭升空"
    case Fountains => "喷花类"
    case Firecrackers => "鞭炮类"
    case RomanCandles => "罗马烛光"
    case Novelties => "玩具类"
    case Others => "其他"
  }

  /** Distinct categories carry distinct labels, so keying the distribution by
      label and keying it by category give the same grouping. */
  lemma LabelInjective(c: Category, d: Category)
    ensures Label(c) == Label(d) ==> c == d
  {
  }

  datatype SafetyLevel = Low | Medium | High

  /** One stock-keeping unit. `quantity` and `minThreshold` are unbounded
      integers: nothing in the add form rules out a negative entry. */
  datatype Item = Item(
    id: string,
    name: string,
    sku: string,
    category: Category,
    quantity: int,
    minThreshold: int,
    price: int,
    cost: int,
    safetyLevel: SafetyLevel,
    lastUpdated: string,
    description: Option<string>,
    wholesalePrice: Option<int>,
    imageUrl: Option<string>
  )

  /** One point of the valuation trend: a calendar day and the total
      valuation recorded for it. */
  datatype HistoryPoint = HistoryPoint(date: string, value: int)

  /** The low-stock condition shared by the item card and the dashboard:
      stock at or below the reorder threshold. */
  predicate IsLowStock(x: Item)
  {
    x.quantity <= x.minThreshold
  }

  function QuantityOf(x: Item): int
  {
    x.quantity
  }

  function Max(a: int, b: int): int
  {
    if a >= b then a else b
  }

  /** No two items share an id. */
  ghost predicate UniqueIds(items: seq<Item>)
  {
    forall i, j :: 0 <= i < j < |items| ==> items[i].id != items[j].id
  }

  /** Every item's stock is non-negative. */
  ghost predicate AllNonNegative(items: seq<Item>)
  {
    forall i :: 0 <= i < |items| ==> items[i].quantity >= 0
  }

  ghost predicate HasId(items: seq<Item>, id: string)
  {
    exists i :: 0 <= i < |items| && items[i].id == id
  }
}
