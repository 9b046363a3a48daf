/** The application shell's state machine: the item list and the history,
    where every mutation of the list is followed by one history sample (the
    effect that runs whenever the list changes). Clock readings arrive with
    each event: `now` stamps `lastUpdated`, `today` is the calendar day. */
module App {
  import opened Inventory
  import Seqs
  import Ledger
  import Valuation
  import History
  import Dashboard
  import InventoryTable

  datatype State = State(items: seq<Item>, history: seq<HistoryPoint>)

  /** The three list mutations the shell offers. */
  datatype Action = Adjust(id: string, delta: int) | Remove(id: string) | Add(item: Item)

  datatype Event = Event(action: Action, now: string, today: string)

  function ApplyAction(items: seq<Item>, a: Action, now: string): seq<Item>
  {
    match a
    case Adjust(id, delta) => Ledger.UpdateQuantity(items, id, delta, now)
    case Remove(id) => Ledger.DeleteItem(items, id)
    case Add(x) => Ledger.AddItem(items, x)
  }

  /** First render: the loaded list is sampled once. */
  function Mount(items: seq<Item>, history: seq<HistoryPoint>, today: string): (s: State)
    ensures s.items == items
    ensures |s.history| > 0 && s.history[|s.history| - 1] == HistoryPoint(today, Valuation.TotalValue(items))
  {
    State(items, History.Sample(items, history, today))
  }

  /** One event: mutate the list, then sample the history. The point recorded
      for today carries the same valuation the dashboard shows. */
  function Dispatch(s: State, e: Event): (t: State)
    ensures t.items == ApplyAction(s.items, e.action, e.now)
    ensures |t.history| > 0
    ensures t.history[|t.history| - 1] == HistoryPoint(e.today, Dashboard.StatsOf(t.items).totalValue)
  {
    var items := ApplyAction(s.items, e.action, e.now);
    State(items, History.Sample(items, s.history, e.today))
  }

  function Run(s: State, events: seq<Event>): State
    decreases |events|
  {
    if |events| == 0 then s else Run(Dispatch(s, events[0]), events[1..])
  }

  /** What the shell keeps true: ids unique, no negative stock, and a
      bounded history with one point per day in date order. */
  ghost predicate Invariant(s: State)
  {
    UniqueIds(s.items) && AllNonNegative(s.items) && History.WellFormed(s.history)
  }

  /** What an event must bring for the invariant to survive it: an added
      item has a fresh id and non-negative stock, and the clock has not gone
      back past the last recorded day. */
  ghost predicate Admissible(s: State, e: Event)
  {
    && (e.action.Add? ==> e.action.item.quantity >= 0 && !HasId(s.items, e.action.item.id))
    && History.NotBeforeLast(s.history, e.today)
  }

  lemma DispatchPreservesInvariant(s: State, e: Event)
    requires Invariant(s)
    requires Admissible(s, e)
    ensures Invariant(Dispatch(s, e))
    ensures History.DistinctDates(Dispatch(s, e).history)
  {
    var items := ApplyAction(s.items, e.action, e.now);
    assert UniqueIds(items) && AllNonNegative(items) by {
      match e.action {
        case Adjust(id, delta) =>
          Ledger.UpdatePreservesInvariants(s.items, id, delta, e.now);
        case Remove(id) =>
          Ledger.DeletePreservesInvariants(s.items, id);
        case Add(x) =>
          Ledger.AddShape(s.items, x);
      }
    }
    History.StepPreservesWellFormed(s.history, e.today, Valuation.TotalValue(items));
  }

  /** Conditions on a whole run, stated on the starting state and the events
      alone: every added item has non-negative stock, an id the starting list
      does not carry and an id no other added item carries (the shell draws
      it from the clock), and the calendar day never goes backwards. */
  ghost predicate WellTimedRun(s: State, events: seq<Event>)
  {
    && (forall i :: 0 <= i < |events| && events[i].action.Add? ==>
          events[i].action.item.quantity >= 0 && !HasId(s.items, events[i].action.item.id))
    && (forall i, j :: 0 <= i < j < |events| && events[i].action.Add? && events[j].action.Add? ==>
          events[i].action.item.id != events[j].action.item.id)
    && (|events| > 0 ==> History.NotBeforeLast(s.history, events[0].today))
    && (forall i :: 0 < i < |events| ==>
          events[i - 1].today == events[i].today || History.Before(events[i - 1].today, events[i].today))
  }

  /** The only id a mutation can introduce is that of an added item. */
  lemma ActionIds(items: seq<Item>, a: Action, now: string, id: string)
    ensures HasId(ApplyAction(items, a, now), id) ==> HasId(items, id) || (a.Add? && a.item.id == id)
  {
    var r := ApplyAction(items, a, now);
    if HasId(r, id) {
      var i :| 0 <= i < |r| && r[i].id == id;
      match a {
        case Adjust(_, _) =>
          assert items[i].id == id;
        case Remove(_) =>
          assert r[i] in r;
          var j :| 0 <= j < |items| && items[j] == r[i];
          assert items[j].id == id;
        case Add(x) =>
          if i > 0 {
            assert items[i - 1].id == id;
          }
      }
    }
  }

  /** After the first event of a well-timed run, the rest of the run is
      well-timed from the state that event leaves. */
  lemma WellTimedTail(s: State, events: seq<Event>)
    requires |events| > 0
    requires WellTimedRun(s, events)
    ensures WellTimedRun(Dispatch(s, events[0]), events[1..])
  {
    var t := Dispatch(s, events[0]);
    var rest := events[1..];
    forall i | 0 <= i < |rest| && rest[i].action.Add?
      ensures rest[i].action.item.quantity >= 0 && !HasId(t.items, rest[i].action.item.id)
    {
      assert rest[i] == events[i + 1];
      ActionIds(s.items, events[0].action, events[0].now, rest[i].action.item.id);
    }
    forall i, j | 0 <= i < j < |rest| && rest[i].action.Add? && rest[j].action.Add?
      ensures rest[i].action.item.id != rest[j].action.item.id
    {
      assert rest[i] == events[i + 1] && rest[j] == events[j + 1];
    }
    forall i | 0 < i < |rest|
      ensures rest[i - 1].today == rest[i].today || History.Before(rest[i - 1].today, rest[i].today)
    {
      assert rest[i - 1] == events[i] && rest[i] == events[i + 1];
    }
    if |rest| > 0 {
      assert rest[0] == events[1];
    }
  }

  /** Over any well-timed run, stock never goes negative, ids stay unique,
      the history stays within thirty points and never holds two points for
      one day. */
  lemma {:induction false} RunPreservesInvariant(s: State, events: seq<Event>)
    requires Invariant(s)
    requires WellTimedRun(s, events)
    ensures Invariant(Run(s, events))
    ensures |Run(s, events).history| <= History.MaxPoints
    ensures History.DistinctDates(Run(s, events).history)
    decreases |events|
  {
    if |events| == 0 {
      History.IncreasingDatesAreDistinct(s.history);
    } else {
      DispatchPreservesInvariant(s, events[0]);
      WellTimedTail(s, events);
      RunPreservesInvariant(Dispatch(s, events[0]), events[1..]);
    }
  }

  /** Without a search or category filter, the number of cards wearing the
      low-stock badge is the dashboard's low-stock count. */
  lemma BadgesMatchLowStockCount(items: seq<Item>)
    ensures |Seqs.Filter(InventoryTable.FilteredItems(items, "", InventoryTable.AllCategories), InventoryTable.ShowsLowStockBadge)|
            == Dashboard.LowStockCount(items)
  {
    Seqs.FilterCongruent(items, InventoryTable.ShowsLowStockBadge, IsLowStock);
  }
}
