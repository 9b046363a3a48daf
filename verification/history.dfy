/** The valuation history sampler: after every change to the item list the
    application records today's total valuation, overwriting today's point
    when it already exists and otherwise appending a point and keeping only
    the most recent thirty. "Today" is a parameter (a YYYY-MM-DD string). */
module History {
  import opened Inventory
  import Valuation

  /** How many points the trend keeps. */
  const MaxPoints: nat := 30

  function Min(a: int, b: int): int
  {
    if a <= b then a else b
  }

  /** One sampling step with the freshly computed `value`. */
  function Step(prev: seq<HistoryPoint>, today: string, value: int): (r: seq<HistoryPoint>)
    ensures |r| > 0 && r[|r| - 1] == HistoryPoint(today, value)
    ensures |prev| > 0 && prev[|prev| - 1] == HistoryPoint(today, value) ==> r == prev
    ensures |prev| > 0 && prev[|prev| - 1].date == today ==>
              |r| == |prev| && r[..|r| - 1] == prev[..|prev| - 1]
    ensures (|prev| == 0 || prev[|prev| - 1].date != today) ==>
              |r| == Min(|prev| + 1, MaxPoints) && r[..|r| - 1] == prev[|prev| - (|r| - 1)..]
    ensures |prev| <= MaxPoints ==> |r| <= MaxPoints
  {
    var point := HistoryPoint(today, value);
    if |prev| > 0 && prev[|prev| - 1].date == today then
      if prev[|prev| - 1].value == value then prev
      else prev[|prev| - 1 := point]
    else
      var next := prev + [point];
      if |next| > MaxPoints then next[|next| - MaxPoints..] else next
  }

  /** The sampler as the application runs it: today's point takes the list's
      total valuation. */
  function Sample(items: seq<Item>, prev: seq<HistoryPoint>, today: string): (r: seq<HistoryPoint>)
    ensures |r| > 0 && r[|r| - 1] == HistoryPoint(today, Valuation.TotalValue(items))
  {
    Step(prev, today, Valuation.TotalValue(items))
  }

  /** Sampling twice on the same day with values v1 then v2 leaves the same
      history as sampling once with v2: the later value overwrites. */
  lemma SameDayLastWins(h: seq<HistoryPoint>, today: string, v1: int, v2: int)
    ensures Step(Step(h, today, v1), today, v2) == Step(h, today, v2)
  {
    var h1 := Step(h, today, v1);
    var a := Step(h1, today, v2);
    var b := Step(h, today, v2);
    assert |a| == |b|;
    assert a[..|a| - 1] == b[..|b| - 1];
    assert a == a[..|a| - 1] + [a[|a| - 1]];
    assert b == b[..|b| - 1] + [b[|b| - 1]];
  }

  /** Per-day idempotence: recomputing with an unchanged item list on the
      same day changes nothing. */
  lemma SampleIdempotent(items: seq<Item>, h: seq<HistoryPoint>, today: string)
    ensures Sample(items, Sample(items, h, today), today) == Sample(items, h, today)
  {
  }

  /** Lexicographic order on strings; on zero-padded YYYY-MM-DD dates it is
      the calendar order. */
  predicate Before(a: string, b: string)
  {
    if |a| == 0 then |b| > 0
    else if |b| == 0 then false
    else if a[0] != b[0] then a[0] < b[0]
    else Before(a[1..], b[1..])
  }

  lemma {:induction false} BeforeIrreflexive(a: string)
    ensures !Before(a, a)
  {
    if |a| > 0 {
      BeforeIrreflexive(a[1..]);
    }
  }

  lemma {:induction false} BeforeTransitive(a: string, b: string, c: string)
    requires Before(a, b) && Before(b, c)
    ensures Before(a, c)
  {
    if |a| > 0 && a[0] == b[0] && b[0] == c[0] {
      BeforeTransitive(a[1..], b[1..], c[1..]);
    }
  }

  /** Dates strictly increase along the history. */
  ghost predicate IncreasingDates(h: seq<HistoryPoint>)
  {
    forall i, j :: 0 <= i < j < |h| ==> Before(h[i].date, h[j].date)
  }

  /** No calendar day has two points. */
  ghost predicate DistinctDates(h: seq<HistoryPoint>)
  {
    forall i, j :: 0 <= i < j < |h| ==> h[i].date != h[j].date
  }

  lemma IncreasingDatesAreDistinct(h: seq<HistoryPoint>)
    requires IncreasingDates(h)
    ensures DistinctDates(h)
  {
    forall i, j | 0 <= i < j < |h| ensures h[i].date != h[j].date {
      BeforeIrreflexive(h[i].date);
    }
  }

  /** The clock does not run backwards: `today` is the last recorded day or later. */
  ghost predicate NotBeforeLast(h: seq<HistoryPoint>, today: string)
  {
    |h| == 0 || h[|h| - 1].date == today || Before(h[|h| - 1].date, today)
  }

  /** The history's standing invariant: bounded by the window and one point per day, in order. */
  ghost predicate WellFormed(h: seq<HistoryPoint>)
  {
    |h| <= MaxPoints && IncreasingDates(h)
  }

  /** A step taken no earlier than the last recorded day keeps the history
      bounded, in date order and free of duplicate days. */
  lemma StepPreservesWellFormed(h: seq<HistoryPoint>, today: string, value: int)
    requires WellFormed(h)
    requires NotBeforeLast(h, today)
    ensures WellFormed(Step(h, today, value))
    ensures DistinctDates(Step(h, today, value))
  {
    var r := Step(h, today, value);
    if |h| > 0 && h[|h| - 1].date == today {
      forall i, j | 0 <= i < j < |r| ensures Before(r[i].date, r[j].date) {
        assert r[i].date == h[i].date;
        assert r[j].date == h[j].date;
      }
    } else {
      var next := h + [HistoryPoint(today, value)];
      assert IncreasingDates(next) by {
        forall i, j | 0 <= i < j < |next| ensures Before(next[i].date, next[j].date) {
          if j == |h| {
            if i < |h| - 1 {
              BeforeTransitive(h[i].date, h[|h| - 1].date, today);
            }
          }
        }
      }
      var start := |next| - |r|;
      assert r == next[start..];
      forall i, j | 0 <= i < j < |r| ensures Before(r[i].date, r[j].date) {
        assert r[i] == next[start + i] && r[j] == next[start + j];
      }
    }
    IncreasingDatesAreDistinct(r);
  }
}
