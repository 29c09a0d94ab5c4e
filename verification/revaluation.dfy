/** The split of the window into the last 24 months, kept as they are, and
    the older months, revalued by the month's index (`añadir_periodo` and
    `revalorizar_bases`). */
module Revaluation {
  import opened Wrappers
  import opened Money
  import opened Records
  import opened Sorting

  /** How many months before retirement are not revalued. */
  const NonRevaluedMonths: int := 24

  /** "revalorizado" / "no_revalorizado". */
  datatype Period = Revalued | NonRevalued

  /** A window record with its period; a revalued one also carries the amount
      before revaluation (`base_original`) and the index applied
      (`indice_revalorizacion`). */
  datatype Item = Item(record: Record<int>, period: Period, original: Option<Cents>, index: Option<real>)

  /** A month from 24 months before retirement on is not revalued. */
  function PeriodOf(month: int, retirement: int): Period
  {
    if month >= retirement - NonRevaluedMonths then NonRevalued else Revalued
  }

  /** The window records with their periods, in order. */
  function Classified(w: seq<Record<int>>, retirement: int): seq<Item>
  {
    if w == [] then []
    else
      var last := w[|w| - 1];
      Classified(w[..|w| - 1], retirement) + [Item(last, PeriodOf(last.month, retirement), None, None)]
  }

  /** One item revalued: an older month with an index gets its amount
      multiplied by the index and rounded, one without an index keeps its
      amount under index 1.0, and a recent month is left as it is. */
  function RevalueItem(it: Item, indices: map<int, real>): Item
  {
    match it.period
    case NonRevalued => it
    case Revalued =>
      if it.record.month in indices then
        var index := indices[it.record.month];
        Item(it.record.(base := Scale(it.record.base, index)), Revalued, Some(it.record.base), Some(index))
      else
        Item(it.record, Revalued, Some(it.record.base), Some(1.0))
  }

  /** Every item revalued, in order. */
  function RevaluedAll(items: seq<Item>, indices: map<int, real>): seq<Item>
  {
    if items == [] then []
    else RevaluedAll(items[..|items| - 1], indices) + [RevalueItem(items[|items| - 1], indices)]
  }

  /** Sort key of the re-sort after revaluation: most recent first. */
  function NegItemMonth(it: Item): int
  {
    -it.record.month
  }

  /** How many items have period `p`. */
  function CountPeriod(items: seq<Item>, p: Period): nat
  {
    if items == [] then 0 else CountPeriod(items[..|items| - 1], p) + (if items[|items| - 1].period == p then 1 else 0)
  }

  /** The sum of the amounts of the items with period `p`. */
  function SumPeriod(items: seq<Item>, p: Period): int
  {
    if items == [] then 0 else SumPeriod(items[..|items| - 1], p) + (if items[|items| - 1].period == p then items[|items| - 1].record.base else 0)
  }

  /** The sum of all the amounts. */
  function SumAll(items: seq<Item>): int
  {
    if items == [] then 0 else SumAll(items[..|items| - 1]) + items[|items| - 1].record.base
  }

  /** Every item is of one of the two periods: the counts add up to the
      number of items and the two sums to the sum of all amounts. */
  lemma {:induction false} PeriodsPartition(items: seq<Item>)
    ensures CountPeriod(items, Revalued) + CountPeriod(items, NonRevalued) == |items|
    ensures SumPeriod(items, Revalued) + SumPeriod(items, NonRevalued) == SumAll(items)
  {
    if items != [] {
      PeriodsPartition(items[..|items| - 1]);
    }
  }

  lemma {:induction false} ClassifiedShape(w: seq<Record<int>>, retirement: int)
    ensures var r := Classified(w, retirement);
      && |r| == |w|
      && forall k :: 0 <= k < |w| ==> r[k] == Item(w[k], PeriodOf(w[k].month, retirement), None, None)
  {
    if w != [] {
      ClassifiedShape(w[..|w| - 1], retirement);
    }
  }

  lemma {:induction false} RevaluedAllShape(items: seq<Item>, indices: map<int, real>)
    ensures var r := RevaluedAll(items, indices);
      && |r| == |items|
      && forall k :: 0 <= k < |items| ==> r[k] == RevalueItem(items[k], indices)
  {
    if items != [] {
      RevaluedAllShape(items[..|items| - 1], indices);
    }
  }

  /** In a window that runs back month by month from the month before
      retirement, exactly the first 24 records (or all of them, if fewer) are
      not revalued, and classifying changes no record. */
  lemma {:induction false} ClassifiedWindow(w: seq<Record<int>>, retirement: int)
    requires forall k :: 0 <= k < |w| ==> w[k].month == retirement - 1 - k
    ensures var r := Classified(w, retirement);
      && |r| == |w|
      && (forall k :: 0 <= k < |r| ==> r[k].record == w[k])
      && (forall k :: 0 <= k < |r| ==> (r[k].period == NonRevalued <==> k < NonRevaluedMonths))
      && CountPeriod(r, NonRevalued) == (if |w| < NonRevaluedMonths then |w| else NonRevaluedMonths)
  {
    ClassifiedShape(w, retirement);
    ClassifiedCount(w, retirement, |w|);
    assert w[..|w|] == w;
  }

  lemma {:induction false} ClassifiedCount(w: seq<Record<int>>, retirement: int, n: nat)
    requires n <= |w|
    requires forall k :: 0 <= k < |w| ==> w[k].month == retirement - 1 - k
    ensures CountPeriod(Classified(w[..n], retirement), NonRevalued) == (if n < NonRevaluedMonths then n else NonRevaluedMonths)
  {
    if n > 0 {
      ClassifiedCount(w, retirement, n - 1);
      assert w[..n][..n - 1] == w[..n - 1];
    }
  }

  /** Revaluation keeps the number and order of the items, their months,
      periods, employers, regimes and metadata; it leaves recent months alone;
      an older month takes the rounded product of its amount and its index,
      or keeps its amount under index 1.0 when the month has no index, and
      remembers the amount it had. */
  lemma {:induction false} RevaluedAllEffect(items: seq<Item>, indices: map<int, real>)
    ensures var r := RevaluedAll(items, indices);
      && |r| == |items|
      && (forall k :: 0 <= k < |r| ==>
            && r[k].period == items[k].period
            && r[k].record == items[k].record.(base := r[k].record.base))
      && (forall k :: 0 <= k < |r| && items[k].period == NonRevalued ==> r[k] == items[k])
      && (forall k :: 0 <= k < |r| && items[k].period == Revalued ==>
            && r[k].original == Some(items[k].record.base)
            && (items[k].record.month in indices ==>
                  r[k].index == Some(indices[items[k].record.month])
                  && r[k].record.base == Scale(items[k].record.base, indices[items[k].record.month]))
            && (items[k].record.month !in indices ==> r[k].index == Some(1.0) && r[k].record.base == items[k].record.base))
  {
    RevaluedAllShape(items, indices);
  }

  /** Revaluation moves no item from one period to the other. */
  lemma {:induction false} RevaluedAllCounts(items: seq<Item>, indices: map<int, real>, p: Period)
    ensures CountPeriod(RevaluedAll(items, indices), p) == CountPeriod(items, p)
  {
    if items != [] {
      RevaluedAllCounts(items[..|items| - 1], indices, p);
      var r := RevaluedAll(items, indices);
      assert r[..|r| - 1] == RevaluedAll(items[..|items| - 1], indices);
    }
  }

  /** An index of at least 1 never lowers a non-negative amount, so with such
      indices revaluation never lowers the sum of the older months. */
  lemma {:induction false} RevaluationRaises(items: seq<Item>, indices: map<int, real>)
    requires forall m :: m in indices ==> indices[m] >= 1.0
    requires forall k :: 0 <= k < |items| ==> items[k].record.base >= 0
    ensures SumPeriod(RevaluedAll(items, indices), Revalued) >= SumPeriod(items, Revalued)
    ensures SumPeriod(RevaluedAll(items, indices), NonRevalued) == SumPeriod(items, NonRevalued)
  {
    if items != [] {
      var init := items[..|items| - 1];
      var last := items[|items| - 1];
      RevaluationRaises(init, indices);
      if last.period == Revalued && last.record.month in indices {
        ScaleMonotone(last.record.base, 1.0, indices[last.record.month]);
        RoundHalfUpOfWhole(last.record.base);
      }
    }
  }

  /** Items whose months strictly decrease are already in the order of the
      re-sort, which therefore changes nothing. */
  lemma {:induction false} ResortKeepsOrder(items: seq<Item>)
    requires forall i, j :: 0 <= i < j < |items| ==> items[i].record.month > items[j].record.month
    ensures Sort(items, NegItemMonth) == items
  {
    SortSortedIdentity(items, NegItemMonth);
  }


  /** The items of a window that runs back month by month from the month
      before retirement: one per record, in the same order (the re-sort
      changes nothing), each the record classified and then revalued, the
      first 24 of them not revalued and the rest revalued. */
  lemma {:induction false} RevaluedWindow(w: seq<Record<int>>, retirement: int, indices: map<int, real>)
    requires forall k :: 0 <= k < |w| ==> w[k].month == retirement - 1 - k
    ensures var items := Sort(RevaluedAll(Classified(w, retirement), indices), NegItemMonth);
      && items == RevaluedAll(Classified(w, retirement), indices)
      && |items| == |w|
      && (forall k :: 0 <= k < |w| ==>
            items[k] == RevalueItem(Item(w[k], PeriodOf(w[k].month, retirement), None, None), indices))
      && (forall k :: 0 <= k < |w| ==>
            items[k].record.month == w[k].month && (items[k].period == NonRevalued <==> k < NonRevaluedMonths))
      && CountPeriod(items, NonRevalued) == (if |w| < NonRevaluedMonths then |w| else NonRevaluedMonths)
  {
    var classified := Classified(w, retirement);
    RevaluedAllWindow(w, retirement, indices);
    ResortKeepsOrder(RevaluedAll(classified, indices));
  }

  lemma {:induction false} RevaluedAllWindow(w: seq<Record<int>>, retirement: int, indices: map<int, real>)
    requires forall k :: 0 <= k < |w| ==> w[k].month == retirement - 1 - k
    ensures var items := RevaluedAll(Classified(w, retirement), indices);
      && |items| == |w|
      && (forall k :: 0 <= k < |w| ==>
            items[k] == RevalueItem(Item(w[k], PeriodOf(w[k].month, retirement), None, None), indices))
      && (forall k :: 0 <= k < |w| ==>
            items[k].record.month == w[k].month && (items[k].period == NonRevalued <==> k < NonRevaluedMonths))
      && CountPeriod(items, NonRevalued) == (if |w| < NonRevaluedMonths then |w| else NonRevaluedMonths)
  {
    var classified := Classified(w, retirement);
    ClassifiedWindow(w, retirement);
    ClassifiedShape(w, retirement);
    RevaluedAllShape(classified, indices);
    RevaluedAllEffect(classified, indices);
    RevaluedAllCounts(classified, indices, NonRevalued);
  }
}
