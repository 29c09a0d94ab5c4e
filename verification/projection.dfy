/** The months the engine adds between the last reported month and
    retirement (`simular_periodo_futuro`), priced at the mean of the last six
    months on record. */
module Projection {
  import opened Wrappers
  import opened Money
  import opened MonthYear
  import opened Records
  import opened Constants

  /** `max(bases, key=date)`: the position of the first record of the most
      recent month. */
  function LatestAt(bases: seq<Record<int>>): (i: nat)
    requires |bases| > 0
    ensures i < |bases|
    ensures forall j :: 0 <= j < |bases| ==> bases[j].month <= bases[i].month
    ensures forall j :: 0 <= j < i ==> bases[j].month < bases[i].month
  {
    if |bases| == 1 then 0
    else
      var k := LatestAt(bases[..|bases| - 1]);
      if bases[|bases| - 1].month > bases[k].month then |bases| - 1 else k
  }

  /** The amounts of the records dated `from` or later, in order
      (`bases_recientes`). */
  function RecentFrom(bases: seq<Record<int>>, from: int): seq<Cents>
  {
    if bases == [] then []
    else
      var last := bases[|bases| - 1];
      RecentFrom(bases[..|bases| - 1], from) + (if last.month >= from then [last.base] else [])
  }

  /** `count` projected records from month `first` on, each priced `amount`. */
  function Stretch(first: int, count: nat, amount: Cents, regime: string): (r: seq<Record<int>>)
  {
    if count == 0 then []
    else Stretch(first, count - 1, amount, regime) + [Record(first + count - 1, amount, ProjectedEmployer, regime, None)]
  }

  /** The months after the latest record up to the month before retirement,
      each priced at the rounded mean of the amounts of the last six months
      on record (the latest and the five before it). */
  function Projected(bases: seq<Record<int>>, retirement: int, regime: string): seq<Record<int>>
  {
    if bases == [] then []
    else
      var latest := bases[LatestAt(bases)].month;
      if retirement <= latest then []
      else
        RecentHasLatest(bases, latest - 5);
        Stretch(latest + 1, retirement - 1 - latest, Mean(RecentFrom(bases, latest - 5)), regime)
  }

  /** A record dated `from` or later puts its amount among the recent ones. */
  lemma {:induction false} RecentHasLatest(bases: seq<Record<int>>, from: int)
    requires exists i :: 0 <= i < |bases| && bases[i].month >= from
    ensures |RecentFrom(bases, from)| > 0
  {
    var i :| 0 <= i < |bases| && bases[i].month >= from;
    var init := bases[..|bases| - 1];
    if i < |bases| - 1 {
      assert init[i].month >= from;
      RecentHasLatest(init, from);
    }
  }

  /** The recent amounts are amounts of records dated `from` or later. */
  lemma {:induction false} RecentWithin(bases: seq<Record<int>>, from: int, lo: int, hi: int)
    requires forall j :: 0 <= j < |bases| && bases[j].month >= from ==> lo <= bases[j].base <= hi
    ensures forall k :: 0 <= k < |RecentFrom(bases, from)| ==> lo <= RecentFrom(bases, from)[k] <= hi
  {
    if bases != [] {
      var init := bases[..|bases| - 1];
      assert forall j :: 0 <= j < |init| ==> init[j] == bases[j];
      RecentWithin(init, from, lo, hi);
    }
  }

  lemma {:induction false} StretchShape(first: int, count: nat, amount: Cents, regime: string)
    ensures var r := Stretch(first, count, amount, regime);
      && |r| == count
      && forall k :: 0 <= k < count ==> r[k] == Record(first + k, amount, ProjectedEmployer, regime, None)
  {
    if count > 0 {
      StretchShape(first, count - 1, amount, regime);
    }
  }

  /** Nothing is projected without records, or when retirement is not after
      the latest month on record; otherwise one record for each month from
      the one after the latest up to the one before retirement, in order.
      Every projected month is later than every month on record and earlier
      than retirement. */
  lemma {:induction false} ProjectionMonths(bases: seq<Record<int>>, retirement: int, regime: string)
    ensures bases == [] ==> Projected(bases, retirement, regime) == []
    ensures bases != [] ==>
      var latest := bases[LatestAt(bases)].month;
      var r := Projected(bases, retirement, regime);
      && (retirement <= latest ==> r == [])
      && (retirement > latest ==> |r| == retirement - 1 - latest)
      && (forall k :: 0 <= k < |r| ==> r[k].month == latest + 1 + k)
      && (forall k, j :: 0 <= k < |r| && 0 <= j < |bases| ==> bases[j].month < r[k].month < retirement)
  {
    if bases != [] && retirement > bases[LatestAt(bases)].month {
      var latest := bases[LatestAt(bases)].month;
      var amount := ProjectedAt(bases, retirement, regime);
      StretchAfter(bases, latest, retirement, amount, regime);
    }
  }

  /** A stretch from the month after the latest on record to the month
      before retirement lies strictly between the two. */
  lemma {:induction false} StretchAfter(bases: seq<Record<int>>, latest: int, retirement: int, amount: Cents, regime: string)
    requires forall j :: 0 <= j < |bases| ==> bases[j].month <= latest
    requires retirement > latest
    ensures var r := Stretch(latest + 1, retirement - 1 - latest, amount, regime);
      && |r| == retirement - 1 - latest
      && (forall k :: 0 <= k < |r| ==> r[k].month == latest + 1 + k)
      && (forall k, j :: 0 <= k < |r| && 0 <= j < |bases| ==> bases[j].month < r[k].month < retirement)
  {
    StretchShape(latest + 1, retirement - 1 - latest, amount, regime);
  }

  lemma {:induction false} ProjectedStretch(bases: seq<Record<int>>, retirement: int, regime: string)
    requires bases != [] && retirement > bases[LatestAt(bases)].month
    ensures var latest := bases[LatestAt(bases)].month;
      |RecentFrom(bases, latest - 5)| > 0
      && Projected(bases, retirement, regime)
         == Stretch(latest + 1, retirement - 1 - latest, Mean(RecentFrom(bases, latest - 5)), regime)
  {
    RecentHasLatest(bases, bases[LatestAt(bases)].month - 5);
  }

  /** The projection is a stretch of records at some amount. */
  lemma {:induction false} ProjectedAt(bases: seq<Record<int>>, retirement: int, regime: string) returns (amount: Cents)
    requires bases != [] && retirement > bases[LatestAt(bases)].month
    ensures var latest := bases[LatestAt(bases)].month;
      Projected(bases, retirement, regime) == Stretch(latest + 1, retirement - 1 - latest, amount, regime)
  {
    ProjectedStretch(bases, retirement, regime);
    amount := Mean(RecentFrom(bases, bases[LatestAt(bases)].month - 5));
  }

  /** Every projected record is a "SIMULADA" record of the access regime,
      with no multi-employer metadata, priced at an amount that lies between
      the smallest and the largest amount of the last six months on record. */
  lemma {:induction false} ProjectionPriced(bases: seq<Record<int>>, retirement: int, regime: string, lo: int, hi: int)
    requires bases != []
    requires forall j :: 0 <= j < |bases| && bases[j].month >= bases[LatestAt(bases)].month - 5 ==> lo <= bases[j].base <= hi
    ensures var r := Projected(bases, retirement, regime);
      forall k :: 0 <= k < |r| ==>
        && r[k].employer == ProjectedEmployer && r[k].regime == regime && r[k].multi.None?
        && lo <= r[k].base <= hi
  {
    var latest := bases[LatestAt(bases)].month;
    if retirement > latest {
      var amount := ProjectedPriceWithin(bases, retirement, regime, lo, hi);
      StretchPriced(latest + 1, retirement - 1 - latest, amount, regime, lo, hi);
    }
  }

  /** The projection is a stretch at an amount within any bounds of the
      amounts of the last six months on record. */
  lemma {:induction false} ProjectedPriceWithin(bases: seq<Record<int>>, retirement: int, regime: string, lo: int, hi: int) returns (amount: Cents)
    requires bases != [] && retirement > bases[LatestAt(bases)].month
    requires forall j :: 0 <= j < |bases| && bases[j].month >= bases[LatestAt(bases)].month - 5 ==> lo <= bases[j].base <= hi
    ensures var latest := bases[LatestAt(bases)].month;
      Projected(bases, retirement, regime) == Stretch(latest + 1, retirement - 1 - latest, amount, regime)
    ensures lo <= amount <= hi
  {
    var from := bases[LatestAt(bases)].month - 5;
    ProjectedStretch(bases, retirement, regime);
    RecentWithin(bases, from, lo, hi);
    MeanWithin(RecentFrom(bases, from), lo, hi);
    amount := Mean(RecentFrom(bases, from));
  }

  lemma {:induction false} StretchPriced(first: int, count: nat, amount: Cents, regime: string, lo: int, hi: int)
    requires lo <= amount <= hi
    ensures var r := Stretch(first, count, amount, regime);
      forall k :: 0 <= k < |r| ==>
        && r[k].employer == ProjectedEmployer && r[k].regime == regime && r[k].multi.None?
        && lo <= r[k].base <= hi
  {
    StretchShape(first, count, amount, regime);
  }

  /** Records for 09/2024 to 01/2025 and retirement in 06/2025: four months
      are projected, 02/2025 to 05/2025 (the month of retirement is not). */
  lemma {:induction false} ProjectionStopsBeforeRetirement()
    ensures var bases := [Record(Index(2025, 1), 150050, "Empresa A", "GENERAL", None),
                          Record(Index(2024, 12), 145075, "Empresa A", "GENERAL", None),
                          Record(Index(2024, 11), 140025, "Empresa B", "GENERAL", None),
                          Record(Index(2024, 10), 135000, "Empresa B", "GENERAL", None),
                          Record(Index(2024, 9), 130050, "Empresa C", "GENERAL", None)];
      var r := Projected(bases, Index(2025, 6), "GENERAL");
      |r| == 4 && r[0].month == Index(2025, 2) && r[3].month == Index(2025, 5)
  {
    var bases := [Record(Index(2025, 1), 150050, "Empresa A", "GENERAL", None),
                  Record(Index(2024, 12), 145075, "Empresa A", "GENERAL", None),
                  Record(Index(2024, 11), 140025, "Empresa B", "GENERAL", None),
                  Record(Index(2024, 10), 135000, "Empresa B", "GENERAL", None),
                  Record(Index(2024, 9), 130050, "Empresa C", "GENERAL", None)];
    assert forall j :: 0 < j < |bases| ==> bases[j].month < bases[0].month;
    ProjectionMonths(bases, Index(2025, 6), "GENERAL");
  }
}
