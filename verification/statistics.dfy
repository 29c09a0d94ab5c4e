/** The statistics of one scheme's window (`_calcular_estadisticas_para_bases`)
    and the choice of the more favourable scheme
    (`_elegir_calculo_mas_favorable`). */
module Statistics {
  import opened Wrappers
  import opened Money
  import opened Revaluation

  /** The statistics of a window: how many items, of each period, the sums of
      each period and in total, and the regulatory base. */
  datatype Stats = Stats(
    total: nat,
    revaluedCount: nat,
    nonRevaluedCount: nat,
    revaluedSum: Cents,
    nonRevaluedSum: Cents,
    totalSum: Cents,
    regulatory: Cents)

  /** The statistics of `items` with the regulatory base `total / divisor`
      rounded to cents: none for an empty window, and an error for a zero
      divisor. */
  function Summarize(items: seq<Item>, divisor: real): Result<Option<Stats>>
  {
    if items == [] then Ok(None)
    else if divisor == 0.0 then Err(ZeroDivisor)
    else
      var revalued := SumPeriod(items, Revalued);
      var nonRevalued := SumPeriod(items, NonRevalued);
      Ok(Some(Stats(|items|, CountPeriod(items, Revalued), CountPeriod(items, NonRevalued),
                    revalued, nonRevalued, revalued + nonRevalued, Divide(revalued + nonRevalued, divisor))))
  }

  /** An empty window has no statistics and a zero divisor cannot divide;
      otherwise the two counts make up the number of items, the two sums make
      up the sum of every amount, and the regulatory base is that sum divided
      by the divisor, to the nearest cent. */
  lemma {:induction false} SummarizeFacts(items: seq<Item>, divisor: real)
    ensures Summarize(items, divisor) == Ok(None) <==> items == []
    ensures Summarize(items, divisor).Err? <==> items != [] && divisor == 0.0
    ensures Summarize(items, divisor).Ok? && Summarize(items, divisor).value.Some? ==>
      var s := Summarize(items, divisor).value.value;
      && s.total == |items|
      && s.revaluedCount + s.nonRevaluedCount == s.total
      && s.revaluedSum + s.nonRevaluedSum == s.totalSum
      && s.totalSum == SumAll(items)
      && s.regulatory as real - 0.5 <= SumAll(items) as real / divisor < s.regulatory as real + 0.5
  {
    PeriodsPartition(items);
  }

  /** The two schemes: the 2023 reform (`reforma_rd2_2023`) and the rules
      before it (`prereforma`). */
  datatype Scheme = Reform | Legacy

  /** The scheme with the larger regulatory base, the reform on a tie; both
      schemes must have statistics. */
  function Choose(reform: Option<Stats>, legacy: Option<Stats>): (r: Result<Scheme>)
    ensures r.Ok? <==> reform.Some? && legacy.Some?
    ensures r.Err? ==> r.error == MissingStatistics
    ensures r.Ok? ==>
      var chosen := if r.value == Reform then reform.value else legacy.value;
      chosen.regulatory >= reform.value.regulatory && chosen.regulatory >= legacy.value.regulatory
    ensures r == Ok(Legacy) ==> legacy.value.regulatory > reform.value.regulatory
  {
    if reform.None? || legacy.None? then Err(MissingStatistics)
    else if reform.value.regulatory >= legacy.value.regulatory then Ok(Reform)
    else Ok(Legacy)
  }
}
