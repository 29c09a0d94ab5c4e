/** The regulatory-base engine (`SimuladorPeriodos`): built from the input
    records, a retirement month, an access regime, a sex and the reference
    tables, it computes the window, revaluation and statistics under the 2023
    reform and under the rules before it, and keeps the more favourable. */
module Engine {
  import opened Wrappers
  import opened Money
  import opened Text
  import opened MonthYear
  import opened Records
  import opened Tables
  import opened Sorting
  import opened Constants
  import opened Ingestion
  import opened Projection
  import opened PeriodWindow
  import opened Revaluation
  import opened Statistics

  /** The window length and divisor of the rules before the 2023 reform. */
  const LegacyIncluded: int := 300
  const LegacyDivisor: real := 350.0

  /** What the constructor establishes: the records one per month from the
      most recent back, the retirement month, the upper-cased regime and sex,
      and the parameters of the retirement year. */
  datatype Config = Config(bases: seq<Record<int>>, retirement: int, regime: string, sex: string, yearParams: Params)

  /** `__init__`: refuses an empty record list, a retirement date that is not
      a month, and a regime other than GENERAL / AUTONOMO, in that order;
      then ingests the records and looks up the retirement year's parameters.
      The sex is upper-cased but not checked. */
  function Setup(inputs: seq<Input>, retirementText: string, regimeText: string, sexText: string, tables: Tables): Result<Config>
  {
    var regime := Upper(regimeText);
    var sex := Upper(sexText);
    if inputs == [] then Err(EmptyRecordSet)
    else
      match Parse(retirementText)
      case None => Err(InvalidDate(retirementText))
      case Some(retirement) =>
        if !IsRegime(regime) then Err(InvalidRegime(regime))
        else
          var bases :- Ingest(inputs, tables.caps);
          var yearParams :- LookupParams(tables.params, YearOf(retirement));
          Ok(Config(bases, retirement, regime, sex, yearParams))
  }

  /** The window of `n` months of one scheme: the records and the projected
      months, walked back from the month before retirement. */
  function SchemeWindow(c: Config, capsTable: seq<Entry<Caps>>, n: int): Result<seq<Record<int>>>
  {
    Window(IndexOf(c.bases + Projected(c.bases, c.retirement, c.regime)), c.retirement - 1, n,
           GapPricing(c.regime, c.sex, capsTable), c.regime)
  }

  /** The outcome of one scheme: its items and their statistics. */
  datatype Run = Run(items: seq<Item>, stats: Option<Stats>)

  /** `_procesar_calculo_reforma` / `_procesar_calculo_prereforma`: window,
      periods, revaluation, re-sort, statistics. */
  function SchemeRun(c: Config, tables: Tables, n: int, divisor: real): Result<Run>
  {
    var w :- SchemeWindow(c, tables.caps, n);
    RunOf(w, c.retirement, tables.indices, divisor)
  }

  /** The periods, revaluation, re-sort and statistics of window `w`. */
  function RunOf(w: seq<Record<int>>, retirement: int, indices: map<int, real>, divisor: real): Result<Run>
  {
    var items := Sort(RevaluedAll(Classified(w, retirement), indices), NegItemMonth);
    var stats :- Summarize(items, divisor);
    Ok(Run(items, stats))
  }

  /** Both schemes and the one chosen. */
  datatype Outcome = Outcome(chosen: Scheme, reform: Run, legacy: Run)

  function ChosenRun(o: Outcome): Run
  {
    if o.chosen == Reform then o.reform else o.legacy
  }

  /** `procesar_bases_completo`: the reform run, then the run under the
      earlier rules, then the choice between them. */
  function Completed(c: Config, tables: Tables): Result<Outcome>
  {
    var reform :- SchemeRun(c, tables, c.yearParams.included, c.yearParams.divisor);
    var legacy :- SchemeRun(c, tables, LegacyIncluded, LegacyDivisor);
    var chosen :- Choose(reform.stats, legacy.stats);
    Ok(Outcome(chosen, reform, legacy))
  }

  /** The records the window draws on: those reported, then those
      projected. */
  function Known(c: Config): seq<Record<int>>
  {
    c.bases + Projected(c.bases, c.retirement, c.regime)
  }

  /** Some record of `s` is dated `m`. */
  predicate HasMonth(s: seq<Record<int>>, m: int)
  {
    exists i :: 0 <= i < |s| && s[i].month == m
  }

  /** The constructor accepts exactly the inputs that are non-empty, whose
      retirement date is a month, whose regime upper-cases to GENERAL or
      AUTONOMO, whose records ingest and whose retirement year has
      parameters, and reports the first of the first three checks that
      fails. */
  lemma {:induction false} SetupFacts(inputs: seq<Input>, retirementText: string, regimeText: string, sexText: string, tables: Tables)
    ensures Setup(inputs, retirementText, regimeText, sexText, tables).Ok? <==>
      && inputs != []
      && Parse(retirementText).Some?
      && IsRegime(Upper(regimeText))
      && Ingest(inputs, tables.caps).Ok?
      && LookupParams(tables.params, YearOf(Parse(retirementText).value)).Ok?
    ensures inputs == [] ==> Setup(inputs, retirementText, regimeText, sexText, tables) == Err(EmptyRecordSet)
    ensures inputs != [] && Parse(retirementText).None? ==>
      Setup(inputs, retirementText, regimeText, sexText, tables) == Err(InvalidDate(retirementText))
    ensures inputs != [] && Parse(retirementText).Some? && !IsRegime(Upper(regimeText)) ==>
      Setup(inputs, retirementText, regimeText, sexText, tables) == Err(InvalidRegime(Upper(regimeText)))
  {
  }

  /** Once accepted, the records run one per month from the most recent
      back, the regime is valid, the sex is the upper-cased text, the
      retirement month reads back as the text given and the parameters are
      those of the retirement year. */
  lemma {:induction false} SetupAccepted(inputs: seq<Input>, retirementText: string, regimeText: string, sexText: string, tables: Tables)
    requires Setup(inputs, retirementText, regimeText, sexText, tables).Ok?
    ensures var c := Setup(inputs, retirementText, regimeText, sexText, tables).value;
      && c.bases == Ingest(inputs, tables.caps).value
      && (forall i, j :: 0 <= i < j < |c.bases| ==> c.bases[i].month > c.bases[j].month)
      && Format(c.retirement) == retirementText
      && IsRegime(c.regime)
      && c.sex == Upper(sexText)
      && c.yearParams == LookupParams(tables.params, YearOf(c.retirement)).value
  {
    SetupFacts(inputs, retirementText, regimeText, sexText, tables);
    var retirement := Parse(retirementText).value;
    assert Setup(inputs, retirementText, regimeText, sexText, tables).value
        == Config(Ingest(inputs, tables.caps).value, retirement, Upper(regimeText), Upper(sexText),
                  LookupParams(tables.params, YearOf(retirement)).value);
    IngestDescending(inputs, tables.caps);
    FormatParse(retirementText);
  }

  /** The window of a scheme fails only when it meets a month with neither
      a reported nor a projected record, the regime is the general one and
      there are no caps to price the gap with. */
  lemma {:induction false} SchemeWindowOk(c: Config, capsTable: seq<Entry<Caps>>, n: int)
    ensures SchemeWindow(c, capsTable, n).Ok? <==>
      (forall m :: c.retirement - 1 - n < m < c.retirement ==> HasMonth(Known(c), m))
      || c.regime == RegimeSelfEmployed || |capsTable| > 0
  {
    var all := Known(c);
    var index := IndexOf(all);
    var top := c.retirement - 1;
    forall m ensures m in index <==> HasMonth(all, m) {
      IndexOfLast(all, m);
    }
    if n >= 0 {
      GapWindowOk(index, top, n, c.regime, c.sex, capsTable);
    } else {
      assert Window(index, top, n, GapPricing(c.regime, c.sex, capsTable), c.regime) == Ok([]);
    }
  }

  /** `x` is a record of `all` and no later record of `all` has its month. */
  predicate LastOfItsMonth(all: seq<Record<int>>, x: Record<int>)
  {
    exists i :: 0 <= i < |all| && x == all[i] && forall j :: i < j < |all| ==> all[j].month != x.month
  }

  /** A walk over the index of `all` takes, for a month with records, the
      last of them unchanged. */
  lemma {:induction false} WalkOverRecords(all: seq<Record<int>>, top: int, n: int, price: (int, int) -> Result<Cents>, regime: string)
    requires Window(IndexOf(all), top, n, price, regime).Ok?
    ensures var w := Window(IndexOf(all), top, n, price, regime).value;
      && |w| == (if n <= 0 then 0 else n)
      && (forall k :: 0 <= k < |w| ==> w[k].month == top - k)
      && (forall k :: 0 <= k < |w| && HasMonth(all, w[k].month) ==>
            LastOfItsMonth(all, w[k]))
  {
    var index := IndexOf(all);
    var w := Window(index, top, n, price, regime).value;
    IndexOfKeyed(all);
    WindowContents(index, top, n, price, regime);
    forall k | 0 <= k < |w|
      ensures HasMonth(all, w[k].month) ==>
        LastOfItsMonth(all, w[k])
    {
      IndexOfLast(all, w[k].month);
    }
  }

  /** A walk over the index of `all` prices each month without records. */
  lemma {:induction false} WalkGaps(all: seq<Record<int>>, top: int, n: int, price: (int, int) -> Result<Cents>, regime: string)
    requires Window(IndexOf(all), top, n, price, regime).Ok?
    ensures var w := Window(IndexOf(all), top, n, price, regime).value;
      forall k :: 0 <= k < |w| && !HasMonth(all, w[k].month) ==>
        && price(w[k].month, Missing(IndexOf(all), top, k) + 1).Ok?
        && w[k] == Record(w[k].month, price(w[k].month, Missing(IndexOf(all), top, k) + 1).value, GapEmployer, regime, None)
  {
    var index := IndexOf(all);
    var w := Window(index, top, n, price, regime).value;
    IndexOfKeyed(all);
    WindowContents(index, top, n, price, regime);
    forall k | 0 <= k < |w| && !HasMonth(all, w[k].month) ensures w[k].month !in index {
      IndexOfLast(all, w[k].month);
    }
  }

  /** The window of a scheme runs over the `n` months before retirement, most
      recent first, one record each, and a month with a reported or projected
      record takes the last such record unchanged. */
  lemma {:induction false} SchemeWindowContents(c: Config, capsTable: seq<Entry<Caps>>, n: int)
    requires SchemeWindow(c, capsTable, n).Ok?
    ensures var w := SchemeWindow(c, capsTable, n).value;
      var all := Known(c);
      && |w| == (if n <= 0 then 0 else n)
      && (forall k :: 0 <= k < |w| ==> w[k].month == c.retirement - 1 - k)
      && (forall k :: 0 <= k < |w| && HasMonth(all, w[k].month) ==>
            LastOfItsMonth(all, w[k]))
  {
    SchemeWindowOfKnown(c, capsTable, n);
    WalkOverRecords(Known(c), c.retirement - 1, n, GapPricing(c.regime, c.sex, capsTable), c.regime);
  }

  lemma {:induction false} SchemeWindowOfKnown(c: Config, capsTable: seq<Entry<Caps>>, n: int)
    ensures SchemeWindow(c, capsTable, n) == Window(IndexOf(Known(c)), c.retirement - 1, n, GapPricing(c.regime, c.sex, capsTable), c.regime)
  {
    var known := c.bases + Projected(c.bases, c.retirement, c.regime);
    assert Known(c) == known;
  }

  /** The record the gap rule gives the `ordinal`-th gap of a walk, in month
      `month`: a "LAGUNA" record of the access regime priced by `GapBase`. */
  function GapRecord(month: int, ordinal: int, regime: string, sex: string, capsTable: seq<Entry<Caps>>): Result<Record<int>>
  {
    var amount :- GapBase(month, ordinal, regime, sex, capsTable);
    Ok(Record(month, amount, GapEmployer, regime, None))
  }

  /** Walking with the gap rule over the index of `all` (for a scheme's
      window, `all` is `Known(c)`), a month without a record gets the gap
      rule's "LAGUNA" record for its number among the gaps met so far. */
  lemma {:induction false} GapsOverRecords(all: seq<Record<int>>, top: int, n: int, regime: string, sex: string, capsTable: seq<Entry<Caps>>)
    requires Window(IndexOf(all), top, n, GapPricing(regime, sex, capsTable), regime).Ok?
    ensures var w := Window(IndexOf(all), top, n, GapPricing(regime, sex, capsTable), regime).value;
      forall k :: 0 <= k < |w| && !HasMonth(all, w[k].month) ==>
        GapRecord(w[k].month, Missing(IndexOf(all), top, k) + 1, regime, sex, capsTable) == Ok(w[k])
  {
    var price := GapPricing(regime, sex, capsTable);
    WalkGaps(all, top, n, price, regime);
    var w := Window(IndexOf(all), top, n, price, regime).value;
    forall k | 0 <= k < |w| && !HasMonth(all, w[k].month)
      ensures GapRecord(w[k].month, Missing(IndexOf(all), top, k) + 1, regime, sex, capsTable) == Ok(w[k])
    {
      GapRecordPriced(w[k].month, Missing(IndexOf(all), top, k) + 1, regime, sex, capsTable, w[k]);
    }
  }

  /** A record priced by the gap rule is the rule's "LAGUNA" record. */
  lemma {:induction false} GapRecordPriced(month: int, g: int, regime: string, sex: string, capsTable: seq<Entry<Caps>>, x: Record<int>)
    requires GapPricing(regime, sex, capsTable)(month, g).Ok?
    requires x == Record(month, GapPricing(regime, sex, capsTable)(month, g).value, GapEmployer, regime, None)
    ensures GapRecord(month, g, regime, sex, capsTable) == Ok(x)
  {
    assert GapPricing(regime, sex, capsTable)(month, g) == GapBase(month, g, regime, sex, capsTable);
  }

  /** The run of a window that goes back month by month from the month
      before retirement fails only on a zero divisor with a non-empty window.
      Otherwise its items are the window's records, one per month in the
      same order, each classified and revalued, the first 24 not revalued and
      the rest revalued; its statistics are those of the items, and a
      non-empty window has them, with at most 24 items not revalued. */
  lemma {:induction false} RunOfFacts(w: seq<Record<int>>, retirement: int, indices: map<int, real>, divisor: real)
    requires forall k :: 0 <= k < |w| ==> w[k].month == retirement - 1 - k
    ensures RunOf(w, retirement, indices, divisor).Err? <==> w != [] && divisor == 0.0
    ensures RunOf(w, retirement, indices, divisor).Ok? ==>
      var run := RunOf(w, retirement, indices, divisor).value;
      && |run.items| == |w|
      && (forall k :: 0 <= k < |w| ==>
            run.items[k] == RevalueItem(Item(w[k], PeriodOf(w[k].month, retirement), None, None), indices))
      && (forall k :: 0 <= k < |w| ==>
            run.items[k].record.month == retirement - 1 - k
            && (run.items[k].period == NonRevalued <==> k < NonRevaluedMonths))
      && run.stats == Summarize(run.items, divisor).value
      && (w != [] <==> run.stats.Some?)
      && (w != [] ==> run.stats.value.nonRevaluedCount == (if |w| < NonRevaluedMonths then |w| else NonRevaluedMonths))
  {
    RevaluedWindow(w, retirement, indices);
    SummarizeFacts(Sort(RevaluedAll(Classified(w, retirement), indices), NegItemMonth), divisor);
  }

  /** A scheme run fails exactly when its window fails, or when the window
      is not empty and the divisor is zero; otherwise it is the run of a
      window of `n` months (none for `n <= 0`) back from the month before
      retirement. */
  lemma {:induction false} SchemeRunFacts(c: Config, tables: Tables, n: int, divisor: real)
    ensures SchemeRun(c, tables, n, divisor).Err? <==>
      SchemeWindow(c, tables.caps, n).Err? || (n > 0 && divisor == 0.0)
    ensures SchemeRun(c, tables, n, divisor).Ok? ==>
      var w := SchemeWindow(c, tables.caps, n).value;
      && |w| == (if n <= 0 then 0 else n)
      && (forall k :: 0 <= k < |w| ==> w[k].month == c.retirement - 1 - k)
      && SchemeRun(c, tables, n, divisor) == RunOf(w, c.retirement, tables.indices, divisor)
  {
    var window := SchemeWindow(c, tables.caps, n);
    if window.Ok? {
      SchemeWindowContents(c, tables.caps, n);
      RunOfFacts(window.value, c.retirement, tables.indices, divisor);
    }
  }

  /** The items and statistics of a successful scheme run: one item per
      month of the window, and statistics exactly when the window is not
      empty. */
  lemma {:induction false} SchemeRunItems(c: Config, tables: Tables, n: int, divisor: real)
    requires SchemeRun(c, tables, n, divisor).Ok?
    ensures var run := SchemeRun(c, tables, n, divisor).value;
      && |run.items| == (if n <= 0 then 0 else n)
      && (n > 0 <==> run.stats.Some?)
  {
    SchemeRunFacts(c, tables, n, divisor);
    var w := SchemeWindow(c, tables.caps, n).value;
    RunOfFacts(w, c.retirement, tables.indices, divisor);
  }

  /** The run of the start of a window is the start of the window's run. */
  lemma {:induction false} RunOfPrefix(w: seq<Record<int>>, k: nat, retirement: int, indices: map<int, real>, d1: real, d2: real)
    requires k <= |w|
    requires forall j :: 0 <= j < |w| ==> w[j].month == retirement - 1 - j
    requires RunOf(w[..k], retirement, indices, d1).Ok? && RunOf(w, retirement, indices, d2).Ok?
    ensures |RunOf(w, retirement, indices, d2).value.items| == |w|
    ensures RunOf(w[..k], retirement, indices, d1).value.items == RunOf(w, retirement, indices, d2).value.items[..k]
  {
    RunItems(w[..k], retirement, indices, d1);
    RunItems(w, retirement, indices, d2);
    var a := RunOf(w[..k], retirement, indices, d1).value.items;
    var b := RunOf(w, retirement, indices, d2).value.items;
    forall j | 0 <= j < k ensures a[j] == b[j] {
      assert w[..k][j] == w[j];
    }
  }

  /** The items of a successful run are the window's records, each
      classified and revalued. */
  lemma {:induction false} RunItems(w: seq<Record<int>>, retirement: int, indices: map<int, real>, divisor: real)
    requires forall j :: 0 <= j < |w| ==> w[j].month == retirement - 1 - j
    requires RunOf(w, retirement, indices, divisor).Ok?
    ensures var items := RunOf(w, retirement, indices, divisor).value.items;
      && |items| == |w|
      && forall j :: 0 <= j < |w| ==>
           items[j] == RevalueItem(Item(w[j], PeriodOf(w[j].month, retirement), None, None), indices)
  {
    RunOfFacts(w, retirement, indices, divisor);
  }

  /** Two runs of one simulation agree on the months they share: the items of
      the shorter window are the first items of the longer one. */
  lemma {:induction false} SchemesShareRecentMonths(c: Config, tables: Tables, n1: int, d1: real, n2: int, d2: real)
    requires 0 <= n1 <= n2
    requires SchemeRun(c, tables, n1, d1).Ok? && SchemeRun(c, tables, n2, d2).Ok?
    ensures |SchemeRun(c, tables, n2, d2).value.items| == n2
    ensures SchemeRun(c, tables, n1, d1).value.items == SchemeRun(c, tables, n2, d2).value.items[..n1]
  {
    SchemeRunFacts(c, tables, n1, d1);
    SchemeRunFacts(c, tables, n2, d2);
    SchemeWindowPrefix(c, tables.caps, n1, n2);
    RunOfPrefix(SchemeWindow(c, tables.caps, n2).value, n1, c.retirement, tables.indices, d1, d2);
  }

  /** A shorter scheme window is the start of a longer one. */
  lemma {:induction false} SchemeWindowPrefix(c: Config, capsTable: seq<Entry<Caps>>, n1: int, n2: int)
    requires 0 <= n1 <= n2
    requires SchemeWindow(c, capsTable, n2).Ok?
    ensures |SchemeWindow(c, capsTable, n2).value| == n2
    ensures SchemeWindow(c, capsTable, n1) == Ok(SchemeWindow(c, capsTable, n2).value[..n1])
  {
    WindowPrefix(IndexOf(Known(c)), c.retirement - 1, n1, n2, GapPricing(c.regime, c.sex, capsTable), c.regime);
  }

  /** `procesar_bases_completo` succeeds exactly when both runs succeed and
      the reform window is not empty (the 300-month window never is); when
      both runs succeed but the reform window is empty, selection finds no
      statistics. */
  lemma {:induction false} CompletedOk(c: Config, tables: Tables)
    ensures var reform := SchemeRun(c, tables, c.yearParams.included, c.yearParams.divisor);
      var legacy := SchemeRun(c, tables, LegacyIncluded, LegacyDivisor);
      var r := Completed(c, tables);
      && (r.Ok? <==> reform.Ok? && legacy.Ok? && c.yearParams.included > 0)
      && (reform.Ok? && legacy.Ok? && r.Err? ==> r.error == MissingStatistics)
  {
    var reform := SchemeRun(c, tables, c.yearParams.included, c.yearParams.divisor);
    var legacy := SchemeRun(c, tables, LegacyIncluded, LegacyDivisor);
    if reform.Ok? && legacy.Ok? {
      SchemeRunItems(c, tables, c.yearParams.included, c.yearParams.divisor);
      SchemeRunItems(c, tables, LegacyIncluded, LegacyDivisor);
    }
  }

  /** The outcome of `procesar_bases_completo`: the reform run covers the
      retirement year's window and the earlier rules 300 months; the scheme
      kept has the larger regulatory base, the reform on a tie; and when the
      reform window is no longer than 300 months its items are the most
      recent items of the other run. */
  lemma {:induction false} CompletedFacts(c: Config, tables: Tables)
    requires Completed(c, tables).Ok?
    ensures var o := Completed(c, tables).value;
      && o.reform == SchemeRun(c, tables, c.yearParams.included, c.yearParams.divisor).value
      && o.legacy == SchemeRun(c, tables, LegacyIncluded, LegacyDivisor).value
      && |o.reform.items| == c.yearParams.included
      && |o.legacy.items| == LegacyIncluded
      && ChosenRun(o).stats.Some?
      && ChosenRun(o).stats.value.regulatory >= o.reform.stats.value.regulatory
      && ChosenRun(o).stats.value.regulatory >= o.legacy.stats.value.regulatory
      && (o.chosen == Legacy ==> o.legacy.stats.value.regulatory > o.reform.stats.value.regulatory)
      && (c.yearParams.included <= LegacyIncluded ==> o.reform.items == o.legacy.items[..c.yearParams.included])
  {
    var n := c.yearParams.included;
    CompletedOk(c, tables);
    SchemeRunItems(c, tables, n, c.yearParams.divisor);
    SchemeRunItems(c, tables, LegacyIncluded, LegacyDivisor);
    if n <= LegacyIncluded {
      SchemesShareRecentMonths(c, tables, n, c.yearParams.divisor, LegacyIncluded, LegacyDivisor);
    }
  }

  class Simulator {
    const bases: seq<Record<int>>
    const retirement: int
    const regime: string
    const sex: string
    const tables: Tables
    const yearParams: Params
    /** `bases_procesadas`: the items of the chosen scheme, once computed. */
    var processed: seq<Item>

    function Settings(): Config
    {
      Config(bases, retirement, regime, sex, yearParams)
    }

    constructor (c: Config, tables: Tables)
      ensures Settings() == c && this.tables == tables && processed == []
    {
      bases := c.bases;
      retirement := c.retirement;
      regime := c.regime;
      sex := c.sex;
      this.tables := tables;
      yearParams := c.yearParams;
      processed := [];
    }

    /** `simular_periodo_futuro`. */
    method Project() returns (out: seq<Record<int>>)
      ensures out == Projected(bases, retirement, regime)
    {
      if |bases| == 0 {
        return [];
      }
      var last := LatestPosition(bases);
      var latest := bases[last].month;
      if retirement <= latest {
        return [];
      }
      var recent := RecentAmounts(bases, latest - 5);
      RecentHasLatest(bases, latest - 5);
      out := ProjectMonths(latest + 1, retirement - 1 - latest, Mean(recent), regime);
    }

    /** `obtener_bases_periodo_computo`: the window of 300 months under the
        earlier rules, or of the retirement year's `bases_incluidas`. */
    method PeriodBases(legacy: bool) returns (r: Result<seq<Record<int>>>)
      ensures r == SchemeWindow(Settings(), tables.caps, if legacy then LegacyIncluded else yearParams.included)
    {
      var projected := Project();
      var index := MonthIndex(bases + projected);
      var n := if legacy then LegacyIncluded else yearParams.included;
      var price := GapPricing(regime, sex, tables.caps);
      r := WalkBack(index, retirement - 1, n, price, regime);
      SchemeWindowOfKnown(Settings(), tables.caps, n);
      assert Known(Settings()) == bases + projected;
    }

    /** `añadir_periodo`. */
    method AddPeriod(w: seq<Record<int>>) returns (out: seq<Item>)
      ensures out == Classified(w, retirement)
    {
      out := [];
      var limit := retirement - NonRevaluedMonths;
      for i := 0 to |w|
        invariant out == Classified(w[..i], retirement)
      {
        assert w[..i + 1][..i] == w[..i];
        var period := if w[i].month >= limit then NonRevalued else Revalued;
        out := out + [Item(w[i], period, None, None)];
      }
      assert w[..|w|] == w;
    }

    /** `revalorizar_bases`. */
    method Revalue(items: seq<Item>) returns (out: seq<Item>)
      ensures out == RevaluedAll(items, tables.indices)
    {
      out := [];
      for i := 0 to |items|
        invariant out == RevaluedAll(items[..i], tables.indices)
      {
        assert items[..i + 1][..i] == items[..i];
        var it := items[i];
        var done := it;
        if it.period == Revalued {
          var month := it.record.month;
          if month in tables.indices {
            var index := tables.indices[month];
            done := Item(it.record.(base := Scale(it.record.base, index)), Revalued, Some(it.record.base), Some(index));
          } else {
            done := Item(it.record, Revalued, Some(it.record.base), Some(1.0));
          }
        }
        out := out + [done];
      }
      assert items[..|items|] == items;
    }

    /** One scheme run: 300 months and divisor 350 under the earlier rules,
        otherwise the retirement year's window length and divisor. */
    method RunScheme(legacy: bool) returns (r: Result<Run>)
      ensures r == SchemeRun(Settings(), tables,
                             if legacy then LegacyIncluded else yearParams.included,
                             if legacy then LegacyDivisor else yearParams.divisor)
    {
      var w := PeriodBases(legacy);
      if w.Err? {
        return Err(w.error);
      }
      var items := AddPeriod(w.value);
      items := Revalue(items);
      items := Sort(items, NegItemMonth);
      var divisor := if legacy then LegacyDivisor else yearParams.divisor;
      var stats := Summarize(items, divisor);
      if stats.Err? {
        return Err(stats.error);
      }
      return Ok(Run(items, stats.value));
    }

    /** `procesar_bases_completo`: keeps the chosen scheme's items. */
    method ProcessComplete() returns (r: Result<Outcome>)
      modifies this
      ensures r == Completed(Settings(), tables)
      ensures r.Ok? ==> processed == ChosenRun(r.value).items
      ensures r.Err? ==> processed == old(processed)
    {
      var reform := RunScheme(false);
      if reform.Err? {
        return Err(reform.error);
      }
      var legacy := RunScheme(true);
      if legacy.Err? {
        return Err(legacy.error);
      }
      var chosen := Choose(reform.value.stats, legacy.value.stats);
      if chosen.Err? {
        return Err(chosen.error);
      }
      r := Ok(Outcome(chosen.value, reform.value, legacy.value));
      processed := ChosenRun(r.value).items;
    }

    /** `suma_periodo_revalorizado`. */
    function RevaluedSum(): int
      reads this
    {
      if processed == [] then 0 else SumPeriod(processed, Revalued)
    }

    /** `suma_periodo_no_revalorizado`. */
    function NonRevaluedSum(): int
      reads this
    {
      if processed == [] then 0 else SumPeriod(processed, NonRevalued)
    }

    /** Once `procesar_bases_completo` has succeeded, the two period sums
        are the ones in the chosen scheme's statistics, and together they
        make up its total, the sum of every kept amount. */
    lemma {:induction false} PeriodSums(o: Outcome)
      requires Completed(Settings(), tables) == Ok(o) && processed == ChosenRun(o).items
      ensures ChosenRun(o).stats.Some?
      ensures RevaluedSum() == ChosenRun(o).stats.value.revaluedSum
      ensures NonRevaluedSum() == ChosenRun(o).stats.value.nonRevaluedSum
      ensures RevaluedSum() + NonRevaluedSum() == ChosenRun(o).stats.value.totalSum == SumAll(processed)
    {
      var c := Settings();
      CompletedFacts(c, tables);
      var n := if o.chosen == Reform then c.yearParams.included else LegacyIncluded;
      var d := if o.chosen == Reform then c.yearParams.divisor else LegacyDivisor;
      var run := ChosenRun(o);
      assert run == SchemeRun(c, tables, n, d).value;
      SchemeRunFacts(c, tables, n, d);
      assert run.stats == Summarize(run.items, d).value;
      SummarizeFacts(run.items, d);
    }

    /** `suma_total`: the sum of every kept amount. */
    function TotalSum(): (s: int)
      reads this
      ensures s == SumAll(processed)
    {
      PeriodsPartition(processed);
      RevaluedSum() + NonRevaluedSum()
    }
  }

  /** The position of the first record of the most recent month. */
  method LatestPosition(bases: seq<Record<int>>) returns (last: nat)
    requires |bases| > 0
    ensures last == LatestAt(bases)
  {
    last := 0;
    for i := 1 to |bases|
      invariant last == LatestAt(bases[..i])
    {
      assert bases[..i + 1][..i] == bases[..i];
      if bases[i].month > bases[last].month {
        last := i;
      }
    }
    assert bases[..|bases|] == bases;
  }

  /** The amounts of the records dated `from` or later, in order. */
  method RecentAmounts(bases: seq<Record<int>>, from: int) returns (recent: seq<Cents>)
    ensures recent == RecentFrom(bases, from)
  {
    recent := [];
    for i := 0 to |bases|
      invariant recent == RecentFrom(bases[..i], from)
    {
      assert bases[..i + 1][..i] == bases[..i];
      if bases[i].month >= from {
        recent := recent + [bases[i].base];
      }
    }
    assert bases[..|bases|] == bases;
  }

  /** The projected months `first`, `first + 1`, ... for `count` months. */
  method ProjectMonths(first: int, count: nat, amount: Cents, regime: string) returns (out: seq<Record<int>>)
    ensures out == Stretch(first, count, amount, regime)
  {
    out := [];
    var cursor := first;
    while cursor < first + count
      invariant first <= cursor <= first + count
      invariant out == Stretch(first, cursor - first, amount, regime)
    {
      out := out + [Record(cursor, amount, ProjectedEmployer, regime, None)];
      cursor := cursor + 1;
    }
  }

  /** `bases_dict`: each month to its last record. */
  method MonthIndex(all: seq<Record<int>>) returns (index: map<int, Record<int>>)
    ensures index == IndexOf(all)
  {
    index := map[];
    for i := 0 to |all|
      invariant index == IndexOf(all[..i])
    {
      assert all[..i + 1][..i] == all[..i];
      index := index[all[i].month := all[i]];
    }
    assert all[..|all|] == all;
  }

  /** The walk back from `top` over `n` months, a gap priced by its month
      and its number among the gaps met so far. */
  method WalkBack(index: map<int, Record<int>>, top: int, n: int, price: (int, int) -> Result<Cents>, regime: string)
    returns (r: Result<seq<Record<int>>>)
    ensures r == Window(index, top, n, price, regime)
  {
    var out: seq<Record<int>> := [];
    var cursor := top;
    var included := 0;
    var gaps := 0;
    while included < n
      invariant 0 <= included && (included <= n || included == 0)
      invariant cursor == top - included
      invariant gaps == Missing(index, top, included)
      invariant Window(index, top, included, price, regime) == Ok(out)
      decreases n - included
    {
      if cursor in index {
        out := out + [index[cursor]];
      } else {
        gaps := gaps + 1;
        var amount := price(cursor, gaps);
        if amount.Err? {
          WindowErrPersists(index, top, included + 1, n, price, regime);
          return Err(amount.error);
        }
        out := out + [Record(cursor, amount.value, GapEmployer, regime, None)];
      }
      cursor := cursor - 1;
      included := included + 1;
    }
    return Ok(out);
  }

  /** The constructor as the engine runs it: validation, ingestion and the
      parameter lookup, or the first error met. */
  method Create(inputs: seq<Input>, retirementText: string, regimeText: string, sexText: string, tables: Tables)
    returns (r: Result<Simulator>)
    ensures r.Ok? <==> Setup(inputs, retirementText, regimeText, sexText, tables).Ok?
    ensures r.Err? ==> r.error == Setup(inputs, retirementText, regimeText, sexText, tables).error
    ensures r.Ok? ==> fresh(r.value) && r.value.processed == [] && r.value.tables == tables
                      && r.value.Settings() == Setup(inputs, retirementText, regimeText, sexText, tables).value
  {
    var regime := Upper(regimeText);
    var sex := Upper(sexText);
    if |inputs| == 0 {
      return Err(EmptyRecordSet);
    }
    var retirement := Parse(retirementText);
    if retirement.None? {
      return Err(InvalidDate(retirementText));
    }
    if !IsRegime(regime) {
      return Err(InvalidRegime(regime));
    }
    var bases := ProcessInputs(inputs, tables.caps);
    if bases.Err? {
      return Err(bases.error);
    }
    var yearParams := LookupParams(tables.params, YearOf(retirement.value));
    if yearParams.Err? {
      return Err(yearParams.error);
    }
    var s := new Simulator(Config(bases.value, retirement.value, regime, sex, yearParams.value), tables);
    return Ok(s);
  }
}
