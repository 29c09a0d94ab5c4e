/** The reference tables the engine reads, keyed by calendar year, and the
    nearest-year lookups on them. A table is the list of its entries in the
    order the configuration lists them. */
module Tables {
  import opened Wrappers
  import opened Money

  datatype Entry<V> = Entry(year: int, value: V)

  /** `parametros_computo_anual`: how many monthly bases enter the computation
      window (`bases_incluidas`), the period in months (`periodo_meses`) and
      the divisor of the regulatory base (`divisor_base_reguladora`). */
  datatype Params = Params(included: int, months: int, divisor: real)

  /** `topes_cotizacion`: the monthly minimum and maximum contribution bases. */
  datatype Caps = Caps(minimum: Cents, maximum: Cents)

  /** The three tables, given to the engine instead of read from a global. */
  datatype Tables = Tables(params: seq<Entry<Params>>, indices: map<int, real>, caps: seq<Entry<Caps>>)

  function Distance(a: int, b: int): (d: nat)
    ensures d == a - b || d == b - a
  {
    if a <= b then b - a else a - b
  }

  /** Whether some entry is for `year` (`year in table`). */
  predicate HasYear<V>(t: seq<Entry<V>>, year: int)
  {
    exists i :: 0 <= i < |t| && t[i].year == year
  }

  /** Position of the first entry for `year`. */
  function FindYear<V>(t: seq<Entry<V>>, year: int): (r: Option<nat>)
    ensures r.Some? <==> HasYear(t, year)
    ensures r.Some? ==> r.value < |t| && t[r.value].year == year
    ensures r.Some? ==> forall j :: 0 <= j < r.value ==> t[j].year != year
  {
    if t == [] then None
    else if t[0].year == year then Some(0)
    else match FindYear(t[1..], year)
      case None => None
      case Some(i) => Some(i + 1)
  }

  /** `min(keys, key=lambda x: abs(x - year))` over the table order: the first
      entry whose year is nearest. */
  function FirstNearest<V>(t: seq<Entry<V>>, year: int): (i: nat)
    requires |t| > 0
    ensures i < |t|
    ensures forall j :: 0 <= j < |t| ==> Distance(t[i].year, year) <= Distance(t[j].year, year)
    ensures forall j :: 0 <= j < i ==> Distance(t[i].year, year) < Distance(t[j].year, year)
  {
    if |t| == 1 then 0
    else
      var k := FirstNearest(t[..|t| - 1], year);
      if Distance(t[|t| - 1].year, year) < Distance(t[k].year, year) then |t| - 1 else k
  }

  /** `min(sorted(keys), key=lambda x: abs(x - year))`: among the nearest
      entries, one with the smallest year. */
  function SmallestNearest<V>(t: seq<Entry<V>>, year: int): (i: nat)
    requires |t| > 0
    ensures i < |t|
    ensures forall j :: 0 <= j < |t| ==> Distance(t[i].year, year) <= Distance(t[j].year, year)
    ensures forall j :: 0 <= j < |t| && Distance(t[j].year, year) == Distance(t[i].year, year) ==> t[i].year <= t[j].year
  {
    if |t| == 1 then 0
    else
      var k := SmallestNearest(t[..|t| - 1], year);
      var last := t[|t| - 1];
      var dl, dk := Distance(last.year, year), Distance(t[k].year, year);
      if dl < dk || (dl == dk && last.year < t[k].year) then |t| - 1 else k
  }

  /** `get_parametros_computo` for a year: the exact year's entry, else the
      nearest year, ties going to the smaller year; no entry at all is an
      error. */
  function LookupParams(t: seq<Entry<Params>>, year: int): (r: Result<Params>)
    ensures r.Err? <==> |t| == 0
    ensures r.Err? ==> r.error == EmptyTable("parametros_computo")
    ensures HasYear(t, year) ==> r.Ok? && exists i :: 0 <= i < |t| && t[i].year == year && r.value == t[i].value
    ensures r.Ok? ==> exists i :: (0 <= i < |t| && r.value == t[i].value
                                   && (forall j :: 0 <= j < |t| ==> Distance(t[i].year, year) <= Distance(t[j].year, year))
                                   && (forall j :: 0 <= j < |t| && Distance(t[j].year, year) == Distance(t[i].year, year)
                                         ==> t[i].year <= t[j].year))
  {
    match FindYear(t, year)
    case Some(i) =>
      assert forall j :: 0 <= j < |t| ==> Distance(t[i].year, year) <= Distance(t[j].year, year);
      Ok(t[i].value)
    case None =>
      if |t| == 0 then Err(EmptyTable("parametros_computo")) else Ok(t[SmallestNearest(t, year)].value)
  }

  /** `_obtener_topes_año`: the exact year's caps, else the caps of the first
      nearest year in table order; no entry at all is an error. */
  function LookupCaps(t: seq<Entry<Caps>>, year: int): (r: Result<Caps>)
    ensures r.Err? <==> |t| == 0
    ensures r.Err? ==> r.error == EmptyTable("topes_cotizacion")
    ensures r.Ok? ==> exists i :: (0 <= i < |t| && r.value == t[i].value
                                   && (forall j :: 0 <= j < |t| ==> Distance(t[i].year, year) <= Distance(t[j].year, year))
                                   && (forall j :: 0 <= j < i ==> Distance(t[i].year, year) < Distance(t[j].year, year)))
  {
    match FindYear(t, year)
    case Some(i) => Ok(t[i].value)
    case None =>
      if |t| == 0 then Err(EmptyTable("topes_cotizacion")) else Ok(t[FirstNearest(t, year)].value)
  }

  /** Looking up a year the table has gives that year's entry. */
  lemma {:induction false} LookupCapsExact(t: seq<Entry<Caps>>, year: int, i: nat)
    requires i < |t| && t[i].year == year
    requires forall j :: 0 <= j < |t| && j != i ==> t[j].year != year
    ensures LookupCaps(t, year) == Ok(t[i].value)
  {
  }

  /** With distinct years, the exact-year branch agrees with the nearest-year
      rule: the nearest entry to a year the table has is that year's. */
  lemma {:induction false} NearestOfPresentYear<V>(t: seq<Entry<V>>, year: int)
    requires HasYear(t, year)
    ensures t[FirstNearest(t, year)].year == year
    ensures t[SmallestNearest(t, year)].year == year
  {
    var i :| 0 <= i < |t| && t[i].year == year;
    var f, s := FirstNearest(t, year), SmallestNearest(t, year);
    assert Distance(t[f].year, year) <= Distance(t[i].year, year) == 0;
    assert Distance(t[s].year, year) <= Distance(t[i].year, year) == 0;
  }

  /** `_obtener_base_minima_año`: the minimum base of the year's caps. */
  function MinimumBase(t: seq<Entry<Caps>>, year: int): (r: Result<Cents>)
    ensures r.Ok? <==> |t| > 0
    ensures r.Ok? ==> r.value == LookupCaps(t, year).value.minimum
  {
    var caps :- LookupCaps(t, year);
    Ok(caps.minimum)
  }

  /** Ties in distance: the caps lookup keeps the first entry in table order,
      the parameter lookup the smaller year. */
  lemma {:induction false} TieBreaks()
    ensures LookupCaps([Entry(2026, Caps(2, 20)), Entry(2024, Caps(1, 10))], 2025) == Ok(Caps(2, 20))
    ensures LookupParams([Entry(2026, Params(2, 2, 2.0)), Entry(2024, Params(1, 1, 1.0))], 2025) == Ok(Params(1, 1, 1.0))
  {
    var c := [Entry(2026, Caps(2, 20)), Entry(2024, Caps(1, 10))];
    var p := [Entry(2026, Params(2, 2, 2.0)), Entry(2024, Params(1, 1, 1.0))];
    assert FindYear(c, 2025).None?;
    assert FindYear(p, 2025).None?;
    assert FirstNearest(c[..1], 2025) == 0;
    assert SmallestNearest(p[..1], 2025) == 0;
  }
}
