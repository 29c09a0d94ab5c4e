/** Ingestion of the engine's input records (`_procesar_bases_extraidas`):
    negative amounts are refused, the entries are grouped by their month text,
    a month worked for several employers is merged into one capped record, and
    the records are ordered from the most recent month back. */
module Ingestion {
  import opened Wrappers
  import opened Money
  import opened Text
  import opened MonthYear
  import opened Records
  import opened Tables
  import opened Sorting

  /** Position of the first entry with a negative amount. */
  function FirstNegative(inputs: seq<Input>): (r: Option<nat>)
    ensures r.Some? ==> r.value < |inputs| && inputs[r.value].base < 0.0
    ensures r.Some? ==> forall j :: 0 <= j < r.value ==> inputs[j].base >= 0.0
    ensures r.None? ==> forall j :: 0 <= j < |inputs| ==> inputs[j].base >= 0.0
  {
    if inputs == [] then None
    else if inputs[0].base < 0.0 then Some(0)
    else match FirstNegative(inputs[1..])
      case None => None
      case Some(i) => Some(i + 1)
  }

  /** The distinct month texts of the entries, in order of first appearance
      (the key order of the `bases_por_mes` dictionary). */
  function Months(inputs: seq<Input>): seq<string>
  {
    if inputs == [] then []
    else
      var before := Months(inputs[..|inputs| - 1]);
      var m := inputs[|inputs| - 1].month;
      if m in before then before else before + [m]
  }

  /** The entries for month text `m`, in input order (`bases_por_mes[m]`). */
  function OfMonth(inputs: seq<Input>, m: string): seq<Input>
  {
    if inputs == [] then []
    else
      var before := OfMonth(inputs[..|inputs| - 1], m);
      if inputs[|inputs| - 1].month == m then before + [inputs[|inputs| - 1]] else before
  }

  /** Each month text is listed once. */
  lemma {:induction false} MonthsDistinct(inputs: seq<Input>)
    ensures forall i, j :: 0 <= i < j < |Months(inputs)| ==> Months(inputs)[i] != Months(inputs)[j]
  {
    if inputs != [] {
      MonthsDistinct(inputs[..|inputs| - 1]);
    }
  }

  /** A month is listed exactly when some entry has it, and then it has entries. */
  lemma {:induction false} MonthsListed(inputs: seq<Input>, m: string)
    ensures m in Months(inputs) <==> exists i :: 0 <= i < |inputs| && inputs[i].month == m
    ensures m in Months(inputs) <==> |OfMonth(inputs, m)| > 0
  {
    if inputs != [] {
      var init := inputs[..|inputs| - 1];
      MonthsListed(init, m);
      if exists i :: 0 <= i < |inputs| && inputs[i].month == m {
        var i :| 0 <= i < |inputs| && inputs[i].month == m;
        if i < |inputs| - 1 {
          assert init[i].month == m;
        }
      }
      if exists i :: 0 <= i < |init| && init[i].month == m {
        var i :| 0 <= i < |init| && init[i].month == m;
        assert inputs[i].month == m;
      }
    }
  }

  lemma {:induction false} MonthHasEntries(inputs: seq<Input>, k: nat)
    requires k < |Months(inputs)|
    ensures |OfMonth(inputs, Months(inputs)[k])| > 0
  {
    MonthsListed(inputs, Months(inputs)[k]);
  }

  /** The entries grouped under a month all have that month, and each entry of
      that month is among them. */
  lemma {:induction false} OfMonthMembers(inputs: seq<Input>, m: string)
    ensures forall x :: x in OfMonth(inputs, m) ==> x in inputs && x.month == m
  {
    if inputs != [] {
      OfMonthMembers(inputs[..|inputs| - 1], m);
      forall x | x in inputs[..|inputs| - 1] ensures x in inputs {
        var i :| 0 <= i < |inputs| - 1 && inputs[..|inputs| - 1][i] == x;
        assert inputs[i] == x;
      }
    }
  }

  /** The sum of the amounts of a month's entries (`suma_bruta`), in euros. */
  function GrossSum(group: seq<Input>): real
  {
    if group == [] then 0.0 else group[0].base + GrossSum(group[1..])
  }

  /** `max(bases_mes, key=base)`: the first entry with the largest amount. */
  function Largest(group: seq<Input>): (i: nat)
    requires |group| > 0
    ensures i < |group|
    ensures forall j :: 0 <= j < |group| ==> group[j].base <= group[i].base
    ensures forall j :: 0 <= j < i ==> group[j].base < group[i].base
  {
    if |group| == 1 then 0
    else
      var k := Largest(group[..|group| - 1]);
      if group[|group| - 1].base > group[k].base then |group| - 1 else k
  }

  /** The employers of a month's entries, in order (`empresas_detalle`). */
  function Employers(group: seq<Input>): (e: seq<string>)
    ensures |e| == |group| && forall k :: 0 <= k < |group| ==> e[k] == group[k].employer
  {
    seq(|group|, k requires 0 <= k < |group| => group[k].employer)
  }

  /** "PLURIACTIVIDAD_<n>_EMPRESAS". */
  function MultiEmployerName(n: nat): string
  {
    "PLURIACTIVIDAD_" + NatToString(n) + "_EMPRESAS"
  }

  datatype Capped = Capped(base: Cents, tag: CapTag)

  /** The gross sum (in euros) held to the year's caps: below the minimum it
      becomes the minimum, otherwise above the maximum it becomes the maximum,
      otherwise it is kept, rounded to cents. */
  function Clamp(gross: real, caps: Caps): (r: Capped)
    ensures r.tag == MinCap <==> gross * 100.0 < caps.minimum as real
    ensures r.tag == MaxCap <==> caps.minimum as real <= gross * 100.0 && gross * 100.0 > caps.maximum as real
    ensures r.tag == MinCap ==> r.base == caps.minimum
    ensures r.tag == MaxCap ==> r.base == caps.maximum
    ensures r.tag == NoCap ==> r.base == ToCents(gross)
    ensures caps.minimum <= caps.maximum ==> caps.minimum <= r.base <= caps.maximum
  {
    if gross * 100.0 < caps.minimum as real then Capped(caps.minimum, MinCap)
    else if gross * 100.0 > caps.maximum as real then Capped(caps.maximum, MaxCap)
    else
      RoundHalfUpMonotone(caps.minimum as real, gross * 100.0);
      RoundHalfUpMonotone(gross * 100.0, caps.maximum as real);
      RoundHalfUpOfWhole(caps.minimum);
      RoundHalfUpOfWhole(caps.maximum);
      Capped(ToCents(gross), NoCap)
  }

  /** `int(m.split("/")[1])`: the year `_agregar_bases_mes` reads from a
      month text, the piece after its first '/', when that piece is a whole
      number. */
  function YearField(m: string): Option<int>
  {
    var parts := Split(m, "/");
    if |parts| < 2 then None else IntValue(parts[1])
  }

  /** On a month text that parses, the year field is the month's year. */
  lemma {:induction false} ParseYearField(m: string)
    requires Parse(m).Some?
    ensures YearField(m) == Some(YearOf(Parse(m).value))
  {
    var year := m[3..];
    YearDigits(m, year);
    MonthTextSplit(m, year);
    IntValueDigits(year);
    var month := 10 * DigitValue(m[0]) + DigitValue(m[1]);
    assert Parse(m).value == Index(DigitsValue(year), month);
    IndexParts(DigitsValue(year), month);
  }

  /** A month text that parses splits at its '/' into the month and the year. */
  lemma {:induction false} MonthTextSplit(m: string, year: string)
    requires Parse(m).Some? && year == m[3..] && AllDigits(year)
    ensures Split(m, "/") == [m[..2], year]
  {
    assert !StartsAt(m, 0, "/") && !StartsAt(m, 1, "/") by {
      assert IsDigit(m[0]) && IsDigit(m[1]);
      assert m[0..1][0] == m[0] && m[1..2][0] == m[1];
    }
    assert StartsAt(m, 2, "/") by {
      assert m[2..3] == "/";
    }
    assert Find(m, "/") == Some(2);
    assert m[2 + |"/"|..] == year;
    DigitsHaveNoSlash(year);
  }

  lemma {:induction false} DigitsHaveNoSlash(t: string)
    requires AllDigits(t)
    ensures !Contains(t, "/")
  {
    forall p | 0 <= p < |t| ensures !StartsAt(t, p, "/") {
      assert IsDigit(t[p]);
      assert p + 1 <= |t| ==> t[p..p + 1][0] == t[p];
    }
  }

  /** The four digits after the '/' of a month text that parses give its year. */
  lemma {:induction false} YearDigits(m: string, year: string)
    requires Parse(m).Some? && year == m[3..]
    ensures AllDigits(year)
    ensures DigitsValue(year) == 1000 * DigitValue(m[3]) + 100 * DigitValue(m[4]) + 10 * DigitValue(m[5]) + DigitValue(m[6])
  {
    var y3, y2, y1 := year[..3], year[..2], year[..1];
    assert year[0] == m[3] && year[1] == m[4] && year[2] == m[5] && year[3] == m[6];
    assert y3[..2] == y2 && y2[..1] == y1 && y1[..0] == [];
    assert DigitsValue(y1) == DigitValue(m[3]);
    assert DigitsValue(y2) == 10 * DigitValue(m[3]) + DigitValue(m[4]);
    assert DigitsValue(y3) == 10 * DigitsValue(y2) + DigitValue(m[5]);
  }

  /** `_agregar_bases_mes` and the record built from it: the gross sum held to
      the caps of the month's year, the regime of the largest entry, the
      employer "PLURIACTIVIDAD_<n>_EMPRESAS", and the entries, their rounded
      gross sum, the cap applied and their employers kept as metadata. */
  function Aggregate(group: seq<Input>, m: string, capsTable: seq<Entry<Caps>>): Result<Record<string>>
    requires |group| > 0
  {
    match YearField(m)
    case None => Err(InvalidYear(m))
    case Some(year) =>
      var caps :- LookupCaps(capsTable, year);
      var gross := GrossSum(group);
      var capped := Clamp(gross, caps);
      Ok(Record(m, capped.base, MultiEmployerName(|group|), group[Largest(group)].regime,
                Some(MultiEmployer(group, ToCents(gross), capped.tag, Employers(group)))))
  }

  /** A month worked for several employers fails only on an unreadable month
      or an empty caps table; otherwise its record holds the gross sum held to
      the caps of the month's year, the regime of the first largest entry, the
      employer "PLURIACTIVIDAD_<n>_EMPRESAS", and as metadata the entries,
      their rounded gross sum, the cap applied and their employers. */
  lemma {:induction false} AggregateMerges(group: seq<Input>, m: string, capsTable: seq<Entry<Caps>>)
    requires |group| > 1
    ensures var r := Combine(group, m, capsTable);
      && (r.Err? <==> YearField(m).None? || |capsTable| == 0)
      && (YearField(m).None? ==> r == Err(InvalidYear(m)))
      && (r.Ok? ==>
            var caps := LookupCaps(capsTable, YearField(m).value).value;
            var gross := GrossSum(group);
            && r.value.month == m
            && r.value.base == Clamp(gross, caps).base
            && (caps.minimum <= caps.maximum ==> caps.minimum <= r.value.base <= caps.maximum)
            && r.value.employer == MultiEmployerName(|group|)
            && (forall j :: 0 <= j < |group| ==> group[j].base <= group[Largest(group)].base)
            && r.value.regime == group[Largest(group)].regime
            && r.value.multi == Some(MultiEmployer(group, ToCents(gross), Clamp(gross, caps).tag, Employers(group))))
  {
  }

  /** A month with a single entry passes through: amount rounded to cents,
      employer and regime unchanged, no metadata. */
  lemma {:induction false} LonePassesThrough(group: seq<Input>, m: string, capsTable: seq<Entry<Caps>>)
    requires |group| == 1
    ensures Combine(group, m, capsTable) == Ok(Record(m, ToCents(group[0].base), group[0].employer, group[0].regime, None))
  {
  }

  /** One month's record: a lone entry passes through with its amount rounded
      and its employer and regime unchanged; several entries are merged. */
  function Combine(group: seq<Input>, m: string, capsTable: seq<Entry<Caps>>): Result<Record<string>>
    requires |group| > 0
  {
    if |group| == 1 then Ok(NewRecord(m, Some(group[0].base), group[0].employer, group[0].regime))
    else Aggregate(group, m, capsTable)
  }

  /** The record of the `j`-th month of the input, or why it cannot be made. */
  function MonthResult(inputs: seq<Input>, capsTable: seq<Entry<Caps>>, j: nat): Result<Record<string>>
    requires j < |Months(inputs)|
  {
    MonthHasEntries(inputs, j);
    Combine(OfMonth(inputs, Months(inputs)[j]), Months(inputs)[j], capsTable)
  }

  /** The outcome of each month of the input, by position. */
  function MonthResults(inputs: seq<Input>, capsTable: seq<Entry<Caps>>): nat --> Result<Record<string>>
  {
    (j: nat) requires j < |Months(inputs)| => MonthResult(inputs, capsTable, j)
  }

  /** The values of `f` at `k`, ..., `n - 1` appended to `done`; the first
      failure stops the run with its error. */
  function Collect<T>(f: nat --> Result<T>, k: nat, n: nat, done: seq<T>): Result<seq<T>>
    requires k <= n
    requires forall j :: k <= j < n ==> f.requires(j)
    decreases n - k
  {
    if k == n then Ok(done)
    else
      var x :- f(k);
      Collect(f, k + 1, n, done + [x])
  }

  /** One record per month, in order of first appearance; the first month
      that cannot be merged stops the run with its error. */
  function Combined(inputs: seq<Input>, capsTable: seq<Entry<Caps>>): Result<seq<Record<string>>>
  {
    Collect(MonthResults(inputs, capsTable), 0, |Months(inputs)|, [])
  }

  /** A successful run keeps what is done and adds the value of each
      remaining position, in order. */
  lemma {:induction false} CollectShape<T>(f: nat --> Result<T>, k: nat, n: nat, done: seq<T>)
    requires k <= n
    requires forall j :: k <= j < n ==> f.requires(j)
    requires Collect(f, k, n, done).Ok?
    ensures var r := Collect(f, k, n, done).value;
      && |r| == |done| + n - k
      && r[..|done|] == done
      && forall j :: k <= j < n ==> f(j) == Ok(r[|done| + j - k])
    decreases n - k
  {
    if k < n {
      var x := f(k).value;
      CollectShape(f, k + 1, n, done + [x]);
      var r := Collect(f, k, n, done).value;
      assert r[..|done| + 1][..|done|] == r[..|done|];
      assert r[..|done| + 1][|done|] == x;
    }
  }

  /** One step of a run: a failure at `k` ends it, a value is appended. */
  lemma {:induction false} CollectStep<T>(f: nat --> Result<T>, k: nat, n: nat, done: seq<T>)
    requires k < n
    requires forall j :: k <= j < n ==> f.requires(j)
    ensures Collect(f, k, n, done) ==
      if f(k).Err? then Err(f(k).error) else Collect(f, k + 1, n, done + [f(k).value])
  {
  }

  /** The run succeeds exactly when every remaining position succeeds. */
  lemma {:induction false} CollectOk<T>(f: nat --> Result<T>, k: nat, n: nat, done: seq<T>)
    requires k <= n
    requires forall j :: k <= j < n ==> f.requires(j)
    ensures Collect(f, k, n, done).Ok? <==> forall j :: k <= j < n ==> f(j).Ok?
    decreases n - k
  {
    if k < n {
      if f(k).Ok? {
        CollectOk(f, k + 1, n, done + [f(k).value]);
        if forall j :: k + 1 <= j < n ==> f(j).Ok? {
          forall j | k <= j < n ensures f(j).Ok? {
            if j > k {
              assert k + 1 <= j < n;
            }
          }
        }
      }
    }
  }

  /** A successful ingestion run has one record per month of the input, the
      record of that month. */
  lemma {:induction false} CombinedShape(inputs: seq<Input>, capsTable: seq<Entry<Caps>>)
    requires Combined(inputs, capsTable).Ok?
    ensures var r := Combined(inputs, capsTable).value;
      && |r| == |Months(inputs)|
      && forall j :: 0 <= j < |Months(inputs)| ==>
           var m := Months(inputs)[j];
           |OfMonth(inputs, m)| > 0 && Combine(OfMonth(inputs, m), m, capsTable) == Ok(r[j])
  {
    var r := Combined(inputs, capsTable).value;
    CollectAll(MonthResults(inputs, capsTable), |Months(inputs)|);
    forall j | 0 <= j < |Months(inputs)|
      ensures |OfMonth(inputs, Months(inputs)[j])| > 0
      ensures Combine(OfMonth(inputs, Months(inputs)[j]), Months(inputs)[j], capsTable) == Ok(r[j])
    {
      MonthShape(inputs, capsTable, j, r[j]);
    }
  }

  /** A run from the first position with nothing done yields the value of
      each position, in order. */
  lemma {:induction false} CollectAll<T>(f: nat --> Result<T>, n: nat)
    requires forall j :: 0 <= j < n ==> f.requires(j)
    requires Collect(f, 0, n, []).Ok?
    ensures var r := Collect(f, 0, n, []).value;
      && |r| == n
      && forall j :: 0 <= j < n ==> f(j) == Ok(r[j])
  {
    var none: seq<T> := [];
    CollectShape(f, 0, n, none);
    var r := Collect(f, 0, n, none).value;
    forall j | 0 <= j < n ensures f(j) == Ok(r[j]) {
      assert f(j) == Ok(r[|none| + j - 0]);
    }
  }

  /** The outcome of the `j`-th month, when it is a record, is the merge of
      that month's entries. */
  lemma {:induction false} MonthShape(inputs: seq<Input>, capsTable: seq<Entry<Caps>>, j: nat, x: Record<string>)
    requires j < |Months(inputs)|
    requires MonthResults(inputs, capsTable)(j) == Ok(x)
    ensures |OfMonth(inputs, Months(inputs)[j])| > 0
    ensures Combine(OfMonth(inputs, Months(inputs)[j]), Months(inputs)[j], capsTable) == Ok(x)
  {
    MonthHasEntries(inputs, j);
    assert MonthResults(inputs, capsTable)(j) == MonthResult(inputs, capsTable, j);
  }

  /** A record with its month text replaced by the month's index. */
  function Dated(r: Record<string>, month: int): Record<int>
  {
    Record(month, r.base, r.employer, r.regime, r.multi)
  }

  /** The records with their month texts parsed (the sort key of line 166);
      the first text that is not a month stops the run. */
  function DateAll(rs: seq<Record<string>>): (r: Result<seq<Record<int>>>)
    ensures r.Ok? <==> forall k :: 0 <= k < |rs| ==> Parse(rs[k].month).Some?
    ensures r.Ok? ==> |r.value| == |rs|
    ensures r.Ok? ==> forall k :: 0 <= k < |rs| ==> r.value[k] == Dated(rs[k], Parse(rs[k].month).value)
  {
    if rs == [] then Ok([])
    else
      match Parse(rs[0].month)
      case None => Err(InvalidDate(rs[0].month))
      case Some(index) =>
        var rest :- DateAll(rs[1..]);
        Ok([Dated(rs[0], index)] + rest)
  }

  /** Sort key of `sort(key=date, reverse=True)`: most recent first. */
  function NegMonth(r: Record<int>): int
  {
    -r.month
  }

  /** `_procesar_bases_extraidas`: the records of the engine, one per month,
      from the most recent back. */
  function Ingest(inputs: seq<Input>, capsTable: seq<Entry<Caps>>): Result<seq<Record<int>>>
  {
    match FirstNegative(inputs)
    case Some(i) => Err(NegativeBase(inputs[i].base))
    case None =>
      var combined :- Combined(inputs, capsTable);
      var dated :- DateAll(combined);
      Ok(Sort(dated, NegMonth))
  }

  /** The grouping of the input entries by month text. */
  datatype Grouping = Grouping(order: seq<string>, groups: map<string, seq<Input>>)

  /** The first loop of `_procesar_bases_extraidas`: refuses the first negative
      amount, and otherwise groups the entries by month text. */
  method GroupByMonth(inputs: seq<Input>) returns (r: Result<Grouping>)
    ensures r.Err? <==> FirstNegative(inputs).Some?
    ensures r.Err? ==> r.error == NegativeBase(inputs[FirstNegative(inputs).value].base)
    ensures r.Ok? ==> r.value.order == Months(inputs)
    ensures r.Ok? ==> forall m :: m in r.value.groups <==> m in r.value.order
    ensures r.Ok? ==> forall m :: m in r.value.groups ==> r.value.groups[m] == OfMonth(inputs, m)
  {
    var order: seq<string> := [];
    var groups: map<string, seq<Input>> := map[];
    for i := 0 to |inputs|
      invariant Groups(order, groups, inputs[..i])
      invariant FirstNegative(inputs[..i]) == None
    {
      var x := inputs[i];
      FirstNegativeStep(inputs, i);
      if x.base < 0.0 {
        return Err(NegativeBase(x.base));
      }
      GroupsStep(inputs, i, order, groups);
      if x.month !in groups {
        groups := groups[x.month := []];
        order := order + [x.month];
      }
      groups := groups[x.month := groups[x.month] + [x]];
    }
    assert inputs[..|inputs|] == inputs;
    return Ok(Grouping(order, groups));
  }

  /** `order` lists the month texts of `s` and `groups` holds, under each of
      them and no other, the entries of that month. */
  ghost predicate Groups(order: seq<string>, groups: map<string, seq<Input>>, s: seq<Input>)
  {
    && order == Months(s)
    && (forall m :: m in groups <==> m in order)
    && (forall m :: m in groups ==> groups[m] == OfMonth(s, m))
  }

  /** Filing one more entry under its month keeps the grouping exact. */
  lemma {:induction false} GroupsStep(inputs: seq<Input>, i: nat, order: seq<string>, groups: map<string, seq<Input>>)
    requires i < |inputs| && Groups(order, groups, inputs[..i])
    ensures var x := inputs[i];
      var filed := if x.month in groups then groups else groups[x.month := []];
      Groups(if x.month in groups then order else order + [x.month],
             filed[x.month := filed[x.month] + [x]], inputs[..i + 1])
  {
    var x := inputs[i];
    var filed := if x.month in groups then groups else groups[x.month := []];
    var after := filed[x.month := filed[x.month] + [x]];
    MonthsStep(inputs, i);
    if x.month !in groups {
      UnlistedMonth(inputs[..i], x.month);
    }
    forall m | m in after ensures after[m] == OfMonth(inputs[..i + 1], m) {
      OfMonthStep(inputs, i, m);
    }
  }

  /** With no negative amount among the first `i`, the first negative
      amount is at `i` when that one is negative, and otherwise there is none
      among the first `i + 1`. */
  lemma {:induction false} FirstNegativeStep(inputs: seq<Input>, i: nat)
    requires i < |inputs|
    requires FirstNegative(inputs[..i]) == None
    ensures inputs[i].base < 0.0 ==> FirstNegative(inputs) == Some(i)
    ensures inputs[i].base >= 0.0 ==> FirstNegative(inputs[..i + 1]) == None
  {
    var s := inputs[..i + 1];
    assert forall j :: 0 <= j < i ==> inputs[..i][j] == inputs[j];
    assert forall j :: 0 <= j <= i ==> s[j] == inputs[j];
  }

  /** A month that is not listed has no entries. */
  lemma {:induction false} UnlistedMonth(inputs: seq<Input>, m: string)
    requires m !in Months(inputs)
    ensures OfMonth(inputs, m) == []
  {
    MonthsListed(inputs, m);
  }

  /** One more entry adds its month to the list when it is new. */
  lemma {:induction false} MonthsStep(inputs: seq<Input>, i: nat)
    requires i < |inputs|
    ensures Months(inputs[..i + 1]) ==
      if inputs[i].month in Months(inputs[..i]) then Months(inputs[..i]) else Months(inputs[..i]) + [inputs[i].month]
  {
    var s := inputs[..i + 1];
    assert s[..|s| - 1] == inputs[..i] && s[|s| - 1] == inputs[i];
  }

  /** One more entry joins the entries of its month and no other. */
  lemma {:induction false} OfMonthStep(inputs: seq<Input>, i: nat, m: string)
    requires i < |inputs|
    ensures OfMonth(inputs[..i + 1], m) ==
      if inputs[i].month == m then OfMonth(inputs[..i], m) + [inputs[i]] else OfMonth(inputs[..i], m)
  {
    var s := inputs[..i + 1];
    assert s[..|s| - 1] == inputs[..i] && s[|s| - 1] == inputs[i];
  }

  /** The second loop of `_procesar_bases_extraidas`: one record per month, in
      the grouping's order. */
  method CombineAll(inputs: seq<Input>, g: Grouping, capsTable: seq<Entry<Caps>>) returns (r: Result<seq<Record<string>>>)
    requires g.order == Months(inputs)
    requires forall m :: m in g.groups <==> m in g.order
    requires forall m :: m in g.groups ==> g.groups[m] == OfMonth(inputs, m)
    ensures r == Combined(inputs, capsTable)
  {
    var out: seq<Record<string>> := [];
    for k := 0 to |g.order|
      invariant Combined(inputs, capsTable) == Collect(MonthResults(inputs, capsTable), k, |Months(inputs)|, out)
    {
      var m := g.order[k];
      assert m in g.groups;
      MonthOfGroup(inputs, capsTable, k, g.groups[m]);
      var rec := Combine(g.groups[m], m, capsTable);
      CollectStep(MonthResults(inputs, capsTable), k, |Months(inputs)|, out);
      if rec.Err? {
        return Err(rec.error);
      }
      out := out + [rec.value];
    }
    return Ok(out);
  }

  /** The outcome of the `k`-th month is the merge of its group. */
  lemma {:induction false} MonthOfGroup(inputs: seq<Input>, capsTable: seq<Entry<Caps>>, k: nat, group: seq<Input>)
    requires k < |Months(inputs)|
    requires group == OfMonth(inputs, Months(inputs)[k])
    ensures |group| > 0
    ensures MonthResults(inputs, capsTable)(k) == Combine(group, Months(inputs)[k], capsTable)
  {
    MonthHasEntries(inputs, k);
    assert MonthResults(inputs, capsTable)(k) == MonthResult(inputs, capsTable, k);
  }

  /** `_procesar_bases_extraidas` as the engine runs it. */
  method ProcessInputs(inputs: seq<Input>, capsTable: seq<Entry<Caps>>) returns (r: Result<seq<Record<int>>>)
    ensures r == Ingest(inputs, capsTable)
  {
    var grouped := GroupByMonth(inputs);
    if grouped.Err? {
      return Err(grouped.error);
    }
    var combined := CombineAll(inputs, grouped.value, capsTable);
    if combined.Err? {
      return Err(combined.error);
    }
    var dated := DateAll(combined.value);
    if dated.Err? {
      return Err(dated.error);
    }
    return Ok(Sort(dated.value, NegMonth));
  }

  /** A combined record carries the month text of its group. */
  lemma {:induction false} CombineKeepsMonth(group: seq<Input>, m: string, capsTable: seq<Entry<Caps>>)
    requires |group| > 0
    requires Combine(group, m, capsTable).Ok?
    ensures Combine(group, m, capsTable).value.month == m
  {
  }

  /** A month's record is made exactly when the month has one entry, or its
      text is a month and there are caps to hold the sum to. */
  lemma {:induction false} CombineOk(group: seq<Input>, m: string, capsTable: seq<Entry<Caps>>)
    requires |group| > 0
    ensures Combine(group, m, capsTable).Ok? <==> |group| == 1 || (YearField(m).Some? && |capsTable| > 0)
  {
  }

  /** What a successful ingestion is made of: the record of each month, in
      order of first appearance, dated and then sorted. */
  lemma {:induction false} IngestParts(inputs: seq<Input>, capsTable: seq<Entry<Caps>>)
    requires Ingest(inputs, capsTable).Ok?
    ensures FirstNegative(inputs).None? && Combined(inputs, capsTable).Ok?
    ensures var combined := Combined(inputs, capsTable).value;
      && |combined| == |Months(inputs)|
      && DateAll(combined).Ok?
      && Ingest(inputs, capsTable).value == Sort(DateAll(combined).value, NegMonth)
      && forall j :: 0 <= j < |Months(inputs)| ==>
           var m := Months(inputs)[j];
           && |OfMonth(inputs, m)| > 0
           && Combine(OfMonth(inputs, m), m, capsTable) == Ok(combined[j])
           && Parse(m).Some?
           && DateAll(combined).value[j] == Dated(combined[j], Parse(m).value)
  {
    var combined := Combined(inputs, capsTable).value;
    CombinedShape(inputs, capsTable);
    forall j | 0 <= j < |Months(inputs)| ensures combined[j].month == Months(inputs)[j] {
      MonthHasEntries(inputs, j);
      CombineKeepsMonth(OfMonth(inputs, Months(inputs)[j]), Months(inputs)[j], capsTable);
    }
  }

  /** The engine's records run strictly from the most recent month back: one
      record per month. */
  lemma {:induction false} IngestDescending(inputs: seq<Input>, capsTable: seq<Entry<Caps>>)
    requires Ingest(inputs, capsTable).Ok?
    ensures var r := Ingest(inputs, capsTable).value;
      forall i, j :: 0 <= i < j < |r| ==> r[i].month > r[j].month
  {
    IngestParts(inputs, capsTable);
    var dated := DateAll(Combined(inputs, capsTable).value).value;
    MonthsDistinct(inputs);
    forall i, j | 0 <= i < j < |dated| ensures NegMonth(dated[i]) != NegMonth(dated[j]) {
      var a, b := Months(inputs)[i], Months(inputs)[j];
      assert a != b;
      assert dated[i].month == Parse(a).value;
      assert dated[j].month == Parse(b).value;
      ParseInjective(a, b);
    }
    SortStrict(dated, NegMonth);
  }

  /** The record the engine keeps for month text `m` of the input. */
  function MonthRecord(inputs: seq<Input>, capsTable: seq<Entry<Caps>>, m: string): Result<Record<int>>
    requires m in Months(inputs)
  {
    MonthsListed(inputs, m);
    var rec :- Combine(OfMonth(inputs, m), m, capsTable);
    match Parse(m)
    case None => Err(InvalidDate(m))
    case Some(index) => Ok(Dated(rec, index))
  }

  /** The engine's records, before sorting, are the month records in order
      of first appearance. */
  lemma {:induction false} IngestMonthRecords(inputs: seq<Input>, capsTable: seq<Entry<Caps>>)
    requires Ingest(inputs, capsTable).Ok?
    ensures Combined(inputs, capsTable).Ok? && DateAll(Combined(inputs, capsTable).value).Ok?
    ensures var dated := DateAll(Combined(inputs, capsTable).value).value;
      && |dated| == |Months(inputs)|
      && Ingest(inputs, capsTable).value == Sort(dated, NegMonth)
      && forall j :: 0 <= j < |Months(inputs)| ==> MonthRecord(inputs, capsTable, Months(inputs)[j]) == Ok(dated[j])
  {
    IngestParts(inputs, capsTable);
  }

  /** A reordering of the month records holds each month's record, and only those. */
  lemma {:induction false} PermutedMonthRecords(inputs: seq<Input>, capsTable: seq<Entry<Caps>>, dated: seq<Record<int>>, r: seq<Record<int>>)
    requires |dated| == |Months(inputs)| && multiset(r) == multiset(dated)
    requires forall j :: 0 <= j < |Months(inputs)| ==> MonthRecord(inputs, capsTable, Months(inputs)[j]) == Ok(dated[j])
    ensures forall m :: m in Months(inputs) ==> exists k :: 0 <= k < |r| && MonthRecord(inputs, capsTable, m) == Ok(r[k])
    ensures forall k :: 0 <= k < |r| ==> exists m :: m in Months(inputs) && MonthRecord(inputs, capsTable, m) == Ok(r[k])
  {
    var months := Months(inputs);
    forall m | m in months ensures exists k :: 0 <= k < |r| && MonthRecord(inputs, capsTable, m) == Ok(r[k]) {
      var j :| 0 <= j < |months| && months[j] == m;
      assert dated[j] in multiset(r);
      var k :| 0 <= k < |r| && r[k] == dated[j];
    }
    forall k | 0 <= k < |r| ensures exists m :: m in months && MonthRecord(inputs, capsTable, m) == Ok(r[k]) {
      assert r[k] in multiset(dated);
      var j :| 0 <= j < |dated| && dated[j] == r[k];
      assert MonthRecord(inputs, capsTable, months[j]) == Ok(r[k]);
    }
  }

  /** Every input month has its record among the engine's records, and every
      engine record is the record of an input month. */
  lemma {:induction false} IngestCoversMonths(inputs: seq<Input>, capsTable: seq<Entry<Caps>>)
    requires Ingest(inputs, capsTable).Ok?
    ensures var r := Ingest(inputs, capsTable).value;
      && |r| == |Months(inputs)|
      && (forall m :: m in Months(inputs) ==> exists k :: 0 <= k < |r| && MonthRecord(inputs, capsTable, m) == Ok(r[k]))
      && (forall k :: 0 <= k < |r| ==> exists m :: m in Months(inputs) && MonthRecord(inputs, capsTable, m) == Ok(r[k]))
  {
    IngestMonthRecords(inputs, capsTable);
    var dated := DateAll(Combined(inputs, capsTable).value).value;
    PermutedMonthRecords(inputs, capsTable, dated, Sort(dated, NegMonth));
  }

  /** The `j`-th month of the input can be merged into one record. */
  predicate MonthCombines(inputs: seq<Input>, capsTable: seq<Entry<Caps>>, j: nat)
    requires j < |Months(inputs)|
  {
    var m := Months(inputs)[j];
    |OfMonth(inputs, m)| > 0 && Combine(OfMonth(inputs, m), m, capsTable).Ok?
  }

  /** Ingestion's run succeeds exactly when each month can be merged. */
  lemma {:induction false} CombinedOk(inputs: seq<Input>, capsTable: seq<Entry<Caps>>)
    ensures Combined(inputs, capsTable).Ok? <==>
      forall j :: 0 <= j < |Months(inputs)| ==> MonthCombines(inputs, capsTable, j)
  {
    var f := MonthResults(inputs, capsTable);
    CollectOk(f, 0, |Months(inputs)|, []);
    forall j | 0 <= j < |Months(inputs)| ensures f(j).Ok? <==> MonthCombines(inputs, capsTable, j) {
      MonthHasEntries(inputs, j);
    }
  }

  /** Every month text of a successful ingestion parses, and without caps
      every month has a single entry. */
  lemma {:induction false} IngestOkNecessary(inputs: seq<Input>, capsTable: seq<Entry<Caps>>)
    requires Ingest(inputs, capsTable).Ok?
    ensures forall i :: 0 <= i < |inputs| ==> inputs[i].base >= 0.0
    ensures forall i :: 0 <= i < |inputs| ==> Parse(inputs[i].month).Some?
    ensures |capsTable| > 0 || forall i :: 0 <= i < |inputs| ==> |OfMonth(inputs, inputs[i].month)| == 1
  {
    IngestParts(inputs, capsTable);
    var months := Months(inputs);
    forall i | 0 <= i < |inputs| ensures Parse(inputs[i].month).Some? {
      MonthsListed(inputs, inputs[i].month);
    }
    if |capsTable| == 0 {
      forall i | 0 <= i < |inputs| ensures |OfMonth(inputs, inputs[i].month)| == 1 {
        var m := inputs[i].month;
        MonthsListed(inputs, m);
        var j :| 0 <= j < |months| && months[j] == m;
        CombineOk(OfMonth(inputs, m), m, capsTable);
      }
    }
  }

  /** Every month of the input can be merged when all month texts parse and
      there are caps or no month has several entries. */
  lemma {:induction false} MonthsCombine(inputs: seq<Input>, capsTable: seq<Entry<Caps>>)
    requires forall i :: 0 <= i < |inputs| ==> Parse(inputs[i].month).Some?
    requires |capsTable| > 0 || forall i :: 0 <= i < |inputs| ==> |OfMonth(inputs, inputs[i].month)| == 1
    ensures forall j :: 0 <= j < |Months(inputs)| ==> MonthCombines(inputs, capsTable, j)
  {
    var months := Months(inputs);
    forall j | 0 <= j < |months| ensures MonthCombines(inputs, capsTable, j) {
      var m := months[j];
      MonthsListed(inputs, m);
      ParseYearField(m);
      CombineOk(OfMonth(inputs, m), m, capsTable);
    }
  }

  /** The combined records of inputs whose month texts all parse can be dated. */
  lemma {:induction false} CombinedDates(inputs: seq<Input>, capsTable: seq<Entry<Caps>>)
    requires forall i :: 0 <= i < |inputs| ==> Parse(inputs[i].month).Some?
    requires Combined(inputs, capsTable).Ok?
    ensures DateAll(Combined(inputs, capsTable).value).Ok?
  {
    CombinedShape(inputs, capsTable);
    var months := Months(inputs);
    var combined := Combined(inputs, capsTable).value;
    forall k | 0 <= k < |combined| ensures Parse(combined[k].month).Some? {
      var m := months[k];
      CombineKeepsMonth(OfMonth(inputs, m), m, capsTable);
      MonthsListed(inputs, m);
    }
  }

  /** Dating stops at the first record whose month text is not a month. */
  lemma {:induction false} DateAllFirstUnreadable(rs: seq<Record<string>>, j: nat)
    requires j < |rs| && Parse(rs[j].month).None?
    requires forall k :: 0 <= k < j ==> Parse(rs[k].month).Some?
    ensures DateAll(rs) == Err(InvalidDate(rs[j].month))
    decreases j
  {
    if j > 0 {
      DateAllFirstUnreadable(rs[1..], j - 1);
    }
  }

  /** With caps, and a whole-number year after the '/' of every month text,
      every month merges; a month text that is not a month is then reported
      by the final sort, the first such text in order of first appearance. */
  lemma {:induction false} UnreadableReportedAtSort(inputs: seq<Input>, capsTable: seq<Entry<Caps>>, j: nat)
    requires FirstNegative(inputs).None? && |capsTable| > 0
    requires forall i :: 0 <= i < |inputs| ==> YearField(inputs[i].month).Some?
    requires j < |Months(inputs)| && Parse(Months(inputs)[j]).None?
    requires forall k :: 0 <= k < j ==> Parse(Months(inputs)[k]).Some?
    ensures Ingest(inputs, capsTable) == Err(InvalidDate(Months(inputs)[j]))
  {
    var months := Months(inputs);
    forall k | 0 <= k < |months| ensures MonthCombines(inputs, capsTable, k) {
      var m := months[k];
      MonthsListed(inputs, m);
      CombineOk(OfMonth(inputs, m), m, capsTable);
    }
    CombinedOk(inputs, capsTable);
    CombinedShape(inputs, capsTable);
    var combined := Combined(inputs, capsTable).value;
    forall k | 0 <= k < |months| ensures combined[k].month == months[k] {
      CombineKeepsMonth(OfMonth(inputs, months[k]), months[k], capsTable);
    }
    DateAllFirstUnreadable(combined, j);
  }

  /** Non-negative amounts, month texts that parse, and caps (or no month
      with several entries) make ingestion succeed. */
  lemma {:induction false} IngestOkSufficient(inputs: seq<Input>, capsTable: seq<Entry<Caps>>)
    requires forall i :: 0 <= i < |inputs| ==> inputs[i].base >= 0.0
    requires forall i :: 0 <= i < |inputs| ==> Parse(inputs[i].month).Some?
    requires |capsTable| > 0 || forall i :: 0 <= i < |inputs| ==> |OfMonth(inputs, inputs[i].month)| == 1
    ensures Ingest(inputs, capsTable).Ok?
  {
    MonthsCombine(inputs, capsTable);
    CombinedOk(inputs, capsTable);
    CombinedDates(inputs, capsTable);
  }

  /** When ingestion fails: a negative amount (the first one is reported), a
      month text that is not a month, or a month worked for several employers
      with no caps table. */
  lemma {:induction false} IngestOk(inputs: seq<Input>, capsTable: seq<Entry<Caps>>)
    ensures FirstNegative(inputs).Some? ==>
      Ingest(inputs, capsTable) == Err(NegativeBase(inputs[FirstNegative(inputs).value].base))
    ensures Ingest(inputs, capsTable).Ok? <==>
      && (forall i :: 0 <= i < |inputs| ==> inputs[i].base >= 0.0)
      && (forall i :: 0 <= i < |inputs| ==> Parse(inputs[i].month).Some?)
      && (|capsTable| > 0 || forall i :: 0 <= i < |inputs| ==> |OfMonth(inputs, inputs[i].month)| == 1)
  {
    if Ingest(inputs, capsTable).Ok? {
      IngestOkNecessary(inputs, capsTable);
    } else if (forall i :: 0 <= i < |inputs| ==> inputs[i].base >= 0.0)
      && (forall i :: 0 <= i < |inputs| ==> Parse(inputs[i].month).Some?)
      && (|capsTable| > 0 || forall i :: 0 <= i < |inputs| ==> |OfMonth(inputs, inputs[i].month)| == 1) {
      IngestOkSufficient(inputs, capsTable);
    }
  }
}
