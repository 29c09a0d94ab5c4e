/** Reading the records of a contributions report out of its text
    (`ExtractorBases`) and ordering them by month
    (`ExtractorBasesCotizacion.run`). */
module Extractor {
  import opened Wrappers
  import opened Text
  import opened MonthYear
  import opened Records
  import opened Constants
  import opened Sorting
  import opened ReportCells
  import opened EmployerPattern

  /** The employer a "GENERAL" line names: the group of the employer
      pattern, trimmed; when the pattern does not match, the text after the
      marker, cut at "CCC:" and without "Social:"; and "Empresa no
      identificada" when the line has no marker. */
  function EmployerOf(line: string): string
  {
    if !Contains(line, EmployerMarker) then UnknownEmployer
    else
      SearchChoice(line);
      match Search(line)
      case Some((_, m)) => Strip(line[m.start..m.end])
      case None => FallbackEmployer(line)
  }

  /** The employer read without the pattern: the text between the first two
      markers, trimmed, cut before "CCC:" when it has one, with every
      "Social:" removed. */
  function FallbackEmployer(line: string): string
  {
    var parts := Split(line, EmployerMarker);
    if |parts| > 1 then
      var rest := Strip(parts[1]);
      if Contains(rest, CccMarker) then Strip(Replace(Strip(Split(rest, CccMarker)[0]), SocialLabel, ""))
      else Strip(Replace(rest, SocialLabel, ""))
    else UnknownEmployer
  }

  /** The regime and employer of the part of the report being read (the
      `contexto` dictionary); both are unset before the first "Régimen:"
      line. */
  datatype Section = Section(regime: Option<string>, employer: Option<string>)

  /** The section after a "Régimen:" line: a line naming "GENERAL" opens a
      general-regime section with the employer it names, one naming
      "AUTÓNOMOS" a self-employed section, and any other line changes
      nothing. */
  function Updated(sec: Section, line: string): Section
  {
    if Contains(line, RegimeGeneral) then Section(Some(RegimeGeneral), Some(EmployerOf(line)))
    else if Contains(line, SelfEmployedMarker) then Section(Some(RegimeSelfEmployed), Some(SelfEmployedEmployer))
    else sec
  }

  /** The `contexto` dictionary the reader updates as it goes. */
  class ReportContext {
    var regime: Option<string>
    var employer: Option<string>

    function State(): Section
      reads this
    {
      Section(regime, employer)
    }

    constructor ()
      ensures State() == Section(None, None)
    {
      regime := None;
      employer := None;
    }

    /** `_actualizar_contexto`. */
    method Update(line: string)
      modifies this
      ensures State() == Updated(old(State()), line)
    {
      if Contains(line, RegimeGeneral) {
        regime := Some(RegimeGeneral);
        employer := Some(EmployerOf(line));
      } else if Contains(line, SelfEmployedMarker) {
        regime := Some(RegimeSelfEmployed);
        employer := Some(SelfEmployedEmployer);
      }
    }
  }

  /** `"{:02d}/{}".format(month, year)`. */
  function MonthText(month: int, year: nat): string
    requires 1 <= month <= 12
  {
    [DigitChar(month / 10), DigitChar(month % 10), '/'] + NatToString(year)
  }

  /** `re.match(r"^\d{4}", line)`: the line starts with four digits. */
  predicate YearLine(line: string)
  {
    |line| >= 4 && AllDigits(line[..4])
  }

  /** The amount of each cell of a year line, in order. */
  function Amounts(cells: seq<string>): (vs: seq<Option<real>>)
    ensures |vs| == |cells| && forall i :: 0 <= i < |cells| ==> vs[i] == ParseCell(cells[i])
  {
    seq(|cells|, i requires 0 <= i < |cells| => ParseCell(cells[i]))
  }

  /** The records of the amounts of a year line: the i-th amount (from 1)
      gives a record for month i when there is one. */
  function AmountRecords(vs: seq<Option<real>>, year: nat, regime: string, employer: string): seq<Record<string>>
    requires |vs| <= 12
  {
    if vs == [] then []
    else
      var month := |vs|;
      AmountRecords(vs[..month - 1], year, regime, employer)
        + match vs[month - 1]
          case None => []
          case Some(v) => [NewRecord(MonthText(month, year), Some(v), employer, regime)]
  }

  /** The records of the cells of a year line. */
  function CellRecords(cells: seq<string>, year: nat, regime: string, employer: string): seq<Record<string>>
    requires |cells| <= 12
  {
    AmountRecords(Amounts(cells), year, regime, employer)
  }

  /** `_procesar_linea_bases`: the first word is the year and the next twelve
      words are the cells of its months; a line whose first word is not a
      number, or read outside a section, gives nothing. */
  function LineRecords(line: string, sec: Section): seq<Record<string>>
  {
    var words := Words(line);
    if words == [] || !AllDigits(words[0]) || sec.regime.None? || sec.employer.None? then []
    else
      var cells := words[1..if |words| < 13 then |words| else 13];
      CellRecords(cells, DigitsValue(words[0]), sec.regime.value, sec.employer.value)
  }

  /** `_procesar_linea_bases`. */
  method ProcessLine(line: string, ctx: ReportContext) returns (out: seq<Record<string>>)
    ensures out == LineRecords(line, ctx.State())
  {
    var words := Words(line);
    if words == [] || !AllDigits(words[0]) || ctx.regime.None? || ctx.employer.None? {
      return [];
    }
    out := ReadCells(words[1..if |words| < 13 then |words| else 13], DigitsValue(words[0]), ctx.regime.value, ctx.employer.value);
  }

  /** The loop of `_procesar_linea_bases` over the cells of a year line. */
  method ReadCells(cells: seq<string>, year: nat, regime: string, employer: string) returns (out: seq<Record<string>>)
    requires |cells| <= 12
    ensures out == CellRecords(cells, year, regime, employer)
  {
    ghost var vs := Amounts(cells);
    out := [];
    for i := 0 to |cells|
      invariant out == AmountRecords(vs[..i], year, regime, employer)
    {
      var v := ParseCell(cells[i]);
      AmountRecordsStep(vs, i, year, regime, employer);
      if v.Some? {
        out := out + [NewRecord(MonthText(i + 1, year), v, employer, regime)];
      }
    }
    assert vs[..|cells|] == vs;
  }

  /** One more amount adds its record, if it has one, at the end. */
  lemma {:induction false} AmountRecordsStep(vs: seq<Option<real>>, i: nat, year: nat, regime: string, employer: string)
    requires i < |vs| <= 12
    ensures AmountRecords(vs[..i + 1], year, regime, employer)
      == AmountRecords(vs[..i], year, regime, employer)
         + (if vs[i].Some? then [NewRecord(MonthText(i + 1, year), vs[i], employer, regime)] else [])
  {
    assert vs[..i + 1][..i] == vs[..i] && vs[..i + 1][i] == vs[i];
  }

  /** The section after the given lines, read in order. */
  function SectionAfter(lines: seq<string>): Section
  {
    if lines == [] then Section(None, None)
    else
      var line := lines[|lines| - 1];
      var sec := SectionAfter(lines[..|lines| - 1]);
      if Contains(line, RegimeMarker) then Updated(sec, line) else sec
  }

  /** What one line adds, read in section `sec`: a "Régimen:" line adds
      nothing, a year line read inside a section adds its records. */
  function LineOutput(sec: Section, line: string): seq<Record<string>>
  {
    if Contains(line, RegimeMarker) then []
    else if YearLine(line) && sec.regime.Some? then LineRecords(line, sec)
    else []
  }

  /** The records of the given lines, in the order they are read. */
  function RecordsOf(lines: seq<string>): seq<Record<string>>
  {
    if lines == [] then []
    else
      var init := lines[..|lines| - 1];
      RecordsOf(init) + LineOutput(SectionAfter(init), lines[|lines| - 1])
  }

  /** `extraer_bases_cotizacion`: the records of the lines of the text. */
  function Extracted(text: string): seq<Record<string>>
  {
    if text == [] then [] else RecordsOf(Split(text, "\n"))
  }

  /** `extraer_bases_cotizacion`, line by line. */
  method Extract(text: string) returns (bases: seq<Record<string>>)
    ensures bases == Extracted(text)
  {
    if text == [] {
      return [];
    }
    var lines := Split(text, "\n");
    var ctx := new ReportContext();
    bases := [];
    for i := 0 to |lines|
      invariant ctx.State() == SectionAfter(lines[..i])
      invariant bases == RecordsOf(lines[..i])
    {
      var line := lines[i];
      ReadStep(lines, i);
      if Contains(line, RegimeMarker) {
        ctx.Update(line);
      } else if YearLine(line) && ctx.regime.Some? {
        var found := ProcessLine(line, ctx);
        bases := bases + found;
      }
    }
    assert lines[..|lines|] == lines;
  }

  /** Reading one more line: its output follows the records so far, and a
      "Régimen:" line updates the section. */
  lemma {:induction false} ReadStep(lines: seq<string>, i: nat)
    requires i < |lines|
    ensures RecordsOf(lines[..i + 1]) == RecordsOf(lines[..i]) + LineOutput(SectionAfter(lines[..i]), lines[i])
    ensures SectionAfter(lines[..i + 1])
      == if Contains(lines[i], RegimeMarker) then Updated(SectionAfter(lines[..i]), lines[i]) else SectionAfter(lines[..i])
  {
    assert lines[..i + 1][..i] == lines[..i];
  }

  /** The key `run` sorts by: the year and then the month of a "MM/YYYY"
      text, as one month count. */
  function TextKey(r: Record<string>): int
  {
    var parts := Split(r.month, "/");
    if |parts| >= 2 && AllDigits(parts[0]) && AllDigits(parts[1])
    then DigitsValue(parts[1]) * 12 + DigitsValue(parts[0]) - 1
    else 0
  }

  /** `ExtractorBasesCotizacion.run` once the report's text is loaded: the
      records sorted by month, added one by one to a new container. */
  method Run(text: string) returns (result: ContributionList)
    ensures fresh(result)
    ensures result.bases == Sort(Extracted(text), TextKey)
  {
    var found := Extract(text);
    result := ListOf(Sort(found, TextKey));
  }

  /** A new list holding `records`, added one by one in order. */
  method ListOf(records: seq<Record<string>>) returns (result: ContributionList)
    ensures fresh(result)
    ensures result.bases == records
  {
    result := new ContributionList();
    for i := 0 to |records|
      invariant result.bases == records[..i]
    {
      result.Add(records[i]);
      assert records[..i + 1] == records[..i] + [records[i]];
    }
    assert records[..|records|] == records;
  }

  /** The months (from 1) of the amounts that are present, in order. */
  function Present(vs: seq<Option<real>>): seq<nat>
  {
    if vs == [] then []
    else Present(vs[..|vs| - 1]) + (if vs[|vs| - 1].Some? then [|vs|] else [])
  }

  /** The months (from 1) of the cells that hold an amount, in order. */
  function Filled(cells: seq<string>): seq<nat>
  {
    Present(Amounts(cells))
  }

  /** The filled months are exactly the cells holding an amount, each once,
      in increasing order. */
  lemma {:induction false} FilledMonths(cells: seq<string>)
    ensures var ms := Filled(cells);
      && |ms| <= |cells|
      && (forall j :: 0 <= j < |ms| ==> 1 <= ms[j] <= |cells| && ParseCell(cells[ms[j] - 1]).Some?)
      && (forall j, k :: 0 <= j < k < |ms| ==> ms[j] < ms[k])
      && (forall i :: 1 <= i <= |cells| && ParseCell(cells[i - 1]).Some? ==> i in ms)
  {
    var vs := Amounts(cells);
    var ms := Present(vs);
    PresentWithin(vs);
    PresentIncreasing(vs);
    PresentComplete(vs);
    forall j | 0 <= j < |ms| ensures vs[ms[j] - 1] == ParseCell(cells[ms[j] - 1]) {
    }
    forall i | 1 <= i <= |cells| && ParseCell(cells[i - 1]).Some? ensures i in ms {
      assert vs[i - 1].Some?;
    }
  }

  lemma {:induction false} PresentWithin(vs: seq<Option<real>>)
    ensures var ms := Present(vs);
      && |ms| <= |vs|
      && forall j :: 0 <= j < |ms| ==> 1 <= ms[j] <= |vs| && vs[ms[j] - 1].Some?
  {
    if vs != [] {
      var n := |vs|;
      var init := vs[..n - 1];
      var prev := Present(init);
      var ms := Present(vs);
      PresentWithin(init);
      forall j | 0 <= j < |ms| ensures 1 <= ms[j] <= n && vs[ms[j] - 1].Some? {
        if j < |prev| {
          assert ms[j] == prev[j] && vs[prev[j] - 1] == init[prev[j] - 1];
        }
      }
    }
  }

  lemma {:induction false} PresentIncreasing(vs: seq<Option<real>>)
    ensures var ms := Present(vs);
      forall j, k :: 0 <= j < k < |ms| ==> ms[j] < ms[k]
  {
    if vs != [] {
      var n := |vs|;
      var init := vs[..n - 1];
      var prev := Present(init);
      var ms := Present(vs);
      PresentIncreasing(init);
      PresentWithin(init);
      forall j, k | 0 <= j < k < |ms| ensures ms[j] < ms[k] {
        assert ms[j] == prev[j];
        if k < |prev| {
          assert ms[k] == prev[k];
        }
      }
    }
  }

  lemma {:induction false} PresentComplete(vs: seq<Option<real>>)
    ensures forall i :: 1 <= i <= |vs| && vs[i - 1].Some? ==> i in Present(vs)
  {
    if vs != [] {
      var n := |vs|;
      var init := vs[..n - 1];
      var ms := Present(vs);
      PresentComplete(init);
      forall i | 1 <= i <= n && vs[i - 1].Some? ensures i in ms {
        if i < n {
          assert vs[i - 1] == init[i - 1];
          assert i in Present(init);
        } else {
          assert ms[|ms| - 1] == n;
        }
      }
    }
  }

  /** One record per present amount, in order, the record of month i built
      from the i-th amount. */
  lemma {:induction false} AmountRecordsShape(vs: seq<Option<real>>, year: nat, regime: string, employer: string)
    requires |vs| <= 12
    ensures var out := AmountRecords(vs, year, regime, employer);
      var ms := Present(vs);
      && |out| == |ms|
      && forall j :: 0 <= j < |out| ==>
           1 <= ms[j] <= |vs|
           && out[j] == NewRecord(MonthText(ms[j], year), vs[ms[j] - 1], employer, regime)
  {
    if vs != [] {
      var init := vs[..|vs| - 1];
      AmountRecordsShape(init, year, regime, employer);
      PresentWithin(init);
      assert forall i :: 0 <= i < |init| ==> vs[i] == init[i];
    }
  }

  /** One record per filled month, in order: the record of month i is built
      from the amount of the i-th cell, with the year, regime and employer of
      the line; a cell without an amount makes no record and does not move
      the months of the cells after it. */
  lemma {:induction false} CellRecordsShape(cells: seq<string>, year: nat, regime: string, employer: string)
    requires |cells| <= 12
    ensures var out := CellRecords(cells, year, regime, employer);
      var ms := Filled(cells);
      && |out| == |ms|
      && forall j :: 0 <= j < |out| ==>
           1 <= ms[j] <= |cells|
           && out[j] == NewRecord(MonthText(ms[j], year), ParseCell(cells[ms[j] - 1]), employer, regime)
  {
    var vs := Amounts(cells);
    AmountRecordsShape(vs, year, regime, employer);
    var out := CellRecords(cells, year, regime, employer);
    var ms := Filled(cells);
    forall j | 0 <= j < |out| ensures vs[ms[j] - 1] == ParseCell(cells[ms[j] - 1]) {
    }
  }

  /** A year line gives at most twelve records, all of the section's regime
      and employer; a line whose first word is not a number gives none. */
  lemma {:induction false} LineRecordsBounds(line: string, sec: Section)
    ensures |LineRecords(line, sec)| <= 12
    ensures forall r :: r in LineRecords(line, sec) ==>
      Some(r.regime) == sec.regime && Some(r.employer) == sec.employer && r.multi.None?
    ensures var words := Words(line);
      (words == [] || !AllDigits(words[0])) ==> LineRecords(line, sec) == []
  {
    var words := Words(line);
    if words != [] && AllDigits(words[0]) && sec.regime.Some? && sec.employer.Some? {
      var cells := words[1..if |words| < 13 then |words| else 13];
      CellRecordsShape(cells, DigitsValue(words[0]), sec.regime.value, sec.employer.value);
      FilledMonths(cells);
    }
  }

  /** A four-digit number is written with its four digits. */
  lemma {:induction false} FourDigitText(year: nat)
    requires 1000 <= year <= 9999
    ensures NatToString(year) == [DigitChar(year / 1000), DigitChar(year / 100 % 10), DigitChar(year / 10 % 10), DigitChar(year % 10)]
  {
    var a, b, c := year / 10, year / 100, year / 1000;
    assert a / 10 == b && b / 10 == c && 10 <= a && 10 <= b && c < 10;
    assert NatToString(year) == NatToString(a) + [DigitChar(year % 10)];
    assert NatToString(a) == NatToString(b) + [DigitChar(a % 10)];
    assert NatToString(b) == NatToString(c) + [DigitChar(b % 10)];
  }

  /** For the years of four digits a record's month text is the canonical
      "MM/YYYY", which the engine parses back to that month. */
  lemma {:induction false} MonthTextParses(month: int, year: nat)
    requires 1 <= month <= 12 && 1000 <= year <= 9999
    ensures MonthText(month, year) == Render(month, year)
    ensures Parse(MonthText(month, year)) == Some(Index(year, month))
  {
    FourDigitText(year);
    ParseRender(month, year);
  }

  /** The sort key of a record made for month `month` of `year` is that
      month's index. */
  lemma {:induction false} TextKeyOfMonth(r: Record<string>, month: int, year: nat)
    requires 1 <= month <= 12 && r.month == MonthText(month, year)
    ensures TextKey(r) == Index(year, month)
  {
    var s := r.month;
    var mm := [DigitChar(month / 10), DigitChar(month % 10)];
    var yy := NatToString(year);
    assert s == mm + "/" + yy;
    assert StartsAt(s, 2, "/") by {
      assert s[2..3] == "/";
    }
    assert !StartsAt(s, 0, "/") && !StartsAt(s, 1, "/") by {
      assert s[0..1] == [s[0]] && s[1..2] == [s[1]];
    }
    assert Find(s, "/") == Some(2);
    assert s[..2] == mm && s[3..] == yy;
    assert !Contains(yy, "/") by {
      forall p | 0 <= p < |yy| ensures !StartsAt(yy, p, "/") {
        assert yy[p..p + 1] == [yy[p]];
      }
    }
    assert Split(s, "/") == [mm] + Split(yy, "/");
    TwoDigitsValue(month / 10, month % 10);
    NatToStringValue(year);
  }

  /** Ordering by the key is ordering by year and then by month. */
  lemma {:induction false} IndexOrder(y1: int, m1: int, y2: int, m2: int)
    requires 1 <= m1 <= 12 && 1 <= m2 <= 12
    ensures Index(y1, m1) < Index(y2, m2) <==> y1 < y2 || (y1 == y2 && m1 < m2)
    ensures Index(y1, m1) == Index(y2, m2) <==> y1 == y2 && m1 == m2
  {
  }

  /** In every section the regime and the employer are set together, the
      regime is one the system knows, and a self-employed section has the
      self-employed employer. */
  predicate SectionOk(sec: Section)
  {
    && (sec.regime.Some? <==> sec.employer.Some?)
    && (sec.regime.Some? ==> IsRegime(sec.regime.value))
    && (sec.regime == Some(RegimeSelfEmployed) ==> sec.employer == Some(SelfEmployedEmployer))
  }

  /** Reading lines keeps the section well formed, and before any
      "Régimen:" line there is no section. */
  lemma {:induction false} SectionAfterOk(lines: seq<string>)
    ensures SectionOk(SectionAfter(lines))
    ensures (forall i :: 0 <= i < |lines| ==> !Contains(lines[i], RegimeMarker)) ==>
      SectionAfter(lines) == Section(None, None)
  {
    if lines != [] {
      SectionAfterOk(lines[..|lines| - 1]);
    }
  }

  /** Lines before the first "Régimen:" line give no record. */
  lemma {:induction false} NoSectionNoRecords(lines: seq<string>)
    requires forall i :: 0 <= i < |lines| ==> !Contains(lines[i], RegimeMarker)
    ensures RecordsOf(lines) == []
  {
    if lines != [] {
      var init := lines[..|lines| - 1];
      NoSectionNoRecords(init);
      SectionAfterOk(init);
    }
  }

  /** Every record read has a known regime, the self-employed employer when
      it is self-employed, and a month text of some month of its line's
      year. */
  lemma {:induction false} RecordsOfSections(lines: seq<string>)
    ensures forall r :: r in RecordsOf(lines) ==>
      && IsRegime(r.regime)
      && (r.regime == RegimeSelfEmployed ==> r.employer == SelfEmployedEmployer)
      && exists month, year: nat :: 1 <= month <= 12 && r.month == MonthText(month, year)
  {
    if lines != [] {
      var init := lines[..|lines| - 1];
      var sec := SectionAfter(init);
      var line := lines[|lines| - 1];
      RecordsOfSections(init);
      SectionAfterOk(init);
      LineRecordsMonths(line, sec);
      LineRecordsBounds(line, sec);
    }
  }

  /** Every record of a line is for some month of the line's year. */
  lemma {:induction false} LineRecordsMonths(line: string, sec: Section)
    ensures forall r :: r in LineRecords(line, sec) ==>
      exists month, year: nat :: 1 <= month <= 12 && r.month == MonthText(month, year)
  {
    var words := Words(line);
    if words != [] && AllDigits(words[0]) && sec.regime.Some? && sec.employer.Some? {
      var cells := words[1..if |words| < 13 then |words| else 13];
      var year := DigitsValue(words[0]);
      var out := CellRecords(cells, year, sec.regime.value, sec.employer.value);
      CellRecordsShape(cells, year, sec.regime.value, sec.employer.value);
      forall r | r in out ensures exists month, year: nat :: 1 <= month <= 12 && r.month == MonthText(month, year) {
        var j :| 0 <= j < |out| && out[j] == r;
        assert r.month == MonthText(Filled(cells)[j], year);
      }
    }
  }

  /** `run` puts the records in increasing order of year and month, keeps
      every record, and keeps the reading order of records of the same
      month. */
  lemma {:induction false} RunOrder(text: string)
    ensures var sorted := Sort(Extracted(text), TextKey);
      && SortedBy(sorted, TextKey)
      && multiset(sorted) == multiset(Extracted(text))
      && forall k :: WithKey(sorted, TextKey, k) == WithKey(Extracted(text), TextKey, k)
  {
    SortSorted(Extracted(text), TextKey);
    forall k ensures WithKey(Sort(Extracted(text), TextKey), TextKey, k) == WithKey(Extracted(text), TextKey, k) {
      SortStable(Extracted(text), TextKey, k);
    }
  }

  /** A "GENERAL" line that names its employer the way reports write it
      yields exactly that name. */
  lemma {:induction false} EmployerOfCanonical(pre: string, name: string, post: string)
    requires forall q :: 0 <= q < |pre| ==> !StartsAt(CanonicalLine(pre, name, post), q, EmployerMarker)
    requires name != [] && !IsSpace(name[0]) && !IsSpace(name[|name| - 1])
    requires '\n' !in name && !Contains(name, CccMarker)
    ensures EmployerOf(CanonicalLine(pre, name, post)) == name
  {
    CanonicalParts(pre, name, post);
    ContainsAt(CanonicalLine(pre, name, post), EmployerMarker, |pre|);
    SearchCanonical(pre, name, post);
    StripTrimmed(name);
  }

  /** A line without the marker names no employer. */
  lemma {:induction false} EmployerOfUnmarked(line: string)
    requires !Contains(line, EmployerMarker)
    ensures EmployerOf(line) == UnknownEmployer
  {
  }

  /** A line where "Social:" follows the marker with no blank, so the pattern
      cannot match: the marker, "Social:", one blank, the name, one blank,
      "CCC:" and the rest. */
  function FallbackLine(pre: string, name: string, post: string): string
  {
    pre + EmployerMarker + SocialLabel + " " + name + " " + CccMarker + post
  }

  /** On a line the pattern misses, with a single marker, the fallback
      still finds the name: the text after the marker, trimmed, cut before
      its first "CCC:", trimmed, without "Social:" and trimmed again. */
  lemma {:induction false} EmployerOfFallback(pre: string, name: string, post: string)
    requires forall q :: 0 <= q < |FallbackLine(pre, name, post)| && q != |pre| ==>
      !StartsAt(FallbackLine(pre, name, post), q, EmployerMarker)
    requires name != [] && !IsSpace(name[0]) && !IsSpace(name[|name| - 1])
    requires !Contains(name, CccMarker) && !Contains(name, SocialLabel)
    ensures Search(FallbackLine(pre, name, post)).None?
    ensures EmployerOf(FallbackLine(pre, name, post)) == name
  {
    var line := FallbackLine(pre, name, post);
    var rest := SocialLabel + " " + name + " " + CccMarker + post;
    assert line == pre + EmployerMarker + rest;
    assert line[|pre|..|pre| + |EmployerMarker|] == EmployerMarker;
    ContainsAt(line, EmployerMarker, |pre|);
    assert line[|pre| + |EmployerMarker|] == rest[0] == 'S';
    PatternMisses(line, |pre|);
    SplitAtOnlyMarker(line, pre, rest);
    FallbackOfRest(name, post, rest);
  }

  /** With a single marker, followed by a non-blank, the pattern matches
      nowhere. */
  lemma {:induction false} PatternMisses(line: string, p0: nat)
    requires p0 + |EmployerMarker| < |line| && !IsSpace(line[p0 + |EmployerMarker|])
    requires forall q :: 0 <= q < |line| && q != p0 ==> !StartsAt(line, q, EmployerMarker)
    ensures Search(line).None?
  {
    forall p: nat, m: Span ensures !IsMatch(line, p, m) {
      if StartsAt(line, p, EmployerMarker) && p + |EmployerMarker| < m.social <= |line| {
        assert p == p0;
        assert !IsSpace(line[p + |EmployerMarker|]);
      }
    }
    SearchChoice(line);
  }

  /** Splitting at the only marker gives the text before it and the text
      after it. */
  lemma {:induction false} SplitAtOnlyMarker(line: string, pre: string, rest: string)
    requires line == pre + EmployerMarker + rest
    requires forall q :: 0 <= q < |line| && q != |pre| ==> !StartsAt(line, q, EmployerMarker)
    ensures Split(line, EmployerMarker) == [pre, rest]
  {
    var k := |pre| + |EmployerMarker|;
    assert StartsAt(line, |pre|, EmployerMarker) by {
      assert line[|pre|..k] == EmployerMarker;
    }
    assert Find(line, EmployerMarker) == Some(|pre|);
    assert line[..|pre|] == pre && line[k..] == rest;
    forall q | 0 <= q ensures !StartsAt(rest, q, EmployerMarker) {
      if q + |EmployerMarker| <= |rest| {
        assert rest[q..q + |EmployerMarker|] == line[k + q..k + q + |EmployerMarker|];
        assert !StartsAt(line, k + q, EmployerMarker);
      }
    }
    assert Split(rest, EmployerMarker) == [rest];
  }

  /** The fallback's steps on the text after the marker leave the name. */
  lemma {:induction false} FallbackOfRest(name: string, post: string, rest: string)
    requires rest == SocialLabel + " " + name + " " + CccMarker + post
    requires name != [] && !IsSpace(name[0]) && !IsSpace(name[|name| - 1])
    requires !Contains(name, CccMarker) && !Contains(name, SocialLabel)
    ensures Contains(Strip(rest), CccMarker)
    ensures Strip(Replace(Strip(Split(Strip(rest), CccMarker)[0]), SocialLabel, "")) == name
  {
    var labelled := SocialLabel + " " + name;
    var head := labelled + " ";
    assert rest == head + CccMarker + post;
    var k := StripKeepsHead(rest, |head| + |CccMarker|);
    var r := Strip(rest);
    FirstCccAfterName(name, r, head);
    ContainsAt(r, CccMarker, |head|);
    assert Split(r, CccMarker)[0] == head;
    StripTrailingBlank(labelled);
    DropLabel(name, labelled);
    StripLeadingBlank(name);
  }

  /** Stripping a text that starts with a non-blank and has a non-blank just
      before `c` keeps everything up to `c`. */
  lemma {:induction false} StripKeepsHead(s: string, c: nat) returns (k: nat)
    requires 0 < c <= |s| && !IsSpace(s[0]) && !IsSpace(s[c - 1])
    ensures c <= k <= |s| && Strip(s) == s[..k]
  {
    k := TrimEnd(s, 0, |s|);
    assert SkipSpaces(s, 0) == 0;
  }

  /** The first "CCC:" of "Social: <name> CCC:..." is the one after the name. */
  lemma {:induction false} FirstCccAfterName(name: string, r: string, head: string)
    requires head == SocialLabel + " " + name + " "
    requires |head| + |CccMarker| <= |r| && r[..|head| + |CccMarker|] == head + CccMarker
    requires !Contains(name, CccMarker)
    ensures Find(r, CccMarker) == Some(|head|)
  {
    var t := head + CccMarker;
    assert StartsAt(r, |head|, CccMarker) by {
      PrefixWindow(r, t, |head|, |t|);
      assert t[|head|..|t|] == CccMarker;
    }
    forall q | 0 <= q < |head| ensures !StartsAt(r, q, CccMarker) {
      NoCccInHead(name, head, q);
      PrefixWindow(r, t, q, q + |CccMarker|);
    }
  }

  /** No "CCC:" starts inside "Social: <name> " when the name holds none. */
  lemma {:induction false} NoCccInHead(name: string, head: string, q: nat)
    requires head == SocialLabel + " " + name + " "
    requires !Contains(name, CccMarker)
    requires q < |head|
    ensures !StartsAt(head + CccMarker, q, CccMarker)
  {
    var n0 := |SocialLabel| + 1;
    if q < n0 {
      NoCccAtLabel(name, head, q);
    } else if q + |CccMarker| <= n0 + |name| {
      NoCccInName(name, head, q);
    } else {
      NoCccAcrossBlank(name, head, q);
    }
  }

  /** A window starting in "Social: " does not start with 'C'. */
  lemma {:induction false} NoCccAtLabel(name: string, head: string, q: nat)
    requires head == SocialLabel + " " + name + " "
    requires q < |SocialLabel| + 1
    ensures !StartsAt(head + CccMarker, q, CccMarker)
  {
    var tag := SocialLabel + " ";
    assert (head + CccMarker)[q] == tag[q];
    assert tag[q] != 'C';
  }

  /** A window inside the name is a window of the name. */
  lemma {:induction false} NoCccInName(name: string, head: string, q: nat)
    requires head == SocialLabel + " " + name + " "
    requires !Contains(name, CccMarker)
    requires |SocialLabel| + 1 <= q && q + |CccMarker| <= |SocialLabel| + 1 + |name|
    ensures !StartsAt(head + CccMarker, q, CccMarker)
  {
    var t := head + CccMarker;
    var n0 := |SocialLabel| + 1;
    assert t[n0..n0 + |name|] == name;
    assert t[q..q + |CccMarker|] == name[q - n0..q - n0 + |CccMarker|];
    assert !StartsAt(name, q - n0, CccMarker);
  }

  /** A window reaching the blank after the name holds a blank. */
  lemma {:induction false} NoCccAcrossBlank(name: string, head: string, q: nat)
    requires head == SocialLabel + " " + name + " "
    requires q < |head| && |head| - 1 < q + |CccMarker|
    ensures !StartsAt(head + CccMarker, q, CccMarker)
  {
    var t := head + CccMarker;
    assert t[|head| - 1] == ' ';
    assert t[q..q + |CccMarker|][|head| - 1 - q] == ' ';
  }

  /** Stripping "Social: <name> " leaves "Social: <name>". */
  lemma {:induction false} StripTrailingBlank(labelled: string)
    requires |labelled| > 0 && !IsSpace(labelled[0]) && !IsSpace(labelled[|labelled| - 1])
    ensures Strip(labelled + " ") == labelled
  {
    var s := labelled + " ";
    assert SkipSpaces(s, 0) == 0;
    assert TrimEnd(s, 0, |s| - 1) == |s| - 1;
    assert s[..|s| - 1] == labelled;
  }

  /** Removing "Social:" from "Social: <name>" leaves " <name>" when the name
      holds no "Social:". */
  lemma {:induction false} DropLabel(name: string, labelled: string)
    requires labelled == SocialLabel + " " + name && !Contains(name, SocialLabel)
    ensures Replace(labelled, SocialLabel, "") == " " + name
  {
    assert labelled[..|SocialLabel|] == SocialLabel;
    assert Find(labelled, SocialLabel) == Some(0);
    var tail := " " + name;
    assert labelled[|SocialLabel|..] == tail;
    forall q | 0 <= q ensures !StartsAt(tail, q, SocialLabel) {
      if q == 0 {
        assert tail[0] == ' ';
      } else if q + |SocialLabel| <= |tail| {
        assert tail[q..q + |SocialLabel|] == name[q - 1..q - 1 + |SocialLabel|];
        assert !StartsAt(name, q - 1, SocialLabel);
      }
    }
  }

  /** Stripping " <name>" leaves the name when it is trimmed. */
  lemma {:induction false} StripLeadingBlank(name: string)
    requires name != [] && !IsSpace(name[0]) && !IsSpace(name[|name| - 1])
    ensures Strip(" " + name) == name
  {
    var s := " " + name;
    assert SkipSpaces(s, 1) == 1;
    assert s[1..] == name;
  }
}
