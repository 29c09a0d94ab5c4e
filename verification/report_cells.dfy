/** The amount cells of a contributions report (`_convertir_base`): Spanish
    notation, with '.' grouping thousands and ',' before the cents. */
module ReportCells {
  import opened Wrappers
  import opened Money
  import opened Text
  import opened Records
  import opened Constants

  /** `x` with its decimal point moved `n` places to the left. */
  function Shifted(x: real, n: nat): real
  {
    if n == 0 then x else Shifted(x, n - 1) / 10.0
  }

  /** The number a text of digits with at most one '.' denotes, if it has
      at least one digit. */
  function Magnitude(t: string): Option<real>
  {
    match Find(t, ".")
    case None =>
      if t != [] && AllDigits(t) then Some(DigitsValue(t) as real) else None
    case Some(i) =>
      var whole := t[..i];
      var fraction := t[i + 1..];
      if AllDigits(whole) && AllDigits(fraction) && |whole| + |fraction| > 0
      then Some(DigitsValue(whole) as real + Shifted(DigitsValue(fraction) as real, |fraction|))
      else None
  }

  /** `float(t)` on plain decimal texts: an optional sign, then a number as
      `Magnitude` reads it. */
  function DecimalValue(t: string): Option<real>
  {
    var signed := |t| > 0 && (t[0] == '-' || t[0] == '+');
    match Magnitude(if signed then t[1..] else t)
    case None => None
    case Some(v) => Some(if signed && t[0] == '-' then -v else v)
  }

  /** The amount of a cell: none for "---", "Pendiente" or a text that is not
      a number once every '.' is dropped and ',' is read as the decimal
      point. */
  function ParseCell(cell: string): Option<real>
  {
    if cell == NotAvailable || cell == Pending then None
    else DecimalValue(Replace(Replace(cell, ".", ""), ",", "."))
  }

  /** Neither marker has a '.' or a ','. */
  lemma {:induction false} MarkersPlain()
    ensures '.' !in NotAvailable && ',' !in NotAvailable
    ensures '.' !in Pending && ',' !in Pending
  {
  }

  /** A '.' in a cell only groups digits: dropping it changes nothing. */
  lemma {:induction false} ParseCellDropsDots(a: string, b: string)
    requires a + b != NotAvailable && a + b != Pending
    ensures ParseCell(a + "." + b) == ParseCell(a + b)
  {
    NotMarker(a, '.', b);
    DotDropped(a, b);
  }

  /** Dropping every '.' of `a + "." + b` gives what dropping them from
      `a + b` gives. */
  lemma {:induction false} DotDropped(a: string, b: string)
    ensures Replace(a + "." + b, ".", "") == Replace(a + b, ".", "")
  {
    var s := a + "." + b;
    ReplaceChar(s, '.', "");
    ReplaceChar(a + b, '.', "");
    assert s == a + ("." + b);
    ReplaceEachAppend(a, "." + b, '.', "");
    ReplaceEachAppend(a, b, '.', "");
    assert ("." + b)[0] == '.' && ("." + b)[1..] == b;
    assert ReplaceEach("." + b, '.', "") == ReplaceEach(b, '.', "");
  }

  /** The digits `w` and `f` of a whole part and a fraction read as a number. */
  lemma {:induction false} MagnitudeOfPoint(w: string, f: string, v: real)
    requires AllDigits(w) && AllDigits(f) && |w| + |f| > 0
    requires v == DigitsValue(w) as real + Shifted(DigitsValue(f) as real, |f|)
    ensures Magnitude(w + "." + f) == Some(v)
  {
    var t := w + "." + f;
    assert StartsAt(t, |w|, ".") by {
      assert t[|w|..|w| + 1] == ".";
    }
    forall j | 0 <= j < |w| ensures !StartsAt(t, j, ".") {
      assert t[j] == w[j] && IsDigit(w[j]);
      NotStartingAt(t, j, '.');
    }
    assert Find(t, ".") == Some(|w|);
    assert t[..|w|] == w && t[|w| + 1..] == f;
  }

  lemma {:induction false} NotStartingAt(t: string, j: int, c: char)
    requires 0 <= j < |t| && t[j] != c
    ensures !StartsAt(t, j, [c])
  {
    assert j + 1 <= |t| ==> t[j..j + 1][0] == t[j];
  }

  /** A cell of digits, a ',' and digits reads as the whole part plus the
      fraction. */
  lemma {:induction false} ParseCellComma(w: string, f: string, v: real)
    requires AllDigits(w) && AllDigits(f) && |w| + |f| > 0
    requires v == DigitsValue(w) as real + Shifted(DigitsValue(f) as real, |f|)
    ensures ParseCell(w + "," + f) == Some(v)
  {
    NotMarker(w, ',', f);
    CommaCellNormalised(w, f);
    UnsignedPoint(w, f);
    MagnitudeOfPoint(w, f, v);
    ParseCellOf(w + "," + f, w + "." + f, v);
  }

  /** A cell that is no marker reads as the decimal value of its normal
      form. */
  lemma {:induction false} ParseCellOf(cell: string, normal: string, v: real)
    requires cell != NotAvailable && cell != Pending
    requires Replace(Replace(cell, ".", ""), ",", ".") == normal
    requires DecimalValue(normal) == Some(v)
    ensures ParseCell(cell) == Some(v)
  {
  }

  /** A cell with a ',' or a '.' is neither marker. */
  lemma {:induction false} NotMarker(a: string, c: char, b: string)
    requires c == ',' || c == '.'
    ensures a + [c] + b != NotAvailable && a + [c] + b != Pending
  {
    MarkersPlain();
    assert (a + [c] + b)[|a|] == c;
  }

  /** Digits around a '.' carry no sign: their value is their magnitude. */
  lemma {:induction false} UnsignedPoint(w: string, f: string)
    requires AllDigits(w)
    ensures DecimalValue(w + "." + f) == Magnitude(w + "." + f)
  {
    var t := w + "." + f;
    if |w| > 0 {
      assert t[0] == w[0];
    } else {
      assert t[0] == '.';
    }
  }

  /** Dropping the '.'s of such a cell changes nothing, and its ',' becomes
      the decimal point. */
  lemma {:induction false} CommaCellNormalised(w: string, f: string)
    requires AllDigits(w) && AllDigits(f)
    ensures Replace(Replace(w + "," + f, ".", ""), ",", ".") == w + "." + f
  {
    var s := w + "," + f;
    assert '.' !in s by {
      forall k | 0 <= k < |s| ensures s[k] != '.' {
        if k < |w| { assert s[k] == w[k]; } else if k > |w| { assert s[k] == f[k - |w| - 1]; }
      }
    }
    ReplaceChar(s, '.', "");
    ReplaceEachAbsent(s, '.', "");
    ReplaceChar(s, ',', ".");
    CommaBecomesPoint(w, f);
  }

  lemma {:induction false} CommaBecomesPoint(w: string, f: string)
    requires AllDigits(w) && AllDigits(f)
    ensures ReplaceEach(w + "," + f, ',', ".") == w + "." + f
  {
    DigitsLack(f, ',');
    DigitsLack(w, ',');
    ReplaceEachAbsent(f, ',', ".");
    ReplaceEachAround(w, ',', ".", f);
  }

  lemma {:induction false} DigitsLack(s: string, c: char)
    requires AllDigits(s) && !IsDigit(c)
    ensures c !in s
  {
  }

  lemma {:induction false} CentsValue(w: string, f: string, euros: nat, cents: nat)
    requires AllDigits(w) && AllDigits(f) && |f| == 2
    requires DigitsValue(w) == euros && DigitsValue(f) == cents
    ensures DigitsValue(w) as real + Shifted(DigitsValue(f) as real, |f|) == euros as real + cents as real / 100.0
  {
    assert Shifted(cents as real, 2) == Shifted(cents as real, 1) / 10.0 == cents as real / 10.0 / 10.0;
  }

  /** A cell with two digits of cents reads as its euros and cents. */
  lemma {:induction false} ParseCellCents(w: string, f: string, euros: nat, cents: nat)
    requires AllDigits(w) && AllDigits(f) && |f| == 2
    requires DigitsValue(w) == euros && DigitsValue(f) == cents
    ensures ParseCell(w + "," + f) == Some(euros as real + cents as real / 100.0)
  {
    CentsValue(w, f, euros, cents);
    ParseCellComma(w, f, euros as real + cents as real / 100.0);
  }

  /** The text a report shows for an amount of `c` cents, without grouping:
      the euros, a ',' and two digits of cents. */
  function CellText(c: nat): string
  {
    NatToString(c / 100) + "," + [DigitChar(c % 100 / 10), DigitChar(c % 100 % 10)]
  }

  /** The cell of an amount reads back as that amount, and a record built
      from it holds exactly those cents. */
  lemma {:induction false} CellTextRoundTrip(c: nat)
    ensures ParseCell(CellText(c)) == Some(c as real / 100.0)
    ensures ValidateBase(ParseCell(CellText(c))) == c
  {
    var euros, cents := CellTextParts(c);
    var v := c as real / 100.0;
    assert DigitsValue(euros) as real + Shifted(DigitsValue(cents) as real, |cents|) == v by {
      CentsValue(euros, cents, c / 100, c % 100);
      EurosAndCents(c);
    }
    ParseCellComma(euros, cents, v);
    ValidateWholeCents(c);
  }

  /** The cell of `c` cents is the digits of its euros, a ',' and the two
      digits of its cents. */
  lemma {:induction false} CellTextParts(c: nat) returns (euros: string, cents: string)
    ensures CellText(c) == euros + "," + cents
    ensures AllDigits(euros) && AllDigits(cents) && |cents| == 2
    ensures DigitsValue(euros) == c / 100 && DigitsValue(cents) == c % 100
  {
    euros := NatToString(c / 100);
    var r := c % 100;
    cents := [DigitChar(r / 10), DigitChar(r % 10)];
    NatToStringValue(c / 100);
    TwoDigitsValue(r / 10, r % 10);
  }

  lemma {:induction false} EurosAndCents(c: nat)
    ensures (c / 100) as real + (c % 100) as real / 100.0 == c as real / 100.0
  {
    assert c == c / 100 * 100 + c % 100;
  }

  lemma {:induction false} TwoDigitsValue(x: int, y: int)
    requires 0 <= x <= 9 && 0 <= y <= 9
    ensures AllDigits([DigitChar(x), DigitChar(y)])
    ensures DigitsValue([DigitChar(x), DigitChar(y)]) == 10 * x + y
  {
    var s := [DigitChar(x), DigitChar(y)];
    DigitRoundTrip(x);
    DigitRoundTrip(y);
    assert s[..1] == [DigitChar(x)] && s[..1][..0] == [];
    assert DigitsValue(s[..1]) == x;
    assert DigitsValue(s) == 10 * DigitsValue(s[..1]) + DigitValue(s[1]);
  }

  /** "1.234,56" is 1234.56 euros, "---" and "Pendiente" are no amount. */
  lemma {:induction false} ParseCellExamples()
    ensures ParseCell("1.234,56") == Some(1234.56)
    ensures ParseCell("---") == None && ParseCell("Pendiente") == None
  {
    assert "1" + "." + "234,56" == "1.234,56";
    assert "1" + "234,56" == "1234" + "," + "56";
    assert "1" + "234,56" != NotAvailable && "1" + "234,56" != Pending;
    ParseCellDropsDots("1", "234,56");
    DigitsExamples();
    ParseCellCents("1234", "56", 1234, 56);
  }

  lemma {:induction false} DigitsExamples()
    ensures AllDigits("1234") && DigitsValue("1234") == 1234
    ensures AllDigits("56") && DigitsValue("56") == 56
  {
    assert "1234"[..3] == "123" && "123"[..2] == "12" && "12"[..1] == "1" && "1"[..0] == [];
    assert "56"[..1] == "5" && "5"[..0] == [];
  }
}
