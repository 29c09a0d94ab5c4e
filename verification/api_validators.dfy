/** The field validators of a simulation request (`SimulateRequest`). */
module ApiValidators {
  import opened Wrappers
  import opened Text
  import opened Constants
  import MonthYear

  /** `regimen_acceso` when the request leaves it out. */
  const DefaultRegime: string := RegimeGeneral

  /** The shape `^\d{2}/\d{4}$`: two digits, a slash, four digits. */
  predicate DateShape(v: string)
  {
    |v| == 7 && IsDigit(v[0]) && IsDigit(v[1]) && v[2] == '/'
    && IsDigit(v[3]) && IsDigit(v[4]) && IsDigit(v[5]) && IsDigit(v[6])
  }

  /** `validar_fecha_jubilacion`: the text is kept as given when it has the
      date shape; the month number is not range-checked. */
  function ValidateRetirementDate(v: string): (r: Result<string>)
    ensures r.Ok? <==> DateShape(v)
    ensures r.Ok? ==> r.value == v
    ensures r.Err? ==> r.error == InvalidDate(v)
  {
    if DateShape(v) then Ok(v) else Err(InvalidDate(v))
  }

  /** Every date the engine can read passes the request validator. */
  lemma {:induction false} EngineDatesPassValidator(v: string)
    requires MonthYear.Parse(v).Some?
    ensures ValidateRetirementDate(v) == Ok(v)
  {
  }

  /** The request validator lets through dates the engine then rejects:
      a month number of 13 has the date shape. */
  lemma {:induction false} ValidatorAcceptsMonthThirteen()
    ensures ValidateRetirementDate("13/2025").Ok?
    ensures MonthYear.Parse("13/2025").None?
  {
    var s := "13/2025";
    assert DigitValue(s[0]) == 1 && DigitValue(s[1]) == 3;
  }

  /** `validar_regimen`: accepted when its upper case is a regime name, and
      returned upper-cased. */
  function ValidateRegime(v: string): (r: Result<string>)
    ensures r.Ok? <==> IsRegime(Upper(v))
    ensures r.Ok? ==> r.value == Upper(v)
    ensures r.Err? ==> r.error == InvalidRegime(v)
  {
    if IsRegime(Upper(v)) then Ok(Upper(v)) else Err(InvalidRegime(v))
  }

  /** `validar_sexo`: accepted when its upper case is MASCULINO or FEMENINO,
      and returned upper-cased. */
  function ValidateSex(v: string): (r: Result<string>)
    ensures r.Ok? <==> IsSex(Upper(v))
    ensures r.Ok? ==> r.value == Upper(v)
    ensures r.Err? ==> r.error == InvalidSex(v)
  {
    if IsSex(Upper(v)) then Ok(Upper(v)) else Err(InvalidSex(v))
  }

  /** Validating an accepted regime again returns it unchanged. */
  lemma {:induction false} ValidateRegimeIdempotent(v: string)
    requires ValidateRegime(v).Ok?
    ensures ValidateRegime(ValidateRegime(v).value) == ValidateRegime(v)
  {
    UpperIdempotent(v);
  }

  /** Validating an accepted sex again returns it unchanged. */
  lemma {:induction false} ValidateSexIdempotent(v: string)
    requires ValidateSex(v).Ok?
    ensures ValidateSex(ValidateSex(v).value) == ValidateSex(v)
  {
    UpperIdempotent(v);
  }

  /** The default regime is accepted as it is. */
  lemma {:induction false} DefaultRegimeValid()
    ensures ValidateRegime(DefaultRegime) == Ok(DefaultRegime)
  {
    assert Upper(DefaultRegime) == DefaultRegime;
  }

  /** Lower-case input is accepted and upper-cased: "autonomo" gives "AUTONOMO". */
  lemma {:induction false} ValidateRegimeLowerCase()
    ensures ValidateRegime("autonomo") == Ok(RegimeSelfEmployed)
  {
    assert Upper("autonomo") == "AUTONOMO";
  }
}
