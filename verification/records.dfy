/** Contribution records (`BaseCotizacion`) and their container
    (`BasesCotizacion`). */
module Records {
  import opened Wrappers
  import opened Money

  /** Raw input of the engine: one entry of `bases_extraidas["bases"]`, with
      the amount still in euros as the caller sent it. */
  datatype Input = Input(month: string, base: real, employer: string, regime: string)

  /** Which contribution cap a merged month hit ("ninguno", "minimo", "maximo"). */
  datatype CapTag = NoCap | MinCap | MaxCap

  /** `metadatos_pluriactividad` of a month worked for several employers. */
  datatype MultiEmployer = MultiEmployer(
    individual: seq<Input>,   // the same-month entries, as given
    gross: Cents,             // their rounded sum before capping
    cap: CapTag,
    employers: seq<string>)   // their employers, in input order

  /** A contribution base of one month. `M` is how the month is written: the
      "MM/YYYY" text of a report, or the month index once the engine has
      parsed it. */
  datatype Record<M> = Record(month: M, base: Cents, employer: string, regime: string, multi: Option<MultiEmployer>)

  /** The validator run on every `base` a record is built with: no amount
      becomes zero, any other is rounded to cents. */
  function ValidateBase(v: Option<real>): (c: Cents)
    ensures v.None? ==> c == 0
    ensures v.Some? ==> c as real - 0.5 <= v.value * 100.0 < c as real + 0.5
  {
    match v
    case None => 0
    case Some(x) => ToCents(x)
  }

  /** Validating an amount that is already whole cents keeps it. */
  lemma {:induction false} ValidateWholeCents(c: Cents)
    ensures ValidateBase(Some(c as real / 100.0)) == c
  {
    assert c as real / 100.0 * 100.0 == c as real;
    RoundHalfUpOfWhole(c);
  }

  /** A record as `BaseCotizacion(...)` builds it: the amount validated and no
      multi-employer metadata. */
  function NewRecord<M>(month: M, base: Option<real>, employer: string, regime: string): (r: Record<M>)
    ensures r.month == month && r.employer == employer && r.regime == regime
    ensures r.base == ValidateBase(base) && r.multi.None?
  {
    Record(month, ValidateBase(base), employer, regime, None)
  }

  /** The list of records a report yields. */
  class ContributionList {
    var bases: seq<Record<string>>

    /** A new container is empty. */
    constructor ()
      ensures bases == []
    {
      bases := [];
    }

    /** `agregar_base`: appends at the end and leaves the earlier records alone. */
    method Add(r: Record<string>)
      modifies this
      ensures bases == old(bases) + [r]
      ensures |bases| == |old(bases)| + 1 && bases[..|old(bases)|] == old(bases)
    {
      bases := bases + [r];
    }
  }
}
