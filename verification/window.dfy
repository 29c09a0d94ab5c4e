/** The computation window (`obtener_bases_periodo_computo`): walking back
    from the month before retirement, each month takes its record, or, when
    there is none, a "LAGUNA" record priced by the gap rule of article 209.1
    of the Ley General de la Seguridad Social and its transitional provision
    41 (`calcular_base_laguna`). */
module PeriodWindow {
  import opened Wrappers
  import opened Money
  import opened MonthYear
  import opened Records
  import opened Tables
  import opened Constants

  /** `cumple_condiciones_hombre`: no man meets the special conditions yet. */
  const MaleSpecialConditions: bool := false

  /** `bases_dict`: each month mapped to the last record of that month. */
  function IndexOf(s: seq<Record<int>>): map<int, Record<int>>
  {
    if s == [] then map[] else IndexOf(s[..|s| - 1])[s[|s| - 1].month := s[|s| - 1]]
  }

  /** Every record of the index is filed under its own month. */
  predicate Keyed(index: map<int, Record<int>>)
  {
    forall m :: m in index ==> index[m].month == m
  }

  /** The index holds exactly the months of the records, each mapped to the
      last record of that month. */
  lemma {:induction false} IndexOfLast(s: seq<Record<int>>, m: int)
    ensures m in IndexOf(s) <==> exists i :: 0 <= i < |s| && s[i].month == m
    ensures m in IndexOf(s) ==> exists i :: (0 <= i < |s| && IndexOf(s)[m] == s[i] && s[i].month == m
                                             && forall j :: i < j < |s| ==> s[j].month != m)
  {
    if s != [] {
      var n := |s|;
      var init := s[..n - 1];
      IndexOfLast(init, m);
      assert IndexOf(s) == IndexOf(init)[s[n - 1].month := s[n - 1]];
      if s[n - 1].month == m {
        assert IndexOf(s)[m] == s[n - 1];
      } else if m in IndexOf(init) {
        var i :| 0 <= i < |init| && IndexOf(init)[m] == init[i] && init[i].month == m
                 && forall j :: i < j < |init| ==> init[j].month != m;
        assert s[i] == init[i] && IndexOf(s)[m] == s[i];
        forall j | i < j < n ensures s[j].month != m {
          if j < n - 1 {
            assert s[j] == init[j];
          }
        }
      } else {
        forall i | 0 <= i < n ensures s[i].month != m {
          if i < n - 1 {
            assert s[i] == init[i];
          }
        }
      }
    }
  }

  lemma {:induction false} IndexOfKeyed(s: seq<Record<int>>)
    ensures Keyed(IndexOf(s))
  {
    if s != [] {
      IndexOfKeyed(s[..|s| - 1]);
    }
  }

  /** `calcular_base_laguna`: the amount of the `ordinal`-th gap of the walk,
      in month `month`. The self-employed scheme gives nothing; otherwise the
      first 48 gaps take the minimum base of the month's year; after them
      women (and men meeting the special conditions) keep the minimum up to
      the 60th gap, 80% of it up to the 84th and 50% afterwards, and everyone
      else gets 50%. */
  function GapBase(month: int, ordinal: int, regime: string, sex: string, capsTable: seq<Entry<Caps>>): Result<Cents>
  {
    if regime == RegimeSelfEmployed then Ok(0)
    else
      var minimum :- MinimumBase(capsTable, YearOf(month));
      if ordinal <= 48 then Ok(minimum)
      else if sex == SexFemale || (sex == SexMale && MaleSpecialConditions) then
        if ordinal <= 60 then Ok(minimum)
        else if ordinal <= 84 then Ok(Scale(minimum, 0.8))
        else Ok(Scale(minimum, 0.5))
      else Ok(Scale(minimum, 0.5))
  }

  /** A gap is priced unless the scheme is general and there are no caps to
      take the minimum base from. */
  lemma {:induction false} GapBaseOk(month: int, ordinal: int, regime: string, sex: string, capsTable: seq<Entry<Caps>>)
    ensures GapBase(month, ordinal, regime, sex, capsTable).Err? <==> regime != RegimeSelfEmployed && |capsTable| == 0
    ensures regime == RegimeSelfEmployed ==> GapBase(month, ordinal, regime, sex, capsTable) == Ok(0)
  {
  }

  /** With a non-negative minimum base, a gap's amount never exceeds it, and
      the first 48 gaps get all of it. */
  lemma {:induction false} GapBaseWithinMinimum(month: int, ordinal: int, regime: string, sex: string, capsTable: seq<Entry<Caps>>)
    requires regime != RegimeSelfEmployed && |capsTable| > 0
    requires 0 <= MinimumBase(capsTable, YearOf(month)).value
    ensures var minimum := MinimumBase(capsTable, YearOf(month)).value;
      && 0 <= GapBase(month, ordinal, regime, sex, capsTable).value <= minimum
      && (ordinal <= 48 ==> GapBase(month, ordinal, regime, sex, capsTable).value == minimum)
  {
    var minimum := MinimumBase(capsTable, YearOf(month)).value;
    ScaleShare(minimum, 0.8);
    ScaleShare(minimum, 0.5);
  }

  /** Later gaps are never priced higher than earlier ones. */
  lemma {:induction false} GapBaseNonIncreasing(month: int, a: int, b: int, regime: string, sex: string, capsTable: seq<Entry<Caps>>)
    requires a <= b
    requires GapBase(month, a, regime, sex, capsTable).Ok?
    requires regime == RegimeSelfEmployed || (|capsTable| > 0 && 0 <= MinimumBase(capsTable, YearOf(month)).value)
    ensures GapBase(month, b, regime, sex, capsTable).Ok?
    ensures GapBase(month, b, regime, sex, capsTable).value <= GapBase(month, a, regime, sex, capsTable).value
  {
    if regime != RegimeSelfEmployed {
      var minimum := MinimumBase(capsTable, YearOf(month)).value;
      ScaleShare(minimum, 0.8);
      ScaleShare(minimum, 0.5);
      ScaleMonotone(minimum, 0.5, 0.8);
    }
  }

  /** A woman's gap is never priced lower than anyone else's same gap. */
  lemma {:induction false} GapBaseFemaleAtLeast(month: int, ordinal: int, regime: string, sex: string, capsTable: seq<Entry<Caps>>)
    requires GapBase(month, ordinal, regime, sex, capsTable).Ok?
    requires regime == RegimeSelfEmployed || (|capsTable| > 0 && 0 <= MinimumBase(capsTable, YearOf(month)).value)
    ensures GapBase(month, ordinal, regime, SexFemale, capsTable).Ok?
    ensures GapBase(month, ordinal, regime, sex, capsTable).value <= GapBase(month, ordinal, regime, SexFemale, capsTable).value
  {
    if regime != RegimeSelfEmployed {
      var minimum := MinimumBase(capsTable, YearOf(month)).value;
      ScaleShare(minimum, 0.8);
      ScaleShare(minimum, 0.5);
      ScaleMonotone(minimum, 0.5, 0.8);
    }
  }

  /** The tiers at their edges, for a minimum base of 1000.00 euros: a woman's
      48th to 60th gaps keep it, her 61st and 84th get 800.00 and her 85th
      500.00; a man's 49th gap already gets 500.00. */
  lemma {:induction false} GapTierEdges(month: int)
    ensures var caps := [Entry(YearOf(month), Caps(100000, 400000))];
      && GapBase(month, 48, RegimeGeneral, SexMale, caps) == Ok(100000)
      && GapBase(month, 49, RegimeGeneral, SexMale, caps) == Ok(50000)
      && GapBase(month, 60, RegimeGeneral, SexFemale, caps) == Ok(100000)
      && GapBase(month, 61, RegimeGeneral, SexFemale, caps) == Ok(80000)
      && GapBase(month, 84, RegimeGeneral, SexFemale, caps) == Ok(80000)
      && GapBase(month, 85, RegimeGeneral, SexFemale, caps) == Ok(50000)
  {
    var caps := [Entry(YearOf(month), Caps(100000, 400000))];
    assert LookupCaps(caps, YearOf(month)) == Ok(Caps(100000, 400000));
  }

  /** The pricing of the gaps of one walk: the gap rule for the access
      regime, the sex and the caps table. */
  function GapPricing(regime: string, sex: string, capsTable: seq<Entry<Caps>>): (int, int) -> Result<Cents>
  {
    (month: int, ordinal: int) => GapBase(month, ordinal, regime, sex, capsTable)
  }

  /** How many of the `k` months from `top` back have no record. */
  function Missing(index: map<int, Record<int>>, top: int, k: nat): (g: nat)
    ensures g <= k
  {
    if k == 0 then 0 else Missing(index, top, k - 1) + (if top - (k - 1) in index then 0 else 1)
  }

  /** No month is missing exactly when each of them has a record. */
  lemma {:induction false} MissingNone(index: map<int, Record<int>>, top: int, k: nat)
    ensures Missing(index, top, k) == 0 <==> forall m :: top - k < m <= top ==> m in index
  {
    if k > 0 {
      MissingNone(index, top, k - 1);
    }
  }

  /** The `k`-th month of the walk (`top - k`): its record, or a gap record
      priced by `price` with an ordinal that counts the gaps met so far in
      this walk. */
  function WindowItem(index: map<int, Record<int>>, top: int, k: nat, price: (int, int) -> Result<Cents>, regime: string): Result<Record<int>>
  {
    var m := top - k;
    if m in index then Ok(index[m])
    else
      var amount :- price(m, Missing(index, top, k) + 1);
      Ok(Record(m, amount, GapEmployer, regime, None))
  }

  /** The first `n` months of the walk back from `top`, stopping at the first
      gap that cannot be priced. */
  function Window(index: map<int, Record<int>>, top: int, n: int, price: (int, int) -> Result<Cents>, regime: string): Result<seq<Record<int>>>
    decreases n
  {
    if n <= 0 then Ok([])
    else
      var prev :- Window(index, top, n - 1, price, regime);
      var item :- WindowItem(index, top, n - 1, price, regime);
      Ok(prev + [item])
  }

  /** Once the walk fails, walking further fails the same way. */
  lemma {:induction false} WindowErrPersists(index: map<int, Record<int>>, top: int, k: int, n: int, price: (int, int) -> Result<Cents>, regime: string)
    requires k <= n
    requires Window(index, top, k, price, regime).Err?
    ensures Window(index, top, n, price, regime) == Window(index, top, k, price, regime)
    decreases n - k
  {
    if k < n {
      WindowErrPersists(index, top, k, n - 1, price, regime);
    }
  }

  /** A successful walk of `n` months holds one item per month, the `k`-th
      being the item of month `top - k`. */
  lemma {:induction false} WindowShape(index: map<int, Record<int>>, top: int, n: int, price: (int, int) -> Result<Cents>, regime: string)
    requires Window(index, top, n, price, regime).Ok?
    ensures var w := Window(index, top, n, price, regime).value;
      && |w| == (if n <= 0 then 0 else n)
      && forall k :: 0 <= k < |w| ==> WindowItem(index, top, k, price, regime) == Ok(w[k])
    decreases n
  {
    if n > 0 {
      WindowShape(index, top, n - 1, price, regime);
    }
  }

  /** The `k`-th month of the walk has a record, or its gap can be priced. */
  predicate Priced(index: map<int, Record<int>>, top: int, k: nat, price: (int, int) -> Result<Cents>)
  {
    top - k in index || price(top - k, Missing(index, top, k) + 1).Ok?
  }

  /** The walk fails exactly when one of its gaps cannot be priced. */
  lemma {:induction false} WindowOk(index: map<int, Record<int>>, top: int, n: int, price: (int, int) -> Result<Cents>, regime: string)
    ensures Window(index, top, n, price, regime).Ok? <==> forall k :: 0 <= k < n ==> Priced(index, top, k, price)
    decreases n
  {
    if n > 0 {
      WindowOk(index, top, n - 1, price, regime);
      assert WindowItem(index, top, n - 1, price, regime).Ok? <==> Priced(index, top, n - 1, price);
    }
  }

  lemma {:induction false} GapPriced(index: map<int, Record<int>>, top: int, k: nat, regime: string, sex: string, capsTable: seq<Entry<Caps>>)
    ensures Priced(index, top, k, GapPricing(regime, sex, capsTable)) <==>
      top - k in index || regime == RegimeSelfEmployed || |capsTable| > 0
  {
    var m, o := top - k, Missing(index, top, k) + 1;
    assert GapPricing(regime, sex, capsTable)(m, o) == GapBase(m, o, regime, sex, capsTable);
    GapBaseOk(m, o, regime, sex, capsTable);
  }

  /** With the gap rule, the walk fails only when it meets a gap, the scheme
      is general and there are no caps to price the gap with. */
  lemma {:induction false} GapWindowOk(index: map<int, Record<int>>, top: int, n: int, regime: string, sex: string, capsTable: seq<Entry<Caps>>)
    requires n >= 0
    ensures Window(index, top, n, GapPricing(regime, sex, capsTable), regime).Ok? <==>
      (forall m :: top - n < m <= top ==> m in index) || regime == RegimeSelfEmployed || |capsTable| > 0
  {
    var price := GapPricing(regime, sex, capsTable);
    WindowOk(index, top, n, price, regime);
    MissingNone(index, top, n);
    forall k | 0 <= k < n
      ensures Priced(index, top, k, price) <==> top - k in index || regime == RegimeSelfEmployed || |capsTable| > 0
    {
      GapPriced(index, top, k, regime, sex, capsTable);
    }
    if !(forall m :: top - n < m <= top ==> m in index) {
      var m :| top - n < m <= top && m !in index;
      assert !Priced(index, top, top - m, price) || regime == RegimeSelfEmployed || |capsTable| > 0;
    }
  }

  /** The walk covers the months from `top` back, one record per month, in
      order and without repeats: a month with a record reuses that record
      unchanged, and any other month gets a "LAGUNA" record of the access
      regime priced as the gap whose ordinal is one more than the gaps
      before it in this walk. */
  lemma {:induction false} WindowContents(index: map<int, Record<int>>, top: int, n: int, price: (int, int) -> Result<Cents>, regime: string)
    requires Keyed(index)
    requires Window(index, top, n, price, regime).Ok?
    ensures var w := Window(index, top, n, price, regime).value;
      && |w| == (if n <= 0 then 0 else n)
      && (forall k :: 0 <= k < |w| ==> w[k].month == top - k)
      && (forall k :: 0 <= k < |w| && top - k in index ==> w[k] == index[top - k])
      && (forall k :: 0 <= k < |w| && top - k !in index ==>
            && price(top - k, Missing(index, top, k) + 1).Ok?
            && w[k] == Record(top - k, price(top - k, Missing(index, top, k) + 1).value, GapEmployer, regime, None))
  {
    var w := Window(index, top, n, price, regime).value;
    WindowShape(index, top, n, price, regime);
    forall k | 0 <= k < |w|
      ensures w[k].month == top - k
      ensures top - k in index ==> w[k] == index[top - k]
      ensures top - k !in index ==>
        && price(top - k, Missing(index, top, k) + 1).Ok?
        && w[k] == Record(top - k, price(top - k, Missing(index, top, k) + 1).value, GapEmployer, regime, None)
    {
      assert WindowItem(index, top, k, price, regime) == Ok(w[k]);
    }
  }

  /** A shorter walk is the start of a longer one: the gap ordinals restart
      at 1 in every walk, so walks of different lengths agree on the months
      they share. */
  lemma {:induction false} WindowPrefix(index: map<int, Record<int>>, top: int, n1: int, n2: int, price: (int, int) -> Result<Cents>, regime: string)
    requires 0 <= n1 <= n2
    requires Window(index, top, n2, price, regime).Ok?
    ensures Window(index, top, n1, price, regime).Ok?
    ensures |Window(index, top, n2, price, regime).value| == n2
    ensures Window(index, top, n1, price, regime).value == Window(index, top, n2, price, regime).value[..n1]
    decreases n2
  {
    WindowShape(index, top, n2, price, regime);
    if n1 < n2 {
      WindowPrefix(index, top, n1, n2 - 1, price, regime);
      var w := Window(index, top, n2, price, regime).value;
      assert w[..n2 - 1] == Window(index, top, n2 - 1, price, regime).value;
      assert w[..n2 - 1][..n1] == w[..n1];
    } else {
      assert Window(index, top, n2, price, regime).value[..n1] == Window(index, top, n2, price, regime).value;
    }
  }
}
