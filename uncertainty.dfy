/** `get_uncertainties`: the choice between the P-value and the RMSEA
    statistic, the 1-sigma and 2-sigma selections of models, and the
    [min - step, max + step] intervals built from them. The P-value and
    RMSEA columns are inputs here: they come from floating-point formulas
    and scipy's chi-squared survival functions. */
module Uncertainties {
  import opened Support

  /** `which_statistic`: 'Pval_chi2', 'Pval_ncchi2' or 'RMSEA'. */
  datatype Statistic = PvalChi2 | PvalNcChi2 | Rmsea

  /** Where the P-value column comes from: `calculateP(chi2, dof_tot,
      normalize=True)` or `calculateP_noncent`. */
  datatype PSource = CentralNormalized | NonCentral

  /** Why no report is produced: `idxmax` of an empty P-value column
      (ValueError), a parameter that is not a column (KeyError), or `min()`
      of an empty selection (ValueError). */
  datatype Failure = NoRows | MissingColumn(name: string) | EmptySelection(name: string)

  /** The results table, one entry per evaluated model in every column. */
  datatype Table = Table(
    rchi2: seq<real>,
    pvalue: seq<real>,
    rmsea: seq<real>,
    runIds: seq<string>,
    columns: map<string, seq<real>>)

  /** All columns have one entry per model. */
  predicate Valid(t: Table) {
    |t.pvalue| == |t.rchi2| && |t.rmsea| == |t.rchi2| && |t.runIds| == |t.rchi2| &&
    forall k :: k in t.columns ==> |t.columns[k]| == |t.rchi2|
  }

  /** The minimum of a non-empty column. */
  function Min(s: seq<real>): (m: real)
    requires |s| > 0
    ensures m in s
    ensures forall i :: 0 <= i < |s| ==> m <= s[i]
  {
    if |s| == 1 then s[0]
    else
      var rest := Min(s[1..]);
      assert forall i :: 1 <= i < |s| ==> s[i] == s[1..][i - 1];
      if s[0] <= rest then s[0] else rest
  }

  /** The maximum of a non-empty column. */
  function Max(s: seq<real>): (m: real)
    requires |s| > 0
    ensures m in s
    ensures forall i :: 0 <= i < |s| ==> s[i] <= m
  {
    if |s| == 1 then s[0]
    else
      var rest := Max(s[1..]);
      assert forall i :: 1 <= i < |s| ==> s[i] == s[1..][i - 1];
      if s[0] >= rest then s[0] else rest
  }

  /** `pd.Series.idxmax`: the first position holding the largest value. */
  function ArgMax(s: seq<real>): (k: nat)
    requires |s| > 0
    ensures k < |s|
    ensures forall i :: 0 <= i < |s| ==> s[i] <= s[k]
    ensures forall i :: 0 <= i < k ==> s[i] < s[k]
  {
    if |s| == 1 then 0
    else
      var init := s[..|s| - 1];
      var k := ArgMax(init);
      assert forall i :: 0 <= i < |s| - 1 ==> s[i] == init[i];
      if s[|s| - 1] > s[k] then |s| - 1 else k
  }

  /** The statistic is RMSEA when every reduced chi-squared exceeds 1 and
      the P-value of the central chi-squared distribution otherwise. The
      pandas minimum of an empty column is NaN, and `NaN > 1.0` is false, so
      an empty table gets the P-value statistic. */
  function ChooseStatistic(rchi2: seq<real>): (r: Statistic)
    ensures r == Rmsea <==> |rchi2| > 0 && forall i :: 0 <= i < |rchi2| ==> rchi2[i] > 1.0
    ensures r == PvalChi2 <==> |rchi2| == 0 || exists i :: 0 <= i < |rchi2| && rchi2[i] <= 1.0
  {
    if |rchi2| > 0 && Min(rchi2) > 1.0 then Rmsea
    else PvalChi2
  }

  /** The P-value is computed by the non-central distribution only for
      'Pval_ncchi2'. */
  function PValueSource(s: Statistic): PSource {
    if s == PvalNcChi2 then NonCentral else CentralNormalized
  }

  /** 'Pval_ncchi2' is never chosen, so the non-central branch is dead and
      the P-value always comes from the normalised central distribution. */
  lemma NonCentralUnreachable(rchi2: seq<real>)
    ensures ChooseStatistic(rchi2) != PvalNcChi2
    ensures PValueSource(ChooseStatistic(rchi2)) == CentralNormalized
  {
  }

  /** The P-value cut-offs of the 1-sigma and 2-sigma selections. */
  const MinP1Sigma: real := 0.317
  const MinP2Sigma: real := 0.0455

  /** The factors on the smallest RMSEA of the 1-sigma and 2-sigma
      selections. */
  const Rmsea1Sigma: real := 1.05
  const Rmsea2Sigma: real := 1.10

  /** Whether a model with P-value `p` and RMSEA `r` is in the 1-sigma
      (`oneSigma`) or the 2-sigma selection, `minRmsea` being the smallest
      RMSEA: with a P-value statistic, when `p` reaches the cut-off; with
      RMSEA, when `r` is at most the factor times `minRmsea`. */
  predicate Selected(s: Statistic, p: real, r: real, minRmsea: real, oneSigma: bool) {
    if s == Rmsea then r <= minRmsea * (if oneSigma then Rmsea1Sigma else Rmsea2Sigma)
    else p >= if oneSigma then MinP1Sigma else MinP2Sigma
  }

  /** `ind_1sig` (`oneSigma`) or `ind_2sig`. */
  function Mask(s: Statistic, pvalue: seq<real>, rmsea: seq<real>, oneSigma: bool): (m: seq<bool>)
    requires |rmsea| == |pvalue| > 0
    ensures |m| == |pvalue|
    ensures forall i :: 0 <= i < |m| ==> m[i] == Selected(s, pvalue[i], rmsea[i], Min(rmsea), oneSigma)
  {
    var lo := Min(rmsea);
    seq(|pvalue|, i requires 0 <= i < |pvalue| => Selected(s, pvalue[i], rmsea[i], lo, oneSigma))
  }

  /** Whether a mask selects some model. */
  predicate AnySelected(m: seq<bool>) {
    exists i :: 0 <= i < |m| && m[i]
  }

  /** A model in the 1-sigma selection is in the 2-sigma selection: the
      P-value cut-off decreases, and with a non-negative smallest RMSEA the
      RMSEA bound grows. */
  lemma SelectedNested(s: Statistic, p: real, r: real, minRmsea: real)
    requires s == Rmsea ==> minRmsea >= 0.0
    ensures Selected(s, p, r, minRmsea, true) ==> Selected(s, p, r, minRmsea, false)
  {
  }

  /** Every model in the 1-sigma selection is in the 2-sigma selection,
      given non-negative RMSEA values when RMSEA is the statistic. */
  lemma MasksNested(s: Statistic, pvalue: seq<real>, rmsea: seq<real>)
    requires |rmsea| == |pvalue| > 0
    requires s == Rmsea ==> forall i :: 0 <= i < |rmsea| ==> rmsea[i] >= 0.0
    ensures forall i :: 0 <= i < |pvalue| && Mask(s, pvalue, rmsea, true)[i] ==> Mask(s, pvalue, rmsea, false)[i]
  {
    var lo := Min(rmsea);
    forall i | 0 <= i < |pvalue|
      ensures Selected(s, pvalue[i], rmsea[i], lo, true) ==> Selected(s, pvalue[i], rmsea[i], lo, false)
    {
      SelectedNested(s, pvalue[i], rmsea[i], lo);
    }
  }

  /** With RMSEA, the model with the smallest RMSEA is in both selections
      when RMSEA values are non-negative, so neither selection is empty. */
  lemma RmseaSelectsBest(pvalue: seq<real>, rmsea: seq<real>, oneSigma: bool)
    requires |rmsea| == |pvalue| > 0
    requires forall i :: 0 <= i < |rmsea| ==> rmsea[i] >= 0.0
    ensures AnySelected(Mask(Rmsea, pvalue, rmsea, oneSigma))
  {
    var lo := Min(rmsea);
    var i :| 0 <= i < |rmsea| && rmsea[i] == lo;
    assert Selected(Rmsea, pvalue[i], rmsea[i], lo, oneSigma);
    assert Mask(Rmsea, pvalue, rmsea, oneSigma)[i];
  }

  /** `[min(col[mask]) - step, max(col[mask]) + step, col[xbest]]`. */
  datatype Interval = Interval(lo: real, hi: real, best: real)

  /** A mask that selects some entry selects a non-empty column. */
  lemma SelectNonEmpty<T>(col: seq<T>, mask: seq<bool>)
    requires |col| == |mask| && AnySelected(mask)
    ensures |Select(col, mask)| > 0
  {
    var i :| 0 <= i < |mask| && mask[i];
    assert col[i] in Select(col, mask);
  }

  /** The error bar of one parameter from one selection; `None` where
      `min()` of the empty selection raises ValueError. */
  function ErrorBar(col: seq<real>, mask: seq<bool>, step: real, xbest: nat): (r: Option<Interval>)
    requires |col| == |mask| && xbest < |col|
    ensures r.Some? <==> AnySelected(mask)
  {
    if AnySelected(mask) then
      var sel := Select(col, mask);
      assert |sel| > 0 by { SelectNonEmpty(col, mask); }
      Some(Interval(Min(sel) - step, Max(sel) + step, col[xbest]))
    else None
  }

  /** The bounds lie one step outside the smallest and the largest selected
      value, both attained, and the best value is the best model's. */
  lemma ErrorBarTight(col: seq<real>, mask: seq<bool>, step: real, xbest: nat)
    requires |col| == |mask| && xbest < |col| && AnySelected(mask)
    ensures ErrorBar(col, mask, step, xbest).value.best == col[xbest]
    ensures forall i :: 0 <= i < |col| && mask[i] ==>
      ErrorBar(col, mask, step, xbest).value.lo + step <= col[i] <= ErrorBar(col, mask, step, xbest).value.hi - step
    ensures exists i :: 0 <= i < |col| && mask[i] && col[i] == ErrorBar(col, mask, step, xbest).value.lo + step
    ensures exists i :: 0 <= i < |col| && mask[i] && col[i] == ErrorBar(col, mask, step, xbest).value.hi - step
  {
    var sel := Select(col, mask);
    SelectNonEmpty(col, mask);
    var b := ErrorBar(col, mask, step, xbest).value;
    assert b.lo + step == Min(sel) && b.hi - step == Max(sel);
    SelectOrigin(col, mask, Min(sel));
    SelectOrigin(col, mask, Max(sel));
    forall i | 0 <= i < |col| && mask[i]
      ensures b.lo + step <= col[i] <= b.hi - step
    {
      assert col[i] in sel;
    }
  }

  /** A selection that contains another gives an interval that encloses the
      other's, with the same best value. */
  lemma EnclosingBar(col: seq<real>, inner: seq<bool>, outer: seq<bool>, step: real, xbest: nat)
    requires |col| == |inner| == |outer| && xbest < |col|
    requires forall i :: 0 <= i < |inner| && inner[i] ==> outer[i]
    requires AnySelected(inner)
    ensures ErrorBar(col, outer, step, xbest).Some?
    ensures ErrorBar(col, outer, step, xbest).value.lo <= ErrorBar(col, inner, step, xbest).value.lo
    ensures ErrorBar(col, inner, step, xbest).value.hi <= ErrorBar(col, outer, step, xbest).value.hi
    ensures ErrorBar(col, inner, step, xbest).value.best == ErrorBar(col, outer, step, xbest).value.best
  {
    ErrorBarTight(col, inner, step, xbest);
    var a := ErrorBar(col, inner, step, xbest).value;
    assert AnySelected(outer);
    ErrorBarTight(col, outer, step, xbest);
    var b := ErrorBar(col, outer, step, xbest).value;
    var i :| 0 <= i < |col| && inner[i] && col[i] == a.lo + step;
    var j :| 0 <= j < |col| && inner[j] && col[j] == a.hi - step;
    assert outer[i] && outer[j];
  }

  /** The two error tables `params_error_1sig` and `params_error_2sig`. */
  type Bars = map<string, Interval>

  /** The selections `ind_1sig` and `ind_2sig` and the best model `xbest`. */
  datatype Selection = Selection(m1: seq<bool>, m2: seq<bool>, xbest: nat)

  /** The selections have one entry per model of the table and the best
      model is one of them. */
  predicate Fits(t: Table, sel: Selection) {
    Valid(t) && |sel.m1| == |t.rchi2| && |sel.m2| == |t.rchi2| && sel.xbest < |t.rchi2|
  }

  /** The 1-sigma and 2-sigma error bars of parameter `name`: a KeyError
      when it is not a column, a ValueError when a selection is empty. */
  function PairBars(t: Table, name: string, step: real, sel: Selection): (r: Result<(Interval, Interval), Failure>)
    requires Fits(t, sel)
    ensures r.Err? <==> name !in t.columns || !AnySelected(sel.m1) || !AnySelected(sel.m2)
    ensures r.Err? ==> r.error == if name !in t.columns then MissingColumn(name) else EmptySelection(name)
  {
    if name !in t.columns then Err(MissingColumn(name))
    else
      var b1 := ErrorBar(t.columns[name], sel.m1, step, sel.xbest);
      var b2 := ErrorBar(t.columns[name], sel.m2, step, sel.xbest);
      if b1.None? || b2.None? then Err(EmptySelection(name))
      else Ok((b1.value, b2.value))
  }

  /** When the 1-sigma selection lies inside the 2-sigma one, the 2-sigma
      bar of a parameter encloses its 1-sigma bar. */
  lemma PairBarsEnclose(t: Table, name: string, step: real, sel: Selection)
    requires Fits(t, sel)
    requires forall i :: 0 <= i < |sel.m1| && sel.m1[i] ==> sel.m2[i]
    requires PairBars(t, name, step, sel).Ok?
    ensures PairEncloses(PairBars(t, name, step, sel).value.0, PairBars(t, name, step, sel).value.1)
  {
    EnclosingBar(t.columns[name], sel.m1, sel.m2, step, sel.xbest);
  }

  /** What one step of the loop yields: both error bars, or the failure. */
  type PairResult = Result<(Interval, Interval), Failure>

  /** The two tables after the first `k` pairs, given what each step yields;
      a later pair with the same name overwrites an earlier one, and the
      first failing step stops the loop. */
  function Tabulate(names: seq<string>, pairs: seq<PairResult>, k: nat): Result<(Bars, Bars), Failure>
    requires k <= |names| && k <= |pairs|
  {
    if k == 0 then Ok((map[], map[]))
    else
      match Tabulate(names, pairs, k - 1)
      case Err(e) => Err(e)
      case Ok(bars) =>
        match pairs[k - 1]
        case Err(e) => Err(e)
        case Ok(pair) => Ok((bars.0[names[k - 1] := pair.0], bars.1[names[k - 1] := pair.1]))
  }

  /** Once a step fails, the tables stay at that failure. */
  lemma {:induction false} TabulateStopped(names: seq<string>, pairs: seq<PairResult>, k: nat, n: nat)
    requires k <= n <= |names| && n <= |pairs|
    requires Tabulate(names, pairs, k).Err?
    ensures Tabulate(names, pairs, n) == Tabulate(names, pairs, k)
    decreases n - k
  {
    if k < n {
      TabulateStopped(names, pairs, k, n - 1);
    }
  }

  /** The tables are built exactly when every step succeeds; otherwise the
      failure is that of the first failing step. */
  lemma {:induction false} TabulateOk(names: seq<string>, pairs: seq<PairResult>, k: nat)
    requires k <= |names| && k <= |pairs|
    ensures Tabulate(names, pairs, k).Ok? <==> forall i :: 0 <= i < k ==> pairs[i].Ok?
    ensures Tabulate(names, pairs, k).Err? ==>
      exists j :: 0 <= j < k && pairs[j].Err? && (forall i :: 0 <= i < j ==> pairs[i].Ok?) &&
        Tabulate(names, pairs, k).error == pairs[j].error
  {
    if k > 0 {
      TabulateOk(names, pairs, k - 1);
      if Tabulate(names, pairs, k - 1).Ok? && pairs[k - 1].Err? {
        assert forall i :: 0 <= i < k - 1 ==> pairs[i].Ok?;
      }
    }
  }

  /** Built tables have one entry per name of the first `k` steps. */
  lemma {:induction false} TabulateKeys(names: seq<string>, pairs: seq<PairResult>, k: nat)
    requires k <= |names| && k <= |pairs|
    requires Tabulate(names, pairs, k).Ok?
    ensures Tabulate(names, pairs, k).value.0.Keys == set i | 0 <= i < k :: names[i]
    ensures Tabulate(names, pairs, k).value.1.Keys == set i | 0 <= i < k :: names[i]
  {
    if k > 0 {
      TabulateKeys(names, pairs, k - 1);
      assert (set i | 0 <= i < k :: names[i]) == (set i | 0 <= i < k - 1 :: names[i]) + {names[k - 1]};
    }
  }

  /** A name is bound to the error bars of its last step. */
  lemma {:induction false} TabulateLast(names: seq<string>, pairs: seq<PairResult>, k: nat, i: nat)
    requires i < k <= |names| && k <= |pairs|
    requires forall j :: i < j < k ==> names[j] != names[i]
    requires Tabulate(names, pairs, k).Ok?
    ensures pairs[i].Ok?
    ensures names[i] in Tabulate(names, pairs, k).value.0 && names[i] in Tabulate(names, pairs, k).value.1
    ensures Tabulate(names, pairs, k).value.0[names[i]] == pairs[i].value.0
    ensures Tabulate(names, pairs, k).value.1[names[i]] == pairs[i].value.1
    decreases k
  {
    if i < k - 1 {
      TabulateLast(names, pairs, k - 1, i);
    }
  }

  /** The 2-sigma bar encloses the 1-sigma bar, with the same best value. */
  predicate PairEncloses(b1: Interval, b2: Interval) {
    b2.lo <= b1.lo && b1.hi <= b2.hi && b1.best == b2.best
  }

  /** Both tables name the same parameters, and each 2-sigma interval
      encloses the 1-sigma one of the same parameter. */
  predicate Encloses(bars: (Bars, Bars)) {
    bars.0.Keys == bars.1.Keys &&
    forall x :: x in bars.0 ==> PairEncloses(bars.0[x], bars.1[x])
  }

  /** When every step's 2-sigma bar encloses its 1-sigma bar, so do the
      tables. */
  lemma {:induction false} TabulateEnclose(names: seq<string>, pairs: seq<PairResult>, k: nat)
    requires k <= |names| && k <= |pairs|
    requires forall i :: 0 <= i < k && pairs[i].Ok? ==> PairEncloses(pairs[i].value.0, pairs[i].value.1)
    requires Tabulate(names, pairs, k).Ok?
    ensures Encloses(Tabulate(names, pairs, k).value)
  {
    if k > 0 {
      TabulateEnclose(names, pairs, k - 1);
    }
  }

  /** What each pair of `zip(names, steps)` yields. */
  function PairsFor(t: Table, names: seq<string>, steps: seq<real>, sel: Selection): (ps: seq<PairResult>)
    requires Fits(t, sel)
    ensures |ps| == Paired(names, steps)
    ensures forall i :: 0 <= i < |ps| ==> ps[i] == PairBars(t, names[i], steps[i], sel)
  {
    var n := Paired(names, steps);
    seq(n, i requires 0 <= i < n => PairBars(t, names[i], steps[i], sel))
  }

  /** The two tables `params_error_1sig` and `params_error_2sig` built
      from `zip(names, steps)`. */
  function ErrorTables(t: Table, names: seq<string>, steps: seq<real>, sel: Selection): Result<(Bars, Bars), Failure>
    requires Fits(t, sel)
  {
    Tabulate(names, PairsFor(t, names, steps, sel), Paired(names, steps))
  }

  /** The loop `for i, aspace in zip(param_names, param_space)`, with
      `steps` the third entries `aspace[2]`. */
  method ErrorBars(t: Table, names: seq<string>, steps: seq<real>, sel: Selection)
    returns (res: Result<(Bars, Bars), Failure>)
    requires Fits(t, sel)
    ensures res == ErrorTables(t, names, steps, sel)
  {
    var n := Paired(names, steps);
    ghost var pairs := PairsFor(t, names, steps, sel);
    var bars1: Bars := map[];
    var bars2: Bars := map[];
    var k := 0;
    while k < n
      invariant 0 <= k <= n
      invariant Tabulate(names, pairs, k) == Ok((bars1, bars2))
    {
      var pair := PairBars(t, names[k], steps[k], sel);
      assert pair == pairs[k];
      if pair.Err? {
        res := Err(pair.error);
        TabulateStopped(names, pairs, k + 1, n);
        return;
      }
      bars1 := bars1[names[k] := pair.value.0];
      bars2 := bars2[names[k] := pair.value.1];
      k := k + 1;
    }
    res := Ok((bars1, bars2));
  }

  /** Every one of the first `k` names is a column of the table. */
  predicate AllColumns(t: Table, names: seq<string>, k: nat)
    requires k <= |names|
  {
    forall i :: 0 <= i < k ==> names[i] in t.columns
  }

  /** The tables are built exactly when every paired name is a column and,
      if there is a pair at all, both selections are non-empty. Built
      tables have one key per paired name. */
  lemma ErrorTablesOk(t: Table, names: seq<string>, steps: seq<real>, sel: Selection)
    requires Fits(t, sel)
    ensures ErrorTables(t, names, steps, sel).Ok? <==>
      AllColumns(t, names, Paired(names, steps)) &&
      (Paired(names, steps) == 0 || (AnySelected(sel.m1) && AnySelected(sel.m2)))
    ensures ErrorTables(t, names, steps, sel).Ok? ==>
      ErrorTables(t, names, steps, sel).value.0.Keys == (set i | 0 <= i < Paired(names, steps) :: names[i]) &&
      ErrorTables(t, names, steps, sel).value.1.Keys == (set i | 0 <= i < Paired(names, steps) :: names[i])
  {
    var pairs := PairsFor(t, names, steps, sel);
    var n := Paired(names, steps);
    TabulateOk(names, pairs, n);
    var any := AnySelected(sel.m1) && AnySelected(sel.m2);
    if Tabulate(names, pairs, n).Ok? {
      TabulateKeys(names, pairs, n);
      forall i | 0 <= i < n
        ensures names[i] in t.columns
      {
        assert pairs[i].Ok?;
      }
      if n > 0 {
        assert pairs[0].Ok?;
      }
    } else {
      var j :| 0 <= j < n && pairs[j].Err?;
      assert names[j] !in t.columns || !any;
    }
  }

  /** Each paired name is bound in both tables to the error bars of its
      last pair. */
  lemma ErrorTablesLast(t: Table, names: seq<string>, steps: seq<real>, sel: Selection, i: nat)
    requires Fits(t, sel)
    requires i < Paired(names, steps)
    requires forall j :: i < j < Paired(names, steps) ==> names[j] != names[i]
    requires AllColumns(t, names, Paired(names, steps)) && AnySelected(sel.m1) && AnySelected(sel.m2)
    ensures ErrorTables(t, names, steps, sel).Ok?
    ensures PairBars(t, names[i], steps[i], sel).Ok?
    ensures names[i] in ErrorTables(t, names, steps, sel).value.0 && names[i] in ErrorTables(t, names, steps, sel).value.1
    ensures ErrorTables(t, names, steps, sel).value.0[names[i]] == PairBars(t, names[i], steps[i], sel).value.0
    ensures ErrorTables(t, names, steps, sel).value.1[names[i]] == PairBars(t, names[i], steps[i], sel).value.1
  {
    ErrorTablesOk(t, names, steps, sel);
    TabulateLast(names, PairsFor(t, names, steps, sel), Paired(names, steps), i);
  }

  /** When the 1-sigma selection lies inside the 2-sigma one, each 2-sigma
      interval encloses the 1-sigma interval of the same parameter. */
  lemma ErrorTablesEnclose(t: Table, names: seq<string>, steps: seq<real>, sel: Selection)
    requires Fits(t, sel)
    requires forall i :: 0 <= i < |sel.m1| && sel.m1[i] ==> sel.m2[i]
    requires ErrorTables(t, names, steps, sel).Ok?
    ensures Encloses(ErrorTables(t, names, steps, sel).value)
  {
    var pairs := PairsFor(t, names, steps, sel);
    var n := Paired(names, steps);
    forall i | 0 <= i < n && pairs[i].Ok?
      ensures PairEncloses(pairs[i].value.0, pairs[i].value.1)
    {
      PairBarsEnclose(t, names[i], steps[i], sel);
    }
    TabulateEnclose(names, pairs, n);
  }

  /** The tuple `best_uncertainty`; `derived` holds the derived-parameter
      tables when `incl_deriv` is set. */
  datatype Report = Report(
    bestModel: string,
    bestFamily: seq<string>,
    errors: (Bars, Bars),
    derived: Option<(Bars, Bars)>,
    statistic: Statistic)

  /** The selections of a non-empty table under the chosen statistic. */
  function Selections(t: Table): (sel: Selection)
    requires Valid(t) && |t.rchi2| > 0
    ensures Fits(t, sel)
  {
    var s := ChooseStatistic(t.rchi2);
    Selection(Mask(s, t.pvalue, t.rmsea, true), Mask(s, t.pvalue, t.rmsea, false), ArgMax(t.pvalue))
  }

  /** The step sizes of the derived parameters: none, so their intervals
      are not widened. */
  function Zeros(n: nat): (z: seq<real>)
    ensures |z| == n && forall i :: 0 <= i < n ==> z[i] == 0.0
  {
    seq(n, _ => 0.0)
  }

  /** The selections nest: RMSEA values are non-negative whenever RMSEA is
      the statistic, as the square root that computes them makes them. */
  predicate Nested(t: Table) {
    ChooseStatistic(t.rchi2) == Rmsea ==> forall i :: 0 <= i < |t.rmsea| ==> t.rmsea[i] >= 0.0
  }

  /** `get_uncertainties(df, ..., param_names, param_space, deriv_pars,
      incl_deriv)`, with `steps` the step sizes `aspace[2]` of
      `param_space`. A report is produced exactly when the parameter loop
      and, with `incl_deriv`, the derived loop both finish; otherwise the
      failure is that of the first loop that stops. */
  method GetUncertainties(t: Table, names: seq<string>, steps: seq<real>, derivPars: seq<string>, inclDeriv: bool)
    returns (res: Result<Report, Failure>)
    requires Valid(t)
    ensures |t.rchi2| == 0 ==> res == Err(NoRows)
    ensures |t.rchi2| > 0 ==>
      (res.Ok? <==> ErrorTables(t, names, steps, Selections(t)).Ok? &&
                    (inclDeriv ==> ErrorTables(t, derivPars, Zeros(|derivPars|), Selections(t)).Ok?))
    ensures |t.rchi2| > 0 ==>
      (res.Ok? <==> AllColumns(t, names, Paired(names, steps)) &&
                    (inclDeriv ==> AllColumns(t, derivPars, |derivPars|)) &&
                    (Paired(names, steps) > 0 || (inclDeriv && |derivPars| > 0) ==>
                       AnySelected(Selections(t).m1) && AnySelected(Selections(t).m2)))
    ensures |t.rchi2| > 0 && ErrorTables(t, names, steps, Selections(t)).Err? ==>
      res == Err(ErrorTables(t, names, steps, Selections(t)).error)
    ensures (|t.rchi2| > 0 && ErrorTables(t, names, steps, Selections(t)).Ok? && inclDeriv &&
             ErrorTables(t, derivPars, Zeros(|derivPars|), Selections(t)).Err?) ==>
      res == Err(ErrorTables(t, derivPars, Zeros(|derivPars|), Selections(t)).error)
    ensures res.Ok? ==> |t.rchi2| > 0 && res.value.statistic == ChooseStatistic(t.rchi2)
    ensures res.Ok? ==> res.value.bestModel == t.runIds[ArgMax(t.pvalue)]
    ensures res.Ok? ==> res.value.bestFamily == Select(t.runIds, Selections(t).m2)
    ensures res.Ok? ==> Ok(res.value.errors) == ErrorTables(t, names, steps, Selections(t))
    ensures res.Ok? ==> (res.value.derived.Some? <==> inclDeriv)
    ensures res.Ok? && inclDeriv ==>
      Ok(res.value.derived.value) == ErrorTables(t, derivPars, Zeros(|derivPars|), Selections(t))
    ensures res.Ok? && Nested(t) ==> Encloses(res.value.errors)
    ensures res.Ok? && inclDeriv && Nested(t) ==> Encloses(res.value.derived.value)
  {
    var s := ChooseStatistic(t.rchi2);
    if |t.pvalue| == 0 {
      return Err(NoRows);
    }
    var sel := Selections(t);
    var zeros := Zeros(|derivPars|);
    ErrorTablesOk(t, names, steps, sel);
    ErrorTablesOk(t, derivPars, zeros, sel);
    var bars := ErrorBars(t, names, steps, sel);
    if bars.Err? {
      return Err(bars.error);
    }
    var derived: Option<(Bars, Bars)> := None;
    if inclDeriv {
      var dbars := ErrorBars(t, derivPars, zeros, sel);
      if dbars.Err? {
        return Err(dbars.error);
      }
      derived := Some(dbars.value);
    }
    if Nested(t) {
      MasksNested(s, t.pvalue, t.rmsea);
      ErrorTablesEnclose(t, names, steps, sel);
      if inclDeriv {
        ErrorTablesEnclose(t, derivPars, zeros, sel);
      }
    }
    res := Ok(Report(t.runIds[sel.xbest], Select(t.runIds, sel.m2), bars.value, derived, s));
  }
}
