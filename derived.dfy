/** `more_parameters`: adds derived columns (luminosity, spectroscopic mass,
    Eddington factor, effective escape velocity and, when the inputs allow,
    X-ray and wind quantities) to the results table, and builds the list of
    names shown in the derived-parameter fitness plot. Only the column names
    are modelled: the column values are floating-point physics. */
module DerivedParameters {
  import opened Support

  /** The results table, as the names of its columns in order. */
  class Frame {
    var columns: seq<string>

    constructor (columns: seq<string>)
      ensures this.columns == columns
    {
      this.columns := columns;
    }

    /** `df[name] = ...`: overwrites an existing column in place, or
        appends a new one. */
    method Assign(name: string)
      modifies this
      ensures columns == WithColumn(old(columns), name)
    {
      if name !in columns {
        columns := columns + [name];
      }
    }
  }

  /** The column names after assigning column `name`. */
  function WithColumn(cols: seq<string>, name: string): seq<string> {
    if name in cols then cols else cols + [name]
  }

  /** The column names after assigning `names` in turn. */
  function WithColumns(cols: seq<string>, names: seq<string>): seq<string>
    decreases |names|
  {
    if names == [] then cols
    else WithColumn(WithColumns(cols, names[..|names| - 1]), names[|names| - 1])
  }

  /** Assigning columns only ever adds the assigned names: the table then
      has exactly the old columns and the assigned ones, the old ones first
      and in their old order. */
  lemma {:induction false} WithColumnsMembers(cols: seq<string>, names: seq<string>, x: string)
    ensures x in WithColumns(cols, names) <==> x in cols || x in names
    ensures |WithColumns(cols, names)| >= |cols| && WithColumns(cols, names)[..|cols|] == cols
    decreases |names|
  {
    if names != [] {
      var init := names[..|names| - 1];
      WithColumnsMembers(cols, init, x);
      assert names == init + [names[|names| - 1]];
    }
  }

  /** Assigning one more column extends `WithColumns` by one step. */
  lemma WithColumnsSnoc(cols: seq<string>, names: seq<string>, name: string)
    ensures WithColumns(cols, names + [name]) == WithColumn(WithColumns(cols, names), name)
  {
    assert (names + [name])[..|names|] == names;
  }

  /** The input names the function checks the table for. */
  const InputNames: set<string> := {"teff", "radius", "logg", "xlum", "fx", "mdot", "vinf", "windturb"}

  /** The names of the columns the function assigns. */
  const OutputNames: set<string> :=
    {"logL", "Mspec", "Gamma_Edd", "vesc_eff", "logxlum", "logfx", "vinf_vesc", "windturb_kms"}

  /** Assigning derived columns never creates or hides an input column. */
  lemma InputsUnaffected(cols: seq<string>, names: seq<string>, x: string)
    requires x in InputNames
    requires forall a :: a in names ==> a in OutputNames
    ensures x in WithColumns(cols, names) <==> x in cols
  {
    WithColumnsMembers(cols, names, x);
    assert x !in OutputNames;
  }

  /** Always plotted. */
  const BaseNames: seq<string> := ["logL", "radius", "Mspec", "Gamma_Edd", "vesc_eff"]

  /** The ionising-flux parameters, plotted when they are columns. */
  const FluxNames: seq<string> := ["logq0", "logQ0", "logq1", "logQ1", "logq2", "logQ2"]

  /** The derived columns computed unconditionally, in the order assigned. */
  const CoreColumns: seq<string> := ["logL", "Mspec", "Gamma_Edd", "vesc_eff"]

  function ColumnSet<T>(cols: seq<T>): set<T> {
    set x | x in cols
  }

  /** `dict(zip(fix_names, fix_vals))`: pairs up to the shorter list; a
      later pair overrides an earlier one with the same name. */
  function ZipDict(names: seq<string>, vals: seq<real>): (d: map<string, real>)
    ensures forall x :: x in d <==> x in names[..Paired(names, vals)]
    decreases |names|
  {
    if |names| == 0 || |vals| == 0 then map[]
    else
      var rest := ZipDict(names[1..], vals[1..]);
      assert names[..Paired(names, vals)] == [names[0]] + names[1..][..Paired(names[1..], vals[1..])];
      map[names[0] := vals[0]] + rest
  }

  /** A name is bound to the value paired with its last occurrence. */
  lemma {:induction false} ZipDictLast(names: seq<string>, vals: seq<real>, i: nat)
    requires i < Paired(names, vals)
    requires forall j :: i < j < Paired(names, vals) ==> names[j] != names[i]
    ensures ZipDict(names, vals)[names[i]] == vals[i]
    decreases |names|
  {
    if i > 0 {
      var m := Paired(names[1..], vals[1..]);
      forall j | i - 1 < j < m
        ensures names[1..][j] != names[1..][i - 1]
      {
        assert names[1..][j] == names[j + 1];
      }
      ZipDictLast(names[1..], vals[1..], i - 1);
    } else {
      var m := Paired(names[1..], vals[1..]);
      assert names[0] !in names[1..][..m] by {
        forall j | 0 <= j < m
          ensures names[1..][..m][j] != names[0]
        {
          assert names[1..][..m][j] == names[j + 1];
        }
      }
    }
  }

  /** The first key the function looks up and does not find: a missing
      `teff` (neither column nor fixed), then a missing `radius` column, a
      missing `logg`, a missing fixed `fx` when `fx` is not a column, and a
      missing `mdot` when the X-ray branch needs it. */
  function MissingKey(cols: seq<string>, fixed: map<string, real>): Option<string> {
    if CoreMissing(cols, fixed).Some? then CoreMissing(cols, fixed) else XrayMissing(cols, fixed)
  }

  /** The keys the luminosity and mass computations look up and do not
      find. */
  function CoreMissing(cols: seq<string>, fixed: map<string, real>): Option<string> {
    if "teff" !in cols && "teff" !in fixed then Some("teff")
    else if "radius" !in cols then Some("radius")
    else if "logg" !in cols && "logg" !in fixed then Some("logg")
    else None
  }

  /** The columns after the luminosity and mass computations, which stop
      before `logL` when `teff` or `radius` is missing and after it when
      `logg` is. */
  function CoreColumnsAfter(cols: seq<string>, fixed: map<string, real>): seq<string> {
    if "teff" !in cols && "teff" !in fixed then cols
    else if "radius" !in cols then cols
    else if "logg" !in cols && "logg" !in fixed then WithColumn(cols, "logL")
    else WithColumns(cols, CoreColumns)
  }

  /** The keys the X-ray branch looks up and does not find. */
  function XrayMissing(cols: seq<string>, fixed: map<string, real>): Option<string> {
    if "fx" !in cols && "fx" !in fixed then Some("fx")
    else if "fx" !in cols && fixed["fx"] > 1000.0 && "mdot" !in cols && "mdot" !in fixed then Some("mdot")
    else None
  }

  /** `plist.append(name)` when `cond` holds. */
  function AppendIf(s: seq<string>, cond: bool, name: string): seq<string> {
    if cond then s + [name] else s
  }

  /** `logxlum` is derived when `xlum` is a column. */
  function XlumNames(cols: seq<string>): seq<string> {
    AppendIf([], "xlum" in cols, "logxlum")
  }

  /** `logfx` is derived when `fx` is not a column and the fixed `fx`
      exceeds 1000. */
  predicate WantsLogFx(cols: seq<string>, fixed: map<string, real>)
    requires "fx" in cols || "fx" in fixed
  {
    "fx" !in cols && fixed["fx"] > 1000.0
  }

  /** The names the X-ray branches add: `logxlum`, then `logfx`. */
  function XrayNames(cols: seq<string>, fixed: map<string, real>): seq<string>
    requires "fx" in cols || "fx" in fixed
  {
    AppendIf(XlumNames(cols), WantsLogFx(cols, fixed), "logfx")
  }

  /** The names the wind branches add: `vinf_vesc`, then `windturb_kms`. */
  function WindNames(cols: seq<string>): seq<string> {
    AppendIf(AppendIf([], "vinf" in cols, "vinf_vesc"), "windturb" in cols && "vinf" in cols, "windturb_kms")
  }

  /** The conditional names appended to the plot list (and assigned as
      columns), in the order `more_parameters` appends them. */
  function DerivedNames(cols: seq<string>, fixed: map<string, real>): seq<string>
    requires "fx" in cols || "fx" in fixed
  {
    XrayNames(cols, fixed) + WindNames(cols)
  }

  /** The plot list that a call without KeyError returns. */
  function PlotList(cols: seq<string>, fixed: map<string, real>): seq<string>
    requires MissingKey(cols, fixed) == None
  {
    BaseNames + Keep(FluxNames, ColumnSet(cols)) + DerivedNames(cols, fixed)
  }

  /** The column names the table ends with, also when a KeyError stops the
      function part-way. */
  function ColumnsAfter(cols: seq<string>, fixed: map<string, real>): seq<string> {
    if CoreMissing(cols, fixed).Some? then CoreColumnsAfter(cols, fixed)
    else if XrayMissing(cols, fixed).Some? then WithColumns(cols, CoreColumns + XlumNames(cols))
    else WithColumns(cols, CoreColumns + DerivedNames(cols, fixed))
  }

  /** The loop `for par in names: if par not in df.columns: plist.remove(par)`
      over a plot list that starts as `base + names`. */
  method RemoveMissing<T(==)>(base: seq<T>, names: seq<T>, cols: seq<T>) returns (plist: seq<T>)
    requires NoDuplicates(names)
    requires forall x :: x in names ==> x !in base
    ensures plist == base + Keep(names, ColumnSet(cols))
  {
    plist := base + names;
    var k := 0;
    assert names[..0] == [] && names[0..] == names;
    while k < |names|
      invariant 0 <= k <= |names|
      invariant plist == base + Keep(names[..k], ColumnSet(cols)) + names[k..]
    {
      var par := names[k];
      KeepStep(base, names, k, ColumnSet(cols));
      if par !in cols {
        plist := RemoveFirst(plist, par);
      }
      k := k + 1;
    }
    assert names[..k] == names;
  }

  /** `more_parameters(df, param_names, fix_names, fix_vals)`; `param_names`
      is not used by `more_parameters` and is not a parameter here. A KeyError is
      `Err(key)`. */
  method MoreParameters(df: Frame, fixNames: seq<string>, fixVals: seq<real>)
    returns (res: Result<seq<string>, string>)
    modifies df
    ensures res.Err? <==> MissingKey(old(df.columns), ZipDict(fixNames, fixVals)).Some?
    ensures res.Err? ==> res.error == MissingKey(old(df.columns), ZipDict(fixNames, fixVals)).value
    ensures res.Ok? ==> res.value == PlotList(old(df.columns), ZipDict(fixNames, fixVals))
    ensures df.columns == ColumnsAfter(old(df.columns), ZipDict(fixNames, fixVals))
  {
    var fixDict := ZipDict(fixNames, fixVals);
    res := Derive(df, fixDict);
  }

  /** The body of `more_parameters` once `fix_dict` is built. */
  method Derive(df: Frame, fixDict: map<string, real>) returns (res: Result<seq<string>, string>)
    modifies df
    ensures res.Err? <==> MissingKey(old(df.columns), fixDict).Some?
    ensures res.Err? ==> res.error == MissingKey(old(df.columns), fixDict).value
    ensures res.Ok? ==> res.value == PlotList(old(df.columns), fixDict)
    ensures df.columns == ColumnsAfter(old(df.columns), fixDict)
  {
    ghost var cols := df.columns;
    FluxNamesFresh();
    var plist := RemoveMissing(BaseNames, FluxNames, df.columns);

    var missing := AddCore(df, fixDict);
    if missing.Some? {
      return Err(missing.value);
    }

    var xres := AddXray(df, fixDict, plist, cols);
    if xres.Err? {
      return xres;
    }
    ghost var xray := XrayNames(cols, fixDict);
    res := AddWind(df, xres.value, cols, plist, CoreColumns + xray, xray);
    AppendAssoc(plist, xray, WindNames(cols));
    AppendAssoc(CoreColumns, xray, WindNames(cols));
  }

  /** The flux names are distinct and none of them is a base name. */
  lemma FluxNamesFresh()
    ensures NoDuplicates(FluxNames)
    ensures forall x :: x in FluxNames ==> x !in BaseNames
  {
  }

  /** The unconditional columns `logL`, `Mspec`, `Gamma_Edd` and
      `vesc_eff`, each computed from a column or, failing that, a fixed
      value; the result is the key of a KeyError. */
  method AddCore(df: Frame, fixDict: map<string, real>) returns (missing: Option<string>)
    modifies df
    ensures missing == CoreMissing(old(df.columns), fixDict)
    ensures df.columns == CoreColumnsAfter(old(df.columns), fixDict)
  {
    ghost var cols := df.columns;
    if "teff" !in df.columns && "teff" !in fixDict {
      return Some("teff");
    }
    if "radius" !in df.columns {
      return Some("radius");
    }
    df.Assign("logL");
    WithColumnsSnoc(cols, [], "logL");
    assert [] + ["logL"] == ["logL"];
    InputsUnaffected(cols, ["logL"], "logg");
    if "logg" !in df.columns && "logg" !in fixDict {
      return Some("logg");
    }
    df.Assign("Mspec");
    WithColumnsSnoc(cols, ["logL"], "Mspec");
    assert ["logL"] + ["Mspec"] == ["logL", "Mspec"];
    df.Assign("Gamma_Edd");
    WithColumnsSnoc(cols, ["logL", "Mspec"], "Gamma_Edd");
    assert ["logL", "Mspec"] + ["Gamma_Edd"] == ["logL", "Mspec", "Gamma_Edd"];
    df.Assign("vesc_eff");
    WithColumnsSnoc(cols, ["logL", "Mspec", "Gamma_Edd"], "vesc_eff");
    assert ["logL", "Mspec", "Gamma_Edd"] + ["vesc_eff"] == CoreColumns;
    missing := None;
  }

  /** The X-ray branches of `more_parameters` (`logxlum`, then `logfx`),
      on the table as the unconditional columns leave it. */
  method AddXray(df: Frame, fixDict: map<string, real>, plist: seq<string>, ghost cols: seq<string>)
    returns (res: Result<seq<string>, string>)
    modifies df
    requires df.columns == WithColumns(cols, CoreColumns)
    ensures res.Err? <==> XrayMissing(cols, fixDict).Some?
    ensures res.Err? ==> res.error == XrayMissing(cols, fixDict).value
    ensures res.Err? ==> df.columns == WithColumns(cols, CoreColumns + XlumNames(cols))
    ensures res.Ok? ==> res.value == plist + XrayNames(cols, fixDict)
    ensures res.Ok? ==> df.columns == WithColumns(cols, CoreColumns + XrayNames(cols, fixDict))
  {
    var out := plist;
    // The derived names appended so far, to both the plot list and the table.
    ghost var extra: seq<string> := [];
    InputsUnaffected(cols, CoreColumns, "xlum");
    if "xlum" in df.columns {
      df.Assign("logxlum");
      WithColumnsSnoc(cols, CoreColumns, "logxlum");
      out := out + ["logxlum"];
    } else {
      assert CoreColumns + [] == CoreColumns && plist + [] == plist;
    }
    extra := XlumNames(cols);
    assert out == plist + extra;
    assert df.columns == WithColumns(cols, CoreColumns + extra);

    InputsUnaffected(cols, CoreColumns + extra, "fx");
    InputsUnaffected(cols, CoreColumns + extra, "mdot");
    if "fx" !in df.columns {
      if "fx" !in fixDict {
        return Err("fx");
      }
      if fixDict["fx"] > 1000.0 {
        if "mdot" !in df.columns && "mdot" !in fixDict {
          return Err("mdot");
        }
        df.Assign("logfx");
        WithColumnsSnoc(cols, CoreColumns + extra, "logfx");
        AppendAssoc(CoreColumns, extra, ["logfx"]);
        AppendAssoc(plist, extra, ["logfx"]);
        out := out + ["logfx"];
      }
    }
    res := Ok(out);
  }

  /** The wind branches of `more_parameters` (`vinf_vesc`, then
      `windturb_kms`), after the table has gained the columns `done` and the
      plot list the names `extra`. */
  method AddWind(df: Frame, plist: seq<string>, ghost cols: seq<string>, ghost base: seq<string>,
                 ghost done: seq<string>, ghost extra: seq<string>)
    returns (res: Result<seq<string>, string>)
    modifies df
    requires df.columns == WithColumns(cols, done)
    requires forall a :: a in done ==> a in OutputNames
    requires plist == base + extra
    ensures res == Ok(base + (extra + WindNames(cols)))
    ensures df.columns == WithColumns(cols, done + WindNames(cols))
  {
    var out := plist;
    InputsUnaffected(cols, done, "vinf");
    InputsUnaffected(cols, done, "windturb");
    ghost var wind := AppendIf([], "vinf" in cols, "vinf_vesc");
    if "vinf" in df.columns {
      df.Assign("vinf_vesc");
      WithColumnsSnoc(cols, done, "vinf_vesc");
      AppendAssoc(base, extra, ["vinf_vesc"]);
      out := out + ["vinf_vesc"];
    } else {
      assert done + [] == done && extra + [] == extra;
    }
    assert out == base + (extra + wind);
    assert df.columns == WithColumns(cols, done + wind);

    InputsUnaffected(cols, done + wind, "vinf");
    InputsUnaffected(cols, done + wind, "windturb");
    if "windturb" in df.columns && "vinf" in df.columns {
      df.Assign("windturb_kms");
      WithColumnsSnoc(cols, done + wind, "windturb_kms");
      AppendAssoc(done, wind, ["windturb_kms"]);
      AppendAssoc(base, extra + wind, ["windturb_kms"]);
      AppendAssoc(extra, wind, ["windturb_kms"]);
      out := out + ["windturb_kms"];
    }
    res := Ok(out);
  }

  lemma AppendAssoc(a: seq<string>, b: seq<string>, c: seq<string>)
    ensures (a + b) + c == a + (b + c)
  {
  }

  /** The plot list opens with the five base names and then holds exactly
      the ionising-flux names that are columns, in their fixed order. */
  lemma PlotListPrefix(cols: seq<string>, fixed: map<string, real>)
    requires MissingKey(cols, fixed) == None
    ensures PlotList(cols, fixed)[..5] == BaseNames
    ensures forall q :: q in FluxNames ==> (q in PlotList(cols, fixed) <==> q in cols)
  {
    var p := PlotList(cols, fixed);
    assert p[..5] == BaseNames;
    forall q | q in FluxNames
      ensures q in p <==> q in cols
    {
      KeepMembers(FluxNames, ColumnSet(cols), q);
      assert q !in BaseNames;
      DerivedMembers(cols, fixed, q);
    }
  }

  /** `AppendIf` adds `name` exactly when `cond` holds, and keeps a list
      without duplicates free of them when `name` is new. */
  lemma AppendIfFacts(s: seq<string>, cond: bool, name: string, x: string)
    ensures x in AppendIf(s, cond, name) <==> x in s || (cond && x == name)
    ensures NoDuplicates(s) && name !in s ==> NoDuplicates(AppendIf(s, cond, name))
  {
  }

  /** The four conditional names, each present exactly when `more_parameters`
      appends it. */
  lemma DerivedMembers(cols: seq<string>, fixed: map<string, real>, x: string)
    requires "fx" in cols || "fx" in fixed
    ensures x in DerivedNames(cols, fixed) <==>
      (x == "logxlum" && "xlum" in cols) ||
      (x == "logfx" && WantsLogFx(cols, fixed)) ||
      (x == "vinf_vesc" && "vinf" in cols) ||
      (x == "windturb_kms" && "windturb" in cols && "vinf" in cols)
  {
    var v := AppendIf([], "vinf" in cols, "vinf_vesc");
    AppendIfFacts([], "xlum" in cols, "logxlum", x);
    AppendIfFacts(XlumNames(cols), WantsLogFx(cols, fixed), "logfx", x);
    AppendIfFacts([], "vinf" in cols, "vinf_vesc", x);
    AppendIfFacts(v, "windturb" in cols && "vinf" in cols, "windturb_kms", x);
  }

  /** The conditional names are appended at most once each. */
  lemma DerivedNoDuplicates(cols: seq<string>, fixed: map<string, real>)
    requires "fx" in cols || "fx" in fixed
    ensures NoDuplicates(DerivedNames(cols, fixed))
  {
    var xl := XlumNames(cols);
    var v := AppendIf([], "vinf" in cols, "vinf_vesc");
    AppendIfFacts([], "xlum" in cols, "logxlum", "logfx");
    AppendIfFacts(xl, WantsLogFx(cols, fixed), "logfx", "logfx");
    AppendIfFacts([], "vinf" in cols, "vinf_vesc", "windturb_kms");
    AppendIfFacts(v, "windturb" in cols && "vinf" in cols, "windturb_kms", "windturb_kms");
    var xray := XrayNames(cols, fixed);
    var wind := WindNames(cols);
    forall x | x in xray
      ensures x !in wind
    {
      AppendIfFacts([], "xlum" in cols, "logxlum", x);
      AppendIfFacts(xl, WantsLogFx(cols, fixed), "logfx", x);
      AppendIfFacts([], "vinf" in cols, "vinf_vesc", x);
      AppendIfFacts(v, "windturb" in cols && "vinf" in cols, "windturb_kms", x);
    }
    NoDuplicatesConcat(xray, wind);
  }

  /** The names a plot list can hold after its base and flux part. */
  const ConditionalNames: set<string> := {"logxlum", "logfx", "vinf_vesc", "windturb_kms"}

  /** No conditional name is a base or flux name, so the flux part never
      holds one. */
  lemma ConditionalNotFlux(cols: seq<string>, x: string)
    requires x in ConditionalNames
    ensures x !in BaseNames && x !in Keep(FluxNames, ColumnSet(cols))
  {
    KeepMembers(FluxNames, ColumnSet(cols), x);
  }

  /** Each conditional name is in the plot list exactly when its condition
      holds. */
  lemma PlotListDerived(cols: seq<string>, fixed: map<string, real>)
    requires MissingKey(cols, fixed) == None
    ensures "logxlum" in PlotList(cols, fixed) <==> "xlum" in cols
    ensures "logfx" in PlotList(cols, fixed) <==> "fx" !in cols && fixed["fx"] > 1000.0
    ensures "vinf_vesc" in PlotList(cols, fixed) <==> "vinf" in cols
    ensures "windturb_kms" in PlotList(cols, fixed) <==> "windturb" in cols && "vinf" in cols
  {
    var head := BaseNames + Keep(FluxNames, ColumnSet(cols));
    assert PlotList(cols, fixed) == head + DerivedNames(cols, fixed);
    forall x | x in ConditionalNames
      ensures x in PlotList(cols, fixed) <==> x in DerivedNames(cols, fixed)
    {
      ConditionalNotFlux(cols, x);
    }
    DerivedMembers(cols, fixed, "logxlum");
    DerivedMembers(cols, fixed, "logfx");
    DerivedMembers(cols, fixed, "vinf_vesc");
    DerivedMembers(cols, fixed, "windturb_kms");
  }

  /** The plot list never names a parameter twice. */
  lemma PlotListNoDuplicates(cols: seq<string>, fixed: map<string, real>)
    requires MissingKey(cols, fixed) == None
    ensures NoDuplicates(PlotList(cols, fixed))
  {
    var flux := Keep(FluxNames, ColumnSet(cols));
    var derived := DerivedNames(cols, fixed);
    assert NoDuplicates(BaseNames) && NoDuplicates(FluxNames);
    KeepNoDuplicates(FluxNames, ColumnSet(cols));
    forall x | x in BaseNames
      ensures x !in flux
    {
      KeepMembers(FluxNames, ColumnSet(cols), x);
    }
    NoDuplicatesConcat(BaseNames, flux);
    DerivedNoDuplicates(cols, fixed);
    forall x | x in BaseNames + flux
      ensures x !in derived
    {
      DerivedMembers(cols, fixed, x);
      if x in derived {
        assert x in ConditionalNames;
        ConditionalNotFlux(cols, x);
      }
    }
    NoDuplicatesConcat(BaseNames + flux, derived);
  }

  /** Whether or not a KeyError stops it, the function keeps every column of
      the table in place and only ever adds derived columns. */
  lemma ColumnsAfterExtends(cols: seq<string>, fixed: map<string, real>)
    ensures |ColumnsAfter(cols, fixed)| >= |cols| && ColumnsAfter(cols, fixed)[..|cols|] == cols
    ensures forall x :: x in ColumnsAfter(cols, fixed) && x !in cols ==> x in OutputNames
  {
    var names: seq<string>;
    if CoreMissing(cols, fixed).Some? {
      if ("teff" !in cols && "teff" !in fixed) || "radius" !in cols {
        names := [];
      } else {
        names := ["logL"];
        WithColumnsSnoc(cols, [], "logL");
        assert [] + ["logL"] == names;
      }
    } else if XrayMissing(cols, fixed).Some? {
      names := CoreColumns + XlumNames(cols);
    } else {
      names := CoreColumns + DerivedNames(cols, fixed);
      forall x | x in DerivedNames(cols, fixed)
        ensures x in OutputNames
      {
        DerivedMembers(cols, fixed, x);
      }
    }
    assert ColumnsAfter(cols, fixed) == WithColumns(cols, names);
    assert forall x :: x in names ==> x in OutputNames;
    forall x | x in ColumnsAfter(cols, fixed)
      ensures x in cols || x in names
    {
      WithColumnsMembers(cols, names, x);
    }
    WithColumnsMembers(cols, names, "");
  }
}
