# Kiwi-GA post-run analysis: the decision logic

Kiwi-GA fits stellar spectra with a genetic algorithm. After a run, the
analysis module `func_GA_analysis.py` reads the table of evaluated models,
adds derived physical parameters, picks a fit statistic, turns it into
1-sigma and 2-sigma uncertainties, and draws figures. This project models
the discrete decisions in that module and proves what they guarantee.
Floating-point physics, statistics and drawing are left to the inputs.

- `support.dfy` (`Support`): `Option` and `Result`. It also holds the list
  operations the analysis relies on: `list.remove` (`RemoveFirst`), an
  order-preserving membership filter (`Keep`) and pandas boolean selection
  (`Select`). `NameList` is a mutable list object shared between a caller
  and the function that changes it.
- `grid.dfy` (`SubplotGrid`): the `ccol`/`crow` cursor loop that
  `fitnessplot`, `lineprofiles` and `convergence` use to walk their subplot
  grids, and the `nrows` formula of each figure.
- `correlation.dfy` (`CorrelationPlot`): `correlationplot`. It filters the
  caller's `corrpars` list in place down to the table's columns, then walks
  an n-by-n grid column by column, using `pairlist` to decide which cells
  get a scatter plot.
- `derived.dfy` (`DerivedParameters`): `more_parameters`. The results
  table is the `Frame` class, holding its column names in order. The method
  assigns derived columns in place and builds the plot list `plist`, with
  every KeyError `more_parameters` can raise.
- `uncertainty.dfy` (`Uncertainties`): `get_uncertainties`. It covers the
  choice of statistic, the 1-sigma and 2-sigma masks, the best model and
  best family, and the `[min - step, max + step, best]` intervals. The
  P-value and RMSEA columns are inputs.

Main results:
- The cursor visits cell `(i / ncols, i % ncols)` at step `i`. Every cell
  of the grid is visited exactly once. Each figure's grid has room for all
  of its panels.
- With distinct names, the correlation plot fills exactly the strict lower
  triangle. Each unordered pair is drawn once, and `pairlist` ends with
  `n * (n - 1)` entries.
- The plot list of `more_parameters` always starts with the five base
  names. It then holds exactly the flux names that are columns. Each
  conditional name is present exactly when its condition holds, and no
  name appears twice. Existing columns are never moved or dropped.
- The statistic is RMSEA exactly when the table has rows and every reduced
  chi-squared exceeds 1.
  The non-central P-value branch is unreachable. The 1-sigma selection lies
  inside the 2-sigma selection, so every 2-sigma interval encloses the
  1-sigma interval of the same parameter.

## Model

| member | source | states |
|---|---|---|
| SubplotGrid.WalkGrid | func_GA_analysis.py:397-411 | the cursor starts at `ccol = ncols - 1`, `crow = -1`; after the update at step `i` it is at row `i / ncols`, column `i % ncols`; cell `i` shows item `i` when `i` is below the item count and is switched off otherwise |
| SubplotGrid.RowsFor | func_GA_analysis.py:395-396 | `max(ceil(items / ncols), minRows)`: at least `minRows` rows, room for every item, and no more rows than needed beyond `minRows` |
| SubplotGrid.CellInGrid | func_GA_analysis.py:404-411 | every visited cell lies inside `[0, nrows) x [0, ncols)` |
| SubplotGrid.CellsDistinct | func_GA_analysis.py:404-411 | two different steps of the walk visit different cells |
| SubplotGrid.CellVisitedOnce | func_GA_analysis.py:404-411 | every cell `(row, col)` of the grid is visited by the walk at step `row * ncols + col`, and by no other step |
| SubplotGrid.WalkWellPlaced | func_GA_analysis.py:404-415 | the walk places each cell, with its item or switched off, inside the grid in row-major order |
| SubplotGrid.FitnessLayout | func_GA_analysis.py:393-418 | `fitnessplot`: five columns, at least two rows, room for every parameter plus the colour bar; the cell after the last parameter is switched off and every panel shows an existing parameter |
| SubplotGrid.LineProfileLayout | func_GA_analysis.py:510-530 | `lineprofiles`: five columns, at least two rows, room for every line, and each cell shows its line or is switched off |
| SubplotGrid.ConvergenceLayout | func_GA_analysis.py:748-770 | `convergence`: three columns, at least two rows, room for every parameter; the cells in the bottom row, which get the "Generation" label, are exactly the last three |
| Support.Paired | func_GA_analysis.py:245 | `zip` forms as many pairs as the shorter list has entries |
| Support.RemoveFirst | func_GA_analysis.py:590 | `list.remove` of a present element leaves one element fewer |
| Support.RemoveFirstCounts | func_GA_analysis.py:590 | `list.remove(x)` drops exactly one occurrence of `x` and keeps every other element |
| Support.RemoveFirstAfter | func_GA_analysis.py:590 | when `x` does not occur in `p`, removing `x` from `p + [x] + q` removes exactly that occurrence and leaves `p + q` |
| Support.KeepMembers | func_GA_analysis.py:588-590 | the filter keeps an element exactly when it is in the list and in the keep set |
| Support.KeepCounts | func_GA_analysis.py:588-590 | every kept element keeps all of its occurrences, and a dropped element keeps none |
| Support.KeepNoDuplicates | func_GA_analysis.py:101-103 | filtering a list without duplicates gives a list without duplicates |
| Support.KeepStep | func_GA_analysis.py:588-590 | one step of a remove-if-absent loop turns `base + Keep(s[..k]) + s[k..]` into `base + Keep(s[..k+1]) + s[k+1..]` |
| Support.Select | func_GA_analysis.py:247-262 | boolean-mask selection contains every entry whose mask is set |
| Support.SelectOrigin | func_GA_analysis.py:247-262 | every selected entry comes from a row whose mask is set |
| Support.NameList.Remove | func_GA_analysis.py:590 | `list.remove(x)` on the shared list: `found` says whether `x` was there; the contents become `RemoveFirst` of the old contents, or stay unchanged when `x` is absent |
| CorrelationPlot.FilterToColumns | func_GA_analysis.py:586-590 | the caller's list becomes the old list restricted to the table's columns, in the old order |
| CorrelationPlot.SelectCells | func_GA_analysis.py:607-619 | one cell per row and column, each recording whether it scatters; `pairlist` is the contents the loop builds; with distinct names a cell scatters exactly when its row is below its column, and `pairlist` ends with `n * (n - 1)` entries |
| CorrelationPlot.PairsBeforeDistinct | func_GA_analysis.py:607-619 | with distinct names, a pair is in `pairlist` exactly when its two indices differ and the walk has passed the cell in column `min` and row `max` |
| CorrelationPlot.ScattersBelowDiagonal | func_GA_analysis.py:612-617 | with distinct names, cell `(crow, ccol)` gets a scatter exactly when `crow > ccol` |
| CorrelationPlot.PairPlottedOnce | func_GA_analysis.py:612-617 | with distinct names, no diagonal cell is plotted, and of the two cells for a pair exactly one is |
| CorrelationPlot.TriangleClosed | func_GA_analysis.py:607-619 | the number of cells below the diagonal in the first `c` columns has the closed form `c * (2n - c - 1) / 2` |
| CorrelationPlot.PairsBeforeLength | func_GA_analysis.py:607-619 | with distinct names, `pairlist` holds two entries per scatter cell visited so far |
| CorrelationPlot.PlottedPairCount | func_GA_analysis.py:607-619 | with distinct names, `pairlist` ends with `n * (n - 1)` entries |
| CorrelationPlot.Correlate | func_GA_analysis.py:581-621 | the list is filtered in place; then, in the order `correlationplot` fails, a table without an `invrchi2` column gives the KeyError of the sort, no names left gives the IndexError at `hratios[0]`, one name gives the failed `ax[crow, ccol]` on a single Axes, and a table without rows or a filtered name whose column has an infinite entry or no entry that is not NaN gives the non-finite axis limits `set_xlim`/`set_ylim` reject; a figure is produced exactly when none of these applies, with the cells and `pairlist` of the walk over the filtered names |
| DerivedParameters.Frame.Assign | func_GA_analysis.py:106-151 | `df[name] = ...` keeps an existing column in place or appends a new one |
| DerivedParameters.WithColumnsMembers | func_GA_analysis.py:106-151 | after the assignments the table has exactly its old columns plus the assigned names, with the old columns first and in their old order |
| DerivedParameters.InputsUnaffected | func_GA_analysis.py:106-151 | assigning derived columns never creates or hides an input column such as `teff`, `fx` or `vinf` |
| DerivedParameters.ZipDict | func_GA_analysis.py:94 | `dict(zip(fix_names, fix_vals))` has exactly the names of the pairs `zip` forms as keys |
| DerivedParameters.ZipDictLast | func_GA_analysis.py:94 | a name is bound to the value paired with its last occurrence |
| DerivedParameters.RemoveMissing | func_GA_analysis.py:98-103 | the flux loop leaves the base names followed by exactly the flux names that are columns, in their fixed order |
| DerivedParameters.AddCore | func_GA_analysis.py:105-117 | `logL`, `Mspec`, `Gamma_Edd` and `vesc_eff` are assigned in that order; the KeyError, if any, is for `teff`, then `radius`, then `logg`, and the table keeps the columns assigned before it |
| DerivedParameters.AddXray | func_GA_analysis.py:119-141 | `logxlum` is added when `xlum` is a column; then a missing fixed `fx` (when `fx` is not a column) or a missing `mdot` (when `logfx` is wanted) is a KeyError; otherwise `logfx` is added when `fx` is not a column and the fixed `fx` exceeds 1000 |
| DerivedParameters.AddWind | func_GA_analysis.py:143-151 | `vinf_vesc` is added when `vinf` is a column, and `windturb_kms` when `windturb` and `vinf` both are |
| DerivedParameters.MoreParameters | func_GA_analysis.py:93-153 | fails exactly when a looked-up key is missing, naming the first such key; otherwise returns the plot list; in both cases the table ends with the columns assigned up to the failure |
| DerivedParameters.PlotListPrefix | func_GA_analysis.py:98-103 | the plot list starts with `logL, radius, Mspec, Gamma_Edd, vesc_eff`, and a flux name is in it exactly when it is a column |
| DerivedParameters.AppendIfFacts | func_GA_analysis.py:126-151 | a conditional append adds its name exactly when its condition holds, and adds no duplicate |
| DerivedParameters.DerivedMembers | func_GA_analysis.py:119-151 | a name is appended after the flux part exactly when its condition holds: `logxlum`, `logfx`, `vinf_vesc`, `windturb_kms` |
| DerivedParameters.DerivedNoDuplicates | func_GA_analysis.py:119-151 | the conditional names are appended at most once each |
| DerivedParameters.ConditionalNotFlux | func_GA_analysis.py:98-103 | no conditional name is a base name or a flux name |
| DerivedParameters.PlotListDerived | func_GA_analysis.py:119-151 | `logxlum` is in the plot list iff `xlum` is a column; `logfx` iff `fx` is not a column and the fixed `fx > 1000.0`; `vinf_vesc` iff `vinf` is a column; `windturb_kms` iff `windturb` and `vinf` both are |
| DerivedParameters.PlotListNoDuplicates | func_GA_analysis.py:98-151 | the plot list never holds a name twice |
| DerivedParameters.ColumnsAfterExtends | func_GA_analysis.py:105-151 | with or without a KeyError, the table keeps its old columns in place and gains only derived columns |
| Uncertainties.Min | func_GA_analysis.py:209 | the minimum is an entry and bounds every entry from below |
| Uncertainties.Max | func_GA_analysis.py:248 | the maximum is an entry and bounds every entry from above |
| Uncertainties.ArgMax | func_GA_analysis.py:233 | `idxmax`: a position holding the largest value, before which every value is smaller |
| Uncertainties.ChooseStatistic | func_GA_analysis.py:209-212 | RMSEA iff the table has rows and every reduced chi-squared exceeds 1.0; `Pval_chi2` iff the table is empty (the NaN minimum fails the comparison) or some value is at most 1.0 |
| Uncertainties.NonCentralUnreachable | func_GA_analysis.py:224-227 | `Pval_ncchi2` is never chosen, so the P-value always comes from the normalised central distribution |
| Uncertainties.SelectedNested | func_GA_analysis.py:234-243 | `P >= 0.317` implies `P >= 0.0455`, and `RMSEA <= 1.05 m` implies `RMSEA <= 1.10 m` when `m >= 0` |
| Uncertainties.MasksNested | func_GA_analysis.py:234-243 | every model in `ind_1sig` is in `ind_2sig`, given non-negative RMSEA values when RMSEA is the statistic |
| Uncertainties.RmseaSelectsBest | func_GA_analysis.py:239-243 | with non-negative RMSEA values the model with the smallest RMSEA is in both RMSEA selections, so neither is empty |
| Uncertainties.SelectNonEmpty | func_GA_analysis.py:247-251 | a mask that selects some row selects a non-empty column |
| Uncertainties.ErrorBar | func_GA_analysis.py:247-251 | an interval exists exactly when the selection is non-empty; otherwise `min()` fails |
| Uncertainties.ErrorBarTight | func_GA_analysis.py:247-251 | the bounds lie one step below the smallest and one step above the largest selected value, both attained, and the third entry is the best model's value |
| Uncertainties.EnclosingBar | func_GA_analysis.py:247-251 | an interval over a larger selection encloses one over a smaller selection, with the same best value |
| Uncertainties.PairBars | func_GA_analysis.py:246-251 | a parameter that is not a column gives a KeyError, and an empty selection gives a ValueError; otherwise both intervals are built |
| Uncertainties.PairBarsEnclose | func_GA_analysis.py:246-251 | with nested selections, a parameter's 2-sigma interval encloses its 1-sigma interval |
| Uncertainties.TabulateStopped | func_GA_analysis.py:245-251 | once a step of the loop fails, the outcome stays that failure |
| Uncertainties.TabulateOk | func_GA_analysis.py:245-251 | the tables are built iff every step succeeds; otherwise the failure is that of the first failing step |
| Uncertainties.TabulateKeys | func_GA_analysis.py:245-251 | the built tables have exactly one key per name looped over |
| Uncertainties.TabulateLast | func_GA_analysis.py:245-251 | a repeated name is bound to the intervals of its last step |
| Uncertainties.TabulateEnclose | func_GA_analysis.py:245-251 | when every step's 2-sigma interval encloses its 1-sigma interval, so do the tables |
| Uncertainties.ErrorBars | func_GA_analysis.py:245-258 | the dictionary loop over `zip(param_names, param_space)` yields the tables `ErrorTables` defines |
| Uncertainties.ErrorTablesOk | func_GA_analysis.py:245-251 | the tables are built iff every paired name is a column and, when there is a pair, both selections are non-empty; they then have one key per paired name |
| Uncertainties.ErrorTablesLast | func_GA_analysis.py:245-251 | when every paired name is a column and both selections are non-empty, the tables are built and each paired name is bound in both to the intervals of its last pair |
| Uncertainties.ErrorTablesEnclose | func_GA_analysis.py:234-251 | with nested selections, each 2-sigma interval encloses the 1-sigma interval of the same parameter, and both tables have the same keys |
| Uncertainties.GetUncertainties | func_GA_analysis.py:206-271 | an empty table fails at `idxmax` (line 233); otherwise a report is produced exactly when every paired parameter and, with `incl_deriv`, every derived parameter is a column and, when either loop has a name, both selections are non-empty; a failure is that of the parameter loop if it stops, else that of the derived loop; a report holds the chosen statistic, the run at `idxmax` of the P-value, the runs of the 2-sigma selection, and the tables of both loops (derived ones iff `incl_deriv`, without widening); with nesting selections every 2-sigma interval, parameter or derived, encloses the 1-sigma one |

## Left out

- Physics conversions (`get_luminosity`, `get_mass`, `get_fx`, `get_Gamma_Edd`, `get_vesc_eff`, func_GA_analysis.py:15-91): these are floating-point formulas. Only the column names they produce are modelled.
- `calculateP`, `calculateP_noncent`, the RMSEA formula and `lambda_nc` (func_GA_analysis.py:155-227): these are floating-point arithmetic and scipy's chi-squared survival functions. The P-value and RMSEA columns are fields of `Uncertainties.Table`.
- The columns `get_uncertainties` adds to the table (`invrchi2`, `norm_rchi2`, `RMSEA`, `P-value`) and the returned table itself: they are values of the formulas above. The report is returned on its own.
- Uncertainties.GetUncertainties: NaN entries are not modelled. A NaN RMSEA (from the square root of a negative number) or a NaN P-value is outside the model; the one NaN modelled is the minimum of an empty column in ChooseStatistic. Interval nesting is stated for non-negative RMSEA values, which the square root guarantees.
- Uncertainties.GetUncertainties: the derived intervals are stated for columns without NaN entries. `more_parameters` writes NaN into `logxlum` on purpose wherever `xlum <= 0` (func_GA_analysis.py:125); for such a derived parameter the builtin `min`/`max` of lines 255-258 return or skip that NaN depending on where it sits, so the enclosure of the derived intervals under `Nested` is not promised for `logxlum` then.
- Uncertainties.GetUncertainties: `idxmax` returns an index label; the model uses the row position, which is the same for the table's default index.
- Uncertainties.GetUncertainties: each `param_space` entry appears only through its step size `aspace[2]`.
- Uncertainties.GetUncertainties: the two shapes of the returned tuple (seven entries with `incl_deriv`, five without) are one `Report` whose `derived` field is `None` without `incl_deriv`.
- Uncertainties.PairBars: when only the 2-sigma selection is empty, Python fills the 1-sigma entry before it raises; the model reports the same error without the partly filled dictionaries, which the caller never sees.
- All real arithmetic (`min - step`, `max + step`, `minRMSEA * 1.05`) is exact here, not IEEE double.
- SubplotGrid.RowsFor: `int(math.ceil(1.0 * a / b))` is modelled as exact integer ceiling division, which agrees with the float version for any grid that fits in memory.
- Matplotlib drawing, PDF output, image reading, titles, limits, colour bars and labels in `titlepage`, `fitnessplot`, `lineprofiles`, `correlationplot`, `fw_performance` and `convergence`: these are user interface.
- `lineprofiles` file handling (`mkdir`/`tar` via `os.system`, reading profile files, func_GA_analysis.py:499-557): this is I/O. The line count `nlines` is an input.
- `convergence`: the per-generation lists it plots are values, not decisions, and are not modelled.
- `convergence` with no parameters fails at `evol_list_best[0]` (func_GA_analysis.py:744), before its grid is built; ConvergenceLayout describes the grid only.
- `fitnessplot` with no parameters fails at `plt.colorbar(scat0)` (func_GA_analysis.py:455), because no panel bound `scat0`; FitnessLayout describes the grid only.
- The warning that `more_parameters` prints when it assumes `vinf = 2.6 vesc_eff` (func_GA_analysis.py:140) is output, not modelled.
- The order of the sorted table in `correlationplot`: it affects only the drawing order of the points. The KeyError of the sort and the rejected non-finite axis limits are modelled.
- CorrelationPlot.Correlate: which columns have finite NaN-skipping minima and maxima is an input (`finite`), not computed from the values. The program itself produces columns without them: `vinf_vesc` (func_GA_analysis.py:146) is infinite where `get_vesc_eff` clamps the effective mass to 0, and `logxlum` (func_GA_analysis.py:120-126), NaN wherever `xlum <= 0`, gives NaN limits only when every `xlum <= 0`.
- `get_fwmaxtime` (func_GA_analysis.py:635-643): it reads a control file through a module that is not part of this model, and calls `sys.exit`.
- The crash-percentage rounding of `titlepage` (func_GA_analysis.py:281-284): this is float rounding.
- The clipping of non-positive `xlum` values before `log10` in `more_parameters`: this concerns column values only.
- The choice of `vinf` for `logfx` (column, fixed value or `2.6 * vesc_eff`) in `more_parameters`: it never fails and affects only column values.
- pyEA.py: a driver script whose GA steps all live in modules (`population`, `fastwind_wrapper`, `control`) that are not part of this model.
- cluster_inputs.py: configuration constants and job-script text, with no logic.
