/** `correlationplot`: the requested parameter names are filtered, in the
    caller's own list, down to the columns of the results table; then an
    n-by-n grid of axes is walked column by column, and a cell gets a scatter
    plot unless its two names are equal or the pair was already plotted the
    other way round, which `correlationplot` records in `pairlist`. */
module CorrelationPlot {
  import opened Support

  type Pair = (string, string)

  /** Cell (`c`, `r`), in column `c` and row `r`, is visited before cell
      (`c2`, `r2`) by the loop over `ccol` and, inside it, `crow`. */
  predicate Before(c: nat, r: nat, c2: nat, r2: nat) {
    c < c2 || (c == c2 && r < r2)
  }

  /** One step of the inner loop at cell (`c`, `r`): the pair
      `[corrpars[c], corrpars[r]]` is plotted unless its names are equal or
      it is already in `pairlist`; a plotted pair is recorded together with
      its reverse. */
  function Visit(names: seq<string>, pairlist: seq<Pair>, c: nat, r: nat): seq<Pair>
    requires c < |names| && r < |names|
  {
    var pair := (names[c], names[r]);
    if pair.0 == pair.1 || pair in pairlist then pairlist else pairlist + [pair, (pair.1, pair.0)]
  }

  /** The contents of `pairlist` when the walk reaches cell (`c`, `r`);
      `PairsBefore(names, |names|, 0)` is its final contents. */
  function PairsBefore(names: seq<string>, c: nat, r: nat): seq<Pair>
    requires c <= |names| && r <= |names| && (c < |names| || r == 0)
    decreases c, r
  {
    if r == 0 then
      if c == 0 then [] else PairsBefore(names, c - 1, |names|)
    else Visit(names, PairsBefore(names, c, r - 1), c, r - 1)
  }

  /** Whether cell (`c`, `r`) gets a scatter plot. */
  predicate Scatters(names: seq<string>, c: nat, r: nat)
    requires c < |names| && r < |names|
  {
    names[c] != names[r] && (names[c], names[r]) !in PairsBefore(names, c, r)
  }

  datatype CorrCell = CorrCell(row: nat, col: nat, scatter: bool)

  /** The nested loop over `ccol` and `crow`; `cells[c][r]` is what happens
      to the axes in row `r` and column `c`. With pairwise distinct names,
      exactly the cells strictly below the diagonal get a scatter, and
      `pairlist` ends with `n * (n - 1)` entries. */
  method SelectCells(names: seq<string>) returns (cells: seq<seq<CorrCell>>, pairlist: seq<Pair>)
    ensures |cells| == |names|
    ensures forall c :: 0 <= c < |names| ==> |cells[c]| == |names|
    ensures forall c, r :: 0 <= c < |names| && 0 <= r < |names| ==>
      cells[c][r] == CorrCell(r, c, Scatters(names, c, r))
    ensures pairlist == PairsBefore(names, |names|, 0)
    ensures NoDuplicates(names) ==> forall c, r :: 0 <= c < |names| && 0 <= r < |names| ==>
      (cells[c][r].scatter <==> r > c)
    ensures NoDuplicates(names) ==> |pairlist| == |names| * (|names| - 1)
  {
    var n := |names|;
    cells, pairlist := [], [];
    var ccol := 0;
    while ccol < n
      invariant 0 <= ccol <= n
      invariant |cells| == ccol
      invariant forall c :: 0 <= c < ccol ==> |cells[c]| == n
      invariant forall c, r :: 0 <= c < ccol && 0 <= r < n ==> cells[c][r] == CorrCell(r, c, Scatters(names, c, r))
      invariant pairlist == PairsBefore(names, ccol, 0)
    {
      var column := [];
      var crow := 0;
      while crow < n
        invariant 0 <= crow <= n
        invariant |column| == crow
        invariant forall r :: 0 <= r < crow ==> column[r] == CorrCell(r, ccol, Scatters(names, ccol, r))
        invariant pairlist == PairsBefore(names, ccol, crow)
      {
        var pc1, pc2 := names[ccol], names[crow];
        var pair := (pc1, pc2);
        if pc1 == pc2 || pair in pairlist {
          column := column + [CorrCell(crow, ccol, false)];
        } else {
          column := column + [CorrCell(crow, ccol, true)];
          pairlist := pairlist + [pair, (pc2, pc1)];
        }
        crow := crow + 1;
      }
      cells := cells + [column];
      ccol := ccol + 1;
    }
    if NoDuplicates(names) {
      forall c, r | 0 <= c < n && 0 <= r < n
        ensures cells[c][r].scatter <==> r > c
      {
        ScattersBelowDiagonal(names, c, r);
      }
      PlottedPairCount(names);
    }
  }

  /** With pairwise distinct names, `pairlist` holds the names of entries
      `i` and `j` (in either order) once the walk has passed the cell in
      column `min(i, j)` and row `max(i, j)`. */
  lemma {:induction false} PairsBeforeDistinct(names: seq<string>, c: nat, r: nat, i: nat, j: nat)
    requires NoDuplicates(names)
    requires c <= |names| && r <= |names| && (c < |names| || r == 0)
    requires i < |names| && j < |names|
    ensures (names[i], names[j]) in PairsBefore(names, c, r) <==>
      i != j && Before(if i < j then i else j, if i < j then j else i, c, r)
    decreases c, r
  {
    var n := |names|;
    if r == 0 {
      if c > 0 {
        PairsBeforeDistinct(names, c - 1, n, i, j);
      }
    } else {
      var s := r - 1;
      PairsBeforeDistinct(names, c, s, i, j);
      PairsBeforeDistinct(names, c, s, c, s);
      var prev := PairsBefore(names, c, s);
      if c < s {
        assert PairsBefore(names, c, r) == prev + [(names[c], names[s]), (names[s], names[c])];
        assert (names[i], names[j]) == (names[c], names[s]) <==> i == c && j == s;
        assert (names[i], names[j]) == (names[s], names[c]) <==> i == s && j == c;
      } else {
        assert PairsBefore(names, c, r) == prev;
      }
    }
  }

  /** With pairwise distinct names, cell (`c`, `r`) gets a scatter exactly
      when its row is below its column. */
  lemma ScattersBelowDiagonal(names: seq<string>, c: nat, r: nat)
    requires NoDuplicates(names) && c < |names| && r < |names|
    ensures Scatters(names, c, r) <==> r > c
  {
    PairsBeforeDistinct(names, c, r, c, r);
  }

  /** With pairwise distinct names, of the two cells holding entries `i` and
      `j` exactly one is plotted, and no cell on the diagonal is. */
  lemma PairPlottedOnce(names: seq<string>, i: nat, j: nat)
    requires NoDuplicates(names) && i < |names| && j < |names|
    ensures !Scatters(names, i, i)
    ensures i != j ==> Scatters(names, i, j) != Scatters(names, j, i)
  {
    ScattersBelowDiagonal(names, i, i);
    ScattersBelowDiagonal(names, i, j);
    ScattersBelowDiagonal(names, j, i);
  }

  /** Column `c` of an n-by-n grid holds `n - 1 - c` cells below the
      diagonal, so the first `c` columns hold `Triangle(n, c)` of them. */
  function Triangle(n: nat, c: nat): int
  {
    if c == 0 then 0 else Triangle(n, c - 1) + (n - c)
  }

  /** The closed form of `Triangle`: `2 * Triangle(n, c) == c * (2n - c - 1)`. */
  lemma {:induction false} TriangleClosed(n: nat, c: nat)
    ensures 2 * Triangle(n, c) == c * (2 * n - c - 1)
  {
    if c > 0 {
      TriangleClosed(n, c - 1);
      TriangleStep(n, c);
    }
  }

  lemma TriangleStep(n: int, c: int)
    ensures c * (2 * n - c - 1) == (c - 1) * (2 * n - (c - 1) - 1) + 2 * (n - c)
  {
  }

  /** With pairwise distinct names, each scatter adds two pairs, so
      `pairlist` has twice as many entries as there are cells below the
      diagonal among those visited. */
  lemma {:induction false} PairsBeforeLength(names: seq<string>, c: nat, r: nat)
    requires NoDuplicates(names)
    requires c <= |names| && r <= |names| && (c < |names| || r == 0)
    ensures |PairsBefore(names, c, r)| == 2 * (Triangle(|names|, c) + if r > c + 1 then r - c - 1 else 0)
    decreases c, r
  {
    var n := |names|;
    if r == 0 {
      if c > 0 {
        PairsBeforeLength(names, c - 1, n);
      }
    } else {
      PairsBeforeLength(names, c, r - 1);
      ScattersBelowDiagonal(names, c, r - 1);
    }
  }

  /** With pairwise distinct names `pairlist` ends with `n * (n - 1)`
      entries, both orientations of each of the `n * (n - 1) / 2` plotted
      pairs. */
  lemma PlottedPairCount(names: seq<string>)
    requires NoDuplicates(names)
    ensures |PairsBefore(names, |names|, 0)| == |names| * (|names| - 1)
  {
    var n := |names|;
    PairsBeforeLength(names, n, 0);
    TriangleClosed(n, n);
  }

  /** Why the figure cannot be drawn, in the order `correlationplot` fails:
      sorting by a missing `invrchi2` column raises KeyError; `hratios[0]` of
      an empty ratio array raises IndexError; with one name
      `plt.subplots(1, 1)` returns a single Axes, which `ax[crow, ccol]`
      cannot index (TypeError); an axis limit from `np.min`/`np.max` that is
      NaN or infinite is rejected by `set_xlim` or `set_ylim` (ValueError).
      These reduce through the pandas `min`/`max`, which skip NaN, so a
      limit is not finite only for a column with an infinite entry or with
      no entry that is not NaN, as in a table without rows. */
  datatype PlotError = MissingSortKey | NoParameters | SingleAxes | NanLimits

  /** The filter loop over the copy `orig_corrpar`: every name that is not a
      column of the table is removed from the caller's list. */
  method FilterToColumns(corrpars: NameList, columns: set<string>)
    modifies corrpars
    ensures corrpars.items == Keep(old(corrpars.items), columns)
  {
    var orig := corrpars.items;
    var k := 0;
    assert orig[..0] == [] && orig[0..] == orig;
    while k < |orig|
      invariant 0 <= k <= |orig|
      invariant corrpars.items == [] + Keep(orig[..k], columns) + orig[k..]
    {
      var par := orig[k];
      KeepStep([], orig, k, columns);
      if par !in columns {
        var found := corrpars.Remove(par);
      }
      k := k + 1;
    }
    assert orig[..k] == orig;
  }

  /** The whole of `correlationplot` apart from the drawing, for a table
      with the given columns and number of rows. `finite` holds the columns
      whose NaN-skipping pandas minimum and maximum are finite: no entry is
      infinite and at least one entry is not NaN. Cell (`crow`, 0) sets the
      y limits of `corrpars[crow]`, so every filtered name is limited. */
  method Correlate(corrpars: NameList, columns: set<string>, rows: nat, finite: set<string>)
    returns (res: Result<(seq<seq<CorrCell>>, seq<Pair>), PlotError>)
    modifies corrpars
    ensures corrpars.items == Keep(old(corrpars.items), columns)
    ensures "invrchi2" !in columns ==> res == Err(MissingSortKey)
    ensures "invrchi2" in columns && |corrpars.items| == 0 ==> res == Err(NoParameters)
    ensures "invrchi2" in columns && |corrpars.items| == 1 ==> res == Err(SingleAxes)
    ensures ("invrchi2" in columns && |corrpars.items| >= 2 &&
             (rows == 0 || exists x :: x in corrpars.items && x !in finite)) ==> res == Err(NanLimits)
    ensures res.Ok? <==> ("invrchi2" in columns && |corrpars.items| >= 2 && rows > 0 &&
                          forall x :: x in corrpars.items ==> x in finite)
    ensures res.Ok? ==> |res.value.0| == |corrpars.items|
    ensures res.Ok? ==> forall c, r :: 0 <= c < |corrpars.items| && 0 <= r < |corrpars.items| ==>
      |res.value.0[c]| == |corrpars.items| && res.value.0[c][r] == CorrCell(r, c, Scatters(corrpars.items, c, r))
    ensures res.Ok? ==> res.value.1 == PairsBefore(corrpars.items, |corrpars.items|, 0)
  {
    FilterToColumns(corrpars, columns);
    if "invrchi2" !in columns {
      return Err(MissingSortKey);
    }
    var names := corrpars.items;
    if |names| == 0 {
      return Err(NoParameters);
    }
    if |names| == 1 {
      return Err(SingleAxes);
    }
    if rows == 0 || exists x :: x in names && x !in finite {
      return Err(NanLimits);
    }
    var cells, pairlist := SelectCells(names);
    res := Ok((cells, pairlist));
  }
}
