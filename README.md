# Shot-generation analysis: a Dafny model of its deterministic core

The repository prepares football shot data for a Bayesian model of shot
generation and conversion, hands it to an external Stan sampler, and
summarises the posterior draws. Three pieces of it are deterministic and
are modelled here:

- **hdi** (`analysis.py`, and an identical copy in `run.py`): sort a copy
  of a vector of draws and return the draws at positions
  `int((1 - w)/2 * n)` and `int((w + (1 - w)/2) * n)`. Despite its name this
  is an equal-tailed interval, not a highest-density region, and the model
  keeps that exact tail trimming.
- **AIC** (`analysis.py`): `-2 (LL - k)` where `LL` is the sum over
  observations (columns) of the mean over draws (rows) of the
  log-likelihood matrix, and `k` is the mean of `n_params`.
- **wrangle's team map** (`run.py`): every name in the `team` or `oppo`
  column gets a distinct index in `1..n`, both columns are rewritten
  through it, nine further columns pass through, and `n_teams` and
  `n_shots` are added.

The files:

- `builtins.dfy`, module `Builtins`: the Python and NumPy primitives the
  code relies on, over exact numbers. `int()` on a float truncates toward
  zero (`Trunc`); list subscripting accepts negative positions and
  otherwise raises `IndexError` (`Subscript`); `sorted` is an insertion
  sort whose result is shown to be the only ascending permutation of its
  input (`Sort`, `SortedUnique`); `sum` and `numpy.mean` are `Sum` and
  `Mean`.
- `analysis.dfy`, module `Analysis`: `Hdi` with its cut points, `Aic` over a
  `Matrix` (rows are draws, `cols` is the number of observations), and the
  lemmas about both.
- `run.dfy`, module `Run`: `Wrangle` from in-memory rows, with the lemmas
  about the team map and the columns; `run.py`'s copy of `hdi` is the same
  function as `Analysis.Hdi`, so it is modelled once, and its default width
  of 0.5 is `Analysis.DefaultWidth`.

All three source pieces are pure, so they are Dafny functions. The vector
given to `hdi` is a value: `sorted` works on a new list and the input is
never changed, which the value semantics of `seq` captures.

Neither function checks its inputs, and the model keeps the errors the
code actually raises:

- hdi neither clamps nor checks its width. On an empty vector, or at a
  width of -1 or less or of 1 or more, one of the reads `x[left]`,
  `x[right]` falls outside the list and raises `IndexError`
  (`Analysis.HdiDefinedIff`). At width exactly 1 the upper cut point is
  `n`, one past the end (`Analysis.IndexBounds`). Just below 1, once fewer
  than one draw is trimmed from each tail, hdi returns the smallest and the
  largest draw (`Analysis.HdiNearOne`).
- A width in `(-1, 0)` is not rejected. It yields an interval whose lower
  bound is at least its upper bound (`Analysis.HdiNegativeWidthInverted`);
  the two can be equal, for instance when both cut points truncate to the
  same position.
- AIC checks nothing either; whatever goes wrong comes from NumPy:
  - no observation columns make `numpy.apply_along_axis` raise
    `ValueError`;
  - no draws, or an empty `n_params`, give NaN through the mean of an
    empty array;
  - an `n_params` of a different length than the number of draws is simply
    averaged over its own length.

## Model

`Run.TeamMap` (`run.py:62-65`) and `Run.Wrangle` (`run.py:58-80`) carry no
`ensures` of their own: what they compute is stated by the `Run.TeamMap*`
and `Run.Wrangle*` lemmas below, in the same way as the `Analysis.Hdi*` and
`Analysis.Aic*` lemmas state the values of `Analysis.Hdi` and `Analysis.Aic`.

| member | source | states |
|---|---|---|
| Builtins.Trunc | analysis.py:36-37 | `int()` of the cut position truncates toward zero: the result is within 1 of the argument, on the zero side |
| Builtins.Subscript | analysis.py:38 | a list read succeeds exactly for positions in `[-n, n)` and returns an element of the list: the i-th for `0 <= i < n`, the `(n + i)`-th for `-n <= i < 0`; every other position raises `IndexError` |
| Builtins.Sort | analysis.py:34 | `sorted(vector)` is ascending and a permutation of the input |
| Builtins.SortedUnique | analysis.py:34 | two ascending sequences with the same multiset of values are equal, so the sorted copy is determined by the values alone |
| Builtins.SortPermutationInvariant | run.py:12 | sorting inputs that are permutations of each other gives the same list |
| Analysis.Hdi | analysis.py:32-38 | whenever hdi returns, both bounds are elements of the input vector |
| Analysis.IndexBounds | analysis.py:35-37 | for a non-empty vector and `0 <= w < 1`, `0 <= left <= right < n`; at `w = 1`, `right = n` |
| Analysis.CutPointsValidIff | run.py:13-16 | both positions are valid subscripts of the sorted list exactly when `n > 0` and `-1 < w < 1` |
| Analysis.HdiDefinedIff | analysis.py:34-38 | hdi returns an interval exactly when the vector is non-empty and `-1 < w < 1`, and raises `IndexError` otherwise |
| Analysis.HdiAt | analysis.py:34-38 | inside `-1 < w < 1` the bounds are the sorted copy's elements at `left` and `right` |
| Analysis.HdiOrdered | analysis.py:32-38 | for `w >= 0` the lower bound is at most the upper bound |
| Analysis.HdiNegativeWidthInverted | analysis.py:36-38 | for `w < 0` the upper cut index is at most the lower one, and the lower bound is at least the upper bound |
| Analysis.IndexMonotone | analysis.py:36-37 | as the width grows, `left` does not increase and `right` does not decrease |
| Analysis.HdiNested | run.py:11-16 | for `w1 <= w2` the `w2` interval contains the `w1` interval |
| Analysis.HdiPermutationInvariant | analysis.py:34-35 | hdi depends only on the multiset of draws |
| Analysis.HdiNearOne | analysis.py:32-38 | for `0 <= w < 1` with `(1 - w) n < 2`, hdi returns the first and last elements of the sorted copy, that is the minimum and the maximum |
| Analysis.HdiExample | analysis.py:36-38 | `hdi([1..10], 0.5)` cuts at 2 and 7 and returns `(3, 8)` |
| Analysis.Aic | analysis.py:15-19 | AIC raises `ValueError` exactly when there are no observation columns; it is a finite number exactly when there are columns, draws and `n_params` values, and NaN otherwise |
| Analysis.LogLikelihoodIsTotalOverDraws | analysis.py:17 | the sum of per-column means equals the total of all entries divided by the number of draws |
| Analysis.AicFromTotal | analysis.py:15-19 | a finite AIC equals `-2 (total / draws - mean(n_params))` |
| Analysis.AicConstantParams | analysis.py:18 | when `n_params` is constantly `c`, `k = c` and AIC is `-2 (LL - c)` |
| Analysis.SumMeansPermutation | analysis.py:17 | the sum of column means does not depend on the order of the columns |
| Analysis.AicColumnOrder | analysis.py:17 | reordering the observation columns leaves AIC unchanged, errors and NaN included |
| Analysis.AicStrictlyDecreasing | analysis.py:17-19 | raising one log-likelihood entry by `d > 0`, with `n_params` fixed, lowers AIC by exactly `2 d / draws` |
| Analysis.AicConstantSample | analysis.py:15-19 | a matrix of constant entries `c` with `n_params` constantly `q` has AIC `-2 (cols * c - q)` |
| Analysis.AicExample | analysis.py:15-19 | 1000 draws of 5 observations at -1 with `n_params` 3 give AIC 16 |
| Run.DistinctCardinality | run.py:64 | an enumeration without repetitions has as many elements as the set it enumerates |
| Run.TeamMapIndexes | run.py:62-65 | the k-th enumerated name maps to `k + 1`, and only enumerated names are keys |
| Run.TeamMapInverse | run.py:63-64 | reading the enumeration at `index - 1` gives back the name |
| Run.TeamMapValues | run.py:63-64 | the indices handed out are exactly `1..n` |
| Run.TeamMapBijection | run.py:62-65 | the team map is a bijection from the enumerated names onto `1..n`, with `n` entries |
| Run.NamesMapped | run.py:69-72 | every name in the `team` and `oppo` columns is a key of the team map, so no lookup fails |
| Run.RelabelSameIndexIff | run.py:70-71 | every relabelled entry is one of the map's indices, and through a map that gives distinct names distinct indices, two rows get equal indices exactly when they hold equal names |
| Run.WrangleTeamMap | run.py:62-65 | the returned map's keys are exactly the names in `team` or `oppo`, its values exactly `1..n_teams`, one name per index, and `n_teams` is the number of distinct names |
| Run.WrangleColumns | run.py:67-78 | every column keeps the row count and row order; `team` and `oppo` hold indices in `1..n_teams`; the nine other columns pass through unchanged; `n_shots` is the number of rows |
| Run.WrangleRow | run.py:70-71 | row r of `team` and `oppo` holds the map's index of that row's names |
| Run.WrangleDecode | run.py:62-71 | the enumeration read at `index - 1` recovers each row's team and opponent name |
| Run.WrangleSameIndexIff | run.py:63-71 | two rows carry equal indices exactly when they carry equal names, within and across the `team` and `oppo` columns |
| Run.WrangleOrderIndependent | run.py:62-78 | any iteration order of the name set gives the same counts and pass-through columns, and relates any two rows' indices the same way |
| Run.DefaultWidthInterval | run.py:11-16 | with the default width 0.5 that `graph` relies on, hdi of a non-empty vector returns an ordered interval |

## Left out

- WAIC (`analysis.py:22-29`): it needs `exp`, `log` and floating-point variance, which Dafny does not have.
- Plotting: `team_profiles`, `score_bars` and `graph`. Matplotlib rendering, the gamma function and `expit` are not modelled. Only `graph`'s reliance on the default hdi width is kept, as `Run.DefaultWidthInterval`.
- `fit`: pystan compilation, sampling and the on-disk pickle cache are external libraries and file-system I/O.
- The CSV read in `wrangle` and the `run()` entry point are file I/O and orchestration. `Run.Wrangle` starts from the rows already in memory.
- Columns of the CSV beyond the eleven that `wrangle` selects are not modelled, nor the `AttributeError` pandas raises when `team` or `oppo` is missing (`run.py:64`), nor the `KeyError` it raises when another of the eleven is missing (`run.py:73-74`).
- The nine pass-through columns are all typed `real`, because the CSV's column types are not part of the code.
- Floating point throughout: reals are exact. The model misses IEEE-754 rounding of the cut positions at exact boundaries, NaN and infinity as inputs, and the order in which NumPy adds.
- Run.Wrangle: the returned `map` has no key order, whereas the Python dict keeps insertion order, which is `order`. `graph` and `team_profiles` use `list(team_map.keys())` as labels and rely on the k-th key having index `k + 1`; the model states that labelling property as `Run.TeamMapIndexes` (`TeamMap(order)[order[k]] == k + 1`), not as an order of the map's keys.
- The iteration order of Python's `set` is unspecified. `Run.Wrangle` takes it as a parameter, which may be any repetition-free enumeration of the names, and every lemma holds for all of them.
- `sorted` is modelled by an insertion sort. Python uses a different algorithm, but `Builtins.SortedUnique` shows that any ascending permutation is the same list.
- `n_params` is modelled as a one-dimensional array of per-draw values, which is how the sampler returns a scalar generated quantity.
