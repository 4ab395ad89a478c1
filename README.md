# Bounded parameter fitting: packing, masking, clamping and penalty

This project models the bounds-and-packing layer of the `fit` class in
`Fit/optimization.py`. The class fits a user model to data by calling a
derivative-free simplex minimiser. The minimiser only sees a flat vector, so
the layer in front of it does five things:

- **Bounds resolution** (`editcon`). Each free parameter gets a lower and an
  upper bound array shaped like the parameter. The `'None'` sentinel gives
  (-inf, +inf). A scalar parameter takes its pair as given. An array
  parameter with a two-element spec gets both bounds tiled to its shape.
  Any other spec is used as it is. A spec whose shape is not `(2,) + shape`
  is an error naming every such key.
- **Mask application** (`fixcon`). A true mask position writes NaN into both
  bounds, in place. This fixes that element. A mask shaped unlike its lower
  bound is an error naming every such key.
- **Start-point clamping** (`bndcon`). Each element of a free parameter is
  replaced by a value chosen from m, the mean of its two bounds: the lower
  bound when m = +inf and the value lies below it, the upper bound when
  m = -inf and the value lies above it, the value itself when m is NaN, and
  m otherwise. Only the free keys are returned.
- **Vector codec** (`params2vals`, `vals2params`). The elements in play are
  those whose lower bound is not NaN. They are packed into one vector, key
  by key in free-spec order and row-major within a key. Unpacking gives
  each key its consecutive stretch of the vector and puts the fixed
  elements back from the parameters as given.
- **Penalty** (`nancon`, `fitFunction`). The objective is the model's value
  plus +inf for each free parameter that has an element in play outside its
  bounds.

`fitcon` chains these steps around an abstract minimiser. `fit` fills
each empty argument with the value stored at construction.

Floating-point values are the extended reals `Fin(r) | PosInf | NegInf | NaN`.
Addition and the two-element mean follow the special-value rules of
IEEE 754-2008, section 7.2: the sum of opposite infinities is NaN. Every
ordered comparison with NaN is false. Arrays are a shape plus row-major
flat data. The free specification, the mask and the bounds are
insertion-ordered dictionaries: a key sequence plus a map (`Dicts.Dict`).
Parameter dictionaries are plain maps (`Params`), so the key order of a
returned parameter dictionary is not modelled.

The modules, in dependency order:

- `ExtReal`
- `Outcomes`: Option, Result and the errors.
- `Dicts`
- `NdArrays`
- `Resolution`: editcon.
- `Masking`: fixcon, with the class `BoundsTable` holding one mutable array
  per free key.
- `Clamp`: bndcon.
- `Layout`: generic concatenation of per-key stretches.
- `Codec`: params2vals and vals2params.
- `Objective`: nancon and fitFunction.
- `Fitting`: params2vals, fitcon and fit.

## Model

| member | source | states |
|---|---|---|
| ExtReal.Add | Fit/optimization.py:91-92 | NaN is absorbing, opposite infinities give NaN, and 0 is a two-sided identity. |
| ExtReal.Mean | Fit/optimization.py:60 | The mean is NaN exactly when a bound is NaN or the bounds are opposite infinities. It is +inf or -inf exactly in the one-sided infinite cases. It is the midpoint of two finite bounds. |
| ExtReal.LeOrder | Fit/optimization.py:86-87 | `>=`/`<=` reject NaN and are a total order on the other values. |
| ExtReal.MeanBetween | Fit/optimization.py:60-63 | The midpoint of ordered finite bounds lies between them. |
| Dicts.Filter | Fit/optimization.py:36-37 | The reported keys are exactly the failing ones, and the list is empty only when no key fails. |
| Dicts.FilterOrder | Fit/optimization.py:36-37 | The reported keys keep dictionary order: any two of them occur in the dictionary's key list in the same order. |
| Dicts.FilterDistinct | Fit/optimization.py:36-37 | With distinct dictionary keys, no key is reported twice. |
| Dicts.FirstIn | Fit/optimization.py:23-24 | Finds the first key in dictionary order for which a condition holds, or reports that none does. |
| NdArrays.Repeat | Fit/optimization.py:21 | `np.tile` of a scalar: n elements, each equal to it. |
| NdArrays.AsArray | Fit/optimization.py:30-31 | `np.array` of a scalar is a 0-d array holding it; an array is unchanged. |
| Resolution.Normalize | Fit/optimization.py:30-31 | Every parameter is converted to an array with its shape unchanged, and arrays are kept as given. |
| Resolution.Entry | Fit/optimization.py:21-29 | The shape of the entry in every branch. The sentinel and a two-element spec on an array give (2,) + shape. A scalar's [lo, hi] pair is shaped (2,) + the spec's trailing axes. Any other array spec is used unchanged. The entry fails exactly for a scalar whose spec cannot be indexed at 0 and 1. |
| Resolution.Halves | Fit/optimization.py:51-52 | The two rows of a (2,) + shape array are bound arrays shaped like the parameter that together make up the array. |
| Resolution.EntryAccepted | Fit/optimization.py:21-33 | A key's spec passes editcon's checks exactly when it is accepted: the sentinel; for a scalar, a spec with one axis of at least two elements; for an array, a (2,) spec or a (2,) + shape spec. |
| Resolution.EditConAccepts | Fit/optimization.py:19-41 | editcon succeeds exactly when every free key's spec is accepted. |
| Resolution.Resolve | Fit/optimization.py:21-29 | A resolved bound pair is shaped like its parameter. |
| Resolution.ResolvedPair | Fit/optimization.py:21-29 | Branch by branch: the sentinel gives -inf/+inf everywhere; a scalar takes rows 0 and 1; a two-element spec is tiled; any other spec is split as it is. |
| Resolution.EditConOrder | Fit/optimization.py:33-37 | The shape error lists the misshapen keys in free-spec order, each once. |
| Resolution.EditCon | Fit/optimization.py:19-41 | Success exactly when every free key's entry exists and has shape (2,) + shape. On success the parameters are converted, the bounds keep the free-spec order, every pair is resolved, and everything is consistently shaped. Otherwise the error names the first unindexable scalar key, or exactly the misshapen keys. |
| Masking.MaskSeq | Fit/optimization.py:51-52 | An element is NaN afterwards exactly when it was NaN or its bit is set. Every other element is unchanged. |
| Masking.Masked | Fit/optimization.py:50-53 | fixcon's effect on the bounds: same keys in the same order, and every bound array keeps its shape and length. |
| Masking.MaskBounds | Fit/optimization.py:43-55 | An error exactly when some mask is shaped unlike its lower bound. The error lists exactly those keys, in mask order, each once. On success the result is the masked bounds, with the keys kept. |
| Masking.MaskedConsistent | Fit/optimization.py:50-52 | Masking keeps every bound array's shape. |
| Masking.MaskedElements | Fit/optimization.py:50-52 | At a true mask position both bounds become NaN; every other bound element is unchanged. |
| Masking.MaskBothTwice | Fit/optimization.py:50-52 | Masking the same array twice with the same mask equals masking it once. |
| Masking.MaskRowsHalves | Fit/optimization.py:51-52 | Masking both rows of the stored array masks both bounds of the pair it holds. |
| Masking.MaskData | Fit/optimization.py:50-52 | After the loop, every key of the mask that is stored has both rows masked; every other array is untouched. |
| Masking.MaskDataBounds | Fit/optimization.py:50-53 | The masked arrays hold exactly the masked bounds. |
| Masking.MaskRowInPlace | Fit/optimization.py:51-52 | The in-place NaN assignment leaves the array equal to the row-masked old contents. |
| Masking.BoundsTable.constructor | Fit/optimization.py:29 | The table holds exactly the given bounds, in fresh arrays. |
| Masking.BoundsTable.MaskAt | Fit/optimization.py:51-52 | Masks both rows of one key's array and changes no other array. |
| Masking.BoundsTable.MaskAll | Fit/optimization.py:50-52 | The loop over mask keys leaves the arrays holding the spec function's masked data. |
| Masking.BoundsTable.FixCon | Fit/optimization.py:43-55 | The result is the masking specification. On success the table holds the masked bounds; on error nothing was written. |
| Clamp.ClampElem | Fit/optimization.py:61-63 | For every kind of bound pair. NaN, (-inf, +inf) or (+inf, -inf) keeps the value. Finite bounds give the midpoint. [lo, +inf] gives lo below lo and +inf otherwise. [-inf, hi] gives hi above hi and -inf otherwise. A lower bound of +inf, with an upper bound that is not -inf or NaN, gives +inf. An upper bound of -inf, with a lower bound that is not +inf or NaN, gives -inf. |
| Clamp.ClampInBounds | Fit/optimization.py:57-64 | With ordered bounds the clamped element is within them, except exactly for a NaN value with (-inf, +inf). |
| Clamp.ClampAdmissible | Fit/optimization.py:57-64 | An in-play element can be clamped into its bounds exactly when they are ordered and it is not an unbounded NaN. |
| Clamp.BndCon | Fit/optimization.py:57-64 | Only the free keys come back, each with its parameter's shape. |
| Clamp.BndConElements | Fit/optimization.py:58-64 | Each element of the result is the element rule applied at the same flat index, for every kind of bound pair. |
| Clamp.BndConInBounds | Fit/optimization.py:57-64 | Ordered bounds hold the clamped start point except at an unbounded NaN. |
| Clamp.BndConConsistent | Fit/optimization.py:64 | The clamped parameters are still described by the bounds, because reshaping keeps the shape. |
| Layout.ConcatSlice | Fit/optimization.py:76-77 | Key j's stretch of the concatenation lies between the cumulative sums before and after j. |
| Layout.CutConcat | Fit/optimization.py:76-77 | Slicing the concatenation between cumulative sums recovers each key's part. |
| Layout.ConcatOfCuts | Fit/optimization.py:70-77 | Concatenating the cumulative-sum slices of a vector gives back its first total-width elements. |
| Codec.FreeCount | Fit/optimization.py:75 | The number of non-NaN lower-bound entries is at most the length. |
| Codec.Fill | Fit/optimization.py:78-80 | The np.insert rebuild has one element per position of the parameter. |
| Codec.Select | Fit/optimization.py:70-71 | The in-play elements of one key: as many as its non-NaN lower bounds. |
| Codec.SelectAt | Fit/optimization.py:70-71 | In-play element i lands at its rank: the number of in-play elements before it. |
| Codec.FillAt | Fit/optimization.py:78-80 | np.insert rebuild: a fixed position takes the original value, an in-play one takes the stretch entry at its rank. |
| Codec.SelectFill | Fit/optimization.py:70-80 | Selecting the in-play elements of a filled array gives back the stretch. |
| Codec.FillSelect | Fit/optimization.py:70-80 | Filling an array's own in-play elements back into it gives the array. |
| Codec.FreeCounts | Fit/optimization.py:75 | nVals: each free key's count of non-NaN lower-bound entries. |
| Codec.Pack | Fit/optimization.py:70-71 | The params2vals vector. Its length is the total count of non-NaN lower bounds over the free keys. |
| Codec.PackSlot | Fit/optimization.py:70-77 | Each free key's cumulative-sum stretch of the packed vector is exactly its in-play elements. |
| Codec.Slot | Fit/optimization.py:76-77 | Key k's stretch has length equal to k's non-NaN count. |
| Codec.OffsetOrder | Fit/optimization.py:70-77 | Stretches follow free-spec key order: an earlier key's stretch ends before a later key's begins. |
| Codec.PackAt | Fit/optimization.py:70-71 | Element i of key k is packed at its place, offset(k) + rank(i), inside the vector. |
| Codec.UnpackKey | Fit/optimization.py:78-80 | A rebuilt parameter keeps its shape and length. |
| Codec.Unpack | Fit/optimization.py:74-82 | Same keys as the given parameters; non-free keys untouched; free keys rebuilt from their stretch. |
| Codec.UnpackMatched | Fit/optimization.py:80 | Unpacking keeps every free parameter's length. |
| Codec.UnpackConsistent | Fit/optimization.py:80 | Unpacking keeps every free parameter's shape. |
| Codec.UnpackAt | Fit/optimization.py:74-82 | A fixed element comes from the given parameters. An in-play element is vals[offset(k) + rank(i)], within the counted prefix. |
| Codec.UnpackKeyAt | Fit/optimization.py:78-80 | Per element of one key: a fixed element is the original, an in-play one is its rank's entry of the stretch. |
| Codec.SlotAt | Fit/optimization.py:76-77 | Entry r of key k's stretch is vals[offset(k) + r]. |
| Codec.UnpackPack | Fit/optimization.py:66-82 | Round trip: unpacking the packed vector with the same parameters gives the parameters back. |
| Codec.PackUnpack | Fit/optimization.py:66-82 | Round trip the other way: packing unpacked parameters gives the vector's counted prefix, or the whole vector when it has exactly that length. |
| Objective.NanCon | Fit/optimization.py:84-87 | A parameter whose lower bounds are all NaN (every element fixed) never violates. |
| Objective.NanConExists | Fit/optimization.py:84-87 | nancon holds exactly when some element whose lower bound is not NaN fails lo <= v <= hi (a NaN value always fails). |
| Objective.Flags | Fit/optimization.py:91-92 | One flag per free key, in order, set exactly when that key violates its bounds. |
| Objective.Sum | Fit/optimization.py:91-92 | np.sum of the penalty list is +inf or 0. |
| Objective.SumOfFlags | Fit/optimization.py:91-92 | The penalty sum is +inf when some flag is set and 0 otherwise, never NaN. |
| Objective.InfeasibleExists | Fit/optimization.py:91-92 | Infeasible exactly when some free key violates its bounds. |
| Objective.FitFunction | Fit/optimization.py:89-93 | If the unpacked parameters are feasible, the objective is the model's value. Otherwise it is +inf, or NaN when the model gives NaN or -inf. |
| Objective.StartKey | Fit/optimization.py:57-64 | A key of the clamped start point violates its bounds exactly when one of its in-play positions is not admissible. |
| Objective.StartFeasible | Fit/optimization.py:57-87 | The clamped start point is feasible exactly when every in-play position has ordered bounds and no unbounded NaN. |
| Objective.StartObjective | Fit/optimization.py:66-93 | At the packed start vector, the objective is the model's value at the start point. |
| Fitting.FromBounds | Fit/optimization.py:68-72 | After editcon: fails exactly when masking fails, with its error. On success the bounds are the masked bounds in the same key order, the start point is bndcon of the parameters under them (exactly the free keys), and the vector is the start point's packing, of the counted length. |
| Fitting.Prepare | Fit/optimization.py:66-72 | Fails exactly when editcon or fixcon fails, with editcon's error first. When editcon succeeds and fixcon fails, the result is fixcon's mask-shape error. On success the bounds are editcon's bounds masked, the start point is bndcon of the converted parameters under them (only the free keys), and the vector is its packing. |
| Fitting.PrepareAt | Fit/optimization.py:66-72 | Element by element for a free key: each bound is the resolved bound, or NaN where the mask is set. The start element is bndcon's rule on the given value and those bounds. The vector packs the start point. |
| Fitting.ParamsToVals | Fit/optimization.py:66-72 | The pipeline with in-place masking produces exactly the value-level preparation. |
| Fitting.PrepareRoundTrip | Fit/optimization.py:66-82 | vals2params applied to params2vals's three outputs gives the start point back. |
| Fitting.FromBoundsFixed | Fit/optimization.py:51-63 | A masked element gets NaN bounds, and an element with a NaN lower bound starts at its given value. |
| Fitting.PrepareFixed | Fit/optimization.py:66-69 | Masked elements are out of play and keep the caller's value in the start point. |
| Fitting.GoalArguments | Fit/optimization.py:89-91 | The model is called with exactly the free parameters and no other key. |
| Fitting.Goal | Fit/optimization.py:97 | The objective passed to the minimiser is defined on every vector at least as long as the counted length, and is fitFunction there. |
| Fitting.FitResult | Fit/optimization.py:95-100 | Succeeds exactly when preparation succeeds and a model is given. A preparation error passes through unchanged, and a missing model gives NoModel. The fitted parameters are vals2params of the minimiser's best vector out[0]: exactly the free keys, each refilled from its stretch of that vector. The value is the minimiser's out[1]. |
| Fitting.FitCon | Fit/optimization.py:95-100 | fitcon with in-place masking gives exactly the value-level result. |
| Fitting.FitPacks | Fit/optimization.py:95-100 | The fitted parameters pack back to exactly the minimiser's best vector. |
| Fitting.FitKeepsFixed | Fit/optimization.py:95-100 | A masked element of the fitted parameters has the caller's original value. |
| Fitting.Fitter.constructor | Fit/optimization.py:5-9 | The object stores the four arguments as given. |
| Fitting.Fitter.FuncArg | Fit/optimization.py:104 | A given model wins; otherwise the stored one is used, so a model is available exactly when one of the two is present. |
| Fitting.Fitter.ParamsArg | Fit/optimization.py:104 | Empty parameters are replaced by the stored ones; non-empty ones are used. |
| Fitting.Fitter.FreeArg | Fit/optimization.py:104 | An empty free spec is replaced by the stored one; a non-empty one is used. |
| Fitting.Fitter.MaskArg | Fit/optimization.py:104 | An empty mask is replaced by the stored one; a non-empty one is used. |
| Fitting.Fitter.Fit | Fit/optimization.py:102-105 | fit is fitcon on the arguments after each empty one is replaced by the stored value. |

## Left out

- The minimiser (`opt.fmin` and its options `maxfun`, `full_output`) is an abstract function parameter. The model assumes only that its best vector has the seed's length (`Fitting.KeepsLength`). Nothing is said about optimality.
- The user model `func` is an uninterpreted function from parameters to an extended real. A missing model (the default `[]`) is the error `NoModel`, reported after preparation. In Python it is a TypeError raised inside the minimiser.
- Floating-point rounding is not modelled. Finite arithmetic, including the mean, is exact over the reals.
- NumPy dtypes are not modelled. This includes the failure of NaN assignment into an integer bound array.
- Broadcasting beyond "shape plus row-major data" is not modelled.
- A spec used as it is must be a NumPy array (`Given(NdArray)`). A nested Python list passes editcon's shape check, but Python then fails: bndcon's `flatten` raises AttributeError, and fixcon's boolean indexing of a list raises TypeError. The model accepts such a spec as an array.
- The model `func` is total on parameter maps (`Objective.Model`). In Python, `func(**params)` receives only the free keys. A model whose signature needs a fixed (non-free) parameter raises TypeError. The model instead evaluates it on the free keys, and `Fitting.GoalArguments` records which keys it gets.
- A KeyError for a free or mask key missing from the parameters, or a mask key missing from the free spec, is a precondition (`Resolution.InputsOk`, `Masking.MaskOk`, `Fitting.PrepareOk`).
- Aliasing is not modelled. In Python, fixcon writes NaN into the caller's own bounds array when a spec is used as it is. The model copies the resolved bounds into fresh arrays (`Masking.BoundsTable.constructor`), so the caller's free spec is never changed.
- The shared mutable default arguments of `__init__` and `fit` are not modelled.
- `__repr__` and `__str__` are display formatting and are left out.
- The `is 'None'` identity test is the constructor `Unconstrained`. Python truthiness in `fit` is "empty or absent".
- Codec.Pack: the function is total. A free key whose parameter is not aligned with its bounds contributes nothing. Every use is under `Matched`, where this case cannot arise.
- Clamp.BndCon: requires the bounds to be consistently shaped. editcon's validation establishes this before bndcon runs, and a misshapen pair would make NumPy raise instead.
- Objective.FitFunction: a free key whose bounds and value lengths differ is treated as not violated. Under the preconditions that arise from preparation this case cannot occur.
- As the code does: the parameters returned by params2vals and fitcon contain only the free keys (`Fitting.GoalArguments`, `Fitting.FitResult`). bndcon's mean rule sets an in-range element with bounds [lo, +inf] to +inf.
