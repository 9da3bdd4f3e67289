# Stan Math core: adjoint plumbing, chain rules, dual-number rules, map skeletons

This project is a Dafny model of the sequential core of the Stan Math
library's automatic differentiation and its functional helpers. Each
`.dfy` file holds one module, and the modules follow the library's headers.

- **Reverse mode plumbing.**
  - `SaveAdjoints` flattens an argument tree of vars, vectors of vars,
    vectors of containers, Eigen matrices of vars and arithmetic values into
    a buffer through an advancing cursor.
  - `RevParallelMap` is the reverse-mode `parallel_map`. It counts the
    leaves, gives each index a strided slot in the varis and partials
    arrays, and fills each slot under an arbitrary partition into ranges.
    It then packs one precomputed-gradients node per index, in 1-D and in
    2-D.
  - `RevMapVariadic` is the variant that shares one deep copy, one nested
    stack and one partials array between all outputs. Each `grad()` on that
    stack chains again the nodes of every index run before it.
  - `Tapes` holds the tape: values and adjoints indexed by node. It also
    holds the propagate rule of a precomputed-gradients node.
- **Reverse mode `chain()` rules.**
  - Each rule is a class whose `Chain` method updates only the parents'
    adjoints on the tape.
  - The rules are `RevSum`, `RevDotSelf`, `RevVariance`, `RevLogSoftmax` and
    `RevAtan`.
- **Forward mode.**
  - A dual number is `Dual(val, d)` over the reals (`Duals`).
  - `FwdSum`, `FwdDotSelf`, `FwdColumns`, `FwdMultiply`, `FwdDivide`,
    `FwdToFvar` and `FwdSoftmax` state the value part, and state the tangent
    part as the first-order term of a perturbation `x + h·dx`.
- **Map and loop skeletons.**
  - These are `PrimParallelMap`, `FwdParallelMap`, `PrimMap`,
    `PrimMapVariadic`, `Colwise` and `Rowwise`.
  - The user function is a parameter. A thread-pool `parallel_for` is a
    loop over a partition (`Partitions`) that the caller chooses.
- **Reductions and validators.**
  - `Reductions` and `MinMax` hold sum, prod, mean, variance, dot_self, min
    and max.
  - The other modules are `ToVector`, `Checks`, `NonpositiveInteger` and
    `EigenSeqView`.
  - Throwing is modelled as `Result.Err` with the exception's kind
    (`Wrappers`).

`double` is modelled as `real`. The values of exp, log and atan are inputs:
a softmax value array, for example, is the exp values divided by their sum.

## Model

| member | source | states |
|---|---|---|
| SaveAdjoints.SaveVar | stan/math/rev/core/save_adjoints.hpp:50-54 | one var writes its adjoint at `dest`, returns `dest + 1` and leaves every other cell of the buffer unchanged |
| SaveAdjoints.SaveVarVector | stan/math/rev/core/save_adjoints.hpp:69-76 | a `std::vector<var>` writes its `size()` adjoints in index order; the cursor advances by `size()` |
| SaveAdjoints.SaveContainers | stan/math/rev/core/save_adjoints.hpp:91-98 | a vector of containers writes the leaves of each element, in order, through the recursive call, and writes nothing outside `[dest, end)` |
| SaveAdjoints.SaveEigen | stan/math/rev/core/save_adjoints.hpp:113-119 | an Eigen container writes its `size()` adjoints in linear order |
| SaveAdjoints.SaveFirst | stan/math/rev/core/save_adjoints.hpp:50-138 | dispatch on one argument; an arithmetic argument writes nothing and returns `dest` |
| SaveAdjoints.SaveAdjoints | stan/math/rev/core/save_adjoints.hpp:145 | the variadic form returns `dest` plus the number of var leaves; buffer cells `[dest, end)` hold the leaves' adjoints in order; cells outside it are unchanged; the adjoints are only read |
| SaveAdjoints.LeavesOfAppend | stan/math/rev/core/save_adjoints.hpp:91-98 | the leaves of a concatenation of argument lists are the concatenation of their leaves |
| SaveAdjoints.SavedConcat | stan/math/rev/core/save_adjoints.hpp:50-145 | writing the first argument and then the rest from the returned cursor gives the adjoints of all their leaves in order |
| SaveAdjoints.DeepCopyLeaves | stan/math/rev/functor/parallel_map.hpp:73 | a deep copy of an argument has as many leaves as the original, numbered consecutively from the first fresh node |
| SaveAdjoints.DeepCopyAllLeaves | stan/math/rev/functor/map_variadic.hpp:71-72 | the same for a whole argument list: one fresh node per var leaf, in order |
| Slots.OffsetIsProduct | stan/math/rev/functor/parallel_map.hpp:57-62 | slot i of an inner-stride-`nvars` map starts at `i*nvars` |
| Slots.ConcatSlots | stan/math/rev/functor/parallel_map.hpp:57-62 | with slots of `nvars` entries, slot i of the concatenation is index i's block, and the total length is that of `S` slots |
| Slots.SlotsDetermine | stan/math/rev/functor/parallel_map.hpp:57-62 | two arrays of `S` slots that agree on every slot are equal, so the slots cover the array |
| Slots.OtherSlotsKept | stan/math/rev/functor/parallel_map.hpp:72-87 | writing inside slot i leaves every other slot unchanged (the slots are disjoint) |
| RevParallelMap.SaveVaris | stan/math/rev/functor/parallel_map.hpp:72 | the parent varis of index i's arguments are written in order at `dest`; nothing else changes |
| RevParallelMap.EvaluateIndex | stan/math/rev/functor/parallel_map.hpp:71-88 | index s fills its own varis slot, `values[s]` and its own partials slot; every other index's slot and value is kept |
| RevParallelMap.SlotWritten | stan/math/rev/functor/parallel_map.hpp:71-88 | writing the varis and partials of index s inside its own slot, and its value at `values[s]`, fills slot s and keeps every other slot and value |
| RevParallelMap.EvaluateRange | stan/math/rev/functor/parallel_map.hpp:64-89 | one range of the partition fills exactly its indices and keeps all the others |
| RevParallelMap.ParallelFor | stan/math/rev/functor/parallel_map.hpp:64-89 | for any partition of `[0,S)`, every index ends up filled |
| RevParallelMap.PackedArrays | stan/math/rev/functor/parallel_map.hpp:64-89 | once every index is filled, the three arrays are fixed by the inputs alone, so they do not depend on the partition |
| RevParallelMap.ParallelMap | stan/math/rev/functor/parallel_map.hpp:17-99 | 1-D reverse mode: `nvars` is counted at index 0; for every partition the varis are the concatenated leaves, `values[i]` is index i's value and the partials are the concatenated gradients; result i is a node with value `values[i]`, `nvars` parents and offset `i*nvars` |
| RevParallelMap.NodePartials | stan/math/rev/functor/parallel_map.hpp:92-98 | the partials that node i reads at offset `i*nvars` are exactly index i's own gradients |
| RevParallelMap.Pack | stan/math/rev/functor/parallel_map.hpp:92-98 | result i becomes a precomputed node with `values[i]`, `nvars` parents and offset `i*nvars` into the shared arrays |
| RevParallelMap.GridSlot | stan/math/rev/functor/parallel_map.hpp:149-154 | the 2-D offset `nvars*i + nvars*R*j` is where the 1-D slot of the column-major index `i + R*j` starts, and that slot lies inside the `R*C*nvars` arrays |
| RevParallelMap.GridSlotsDisjoint | stan/math/rev/functor/parallel_map.hpp:149-154 | the slots of two different cells (i,j) do not overlap |
| RevParallelMap.EvaluateBlock | stan/math/rev/functor/parallel_map.hpp:165-184 | one block fills exactly its own cells' slots and values and keeps all other cells |
| RevParallelMap.ParallelForGrid | stan/math/rev/functor/parallel_map.hpp:157-185 | for any partition of the R×C grid into blocks, every cell ends up filled |
| RevParallelMap.Packed | stan/math/rev/functor/parallel_map.hpp:157-185 | once every cell is filled, the arrays are the column-major concatenation of the cells' leaves, values and gradients |
| RevParallelMap.ParallelMapGrid | stan/math/rev/functor/parallel_map.hpp:104-197 | 2-D reverse mode: the arrays do not depend on the partition, and node (i,j) has value `app(i,j).value`, `nvars` parents and offset `nvars*(i + R*j)` |
| RevParallelMap.PackGrid | stan/math/rev/functor/parallel_map.hpp:188-196 | node (i,j) reads `values(i,j)` and its own offset |
| RevParallelMap.ValuesOverrunAsWritten | stan/math/rev/functor/parallel_map.hpp:138-139 | with `nvars = 0`, every cell `values(i,j)` of an R×C grid is written at an index past the end of the `S*nvars`-double `vals` buffer |
| RevParallelMap.ValuesFitAsWritten | stan/math/rev/functor/parallel_map.hpp:138-139 | for a non-empty grid, the `S*nvars` buffer holds the R×C values exactly when `nvars >= 1` |
| RevParallelMap.ValuesFit | stan/math/rev/functor/parallel_map.hpp:155 | with `vals` sized `R*C`, every cell `i + R*j` is in bounds |
| RevMapVariadic.Propagate | stan/math/rev/functor/map_variadic.hpp:41 | the `chain()` of one node left on the nested stack, whose adjoint is 1, adds its partial to each shared copy's adjoint |
| RevMapVariadic.Grad | stan/math/rev/functor/map_variadic.hpp:41 | `sub_v.grad()` chains every node on the shared nested stack, so the copies' adjoints grow by the partials of every index run so far, not only index i's |
| RevMapVariadic.RetainedIsWeighted | stan/math/rev/functor/map_variadic.hpp:35-45 | with the indices run in some order, the partials of the index run t-th of m reach the copies m - t times |
| RevMapVariadic.ApplyRange | stan/math/rev/functor/map_variadic.hpp:35-45 | a range stores each of its values at `vals_[i]`, leaves its nodes on the nested stack in index order, and the copies' adjoints are those of every grad() so far re-chaining that stack |
| RevMapVariadic.ApplyAll | stan/math/rev/functor/map_variadic.hpp:77-78 | after the ranges of a partition have run in the partition's order, the values are index by index, and the shared adjoints are the retained sum over that run order, which the order can change |
| RevMapVariadic.MapVariadic | stan/math/rev/functor/map_variadic.hpp:51-94 | the varis are all leaves, counted once; the partials are the shared copies' adjoints after every index's grad(), saved once, as `RetainedGrads` of the run order; every output i is a node with `values[i]`, all the varis and offset 0 into that one partials array |
| RevMapVariadic.PackShared | stan/math/rev/functor/map_variadic.hpp:87-91 | every output is given the same varis and partials arrays, at offset 0 |
| RevMapVariadic.SharedPartialsAsWritten | stan/math/rev/functor/map_variadic.hpp:35-91 | with f_i = 2·x_i run in the order 0, 1, both outputs get the partials (4, 2): output 0 sends adjoint to x_1 and twice its own gradient to x_0 |
| RevMapVariadic.ScheduleDependsAsWritten | stan/math/rev/functor/map_variadic.hpp:35-78 | the same f_i = 2·x_i under the partition whose range of index 1 runs first gives (2, 4), so the partials depend on the schedule |
| Accumulation.MaskedSumInsert | stan/math/rev/mat/fun/log_softmax.hpp:35-43 | chaining one more element vari adds exactly its own contributions to the running sum, whatever was chained before |
| Accumulation.MaskedSumFull | stan/math/rev/mat/fun/log_softmax.hpp:87-92 | once every element vari has been chained, the running sum is the total over all of them, whatever the order |
| Tapes.PropagatePrecomputed | stan/math/rev/functor/parallel_map.hpp:93-97 | a precomputed-gradients node adds `adj·partial[k]` to the adjoint of parent k and changes nothing else |
| Tapes.ScatterDistinct | stan/math/rev/fun/variance.hpp:29 | with distinct parents, parent k's adjoint grows by exactly its own contribution |
| Tapes.ScatterUntouched | stan/math/rev/fun/variance.hpp:29 | a node that is not a parent keeps its adjoint |
| Tapes.ScatterTotal | stan/math/rev/fun/variance.hpp:29 | the total adjoint grows by the sum of the contributions |
| Tapes.ScatterAt | stan/math/rev/fun/log_softmax.hpp:78-79 | every vari's adjoint grows by the sum of the contributions at the positions naming it, so a parent named twice receives both |
| Tapes.ScatterAdd | stan/math/rev/fun/log_softmax.hpp:78-79 | adding x and then c over the same parents adds x + c, repeated parents included |
| RevSum.SumVari.constructor | stan/math/rev/fun/sum.hpp:27-32 | the node's value is the sum of the input values; the input varis are copied in order into an array of length `size()` |
| RevSum.SumVari.Chain | stan/math/rev/fun/sum.hpp:34-37 | `chain` adds the node's adjoint to each parent adjoint, and only to those |
| RevSum.SumVar | stan/math/rev/fun/sum.hpp:50-58 | an empty input gives the constant 0 and no node; otherwise a node over the inputs whose value is their sum |
| RevSum.SumChainOthers | stan/math/rev/fun/sum.hpp:34-37 | a node that is not a parent keeps its adjoint |
| RevSum.SumChainParent | stan/math/rev/fun/sum.hpp:34-37 | with distinct parents, each parent gains exactly the node's adjoint |
| RevSum.SumChainTotal | stan/math/rev/fun/sum.hpp:34-37 | the total adjoint grows by `length·adj` |
| RevSum.SumSensitivity | stan/math/rev/fun/sum.hpp:29 | moving one input by h moves the sum by 1·h, which is the partial that `chain` applies |
| RevDotSelf.DotSelfVari.constructor | stan/math/rev/fun/dot_self.hpp:24-29 | the node stores exactly `size()` parent pointers, and its value is the sum of squares of their values |
| RevDotSelf.DotSelfVari.Chain | stan/math/rev/fun/dot_self.hpp:35-38 | parent k's adjoint grows by `adj·2·val_k`; nothing else changes |
| RevDotSelf.DotSelf | stan/math/rev/fun/dot_self.hpp:50-56 | a non-vector is refused by `check_vector` before any node is built; otherwise a node over the inputs whose value is their sum of squares |
| RevDotSelf.DotSelfSensitivity | stan/math/rev/fun/dot_self.hpp:35-38 | moving input k by h moves the value by `2·x_k·h + h²`, so `2·x_k` is the partial that `chain` applies |
| RevDotSelf.DotSelfValueNonNegative | stan/math/rev/fun/dot_self.hpp:31-33 | the value is never negative |
| RevVariance.TwiceOverIsScale | stan/math/rev/fun/variance.hpp:26 | the partials `2·diff/(n-1)` are the deviations scaled by `2/(n-1)` |
| RevVariance.VariancePartialsSumToZero | stan/math/rev/fun/variance.hpp:24-26 | the partials sum to zero |
| RevVariance.VariancePartialsDotDeviations | stan/math/rev/fun/variance.hpp:24-27 | partials · deviations = 2 · variance |
| RevVariance.CalcVariance | stan/math/rev/fun/variance.hpp:15-30 | the node's parents are the inputs in order; its partials are `2(x_k - mean)/(n-1)`; its value is `Σ(x - mean)²/(n-1)` |
| RevVariance.Variance | stan/math/rev/fun/variance.hpp:44-53 | an empty input throws; one element gives `var(0)`; two or more give the `calc_variance` node |
| RevVariance.VarianceChainKeepsTotal | stan/math/rev/fun/variance.hpp:29 | propagating the node leaves the total adjoint of its parents unchanged |
| RevLogSoftmax.EltContribsAsUpdate | stan/math/rev/fun/log_softmax.hpp:36-44 | the element chain adds `adj·(1 - s_idx)` at `idx` and subtracts `adj·s_m` at every other m |
| RevLogSoftmax.EltContribsTotal | stan/math/rev/fun/log_softmax.hpp:36-44 | the adjoints of alpha change in total by `adj·(1 - Σs)` |
| RevLogSoftmax.EltContribsVanish | stan/math/rev/fun/log_softmax.hpp:36-44 | when Σs = 1 the adjoints of alpha change in total by 0 |
| RevLogSoftmax.LogSoftmaxEltVari.constructor | stan/math/rev/mat/fun/log_softmax.hpp:20-44 | the node records its value, the shared alpha and softmax arrays, the size and its index |
| RevLogSoftmax.LogSoftmaxEltVari.Chain | stan/math/rev/mat/fun/log_softmax.hpp:35-43 | only the adjoints of `alpha_[0..size_)` change, by the element-chain contributions |
| RevLogSoftmax.CallbackContribsTotal | stan/math/rev/fun/log_softmax.hpp:76-80 | when Σs = 1, the callback's contributions sum to zero |
| RevLogSoftmax.CallbackEntry | stan/math/rev/fun/log_softmax.hpp:78-79 | the callback adds `res_adj_m - (Σ res_adj)·exp(res_val_m)` to alpha_m |
| RevLogSoftmax.LogSoftmaxPass | stan/math/rev/fun/log_softmax.hpp:59-84 | an empty input throws; otherwise the reverse pass is recorded over alpha and the results |
| RevLogSoftmax.RunCallback | stan/math/rev/fun/log_softmax.hpp:76-80 | running the callback scatters those contributions into alpha's adjoints and changes nothing else |
| RevLogSoftmax.EltGradsAllRun | stan/math/rev/mat/fun/log_softmax.hpp:35-43 | chaining every output adds `a_m - s_m·Σa` to alpha_m |
| RevLogSoftmax.ProgressFullInput | stan/math/rev/mat/fun/log_softmax.hpp:87-92 | after all outputs have been chained, in any order, position m of alpha has been sent `a_m - s_m·Σa` |
| RevLogSoftmax.CallbackAt | stan/math/rev/fun/log_softmax.hpp:78-79 | for an input vari named once, the callback adds the same `a_m - Σa·s_m` |
| RevLogSoftmax.ChainAll | stan/math/rev/mat/fun/log_softmax.hpp:35-43 | chaining all sibling outputs in any order gives exactly the adjoints the newer callback gives, also when an input vari is repeated |
| RevLogSoftmax.RepeatedInputGainsNothing | stan/math/rev/fun/log_softmax.hpp:76-80 | for one vari at every position, as in `log_softmax([x, x])`, the callback leaves its adjoint unchanged |
| RevLogSoftmax.LogSoftmaxOutputs | stan/math/rev/mat/fun/log_softmax.hpp:58-94 | an empty input throws; otherwise output k is a node with index k, and all outputs share one alpha array and one softmax array, normalised by its own sum |
| RevLogSoftmax.OutputsAreSiblings | stan/math/rev/mat/fun/log_softmax.hpp:83-92 | the outputs built that way are siblings over one alpha and one softmax array |
| RevLogSoftmax.LogSoftmaxEach | stan/math/rev/mat/fun/log_softmax.hpp:96-105 | the vector-of-vectors form throws on an empty outer vector or an empty element; otherwise it applies `log_softmax` to each element |
| RevAtan.Denominator | stan/math/rev/fun/atan.hpp:15 | `1 + x²` is at least 1, so the update is always defined |
| RevAtan.AtanPartial | stan/math/rev/fun/atan.hpp:15 | the derivative `1/(1 + x²)` lies in (0, 1] and is the inverse of the denominator |
| RevAtan.AtanPartialEven | stan/math/rev/fun/atan.hpp:15 | the derivative is even in x |
| RevAtan.AtanPartialAtZero | stan/math/rev/fun/atan.hpp:15 | the derivative at 0 is 1 |
| RevAtan.DividedAdjointBounded | stan/math/rev/fun/atan.hpp:15 | `adj/(1 + x²)` equals `adj` times the derivative, keeps the sign of `adj` and is no larger in magnitude |
| RevAtan.ScalarChain | stan/math/rev/fun/atan.hpp:12-16 | the scalar chain adds `adj/(1 + x²)` to the input adjoint and changes nothing else |
| RevAtan.AtanVari.constructor | stan/math/rev/fun/atan.hpp:101 | the node's value is atan of the input value |
| RevAtan.AtanVari.Chain | stan/math/rev/fun/atan.hpp:15 | the tape's adjoints after `chain` are those of the scalar chain |
| RevAtan.AtanContribsAt | stan/math/rev/fun/atan.hpp:61-67 | the matrix chain's contribution to input k is `out_adj_k/(1 + x_k²)` |
| RevAtan.AtanMatrixVari.constructor | stan/math/rev/fun/atan.hpp:43-59 | the constructor records the input varis and values in arrays of size `rows·cols` and creates the output varis with atan of each input value; other tape values are unchanged |
| RevAtan.AtanMatrixVari.Chain | stan/math/rev/fun/atan.hpp:61-67 | the matrix chain adds `out_adj/(1 + x²)` elementwise to the input adjoints |
| RevAtan.NewOutputs | stan/math/rev/fun/atan.hpp:53-58 | output k holds atan of input value k; no other tape value changes |
| RevAtan.MatrixAgreesWithScalar | stan/math/rev/fun/atan.hpp:61-67 | each input's update from the matrix chain is the scalar chain's update for that entry |
| RevAtan.MatrixLeavesOthers | stan/math/rev/fun/atan.hpp:61-67 | nodes that are not inputs keep their adjoints (the outputs do not chain) |
| RevAtan.AtanContainer | stan/math/rev/fun/atan.hpp:103-118 | the container form returns the matrix node's output varis, each holding atan of its input |
| Duals.TimesPerturbed | stan/math/fwd/mat/fun/multiply.hpp:13-19 | the product rule: `(x + h·dx)(c + h·dc)` is `val + h·d + h²·dx·dc` |
| Duals.TimesOver | stan/math/fwd/mat/fun/divide.hpp:15-22 | the quotient rule inverts the product rule: `(x/c)·c = x` on dual numbers |
| Duals.ZipRoundTrip | stan/math/fwd/mat/fun/to_fvar.hpp:25-33 | splitting duals into values and tangents and zipping them back is the identity |
| Duals.PairRoundTrip | stan/math/fwd/mat/fun/to_fvar.hpp:25-33 | pairing a dual matrix's `val_()` and `d_()` gives back the matrix |
| Duals.PairParts | stan/math/fwd/mat/fun/to_fvar.hpp:29-32 | the paired matrix's `val_()` and `d_()` are exactly the given matrices |
| FwdSum.SumDual | stan/math/fwd/fun/sum.hpp:20-29 | an empty input gives a zero fvar; otherwise val is the sum of the values and d the sum of the tangents |
| FwdSum.SumDualTangent | stan/math/fwd/fun/sum.hpp:27 | summing the perturbed values gives `val + h·d` exactly |
| FwdSum.SumDualSingleton | stan/math/fwd/fun/sum.hpp:27 | a singleton returns its element's (val, d) |
| FwdSum.SumDualPermutation | stan/math/fwd/fun/sum.hpp:27 | the result depends only on the multiset of elements |
| FwdSum.SumDualMatrix | stan/math/fwd/mat/fun/sum.hpp:19-25 | the matrix sum is the sum of the column-major entries, 0 when empty |
| FwdSum.SumDualMatrixShape | stan/math/fwd/mat/fun/sum.hpp:24 | two matrices with the same multiset of entries, whatever their shapes, have the same sum |
| FwdDotSelf.DotSelfDual | stan/math/fwd/fun/dot_self.hpp:20-29 | as intended, for row and column vectors alike: a non-vector throws; otherwise val is non-negative |
| FwdDotSelf.DotSelfDualAsWritten | stan/math/fwd/fun/dot_self.hpp:24-27 | as written: after `check_vector` passes, the operands clash in size exactly for a row vector with other than one entry, the empty 1×0 one included |
| FwdDotSelf.AsWrittenAgreesOffRowVectors | stan/math/fwd/fun/dot_self.hpp:24-27 | off row vectors with other than one entry, the code as written returns what the intended rule does |
| FwdDotSelf.RowVectorClashesAsWritten | stan/math/fwd/fun/dot_self.hpp:25-27 | a 1×2 row vector passes `check_vector`, but the code as written multiplies a 2×1 by a 1×2 operand elementwise; the empty 1×0 row vector pairs 0×1 with 1×0 where the intended rule returns 0 |
| FwdDotSelf.DotSelfDualValue | stan/math/fwd/fun/dot_self.hpp:26 | val is the prim `dot_self` of the values, and throws exactly when it throws |
| FwdDotSelf.DotSelfDualTangent | stan/math/fwd/fun/dot_self.hpp:27 | the perturbed sum of squares is `val + h·d + h²·Σdx²`, so `d = 2·Σ v·dv` |
| FwdDotSelf.DotSelfDualConstant | stan/math/fwd/fun/dot_self.hpp:26-27 | all-zero tangents give d = 0 |
| FwdColumns.ColumnsDotSelf | stan/math/fwd/mat/fun/columns_dot_self.hpp:13-22 | the result is 1 × cols |
| FwdColumns.ColumnsDotSelfEntry | stan/math/fwd/mat/fun/columns_dot_self.hpp:19-20 | entry j has val `Σ_i x_ij²` and d `2·Σ_i x_ij·dx_ij` |
| FwdColumns.ColumnsDotSelfTangent | stan/math/fwd/mat/fun/columns_dot_self.hpp:19-20 | entry j's (val, d) is the first-order expansion of column j's perturbed sum of squares |
| FwdColumns.ColumnsDotSelfExampleRow | test/unit/math/fwd/mat/fun/columns_dot_self_test.cpp:8-22 | the 1×1 case gives (4,4); the 1×2 case gives (4,4) and (9,6) |
| FwdColumns.ColumnsDotSelfExampleSquare | test/unit/math/fwd/mat/fun/columns_dot_self_test.cpp:24-32 | [[2,3],[4,5]] with unit tangents gives vals (20,34) and tangents (12,16) |
| FwdColumns.ColumnsDotProduct | stan/math/fwd/mat/fun/columns_dot_product.hpp:11-24 | mismatched dimensions throw; otherwise the result is 1 × cols |
| FwdColumns.ColumnsDotProductEntry | stan/math/fwd/mat/fun/columns_dot_product.hpp:20-22 | entry j has val `Σ_i v1_ij·v2_ij` and d `Σ_i (dv1_ij·v2_ij + v1_ij·dv2_ij)` |
| FwdColumns.ColumnsDotProductTangent | stan/math/fwd/mat/fun/columns_dot_product.hpp:20-22 | entry j is the first-order expansion of the perturbed column dot product |
| FwdColumns.ColumnsDotProductFvarDouble | stan/math/fwd/mat/fun/columns_dot_product.hpp:26-37 | with a double right operand: the same check and shape |
| FwdColumns.ColumnsDotProductDoubleFvar | stan/math/fwd/mat/fun/columns_dot_product.hpp:39-50 | with a double left operand: the same check and shape |
| FwdColumns.ColumnsDotProductMixed | stan/math/fwd/mat/fun/columns_dot_product.hpp:35 | a double operand behaves as an fvar operand with zero tangents, so only the other operand's tangent contributes |
| FwdColumns.Crossprod | stan/math/fwd/mat/fun/crossprod.hpp:10-21 | zero rows give 0×0, even when cols > 0; otherwise the result is cols × cols |
| FwdColumns.CrossprodEntry | stan/math/fwd/mat/fun/crossprod.hpp:18-19 | val = MᵀM and d = Mᵀ·dM + dMᵀ·M, entry by entry |
| FwdColumns.CrossprodSymmetric | stan/math/fwd/mat/fun/crossprod.hpp:18-19 | both val and d are symmetric |
| FwdColumns.CrossprodTangent | stan/math/fwd/mat/fun/crossprod.hpp:18-19 | each entry is the first-order expansion of the perturbed MᵀM |
| FwdMultiply.MultiplyScalar | stan/math/fwd/mat/fun/multiply.hpp:12-19 | fvar matrix × fvar: the shape is kept and each entry is the product-rule product |
| FwdMultiply.MultiplyByDouble | stan/math/fwd/mat/fun/multiply.hpp:21-28 | fvar matrix × double: val = m.val·c and d = m.d·c |
| FwdMultiply.MultiplyDoubleMatrix | stan/math/fwd/mat/fun/multiply.hpp:30-37 | double matrix × fvar: val = m·c.val and d = m·c.d |
| FwdMultiply.MultiplyScalarMixed | stan/math/fwd/mat/fun/multiply.hpp:21-37 | both mixed forms equal the fvar form with the double promoted to a zero-tangent fvar |
| FwdMultiply.ScalarFirstCommutes | stan/math/fwd/mat/fun/multiply.hpp:39-55 | the scalar-first overloads give the matrix-first results |
| FwdMultiply.ScalarMultiply | stan/math/fwd/mat/fun/multiply.hpp:39-43 | fvar × fvar matrix: the shape is kept and entry (i,j) is c times m(i,j) by the product rule |
| FwdMultiply.DoubleMultiply | stan/math/fwd/mat/fun/multiply.hpp:45-49 | double × fvar matrix: entry (i,j) has val = c·m(i,j).val and d = c·m(i,j).d |
| FwdMultiply.ScalarMultiplyDouble | stan/math/fwd/mat/fun/multiply.hpp:51-55 | fvar × double matrix: entry (i,j) has val = c.val·m(i,j) and d = c.d·m(i,j) |
| FwdMultiply.MultiplyScalarTangent | stan/math/fwd/mat/fun/multiply.hpp:13-19 | each entry is the first-order expansion of the perturbed product |
| FwdMultiply.MultiplyMatrices | stan/math/fwd/mat/fun/multiply.hpp:57-70 | non-multiplicable operands throw; otherwise the result is `m1.rows × m2.cols` |
| FwdMultiply.MultiplyMatricesEntry | stan/math/fwd/mat/fun/multiply.hpp:66-67 | val = m1val·m2val and d = m1val·dm2 + dm1·m2val, entry by entry |
| FwdMultiply.MultiplyFvarDouble | stan/math/fwd/mat/fun/multiply.hpp:72-83 | fvar matrix × double matrix: non-multiplicable operands throw; otherwise entry (i,j) has val = row i of m1.val · column j of m2 and d = row i of m1.d · column j of m2 |
| FwdMultiply.MultiplyDoubleFvar | stan/math/fwd/mat/fun/multiply.hpp:85-96 | double matrix × fvar matrix: non-multiplicable operands throw; otherwise entry (i,j) has val = row i of m1 · column j of m2.val and d = row i of m1 · column j of m2.d |
| FwdMultiply.MultiplyMatricesTangent | stan/math/fwd/mat/fun/multiply.hpp:66-67 | each entry is the first-order expansion of the perturbed matrix product |
| FwdMultiply.MultiplyFvarDoubleMixed | stan/math/fwd/mat/fun/multiply.hpp:72-83 | fvar × double matrix equals the fvar product with zero tangents on the right |
| FwdMultiply.MultiplyDoubleFvarMixed | stan/math/fwd/mat/fun/multiply.hpp:85-96 | double × fvar matrix equals the fvar product with zero tangents on the left |
| FwdMultiply.MultiplyRowCol | stan/math/fwd/mat/fun/multiply.hpp:98-103 | row × column throws unless multiplicable, and otherwise is their dot product |
| FwdMultiply.MultiplyRowColAgrees | stan/math/fwd/mat/fun/multiply.hpp:98-103 | row × column throws and returns exactly as the 1×1 matrix product does |
| FwdMultiply.MultiplyRowColFvarDouble | stan/math/fwd/mat/fun/multiply.hpp:105-110 | fvar row × double column: val is the dot of values, d the dot of the row's tangents with the column |
| FwdMultiply.MultiplyRowColDoubleFvar | stan/math/fwd/mat/fun/multiply.hpp:112-117 | double row × fvar column: val is the dot of values, d the dot of the row with the column's tangents |
| FwdDivide.Divide | stan/math/fwd/mat/fun/divide.hpp:14-22 | fvar matrix / fvar: the shape is kept and each entry is the quotient-rule quotient |
| FwdDivide.DivideInverts | stan/math/fwd/mat/fun/divide.hpp:14-22 | multiplying an entry of the quotient back by c gives the entry: val = v/c and d = (dv·c - v·dc)/c² |
| FwdDivide.DivideByDouble | stan/math/fwd/mat/fun/divide.hpp:24-31 | division by a double, entry by entry |
| FwdDivide.OverByDouble | stan/math/fwd/mat/fun/divide.hpp:24-31 | dividing by a double gives val = v/c and d = dv/c, the quotient rule with a zero-tangent divisor |
| FwdDivide.DivideByDoubleMixed | stan/math/fwd/mat/fun/divide.hpp:24-31 | the double form equals the fvar form with a zero-tangent divisor |
| FwdDivide.DivideDoubleMatrix | stan/math/fwd/mat/fun/divide.hpp:33-40 | double matrix / fvar, entry by entry |
| FwdDivide.DoubleOverPromoted | stan/math/fwd/mat/fun/divide.hpp:33-40 | a double over an fvar gives d = -v·dc/c², the quotient rule with a zero-tangent numerator |
| FwdDivide.DivideDoubleMatrixMixed | stan/math/fwd/mat/fun/divide.hpp:33-40 | the double-matrix form equals the fvar form with zero tangents |
| FwdToFvar.ToFvar | stan/math/fwd/mat/fun/to_fvar.hpp:17-23 | a double matrix becomes an fvar matrix of the same shape, with the same values and zero tangents |
| FwdToFvar.ToFvarParts | stan/math/fwd/mat/fun/to_fvar.hpp:17-23 | its `val_()` is the input and its `d_()` is zero |
| FwdToFvar.ToFvarPair | stan/math/fwd/mat/fun/to_fvar.hpp:25-33 | mismatched dimensions throw; otherwise `val_()` and `d_()` are exactly the given matrices |
| FwdToFvar.ToFvarPairRoundTrip | stan/math/fwd/mat/fun/to_fvar.hpp:25-33 | pairing a matrix's own `val_()` and `d_()` returns it |
| FwdSoftmax.Softmax | stan/math/fwd/fun/softmax.hpp:18-45 | an empty input throws; otherwise the values are the prim softmax of the input values and the tangents are `s_k·(da_k - Σ_m da_m·s_m)` |
| FwdSoftmax.AccumulateRow | stan/math/fwd/fun/softmax.hpp:27-41 | one pass of the outer loop over m adds step m to every output tangent |
| FwdSoftmax.StepUpdate | stan/math/fwd/fun/softmax.hpp:27-41 | step (m,k) adds `s_k·(da_m - da_m·s_m)` when m = k and `-da_m·s_m·s_k` otherwise |
| FwdSoftmax.PartialTangentStep | stan/math/fwd/fun/softmax.hpp:27-41 | after m + 1 outer steps, the tangent is the previous one plus step m |
| FwdSoftmax.SoftmaxTangentIsJacobianProduct | stan/math/fwd/fun/softmax.hpp:27-41 | the tangent is the softmax Jacobian `diag(s) - s·sᵀ` applied to the input tangents |
| FwdSoftmax.SoftmaxTangentSumsToZero | stan/math/fwd/fun/softmax.hpp:14-16 | on a simplex (Σs = 1), the tangents sum to 0 |
| FwdSoftmax.SoftmaxTangentZero | stan/math/fwd/fun/softmax.hpp:25 | all-zero input tangents give all-zero output tangents |
| PrimSoftmax.Softmax | stan/math/prim/fun/softmax.hpp:45-53 | an empty input throws; otherwise the result is each exp divided by the (positive) sum of the exps, so its values are positive and sum to 1 |
| PrimSoftmax.NormaliseSumsToOne | stan/math/prim/fun/softmax.hpp:51 | dividing by the sum gives entries that sum to 1 |
| Partitions.Split | stan/math/prim/functor/parallel_map.hpp:24-25 | halving a `blocked_range` while it exceeds the grain size gives contiguous pieces that cover it, each no larger than the grain |
| Partitions.SplitIsPartition | stan/math/prim/functor/parallel_map.hpp:25 | splitting `[0,n)` by any grain size gives a partition of it |
| PrimParallelMap.HitsOnce | stan/math/prim/functor/parallel_map.hpp:24-32 | under a partition, each index in range is written by exactly one range |
| PrimParallelMap.WriteRange | stan/math/prim/functor/parallel_map.hpp:28-31 | each i in the range gets `result(i) = index_fun(i, ...)`; the rest is unchanged |
| PrimParallelMap.ParallelMap | stan/math/prim/functor/parallel_map.hpp:15-33 | the 1-D loop form: for every partition, `result(i) = index_fun(i, ...)` for all i, each written once |
| PrimParallelMap.WriteBlock | stan/math/prim/functor/parallel_map.hpp:51-55 | each (i,j) in the block gets `index_fun(i, j, ...)`; the rest is unchanged |
| PrimParallelMap.ParallelMapGrid | stan/math/prim/functor/parallel_map.hpp:38-58 | the 2-D loop form: for every partition, `result(i,j) = index_fun(i, j, ...)` |
| PrimParallelMap.WriteSegment | stan/math/prim/functor/parallel_map.hpp:76 | `result.segment(begin, size)` is assigned; the rest is unchanged |
| PrimParallelMap.ParallelMapRanged | stan/math/prim/functor/parallel_map.hpp:63-78 | the ranged 1-D form: each cell holds the entry of the segment its range computed |
| PrimParallelMap.SegmentValueAt | stan/math/prim/functor/parallel_map.hpp:76 | the cell value is the entry of the one range that contains it |
| PrimParallelMap.RangedAgreesWithLoop | stan/math/prim/functor/parallel_map.hpp:76 | when the segment function agrees with the index function, the ranged form equals the loop form, whatever the partition |
| PrimParallelMap.WriteBlockRanged | stan/math/prim/functor/parallel_map.hpp:95-98 | a whole block is assigned; the rest is unchanged |
| PrimParallelMap.ParallelMapGridRanged | stan/math/prim/functor/parallel_map.hpp:83-100 | the ranged 2-D form: each cell holds the entry of its block's matrix, and both grain sizes are ignored |
| PrimParallelMap.BlockValueAt | stan/math/prim/functor/parallel_map.hpp:95-98 | the cell value is the entry of the one block that contains it |
| PrimParallelMap.RangedGridAgreesWithLoop | stan/math/prim/functor/parallel_map.hpp:92-98 | when the block function agrees with the cell function, the ranged 2-D form equals the loop form |
| PrimParallelMap.ParallelMapDefault | stan/math/prim/functor/parallel_map.hpp:106-113 | without the bool, the 1-D loop form is used |
| PrimParallelMap.ParallelMapGridDefault | stan/math/prim/functor/parallel_map.hpp:119-127 | without the bool, the 2-D loop form is used |
| FwdParallelMap.ParallelMap | stan/math/fwd/functor/parallel_map.hpp:12-23 | `result(i) = index_fun(i, ...)` for i = 0..size-1, visited in increasing order; grain size unused |
| FwdParallelMap.ParallelMapGrid | stan/math/fwd/functor/parallel_map.hpp:28-42 | `result(i,j) = index_fun(i, j, ...)` for every cell, visited column-major |
| FwdParallelMap.ColumnMajorAt | stan/math/fwd/functor/parallel_map.hpp:36-41 | the visit at position `i + R·j` is cell (i,j) |
| FwdParallelMap.ColumnMajorOnce | stan/math/fwd/functor/parallel_map.hpp:36-41 | every cell is visited, and none twice |
| FwdParallelMap.ColumnMajorInGrid | stan/math/fwd/functor/parallel_map.hpp:36-41 | every visited cell lies in the grid |
| PrimMap.Map | stan/math/prim/functor/map.hpp:20-29 | for every partition, `result(i) = ApplyFunction()(i, args...)` for all i, each written once |
| PrimMapVariadic.MapVariadicImpl | stan/math/prim/functor/map_variadic.hpp:47-57 | every i gets `result_[i] = ReduceFunction()(i, args...)`, and the impl returns that result |
| PrimMapVariadic.MapVariadic | stan/math/prim/functor/map_variadic.hpp:62-72 | the caller's output, an lvalue held by reference, is filled in place with `ReduceFunction()(i, args...)` at every index; the returned result is discarded |
| Colwise.AllEqualTo | stan/math/prim/functor/colwise.hpp:11-16 | true exactly when every count equals the given one |
| Colwise.ColsEqualPairwise | stan/math/prim/functor/colwise.hpp:11-16 | `cols_equal` holds exactly when every two arguments have the same column count |
| Colwise.Col | stan/math/prim/functor/colwise.hpp:21 | the 1-based `col(x, i + 1)` gives column i as a column vector |
| Colwise.ColIndex | stan/math/prim/functor/colwise.hpp:18-23 | column i of every iterated argument |
| Colwise.AsColumnVector | stan/math/prim/functor/colwise.hpp:77-80 | the column has `size()` of the returned value entries |
| Colwise.Colwise | stan/math/prim/functor/colwise.hpp:34-84 | throws `invalid_argument` exactly when the column counts differ; `out_of_range` from `col(x, 1)` when they are all zero; otherwise the result has `size(iter_0)` rows and `cs` columns, and column i is f of column i of each iterated argument followed by the rest; a scalar f gives one row |
| Colwise.DifferentColumnCountsRefused | test/unit/math/prim/functor/colwise_test.cpp:26 | matrices with 5 and 3 columns are refused |
| Rowwise.RowIndexAll | stan/math/prim/functor/rowwise.hpp:10-20 | row i of every dynamic matrix; any other argument unchanged |
| Rowwise.MaxRows | stan/math/prim/functor/rowwise.hpp:45-48 | the maximum `rows()` over the arguments: no argument has more, and one has exactly that many |
| Rowwise.RowwiseImpl | stan/math/prim/functor/rowwise.hpp:50-65 | `max_rows` rows; row i is `as_row_vector(f(row_index(args, i)..., xargs...))`; a scalar f gives one column |
| Rowwise.CondIndex | stan/math/prim/functor/rowwise.hpp:67-86 | `count` plus the length of the longest prefix whose elements satisfy the condition |
| Reductions.SumScalar | stan/math/prim/fun/sum.hpp:20 | `sum(double v)` is v |
| Reductions.SumInt | stan/math/prim/fun/sum.hpp:29 | `sum(int v)` is v |
| Reductions.SumOf | stan/math/prim/fun/sum.hpp:39-44 | the sum of the coefficients; an empty container gives 0 and does not throw |
| Reductions.SumOfAppend | stan/math/prim/fun/sum.hpp:39-44 | the sum is additive over concatenation |
| Reductions.ProdOf | stan/math/prim/fun/prod.hpp:18-26 | an empty container gives 1; one element gives itself |
| Reductions.ProdOfAppend | stan/math/prim/fun/prod.hpp:24 | the product is multiplicative over concatenation |
| Reductions.Mean | stan/math/prim/fun/mean.hpp:20-26 | an empty input throws; otherwise mean·n is the sum |
| Reductions.MeanSingleton | stan/math/prim/fun/mean.hpp:24 | the mean of one element is that element |
| Reductions.MeanConstant | stan/math/prim/fun/mean.hpp:24 | the mean of a constant sequence is the constant |
| Reductions.DeviationsSumToZero | stan/math/prim/fun/variance.hpp:29 | the deviations from the mean sum to zero |
| Reductions.SampleVarianceNonNegative | stan/math/prim/fun/variance.hpp:29 | `Σ(x - mean)²/(n - 1)` is never negative |
| Reductions.Variance | stan/math/prim/fun/variance.hpp:22-31 | an empty input throws; one element gives 0; otherwise the sample variance, never negative |
| Reductions.VarianceConstant | stan/math/prim/fun/variance.hpp:22-31 | a constant input has variance 0 |
| Reductions.SquaredNormZero | stan/math/prim/fun/dot_self.hpp:25 | the sum of squares is 0 exactly when every entry is 0 |
| Reductions.DotSelf | stan/math/prim/fun/dot_self.hpp:21-27 | a non-vector throws; otherwise the value is the sum of the squared entries, which is non-negative and 0 exactly for the zero vector |
| MinMax.MinInt | stan/math/prim/fun/min.hpp:20-26 | an empty integer container throws; otherwise the result is an element no larger than any other |
| MinMax.MaxInt | stan/math/prim/fun/max.hpp:20-26 | an empty integer container throws; otherwise the result is an element no smaller than any other |
| MinMax.MaxReal | stan/math/prim/fun/max.hpp:37-45 | an empty container gives -infinity; otherwise the greatest element |
| MinMax.MinRealAsWritten | stan/math/prim/fun/min.hpp:37-45 | as written: an empty container gives -infinity; otherwise the least element |
| MinMax.MinReal | stan/math/prim/fun/min.hpp:27-36 | as documented: an empty container gives +infinity; otherwise the least element |
| MinMax.MinAppend | stan/math/prim/fun/min.hpp:27-36 | with +infinity for the empty case, min of a concatenation is the min of the two mins |
| MinMax.MaxAppend | stan/math/prim/fun/max.hpp:37-45 | max of a concatenation is the max of the two maxes, -infinity being the identity |
| MinMax.MinAppendFailsAsWritten | stan/math/prim/fun/min.hpp:40-42 | as written, min of `[] + [1]` is 1 but the min of the two mins is -infinity |
| MinMax.LeastUnique | stan/math/prim/fun/min.hpp:43 | an element no larger than any other is the minimum |
| MinMax.GreatestUnique | stan/math/prim/fun/max.hpp:43 | an element no smaller than any other is the maximum |
| ToVector.Gather | stan/math/prim/fun/to_vector.hpp:28-42 | index lists of different lengths throw; out-of-range indices throw a domain error; otherwise entry k is `M(ind1[k], ind2[k])` |
| ToVector.GatherNoRows | stan/math/prim/fun/to_vector.hpp:34 | a matrix with no rows refuses every non-empty index list |
| ToVector.GatherAllIsFlattened | stan/math/prim/fun/to_vector.hpp:48-56 | gathering every cell column-major is the column-major flattening |
| Matrices.FlattenIndex | stan/math/prim/fun/to_vector.hpp:48-56 | the flattening has length rows·cols and `res[i + j·rows] = M(i,j)` |
| ToVector.FromStdVector | stan/math/prim/fun/to_vector.hpp:60-64 | a `std::vector` keeps its elements in order |
| ToVector.FromInts | stan/math/prim/fun/to_vector.hpp:67-75 | a `std::vector<int>` is converted to double element by element, with the same length |
| ToVector.AsRealsRoundTrip | stan/math/prim/fun/to_vector.hpp:72 | the conversion loses nothing: each double's floor is the original int |
| Checks.CheckVector | stan/math/prim/err/check_vector.hpp:25-45 | passes when the compile-time rows or cols is 1 or the run-time rows or cols is 1, and otherwise throws `invalid_argument` |
| Checks.CheckVectorShape | stan/math/prim/err/check_vector.hpp:28-36 | when the compile-time extents agree with the run-time ones, it passes exactly for 1 row or 1 column |
| Checks.CheckRowIndex | src/stan/error_handling/matrix/check_row_index.hpp:24-40 | true exactly when `error_index <= i < rows + error_index`; otherwise `out_of_range` |
| Checks.RowIndexShift | src/stan/error_handling/matrix/check_row_index.hpp:29-30 | index `k + error_index` passes exactly when `k < rows` |
| Checks.NoRowsNoIndex | src/stan/error_handling/matrix/check_row_index.hpp:29-30 | a matrix with no rows has no valid row index |
| Checks.CheckNonzeroSize | stan/math/rev/fun/variance.hpp:47 | passes exactly for a non-empty input; otherwise `invalid_argument` |
| Checks.CheckSizeMatch | stan/math/prim/fun/to_vector.hpp:32-33 | passes exactly when the sizes are equal |
| Checks.CheckBounded | stan/math/prim/fun/to_vector.hpp:34-35 | passes exactly when every element is within [low, high]; otherwise a domain error names an offending element |
| Checks.CheckMatchingDims | stan/math/fwd/mat/fun/columns_dot_product.hpp:15 | passes exactly when both dimensions agree |
| Checks.CheckMultiplicable | stan/math/fwd/mat/fun/multiply.hpp:61 | passes exactly when `m1.cols == m2.rows` |
| NonpositiveInteger.NonpositiveIntegerIff | stan/math/prim/scal/fun/is_nonpositive_integer.hpp:17 | `x <= 0.0 && is_integer(x)` holds exactly for the doubles that equal an int n <= 0 (not NaN and not the infinities) |
| NonpositiveInteger.KnownValues | test/unit/math/prim/scal/fun/is_nonpositive_integer_test.cpp:13-23 | -10 and 0 pass; 1, 2.5, -5.5, `INT_MAX`, infinity and NaN fail; `-INT_MAX` passes |
| EigenSeqView.At | stan/math/prim/mat/meta/eigen_seq_view.hpp:10-47 | the generic view returns its one object for any index; the vector views return element i, and a `std::vector<double>` element comes back as a column vector with the same entries |
| EigenSeqView.GenericIgnoresIndex | stan/math/prim/mat/meta/eigen_seq_view.hpp:15-18 | the generic view has size 1 and ignores the index |
| EigenSeqView.VectorViewRoundTrip | stan/math/prim/mat/meta/eigen_seq_view.hpp:42-43 | viewing element i of a vector of `std::vector<double>` and flattening gives back that element |

## Left out

- The TBB thread pool is not modelled. A `parallel_for` is a loop over a partition of the index space into ranges or blocks, and the partition is a parameter. The results are proved for every partition, so the grain sizes only choose the partition.
- Concurrency is not modelled: ranges are run one after another, in the partition's order.
- `count_vars`, `save_varis`, `deep_copy_vars`, the nested sessions and `grad()` are not part of this model. They are modelled by what the core relies on:
  - a leaf count per argument tree;
  - parent ids in tree order;
  - fresh consecutive ids for a deep copy;
  - for `parallel_map`, the adjoints of an index's own deep copies after its `grad()`, given as an input;
  - for `map_variadic`, the partials of the one node each index's run leaves on the shared nested stack, given as an input, with `grad()` modelled as chaining every node on that stack.
- The arena allocator is modelled as fresh Dafny arrays.
- The propagate rule of a precomputed-gradients node is not part of this model either. It is the rule implied by the varis and partials arrays: parent k gains `adj·partial[k]`.
- RevParallelMap.ParallelMap: that index i has the same leaf count as index 0 is an unchecked assumption in the C++ code. It is a precondition here (`SameCount`).
- RevParallelMap.ParallelMapGrid: the same unchecked assumption in 2-D, that every cell has the leaf count of cell (0,0), is a precondition here (`SameCountGrid`).
- PrimParallelMap.ParallelMapRanged, PrimParallelMap.ParallelMapGridRanged: the segment or block the user function returns for a range is assumed, unchecked, to have that range's size. A mismatch is an Eigen assertion, so it is a precondition here (`SegmentsFit`, `BlocksFit`).
- exp, log and atan are modelled as given values, not computed. The softmax array is the given exp values divided by their sum.
- Floating-point rounding, overflow and NaN propagation in arithmetic are not modelled (reals). `is_nonpositive_integer` does model infinities and NaN, as its test needs them.
- The identity overload of `to_fvar` (stan/math/fwd/mat/fun/to_fvar.hpp:12-15) returns its argument and has nothing to model.
- `operator/` (stan/math/fwd/mat/fun/divide.hpp:42-58) only forwards to `divide`, so it is not modelled separately.
- FwdDivide.Divide, FwdDivide.DivideByDouble, FwdDivide.DivideDoubleMatrix: a zero divisor is not checked by the library, which then yields IEEE infinities or NaN. The model has no such values and requires a nonzero divisor (`c.val != 0` or `c != 0`).
- FwdMultiply.DotProduct: `dot_product` for fvar is not part of this model. It is stated by its value part, and the row × column rules state both parts for the mixed overloads.
- `rowwise()` (stan/math/prim/functor/rowwise.hpp:88-95) depends on type-level dispatch through `cond_index` and tuples, and is not modelled. Its parts `rowwise_impl` and `cond_index` are.
- Rowwise.CondIndex: the condition of each argument's type is given as a boolean, because Dafny has no type traits.
- Rowwise.RowwiseImpl: every iterated matrix must have `max_rows` rows, `max_rows` must be at least 1, and f must give rows of equal size. The library assumes this without checking: with no rows, `row(0)` and `rtn.row(0)` are Eigen assertions. These are preconditions (`Iterable`).
- Colwise.Colwise: f returning columns of different sizes is an Eigen assertion, not a check. It is a precondition.
- RevMapVariadic.MapVariadic: each index's run is taken to leave exactly one node on the nested stack, directly over the shared copies. A run that builds a deeper graph is not modelled: its interior nodes gain adjoint again on every later `grad()`, so they weigh more with each re-chaining. A run that returns a copy itself builds no node; its `grad()` sets that copy's adjoint to 1 rather than adding to it.
- RevMapVariadic.ApplyAll: the ranges run one after another on the nested stack the calling thread opened. On worker threads `grad()` walks each thread's own stack, which is not modelled.
- `map` and `map_variadic` take a `msgs` argument that they never read, so it is not modelled.
- PrimMapVariadic.MapVariadic: only an lvalue output is modelled. For an rvalue, `ReturnType` is a value type, and the `const` `operator()` of the worker (stan/math/prim/functor/map_variadic.hpp:37-40) cannot assign to its `result_`, so that call does not compile.
- `check_nonzero_size`, `check_size_match`, `check_bounded`, `check_matching_dims`, `check_multiplicable`, `is_integer`, `col`, `as_column_vector`, `dot_product`, `size` and `rows`/`cols` are not part of this model. Each is stated by the one rule its name gives, and README rows cite a call site.
- Error messages are not modelled. Only which kind of exception is thrown (`invalid_argument`, `domain_error`, `out_of_range`) is kept.

## Findings

| source | as written | input that shows it | evidently intended | confidence | as-written member | corrected member |
|---|---|---|---|---|---|---|
| stan/math/rev/functor/parallel_map.hpp:138-139 | the 2-D `vals` buffer holds `S*nvars` doubles but is mapped as an R×C matrix | a 1×1 grid whose function has no var arguments (`nvars = 0`): `values(0,0)` is written into a buffer of size 0 | `vals` sized `R*C` | not executed | RevParallelMap.ValuesOverrunAsWritten | RevParallelMap.ValuesFit |
| stan/math/rev/functor/map_variadic.hpp:35-91 | every index runs on the same deep copies and one nested stack whose adjoints are never reset, so each `grad()` re-chains the nodes of every earlier index; the copies' adjoints are saved once, after all indices, and every output gets that one array | f_i = 2·x_i with two outputs: run in the order 0, 1, both get partials (4, 2); run in the order 1, 0, both get (2, 4) | each output gets its own gradient, as the 1-D `parallel_map` does | not executed | RevMapVariadic.SharedPartialsAsWritten | RevParallelMap.NodePartials |
| stan/math/fwd/fun/dot_self.hpp:25-27 | the values are copied into a column vector but the tangents keep the argument's shape, so a row vector with other than one entry gives an n×1 by 1×n elementwise product | a dynamic row vector of two fvars (or the empty 1×0 one) passes `check_vector`, then fails Eigen's size assertion (a fixed-width row vector does not compile) | `dot_self` of any vector, as for column vectors | not executed | FwdDotSelf.RowVectorClashesAsWritten | FwdDotSelf.DotSelfDual |
| stan/math/prim/fun/min.hpp:40-42 | `min` of an empty real container returns `NEGATIVE_INFTY` | `min([])` is -infinity, so `min([] + [1]) = 1` differs from `min(min([]), min([1])) = -infinity` | +infinity, as the doc comment at lines 34-35 says | not executed | MinMax.MinRealAsWritten | MinMax.MinReal |
