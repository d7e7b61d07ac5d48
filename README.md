# rtdriver lattice-spring engine in Dafny

This project models the simulation engine of `rtdriver`. The engine is a SIZE x SIZE lattice of point masses. Springs pull each mass towards the origin and couple it to its von Neumann neighbours. The lattice has free boundaries, so a cell on the border simply has fewer neighbours.

The model covers these parts of the engine:

- the builder (`SimulationBuilder`) with its two optional coefficients and their default of 1;
- the lattice indexing functions `filter_indices`, `index` and `deindex`, between signed D-dimensional coordinates and flat row-major offsets;
- the `stencil::<DIMS>()` loop and the `STENCIL` / `DIMS` constants;
- the force pass `compute_acc`, which fills a scratch grid;
- `update`, which runs the force pass and then swaps the scratch grid with the acceleration grid.

Files:

- `wrappers.dfy`: `Option`.
- `vector.dfy`: the operations of the crate's fixed-length `Vector` that the simulator calls, with a vector modelled as a `seq`.
- `lib.dfy`: `DIMS` and the stencil loop.
- `lattice.dfy`: indexing. A reference layout `RowMajor` and the two round trips are proved here.
- `simulator.dfy`: the builder datatype, the `SimulationState` datatype, and the `Simulation` class. The class's `size` x `size` `array2` buffers are updated in place by `ComputeAcc` and `Update`.

The force law is defined independently of the stencil route the code takes. `Force` starts from the explicit candidate list `(i+1, j), (i-1, j), (i, j+1), (i, j-1)` and keeps the in-bounds cells (`Neighbours`). The methods are proved to compute that function cell by cell.

The indexing functions take SIZE as a parameter, and the dimension count D is the length of the coordinate vector. The simulator fixes D to `DIMS = 2`.

`update` takes a time step `dt` but never uses it. It never writes `pos`, and it never reads or writes `vel`. The model keeps `dt` as an unused parameter and integrates nothing.

## Model

| member | source | states |
|---|---|---|
| Lattice.FilterIndices | src/simulator.rs:60-68 | returns `Some` exactly when every component is in `[0, SIZE)`; the result is then the same coordinates as unsigned values, same length |
| Lattice.Index | src/simulator.rs:70-77 | `None` exactly when some component is negative or at least SIZE |
| Lattice.Strides | src/simulator.rs:72 | the stride vector has D entries and entry `i` is `SIZE^(D-1-i)`: the last stride is 1 and each stride is SIZE times the next |
| Lattice.IndexIsRowMajor | src/simulator.rs:70-77 | for an in-range coordinate, `index` succeeds with the nested-array offset (`RowMajor`), and that offset is below `SIZE^D` |
| Lattice.StridedSumIsRowMajor | src/simulator.rs:72-73 | the strided sum `sum(c * from_idx(SIZE^(D-1-i)))` equals the row-major offset of `c` |
| Lattice.RowMajorBound | src/simulator.rs:72-73 | an in-range coordinate has offset in `[0, SIZE^D)` |
| Lattice.Deindex | src/simulator.rs:79-88 | `None` exactly when `k < 0` or `k >= SIZE^D`; otherwise D components, component `i` being `(k / SIZE^(D-1-i)) % SIZE` |
| Lattice.DeindexStep | src/simulator.rs:79-88 | deindexing in D+1 digits is deindexing `k / SIZE` in D digits followed by the digit `k % SIZE` |
| Lattice.DeindexIndex | src/simulator.rs:70-88 | round trip: `deindex(index(c)) == Some(c)` for every in-range coordinate |
| Lattice.DeindexRowMajor | src/simulator.rs:79-88 | `deindex` recovers every in-range coordinate from its row-major offset |
| Lattice.IndexDeindex | src/simulator.rs:70-88 | round trip: `index(deindex(k)) == Some(k)` for every `k` in `[0, SIZE^D)` |
| Lattice.RowMajorOfDeindex | src/simulator.rs:79-88 | the digits produced by `deindex` spell `k` back in the row-major layout |
| Lattice.Index2 | src/simulator.rs:70-77 | in two dimensions, `index([i, j]) == Some(i * SIZE + j)` |
| Lattice.Index3 | src/simulator.rs:70-77 | in three dimensions, `index([i, j, l]) == Some((i * SIZE + j) * SIZE + l)` |
| Lattice.IndexRejects | src/simulator.rs:70-77 | a single out-of-range component makes `index` fail |
| Lattice.IndexExamples2 | src/simulator.rs:154-158 | `index::<100,2>([2,10]) == 210`, `index::<10,2>([9,9]) == 99`, `index::<10,2>([0,0]) == 0` |
| Lattice.IndexRejections2 | src/simulator.rs:155-161 | the two-dimensional out-of-range test coordinates give `None` |
| Lattice.IndexExamples3 | src/simulator.rs:163-167 | `index::<100,3>([2,10,5]) == 21005`, `index::<10,3>([9,9,9]) == 999`, `index::<10,3>([0,0,0]) == 0` |
| Lattice.IndexRejections3 | src/simulator.rs:164-170 | the three-dimensional out-of-range test coordinates give `None` |
| Lattice.Deindex2 | src/simulator.rs:79-88 | in two dimensions, `deindex(k) == Some([(k / SIZE) % SIZE, k % SIZE])` |
| Lattice.Deindex3 | src/simulator.rs:79-88 | the three-dimensional closed form of `deindex` |
| Lattice.DeindexExamples | src/simulator.rs:175-185 | every case of `test_deindex`, including `deindex::<5,3>(99) == [3,4,4]` and the `None` cases at `SIZE^D` and `-1` |
| Lattice.Pow | src/simulator.rs:72 | `SIZE.pow(e)` is positive exactly when the base is positive or the exponent is 0 |
| Lib.Stencil | src/lib.rs:9-21 | for every axis `a`, offset `[a][0]` is +1 on axis `a` and 0 elsewhere, and offset `[a][1]` is -1 on axis `a` and 0 elsewhere; the two offsets sum to zero; the loop invariant keeps the rows not yet processed all zero |
| Lib.StencilConstant | src/lib.rs:7-23 | with `DIMS = 2`, `STENCIL` is exactly `[[(1,0), (-1,0)], [(0,1), (0,-1)]]` |
| Simulator.SimulationBuilder.Stiffness | src/simulator.rs:24-27 | sets the stiffness option to the given value and leaves the origin stiffness alone |
| Simulator.SimulationBuilder.OriginStiffness | src/simulator.rs:29-32 | sets the origin stiffness option and leaves the stiffness alone |
| Simulator.SimulationBuilder.FinalStiffness | src/simulator.rs:39 | the recorded stiffness, or 1 when none was set |
| Simulator.SimulationBuilder.FinalOriginStiffness | src/simulator.rs:40 | the recorded origin stiffness, or 1 when none was set |
| Simulator.SimulationBuilder.Finish | src/simulator.rs:34-57 | a fresh, valid simulation of side `size` with the resolved coefficients and four fresh zero-filled grids |
| Simulator.Simulation.Build | src/simulator.rs:91-96 | the builder starts with neither coefficient set |
| Simulator.LastWriteWins | src/simulator.rs:24-32 | after any chain of setter calls, each option holds the value of the last call that set it, or its initial value if there was none |
| Simulator.ChainDefaults | src/simulator.rs:24-40 | a chain started from `build()` finishes with the last value set for each coefficient, or 1 |
| Simulator.ZeroedGrid | src/simulator.rs:42-45 | a fresh `size` x `size` grid of zero vectors |
| Simulator.Simulation.Valid | src/simulator.rs:4-16 | the invariant of the two structs: all four grids are `size` x `size` and no two of them are the same buffer, as four separately owned boxes are |
| Simulator.Simulation.constructor | src/simulator.rs:47-56 | the struct literal: coefficients as given, four fresh distinct zero grids |
| Simulator.InBounds | src/simulator.rs:121-134 | every cell kept is inside the lattice |
| Simulator.InBoundsMembers | src/simulator.rs:121-134 | a cell is kept exactly when it is a candidate and inside the lattice |
| Simulator.NeighboursAreAdjacent | src/simulator.rs:121-134 | the neighbours of (i, j) are exactly the in-lattice cells at Manhattan distance 1 |
| Simulator.NeighbourCount | src/simulator.rs:121-137 | free boundaries, for every lattice size: one neighbour on each side of each axis that is not a border; with more than one cell per side, corners have 2, other edge cells 3 and interior cells 4, and the single cell of a 1 x 1 lattice has 0 |
| Simulator.CouplingIsScaledSum | src/simulator.rs:119-136 | the accumulated coupling term equals `-stiffness` times the sum of the neighbour positions |
| Simulator.ForceClosedForm | src/simulator.rs:117-139 | component `e` of a cell's acceleration is `-origin_stiffness * p[e] - stiffness * (sum of neighbour positions)[e]` |
| Simulator.CouplingOfZeros | src/simulator.rs:135-136 | with every position zero, the coupling term is zero |
| Simulator.CouplingWithoutStiffness | src/simulator.rs:135-136 | with stiffness 0, the coupling term is zero |
| Simulator.RestState | src/simulator.rs:113-139 | an all-zero position grid gives an all-zero acceleration for every cell, whatever the coefficients |
| Simulator.OriginOnly | src/simulator.rs:113-139 | with stiffness 0 and one displaced cell, that cell's acceleration is `-origin_stiffness * p` and every other cell's is zero |
| Simulator.CellAcc | src/simulator.rs:115-139 | the body of the cell loop (origin term, then the stencil offsets through `filter_indices`, accumulated into `coupled_acc`) computes exactly `Force` for cell (i, j) |
| Simulator.CoupleOffset | src/simulator.rs:121-136 | one stencil offset: when the shifted cell passes `filter_indices`, its scaled position is subtracted, advancing the coupling term by one candidate |
| Simulator.Simulation.ComputeAcc | src/simulator.rs:103-142 | afterwards every cell of `tmp_acc` holds its `Force`; only `tmp_acc` is written, and positions, velocities, accelerations and the coefficients are unchanged |
| Simulator.Simulation.Update | src/simulator.rs:98-101 | `acc` becomes the freshly computed field and `tmp_acc` the previous `acc`; `pos`, `vel` and both coefficients are unchanged; the new state does not depend on `dt`; an all-zero `pos` gives an all-zero `acc` |

## Left out

- `src/main.rs` (jemalloc allocator, the `tqdm` loop of 1,000,000 updates): process plumbing with no simulation semantics.
- IEEE floating point and the `Float` trait bounds: positions and coefficients are `real`, so rounding is not modelled. The engine only negates, multiplies and adds, so the structural properties do not depend on it.
- `bytemuck::zeroed_box` and `Box`: each grid is a freshly allocated `array2` filled with zero vectors.
- `std::mem::swap` ownership: the model keeps only the observable exchange of the two buffer references.
- `src/vector.rs` is not shown. `vector.dfy` models only the operations the simulator calls, on `seq`.
- `STENCIL` is a compile-time constant in the source. The model obtains it by calling `Lib.StencilConstant`, which runs the stencil loop, once per cell.
- Lattice.Index: `usize` arithmetic is unbounded, so the model does not capture overflow of `SIZE.pow` or of the strided sum on huge lattices.
- Lattice.Deindex: `isize` arithmetic is unbounded, so the model does not capture overflow of `(SIZE as isize).pow(DIMS)`. The `k as usize` cast is exact on the accepted range.
- Lib.Stencil: the loop's exit with `i == DIMS` is left implicit. Only its effect on the table, through the postconditions, is stated.
- Simulator.CellAcc: the body of the `for j` loop is a method of its own, and its per-offset step is another (`CoupleOffset`). The `STENCIL.map(..).flatten().flatten()` iterator chain becomes two counted loops over the axes and the two signs, in the same order.
