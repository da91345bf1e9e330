# Schnakenberg tau-leaping step, modelled in Dafny

This project models the core of `sim.py`: one tau-leaping time step of the two-species
reaction-diffusion model on a 2-D grid. In the step, A and B molecules are born, A dies,
`2A + B -> 3A` reacts, and both species diffuse to their four orthogonal neighbours.

Each Poisson draw is a grid of non-negative integer counts handed in by the caller. The model
covers the exact integer bookkeeping that turns those draws into changes of the molecule
counts and writes the next time slice of the histories `X_A`, `X_B`.

The project has two modules.

- `Grids` (`grid.dfy`) holds integer grids stored as sequences of rows, with their totals.
  Its main definition is `BlockAdd`, numpy's shifted-slice update
  `g[zr:zr+h, zc:zc+w] += D[dr:dr+h, dc:dc+w]` (and `-=`).
  Its main lemma is that such an update changes the grid total by exactly the total of the block it reads.
- `Sim` (`sim.dfy`) holds the source's operations:
  - `birth`, `die` and `react` are the functions `Birth`, `Die` and `React`.
  - `diffuse` is the method `Diffuse`. It updates a fresh 2-D array in place with eight block updates, and is proved equal to the pure `DiffuseSpec`.
  - `calculate` is the method `Calculate`. It works on two 3-D history arrays, writes only slice `t + 1`, and is proved equal to the pure `NextA`/`NextB`.

Each direction of diffusion cuts its draws to the cells that have a neighbour in that
direction before subtracting them (`D[:-1,:]`, `D[1:,:]`, `D[:,:-1]`, `D[:,1:]`). So an
outward draw at the boundary is neither subtracted nor added, and diffusion loses no
molecules at the edges: `DiffusionConserves` proves that
the diffusion change sums to exactly zero, boundary included, and `OffGridDrawsIgnored`
proves that the outward draws have no effect at all.

numpy's `x[:-1]` and `x[1:]` on an axis of length 0 are both empty. `ButOne` and
`FromSecond` model this, so an empty grid (and a grid of one row or one column) is handled
as the code handles it.

## Model

| member | source | states |
|---|---|---|
| Grids.Zeros | sim.py:76 | the zero grid has the requested shape and every cell is 0 |
| Grids.Add | sim.py:132-133 | element-wise sum of grids of one shape, cell by cell |
| Grids.Scale | sim.py:32 | `k * g` keeps the shape and multiplies every cell by `k` |
| Grids.GridSumAdd | sim.py:132-133 | the total of an element-wise sum is the sum of the totals |
| Grids.GridSumScale | sim.py:32 | scaling every cell by `k` scales the total by `k` |
| Grids.GridSumZeros | sim.py:76 | the zero grid totals 0 |
| Grids.ShiftAdd | sim.py:82-83 | a 1-D slice update keeps the row's length and every cell outside the slice it writes |
| Grids.ShiftAddSum | sim.py:82-83 | a 1-D slice update changes the row total by the total of the slice it reads, negated for `-=` |
| Grids.BlockAdd | sim.py:82-83 | a shifted-slice update `g[zr:zr+h, zc:zc+w] += D[dr:dr+h, dc:dc+w]` (or `-=`) keeps the grid's shape |
| Grids.BlockAddRow | sim.py:82-83 | each row of a block update is the row's 1-D slice update inside the block's rows, and the row itself outside them |
| Grids.BlockAddSum | sim.py:82-83 | a shifted-slice update changes the grid total by exactly the total of the block it reads (negated for `-=`), wherever it writes it |
| Grids.BlockMoveSum | sim.py:80-83 | subtracting a block at one place and adding it at another keeps the grid total, and the second block still fits |
| Sim.Birth | sim.py:3-17 | the birth change has `M`'s shape and equals the draws, so every entry is at least 0 |
| Sim.BirthTotal | sim.py:15-17 | births add exactly the drawn total, which is at least 0 |
| Sim.Die | sim.py:20-34 | the death change has `M`'s shape and is the negation of the draws, so every entry is at most 0 |
| Sim.DeathTotal | sim.py:32-34 | deaths remove exactly the drawn total, which is at least 0 |
| Sim.React | sim.py:37-58 | in every cell the A change is the draw (at least 0) and the B change is its negation (`Z_A == -Z_B`) |
| Sim.ReactConserves | sim.py:52-58 | over the grid, A gains exactly what B loses by reaction |
| Sim.PairCount | sim.py:49 | `M_A * (M_A - 1)` is never negative, and is 0 exactly when `M_A` is 0 or 1 |
| Sim.ReactPropensity | sim.py:49-52 | the integer factor of the reaction mean is negative exactly when `M_B < 0` and `M_A` is neither 0 nor 1, and zero exactly when `M_B == 0` or `M_A` is 0 or 1 |
| Sim.ButOne | sim.py:81-100 | the length of `x[:-1]` on an axis of length `k` is Python's slice length for `[0:-1]` and also for `[1:k]` |
| Sim.FromSecond | sim.py:81-100 | the start of `x[1:]` is Python's clipped bound `1`, and that slice runs exactly to the end of the axis |
| Sim.Move | sim.py:78-102 | one direction's two slice updates keep the grid's shape |
| Sim.MoveAt | sim.py:78-102 | after one direction's updates, each cell has lost what it sends (only if it has a neighbour that way) and gained what the neighbour behind it sends |
| Sim.MoveConserves | sim.py:78-102 | one direction's updates keep the grid total |
| Sim.DiffuseSpec | sim.py:61-104 | the diffusion change has the grid's shape |
| Sim.DiffusionFlow | sim.py:61-104 | each cell's diffusion change is its inflow from in-grid neighbours minus its outflow to in-grid neighbours |
| Sim.DiffusionConserves | sim.py:76-104 | the diffusion change sums to exactly zero over the whole grid, boundary included |
| Sim.OffGridDrawsIgnored | sim.py:80-101 | two sets of draws that agree on every draw pointing at an in-grid neighbour give the same diffusion change |
| Sim.AddBlock | sim.py:82-102 | the in-place slice update leaves the array holding `BlockAdd` of what it held |
| Sim.Diffuse | sim.py:61-104 | the array returned holds exactly `DiffuseSpec` of the draws |
| Sim.NextA | sim.py:132 | the next A grid (`X_A[t]` plus its birth, death, reaction and diffusion changes) has the grid's shape |
| Sim.NextB | sim.py:133 | the next B grid (`X_B[t]` plus its birth, reaction and diffusion changes) has the grid's shape |
| Sim.StepCell | sim.py:113-133 | per cell, next A is `A + birth_A - death_A + react + inflow - outflow`, and next B is `B + birth_B - react + inflow - outflow`, with no death term for B |
| Sim.NextATotal | sim.py:132 | the A total changes by its births, deaths and reactions only |
| Sim.NextBTotal | sim.py:133 | the B total changes by its births and reactions only |
| Sim.StepTotal | sim.py:132-133 | the grid-wide A + B total changes by exactly the A births plus the B births plus the (non-positive) A death change |
| Sim.DiffusionOnlyStep | sim.py:113-133 | with no birth, death or reaction events each species keeps its total exactly |
| Sim.Slice | sim.py:114 | `X[t]` is the `t`-th (row, column) slice of the history, cell by cell |
| Sim.SetSlice | sim.py:132 | `X[t] = g` makes slice `t` equal to `g` and keeps every other slice |
| Sim.SetSlices | sim.py:132-133 | the two slice assignments write slice `t` of both histories and keep every other slice |
| Sim.StepGrids | sim.py:113-133 | the two right-hand sides, computed through `Diffuse`'s arrays, equal `NextA` and `NextB` |
| Sim.Calculate | sim.py:107-133 | with `t + 1` in range, slice `t + 1` of `X_A`/`X_B` becomes `NextA`/`NextB` of slice `t`, and every other slice is kept; otherwise the call fails and writes nothing |

## Left out

- Poisson sampling is left out: every draw is an input grid of non-negative integers. The rates `mu`, `beta`, `alpha`, `kappa`, `d_A`, `d_B` and `tau` only enter through these means, so they are not parameters of the model.
- The floating-point means `tau * c * M` are left out. Only the integer reaction factor `M_A * (M_A - 1) * M_B` is modelled (`PairCount`, `ReactPropensity`).
- numpy's `ValueError` for a negative Poisson mean is left out. Counts can go negative through deaths, diffusion outflow or reactions, since none is clamped at zero. The death, reaction and diffusion means then become negative for a positive rate, where numpy raises `ValueError`; the birth mean `tau * c` never depends on counts. `ReactPropensity` states exactly when the integer factor of the reaction mean is negative.
- The element types of `X_A` and `Z` are left out. The histories hold unbounded integers, and numpy's float `Z` from `np.zeros` is modelled as integers; its values are whole numbers well within float precision for the counts involved.
- Negative (from-the-end) Python indices for `t` are left out: `t` is a natural number.
- Calculate: requires `X_A` and `X_B` to be distinct arrays of one shape. The source does not check this; with aliased histories its second assignment would overwrite the first.
- Calculate: reports a `t + 1` past the end of the histories by returning false, where the source raises `IndexError`; in both cases nothing is written.
- The pure `DiffuseSpec` and `NextA`/`NextB` carry only their shape in their own contracts; what they compute is stated by `MoveAt`, `DiffusionFlow`, `StepCell` and the total lemmas.
- `initialize_picture` and `calculate_picture`, which `stochastic_workflow.py` calls, are not defined in `sim.py`; they are not part of this model.
- The drivers, the ODE and finite-difference solvers and the plotting scripts (`main_sim.py`, `spatial_main.py`, `spatial_main_2d.py`, `stochastic_workflow.py`, `ode_simulator.py`, `coupled_ODES.py`, `fd_main.py`) are not part of this model.
