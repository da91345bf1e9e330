/** One tau-leaping step of the two-species reaction-diffusion model on a 2-D grid:
    A and B molecules are born, A dies, 2A + B -> 3A reacts, and both species
    diffuse to the four orthogonal neighbours.

    Every Poisson draw is handed in by the caller as a grid of non-negative counts
    (`Draws`); what is modelled is the exact integer bookkeeping that turns those
    draws into changes of the molecule counts. */
module Sim {
  import opened Grids

  // ---------------------------------------------------------------------------
  // Birth, death and reaction events

  /** Change by birth: the births drawn for each cell of `M`, which are never negative. */
  function Birth(M: Grid, P: Draws): (z: Grid)
    requires Conform(P, M)
    ensures Conform(z, M)
    ensures forall i, j :: 0 <= i < |z| && 0 <= j < |z[i]| ==> z[i][j] == P[i][j] && z[i][j] >= 0
  {
    P
  }

  /** Change by death: minus the deaths drawn for each cell of `M`, so never positive. */
  function Die(M: Grid, P: Draws): (z: Grid)
    requires Conform(P, M)
    ensures Conform(z, M)
    ensures forall i, j :: 0 <= i < |z| && 0 <= j < |z[i]| ==> z[i][j] == -(P[i][j] as int) && z[i][j] <= 0
  {
    Scale(-1, P)
  }

  /** Change by the reaction 2A + B -> 3A: each reaction drawn for a cell adds one A and
      removes one B there, so A never loses and the cell's A + B count is kept. */
  function React(MA: Grid, MB: Grid, P: Draws): (r: (Grid, Grid))
    requires Conform(MB, MA) && Conform(P, MA)
    ensures Conform(r.0, MA) && Conform(r.1, MA)
    ensures forall i, j :: 0 <= i < |MA| && 0 <= j < |MA[i]| ==>
      r.0[i][j] == P[i][j] >= 0 && r.0[i][j] + r.1[i][j] == 0
  {
    (Scale(1, P), Scale(-1, P))
  }

  /** Births only ever add molecules to the grid. */
  lemma BirthTotal(M: Grid, P: Draws)
    requires Conform(P, M)
    ensures GridSum(Birth(M, P)) == GridSum(P) >= 0
  {
    GridSumNonNegative(P);
  }

  /** Deaths remove exactly the drawn number of molecules from the grid. */
  lemma DeathTotal(M: Grid, P: Draws)
    requires Conform(P, M)
    ensures GridSum(Die(M, P)) == -GridSum(P) <= 0
  {
    GridSumScale(-1, P);
    GridSumNonNegative(P);
  }

  /** Over the whole grid, A gains exactly what B loses by reaction. */
  lemma ReactConserves(MA: Grid, MB: Grid, P: Draws)
    requires Conform(MB, MA) && Conform(P, MA)
    ensures GridSum(React(MA, MB, P).0) == GridSum(P) >= 0
    ensures GridSum(React(MA, MB, P).0) + GridSum(React(MA, MB, P).1) == 0
  {
    GridSumScale(1, P);
    GridSumScale(-1, P);
    GridSumNonNegative(P);
  }

  // ---------------------------------------------------------------------------
  // Reaction propensity (without the rate constant and tau)

  /** `M_A * (M_A - 1)`: the number of ordered pairs of A molecules in a cell. It is never
      negative, and it vanishes exactly for zero or one A molecule. */
  function PairCount(a: int): (p: int)
    ensures p >= 0
    ensures p == 0 <==> a == 0 || a == 1
  {
    a * (a - 1)
  }

  /** The integer part `M_A * (M_A - 1) * M_B` of the reaction propensity of a cell. It is
      negative exactly when the cell has a negative B count and an A count other than 0 or 1,
      and zero exactly when the B count is zero or the A count is 0 or 1. */
  function ReactPropensity(a: int, b: int): (r: int)
    ensures r < 0 <==> b < 0 && a != 0 && a != 1
    ensures r == 0 <==> b == 0 || a == 0 || a == 1
  {
    PairCount(a) * b
  }

  // ---------------------------------------------------------------------------
  // Diffusion

  /** The four directions of diffusion, in the order the source takes its draws. */
  datatype Direction = Down | Up | Right | Left

  /** The four independent per-cell draws of one diffusion step: the molecules each cell
      sends down (one row on), up (one row back), right (one column on) and left. */
  datatype DiffusionDraws = DiffusionDraws(down: Draws, up: Draws, right: Draws, left: Draws)

  predicate DiffusionFits(ds: DiffusionDraws, m: nat, n: nat) {
    IsGrid(ds.down, m, n) && IsGrid(ds.up, m, n) && IsGrid(ds.right, m, n) && IsGrid(ds.left, m, n)
  }

  /** Python's reading of a slice bound `x` on an axis of length `k`: a negative bound counts
      from the end, and the result is clipped to `0 .. k`. */
  function SliceBound(x: int, k: nat): nat {
    if x < 0 then (if x + k < 0 then 0 else x + k) else (if x > k then k else x)
  }

  /** Length of Python's `x[start:stop]` on an axis of length `k`. */
  function SliceLength(start: int, stop: int, k: nat): nat {
    var a, b := SliceBound(start, k), SliceBound(stop, k);
    if a < b then b - a else 0
  }

  /** Length of numpy's `x[:-1]` and of `x[1:]` on an axis of length `k`. */
  function ButOne(k: nat): (r: nat)
    ensures r == SliceLength(0, -1, k) && r == SliceLength(1, k, k)
  {
    if k == 0 then 0 else k - 1
  }

  /** Where numpy's `x[1:]` starts on an axis of length `k`; that slice runs to the end. */
  function FromSecond(k: nat): (r: nat)
    ensures r == SliceBound(1, k) && r + ButOne(k) == k
  {
    if k == 0 then 0 else 1
  }

  /** Cell (i, j) of an `m` by `n` grid has a neighbour in direction `dir`. */
  predicate HasNeighbour(dir: Direction, m: nat, n: nat, i: nat, j: nat) {
    match dir
    case Down => i + 1 < m
    case Up => 0 < i
    case Right => j + 1 < n
    case Left => 0 < j
  }

  /** What cell (i, j) sends in direction `dir`: its draw, when it has a neighbour there. */
  function Sent(D: Draws, dir: Direction, m: nat, n: nat, i: nat, j: nat): int
    requires IsGrid(D, m, n) && i < m && j < n
  {
    if HasNeighbour(dir, m, n, i, j) then D[i][j] else 0
  }

  /** What cell (i, j) receives moving in direction `dir`: the draw of the neighbour behind it. */
  function Received(D: Draws, dir: Direction, m: nat, n: nat, i: nat, j: nat): int
    requires IsGrid(D, m, n) && i < m && j < n
  {
    match dir
    case Down => if 0 < i then D[i - 1][j] else 0
    case Up => if i + 1 < m then D[i + 1][j] else 0
    case Right => if 0 < j then D[i][j - 1] else 0
    case Left => if j + 1 < n then D[i][j + 1] else 0
  }

  /** The two shifted-slice updates of one direction. The draws are first cut to the cells
      that have a neighbour in that direction; that block is subtracted where it was drawn
      and added one cell on. */
  function Move(z: Grid, D: Draws, dir: Direction, m: nat, n: nat): (r: Grid)
    requires IsGrid(z, m, n) && IsGrid(D, m, n)
    ensures IsGrid(r, m, n)
  {
    var h, w, r1, c1 := ButOne(m), ButOne(n), FromSecond(m), FromSecond(n);
    match dir
    case Down => BlockAdd(BlockAdd(z, D, true, 0, 0, 0, 0, h, n), D, false, r1, 0, 0, 0, h, n)
    case Up => BlockAdd(BlockAdd(z, D, true, r1, 0, r1, 0, h, n), D, false, 0, 0, r1, 0, h, n)
    case Right => BlockAdd(BlockAdd(z, D, true, 0, 0, 0, 0, m, w), D, false, 0, c1, 0, 0, m, w)
    case Left => BlockAdd(BlockAdd(z, D, true, 0, c1, 0, c1, m, w), D, false, 0, 0, 0, c1, m, w)
  }

  /** After one direction's updates a cell has lost what it sent and gained what it received. */
  lemma MoveAt(z: Grid, D: Draws, dir: Direction, m: nat, n: nat, i: nat, j: nat)
    requires IsGrid(z, m, n) && IsGrid(D, m, n) && i < m && j < n
    ensures Move(z, D, dir, m, n)[i][j] == z[i][j] - Sent(D, dir, m, n, i, j) + Received(D, dir, m, n, i, j)
  {
    match dir
    case Down =>
    case Up =>
    case Right =>
    case Left =>
  }

  /** One direction's updates subtract and add the same block, so they keep the grid total. */
  lemma MoveConserves(z: Grid, D: Draws, dir: Direction, m: nat, n: nat)
    requires IsGrid(z, m, n) && IsGrid(D, m, n)
    ensures GridSum(Move(z, D, dir, m, n)) == GridSum(z)
  {
    var h, w, r1, c1 := ButOne(m), ButOne(n), FromSecond(m), FromSecond(n);
    match dir
    case Down => BlockMoveSum(z, D, 0, 0, r1, 0, 0, 0, h, n);
    case Up => BlockMoveSum(z, D, r1, 0, 0, 0, r1, 0, h, n);
    case Right => BlockMoveSum(z, D, 0, 0, 0, c1, 0, 0, m, w);
    case Left => BlockMoveSum(z, D, 0, c1, 0, 0, 0, c1, m, w);
  }

  /** The diffusion change of an `m` by `n` grid: zeros, then the down, up, right and left
      updates in the source's order. */
  function DiffuseSpec(ds: DiffusionDraws, m: nat, n: nat): (z: Grid)
    requires DiffusionFits(ds, m, n)
    ensures IsGrid(z, m, n)
  {
    Move(Move(Move(Move(Zeros(m, n), ds.down, Down, m, n), ds.up, Up, m, n), ds.right, Right, m, n),
         ds.left, Left, m, n)
  }

  /** What cell (i, j) sends to its neighbours: only the directions in which it has one. */
  function Outflow(ds: DiffusionDraws, m: nat, n: nat, i: nat, j: nat): int
    requires DiffusionFits(ds, m, n) && i < m && j < n
  {
    (if i + 1 < m then ds.down[i][j] else 0) + (if 0 < i then ds.up[i][j] else 0) +
    (if j + 1 < n then ds.right[i][j] else 0) + (if 0 < j then ds.left[i][j] else 0)
  }

  /** What cell (i, j) receives: the draw of each neighbour in the direction of (i, j). */
  function Inflow(ds: DiffusionDraws, m: nat, n: nat, i: nat, j: nat): int
    requires DiffusionFits(ds, m, n) && i < m && j < n
  {
    (if 0 < i then ds.down[i - 1][j] else 0) + (if i + 1 < m then ds.up[i + 1][j] else 0) +
    (if 0 < j then ds.right[i][j - 1] else 0) + (if j + 1 < n then ds.left[i][j + 1] else 0)
  }

  /** Each cell's diffusion change is what its neighbours send it minus what it sends them;
      a boundary cell never sends anything in the direction that leaves the grid. */
  lemma DiffusionFlow(ds: DiffusionDraws, m: nat, n: nat, i: nat, j: nat)
    requires DiffusionFits(ds, m, n) && i < m && j < n
    ensures DiffuseSpec(ds, m, n)[i][j] == Inflow(ds, m, n, i, j) - Outflow(ds, m, n, i, j)
  {
    var z1 := Move(Zeros(m, n), ds.down, Down, m, n);
    var z2 := Move(z1, ds.up, Up, m, n);
    var z3 := Move(z2, ds.right, Right, m, n);
    MoveAt(Zeros(m, n), ds.down, Down, m, n, i, j);
    MoveAt(z1, ds.up, Up, m, n, i, j);
    MoveAt(z2, ds.right, Right, m, n, i, j);
    MoveAt(z3, ds.left, Left, m, n, i, j);
  }

  /** Diffusion moves molecules but never creates or loses any: the change sums to zero
      over the whole grid, boundary included. */
  lemma DiffusionConserves(ds: DiffusionDraws, m: nat, n: nat)
    requires DiffusionFits(ds, m, n)
    ensures GridSum(DiffuseSpec(ds, m, n)) == 0
  {
    var z1 := Move(Zeros(m, n), ds.down, Down, m, n);
    var z2 := Move(z1, ds.up, Up, m, n);
    var z3 := Move(z2, ds.right, Right, m, n);
    GridSumZeros(m, n);
    MoveConserves(Zeros(m, n), ds.down, Down, m, n);
    MoveConserves(z1, ds.up, Up, m, n);
    MoveConserves(z2, ds.right, Right, m, n);
    MoveConserves(z3, ds.left, Left, m, n);
  }

  /** `ds` and `ds'` agree on every draw that points at a neighbour inside the grid. */
  predicate AgreeOnGrid(ds: DiffusionDraws, ds': DiffusionDraws, m: nat, n: nat)
    requires DiffusionFits(ds, m, n) && DiffusionFits(ds', m, n)
  {
    forall i, j :: 0 <= i < m && 0 <= j < n ==>
      (i + 1 < m ==> ds.down[i][j] == ds'.down[i][j]) && (0 < i ==> ds.up[i][j] == ds'.up[i][j]) &&
      (j + 1 < n ==> ds.right[i][j] == ds'.right[i][j]) && (0 < j ==> ds.left[i][j] == ds'.left[i][j])
  }

  /** Draws pointing off the grid (down from the last row, up from the first, right from the
      last column, left from the first) have no effect on any cell. */
  lemma OffGridDrawsIgnored(ds: DiffusionDraws, ds': DiffusionDraws, m: nat, n: nat)
    requires DiffusionFits(ds, m, n) && DiffusionFits(ds', m, n)
    requires AgreeOnGrid(ds, ds', m, n)
    ensures DiffuseSpec(ds, m, n) == DiffuseSpec(ds', m, n)
  {
    var z, z' := DiffuseSpec(ds, m, n), DiffuseSpec(ds', m, n);
    forall i | 0 <= i < m ensures z[i] == z'[i] {
      forall j | 0 <= j < n ensures z[i][j] == z'[i][j] {
        DiffusionFlow(ds, m, n, i, j);
        DiffusionFlow(ds', m, n, i, j);
      }
    }
  }

  /** `Z` holds exactly the grid `g`. */
  ghost predicate Stores(Z: array2<int>, g: Grid)
    reads Z
  {
    IsGrid(g, Z.Length0, Z.Length1) &&
    forall i, j :: 0 <= i < Z.Length0 && 0 <= j < Z.Length1 ==> Z[i, j] == g[i][j]
  }

  /** The in-place update `Z[zr:zr+h, zc:zc+w] += D[dr:dr+h, dc:dc+w]` (`-=` when `sub`). */
  method AddBlock(Z: array2<int>, ghost g: Grid, D: Draws, sub: bool, zr: nat, zc: nat, dr: nat, dc: nat, h: nat, w: nat)
    returns (ghost g': Grid)
    requires Stores(Z, g)
    requires zr + h <= Z.Length0 && zc + w <= Z.Length1 && BlockFits(D, dr, dc, h, w)
    modifies Z
    ensures g' == BlockAdd(g, D, sub, zr, zc, dr, dc, h, w)
    ensures Stores(Z, g')
  {
    var a := 0;
    while a < h
      invariant 0 <= a <= h
      invariant forall i, j :: 0 <= i < Z.Length0 && 0 <= j < Z.Length1 ==>
        Z[i, j] == g[i][j] + if InBlock(i, j, zr, zc, a, w) then Signed(sub, D[i - zr + dr][j - zc + dc]) else 0
    {
      var b := 0;
      while b < w
        invariant 0 <= b <= w
        invariant forall i, j :: 0 <= i < Z.Length0 && 0 <= j < Z.Length1 ==>
          Z[i, j] == g[i][j] + if InBlock(i, j, zr, zc, a, w) || InBlock(i, j, zr + a, zc, 1, b)
            then Signed(sub, D[i - zr + dr][j - zc + dc]) else 0
      {
        Z[zr + a, zc + b] := Z[zr + a, zc + b] + Signed(sub, D[dr + a][dc + b]);
        b := b + 1;
      }
      a := a + 1;
    }
    g' := BlockAdd(g, D, sub, zr, zc, dr, dc, h, w);
  }

  /** The diffusion change of grid `M` of shape (`m`, `n`): a fresh zero array updated in place
      by the eight shifted-slice updates, equal cell by cell to `DiffuseSpec`. (The shape is
      passed with `M` because a grid without rows does not record its column count.) */
  method Diffuse(M: Grid, m: nat, n: nat, ds: DiffusionDraws) returns (Z: array2<int>)
    requires IsGrid(M, m, n) && DiffusionFits(ds, m, n)
    ensures Stores(Z, DiffuseSpec(ds, m, n))
  {
    var h, w, r1, c1 := ButOne(m), ButOne(n), FromSecond(m), FromSecond(n);
    Z := new int[m, n]((i, j) => 0);
    ghost var z := Zeros(m, n);
    // 1. down: Ds[0] without its last row
    z := AddBlock(Z, z, ds.down, true, 0, 0, 0, 0, h, n);
    z := AddBlock(Z, z, ds.down, false, r1, 0, 0, 0, h, n);
    assert z == Move(Zeros(m, n), ds.down, Down, m, n);
    // 2. up: Ds[1] without its first row
    ghost var z1 := z;
    z := AddBlock(Z, z, ds.up, true, r1, 0, r1, 0, h, n);
    z := AddBlock(Z, z, ds.up, false, 0, 0, r1, 0, h, n);
    assert z == Move(z1, ds.up, Up, m, n);
    // 3. right: Ds[2] without its last column
    ghost var z2 := z;
    z := AddBlock(Z, z, ds.right, true, 0, 0, 0, 0, m, w);
    z := AddBlock(Z, z, ds.right, false, 0, c1, 0, 0, m, w);
    assert z == Move(z2, ds.right, Right, m, n);
    // 4. left: Ds[3] without its first column
    ghost var z3 := z;
    z := AddBlock(Z, z, ds.left, true, 0, c1, 0, c1, m, w);
    z := AddBlock(Z, z, ds.left, false, 0, 0, 0, c1, m, w);
    assert z == Move(z3, ds.left, Left, m, n);
  }

  // ---------------------------------------------------------------------------
  // One time step

  /** All draws of one step: births of A and B, deaths of A, reactions, and the two species'
      diffusion draws. */
  datatype StepDraws = StepDraws(
    birthA: Draws, birthB: Draws, deathA: Draws, react: Draws,
    diffuseA: DiffusionDraws, diffuseB: DiffusionDraws)

  predicate StepFits(dr: StepDraws, m: nat, n: nat) {
    IsGrid(dr.birthA, m, n) && IsGrid(dr.birthB, m, n) && IsGrid(dr.deathA, m, n) &&
    IsGrid(dr.react, m, n) && DiffusionFits(dr.diffuseA, m, n) && DiffusionFits(dr.diffuseB, m, n)
  }

  /** `A` and `B` are co-indexed `m` by `n` grids, and the draws fit them. */
  predicate StepReady(A: Grid, B: Grid, dr: StepDraws, m: nat, n: nat) {
    IsGrid(A, m, n) && IsGrid(B, m, n) && StepFits(dr, m, n)
  }

  /** Next A grid: A + birth + death + reaction + diffusion, added in that order. */
  function NextA(A: Grid, B: Grid, dr: StepDraws, m: nat, n: nat): (a: Grid)
    requires StepReady(A, B, dr, m, n)
    ensures IsGrid(a, m, n)
  {
    Add(Add(Add(Add(A, Birth(A, dr.birthA)), Die(A, dr.deathA)), React(A, B, dr.react).0),
        DiffuseSpec(dr.diffuseA, m, n))
  }

  /** Next B grid: B + birth + reaction + diffusion; B has no death term. */
  function NextB(A: Grid, B: Grid, dr: StepDraws, m: nat, n: nat): (b: Grid)
    requires StepReady(A, B, dr, m, n)
    ensures IsGrid(b, m, n)
  {
    Add(Add(Add(B, Birth(B, dr.birthB)), React(A, B, dr.react).1), DiffuseSpec(dr.diffuseB, m, n))
  }

  /** Cell by cell, a step adds the births, subtracts the deaths (A only), moves one molecule
      from B to A per reaction, and adds what neighbours send minus what the cell sends. */
  lemma StepCell(A: Grid, B: Grid, dr: StepDraws, m: nat, n: nat, i: nat, j: nat)
    requires StepReady(A, B, dr, m, n) && i < m && j < n
    ensures NextA(A, B, dr, m, n)[i][j] ==
      A[i][j] + dr.birthA[i][j] - dr.deathA[i][j] + dr.react[i][j] +
      Inflow(dr.diffuseA, m, n, i, j) - Outflow(dr.diffuseA, m, n, i, j)
    ensures NextB(A, B, dr, m, n)[i][j] ==
      B[i][j] + dr.birthB[i][j] - dr.react[i][j] +
      Inflow(dr.diffuseB, m, n, i, j) - Outflow(dr.diffuseB, m, n, i, j)
  {
    DiffusionFlow(dr.diffuseA, m, n, i, j);
    DiffusionFlow(dr.diffuseB, m, n, i, j);
  }

  /** A step changes the A total by its births, deaths and reactions only: diffusion
      contributes nothing. */
  lemma NextATotal(A: Grid, B: Grid, dr: StepDraws, m: nat, n: nat)
    requires StepReady(A, B, dr, m, n)
    ensures GridSum(NextA(A, B, dr, m, n)) ==
      GridSum(A) + GridSum(Birth(A, dr.birthA)) + GridSum(Die(A, dr.deathA)) + GridSum(React(A, B, dr.react).0)
  {
    var a1 := Add(A, Birth(A, dr.birthA));
    var a2 := Add(a1, Die(A, dr.deathA));
    var a3 := Add(a2, React(A, B, dr.react).0);
    GridSumAdd(A, Birth(A, dr.birthA));
    GridSumAdd(a1, Die(A, dr.deathA));
    GridSumAdd(a2, React(A, B, dr.react).0);
    GridSumAdd(a3, DiffuseSpec(dr.diffuseA, m, n));
    DiffusionConserves(dr.diffuseA, m, n);
  }

  /** A step changes the B total by its births and reactions only: diffusion contributes
      nothing, and B has no death term. */
  lemma NextBTotal(A: Grid, B: Grid, dr: StepDraws, m: nat, n: nat)
    requires StepReady(A, B, dr, m, n)
    ensures GridSum(NextB(A, B, dr, m, n)) ==
      GridSum(B) + GridSum(Birth(B, dr.birthB)) + GridSum(React(A, B, dr.react).1)
  {
    var b1 := Add(B, Birth(B, dr.birthB));
    var b2 := Add(b1, React(A, B, dr.react).1);
    GridSumAdd(B, Birth(B, dr.birthB));
    GridSumAdd(b1, React(A, B, dr.react).1);
    GridSumAdd(b2, DiffuseSpec(dr.diffuseB, m, n));
    DiffusionConserves(dr.diffuseB, m, n);
  }

  /** Over both species, a step changes the molecule total by exactly the births of A and B
      plus the (non-positive) death change of A: reactions and diffusion cancel. */
  lemma StepTotal(A: Grid, B: Grid, dr: StepDraws, m: nat, n: nat)
    requires StepReady(A, B, dr, m, n)
    ensures GridSum(NextA(A, B, dr, m, n)) + GridSum(NextB(A, B, dr, m, n)) ==
      GridSum(A) + GridSum(B) + GridSum(Birth(A, dr.birthA)) + GridSum(Birth(B, dr.birthB)) + GridSum(Die(A, dr.deathA))
  {
    NextATotal(A, B, dr, m, n);
    NextBTotal(A, B, dr, m, n);
    ReactConserves(A, B, dr.react);
  }

  /** With no birth, death or reaction events, each species keeps its total exactly. */
  lemma DiffusionOnlyStep(A: Grid, B: Grid, dr: StepDraws, m: nat, n: nat)
    requires StepReady(A, B, dr, m, n)
    requires forall i, j :: 0 <= i < m && 0 <= j < n ==>
      dr.birthA[i][j] == 0 && dr.birthB[i][j] == 0 && dr.deathA[i][j] == 0 && dr.react[i][j] == 0
    ensures GridSum(NextA(A, B, dr, m, n)) == GridSum(A)
    ensures GridSum(NextB(A, B, dr, m, n)) == GridSum(B)
  {
    NextATotal(A, B, dr, m, n);
    NextBTotal(A, B, dr, m, n);
    BirthTotal(A, dr.birthA);
    BirthTotal(B, dr.birthB);
    DeathTotal(A, dr.deathA);
    ReactConserves(A, B, dr.react);
    GridSumOfZeros(dr.birthA);
    GridSumOfZeros(dr.birthB);
    GridSumOfZeros(dr.deathA);
    GridSumOfZeros(dr.react);
  }

  // ---------------------------------------------------------------------------
  // Time histories

  /** Time slice `t` of a (time, row, column) history array. */
  function Slice(X: array3<int>, t: nat): (g: Grid)
    requires t < X.Length0
    reads X
    ensures IsGrid(g, X.Length1, X.Length2)
    ensures forall i, j :: 0 <= i < X.Length1 && 0 <= j < X.Length2 ==> g[i][j] == X[t, i, j]
  {
    seq(X.Length1, i requires 0 <= i < X.Length1 reads X =>
      seq(X.Length2, j requires 0 <= j < X.Length2 reads X => X[t, i, j]))
  }

  /** The cells of a 2-D array, as a grid. */
  function Contents(Z: array2<int>): (g: Grid)
    reads Z
    ensures IsGrid(g, Z.Length0, Z.Length1)
    ensures forall i, j :: 0 <= i < Z.Length0 && 0 <= j < Z.Length1 ==> g[i][j] == Z[i, j]
  {
    seq(Z.Length0, i requires 0 <= i < Z.Length0 reads Z =>
      seq(Z.Length1, j requires 0 <= j < Z.Length1 reads Z => Z[i, j]))
  }

  lemma ContentsStored(Z: array2<int>, g: Grid)
    requires Stores(Z, g)
    ensures Contents(Z) == g
  {
    var c := Contents(Z);
    forall i | 0 <= i < Z.Length0 ensures c[i] == g[i] {
      assert |c[i]| == |g[i]|;
    }
  }

  /** numpy's `X[t] = g`: slice `t` of `X` becomes `g`, and every other slice is kept. */
  method SetSlice(X: array3<int>, t: nat, g: Grid)
    requires t < X.Length0 && IsGrid(g, X.Length1, X.Length2)
    modifies X
    ensures forall s, i, j :: 0 <= s < X.Length0 && 0 <= i < X.Length1 && 0 <= j < X.Length2 ==>
      X[s, i, j] == if s == t then g[i][j] else old(X[s, i, j])
    ensures Slice(X, t) == g
  {
    var i := 0;
    while i < X.Length1
      invariant 0 <= i <= X.Length1
      invariant forall s, i', j :: 0 <= s < X.Length0 && 0 <= i' < X.Length1 && 0 <= j < X.Length2 ==>
        X[s, i', j] == if s == t && i' < i then g[i'][j] else old(X[s, i', j])
    {
      var j := 0;
      while j < X.Length2
        invariant 0 <= j <= X.Length2
        invariant forall s, i', j' :: 0 <= s < X.Length0 && 0 <= i' < X.Length1 && 0 <= j' < X.Length2 ==>
          X[s, i', j'] == if s == t && (i' < i || (i' == i && j' < j)) then g[i'][j'] else old(X[s, i', j'])
      {
        X[t, i, j] := g[i][j];
        j := j + 1;
      }
      i := i + 1;
    }
    SliceOf(X, t, g);
  }

  /** `X_A[t] = a` and `X_B[t] = b` on two distinct histories of the same shape. */
  method SetSlices(XA: array3<int>, XB: array3<int>, t: nat, a: Grid, b: Grid)
    requires XA != XB
    requires XB.Length0 == XA.Length0 && XB.Length1 == XA.Length1 && XB.Length2 == XA.Length2
    requires t < XA.Length0 && IsGrid(a, XA.Length1, XA.Length2) && IsGrid(b, XA.Length1, XA.Length2)
    modifies XA, XB
    ensures Slice(XA, t) == a && Slice(XB, t) == b
    ensures forall s, i, j :: 0 <= s < XA.Length0 && s != t && 0 <= i < XA.Length1 && 0 <= j < XA.Length2 ==>
      XA[s, i, j] == old(XA[s, i, j]) && XB[s, i, j] == old(XB[s, i, j])
  {
    SetSlice(XA, t, a);
    SetSlice(XB, t, b);
  }

  /** The right-hand sides of the two updates of a step, evaluated as the source does: the
      event changes from the draws, the diffusion changes in fresh arrays, then the sums. */
  method StepGrids(A: Grid, B: Grid, m: nat, n: nat, dr: StepDraws) returns (nextA: Grid, nextB: Grid)
    requires StepReady(A, B, dr, m, n)
    ensures nextA == NextA(A, B, dr, m, n) && nextB == NextB(A, B, dr, m, n)
  {
    var birthA := Birth(A, dr.birthA);
    var birthB := Birth(B, dr.birthB);
    var deathA := Die(A, dr.deathA);
    var react := React(A, B, dr.react);
    var diffA := Diffuse(A, m, n, dr.diffuseA);
    var diffB := Diffuse(B, m, n, dr.diffuseB);
    ContentsStored(diffA, DiffuseSpec(dr.diffuseA, m, n));
    ContentsStored(diffB, DiffuseSpec(dr.diffuseB, m, n));
    nextA := Add(Add(Add(Add(A, birthA), deathA), react.0), Contents(diffA));
    nextB := Add(Add(Add(B, birthB), react.1), Contents(diffB));
  }

  /** One step on the time histories `XA`, `XB`: slice `t + 1` is computed from slice `t` and
      the step's draws; every other slice, `t` included, is kept. When `t + 1` is not a slice
      of the histories the step fails (returns false) and writes nothing. */
  method Calculate(XA: array3<int>, XB: array3<int>, t: nat, dr: StepDraws) returns (ok: bool)
    requires XA != XB
    requires XB.Length0 == XA.Length0 && XB.Length1 == XA.Length1 && XB.Length2 == XA.Length2
    requires StepFits(dr, XA.Length1, XA.Length2)
    modifies XA, XB
    ensures ok <==> t + 1 < XA.Length0
    ensures ok ==> StepReady(old(Slice(XA, t)), old(Slice(XB, t)), dr, XA.Length1, XA.Length2)
    ensures ok ==> Slice(XA, t + 1) == NextA(old(Slice(XA, t)), old(Slice(XB, t)), dr, XA.Length1, XA.Length2)
    ensures ok ==> Slice(XB, t + 1) == NextB(old(Slice(XA, t)), old(Slice(XB, t)), dr, XA.Length1, XA.Length2)
    ensures forall s, i, j :: 0 <= s < XA.Length0 && s != t + 1 && 0 <= i < XA.Length1 && 0 <= j < XA.Length2 ==>
      XA[s, i, j] == old(XA[s, i, j]) && XB[s, i, j] == old(XB[s, i, j])
  {
    if t + 1 >= XA.Length0 {
      return false;
    }
    var m, n := XA.Length1, XA.Length2;
    var A, B := Slice(XA, t), Slice(XB, t);
    var nextA, nextB := StepGrids(A, B, m, n, dr);
    SetSlices(XA, XB, t + 1, nextA, nextB);
    assert A == old(Slice(XA, t)) && B == old(Slice(XB, t));
    return true;
  }

  lemma SliceOf(X: array3<int>, t: nat, g: Grid)
    requires t < X.Length0 && IsGrid(g, X.Length1, X.Length2)
    requires forall i, j :: 0 <= i < X.Length1 && 0 <= j < X.Length2 ==> X[t, i, j] == g[i][j]
    ensures Slice(X, t) == g
  {
    var c := Slice(X, t);
    forall i | 0 <= i < X.Length1 ensures c[i] == g[i] {
      assert |c[i]| == |g[i]|;
    }
  }
}
