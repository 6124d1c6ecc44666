# SLATE driver logic, modelled in Dafny

This project models the control and data-movement logic of four pieces of
SLATE, a distributed dense linear algebra library written in C++ with MPI
and OpenMP tasks. The numerical kernels (BLAS, LU, norms, band reduction)
are treated as oracles. What is modelled and proved is what the drivers do
around those kernels: which tasks they issue and in which order, what each
task waits for, which status codes they return, and which block ranges a
view covers.

- `herk_schedule.dfy` (module `HerkSchedule`) covers the distributed
  Hermitian rank-k update `C = alpha A A^H + beta C`. Column k of A is sent
  by a broadcast task `bcast[k]` and applied to C by an update task
  `gemm[k]`. The master thread issues these tasks with OpenMP `depend`
  clauses. The module gives the issue sequence in closed form, defines
  which run orders respect the dependencies, and proves:
  - the issue order is a valid schedule, each token is produced exactly
    once, and updates and broadcasts each come out in column order;
  - in every run the dependencies admit, updates are serialized,
    broadcasts are serialized, a broadcast is never more than `lookahead`
    columns ahead of the completed updates, and update k waits for
    broadcasts 0 .. k;
  - running the updates one after another scales C by beta exactly once
    and adds every panel's contribution exactly once, whatever the
    lookahead.
- `herk.dfy` (module `Herk`) models the driver itself:
  - the two issue loops, as a method proved to produce that sequence;
  - the broadcast loop inside each task;
  - the device preparation;
  - the flush of the local lower tiles back to the host, as a class over
    the set of host-valid tiles;
  - the workspace clear;
  - the options wrapper and its default lookahead.
- `gesv_mixed.dfy` (module `GesvMixed`) models the mixed-precision solver
  `gesv_mixed`, which factors and solves in low precision and refines the
  solution with full-precision residuals. If refinement does not converge
  it falls back to a full-precision factor and solve. The model states the
  option defaults, the `iter` encoding, the refinement loop, the fallback,
  the return code, and the full sequence of steps, including holding and
  clearing the device copies on the Devices target.
- `heev.dfy` (module `Heev`) models the Hermitian eigenvalue driver `heev`
  as seen by one MPI rank: the stages every rank runs, the resize of W, the
  stages restricted to rank 0, and the off-diagonal vector E of size n − 1.
- `triangular_matrix.dfy` (module `TriangularViews`) models
  `TriangularMatrix` views:
  - the dimensions its constructors forward;
  - the block ranges chosen by the conversions and by the two `sub`
    methods;
  - the squareness check and its error message;
  - `swap`.
- `types.dfy` (module `SlateTypes`) holds what the other modules share:
  options, targets, `Uplo`/`Diag`, Option/Result, and `get_option`.

Where the code and its documentation disagree, the model follows the code:
- The doc comment of `slate::herk` says the lookahead defaults to 0, but
  the code uses 1 (`slate_herk.cc:212` against `slate_herk.cc:220-226`).
  `Herk.DefaultLookahead` is 1, and `Herk.DefaultLookaheadOverlaps` proves
  what that means for the first tasks.
- The `iter` documentation of `gesv_mixed` says a negative value means the
  solver fell back to full precision. In the code the fallback only runs
  when the fallback option is on, and the model states that condition.
- The `iter` codes can collide:
  - with `MaxIterations == 2`, the non-convergence code −3 equals the code
    for a singular low-precision factor;
  - with `MaxIterations == -1`, the non-convergence code 0 equals the code
    for convergence at the first check.

  The `Gesv` contract states the encoding as the code computes it. The
  documented reading "iter ≥ 0 means refinement succeeded" is proved only
  for a non-negative iteration limit.

## Model

| member | source | states |
|---|---|---|
| HerkSchedule.BcastReachesLowerTile | slate_herk.cc:98-103 | a column broadcast delivers to tile C(r, c) exactly the tiles A(r, k) and A(c, k) when the tile is in the lower triangle, and nothing otherwise |
| HerkSchedule.TaskGraph | slate_herk.cc:96-155 | one herk call issues exactly 2·nt tasks |
| HerkSchedule.TaskAtShape | slate_herk.cc:96-155 | each issued task produces a token of a column below nt, is the producer of that token, and sits at the position `Pos` gives for it |
| HerkSchedule.PosShape | slate_herk.cc:96-155 | every token bcast[k] or gemm[k] with k < nt has its producer at position `Pos(t)` within the 2·nt issued tasks |
| HerkSchedule.InputsProducedEarlier | slate_herk.cc:107-149 | every `depend(in:…)` token of a task is produced by a task issued earlier |
| HerkSchedule.TaskGraphSchedule | slate_herk.cc:96-155 | the issue order is a valid serial schedule, no token is produced twice, and exactly the tokens of columns 0 .. nt−1 are produced |
| HerkSchedule.Chain | slate_herk.cc:121-154 | the update chain has one update per column, in column order, each producing its own gemm token |
| HerkSchedule.Bcasts | slate_herk.cc:96-143 | the broadcasts have one task per column, in column order, each producing its own bcast token |
| HerkSchedule.IssueOrderByKind | slate_herk.cc:96-155 | for every lookahead, the updates are issued as the chain gemm[0..nt−1], beta on the first only, and the broadcasts in column order, one per column |
| HerkSchedule.UpdatesIndependentOfLookahead | slate_herk.cc:129-155 | the sequence of updates is the same for any two lookaheads |
| HerkSchedule.ProducerRunsFirst | slate_herk.cc:107-149 | in every run the dependencies admit, the producer of each consumed token starts before its consumer |
| HerkSchedule.ChainOrdered | slate_herk.cc:147-149 | in every admitted run, tasks of one kind run in column order |
| HerkSchedule.UpdatesSerialized | slate_herk.cc:147-149 | in every admitted run, the update of column k starts after every update of a smaller column ("herk operations are serialized") |
| HerkSchedule.BroadcastsSerialized | slate_herk.cc:107-135 | in every admitted run, broadcasts run in column order ("bcast communications are serialized") |
| HerkSchedule.BroadcastsBoundedByLookahead | slate_herk.cc:132-135 | in every admitted run, the broadcast of column c waits for every update of a column j with j + lookahead < c ("bcasts can get ahead of herks by the value of lookahead") |
| HerkSchedule.UpdateWaitsForBroadcasts | slate_herk.cc:147-149 | in every admitted run, the update of column k waits for the broadcasts of columns 0 .. k |
| HerkSchedule.UpdateWaitsForBroadcast | slate_herk.cc:147-149 | the same, for one update and one broadcast |
| HerkSchedule.SerialChain | slate_herk.cc:120-154 | applying gemm[0..n−1] to one tile in order gives the sum of the n contributions plus beta times the initial value |
| HerkSchedule.SerialUpdateResult | slate_herk.cc:172-175 | the updates of the issued graph, run in issue order, compute alpha A A^H + beta C on every tile: beta once, each panel once |
| Herk.HerkLookahead | slate_herk.cc:220-226 | the lookahead is the option's value, or 1 when the option is absent |
| Herk.DefaultLookaheadOverlaps | slate_herk.cc:220-226 | with no options, the broadcast of column 1 is issued before update 0; with lookahead 0, update 0 directly follows the first broadcast |
| Herk.InitialBurst | slate_herk.cc:96-127 | the first min(lookahead+1, nt) tasks are the broadcasts of columns 0 .. min(lookahead, nt−1), followed by update 0 with the caller's beta |
| Herk.BroadcastColumn | slate_herk.cc:99-103 | the body of a broadcast task sends, for every block row i, A(i, k) to C(i, 0:i) and C(i:mt−1, i) |
| Herk.BurstTaskAt | slate_herk.cc:107-118 | iteration k of the lookahead loop issues, at position k, the broadcast of column k depending on bcast[k−1] |
| Herk.FirstUpdateAt | slate_herk.cc:121-127 | update 0 depends on bcast[0] only, applies the caller's beta, and follows the initial burst |
| Herk.SteadyTasksAt | slate_herk.cc:129-155 | iteration k of the main loop issues the broadcast of column k+lookahead (when it exists) and update k with beta 1, with the dependencies written in the source |
| Herk.SteadyStep | slate_herk.cc:129-155 | what iteration k appends to the tasks issued so far |
| Herk.IssuedAll | slate_herk.cc:129-155 | after the last iteration, the whole graph has been issued |
| Herk.IssuePrologue | slate_herk.cc:94-127 | the first broadcast, the lookahead loop and update 0 issue exactly the graph's prefix up to update 0 |
| Herk.IssueTasks | slate_herk.cc:91-156 | the master thread's loops issue exactly the task graph |
| Herk.HermitianTiles.Stored | slate_herk.cc:72-75 | for Upper, logical tile (i, j) of the transposed C is stored tile (j, i); for Lower it is (i, j) |
| Herk.HermitianTiles.Prepare | slate_herk.cc:86-89 | batch arrays and device workspace are set up exactly on the Devices target |
| Herk.HermitianTiles.FlushLower | slate_herk.cc:158-162 | the flush loop makes the host copy valid for every local tile of the logical lower triangle, and for nothing else |
| Herk.HermitianTiles.ClearWorkspace | slate_herk.cc:164 | the workspace is released, and host validity is unchanged |
| Herk.HermitianTiles.LocalTriangleIsStoredTriangle | slate_herk.cc:158-162 | the flushed tiles are exactly the local tiles of the stored triangle: the lower one for Lower, the upper one for Upper |
| Herk.HerkDriver | slate_herk.cc:63-165 | one rank's herk issues the task graph, leaves host-valid exactly the previous tiles plus the local triangle, and ends with the workspace cleared |
| Herk.HerkWithOptions | slate_herk.cc:215-232 | `slate::herk` runs the driver with the lookahead read from the options |
| GesvMixed.GesvTarget | src/gesv_mixed.cc:116 | the target is the option's value, or HostTask |
| GesvMixed.MaxIterations | src/gesv_mixed.cc:126 | the iteration limit is the option's value, or 30 |
| GesvMixed.Tolerance | src/gesv_mixed.cc:127 | the tolerance is the option's value, or eps·sqrt(m) |
| GesvMixed.UseFallback | src/gesv_mixed.cc:128 | the fallback flag is the integer option converted to bool, true when absent |
| GesvMixed.Threshold | src/gesv_mixed.cc:172-173 | the stopping threshold is ‖A‖∞ times the tolerance |
| GesvMixed.FirstConvergence | src/gesv_mixed.cc:206-253 | the result is the first check, among 0 .. n, whose residual passes the test, or None when no check passes |
| GesvMixed.FirstConvergenceStable | src/gesv_mixed.cc:218 | allowing more checks does not change the first passing one |
| GesvMixed.Passes | src/gesv_mixed.cc:218-253 | n refinement passes perform 7·n steps |
| GesvMixed.PassAt | src/gesv_mixed.cc:218-253 | pass i of a run with n passes occupies steps 7i .. 7i+6 and is exactly the seven steps of one refinement iteration |
| GesvMixed.HoldsMatchClears | src/gesv_mixed.cc:280-285 | each device hold at entry has a clear of the same matrix at exit, and there are none off the Devices target |
| GesvMixed.Refine | src/gesv_mixed.cc:189-253 | the solve and refinement loop stops at the first passing check, or after itermax passes; `iter` is that check's number or 0; the steps are the first solve followed by the passes made |
| GesvMixed.Gesv | src/gesv_mixed.cc:107-289 | the `iter` codes (−3 for a singular low-precision factor, the number of passes on convergence, −itermax−1 otherwise), the return code, whether A is overwritten, what X holds, and the full step sequence, including the fallback and the device hold/clear |
| Heev.Resized | src/heev.cc:74 | `W.resize(n)` keeps the first n entries and pads with zeros |
| Heev.Owner | src/heev.cc:68-69 | the block-cyclic owner of a tile is a rank of the p-by-q grid |
| Heev.BandOnRankZero | src/heev.cc:67-69 | on the 1-by-1 grid of the band copy, every tile is on rank 0, the rank that runs hb2st (used by `Heev.Heev`) |
| Heev.RealVector.Resize | src/heev.cc:74 | the vector becomes its resize to n |
| Heev.RealVector.Fill | src/heev.cc:81-85 | the kernel overwrites all n entries of W |
| Heev.Heev | src/heev.cc:51-92 | every rank runs he2hb, builds and gathers the band, and resizes W to n. Rank 0 then runs hb2st, copyhb2st with an E of length n−1, and sterf, leaving the eigenvalues in W. For n = 0 the construction of E fails. The band is created on a 1-by-1 grid, so rank 0 owns every tile of it |
| TriangularViews.Window | include/slate/TriangularMatrix.hh:463-468 | the view A[i1:i2, j1:j2] has i2−i1+1 block rows and j2−j1+1 block columns, lies inside the parent, and its tile (i, j) is the parent's tile (i1+i, j1+j) |
| TriangularViews.NewTriangular | include/slate/TriangularMatrix.hh:141-143 | the n-by-n constructor forwards n as both dimensions and nb as the tile size |
| TriangularViews.FromScaLAPACK | include/slate/TriangularMatrix.hh:232-238 | fromScaLAPACK forwards nb as both the row and the column tile size |
| TriangularViews.Created | include/slate/TriangularMatrix.hh:141-143 | a new triangular matrix covers its storage from block 0, with the tile counts of its dimensions |
| TriangularViews.CreatedIsSquare | include/slate/TriangularMatrix.hh:136-143 | a new n-by-n triangular matrix has as many block rows as block columns, and fromScaLAPACK builds the same view |
| TriangularViews.FromTrapezoid | include/slate/TriangularMatrix.hh:343-349 | converting a trapezoid-family matrix keeps its triangle and uses the square part, min(mt, nt) blocks from the origin |
| TriangularViews.FromGeneral | include/slate/TriangularMatrix.hh:405-411 | converting a general matrix uses the caller's triangle and the square part, min(mt, nt) blocks from the origin |
| TriangularViews.FromTrapezoidRange | include/slate/TriangularMatrix.hh:377-385 | the ranged conversion fails with "i2 - i1 != j2 - j1, BaseTrapezoid" exactly when the ranges differ in length, and otherwise yields the square window |
| TriangularViews.FromGeneralRange | include/slate/TriangularMatrix.hh:439-447 | the same for a general matrix, with the message "i2 - i1 != j2 - j1, Matrix" |
| TriangularViews.WholeIsSquareRange | include/slate/TriangularMatrix.hh:343-349 | the conversion without ranges equals the ranged conversion over 0 .. min(mt, nt)−1, which never fails |
| TriangularViews.Sub | include/slate/TriangularMatrix.hh:484-489 | `sub(i1, i2)` is a square triangular view with the parent's triangle and diagonal, whose tile (i, j) is the parent's (i1+i, i1+j) |
| TriangularViews.SubGeneral | include/slate/TriangularMatrix.hh:491-517 | `sub(i1, i2, j1, j2)` is a general view of A[i1:i2, j1:j2] on the same storage, whose tile (i, j) is the parent's (i1+i, j1+j); the block must lie off the diagonal, strictly below it for Lower and strictly above it for Upper, and every tile of the view does |
| TriangularViews.SubOfSub | include/slate/TriangularMatrix.hh:463-468 | a sub-view of a sub-view is the parent's sub-view over the composed range |
| TriangularViews.Swap | include/slate/TriangularMatrix.hh:524-530 | `swap` exchanges the two matrices' entire contents |

## Left out

- Numerical kernels are oracles:
  - herk: `internal::herk` and the BLAS inside it; each update is modelled
    by the beta it applies and by a per-tile contribution that already
    includes alpha;
  - gesv_mixed: `getrf`, `getrs`, `gemm`, `add`, `copy`, `norm` and
    `colNorms`, which enter the model as their status codes and as the
    column norms seen at each check;
  - heev: `he2hb`, `hb2st`, `copyhb2st` and `sterf`, which enter the
    model as functions giving the values they write into W.
- `internal::iterRefConverged` is not part of this model. It is stated
  as "every column has ‖R_j‖ < cte·‖X_j‖" (`GesvMixed.Converged`). Floating
  point is modelled by `real`.
- OpenMP and MPI concurrency: only the declared task dependencies are
  modelled, as every start-time assignment that respects them. Races,
  message matching and the thread that runs each task are not.
- gesv_mixed: the three device holds run as parallel tasks, and the model
  fixes their order as A, B, X. Timers are left out.
- `iter` is an `int&` in the source, so −itermax−1 is narrowed to 32 bits.
  The model uses unbounded integers.
- Herk.IssueTasks: requires nt ≥ 1 and lookahead ≥ 0. With nt = 0 the
  source still broadcasts column 0 and updates with it. A negative
  lookahead is outside the documented range.
- Herk.HermitianTiles.FlushLower: models `tileMoveToHost` as making the
  host copy valid. Which device held the tile is not modelled.
- HerkSchedule.SerialUpdateResult: the result is stated per tile, for a
  serial run in issue order. That every admitted run computes the same
  value follows from the proved serialization of the updates. It is not
  restated as a separate theorem.
- The constructors that wrap user memory (fromLAPACK, fromDevices) and the
  ScaLAPACK layout are covered only through the dimensions they forward;
  memory, lda and devices are not modelled.
- The 2D block-cyclic distribution beyond `Heev.Owner`: its formula comes
  from the matrix classes, which are not part of this model. Only the
  claim that the 1-by-1 band grid puts everything on rank 0 is used.
- TriangularViews.FromTrapezoid and TriangularViews.FromGeneral: when the
  parent has no block rows or no block columns, the source passes the
  range 0 .. −1. The model returns the empty view at the parent's origin
  that this range denotes, because the documented range preconditions
  cannot hold there.
- The base-class range checks of `sub` and of the ranged conversions are
  asserts in code that is not part of this model. They are modelled as
  preconditions (`InRange`). The documented placement of the general
  `sub(i1, i2, j1, j2)` off the diagonal is modelled as the precondition
  `OffDiagonal` of `TriangularViews.SubGeneral`.
- heev: W is not broadcast to the other ranks (a "todo" in the source),
  and scaling is not done. Only the old entries of W that the resize keeps
  are visible on ranks other than 0.
