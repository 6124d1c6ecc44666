/** The control logic of the mixed-precision linear solver
    (src/gesv_mixed.cc, gesv_mixed): factor in low precision, solve,
    refine the solution with full-precision residuals, and fall back to a
    full-precision factor and solve when refinement does not converge.

    The numerical kernels are oracles: the status returned by the two
    factorizations, the infinity norm of A, and the column norms of R and
    X seen at each convergence check. */
module GesvMixed {
  import opened SlateTypes

  /** The caller's matrices A, B and X. */
  datatype Mat = MatA | MatB | MatX

  /** The steps the controller performs, in the order it performs them. */
  datatype Step =
    | InsertWorkspace    // insertLocalTiles on X_lo, R and A_lo
    | Hold(m: Mat)       // tileGetAndHoldAllOnDevices
    | NormA              // Anorm = norm(Inf, A)
    | CopyBToXlo         // B converted to low precision into X_lo
    | CopyAToAlo         // A converted to low precision into A_lo
    | GetrfLo            // low-precision LU of A_lo
    | GetrsLo            // low-precision solve with A_lo's factors
    | CopyXloToX         // X_lo converted to full precision into X
    | CopyRToXlo         // R converted to low precision into X_lo
    | CopyXloToR         // X_lo converted to full precision into R
    | AddRToX            // X = X + R
    | CopyBToR           // R = B
    | Residual           // R = R - A X
    | NormsXR            // colNorms of X and of R
    | GetrfHi            // full-precision LU of A, overwriting A
    | CopyBToX           // X = B
    | GetrsHi            // full-precision solve
    | Clear(m: Mat)      // clearWorkspace

  /** What X holds on exit: never written, the low-precision solution
      followed by `passes` refinement corrections, or the full-precision
      solution of the fallback. */
  datatype XState = Unwritten | Refined(passes: nat) | Direct

  /** The column max-norms of R and of X measured at one check. */
  datatype ColNorms = ColNorms(r: seq<real>, x: seq<real>)

  // ---------------------------------------------------------------------
  // Options and defaults

  const DefaultMaxIterations := 30

  function GesvTarget(opts: Options): (t: Target)
    ensures opts.target.None? ==> t == HostTask
    ensures opts.target.Some? ==> t == opts.target.value
  {
    GetOr(opts.target, HostTask)
  }

  function MaxIterations(opts: Options): (itermax: int)
    ensures opts.maxIterations.None? ==> itermax == DefaultMaxIterations
    ensures opts.maxIterations.Some? ==> itermax == opts.maxIterations.value
  {
    GetOr(opts.maxIterations, DefaultMaxIterations)
  }

  /** The tolerance; `eps` is the full-precision machine epsilon and
      `sqrtM` the square root of A's row count, both supplied by the caller
      of the model since they are floating-point values. */
  function Tolerance(opts: Options, eps: real, sqrtM: real): (tol: real)
    ensures opts.tolerance.None? ==> tol == eps * sqrtM
    ensures opts.tolerance.Some? ==> tol == opts.tolerance.value
  {
    GetOr(opts.tolerance, eps * sqrtM)
  }

  /** The fallback option is read as an integer and converted to bool;
      absent, it is true. */
  function UseFallback(opts: Options): (b: bool)
    ensures opts.useFallbackSolver.None? ==> b
    ensures opts.useFallbackSolver.Some? ==> (b <==> opts.useFallbackSolver.value != 0)
  {
    GetOr(opts.useFallbackSolver, 1) != 0
  }

  /** The stopping threshold cte = ||A||_inf * tol. */
  function Threshold(opts: Options, anorm: real, eps: real, sqrtM: real): (cte: real)
    ensures opts.tolerance.None? ==> cte == anorm * (eps * sqrtM)
    ensures opts.tolerance.Some? ==> cte == anorm * opts.tolerance.value
  {
    anorm * Tolerance(opts, eps, sqrtM)
  }

  // ---------------------------------------------------------------------
  // Convergence

  /** The normwise backward-error test: every right-hand side j has
      ||R_j||_inf < cte * ||X_j||_inf. */
  predicate Converged(c: ColNorms, cte: real) {
    |c.r| == |c.x| && forall j :: 0 <= j < |c.r| ==> c.r[j] < c.x[j] * cte
  }

  /** The checks the controller may perform: check 0 after the first
      solve, and one after each of at most itermax refinement passes. */
  function LastCheck(itermax: int): nat {
    if itermax > 0 then itermax else 0
  }

  /** The first of the checks 0 .. n whose norms pass the test. */
  function FirstConvergence(norms: nat -> ColNorms, cte: real, n: nat): (r: Option<nat>)
    ensures r.Some? ==> r.value <= n && Converged(norms(r.value), cte)
    ensures r.Some? ==> forall s :: 0 <= s < r.value ==> !Converged(norms(s), cte)
    ensures r.None? ==> forall s :: 0 <= s <= n ==> !Converged(norms(s), cte)
  {
    if n == 0 then (if Converged(norms(0), cte) then Some(0) else None)
    else
      var earlier := FirstConvergence(norms, cte, n - 1);
      if earlier.Some? then earlier
      else if Converged(norms(n), cte) then Some(n)
      else None
  }

  /** A check that passes stays the first one when more checks are allowed. */
  lemma {:induction false} FirstConvergenceStable(norms: nat -> ColNorms, cte: real, n: nat, m: nat)
    requires n <= m
    requires FirstConvergence(norms, cte, n).Some?
    ensures FirstConvergence(norms, cte, m) == FirstConvergence(norms, cte, n)
    decreases m - n
  {
    if n < m {
      FirstConvergenceStable(norms, cte, n, m - 1);
    }
  }

  // ---------------------------------------------------------------------
  // The trace

  function Holds(target: Target): seq<Step> {
    if target == Devices then [Hold(MatA), Hold(MatB), Hold(MatX)] else []
  }

  function Clears(target: Target): seq<Step> {
    if target == Devices then [Clear(MatA), Clear(MatB), Clear(MatX)] else []
  }

  /** The first low-precision solve and the residual check 0. */
  const FirstSolve := [GetrsLo, CopyXloToX, CopyBToR, Residual, NormsXR]

  /** One refinement pass. */
  const Pass := [CopyRToXlo, GetrsLo, CopyXloToR, AddRToX, CopyBToR, Residual, NormsXR]

  /** n refinement passes. */
  function Passes(n: nat): (steps: seq<Step>)
    ensures |steps| == 7 * n
  {
    if n == 0 then [] else Passes(n - 1) + Pass
  }

  /** Pass i of n occupies steps 7i .. 7i+6, so the steps of a run with
      n passes are n copies of the seven steps of one pass. */
  lemma {:induction false} PassAt(n: nat, i: nat)
    requires i < n
    ensures Passes(n)[7 * i..7 * i + 7] == Pass
  {
    var prev := Passes(n - 1);
    assert Passes(n) == prev + Pass;
    if i < n - 1 {
      PassAt(n - 1, i);
      assert 7 * i + 7 <= |prev|;
      assert Passes(n)[7 * i..7 * i + 7] == prev[7 * i..7 * i + 7];
    } else {
      assert 7 * i == |prev|;
      assert Passes(n)[7 * i..7 * i + 7] == Pass;
    }
  }

  /** The fallback: full-precision factor, then reset X to B and solve only if
      the factor succeeded. */
  function Fallback(hiInfo: int): seq<Step> {
    [GetrfHi] + (if hiInfo == 0 then [CopyBToX, GetrsHi] else [])
  }

  /** Whether the device holds at entry are matched by clears at exit, matrix
      for matrix, and nothing is held or cleared on other targets. */
  lemma HoldsMatchClears(target: Target)
    ensures |Holds(target)| == |Clears(target)|
    ensures forall i :: 0 <= i < |Holds(target)| ==> Holds(target)[i].m == Clears(target)[i].m
    ensures target != Devices ==> Holds(target) == [] && Clears(target) == []
  {
  }

  // ---------------------------------------------------------------------
  // The controller

  /** The low-precision solve, the residual check 0, and the refinement
      loop, which runs while fewer than itermax passes have been made and no
      check has passed. Without convergence `iter` keeps its initial 0. */
  method Refine(norms: nat -> ColNorms, cte: real, itermax: int)
    returns (converged: bool, iter: int, passes: nat, steps: seq<Step>)
    ensures converged == FirstConvergence(norms, cte, LastCheck(itermax)).Some?
    ensures passes == if converged then FirstConvergence(norms, cte, LastCheck(itermax)).value else LastCheck(itermax)
    ensures iter == if converged then passes else 0
    ensures steps == FirstSolve + Passes(passes)
  {
    iter := 0;
    converged := false;
    steps := FirstSolve;
    if Converged(norms(0), cte) {
      iter := 0;
      converged := true;
    }
    var iiter := 0;
    while iiter < itermax && !converged
      invariant 0 <= iiter <= LastCheck(itermax)
      invariant converged <==> FirstConvergence(norms, cte, iiter).Some?
      invariant converged ==> FirstConvergence(norms, cte, iiter) == Some(iiter)
      invariant iter == if converged then iiter else 0
      invariant steps == FirstSolve + Passes(iiter)
    {
      steps := steps + Pass;
      if Converged(norms(iiter + 1), cte) {
        iter := iiter + 1;
        converged := true;
      }
      iiter := iiter + 1;
    }
    if converged {
      FirstConvergenceStable(norms, cte, iiter, LastCheck(itermax));
    }
    passes := iiter;
  }

  /** gesv_mixed. `loInfo` and `hiInfo` are what the low- and full-precision
      getrf return, `anorm` is ||A||_inf, and `norms(t)` the column norms
      seen at check t. Returns the status code, the `iter` flag, what X
      holds, whether A was overwritten by its factors, and the trace. */
  method Gesv(opts: Options, eps: real, sqrtM: real, anorm: real, loInfo: int,
              norms: nat -> ColNorms, hiInfo: int)
    returns (info: int, iter: int, x: XState, aFactored: bool, trace: seq<Step>)
    // the iter encoding
    ensures loInfo != 0 ==> iter == -3
    ensures loInfo == 0 ==>
      match FirstConvergence(norms, Threshold(opts, anorm, eps, sqrtM), LastCheck(MaxIterations(opts)))
      case Some(t) => iter == t
      case None => iter == -MaxIterations(opts) - 1
    // the documented reading of iter: a non-negative flag means refinement
    // succeeded, A is left unfactored and X holds the refined solution
    ensures MaxIterations(opts) >= 0 && iter >= 0 ==> info == 0 && !aFactored && x.Refined?
    // which steps run, and the state they leave
    ensures var target := GesvTarget(opts);
            var conv := FirstConvergence(norms, Threshold(opts, anorm, eps, sqrtM), LastCheck(MaxIterations(opts)));
            var converged := loInfo == 0 && conv.Some?;
            var fallback := !converged && UseFallback(opts);
            var passes := if conv.Some? then conv.value else LastCheck(MaxIterations(opts));
            && trace == [InsertWorkspace] + Holds(target) + [NormA, CopyBToXlo, CopyAToAlo, GetrfLo]
                        + (if loInfo == 0 then FirstSolve + Passes(passes) else [])
                        + (if fallback then Fallback(hiInfo) else [])
                        + Clears(target)
            && info == (if fallback then hiInfo else loInfo)
            && aFactored == fallback
            && x == (if fallback && hiInfo == 0 then Direct
                     else if loInfo == 0 then Refined(passes)
                     else Unwritten)
  {
    var target := GesvTarget(opts);
    var converged := false;
    var itermax := MaxIterations(opts);
    var tol := Tolerance(opts, eps, sqrtM);
    var useFallback := UseFallback(opts);
    iter := 0;
    x := Unwritten;
    aFactored := false;
    trace := [InsertWorkspace];
    if target == Devices {
      trace := trace + [Hold(MatA), Hold(MatB), Hold(MatX)];
    }
    assert trace == [InsertWorkspace] + Holds(target);
    var cte := anorm * tol;
    assert cte == Threshold(opts, anorm, eps, sqrtM);
    ghost var conv := FirstConvergence(norms, cte, LastCheck(itermax));
    ghost var refinement := if conv.Some? then conv.value else LastCheck(itermax);
    trace := trace + [NormA, CopyBToXlo, CopyAToAlo, GetrfLo];
    ghost var factored := trace;
    info := loInfo;
    if info != 0 {
      iter := -3;
    } else {
      var passes, steps;
      converged, iter, passes, steps := Refine(norms, cte, itermax);
      trace := trace + steps;
      x := Refined(passes);
      assert converged ==> iter == conv.value;
      assert steps == FirstSolve + Passes(refinement);
    }
    ghost var beforeFallback := trace;
    assert beforeFallback == factored + (if loInfo == 0 then FirstSolve + Passes(refinement) else []);
    assert converged == (loInfo == 0 && conv.Some?);
    if !converged {
      if info == 0 {
        iter := -itermax - 1;
        assert conv.None?;
      }
      if useFallback {
        trace := trace + [GetrfHi];
        info := hiInfo;
        aFactored := true;
        if info == 0 {
          trace := trace + [CopyBToX, GetrsHi];
          x := Direct;
        }
        assert trace == beforeFallback + Fallback(hiInfo);
      }
    }
    ghost var beforeClear := trace;
    assert beforeClear == beforeFallback + (if !converged && useFallback then Fallback(hiInfo) else []);
    if target == Devices {
      trace := trace + [Clear(MatA), Clear(MatB), Clear(MatX)];
    }
    assert trace == beforeClear + Clears(target);
  }
}
