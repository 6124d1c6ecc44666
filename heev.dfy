/** The Hermitian eigenvalue driver (src/heev.cc, heev) as seen by one MPI
    rank: a straight-line sequence of stages, the last three of them only
    on rank 0, and the sizes of the eigenvalue vector W and of the
    off-diagonal vector E. The stages themselves are opaque; what they
    write is given by oracles. */
module Heev {
  import opened SlateTypes

  /** The stages of heev, in the order they may run. */
  datatype Stage =
    | He2hb                            // reduce A to band form, factors in T
    | BandCreate(p: nat, q: nat, kd: nat)  // Aband on a p-by-q grid, bandwidth kd
    | InsertBandTiles                  // Aband.insertLocalTiles()
    | BandGather                       // Aband.he2hbGather(A)
    | ResizeW(n: nat)                  // W.resize(n)
    | Hb2st                            // band to tridiagonal, on Aband
    | CopyHb2st(eLen: nat)             // diagonal into W, off-diagonal into E
    | Sterf                            // eigenvalues of the tridiagonal into W

  /** `std::vector::resize(n)`: keep the first n entries, pad with zeros. */
  function Resized(v: seq<real>, n: nat): (r: seq<real>)
    ensures |r| == n
    ensures forall i :: 0 <= i < n ==> r[i] == (if i < |v| then v[i] else 0.0)
  {
    if n <= |v| then v[..n] else v + seq(n - |v|, _ => 0.0)
  }

  /** The 2D block-cyclic owner of tile (i, j) on a p-by-q process grid. */
  function Owner(i: nat, j: nat, p: nat, q: nat): (r: nat)
    requires p >= 1 && q >= 1
    ensures r < p * q
  {
    assert (j % q) * p <= (q - 1) * p;
    (i % p) + (j % q) * p
  }

  /** The band copy lives on a 1-by-1 grid, so after the gather all of its
      tiles are on rank 0. */
  lemma BandOnRankZero(i: nat, j: nat)
    ensures Owner(i, j, 1, 1) == 0
  {
  }

  /** The eigenvalue vector W, which heev resizes and overwrites in place. */
  class RealVector {
    var elems: seq<real>

    constructor (elems: seq<real>)
      ensures this.elems == elems
    {
      this.elems := elems;
    }

    method Resize(n: nat)
      modifies this
      ensures elems == Resized(old(elems), n)
    {
      elems := Resized(elems, n);
    }

    /** Overwrite the first n entries with f(0), ..., f(n-1). */
    method Fill(n: nat, f: nat -> real)
      requires n == |elems|
      modifies this
      ensures elems == seq(n, i requires 0 <= i < n => f(i))
    {
      var i := 0;
      while i < n
        invariant 0 <= i <= n && |elems| == n
        invariant forall j :: 0 <= j < i ==> elems[j] == f(j)
      {
        elems := elems[i := f(i)];
        i := i + 1;
      }
    }
  }

  /** The stages every rank runs, with the matrix size n and tile size nb. */
  function CommonStages(n: nat, nb: nat): seq<Stage> {
    [He2hb, BandCreate(1, 1, nb), InsertBandTiles, BandGather, ResizeW(n)]
  }

  /** heev on rank `rank`. `bandDiag(i)` is the i-th diagonal entry of the
      tridiagonal form that copyhb2st writes into W, and `eig(i)` the i-th
      eigenvalue sterf leaves there. On rank 0 with n == 0 the
      off-diagonal vector E would need n - 1 < 0 entries: the vector
      constructor throws, which the model returns as a Failure. */
  method Heev(rank: nat, n: nat, nb: nat, w: RealVector, bandDiag: nat -> real, eig: nat -> real)
    returns (trace: seq<Stage>, status: Result<Option<nat>, string>)
    modifies w
    // the band is created on a 1-by-1 grid, so rank 0, which reduces it
    // to tridiagonal form, owns every one of its tiles
    ensures |trace| > 1 && trace[1].BandCreate? && trace[1].p == 1 && trace[1].q == 1
    ensures forall i: nat, j: nat :: Owner(i, j, trace[1].p, trace[1].q) == 0
    ensures rank != 0 ==>
              trace == CommonStages(n, nb) && status == Success(None) && w.elems == Resized(old(w.elems), n)
    ensures rank == 0 && n >= 1 ==>
              trace == CommonStages(n, nb) + [Hb2st, CopyHb2st(n - 1), Sterf] &&
              status == Success(Some(n - 1)) &&
              w.elems == seq(n, i requires 0 <= i < n => eig(i))
    ensures rank == 0 && n == 0 ==>
              trace == CommonStages(n, nb) + [Hb2st] && status.Failure? && w.elems == []
  {
    trace := [He2hb];
    trace := trace + [BandCreate(1, 1, nb)];
    trace := trace + [InsertBandTiles];
    trace := trace + [BandGather];
    forall i: nat, j: nat ensures Owner(i, j, 1, 1) == 0 {
      BandOnRankZero(i, j);
    }
    w.Resize(n);
    trace := trace + [ResizeW(n)];
    status := Success(None);
    if rank == 0 {
      trace := trace + [Hb2st];
      if n == 0 {
        status := Failure("length_error: vector E of size n - 1");
        return;
      }
      var eLen := n - 1;
      w.Fill(n, bandDiag);
      trace := trace + [CopyHb2st(eLen)];
      w.Fill(n, eig);
      trace := trace + [Sterf];
      status := Success(Some(eLen));
    }
  }
}
