/** The driver of the distributed Hermitian rank-k update
    C = alpha A A^H + beta C (slate_herk.cc): the master thread's issue
    loops, the broadcast loop inside each broadcast task, the flush of C's
    tiles back to the host, and the options wrapper. */
module Herk {
  import opened SlateTypes
  import opened HerkSchedule

  /** The lookahead used when the options carry none. */
  const DefaultLookahead := 1

  /** The lookahead the options wrapper passes on: the option's value when
      present, DefaultLookahead otherwise. */
  function HerkLookahead(opts: Options): (la: int)
    ensures opts.lookahead.Some? ==> la == opts.lookahead.value
    ensures opts.lookahead.None? ==> la == DefaultLookahead
  {
    GetOr(opts.lookahead, DefaultLookahead)
  }

  /** With no options the broadcast of column 1 is issued before update 0,
      so communication of the next column overlaps the first update; with
      lookahead 0 update 0 directly follows the first broadcast. */
  lemma DefaultLookaheadOverlaps(nt: nat, mt: nat, beta: real)
    requires nt >= 2
    ensures HerkLookahead(NoOptions) == 1
    ensures TaskGraph(nt, mt, HerkLookahead(NoOptions), beta)[1] == BcastTask(1, mt, 1)
    ensures TaskGraph(nt, mt, HerkLookahead(NoOptions), beta)[2] == UpdateTask(0, beta)
    ensures TaskGraph(nt, mt, 0, beta)[1] == UpdateTask(0, beta)
  {
  }

  /** The first Burst(nt, lookahead) tasks are the broadcasts of columns
      0 .. min(lookahead, nt-1), issued before any update. */
  lemma InitialBurst(nt: nat, mt: nat, la: nat, beta: real)
    requires nt >= 1
    ensures TaskGraph(nt, mt, la, beta)[..Burst(nt, la)] == Bcasts(Burst(nt, la), mt, la)
    ensures TaskGraph(nt, mt, la, beta)[Burst(nt, la)] == UpdateTask(0, beta)
  {
  }

  /** The body of a broadcast task of column k: for each block row i of A,
      tile A(i, k) is sent to the owners of C(i, 0:i) and C(i:mt-1, i). */
  method BroadcastColumn(k: nat, mt: nat) returns (msgs: seq<TileBcast>)
    ensures msgs == BcastMessages(k, mt)
  {
    msgs := [];
    var i := 0;
    while i < mt
      invariant 0 <= i <= mt
      invariant msgs == BcastMessages(k, mt)[..i]
    {
      msgs := msgs + [TileBcast(i, k, Block(i, i, 0, i), Block(i, mt - 1, i, i))];
      i := i + 1;
    }
  }

  /** The broadcast issued by iteration k of the lookahead loop sits at position k. */
  lemma BurstTaskAt(k: nat, nt: nat, mt: nat, la: nat, beta: real)
    requires 1 <= k < nt && k < la + 1
    ensures k < Burst(nt, la)
    ensures TaskAt(k, nt, mt, la, beta) == Task(Bcast, k, [Token(Bcast, k - 1)], Token(Bcast, k), None, BcastMessages(k, mt))
  {
  }

  /** Update 0 follows the burst. */
  lemma FirstUpdateAt(nt: nat, mt: nat, la: nat, beta: real)
    requires nt >= 1
    ensures Burst(nt, la) == Min(la + 1, nt) && Pos(Token(Gemm, 0), nt, la) == Burst(nt, la)
    ensures TaskAt(Burst(nt, la), nt, mt, la, beta) == Task(Gemm, 0, [Token(Bcast, 0)], Token(Gemm, 0), Some(beta), [])
  {
  }

  /** Iteration k of the main loop appends the broadcast of column
      k + lookahead (when that column exists) and the update of column k. */
  lemma SteadyTasksAt(k: nat, nt: nat, mt: nat, la: nat, beta: real)
    requires 1 <= k < nt
    ensures k + la < nt ==>
              Pos(Token(Gemm, k), nt, la) == Pos(Token(Gemm, k - 1), nt, la) + 2 &&
              TaskAt(Pos(Token(Gemm, k - 1), nt, la) + 1, nt, mt, la, beta) ==
                Task(Bcast, k + la, [Token(Gemm, k - 1), Token(Bcast, k + la - 1)], Token(Bcast, k + la), None,
                     BcastMessages(k + la, mt))
    ensures k + la >= nt ==> Pos(Token(Gemm, k), nt, la) == Pos(Token(Gemm, k - 1), nt, la) + 1
    ensures Pos(Token(Gemm, k), nt, la) < 2 * nt
    ensures TaskAt(Pos(Token(Gemm, k), nt, la), nt, mt, la, beta) ==
              Task(Gemm, k, [Token(Bcast, k), Token(Gemm, k - 1)], Token(Gemm, k), Some(1.0), [])
  {
  }

  lemma PrefixSnoc(g: seq<Task>, p: nat, t: Task)
    requires p < |g| && g[p] == t
    ensures g[..p] + [t] == g[..p + 1]
  {
  }

  /** The tasks issued before iteration k of the main loop: everything up
      to and including the update of column k-1. */
  function IssuedBefore(k: nat, nt: nat, mt: nat, la: nat, beta: real): seq<Task>
    requires 1 <= k <= nt
  {
    TaskGraph(nt, mt, la, beta)[..Pos(Token(Gemm, k - 1), nt, la) + 1]
  }

  /** The first part of the master thread's work: the broadcast of column
      0, the broadcasts of the next `lookahead` columns, and the update of
      column 0 with the caller's beta. */
  method IssuePrologue(nt: nat, mt: nat, la: nat, beta: real) returns (tasks: seq<Task>)
    requires nt >= 1
    ensures tasks == IssuedBefore(1, nt, mt, la, beta)
  {
    ghost var g := TaskGraph(nt, mt, la, beta);
    var msgs := BroadcastColumn(0, mt);
    tasks := [Task(Bcast, 0, [], Token(Bcast, 0), None, msgs)];
    PrefixSnoc(g, 0, tasks[0]);
    var k := 1;
    while k < la + 1 && k < nt
      invariant 1 <= k <= Burst(nt, la)
      invariant tasks == g[..k]
    {
      msgs := BroadcastColumn(k, mt);
      BurstTaskAt(k, nt, mt, la, beta);
      PrefixSnoc(g, k, Task(Bcast, k, [Token(Bcast, k - 1)], Token(Bcast, k), None, msgs));
      tasks := tasks + [Task(Bcast, k, [Token(Bcast, k - 1)], Token(Bcast, k), None, msgs)];
      k := k + 1;
    }
    FirstUpdateAt(nt, mt, la, beta);
    PrefixSnoc(g, k, Task(Gemm, 0, [Token(Bcast, 0)], Token(Gemm, 0), Some(beta), []));
    tasks := tasks + [Task(Gemm, 0, [Token(Bcast, 0)], Token(Gemm, 0), Some(beta), [])];
  }

  /** What iteration k of the main loop appends. */
  lemma SteadyStep(k: nat, nt: nat, mt: nat, la: nat, beta: real)
    requires 1 <= k < nt
    ensures k + la < nt ==>
              IssuedBefore(k + 1, nt, mt, la, beta) == IssuedBefore(k, nt, mt, la, beta) +
                [Task(Bcast, k + la, [Token(Gemm, k - 1), Token(Bcast, k + la - 1)], Token(Bcast, k + la), None,
                      BcastMessages(k + la, mt))] +
                [Task(Gemm, k, [Token(Bcast, k), Token(Gemm, k - 1)], Token(Gemm, k), Some(1.0), [])]
    ensures k + la >= nt ==>
              IssuedBefore(k + 1, nt, mt, la, beta) == IssuedBefore(k, nt, mt, la, beta) +
                [Task(Gemm, k, [Token(Bcast, k), Token(Gemm, k - 1)], Token(Gemm, k), Some(1.0), [])]
  {
    var g := TaskGraph(nt, mt, la, beta);
    SteadyTasksAt(k, nt, mt, la, beta);
    var p := Pos(Token(Gemm, k - 1), nt, la) + 1;
    if k + la < nt {
      PrefixSnoc(g, p, g[p]);
      PrefixSnoc(g, p + 1, g[p + 1]);
    } else {
      PrefixSnoc(g, p, g[p]);
    }
  }

  /** After the last iteration the whole graph has been issued. */
  lemma IssuedAll(nt: nat, mt: nat, la: nat, beta: real)
    requires nt >= 1
    ensures IssuedBefore(nt, nt, mt, la, beta) == TaskGraph(nt, mt, la, beta)
  {
    var g := TaskGraph(nt, mt, la, beta);
    assert Pos(Token(Gemm, nt - 1), nt, la) + 1 == 2 * nt;
    assert g[..2 * nt] == g;
  }

  /** The master thread's issue loops: after the prologue, for each k >= 1
      the broadcast of column k + lookahead when that column exists, then
      the update of column k with beta 1. Lookahead is documented as >= 0. */
  method IssueTasks(nt: nat, mt: nat, lookahead: int, beta: real) returns (tasks: seq<Task>)
    requires nt >= 1 && lookahead >= 0
    ensures tasks == TaskGraph(nt, mt, lookahead, beta)
  {
    var la: nat := lookahead;
    tasks := IssuePrologue(nt, mt, la, beta);
    var k := 1;
    while k < nt
      invariant 1 <= k <= nt
      invariant tasks == IssuedBefore(k, nt, mt, la, beta)
    {
      SteadyStep(k, nt, mt, la, beta);
      if k + la < nt {
        var msgs := BroadcastColumn(k + la, mt);
        tasks := tasks + [Task(Bcast, k + la, [Token(Gemm, k - 1), Token(Bcast, k + la - 1)],
                               Token(Bcast, k + la), None, msgs)];
      }
      tasks := tasks + [Task(Gemm, k, [Token(Bcast, k), Token(Gemm, k - 1)], Token(Gemm, k), Some(1.0), [])];
      k := k + 1;
    }
    IssuedAll(nt, mt, la, beta);
  }

  /** The tiles of the Hermitian matrix C held by one rank. `uplo` is the
      triangle the caller's C stores; for Upper the driver works on the
      conjugate transpose, so logical lower tile (i, j) is stored tile (j, i).
      `hostValid` are stored tiles whose host copy is current. */
  class HermitianTiles {
    const mt: nat
    const uplo: Uplo
    const local: set<(int, int)>
    var hostValid: set<(int, int)>
    var batchArrays: bool
    var workspace: bool

    constructor (mt: nat, uplo: Uplo, local: set<(int, int)>, hostValid: set<(int, int)>)
      ensures this.mt == mt && this.uplo == uplo && this.local == local
      ensures this.hostValid == hostValid && !batchArrays && !workspace
    {
      this.mt := mt;
      this.uplo := uplo;
      this.local := local;
      this.hostValid := hostValid;
      batchArrays := false;
      workspace := false;
    }

    /** Storage coordinates of logical lower tile (i, j) after the
        upper-to-lower conversion. */
    function Stored(i: int, j: int): (t: (int, int))
      ensures uplo == Lower ==> t == (i, j)
      ensures uplo == Upper ==> t == (j, i)
    {
      if uplo == Upper then (j, i) else (i, j)
    }

    /** The local stored tiles of logical lower tiles in columns before j,
        and in column j in rows j .. i-1. */
    ghost function Moved(j: int, i: int): set<(int, int)> {
      set r, c | 0 <= c < mt && c <= r < mt && (c < j || (c == j && r < i)) && Stored(r, c) in local
        :: Stored(r, c)
    }

    /** Every local tile of the stored triangle. */
    ghost function LocalTriangle(): set<(int, int)> {
      Moved(mt, mt)
    }

    /** `C.allocateBatchArrays(); C.reserveDeviceWorkspace();`, done only
        for the Devices target. */
    method Prepare(target: Target)
      modifies this
      ensures batchArrays == (old(batchArrays) || target == Devices)
      ensures workspace == (old(workspace) || target == Devices)
      ensures hostValid == old(hostValid)
    {
      if target == Devices {
        batchArrays := true;
        workspace := true;
      }
    }

    /** The loop after the task region: every local tile of the lower
        triangle (of the possibly transposed C) is moved to the host. */
    method FlushLower()
      modifies this
      ensures hostValid == old(hostValid) + LocalTriangle()
      ensures batchArrays == old(batchArrays) && workspace == old(workspace)
    {
      var j := 0;
      while j < mt
        invariant 0 <= j <= mt
        invariant hostValid == old(hostValid) + Moved(j, j)
        invariant batchArrays == old(batchArrays) && workspace == old(workspace)
      {
        var i := j;
        while i < mt
          invariant j <= i <= mt
          invariant hostValid == old(hostValid) + Moved(j, i)
          invariant batchArrays == old(batchArrays) && workspace == old(workspace)
        {
          if Stored(i, j) in local {
            hostValid := hostValid + {Stored(i, j)};
          }
          MovedStep(j, i);
          i := i + 1;
        }
        MovedNextColumn(j);
        j := j + 1;
      }
    }

    lemma MovedStep(j: int, i: int)
      requires 0 <= j <= i < mt
      ensures Moved(j, i + 1) == Moved(j, i) + (if Stored(i, j) in local then {Stored(i, j)} else {})
    {
      var extra := if Stored(i, j) in local then {Stored(i, j)} else {};
      forall t | t in Moved(j, i + 1) ensures t in Moved(j, i) + extra {
        var r, c :| 0 <= c < mt && c <= r < mt && (c < j || (c == j && r < i + 1)) && Stored(r, c) in local && t == Stored(r, c);
        if c == j && r == i {
          assert t in extra;
        } else {
          assert t in Moved(j, i);
        }
      }
      if Stored(i, j) in local {
        assert Stored(i, j) in Moved(j, i + 1);
      }
    }

    lemma MovedNextColumn(j: int)
      requires 0 <= j < mt
      ensures Moved(j, mt) == Moved(j + 1, j + 1)
    {
      forall t | t in Moved(j + 1, j + 1) ensures t in Moved(j, mt) {
        var r, c :| 0 <= c < mt && c <= r < mt && (c < j + 1 || (c == j + 1 && r < j + 1)) && Stored(r, c) in local && t == Stored(r, c);
      }
    }

    /** `C.clearWorkspace()`. */
    method ClearWorkspace()
      modifies this
      ensures !workspace
      ensures hostValid == old(hostValid) && batchArrays == old(batchArrays)
    {
      workspace := false;
    }

    /** On the stored triangle of the caller's C the flush reaches exactly
        the local tiles: the lower triangle for Lower, the upper one for
        Upper. */
    lemma LocalTriangleIsStoredTriangle(r: int, c: int)
      ensures (r, c) in LocalTriangle() <==>
                (r, c) in local && 0 <= r < mt && 0 <= c < mt &&
                (if uplo == Lower then c <= r else r <= c)
    {
      if (r, c) in local && 0 <= r < mt && 0 <= c < mt && (if uplo == Lower then c <= r else r <= c) {
        if uplo == Lower {
          assert Stored(r, c) == (r, c);
        } else {
          assert Stored(c, r) == (r, c);
        }
      }
    }
  }

  /** internal::specialization::herk on one rank: prepare device storage,
      issue the task graph, flush the lower triangle back to the host and
      clear the workspace. The numerical effect of the issued tasks is the
      subject of SerialUpdateResult. */
  method HerkDriver(target: Target, nt: nat, lookahead: int, beta: real, c: HermitianTiles)
    returns (tasks: seq<Task>)
    requires nt >= 1 && lookahead >= 0
    modifies c
    ensures tasks == TaskGraph(nt, c.mt, lookahead, beta)
    ensures c.hostValid == old(c.hostValid) + c.LocalTriangle()
    ensures c.batchArrays == (old(c.batchArrays) || target == Devices)
    ensures !c.workspace
  {
    c.Prepare(target);
    tasks := IssueTasks(nt, c.mt, lookahead, beta);
    c.FlushLower();
    c.ClearWorkspace();
  }

  /** `slate::herk(alpha, A, beta, C, opts)`: reads the lookahead option
      and runs the driver. */
  method HerkWithOptions(target: Target, nt: nat, beta: real, c: HermitianTiles, opts: Options)
    returns (tasks: seq<Task>)
    requires nt >= 1 && HerkLookahead(opts) >= 0
    modifies c
    ensures tasks == TaskGraph(nt, c.mt, HerkLookahead(opts), beta)
    ensures c.hostValid == old(c.hostValid) + c.LocalTriangle()
    ensures c.batchArrays == (old(c.batchArrays) || target == Devices)
    ensures !c.workspace
  {
    tasks := HerkDriver(target, nt, HerkLookahead(opts), beta, c);
  }
}
