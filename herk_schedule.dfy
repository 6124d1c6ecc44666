/** The task graph that the master thread of the distributed Hermitian
    rank-k update issues (slate_herk.cc, internal::specialization::herk):
    what each task consumes and produces, and what follows for every
    execution order the dependencies admit.

    C is mt-by-mt tiles, A is mt-by-nt tiles; column k of A is broadcast
    by task `bcast[k]` and applied to C by task `gemm[k]`. */
module HerkSchedule {
  import opened SlateTypes

  /** The two dependency-token arrays, `bcast[]` and `gemm[]`. */
  datatype Kind = Bcast | Gemm

  /** The token `bcast[k]` or `gemm[k]`. */
  datatype Token = Token(kind: Kind, k: nat)

  /** The block sub-view C(i1:i2, j1:j2), bounds inclusive. */
  datatype Block = Block(i1: int, i2: int, j1: int, j2: int) {
    predicate Contains(r: int, c: int) {
      i1 <= r <= i2 && j1 <= c <= j2
    }
  }

  /** `A.tileBcast(row, col, rowDest, colDest)`: tile A(row, col) is sent to
      the ranks that own the two destination views of C. */
  datatype TileBcast = TileBcast(row: nat, col: nat, rowDest: Block, colDest: Block)

  /** One issued `omp task`: its kind, its column, its `depend(in:...)`
      tokens in the order written, its `depend(out:...)` token, the beta it
      hands to internal::herk (broadcasts have none) and the tile
      broadcasts its body performs (updates perform none). */
  datatype Task = Task(kind: Kind, k: nat, ins: seq<Token>, out: Token,
                       beta: Option<real>, msgs: seq<TileBcast>)

  // ---------------------------------------------------------------------
  // The tasks, one column at a time

  /** The body of a broadcast of column k: for each block row i, A(i, k)
      goes to the owners of C(i, 0:i) and of C(i:mt-1, i). */
  function BcastMessages(k: nat, mt: nat): seq<TileBcast> {
    seq(mt, i requires 0 <= i < mt => TileBcast(i, k, Block(i, i, 0, i), Block(i, mt - 1, i, i)))
  }

  /** The block rows of A whose tiles reach tile C(r, c) through `msgs`. */
  ghost function Sources(msgs: seq<TileBcast>, r: int, c: int): set<int> {
    set m | m in msgs && (m.rowDest.Contains(r, c) || m.colDest.Contains(r, c)) :: m.row as int
  }

  /** Dependencies of `bcast[c]`: none for column 0, the previous broadcast
      inside the initial burst, and beyond it also the update lookahead+1
      columns behind. */
  function BcastInputs(c: nat, la: nat): seq<Token> {
    if c == 0 then []
    else if c <= la then [Token(Bcast, c - 1)]
    else [Token(Gemm, c - la - 1), Token(Bcast, c - 1)]
  }

  function BcastTask(c: nat, mt: nat, la: nat): Task {
    Task(Bcast, c, BcastInputs(c, la), Token(Bcast, c), None, BcastMessages(c, mt))
  }

  /** Dependencies of `gemm[k]`: its own broadcast and the previous update. */
  function UpdateInputs(k: nat): seq<Token> {
    if k == 0 then [Token(Bcast, 0)] else [Token(Bcast, k), Token(Gemm, k - 1)]
  }

  function UpdateTask(k: nat, b: real): Task {
    Task(Gemm, k, UpdateInputs(k), Token(Gemm, k), Some(b), [])
  }

  /** The beta that the update of column k is meant to apply. */
  function UpdateBeta(k: nat, beta: real): real {
    if k == 0 then beta else 1.0
  }

  // ---------------------------------------------------------------------
  // The issue order, position by position

  /** How many broadcasts precede the first update: columns 0 .. min(lookahead, nt-1). */
  function Burst(nt: nat, la: nat): nat
    requires nt >= 1
  {
    Min(la, nt - 1) + 1
  }

  /** How many loop iterations k >= 1 also issue a broadcast (of column
      k + lookahead); they are the iterations 1 .. Ahead(nt, la). */
  function Ahead(nt: nat, la: nat): nat
    requires nt >= 1
  {
    nt - Burst(nt, la)
  }

  /** d / 2, rounded down. */
  function Half(d: nat): (h: nat)
    ensures d == 2 * h || d == 2 * h + 1
  {
    if d < 2 then 0 else Half(d - 2) + 1
  }

  /** The task issued at position p. The burst fills positions 0 .. b-1 and
      update 0 follows at b; iterations 1 .. Ahead issue a broadcast and an
      update each, later iterations only an update. */
  function TaskAt(p: nat, nt: nat, mt: nat, la: nat, beta: real): Task
    requires nt >= 1 && p < 2 * nt
  {
    var b := Burst(nt, la);
    var s := Ahead(nt, la);
    if p < b then BcastTask(p, mt, la)
    else if p <= b + 2 * s then
      var d := p - b;
      var h := Half(d);
      if d == 2 * h then UpdateTask(h, UpdateBeta(h, beta))
      else BcastTask(b + h, mt, la)
    else UpdateTask(p - b - s, 1.0)
  }

  /** The whole issue sequence of one herk call. */
  function TaskGraph(nt: nat, mt: nat, la: nat, beta: real): (g: seq<Task>)
    requires nt >= 1
    ensures |g| == 2 * nt
  {
    seq(2 * nt, p requires 0 <= p < 2 * nt => TaskAt(p, nt, mt, la, beta))
  }

  /** The position at which the producer of token t is issued. */
  function Pos(t: Token, nt: nat, la: nat): int
    requires nt >= 1
  {
    var b := Burst(nt, la);
    var s := Ahead(nt, la);
    if t.kind == Bcast then (if t.k < b then t.k else b + 2 * (t.k - b) + 1)
    else (if t.k <= s then b + 2 * t.k else b + s + t.k)
  }

  /** The task that produces token t. */
  function Producer(t: Token, mt: nat, la: nat, beta: real): Task {
    if t.kind == Bcast then BcastTask(t.k, mt, la) else UpdateTask(t.k, UpdateBeta(t.k, beta))
  }

  // ---------------------------------------------------------------------
  // Properties of task sequences

  /** Each token a task consumes is produced by a task issued before it,
      so the issue order itself is a valid serial schedule. */
  ghost predicate ValidSchedule(s: seq<Task>) {
    forall i, x :: 0 <= i < |s| && x in s[i].ins ==> exists j :: 0 <= j < i && s[j].out == x
  }

  /** No token is produced twice. */
  ghost predicate UniqueOutputs(s: seq<Task>) {
    forall i, j :: 0 <= i < j < |s| ==> s[i].out != s[j].out
  }

  /** The tokens bcast[0 .. nt-1] and gemm[0 .. nt-1] are produced, and no other. */
  ghost predicate ProducesColumns(s: seq<Task>, nt: nat) {
    (forall i :: 0 <= i < |s| ==> s[i].out.k < nt) &&
    (forall t: Token :: t.k < nt ==> exists i :: 0 <= i < |s| && s[i].out == t)
  }

  /** `time` gives each issued task its start; a task that consumes a token
      starts after the previously issued task that produces it has finished
      (the meaning of OpenMP's depend(in)/depend(out) among sibling tasks).
      Any order the runtime may choose is such a `time`. */
  ghost predicate Respects(s: seq<Task>, time: seq<int>) {
    |time| == |s| &&
    forall i, j :: 0 <= j < i < |s| && s[j].out in s[i].ins ==> time[j] < time[i]
  }

  /** The tasks of one kind, in issue order. */
  function OfKind(s: seq<Task>, kind: Kind): seq<Task> {
    if s == [] then []
    else OfKind(s[..|s| - 1], kind) + (if s[|s| - 1].kind == kind then [s[|s| - 1]] else [])
  }

  // ---------------------------------------------------------------------
  // Lemmas about single tasks

  /** A broadcast of column k delivers A(r, k) and A(c, k) to lower tile
      C(r, c), which is what its update needs, and reaches no other tile. */
  lemma BcastReachesLowerTile(k: nat, mt: nat, r: int, c: int)
    ensures Sources(BcastMessages(k, mt), r, c) == if 0 <= c <= r < mt then {r, c} else {}
  {
    var msgs := BcastMessages(k, mt);
    var src := Sources(msgs, r, c);
    forall x | x in src ensures 0 <= c <= r < mt && (x == r || x == c) {
      var m :| m in msgs && (m.rowDest.Contains(r, c) || m.colDest.Contains(r, c)) && x == m.row as int;
      var i :| 0 <= i < mt && msgs[i] == m;
    }
    if 0 <= c <= r < mt {
      assert msgs[r].rowDest.Contains(r, c);
      assert msgs[c].colDest.Contains(r, c);
      assert r in src && c in src;
    }
  }

  /** Position p holds the producer of its own output token, of a column
      below nt, and Pos inverts TaskAt. */
  lemma TaskAtShape(p: nat, nt: nat, mt: nat, la: nat, beta: real)
    requires nt >= 1 && p < 2 * nt
    ensures TaskAt(p, nt, mt, la, beta).out.k < nt
    ensures TaskAt(p, nt, mt, la, beta) == Producer(TaskAt(p, nt, mt, la, beta).out, mt, la, beta)
    ensures Pos(TaskAt(p, nt, mt, la, beta).out, nt, la) == p
  {
  }

  /** Every token of a column below nt has its producer at position Pos. */
  lemma PosShape(t: Token, nt: nat, mt: nat, la: nat, beta: real)
    requires nt >= 1 && t.k < nt
    ensures 0 <= Pos(t, nt, la) < 2 * nt
    ensures TaskAt(Pos(t, nt, la), nt, mt, la, beta) == Producer(t, mt, la, beta)
  {
  }

  /** Every input of the task at position p is produced at an earlier position. */
  lemma InputsProducedEarlier(p: nat, nt: nat, mt: nat, la: nat, beta: real, x: Token)
    requires nt >= 1 && p < 2 * nt
    requires x in TaskAt(p, nt, mt, la, beta).ins
    ensures x.k < nt && 0 <= Pos(x, nt, la) < p
  {
    var t := TaskAt(p, nt, mt, la, beta);
    TaskAtShape(p, nt, mt, la, beta);
    var b := Burst(nt, la);
    if t.kind == Bcast {
      var c := t.k;
      if c <= la {
        assert c < b;
      } else {
        assert b == la + 1;
        assert x == Token(Gemm, c - b) || x == Token(Bcast, c - 1);
      }
    } else {
      assert x == Token(Bcast, t.k) || x == Token(Gemm, t.k - 1);
    }
  }

  // ---------------------------------------------------------------------
  // The properties of the whole graph

  /** The issue order is a valid serial schedule; every token bcast[0..nt-1]
      and gemm[0..nt-1] is produced, by exactly one task, and no other token is. */
  lemma TaskGraphSchedule(nt: nat, mt: nat, la: nat, beta: real)
    requires nt >= 1
    ensures ValidSchedule(TaskGraph(nt, mt, la, beta))
    ensures UniqueOutputs(TaskGraph(nt, mt, la, beta))
    ensures ProducesColumns(TaskGraph(nt, mt, la, beta), nt)
  {
    var g := TaskGraph(nt, mt, la, beta);
    forall i, x | 0 <= i < |g| && x in g[i].ins ensures exists j :: 0 <= j < i && g[j].out == x {
      InputsProducedEarlier(i, nt, mt, la, beta, x);
      var j := Pos(x, nt, la);
      PosShape(x, nt, mt, la, beta);
      assert g[j].out == x;
    }
    forall i, j | 0 <= i < j < |g| ensures g[i].out != g[j].out {
      TaskAtShape(i, nt, mt, la, beta);
      TaskAtShape(j, nt, mt, la, beta);
    }
    forall i | 0 <= i < |g| ensures g[i].out.k < nt {
      TaskAtShape(i, nt, mt, la, beta);
    }
    forall t: Token | t.k < nt ensures exists i :: 0 <= i < |g| && g[i].out == t {
      PosShape(t, nt, mt, la, beta);
      assert g[Pos(t, nt, la)].out == t;
    }
  }

  /** The number of updates issued before position p. */
  function UpdatesBefore(p: nat, nt: nat, la: nat): nat
    requires nt >= 1
  {
    var b := Burst(nt, la);
    var s := Ahead(nt, la);
    if p <= b then 0
    else if p <= b + 2 * s + 1 then Half(p - b + 1)
    else p - b - s
  }

  /** The task at position p is the next update or the next broadcast in
      column order, and the counts advance accordingly. */
  lemma StepCount(p: nat, nt: nat, mt: nat, la: nat, beta: real)
    requires nt >= 1 && p < 2 * nt
    ensures TaskAt(p, nt, mt, la, beta).kind == Gemm ==>
      UpdatesBefore(p + 1, nt, la) == UpdatesBefore(p, nt, la) + 1 &&
      TaskAt(p, nt, mt, la, beta) == UpdateTask(UpdatesBefore(p, nt, la), UpdateBeta(UpdatesBefore(p, nt, la), beta))
    ensures TaskAt(p, nt, mt, la, beta).kind == Bcast ==>
      UpdatesBefore(p + 1, nt, la) == UpdatesBefore(p, nt, la) &&
      TaskAt(p, nt, mt, la, beta) == BcastTask(BcastsBefore(p, nt, la), mt, la)
  {
    var b := Burst(nt, la);
    var s := Ahead(nt, la);
    if b <= p <= b + 2 * s {
      var d := p - b;
      assert d + 1 == 2 * Half(d + 1) || d + 1 == 2 * Half(d + 1) + 1;
      assert Half(d + 2) == Half(d) + 1;
    }
  }

  /** The update chain gemm[0], ..., gemm[n-1]: update 0 applies the
      caller's beta and every later update applies 1. */
  function Chain(n: nat, beta: real): (us: seq<Task>)
    ensures |us| == n
    ensures forall k :: 0 <= k < n ==> us[k].kind == Gemm && us[k].k == k && us[k].out == Token(Gemm, k)
  {
    seq(n, k requires 0 <= k < n => UpdateTask(k, UpdateBeta(k, beta)))
  }

  /** The broadcasts bcast[0], ..., bcast[n-1]. */
  function Bcasts(n: nat, mt: nat, la: nat): (bs: seq<Task>)
    ensures |bs| == n
    ensures forall c :: 0 <= c < n ==> bs[c].kind == Bcast && bs[c].out == Token(Bcast, c)
  {
    seq(n, c requires 0 <= c < n => BcastTask(c, mt, la))
  }

  lemma ChainSnoc(n: nat, beta: real)
    ensures Chain(n + 1, beta) == Chain(n, beta) + [UpdateTask(n, UpdateBeta(n, beta))]
  {
    var a := Chain(n + 1, beta);
    var b := Chain(n, beta) + [UpdateTask(n, UpdateBeta(n, beta))];
    forall k | 0 <= k < n + 1 ensures a[k] == b[k] {
    }
  }

  lemma BcastsSnoc(n: nat, mt: nat, la: nat)
    ensures Bcasts(n + 1, mt, la) == Bcasts(n, mt, la) + [BcastTask(n, mt, la)]
  {
  }

  lemma OfKindSnoc(s: seq<Task>, t: Task, kind: Kind)
    ensures OfKind(s + [t], kind) == OfKind(s, kind) + (if t.kind == kind then [t] else [])
  {
    assert (s + [t])[..|s|] == s;
  }

  /** Issuing the task at position q extends the updates seen so far by
      the next update of the chain, or leaves them alone. */
  lemma UpdatesStep(q: nat, nt: nat, mt: nat, la: nat, beta: real)
    requires nt >= 1 && q < 2 * nt
    ensures var n := UpdatesBefore(q, nt, la);
            var g := TaskGraph(nt, mt, la, beta);
            if UpdatesBefore(q + 1, nt, la) == n then OfKind(g[..q + 1], Gemm) == OfKind(g[..q], Gemm)
            else UpdatesBefore(q + 1, nt, la) == n + 1 &&
                 OfKind(g[..q + 1], Gemm) == OfKind(g[..q], Gemm) + [UpdateTask(n, UpdateBeta(n, beta))]
  {
    var g := TaskGraph(nt, mt, la, beta);
    assert g[..q + 1] == g[..q] + [g[q]];
    OfKindSnoc(g[..q], g[q], Gemm);
    StepCount(q, nt, mt, la, beta);
  }

  lemma {:induction false} UpdatesOfPrefix(p: nat, nt: nat, mt: nat, la: nat, beta: real)
    requires nt >= 1 && p <= 2 * nt
    ensures OfKind(TaskGraph(nt, mt, la, beta)[..p], Gemm) == Chain(UpdatesBefore(p, nt, la), beta)
  {
    if p > 0 {
      UpdatesOfPrefix(p - 1, nt, mt, la, beta);
      UpdatesStep(p - 1, nt, mt, la, beta);
      ChainSnoc(UpdatesBefore(p - 1, nt, la), beta);
    } else {
      assert TaskGraph(nt, mt, la, beta)[..0] == [];
    }
  }

  /** The number of broadcasts issued before position p. */
  function BcastsBefore(p: nat, nt: nat, la: nat): int
    requires nt >= 1
  {
    p - UpdatesBefore(p, nt, la)
  }

  /** Issuing the task at position q extends the broadcasts seen so far by
      the broadcast of the next column, or leaves them alone. */
  lemma BcastsStep(q: nat, nt: nat, mt: nat, la: nat, beta: real)
    requires nt >= 1 && q < 2 * nt
    ensures var n := BcastsBefore(q, nt, la);
            var g := TaskGraph(nt, mt, la, beta);
            if BcastsBefore(q + 1, nt, la) == n then OfKind(g[..q + 1], Bcast) == OfKind(g[..q], Bcast)
            else BcastsBefore(q + 1, nt, la) == n + 1 &&
                 OfKind(g[..q + 1], Bcast) == OfKind(g[..q], Bcast) + [BcastTask(n, mt, la)]
  {
    var g := TaskGraph(nt, mt, la, beta);
    assert g[..q + 1] == g[..q] + [g[q]];
    OfKindSnoc(g[..q], g[q], Bcast);
    StepCount(q, nt, mt, la, beta);
  }

  lemma {:induction false} BcastsOfPrefix(p: nat, nt: nat, mt: nat, la: nat, beta: real)
    requires nt >= 1 && p <= 2 * nt
    ensures BcastsBefore(p, nt, la) >= 0
    ensures OfKind(TaskGraph(nt, mt, la, beta)[..p], Bcast) == Bcasts(BcastsBefore(p, nt, la), mt, la)
  {
    if p > 0 {
      BcastsOfPrefix(p - 1, nt, mt, la, beta);
      BcastsStep(p - 1, nt, mt, la, beta);
      if BcastsBefore(p, nt, la) != BcastsBefore(p - 1, nt, la) {
        BcastsSnoc(BcastsBefore(p - 1, nt, la), mt, la);
      }
    } else {
      assert TaskGraph(nt, mt, la, beta)[..0] == [];
    }
  }

  /** Whatever the lookahead, the updates are issued as the chain
      gemm[0], ..., gemm[nt-1], and the broadcasts in column order, each
      column once. */
  lemma IssueOrderByKind(nt: nat, mt: nat, la: nat, beta: real)
    requires nt >= 1
    ensures OfKind(TaskGraph(nt, mt, la, beta), Gemm) == Chain(nt, beta)
    ensures OfKind(TaskGraph(nt, mt, la, beta), Bcast) == Bcasts(nt, mt, la)
  {
    var g := TaskGraph(nt, mt, la, beta);
    assert UpdatesBefore(2 * nt, nt, la) == nt by {
      var d := 2 * nt - Burst(nt, la) + 1;
      assert d == 2 * Half(d) || d == 2 * Half(d) + 1;
    }
    UpdatesOfPrefix(2 * nt, nt, mt, la, beta);
    BcastsOfPrefix(2 * nt, nt, mt, la, beta);
    assert g[..2 * nt] == g;
  }

  /** The updates do not depend on the lookahead at all. */
  lemma UpdatesIndependentOfLookahead(nt: nat, mt: nat, la1: nat, la2: nat, beta: real)
    requires nt >= 1
    ensures OfKind(TaskGraph(nt, mt, la1, beta), Gemm) == OfKind(TaskGraph(nt, mt, la2, beta), Gemm)
  {
    IssueOrderByKind(nt, mt, la1, beta);
    IssueOrderByKind(nt, mt, la2, beta);
  }

  // ---------------------------------------------------------------------
  // Every execution the dependencies admit

  /** In any run, the producer of each input of the task at position i
      starts before it. */
  lemma ProducerRunsFirst(nt: nat, mt: nat, la: nat, beta: real, time: seq<int>, i: nat, x: Token)
    requires nt >= 1 && Respects(TaskGraph(nt, mt, la, beta), time)
    requires i < 2 * nt && x in TaskGraph(nt, mt, la, beta)[i].ins
    ensures 0 <= Pos(x, nt, la) < i && time[Pos(x, nt, la)] < time[i]
    ensures TaskGraph(nt, mt, la, beta)[Pos(x, nt, la)] == Producer(x, mt, la, beta)
  {
    InputsProducedEarlier(i, nt, mt, la, beta, x);
    PosShape(x, nt, mt, la, beta);
  }

  /** The tasks of one kind run in column order: the task of column k
      consumes the token of the same kind and column k-1. */
  lemma {:induction false} ChainOrdered(nt: nat, mt: nat, la: nat, beta: real, time: seq<int>, kind: Kind, j: nat, k: nat)
    requires nt >= 1 && Respects(TaskGraph(nt, mt, la, beta), time)
    requires j < k < nt
    ensures 0 <= Pos(Token(kind, j), nt, la) < 2 * nt && 0 <= Pos(Token(kind, k), nt, la) < 2 * nt
    ensures time[Pos(Token(kind, j), nt, la)] < time[Pos(Token(kind, k), nt, la)]
    decreases k - j
  {
    var i := Pos(Token(kind, k), nt, la);
    PosShape(Token(kind, k), nt, mt, la, beta);
    PosShape(Token(kind, j), nt, mt, la, beta);
    var x := Token(kind, k - 1);
    assert x in TaskGraph(nt, mt, la, beta)[i].ins;
    ProducerRunsFirst(nt, mt, la, beta, time, i, x);
    if j < k - 1 {
      ChainOrdered(nt, mt, la, beta, time, kind, j, k - 1);
    }
  }

  /** The update of column k always waits for all updates of smaller
      columns, whatever order the runtime picks. */
  lemma UpdatesSerialized(nt: nat, mt: nat, la: nat, beta: real, time: seq<int>)
    requires nt >= 1
    requires Respects(TaskGraph(nt, mt, la, beta), time)
    ensures forall i, j ::
              (0 <= i < |time| && 0 <= j < |time| &&
               TaskGraph(nt, mt, la, beta)[i].kind == Gemm && TaskGraph(nt, mt, la, beta)[j].kind == Gemm &&
               TaskGraph(nt, mt, la, beta)[j].k < TaskGraph(nt, mt, la, beta)[i].k)
              ==> time[j] < time[i]
  {
    var g := TaskGraph(nt, mt, la, beta);
    forall i, j | 0 <= i < |time| && 0 <= j < |time| && g[i].kind == Gemm && g[j].kind == Gemm && g[j].k < g[i].k
      ensures time[j] < time[i]
    {
      TaskAtShape(i, nt, mt, la, beta);
      TaskAtShape(j, nt, mt, la, beta);
      ChainOrdered(nt, mt, la, beta, time, Gemm, g[j].k, g[i].k);
    }
  }

  /** Broadcasts are serialized among themselves. */
  lemma BroadcastsSerialized(nt: nat, mt: nat, la: nat, beta: real, time: seq<int>)
    requires nt >= 1
    requires Respects(TaskGraph(nt, mt, la, beta), time)
    ensures forall i, j ::
              (0 <= i < |time| && 0 <= j < |time| &&
               TaskGraph(nt, mt, la, beta)[i].kind == Bcast && TaskGraph(nt, mt, la, beta)[j].kind == Bcast &&
               TaskGraph(nt, mt, la, beta)[j].k < TaskGraph(nt, mt, la, beta)[i].k)
              ==> time[j] < time[i]
  {
    var g := TaskGraph(nt, mt, la, beta);
    forall i, j | 0 <= i < |time| && 0 <= j < |time| && g[i].kind == Bcast && g[j].kind == Bcast && g[j].k < g[i].k
      ensures time[j] < time[i]
    {
      TaskAtShape(i, nt, mt, la, beta);
      TaskAtShape(j, nt, mt, la, beta);
      ChainOrdered(nt, mt, la, beta, time, Bcast, g[j].k, g[i].k);
    }
  }

  /** Lookahead bound: a broadcast of column c waits for every update of a
      column below c - lookahead, so broadcasts never run more than
      `lookahead` columns ahead of the completed updates. */
  lemma BroadcastsBoundedByLookahead(nt: nat, mt: nat, la: nat, beta: real, time: seq<int>)
    requires nt >= 1
    requires Respects(TaskGraph(nt, mt, la, beta), time)
    ensures forall i, j ::
              (0 <= i < |time| && 0 <= j < |time| &&
               TaskGraph(nt, mt, la, beta)[i].kind == Bcast && TaskGraph(nt, mt, la, beta)[j].kind == Gemm &&
               TaskGraph(nt, mt, la, beta)[j].k + la < TaskGraph(nt, mt, la, beta)[i].k)
              ==> time[j] < time[i]
  {
    var g := TaskGraph(nt, mt, la, beta);
    forall i, j | 0 <= i < |time| && 0 <= j < |time| && g[i].kind == Bcast && g[j].kind == Gemm && g[j].k + la < g[i].k
      ensures time[j] < time[i]
    {
      TaskAtShape(i, nt, mt, la, beta);
      TaskAtShape(j, nt, mt, la, beta);
      var c := g[i].k;
      var x := Token(Gemm, c - la - 1);
      assert x in g[i].ins;
      ProducerRunsFirst(nt, mt, la, beta, time, i, x);
      if g[j].k < c - la - 1 {
        ChainOrdered(nt, mt, la, beta, time, Gemm, g[j].k, c - la - 1);
      }
    }
  }

  /** The update of column k runs after the broadcasts of columns 0 .. k. */
  lemma UpdateWaitsForBroadcasts(nt: nat, mt: nat, la: nat, beta: real, time: seq<int>)
    requires nt >= 1
    requires Respects(TaskGraph(nt, mt, la, beta), time)
    ensures forall i, j ::
              (0 <= i < |time| && 0 <= j < |time| &&
               TaskGraph(nt, mt, la, beta)[i].kind == Gemm && TaskGraph(nt, mt, la, beta)[j].kind == Bcast &&
               TaskGraph(nt, mt, la, beta)[j].k <= TaskGraph(nt, mt, la, beta)[i].k)
              ==> time[j] < time[i]
  {
    var g := TaskGraph(nt, mt, la, beta);
    forall i, j | 0 <= i < |time| && 0 <= j < |time| && g[i].kind == Gemm && g[j].kind == Bcast && g[j].k <= g[i].k
      ensures time[j] < time[i]
    {
      UpdateWaitsForBroadcast(nt, mt, la, beta, time, i, j);
    }
  }

  lemma UpdateWaitsForBroadcast(nt: nat, mt: nat, la: nat, beta: real, time: seq<int>, i: nat, j: nat)
    requires nt >= 1
    requires Respects(TaskGraph(nt, mt, la, beta), time)
    requires i < |time| && j < |time|
    requires TaskGraph(nt, mt, la, beta)[i].kind == Gemm && TaskGraph(nt, mt, la, beta)[j].kind == Bcast
    requires TaskGraph(nt, mt, la, beta)[j].k <= TaskGraph(nt, mt, la, beta)[i].k
    ensures time[j] < time[i]
  {
    var g := TaskGraph(nt, mt, la, beta);
    TaskAtShape(i, nt, mt, la, beta);
    TaskAtShape(j, nt, mt, la, beta);
    var k := g[i].k;
    var x := Token(Bcast, k);
    assert x in g[i].ins;
    ProducerRunsFirst(nt, mt, la, beta, time, i, x);
    if g[j].k < k {
      ChainOrdered(nt, mt, la, beta, time, Bcast, g[j].k, k);
    }
  }

  // ---------------------------------------------------------------------
  // What the update chain computes

  /** Sum of the first n panel contributions. */
  function Sum(p: seq<real>, n: nat): real
    requires n <= |p|
  {
    if n == 0 then 0.0 else Sum(p, n - 1) + p[n - 1]
  }

  /** The value of one tile of C after running the updates of `us` one
      after the other: update k sets C := contrib[k] + beta_k * C, where
      contrib[k] stands for that tile of alpha A(:, k) A(:, k)^H. */
  function Serial(c0: real, contrib: seq<real>, us: seq<Task>): real
    requires forall i :: 0 <= i < |us| ==> us[i].beta.Some? && us[i].k < |contrib|
  {
    if us == [] then c0
    else contrib[us[|us| - 1].k] + us[|us| - 1].beta.value * Serial(c0, contrib, us[..|us| - 1])
  }

  /** Running the chain gemm[0 .. n-1] on one tile gives
      contrib[0] + ... + contrib[n-1] + beta * c0. */
  lemma {:induction false} SerialChain(c0: real, beta: real, contrib: seq<real>, n: nat)
    requires 1 <= n <= |contrib|
    ensures Serial(c0, contrib, Chain(n, beta)) == Sum(contrib, n) + beta * c0
  {
    var us := Chain(n, beta);
    var rest := us[..n - 1];
    if n == 1 {
      assert us[0].beta == Some(beta);
      assert rest == [];
    } else {
      assert us[n - 1].beta == Some(1.0) && us[n - 1].k == n - 1;
      assert rest == Chain(n - 1, beta);
      SerialChain(c0, beta, contrib, n - 1);
      assert Serial(c0, contrib, us) == contrib[n - 1] + 1.0 * Serial(c0, contrib, rest);
    }
  }

  /** C = alpha A A^H + beta C: beta scales C exactly once, and every
      panel contributes once, for every lookahead. */
  lemma SerialUpdateResult(nt: nat, mt: nat, la: nat, beta: real, c0: real, contrib: seq<real>)
    requires nt >= 1 && |contrib| == nt
    ensures forall i :: 0 <= i < |OfKind(TaskGraph(nt, mt, la, beta), Gemm)| ==>
              OfKind(TaskGraph(nt, mt, la, beta), Gemm)[i].beta.Some? &&
              OfKind(TaskGraph(nt, mt, la, beta), Gemm)[i].k < |contrib|
    ensures Serial(c0, contrib, OfKind(TaskGraph(nt, mt, la, beta), Gemm)) == Sum(contrib, nt) + beta * c0
  {
    IssueOrderByKind(nt, mt, la, beta);
    SerialChain(c0, beta, contrib, nt);
  }
}
