// The pipelined elimination: one process per row, each at its own pace. Process
// r gets the finished rows before its own from process r - 1, eliminates them,
// and forwards them to process r + 1 followed by its own finished row. Both
// versions are covered: the one that copies rows through a byte ring with room
// for one row, and the one that fills the two slots of a slot ring in place, of
// which at most one is committed and unread.
module GaussPipeline {
  import opened Gauss
  import opened Runs
  import opened Sums

  datatype Mode = Copying | InPlace

  datatype Job<!F> = Job(ar: Arith<F>, m: seq<Row<F>>, dim: nat, mode: Mode)

  // pc[r] == 3 * i + stage: in stage 0 process r is about to get row i (or, for
  // i == r, to finish its own), in stage 1 to pass row i on, in stage 2 it waits
  // inside the commit. chan[r] leads from process r to process r + 1.
  datatype Net<F> = Net(pc: seq<nat>, own: seq<Row<F>>, held: seq<Row<F>>, chan: seq<seq<Row<F>>>)

  ghost predicate Shape<F>(s: Net<F>, dim: nat) {
    |s.pc| == dim && |s.own| == dim && |s.held| == dim && |s.chan| == dim
  }

  ghost predicate Start<F>(s: Net<F>, job: Job<F>) {
    && IsMatrix(job.m, job.dim) && Shape(s, job.dim)
    && s.own == job.m
    && (forall r :: 0 <= r < job.dim ==> s.pc[r] == 0 && s.chan[r] == [])
  }

  function AfterRow(pc: nat, r: nat, dim: nat): nat {
    if r + 1 == dim then pc + 3 else pc + 1
  }

  ghost predicate Get<F>(s: Net<F>, s': Net<F>, job: Job<F>, r: nat)
    requires Shape(s, job.dim) && r < job.dim
  {
    var i := s.pc[r] / 3;
    && s.pc[r] % 3 == 0 && i < r && s.chan[r - 1] != []
    && var row := s.chan[r - 1][0];
       && |row| == |s.own[r]| == job.dim + 2
       && s' == Net(s.pc[r := AfterRow(s.pc[r], r, job.dim)],
                    s.own[r := Eliminate(job.ar, s.own[r], row, i, job.dim)],
                    s.held[r := row], s.chan[r - 1 := s.chan[r - 1][1..]])
  }

  ghost predicate Finish<F>(s: Net<F>, s': Net<F>, job: Job<F>, r: nat)
    requires Shape(s, job.dim) && r < job.dim
  {
    && s.pc[r] == 3 * r && |s.own[r]| == job.dim + 2
    && var row := Divide(job.ar, s.own[r], r, job.dim);
       s' == s.(pc := s.pc[r := AfterRow(s.pc[r], r, job.dim)], own := s.own[r := row], held := s.held[r := row])
  }

  // A put into the byte ring waits for room and copies the row. A commit marks
  // the slot first, but no reader may take the slot before the commit returns, and
  // it returns only when the other slot has been read.
  ghost predicate Put<F>(s: Net<F>, s': Net<F>, job: Job<F>, r: nat)
    requires Shape(s, job.dim) && r < job.dim
  {
    && job.mode == Copying && s.pc[r] % 3 == 1 && s.chan[r] == []
    && s' == s.(pc := s.pc[r := s.pc[r] + 2], chan := s.chan[r := [s.held[r]]])
  }

  ghost predicate Commit<F>(s: Net<F>, s': Net<F>, job: Job<F>, r: nat)
    requires Shape(s, job.dim) && r < job.dim
  {
    && job.mode == InPlace && s.pc[r] % 3 == 1
    && s' == s.(pc := s.pc[r := s.pc[r] + 1])
  }

  ghost predicate Return<F>(s: Net<F>, s': Net<F>, job: Job<F>, r: nat)
    requires Shape(s, job.dim) && r < job.dim
  {
    && s.pc[r] % 3 == 2 && s.chan[r] == []
    && s' == s.(pc := s.pc[r := s.pc[r] + 1], chan := s.chan[r := [s.held[r]]])
  }

  ghost predicate ProcessStep<F>(s: Net<F>, s': Net<F>, job: Job<F>, r: nat) {
    && Shape(s, job.dim) && r < job.dim
    && (Get(s, s', job, r) || Finish(s, s', job, r) || Put(s, s', job, r) || Commit(s, s', job, r) ||
        Return(s, s', job, r))
  }

  ghost predicate Step<F(!new)>(s: Net<F>, s': Net<F>, job: Job<F>) {
    exists r: nat :: ProcessStep(s, s', job, r)
  }

  ghost predicate Stuck<F(!new)>(s: Net<F>, job: Job<F>) {
    forall s' :: !Step(s, s', job)
  }

  // The rows of the sequential elimination, apart from how they are computed.
  datatype Target<F> = Target(red: (nat, nat) -> Row<F>, fin: nat -> Row<F>)

  ghost predicate RowLaw<F>(t: Target<F>, job: Job<F>, r: nat, i: nat) {
    && |t.red(r, i)| == |t.fin(i)| == job.dim + 2
    && (i < job.dim ==> t.red(r, i + 1) == Eliminate(job.ar, t.red(r, i), t.fin(i), i, job.dim))
    && (i == r && r < job.dim ==> t.fin(r) == Divide(job.ar, t.red(r, r), r, job.dim))
  }

  ghost predicate IsTarget<F>(t: Target<F>, job: Job<F>) {
    forall r: nat, i: nat :: r < job.dim && i < job.dim ==> RowLaw(t, job, r, i)
  }

  // Rows process r has consumed, its own included, and rows it has passed on.
  function Taken(pc: nat): nat { pc / 3 + if pc % 3 == 0 then 0 else 1 }

  function Passed(pc: nat): nat { pc / 3 }

  function Min(a: int, b: int): int { if a < b then a else b }

  ghost predicate ProcessInv<F>(s: Net<F>, t: Target<F>, job: Job<F>, r: nat)
    requires Shape(s, job.dim) && r < job.dim
  {
    && s.pc[r] <= 3 * (r + 1)
    && (r + 1 == job.dim ==> s.pc[r] % 3 == 0)
    && s.own[r] == (if Taken(s.pc[r]) <= r then t.red(r, Taken(s.pc[r])) else t.fin(r))
    && (s.pc[r] % 3 != 0 ==> s.held[r] == t.fin(s.pc[r] / 3))
  }

  // A channel holds the finished rows the receiver has yet to get, in order.
  ghost predicate ChannelOk<F>(px: nat, py: nat, queue: seq<Row<F>>, t: Target<F>, x: nat) {
    var got := Min(Taken(py), x + 1);
    && |queue| == Passed(px) - got
    && forall k :: 0 <= k < |queue| ==> queue[k] == t.fin(got + k)
  }

  ghost predicate ChannelInv<F>(s: Net<F>, t: Target<F>, job: Job<F>, x: nat)
    requires Shape(s, job.dim) && x + 1 < job.dim
  {
    ChannelOk(s.pc[x], s.pc[x + 1], s.chan[x], t, x)
  }

  ghost predicate Inv<F>(s: Net<F>, t: Target<F>, job: Job<F>) {
    && Shape(s, job.dim)
    && (forall r: nat :: r < job.dim ==> ProcessInv(s, t, job, r))
    && (forall x: nat :: x + 1 < job.dim ==> ChannelInv(s, t, job, x))
  }

  lemma StartHolds<F>(s: Net<F>, t: Target<F>, job: Job<F>)
    requires Start(s, job)
    requires forall r: nat :: r < job.dim ==> t.red(r, 0) == job.m[r]
    ensures Inv(s, t, job)
  {
  }

  lemma MoverKeeps<F>(s: Net<F>, s': Net<F>, t: Target<F>, job: Job<F>, r: nat)
    requires Inv(s, t, job) && IsTarget(t, job) && ProcessStep(s, s', job, r)
    ensures Shape(s', job.dim) && ProcessInv(s', t, job, r)
  {
    assert ProcessInv(s, t, job, r);
    if Get(s, s', job, r) {
      GetKeeps(s, s', t, job, r);
    } else if Finish(s, s', job, r) {
      assert RowLaw(t, job, r, r);
    }
  }

  lemma GetKeeps<F>(s: Net<F>, s': Net<F>, t: Target<F>, job: Job<F>, r: nat)
    requires Inv(s, t, job) && IsTarget(t, job) && Shape(s, job.dim) && r < job.dim && Get(s, s', job, r)
    ensures ProcessInv(s', t, job, r)
  {
    var i := s.pc[r] / 3;
    assert ProcessInv(s, t, job, r) && ChannelInv(s, t, job, r - 1);
    assert s.chan[r - 1][0] == t.fin(i);
    assert RowLaw(t, job, r, i);
  }

  // The sender moves: its channel grows by the row it holds, when it puts.
  lemma SenderKeeps<F>(px: nat, px': nat, py: nat, queue: seq<Row<F>>, queue': seq<Row<F>>, t: Target<F>, x: nat)
    requires ChannelOk(px, py, queue, t, x)
    requires
      || (queue' == queue && Passed(px') == Passed(px))
      || (Passed(px') == Passed(px) + 1 && queue' == queue + [t.fin(px / 3)])
    ensures ChannelOk(px', py, queue', t, x)
  {
  }

  // The receiver moves: its channel loses the oldest row, when it gets.
  lemma ReceiverKeeps<F>(px: nat, py: nat, py': nat, queue: seq<Row<F>>, queue': seq<Row<F>>, t: Target<F>, x: nat)
    requires ChannelOk(px, py, queue, t, x)
    requires
      || (queue' == queue && Min(Taken(py'), x + 1) == Min(Taken(py), x + 1))
      || (queue != [] && queue' == queue[1..] && Taken(py) < x + 1 && Taken(py') == Taken(py) + 1)
    ensures ChannelOk(px, py', queue', t, x)
  {
    var got, got' := Min(Taken(py), x + 1), Min(Taken(py'), x + 1);
    forall k | 0 <= k < |queue'| ensures queue'[k] == t.fin(got' + k) {
      if queue' != queue {
        assert queue[k + 1] == t.fin(got + (k + 1));
      }
    }
  }

  lemma SenderEffect<F>(s: Net<F>, s': Net<F>, t: Target<F>, job: Job<F>, x: nat)
    requires Shape(s, job.dim) && ProcessStep(s, s', job, x) && x + 1 < job.dim && ProcessInv(s, t, job, x)
    ensures Shape(s', job.dim) && s'.pc[x + 1] == s.pc[x + 1]
    ensures
      || (s'.chan[x] == s.chan[x] && Passed(s'.pc[x]) == Passed(s.pc[x]))
      || (Passed(s'.pc[x]) == Passed(s.pc[x]) + 1 && s'.chan[x] == s.chan[x] + [t.fin(s.pc[x] / 3)])
  {
  }

  lemma ReceiverEffect<F>(s: Net<F>, s': Net<F>, t: Target<F>, job: Job<F>, x: nat)
    requires Shape(s, job.dim) && ProcessStep(s, s', job, x + 1) && x + 1 < job.dim && ProcessInv(s, t, job, x + 1)
    ensures Shape(s', job.dim) && s'.pc[x] == s.pc[x]
    ensures
      var py, py' := s.pc[x + 1], s'.pc[x + 1];
      || (s'.chan[x] == s.chan[x] && Min(Taken(py'), x + 1) == Min(Taken(py), x + 1))
      || (s.chan[x] != [] && s'.chan[x] == s.chan[x][1..] && Taken(py) < x + 1 && Taken(py') == Taken(py) + 1)
  {
  }

  lemma ChannelKept<F>(s: Net<F>, s': Net<F>, t: Target<F>, job: Job<F>, r: nat, x: nat)
    requires Inv(s, t, job) && ProcessStep(s, s', job, r) && x + 1 < job.dim
    ensures Shape(s', job.dim) && ChannelInv(s', t, job, x)
  {
    assert ChannelInv(s, t, job, x);
    assert ProcessInv(s, t, job, x) && ProcessInv(s, t, job, x + 1);
    if r == x {
      SenderEffect(s, s', t, job, x);
      SenderKeeps(s.pc[x], s'.pc[x], s.pc[x + 1], s.chan[x], s'.chan[x], t, x);
    } else if r == x + 1 {
      ReceiverEffect(s, s', t, job, x);
      ReceiverKeeps(s.pc[x], s.pc[x + 1], s'.pc[x + 1], s.chan[x], s'.chan[x], t, x);
    } else {
      assert s'.pc[x] == s.pc[x] && s'.pc[x + 1] == s.pc[x + 1] && s'.chan[x] == s.chan[x];
    }
  }

  lemma StepKeeps<F>(s: Net<F>, s': Net<F>, t: Target<F>, job: Job<F>, r: nat)
    requires Inv(s, t, job) && IsTarget(t, job) && ProcessStep(s, s', job, r)
    ensures Inv(s', t, job)
  {
    MoverKeeps(s, s', t, job, r);
    forall x: nat | x < job.dim ensures ProcessInv(s', t, job, x) {
      assert ProcessInv(s, t, job, x);
    }
    forall x: nat | x + 1 < job.dim ensures ChannelInv(s', t, job, x) {
      ChannelKept(s, s', t, job, r, x);
    }
  }

  // In a stuck state every process has passed every row: by induction on the row
  // and then the process, since a get waits only for the process before, and a
  // put or a commit only for an earlier row of the process after.
  lemma {:induction false} StuckMeansPassed<F(!new)>(s: Net<F>, t: Target<F>, job: Job<F>, i: nat, r: nat)
    requires Inv(s, t, job) && IsTarget(t, job) && Stuck(s, job) && i <= r < job.dim
    ensures s.pc[r] / 3 > i
    decreases i, r
  {
    if i > 0 {
      StuckMeansPassed(s, t, job, i - 1, r);
      if r + 1 < job.dim {
        StuckMeansPassed(s, t, job, i - 1, r + 1);
      }
    }
    if i < r {
      StuckMeansPassed(s, t, job, i, r - 1);
    }
    if s.pc[r] / 3 <= i {
      var s' := ReadyMoves(s, t, job, i, r);
      assert Step(s, s', job);
    }
  }

  lemma ReadyMoves<F>(s: Net<F>, t: Target<F>, job: Job<F>, i: nat, r: nat) returns (s': Net<F>)
    requires Inv(s, t, job) && IsTarget(t, job) && i <= r < job.dim && s.pc[r] / 3 == i
    requires i < r ==> s.pc[r - 1] / 3 > i
    requires r + 1 < job.dim ==> s.pc[r + 1] / 3 >= i
    ensures ProcessStep(s, s', job, r)
  {
    assert ProcessInv(s, t, job, r) && RowLaw(t, job, r, Min(Taken(s.pc[r]), r)) && RowLaw(t, job, r, i);
    if s.pc[r] % 3 == 0 {
      if i == r {
        var row := Divide(job.ar, s.own[r], r, job.dim);
        s' := s.(pc := s.pc[r := AfterRow(s.pc[r], r, job.dim)], own := s.own[r := row], held := s.held[r := row]);
        assert Finish(s, s', job, r);
      } else {
        assert ChannelInv(s, t, job, r - 1);
        var row := s.chan[r - 1][0];
        assert row == t.fin(i);
        s' := Net(s.pc[r := AfterRow(s.pc[r], r, job.dim)],
                  s.own[r := Eliminate(job.ar, s.own[r], row, i, job.dim)],
                  s.held[r := row], s.chan[r - 1 := s.chan[r - 1][1..]]);
        assert Get(s, s', job, r);
      }
    } else {
      assert ChannelInv(s, t, job, r);
      if s.pc[r] % 3 == 2 {
        s' := s.(pc := s.pc[r := s.pc[r] + 1], chan := s.chan[r := [s.held[r]]]);
        assert Return(s, s', job, r);
      } else if job.mode == Copying {
        s' := s.(pc := s.pc[r := s.pc[r] + 2], chan := s.chan[r := [s.held[r]]]);
        assert Put(s, s', job, r);
      } else {
        s' := s.(pc := s.pc[r := s.pc[r] + 1]);
        assert Commit(s, s', job, r);
      }
    }
  }

  ghost function Left<F>(s: Net<F>): seq<nat> {
    seq(|s.pc|, r requires 0 <= r < |s.pc| => if s.pc[r] <= 3 * (r + 1) then 3 * (r + 1) - s.pc[r] else 0)
  }

  lemma LeftFalls<F>(s: Net<F>, s': Net<F>, t: Target<F>, job: Job<F>, r: nat)
    requires Inv(s, t, job) && ProcessStep(s, s', job, r) && Inv(s', t, job)
    ensures Sum(Left(s')) < Sum(Left(s))
  {
    assert ProcessInv(s', t, job, r);
    assert Left(s') == Left(s)[r := Left(s')[r]];
    SumUpdate(Left(s), r, Left(s')[r]);
  }

  ghost function Sequential<F>(job: Job<F>): Target<F>
    requires IsMatrix(job.m, job.dim)
  {
    Target((r: nat, i: nat) => if r < job.dim && i <= job.dim then Reduced(job.ar, job.m, job.dim, r, i) else [],
           (i: nat) => if i < job.dim then Finished(job.ar, job.m, job.dim, i) else [])
  }

  ghost predicate IsPipelineRun<F(!new)>(job: Job<F>, run: seq<Net<F>>) {
    IsRun(s => Start(s, job), (s, s') => Step(s, s', job), run)
  }

  lemma SequentialIsTarget<F>(job: Job<F>, t: Target<F>)
    requires IsMatrix(job.m, job.dim) && t == Sequential(job)
    ensures IsTarget(t, job)
  {
    forall r: nat, i: nat | r < job.dim && i < job.dim ensures RowLaw(t, job, r, i) {
    }
  }

  lemma AnyStepKeeps<F(!new)>(s: Net<F>, s': Net<F>, t: Target<F>, job: Job<F>)
    requires Inv(s, t, job) && IsTarget(t, job) && Step(s, s', job)
    ensures Inv(s', t, job) && Sum(Left(s')) < Sum(Left(s))
  {
    var r: nat :| ProcessStep(s, s', job, r);
    StepKeeps(s, s', t, job, r);
    LeftFalls(s, s', t, job, r);
  }

  lemma RunKeepsInv<F(!new)>(job: Job<F>, run: seq<Net<F>>, t: Target<F>)
    requires IsMatrix(job.m, job.dim) && IsPipelineRun(job, run) && t == Sequential(job)
    ensures IsTarget(t, job)
    ensures forall i :: 0 <= i < |run| ==> Inv(run[i], t, job)
    ensures |run| <= Sum(Left(run[0])) + 1
  {
    SequentialIsTarget(job, t);
    var init, next := (s: Net<F>) => Start(s, job), (s: Net<F>, s': Net<F>) => Step(s, s', job);
    var inv, rank := (s: Net<F>) => Inv(s, t, job), (s: Net<F>) => Sum(Left(s));
    forall s | init(s) ensures inv(s) {
      StartHolds(s, t, job);
    }
    forall s, s' | inv(s) && next(s, s') ensures inv(s') && rank(s') < rank(s) {
      AnyStepKeeps(s, s', t, job);
    }
    forall i | 0 <= i < |run| ensures Inv(run[i], t, job) {
      InvariantHolds(init, next, inv, run, i);
    }
    LengthBounded(init, next, inv, rank, run);
  }

  // In every state of every run, what is under way between two processes is the
  // finished rows of the sequential elimination, in order and without a gap.
  lemma ChannelsCarryFinishedRows<F(!new)>(job: Job<F>, run: seq<Net<F>>, n: nat, x: nat, k: nat)
    requires IsMatrix(job.m, job.dim) && IsPipelineRun(job, run) && n < |run| && x + 1 < job.dim
    ensures Shape(run[n], job.dim)
    ensures var got := Min(Taken(run[n].pc[x + 1]), x + 1);
      |run[n].chan[x]| == Passed(run[n].pc[x]) - got
      && (k < |run[n].chan[x]| ==> got + k <= x && run[n].chan[x][k] == Finished(job.ar, job.m, job.dim, got + k))
  {
    var t := Sequential(job);
    RunKeepsInv(job, run, t);
    assert ChannelInv(run[n], t, job, x) && ProcessInv(run[n], t, job, x);
  }

  // Every run ends, and where it can go no further every process holds its row
  // of the sequential result and nothing is left in the channels.
  lemma EveryMaximalRunFinishes<F(!new)>(job: Job<F>, run: seq<Net<F>>)
    requires IsMatrix(job.m, job.dim) && IsPipelineRun(job, run)
    ensures |run| <= Sum(Left(run[0])) + 1
    ensures var last := run[|run| - 1];
      Stuck(last, job) ==>
        && Shape(last, job.dim)
        && (forall r :: 0 <= r < job.dim ==> last.own[r] == Finished(job.ar, job.m, job.dim, r))
        && (forall x :: 0 <= x < job.dim - 1 ==> last.chan[x] == [])
  {
    var t, last := Sequential(job), run[|run| - 1];
    RunKeepsInv(job, run, t);
    if Stuck(last, job) {
      forall r: nat | r < job.dim ensures last.own[r] == t.fin(r) && last.pc[r] == 3 * (r + 1) {
        StuckMeansPassed(last, t, job, r, r);
        assert ProcessInv(last, t, job, r);
      }
      forall x: nat | x + 1 < job.dim ensures last.chan[x] == [] {
        assert ChannelInv(last, t, job, x);
      }
    }
  }

  lemma EndedIsStuck<F(!new)>(s: Net<F>, next: (Net<F>, Net<F>) -> bool, job: Job<F>)
    requires Ended(next, s) && forall s, s' :: next(s, s') <==> Step(s, s', job)
    ensures Stuck(s, job)
  {
    forall s' ensures !Step(s, s', job) {
      assert !next(s, s');
    }
  }

  // There is such a run, from any matrix: every run can be continued to one that ends.
  lemma SomeRunFinishes<F(!new)>(job: Job<F>) returns (run: seq<Net<F>>)
    requires IsMatrix(job.m, job.dim)
    ensures IsPipelineRun(job, run) && Stuck(run[|run| - 1], job)
  {
    var t, n := Sequential(job), job.dim;
    var s := Net(seq(n, _ => 0), job.m, job.m, seq(n, _ => []));
    SequentialIsTarget(job, t);
    var init, next := (s: Net<F>) => Start(s, job), (s: Net<F>, s': Net<F>) => Step(s, s', job);
    var inv, rank := (s: Net<F>) => Inv(s, t, job), (s: Net<F>) => Sum(Left(s));
    forall s | init(s) ensures inv(s) {
      StartHolds(s, t, job);
    }
    forall s, s' | inv(s) && next(s, s') ensures inv(s') && rank(s') < rank(s) {
      AnyStepKeeps(s, s', t, job);
    }
    RunGrows(init, next, [], s);
    run := RunEnds(init, next, inv, rank, [s]);
    EndedIsStuck(run[|run| - 1], next, job);
  }

  // The parallel result, row by row, is what the sequential program leaves in
  // its matrix.
  method SequentialAgrees<F(!new)>(job: Job<F>, a: array2<F>, ghost run: seq<Net<F>>)
    requires a.Length0 == job.dim && a.Length1 == job.dim + 2 && Rows(a) == job.m
    requires IsPipelineRun(job, run) && Stuck(run[|run| - 1], job)
    modifies a
    ensures Rows(a) == run[|run| - 1].own
  {
    EveryMaximalRunFinishes(job, run);
    GaussianSeq(job.ar, a, job.dim);
    assert Rows(a) == run[|run| - 1].own;
  }
}
