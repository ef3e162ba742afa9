// The ring multiplication as it runs: every process at its own pace, each pipe
// with room for one block, and the master collecting the row blocks at the end.
module MatrixNetwork {
  import opened MatrixKernels
  import opened MatrixRing
  import opened Runs
  import opened Sums
  import Flat

  // pc[r] < 2 * (p - 1) counts the puts and gets of process r around the ring; a
  // further step of a slave puts its result, one of the master collects the next
  // slave's. ring[r] leads to the process before r, out[r] to the master.
  datatype Net = Net(pc: seq<nat>, cols: seq<seq<int>>, result: seq<seq<int>>,
                     ring: seq<seq<seq<int>>>, out: seq<seq<seq<int>>>)

  // What the processes compute with, apart from how it is computed: at(n, r) is
  // the column block that process r multiplies by in step n.
  datatype Story = Story(d: Dims, at: (nat, nat) -> nat, rowsOf: nat -> seq<int>, blk: nat -> seq<int>,
                         res: (nat, nat) -> seq<int>)

  ghost predicate StepLaw(t: Story, r: nat, n: nat) {
    t.res(r, n + 1) == Filled(BlockWindow(t.d, t.at(n, r)), t.res(r, n), t.rowsOf(r), t.blk(t.at(n, r)))
  }

  // Each process multiplies next by what the process after it multiplies by now.
  ghost predicate RotationLaw(t: Story, y: nat, n: nat) {
    t.at(n, Source(y, t.d.p)) == t.at(n + 1, y)
  }

  ghost predicate IsStory(t: Story) {
    && t.d.p > 0
    && (forall r: nat, n: nat :: StepLaw(t, r, n))
    && (forall y: nat, n: nat :: y < t.d.p ==> RotationLaw(t, y, n))
  }

  ghost predicate Shape(s: Net, p: nat) {
    |s.pc| == p && |s.cols| == p && |s.result| == p && |s.ring| == p && |s.out| == p
  }

  // Every process has multiplied its own two blocks.
  ghost predicate Start(s: Net, t: Story) {
    && Shape(s, t.d.p)
    && (forall r :: 0 <= r < t.d.p ==>
          s.pc[r] == 0 && s.cols[r] == t.blk(t.at(0, r)) && s.result[r] == t.res(r, 1) &&
          s.ring[r] == [] && s.out[r] == [])
  }

  function Source(r: nat, p: nat): nat {
    if r + 1 == p then 0 else r + 1
  }

  function RingEnd(p: nat): nat {
    if p == 0 then 0 else 2 * (p - 1)
  }

  ghost predicate Put(s: Net, s': Net, t: Story, r: nat)
    requires Shape(s, t.d.p) && r < t.d.p
  {
    && s.pc[r] < RingEnd(t.d.p) && s.pc[r] % 2 == 0
    && s.ring[r] == []
    && s' == s.(pc := s.pc[r := s.pc[r] + 1], ring := s.ring[r := [s.cols[r]]])
  }

  ghost predicate Get(s: Net, s': Net, t: Story, r: nat)
    requires Shape(s, t.d.p) && r < t.d.p
  {
    var (src, i) := (Source(r, t.d.p), s.pc[r] / 2 + 1);
    && s.pc[r] < RingEnd(t.d.p) && s.pc[r] % 2 == 1
    && src < t.d.p && s.ring[src] != []
    && var cols := s.ring[src][0];
       s' == s.(pc := s.pc[r := s.pc[r] + 1], cols := s.cols[r := cols], ring := s.ring[src := s.ring[src][1..]],
                result := s.result[r := Filled(BlockWindow(t.d, t.at(i, r)), s.result[r], t.rowsOf(r), cols)])
  }

  ghost predicate Send(s: Net, s': Net, t: Story, r: nat)
    requires Shape(s, t.d.p) && r < t.d.p
  {
    && r > 0 && s.pc[r] == RingEnd(t.d.p) && s.out[r] == []
    && s' == s.(pc := s.pc[r := s.pc[r] + 1], out := s.out[r := [s.result[r]]])
  }

  ghost predicate Collect(s: Net, s': Net, t: Story, r: nat)
    requires Shape(s, t.d.p) && r < t.d.p
  {
    var q := s.pc[0] - RingEnd(t.d.p) + 1;
    && r == 0 && 0 < q < t.d.p && s.out[q] != []
    && s' == s.(pc := s.pc[0 := s.pc[0] + 1], out := s.out[q := s.out[q][1..]],
                result := s.result[0 := Placed(s.result[0], q * PartSize(t.d), s.out[q][0])])
  }

  ghost predicate ProcessStep(s: Net, s': Net, t: Story, r: nat) {
    && Shape(s, t.d.p) && r < t.d.p
    && (Put(s, s', t, r) || Get(s, s', t, r) || Send(s, s', t, r) || Collect(s, s', t, r))
  }

  ghost predicate Step(s: Net, s': Net, t: Story) {
    exists r: nat :: ProcessStep(s, s', t, r)
  }

  ghost predicate Stuck(s: Net, t: Story) {
    forall s' :: !Step(s, s', t)
  }

  function Min(a: int, b: int): int { if a < b then a else b }

  function Puts(pc: nat, p: nat): nat { if pc < RingEnd(p) then (pc + 1) / 2 else RingEnd(p) / 2 }

  function Gets(pc: nat, p: nat): nat { if pc < RingEnd(p) then pc / 2 else RingEnd(p) / 2 }

  // How many slaves the master has collected from.
  function Taken(pc: nat, p: nat): nat { if pc < RingEnd(p) then 0 else pc - RingEnd(p) }

  function Last(r: nat, p: nat): nat {
    if r == 0 then RingEnd(p) + RingEnd(p) / 2 else RingEnd(p) + 1
  }

  ghost function MasterResult(t: Story, c: nat): seq<int> {
    Assembled(t.res(0, t.d.p), (q: nat) => t.res(q, t.d.p), PartSize(t.d), c)
  }

  ghost predicate ProcessInv(s: Net, t: Story, r: nat)
    requires Shape(s, t.d.p) && r < t.d.p
  {
    && s.pc[r] <= Last(r, t.d.p)
    && s.cols[r] == t.blk(t.at(Gets(s.pc[r], t.d.p), r))
    && s.result[r] == (if r == 0 && Taken(s.pc[0], t.d.p) > 0 then MasterResult(t, Taken(s.pc[0], t.d.p))
                       else t.res(r, Gets(s.pc[r], t.d.p) + 1))
  }

  // The pipe from process x to the one before it: at most one block, the next one.
  ghost predicate RingOk(t: Story, x: nat, puts: nat, gets: nat, queue: seq<seq<int>>) {
    && t.d.p > 0 && gets <= puts <= gets + 1
    && queue == if puts == gets then [] else [t.blk(t.at(gets, x))]
  }

  ghost predicate RingInv(s: Net, t: Story, y: nat)
    requires Shape(s, t.d.p) && y < t.d.p
  {
    var x := Source(y, t.d.p);
    RingOk(t, x, Puts(s.pc[x], t.d.p), Gets(s.pc[y], t.d.p), s.ring[x])
  }

  ghost predicate OutInv(s: Net, t: Story, q: nat)
    requires Shape(s, t.d.p) && 0 < q < t.d.p
  {
    var sent, c := s.pc[q] == RingEnd(t.d.p) + 1, Taken(s.pc[0], t.d.p);
    && (q <= c ==> sent)
    && s.out[q] == if sent && c < q then [t.res(q, t.d.p)] else []
  }

  ghost predicate Inv(s: Net, t: Story) {
    && Shape(s, t.d.p)
    && (forall r: nat :: r < t.d.p ==> ProcessInv(s, t, r))
    && (forall y: nat :: y < t.d.p ==> RingInv(s, t, y))
    && (forall q: nat :: 0 < q < t.d.p ==> OutInv(s, t, q))
  }

  lemma StartHolds(s: Net, t: Story)
    requires Start(s, t) && IsStory(t)
    ensures Inv(s, t)
  {
  }

  lemma GetKeeps(s: Net, s': Net, t: Story, r: nat)
    requires IsStory(t) && Shape(s, t.d.p) && r < t.d.p && ProcessInv(s, t, r) && RingInv(s, t, r) && Get(s, s', t, r)
    ensures ProcessInv(s', t, r)
  {
    var n := s.pc[r] / 2;
    assert RotationLaw(t, r, n);
    assert StepLaw(t, r, n + 1);
  }

  lemma CollectKeeps(s: Net, s': Net, t: Story)
    requires IsStory(t) && Shape(s, t.d.p) && ProcessInv(s, t, 0) && Collect(s, s', t, 0)
    requires OutInv(s, t, s.pc[0] - RingEnd(t.d.p) + 1)
    ensures ProcessInv(s', t, 0)
  {
    var c := s.pc[0] - RingEnd(t.d.p);
    assert Taken(s.pc[0], t.d.p) == c && Taken(s'.pc[0], t.d.p) == c + 1;
    assert s.result[0] == MasterResult(t, c);
    assert s'.result[0] == MasterResult(t, c + 1);
  }

  lemma MoverKeeps(s: Net, s': Net, t: Story, r: nat)
    requires IsStory(t) && ProcessStep(s, s', t, r) && ProcessInv(s, t, r) && RingInv(s, t, r)
    requires forall q: nat :: 0 < q < t.d.p ==> OutInv(s, t, q)
    ensures Shape(s', t.d.p) && ProcessInv(s', t, r)
  {
    if Get(s, s', t, r) {
      GetKeeps(s, s', t, r);
    } else if Collect(s, s', t, r) {
      CollectKeeps(s, s', t);
    }
  }

  // The sender's put, the receiver's get, and any other step, as the pipe that
  // leads to process y sees them.
  lemma PutEffect(s: Net, s': Net, t: Story, x: nat, y: nat)
    requires Shape(s, t.d.p) && x < t.d.p && y < t.d.p && x != y && Put(s, s', t, x)
    requires ProcessInv(s, t, x) && RingOk(t, x, Puts(s.pc[x], t.d.p), Gets(s.pc[y], t.d.p), s.ring[x])
    ensures Shape(s', t.d.p) && RingOk(t, x, Puts(s'.pc[x], t.d.p), Gets(s'.pc[y], t.d.p), s'.ring[x])
  {
  }

  lemma GetEffect(s: Net, s': Net, t: Story, x: nat, y: nat)
    requires Shape(s, t.d.p) && x == Source(y, t.d.p) && y < t.d.p && x < t.d.p && x != y && Get(s, s', t, y)
    requires RingOk(t, x, Puts(s.pc[x], t.d.p), Gets(s.pc[y], t.d.p), s.ring[x])
    ensures Shape(s', t.d.p) && RingOk(t, x, Puts(s'.pc[x], t.d.p), Gets(s'.pc[y], t.d.p), s'.ring[x])
  {
    assert s'.ring[x] == [];
  }

  lemma OtherEffect(s: Net, s': Net, t: Story, r: nat, x: nat, y: nat)
    requires ProcessStep(s, s', t, r) && y < t.d.p && x == Source(y, t.d.p) && x < t.d.p
    requires !(Put(s, s', t, r) && r == x) && !(Get(s, s', t, r) && r == y)
    ensures Shape(s', t.d.p) && s'.ring[x] == s.ring[x]
    ensures Puts(s'.pc[x], t.d.p) == Puts(s.pc[x], t.d.p) && Gets(s'.pc[y], t.d.p) == Gets(s.pc[y], t.d.p)
  {
  }

  lemma RingKept(s: Net, s': Net, t: Story, r: nat, y: nat)
    requires Inv(s, t) && ProcessStep(s, s', t, r) && y < t.d.p
    ensures Shape(s', t.d.p) && RingInv(s', t, y)
  {
    var x := Source(y, t.d.p);
    assert RingInv(s, t, y) && ProcessInv(s, t, x);
    if Put(s, s', t, r) && r == x {
      PutEffect(s, s', t, x, y);
    } else if Get(s, s', t, r) && r == y {
      GetEffect(s, s', t, x, y);
    } else {
      OtherEffect(s, s', t, r, x, y);
    }
  }

  lemma OutKept(s: Net, s': Net, t: Story, r: nat, q: nat)
    requires IsStory(t) && ProcessStep(s, s', t, r) && 0 < q < t.d.p && OutInv(s, t, q)
    requires ProcessInv(s, t, r)
    ensures Shape(s', t.d.p) && OutInv(s', t, q)
  {
  }

  lemma ProcessesKept(s: Net, s': Net, t: Story, r: nat)
    requires IsStory(t) && Inv(s, t) && ProcessStep(s, s', t, r)
    ensures Shape(s', t.d.p) && forall x: nat :: x < t.d.p ==> ProcessInv(s', t, x)
  {
    assert ProcessInv(s, t, r) && RingInv(s, t, r);
    MoverKeeps(s, s', t, r);
    forall x: nat | x < t.d.p ensures ProcessInv(s', t, x) {
      assert ProcessInv(s, t, x);
    }
  }

  lemma StepKeeps(s: Net, s': Net, t: Story, r: nat)
    requires IsStory(t) && Inv(s, t) && ProcessStep(s, s', t, r)
    ensures Inv(s', t)
  {
    assert ProcessInv(s, t, r);
    ProcessesKept(s, s', t, r);
    forall y: nat | y < t.d.p ensures RingInv(s', t, y) {
      RingKept(s, s', t, r, y);
    }
    forall q: nat | 0 < q < t.d.p ensures OutInv(s', t, q) {
      assert OutInv(s, t, q);
      OutKept(s, s', t, r, q);
    }
  }

  // --- Progress ---

  // A put waits only for a receiver that is behind, and a get for a sender that is.
  lemma PutReady(s: Net, t: Story, r: nat, y: nat)
    requires Shape(s, t.d.p) && y < t.d.p && RingInv(s, t, y) && Source(y, t.d.p) == r
    requires s.pc[r] < RingEnd(t.d.p) && s.pc[r] % 2 == 0 && s.pc[y] >= s.pc[r]
    ensures s.ring[r] == []
  {
  }

  lemma GetReady(s: Net, t: Story, r: nat)
    requires Shape(s, t.d.p) && r < t.d.p && RingInv(s, t, r)
    requires s.pc[r] < RingEnd(t.d.p) && s.pc[r] % 2 == 1 && s.pc[Source(r, t.d.p)] >= s.pc[r]
    ensures s.ring[Source(r, t.d.p)] != []
  {
  }

  lemma RingMoves(s: Net, t: Story, r: nat) returns (s': Net)
    requires Shape(s, t.d.p) && r < t.d.p && s.pc[r] < RingEnd(t.d.p)
    requires forall y: nat :: y < t.d.p ==> RingInv(s, t, y)
    requires forall q: nat :: q < t.d.p ==> s.pc[q] >= s.pc[r]
    ensures ProcessStep(s, s', t, r)
  {
    if s.pc[r] % 2 == 0 {
      PutReady(s, t, r, if r == 0 then t.d.p - 1 else r - 1);
      s' := s.(pc := s.pc[r := s.pc[r] + 1], ring := s.ring[r := [s.cols[r]]]);
      assert Put(s, s', t, r);
    } else {
      GetReady(s, t, r);
      s' := Got(s, t, r);
    }
  }

  lemma Got(s: Net, t: Story, r: nat) returns (s': Net)
    requires Shape(s, t.d.p) && r < t.d.p && s.pc[r] < RingEnd(t.d.p) && s.pc[r] % 2 == 1
    requires s.ring[Source(r, t.d.p)] != []
    ensures ProcessStep(s, s', t, r)
  {
    var (src, i) := (Source(r, t.d.p), s.pc[r] / 2 + 1);
    var cols := s.ring[src][0];
    s' := s.(pc := s.pc[r := s.pc[r] + 1], cols := s.cols[r := cols], ring := s.ring[src := s.ring[src][1..]],
             result := s.result[r := Filled(BlockWindow(t.d, t.at(i, r)), s.result[r], t.rowsOf(r), cols)]);
    assert Get(s, s', t, r);
  }

  // In a stuck state nobody is behind: all have passed every stage of the ring.
  lemma {:induction false} StuckPassesRing(s: Net, t: Story, n: nat)
    requires IsStory(t) && Inv(s, t) && Stuck(s, t) && n <= RingEnd(t.d.p)
    ensures forall r: nat :: r < t.d.p ==> s.pc[r] >= n
  {
    if n > 0 {
      StuckPassesRing(s, t, n - 1);
      forall r: nat | r < t.d.p ensures s.pc[r] >= n {
        if s.pc[r] < n {
          var s' := RingMoves(s, t, r);
          assert Step(s, s', t);
        }
      }
    }
  }

  lemma StuckSlaveSent(s: Net, t: Story, q: nat)
    requires IsStory(t) && Inv(s, t) && Stuck(s, t) && 0 < q < t.d.p && s.pc[q] >= RingEnd(t.d.p)
    ensures s.pc[q] == RingEnd(t.d.p) + 1
  {
    assert ProcessInv(s, t, q) && OutInv(s, t, q);
    if s.pc[q] == RingEnd(t.d.p) {
      var s' := s.(pc := s.pc[q := s.pc[q] + 1], out := s.out[q := [s.result[q]]]);
      assert Send(s, s', t, q);
      assert ProcessStep(s, s', t, q);
      assert Step(s, s', t);
    }
  }

  lemma StuckMasterDone(s: Net, t: Story)
    requires IsStory(t) && Inv(s, t) && Stuck(s, t) && s.pc[0] >= RingEnd(t.d.p)
    requires forall q: nat :: 0 < q < t.d.p ==> s.pc[q] == RingEnd(t.d.p) + 1
    ensures s.pc[0] == Last(0, t.d.p)
  {
    assert ProcessInv(s, t, 0);
    var q := s.pc[0] - RingEnd(t.d.p) + 1;
    if q < t.d.p {
      assert OutInv(s, t, q);
      var s' := s.(pc := s.pc[0 := s.pc[0] + 1], out := s.out[q := s.out[q][1..]],
                   result := s.result[0 := Placed(s.result[0], q * PartSize(t.d), s.out[q][0])]);
      assert Collect(s, s', t, 0);
      assert ProcessStep(s, s', t, 0);
      assert Step(s, s', t);
    }
  }

  lemma StuckMeansDone(s: Net, t: Story)
    requires IsStory(t) && Inv(s, t) && Stuck(s, t)
    ensures s.result[0] == MasterResult(t, t.d.p - 1)
    ensures forall r: nat :: r < t.d.p ==> s.pc[r] == Last(r, t.d.p)
  {
    StuckPassesRing(s, t, RingEnd(t.d.p));
    forall q: nat | 0 < q < t.d.p ensures s.pc[q] == RingEnd(t.d.p) + 1 {
      StuckSlaveSent(s, t, q);
    }
    StuckMasterDone(s, t);
    assert ProcessInv(s, t, 0);
  }

  ghost function Left(s: Net, p: nat): seq<nat> {
    seq(|s.pc|, r requires 0 <= r < |s.pc| => if s.pc[r] <= Last(r, p) then Last(r, p) - s.pc[r] else 0)
  }

  lemma LeftFalls(s: Net, s': Net, t: Story, r: nat)
    requires IsStory(t) && Inv(s, t) && ProcessStep(s, s', t, r) && Inv(s', t)
    ensures Sum(Left(s', t.d.p)) < Sum(Left(s, t.d.p))
  {
    assert ProcessInv(s', t, r);
    assert Left(s', t.d.p) == Left(s, t.d.p)[r := Left(s', t.d.p)[r]];
    SumUpdate(Left(s, t.d.p), r, Left(s', t.d.p)[r]);
  }

  ghost predicate IsRingRun(t: Story, run: seq<Net>) {
    IsRun(s => Start(s, t), (s, s') => Step(s, s', t), run)
  }

  lemma AnyStepKeeps(s: Net, s': Net, t: Story)
    requires IsStory(t) && Inv(s, t) && Step(s, s', t)
    ensures Inv(s', t) && Sum(Left(s', t.d.p)) < Sum(Left(s, t.d.p))
  {
    var r: nat :| ProcessStep(s, s', t, r);
    StepKeeps(s, s', t, r);
    LeftFalls(s, s', t, r);
  }

  lemma RunKeepsInv(t: Story, run: seq<Net>)
    requires IsStory(t) && IsRingRun(t, run)
    ensures forall n :: 0 <= n < |run| ==> Inv(run[n], t)
    ensures |run| <= Sum(Left(run[0], t.d.p)) + 1
  {
    var init, next := (s: Net) => Start(s, t), (s: Net, s': Net) => Step(s, s', t);
    var inv, rank := (s: Net) => Inv(s, t), (s: Net) => Sum(Left(s, t.d.p));
    forall s | init(s) ensures inv(s) {
      StartHolds(s, t);
    }
    forall s, s' | inv(s) && next(s, s') ensures inv(s') && rank(s') < rank(s) {
      AnyStepKeeps(s, s', t);
    }
    forall n | 0 <= n < |run| ensures Inv(run[n], t) {
      InvariantHolds(init, next, inv, run, n);
    }
    LengthBounded(init, next, inv, rank, run);
  }

  // --- The product ---

  // Process r starts with its own column block and takes the next in each step.
  function HeldBlock(n: nat, r: nat, p: nat): nat {
    if p == 0 then 0 else (n + r) % p
  }

  ghost function StoryOf(job: Job, bt: seq<int>): Story {
    Story(job.d, (n: nat, r: nat) => HeldBlock(n, r, job.d.p), (r: nat) => RowBlock(job, r),
          (k: nat) => ColBlock(job, bt, k),
          (r: nat, n: nat) => Result(job, bt, r, n))
  }

  lemma NextBlock(y: nat, n: nat, p: nat)
    requires y < p
    ensures HeldBlock(n, Source(y, p), p) == HeldBlock(n + 1, y, p)
  {
    if y + 1 == p {
      var q, r := n / p, n % p;
      Flat.Split(q, r, p);
      Flat.Split(q + 1, r, p);
      assert (q + 1) * p == q * p + p;
    }
  }

  lemma StepHolds(job: Job, bt: seq<int>, r: nat, n: nat)
    requires job.d.p > 0
    ensures StepLaw(StoryOf(job, bt), r, n)
  {
  }

  lemma StoryHolds(job: Job, bt: seq<int>)
    requires job.d.p > 0
    ensures IsStory(StoryOf(job, bt))
  {
    forall r: nat, n: nat ensures StepLaw(StoryOf(job, bt), r, n) {
      StepHolds(job, bt, r, n);
    }
    forall y: nat, n: nat | y < job.d.p ensures RotationLaw(StoryOf(job, bt), y, n) {
      NextBlock(y, n, job.d.p);
    }
  }

  lemma InvAt(job: Job, bt: seq<int>, run: seq<Net>, i: nat)
    requires ValidJob(job) && IsRingRun(StoryOf(job, bt), run) && i < |run|
    ensures Inv(run[i], StoryOf(job, bt))
  {
    StoryHolds(job, bt);
    RunKeepsInv(StoryOf(job, bt), run);
  }

  // In step n process r holds column block (r + n) mod p, in every run.
  lemma EveryRunRotates(job: Job, bt: seq<int>, run: seq<Net>, i: nat, r: nat)
    requires ValidJob(job) && IsRingRun(StoryOf(job, bt), run) && i < |run| && r < job.d.p
    ensures Shape(run[i], job.d.p)
    ensures Turns(run[i].pc[r], job.d.p) >= 0
    ensures run[i].cols[r] == ColBlock(job, bt, (r + Turns(run[i].pc[r], job.d.p)) % job.d.p)
  {
    InvAt(job, bt, run, i);
    assert ProcessInv(run[i], StoryOf(job, bt), r);
    HeldAfter(run[i].pc[r], r, job.d.p);
  }

  // How often a process has turned the ring: once for each put and get, up to p - 1.
  function Turns(pc: nat, p: nat): int {
    if pc < 2 * (p - 1) then pc / 2 else p - 1
  }

  lemma HeldAfter(pc: nat, r: nat, p: nat)
    requires p > 0
    ensures Turns(pc, p) == Gets(pc, p) && HeldBlock(Gets(pc, p), r, p) == (r + Turns(pc, p)) % p
  {
  }

  lemma {:induction false} SameAssembly(first: seq<int>, part: nat -> seq<int>, part': nat -> seq<int>,
                                        size: nat, c: nat)
    requires forall q: nat :: part(q) == part'(q)
    ensures Assembled(first, part, size, c) == Assembled(first, part', size, c)
  {
    if c > 0 {
      SameAssembly(first, part, part', size, c - 1);
    }
  }

  lemma MasterIsAssembled(job: Job, bt: seq<int>, c: nat)
    ensures MasterResult(StoryOf(job, bt), c)
            == Assembled(Result(job, bt, 0, job.d.p), Part(job, bt), PartSize(job.d), c)
  {
    var t := StoryOf(job, bt);
    SameAssembly(t.res(0, job.d.p), (q: nat) => t.res(q, t.d.p), Part(job, bt), PartSize(job.d), c);
  }

  // No run is longer than the puts, gets, sends and collects there are.
  lemma EveryRunEnds(job: Job, bt: seq<int>, run: seq<Net>)
    requires ValidJob(job) && IsRingRun(StoryOf(job, bt), run)
    ensures |run| <= Sum(Left(run[0], job.d.p)) + 1
  {
    StoryHolds(job, bt);
    RunKeepsInv(StoryOf(job, bt), run);
  }

  // Where a run can go no further, the master holds the product of the two
  // matrices, at every entry.
  lemma EveryMaximalRunMultiplies(job: Job, bt: seq<int>, run: seq<Net>, i: nat, j: nat)
    requires ValidJob(job) && IsTranspose(job, bt) && IsRingRun(StoryOf(job, bt), run)
    requires Stuck(run[|run| - 1], StoryOf(job, bt)) && i < job.d.p * job.d.rows && j < Width(job.d)
    ensures Shape(run[|run| - 1], job.d.p)
    ensures var product := run[|run| - 1].result[0];
      Flat.Index(i, j, Width(job.d)) < |product| &&
      product[Flat.Index(i, j, Width(job.d))] == Product(job, i, j, job.d.inner)
  {
    StoryHolds(job, bt);
    InvAt(job, bt, run, |run| - 1);
    StuckMeansDone(run[|run| - 1], StoryOf(job, bt));
    MasterIsAssembled(job, bt, job.d.p - 1);
    MasterHoldsProduct(job, bt, i, j);
  }

  lemma EndedIsStuck(s: Net, next: (Net, Net) -> bool, t: Story)
    requires Ended(next, s) && forall s, s' :: next(s, s') <==> Step(s, s', t)
    ensures Stuck(s, t)
  {
    forall s' ensures !Step(s, s', t) {
      assert !next(s, s');
    }
  }

  // There is such a run, for any two matrices: every run can be continued to one that
  // ends.
  lemma SomeRunEnds(job: Job, bt: seq<int>) returns (run: seq<Net>)
    requires ValidJob(job)
    ensures IsRingRun(StoryOf(job, bt), run) && Stuck(run[|run| - 1], StoryOf(job, bt))
  {
    var t := StoryOf(job, bt);
    var p := t.d.p;
    StoryHolds(job, bt);
    var s := Net(seq(p, _ => 0), seq(p, r requires 0 <= r => t.blk(t.at(0, r))),
                 seq(p, r requires 0 <= r => t.res(r, 1)), seq(p, _ => []), seq(p, _ => []));
    var init, next := (s: Net) => Start(s, t), (s: Net, s': Net) => Step(s, s', t);
    var inv, rank := (s: Net) => Inv(s, t), (s: Net) => Sum(Left(s, p));
    forall s | init(s) ensures inv(s) {
      StartHolds(s, t);
    }
    forall s, s' | inv(s) && next(s, s') ensures inv(s') && rank(s') < rank(s) {
      AnyStepKeeps(s, s', t);
    }
    RunGrows(init, next, [], s);
    run := RunEnds(init, next, inv, rank, [s]);
    EndedIsStuck(run[|run| - 1], next, t);
  }
}
