// The all-to-all skeleton: the participant of the smallest rank collects one
// value from each of the others and sends the whole array back, round after round.
module AllToAll {
  import opened ListAlgebra
  import opened Runs
  import opened Sums

  // --- The structure ---

  // The root is the smallest rank of the list.
  method FindRoot(plist: array<int>) returns (root: int)
    requires plist.Length > 0
    ensures root in plist[..] && forall i :: 0 <= i < plist.Length ==> root <= plist[i]
  {
    root := plist[0];
    for i := 1 to plist.Length
      invariant root in plist[..i] && forall k :: 0 <= k < i ==> root <= plist[k]
    {
      if plist[i] < root {
        root := plist[i];
      }
    }
    assert plist[..] == plist[..plist.Length];
  }

  // The order in which values appear in the result: the root, then the others as
  // they stand in the list.
  function Order(pl: seq<int>, root: int): seq<int> {
    [root] + DiffTo(pl, [root], |pl|)
  }

  lemma {:induction false} OnlyInMeans(a: seq<int>, b: seq<int>)
    ensures forall v :: v in OnlyIn(a, b) <==> v in a && v !in b
    ensures Distinct(a) ==> Distinct(OnlyIn(a, b))
  {
    if a != [] {
      OnlyInMeans(a[..|a| - 1], b);
      assert a == a[..|a| - 1] + [a[|a| - 1]];
    }
  }

  // Of a list without repetitions every rank appears once, nothing else appears,
  // and all participants agree on the order.
  lemma OrderMeans(pl: seq<int>, root: int)
    requires Distinct(pl) && root in pl
    ensures forall v :: v in Order(pl, root) <==> v in pl
    ensures Distinct(Order(pl, root)) && Order(pl, root) == [root] + OnlyIn(pl, [root])
  {
    forall j: nat | j < |pl| ensures pl[j] !in pl[..j] {
    }
    DiffExactlyWhen(pl, [root]);
    OnlyInMeans(pl, [root]);
  }

  // --- The rounds, every participant at its own pace ---

  // others participants besides the root, rounds to go, and what participant i
  // puts in: the root is participant 0.
  datatype Job<!T> = Job(others: nat, rounds: nat, input: (nat, nat) -> T)

  // In stage 0 of a round the root sets its own entry, in stages 1 to others it
  // collects, and in the following ones it replicates. The others put in stage 0
  // and get in stage 1.
  datatype Place = Place(round: nat, stage: nat)

  // up and down are the pipes of each other participant, with room for one value
  // and for one array.
  datatype Net<T> = Net(root: Place, rootOut: seq<T>, at: seq<Place>, out: seq<seq<T>>,
                        up: seq<seq<T>>, down: seq<seq<seq<T>>>)

  ghost predicate Shape<T>(s: Net<T>, job: Job<T>) {
    |s.at| == |s.out| == |s.up| == |s.down| == job.others && |s.rootOut| == job.others + 1
  }

  ghost predicate Start<T>(s: Net<T>, job: Job<T>) {
    && Shape(s, job) && s.root == Place(0, 0)
    && (forall j :: 0 <= j < job.others ==> s.at[j] == Place(0, 0) && s.up[j] == [] && s.down[j] == [])
  }

  function RootNext(p: Place, others: nat): Place {
    if p.stage >= 2 * others then Place(p.round + 1, 0) else Place(p.round, p.stage + 1)
  }

  ghost predicate Assign<T>(s: Net<T>, s': Net<T>, job: Job<T>)
    requires Shape(s, job)
  {
    && s.root.round < job.rounds && s.root.stage == 0
    && s' == s.(root := RootNext(s.root, job.others), rootOut := s.rootOut[0 := job.input(0, s.root.round)])
  }

  ghost predicate Collect<T>(s: Net<T>, s': Net<T>, job: Job<T>, j: nat)
    requires Shape(s, job) && j < job.others
  {
    && s.root.round < job.rounds && s.root.stage == j + 1 && s.up[j] != []
    && s' == s.(root := RootNext(s.root, job.others), rootOut := s.rootOut[j + 1 := s.up[j][0]],
                up := s.up[j := s.up[j][1..]])
  }

  ghost predicate Replicate<T>(s: Net<T>, s': Net<T>, job: Job<T>, j: nat)
    requires Shape(s, job) && j < job.others
  {
    && s.root.round < job.rounds && s.root.stage == job.others + j + 1 && s.down[j] == []
    && s' == s.(root := RootNext(s.root, job.others), down := s.down[j := [s.rootOut]])
  }

  ghost predicate Put<T>(s: Net<T>, s': Net<T>, job: Job<T>, j: nat)
    requires Shape(s, job) && j < job.others
  {
    && s.at[j].round < job.rounds && s.at[j].stage == 0 && s.up[j] == []
    && s' == s.(at := s.at[j := Place(s.at[j].round, 1)], up := s.up[j := [job.input(j + 1, s.at[j].round)]])
  }

  ghost predicate Get<T>(s: Net<T>, s': Net<T>, job: Job<T>, j: nat)
    requires Shape(s, job) && j < job.others
  {
    && s.at[j].round < job.rounds && s.at[j].stage == 1 && s.down[j] != []
    && s' == s.(at := s.at[j := Place(s.at[j].round + 1, 0)], out := s.out[j := s.down[j][0]],
                down := s.down[j := s.down[j][1..]])
  }

  ghost predicate StepOf<T>(s: Net<T>, s': Net<T>, job: Job<T>, j: nat) {
    && Shape(s, job)
    && (Assign(s, s', job) ||
        (j < job.others &&
         (Collect(s, s', job, j) || Replicate(s, s', job, j) || Put(s, s', job, j) || Get(s, s', job, j))))
  }

  ghost predicate Step<T(!new)>(s: Net<T>, s': Net<T>, job: Job<T>) {
    exists j: nat :: StepOf(s, s', job, j)
  }

  ghost predicate Stuck<T(!new)>(s: Net<T>, job: Job<T>) {
    forall s' :: !Step(s, s', job)
  }

  // The array of one round.
  function Round<T>(job: Job<T>, k: nat): seq<T> {
    seq(job.others + 1, (i: nat) => job.input(i, k))
  }

  lemma RoundHolds<T>(job: Job<T>, k: nat, i: nat)
    requires i <= job.others
    ensures |Round(job, k)| == job.others + 1 && Round(job, k)[i] == job.input(i, k)
  {
  }

  // How often other j has put, and the root has collected from it and replicated
  // to it.
  function PutCount(p: Place): nat { p.round + if p.stage == 0 then 0 else 1 }

  function Collected(root: Place, j: nat): nat { root.round + if root.stage >= j + 2 then 1 else 0 }

  function Sent(root: Place, j: nat, others: nat): nat { root.round + if root.stage >= others + j + 2 then 1 else 0 }

  ghost predicate RootInv<T>(s: Net<T>, job: Job<T>)
    requires Shape(s, job)
  {
    && s.root.round <= job.rounds && s.root.stage <= 2 * job.others
    && (s.root.round == job.rounds ==> s.root.stage == 0)
    && (s.root.stage > 0 ==> s.rootOut[0] == job.input(0, s.root.round))
    && (forall i: nat :: 0 < i <= job.others && i < s.root.stage ==> s.rootOut[i] == job.input(i, s.root.round))
    && (s.root.stage == 0 && s.root.round > 0 ==> s.rootOut == Round(job, s.root.round - 1))
  }

  ghost predicate OtherInv<T>(s: Net<T>, job: Job<T>, j: nat)
    requires Shape(s, job) && j < job.others
  {
    && s.at[j].round <= job.rounds && s.at[j].stage <= 1
    && (s.at[j].round == job.rounds ==> s.at[j].stage == 0)
    && (s.at[j].round > 0 ==> s.out[j] == Round(job, s.at[j].round - 1))
    && Collected(s.root, j) <= PutCount(s.at[j]) <= Collected(s.root, j) + 1
    && s.up[j] == (if PutCount(s.at[j]) == Collected(s.root, j) then [] else [job.input(j + 1, Collected(s.root, j))])
    && s.at[j].round <= Sent(s.root, j, job.others) <= s.at[j].round + 1
    && s.down[j] == (if Sent(s.root, j, job.others) == s.at[j].round then [] else [Round(job, s.at[j].round)])
  }

  ghost predicate Inv<T>(s: Net<T>, job: Job<T>) {
    Shape(s, job) && RootInv(s, job) && forall j: nat :: j < job.others ==> OtherInv(s, job, j)
  }

  lemma StartHolds<T>(s: Net<T>, job: Job<T>)
    requires Start(s, job)
    ensures Inv(s, job)
  {
  }

  lemma RootKept<T>(s: Net<T>, s': Net<T>, job: Job<T>, j: nat)
    requires Inv(s, job) && StepOf(s, s', job, j)
    ensures Shape(s', job) && RootInv(s', job)
  {
    if j < job.others {
      assert OtherInv(s, job, j);
    }
    if s'.root.round > s.root.round {
      assert s'.rootOut == Round(job, s.root.round);
    }
  }

  // A full array is replicated.
  lemma FullArray<T>(s: Net<T>, job: Job<T>)
    requires Shape(s, job) && RootInv(s, job) && s.root.stage > job.others
    ensures s.rootOut == Round(job, s.root.round)
  {
  }

  lemma RootStepKeepsOther<T>(s: Net<T>, s': Net<T>, job: Job<T>, j: nat, i: nat)
    requires Shape(s, job) && i < job.others && RootInv(s, job) && OtherInv(s, job, i)
    requires Assign(s, s', job) || (j < job.others && (Collect(s, s', job, j) || Replicate(s, s', job, j)))
    ensures Shape(s', job) && OtherInv(s', job, i)
  {
    if j < job.others && Replicate(s, s', job, j) {
      FullArray(s, job);
    }
  }

  lemma OtherStepKeepsOther<T>(s: Net<T>, s': Net<T>, job: Job<T>, j: nat, i: nat)
    requires Shape(s, job) && i < job.others && j < job.others && OtherInv(s, job, i)
    requires Put(s, s', job, j) || Get(s, s', job, j)
    ensures Shape(s', job) && OtherInv(s', job, i)
  {
  }

  lemma OtherKept<T>(s: Net<T>, s': Net<T>, job: Job<T>, j: nat, i: nat)
    requires Shape(s, job) && i < job.others && RootInv(s, job) && OtherInv(s, job, i) && StepOf(s, s', job, j)
    ensures Shape(s', job) && OtherInv(s', job, i)
  {
    if Assign(s, s', job) || (j < job.others && (Collect(s, s', job, j) || Replicate(s, s', job, j))) {
      RootStepKeepsOther(s, s', job, j, i);
    } else {
      OtherStepKeepsOther(s, s', job, j, i);
    }
  }

  lemma StepKeeps<T>(s: Net<T>, s': Net<T>, job: Job<T>, j: nat)
    requires Inv(s, job) && StepOf(s, s', job, j)
    ensures Inv(s', job)
  {
    RootKept(s, s', job, j);
    forall i: nat | i < job.others ensures OtherInv(s', job, i) {
      assert OtherInv(s, job, i);
      OtherKept(s, s', job, j, i);
    }
  }

  // --- Progress ---

  // A participant that is behind the root can move ...
  lemma OtherMoves<T>(s: Net<T>, job: Job<T>, j: nat) returns (s': Net<T>)
    requires Inv(s, job) && j < job.others && s.at[j].round < job.rounds
    requires s.at[j].round < s.root.round || (s.at[j].round == s.root.round && s.up[j] == [] && s.at[j].stage == 0)
    ensures StepOf(s, s', job, j)
  {
    assert OtherInv(s, job, j);
    if s.at[j].stage == 0 {
      s' := s.(at := s.at[j := Place(s.at[j].round, 1)], up := s.up[j := [job.input(j + 1, s.at[j].round)]]);
      assert Put(s, s', job, j);
    } else {
      s' := s.(at := s.at[j := Place(s.at[j].round + 1, 0)], out := s.out[j := s.down[j][0]],
               down := s.down[j := s.down[j][1..]]);
      assert Get(s, s', job, j);
    }
  }

  // ... and the root waits only for one that has not put yet; it never waits to
  // replicate.
  lemma RootMoves<T>(s: Net<T>, job: Job<T>) returns (s': Net<T>, j: nat)
    requires Inv(s, job) && s.root.round < job.rounds
    ensures StepOf(s, s', job, j)
  {
    j := 0;
    if s.root.stage == 0 {
      s' := s.(root := RootNext(s.root, job.others), rootOut := s.rootOut[0 := job.input(0, s.root.round)]);
      assert Assign(s, s', job);
    } else if s.root.stage <= job.others {
      j := s.root.stage - 1;
      assert OtherInv(s, job, j);
      if s.up[j] == [] {
        s' := OtherMoves(s, job, j);
      } else {
        s' := s.(root := RootNext(s.root, job.others), rootOut := s.rootOut[j + 1 := s.up[j][0]],
                 up := s.up[j := s.up[j][1..]]);
        assert Collect(s, s', job, j);
      }
    } else {
      j := s.root.stage - job.others - 1;
      assert OtherInv(s, job, j);
      s' := s.(root := RootNext(s.root, job.others), down := s.down[j := [s.rootOut]]);
      assert Replicate(s, s', job, j);
    }
  }

  lemma StuckMeansDone<T(!new)>(s: Net<T>, job: Job<T>)
    requires Inv(s, job) && Stuck(s, job)
    ensures s.root == Place(job.rounds, 0)
    ensures forall j: nat :: j < job.others ==> s.at[j] == Place(job.rounds, 0)
  {
    if s.root.round < job.rounds {
      var s', j := RootMoves(s, job);
      assert Step(s, s', job);
    }
    forall j: nat | j < job.others ensures s.at[j] == Place(job.rounds, 0) {
      assert OtherInv(s, job, j);
      if s.at[j].round < job.rounds {
        var s' := OtherMoves(s, job, j);
        assert Step(s, s', job);
      }
    }
  }

  // --- Every run ---

  function Remaining(p: Place, rounds: nat, perRound: nat): int {
    (rounds - p.round) * perRound - p.stage
  }

  ghost function Left<T>(s: Net<T>, job: Job<T>): seq<nat> {
    seq(|s.at|, j requires 0 <= j < |s.at| =>
      if Remaining(s.at[j], job.rounds, 2) >= 0 then Remaining(s.at[j], job.rounds, 2) else 0)
  }

  ghost function Rank<T>(s: Net<T>, job: Job<T>): nat {
    var root := Remaining(s.root, job.rounds, 2 * job.others + 1);
    (if root >= 0 then root else 0) + Sum(Left(s, job))
  }

  lemma OneRoundLess(a: int, per: int)
    ensures a * per == (a - 1) * per + per
  {
  }

  lemma RoundsLeft(a: int, per: int)
    requires a >= 0 && per >= 0
    ensures a * per >= 0
  {
  }

  lemma RemainingFalls(p: Place, others: nat, rounds: nat)
    requires p.round < rounds && p.stage <= 2 * others
    ensures var per := 2 * others + 1;
      0 <= Remaining(RootNext(p, others), rounds, per) < Remaining(p, rounds, per)
  {
    OneRoundLess(rounds - p.round, 2 * others + 1);
    RoundsLeft(rounds - p.round - 1, 2 * others + 1);
  }

  lemma RankFalls<T>(s: Net<T>, s': Net<T>, job: Job<T>, j: nat)
    requires Inv(s, job) && StepOf(s, s', job, j)
    ensures Rank(s', job) < Rank(s, job)
  {
    if s'.root != s.root {
      RemainingFalls(s.root, job.others, job.rounds);
      assert Left(s', job) == Left(s, job);
    } else {
      assert OtherInv(s, job, j);
      assert Left(s', job) == Left(s, job)[j := Left(s', job)[j]];
      SumUpdate(Left(s, job), j, Left(s', job)[j]);
    }
  }

  ghost predicate IsExchangeRun<T(!new)>(job: Job<T>, run: seq<Net<T>>) {
    IsRun(s => Start(s, job), (s, s') => Step(s, s', job), run)
  }

  lemma AnyStepKeeps<T(!new)>(s: Net<T>, s': Net<T>, job: Job<T>)
    requires Inv(s, job) && Step(s, s', job)
    ensures Inv(s', job) && Rank(s', job) < Rank(s, job)
  {
    var j: nat :| StepOf(s, s', job, j);
    StepKeeps(s, s', job, j);
    RankFalls(s, s', job, j);
  }

  lemma RunKeepsInv<T(!new)>(job: Job<T>, run: seq<Net<T>>)
    requires IsExchangeRun(job, run)
    ensures forall n :: 0 <= n < |run| ==> Inv(run[n], job)
    ensures |run| <= Rank(run[0], job) + 1
  {
    var init, next := (s: Net<T>) => Start(s, job), (s: Net<T>, s': Net<T>) => Step(s, s', job);
    var inv, rank := (s: Net<T>) => Inv(s, job), (s: Net<T>) => Rank(s, job);
    forall s | init(s) ensures inv(s) {
      StartHolds(s, job);
    }
    forall s, s' | inv(s) && next(s, s') ensures inv(s') && rank(s') < rank(s) {
      AnyStepKeeps(s, s', job);
    }
    forall n | 0 <= n < |run| ensures Inv(run[n], job) {
      InvariantHolds(init, next, inv, run, n);
    }
    LengthBounded(init, next, inv, rank, run);
  }

  // In every state of every run, a participant that has finished round k holds
  // exactly the array of round k, never a mixture.
  lemma RoundsNeverMix<T(!new)>(job: Job<T>, run: seq<Net<T>>, n: nat, j: nat)
    requires IsExchangeRun(job, run) && n < |run| && j < job.others
    ensures Shape(run[n], job)
    ensures run[n].at[j].round > 0 ==> run[n].out[j] == Round(job, run[n].at[j].round - 1)
    ensures run[n].root.round > 0 && run[n].root.stage == 0 ==> run[n].rootOut == Round(job, run[n].root.round - 1)
  {
    RunKeepsInv(job, run);
    assert OtherInv(run[n], job, j);
  }

  // Every run ends, and where it can go no further all participants have finished
  // every round and hold the same array, the last one's.
  lemma EveryMaximalRunAgrees<T(!new)>(job: Job<T>, run: seq<Net<T>>)
    requires IsExchangeRun(job, run)
    ensures |run| <= Rank(run[0], job) + 1
    ensures var last := run[|run| - 1];
      Stuck(last, job) && job.rounds > 0 ==>
        && Shape(last, job)
        && last.rootOut == Round(job, job.rounds - 1)
        && (forall j: nat :: j < job.others ==> last.out[j] == Round(job, job.rounds - 1))
        && (forall j: nat :: j < job.others ==> last.up[j] == [] && last.down[j] == [])
  {
    var last := run[|run| - 1];
    RunKeepsInv(job, run);
    if Stuck(last, job) {
      StuckMeansDone(last, job);
      forall j: nat | j < job.others
        ensures (job.rounds > 0 ==> last.out[j] == Round(job, job.rounds - 1)) && last.up[j] == [] && last.down[j] == []
      {
        assert OtherInv(last, job, j);
      }
    }
  }

  lemma EndedIsStuck<T(!new)>(s: Net<T>, next: (Net<T>, Net<T>) -> bool, job: Job<T>)
    requires Ended(next, s) && forall s, s' :: next(s, s') <==> Step(s, s', job)
    ensures Stuck(s, job)
  {
    forall s' ensures !Step(s, s', job) {
      assert !next(s, s');
    }
  }

  // There is such a run, for every job: every run can be continued to one that ends.
  lemma SomeRunEnds<T(!new)>(job: Job<T>, x: T) returns (run: seq<Net<T>>)
    ensures IsExchangeRun(job, run) && Stuck(run[|run| - 1], job)
  {
    var s := Net(Place(0, 0), seq(job.others + 1, _ => x), seq(job.others, _ => Place(0, 0)),
                 seq(job.others, _ => []), seq(job.others, _ => []), seq(job.others, _ => []));
    var init, next := (s: Net<T>) => Start(s, job), (s: Net<T>, s': Net<T>) => Step(s, s', job);
    var inv, rank := (s: Net<T>) => Inv(s, job), (s: Net<T>) => Rank(s, job);
    forall s | init(s) ensures inv(s) {
      StartHolds(s, job);
    }
    forall s, s' | inv(s) && next(s, s') ensures inv(s') && rank(s') < rank(s) {
      AnyStepKeeps(s, s', job);
    }
    RunGrows(init, next, [], s);
    run := RunEnds(init, next, inv, rank, [s]);
    EndedIsStuck(run[|run| - 1], next, job);
  }

  // The exchange among the ranks of a list, each with its own input.
  ghost function JobOf<T>(pl: seq<int>, root: int, rounds: nat, data: (int, nat) -> T): Job<T>
    requires pl != []
  {
    var order := Order(pl, root);
    Job(|pl| - 1, rounds, (i: nat, k: nat) => if i < |order| then data(order[i], k) else data(root, k))
  }

  // The array of a round: the smallest rank's value, then the others' in list
  // order.
  lemma RoundIsInOrder<T>(pl: seq<int>, root: int, rounds: nat, data: (int, nat) -> T, k: nat)
    requires Distinct(pl) && root in pl
    ensures |Order(pl, root)| == |pl|
    ensures forall i :: 0 <= i < |pl| ==>
      Round(JobOf(pl, root, rounds, data), k)[i] == data(Order(pl, root)[i], k)
  {
    OrderMeans(pl, root);
    OrderLength(pl, root);
  }

  lemma {:induction false} OrderLength(pl: seq<int>, root: int)
    requires Distinct(pl) && root in pl
    ensures |OnlyIn(pl, [root])| == |pl| - 1
  {
    var front, last := pl[..|pl| - 1], pl[|pl| - 1];
    if last == root {
      WithoutRoot(front, root);
    } else {
      OrderLength(front, root);
    }
  }

  lemma {:induction false} WithoutRoot(pl: seq<int>, root: int)
    requires root !in pl
    ensures OnlyIn(pl, [root]) == pl
  {
    if pl != [] {
      WithoutRoot(pl[..|pl| - 1], root);
      assert pl == pl[..|pl| - 1] + [pl[|pl| - 1]];
    }
  }
}
