// The exchange as it runs: every node at its own pace, one pipe of 2 * m doubles
// from each node to each other node.
module PermuteNetwork {
  import opened BitReversal
  import opened ExchangePlan
  import opened Runs
  import opened Sums
  import Flat

  // pc[r] counts the steps of node r: m of the first loop, then m of the second.
  datatype Net<T> = Net(pc: seq<nat>, coeff: seq<seq<T>>, temp: seq<seq<T>>, chan: seq<seq<seq<(nat, T)>>>)

  ghost predicate Shape<T>(s: Net<T>, pl: Plan) {
    && |s.pc| == |s.coeff| == |s.temp| == |s.chan| == pl.p
    && (forall r :: 0 <= r < pl.p ==> |s.coeff[r]| == |s.temp[r]| == pl.m && |s.chan[r]| == pl.p)
  }

  ghost predicate Start<T>(s: Net<T>, pl: Plan, init: (nat, nat) -> T) {
    && Shape(s, pl)
    && (forall r: nat :: r < pl.p ==> s.pc[r] == 0)
    && (forall r: nat, i: nat :: r < pl.p && i < pl.m ==> s.coeff[r][i] == init(r, i))
    && (forall r: nat, k: nat :: r < pl.p && k < pl.p ==> s.chan[r][k] == [])
  }

  // First loop: save a coefficient that stays, or put one that goes, blocking
  // while the pipe has no room for one more pair.
  ghost predicate Save<T>(s: Net<T>, s': Net<T>, pl: Plan, r: nat)
    requires Shape(s, pl) && r < pl.p
  {
    var i := s.pc[r];
    && i < pl.m && pl.node(r, i) == r && pl.index(r, i) < pl.m
    && s' == s.(pc := s.pc[r := i + 1], temp := s.temp[r := s.temp[r][i := s.coeff[r][pl.index(r, i)]]])
  }

  ghost predicate Put<T>(s: Net<T>, s': Net<T>, pl: Plan, r: nat)
    requires Shape(s, pl) && r < pl.p
  {
    var i, k := s.pc[r], pl.node(r, s.pc[r]);
    && i < pl.m && k != r && k < pl.p
    && |s.chan[r][k]| < pl.m
    && s' == s.(pc := s.pc[r := i + 1],
                chan := s.chan[r := s.chan[r][k := s.chan[r][k] + [(pl.index(r, i), s.coeff[r][i])]]])
  }

  // Second loop: restore a saved coefficient, or get one and store it at the
  // index that came with it.
  ghost predicate Restore<T>(s: Net<T>, s': Net<T>, pl: Plan, r: nat)
    requires Shape(s, pl) && r < pl.p
  {
    var i := s.pc[r] - pl.m;
    && 0 <= i < pl.m && pl.node(r, i) == r
    && s' == s.(pc := s.pc[r := s.pc[r] + 1], coeff := s.coeff[r := s.coeff[r][i := s.temp[r][i]]])
  }

  ghost predicate Get<T>(s: Net<T>, s': Net<T>, pl: Plan, r: nat)
    requires Shape(s, pl) && r < pl.p
  {
    var i := s.pc[r] - pl.m;
    && 0 <= i < pl.m
    && var k := pl.node(r, i);
       && k != r && k < pl.p && s.chan[k][r] != []
       && var pair := s.chan[k][r][0];
          && pair.0 < pl.m
          && s' == s.(pc := s.pc[r := s.pc[r] + 1],
                      coeff := s.coeff[r := s.coeff[r][pair.0 := pair.1]],
                      chan := s.chan[k := s.chan[k][r := s.chan[k][r][1..]]])
  }

  ghost predicate NodeStep<T>(s: Net<T>, s': Net<T>, pl: Plan, r: nat) {
    && Shape(s, pl) && r < pl.p
    && (Save(s, s', pl, r) || Put(s, s', pl, r) || Restore(s, s', pl, r) || Get(s, s', pl, r))
  }

  ghost predicate Step<T(!new)>(s: Net<T>, s': Net<T>, pl: Plan) {
    exists r: nat :: NodeStep(s, s', pl, r)
  }

  ghost predicate Stuck<T(!new)>(s: Net<T>, pl: Plan) {
    forall s' :: !Step(s, s', pl)
  }

  function Puts(pc: nat, m: nat): nat { if pc < m then pc else m }

  function Gets(pc: nat, m: nat): nat { if pc < m then 0 else pc - m }

  ghost predicate NodeInv<T>(s: Net<T>, pl: Plan, init: (nat, nat) -> T, r: nat)
    requires Shape(s, pl) && r < pl.p
  {
    && s.pc[r] <= 2 * pl.m
    && s.coeff[r] == Block(pl, init, r, Gets(s.pc[r], pl.m))
    && (forall i: nat :: i < Puts(s.pc[r], pl.m) && pl.node(r, i) == r ==> s.temp[r][i] == init(r, pl.index(r, i)))
  }

  // A pipe holds the pairs that have been put and not yet got.
  ghost predicate PipeOk<T>(full: seq<(nat, T)>, put: nat, got: nat, queue: seq<(nat, T)>) {
    got <= put <= |full| && queue == full[got..put]
  }

  ghost predicate PipeInv<T>(s: Net<T>, pl: Plan, init: (nat, nat) -> T, r: nat, k: nat)
    requires Shape(s, pl) && r < pl.p && k < pl.p
  {
    PipeOk(Pairs(pl, init, r, k, pl.m), Count(pl, r, k, Puts(s.pc[r], pl.m)),
           Count(pl, k, r, Gets(s.pc[k], pl.m)), s.chan[r][k])
  }

  ghost predicate Inv<T>(s: Net<T>, pl: Plan, init: (nat, nat) -> T) {
    && Shape(s, pl)
    && (forall r: nat :: r < pl.p ==> NodeInv(s, pl, init, r))
    && (forall r: nat, k: nat :: r < pl.p && k < pl.p && r != k ==> PipeInv(s, pl, init, r, k))
  }

  lemma StartHolds<T>(s: Net<T>, pl: Plan, init: (nat, nat) -> T)
    requires Start(s, pl, init)
    ensures Inv(s, pl, init)
  {
    forall r: nat | r < pl.p ensures NodeInv(s, pl, init, r) {
      assert Gets(s.pc[r], pl.m) == 0;
      assert s.coeff[r] == Block(pl, init, r, 0);
    }
    forall r: nat, k: nat | r < pl.p && k < pl.p && r != k ensures PipeInv(s, pl, init, r, k) {
      assert Count(pl, r, k, 0) == 0 && Count(pl, k, r, 0) == 0;
      assert Puts(s.pc[r], pl.m) == 0 && Gets(s.pc[k], pl.m) == 0;
    }
  }

  // What a pair that is got says, and where it comes from.
  lemma HeadOfPipe<T>(s: Net<T>, pl: Plan, init: (nat, nat) -> T, r: nat)
    requires Mutual(pl) && Inv(s, pl, init) && r < pl.p && pl.m <= s.pc[r] < 2 * pl.m
    requires var k := pl.node(r, s.pc[r] - pl.m); k != r && k < pl.p && s.chan[k][r] != []
    ensures var k := pl.node(r, s.pc[r] - pl.m);
      var t := Count(pl, r, k, s.pc[r] - pl.m);
      && t < Count(pl, k, r, pl.m)
      && s.chan[k][r][0] == Pairs(pl, init, k, r, pl.m)[t]
      && s.chan[k][r][0].0 < pl.m
  {
    var k := pl.node(r, s.pc[r] - pl.m);
    assert PipeInv(s, pl, init, k, r);
    var i := PairOrigin(pl, init, k, r, pl.m, Count(pl, r, k, s.pc[r] - pl.m));
    assert MutualAt(pl, k, i);
  }

  lemma MoverKeeps<T>(s: Net<T>, s': Net<T>, pl: Plan, init: (nat, nat) -> T, r: nat)
    requires Mutual(pl) && Inv(s, pl, init) && NodeStep(s, s', pl, r)
    ensures Shape(s', pl) && NodeInv(s', pl, init, r)
  {
    assert NodeInv(s, pl, init, r);
    if Save(s, s', pl, r) {
      assert s.coeff[r] == Block(pl, init, r, 0);
    } else if Get(s, s', pl, r) {
      HeadOfPipe(s, pl, init, r);
    }
  }

  // Node r puts in step i.
  lemma PutKeepsPipe<T>(pl: Plan, init: (nat, nat) -> T, r: nat, k: nat, i: nat, got: nat, queue: seq<(nat, T)>)
    requires i < pl.m && PipeOk(Pairs(pl, init, r, k, pl.m), Count(pl, r, k, i), got, queue)
    ensures PipeOk(Pairs(pl, init, r, k, pl.m), Count(pl, r, k, i + 1), got,
                   queue + if pl.node(r, i) == k then [(pl.index(r, i), init(r, i))] else [])
  {
    if pl.node(r, i) == k {
      PairAt(pl, init, r, k, i, pl.m);
      var full := Pairs(pl, init, r, k, pl.m);
      var put := Count(pl, r, k, i);
      assert full[got..put + 1] == full[got..put] + [full[put]];
    } else {
      assert queue + [] == queue;
    }
  }

  // Node k gets in step i of its second loop.
  lemma GetKeepsPipe<T>(full: seq<(nat, T)>, pl: Plan, r: nat, k: nat, i: nat, put: nat, queue: seq<(nat, T)>)
    requires PipeOk(full, put, Count(pl, k, r, i), queue) && (pl.node(k, i) == r ==> queue != [])
    ensures PipeOk(full, put, Count(pl, k, r, i + 1), if pl.node(k, i) == r then queue[1..] else queue)
  {
  }

  lemma SenderEffect<T>(s: Net<T>, s': Net<T>, pl: Plan, init: (nat, nat) -> T, r: nat, b: nat)
    requires NodeStep(s, s', pl, r) && NodeInv(s, pl, init, r) && s.pc[r] < pl.m && b < pl.p && b != r
    ensures var i := s.pc[r];
      && Shape(s', pl) && s'.pc == s.pc[r := i + 1]
      && s'.chan[r][b] == s.chan[r][b] + if pl.node(r, i) == b then [(pl.index(r, i), init(r, i))] else []
  {
    assert s.coeff[r] == Block(pl, init, r, 0);
  }

  lemma ReceiverEffect<T>(s: Net<T>, s': Net<T>, pl: Plan, a: nat, r: nat)
    requires NodeStep(s, s', pl, r) && s.pc[r] >= pl.m && a < pl.p && a != r
    ensures Shape(s', pl) && Puts(s'.pc[a], pl.m) == Puts(s.pc[a], pl.m)
    ensures var i := s.pc[r] - pl.m;
      && Gets(s.pc[r], pl.m) == i && Gets(s'.pc[r], pl.m) == i + 1
      && (pl.node(r, i) == a ==> s.chan[a][r] != [])
      && s'.chan[a][r] == if pl.node(r, i) == a then s.chan[a][r][1..] else s.chan[a][r]
  {
  }

  lemma OtherPipes<T>(s: Net<T>, s': Net<T>, pl: Plan, r: nat, a: nat, b: nat)
    requires NodeStep(s, s', pl, r) && a < pl.p && b < pl.p && a != b
    requires !(r == a && s.pc[r] < pl.m) && !(r == b && s.pc[r] >= pl.m)
    ensures Shape(s', pl) && s'.chan[a][b] == s.chan[a][b]
    ensures Puts(s'.pc[a], pl.m) == Puts(s.pc[a], pl.m) && Gets(s'.pc[b], pl.m) == Gets(s.pc[b], pl.m)
  {
  }

  lemma SenderKeepsPipe<T>(s: Net<T>, s': Net<T>, pl: Plan, init: (nat, nat) -> T, r: nat, b: nat)
    requires NodeStep(s, s', pl, r) && NodeInv(s, pl, init, r) && s.pc[r] < pl.m
    requires b < pl.p && b != r && PipeInv(s, pl, init, r, b)
    ensures Shape(s', pl) && PipeInv(s', pl, init, r, b)
  {
    var i, got := s.pc[r], Count(pl, b, r, Gets(s.pc[b], pl.m));
    SenderEffect(s, s', pl, init, r, b);
    PutKeepsPipe(pl, init, r, b, i, got, s.chan[r][b]);
    assert Puts(s'.pc[r], pl.m) == i + 1 && s'.pc[b] == s.pc[b];
  }

  lemma ReceiverKeepsPipe<T>(s: Net<T>, s': Net<T>, pl: Plan, init: (nat, nat) -> T, a: nat, r: nat, i: nat)
    requires Shape(s, pl) && Shape(s', pl) && r < pl.p && a < pl.p && a != r && PipeInv(s, pl, init, a, r)
    requires Puts(s'.pc[a], pl.m) == Puts(s.pc[a], pl.m) && Gets(s.pc[r], pl.m) == i && Gets(s'.pc[r], pl.m) == i + 1
    requires pl.node(r, i) == a ==> s.chan[a][r] != []
    requires s'.chan[a][r] == if pl.node(r, i) == a then s.chan[a][r][1..] else s.chan[a][r]
    ensures PipeInv(s', pl, init, a, r)
  {
    var put := Count(pl, a, r, Puts(s.pc[a], pl.m));
    GetKeepsPipe(Pairs(pl, init, a, r, pl.m), pl, a, r, i, put, s.chan[a][r]);
  }

  lemma PipeKept<T>(s: Net<T>, s': Net<T>, pl: Plan, init: (nat, nat) -> T, r: nat, a: nat, b: nat)
    requires NodeStep(s, s', pl, r) && NodeInv(s, pl, init, r)
    requires a < pl.p && b < pl.p && a != b && PipeInv(s, pl, init, a, b)
    ensures Shape(s', pl) && PipeInv(s', pl, init, a, b)
  {
    if r == a && s.pc[r] < pl.m {
      SenderKeepsPipe(s, s', pl, init, r, b);
    } else if r == b && s.pc[r] >= pl.m {
      ReceiverEffect(s, s', pl, a, r);
      ReceiverKeepsPipe(s, s', pl, init, a, r, s.pc[r] - pl.m);
    } else {
      OtherPipes(s, s', pl, r, a, b);
    }
  }

  lemma StepKeeps<T>(s: Net<T>, s': Net<T>, pl: Plan, init: (nat, nat) -> T, r: nat)
    requires Mutual(pl) && Inv(s, pl, init) && NodeStep(s, s', pl, r)
    ensures Inv(s', pl, init)
  {
    MoverKeeps(s, s', pl, init, r);
    forall x: nat | x < pl.p ensures NodeInv(s', pl, init, x) {
      assert NodeInv(s, pl, init, x);
    }
    forall a: nat, b: nat | a < pl.p && b < pl.p && a != b ensures PipeInv(s', pl, init, a, b) {
      assert PipeInv(s, pl, init, a, b) && NodeInv(s, pl, init, r);
      PipeKept(s, s', pl, init, r, a, b);
    }
  }

  // No put ever waits: a pipe never holds more pairs than its sender has put.
  lemma PutNeverWaits<T>(s: Net<T>, pl: Plan, init: (nat, nat) -> T, r: nat)
    requires Mutual(pl) && Inv(s, pl, init) && r < pl.p && s.pc[r] < pl.m && pl.node(r, s.pc[r]) != r
    ensures pl.node(r, s.pc[r]) < pl.p && |s.chan[r][pl.node(r, s.pc[r])]| < pl.m
  {
    var k := pl.node(r, s.pc[r]);
    assert MutualAt(pl, r, s.pc[r]);
    assert PipeInv(s, pl, init, r, k);
    CountWithin(pl, r, k, s.pc[r], pl.m);
  }

  lemma FirstLoopMoves<T>(s: Net<T>, pl: Plan, init: (nat, nat) -> T, r: nat) returns (s': Net<T>)
    requires Mutual(pl) && Inv(s, pl, init) && r < pl.p && s.pc[r] < pl.m
    ensures NodeStep(s, s', pl, r)
  {
    var i := s.pc[r];
    assert MutualAt(pl, r, i);
    if pl.node(r, i) == r {
      s' := s.(pc := s.pc[r := i + 1], temp := s.temp[r := s.temp[r][i := s.coeff[r][pl.index(r, i)]]]);
      assert Save(s, s', pl, r);
    } else {
      var k := pl.node(r, i);
      PutNeverWaits(s, pl, init, r);
      s' := s.(pc := s.pc[r := i + 1],
               chan := s.chan[r := s.chan[r][k := s.chan[r][k] + [(pl.index(r, i), s.coeff[r][i])]]]);
      assert Put(s, s', pl, r);
    }
  }

  // Once every node has finished its first loop, no get waits.
  lemma SecondLoopMoves<T>(s: Net<T>, pl: Plan, init: (nat, nat) -> T, r: nat) returns (s': Net<T>)
    requires Mutual(pl) && Inv(s, pl, init) && r < pl.p && s.pc[r] < 2 * pl.m
    requires forall k: nat :: k < pl.p ==> s.pc[k] >= pl.m
    ensures NodeStep(s, s', pl, r)
  {
    var i := s.pc[r] - pl.m;
    var k := pl.node(r, i);
    assert MutualAt(pl, r, i);
    if k == r {
      s' := s.(pc := s.pc[r := s.pc[r] + 1], coeff := s.coeff[r := s.coeff[r][i := s.temp[r][i]]]);
      assert Restore(s, s', pl, r);
    } else {
      assert PipeInv(s, pl, init, k, r);
      CountsSymmetric(pl, r, k);
      PairAt(pl, init, r, k, i, pl.m);
      HeadOfPipe(s, pl, init, r);
      var pair := s.chan[k][r][0];
      s' := s.(pc := s.pc[r := s.pc[r] + 1], coeff := s.coeff[r := s.coeff[r][pair.0 := pair.1]],
               chan := s.chan[k := s.chan[k][r := s.chan[k][r][1..]]]);
      assert Get(s, s', pl, r);
    }
  }

  lemma StuckMeansDone<T(!new)>(s: Net<T>, pl: Plan, init: (nat, nat) -> T, r: nat)
    requires Mutual(pl) && Inv(s, pl, init) && Stuck(s, pl) && r < pl.p
    ensures s.pc[r] == 2 * pl.m
  {
    forall k: nat | k < pl.p ensures s.pc[k] >= pl.m {
      if s.pc[k] < pl.m {
        var s' := FirstLoopMoves(s, pl, init, k);
        assert Step(s, s', pl);
      }
    }
    assert NodeInv(s, pl, init, r);
    if s.pc[r] < 2 * pl.m {
      var s' := SecondLoopMoves(s, pl, init, r);
      assert Step(s, s', pl);
    }
  }

  ghost function Left<T>(s: Net<T>, pl: Plan): seq<nat> {
    seq(|s.pc|, r requires 0 <= r < |s.pc| => if s.pc[r] <= 2 * pl.m then 2 * pl.m - s.pc[r] else 0)
  }

  lemma LeftFalls<T>(s: Net<T>, s': Net<T>, pl: Plan, init: (nat, nat) -> T, r: nat)
    requires Inv(s, pl, init) && NodeStep(s, s', pl, r)
    ensures Sum(Left(s', pl)) < Sum(Left(s, pl))
  {
    assert NodeInv(s, pl, init, r);
    assert Left(s', pl) == Left(s, pl)[r := Left(s', pl)[r]];
    SumUpdate(Left(s, pl), r, Left(s', pl)[r]);
  }

  ghost predicate IsExchangeRun<T(!new)>(pl: Plan, init: (nat, nat) -> T, run: seq<Net<T>>) {
    IsRun(s => Start(s, pl, init), (s, s') => Step(s, s', pl), run)
  }

  lemma AnyStepKeeps<T(!new)>(s: Net<T>, s': Net<T>, pl: Plan, init: (nat, nat) -> T)
    requires Mutual(pl) && Inv(s, pl, init) && Step(s, s', pl)
    ensures Inv(s', pl, init) && Sum(Left(s', pl)) < Sum(Left(s, pl))
  {
    var r: nat :| NodeStep(s, s', pl, r);
    StepKeeps(s, s', pl, init, r);
    LeftFalls(s, s', pl, init, r);
  }

  // Every run is at most 2 * m steps a node long; no pipe ever overflows; and a
  // run that can go no further has exchanged every position and emptied the pipes.
  lemma EveryRunExchanges<T(!new)>(pl: Plan, init: (nat, nat) -> T, run: seq<Net<T>>)
    requires Mutual(pl) && IsExchangeRun(pl, init, run)
    ensures |run| <= pl.p * (2 * pl.m) + 1
    ensures forall n :: 0 <= n < |run| ==> Inv(run[n], pl, init)
    ensures var last := run[|run| - 1];
      Stuck(last, pl) ==>
        && Shape(last, pl)
        && (forall r: nat, q: nat :: r < pl.p && q < pl.m ==>
              last.coeff[r][q] == init(pl.node(r, q), pl.index(r, q)))
        && (forall r: nat, k: nat :: r < pl.p && k < pl.p && r != k ==> last.chan[r][k] == [])
  {
    var initially, next := (s: Net<T>) => Start(s, pl, init), (s: Net<T>, s': Net<T>) => Step(s, s', pl);
    var inv, rank := (s: Net<T>) => Inv(s, pl, init), (s: Net<T>) => Sum(Left(s, pl));
    forall s | initially(s) ensures inv(s) {
      StartHolds(s, pl, init);
    }
    forall s, s' | inv(s) && next(s, s') ensures inv(s') && rank(s') < rank(s) {
      AnyStepKeeps(s, s', pl, init);
    }
    forall n | 0 <= n < |run| ensures Inv(run[n], pl, init) {
      InvariantHolds(initially, next, inv, run, n);
    }
    LengthBounded(initially, next, inv, rank, run);
    SumConstant(Left(run[0], pl), 2 * pl.m);
    if Stuck(run[|run| - 1], pl) {
      Settled(run[|run| - 1], pl, init);
    }
  }

  lemma Settled<T(!new)>(s: Net<T>, pl: Plan, init: (nat, nat) -> T)
    requires Mutual(pl) && Inv(s, pl, init) && Stuck(s, pl)
    ensures forall r: nat, q: nat :: r < pl.p && q < pl.m ==> s.coeff[r][q] == init(pl.node(r, q), pl.index(r, q))
    ensures forall r: nat, k: nat :: r < pl.p && k < pl.p && r != k ==> s.chan[r][k] == []
  {
    forall r: nat | r < pl.p ensures s.pc[r] == 2 * pl.m {
      StuckMeansDone(s, pl, init, r);
    }
    forall r: nat, q: nat | r < pl.p && q < pl.m ensures s.coeff[r][q] == init(pl.node(r, q), pl.index(r, q)) {
      assert NodeInv(s, pl, init, r);
      BlockExchanged(pl, init, r, q);
    }
    forall r: nat, k: nat | r < pl.p && k < pl.p && r != k ensures s.chan[r][k] == [] {
      assert PipeInv(s, pl, init, r, k);
      CountsSymmetric(pl, r, k);
    }
  }

  lemma EndedIsStuck<T(!new)>(s: Net<T>, next: (Net<T>, Net<T>) -> bool, pl: Plan)
    requires Ended(next, s) && forall s, s' :: next(s, s') <==> Step(s, s', pl)
    ensures Stuck(s, pl)
  {
    forall s' ensures !Step(s, s', pl) {
      assert !next(s, s');
    }
  }

  // There is such a run, from any coefficients: every run can be continued to one that
  // ends.
  lemma SomeRunExchanges<T(!new)>(pl: Plan, init: (nat, nat) -> T) returns (run: seq<Net<T>>)
    requires Mutual(pl)
    ensures IsExchangeRun(pl, init, run) && Stuck(run[|run| - 1], pl)
  {
    var blocks := seq(pl.p, r requires 0 <= r => seq(pl.m, i requires 0 <= i => init(r, i)));
    var s := Net(seq(pl.p, _ => 0), blocks, blocks, seq(pl.p, _ => seq(pl.p, _ => [])));
    var initially, next := (s: Net<T>) => Start(s, pl, init), (s: Net<T>, s': Net<T>) => Step(s, s', pl);
    var inv, rank := (s: Net<T>) => Inv(s, pl, init), (s: Net<T>) => Sum(Left(s, pl));
    forall s | initially(s) ensures inv(s) {
      StartHolds(s, pl, init);
    }
    forall s, s' | inv(s) && next(s, s') ensures inv(s') && rank(s') < rank(s) {
      AnyStepKeeps(s, s', pl, init);
    }
    RunGrows(initially, next, [], s);
    run := RunEnds(initially, next, inv, rank, [s]);
    EndedIsStuck(run[|run| - 1], next, pl);
  }

  // --- Bit reversal ---

  // 2^n coefficients over p nodes of m each.
  function Reversal(n: nat, p: nat, m: nat): Plan
    requires m > 0
  {
    Plan(p, m, (r: nat, i: nat) => Rev(r * m + i, n) / m, (r: nat, i: nat) => Rev(r * m + i, n) % m)
  }

  lemma ReversalMutual(n: nat, p: nat, m: nat)
    requires m > 0 && p * m == Pow2(n)
    ensures Mutual(Reversal(n, p, m))
  {
    var pl := Reversal(n, p, m);
    forall r: nat, i: nat | r < p && i < m ensures MutualAt(pl, r, i) {
      ReversalMutualAt(n, p, m, r, i);
    }
  }

  lemma ReversalMutualAt(n: nat, p: nat, m: nat, r: nat, i: nat)
    requires m > 0 && p * m == Pow2(n) && r < p && i < m
    ensures MutualAt(Reversal(n, p, m), r, i)
  {
    var x := r * m + i;
    Flat.Inside(r, i, p, m);
    Involution(x, n);
    Flat.RowBelow(Rev(x, n), p, m);
    Flat.Join(Rev(x, n), m);
    Flat.Split(r, i, m);
  }

  // The coefficients in memory, node after node.
  function Initial<T>(all: seq<T>, m: nat): (nat, nat) -> T
    requires all != []
  {
    (r: nat, i: nat) => if r * m + i < |all| then all[r * m + i] else all[0]
  }

  // For every number of coefficients that is a power of two and every number of
  // nodes that divides it: where a run ends, the coefficient at each place is the
  // one that was at the bit-reversed place.
  lemma PermuteReverses<T(!new)>(n: nat, p: nat, m: nat, all: seq<T>, run: seq<Net<T>>, r: nat, q: nat)
    requires m > 0 && p * m == Pow2(n) == |all|
    requires IsExchangeRun(Reversal(n, p, m), Initial(all, m), run)
    requires Stuck(run[|run| - 1], Reversal(n, p, m)) && r < p && q < m
    ensures Shape(run[|run| - 1], Reversal(n, p, m)) && Rev(r * m + q, n) < |all|
    ensures run[|run| - 1].coeff[r][q] == all[Rev(r * m + q, n)]
  {
    ReversalMutual(n, p, m);
    EveryRunExchanges(Reversal(n, p, m), Initial(all, m), run);
    RevBelow(r * m + q, n);
    Flat.RowBelow(Rev(r * m + q, n), p, m);
    Flat.Join(Rev(r * m + q, n), m);
  }
}
