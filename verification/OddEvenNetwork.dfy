// The odd-even sort as it really runs: every process works at its own pace,
// puts its block into the sink of the current phase (one block of room), gets
// its partner's block, and accumulates. All interleavings are covered.
module OddEvenNetwork {
  import opened SortedBlocks
  import opened CompareAccumulate
  import opened OddEvenCounts
  import opened OddEvenSort
  import opened Runs
  import opened Sums

  // pc[r] counts half phases: 2h means process r is about to put in phase h,
  // 2h + 1 that it is about to get. out[2r + 0] and out[2r + 1] are the queues
  // of its even and its odd sink.
  datatype Net = Net(pc: seq<nat>, own: Blocks, out: seq<Blocks>)

  ghost predicate Shape(s: Net, p: nat) {
    |s.pc| == p && |s.own| == p && |s.out| == 2 * p
  }

  ghost predicate Start(s: Net, b: Blocks) {
    && Shape(s, |b|)
    && s.own == b
    && (forall r :: 0 <= r < |b| ==> s.pc[r] == 0)
    && (forall c :: 0 <= c < 2 * |b| ==> s.out[c] == [])
  }

  predicate HasPartner(r: nat, phase: nat, p: nat) {
    0 <= Partner(r, phase) < p
  }

  // Process r finds no partner in this phase and goes on.
  ghost predicate Skip(s: Net, s': Net, p: nat, r: nat)
    requires Shape(s, p) && r < p
  {
    && s.pc[r] % 2 == 0 && !HasPartner(r, s.pc[r] / 2, p)
    && s' == s.(pc := s.pc[r := s.pc[r] + 2])
  }

  // The put blocks while the sink's one-block buffer is still full.
  ghost predicate Put(s: Net, s': Net, p: nat, r: nat)
    requires Shape(s, p) && r < p
  {
    var h := s.pc[r] / 2;
    var c := 2 * r + h % 2;
    && s.pc[r] % 2 == 0 && HasPartner(r, h, p)
    && |s.out[c]| < 1
    && s' == s.(pc := s.pc[r := s.pc[r] + 1], out := s.out[c := s.out[c] + [s.own[r]]])
  }

  // The get blocks while the partner has not put its block of this phase.
  ghost predicate Get(s: Net, s': Net, p: nat, r: nat)
    requires Shape(s, p) && r < p
  {
    var h := s.pc[r] / 2;
    && s.pc[r] % 2 == 1 && HasPartner(r, h, p)
    && var q := Partner(r, h);
       var c := 2 * q + h % 2;
       && s.out[c] != []
       && var recv := s.out[c][0];
          var kept := if r < q then KeepSmall(s.own[r], recv) else KeepLarge(s.own[r], recv);
          s' == Net(s.pc[r := s.pc[r] + 1], s.own[r := kept], s.out[c := s.out[c][1..]])
  }

  ghost predicate ProcessStep(s: Net, s': Net, p: nat, r: nat) {
    && Shape(s, p) && r < p && s.pc[r] < 2 * PhasesRun(p)
    && (Skip(s, s', p, r) || Put(s, s', p, r) || Get(s, s', p, r))
  }

  ghost predicate Step(s: Net, s': Net, p: nat) {
    exists r: nat :: ProcessStep(s, s', p, r)
  }

  // No process can move.
  ghost predicate Stuck(s: Net, p: nat) {
    forall s' :: !Step(s, s', p)
  }

  ghost predicate Finished(s: Net, p: nat) {
    Shape(s, p) && forall r :: 0 <= r < p ==> s.pc[r] == 2 * PhasesRun(p)
  }

  // The next phase of the given parity whose get process q has not done.
  function NextGet(pc: nat, parity: nat): nat {
    if (pc / 2) % 2 == parity then pc / 2 else pc / 2 + 1
  }

  // The lockstep history, apart from how it is computed.
  ghost predicate IsHistory(hist: nat -> Blocks, p: nat) {
    && (forall h :: |hist(h)| == p)
    && (forall h: nat, r: nat :: r < p ==> HistoryLaw(hist, h, r))
  }

  ghost predicate HistoryLaw(hist: nat -> Blocks, h: nat, r: nat) {
    && r < |hist(h)| && r < |hist(h + 1)|
    && hist(h + 1)[r] == Exchanged(hist(h), h, r)
  }

  ghost predicate ProcessInv(s: Net, hist: nat -> Blocks, p: nat, r: nat)
    requires Shape(s, p) && r < p
  {
    && s.pc[r] <= 2 * PhasesRun(p)
    && (s.pc[r] % 2 == 1 ==> HasPartner(r, s.pc[r] / 2, p))
    && r < |hist(s.pc[r] / 2)| && s.own[r] == hist(s.pc[r] / 2)[r]
  }

  // The sink from x to y holds exactly the block of the phase y gets next, if x
  // has put it already; x is at most one put ahead.
  ghost predicate ChannelOk(px: nat, py: nat, queue: Blocks, hist: nat -> Blocks, x: nat, parity: nat) {
    var h := NextGet(py, parity);
    && x < |hist(h)|
    && queue == (if px >= 2 * h + 1 then [hist(h)[x]] else [])
    && 2 * h - 3 <= px < 2 * h + 5
  }

  ghost predicate ChannelInv(s: Net, hist: nat -> Blocks, p: nat, r: nat, parity: nat)
    requires Shape(s, p) && r < p && parity < 2 && HasPartner(r, parity, p)
  {
    ChannelOk(s.pc[r], s.pc[Partner(r, parity)], s.out[2 * r + parity], hist, r, parity)
  }

  ghost predicate Inv(s: Net, hist: nat -> Blocks, p: nat) {
    && Shape(s, p)
    && (forall r: nat :: r < p ==> ProcessInv(s, hist, p, r))
    && (forall r: nat, parity: nat :: r < p && parity < 2 && HasPartner(r, parity, p) ==>
          ChannelInv(s, hist, p, r, parity))
  }

  lemma PartnersMutual(r: nat, phase: nat, p: nat)
    requires r < p && HasPartner(r, phase, p)
    ensures var q := Partner(r, phase);
      && q != r && Partner(q, phase) == r
      && HasPartner(q, phase, p) && Partner(r, phase % 2) == q && Partner(q, phase % 2) == r
  {
  }

  lemma StartHolds(s: Net, b: Blocks, hist: nat -> Blocks)
    requires Start(s, b) && IsHistory(hist, |b|) && hist(0) == b
    ensures Inv(s, hist, |b|)
  {
    forall r: nat, parity: nat | r < |b| && parity < 2 && HasPartner(r, parity, |b|)
      ensures ChannelInv(s, hist, |b|, r, parity)
    {
      assert s.pc[Partner(r, parity)] == 0;
    }
  }

  // One process moves; what it shares with the others stays in order.
  lemma StepKeeps(s: Net, s': Net, hist: nat -> Blocks, p: nat, r: nat)
    requires Inv(s, hist, p) && IsHistory(hist, p) && ProcessStep(s, s', p, r)
    ensures Inv(s', hist, p)
  {
    assert ProcessInv(s, hist, p, r);
    forall x: nat | x < p ensures ProcessInv(s', hist, p, x) {
      assert ProcessInv(s, hist, p, x);
      if x == r {
        MoverKeeps(s, s', hist, p, r);
      }
    }
    forall x: nat, parity: nat | x < p && parity < 2 && HasPartner(x, parity, p)
      ensures ChannelInv(s', hist, p, x, parity)
    {
      PartnersMutual(x, parity, p);
      assert ChannelInv(s, hist, p, x, parity) && ChannelInv(s, hist, p, Partner(x, parity), parity);
      ChannelEffect(s, s', p, r, x, parity);
      ChannelKept(s, s', hist, p, r, x, parity);
    }
  }

  lemma MoverKeeps(s: Net, s': Net, hist: nat -> Blocks, p: nat, r: nat)
    requires Inv(s, hist, p) && IsHistory(hist, p) && ProcessStep(s, s', p, r)
    ensures Shape(s', p) && ProcessInv(s', hist, p, r)
  {
    assert ProcessInv(s, hist, p, r);
    var h := s.pc[r] / 2;
    assert HistoryLaw(hist, h, r);
    if Get(s, s', p, r) {
      PartnersMutual(r, h, p);
      GetsPartnersBlock(s, hist, p, r);
      var q := Partner(r, h);
      assert s'.own[r] == Exchanged(hist(h), h, r);
      assert s'.pc[r] / 2 == h + 1;
    }
  }

  lemma GetsPartnersBlock(s: Net, hist: nat -> Blocks, p: nat, r: nat)
    requires Inv(s, hist, p) && r < p && s.pc[r] % 2 == 1
    requires HasPartner(r, s.pc[r] / 2, p)
    ensures var h := s.pc[r] / 2;
      var q := Partner(r, h);
      && q < |hist(h)|
      && s.out[2 * q + h % 2] == if s.pc[q] >= s.pc[r] then [hist(h)[q]] else []
  {
    var h := s.pc[r] / 2;
    var q := Partner(r, h);
    PartnersMutual(r, h, p);
    assert ChannelInv(s, hist, p, q, h % 2);
  }

  // A counter at which a process is about to put, or to get, on this parity.
  predicate AtPut(pc: nat, parity: nat) { pc % 2 == 0 && (pc / 2) % 2 == parity }

  predicate AtGet(pc: nat, parity: nat) { pc % 2 == 1 && (pc / 2) % 2 == parity }

  predicate Moves(pc: nat, pc': nat, parity: nat) {
    pc' == pc + 1 || (pc' == pc + 2 && pc % 2 == 0 && (pc / 2) % 2 != parity)
  }

  lemma WriterPuts(px: nat, py: nat, queue: Blocks, hist: nat -> Blocks, x: nat, y: nat, back: Blocks, parity: nat)
    requires parity < 2 && (forall h :: x < |hist(h)|)
    requires ChannelOk(px, py, queue, hist, x, parity) && ChannelOk(py, px, back, hist, y, parity)
    requires AtPut(px, parity) && queue == []
    ensures ChannelOk(px + 1, py, [hist(px / 2)[x]], hist, x, parity)
  {
  }

  lemma WriterMoves(px: nat, px': nat, py: nat, queue: Blocks, hist: nat -> Blocks, x: nat, y: nat, back: Blocks,
                    parity: nat)
    requires parity < 2
    requires ChannelOk(px, py, queue, hist, x, parity) && ChannelOk(py, px, back, hist, y, parity)
    requires Moves(px, px', parity) && !AtPut(px, parity)
    requires AtGet(px, parity) ==> back != []
    ensures ChannelOk(px', py, queue, hist, x, parity)
  {
  }

  lemma ReaderGets(px: nat, py: nat, queue: Blocks, hist: nat -> Blocks, x: nat, parity: nat)
    requires parity < 2 && (forall h :: x < |hist(h)|)
    requires ChannelOk(px, py, queue, hist, x, parity)
    requires AtGet(py, parity) && queue != []
    ensures ChannelOk(px, py + 1, queue[1..], hist, x, parity)
  {
    assert NextGet(py + 1, parity) == NextGet(py, parity) + 2;
  }

  lemma ReaderMoves(px: nat, py: nat, py': nat, queue: Blocks, hist: nat -> Blocks, x: nat, parity: nat)
    requires parity < 2
    requires ChannelOk(px, py, queue, hist, x, parity)
    requires Moves(py, py', parity) && !AtGet(py, parity)
    ensures ChannelOk(px, py', queue, hist, x, parity)
  {
    assert NextGet(py', parity) == NextGet(py, parity);
  }

  // What a step of r does to the channel from x on the given parity.
  ghost predicate Effect(s: Net, s': Net, p: nat, r: nat, x: nat, parity: nat)
    requires Shape(s, p) && Shape(s', p) && r < p && x < p && parity < 2 && HasPartner(x, parity, p)
  {
    var y, c := Partner(x, parity), 2 * x + parity;
    && (r != x ==> s'.pc[x] == s.pc[x]) && (r != y ==> s'.pc[y] == s.pc[y])
    && (r == x || r == y ==> Moves(s.pc[r], s'.pc[r], parity))
    && (if r == x && AtPut(s.pc[x], parity) then
          s.out[c] == [] && s'.out[c] == [s.own[x]] && s'.pc[x] == s.pc[x] + 1
        else if r == y && AtGet(s.pc[y], parity) then
          s.out[c] != [] && s'.out[c] == s.out[c][1..]
        else s'.out[c] == s.out[c])
    && (r == x && AtGet(s.pc[x], parity) ==> s.out[2 * y + parity] != [])
  }

  lemma SkipEffect(s: Net, s': Net, p: nat, r: nat, x: nat, parity: nat)
    requires Shape(s, p) && Shape(s', p) && r < p && Skip(s, s', p, r)
    requires x < p && parity < 2 && HasPartner(x, parity, p)
    ensures Effect(s, s', p, r, x, parity)
  {
    PartnersMutual(x, parity, p);
    var h := s.pc[r] / 2;
    assert Partner(r, h) == Partner(r, h % 2);
    assert r == x || r == Partner(x, parity) ==> h % 2 != parity;
  }

  lemma PutEffect(s: Net, s': Net, p: nat, r: nat, x: nat, parity: nat)
    requires Shape(s, p) && Shape(s', p) && r < p && Put(s, s', p, r)
    requires x < p && parity < 2 && HasPartner(x, parity, p)
    ensures Effect(s, s', p, r, x, parity)
  {
    PartnersMutual(x, parity, p);
    var h := s.pc[r] / 2;
    assert 2 * x + parity == 2 * r + h % 2 <==> x == r && parity == h % 2;
  }

  lemma GetEffect(s: Net, s': Net, p: nat, r: nat, x: nat, parity: nat)
    requires Shape(s, p) && Shape(s', p) && r < p && Get(s, s', p, r)
    requires x < p && parity < 2 && HasPartner(x, parity, p)
    ensures Effect(s, s', p, r, x, parity)
  {
    var h := s.pc[r] / 2;
    var y, q := Partner(x, parity), Partner(r, h);
    PartnersMutual(x, parity, p);
    PartnersMutual(r, h, p);
    assert s'.pc == s.pc[r := s.pc[r] + 1];
    assert s'.out == s.out[2 * q + h % 2 := s.out[2 * q + h % 2][1..]] && s.out[2 * q + h % 2] != [];
    GetTouches(r, q, h % 2, x, y, parity);
  }

  lemma GetTouches(r: nat, q: nat, par: nat, x: nat, y: nat, parity: nat)
    requires par < 2 && parity < 2
    ensures 2 * x + parity == 2 * q + par <==> x == q && parity == par
    ensures 2 * y + parity == 2 * q + par <==> y == q && parity == par
  {
  }

  lemma ChannelEffect(s: Net, s': Net, p: nat, r: nat, x: nat, parity: nat)
    requires ProcessStep(s, s', p, r) && Shape(s', p)
    requires x < p && parity < 2 && HasPartner(x, parity, p)
    ensures Effect(s, s', p, r, x, parity)
  {
    if Skip(s, s', p, r) {
      SkipEffect(s, s', p, r, x, parity);
    } else if Put(s, s', p, r) {
      PutEffect(s, s', p, r, x, parity);
    } else {
      GetEffect(s, s', p, r, x, parity);
    }
  }

  lemma ChannelKept(s: Net, s': Net, hist: nat -> Blocks, p: nat, r: nat, x: nat, parity: nat)
    requires Shape(s, p) && Shape(s', p) && r < p && (forall h :: |hist(h)| == p)
    requires x < p && parity < 2 && HasPartner(x, parity, p) && HasPartner(Partner(x, parity), parity, p)
    requires ProcessInv(s, hist, p, r) && ChannelInv(s, hist, p, x, parity)
    requires ChannelInv(s, hist, p, Partner(x, parity), parity) && Effect(s, s', p, r, x, parity)
    ensures ChannelInv(s', hist, p, x, parity)
  {
    var y := Partner(x, parity);
    PartnersMutual(x, parity, p);
    var px, py, queue, back := s.pc[x], s.pc[y], s.out[2 * x + parity], s.out[2 * y + parity];
    if r == x {
      if AtPut(px, parity) {
        WriterPuts(px, py, queue, hist, x, y, back, parity);
      } else {
        WriterMoves(px, s'.pc[x], py, queue, hist, x, y, back, parity);
      }
    } else if r == y {
      if AtGet(py, parity) {
        ReaderGets(px, py, queue, hist, x, parity);
      } else {
        ReaderMoves(px, py, s'.pc[y], queue, hist, x, parity);
      }
    }
  }

  // The slowest process can always move, so nothing ever deadlocks.
  lemma {:induction false} Slowest(pc: seq<nat>) returns (r: nat)
    requires pc != []
    ensures r < |pc| && forall i :: 0 <= i < |pc| ==> pc[r] <= pc[i]
  {
    if |pc| == 1 {
      r := 0;
    } else {
      r := Slowest(pc[1..]);
      r := if pc[0] <= pc[1..][r] then 0 else r + 1;
      assert forall i :: 0 < i < |pc| ==> pc[i] == pc[1..][i - 1];
    }
  }

  lemma SlowestPuts(s: Net, hist: nat -> Blocks, p: nat, r: nat) returns (s': Net)
    requires Shape(s, p) && r < p && s.pc[r] % 2 == 0 && HasPartner(r, s.pc[r] / 2, p)
    requires HasPartner(r, s.pc[r] / 2 % 2, p) && ChannelInv(s, hist, p, r, s.pc[r] / 2 % 2)
    requires s.pc[r] <= s.pc[Partner(r, s.pc[r] / 2 % 2)]
    ensures Put(s, s', p, r)
  {
    var c := 2 * r + s.pc[r] / 2 % 2;
    s' := s.(pc := s.pc[r := s.pc[r] + 1], out := s.out[c := s.out[c] + [s.own[r]]]);
  }

  lemma SlowestGets(s: Net, p: nat, r: nat) returns (s': Net)
    requires Shape(s, p) && r < p && s.pc[r] % 2 == 1 && HasPartner(r, s.pc[r] / 2, p)
    requires s.out[2 * Partner(r, s.pc[r] / 2) + s.pc[r] / 2 % 2] != []
    ensures Get(s, s', p, r)
  {
    var h := s.pc[r] / 2;
    var q := Partner(r, h);
    var d := 2 * q + h % 2;
    var recv := s.out[d][0];
    var kept := if r < q then KeepSmall(s.own[r], recv) else KeepLarge(s.own[r], recv);
    s' := Net(s.pc[r := s.pc[r] + 1], s.own[r := kept], s.out[d := s.out[d][1..]]);
  }

  lemma SlowestMoves(s: Net, hist: nat -> Blocks, p: nat, r: nat) returns (s': Net)
    requires Inv(s, hist, p) && IsHistory(hist, p) && r < p
    requires s.pc[r] < 2 * PhasesRun(p) && forall i :: 0 <= i < p ==> s.pc[r] <= s.pc[i]
    ensures ProcessStep(s, s', p, r)
  {
    assert ProcessInv(s, hist, p, r);
    var h := s.pc[r] / 2;
    if !HasPartner(r, h, p) {
      s' := s.(pc := s.pc[r := s.pc[r] + 2]);
      assert Skip(s, s', p, r);
    } else {
      PartnersMutual(r, h, p);
      if s.pc[r] % 2 == 0 {
        assert ChannelInv(s, hist, p, r, h % 2);
        s' := SlowestPuts(s, hist, p, r);
      } else {
        GetsPartnersBlock(s, hist, p, r);
        s' := SlowestGets(s, p, r);
      }
    }
  }

  lemma NoDeadlock(s: Net, hist: nat -> Blocks, p: nat)
    requires Inv(s, hist, p) && IsHistory(hist, p)
    ensures Finished(s, p) || !Stuck(s, p)
  {
    if !Finished(s, p) {
      var r := Slowest(s.pc);
      if s.pc[r] >= 2 * PhasesRun(p) {
        forall i: nat | i < p ensures s.pc[i] == 2 * PhasesRun(p) {
          assert ProcessInv(s, hist, p, i);
        }
      } else {
        var s' := SlowestMoves(s, hist, p, r);
        assert Step(s, s', p);
      }
    }
  }

  ghost function Remaining(s: Net, p: nat): nat {
    Sum(seq(|s.pc|, r requires 0 <= r < |s.pc| => Max(0, 2 * PhasesRun(p) - s.pc[r]) as nat))
  }

  lemma RemainingFalls(s: Net, s': Net, hist: nat -> Blocks, p: nat, r: nat)
    requires Inv(s, hist, p) && ProcessStep(s, s', p, r) && Inv(s', hist, p)
    ensures Remaining(s', p) < Remaining(s, p)
  {
    assert ProcessInv(s', hist, p, r);
    var t := 2 * PhasesRun(p);
    var a := seq(|s.pc|, i requires 0 <= i < |s.pc| => Max(0, t - s.pc[i]) as nat);
    var a' := seq(|s'.pc|, i requires 0 <= i < |s'.pc| => Max(0, t - s'.pc[i]) as nat);
    assert a' == a[r := a'[r]];
    SumUpdate(a, r, a'[r]);
  }

  ghost function History(b: Blocks): nat -> Blocks {
    (h: nat) => Lockstep(b, h)
  }

  lemma LockstepIsHistory(b: Blocks)
    ensures IsHistory(History(b), |b|)
  {
    forall h: nat, r: nat | r < |b| ensures HistoryLaw(History(b), h, r) {
      LockstepObeysLaw(b, h, r);
    }
  }

  lemma LockstepObeysLaw(b: Blocks, h: nat, r: nat)
    requires r < |b|
    ensures HistoryLaw(History(b), h, r)
  {
    NextLockstep(b, h);
  }

  ghost predicate IsNetRun(b: Blocks, run: seq<Net>) {
    IsRun(s => Start(s, b), (s, s') => Step(s, s', |b|), run)
  }

  lemma AnyStepKeeps(s: Net, s': Net, hist: nat -> Blocks, p: nat)
    requires Inv(s, hist, p) && IsHistory(hist, p) && Step(s, s', p)
    ensures Inv(s', hist, p) && Remaining(s', p) < Remaining(s, p)
  {
    var r: nat :| ProcessStep(s, s', p, r);
    StepKeeps(s, s', hist, p, r);
    RemainingFalls(s, s', hist, p, r);
  }

  lemma RunKeepsInv(b: Blocks, run: seq<Net>, hist: nat -> Blocks)
    requires IsNetRun(b, run) && hist == History(b)
    ensures forall i :: 0 <= i < |run| ==> Inv(run[i], hist, |b|)
    ensures |run| <= Remaining(run[0], |b|) + 1
  {
    var p := |b|;
    LockstepIsHistory(b);
    var init, next := (s: Net) => Start(s, b), (s: Net, s': Net) => Step(s, s', p);
    var inv, rank := (s: Net) => Inv(s, hist, p), (s: Net) => Remaining(s, p);
    forall s | init(s) ensures inv(s) {
      StartHolds(s, b, hist);
    }
    forall s, s' | inv(s) && next(s, s') ensures inv(s') && rank(s') < rank(s) {
      AnyStepKeeps(s, s', hist, p);
    }
    forall i | 0 <= i < |run| ensures Inv(run[i], hist, p) {
      InvariantHolds(init, next, inv, run, i);
    }
    LengthBounded(init, next, inv, rank, run);
  }

  // In every run each process holds what the lockstep phases give it, however
  // the processes interleave, and no run is longer than one half phase each.
  lemma EveryRunIsLockstep(b: Blocks, run: seq<Net>)
    requires IsNetRun(b, run)
    ensures forall i, r :: 0 <= i < |run| && 0 <= r < |b| ==>
      Shape(run[i], |b|) && run[i].own[r] == Lockstep(b, run[i].pc[r] / 2)[r]
    ensures |run| <= |b| * (2 * PhasesRun(|b|)) + 1
  {
    RunKeepsInv(b, run, History(b));
    forall i, r: nat | 0 <= i < |run| && r < |b|
      ensures run[i].own[r] == Lockstep(b, run[i].pc[r] / 2)[r]
    {
      assert ProcessInv(run[i], History(b), |b|, r);
    }
    StartRemaining(run[0], b);
  }

  lemma StartRemaining(s: Net, b: Blocks)
    requires Start(s, b)
    ensures Remaining(s, |b|) == |b| * (2 * PhasesRun(|b|))
  {
    var t := 2 * PhasesRun(|b|);
    SumConstant(seq(|s.pc|, r requires 0 <= r < |s.pc| => Max(0, t - s.pc[r]) as nat), t);
  }

  lemma EndedIsStuck(s: Net, next: (Net, Net) -> bool, p: nat)
    requires Ended(next, s) && forall s, s' :: next(s, s') <==> Step(s, s', p)
    ensures Stuck(s, p)
  {
    forall s' ensures !Step(s, s', p) {
      assert !next(s, s');
    }
  }

  // There is such a run, from any input: every run can be continued to one that can go
  // no further.
  lemma SomeRunFinishes(b: Blocks) returns (run: seq<Net>)
    ensures IsNetRun(b, run) && Stuck(run[|run| - 1], |b|)
  {
    var p, hist := |b|, History(b);
    var s := Net(seq(p, _ => 0), b, seq(2 * p, _ => []));
    LockstepIsHistory(b);
    var init, next := (s: Net) => Start(s, b), (s: Net, s': Net) => Step(s, s', p);
    var inv, rank := (s: Net) => Inv(s, hist, p), (s: Net) => Remaining(s, p);
    forall s | init(s) ensures inv(s) {
      StartHolds(s, b, hist);
    }
    forall s, s' | inv(s) && next(s, s') ensures inv(s') && rank(s') < rank(s) {
      AnyStepKeeps(s, s', hist, p);
    }
    RunGrows(init, next, [], s);
    run := RunEnds(init, next, inv, rank, [s]);
    EndedIsStuck(run[|run| - 1], next, p);
  }

  // A run that can go no further has finished every phase on every process ...
  lemma MaximalRunFinishes(b: Blocks, run: seq<Net>)
    requires IsNetRun(b, run) && Stuck(run[|run| - 1], |b|)
    ensures Finished(run[|run| - 1], |b|)
    ensures run[|run| - 1].own == Lockstep(b, PhasesRun(|b|)) == Lockstep(b, 2 * (|b| / 2))
    ensures var last := run[|run| - 1];
      Shape(last, |b|) && forall r :: 0 <= r < |b| ==> last.pc[r] / 2 == 2 * (|b| / 2)
  {
    LockstepIsHistory(b);
    var hist := History(b);
    RunKeepsInv(b, run, hist);
    NoDeadlock(run[|run| - 1], hist, |b|);
    FinishedIsLockstep(run[|run| - 1], hist, |b|);
  }

  lemma FinishedIsLockstep(s: Net, hist: nat -> Blocks, p: nat)
    requires Inv(s, hist, p) && Finished(s, p) && |hist(PhasesRun(p))| == p
    ensures s.own == hist(PhasesRun(p))
  {
    forall r: nat | r < p ensures s.own[r] == hist(PhasesRun(p))[r] {
      assert ProcessInv(s, hist, p, r);
    }
  }

  // ... and, for an even number of processes, leaves the input sorted.
  lemma MaximalRunSorts(b: Blocks, n: nat, run: seq<Net>)
    requires WellFormed(b, n) && |b| % 2 == 0 && IsNetRun(b, run) && Stuck(run[|run| - 1], |b|)
    ensures Sorted(Flatten(run[|run| - 1].own))
    ensures multiset(Flatten(run[|run| - 1].own)) == multiset(Flatten(b))
  {
    MaximalRunFinishes(b, run);
    EvenProcessCountSorts(b, n);
    LockstepPermutes(b, n, PhasesRun(|b|));
  }
}
