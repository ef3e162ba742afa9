// Producer and consumer of one byte ring as threads that sleep on its single
// condition variable. A put or a send up to its wait is one atomic step.
module ByteRingProtocol {
  import opened ByteRing
  import opened Gcds
  import opened Runs
  import opened Traces

  datatype Producer = Computing | Putting(data: seq<byte>) | PutAsleep(data: seq<byte>)

  datatype Consumer = Serving | Sending(bytes: nat) | SendAsleep(bytes: nat)

  // `put` and `sent` are everything ever put and ever sent.
  datatype State = State(held: seq<byte>, p: Producer, c: Consumer, put: seq<byte>, sent: seq<byte>)

  ghost predicate Start(s: State) {
    s == State([], Computing, Serving, [], [])
  }

  // bc_cond_signal: the other side, if it sleeps, goes back to its test.
  function WakeConsumer(c: Consumer): Consumer {
    if c.SendAsleep? then Sending(c.bytes) else c
  }

  function WakeProducer(p: Producer): Producer {
    if p.PutAsleep? then Putting(p.data) else p
  }

  datatype Event =
    | CallPut(data: seq<byte>) | TryPut
    | Request(bytes: nat) | TrySend
    | SpuriousWake(producer: bool)

  predicate Enabled(s: State, e: Event) {
    match e
    case CallPut(_) => s.p.Computing?
    case TryPut => s.p.Putting?
    case Request(_) => s.c.Serving?
    case TrySend => s.c.Sending?
    case SpuriousWake(producer) => if producer then s.p.PutAsleep? else s.c.SendAsleep?
  }

  // What the ring's PutQ and SendQ do to the contents, with the wait and the
  // signal around them.
  function Next(s: State, cap: nat, e: Event): State
    requires Enabled(s, e)
  {
    match e
    case CallPut(data) => s.(p := Putting(data))
    case TryPut =>
      var data := s.p.data;
      if cap - |s.held| < |data| then s.(p := PutAsleep(data))
      else State(s.held + data, Computing, WakeConsumer(s.c), s.put + data, s.sent)
    case Request(bytes) => s.(c := Sending(bytes))
    case TrySend =>
      var n := s.c.bytes;
      if |s.held| < n then s.(c := SendAsleep(n))
      else State(s.held[n..], WakeProducer(s.p), Serving, s.put, s.sent + s.held[..n])
    case SpuriousWake(producer) =>
      if producer then s.(p := WakeProducer(s.p)) else s.(c := WakeConsumer(s.c))
  }

  ghost predicate Step(s: State, s': State, cap: nat) {
    exists e :: Enabled(s, e) && s' == Next(s, cap, e)
  }

  // Nothing is lost, repeated or reordered, and nobody sleeps on a true guard.
  ghost predicate Inv(s: State, cap: nat) {
    && |s.held| <= cap
    && s.put == s.sent + s.held
    && (s.p.PutAsleep? ==> cap - |s.held| < |s.p.data|)
    && (s.c.SendAsleep? ==> |s.held| < s.c.bytes)
  }

  lemma StepKeeps(s: State, s': State, cap: nat, e: Event)
    requires Inv(s, cap) && Enabled(s, e) && s' == Next(s, cap, e)
    ensures Inv(s', cap)
  {
    if e.TrySend? && |s.held| >= s.c.bytes {
      assert s.held == s.held[..s.c.bytes] + s.held[s.c.bytes..];
      assert s.sent + s.held == s.sent + s.held[..s.c.bytes] + s.held[s.c.bytes..];
    } else if e.TryPut? {
      assert s.sent + s.held + s.p.data == s.sent + (s.held + s.p.data);
    }
  }

  ghost predicate IsProtocolRun(cap: nat, run: seq<State>) {
    IsRun(s => Start(s), (s, s') => Step(s, s', cap), run)
  }

  // The ring refines an unbounded FIFO with a capacity guard in every run, for
  // any mix of put and get sizes, and no wakeup is lost.
  lemma EveryRunIsFifo(cap: nat, run: seq<State>, i: nat)
    requires IsProtocolRun(cap, run) && i < |run|
    ensures Inv(run[i], cap)
  {
    var init, next, inv := (s: State) => Start(s), (s: State, s': State) => Step(s, s', cap),
                           (s: State) => Inv(s, cap);
    forall s, s' | inv(s) && next(s, s') ensures inv(s') {
      var e :| Enabled(s, e) && s' == Next(s, cap, e);
      StepKeeps(s, s', cap, e);
    }
    InvariantHolds(init, next, inv, run, i);
  }

  // --- What the program calls for ---

  // A put with room stores the caller's bytes behind those held, whoever sleeps;
  // without room it sleeps and changes nothing else.
  lemma PutStores(s: State, cap: nat)
    requires s.p.Putting?
    ensures Enabled(s, TryPut)
    ensures var s' := Next(s, cap, TryPut);
      if |s.held| + |s.p.data| <= cap then
        s'.held == s.held + s.p.data && s'.p == Computing && s'.sent == s.sent
      else s' == s.(p := PutAsleep(s.p.data))
  {
  }

  // A send takes and sends exactly the bytes asked for.
  lemma SendTakes(s: State, cap: nat)
    requires s.c.Sending?
    ensures Enabled(s, TrySend)
    ensures var (s', n) := (Next(s, cap, TrySend), s.c.bytes);
      if |s.held| >= n then s.held == s.held[..n] + s'.held && s'.sent == s.sent + s.held[..n] && s'.c == Serving
      else s' == s.(c := SendAsleep(n))
  {
  }

  lemma CallsStart(s: State, cap: nat, data: seq<byte>, bytes: nat)
    ensures s.p.Computing? ==> Enabled(s, CallPut(data)) && Next(s, cap, CallPut(data)) == s.(p := Putting(data))
    ensures s.c.Serving? ==> Enabled(s, Request(bytes)) && Next(s, cap, Request(bytes)) == s.(c := Sending(bytes))
  {
  }

  // Either thread can wake for nothing, and then tests its guard again.
  lemma WakesForNothing(s: State, cap: nat)
    ensures s.p.PutAsleep? ==>
      Enabled(s, SpuriousWake(true)) && Next(s, cap, SpuriousWake(true)) == s.(p := Putting(s.p.data))
    ensures s.c.SendAsleep? ==>
      Enabled(s, SpuriousWake(false)) && Next(s, cap, SpuriousWake(false)) == s.(c := Sending(s.c.bytes))
  {
  }

  // The data of all put calls and the bytes of all requests so far.
  function Called(events: seq<Event>): seq<byte> {
    if events == [] then []
    else
      var e := events[|events| - 1];
      Called(events[..|events| - 1]) + if e.CallPut? then e.data else []
  }

  function Asked(events: seq<Event>): nat {
    if events == [] then 0
    else
      var e := events[|events| - 1];
      Asked(events[..|events| - 1]) + if e.Request? then e.bytes else 0
  }

  function InPut(p: Producer): seq<byte> {
    if p.Computing? then [] else p.data
  }

  function InSend(c: Consumer): nat {
    if c.Serving? then 0 else c.bytes
  }

  ghost predicate Does(s: State, e: Event, s': State, cap: nat) {
    Enabled(s, e) && s' == Next(s, cap, e)
  }

  ghost predicate IsProtocolTrace(cap: nat, run: seq<State>, events: seq<Event>) {
    IsTrace(s => Start(s), (s, e, s') => Does(s, e, s', cap), run, events)
  }

  ghost predicate CallsKept(s: State, cap: nat, events: seq<Event>) {
    && Inv(s, cap) && s.put + InPut(s.p) == Called(events) && |s.sent| + InSend(s.c) == Asked(events)
  }

  lemma StepKeepsCalls(s: State, s': State, cap: nat, events: seq<Event>, e: Event)
    requires CallsKept(s, cap, events) && Does(s, e, s', cap)
    ensures CallsKept(s', cap, events + [e])
  {
    StepKeeps(s, s', cap, e);
    assert (events + [e])[..|events + [e]| - 1] == events;
  }

  // In every run, for any sizes, the bytes sent, then those held, then those of a put
  // under way are the data of the put calls, one after another; and as many have been
  // sent as the requests answered so far ask for.
  lemma EveryTraceIsFifo(cap: nat, run: seq<State>, events: seq<Event>, i: nat)
    requires IsProtocolTrace(cap, run, events) && i < |run|
    ensures IsProtocolRun(cap, run)
    ensures run[i].sent + run[i].held + InPut(run[i].p) == Called(events[..i])
    ensures |run[i].sent| + InSend(run[i].c) == Asked(events[..i])
  {
    var init, does := (s: State) => Start(s), (s: State, e: Event, s': State) => Does(s, e, s', cap);
    var inv := (s: State, es: seq<Event>) => CallsKept(s, cap, es);
    forall s, es, e, s' | inv(s, es) && does(s, e, s') ensures inv(s', es + [e]) {
      StepKeepsCalls(s, s', cap, es, e);
    }
    TraceHolds(init, does, inv, run, events, i);
    TraceIsRun(init, does, (s: State, s': State) => Step(s, s', cap), run, events);
  }

  // Both threads asleep: only a spurious wakeup could follow, and it would lead
  // straight back.
  ghost predicate Deadlocked(s: State) {
    s.p.PutAsleep? && s.c.SendAsleep?
  }

  // All puts have size p and all gets size g.
  ghost predicate FixedSizes(s: State, p: nat, g: nat) {
    && (s.p.Computing? || |s.p.data| == p)
    && (s.c.Serving? || s.c.bytes == g)
  }

  ghost predicate IsFixedRun(cap: nat, p: nat, g: nat, run: seq<State>) {
    IsProtocolRun(cap, run) && forall i :: 0 <= i < |run| ==> FixedSizes(run[i], p, g)
  }

  ghost predicate HoldsMultiples(s: State, cap: nat, p: nat, g: nat, d: nat)
    requires d > 0
  {
    Inv(s, cap) && Divides(d, |s.held|)
  }

  lemma StepKeepsMultiples(s: State, s': State, cap: nat, p: nat, g: nat, d: nat, e: Event)
    requires d > 0 && Divides(d, p) && Divides(d, g)
    requires FixedSizes(s, p, g) && HoldsMultiples(s, cap, p, g, d)
    requires Enabled(s, e) && s' == Next(s, cap, e)
    ensures HoldsMultiples(s', cap, p, g, d)
  {
    StepKeeps(s, s', cap, e);
    DividesSum(d, |s.held|, p);
    DividesSum(d, |s.held|, g);
  }

  lemma {:induction false} FixedRunHoldsMultiples(cap: nat, p: nat, g: nat, run: seq<State>, i: nat)
    requires p > 0 && g > 0 && IsFixedRun(cap, p, g, run) && i < |run|
    ensures HoldsMultiples(run[i], cap, p, g, Gcd(p, g))
  {
    var d := Gcd(p, g);
    GcdDivides(p, g);
    if i == 0 {
      DividesMultiple(d, 0, 0);
    } else {
      FixedRunHoldsMultiples(cap, p, g, run, i - 1);
      assert Step(run[i - 1], run[i - 1 + 1], cap);
      var e :| Enabled(run[i - 1], e) && run[i] == Next(run[i - 1], cap, e);
      StepKeepsMultiples(run[i - 1], run[i], cap, p, g, d, e);
    }
  }

  lemma BigRingNeverDeadlocks(cap: nat, p: nat, g: nat, run: seq<State>, i: nat)
    requires p > 0 && g > 0 && cap >= p + g - Gcd(p, g)
    requires IsFixedRun(cap, p, g, run) && i < |run|
    ensures !Deadlocked(run[i])
  {
    var d, s := Gcd(p, g), run[i];
    FixedRunHoldsMultiples(cap, p, g, run, i);
    if Deadlocked(s) {
      GcdDivides(p, g);
      DividesSum(d, g, |s.held|);
      NotDivided(d, g - |s.held|);
    }
  }

  function Residue(p: nat, g: nat, k: nat): nat
    requires p > 0
  {
    (k * p) % (p + g)
  }

  lemma NextResidue(p: nat, g: nat, k: nat)
    requires p > 0 && g > 0
    ensures Residue(p, g, k + 1) == if Residue(p, g, k) < g then Residue(p, g, k) + p else Residue(p, g, k) - g
  {
    var m, h, q := p + g, Residue(p, g, k), (k * p) / (p + g);
    assert k * p == q * m + h;
    assert (k + 1) * p == k * p + p;
    if h < g {
      ModUnique((k + 1) * p, m, q, h + p);
    } else {
      Spread(q + 1, q, m);
      ModUnique((k + 1) * p, m, q + 1, h - g);
    }
  }

  lemma Extend(cap: nat, p: nat, g: nat, run: seq<State>, e: Event) returns (run': seq<State>)
    requires IsFixedRun(cap, p, g, run)
    requires Enabled(run[|run| - 1], e) && FixedSizes(Next(run[|run| - 1], cap, e), p, g)
    ensures IsFixedRun(cap, p, g, run')
    ensures run'[|run'| - 1] == Next(run[|run| - 1], cap, e)
  {
    var s' := Next(run[|run| - 1], cap, e);
    run' := run + [s'];
    assert Step(run[|run| - 1], s', cap);
    forall i | 0 <= i < |run'| - 1 ensures Step(run'[i], run'[i + 1], cap) {
      if i < |run| - 1 {
        assert Step(run[i], run[i + 1], cap);
      }
    }
  }

  ghost predicate Resting(s: State, h: int) {
    s.p.Computing? && s.c.Serving? && |s.held| == h
  }

  // Put while there is room, otherwise get while there is enough.
  lemma OneRound(cap: nat, p: nat, g: nat, run: seq<State>, h: nat) returns (run': seq<State>)
    requires cap < p + g && IsFixedRun(cap, p, g, run) && Resting(run[|run| - 1], h)
    ensures IsFixedRun(cap, p, g, run')
    ensures Deadlocked(run'[|run'| - 1]) || Resting(run'[|run'| - 1], if h < g then h + p else h - g)
  {
    if h + p <= cap {
      run' := PutRound(cap, p, g, run);
    } else if h >= g {
      run' := GetRound(cap, p, g, run);
    } else {
      run' := BlockBoth(cap, p, g, run);
    }
  }

  // After k such rounds the ring holds k * p modulo p + g bytes, unless it has
  // deadlocked.
  lemma {:induction false} Rounds(cap: nat, p: nat, g: nat, k: nat) returns (run: seq<State>)
    requires p > 0 && g > 0 && cap < p + g
    ensures IsFixedRun(cap, p, g, run)
    ensures Deadlocked(run[|run| - 1]) || Resting(run[|run| - 1], Residue(p, g, k))
  {
    if k == 0 {
      run := [State([], Computing, Serving, [], [])];
    } else {
      run := Rounds(cap, p, g, k - 1);
      NextResidue(p, g, k - 1);
      if !Deadlocked(run[|run| - 1]) {
        run := OneRound(cap, p, g, run, Residue(p, g, k - 1));
      }
    }
  }

  lemma PutRound(cap: nat, p: nat, g: nat, run: seq<State>) returns (run': seq<State>)
    requires IsFixedRun(cap, p, g, run)
    requires Resting(run[|run| - 1], |run[|run| - 1].held|) && |run[|run| - 1].held| + p <= cap
    ensures IsFixedRun(cap, p, g, run') && Resting(run'[|run'| - 1], |run[|run| - 1].held| + p)
  {
    run' := Extend(cap, p, g, run, CallPut(seq(p, i => 0)));
    run' := Extend(cap, p, g, run', TryPut);
  }

  lemma GetRound(cap: nat, p: nat, g: nat, run: seq<State>) returns (run': seq<State>)
    requires IsFixedRun(cap, p, g, run)
    requires Resting(run[|run| - 1], |run[|run| - 1].held|) && |run[|run| - 1].held| >= g
    ensures IsFixedRun(cap, p, g, run') && Resting(run'[|run'| - 1], |run[|run| - 1].held| - g)
  {
    run' := Extend(cap, p, g, run, Request(g));
    run' := Extend(cap, p, g, run', TrySend);
  }

  lemma BlockBoth(cap: nat, p: nat, g: nat, run: seq<State>) returns (run': seq<State>)
    requires IsFixedRun(cap, p, g, run)
    requires Resting(run[|run| - 1], |run[|run| - 1].held|) && cap - p < |run[|run| - 1].held| < g
    ensures IsFixedRun(cap, p, g, run') && Deadlocked(run'[|run'| - 1])
  {
    run' := Extend(cap, p, g, run, CallPut(seq(p, i => 0)));
    run' := Extend(cap, p, g, run', TryPut);
    run' := Extend(cap, p, g, run', Request(g));
    run' := Extend(cap, p, g, run', TrySend);
  }

  lemma SmallRingDeadlocks(cap: nat, p: nat, g: nat) returns (run: seq<State>)
    requires p > 0 && g > 0 && cap < p + g - Gcd(p, g)
    ensures IsFixedRun(cap, p, g, run) && Deadlocked(run[|run| - 1])
  {
    var k := MultipleReaches(p, g);
    run := Rounds(cap, p, g, k);
    if !Deadlocked(run[|run| - 1]) {
      assert Residue(p, g, k) == g - Gcd(p, g);
      run := BlockBoth(cap, p, g, run);
    }
  }

  // The exact capacity from which fixed put and get sizes cannot deadlock.
  lemma DeadlockFreeExactlyWhen(cap: nat, p: nat, g: nat)
    requires p > 0 && g > 0
    ensures (forall run, i :: IsFixedRun(cap, p, g, run) && 0 <= i < |run| ==> !Deadlocked(run[i]))
            <==> cap >= p + g - Gcd(p, g)
  {
    if cap >= p + g - Gcd(p, g) {
      forall run, i | IsFixedRun(cap, p, g, run) && 0 <= i < |run| ensures !Deadlocked(run[i]) {
        BigRingNeverDeadlocks(cap, p, g, run, i);
      }
    } else {
      var run := SmallRingDeadlocks(cap, p, g);
    }
  }
}
