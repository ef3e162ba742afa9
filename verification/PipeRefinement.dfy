// The pipe that the application networks of this project are built from, a
// bounded FIFO of whole units, and what entitles them to it: the byte ring, the
// slot ring and a channel of the request protocol each move like such a pipe, step
// by step, with the same guards.
module Pipes {

  // Everything put, and how much of it has been taken.
  datatype Pipe<T> = Pipe(put: seq<T>, taken: nat)

  predicate CanPut<T>(p: Pipe<T>, cap: nat) {
    |p.put| - p.taken < cap
  }

  predicate CanGet<T>(p: Pipe<T>) {
    p.taken < |p.put|
  }

  function Put<T>(p: Pipe<T>, x: T): Pipe<T> {
    Pipe(p.put + [x], p.taken)
  }

  function Get<T>(p: Pipe<T>): Pipe<T> {
    Pipe(p.put, p.taken + 1)
  }

  ghost predicate PipeStep<T(!new)>(p: Pipe<T>, p': Pipe<T>, cap: nat) {
    || p' == p
    || (CanPut(p, cap) && exists x :: p' == Put(p, x))
    || (CanGet(p) && p' == Get(p))
  }
}

// A stream of bytes as a sequence of units of u bytes.
module Units {
  import opened ByteRing
  import Gcds

  predicate Whole(u: nat, b: seq<byte>)
    requires u > 0
    decreases |b|
  {
    b == [] || (|b| >= u && Whole(u, b[u..]))
  }

  function Cut(u: nat, b: seq<byte>): seq<seq<byte>>
    requires u > 0
    decreases |b|
  {
    if |b| < u then [] else [b[..u]] + Cut(u, b[u..])
  }

  lemma {:induction false} CutLength(u: nat, b: seq<byte>)
    requires u > 0 && Whole(u, b)
    ensures |b| == |Cut(u, b)| * u
    decreases |b|
  {
    if b != [] {
      CutLength(u, b[u..]);
      assert |Cut(u, b)| == |Cut(u, b[u..])| + 1;
    }
  }

  lemma CutStep(u: nat, a: seq<byte>, b: seq<byte>)
    requires |a| >= u > 0
    ensures Cut(u, a + b) == [a[..u]] + Cut(u, a[u..] + b)
    ensures Whole(u, a + b) <==> Whole(u, a[u..] + b)
  {
    assert (a + b)[u..] == a[u..] + b && (a + b)[..u] == a[..u];
  }

  lemma {:induction false} CutAppend(u: nat, a: seq<byte>, b: seq<byte>)
    requires u > 0 && Whole(u, a)
    ensures Whole(u, a + b) <==> Whole(u, b)
    ensures Cut(u, a + b) == Cut(u, a) + Cut(u, b)
    decreases |a|
  {
    if a == [] {
      assert a + b == b;
    } else {
      CutStep(u, a, b);
      CutAppend(u, a[u..], b);
    }
  }

  lemma CutOne(u: nat, x: seq<byte>)
    requires |x| == u > 0
    ensures Whole(u, x) && Cut(u, x) == [x]
  {
    assert x[u..] == [] && x[..u] == x;
  }

  lemma {:induction false} FirstUnit(u: nat, b: seq<byte>)
    requires u > 0 && Whole(u, b) && b != []
    ensures |b| >= u && |Cut(u, b)| > 0 && Cut(u, b)[0] == b[..u]
  {
  }

  // Room for one more unit, and one unit there, in bytes and in units.
  lemma UnitGuards(u: nat, cap: nat, held: int)
    requires u > 0
    ensures cap * u - held * u < u <==> cap <= held
    ensures held * u >= u <==> held >= 1
  {
    Gcds.Spread(cap, held, u);
    if cap > held {
      Gcds.ScaleAtLeast(cap - held, u);
    }
    if held >= 1 {
      Gcds.ScaleAtLeast(held, u);
    }
  }

  // One stream is the front of another, and both are whole: the rest as units.
  lemma CutRest(u: nat, put: seq<byte>, n: nat)
    requires u > 0 && n <= |put| && Whole(u, put) && Whole(u, put[..n])
    ensures Whole(u, put[n..]) && Cut(u, put) == Cut(u, put[..n]) + Cut(u, put[n..])
  {
    assert put == put[..n] + put[n..];
    CutAppend(u, put[..n], put[n..]);
  }

  // The guards in bytes and in units, for what is put and not yet taken; room is
  // that of cap units.
  lemma Buffered(u: nat, cap: nat, room: nat, put: seq<byte>, n: nat)
    requires u > 0 && n <= |put| && Whole(u, put) && Whole(u, put[..n]) && room == cap * u
    ensures var units := |Cut(u, put)| - |Cut(u, put[..n])|;
      && units >= 0
      && (|put| - n + u <= room <==> units < cap)
      && (|put| - n >= u <==> units > 0)
      && (|put| - n <= room ==> units <= cap)
  {
    CutRest(u, put, n);
    CutLength(u, put[n..]);
    var units := |Cut(u, put[n..])|;
    UnitGuards(u, cap, units);
    UnitGuards(u, cap, units - 1);
    Gcds.Spread(units, 1, u);
  }

  lemma NextUnit(u: nat, put: seq<byte>, n: nat)
    requires u > 0 && n <= |put| && Whole(u, put) && Whole(u, put[..n])
    ensures var taken := |Cut(u, put[..n])|;
      && taken <= |Cut(u, put)| && Cut(u, put[..n]) == Cut(u, put)[..taken]
      && (taken < |Cut(u, put)| ==> |put| - n >= u && put[n..][..u] == Cut(u, put)[taken])
  {
    CutRest(u, put, n);
    if put[n..] != [] {
      FirstUnit(u, put[n..]);
    }
  }
}

// Puts and gets of one size.
module ByteRingPipe {
  import opened ByteRing
  import opened ByteRingProtocol
  import opened Gcds
  import opened Runs
  import opened Pipes
  import opened Units

  function View(u: nat, s: State): Pipe<seq<byte>>
    requires u > 0
  {
    Pipe(Cut(u, s.put), |Cut(u, s.sent)|)
  }

  ghost predicate UnitInv(s: State, cap: nat, u: nat)
    requires u > 0
  {
    Inv(s, cap * u) && Whole(u, s.put) && Whole(u, s.sent)
  }

  lemma UnitsHeld(s: State, cap: nat, u: nat)
    requires u > 0 && UnitInv(s, cap, u)
    ensures cap * u - |s.held| < u <==> !CanPut(View(u, s), cap)
    ensures |s.held| >= u <==> CanGet(View(u, s))
    ensures var p := View(u, s);
      && p.taken <= |p.put| <= p.taken + cap && Cut(u, s.sent) == p.put[..p.taken]
      && (CanGet(p) ==> s.held[..u] == p.put[p.taken])
  {
    assert s.put[..|s.sent|] == s.sent && s.put[|s.sent|..] == s.held;
    Buffered(u, cap, cap * u, s.put, |s.sent|);
    NextUnit(u, s.put, |s.sent|);
  }

  lemma PutIsPut(s: State, s': State, cap: nat, u: nat)
    requires u > 0 && UnitInv(s, cap, u) && FixedSizes(s, u, u)
    requires Enabled(s, TryPut) && s' == Next(s, cap * u, TryPut)
    ensures UnitInv(s', cap, u)
    ensures if CanPut(View(u, s), cap) then s'.p.Computing? && View(u, s') == Put(View(u, s), s.p.data)
            else s'.p.PutAsleep? && View(u, s') == View(u, s)
  {
    StepKeeps(s, s', cap * u, TryPut);
    UnitsHeld(s, cap, u);
    CutOne(u, s.p.data);
    CutAppend(u, s.put, s.p.data);
  }

  lemma SendIsGet(s: State, s': State, cap: nat, u: nat)
    requires u > 0 && UnitInv(s, cap, u) && FixedSizes(s, u, u)
    requires Enabled(s, TrySend) && s' == Next(s, cap * u, TrySend)
    ensures UnitInv(s', cap, u)
    ensures var p := View(u, s);
      if CanGet(p) then s'.c.Serving? && s'.sent == s.sent + p.put[p.taken] && View(u, s') == Get(p)
      else s'.c.SendAsleep? && View(u, s') == p
  {
    StepKeeps(s, s', cap * u, TrySend);
    UnitsHeld(s, cap, u);
    if |s.held| >= u {
      CutOne(u, s.held[..u]);
      CutAppend(u, s.sent, s.held[..u]);
    }
  }

  lemma RingStepIsPipeStep(s: State, s': State, cap: nat, u: nat, e: Event)
    requires u > 0 && UnitInv(s, cap, u) && FixedSizes(s, u, u) && Enabled(s, e) && s' == Next(s, cap * u, e)
    ensures UnitInv(s', cap, u) && PipeStep(View(u, s), View(u, s'), cap)
  {
    match e
    case TryPut => PutIsPut(s, s', cap, u);
    case TrySend => SendIsGet(s, s', cap, u);
    case _ => StepKeeps(s, s', cap * u, e);
  }

  lemma {:induction false} UnitRunHolds(cap: nat, u: nat, run: seq<State>, i: nat)
    requires u > 0 && IsFixedRun(cap * u, u, u, run) && i < |run|
    ensures UnitInv(run[i], cap, u)
  {
    if i > 0 {
      UnitRunHolds(cap, u, run, i - 1);
      assert Step(run[i - 1], run[i - 1 + 1], cap * u);
      var e :| Enabled(run[i - 1], e) && run[i] == Next(run[i - 1], cap * u, e);
      RingStepIsPipeStep(run[i - 1], run[i], cap, u, e);
    }
  }

  // A ring with room for cap units, in every run: each step is a step of the pipe
  // or leaves it alone, and what has been sent is what has been taken from it.
  lemma EveryRingRunIsAPipeRun(cap: nat, u: nat, run: seq<State>, i: nat)
    requires u > 0 && IsFixedRun(cap * u, u, u, run) && i < |run|
    ensures var p := View(u, run[i]);
      && p.taken <= |p.put| <= p.taken + cap
      && Cut(u, run[i].sent) == p.put[..p.taken]
    ensures i + 1 < |run| ==> PipeStep(View(u, run[i]), View(u, run[i + 1]), cap)
  {
    UnitRunHolds(cap, u, run, i);
    UnitsHeld(run[i], cap, u);
    if i + 1 < |run| {
      assert Step(run[i], run[i + 1], cap * u);
      var e :| Enabled(run[i], e) && run[i + 1] == Next(run[i], cap * u, e);
      RingStepIsPipeStep(run[i], run[i + 1], cap, u, e);
    }
  }

  // Room for a single unit is enough: the two sides never sleep at once.
  lemma PipeNeverDeadlocks(cap: nat, u: nat, run: seq<State>, i: nat)
    requires u > 0 && cap > 0 && IsFixedRun(cap * u, u, u, run) && i < |run|
    ensures !Deadlocked(run[i])
  {
    assert Gcd(u, u) == u by {
      ModUnique(u, u, 1, 0);
    }
    ScaleAtLeast(cap, u);
    BigRingNeverDeadlocks(cap * u, u, u, run, i);
  }
}

// A slot ring of du slots is a pipe of du - 1 items for each reading pointer; a
// commit needs room in all of them.
module SlotRingPipe {
  import opened SlotRing
  import opened SlotRingProtocol
  import opened Runs
  import opened Pipes

  // An item is in the pipe from the moment its commit can return.
  ghost function View<T>(s: State<T>, j: nat): Pipe<T>
    requires j < |s.read| && Completed(s) >= 0
  {
    Pipe(s.items[..Completed(s)], s.read[j])
  }

  ghost predicate RoomForAll<T>(s: State<T>, c: Config)
    requires |s.read| == c.pointers && Completed(s) >= 0
  {
    forall i :: 0 <= i < c.pointers ==> CanPut(View(s, i), PipeCap(c))
  }

  function PipeCap(c: Config): nat {
    if c.du == 0 then 0 else c.du - 1
  }

  lemma RoomMeansPut<T>(s: State<T>, c: Config)
    requires Inv(s, c) && s.producer != Filling
    ensures HasRoom(s.q) <==> RoomForAll(s, c)
  {
    RoomMeansClose(s, c);
    if RoomForAll(s, c) {
      forall j | 0 <= j < c.pointers ensures |s.items| - s.read[j] <= c.du - 1 {
        assert CanPut(View(s, j), PipeCap(c));
      }
    }
  }

  lemma CommitIsPut<T>(s: State<T>, s': State<T>, c: Config, e: Event<T>, j: nat)
    requires Inv(s, c) && j < c.pointers && (e.Commit? || e.Recheck?) && Enabled(s, c, e) && s' == Next(s, c, e)
    ensures Completed(s') >= 0 && |s'.read| == c.pointers
    ensures s'.producer == Filling <==> RoomForAll(s, c)
    ensures View(s', j) == if RoomForAll(s, c) then Put(View(s, j), s'.items[|s'.items| - 1]) else View(s, j)
  {
    if e.Commit? {
      var m := Published(s, c);
      PublishKeeps(s, c);
      assert Completed(m) == Completed(s) && m.items[..Completed(m)] == s.items[..Completed(s)];
      assert forall i :: 0 <= i < c.pointers ==> View(m, i) == View(s, i);
      assert RoomForAll(m, c) <==> RoomForAll(s, c);
      RoomMeansPut(m, c);
    } else {
      RoomMeansPut(s, c);
    }
  }

  lemma SendIsGet<T>(s: State<T>, s': State<T>, c: Config, t: nat, j: nat)
    requires Inv(s, c) && j < c.pointers && Enabled(s, c, TrySend(t)) && s' == Next(s, c, TrySend(t))
    ensures Completed(s') >= 0 && |s'.read| == c.pointers
    ensures var p := View(s, j);
      if CanGet(p) && c.ptrOf[t] == j then
        View(s', j) == Get(p) && s'.log == s.log + [(t, p.put[p.taken])] && s'.threads[t] == Idle
      else
        && View(s', j) == p
        && (c.ptrOf[t] == j ==>
              s'.log == s.log && s'.threads == s.threads[t := if s.threads[t] == AskingOnce then Idle else Asleep])
  {
    var k := c.ptrOf[t];
    ReadyMeansAhead(s, c, k);
    if Ready(s.q, s.ptrs[k]) {
      assert PointerInv(s, c, k) && SlotInv(s, c, s.read[k]);
    }
  }

  lemma RingStepIsPipeStep<T(!new)>(s: State<T>, s': State<T>, c: Config, e: Event<T>, j: nat)
    requires Inv(s, c) && j < c.pointers && Enabled(s, c, e) && s' == Next(s, c, e)
    ensures Completed(s') >= 0 && |s'.read| == c.pointers
    ensures PipeStep(View(s, j), View(s', j), PipeCap(c))
  {
    match e
    case Commit => CommitIsPut(s, s', c, e, j);
    case Recheck => CommitIsPut(s, s', c, e, j);
    case TrySend(t) => SendIsGet(s, s', c, t, j);
    case _ => assert Completed(s') == Completed(s);
  }

  lemma EveryRingRunIsAPipeRun<T(!new)>(c: Config, run: seq<State<T>>, i: nat, j: nat)
    requires IsRingRun(c, run) && i + 1 < |run| && j < c.pointers
    ensures var (s, s') := (run[i], run[i + 1]);
      && Completed(s) >= 0 && Completed(s') >= 0 && j < |s.read| && j < |s'.read|
      && PipeStep(View(s, j), View(s', j), PipeCap(c))
  {
    EveryRunHolds(c, run, i);
    assert Step(run[i], run[i + 1], c);
    var e :| Enabled(run[i], c, e) && run[i + 1] == Next(run[i], c, e);
    RingStepIsPipeStep(run[i], run[i + 1], c, e, j);
  }
}

// One channel among the many that share the request protocol, put and got in units.
module ChannelPipe {
  import opened ByteRing
  import opened RequestProtocol
  import opened Runs
  import opened Pipes
  import opened Units

  // Channel t: its unit, its room in units, and what the program does with it.
  datatype Channel = Channel(t: nat, u: nat, cap: nat)

  ghost predicate InUnits(setup: Setup, ch: Channel) {
    && ch.u > 0 && setup.unit(ch.t) == ch.u
    && forall r: Request :: setup.allowed(r) && !r.Kill? && r.tag == ch.t ==> r.du == 1
  }

  predicate UnitEvent(s: State, ch: Channel, e: Event) {
    && (e.CreateSink? && |s.sinks| == ch.t ==> e.cap == ch.cap * ch.u)
    && (e.Put? && e.tag == ch.t ==> |e.x| == ch.u)
  }

  // Before its sink exists a channel is an empty pipe.
  function View(s: State, ch: Channel): Pipe<seq<byte>>
    requires ch.u > 0
  {
    if ch.t < |s.sinks| then PipeOf(s.sinks[ch.t], ch.u) else Pipe([], 0)
  }

  function Sent(k: Sink): seq<byte> {
    if k.sent <= |k.put| then k.put[..k.sent] else k.put
  }

  function PipeOf(k: Sink, u: nat): Pipe<seq<byte>>
    requires u > 0
  {
    Pipe(Cut(u, k.put), |Cut(u, Sent(k))|)
  }

  ghost predicate WholeSink(k: Sink, ch: Channel)
    requires ch.u > 0
  {
    k.sent <= |k.put| && k.cap == ch.cap * ch.u && Whole(ch.u, k.put) && Whole(ch.u, Sent(k))
  }

  ghost predicate UnitInv(s: State, setup: Setup, ch: Channel) {
    InUnits(setup, ch) && Inv(s, setup) && (ch.t < |s.sinks| ==> WholeSink(s.sinks[ch.t], ch))
  }

  lemma UnitsBuffered(k: Sink, ch: Channel)
    requires ch.u > 0 && WholeSink(k, ch)
    ensures |Unsent(k)| + ch.u <= k.cap <==> CanPut(PipeOf(k, ch.u), ch.cap)
    ensures |Unsent(k)| >= ch.u <==> CanGet(PipeOf(k, ch.u))
    ensures var p := PipeOf(k, ch.u);
      && p.taken <= |p.put| && Cut(ch.u, Sent(k)) == p.put[..p.taken]
      && (CanGet(p) ==> Unsent(k)[..ch.u] == p.put[p.taken])
  {
    Buffered(ch.u, ch.cap, k.cap, k.put, k.sent);
    NextUnit(ch.u, k.put, k.sent);
  }

  // A put is possible exactly when the pipe has room, and is a put into it.
  lemma PutIsPut(s: State, setup: Setup, ch: Channel, x: seq<byte>)
    requires UnitInv(s, setup, ch) && ch.t < |s.sinks| && ch.t !in s.removed && |x| == ch.u
    ensures Enabled(s, setup, RequestProtocol.Event.Put(ch.t, x)) <==> CanPut(View(s, ch), ch.cap)
    ensures CanPut(View(s, ch), ch.cap) ==>
      View(Next(s, setup, RequestProtocol.Event.Put(ch.t, x)), ch) == Pipes.Put(View(s, ch), x)
  {
    var k := s.sinks[ch.t];
    UnitsBuffered(k, ch);
    PutWhole(k, ch, x);
  }

  lemma PutWhole(k: Sink, ch: Channel, x: seq<byte>)
    requires ch.u > 0 && WholeSink(k, ch) && |x| == ch.u
    ensures var k' := k.(put := k.put + x);
      WholeSink(k', ch) && PipeOf(k', ch.u) == Pipes.Put(PipeOf(k, ch.u), x)
  {
    CutOne(ch.u, x);
    CutAppend(ch.u, k.put, x);
    assert Sent(k.(put := k.put + x)) == Sent(k);
  }

  lemma TakeWhole(k: Sink, ch: Channel)
    requires ch.u > 0 && WholeSink(k, ch) && |Unsent(k)| >= ch.u
    ensures var k' := k.(sent := k.sent + ch.u);
      WholeSink(k', ch) && PipeOf(k', ch.u) == Pipes.Get(PipeOf(k, ch.u))
  {
    var x := Unsent(k)[..ch.u];
    assert Sent(k.(sent := k.sent + ch.u)) == Sent(k) + x;
    CutOne(ch.u, x);
    CutAppend(ch.u, Sent(k), x);
  }

  lemma AnswersUnit(setup: Setup, ch: Channel, r: Request, k: Sink)
    requires ch.u > 0 && WholeSink(k, ch) && !r.Kill? && AnswerSize(setup, r) == ch.u
    ensures var (p, reply) := (PipeOf(k, ch.u), ReplyTo(setup, r, ch.t, k));
      var k' := k.(sent := k.sent + |reply.bytes|);
      if CanGet(p) then
        && PipeOf(k', ch.u) == Pipes.Get(p) && WholeSink(k', ch)
        && Wire(reply) == (if r.CondGet? then Flag(true) else []) + p.put[p.taken]
      else k' == k && Wire(reply) == if r.CondGet? then Flag(false) else []
  {
    UnitsBuffered(k, ch);
    if |Unsent(k)| >= ch.u {
      TakeWhole(k, ch);
    } else {
      assert Flag(false) + [] == Flag(false);
    }
  }

  lemma ServesUnit(s: State, setup: Setup, ch: Channel)
    requires InUnits(setup, ch) && Inv(s, setup) && s.service.Serving? && s.service.r.tag == ch.t
    ensures !s.service.r.Kill? && s.service.r.du == 1 && AnswerSize(setup, s.service.r) == ch.u
    ensures s.service.at < |s.links| && s.links[s.service.at] == ch.t < |s.sinks|
  {
    assert Pending(s)[0] == s.service.r;
  }

  lemma AnswerEffect(s: State, setup: Setup, ch: Channel)
    requires ch.u > 0 && s.service.Serving? && !s.service.r.Kill? && AnswerSize(setup, s.service.r) == ch.u
    requires s.service.at < |s.links| && s.links[s.service.at] == ch.t < |s.sinks| && WholeSink(s.sinks[ch.t], ch)
    ensures Enabled(s, setup, Answer) <==> s.service.r.CondGet? || |Unsent(s.sinks[ch.t])| >= ch.u
    ensures Enabled(s, setup, Answer) ==>
      var (s', k) := (Next(s, setup, Answer), s.sinks[ch.t]);
      var reply := ReplyTo(setup, s.service.r, ch.t, k);
      && s'.sinks == s.sinks[ch.t := k.(sent := k.sent + |reply.bytes|)] && s'.data == s.data + Wire(reply)
  {
  }

  // A get takes the oldest unit and writes it to the wire, after the flag if it is
  // conditional; a conditional get of an empty pipe is answered by the flag alone.
  ghost predicate Gets(s: State, s': State, ch: Channel, conditional: bool)
    requires ch.u > 0
  {
    var p := View(s, ch);
    if CanGet(p) then
      && View(s', ch) == Pipes.Get(p) && ch.t < |s'.sinks| && WholeSink(s'.sinks[ch.t], ch)
      && s'.data == s.data + ((if conditional then Flag(true) else []) + p.put[p.taken])
    else s'.sinks == s.sinks && conditional && s'.data == s.data + Flag(false)
  }

  lemma SinkGets(s: State, s': State, ch: Channel, conditional: bool, k': Sink, wire: seq<byte>)
    requires ch.u > 0 && ch.t < |s.sinks| && (conditional || CanGet(View(s, ch)))
    requires var p := View(s, ch);
      if CanGet(p) then
        && PipeOf(k', ch.u) == Pipes.Get(p) && WholeSink(k', ch)
        && wire == (if conditional then Flag(true) else []) + p.put[p.taken]
      else k' == s.sinks[ch.t] && wire == if conditional then Flag(false) else []
    requires s'.sinks == s.sinks[ch.t := k'] && s'.data == s.data + wire
    ensures Gets(s, s', ch, conditional)
  {
    assert s.sinks[ch.t := s.sinks[ch.t]] == s.sinks;
  }

  lemma AnswerGets(s: State, setup: Setup, ch: Channel)
    requires ch.u > 0 && s.service.Serving? && !s.service.r.Kill? && AnswerSize(setup, s.service.r) == ch.u
    requires s.service.at < |s.links| && s.links[s.service.at] == ch.t < |s.sinks| && WholeSink(s.sinks[ch.t], ch)
    ensures Enabled(s, setup, Answer) <==> s.service.r.CondGet? || CanGet(View(s, ch))
    ensures Enabled(s, setup, Answer) ==> Gets(s, Next(s, setup, Answer), ch, s.service.r.CondGet?)
  {
    var k, r := s.sinks[ch.t], s.service.r;
    UnitsBuffered(k, ch);
    AnswerEffect(s, setup, ch);
    if Enabled(s, setup, Answer) {
      AnswersUnit(setup, ch, r, k);
      var reply := ReplyTo(setup, r, ch.t, k);
      SinkGets(s, Next(s, setup, Answer), ch, r.CondGet?, k.(sent := k.sent + |reply.bytes|), Wire(reply));
    }
  }

  // An answer on the channel is a get from the pipe, possible exactly when the pipe
  // holds a unit or the get is conditional.
  lemma AnswerIsGet(s: State, setup: Setup, ch: Channel)
    requires UnitInv(s, setup, ch) && s.service.Serving? && s.service.r.tag == ch.t
    ensures ch.t < |s.sinks| && (Enabled(s, setup, Answer) <==> s.service.r.CondGet? || CanGet(View(s, ch)))
    ensures Enabled(s, setup, Answer) ==> Gets(s, Next(s, setup, Answer), ch, s.service.r.CondGet?)
  {
    ServesUnit(s, setup, ch);
    AnswerGets(s, setup, ch);
  }

  // Nothing else touches the channel's sink.
  lemma OtherSinks(s: State, s': State, setup: Setup, t: nat, e: Event)
    requires Moves(s, s', setup, e) && !(e.Put? && e.tag == t)
    requires e.Answer? ==> s.links[s.service.at] != t
    ensures t < |s.sinks| ==> t < |s'.sinks| && s'.sinks[t] == s.sinks[t]
    ensures t >= |s.sinks| ==> t >= |s'.sinks| || (e.CreateSink? && t == |s.sinks| && s'.sinks[t] == Sink([], 0, e.cap))
  {
  }

  lemma OthersLeave(s: State, s': State, setup: Setup, ch: Channel, e: Event)
    requires UnitInv(s, setup, ch) && UnitEvent(s, ch, e) && Moves(s, s', setup, e)
    requires !(e.Put? && e.tag == ch.t) && !(e.Answer? && s.service.r.tag == ch.t)
    ensures View(s', ch) == View(s, ch) && (ch.t < |s'.sinks| ==> WholeSink(s'.sinks[ch.t], ch))
  {
    if e.Answer? {
      AnswersOwnTag(s);
    }
    OtherSinks(s, s', setup, ch.t, e);
  }

  lemma AnswersOwnTag(s: State)
    requires SearchInv(s) && s.service.Serving?
    ensures s.service.at < |s.links| && s.links[s.service.at] == s.service.r.tag
  {
  }

  lemma ChannelStepIsPipeStep(s: State, s': State, setup: Setup, ch: Channel, e: Event)
    requires UnitInv(s, setup, ch) && UnitEvent(s, ch, e) && Moves(s, s', setup, e)
    ensures UnitInv(s', setup, ch) && PipeStep(View(s, ch), View(s', ch), ch.cap)
  {
    StepKeeps(s, s', setup, e);
    if e.Put? && e.tag == ch.t {
      PutIsPut(s, setup, ch, e.x);
      PutWhole(s.sinks[ch.t], ch, e.x);
    } else if e.Answer? && s.service.r.tag == ch.t {
      AnswerIsGet(s, setup, ch);
    } else {
      OthersLeave(s, s', setup, ch, e);
    }
  }

  ghost predicate UnitStep(s: State, s': State, setup: Setup, ch: Channel) {
    exists e :: UnitEvent(s, ch, e) && Enabled(s, setup, e) && s' == Next(s, setup, e)
  }

  ghost predicate IsUnitRun(setup: Setup, ch: Channel, run: seq<State>) {
    IsRun(s => Start(s), (s, s') => UnitStep(s, s', setup, ch), run)
  }

  lemma UnitStepKeeps(s: State, s': State, setup: Setup, ch: Channel)
    requires UnitInv(s, setup, ch) && UnitStep(s, s', setup, ch)
    ensures UnitInv(s', setup, ch) && PipeStep(View(s, ch), View(s', ch), ch.cap)
  {
    var e :| UnitEvent(s, ch, e) && Enabled(s, setup, e) && s' == Next(s, setup, e);
    ChannelStepIsPipeStep(s, s', setup, ch, e);
  }

  lemma UnitRunHolds(setup: Setup, ch: Channel, run: seq<State>, i: nat)
    requires AsksOneSlot(setup) && InUnits(setup, ch) && IsUnitRun(setup, ch, run) && i < |run|
    ensures UnitInv(run[i], setup, ch)
  {
    var init, next, inv := (s: State) => Start(s), (s: State, s': State) => UnitStep(s, s', setup, ch),
                           (s: State) => UnitInv(s, setup, ch);
    forall s, s' | inv(s) && next(s, s') ensures inv(s') {
      UnitStepKeeps(s, s', setup, ch);
    }
    InvariantHolds(init, next, inv, run, i);
  }

  // Whatever the other channels do, each step of a run is a step of this channel's
  // pipe or leaves it alone; and when nothing is on the wire, the consumer has
  // exactly the units that have been taken from the pipe.
  lemma EveryChannelRunIsAPipeRun(setup: Setup, ch: Channel, run: seq<State>, i: nat)
    requires AsksOneSlot(setup) && InUnits(setup, ch) && IsUnitRun(setup, ch, run) && i < |run|
    ensures i + 1 < |run| ==> PipeStep(View(run[i], ch), View(run[i + 1], ch), ch.cap)
    ensures var (s, p) := (run[i], View(run[i], ch));
      && p.taken <= |p.put|
      && (ch.t < |s.got| && s.data == [] && !s.flagged ==> Cut(ch.u, s.got[ch.t]) == p.put[..p.taken])
  {
    UnitRunHolds(setup, ch, run, i);
    var s := run[i];
    AllReceived(s, setup, ch);
    if i + 1 < |run| {
      assert UnitStep(run[i], run[i + 1], setup, ch);
      UnitStepKeeps(s, run[i + 1], setup, ch);
    }
  }

  lemma AllReceived(s: State, setup: Setup, ch: Channel)
    requires UnitInv(s, setup, ch)
    ensures var p := View(s, ch);
      && p.taken <= |p.put|
      && (ch.t < |s.got| && s.data == [] && !s.flagged ==> Cut(ch.u, s.got[ch.t]) == p.put[..p.taken])
  {
    if ch.t < |s.sinks| {
      UnitsBuffered(s.sinks[ch.t], ch);
    }
    if s.data == [] && !s.flagged {
      UnreadOnWire(setup, s.asked, s.log, s.done, s.flagged, s.data, Pending(s));
      assert s.log[..s.done] == s.log;
      if ch.t >= |s.sinks| {
        NoStream(s.log, ch.t);
      }
    }
  }

  // --- A get returns ---

  // The consumer has asked for one unit and for nothing else; the sink is there.
  ghost predicate Waiting(s: State, setup: Setup, ch: Channel) {
    UnitInv(s, setup, ch) && AskedOne(s, ch)
  }

  ghost predicate AskedOne(s: State, ch: Channel) {
    && s.done + 1 == |s.asked| && s.asked[s.done] == Request.Get(ch.t, 1)
    && (Pending(s) == [Request.Get(ch.t, 1)] || Pending(s) == []) && ch.t in s.links
  }

  // What the service thread and the waiting consumer do by themselves.
  predicate Own(e: Event) {
    e.Take? || e.Look? || e.Rescan? || e.Answer? || e.ReadData?
  }

  ghost predicate OwnStep(s: State, s': State, setup: Setup) {
    exists e :: Own(e) && Enabled(s, setup, e) && s' == Next(s, setup, e)
  }

  ghost predicate OwnStuck(s: State, setup: Setup) {
    forall s' :: !OwnStep(s, s', setup)
  }

  function GetRank(s: State): nat {
    if s.done >= |s.asked| then 0
    else if s.done < |s.log| then 1
    else if s.service.Idle? then |s.links| + 4
    else if SearchRank(s) < 0 then 2 else SearchRank(s) + 2
  }

  // Either still waiting, for a unit that is buffered or on the wire, with n bytes
  // got so far; or done.
  ghost predicate Getting(s: State, setup: Setup, ch: Channel, put: seq<byte>, n: nat) {
    UnitInv(s, setup, ch) && Progress(s, ch, put, n)
  }

  ghost predicate Progress(s: State, ch: Channel, put: seq<byte>, n: nat)
    requires ch.u > 0
  {
    && ch.t < |s.sinks| && ch.t < |s.got| && s.sinks[ch.t].put == put
    && if s.done < |s.asked| then
         AskedOne(s, ch) && |s.got[ch.t]| == n && (s.done < |s.log| || CanGet(View(s, ch)))
       else Pending(s) == [] && s.done == |s.asked| && |s.got[ch.t]| == n + ch.u
  }

  lemma OneOutstanding(s: State, setup: Setup, ch: Channel)
    requires Waiting(s, setup, ch)
    ensures if s.done < |s.log| then Pending(s) == [] else Pending(s) == [Request.Get(ch.t, 1)]
    ensures |s.log| <= |s.asked| && !s.flagged
  {
    var r := Request.Get(ch.t, 1);
    assert HasReply(setup, r);
    RepliedOne(setup, r);
    if s.done < |s.log| {
      assert s.asked[|s.log|..] == [];
    }
  }

  // Own steps leave the streams, the list and the requests made alone.
  lemma OwnFrame(s: State, s': State, setup: Setup, e: Event, t: nat)
    requires Own(e) && Moves(s, s', setup, e) && (e.Take? ==> !s.reqs[0].Kill?)
    ensures s'.links == s.links && s'.asked == s.asked && |s'.sinks| == |s.sinks| && |s'.got| == |s.got|
    ensures t < |s.sinks| ==> s'.sinks[t].put == s.sinks[t].put
  {
  }

  lemma TakeRank(s: State, s': State, setup: Setup)
    requires Moves(s, s', setup, Take) && !s.reqs[0].Kill? && s.done == |s.log| < |s.asked|
    ensures GetRank(s') < GetRank(s) && SameFrame(s, s') && s'.got == s.got && s'.sinks == s.sinks
  {
  }

  lemma NextIsGet(s: State, setup: Setup, ch: Channel)
    requires Waiting(s, setup, ch) && s.service.Idle? && s.reqs != []
    ensures !s.reqs[0].Kill? && s.done == |s.log| < |s.asked|
  {
    OneOutstanding(s, setup, ch);
    assert s.reqs[0] == Pending(s)[0];
  }

  lemma SearchFrame(s: State, s': State, setup: Setup, e: Event)
    requires (e.Look? || e.Rescan?) && Moves(s, s', setup, e)
    ensures Pending(s') == Pending(s) && SameFrame(s, s') && s'.got == s.got && s'.sinks == s.sinks
    ensures !s.service.Idle? && !s'.service.Idle?
  {
  }

  lemma SearchAdvances(s: State, s': State, setup: Setup, ch: Channel, e: Event)
    requires Waiting(s, setup, ch) && (e.Look? || e.Rescan?) && Moves(s, s', setup, e)
    ensures Pending(s') == Pending(s) && SameFrame(s, s') && s'.got == s.got
    ensures s'.sinks == s.sinks && s.done == |s.log| && GetRank(s') < GetRank(s)
  {
    SearchFrame(s, s', setup, e);
    ServesGet(s, setup, ch);
    SearchFalls(s, s', setup, e);
  }

  lemma AnswerRank(s: State, s': State, setup: Setup)
    requires Moves(s, s', setup, Answer) && HasReply(setup, s.service.r) && s.done == |s.log| < |s.asked|
    ensures s'.done == s.done < |s'.log| && s'.got == s.got && GetRank(s') < GetRank(s)
  {
  }

  lemma AnswerAdvances(s: State, s': State, setup: Setup, ch: Channel)
    requires Waiting(s, setup, ch) && Moves(s, s', setup, Answer)
    ensures Pending(s') == [] && s'.done == s.done < |s'.log| && s'.got == s.got && GetRank(s') < GetRank(s)
  {
    AnsweredPending(s, s', setup);
    ServesGet(s, setup, ch);
    AnswerRank(s, s', setup);
  }

  lemma ServesGet(s: State, setup: Setup, ch: Channel)
    requires Waiting(s, setup, ch) && !s.service.Idle?
    ensures HasReply(setup, s.service.r) && s.reqs == [] && s.done == |s.log| < |s.asked|
  {
    OneOutstanding(s, setup, ch);
    assert s.service.r == Pending(s)[0];
  }

  lemma ReadRank(s: State, s': State, setup: Setup, t: nat)
    requires Moves(s, s', setup, ReadData) && s.done + 1 == |s.asked| && s.asked[s.done] == Request.Get(t, 1)
    requires s.done < |s.log|
    ensures s'.done == |s'.asked| && GetRank(s') < GetRank(s)
    ensures t < |s'.got| == |s.got| && |s'.got[t]| == |s.got[t]| + setup.unit(t)
  {
    assert Size(setup, Request.Get(t, 1)) == setup.unit(t);
  }

  lemma ReadAdvances(s: State, s': State, setup: Setup, ch: Channel)
    requires Waiting(s, setup, ch) && ch.t < |s.got| && Moves(s, s', setup, ReadData)
    ensures Pending(s') == [] && s'.done == |s'.asked| && GetRank(s') < GetRank(s)
    ensures ch.t < |s'.got| == |s.got| && |s'.got[ch.t]| == |s.got[ch.t]| + ch.u
  {
    OneOutstanding(s, setup, ch);
    DataRead(setup, s.asked, s.log, s.done, s.flagged, s.data, Pending(s));
    SentPending(s, s', setup, ReadData);
    ReadRank(s, s', setup, ch.t);
  }

  lemma StillGetting(s: State, s': State, ch: Channel, put: seq<byte>, n: nat)
    requires ch.u > 0 && Progress(s, ch, put, n) && s.done < |s.asked|
    requires s'.links == s.links && s'.asked == s.asked && |s'.sinks| == |s.sinks| && s'.got == s.got
    requires s'.sinks[ch.t].put == s.sinks[ch.t].put && s'.done == s.done
    requires if s.done < |s'.log| then Pending(s') == []
             else Pending(s') == Pending(s) && s'.log == s.log && s'.sinks == s.sinks
    ensures Progress(s', ch, put, n)
  {
  }

  lemma GetAdvances(s: State, s': State, setup: Setup, ch: Channel, put: seq<byte>, n: nat, e: Event)
    requires Getting(s, setup, ch, put, n) && s.done < |s.asked| && Own(e) && Moves(s, s', setup, e)
    ensures Getting(s', setup, ch, put, n) && GetRank(s') < GetRank(s)
  {
    ChannelStepIsPipeStep(s, s', setup, ch, e);
    if e.Take? {
      NextIsGet(s, setup, ch);
      TakenPending(s, s', setup);
      TakeRank(s, s', setup);
      OwnFrame(s, s', setup, e, ch.t);
      StillGetting(s, s', ch, put, n);
    } else if e.Answer? {
      AnswerAdvances(s, s', setup, ch);
      OwnFrame(s, s', setup, e, ch.t);
      StillGetting(s, s', ch, put, n);
    } else if e.ReadData? {
      ReadAdvances(s, s', setup, ch);
      OwnFrame(s, s', setup, e, ch.t);
    } else {
      SearchAdvances(s, s', setup, ch, e);
      OwnFrame(s, s', setup, e, ch.t);
      StillGetting(s, s', ch, put, n);
    }
  }

  lemma NothingToDo(s: State, s': State, setup: Setup)
    requires Pending(s) == [] && s.done == |s.asked|
    ensures !OwnStep(s, s', setup)
  {
    assert s.service.Idle? && s.reqs == [];
  }

  // While it waits, something of its own can happen.
  lemma GetMoves(s: State, setup: Setup, ch: Channel, put: seq<byte>, n: nat) returns (s': State)
    requires Getting(s, setup, ch, put, n) && s.done < |s.asked|
    ensures OwnStep(s, s', setup)
  {
    OneOutstanding(s, setup, ch);
    UnreadOnWire(setup, s.asked, s.log, s.done, s.flagged, s.data, Pending(s));
    var e := ReadData;
    if s.done == |s.log| {
      assert Pending(s)[0] == Request.Get(ch.t, 1);
      e := match s.service
           case Idle => Take
           case Scan(_, _, _) => Look
           case Woken(_) => Rescan
           case _ => Answer;
      if s.service.Serving? {
        AnswerIsGet(s, setup, ch);
      }
    }
    assert Own(e) && Enabled(s, setup, e);
    s' := Next(s, setup, e);
  }

  ghost predicate IsOwnRun(s: State, setup: Setup, run: seq<State>) {
    IsRun(x => x == s, (x, x') => OwnStep(x, x', setup), run)
  }

  lemma OwnAdvances(s: State, s': State, setup: Setup, ch: Channel, put: seq<byte>, n: nat)
    requires Getting(s, setup, ch, put, n) && OwnStep(s, s', setup)
    ensures Getting(s', setup, ch, put, n) && GetRank(s') < GetRank(s)
  {
    if s.done == |s.asked| {
      NothingToDo(s, s', setup);
    } else {
      var e :| Own(e) && Enabled(s, setup, e) && s' == Next(s, setup, e);
      GetAdvances(s, s', setup, ch, put, n, e);
    }
  }

  lemma StuckMeansGot(s: State, setup: Setup, ch: Channel, put: seq<byte>, n: nat)
    requires Getting(s, setup, ch, put, n) && OwnStuck(s, setup)
    ensures s.done == |s.asked| && n + ch.u <= |put| && s.got[ch.t] == put[..n + ch.u]
  {
    if s.done < |s.asked| {
      var s' := GetMoves(s, setup, ch, put, n);
    }
    GotPrefix(s, setup, ch);
  }

  lemma OwnRunEnds(s: State, setup: Setup, run: seq<State>, inv: State -> bool)
    requires IsOwnRun(s, setup, run) && inv(s)
    requires forall x, x' :: inv(x) && OwnStep(x, x', setup) ==> inv(x') && GetRank(x') < GetRank(x)
    ensures |run| <= GetRank(s) + 1 && inv(run[|run| - 1])
  {
    var init, next := (x: State) => x == s, (x: State, x': State) => OwnStep(x, x', setup);
    LengthBounded(init, next, inv, (x: State) => GetRank(x), run);
    InvariantHolds(init, next, inv, run, |run| - 1);
  }

  ghost function Getter(setup: Setup, ch: Channel, put: seq<byte>, n: nat): State -> bool {
    (x: State) => Getting(x, setup, ch, put, n)
  }

  lemma GettersAdvance(setup: Setup, ch: Channel, put: seq<byte>, n: nat)
    ensures var inv := Getter(setup, ch, put, n);
      forall x, x' :: inv(x) && OwnStep(x, x', setup) ==> inv(x') && GetRank(x') < GetRank(x)
  {
    var inv := Getter(setup, ch, put, n);
    forall x, x' | inv(x) && OwnStep(x, x', setup) ensures inv(x') && GetRank(x') < GetRank(x) {
      OwnAdvances(x, x', setup, ch, put, n);
    }
  }

  lemma GettingRun(s: State, setup: Setup, ch: Channel, put: seq<byte>, n: nat, run: seq<State>)
    requires Getter(setup, ch, put, n)(s) && IsOwnRun(s, setup, run)
    ensures |run| <= GetRank(s) + 1 && Getter(setup, ch, put, n)(run[|run| - 1])
  {
    GettersAdvance(setup, ch, put, n);
    OwnRunEnds(s, setup, run, Getter(setup, ch, put, n));
  }

  ghost predicate Returned(s: State, last: State, ch: Channel) {
    && last.done == |last.asked| && ch.t < |last.got| && ch.t < |s.got| && ch.t < |s.sinks|
    && var n := |s.got[ch.t]| + ch.u;
       n <= |s.sinks[ch.t].put| && last.got[ch.t] == s.sinks[ch.t].put[..n]
  }

  lemma WaitingGets(s: State, setup: Setup, ch: Channel)
    requires Waiting(s, setup, ch) && CanGet(View(s, ch))
    ensures ch.t < |s.sinks| && ch.t < |s.got| && Getter(setup, ch, s.sinks[ch.t].put, |s.got[ch.t]|)(s)
  {
  }

  lemma StuckReturned(s: State, last: State, setup: Setup, ch: Channel)
    requires ch.t < |s.sinks| && ch.t < |s.got|
    requires Getter(setup, ch, s.sinks[ch.t].put, |s.got[ch.t]|)(last) && OwnStuck(last, setup)
    ensures Returned(s, last, ch)
  {
    StuckMeansGot(last, setup, ch, s.sinks[ch.t].put, |s.got[ch.t]|);
  }

  ghost predicate CanReceive(s: State, setup: Setup, ch: Channel) {
    Waiting(s, setup, ch) && CanGet(View(s, ch))
  }

  // A get of a channel whose pipe holds a unit returns after boundedly many steps
  // of the service thread and its own, and with exactly the next unit.
  lemma GetReturns(s: State, setup: Setup, ch: Channel, run: seq<State>)
    requires CanReceive(s, setup, ch) && IsOwnRun(s, setup, run)
    ensures |run| <= GetRank(s) + 1
    ensures OwnStuck(run[|run| - 1], setup) ==> Returned(s, run[|run| - 1], ch)
  {
    WaitingGets(s, setup, ch);
    GettingRun(s, setup, ch, s.sinks[ch.t].put, |s.got[ch.t]|, run);
    if OwnStuck(run[|run| - 1], setup) {
      StuckReturned(s, run[|run| - 1], setup, ch);
    }
  }

  lemma GotPrefix(s: State, setup: Setup, ch: Channel)
    requires UnitInv(s, setup, ch) && ch.t < |s.sinks| && ch.t < |s.got|
    ensures |s.got[ch.t]| <= |s.sinks[ch.t].put| && s.got[ch.t] == s.sinks[ch.t].put[..|s.got[ch.t]|]
  {
    StreamPrefix(s.log, s.done, ch.t);
  }
}
