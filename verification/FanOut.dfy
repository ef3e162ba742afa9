// A channel to several consumers over one byte ring each. A put walks the list of
// rings; replication gives every consumer all of the data, spreading gives the
// k-th consumer the k-th slice.
module FanOut {
  import opened ListAlgebra
  import opened Runs
  import opened Traces
  import Flat

  datatype Mode = Replicate | Spread

  // The consumers' ranks, in the order of the list of rings, and the capacity of
  // a ring.
  datatype Channel = Channel(mode: Mode, tags: seq<int>, cap: nat)

  // A put of du units: under replication local holds du units, under spreading
  // du units for each consumer.
  datatype Call<T> = Call(local: seq<T>, du: nat)

  datatype Option<T> = None | Some(value: T)

  // The put under way and how far its walk is; what has been put into each ring
  // and how much of it has been sent; what each listed consumer has been served;
  // and the puts so far.
  datatype State<T> = State(call: Option<Call<T>>, walk: nat, put: seq<seq<T>>, sent: seq<nat>,
                            served: seq<seq<T>>, calls: seq<Call<T>>)

  predicate ValidCall<T>(c: Channel, call: Call<T>) {
    |call.local| == if c.mode == Replicate then call.du else Offset(call.du, |c.tags|)
  }

  // Where the k-th slice of a put starts.
  function Offset(du: nat, k: nat): nat {
    k * du
  }

  lemma SliceFits<T>(c: Channel, call: Call<T>, k: nat)
    requires ValidCall(c, call) && k < |c.tags| && c.mode == Spread
    ensures Offset(call.du, k) + call.du == Offset(call.du, k + 1) <= |call.local|
  {
    Flat.Next(k, call.du);
    Flat.Inverse(|c.tags|, k + 1, call.du);
  }

  // What consumer k is meant to get of a put.
  function Piece<T>(c: Channel, call: Call<T>, k: nat): seq<T>
    requires ValidCall(c, call) && k < |c.tags|
  {
    if c.mode == Replicate then call.local
    else
      SliceFits(c, call, k);
      call.local[Offset(call.du, k)..Offset(call.du, k + 1)]
  }

  // The first ring of the rank listed at k. The service thread of that rank looks
  // the ring up like this for every request, whatever the mode.
  function Lookup(c: Channel, k: nat): (t: nat)
    requires k < |c.tags|
    ensures t <= k && c.tags[t] == c.tags[k]
  {
    Place(c.tags, c.tags[k])
  }

  // The ring the walk puts into at its k-th stop: replication looks it up too,
  // spreading takes the ring of the stop itself.
  function Target(c: Channel, k: nat): (t: nat)
    requires k < |c.tags|
    ensures t <= k
  {
    if c.mode == Replicate then Lookup(c, k) else k
  }

  // The lookup reaches every ring if and only if no consumer is listed twice.
  lemma LookupReachesExactlyWhen(c: Channel)
    ensures (forall k: nat :: k < |c.tags| ==> Lookup(c, k) == k) <==> Distinct(c.tags)
  {
    if forall k: nat :: k < |c.tags| ==> Lookup(c, k) == k {
      forall i, j | 0 <= i < j < |c.tags| ensures c.tags[i] != c.tags[j] {
        assert Lookup(c, j) == j;
      }
    }
    if Distinct(c.tags) {
      forall k: nat | k < |c.tags| ensures Lookup(c, k) == k {
        assert c.tags[Lookup(c, k)] == c.tags[k];
      }
    }
  }

  ghost predicate Shape<T>(s: State<T>, c: Channel) {
    |s.put| == |s.sent| == |s.served| == |c.tags|
  }

  ghost predicate Start<T>(s: State<T>, c: Channel) {
    && Shape(s, c) && s.call == None && s.walk == 0 && s.calls == []
    && forall k :: 0 <= k < |c.tags| ==> s.put[k] == [] && s.sent[k] == 0 && s.served[k] == []
  }

  // Send(k, n) answers a get of n units by the consumer listed at k, from the
  // ring the lookup finds.
  datatype Event<T> = Begin(call: Call<T>) | Stop | Return | Send(k: nat, n: nat)

  ghost predicate Enabled<T>(s: State<T>, c: Channel, e: Event<T>) {
    && Shape(s, c)
    && match e
       case Begin(call) => s.call == None && ValidCall(c, call)
       case Stop =>
         && s.call.Some? && ValidCall(c, s.call.value) && s.walk < |c.tags|
         && var t := Target(c, s.walk);
            |s.put[t]| - s.sent[t] + |Piece(c, s.call.value, s.walk)| <= c.cap
       case Return => s.call.Some? && s.walk == |c.tags|
       case Send(k, n) => k < |c.tags| && s.sent[Lookup(c, k)] + n <= |s.put[Lookup(c, k)]|
  }

  ghost function Next<T>(s: State<T>, c: Channel, e: Event<T>): State<T>
    requires Enabled(s, c, e)
  {
    match e
    case Begin(call) => s.(call := Some(call), walk := 0, calls := s.calls + [call])
    case Stop =>
      var t := Target(c, s.walk);
      s.(walk := s.walk + 1, put := s.put[t := s.put[t] + Piece(c, s.call.value, s.walk)])
    case Return => s.(call := None, walk := 0)
    case Send(k, n) =>
      var p := Lookup(c, k);
      s.(sent := s.sent[p := s.sent[p] + n],
         served := s.served[k := s.served[k] + s.put[p][s.sent[p]..s.sent[p] + n]])
  }

  ghost predicate Step<T(!new)>(s: State<T>, s': State<T>, c: Channel) {
    exists e :: Enabled(s, c, e) && s' == Next(s, c, e)
  }

  // All that consumer k is meant to get of these puts.
  function Stream<T>(c: Channel, calls: seq<Call<T>>, k: nat): seq<T>
    requires k < |c.tags|
  {
    if calls == [] then []
    else
      var last := calls[|calls| - 1];
      Stream(c, calls[..|calls| - 1], k) + if ValidCall(c, last) then Piece(c, last, k) else []
  }

  // A replicating put adds all of its data to every stream, a spreading put to the
  // k-th stream its du units from place k * du on.
  lemma StreamGrows<T>(c: Channel, calls: seq<Call<T>>, call: Call<T>, k: nat)
    requires ValidCall(c, call) && k < |c.tags|
    ensures Stream<T>(c, [], k) == []
    ensures c.mode == Replicate ==> Stream(c, calls + [call], k) == Stream(c, calls, k) + call.local
    ensures c.mode == Spread ==>
      && k * call.du + call.du <= |call.local| == |c.tags| * call.du
      && Stream(c, calls + [call], k) == Stream(c, calls, k) + call.local[k * call.du..k * call.du + call.du]
  {
    assert (calls + [call])[..|calls + [call]| - 1] == calls;
    if c.mode == Spread {
      SliceFits(c, call, k);
    }
  }

  // A stop waits exactly while its ring lacks the room for what it has to put: all of
  // the data, or one consumer's units.
  lemma StopWaits<T>(s: State<T>, c: Channel)
    requires CallInv(s, c) && s.call.Some? && s.walk < |c.tags|
    ensures var (t, call) := (if c.mode == Replicate then Lookup(c, s.walk) else s.walk, s.call.value);
      Enabled(s, c, Stop) <==>
        |s.put[t]| - s.sent[t] + (if c.mode == Replicate then |call.local| else call.du) <= c.cap
  {
    if c.mode == Spread {
      SliceFits(c, s.call.value, s.walk);
    }
  }

  // A get of n units by the consumer at k is answered as soon as the ring found for its
  // rank holds them, with the next n units of that ring.
  lemma SendServes<T>(s: State<T>, c: Channel, k: nat, n: nat)
    requires Shape(s, c) && k < |c.tags|
    ensures var p := Lookup(c, k);
      && (Enabled(s, c, Send(k, n)) <==> s.sent[p] + n <= |s.put[p]|)
      && (Enabled(s, c, Send(k, n)) ==>
            && Next(s, c, Send(k, n)).served[k] == s.served[k] + s.put[p][s.sent[p]..s.sent[p] + n]
            && Next(s, c, Send(k, n)).sent == s.sent[p := s.sent[p] + n] && Next(s, c, Send(k, n)).put == s.put)
  {
  }

  // The ring at k has been given the right pieces, this put's included or not.
  ghost predicate RingInv<T>(s: State<T>, c: Channel, k: nat)
    requires Shape(s, c) && k < |c.tags|
  {
    && s.sent[k] <= |s.put[k]| && |s.put[k]| - s.sent[k] <= c.cap
    && s.put[k] == (if s.call.Some? && s.calls != [] && k >= s.walk then Stream(c, s.calls[..|s.calls| - 1], k)
                    else Stream(c, s.calls, k))
  }

  ghost predicate CallInv<T>(s: State<T>, c: Channel) {
    && Shape(s, c) && s.walk <= |c.tags|
    && (s.call.Some? ==> s.calls != [] && s.call.value == s.calls[|s.calls| - 1] && ValidCall(c, s.call.value))
  }

  ghost predicate Inv<T>(s: State<T>, c: Channel) {
    CallInv(s, c) && forall k: nat :: k < |c.tags| ==> RingInv(s, c, k)
  }

  // Whether every stop of a walk puts into the ring of that stop.
  ghost predicate WalkReaches(c: Channel) {
    forall k: nat :: k < |c.tags| ==> Target(c, k) == k
  }

  lemma StopKeeps<T>(s: State<T>, s': State<T>, c: Channel, k: nat)
    requires Inv(s, c) && Enabled(s, c, Stop) && s' == Next(s, c, Stop) && k < |c.tags|
    requires Target(c, s.walk) == s.walk
    ensures RingInv(s', c, k)
  {
    assert RingInv(s, c, k);
  }

  lemma StepKeeps<T>(s: State<T>, s': State<T>, c: Channel, e: Event<T>)
    requires WalkReaches(c) && Inv(s, c) && Enabled(s, c, e) && s' == Next(s, c, e)
    ensures Inv(s', c)
  {
    forall k: nat | k < |c.tags| ensures RingInv(s', c, k) {
      assert RingInv(s, c, k);
      match e
      case Begin(call) => assert s'.calls[..|s'.calls| - 1] == s.calls;
      case Stop => StopKeeps(s, s', c, k);
      case _ =>
    }
  }

  // Every consumer has been served what its own ring has sent.
  ghost predicate ServedInv<T>(s: State<T>, c: Channel) {
    && Inv(s, c)
    && forall k: nat :: k < |c.tags| ==> s.sent[k] <= |s.put[k]| && s.served[k] == s.put[k][..s.sent[k]]
  }

  lemma StepServes<T>(s: State<T>, s': State<T>, c: Channel, e: Event<T>)
    requires Distinct(c.tags) && ServedInv(s, c) && Enabled(s, c, e) && s' == Next(s, c, e)
    ensures ServedInv(s', c)
  {
    LookupReachesExactlyWhen(c);
    StepKeeps(s, s', c, e);
    forall k: nat | k < |c.tags| ensures s'.sent[k] <= |s'.put[k]| && s'.served[k] == s'.put[k][..s'.sent[k]] {
      assert RingInv(s, c, k) && Lookup(c, k) == k;
      if e.Send? && e.k == k {
        assert s.put[k][..s.sent[k] + e.n] == s.put[k][..s.sent[k]] + s.put[k][s.sent[k]..s.sent[k] + e.n];
      }
    }
  }

  ghost predicate IsFanRun<T(!new)>(c: Channel, run: seq<State<T>>) {
    IsRun(s => Start(s, c), (s, s') => Step(s, s', c), run)
  }

  // In every run, over any number of puts, the ring at k holds a prefix of the
  // stream meant for it, and between puts all of it: with spreading always, with
  // replication unless a consumer is listed twice.
  lemma EveryRunFansOut<T(!new)>(c: Channel, run: seq<State<T>>, i: nat, k: nat)
    requires (c.mode == Spread || Distinct(c.tags)) && IsFanRun(c, run) && i < |run| && k < |c.tags|
    ensures Shape(run[i], c) && run[i].put[k] <= Stream(c, run[i].calls, k)
    ensures run[i].call == None ==> run[i].put[k] == Stream(c, run[i].calls, k)
  {
    LookupReachesExactlyWhen(c);
    var init, next := (s: State<T>) => Start(s, c), (s: State<T>, s': State<T>) => Step(s, s', c);
    var inv := (s: State<T>) => Inv(s, c);
    forall s, s' | inv(s) && next(s, s') ensures inv(s') {
      var e :| Enabled(s, c, e) && s' == Next(s, c, e);
      StepKeeps(s, s', c, e);
    }
    InvariantHolds(init, next, inv, run, i);
    assert RingInv(run[i], c, k);
  }

  // What each listed consumer has been served is a prefix of its stream.
  ghost predicate AllServed<T>(s: State<T>, c: Channel) {
    Shape(s, c) && forall k: nat :: k < |c.tags| ==> s.served[k] <= Stream(c, s.calls, k)
  }

  lemma RunServes<T(!new)>(c: Channel, run: seq<State<T>>, i: nat)
    requires Distinct(c.tags) && IsFanRun(c, run) && i < |run|
    ensures ServedInv(run[i], c)
  {
    var init, next := (s: State<T>) => Start(s, c), (s: State<T>, s': State<T>) => Step(s, s', c);
    var inv := (s: State<T>) => ServedInv(s, c);
    forall s, s' | inv(s) && next(s, s') ensures inv(s') {
      var e :| Enabled(s, c, e) && s' == Next(s, c, e);
      StepServes(s, s', c, e);
    }
    InvariantHolds(init, next, inv, run, i);
  }

  lemma DistinctServed<T(!new)>(c: Channel, run: seq<State<T>>, i: nat)
    requires Distinct(c.tags) && IsFanRun(c, run) && i < |run|
    ensures AllServed(run[i], c)
  {
    RunServes(c, run, i);
    forall k: nat | k < |c.tags| ensures run[i].served[k] <= Stream(c, run[i].calls, k) {
      EveryRunFansOut(c, run, i, k);
    }
  }

  // With no room in the rings nothing is ever put or served.
  ghost predicate Unused<T>(s: State<T>, c: Channel) {
    Shape(s, c) && forall k: nat :: k < |c.tags| ==> s.put[k] == [] && s.sent[k] == 0 && s.served[k] == []
  }

  lemma StepUnused<T>(s: State<T>, s': State<T>, c: Channel, e: Event<T>)
    requires c.cap == 0 && Unused(s, c) && Enabled(s, c, e) && s' == Next(s, c, e)
    ensures Unused(s', c)
  {
  }

  // The put calls, and the units consumer k has asked for, so far.
  function Begun<T>(events: seq<Event<T>>): seq<Call<T>> {
    if events == [] then []
    else
      var e := events[|events| - 1];
      Begun(events[..|events| - 1]) + if e.Begin? then [e.call] else []
  }

  function Asked<T>(events: seq<Event<T>>, k: nat): nat {
    if events == [] then 0
    else
      var e := events[|events| - 1];
      Asked(events[..|events| - 1], k) + if e.Send? && e.k == k then e.n else 0
  }

  ghost predicate Does<T>(s: State<T>, e: Event<T>, s': State<T>, c: Channel) {
    Enabled(s, c, e) && s' == Next(s, c, e)
  }

  ghost predicate IsFanTrace<T(!new)>(c: Channel, run: seq<State<T>>, events: seq<Event<T>>) {
    IsTrace(s => Start(s, c), (s, e, s') => Does(s, e, s', c), run, events)
  }

  ghost predicate AskedKept<T>(s: State<T>, c: Channel, events: seq<Event<T>>) {
    Shape(s, c) && s.calls == Begun(events) && forall k: nat :: k < |c.tags| ==> |s.served[k]| == Asked(events, k)
  }

  lemma StepKeepsAsked<T>(s: State<T>, s': State<T>, c: Channel, events: seq<Event<T>>, e: Event<T>)
    requires AskedKept(s, c, events) && Does(s, e, s', c)
    ensures AskedKept(s', c, events + [e])
  {
    assert (events + [e])[..|events + [e]| - 1] == events;
    if e.Send? {
      var p := Lookup(c, e.k);
      assert |s.put[p][s.sent[p]..s.sent[p] + e.n]| == e.n;
    }
  }

  // In every run without repeated consumers, each has been served exactly as many
  // units as it has asked for: the first of its stream of the put calls made.
  lemma EveryTraceServes<T(!new)>(c: Channel, run: seq<State<T>>, events: seq<Event<T>>, i: nat, k: nat)
    requires Distinct(c.tags) && IsFanTrace(c, run, events) && i < |run| && k < |c.tags|
    ensures Shape(run[i], c) && IsFanRun(c, run)
    ensures var stream := Stream(c, Begun(events[..i]), k);
      Asked(events[..i], k) <= |stream| && run[i].served[k] == stream[..Asked(events[..i], k)]
  {
    var init, does := (s: State<T>) => Start(s, c), (s: State<T>, e: Event<T>, s': State<T>) => Does(s, e, s', c);
    var inv := (s: State<T>, es: seq<Event<T>>) => AskedKept(s, c, es);
    forall s, es, e, s' | inv(s, es) && does(s, e, s') ensures inv(s', es + [e]) {
      StepKeepsAsked(s, s', c, es, e);
    }
    TraceHolds(init, does, inv, run, events, i);
    TraceIsRun(init, does, (s: State<T>, s': State<T>) => Step(s, s', c), run, events);
    DistinctServed(c, run, i);
  }

  lemma NoRoomServed<T(!new)>(c: Channel, run: seq<State<T>>, i: nat)
    requires c.cap == 0 && IsFanRun(c, run) && i < |run|
    ensures AllServed(run[i], c)
  {
    var init, next := (s: State<T>) => Start(s, c), (s: State<T>, s': State<T>) => Step(s, s', c);
    var inv := (s: State<T>) => Unused(s, c);
    forall s, s' | inv(s) && next(s, s') ensures inv(s') {
      var e :| Enabled(s, c, e) && s' == Next(s, c, e);
      StepUnused(s, s', c, e);
    }
    InvariantHolds(init, next, inv, run, i);
  }

  lemma Extend<T(!new)>(c: Channel, run: seq<State<T>>, e: Event<T>) returns (run': seq<State<T>>)
    requires IsFanRun(c, run) && Enabled(run[|run| - 1], c, e)
    ensures IsFanRun(c, run') && run'[|run'| - 1] == Next(run[|run| - 1], c, e)
  {
    var s' := Next(run[|run| - 1], c, e);
    run' := run + [s'];
    assert Step(run[|run| - 1], s', c);
    forall i | 0 <= i < |run'| - 1 ensures Step(run'[i], run'[i + 1], c) {
      if i < |run| - 1 {
        assert Step(run[i], run[i + 1], c);
      }
    }
  }

  lemma FirstCall<T(!new)>(c: Channel, call: Call<T>) returns (run: seq<State<T>>)
    requires ValidCall(c, call)
    ensures IsFanRun(c, run)
    ensures var n := |c.tags|;
      run[|run| - 1] == State(Some(call), 0, seq(n, _ => []), seq(n, _ => 0), seq(n, _ => []), [call])
  {
    var n := |c.tags|;
    var s := State(None, 0, seq(n, _ => []), seq(n, _ => 0), seq(n, _ => []), []);
    run := Extend(c, [s], Begin(call));
  }

  // Replication to a list with a repetition: the ring found for it is given each
  // put once per listing, and serves it all to the first listing.
  ghost predicate Drained<T>(s: State<T>, c: Channel, call: Call<T>, k: nat, p: nat, j: nat)
    requires p < j < |c.tags|
  {
    && Shape(s, c) && s.call == Some(call) && s.walk == k && s.calls == [call]
    && (forall q: nat :: q < |c.tags| ==> s.sent[q] == |s.put[q]|)
    && |s.served[p]| >= (if k > p then 1 else 0) + if k > j then 1 else 0
  }

  lemma DrainStop<T(!new)>(c: Channel, call: Call<T>, run: seq<State<T>>, k: nat, p: nat, j: nat)
    returns (run': seq<State<T>>)
    requires c.mode == Replicate && c.cap > 0 && ValidCall(c, call) && call.du == 1
    requires p < j < |c.tags| && Lookup(c, j) == p && k <= j
    requires IsFanRun(c, run) && Drained(run[|run| - 1], c, call, k, p, j)
    ensures IsFanRun(c, run') && Drained(run'[|run'| - 1], c, call, k + 1, p, j)
  {
    var q := Lookup(c, k);
    run' := Extend(c, run, Stop);
    assert Lookup(c, q) == q;
    run' := Extend(c, run', Send(q, 1));
  }

  lemma {:induction false} DrainWalk<T(!new)>(c: Channel, call: Call<T>, k: nat, p: nat, j: nat)
    returns (run: seq<State<T>>)
    requires c.mode == Replicate && c.cap > 0 && ValidCall(c, call) && call.du == 1
    requires p < j < |c.tags| && Lookup(c, j) == p && k <= j + 1
    ensures IsFanRun(c, run) && Drained(run[|run| - 1], c, call, k, p, j)
  {
    if k == 0 {
      run := FirstCall(c, call);
    } else {
      run := DrainWalk(c, call, k - 1, p, j);
      run := DrainStop(c, call, run, k - 1, p, j);
    }
  }

  lemma ReplicateRepeats<T(!new)>(c: Channel, x: T, p: nat, j: nat) returns (run: seq<State<T>>)
    requires c.mode == Replicate && c.cap > 0 && p < j < |c.tags| && Lookup(c, j) == p
    ensures IsFanRun(c, run) && !AllServed(run[|run| - 1], c)
  {
    var call := Call([x], 1);
    run := DrainWalk(c, call, j + 1, p, j);
    StreamOfOne(c, call, p);
  }

  // Spreading to such a list: the second listing is served from the first ring.
  ghost predicate Walked<T>(s: State<T>, c: Channel, call: Call<T>, k: nat) {
    && Shape(s, c) && ValidCall(c, call) && s.call == Some(call) && s.walk == k <= |c.tags| && s.calls == [call]
    && forall q: nat :: q < |c.tags| ==>
         s.put[q] == (if q < k then Piece(c, call, q) else []) && s.sent[q] == 0 && s.served[q] == []
  }

  lemma {:induction false} SpreadWalk<T(!new)>(c: Channel, call: Call<T>, k: nat) returns (run: seq<State<T>>)
    requires c.mode == Spread && call.du <= c.cap && ValidCall(c, call) && k <= |c.tags|
    ensures IsFanRun(c, run) && Walked(run[|run| - 1], c, call, k)
  {
    if k == 0 {
      run := FirstCall(c, call);
    } else {
      run := SpreadWalk(c, call, k - 1);
      SliceFits(c, call, k - 1);
      run := Extend(c, run, Stop);
    }
  }

  lemma StreamOfOne<T>(c: Channel, call: Call<T>, k: nat)
    requires ValidCall(c, call) && k < |c.tags|
    ensures Stream(c, [call], k) == Piece(c, call, k)
  {
    assert [call][..0] == [];
  }

  lemma UnitPiece<T>(c: Channel, call: Call<T>, k: nat)
    requires c.mode == Spread && ValidCall(c, call) && call.du == 1 && k < |c.tags| == |call.local|
    ensures Piece(c, call, k) == [call.local[k]]
  {
  }

  lemma SpreadCrosses<T(!new)>(c: Channel, x: T, y: T, p: nat, j: nat) returns (run: seq<State<T>>)
    requires x != y && c.mode == Spread && c.cap > 0 && p < j < |c.tags| && Lookup(c, j) == p
    ensures IsFanRun(c, run) && !AllServed(run[|run| - 1], c)
  {
    var call := Call(seq(|c.tags|, q => if q == p then x else y), 1);
    run := SpreadWalk(c, call, p + 1);
    UnitPiece(c, call, p);
    UnitPiece(c, call, j);
    StreamOfOne(c, call, j);
    run := CrossedSend(c, call, run, p, j);
  }

  lemma CrossedSend<T(!new)>(c: Channel, call: Call<T>, run: seq<State<T>>, p: nat, j: nat)
    returns (run': seq<State<T>>)
    requires IsFanRun(c, run) && Walked(run[|run| - 1], c, call, p + 1) && p < j < |c.tags| && Lookup(c, j) == p
    requires |Piece(c, call, p)| == 1
    ensures IsFanRun(c, run') && Shape(run'[|run'| - 1], c) && run'[|run'| - 1].calls == [call]
    ensures run'[|run'| - 1].served[j] == Piece(c, call, p)
  {
    run' := Extend(c, run, Send(j, 1));
  }

  // In either mode every consumer is served its own stream, in every run, if and
  // only if no consumer is listed twice, or the rings have no room for anything.
  lemma ServedExactlyWhen<T(!new)>(c: Channel, x: T, y: T)
    requires x != y
    ensures (forall run: seq<State<T>>, i :: IsFanRun(c, run) && 0 <= i < |run| ==> AllServed(run[i], c))
            <==> Distinct(c.tags) || c.cap == 0
  {
    if Distinct(c.tags) || c.cap == 0 {
      forall run: seq<State<T>>, i | IsFanRun(c, run) && 0 <= i < |run| ensures AllServed(run[i], c) {
        if Distinct(c.tags) {
          DistinctServed(c, run, i);
        } else {
          NoRoomServed(c, run, i);
        }
      }
    } else {
      LookupReachesExactlyWhen(c);
      var j: nat :| j < |c.tags| && Lookup(c, j) != j;
      var run: seq<State<T>>;
      if c.mode == Replicate {
        run := ReplicateRepeats(c, x, Lookup(c, j), j);
      } else {
        run := SpreadCrosses(c, x, y, Lookup(c, j), j);
      }
      assert !AllServed(run[|run| - 1], c);
    }
  }

  // Under replication all consumers have the same stream.
  lemma {:induction false} ReplicasAgree<T>(c: Channel, calls: seq<Call<T>>, k: nat, k': nat)
    requires c.mode == Replicate && k < |c.tags| && k' < |c.tags|
    ensures Stream(c, calls, k) == Stream(c, calls, k')
  {
    if calls != [] {
      ReplicasAgree(c, calls[..|calls| - 1], k, k');
    }
  }

  // The slices of the first k consumers.
  function Slices<T>(c: Channel, call: Call<T>, k: nat): (s: seq<seq<T>>)
    requires ValidCall(c, call) && k <= |c.tags|
    ensures |s| == k
  {
    if k == 0 then [] else Slices(c, call, k - 1) + [Piece(c, call, k - 1)]
  }

  // Under spreading the slices of a put, one after another, are what was put.
  lemma {:induction false} SlicesCover<T>(c: Channel, call: Call<T>, k: nat)
    requires c.mode == Spread && ValidCall(c, call) && k <= |c.tags|
    ensures Offset(call.du, k) <= |call.local| && Concat(Slices(c, call, k)) == call.local[..Offset(call.du, k)]
  {
    if k > 0 {
      SlicesCover(c, call, k - 1);
      SliceFits(c, call, k - 1);
      JoinSlices(call.local, Offset(call.du, k - 1), Offset(call.du, k));
      assert Slices(c, call, k)[..k - 1] == Slices(c, call, k - 1);
    }
  }

  lemma JoinSlices<T>(s: seq<T>, a: nat, b: nat)
    requires a <= b <= |s|
    ensures s[..a] + s[a..b] == s[..b]
  {
  }
}
