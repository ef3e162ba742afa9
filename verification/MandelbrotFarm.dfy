// The refined Mandelbrot farm: a farmer commits R rows and one termination
// value per worker to a farm ring, W workers fetch rows and put results into
// their own two-slot pipes, and the farmer collects R results from any pipe.
module MandelbrotFarm {
  import opened SlotRing
  import opened SlotRingProtocol
  import opened Runs
  import opened Sums
  import Gcds

  const STOP: int := -1

  datatype Params = Params(rows: nat, workers: nat, du: nat)

  // A worker computes, waits for an answer, holds a row, or has stopped.
  datatype Worker = Wanting | Awaiting | Holding(row: int) | Stopped

  // `filled` says that the farmer has written the next row but not committed it.
  datatype FarmSystem = FarmSystem(ring: State<int>, filled: bool, workers: seq<Worker>,
                             pipes: seq<seq<int>>, output: seq<int>)

  const PIPE_ROOM := 2

  function RingConfig(p: Params): Config {
    Farm(p.du, p.workers)
  }

  // What the farmer commits as its m-th item.
  function Row(p: Params, m: nat): int {
    if m < p.rows then m else STOP
  }

  function Items(p: Params): nat {
    p.rows + p.workers
  }

  ghost predicate FarmShape(s: FarmSystem, p: Params) {
    Shape(s.ring, RingConfig(p)) && |s.workers| == |s.pipes| == p.workers
  }

  ghost predicate FarmStart(s: FarmSystem, p: Params) {
    && FarmShape(s, p) && Start(s.ring, RingConfig(p))
    && !s.filled && s.output == []
    && forall w :: 0 <= w < p.workers ==> s.workers[w] == Wanting && s.pipes[w] == []
  }

  datatype FarmEvent =
    | FillRow | CommitRow | RecheckCommit
    | Fetch(w: nat) | Serve(w: nat) | PutResult(w: nat) | Harvest(w: nat)

  ghost predicate FarmEnabled(s: FarmSystem, p: Params, e: FarmEvent) {
    && FarmShape(s, p)
    && match e
       case FillRow => s.ring.producer == Filling && !s.filled && |s.ring.items| < Items(p)
       case CommitRow => s.ring.producer == Filling && s.filled
       case RecheckCommit => s.ring.producer == Committing
       case Fetch(w) => w < p.workers && s.workers[w] == Wanting && s.ring.threads[w] == Idle
       case Serve(w) => w < p.workers && s.ring.threads[w] == Asking
       case PutResult(w) => w < p.workers && s.workers[w].Holding? && |s.pipes[w]| < PIPE_ROOM
       case Harvest(w) =>
         && w < p.workers && s.pipes[w] != []
         && s.ring.producer == Filling && |s.ring.items| == Items(p) && |s.output| < p.rows
  }

  // The worker's reaction to the item it is sent.
  function Receive(x: int): Worker {
    if x == STOP then Stopped else Holding(x)
  }

  ghost function FarmNext(s: FarmSystem, p: Params, e: FarmEvent): FarmSystem
    requires FarmEnabled(s, p, e)
  {
    var c := RingConfig(p);
    match e
    case FillRow => s.(ring := Next(s.ring, c, Write(Row(p, |s.ring.items|))), filled := true)
    case CommitRow => s.(ring := Next(s.ring, c, Commit), filled := false)
    case RecheckCommit => s.(ring := Next(s.ring, c, Recheck))
    case Fetch(w) => s.(ring := Next(s.ring, c, Ask(w)), workers := s.workers[w := Awaiting])
    case Serve(w) =>
      var v := s.ring.ptrs[0];
      var ring' := Next(s.ring, c, TrySend(w));
      if Ready(s.ring.q, v) then s.(ring := ring', workers := s.workers[w := Receive(s.ring.q.slots[v.slot])])
      else s.(ring := ring')
    case PutResult(w) =>
      s.(workers := s.workers[w := Wanting], pipes := s.pipes[w := s.pipes[w] + [s.workers[w].row]])
    case Harvest(w) =>
      s.(pipes := s.pipes[w := s.pipes[w][1..]], output := s.output + [s.pipes[w][0]])
  }

  ghost predicate FarmStep(s: FarmSystem, s': FarmSystem, p: Params) {
    exists e :: FarmEnabled(s, p, e) && s' == FarmNext(s, p, e)
  }

  function Occurrences(s: seq<int>, x: int): nat {
    if s == [] then 0 else (if s[0] == x then 1 else 0) + Occurrences(s[1..], x)
  }

  lemma {:induction false} OccurrencesAppend(s: seq<int>, y: int, x: int)
    ensures Occurrences(s + [y], x) == Occurrences(s, x) + if y == x then 1 else 0
  {
    if s != [] {
      assert (s + [y])[1..] == s[1..] + [y];
      OccurrencesAppend(s[1..], y, x);
    }
  }

  lemma {:induction false} OccurrencesAre(s: seq<int>, x: int)
    ensures Occurrences(s, x) == multiset(s)[x]
  {
    if s != [] {
      OccurrencesAre(s[1..], x);
      assert s == [s[0]] + s[1..];
    }
  }

  // Copies of row x that are with worker w or in its pipe.
  function Pending(w: Worker, pipe: seq<int>, x: int): nat {
    (if w == Holding(x) then 1 else 0) + Occurrences(pipe, x)
  }

  function PendingAll(ws: seq<Worker>, pipes: seq<seq<int>>, x: int): seq<nat>
    requires |ws| == |pipes|
  {
    seq(|ws|, i requires 0 <= i < |ws| => Pending(ws[i], pipes[i], x))
  }

  lemma PendingUpdate(ws: seq<Worker>, pipes: seq<seq<int>>, w: nat, v: Worker, q: seq<int>, x: int)
    requires |ws| == |pipes| && w < |ws|
    ensures Sum(PendingAll(ws[w := v], pipes[w := q], x)) + Pending(ws[w], pipes[w], x) ==
            Sum(PendingAll(ws, pipes, x)) + Pending(v, q, x)
  {
    SumUpdate(PendingAll(ws, pipes, x), w, Pending(v, q, x));
    assert PendingAll(ws[w := v], pipes[w := q], x) == PendingAll(ws, pipes, x)[w := Pending(v, q, x)];
  }

  function StopFlags(ws: seq<Worker>): seq<nat> {
    seq(|ws|, i requires 0 <= i < |ws| => if ws[i].Stopped? then 1 else 0)
  }

  function StoppedCount(ws: seq<Worker>): nat {
    Sum(StopFlags(ws))
  }

  lemma StoppedUpdate(ws: seq<Worker>, w: nat, v: Worker)
    requires w < |ws|
    ensures StoppedCount(ws[w := v]) + (if ws[w].Stopped? then 1 else 0) ==
            StoppedCount(ws) + (if v.Stopped? then 1 else 0)
  {
    SumUpdate(StopFlags(ws), w, if v.Stopped? then 1 else 0);
    assert StopFlags(ws[w := v]) == StopFlags(ws)[w := if v.Stopped? then 1 else 0];
  }

  // How many of the first n items are rows.
  function RowsAmong(p: Params, n: nat): nat {
    if n < p.rows then n else p.rows
  }

  // Rows with worker w or in its pipe.
  function Load(w: Worker, pipe: seq<int>): nat {
    (if w.Holding? then 1 else 0) + |pipe|
  }

  function Loads(ws: seq<Worker>, pipes: seq<seq<int>>): seq<nat>
    requires |ws| == |pipes|
  {
    seq(|ws|, i requires 0 <= i < |ws| => Load(ws[i], pipes[i]))
  }

  lemma LoadUpdate(ws: seq<Worker>, pipes: seq<seq<int>>, w: nat, v: Worker, q: seq<int>)
    requires |ws| == |pipes| && w < |ws|
    ensures Sum(Loads(ws[w := v], pipes[w := q])) + Load(ws[w], pipes[w]) ==
            Sum(Loads(ws, pipes)) + Load(v, q)
  {
    SumUpdate(Loads(ws, pipes), w, Load(v, q));
    assert Loads(ws[w := v], pipes[w := q]) == Loads(ws, pipes)[w := Load(v, q)];
  }
  // How often worker w has been sent the termination value.
  function StopsOf(log: seq<(nat, int)>, w: nat): nat {
    Occurrences(ByThread(log, w), STOP)
  }

  lemma StopsOfAppend(log: seq<(nat, int)>, t: nat, x: int, w: nat)
    ensures StopsOf(log + [(t, x)], w) == StopsOf(log, w) + if t == w && x == STOP then 1 else 0
  {
    var log' := log + [(t, x)];
    assert log'[..|log'| - 1] == log;
    OccurrencesAppend(ByThread(log, w), x, STOP);
  }

  // Row x, once it has left the ring, is in exactly one place.
  ghost predicate Balanced(s: FarmSystem, p: Params, x: int)
    requires |s.workers| == |s.pipes|
  {
    Sum(PendingAll(s.workers, s.pipes, x)) + Occurrences(s.output, x) ==
      if 0 <= x < RowsAmong(p, |s.ring.log|) then 1 else 0
  }

  // The ring, the farmer and the workers' requests; the commits never wait.
  ghost predicate RingInv(s: FarmSystem, p: Params) {
    && FarmShape(s, p) && LogInv(s.ring, RingConfig(p))
    && s.ring.producer == Filling && |s.ring.log| <= |s.ring.items| <= Items(p)
    && (forall m: nat :: m < |s.ring.items| ==> s.ring.items[m] == Row(p, m))
    && (s.filled ==> |s.ring.items| < Items(p) && s.ring.q.slots[s.ring.q.vptr.slot] == Row(p, |s.ring.items|))
    && (forall w :: 0 <= w < p.workers ==>
          (s.ring.threads[w] == Idle <==> s.workers[w] != Awaiting) && s.ring.threads[w] != AskingOnce)
  }

  // Every row that left the ring is in exactly one place; as many workers have
  // stopped as termination values have been sent.
  ghost predicate CountInv(s: FarmSystem, p: Params)
    requires |s.workers| == |s.pipes|
  {
    && (forall w :: 0 <= w < |s.pipes| ==> |s.pipes[w]| <= PIPE_ROOM)
    && (forall x :: Balanced(s, p, x))
    && StoppedCount(s.workers) + RowsAmong(p, |s.ring.log|) == |s.ring.log|
    && Sum(Loads(s.workers, s.pipes)) + |s.output| == RowsAmong(p, |s.ring.log|)
    && (forall w :: 0 <= w < |s.workers| ==>
          StopsOf(s.ring.log, w) == if s.workers[w].Stopped? then 1 else 0)
  }

  ghost predicate FarmInv(s: FarmSystem, p: Params) {
    RingInv(s, p) && CountInv(s, p)
  }

  lemma FarmStartHolds(s: FarmSystem, p: Params)
    requires FarmStart(s, p)
    ensures FarmInv(s, p)
  {
    StartHolds(s.ring, RingConfig(p));
    forall x ensures Balanced(s, p, x) {
      SumConstant(PendingAll(s.workers, s.pipes, x), 0);
    }
    SumConstant(StopFlags(s.workers), 0);
    SumConstant(Loads(s.workers, s.pipes), 0);
  }

  // A commit into a ring of at least R + W + 1 slots returns at once.
  lemma CommitReturns(s: FarmSystem, p: Params)
    requires RingInv(s, p) && p.du >= Items(p) + 1 && s.filled
    ensures HasRoom(Published(s.ring, RingConfig(p)).q)
  {
    var c := RingConfig(p);
    PublishKeeps(s.ring, c);
    RoomMeansClose(Published(s.ring, c), c);
  }

  lemma FillKeeps(s: FarmSystem, p: Params)
    requires FarmInv(s, p) && FarmEnabled(s, p, FillRow)
    ensures FarmInv(FarmNext(s, p, FillRow), p)
  {
    var s' := FarmNext(s, p, FillRow);
    StepKeeps(s.ring, s'.ring, RingConfig(p), Write(Row(p, |s.ring.items|)));
    SameCounts(s, s', p);
  }

  lemma CommitKeeps(s: FarmSystem, p: Params)
    requires FarmInv(s, p) && p.du >= Items(p) + 1
    requires FarmEnabled(s, p, CommitRow)
    ensures FarmInv(FarmNext(s, p, CommitRow), p)
  {
    CommitStep(s, p);
    SameCounts(s, FarmNext(s, p, CommitRow), p);
  }

  lemma CommitStep(s: FarmSystem, p: Params)
    requires RingInv(s, p) && p.du >= Items(p) + 1
    requires FarmEnabled(s, p, CommitRow)
    ensures var s' := FarmNext(s, p, CommitRow);
      && LogInv(s'.ring, RingConfig(p)) && s'.ring.producer == Filling && s'.ring.log == s.ring.log
      && s'.ring.items == s.ring.items + [Row(p, |s.ring.items|)]
      && forall w :: 0 <= w < p.workers ==> (s'.ring.threads[w] == Idle <==> s.ring.threads[w] == Idle)
  {
    var s' := FarmNext(s, p, CommitRow);
    StepKeeps(s.ring, s'.ring, RingConfig(p), Commit);
    CommitReturns(s, p);
  }

  // Serving a worker hands it the next item in order.
  lemma ServesNext(s: FarmSystem, p: Params, w: nat)
    requires RingInv(s, p) && FarmEnabled(s, p, Serve(w))
    requires Ready(s.ring.q, s.ring.ptrs[0])
    ensures |s.ring.log| < |s.ring.items|
    ensures var s' := FarmNext(s, p, Serve(w));
      && s'.ring.log == s.ring.log + [(w, Row(p, |s.ring.log|))]
      && s'.workers == s.workers[w := Receive(Row(p, |s.ring.log|))]
      && LogInv(s'.ring, RingConfig(p))
  {
    var s' := FarmNext(s, p, Serve(w));
    var c, n := RingConfig(p), |s.ring.log|;
    StepKeeps(s.ring, s'.ring, c, TrySend(w));
    FarmLog(s.ring, p.du, p.workers);
    ReadyMeansAhead(s.ring, c, 0);
    assert PointerInv(s.ring, c, 0) && SlotInv(s.ring, c, n);
  }

  lemma ServeBalances(s: FarmSystem, s': FarmSystem, p: Params, w: nat, x: int)
    requires |s.workers| == |s.pipes| && w < |s.workers| && s.workers[w] == Awaiting && Balanced(s, p, x)
    requires |s.ring.log| < Items(p) && s'.ring.log == s.ring.log + [(w, Row(p, |s.ring.log|))]
    requires s'.workers == s.workers[w := Receive(Row(p, |s.ring.log|))]
    requires s'.pipes == s.pipes && s'.output == s.output
    ensures Balanced(s', p, x)
  {
    PendingUpdate(s.workers, s.pipes, w, Receive(Row(p, |s.ring.log|)), s.pipes[w], x);
    assert s.pipes[w := s.pipes[w]] == s.pipes;
  }

  lemma ServeCounts(s: FarmSystem, s': FarmSystem, p: Params, w: nat)
    requires |s.workers| == |s.pipes| && w < |s.workers| && s.workers[w] == Awaiting && CountInv(s, p)
    requires |s.ring.log| < Items(p) && s'.ring.log == s.ring.log + [(w, Row(p, |s.ring.log|))]
    requires s'.workers == s.workers[w := Receive(Row(p, |s.ring.log|))]
    requires s'.pipes == s.pipes && s'.output == s.output
    ensures CountInv(s', p)
  {
    var n := |s.ring.log|;
    StoppedUpdate(s.workers, w, Receive(Row(p, n)));
    LoadUpdate(s.workers, s.pipes, w, Receive(Row(p, n)), s.pipes[w]);
    assert s.pipes[w := s.pipes[w]] == s.pipes;
    forall x ensures Balanced(s', p, x) {
      assert Balanced(s, p, x);
      ServeBalances(s, s', p, w, x);
    }
    forall u: nat | u < |s.workers|
      ensures StopsOf(s'.ring.log, u) == if s'.workers[u].Stopped? then 1 else 0
    {
      StopsOfAppend(s.ring.log, w, Row(p, n), u);
    }
  }

  lemma ServeKeepsRing(s: FarmSystem, p: Params, w: nat)
    requires RingInv(s, p) && FarmEnabled(s, p, Serve(w))
    ensures RingInv(FarmNext(s, p, Serve(w)), p)
  {
    var s' := FarmNext(s, p, Serve(w));
    if Ready(s.ring.q, s.ring.ptrs[0]) {
      ServesNext(s, p, w);
    } else {
      StepKeeps(s.ring, s'.ring, RingConfig(p), TrySend(w));
    }
  }

  lemma ServeKeeps(s: FarmSystem, p: Params, w: nat)
    requires FarmInv(s, p) && FarmEnabled(s, p, Serve(w))
    ensures FarmInv(FarmNext(s, p, Serve(w)), p)
  {
    var s' := FarmNext(s, p, Serve(w));
    ServeKeepsRing(s, p, w);
    if Ready(s.ring.q, s.ring.ptrs[0]) {
      ServesNext(s, p, w);
      ServeCounts(s, s', p, w);
    } else {
      SameCounts(s, s', p);
    }
  }

  // Steps of the ring that deliver nothing.
  lemma SameCounts(s: FarmSystem, s': FarmSystem, p: Params)
    requires |s.workers| == |s.pipes| && CountInv(s, p)
    requires s'.workers == s.workers && s'.pipes == s.pipes && s'.output == s.output && s'.ring.log == s.ring.log
    ensures CountInv(s', p)
  {
    forall x ensures Balanced(s', p, x) {
      assert Balanced(s, p, x);
    }
  }

  // What a worker or the farmer does with one worker and its pipe.
  ghost predicate WorkerMoves(s: FarmSystem, s': FarmSystem, w: nat, e: FarmEvent)
    requires |s.workers| == |s.pipes| && w < |s.workers|
  {
    && |s'.workers| == |s'.pipes| == |s.workers| && s'.ring.log == s.ring.log
    && s'.workers == s.workers[w := s'.workers[w]] && s'.pipes == s.pipes[w := s'.pipes[w]]
    && match e
       case Fetch(_) =>
         s.workers[w] == Wanting && s'.workers[w] == Awaiting && s'.pipes[w] == s.pipes[w] && s'.output == s.output
       case PutResult(_) =>
         && s.workers[w].Holding? && s'.workers[w] == Wanting && |s.pipes[w]| < PIPE_ROOM
         && s'.pipes[w] == s.pipes[w] + [s.workers[w].row] && s'.output == s.output
       case Harvest(_) =>
         && s.pipes[w] != [] && s'.workers[w] == s.workers[w] && s'.pipes[w] == s.pipes[w][1..]
         && s'.output == s.output + [s.pipes[w][0]]
       case _ => false
  }

  // A worker waits to put while both slots of its pipe are full, and the farmer for a
  // result in some pipe.
  lemma WorkerGuards(s: FarmSystem, p: Params, w: nat)
    requires FarmShape(s, p) && w < p.workers
    ensures FarmEnabled(s, p, PutResult(w)) <==> s.workers[w].Holding? && |s.pipes[w]| < 2
    ensures s.ring.producer == Filling && |s.ring.items| == p.rows + p.workers && |s.output| < p.rows ==>
      (FarmEnabled(s, p, Harvest(w)) <==> s.pipes[w] != [])
    ensures FarmEnabled(s, p, Fetch(w)) <==> s.workers[w] == Wanting && s.ring.threads[w] == Idle
  {
  }

  lemma WorkerEffect(s: FarmSystem, p: Params, e: FarmEvent)
    requires FarmEnabled(s, p, e) && (e.Fetch? || e.PutResult? || e.Harvest?)
    ensures WorkerMoves(s, FarmNext(s, p, e), e.w, e)
  {
    var s' := FarmNext(s, p, e);
    assert s.pipes[e.w := s'.pipes[e.w]] == s'.pipes && s.workers[e.w := s'.workers[e.w]] == s'.workers;
  }

  lemma WorkerBalances(s: FarmSystem, s': FarmSystem, p: Params, w: nat, e: FarmEvent, x: int)
    requires |s.workers| == |s.pipes| && w < |s.workers| && WorkerMoves(s, s', w, e) && Balanced(s, p, x)
    ensures Balanced(s', p, x)
  {
    PendingUpdate(s.workers, s.pipes, w, s'.workers[w], s'.pipes[w], x);
    if e.PutResult? {
      OccurrencesAppend(s.pipes[w], s.workers[w].row, x);
    } else if e.Harvest? {
      OccurrencesAppend(s.output, s.pipes[w][0], x);
    }
  }

  lemma WorkerCounts(s: FarmSystem, s': FarmSystem, p: Params, w: nat, e: FarmEvent)
    requires |s.workers| == |s.pipes| && w < |s.workers| && WorkerMoves(s, s', w, e) && CountInv(s, p)
    ensures CountInv(s', p)
  {
    StoppedUpdate(s.workers, w, s'.workers[w]);
    LoadUpdate(s.workers, s.pipes, w, s'.workers[w], s'.pipes[w]);
    forall x ensures Balanced(s', p, x) {
      assert Balanced(s, p, x);
      WorkerBalances(s, s', p, w, e, x);
    }
  }

  lemma WorkerKeepsRing(s: FarmSystem, p: Params, e: FarmEvent)
    requires RingInv(s, p) && (e.Fetch? || e.PutResult? || e.Harvest?) && FarmEnabled(s, p, e)
    ensures RingInv(FarmNext(s, p, e), p)
  {
    if e.Fetch? {
      StepKeeps(s.ring, FarmNext(s, p, e).ring, RingConfig(p), Ask(e.w));
    }
  }

  lemma WorkerKeeps(s: FarmSystem, p: Params, e: FarmEvent)
    requires FarmInv(s, p) && (e.Fetch? || e.PutResult? || e.Harvest?) && FarmEnabled(s, p, e)
    ensures FarmInv(FarmNext(s, p, e), p)
  {
    WorkerKeepsRing(s, p, e);
    WorkerEffect(s, p, e);
    WorkerCounts(s, FarmNext(s, p, e), p, e.w, e);
  }

  lemma FarmStepKeeps(s: FarmSystem, p: Params, e: FarmEvent)
    requires FarmInv(s, p) && p.du >= Items(p) + 1
    requires FarmEnabled(s, p, e)
    ensures FarmInv(FarmNext(s, p, e), p)
  {
    match e
    case FillRow => FillKeeps(s, p);
    case CommitRow => CommitKeeps(s, p);
    case RecheckCommit =>
    case Serve(w) => ServeKeeps(s, p, w);
    case _ => WorkerKeeps(s, p, e);
  }

  ghost predicate FarmDone(s: FarmSystem, p: Params) {
    && FarmShape(s, p)
    && |s.output| == p.rows && |s.ring.log| == Items(p)
    && (forall w :: 0 <= w < p.workers ==> s.workers[w] == Stopped && s.pipes[w] == [])
  }

  // Exactly-once delivery and the end of every worker.
  lemma {:induction false} AllStopped(ws: seq<Worker>)
    requires StoppedCount(ws) >= |ws|
    ensures forall w :: 0 <= w < |ws| ==> ws[w] == Stopped
  {
    if ws != [] {
      assert StopFlags(ws)[1..] == StopFlags(ws[1..]);
      StoppedAtMost(ws[1..]);
      AllStopped(ws[1..]);
    }
  }

  lemma {:induction false} StoppedAtMost(ws: seq<Worker>)
    ensures StoppedCount(ws) <= |ws|
  {
    if ws != [] {
      assert StopFlags(ws)[1..] == StopFlags(ws[1..]);
      StoppedAtMost(ws[1..]);
    }
  }

  lemma {:induction false} NoLoad(ws: seq<Worker>, pipes: seq<seq<int>>)
    requires |ws| == |pipes|
    ensures Sum(Loads(ws, pipes)) == 0 <==> forall w :: 0 <= w < |ws| ==> !ws[w].Holding? && pipes[w] == []
  {
    if ws != [] {
      assert Loads(ws, pipes)[1..] == Loads(ws[1..], pipes[1..]);
      NoLoad(ws[1..], pipes[1..]);
      assert Sum(Loads(ws, pipes)) == Load(ws[0], pipes[0]) + Sum(Loads(ws[1..], pipes[1..]));
      assert forall w :: 0 < w < |ws| ==> ws[w] == ws[1..][w - 1] && pipes[w] == pipes[1..][w - 1];
    }
  }

  // A waiting worker whose thread sleeps would mean that everything has been
  // sent, and then every worker has stopped.
  lemma AwaitingIsServed(s: FarmSystem, p: Params, w: nat)
    requires FarmInv(s, p) && |s.ring.items| == Items(p) && w < p.workers && s.workers[w] == Awaiting
    ensures s.ring.threads[w] == Asking
  {
    if s.ring.threads[w] == Asleep {
      var c := RingConfig(p);
      ReadyMeansAhead(s.ring, c, 0);
      assert PointerInv(s.ring, c, 0);
      FarmLog(s.ring, p.du, p.workers);
      AllStopped(s.workers);
    }
  }

  ghost predicate FarmStuck(s: FarmSystem, p: Params) {
    forall e :: !FarmEnabled(s, p, e)
  }

  // No deadlock: a state without a next step is the finished one.
  lemma StuckMeansDone(s: FarmSystem, p: Params)
    requires FarmInv(s, p) && p.workers > 0 && FarmStuck(s, p)
    ensures FarmDone(s, p)
  {
    assert !FarmEnabled(s, p, FillRow) && !FarmEnabled(s, p, CommitRow);
    assert |s.ring.items| == Items(p);
    forall w: nat | w < p.workers ensures s.workers[w] == Stopped || (s.workers[w].Holding? && |s.pipes[w]| == 2) {
      assert !FarmEnabled(s, p, Fetch(w)) && !FarmEnabled(s, p, Serve(w)) && !FarmEnabled(s, p, PutResult(w));
      if s.workers[w] == Awaiting {
        AwaitingIsServed(s, p, w);
      }
    }
    NoLoad(s.workers, s.pipes);
    if |s.output| < p.rows {
      forall w: nat | w < p.workers ensures s.pipes[w] == [] {
        assert !FarmEnabled(s, p, Harvest(w));
      }
    }
    SumConstantStopped(s.workers);
  }

  lemma SumConstantStopped(ws: seq<Worker>)
    ensures (forall w :: 0 <= w < |ws| ==> ws[w] == Stopped) ==> StoppedCount(ws) == |ws|
  {
    if forall w :: 0 <= w < |ws| ==> ws[w] == Stopped {
      SumConstant(StopFlags(ws), 1);
    }
  }

  // What remains to be done: commits, deliveries, and the way of every row from
  // its worker to the farmer.
  function Weight(w: Worker, pipe: seq<int>): nat {
    (if w.Holding? then 3 else if w == Wanting then 1 else 0) + |pipe|
  }

  function Weights(ws: seq<Worker>, pipes: seq<seq<int>>): seq<nat>
    requires |ws| == |pipes|
  {
    seq(|ws|, i requires 0 <= i < |ws| => Weight(ws[i], pipes[i]))
  }

  lemma WeightUpdate(ws: seq<Worker>, pipes: seq<seq<int>>, w: nat, v: Worker, q: seq<int>)
    requires |ws| == |pipes| && w < |ws|
    ensures Sum(Weights(ws[w := v], pipes[w := q])) + Weight(ws[w], pipes[w]) ==
            Sum(Weights(ws, pipes)) + Weight(v, q)
  {
    SumUpdate(Weights(ws, pipes), w, Weight(v, q));
    assert Weights(ws[w := v], pipes[w := q]) == Weights(ws, pipes)[w := Weight(v, q)];
  }

  function Asks(threads: seq<Thread>): seq<nat> {
    seq(|threads|, i requires 0 <= i < |threads| => if threads[i] == Asking then 1 else 0)
  }

  lemma {:induction false} AsksBounded(threads: seq<Thread>)
    ensures Sum(Asks(threads)) <= |threads|
  {
    if threads != [] {
      assert Asks(threads)[1..] == Asks(threads[1..]);
      AsksBounded(threads[1..]);
    }
  }

  ghost function Work(s: FarmSystem, p: Params): int {
    2 * (Items(p) - |s.ring.items|) + (if s.filled then 0 else 1) + 4 * (Items(p) - |s.ring.log|)
    + (if |s.workers| == |s.pipes| then Sum(Weights(s.workers, s.pipes)) else 0)
  }

  ghost function FarmRank(s: FarmSystem, p: Params): int {
    Work(s, p) * (p.workers + 1) + Sum(Asks(s.ring.threads))
  }

  lemma ServeDoesWork(s: FarmSystem, p: Params, w: nat)
    requires RingInv(s, p) && FarmEnabled(s, p, Serve(w))
    requires Ready(s.ring.q, s.ring.ptrs[0])
    ensures Work(FarmNext(s, p, Serve(w)), p) <= Work(s, p) - 1
  {
    var s' := FarmNext(s, p, Serve(w));
    ServesNext(s, p, w);
    assert s.pipes[w := s.pipes[w]] == s.pipes;
    WeightUpdate(s.workers, s.pipes, w, s'.workers[w], s.pipes[w]);
  }

  lemma OthersDoWork(s: FarmSystem, s': FarmSystem, p: Params, e: FarmEvent)
    requires FarmEnabled(s, p, e) && s' == FarmNext(s, p, e)
    requires !e.Serve? && s.ring.producer == Filling
    ensures Work(s', p) <= Work(s, p) - 1
  {
    if e.Fetch? || e.PutResult? || e.Harvest? {
      WorkerEffect(s, p, e);
      WeightUpdate(s.workers, s.pipes, e.w, s'.workers[e.w], s'.pipes[e.w]);
    }
  }

  // A thread that finds nothing to send goes to sleep.
  lemma SleepLowersRank(s: FarmSystem, p: Params, w: nat)
    requires RingInv(s, p) && FarmEnabled(s, p, Serve(w)) && !Ready(s.ring.q, s.ring.ptrs[0])
    ensures FarmRank(FarmNext(s, p, Serve(w)), p) < FarmRank(s, p)
  {
    var s' := FarmNext(s, p, Serve(w));
    SumUpdate(Asks(s.ring.threads), w, 0);
    assert Asks(s'.ring.threads) == Asks(s.ring.threads)[w := 0];
    assert Work(s', p) == Work(s, p);
  }

  lemma WorkLowersRank(s: FarmSystem, s': FarmSystem, p: Params)
    requires Work(s', p) <= Work(s, p) - 1 && |s'.ring.threads| == p.workers
    ensures FarmRank(s', p) < FarmRank(s, p)
  {
    AsksBounded(s'.ring.threads);
    FallsBy(Work(s', p), Work(s, p), p.workers + 1);
  }

  lemma FarmRankFalls(s: FarmSystem, p: Params, e: FarmEvent)
    requires FarmInv(s, p) && FarmEnabled(s, p, e)
    ensures FarmRank(FarmNext(s, p, e), p) < FarmRank(s, p)
  {
    if e.Serve? && !Ready(s.ring.q, s.ring.ptrs[0]) {
      SleepLowersRank(s, p, e.w);
    } else {
      if e.Serve? {
        ServeDoesWork(s, p, e.w);
      } else {
        OthersDoWork(s, FarmNext(s, p, e), p, e);
      }
      WorkLowersRank(s, FarmNext(s, p, e), p);
    }
  }

  lemma FallsBy(a: int, b: int, m: nat)
    requires a <= b - 1
    ensures a * m + m <= b * m
  {
    Gcds.ScaleAtLeast(b - a, m);
    Gcds.Spread(b, a, m);
  }

  lemma RankNonNegative(s: FarmSystem, p: Params)
    requires FarmInv(s, p)
    ensures FarmRank(s, p) >= 0
  {
    WorkNonNegative(s, p);
    if Work(s, p) > 0 {
      FallsBy(0, Work(s, p), p.workers + 1);
    }
  }

  lemma WorkNonNegative(s: FarmSystem, p: Params)
    requires |s.ring.log| <= |s.ring.items| <= Items(p)
    ensures Work(s, p) >= 0
  {
  }

  ghost predicate IsFarmRun(p: Params, run: seq<FarmSystem>) {
    IsRun(s => FarmStart(s, p), (s, s') => FarmStep(s, s', p), run)
  }

  lemma AnyFarmStepKeeps(s: FarmSystem, s': FarmSystem, p: Params)
    requires p.du >= Items(p) + 1 && FarmInv(s, p) && FarmStep(s, s', p)
    ensures FarmInv(s', p) && 0 <= FarmRank(s', p) < FarmRank(s, p)
  {
    var e :| FarmEnabled(s, p, e) && s' == FarmNext(s, p, e);
    FarmStepKeeps(s, p, e);
    FarmRankFalls(s, p, e);
    RankNonNegative(s', p);
  }

  // In every run of a farm whose ring has at least R + W + 1 slots no commit
  // waits and every row is in exactly one place; and every run ends.
  lemma EveryFarmRun(p: Params, run: seq<FarmSystem>)
    requires p.du >= Items(p) + 1 && IsFarmRun(p, run)
    ensures forall i :: 0 <= i < |run| ==> FarmInv(run[i], p)
    ensures |run| <= FarmRank(run[0], p) + 1
  {
    var init, next := (s: FarmSystem) => FarmStart(s, p), (s: FarmSystem, s': FarmSystem) => FarmStep(s, s', p);
    var inv := (s: FarmSystem) => FarmInv(s, p);
    var rank := (s: FarmSystem) => if FarmRank(s, p) >= 0 then FarmRank(s, p) as nat else 0;
    forall s | init(s) ensures inv(s) {
      FarmStartHolds(s, p);
    }
    forall s, s' | inv(s) && next(s, s') ensures inv(s') && rank(s') < rank(s) {
      AnyFarmStepKeeps(s, s', p);
    }
    forall i | 0 <= i < |run| ensures FarmInv(run[i], p) {
      InvariantHolds(init, next, inv, run, i);
    }
    LengthBounded(init, next, inv, rank, run);
    RankNonNegative(run[0], p);
  }

  // A run that cannot go on has stopped every worker with exactly one
  // termination value, and the farmer holds every row number exactly once.
  lemma MaximalFarmRun(p: Params, run: seq<FarmSystem>)
    requires p.workers > 0 && p.du >= Items(p) + 1
    requires IsFarmRun(p, run) && FarmStuck(run[|run| - 1], p)
    ensures var s := run[|run| - 1];
      && FarmDone(s, p)
      && (forall w :: 0 <= w < p.workers ==> StopsOf(s.ring.log, w) == 1)
      && (forall x :: Occurrences(s.output, x) == if 0 <= x < p.rows then 1 else 0)
  {
    EveryFarmRun(p, run);
    var s := run[|run| - 1];
    StuckMeansDone(s, p);
    forall x ensures Occurrences(s.output, x) == if 0 <= x < p.rows then 1 else 0 {
      assert Balanced(s, p, x);
      SumConstant(PendingAll(s.workers, s.pipes, x), 0);
    }
  }

  lemma EndedIsStuck(s: FarmSystem, next: (FarmSystem, FarmSystem) -> bool, p: Params)
    requires Ended(next, s) && forall s, s' :: next(s, s') <==> FarmStep(s, s', p)
    ensures FarmStuck(s, p)
  {
    forall e ensures !FarmEnabled(s, p, e) {
      assert FarmEnabled(s, p, e) ==> next(s, FarmNext(s, p, e));
    }
  }

  ghost function FirstState(p: Params): FarmSystem {
    var ring := State(Core(seq(p.du, i => 0), seq(p.du, i => 0), Vptr(0, 0)), [Vptr(0, 0)], Filling,
                      seq(p.workers, w => Idle), [], [0], []);
    FarmSystem(ring, false, seq(p.workers, w => Wanting), seq(p.workers, w => []), [])
  }

  // There is such a run: every run can be continued to one that ends.
  lemma SomeFarmRunEnds(p: Params) returns (run: seq<FarmSystem>)
    requires p.du >= Items(p) + 1
    ensures IsFarmRun(p, run) && FarmStuck(run[|run| - 1], p)
  {
    var init, next := (s: FarmSystem) => FarmStart(s, p), (s: FarmSystem, s': FarmSystem) => FarmStep(s, s', p);
    var inv := (s: FarmSystem) => FarmInv(s, p);
    var rank := (s: FarmSystem) => if FarmRank(s, p) >= 0 then FarmRank(s, p) as nat else 0;
    forall s | init(s) ensures inv(s) {
      FarmStartHolds(s, p);
    }
    forall s, s' | inv(s) && next(s, s') ensures inv(s') && rank(s') < rank(s) {
      AnyFarmStepKeeps(s, s', p);
    }
    RunGrows(init, next, [], FirstState(p));
    run := RunEnds(init, next, inv, rank, [FirstState(p)]);
    EndedIsStuck(run[|run| - 1], next, p);
  }

  // Only the farmer has moved, and k commits have returned.
  ghost predicate OnlyCommits(s: FarmSystem, p: Params, k: nat) {
    && FarmShape(s, p) && Inv(s.ring, RingConfig(p))
    && s.ring.producer == Filling && !s.filled && |s.ring.items| == k && s.ring.log == []
  }

  lemma CommitOne(p: Params, run: seq<FarmSystem>, k: nat) returns (run': seq<FarmSystem>)
    requires IsFarmRun(p, run) && OnlyCommits(run[|run| - 1], p, k) && k < Items(p)
    ensures IsFarmRun(p, run')
    ensures if k + 1 < p.du then OnlyCommits(run'[|run'| - 1], p, k + 1)
            else run'[|run'| - 1].ring.producer == PutAsleep
  {
    var c, s := RingConfig(p), run[|run| - 1];
    var s1 := FarmNext(s, p, FillRow);
    StepKeeps(s.ring, s1.ring, c, Write(Row(p, k)));
    var s2 := FarmNext(s1, p, CommitRow);
    StepKeeps(s1.ring, s2.ring, c, Commit);
    PublishKeeps(s1.ring, c);
    var mid := Published(s1.ring, c);
    RoomMeansClose(mid, c);
    assert PointerInv(mid, c, 0);
    run' := run + [s1, s2];
    assert FarmEnabled(s, p, FillRow) && FarmEnabled(s1, p, CommitRow);
    assert FarmStep(s, s1, p) && FarmStep(s1, s2, p);
    forall i | 0 <= i < |run'| - 1 ensures FarmStep(run'[i], run'[i + 1], p) {
      if i < |run| - 1 {
        assert FarmStep(run[i], run[i + 1], p);
      }
    }
  }

  lemma {:induction false} CommitMany(p: Params, k: nat) returns (run: seq<FarmSystem>)
    requires k < p.du <= Items(p)
    ensures IsFarmRun(p, run) && OnlyCommits(run[|run| - 1], p, k)
  {
    if k == 0 {
      run := [FirstState(p)];
      StartHolds(FirstState(p).ring, RingConfig(p));
    } else {
      run := CommitMany(p, k - 1);
      run := CommitOne(p, run, k - 1);
    }
  }

  // The ring size at which the farmer's commits can never wait.
  lemma CommitsNeverWaitExactlyWhen(p: Params)
    requires p.du > 0
    ensures (forall run: seq<FarmSystem>, i :: IsFarmRun(p, run) && 0 <= i < |run| ==> run[i].ring.producer == Filling)
            <==> p.du >= p.rows + p.workers + 1
  {
    if p.du >= Items(p) + 1 {
      forall run: seq<FarmSystem>, i | IsFarmRun(p, run) && 0 <= i < |run| ensures run[i].ring.producer == Filling {
        EveryFarmRun(p, run);
      }
    } else {
      var run := CommitMany(p, p.du - 1);
      run := CommitOne(p, run, p.du - 1);
      assert run[|run| - 1].ring.producer != Filling;
    }
  }

  // The search of the image writer: it finds the result of every row.
  method FindRow(p: Params, output: seq<int>, i: nat) returns (k: nat)
    requires |output| == p.rows && i < p.rows
    requires forall x :: Occurrences(output, x) == if 0 <= x < p.rows then 1 else 0
    ensures k < p.rows && output[k] == i
    ensures forall j :: 0 <= j < p.rows && output[j] == i ==> j == k
  {
    k := 0;
    OccurrencesFrom(output, 0, i);
    while k < p.rows
      invariant k <= p.rows && Occurrences(output[k..], i) == 1
      invariant forall j :: 0 <= j < k ==> output[j] != i
    {
      assert output[k..][1..] == output[k + 1..];
      if output[k] == i {
        break;
      }
      k := k + 1;
    }
    NotThere(output[k + 1..], i);
    assert forall j :: k < j < p.rows ==> output[j] == output[k + 1..][j - k - 1];
  }

  lemma OccurrencesFrom(s: seq<int>, k: nat, x: int)
    requires k == 0
    ensures Occurrences(s[k..], x) == Occurrences(s, x)
  {
    assert s[0..] == s;
  }

  lemma {:induction false} NotThere(s: seq<int>, x: int)
    requires Occurrences(s, x) == 0
    ensures x !in s
  {
    if s != [] {
      NotThere(s[1..], x);
      assert s == [s[0]] + s[1..];
    }
  }
}
