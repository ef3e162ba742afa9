// The slot rings without memory copy: nmc12m, whose every item goes to each of
// N consumers, and farmn, whose every item goes to one worker. They differ only
// in how many read pointers there are and who shares them.
module SlotRing {

  // A variable pointer (as a slot number) and the index of its reference count.
  datatype Vptr = Vptr(slot: nat, rcidx: nat)

  datatype Core<T> = Core(rc: seq<nat>, slots: seq<T>, vptr: Vptr)

  predicate WellFormed<T>(q: Core<T>) {
    |q.rc| == |q.slots| > 0 && PointsInto(q.vptr, |q.rc|)
  }

  predicate PointsInto(v: Vptr, du: nat) {
    v.slot < du && v.rcidx < du
  }

  // The address moves on and wraps at the end; the index moves on modulo du.
  function NextSlot(slot: nat, du: nat): nat {
    if slot + 1 == du then 0 else slot + 1
  }

  function NextIndex(rcidx: nat, du: nat): nat
    requires du > 0
  {
    (rcidx + 1) % du
  }

  // Filling the slot the producer points at.
  function Fill<T>(q: Core<T>, x: T): Core<T>
    requires WellFormed(q)
  {
    q.(slots := q.slots[q.vptr.slot := x])
  }

  // The start of a commit: the pointer moves on, the slot gets its readers.
  function Publish<T>(q: Core<T>, readers: nat): Core<T>
    requires WellFormed(q)
  {
    q.(rc := q.rc[q.vptr.rcidx := readers], vptr := q.vptr.(slot := NextSlot(q.vptr.slot, |q.rc|)))
  }

  // The commit may return when nobody still reads the slot it moves to.
  predicate HasRoom<T>(q: Core<T>)
    requires WellFormed(q)
  {
    q.rc[NextIndex(q.vptr.rcidx, |q.rc|)] == 0
  }

  function Return<T>(q: Core<T>): Core<T>
    requires WellFormed(q)
  {
    q.(vptr := q.vptr.(rcidx := NextIndex(q.vptr.rcidx, |q.rc|)))
  }

  predicate Ready<T>(q: Core<T>, v: Vptr)
    requires WellFormed(q) && PointsInto(v, |q.rc|)
  {
    q.rc[v.rcidx] != 0 && q.vptr.rcidx != v.rcidx
  }

  function Release<T>(q: Core<T>, v: Vptr): Core<T>
    requires WellFormed(q) && PointsInto(v, |q.rc|) && Ready(q, v)
  {
    q.(rc := q.rc[v.rcidx := q.rc[v.rcidx] - 1])
  }

  function Advance(v: Vptr, du: nat): Vptr
    requires PointsInto(v, du)
  {
    Vptr(NextSlot(v.slot, du), NextIndex(v.rcidx, du))
  }

  // What the service thread does in one pass: it writes an item, or the flag that
  // nothing is available, or waits.
  datatype Answer<T> = Item(flagged: bool, item: T) | Sorry | Wait

  // The queue in memory. The methods are the sections between lock and wait.
  class Queue<T> {
    const rc: array<nat>
    const start: array<T>
    var slot: nat
    var rcidx: nat

    ghost function View(): Core<T>
      reads this, rc, start
    {
      Core(rc[..], start[..], Vptr(slot, rcidx))
    }

    ghost predicate Valid()
      reads this
    {
      && rc as object != start as object
      && rc.Length == start.Length > 0 && slot < rc.Length && rcidx < rc.Length
    }

    // The loop clears every count but that of slot 0, which keeps whatever the
    // allocation left there.
    constructor (du: nat, memory: nat -> T, counts: nat -> nat)
      requires du > 0
      ensures Valid() && fresh(rc) && fresh(start)
      ensures View() == Core([counts(0)] + seq(du - 1, i => 0), seq(du, i requires 0 <= i => memory(i)), Vptr(0, 0))
    {
      var fresh0 := new T[du](i requires 0 <= i => memory(i));
      assert fresh0[..] == seq(du, i requires 0 <= i => memory(i));
      ghost var junk := fresh0[..];
      start := fresh0;
      rc := new nat[du](i requires 0 <= i => counts(i));
      slot, rcidx := 0, 0;
      new;
      var i := du - 1;
      while i != 0
        invariant 0 <= i < du
        invariant rc[0] == counts(0) && forall j :: i < j < du ==> rc[j] == 0
        invariant start[..] == junk && slot == 0 && rcidx == 0
      {
        rc[i] := 0;
        i := i - 1;
      }
      assert rc[..] == [counts(0)] + seq(du - 1, i => 0);
    }

    method Write(x: T)
      requires Valid()
      modifies start
      ensures Valid() && View() == Fill(old(View()), x)
    {
      start[slot] := x;
      assert start[..] == old(start[..])[slot := x] && rc[..] == old(rc[..]);
    }

    method PutBegin(readers: nat) returns (done: bool)
      requires Valid()
      modifies this, rc
      ensures Valid()
      ensures var q := Publish(old(View()), readers);
        done == HasRoom(q) && View() == if done then Return(q) else q
    {
      slot := slot + 1;
      if slot == start.Length {
        slot := 0;
      }
      rc[rcidx] := readers;
      assert rc[..] == old(rc[..])[rcidx := readers] && start[..] == old(start[..]);
      done := PutRetry();
    }

    // One more look after a wakeup.
    method PutRetry() returns (done: bool)
      requires Valid()
      modifies this
      ensures Valid()
      ensures done == HasRoom(old(View())) && View() == if done then Return(old(View())) else old(View())
    {
      var i := (rcidx + 1) % rc.Length;
      if rc[i] == 0 {
        rcidx := i;
        return true;
      }
      return false;
    }

    // One pass of the service thread: the next item for this reader, preceded by
    // the flag 1 if the get was conditional; or, if there is none yet, the flag 0
    // at once for a conditional get and nothing, before a wait, for another.
    method Send(v: Vptr, condRecv: bool) returns (a: Answer<T>, v': Vptr)
      requires Valid() && PointsInto(v, rc.Length)
      modifies rc
      ensures Valid()
      ensures Ready(old(View()), v) ==>
        && a == Item(condRecv, old(View()).slots[v.slot]) && v' == Advance(v, rc.Length)
        && View() == Release(old(View()), v)
      ensures !Ready(old(View()), v) ==>
        a == (if condRecv then Sorry else Wait) && v' == v && View() == old(View())
    {
      if rc[v.rcidx] == 0 || rcidx == v.rcidx {
        a := if condRecv then Sorry else Wait;
        return a, v;
      }
      a := Item(condRecv, start[v.slot]);
      var next := v.slot + 1;
      if next == start.Length {
        next := 0;
      }
      rc[v.rcidx] := rc[v.rcidx] - 1;
      assert rc[..] == old(rc[..])[v.rcidx := old(rc[v.rcidx]) - 1] && start[..] == old(start[..]);
      return a, Vptr(next, (v.rcidx + 1) % rc.Length);
    }
  }
}

// One producer and any number of serving threads on a slot ring, in all their
// interleavings. Thread t reads through pointer ptrOf[t]: the broadcast gives
// every thread its own pointer, the farm one pointer to all of them.
module SlotRingProtocol {
  import opened SlotRing
  import Gcds
  import opened Runs
  import opened Traces

  datatype Config = Config(du: nat, pointers: nat, ptrOf: seq<nat>)

  predicate ValidConfig(c: Config) {
    c.du > 0 && c.pointers > 0 && forall t :: 0 <= t < |c.ptrOf| ==> c.ptrOf[t] < c.pointers
  }

  function Broadcast(du: nat, consumers: nat): Config {
    Config(du, consumers, seq(consumers, t => t))
  }

  function Farm(du: nat, workers: nat): Config {
    Config(du, 1, seq(workers, t => 0))
  }

  datatype Producer = Filling | Committing | PutAsleep

  // AskingOnce serves a conditional get, which never sleeps.
  datatype Thread = Idle | Asking | AskingOnce | Asleep

  // items and log record every commit begun and every delivery made, and by
  // which thread; read counts the deliveries through each pointer.
  datatype State<T> = State(q: Core<T>, ptrs: seq<Vptr>, producer: Producer, threads: seq<Thread>,
                            items: seq<T>, read: seq<nat>, log: seq<(nat, T)>)

  datatype Event<T> =
    | Write(x: T) | Commit | Recheck | Ask(t: nat) | AskOnce(t: nat)
    | TrySend(t: nat) | Wake(t: nat) | WakeProducer

  ghost predicate Shape<T>(s: State<T>, c: Config) {
    && ValidConfig(c) && WellFormed(s.q) && |s.q.rc| == c.du
    && |s.ptrs| == |s.read| == c.pointers && |s.threads| == |c.ptrOf|
    && forall j :: 0 <= j < c.pointers ==> PointsInto(s.ptrs[j], c.du)
  }

  // Any memory contents, and any value in the count of slot 0.
  ghost predicate Start<T>(s: State<T>, c: Config) {
    && Shape(s, c)
    && s.q.vptr == Vptr(0, 0) && (forall i :: 1 <= i < c.du ==> s.q.rc[i] == 0)
    && (forall j :: 0 <= j < c.pointers ==> s.ptrs[j] == Vptr(0, 0) && s.read[j] == 0)
    && s.producer == Filling && (forall t :: 0 <= t < |s.threads| ==> s.threads[t] == Idle)
    && s.items == [] && s.log == []
  }

  // Broadcast on the condition variable: every sleeper tests its guard again.
  function WakeThreads(threads: seq<Thread>): seq<Thread> {
    seq(|threads|, t requires 0 <= t < |threads| => if threads[t] == Asleep then Asking else threads[t])
  }

  function WakePut(p: Producer): Producer {
    if p == PutAsleep then Committing else p
  }

  ghost predicate Enabled<T>(s: State<T>, c: Config, e: Event<T>) {
    && Shape(s, c)
    && match e
       case Write(_) => s.producer == Filling
       case Commit => s.producer == Filling
       case Recheck => s.producer == Committing
       case Ask(t) => t < |s.threads| && s.threads[t] == Idle
       case AskOnce(t) => t < |s.threads| && s.threads[t] == Idle
       case TrySend(t) => t < |s.threads| && (s.threads[t] == Asking || s.threads[t] == AskingOnce)
       case Wake(t) => t < |s.threads| && s.threads[t] == Asleep
       case WakeProducer => s.producer == PutAsleep
  }

  ghost function AfterCheck<T>(s: State<T>): State<T>
    requires WellFormed(s.q)
  {
    if HasRoom(s.q) then s.(q := Return(s.q), producer := Filling, threads := WakeThreads(s.threads))
    else s.(producer := PutAsleep, threads := WakeThreads(s.threads))
  }

  ghost function Next<T>(s: State<T>, c: Config, e: Event<T>): State<T>
    requires Enabled(s, c, e)
  {
    match e
    case Write(x) => s.(q := Fill(s.q, x))
    case Commit => AfterCheck(s.(q := Publish(s.q, c.pointers), items := s.items + [s.q.slots[s.q.vptr.slot]]))
    case Recheck => AfterCheck(s)
    case Ask(t) => s.(threads := s.threads[t := Asking])
    case AskOnce(t) => s.(threads := s.threads[t := AskingOnce])
    case TrySend(t) =>
      var j := c.ptrOf[t];
      var v := s.ptrs[j];
      if !Ready(s.q, v) then s.(threads := s.threads[t := if s.threads[t] == AskingOnce then Idle else Asleep])
      else State(Release(s.q, v), s.ptrs[j := Advance(v, c.du)], WakePut(s.producer),
                 WakeThreads(s.threads[t := Idle]), s.items, s.read[j := s.read[j] + 1],
                 s.log + [(t, s.q.slots[v.slot])])
    case Wake(t) => s.(threads := s.threads[t := Asking])
    case WakeProducer => s.(producer := Committing)
  }

  ghost predicate Step<T(!new)>(s: State<T>, s': State<T>, c: Config) {
    exists e :: Enabled(s, c, e) && s' == Next(s, c, e)
  }

  // How many pointers have not passed item m.
  function Unread(read: seq<nat>, m: nat): nat {
    if read == [] then 0 else (if read[0] <= m then 1 else 0) + Unread(read[1..], m)
  }

  lemma {:induction false} UnreadAfter(read: seq<nat>, j: nat, m: nat)
    requires j < |read|
    ensures Unread(read[j := read[j] + 1], m) == Unread(read, m) - if read[j] == m then 1 else 0
  {
    var read' := read[j := read[j] + 1];
    if j > 0 {
      UnreadAfter(read[1..], j - 1, m);
      assert read'[1..] == read[1..][j - 1 := read[1..][j - 1] + 1];
    } else {
      assert read'[1..] == read[1..];
    }
  }

  lemma {:induction false} UnreadPositive(read: seq<nat>, m: nat)
    ensures Unread(read, m) <= |read|
    ensures Unread(read, m) > 0 <==> exists j :: 0 <= j < |read| && read[j] <= m
  {
    if read != [] {
      UnreadPositive(read[1..], m);
      if Unread(read[1..], m) > 0 {
        var j :| 0 <= j < |read[1..]| && read[1..][j] <= m;
        assert read[j + 1] <= m;
      }
      if j :| 0 <= j < |read| && read[j] <= m {
        assert j > 0 ==> read[1..][j - 1] <= m;
      }
    }
  }

  ghost function NotPast(read: seq<nat>, m: nat): set<nat> {
    set j: nat | j < |read| && read[j] <= m
  }

  ghost function Shifted(s: set<nat>): set<nat> {
    set j: nat | j in s :: j + 1
  }

  lemma {:induction false} ShiftedSize(s: set<nat>)
    ensures |Shifted(s)| == |s|
    decreases |s|
  {
    if s != {} {
      var x :| x in s;
      var less := s - {x};
      ShiftedSize(less);
      forall y | y in Shifted(s) ensures y in Shifted(less) + {x + 1} {
        assert y - 1 in s;
        assert y - 1 == x || y - 1 in less;
      }
      assert Shifted(s) == Shifted(less) + {x + 1};
    }
  }

  // The count of unread pointers is the number of those that have not passed m.
  lemma {:induction false} UnreadIsCount(read: seq<nat>, m: nat)
    ensures Unread(read, m) == |NotPast(read, m)|
  {
    if read != [] {
      UnreadIsCount(read[1..], m);
      var rest := NotPast(read[1..], m);
      ShiftedSize(rest);
      var first: set<nat> := if read[0] <= m then {0} else {};
      forall j | j in NotPast(read, m) ensures j in Shifted(rest) + first {
        assert j > 0 ==> j - 1 in rest;
      }
      assert NotPast(read, m) == Shifted(rest) + first;
    }
  }

  lemma {:induction false} AllUnread(read: seq<nat>, m: nat)
    requires forall j :: 0 <= j < |read| ==> read[j] <= m
    ensures Unread(read, m) == |read|
  {
    if read != [] {
      AllUnread(read[1..], m);
    }
  }

  // What was delivered through pointer j, in order.
  function Through<T>(log: seq<(nat, T)>, ptrOf: seq<nat>, j: nat): seq<T> {
    if log == [] then [] else
      var (t, x) := log[|log| - 1];
      var before := Through(log[..|log| - 1], ptrOf, j);
      if t < |ptrOf| && ptrOf[t] == j then before + [x] else before
  }

  // Completed commits.
  function Completed<T>(s: State<T>): int {
    if s.producer == Filling then |s.items| else |s.items| - 1
  }

  // Item m lies intact in its slot, and its count says who still has to read it.
  ghost predicate SlotInv<T>(s: State<T>, c: Config, m: nat)
    requires Shape(s, c) && m < |s.items|
  {
    && s.q.slots[m % c.du] == s.items[m]
    && s.q.rc[m % c.du] == Unread(s.read, m)
  }

  ghost predicate PointerInv<T>(s: State<T>, c: Config, j: nat)
    requires Shape(s, c) && j < c.pointers
  {
    var w := Completed(s);
    && s.read[j] <= w && w - s.read[j] <= c.du - 1
    && s.ptrs[j] == Vptr(s.read[j] % c.du, s.read[j] % c.du)
    && s.read[j] <= |s.items|
    && Through(s.log, c.ptrOf, j) == s.items[..s.read[j]]
  }

  ghost predicate Inv<T>(s: State<T>, c: Config) {
    && Shape(s, c)
    && var w := Completed(s);
       && w >= 0
       && s.q.vptr == Vptr(|s.items| % c.du, w % c.du)
       && (forall j :: 0 <= j < c.pointers ==> PointerInv(s, c, j))
       && (forall m: nat :: m < |s.items| && m + c.du > w ==> SlotInv(s, c, m))
       && (forall i :: 1 <= i < c.du && i >= |s.items| ==> s.q.rc[i] == 0)
       && (s.producer == PutAsleep ==> !HasRoom(s.q))
       && (forall t :: 0 <= t < |s.threads| && s.threads[t] == Asleep ==> !Ready(s.q, s.ptrs[c.ptrOf[t]]))
  }

  lemma NextMod(a: nat, du: nat)
    requires du > 0
    ensures NextIndex(a % du, du) == (a + 1) % du
    ensures NextSlot(a % du, du) == (a + 1) % du
  {
    var q, r := a / du, a % du;
    assert a == q * du + r;
    if r + 1 == du {
      assert a + 1 == (q + 1) * du;
      ModIs(a + 1, du, q + 1, 0);
      ModIs(du, du, 1, 0);
    } else {
      ModIs(a + 1, du, q, r + 1);
      ModIs(r + 1, du, 0, r + 1);
    }
  }

  lemma ModIs(a: int, m: nat, q: int, r: nat)
    requires m > 0 && a == q * m + r && r < m
    ensures a % m == r
  {
    Gcds.ModUnique(a, m, q, r);
  }

  // Items fewer than du apart lie in different slots.
  lemma SlotsApart(a: nat, b: nat, du: nat)
    requires a < b < a + du
    ensures a % du != b % du
  {
    if a % du == b % du {
      var q := b / du - a / du;
      assert b - a == q * du by {
        assert b == (b / du) * du + b % du && a == (a / du) * du + a % du;
        Gcds.Spread(b / du, a / du, du);
      }
      if q >= 1 {
        Gcds.ScaleAtLeast(q, du);
      } else if q <= -1 {
        Gcds.ScaleAtLeast(-q, du);
      }
    }
  }

  // A pointer is ready exactly when a completed item is ahead of it.
  lemma ReadyMeansAhead<T>(s: State<T>, c: Config, j: nat)
    requires Inv(s, c) && j < c.pointers
    ensures Ready(s.q, s.ptrs[j]) <==> s.read[j] < Completed(s)
  {
    var r, w := s.read[j], Completed(s);
    assert PointerInv(s, c, j);
    if r < w {
      assert SlotInv(s, c, r);
      UnreadPositive(s.read, r);
      SlotsApart(r, w, c.du);
    }
  }

  // A commit has room exactly when every pointer is close enough.
  lemma RoomMeansClose<T>(s: State<T>, c: Config)
    requires Inv(s, c) && s.producer != Filling
    ensures HasRoom(s.q) <==> forall j :: 0 <= j < c.pointers ==> |s.items| - s.read[j] <= c.du - 1
  {
    var w := Completed(s);
    NextMod(w, c.du);
    if w + 1 < c.du {
      SmallMod(w + 1, c.du);
      assert s.q.rc[w + 1] == 0;
      forall j | 0 <= j < c.pointers ensures |s.items| - s.read[j] <= c.du - 1 {
        assert PointerInv(s, c, j);
      }
    } else {
      var m := w + 1 - c.du;
      assert SlotInv(s, c, m);
      ModIs(w + 1, c.du, (w + 1) / c.du, (w + 1) % c.du);
      SameSlot(m, c.du);
      UnreadPositive(s.read, m);
    }
  }

  lemma SmallMod(a: nat, du: nat)
    requires a < du
    ensures a % du == a
  {
  }

  lemma SameSlot(a: nat, du: nat)
    requires du > 0
    ensures (a + du) % du == a % du
  {
    var q, r := a / du, a % du;
    assert a + du == (q + 1) * du + r;
    ModIs(a + du, du, q + 1, r);
  }

  lemma StartHolds<T>(s: State<T>, c: Config)
    requires Start(s, c)
    ensures Inv(s, c)
  {
    SmallMod(0, c.du);
  }

  lemma WriteKeeps<T>(s: State<T>, c: Config, x: T)
    requires Inv(s, c) && s.producer == Filling
    ensures Inv(s.(q := Fill(s.q, x)), c)
  {
    var s' := s.(q := Fill(s.q, x));
    var w := |s.items|;
    forall m: nat | m < |s'.items| && m + c.du > w ensures SlotInv(s', c, m) {
      assert SlotInv(s, c, m);
      SlotsApart(m, w, c.du);
    }
    forall j | 0 <= j < c.pointers ensures PointerInv(s', c, j) {
      assert PointerInv(s, c, j);
    }
  }

  // The first half of a commit.
  ghost function Published<T>(s: State<T>, c: Config): State<T>
    requires WellFormed(s.q)
  {
    s.(q := Publish(s.q, c.pointers), items := s.items + [s.q.slots[s.q.vptr.slot]],
       producer := Committing, threads := WakeThreads(s.threads))
  }

  lemma PublishKeeps<T>(s: State<T>, c: Config)
    requires Inv(s, c) && s.producer == Filling
    ensures Inv(Published(s, c), c)
  {
    var s', w := Published(s, c), |s.items|;
    NextMod(w, c.du);
    forall j | 0 <= j < c.pointers ensures PointerInv(s', c, j) && s.read[j] <= w {
      assert PointerInv(s, c, j);
      assert s'.items[..s.read[j]] == s.items[..s.read[j]];
    }
    forall m: nat | m < |s'.items| && m + c.du > w ensures SlotInv(s', c, m) {
      if m < w {
        assert SlotInv(s, c, m);
        SlotsApart(m, w, c.du);
      } else {
        AllUnread(s.read, m);
      }
    }
    forall i | 1 <= i < c.du && i >= |s'.items| ensures s'.q.rc[i] == 0 {
      SmallMod(w, c.du);
    }
  }

  // The check that ends a commit, now or after any number of wakeups.
  lemma CheckKeeps<T>(s: State<T>, c: Config)
    requires Inv(s, c) && s.producer == Committing
    ensures Inv(AfterCheck(s), c)
  {
    var s' := AfterCheck(s);
    var w := Completed(s);
    forall j | 0 <= j < c.pointers ensures PointerInv(s', c, j) {
      assert PointerInv(s, c, j);
      RoomMeansClose(s, c);
    }
    NextMod(w, c.du);
    forall m: nat | m < |s'.items| && m + c.du > Completed(s') ensures SlotInv(s', c, m) {
      assert SlotInv(s, c, m);
    }
  }

  // The reading of one item leaves the other slots alone.
  lemma ReadingKeepsSlot<T>(s: State<T>, s': State<T>, c: Config, j: nat, m: nat)
    requires Shape(s, c) && Shape(s', c) && j < c.pointers && m < |s.items| && SlotInv(s, c, m)
    requires var r := s.read[j];
      && r <= Completed(s) && Completed(s) <= |s.items| <= Completed(s) + 1
      && m + c.du > Completed(s) && |s.items| <= r + c.du && s.q.rc[r % c.du] > 0
      && s'.items == s.items && s'.read == s.read[j := r + 1] && s'.q.slots == s.q.slots
      && s'.q.rc == s.q.rc[r % c.du := s.q.rc[r % c.du] - 1]
    ensures SlotInv(s', c, m)
  {
    UnreadAfter(s.read, j, m);
    if m < s.read[j] {
      SlotsApart(m, s.read[j], c.du);
    } else if m > s.read[j] {
      SlotsApart(s.read[j], m, c.du);
    }
  }

  lemma SendKeeps<T>(s: State<T>, s': State<T>, c: Config, t: nat)
    requires Inv(s, c) && Enabled(s, c, TrySend(t)) && s' == Next(s, c, TrySend(t))
    requires Ready(s.q, s.ptrs[c.ptrOf[t]])
    ensures Inv(s', c)
  {
    var j, w := c.ptrOf[t], Completed(s);
    var r := s.read[j];
    ReadyMeansAhead(s, c, j);
    assert PointerInv(s, c, j) && SlotInv(s, c, r);
    NextMod(r, c.du);
    assert s'.log[..|s'.log| - 1] == s.log;
    forall i | 0 <= i < c.pointers ensures PointerInv(s', c, i) {
      assert PointerInv(s, c, i);
      if i == j {
        assert s.items[..r + 1] == s.items[..r] + [s.items[r]];
      }
    }
    forall m: nat | m < |s'.items| && m + c.du > w ensures SlotInv(s', c, m) {
      assert SlotInv(s, c, m);
      ReadingKeepsSlot(s, s', c, j, m);
    }
    forall i | 1 <= i < c.du && i >= |s'.items| ensures s'.q.rc[i] == 0 {
      SmallMod(r, c.du);
    }
  }

  lemma StepKeeps<T>(s: State<T>, s': State<T>, c: Config, e: Event<T>)
    requires Inv(s, c) && Enabled(s, c, e) && s' == Next(s, c, e)
    ensures Inv(s', c)
  {
    match e
    case Write(x) =>
      WriteKeeps(s, c, x);
    case Commit =>
      PublishKeeps(s, c);
      CheckKeeps(Published(s, c), c);
      assert WakeThreads(WakeThreads(s.threads)) == WakeThreads(s.threads);
    case Recheck =>
      CheckKeeps(s, c);
    case TrySend(t) =>
      if Ready(s.q, s.ptrs[c.ptrOf[t]]) {
        SendKeeps(s, s', c, t);
      } else {
        SameQueue(s, s', c);
      }
    case _ =>
      SameQueue(s, s', c);
  }

  // Steps that only change who is asleep.
  lemma SameQueue<T>(s: State<T>, s': State<T>, c: Config)
    requires Inv(s, c) && Shape(s', c)
    requires s' == s.(producer := s'.producer, threads := s'.threads)
    requires (s'.producer == Filling) == (s.producer == Filling)
    requires s'.producer == PutAsleep ==> s.producer == PutAsleep
    requires forall t :: 0 <= t < |s'.threads| && s'.threads[t] == Asleep ==>
      s.threads[t] == Asleep || !Ready(s.q, s.ptrs[c.ptrOf[t]])
    ensures Inv(s', c)
  {
    forall j | 0 <= j < c.pointers ensures PointerInv(s', c, j) {
      assert PointerInv(s, c, j);
    }
    forall m: nat | m < |s'.items| && m + c.du > Completed(s') ensures SlotInv(s', c, m) {
      assert SlotInv(s, c, m);
    }
  }

  // --- What the program writes ---

  // Filling the slot and committing it publishes what was written, whatever the
  // readers.
  lemma WriteThenCommit<T>(s: State<T>, c: Config, x: T)
    requires Inv(s, c) && s.producer == Filling
    ensures Enabled(s, c, Write(x)) && Enabled(Next(s, c, Write(x)), c, Commit)
    ensures Next(Next(s, c, Write(x)), c, Commit).items == s.items + [x]
  {
  }

  // A get sets its thread to serve it, to wait for an item or, if it is conditional, to
  // answer at once; it changes nothing else.
  lemma AskServes<T>(s: State<T>, c: Config, t: nat)
    requires Shape(s, c) && t < |s.threads| && s.threads[t] == Idle
    ensures Enabled(s, c, Ask(t)) && Next(s, c, Ask(t)) == s.(threads := s.threads[t := Asking])
    ensures Enabled(s, c, AskOnce(t)) && Next(s, c, AskOnce(t)) == s.(threads := s.threads[t := AskingOnce])
  {
  }

  lemma GuardsAre<T>(s: State<T>, c: Config, t: nat)
    requires Shape(s, c)
    ensures Enabled(s, c, Commit) <==> s.producer == Filling
    ensures Enabled(s, c, Recheck) <==> s.producer == Committing
    ensures Enabled(s, c, TrySend(t)) <==> t < |s.threads| && (s.threads[t] == Asking || s.threads[t] == AskingOnce)
  {
  }

  // Whoever sleeps can wake for nothing, and then tests its guard again.
  lemma WakesForNothing<T>(s: State<T>, c: Config, t: nat)
    requires Shape(s, c)
    ensures t < |s.threads| && s.threads[t] == Asleep ==>
      Enabled(s, c, Wake(t)) && Next(s, c, Wake(t)) == s.(threads := s.threads[t := Asking])
    ensures s.producer == PutAsleep ==>
      Enabled(s, c, WakeProducer) && Next(s, c, WakeProducer) == s.(producer := Committing)
  {
  }

  ghost predicate Does<T>(s: State<T>, e: Event<T>, s': State<T>, c: Config) {
    Enabled(s, c, e) && s' == Next(s, c, e)
  }

  ghost predicate IsRingTrace<T(!new)>(c: Config, run: seq<State<T>>, events: seq<Event<T>>) {
    IsTrace(s => Start(s, c), (s, e, s') => Does(s, e, s', c), run, events)
  }

  // The last value written since the last commit, if there is one; and for each
  // commit so far the last value written before it, since the one before.
  function LastWrite<T>(events: seq<Event<T>>): seq<T> {
    if events == [] then []
    else
      match events[|events| - 1]
      case Write(x) => [x]
      case Commit => []
      case _ => LastWrite(events[..|events| - 1])
  }

  function WrittenItems<T>(events: seq<Event<T>>): seq<seq<T>> {
    if events == [] then []
    else
      var before := events[..|events| - 1];
      WrittenItems(before) + if events[|events| - 1].Commit? then [LastWrite(before)] else []
  }

  // Each item is what was written for it; a commit for which nothing was written
  // publishes what the slot held.
  ghost predicate ItemsWritten<T>(s: State<T>, c: Config, events: seq<Event<T>>) {
    && Inv(s, c) && |s.items| == |WrittenItems(events)|
    && (forall k :: 0 <= k < |s.items| && WrittenItems(events)[k] != [] ==> WrittenItems(events)[k] == [s.items[k]])
    && (s.producer == Filling && LastWrite(events) != [] ==> LastWrite(events) == [s.q.slots[s.q.vptr.slot]])
    && (s.producer != Filling ==> LastWrite(events) == [])
  }

  lemma StepKeepsWritten<T>(s: State<T>, s': State<T>, c: Config, events: seq<Event<T>>, e: Event<T>)
    requires ItemsWritten(s, c, events) && Does(s, e, s', c)
    ensures ItemsWritten(s', c, events + [e])
  {
    StepKeeps(s, s', c, e);
    assert (events + [e])[..|events + [e]| - 1] == events;
  }

  // In every run the k-th item is the last value the program wrote before its k-th
  // commit.
  lemma EveryItemWritten<T(!new)>(c: Config, run: seq<State<T>>, events: seq<Event<T>>, i: nat, k: nat)
    requires IsRingTrace(c, run, events) && i < |run| && k < |run[i].items|
    ensures IsRingRun(c, run) && |run[i].items| == |WrittenItems(events[..i])|
    ensures WrittenItems(events[..i])[k] != [] ==> WrittenItems(events[..i])[k] == [run[i].items[k]]
  {
    var init, does := (s: State<T>) => Start(s, c), (s: State<T>, e: Event<T>, s': State<T>) => Does(s, e, s', c);
    var inv := (s: State<T>, es: seq<Event<T>>) => ItemsWritten(s, c, es);
    forall s | init(s) ensures inv(s, []) {
      StartHolds(s, c);
    }
    forall s, es, e, s' | inv(s, es) && does(s, e, s') ensures inv(s', es + [e]) {
      StepKeepsWritten(s, s', c, es, e);
    }
    TraceHolds(init, does, inv, run, events, i);
    TraceIsRun(init, does, (s: State<T>, s': State<T>) => Step(s, s', c), run, events);
  }

  ghost predicate IsRingRun<T(!new)>(c: Config, run: seq<State<T>>) {
    IsRun(s => Start(s, c), (s, s') => Step(s, s', c), run)
  }

  lemma EveryRunHolds<T(!new)>(c: Config, run: seq<State<T>>, i: nat)
    requires IsRingRun(c, run) && i < |run|
    ensures Inv(run[i], c)
  {
    var init, next, inv := (s: State<T>) => Start(s, c), (s: State<T>, s': State<T>) => Step(s, s', c),
                           (s: State<T>) => Inv(s, c);
    forall s | init(s) ensures inv(s) {
      StartHolds(s, c);
    }
    forall s, s' | inv(s) && next(s, s') ensures inv(s') {
      var e :| Enabled(s, c, e) && s' == Next(s, c, e);
      StepKeeps(s, s', c, e);
    }
    InvariantHolds(init, next, inv, run, i);
  }

  function ByThread<T>(log: seq<(nat, T)>, t: nat): seq<T> {
    if log == [] then [] else
      var (u, x) := log[|log| - 1];
      var before := ByThread(log[..|log| - 1], t);
      if u == t then before + [x] else before
  }

  function Delivered<T>(log: seq<(nat, T)>): seq<T> {
    seq(|log|, i requires 0 <= i < |log| => log[i].1)
  }

  lemma {:induction false} OwnPointer<T>(log: seq<(nat, T)>, n: nat, t: nat)
    requires t < n
    ensures ByThread(log, t) == Through(log, Broadcast(1, n).ptrOf, t)
  {
    if log != [] {
      OwnPointer(log[..|log| - 1], n, t);
      var u, own := log[|log| - 1].0, Broadcast(1, n).ptrOf;
      assert u < n ==> own[u] == u;
    }
  }

  lemma {:induction false} SharedPointer<T>(log: seq<(nat, T)>, n: nat)
    requires forall i :: 0 <= i < |log| ==> log[i].0 < n
    ensures Delivered(log) == Through(log, seq(n, i => 0), 0)
  {
    if log != [] {
      var before := log[..|log| - 1];
      SharedPointer(before, n);
      assert Delivered(log) == Delivered(before) + [log[|log| - 1].1];
    }
  }

  // Broadcast: in every run each consumer receives the committed items in order,
  // none lost, repeated or overwritten, and the producer is never more than
  // du - 1 items ahead of the slowest.
  lemma BroadcastDelivers<T(!new)>(du: nat, n: nat, run: seq<State<T>>, i: nat, k: nat)
    requires IsRingRun(Broadcast(du, n), run) && i < |run| && k < n
    ensures var s := run[i];
      && k < |s.read| <= n && s.read[k] <= Completed(s) <= |s.items|
      && ByThread(s.log, k) == s.items[..s.read[k]]
      && Completed(s) - s.read[k] <= du - 1
  {
    EveryRunHolds(Broadcast(du, n), run, i);
    assert PointerInv(run[i], Broadcast(du, n), k);
    OwnPointer(run[i].log, n, k);
  }

  // So each consumer receives what the program wrote: its k-th delivery is the last
  // value written before the k-th commit.
  lemma BroadcastDeliversWritten<T(!new)>(du: nat, n: nat, run: seq<State<T>>, events: seq<Event<T>>, i: nat, t: nat,
                                          k: nat)
    requires IsRingTrace(Broadcast(du, n), run, events) && i < |run| && t < n && k < |ByThread(run[i].log, t)|
    ensures k < |WrittenItems(events[..i])|
    ensures var written := WrittenItems(events[..i])[k];
      written != [] ==> written == [ByThread(run[i].log, t)[k]]
  {
    TraceDelivers(du, n, run, events, i, t);
    EveryItemWritten(Broadcast(du, n), run, events, i, k);
  }

  lemma TraceDelivers<T(!new)>(du: nat, n: nat, run: seq<State<T>>, events: seq<Event<T>>, i: nat, t: nat)
    requires IsRingTrace(Broadcast(du, n), run, events) && i < |run| && t < n
    ensures ByThread(run[i].log, t) <= run[i].items
  {
    var c := Broadcast(du, n);
    var does := (s: State<T>, e: Event<T>, s': State<T>) => Does(s, e, s', c);
    TraceIsRun((s: State<T>) => Start(s, c), does, (s: State<T>, s': State<T>) => Step(s, s', c), run, events);
    BroadcastDelivers(du, n, run, i, t);
  }

  lemma ByThreadGrows<T>(log: seq<(nat, T)>, u: nat, x: T, t: nat)
    ensures ByThread(log + [(u, x)], t) == ByThread(log, t) + if u == t then [x] else []
  {
    assert (log + [(u, x)])[..|log + [(u, x)]| - 1] == log;
  }

  // The reference counts: slot by slot, how many consumers have yet to read it.
  lemma BroadcastCounts<T(!new)>(du: nat, n: nat, run: seq<State<T>>, i: nat, m: nat)
    requires IsRingRun(Broadcast(du, n), run) && i < |run|
    requires m < |run[i].items| && m + du > Completed(run[i])
    ensures du > 0 && m % du < |run[i].q.rc|
    ensures run[i].q.rc[m % du] == Unread(run[i].read, m)
    ensures m % du < |run[i].q.slots| && run[i].q.slots[m % du] == run[i].items[m]
  {
    EveryRunHolds(Broadcast(du, n), run, i);
    assert SlotInv(run[i], Broadcast(du, n), m);
  }

  ghost predicate LogInv<T>(s: State<T>, c: Config) {
    Inv(s, c) && forall i :: 0 <= i < |s.log| ==> s.log[i].0 < |c.ptrOf|
  }

  // Farm: the deliveries to all workers, in the order they happen, are a prefix
  // of the commits, so every item reaches exactly one worker.
  lemma FarmDelivers<T(!new)>(du: nat, workers: nat, run: seq<State<T>>, i: nat)
    requires IsRingRun(Farm(du, workers), run) && i < |run|
    ensures var s := run[i];
      && |s.log| <= Completed(s) <= |s.items|
      && Delivered(s.log) == s.items[..|s.log|]
      && Completed(s) - |s.log| <= du - 1
      && (forall k :: 0 <= k < |s.log| ==> s.log[k].0 < workers && s.log[k].1 == s.items[k])
  {
    var c := Farm(du, workers);
    var init, next, inv := (s: State<T>) => Start(s, c), (s: State<T>, s': State<T>) => Step(s, s', c),
                           (s: State<T>) => LogInv(s, c);
    forall s | init(s) ensures inv(s) {
      StartHolds(s, c);
    }
    forall s, s' | inv(s) && next(s, s') ensures inv(s') {
      var e :| Enabled(s, c, e) && s' == Next(s, c, e);
      StepKeeps(s, s', c, e);
    }
    InvariantHolds(init, next, inv, run, i);
    FarmLog(run[i], du, workers);
    forall k | 0 <= k < |run[i].log| ensures run[i].log[k].1 == run[i].items[k] {
      assert Delivered(run[i].log)[k] == run[i].log[k].1;
    }
  }

  lemma FarmLog<T>(s: State<T>, du: nat, workers: nat)
    requires LogInv(s, Farm(du, workers))
    ensures |s.log| == s.read[0] <= Completed(s) <= |s.items|
    ensures Delivered(s.log) == s.items[..|s.log|] && Completed(s) - |s.log| <= du - 1
  {
    SharedPointer(s.log, workers);
    assert PointerInv(s, Farm(du, workers), 0);
    assert |Delivered(s.log)| == |s.log|;
  }

  // A commit that cannot return always has a reader that can be served, and no
  // thread of that reader is asleep.
  lemma BlockedCommitHasReader<T>(s: State<T>, c: Config) returns (j: nat)
    requires Inv(s, c) && c.du >= 2 && s.producer != Filling && !HasRoom(s.q)
    ensures j < c.pointers && Ready(s.q, s.ptrs[j])
    ensures forall t :: 0 <= t < |s.threads| && c.ptrOf[t] == j ==> s.threads[t] != Asleep
  {
    RoomMeansClose(s, c);
    j :| 0 <= j < c.pointers && |s.items| - s.read[j] > c.du - 1;
    ReadyMeansAhead(s, c, j);
  }

  // No wakeup is lost: whoever sleeps has nothing to wake for.
  lemma SleepersHaveNothingToDo<T(!new)>(c: Config, run: seq<State<T>>, i: nat, t: nat)
    requires IsRingRun(c, run) && i < |run| && t < |c.ptrOf|
    ensures var s := run[i];
      && Shape(s, c)
      && (s.producer == PutAsleep ==> !HasRoom(s.q))
      && (s.threads[t] == Asleep ==> !Ready(s.q, s.ptrs[c.ptrOf[t]]))
  {
    EveryRunHolds(c, run, i);
  }

  // How far all readers together are behind the completed commits.
  function TotalLag(read: seq<nat>, w: int): int {
    if read == [] then 0 else w - read[0] + TotalLag(read[1..], w)
  }

  lemma {:induction false} LagAfter(read: seq<nat>, w: int, j: nat)
    requires j < |read|
    ensures TotalLag(read[j := read[j] + 1], w) == TotalLag(read, w) - 1
  {
    var read' := read[j := read[j] + 1];
    if j > 0 {
      LagAfter(read[1..], w, j - 1);
      assert read'[1..] == read[1..][j - 1 := read[1..][j - 1] + 1];
    } else {
      assert read'[1..] == read[1..];
    }
  }

  lemma {:induction false} LagBounds(read: seq<nat>, w: int, d: nat)
    requires forall j :: 0 <= j < |read| ==> 0 <= w - read[j] <= d
    ensures 0 <= TotalLag(read, w) <= |read| * d
  {
    if read != [] {
      LagBounds(read[1..], w, d);
      assert |read| * d == (|read| - 1) * d + d;
    }
  }

  ghost function Lag<T>(s: State<T>): int {
    TotalLag(s.read, Completed(s))
  }

  // While a commit waits, every delivery lowers the readers' total lag by one
  // and nothing raises it.
  lemma WaitingStep<T>(s: State<T>, s': State<T>, c: Config, e: Event<T>)
    requires Inv(s, c) && Enabled(s, c, e) && s' == Next(s, c, e)
    requires s.producer != Filling && s'.producer != Filling
    ensures Lag(s') + |s'.log| == Lag(s) + |s.log|
  {
    if e.TrySend? && Ready(s.q, s.ptrs[c.ptrOf[e.t]]) {
      LagAfter(s.read, Completed(s), c.ptrOf[e.t]);
    }
  }

  lemma WaitingKeepsTotal<T(!new)>(s: State<T>, s': State<T>, c: Config)
    requires Inv(s, c) && Step(s, s', c) && s.producer != Filling && s'.producer != Filling
    ensures |s'.log| + Lag(s') == |s.log| + Lag(s)
  {
    var e :| Enabled(s, c, e) && s' == Next(s, c, e);
    WaitingStep(s, s', c, e);
  }

  lemma WaitingOne<T(!new)>(c: Config, run: seq<State<T>>, i: nat)
    requires IsRingRun(c, run) && i + 1 < |run|
    requires run[i].producer != Filling && run[i + 1].producer != Filling
    ensures |run[i + 1].log| + Lag(run[i + 1]) == |run[i].log| + Lag(run[i])
  {
    EveryRunHolds(c, run, i);
    assert Step(run[i], run[i + 1], c);
    WaitingKeepsTotal(run[i], run[i + 1], c);
  }

  ghost function LagAndLog<T>(s: State<T>): int {
    |s.log| + Lag(s)
  }

  ghost predicate SameTotal<T>(run: seq<State<T>>, i: nat)
    requires i + 1 < |run|
  {
    LagAndLog(run[i + 1]) == LagAndLog(run[i])
  }

  lemma {:induction false} TotalsEqual<T>(run: seq<State<T>>, a: nat, b: nat)
    requires a <= b < |run| && forall i: nat :: a <= i < b ==> SameTotal(run, i)
    ensures LagAndLog(run[b]) == LagAndLog(run[a])
    decreases b
  {
    if a < b {
      TotalsEqual(run, a, b - 1);
      assert SameTotal(run, b - 1);
    }
  }

  lemma WaitingConserves<T(!new)>(c: Config, run: seq<State<T>>, a: nat, b: nat)
    requires IsRingRun(c, run) && a <= b < |run|
    requires forall i :: a <= i <= b ==> run[i].producer != Filling
    ensures |run[b].log| + Lag(run[b]) == |run[a].log| + Lag(run[a])
  {
    forall i: nat | a <= i < b ensures SameTotal(run, i) {
      WaitingOne(c, run, i);
    }
    TotalsEqual(run, a, b);
  }

  lemma LagWithin<T>(s: State<T>, c: Config)
    requires Inv(s, c)
    ensures 0 <= Lag(s) <= c.pointers * (c.du - 1)
  {
    forall j | 0 <= j < |s.read| ensures 0 <= Completed(s) - s.read[j] <= c.du - 1 {
      assert PointerInv(s, c, j);
    }
    LagBounds(s.read, Completed(s), c.du - 1);
  }

  // So a commit waits for at most pointers * (du - 1) deliveries.
  lemma CommitWaitsBounded<T(!new)>(c: Config, run: seq<State<T>>, a: nat, b: nat)
    requires IsRingRun(c, run) && a <= b < |run|
    requires forall i :: a <= i <= b ==> run[i].producer != Filling
    ensures |run[b].log| + Lag(run[b]) == |run[a].log| + Lag(run[a])
    ensures |run[b].log| - |run[a].log| <= c.pointers * (c.du - 1)
  {
    EveryRunHolds(c, run, a);
    EveryRunHolds(c, run, b);
    LagWithin(run[a], c);
    LagWithin(run[b], c);
    WaitingConserves(c, run, a, b);
  }

  // With a single slot no commit ever returns.
  ghost predicate NothingRead<T>(s: State<T>, c: Config) {
    Inv(s, c) && forall j :: 0 <= j < c.pointers ==> s.read[j] == 0
  }

  lemma OneSlotStuck<T(!new)>(c: Config, run: seq<State<T>>, i: nat)
    requires c.du == 1 && IsRingRun(c, run) && i < |run|
    ensures Completed(run[i]) == 0
  {
    var init, next, inv := (s: State<T>) => Start(s, c), (s: State<T>, s': State<T>) => Step(s, s', c),
                           (s: State<T>) => NothingRead(s, c);
    forall s | init(s) ensures inv(s) {
      StartHolds(s, c);
    }
    forall s, s' | inv(s) && next(s, s') ensures inv(s') {
      var e :| Enabled(s, c, e) && s' == Next(s, c, e);
      StepKeeps(s, s', c, e);
      if e.TrySend? {
        assert PointerInv(s, c, c.ptrOf[e.t]);
        ReadyMeansAhead(s, c, c.ptrOf[e.t]);
      }
    }
    InvariantHolds(init, next, inv, run, i);
    assert PointerInv(run[i], c, 0);
  }

  lemma FirstCommit<T(!new)>(c: Config, x: T) returns (run: seq<State<T>>)
    requires ValidConfig(c) && c.du >= 2
    ensures IsRingRun(c, run) && |run| == 2 && Completed(run[1]) == 1
  {
    var s := State(Core(seq(c.du, i => 0), seq(c.du, i => x), Vptr(0, 0)), seq(c.pointers, j => Vptr(0, 0)),
                   Filling, seq(|c.ptrOf|, t => Idle), [], seq(c.pointers, j => 0), []);
    SmallMod(1, c.du);
    assert Enabled(s, c, Commit);
    var s' := Next(s, c, Commit);
    assert Step(s, s', c);
    run := [s, s'];
  }

  // The exact ring size from which a commit can return at all.
  lemma CommitReturnsExactlyWhen<T(!new)>(c: Config, x: T)
    requires ValidConfig(c)
    ensures (exists run: seq<State<T>>, i :: IsRingRun(c, run) && 0 <= i < |run| && Completed(run[i]) > 0)
            <==> c.du >= 2
  {
    if c.du >= 2 {
      var run := FirstCommit(c, x);
      assert Completed(run[1]) > 0;
    } else {
      forall run: seq<State<T>>, i | IsRingRun(c, run) && 0 <= i < |run| ensures Completed(run[i]) == 0 {
        OneSlotStuck(c, run, i);
      }
    }
  }
}
