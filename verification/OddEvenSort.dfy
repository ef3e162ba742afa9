// The phases of the odd-even transposition sort, run in lockstep: in every
// iteration first the inner pairs (1,2), (3,4), ... then the pairs (0,1), (2,3), ...
module OddEvenSort {
  import opened SortedBlocks
  import opened CompareAccumulate
  import opened OddEvenCounts
  import Flat

  type Blocks = seq<seq<int>>

  ghost predicate WellFormed(b: Blocks, n: nat) {
    forall r :: 0 <= r < |b| ==> |b[r]| == n && Sorted(b[r])
  }

  function Exchanged(b: Blocks, phase: nat, r: nat): seq<int>
    requires r < |b|
  {
    var q := Partner(r, phase);
    if q < 0 || q >= |b| then b[r]
    else if r < q then KeepSmall(b[r], b[q])
    else KeepLarge(b[r], b[q])
  }

  function Phase(b: Blocks, phase: nat): Blocks {
    seq(|b|, r requires 0 <= r < |b| => Exchanged(b, phase, r))
  }

  // The blocks after the first `phases` phases.
  function Lockstep(b: Blocks, phases: nat): (b': Blocks)
    ensures |b'| == |b|
  {
    if phases == 0 then b else Phase(Lockstep(b, phases - 1), phases - 1)
  }

  lemma PhaseWellFormed(b: Blocks, n: nat, phase: nat)
    requires WellFormed(b, n)
    ensures WellFormed(Phase(b, phase), n)
  {
    forall r | 0 <= r < |b| ensures |Exchanged(b, phase, r)| == n && Sorted(Exchanged(b, phase, r)) {
      var q := Partner(r, phase);
      if 0 <= q < |b| {
        ExchangeCounts(b[Min(r, q)], b[Max(r, q)], 0);
      }
    }
  }

  lemma {:induction false} LockstepWellFormed(b: Blocks, n: nat, phases: nat)
    requires WellFormed(b, n)
    ensures WellFormed(Lockstep(b, phases), n)
  {
    if phases > 0 {
      LockstepWellFormed(b, n, phases - 1);
      PhaseWellFormed(Lockstep(b, phases - 1), n, phases - 1);
    }
  }

  lemma NextLockstep(b: Blocks, h: nat)
    ensures forall r :: 0 <= r < |b| ==> Lockstep(b, h + 1)[r] == Exchanged(Lockstep(b, h), h, r)
  {
  }

  function Flatten(b: Blocks): seq<int> {
    if b == [] then [] else b[0] + Flatten(b[1..])
  }

  // Element x of block r stands at place r * n + x of the concatenation.
  lemma {:induction false} FlattenAt(b: Blocks, n: nat, r: nat, x: nat)
    requires (forall i :: 0 <= i < |b| ==> |b[i]| == n) && r < |b| && x < n
    ensures |Flatten(b)| == |b| * n && r * n + x < |Flatten(b)| && Flatten(b)[r * n + x] == b[r][x]
  {
    var rest := b[1..];
    FlattenLength(rest, n);
    Flat.Next(|rest|, n);
    Flat.Inside(r, x, |b|, n);
    if r > 0 {
      FlattenAt(rest, n, r - 1, x);
      Flat.Next(r - 1, n);
    }
  }

  lemma {:induction false} FlattenLength(b: Blocks, n: nat)
    requires forall i :: 0 <= i < |b| ==> |b[i]| == n
    ensures |Flatten(b)| == |b| * n
  {
    if b != [] {
      FlattenLength(b[1..], n);
      Flat.Next(|b| - 1, n);
    }
  }

  // The count abstraction: per block, how many elements are at least t.
  ghost function Counts(b: Blocks, t: int): seq<int> {
    seq(|b|, r requires 0 <= r < |b| => CountGe(b[r], t))
  }

  lemma PairCount(b: Blocks, n: nat, t: int, r: nat, q: nat)
    requires WellFormed(b, n) && r < q < |b|
    ensures CountGe(KeepSmall(b[r], b[q]), t) == Max(0, CountGe(b[r], t) + CountGe(b[q], t) - n)
    ensures CountGe(KeepLarge(b[q], b[r]), t) == Min(n, CountGe(b[r], t) + CountGe(b[q], t))
  {
    ExchangeCounts(b[r], b[q], t);
  }

  lemma PhaseCount(b: Blocks, n: nat, phase: nat, t: int, r: nat)
    requires WellFormed(b, n) && r < |b|
    ensures CountGe(Exchanged(b, phase, r), t) == ExchangedCount(Counts(b, t), n, phase, r)
  {
    var q := Partner(r, phase);
    if r < q < |b| {
      PairCount(b, n, t, r, q);
    } else if 0 <= q < |b| {
      PairCount(b, n, t, q, r);
    }
  }

  lemma PhaseCounts(b: Blocks, n: nat, phase: nat, t: int)
    requires WellFormed(b, n)
    ensures Counts(Phase(b, phase), t) == CountPhase(Counts(b, t), n, phase)
  {
    forall r | 0 <= r < |b|
      ensures CountGe(Exchanged(b, phase, r), t) == ExchangedCount(Counts(b, t), n, phase, r)
    {
      PhaseCount(b, n, phase, t, r);
    }
  }

  lemma {:induction false} LockstepCounts(b: Blocks, n: nat, phases: nat, t: int)
    requires WellFormed(b, n)
    ensures Counts(Lockstep(b, phases), t) == CountRun(Counts(b, t), n, phases)
  {
    if phases > 0 {
      var h, b1 := phases - 1, Lockstep(b, phases - 1);
      assert Counts(Phase(b1, h), t) == CountPhase(Counts(b1, t), n, h) by {
        LockstepWellFormed(b, n, h);
        PhaseCounts(b1, n, h, t);
      }
      LockstepCounts(b, n, h, t);
    }
  }

  // Settled counts at the threshold b[i][x] fill every later block.
  lemma SettledOrder(b: Blocks, n: nat, i: nat, j: nat, x: nat, y: nat)
    requires WellFormed(b, n) && i < j < |b| && x < n && y < n
    requires Settled(Counts(b, b[i][x]), n)
    ensures b[i][x] <= b[j][y]
  {
    var t := b[i][x];
    var c := Counts(b, t);
    CountGeLocates(b[i], t);
    assert c[i] > 0 && Suffix(c, i) == c[i] + Suffix(c, i + 1);
    SuffixCapacity(c, n, i);
    PrefixCapacity(c, n, i);
    FullSuffix(c, n, i + 1, j);
    CountGeLocates(b[j], t);
    assert c[j] == n;
  }

  lemma {:induction false} FlattenSorted(b: Blocks, n: nat)
    requires WellFormed(b, n)
    requires forall i, j, x, y :: 0 <= i < j < |b| && 0 <= x < n && 0 <= y < n ==> b[i][x] <= b[j][y]
    ensures Sorted(Flatten(b))
  {
    if b != [] {
      var rest := b[1..];
      FlattenSorted(rest, n);
      forall x, z | 0 <= x < n && 0 <= z < |Flatten(rest)|
        ensures b[0][x] <= Flatten(rest)[z]
      {
        var j, y := FlattenIndex(rest, n, z);
        assert rest[j] == b[j + 1];
      }
    }
  }

  // Position z of the concatenation is element y of block j.
  lemma {:induction false} FlattenIndex(b: Blocks, n: nat, z: nat) returns (j: nat, y: nat)
    requires WellFormed(b, n) && z < |Flatten(b)|
    ensures j < |b| && y < n && Flatten(b)[z] == b[j][y]
  {
    if z < |b[0]| {
      j, y := 0, z;
    } else {
      j, y := FlattenIndex(b[1..], n, z - |b[0]|);
      j := j + 1;
    }
  }

  lemma {:induction false} FlattenCounts(b: Blocks, t: int)
    ensures CountGe(Flatten(b), t) == Suffix(Counts(b, t), 0)
  {
    if b != [] {
      var c := Counts(b, t);
      FlattenCounts(b[1..], t);
      CountGeConcat(b[0], Flatten(b[1..]), t);
      assert Counts(b[1..], t) == c[1..];
      SuffixOfTail(c, 0);
    }
  }

  // For every P and every block length the phases permute the elements ...
  lemma LockstepPermutes(b: Blocks, n: nat, phases: nat)
    requires WellFormed(b, n)
    ensures multiset(Flatten(Lockstep(b, phases))) == multiset(Flatten(b))
  {
    var b' := Lockstep(b, phases);
    forall t ensures CountGe(Flatten(b'), t) == CountGe(Flatten(b), t) {
      FlattenCounts(b', t);
      FlattenCounts(b, t);
      LockstepCounts(b, n, phases, t);
      RunKeepsTotal(Counts(b, t), n, phases);
    }
    CountsDetermineContents(Flatten(b'), Flatten(b));
  }

  // ... and for even P they leave them sorted.
  lemma EvenProcessCountSorts(b: Blocks, n: nat)
    requires WellFormed(b, n) && |b| % 2 == 0
    ensures Sorted(Flatten(Lockstep(b, PhasesRun(|b|))))
  {
    var h := PhasesRun(|b|);
    LockstepWellFormed(b, n, h);
    RunSorts(b, n, h, Lockstep(b, h));
  }

  lemma RunSorts(b: Blocks, n: nat, h: nat, b': Blocks)
    requires WellFormed(b, n) && |b| % 2 == 0 && h == |b|
    requires WellFormed(b', n) && b' == Lockstep(b, h)
    ensures Sorted(Flatten(b'))
  {
    forall i, j, x, y | 0 <= i < j < |b'| && 0 <= x < n && 0 <= y < n
      ensures b'[i][x] <= b'[j][y]
    {
      RunOrders(b, n, h, b', i, j, x, y);
    }
    FlattenSorted(b', n);
  }

  lemma RunOrders(b: Blocks, n: nat, h: nat, b': Blocks, i: nat, j: nat, x: nat, y: nat)
    requires WellFormed(b, n) && |b| % 2 == 0 && h == |b|
    requires WellFormed(b', n) && b' == Lockstep(b, h)
    requires i < j < |b'| && x < n && y < n
    ensures b'[i][x] <= b'[j][y]
  {
    var t := b'[i][x];
    LockstepCounts(b, n, h, t);
    EvenRunSettles(Counts(b, t), n, h);
    SettledOrder(b', n, i, j, x, y);
  }

  // For odd P the loop has one phase too few: a block of ones that starts at
  // rank 0 is still one place short of the last rank.
  ghost function OnesFirst(p: nat, n: nat): Blocks {
    seq(p, r => seq(n, i => if r == 0 then 1 else 0))
  }

  lemma OnesFirstCounts(p: nat, n: nat)
    ensures WellFormed(OnesFirst(p, n), n)
    ensures Counts(OnesFirst(p, n), 1) == FirstFull(p, n)
  {
    var b := OnesFirst(p, n);
    forall r | 0 <= r < p ensures CountGe(b[r], 1) == if r == 0 then n else 0 {
      CountGeLocates(b[r], 1);
      if n > 0 {
        assert b[r][0] == b[r][n - 1] == if r == 0 then 1 else 0;
      }
    }
  }

  lemma OddProcessCountFails(p: nat, n: nat)
    requires p % 2 == 1 && p >= 3 && n >= 1
    ensures WellFormed(OnesFirst(p, n), n)
    ensures !Sorted(Flatten(Lockstep(OnesFirst(p, n), PhasesRun(p))))
  {
    OnesFirstCounts(p, n);
    LastStaysEmpty(p, n);
    var b' := Lockstep(OnesFirst(p, n), p - 1);
    LockstepCounts(OnesFirst(p, n), n, p - 1, 1);
    LockstepWellFormed(OnesFirst(p, n), n, p - 1);
    LowLastBlock(b', n, Counts(b', 1));
  }

  // Something at least 1 is there, but none of it in the last block.
  lemma LowLastBlock(b: Blocks, n: nat, c: seq<int>)
    requires WellFormed(b, n) && b != [] && n > 0 && c == Counts(b, 1)
    requires c[|b| - 1] == 0 && Suffix(c, 0) > 0
    ensures !Sorted(Flatten(b))
  {
    FlattenCounts(b, 1);
    FlattenLast(b, n);
    CountGeLocates(b[|b| - 1], 1);
    if Sorted(Flatten(b)) {
      CountGeLocates(Flatten(b), 1);
    }
  }

  lemma {:induction false} FlattenLast(b: Blocks, n: nat)
    requires WellFormed(b, n) && b != [] && n > 0
    ensures |Flatten(b)| > 0 && Flatten(b)[|Flatten(b)| - 1] == b[|b| - 1][n - 1]
  {
    if |b| > 1 {
      FlattenLast(b[1..], n);
    }
  }

  // What the program leaves, all blocks one after another.
  function Program(b: Blocks): seq<int> {
    Flatten(Lockstep(b, PhasesRun(|b|)))
  }

  ghost predicate SortsEvery(p: nat, n: nat) {
    forall b: Blocks :: |b| == p && WellFormed(b, n) ==> Sorted(Program(b))
  }

  // The exact condition on the number of processes under which the program
  // sorts whatever it is given.
  lemma SortsExactlyWhen(p: nat, n: nat)
    requires n >= 1
    ensures SortsEvery(p, n) <==> p % 2 == 0 || p == 1
  {
    if p % 2 == 0 {
      forall b: Blocks | |b| == p && WellFormed(b, n) ensures Sorted(Program(b)) {
        EvenProcessCountSorts(b, n);
      }
    } else if p == 1 {
      forall b: Blocks | |b| == p && WellFormed(b, n) ensures Sorted(Program(b)) {
        FlattenSorted(b, n);
      }
    } else {
      OddProcessCountFails(p, n);
      assert !Sorted(Program(OnesFirst(p, n)));
    }
  }
}
