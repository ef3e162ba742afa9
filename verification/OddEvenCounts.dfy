// The count abstraction of the odd-even sort. For a threshold, each process is
// the number of its elements at or above it; a phase moves these counts between
// partners, and what a whole run does to them is elementary arithmetic.
module OddEvenCounts {
  import opened SortedBlocks

  // even_rank in the even phases, odd_rank in the odd ones; a value outside
  // 0..P-1 means that the process sits this phase out.
  function Partner(r: nat, phase: nat): int {
    if phase % 2 == 0 then (if r % 2 == 1 then r + 1 else r - 1)
    else (if r % 2 == 1 then r - 1 else r + 1)
  }

  // The even phases pair ranks 1 and 2, 3 and 4, ... and the odd ones 0 and 1, 2 and 3,
  // ...
  lemma PartnersAre(i: nat, h: nat)
    ensures Partner(2 * i + 1, 2 * h) == 2 * i + 2 && Partner(2 * i + 2, 2 * h) == 2 * i + 1
    ensures Partner(2 * i, 2 * h + 1) == 2 * i + 1 && Partner(2 * i + 1, 2 * h + 1) == 2 * i
    ensures Partner(0, 2 * h) == -1
  {
  }

  // The program's main loop runs P / 2 iterations of two phases.
  function PhasesRun(p: nat): nat { 2 * (p / 2) }

  // A phase on the counts: in every pair the upper partner fills up first.
  ghost function ExchangedCount(c: seq<int>, n: nat, phase: nat, r: nat): int
    requires r < |c|
  {
    var q := Partner(r, phase);
    if q < 0 || q >= |c| then c[r]
    else if r < q then Max(0, c[r] + c[q] - n)
    else Min(n, c[r] + c[q])
  }

  ghost function CountPhase(c: seq<int>, n: nat, phase: nat): seq<int> {
    seq(|c|, r requires 0 <= r < |c| => ExchangedCount(c, n, phase, r))
  }

  ghost function CountRun(c: seq<int>, n: nat, phases: nat): (c': seq<int>)
    ensures |c'| == |c|
  {
    if phases == 0 then c else CountPhase(CountRun(c, n, phases - 1), n, phases - 1)
  }

  ghost predicate WithinCapacity(c: seq<int>, n: nat) {
    forall r :: 0 <= r < |c| ==> 0 <= c[r] <= n
  }

  // How many elements of blocks k, k+1, ... are at least the threshold.
  ghost function Suffix(c: seq<int>, k: nat): int
    decreases |c| - k
  {
    if k >= |c| then 0 else c[k] + Suffix(c, k + 1)
  }

  // Boundary k separates blocks 0..k-1 from the rest; the phase moves elements
  // across it only when k-1 and k are partners.
  predicate Active(k: nat, phase: nat) { (k + phase) % 2 == 0 }

  lemma {:induction false} InactiveBoundary(c: seq<int>, n: nat, phase: nat, k: nat)
    requires !Active(k, phase)
    ensures Suffix(CountPhase(c, n, phase), k) == Suffix(c, k)
    decreases |c| - k
  {
    var c' := CountPhase(c, n, phase);
    if k + 1 < |c| {
      InactiveBoundary(c, n, phase, k + 2);
      assert Partner(k, phase) == k + 1 && Partner(k + 1, phase) == k;
      assert c'[k] + c'[k + 1] == c[k] + c[k + 1];
    } else if k < |c| {
      assert Partner(k, phase) == k + 1 && c'[k] == c[k];
    }
  }

  // The law of one phase: the suffix counts evolve by a minimum of sums.
  lemma ActiveBoundary(c: seq<int>, n: nat, phase: nat, k: nat)
    requires Active(k, phase) && 0 < k < |c|
    ensures Suffix(CountPhase(c, n, phase), k) == Min(Suffix(c, k - 1), Suffix(c, k + 1) + n)
  {
    InactiveBoundary(c, n, phase, k + 1);
    assert Partner(k, phase) == k - 1;
    assert Suffix(c, k - 1) == c[k - 1] + c[k] + Suffix(c, k + 1);
  }

  lemma TotalKept(c: seq<int>, n: nat, phase: nat)
    ensures Suffix(CountPhase(c, n, phase), 0) == Suffix(c, 0)
  {
    if Active(0, phase) && c != [] {
      InactiveBoundary(c, n, phase, 1);
      assert Partner(0, phase) == -1;
    } else if c != [] {
      InactiveBoundary(c, n, phase, 0);
    }
  }

  lemma {:induction false} RunKeepsTotal(c: seq<int>, n: nat, phases: nat)
    ensures Suffix(CountRun(c, n, phases), 0) == Suffix(c, 0)
  {
    if phases > 0 {
      RunKeepsTotal(c, n, phases - 1);
      TotalKept(CountRun(c, n, phases - 1), n, phases - 1);
    }
  }

  lemma {:induction false} RunWithinCapacity(c: seq<int>, n: nat, phases: nat)
    requires WithinCapacity(c, n)
    ensures WithinCapacity(CountRun(c, n, phases), n)
  {
    if phases > 0 {
      RunWithinCapacity(c, n, phases - 1);
    }
  }

  // No suffix of blocks holds more than its capacity, and at most n*k elements
  // are missing from the suffix at k.
  lemma {:induction false} SuffixCapacity(c: seq<int>, n: nat, k: nat)
    requires WithinCapacity(c, n) && k <= |c|
    ensures 0 <= Suffix(c, k) <= n * (|c| - k)
    decreases |c| - k
  {
    if k < |c| {
      SuffixCapacity(c, n, k + 1);
      assert n * (|c| - k) == n * (|c| - k - 1) + n;
    }
  }

  lemma {:induction false} PrefixCapacity(c: seq<int>, n: nat, k: nat)
    requires WithinCapacity(c, n) && k <= |c|
    ensures Suffix(c, k) <= Suffix(c, 0) <= Suffix(c, k) + n * k
  {
    if k > 0 {
      PrefixCapacity(c, n, k - 1);
      assert n * k == n * (k - 1) + n;
    }
  }

  lemma RunStep(c: seq<int>, n: nat, h: nat, k: nat)
    requires 0 < k < |c|
    ensures Suffix(CountRun(c, n, h + 1), k) ==
      var now := CountRun(c, n, h);
      if Active(k, h) then Min(Suffix(now, k - 1), Suffix(now, k + 1) + n) else Suffix(now, k)
  {
    var now := CountRun(c, n, h);
    if Active(k, h) {
      ActiveBoundary(now, n, h, k);
    } else {
      InactiveBoundary(now, n, h, k);
    }
  }

  // The suffix counts of a whole run, apart from the blocks: s(h, k) is the
  // count at boundary k after h phases.
  ghost predicate StartLaw(s: (nat, nat) -> int, n: nat, m: int, k: nat) {
    s(0, k) >= Max(0, m - n * k)
  }

  ghost predicate EdgeLaw(s: (nat, nat) -> int, p: nat, m: int, h: nat) {
    s(h, 0) == m && s(h, p) >= 0
  }

  ghost predicate StepLaw(s: (nat, nat) -> int, n: nat, h: nat, k: nat)
    requires k > 0
  {
    s(h + 1, k) == if Active(k, h) then Min(s(h, k - 1), s(h, k + 1) + n) else s(h, k)
  }

  ghost predicate Evolves(s: (nat, nat) -> int, n: nat, p: nat, m: int) {
    && (forall k: nat :: k <= p ==> StartLaw(s, n, m, k))
    && (forall h: nat :: EdgeLaw(s, p, m, h))
    && (forall h: nat, k: nat :: 0 < k < p ==> StepLaw(s, n, h, k))
  }

  ghost function History(c: seq<int>, n: nat): (nat, nat) -> int {
    (h: nat, k: nat) => Suffix(CountRun(c, n, h), k)
  }

  lemma HistoryStarts(c: seq<int>, n: nat, k: nat)
    requires WithinCapacity(c, n) && k <= |c|
    ensures StartLaw(History(c, n), n, Suffix(c, 0), k)
  {
    PrefixCapacity(c, n, k);
    SuffixCapacity(c, n, k);
  }

  lemma HistoryEdges(c: seq<int>, n: nat, h: nat)
    ensures EdgeLaw(History(c, n), |c|, Suffix(c, 0), h)
  {
    RunKeepsTotal(c, n, h);
  }

  lemma HistorySteps(c: seq<int>, n: nat, h: nat, k: nat)
    requires 0 < k < |c|
    ensures StepLaw(History(c, n), n, h, k)
  {
    RunStep(c, n, h, k);
  }

  lemma HistoryEvolves(c: seq<int>, n: nat, s: (nat, nat) -> int, m: int)
    requires WithinCapacity(c, n) && s == History(c, n) && m == Suffix(c, 0)
    ensures Evolves(s, n, |c|, m)
  {
    forall k: nat | k <= |c| ensures StartLaw(s, n, m, k) {
      HistoryStarts(c, n, k);
    }
    forall h: nat ensures EdgeLaw(s, |c|, m, h) {
      HistoryEdges(c, n, h);
    }
    forall h: nat, k: nat | 0 < k < |c| ensures StepLaw(s, n, h, k) {
      HistorySteps(c, n, h, k);
    }
  }

  // How many of the first `phases` phases moved elements across boundary k.
  // The two neighbours of an active boundary were active one phase before it.
  function ActivePhases(k: nat, phases: nat): nat {
    if phases > 0 && Active(k, phases - 1) then phases
    else if phases > 0 then phases - 1 else 0
  }

  // The lower bound that grows with every phase. With d = 0 and enough phases
  // it says that the suffix at k is full, or holds everything there is.
  function Bound(n: nat, p: nat, m: int, phases: nat, k: nat, d: nat): int {
    Min(m - n * d, n * Min(ActivePhases(k, phases) - k + d + 1, p - k))
  }

  lemma {:induction false} Advances(
    s: (nat, nat) -> int, n: nat, p: nat, m: int, phases: nat, k: nat, d: nat)
    requires Evolves(s, n, p, m) && k <= p
    ensures s(phases, k) >= Bound(n, p, m, phases, k, d)
    decreases phases
  {
    if k == 0 || k == p || phases == 0 {
      AdvancesAtEdge(s, n, p, m, phases, k, d);
    } else {
      var h := phases - 1;
      assert StepLaw(s, n, h, k);
      if Active(k, h) {
        Advances(s, n, p, m, h, k - 1, d);
        Advances(s, n, p, m, h, k + 1, d + 1);
        ActiveStepBound(n, p, m, k, d, phases);
      } else {
        Advances(s, n, p, m, h, k, d);
      }
    }
  }

  lemma AdvancesAtEdge(s: (nat, nat) -> int, n: nat, p: nat, m: int, phases: nat, k: nat, d: nat)
    requires Evolves(s, n, p, m) && k <= p && (k == 0 || k == p || phases == 0)
    ensures s(phases, k) >= Bound(n, p, m, phases, k, d)
  {
    assert EdgeLaw(s, p, m, phases);
    if k == 0 {
      assert n * d >= 0;
    } else if k < p && d >= k {
      assert StartLaw(s, n, m, k);
      MultiplyMonotone(n, k, d);
    } else {
      assert k < p ==> StartLaw(s, n, m, k);
      MultiplyMonotone(n, Min(ActivePhases(k, phases) - k + d + 1, p - k), 0);
    }
  }

  lemma MultiplyMonotone(n: nat, x: int, y: int)
    requires x <= y
    ensures n * x <= n * y
  {
  }

  // The arithmetic of one active step: both neighbours' bounds carry over.
  lemma ActiveStepBound(n: nat, p: nat, m: int, k: nat, d: nat, phases: nat)
    requires 0 < k < p && phases > 0 && Active(k, phases - 1)
    ensures Bound(n, p, m, phases - 1, k - 1, d) >= Bound(n, p, m, phases, k, d)
    ensures Bound(n, p, m, phases - 1, k + 1, d + 1) + n == Bound(n, p, m, phases, k, d)
  {
    var h := phases - 1;
    assert ActivePhases(k, phases) == phases;
    assert ActivePhases(k - 1, h) == h && ActivePhases(k + 1, h) == h;
    var x, y, z := Min(h - (k - 1) + d + 1, p - (k - 1)), Min(h - (k + 1) + (d + 1) + 1, p - (k + 1)),
                   Min(phases - k + d + 1, p - k);
    assert z <= x && z == y + 1;
    MultiplyMonotone(n, z, x);
    MultiplySuccessor(n, y);
    MultiplySuccessor(n, d);
    assert Bound(n, p, m, phases, k, d) == Min(m - n * d, n * z);
    assert Bound(n, p, m, h, k - 1, d) == Min(m - n * d, n * x);
    assert Bound(n, p, m, h, k + 1, d + 1) == Min(m - n * (d + 1), n * y);
    LowerOfTwo(n, m - n * d, n * x, n * y, n * z);
  }

  lemma LowerOfTwo(n: nat, rest: int, nx: int, ny: int, nz: int)
    requires nz <= nx && nz == ny + n
    ensures Min(rest, nx) >= Min(rest, nz) && Min(rest - n, ny) + n == Min(rest, nz)
  {
  }

  lemma MultiplySuccessor(n: nat, x: int)
    ensures n * (x + 1) == n * x + n
  {
  }

  // Every suffix of blocks is full, or holds everything there is.
  ghost predicate Settled(c: seq<int>, n: nat) {
    forall k: nat :: k <= |c| ==> Suffix(c, k) == Min(Suffix(c, 0), n * (|c| - k))
  }

  // After P phases with P even the counts have settled.
  lemma SuffixSettles(c: seq<int>, n: nat, p: nat, m: int, k: nat)
    requires WithinCapacity(c, n) && |c| == p && p % 2 == 0 && k <= p && m == Suffix(c, 0)
    ensures k <= |CountRun(c, n, p)| && Suffix(CountRun(c, n, p), k) >= Min(m, n * (p - k))
  {
    HistoryEvolves(c, n, History(c, n), m);
    Advances(History(c, n), n, p, m, p, k, 0);
    assert ActivePhases(k, p) - k + 1 >= p - k;
  }

  lemma EvenRunSettles(c: seq<int>, n: nat, p: nat)
    requires WithinCapacity(c, n) && |c| == p && p % 2 == 0
    ensures Settled(CountRun(c, n, p), n)
  {
    var m := Suffix(c, 0);
    var c' := CountRun(c, n, p);
    RunKeepsTotal(c, n, p);
    RunWithinCapacity(c, n, p);
    forall k: nat | k <= p ensures Suffix(c', k) == Min(m, n * (p - k)) {
      SuffixSettles(c, n, p, m, k);
      SuffixCapacity(c', n, k);
      PrefixCapacity(c', n, k);
    }
  }

  lemma {:induction false} FullSuffix(c: seq<int>, n: nat, k: nat, j: nat)
    requires WithinCapacity(c, n) && k <= j < |c|
    requires Suffix(c, k) == n * (|c| - k)
    ensures c[j] == n
    decreases j - k
  {
    SuffixCapacity(c, n, k + 1);
    assert n * (|c| - k) == n * (|c| - k - 1) + n;
    if k < j {
      FullSuffix(c, n, k + 1, j);
    }
  }

  lemma {:induction false} SuffixOfTail(c: seq<int>, k: nat)
    requires c != []
    ensures Suffix(c[1..], k) == Suffix(c, k + 1)
    decreases |c| - k
  {
    if k + 1 < |c| {
      SuffixOfTail(c, k + 1);
    }
  }

  // One full block at rank 0.
  ghost function FirstFull(p: nat, n: nat): seq<int> {
    seq(p, r => if r == 0 then n else 0)
  }

  lemma {:induction false} FullBlockLags(
    s: (nat, nat) -> int, n: nat, p: nat, m: int, phases: nat, k: nat)
    requires Evolves(s, n, p, m) && forall k: nat :: 1 <= k <= p ==> s(0, k) == 0
    requires Max(1, phases) <= k < p
    ensures s(phases, k) <= 0
    decreases phases
  {
    if phases > 0 {
      var h := phases - 1;
      assert StepLaw(s, n, h, k);
      FullBlockLags(s, n, p, m, h, if Active(k, h) then k - 1 else k);
    }
  }

  lemma {:induction false} EmptyAfterFirst(p: nat, n: nat, k: nat)
    requires 1 <= k <= p
    ensures Suffix(FirstFull(p, n), k) == 0
    decreases p - k
  {
    if k < p {
      EmptyAfterFirst(p, n, k + 1);
    }
  }

  lemma LastSuffixEmpty(p: nat, n: nat)
    requires p >= 2
    ensures Suffix(CountRun(FirstFull(p, n), n, p - 1), p - 1) <= 0
  {
    var c := FirstFull(p, n);
    HistoryEvolves(c, n, History(c, n), Suffix(c, 0));
    forall k: nat | 1 <= k <= p ensures History(c, n)(0, k) == 0 {
      EmptyAfterFirst(p, n, k);
    }
    FullBlockLags(History(c, n), n, p, Suffix(c, 0), p - 1, p - 1);
  }

  lemma LastStaysEmpty(p: nat, n: nat)
    requires p >= 2
    ensures CountRun(FirstFull(p, n), n, p - 1)[p - 1] == 0
    ensures Suffix(CountRun(FirstFull(p, n), n, p - 1), 0) == n
  {
    var c := FirstFull(p, n);
    LastSuffixEmpty(p, n);
    RunWithinCapacity(c, n, p - 1);
    RunKeepsTotal(c, n, p - 1);
    EmptyAfterFirst(p, n, 1);
    var c' := CountRun(c, n, p - 1);
    assert Suffix(c', p - 1) == c'[p - 1] + Suffix(c', p);
  }
}
