// Sorted integer blocks, counted by threshold. A block is described, for every
// threshold t, by how many of its elements are at least t; a sorted block is
// determined by these counts, and so is the merge of two blocks.
module SortedBlocks {

  predicate Sorted(s: seq<int>) {
    forall i, j :: 0 <= i < j < |s| ==> s[i] <= s[j]
  }

  lemma {:induction false} SortedStepwise(s: seq<int>)
    ensures Sorted(s) <==> forall i :: 0 <= i < |s| - 1 ==> Follows(s, i)
  {
    if |s| > 1 {
      var front := s[..|s| - 1];
      SortedStepwise(front);
      if forall i :: 0 <= i < |s| - 1 ==> Follows(s, i) {
        forall i | 0 <= i < |front| - 1 ensures Follows(front, i) {
          assert Follows(s, i);
        }
        assert Follows(s, |s| - 2);
        assert forall i :: 0 <= i < |front| ==> front[i] == s[i] && front[i] <= front[|front| - 1];
      }
      if Sorted(s) {
        assert forall i :: 0 <= i < |s| - 1 ==> Follows(s, i);
      }
    }
  }

  predicate Follows(s: seq<int>, i: int)
    requires 0 <= i < |s| - 1
  {
    s[i] <= s[i + 1]
  }

  function CountGe(s: seq<int>, t: int): (c: nat)
    ensures c <= |s|
  {
    if s == [] then 0 else (if s[0] >= t then 1 else 0) + CountGe(s[1..], t)
  }

  function Min(a: int, b: int): int { if a <= b then a else b }

  function Max(a: int, b: int): int { if a <= b then b else a }

  // The merge that compare_accum performs from the front: on a tie the
  // received element (the second list) is taken.
  function Merge(a: seq<int>, b: seq<int>): (m: seq<int>)
    ensures |m| == |a| + |b|
  {
    if a == [] then b
    else if b == [] then a
    else if a[0] < b[0] then [a[0]] + Merge(a[1..], b)
    else [b[0]] + Merge(a, b[1..])
  }

  lemma {:induction false} CountGeConcat(a: seq<int>, b: seq<int>, t: int)
    ensures CountGe(a + b, t) == CountGe(a, t) + CountGe(b, t)
  {
    if a == [] {
      assert a + b == b;
    } else {
      assert (a + b)[1..] == a[1..] + b;
      CountGeConcat(a[1..], b, t);
    }
  }

  // In a sorted list the elements at least t are exactly the last CountGe ones.
  lemma {:induction false} CountGeLocates(s: seq<int>, t: int)
    requires Sorted(s)
    ensures forall i :: 0 <= i < |s| ==> (s[i] >= t <==> i >= |s| - CountGe(s, t))
  {
    if s != [] {
      CountGeLocates(s[1..], t);
      assert forall i :: 0 < i < |s| ==> s[i] == s[1..][i - 1];
      if s[0] >= t && |s| > 1 {
        assert s[1..][0] >= t;
      }
    }
  }

  lemma {:induction false} MergeCounts(a: seq<int>, b: seq<int>, t: int)
    ensures CountGe(Merge(a, b), t) == CountGe(a, t) + CountGe(b, t)
    decreases |a| + |b|
  {
    if a != [] && b != [] {
      if a[0] < b[0] {
        MergeCounts(a[1..], b, t);
        CountGeConcat([a[0]], Merge(a[1..], b), t);
      } else {
        MergeCounts(a, b[1..], t);
        CountGeConcat([b[0]], Merge(a, b[1..]), t);
      }
    }
  }

  lemma {:induction false} MergeSorted(a: seq<int>, b: seq<int>)
    requires Sorted(a) && Sorted(b)
    ensures Sorted(Merge(a, b))
    ensures Merge(a, b) != [] ==>
      Merge(a, b)[0] == if a == [] then b[0] else if b == [] then a[0] else Min(a[0], b[0])
    decreases |a| + |b|
  {
    if a != [] && b != [] {
      if a[0] < b[0] {
        MergeSorted(a[1..], b);
      } else {
        MergeSorted(a, b[1..]);
      }
    }
  }

  // The same merge seen from the back, which is how the upper partner runs it:
  // on a tie the element of its own block is the last one.
  lemma {:induction false} MergeOwnLast(other: seq<int>, own: seq<int>, y: int)
    requires Sorted(other) && forall i :: 0 <= i < |other| ==> other[i] <= y
    ensures Merge(other, own + [y]) == Merge(other, own) + [y]
    decreases |other| + |own|
  {
    if other == [] {
    } else if own == [] {
      assert own + [y] == [y];
      if other[0] < y {
        MergeOwnLast(other[1..], own, y);
      } else {
        assert forall i :: 0 <= i < |other| ==> other[i] == y;
        assert [y] + other == other + [y];
      }
    } else if other[0] < own[0] {
      MergeOwnLast(other[1..], own, y);
    } else {
      MergeOwnLast(other, own[1..], y);
      assert (own + [y])[1..] == own[1..] + [y];
    }
  }

  lemma {:induction false} MergeOtherLast(other: seq<int>, own: seq<int>, x: int)
    requires forall i :: 0 <= i < |own| ==> own[i] < x
    ensures Merge(other + [x], own) == Merge(other, own) + [x]
    decreases |other| + |own|
  {
    if own == [] {
    } else if other == [] {
      assert other + [x] == [x];
      MergeOtherLast(other, own[1..], x);
    } else if other[0] < own[0] {
      MergeOtherLast(other[1..], own, x);
      assert (other + [x])[1..] == other[1..] + [x];
    } else {
      MergeOtherLast(other, own[1..], x);
    }
  }

  // The smaller half of a sorted list has elements at least t only if all of the
  // larger half are.
  lemma UpperFirst(lo: seq<int>, hi: seq<int>, t: int)
    requires Sorted(lo) && Sorted(hi) && (lo != [] && hi != [] ==> lo[|lo| - 1] <= hi[0])
    ensures CountGe(lo, t) == 0 || CountGe(hi, t) == |hi|
  {
    CountGeLocates(lo, t);
    CountGeLocates(hi, t);
    if CountGe(lo, t) > 0 && hi != [] {
      assert lo[|lo| - 1] >= t && hi[0] >= t;
    }
  }

  // Halving a sorted list of 2n elements: the counts of the two halves.
  lemma HalvesCount(m: seq<int>, n: nat, t: int)
    requires Sorted(m) && |m| == 2 * n
    ensures CountGe(m[n..], t) == Min(n, CountGe(m, t))
    ensures CountGe(m[..n], t) == Max(0, CountGe(m, t) - n)
  {
    var lo, hi := m[..n], m[n..];
    assert m == lo + hi;
    CountGeConcat(lo, hi, t);
    UpperFirst(lo, hi, t);
  }

  // Equal counts at every threshold mean equal contents.
  lemma {:induction false} CountOfValue(s: seq<int>, v: int)
    ensures multiset(s)[v] == CountGe(s, v) - CountGe(s, v + 1)
  {
    if s != [] {
      CountOfValue(s[1..], v);
      assert s == [s[0]] + s[1..];
    }
  }

  lemma CountsDetermineContents(a: seq<int>, b: seq<int>)
    requires forall t :: CountGe(a, t) == CountGe(b, t)
    ensures multiset(a) == multiset(b)
  {
    forall v ensures multiset(a)[v] == multiset(b)[v] {
      CountOfValue(a, v);
      CountOfValue(b, v);
    }
  }
}

// One exchange of the sort: compare_accum on the arrays of one process.
module CompareAccumulate {
  import opened SortedBlocks

  // What the lower and the upper partner keep of its own block and the block
  // it received.
  function KeepSmall(own: seq<int>, recv: seq<int>): seq<int> {
    Merge(own, recv)[..|own|]
  }

  function KeepLarge(own: seq<int>, recv: seq<int>): seq<int> {
    Merge(recv, own)[|recv|..]
  }

  // The upper half of the workspace holds the received block.
  method CompareAccum(nlocal: nat, elements: array<int>, workspace: array<int>, keepsmall: bool)
    requires elements.Length == nlocal && workspace.Length == 2 * nlocal
    requires elements != workspace
    requires Sorted(elements[..]) && Sorted(workspace[nlocal..])
    modifies elements, workspace
    ensures workspace[nlocal..] == old(workspace[nlocal..])
    ensures elements[..] ==
      if keepsmall then KeepSmall(old(elements[..]), old(workspace[nlocal..]))
      else KeepLarge(old(elements[..]), old(workspace[nlocal..]))
  {
    forall x | 0 <= x < nlocal {
      workspace[x] := elements[x];
    }
    assert workspace[..nlocal] == old(elements[..]);
    assert workspace[nlocal..] == old(workspace[nlocal..]);
    ghost var own, recv := workspace[..nlocal], workspace[nlocal..];
    if keepsmall {
      forall i: nat, j: nat | i < nlocal && j < nlocal ensures FrontLaw(Ahead(own, recv), own, recv, i, j) {
        FrontStep(own, recv, i, j);
      }
      assert recv[0..] == recv && own[0..] == own;
      FillFromFront(nlocal, elements, workspace, Ahead(own, recv));
    } else {
      forall i: nat, j: nat | i < nlocal && j < nlocal ensures BackLaw(Waiting(own, recv), own, recv, i, j) {
        BackStep(own, recv, i, j);
      }
      assert recv[..nlocal] == recv && own[..nlocal] == own;
      FillFromBack(nlocal, elements, workspace, Waiting(own, recv));
    }
  }

  // The loop from the front, for any function `rest` of the two suffixes still
  // to be merged that obeys the law of the first element.
  method FillFromFront(nlocal: nat, elements: array<int>, workspace: array<int>,
                       ghost rest: (nat, nat) -> seq<int>)
    requires elements.Length == nlocal && workspace.Length == 2 * nlocal
    requires elements != workspace && |rest(0, 0)| == 2 * nlocal
    requires forall i: nat, j: nat :: i < nlocal && j < nlocal ==>
      FrontLaw(rest, workspace[..nlocal], workspace[nlocal..], i, j)
    modifies elements
    ensures elements[..] == rest(0, 0)[..nlocal]
  {
    ghost var own, recv := workspace[..nlocal], workspace[nlocal..];
    ghost var merged := rest(0, 0);
    var i, j := 0, nlocal;
    for k := 0 to nlocal
      invariant i + (j - nlocal) == k && 0 <= i && nlocal <= j
      invariant rest(i, j - nlocal) == merged[k..]
      invariant forall x :: 0 <= x < k ==> elements[x] == merged[x]
    {
      assert FrontLaw(rest, own, recv, i, j - nlocal);
      assert merged[k..] == [merged[k]] + merged[k + 1..];
      if workspace[i] < workspace[j] {
        elements[k] := workspace[i];
        i := i + 1;
      } else {
        elements[k] := workspace[j];
        j := j + 1;
      }
    }
    assert elements[..] == merged[..nlocal];
  }

  ghost function Ahead(own: seq<int>, recv: seq<int>): (nat, nat) -> seq<int> {
    (i: nat, j: nat) => if i <= |own| && j <= |recv| then Merge(own[i..], recv[j..]) else []
  }

  ghost predicate FrontLaw(rest: (nat, nat) -> seq<int>, own: seq<int>, recv: seq<int>, i: nat, j: nat)
    requires i < |own| && j < |recv|
  {
    rest(i, j) ==
      if own[i] < recv[j] then [own[i]] + rest(i + 1, j) else [recv[j]] + rest(i, j + 1)
  }

  lemma FrontStep(own: seq<int>, recv: seq<int>, i: nat, j: nat)
    requires i < |own| && j < |recv|
    ensures FrontLaw(Ahead(own, recv), own, recv, i, j)
  {
    assert own[i..][1..] == own[i + 1..] && recv[j..][1..] == recv[j + 1..];
  }

  // The loop from the back, for any function `rest` of the two prefixes that
  // still wait to be merged, as long as it obeys the law of the last element.
  method FillFromBack(nlocal: nat, elements: array<int>, workspace: array<int>,
                      ghost rest: (nat, nat) -> seq<int>)
    requires elements.Length == nlocal && workspace.Length == 2 * nlocal
    requires elements != workspace && |rest(nlocal, nlocal)| == 2 * nlocal
    requires forall i: nat, j: nat :: i < nlocal && j < nlocal ==>
      BackLaw(rest, workspace[..nlocal], workspace[nlocal..], i, j)
    modifies elements
    ensures elements[..] == rest(nlocal, nlocal)[nlocal..]
  {
    ghost var own, recv := workspace[..nlocal], workspace[nlocal..];
    ghost var merged := rest(nlocal, nlocal);
    var i, j := nlocal - 1, 2 * nlocal - 1;
    var k := i;
    while k >= 0
      invariant -1 <= k <= i < nlocal && nlocal + k <= j < 2 * nlocal
      invariant (nlocal - 1 - i) + (2 * nlocal - 1 - j) == nlocal - 1 - k
      invariant rest(i + 1, j - nlocal + 1) == merged[..nlocal + k + 1]
      invariant forall x :: k < x < nlocal ==> elements[x] == merged[nlocal + x]
    {
      assert BackLaw(rest, own, recv, i, j - nlocal);
      LastOf(merged, nlocal + k);
      if workspace[i] >= workspace[j] {
        elements[k] := workspace[i];
        i := i - 1;
      } else {
        elements[k] := workspace[j];
        j := j - 1;
      }
      k := k - 1;
    }
    assert elements[..] == merged[nlocal..];
  }

  lemma LastOf(s: seq<int>, h: nat)
    requires h < |s|
    ensures forall p, x :: s[..h + 1] == p + [x] ==> p == s[..h] && x == s[h]
  {
    forall p, x | s[..h + 1] == p + [x] ensures p == s[..h] && x == s[h] {
      assert s[..h + 1][h] == x;
      assert (p + [x])[..h] == p;
    }
  }

  ghost function Waiting(own: seq<int>, recv: seq<int>): (nat, nat) -> seq<int> {
    (i: nat, j: nat) => if i <= |own| && j <= |recv| then Merge(recv[..j], own[..i]) else []
  }

  ghost predicate BackLaw(rest: (nat, nat) -> seq<int>, own: seq<int>, recv: seq<int>, i: nat, j: nat)
    requires i < |own| && j < |recv|
  {
    rest(i + 1, j + 1) ==
      if own[i] >= recv[j] then rest(i, j + 1) + [own[i]] else rest(i + 1, j) + [recv[j]]
  }

  lemma BackStep(own: seq<int>, recv: seq<int>, i: nat, j: nat)
    requires Sorted(recv) && Sorted(own) && j < |recv| && i < |own|
    ensures BackLaw(Waiting(own, recv), own, recv, i, j)
  {
    assert own[..i + 1] == own[..i] + [own[i]];
    assert recv[..j + 1] == recv[..j] + [recv[j]];
    if own[i] >= recv[j] {
      MergeOwnLast(recv[..j + 1], own[..i], own[i]);
    } else {
      MergeOtherLast(recv[..j], own[..i + 1], recv[j]);
    }
  }

  // What an exchange does to the counts: the upper partner fills up first, and
  // both results are sorted again.
  lemma ExchangeCounts(lo: seq<int>, hi: seq<int>, t: int)
    requires Sorted(lo) && Sorted(hi) && |lo| == |hi|
    ensures Sorted(KeepSmall(lo, hi)) && Sorted(KeepLarge(hi, lo))
    ensures |KeepSmall(lo, hi)| == |lo| && |KeepLarge(hi, lo)| == |lo|
    ensures CountGe(KeepLarge(hi, lo), t) == Min(|lo|, CountGe(lo, t) + CountGe(hi, t))
    ensures CountGe(KeepSmall(lo, hi), t) == Max(0, CountGe(lo, t) + CountGe(hi, t) - |lo|)
  {
    MergeSorted(lo, hi);
    MergeCounts(lo, hi, t);
    HalvesCount(Merge(lo, hi), |lo|, t);
  }
}
