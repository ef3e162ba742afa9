// The complement that a negative count creates, on the sorted arguments.
module ListComplement {
  import opened ListAlgebra

  // The ranks from s up to the size, except the arguments.
  function Others(s: int, size: int, args: seq<int>): (o: seq<int>)
    decreases size - s
  {
    if s >= size then [] else (if s in args then [] else [s]) + Others(s + 1, size, args)
  }

  ghost predicate Ascending(args: seq<int>) {
    forall i, j :: 0 <= i < j < |args| ==> args[i] <= args[j]
  }

  ghost predicate InRange(args: seq<int>, size: int) {
    forall i :: 0 <= i < |args| ==> 0 <= args[i] < size
  }

  lemma {:induction false} OthersMeans(s: int, size: int, args: seq<int>)
    ensures forall x :: x in Others(s, size, args) <==> s <= x < size && x !in args
    decreases size - s
  {
    if s < size {
      OthersMeans(s + 1, size, args);
    }
  }

  lemma {:induction false} OthersAscend(s: int, size: int, args: seq<int>, i: nat, j: nat)
    requires i < j < |Others(s, size, args)|
    ensures Others(s, size, args)[i] < Others(s, size, args)[j]
    decreases size - s
  {
    var rest := Others(s + 1, size, args);
    if s in args {
      OthersAscend(s + 1, size, args, i, j);
    } else if i > 0 {
      OthersAscend(s + 1, size, args, i - 1, j - 1);
    } else {
      OthersMeans(s + 1, size, args);
      assert rest[j - 1] in rest;
    }
  }

  // A run of ranks none of which is an argument.
  function Range(s: int, e: int): (r: seq<int>)
    ensures |r| == if s < e then e - s else 0
    decreases e - s
  {
    if s >= e then [] else [s] + Range(s + 1, e)
  }

  lemma {:induction false} RangeThenOthers(s: int, e: int, size: int, args: seq<int>)
    requires s <= e <= size && forall x :: s <= x < e ==> x !in args
    ensures Others(s, size, args) == Range(s, e) + Others(e, size, args)
    decreases e - s
  {
    if s < e {
      RangeThenOthers(s + 1, e, size, args);
    }
  }

  lemma {:induction false} RangeAppend(s: int, e: int)
    requires s <= e
    ensures Range(s, e + 1) == Range(s, e) + [e]
    decreases e - s
  {
    if s < e {
      RangeAppend(s + 1, e);
    } else {
      assert Range(e + 1, e + 1) == [];
    }
  }

  // The inner loops: every rank from s up to e is written.
  method AppendRange(list: seq<int>, s: int, e: int) returns (list': seq<int>, s': int)
    ensures list' == list + Range(s, e)
    ensures s' == if s < e then e else s
  {
    list', s' := list, s;
    while s' < e
      invariant s <= s' && (s' <= e || s' == s) && list' == list + Range(s, s')
      decreases e - s'
    {
      RangeAppend(s, s');
      list' := list' + [s'];
      s' := s' + 1;
    }
  }

  // The loop's variable s after the first i arguments.
  function Cursor(args: seq<int>, i: nat): (s: int)
    requires i <= |args|
    ensures s >= i
  {
    if i == 0 then 0
    else if Cursor(args, i - 1) < args[i - 1] then args[i - 1] + 1 else Cursor(args, i - 1) + 1
  }

  // What the loops have written by then, and what they write in all.
  function WrittenTo(args: seq<int>, i: nat): (w: seq<int>)
    requires i <= |args|
    ensures |w| == Cursor(args, i) - i
  {
    if i == 0 then [] else WrittenTo(args, i - 1) + Range(Cursor(args, i - 1), args[i - 1])
  }

  function Written(size: nat, args: seq<int>): seq<int> {
    WrittenTo(args, |args|) + Range(Cursor(args, |args|), size)
  }

  lemma {:induction false} RangeMeans(s: int, e: int, x: int)
    ensures x in Range(s, e) <==> s <= x < e
    decreases e - s
  {
    if s < e {
      RangeMeans(s + 1, e, x);
    }
  }

  // The rank that the turn of argument j steps over: the argument, or the cursor if that
  // has passed it.
  function SteppedOver(args: seq<int>, j: nat): int
    requires j < |args|
  {
    if Cursor(args, j) < args[j] then args[j] else Cursor(args, j)
  }

  lemma CursorMoves(args: seq<int>, j: nat)
    requires j < |args|
    ensures Cursor(args, 0) == 0 && Cursor(args, j + 1) == SteppedOver(args, j) + 1
  {
  }

  lemma {:induction false} SteppedBelow(args: seq<int>, i: nat, j: nat)
    requires j < i <= |args|
    ensures SteppedOver(args, j) < Cursor(args, i)
  {
    CursorMoves(args, i - 1);
    if j < i - 1 {
      SteppedBelow(args, i - 1, j);
    }
  }

  lemma {:induction false} WrittenToMeans(args: seq<int>, i: nat, x: int)
    requires i <= |args|
    ensures x in WrittenTo(args, i) <==>
      0 <= x < Cursor(args, i) && forall j: nat :: j < i ==> SteppedOver(args, j) != x
  {
    if i > 0 {
      WrittenToMeans(args, i - 1, x);
      RangeMeans(Cursor(args, i - 1), args[i - 1], x);
      CursorMoves(args, i - 1);
      forall j: nat | j < i - 1 ensures SteppedOver(args, j) < Cursor(args, i - 1) {
        SteppedBelow(args, i - 1, j);
      }
    }
  }

  // Written, for any arguments: every rank that no turn of the loop steps over, up to
  // the size or the cursor if that has gone further.
  lemma WrittenMeans(size: nat, args: seq<int>, x: int)
    ensures x in Written(size, args) <==>
      && 0 <= x && (x < size || x < Cursor(args, |args|))
      && forall j: nat :: j < |args| ==> SteppedOver(args, j) != x
  {
    WrittenToMeans(args, |args|, x);
    RangeMeans(Cursor(args, |args|), size, x);
    forall j: nat | j < |args| ensures SteppedOver(args, j) < Cursor(args, |args|) {
      SteppedBelow(args, |args|, j);
    }
  }

  lemma {:induction false} RangeAt(s: int, e: int, i: nat)
    requires i < |Range(s, e)|
    ensures Range(s, e)[i] == s + i
    decreases e - s
  {
    if i > 0 {
      RangeAt(s + 1, e, i - 1);
    }
  }

  lemma {:induction false} WrittenToAscends(args: seq<int>, i: nat, a: nat, b: nat)
    requires i <= |args| && a < b < |WrittenTo(args, i)|
    ensures WrittenTo(args, i)[a] < WrittenTo(args, i)[b]
  {
    var done, more := WrittenTo(args, i - 1), Range(Cursor(args, i - 1), args[i - 1]);
    if b < |done| {
      WrittenToAscends(args, i - 1, a, b);
    } else {
      RangeAt(Cursor(args, i - 1), args[i - 1], b - |done|);
      if a < |done| {
        WrittenToMeans(args, i - 1, done[a]);
      } else {
        RangeAt(Cursor(args, i - 1), args[i - 1], a - |done|);
      }
    }
  }

  // It ascends strictly, for any arguments.
  lemma WrittenAscends(size: nat, args: seq<int>, a: nat, b: nat)
    requires a < b < |Written(size, args)|
    ensures Written(size, args)[a] < Written(size, args)[b]
  {
    var done, s := WrittenTo(args, |args|), Cursor(args, |args|);
    if b < |done| {
      WrittenToAscends(args, |args|, a, b);
    } else {
      RangeAt(s, size, b - |done|);
      if a < |done| {
        WrittenToMeans(args, |args|, done[a]);
      } else {
        RangeAt(s, size, a - |done|);
      }
    }
  }

  // The loops, for any arguments; memory holds only size - |args| entries.
  method Fill(size: nat, args: seq<int>) returns (list: seq<int>)
    ensures list == Written(size, args)
  {
    list := [];
    var s, i := 0, 0;
    while i < |args|
      invariant 0 <= i <= |args| && s == Cursor(args, i) && list == WrittenTo(args, i)
    {
      list, s := AppendRange(list, s, args[i]);
      s := s + 1;
      i := i + 1;
    }
    list, s := AppendRange(list, s, size);
  }

  lemma {:induction false} CursorWithin(args: seq<int>, i: nat, bound: int)
    requires i <= |args|
    ensures Cursor(args, i) <= bound <==> i <= bound && forall j: nat :: j < i ==> args[j] + (i - j) <= bound
  {
    if i > 0 {
      CursorWithin(args, i - 1, bound - 1);
    }
  }

  // The entries written fit into the memory allotted if and only if the loop
  // leaves its variable at most at the size, that is, if there are at most as
  // many arguments as ranks and each leaves room for those after it. Otherwise
  // the loops write past the end.
  lemma FitsExactlyWhen(size: nat, args: seq<int>)
    ensures |Written(size, args)| <= size - |args| <==> Cursor(args, |args|) <= size
    ensures |Written(size, args)| <= size - |args| <==>
      |args| <= size && forall j: nat :: j < |args| ==> args[j] + (|args| - j) <= size
    ensures |Written(size, args)| >= size - |args|
  {
    CursorWithin(args, |args|, size);
  }

  // What one turn of the loop writes is what the complement has there.
  ghost predicate TurnRight(args: seq<int>, size: int, i: nat) {
    && i < |args|
    && Others(Cursor(args, i), size, args)
       == Range(Cursor(args, i), args[i]) + Others(Cursor(args, i + 1), size, args)
  }

  lemma {:induction false} CursorSoFar(args: seq<int>, size: int, i: nat)
    requires Ascending(args) && Distinct(args) && InRange(args, size) && i <= |args|
    ensures Cursor(args, i) == if i == 0 then 0 else args[i - 1] + 1
  {
    if i > 0 {
      CursorSoFar(args, size, i - 1);
      assert i > 1 ==> args[i - 2] < args[i - 1];
    }
  }

  lemma NextArgument(args: seq<int>, i: nat, size: int)
    requires Ascending(args) && Distinct(args) && InRange(args, size) && i < |args|
    ensures TurnRight(args, size, i)
  {
    CursorSoFar(args, size, i);
    CursorSoFar(args, size, i + 1);
    var s, e := Cursor(args, i), args[i];
    forall k | 0 <= k < |args| ensures args[k] < s || args[k] >= e {
      if k < i {
        assert args[k] <= args[i - 1];
      }
    }
    assert i > 0 ==> args[i - 1] < args[i];
    RangeThenOthers(s, e, size, args);
    assert e in args;
  }

  lemma Regroup(done: seq<int>, run: seq<int>, rest: seq<int>)
    ensures (done + run) + rest == done + (run + rest)
  {
  }

  lemma {:induction false} WrittenSoFar(args: seq<int>, size: int, i: nat)
    requires i <= |args| && forall k: nat :: k < i ==> TurnRight(args, size, k)
    ensures WrittenTo(args, i) + Others(Cursor(args, i), size, args) == Others(0, size, args)
  {
    if i > 0 {
      WrittenSoFar(args, size, i - 1);
      assert TurnRight(args, size, i - 1);
      Regroup(WrittenTo(args, i - 1), Range(Cursor(args, i - 1), args[i - 1]), Others(Cursor(args, i), size, args));
    }
  }

  lemma LastArgument(args: seq<int>, s: int, size: int)
    requires Ascending(args) && InRange(args, size) && size >= 0
    requires s == if args == [] then 0 else args[|args| - 1] + 1
    ensures s <= size && Others(s, size, args) == Range(s, size)
  {
    assert forall k :: 0 <= k < |args| ==> args[k] < s;
    RangeThenOthers(s, size, size, args);
  }

  // On sorted arguments the loops write the complement, within the memory
  // allotted, if and only if the arguments are distinct ranks.
  lemma ComplementExactlyWhen(size: nat, args: seq<int>)
    requires Ascending(args)
    ensures (Written(size, args) == Others(0, size, args) && |Written(size, args)| <= size - |args|)
            <==> Distinct(args) && InRange(args, size)
  {
    FitsExactlyWhen(size, args);
    AllotsExactlyWhen(size, args);
    if Distinct(args) && InRange(args, size) {
      forall k: nat | k < |args| ensures TurnRight(args, size, k) {
        NextArgument(args, k, size);
      }
      WrittenSoFar(args, size, |args|);
      CursorSoFar(args, size, |args|);
      LastArgument(args, Cursor(args, |args|), size);
    }
  }

  // Three ways to fail: a repeated argument can fit exactly and still be wrong, ...
  lemma RepeatedSkips()
    ensures Written(5, [1, 1]) == [0, 3, 4] && 2 in Others(0, 5, [1, 1])
  {
    OthersMeans(0, 5, [1, 1]);
    assert Cursor([1, 1], 1) == 2 && Cursor([1, 1], 2) == 3;
    assert Range(0, 1) == [0] && Range(2, 1) == [] && Range(3, 5) == [3, 4];
    assert WrittenTo([1, 1], 0) == [] && WrittenTo([1, 1], 1) == [0] && WrittenTo([1, 1], 2) == [0];
  }

  // ... a repeated last rank writes past the end, ...
  lemma RepeatedOverflows()
    ensures Written(5, [4, 4]) == [0, 1, 2, 3] && |Written(5, [4, 4])| > 5 - 2
  {
    assert Cursor([4, 4], 1) == 5 && Cursor([4, 4], 2) == 6;
    assert Range(3, 4) == [3] && Range(2, 4) == [2, 3] && Range(1, 4) == [1, 2, 3] && Range(0, 4) == [0, 1, 2, 3];
    assert WrittenTo([4, 4], 0) == [] && WrittenTo([4, 4], 1) == [0, 1, 2, 3];
    assert WrittenTo([4, 4], 2) == [0, 1, 2, 3];
  }

  // ... and a negative argument loses rank 0.
  lemma NegativeSkips()
    ensures Written(5, [-1]) == [1, 2, 3, 4] && 0 in Others(0, 5, [-1])
  {
    OthersMeans(0, 5, [-1]);
    assert Cursor([-1], 1) == 1 && WrittenTo([-1], 0) == [] && WrittenTo([-1], 1) == [];
    assert Range(4, 5) == [4] && Range(3, 5) == [3, 4] && Range(2, 5) == [2, 3, 4] && Range(1, 5) == [1, 2, 3, 4];
  }

  function Ranks(size: nat): (r: set<int>)
    ensures |r| == size && forall x :: x in r <==> 0 <= x < size
  {
    if size == 0 then {} else Ranks(size - 1) + {size - 1}
  }

  ghost function Values(s: seq<int>): set<int> {
    set x | x in s
  }

  lemma {:induction false} ValuesSize(s: seq<int>)
    ensures |Values(s)| <= |s|
    ensures |Values(s)| == |s| <==> Distinct(s)
  {
    if s != [] {
      var front, last := s[..|s| - 1], s[|s| - 1];
      ValuesSize(front);
      assert Values(s) == Values(front) + {last};
      if last in front {
        var i :| 0 <= i < |front| && front[i] == last;
        assert s[i] == s[|s| - 1];
        assert Values(s) == Values(front);
      } else {
        assert Distinct(s) <==> Distinct(front);
      }
    }
  }

  // The complement, as opposed to what is written, has size - |args| ranks if and
  // only if the arguments are distinct ranks.
  lemma AllotsExactlyWhen(size: nat, args: seq<int>)
    ensures |Others(0, size, args)| == size - |args| <==> Distinct(args) && InRange(args, size)
  {
    var o := Others(0, size, args);
    OthersMeans(0, size, args);
    assert Distinct(o) by {
      forall i, j | 0 <= i < j < |o| ensures o[i] != o[j] {
        OthersAscend(0, size, args, i, j);
      }
    }
    ValuesSize(o);
    ValuesSize(args);
    var used := Values(args) * Ranks(size);
    assert Values(o) == Ranks(size) - used;
    assert |Values(o)| == size - |used|;
    if Distinct(args) && InRange(args, size) {
      assert used == Values(args);
    }
    if |o| == size - |args| {
      assert |used| == |args|;
      SubsetSize(used, Values(args));
      assert used == Values(args);
      forall i | 0 <= i < |args| ensures 0 <= args[i] < size {
        assert args[i] in used;
      }
    }
  }

  lemma {:induction false} SubsetSize(a: set<int>, b: set<int>)
    requires a <= b
    ensures |a| <= |b| && (|a| == |b| ==> a == b)
    decreases b
  {
    if exists x :: x in b && x !in a {
      var x :| x in b && x !in a;
      SubsetSize(a, b - {x});
    } else {
      assert a == b;
    }
  }
}
