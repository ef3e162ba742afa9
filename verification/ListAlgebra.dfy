// The algebra of process lists: what the operations mean, on sequences.
module ListAlgebra {

  predicate Distinct(s: seq<int>) {
    forall i, j :: 0 <= i < j < |s| ==> s[i] != s[j]
  }

  // A value is added at the end unless it is there already.
  function Add(list: seq<int>, v: int): seq<int> {
    if v in list then list else list + [v]
  }

  function AddAll(list: seq<int>, vs: seq<int>): seq<int> {
    if vs == [] then list else Add(AddAll(list, vs[..|vs| - 1]), vs[|vs| - 1])
  }

  // The first list, and then of each further list the values not there yet.
  function UnionOf(ss: seq<seq<int>>): seq<int>
    requires ss != []
  {
    if |ss| == 1 then ss[0] else AddAll(UnionOf(ss[..|ss| - 1]), ss[|ss| - 1])
  }

  lemma {:induction false} AddAllMeans(list: seq<int>, vs: seq<int>)
    ensures forall v :: v in AddAll(list, vs) <==> v in list || v in vs
    ensures Distinct(list) ==> Distinct(AddAll(list, vs))
    ensures list <= AddAll(list, vs)
    ensures |AddAll(list, vs)| <= |list| + |vs|
  {
    if vs != [] {
      AddAllMeans(list, vs[..|vs| - 1]);
      assert vs == vs[..|vs| - 1] + [vs[|vs| - 1]];
    }
  }

  lemma AddAllNext(list: seq<int>, vs: seq<int>, j: nat)
    requires j < |vs|
    ensures AddAll(list, vs[..j + 1]) == Add(AddAll(list, vs[..j]), vs[j])
  {
    assert vs[..j + 1][..j] == vs[..j];
  }

  ghost predicate InSome(ss: seq<seq<int>>, v: int) {
    exists i :: 0 <= i < |ss| && v in ss[i]
  }

  ghost predicate InAll(ss: seq<seq<int>>, v: int) {
    forall i :: 0 <= i < |ss| ==> v in ss[i]
  }

  // The union holds exactly the values of the lists; only a first list that
  // repeats itself can make it repeat itself.
  lemma {:induction false} UnionMeans(ss: seq<seq<int>>)
    requires ss != []
    ensures forall v :: v in UnionOf(ss) <==> InSome(ss, v)
    ensures Distinct(UnionOf(ss)) <==> Distinct(ss[0])
    ensures ss[0] <= UnionOf(ss)
  {
    if |ss| > 1 {
      var front, last := ss[..|ss| - 1], ss[|ss| - 1];
      UnionMeans(front);
      AddAllMeans(UnionOf(front), last);
      forall v ensures InSome(ss, v) <==> InSome(front, v) || v in last {
        if InSome(front, v) {
          var i :| 0 <= i < |front| && v in front[i];
          assert v in ss[i];
        }
        if v in last {
          assert v in ss[|ss| - 1];
        }
        if InSome(ss, v) {
          var i :| 0 <= i < |ss| && v in ss[i];
          assert i < |front| ==> v in front[i];
        }
      }
    }
  }

  function Concat<T>(ss: seq<seq<T>>): seq<T> {
    if ss == [] then [] else Concat(ss[..|ss| - 1]) + ss[|ss| - 1]
  }

  lemma {:induction false} AddAllSplits(list: seq<int>, a: seq<int>, b: seq<int>)
    ensures AddAll(list, a + b) == AddAll(AddAll(list, a), b)
  {
    if b == [] {
      assert a + b == a;
    } else {
      AddAllSplits(list, a, b[..|b| - 1]);
      assert (a + b)[..|a + b| - 1] == a + b[..|b| - 1];
    }
  }

  lemma {:induction false} AddDistinct(s: seq<int>)
    requires Distinct(s)
    ensures AddAll([], s) == s
  {
    if s != [] {
      AddDistinct(s[..|s| - 1]);
      assert s == s[..|s| - 1] + [s[|s| - 1]];
    }
  }

  // Whether the value at place i of s occurs there for the first time.
  predicate FirstAt(s: seq<int>, v: int, i: nat) {
    i < |s| && s[i] == v && v !in s[..i]
  }

  // Adding in order lists the values in the order of their first occurrences.
  lemma {:induction false} AddedInOrder(s: seq<int>, a: nat, b: nat, x: nat, y: nat)
    requires a < b < |AddAll([], s)|
    requires FirstAt(s, AddAll([], s)[a], x) && FirstAt(s, AddAll([], s)[b], y)
    ensures x < y
  {
    var n := |s| - 1;
    var front := s[..n];
    AddAllMeans([], front);
    if b < |AddAll([], front)| {
      FirstBefore(s, AddAll([], front)[a], x);
      FirstBefore(s, AddAll([], front)[b], y);
      AddedInOrder(front, a, b, x, y);
    } else {
      FirstBefore(s, AddAll([], front)[a], x);
      forall i | 0 <= i < n ensures s[i] != s[n] {
        assert s[i] in front;
      }
    }
  }

  lemma FirstBefore(s: seq<int>, v: int, x: nat)
    requires s != [] && FirstAt(s, v, x) && v in s[..|s| - 1]
    ensures x < |s| - 1 && FirstAt(s[..|s| - 1], v, x)
  {
    var front := s[..|s| - 1];
    var k :| 0 <= k < |front| && front[k] == v;
    forall i | 0 <= i < x ensures s[i] != v {
      assert s[i] in s[..x];
    }
    assert x <= k;
    assert front[..x] == s[..x];
  }

  // The union is the concatenation without its repetitions.
  lemma {:induction false} UnionInOrder(ss: seq<seq<int>>)
    requires ss != [] && Distinct(ss[0])
    ensures UnionOf(ss) == AddAll([], Concat(ss))
  {
    if |ss| == 1 {
      AddDistinct(ss[0]);
      assert Concat(ss) == Concat([]) + ss[0] == ss[0] by {
        assert ss[..0] == [];
      }
    } else {
      UnionInOrder(ss[..|ss| - 1]);
      AddAllSplits([], Concat(ss[..|ss| - 1]), ss[|ss| - 1]);
    }
  }

  // --- Intersection, by counters ---

  // Where a value is in the list, or the list's length.
  function Place(list: seq<int>, v: int): (k: nat)
    ensures k <= |list| && (k < |list| ==> list[k] == v) && (v in list <==> k < |list|)
    ensures forall i :: 0 <= i < k ==> list[i] != v
  {
    if list == [] then 0 else if list[0] == v then 0 else 1 + Place(list[1..], v)
  }

  // The list and, for each entry, how often its value has been seen.
  datatype Tally = Tally(list: seq<int>, seen: seq<int>)

  function Bump(t: Tally, v: int): (t': Tally)
    requires |t.list| == |t.seen|
    ensures |t'.list| == |t'.seen| && t'.list == Add(t.list, v)
  {
    var k := Place(t.list, v);
    if k < |t.list| then t.(seen := t.seen[k := t.seen[k] + 1]) else Tally(t.list + [v], t.seen + [1])
  }

  function BumpAll(t: Tally, vs: seq<int>): (t': Tally)
    requires |t.list| == |t.seen|
    ensures |t'.list| == |t'.seen| && t'.list == AddAll(t.list, vs)
  {
    if vs == [] then t else Bump(BumpAll(t, vs[..|vs| - 1]), vs[|vs| - 1])
  }

  function TallyOf(ss: seq<seq<int>>): (t: Tally)
    requires ss != []
    ensures |t.list| == |t.seen| && t.list == UnionOf(ss)
  {
    if |ss| == 1 then Tally(ss[0], seq(|ss[0]|, _ => 1)) else BumpAll(TallyOf(ss[..|ss| - 1]), ss[|ss| - 1])
  }

  // The entries seen exactly num times, in order.
  function Kept(t: Tally, num: int, n: nat): seq<int>
    requires n <= |t.list| == |t.seen|
  {
    if n == 0 then [] else Kept(t, num, n - 1) + if t.seen[n - 1] == num then [t.list[n - 1]] else []
  }

  lemma KeptGrows(t: Tally, num: int, n: nat)
    requires n < |t.list| == |t.seen|
    ensures Kept(t, num, 0) == []
    ensures Kept(t, num, n + 1) == Kept(t, num, n) + if t.seen[n] == num then [t.list[n]] else []
  {
  }

  function IsectOf(ss: seq<seq<int>>): seq<int>
    requires ss != []
  {
    Kept(TallyOf(ss), |ss|, |TallyOf(ss).list|)
  }

  // The counter at a value's place.
  function SeenFor(t: Tally, v: int): int
    requires |t.list| == |t.seen|
  {
    var k := Place(t.list, v);
    if k < |t.list| then t.seen[k] else 0
  }

  // What that counter comes to: once for the first list, however often it has the
  // value, and for every further list as often as that one has it.
  function Sightings(ss: seq<seq<int>>, v: int): nat
    requires ss != []
  {
    if |ss| == 1 then (if v in ss[0] then 1 else 0)
    else Sightings(ss[..|ss| - 1], v) + multiset(ss[|ss| - 1])[v]
  }

  lemma SightingsGrow(ss: seq<seq<int>>, s: seq<int>, v: int)
    ensures Sightings([s], v) == if v in s then 1 else 0
    ensures ss != [] ==> Sightings(ss + [s], v) == Sightings(ss, v) + multiset(s)[v]
  {
    assert (ss + [s])[..|ss + [s]| - 1] == ss;
  }

  // Further entries of a value the first list repeats keep their first count.
  ghost predicate RepeatsOnce(t: Tally)
    requires |t.list| == |t.seen|
  {
    forall k :: 0 <= k < |t.list| && Place(t.list, t.list[k]) != k ==> t.seen[k] == 1
  }

  lemma {:induction false} PlaceAppend(list: seq<int>, v: int, x: int)
    ensures Place(list + [v], x) == if x in list then Place(list, x) else if x == v then |list| else |list| + 1
  {
    if list == [] {
      assert [v][1..] == [];
    } else {
      PlaceAppend(list[1..], v, x);
      assert (list + [v])[1..] == list[1..] + [v];
    }
  }

  lemma BumpSees(t: Tally, v: int, x: int)
    requires |t.list| == |t.seen|
    ensures SeenFor(Bump(t, v), x) == SeenFor(t, x) + if x == v then 1 else 0
  {
    PlaceAppend(t.list, v, x);
  }

  lemma BumpRepeats(t: Tally, v: int)
    requires |t.list| == |t.seen| && RepeatsOnce(t)
    ensures RepeatsOnce(Bump(t, v))
  {
    var t' := Bump(t, v);
    forall k | 0 <= k < |t'.list| && Place(t'.list, t'.list[k]) != k ensures t'.seen[k] == 1 {
      PlaceAppend(t.list, v, t'.list[k]);
    }
  }

  // A further list adds to each counter as often as it has the value.
  lemma {:induction false} BumpAllSees(t: Tally, vs: seq<int>, x: int)
    requires |t.list| == |t.seen|
    ensures SeenFor(BumpAll(t, vs), x) == SeenFor(t, x) + multiset(vs)[x]
  {
    if vs != [] {
      var front, last := vs[..|vs| - 1], vs[|vs| - 1];
      BumpAllSees(t, front, x);
      BumpSees(BumpAll(t, front), last, x);
      assert vs == front + [last];
    }
  }

  lemma {:induction false} BumpAllRepeats(t: Tally, vs: seq<int>)
    requires |t.list| == |t.seen| && RepeatsOnce(t)
    ensures RepeatsOnce(BumpAll(t, vs))
  {
    if vs != [] {
      BumpAllRepeats(t, vs[..|vs| - 1]);
      BumpRepeats(BumpAll(t, vs[..|vs| - 1]), vs[|vs| - 1]);
    }
  }

  // The counters, for any lists whatever.
  lemma {:induction false} TallyCounts(ss: seq<seq<int>>, x: int)
    requires ss != []
    ensures SeenFor(TallyOf(ss), x) == Sightings(ss, x) && RepeatsOnce(TallyOf(ss))
  {
    if |ss| > 1 {
      TallyCounts(ss[..|ss| - 1], x);
      BumpAllSees(TallyOf(ss[..|ss| - 1]), ss[|ss| - 1], x);
      BumpAllRepeats(TallyOf(ss[..|ss| - 1]), ss[|ss| - 1]);
    }
  }

  lemma {:induction false} KeptMeans(t: Tally, num: int, n: nat, v: int)
    requires n <= |t.list| == |t.seen|
    ensures v in Kept(t, num, n) <==> exists k :: 0 <= k < n && t.list[k] == v && t.seen[k] == num
  {
    if n > 0 {
      KeptMeans(t, num, n - 1, v);
      if v in Kept(t, num, n - 1) {
        var k :| 0 <= k < n - 1 && t.list[k] == v && t.seen[k] == num;
        assert 0 <= k < n && t.list[k] == v && t.seen[k] == num;
      }
    }
  }

  // A value is in the result if and only if its counter comes to the number of
  // lists.
  lemma IsectCounts(ss: seq<seq<int>>, v: int)
    requires ss != []
    ensures v in IsectOf(ss) <==> Sightings(ss, v) == |ss|
  {
    var t := TallyOf(ss);
    TallyCounts(ss, v);
    KeptMeans(t, |ss|, |t.list|, v);
    if Sightings(ss, v) == |ss| {
      var k := Place(t.list, v);
      assert t.list[k] == v && t.seen[k] == |ss|;
    }
    if v in IsectOf(ss) {
      var k :| 0 <= k < |t.list| && t.list[k] == v && t.seen[k] == |ss|;
      if Place(t.list, v) != k {
        assert |ss| == 1 && ss[0][k] == v;
      }
    }
  }

  // A common value is seen at least once per list, and exactly so when no list
  // after the first repeats it.
  lemma {:induction false} CommonSightings(ss: seq<seq<int>>, v: int)
    requires ss != [] && InAll(ss, v)
    ensures Sightings(ss, v) >= |ss|
    ensures Sightings(ss, v) == |ss| <==> forall i :: 1 <= i < |ss| ==> multiset(ss[i])[v] <= 1
  {
    if |ss| > 1 {
      var front, last := ss[..|ss| - 1], ss[|ss| - 1];
      assert forall i :: 0 <= i < |front| ==> front[i] == ss[i];
      CommonSightings(front, v);
      assert v in ss[|ss| - 1] && multiset(last)[v] >= 1;
    }
  }

  lemma {:induction false} NoSightings(ss: seq<seq<int>>, v: int)
    requires ss != [] && !InSome(ss, v)
    ensures Sightings(ss, v) == 0
  {
    assert v !in ss[|ss| - 1];
    if |ss| > 1 {
      var front := ss[..|ss| - 1];
      assert forall i :: 0 <= i < |front| ==> front[i] == ss[i];
      NoSightings(front, v);
    }
  }

  // No list after the first repeats a common value, and no value that some list
  // lacks is repeated just so often that it is seen as often as there are lists.
  ghost predicate CountersTell(ss: seq<seq<int>>)
    requires ss != []
  {
    && (forall v, i :: InAll(ss, v) && 1 <= i < |ss| ==> multiset(ss[i])[v] <= 1)
    && (forall v :: InSome(ss, v) && !InAll(ss, v) ==> Sightings(ss, v) != |ss|)
  }

  // The exact condition under which the counters compute the intersection.
  lemma IsectExactlyWhen(ss: seq<seq<int>>)
    requires ss != []
    ensures (forall v :: v in IsectOf(ss) <==> InAll(ss, v)) <==> CountersTell(ss)
  {
    forall v ensures (v in IsectOf(ss) <==> InAll(ss, v)) <==>
                     if InAll(ss, v) then (forall i :: 1 <= i < |ss| ==> multiset(ss[i])[v] <= 1)
                     else InSome(ss, v) ==> Sightings(ss, v) != |ss|
    {
      IsectCounts(ss, v);
      if InAll(ss, v) {
        CommonSightings(ss, v);
      } else if !InSome(ss, v) {
        NoSightings(ss, v);
      }
    }
  }

  ghost predicate AllDistinct(ss: seq<seq<int>>) {
    forall i :: 0 <= i < |ss| ==> Distinct(ss[i])
  }

  lemma {:induction false} DistinctOnce(s: seq<int>, v: int)
    requires Distinct(s)
    ensures multiset(s)[v] == if v in s then 1 else 0
  {
    if s != [] {
      DistinctOnce(s[..|s| - 1], v);
      assert s == s[..|s| - 1] + [s[|s| - 1]];
    }
  }

  // Without repetitions a value that some list lacks is seen too rarely.
  lemma {:induction false} DistinctSightings(ss: seq<seq<int>>, v: int)
    requires ss != [] && AllDistinct(ss)
    ensures Sightings(ss, v) <= |ss| && (Sightings(ss, v) == |ss| <==> InAll(ss, v))
  {
    DistinctOnce(ss[|ss| - 1], v);
    if |ss| > 1 {
      var front := ss[..|ss| - 1];
      assert forall i :: 0 <= i < |front| ==> front[i] == ss[i];
      DistinctSightings(front, v);
      assert InAll(ss, v) <==> InAll(front, v) && v in ss[|ss| - 1];
    }
  }

  // In particular they do so on lists without repetitions.
  lemma IsectMeans(ss: seq<seq<int>>)
    requires ss != [] && AllDistinct(ss)
    ensures CountersTell(ss) && forall v :: v in IsectOf(ss) <==> InAll(ss, v)
  {
    forall v ensures v in IsectOf(ss) <==> InAll(ss, v) {
      IsectCounts(ss, v);
      DistinctSightings(ss, v);
    }
    IsectExactlyWhen(ss);
  }

  // Entries kept are at the first places of their values.
  ghost predicate KeepsFirsts(t: Tally, num: int)
    requires |t.list| == |t.seen|
  {
    forall k :: 0 <= k < |t.list| && t.seen[k] == num ==> Place(t.list, t.list[k]) == k
  }

  lemma {:induction false} KeptInOrder(t: Tally, num: int, n: nat, a: nat, b: nat)
    requires n <= |t.list| == |t.seen| && KeepsFirsts(t, num) && a < b < |Kept(t, num, n)|
    ensures Place(t.list, Kept(t, num, n)[a]) < Place(t.list, Kept(t, num, n)[b]) < |t.list|
  {
    if b < |Kept(t, num, n - 1)| {
      KeptInOrder(t, num, n - 1, a, b);
    } else {
      KeptMeans(t, num, n - 1, Kept(t, num, n - 1)[a]);
    }
  }

  // Several lists: each value once, in the order of the union, whatever they
  // repeat.
  lemma IsectInOrder(ss: seq<seq<int>>, a: nat, b: nat)
    requires |ss| > 1 && a < b < |IsectOf(ss)|
    ensures Place(UnionOf(ss), IsectOf(ss)[a]) < Place(UnionOf(ss), IsectOf(ss)[b]) < |UnionOf(ss)|
    ensures IsectOf(ss)[a] != IsectOf(ss)[b]
  {
    var t := TallyOf(ss);
    TallyCounts(ss, 0);
    KeptInOrder(t, |ss|, |t.list|, a, b);
  }

  lemma TallyOfRepeated()
    ensures TallyOf([[1], [2, 2]]) == Tally([1, 2], [1, 2])
  {
    TallyOfTwo([1], [2, 2]);
    BumpTwo(Tally([1], [1]), 2, 2);
    PlaceAppend([1], 2, 2);
    assert seq(|[1]|, _ => 1) == [1];
    assert [1] + [2] == [1, 2] && [1] + [1] == [1, 1];
    assert Bump(Tally([1], [1]), 2) == Tally([1, 2], [1, 1]);
    assert [1, 1][1 := 2] == [1, 2];
  }

  // A repeated value that is not common gets in ...
  lemma RepeatedValueDeceives()
    ensures IsectOf([[1], [2, 2]]) == [2] && !CountersTell([[1], [2, 2]])
  {
    var ss, t := [[1], [2, 2]], Tally([1, 2], [1, 2]);
    assert IsectOf(ss) == [2] by {
      TallyOfRepeated();
      assert Kept(t, 2, 1) == [];
      assert Kept(t, 2, 2) == [2];
    }
    assert 2 !in ss[0];
    assert 2 in IsectOf(ss) && !InAll(ss, 2);
    IsectExactlyWhen(ss);
  }

  // ... and one that is common gets lost, ...
  lemma RepeatedValueLost()
    ensures IsectOf([[1], [1, 1]]) == [] && !CountersTell([[1], [1, 1]])
  {
    var ss := [[1], [1, 1]];
    TallyOfTwo([1], [1, 1]);
    BumpTwo(Tally([1], [1]), 1, 1);
    assert Bump(Tally([1], [1]), 1) == Tally([1], [2]);
    assert Bump(Tally([1], [2]), 1) == Tally([1], [3]);
    assert Kept(Tally([1], [3]), 2, 1) == [];
    assert InAll(ss, 1);
    IsectExactlyWhen(ss);
  }

  // ... but a repetition in the first list does no harm.
  lemma RepeatedFirstHarmless()
    ensures IsectOf([[1, 1], [1]]) == [1] && CountersTell([[1, 1], [1]])
  {
    var ss := [[1, 1], [1]];
    TallyOfTwo([1, 1], [1]);
    BumpOne(Tally([1, 1], [1, 1]), 1);
    assert Bump(Tally([1, 1], [1, 1]), 1) == Tally([1, 1], [2, 1]);
    assert Kept(Tally([1, 1], [2, 1]), 2, 1) == [1];
    assert Kept(Tally([1, 1], [2, 1]), 2, 2) == [1];
    forall v ensures v in IsectOf(ss) <==> InAll(ss, v) {
      assert InAll(ss, v) ==> v in ss[1];
      assert v in ss[0] && v in ss[1] ==> InAll(ss, v);
    }
    IsectExactlyWhen(ss);
  }

  lemma TallyOfTwo(a: seq<int>, b: seq<int>)
    ensures TallyOf([a, b]) == BumpAll(Tally(a, seq(|a|, _ => 1)), b)
  {
    assert [a, b][..1] == [a];
  }

  lemma BumpOne(t: Tally, x: int)
    requires |t.list| == |t.seen|
    ensures BumpAll(t, [x]) == Bump(t, x)
  {
    assert [x][..0] == [];
  }

  lemma BumpTwo(t: Tally, x: int, y: int)
    requires |t.list| == |t.seen|
    ensures BumpAll(t, [x, y]) == Bump(Bump(t, x), y)
  {
    BumpOne(t, x);
    assert [x, y][..1] == [x];
    assert [x, y][1] == y;
  }

  // --- Difference ---

  // The difference drops the first occurrence of each value that is in b.
  predicate Flagged(a: seq<int>, b: seq<int>, j: nat)
    requires j < |a|
  {
    a[j] in b && a[j] !in a[..j]
  }

  function DiffTo(a: seq<int>, b: seq<int>, n: nat): (d: seq<int>)
    requires n <= |a|
    ensures |d| <= n
  {
    if n == 0 then [] else DiffTo(a, b, n - 1) + if Flagged(a, b, n - 1) then [] else [a[n - 1]]
  }

  // Of the next value the first occurrence is dropped if it is in b.
  lemma DiffGrows(a: seq<int>, b: seq<int>, n: nat)
    requires n < |a|
    ensures DiffTo(a, b, 0) == []
    ensures DiffTo(a, b, n + 1) == DiffTo(a, b, n) + if a[n] in b && a[n] !in a[..n] then [] else [a[n]]
  {
  }

  // The values of a that are not in b, in order.
  function OnlyIn(a: seq<int>, b: seq<int>): (d: seq<int>)
    ensures |d| <= |a|
  {
    if a == [] then []
    else OnlyIn(a[..|a| - 1], b) + if a[|a| - 1] in b then [] else [a[|a| - 1]]
  }

  lemma OnlyInGrows(a: seq<int>, b: seq<int>, v: int)
    ensures OnlyIn([], b) == [] && OnlyIn(a + [v], b) == OnlyIn(a, b) + if v in b then [] else [v]
  {
    assert (a + [v])[..|a + [v]| - 1] == a;
  }

  lemma {:induction false} DiffLonger(a: seq<int>, b: seq<int>, n: nat)
    requires n <= |a|
    ensures |OnlyIn(a[..n], b)| <= |DiffTo(a, b, n)|
    ensures (forall j: nat :: j < n && a[j] in b ==> a[j] !in a[..j]) ==> DiffTo(a, b, n) == OnlyIn(a[..n], b)
    ensures |OnlyIn(a[..n], b)| == |DiffTo(a, b, n)| ==> forall j: nat :: j < n && a[j] in b ==> a[j] !in a[..j]
  {
    if n > 0 {
      DiffLonger(a, b, n - 1);
      assert a[..n][..n - 1] == a[..n - 1];
    }
  }

  // The difference is the values of a that are not in b if and only if no value
  // of b is repeated in a.
  lemma DiffExactlyWhen(a: seq<int>, b: seq<int>)
    ensures DiffTo(a, b, |a|) == OnlyIn(a, b) <==> forall j: nat :: j < |a| && a[j] in b ==> a[j] !in a[..j]
  {
    DiffLonger(a, b, |a|);
    assert a[..|a|] == a;
  }
}
