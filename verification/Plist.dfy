// Process lists in memory: an array of ranks, a count of the places still to be
// set, and a reference count.
module Plist {
  import opened ListAlgebra

  // BC_SUCCESS and BC_EIVAL.
  const SUCCESS: int := 0
  const INVALID_VALUE: int := 15

  // What a call comes to: a return value, or an access outside the list.
  datatype Outcome = Returned(value: int) | OutOfBounds

  class PList {
    var plist: array<int>
    var count: nat
    var valid: int
    var rc: nat

    ghost predicate Valid()
      reads this
    {
      count <= plist.Length
    }

    // The ranks of the list.
    function Ranks(): (s: seq<int>)
      requires Valid()
      reads this, plist
      ensures |s| == count
    {
      plist[..count]
    }

    constructor (plist: array<int>, count: nat, valid: int)
      requires count <= plist.Length
      ensures Valid() && this.plist == plist && this.count == count && this.valid == valid && rc == 1
    {
      this.plist, this.count, this.valid, rc := plist, count, valid, 1;
    }

    // Setting an empty place makes the list one place more valid; a place that is
    // set already changes only while no channel uses the list. The bounds test
    // lets the place just behind the last one through, and negative places.
    method Set(loc: int, value: int) returns (r: Outcome)
      requires Valid()
      modifies this`valid, plist
      ensures Valid() && plist == old(plist) && count == old(count) && rc == old(rc)
      ensures r == OutOfBounds <==> loc == count || loc < 0
      ensures loc > count || r == OutOfBounds ==> valid == old(valid) && Ranks() == old(Ranks())
      ensures loc > count ==> r == Returned(INVALID_VALUE)
      ensures 0 <= loc < count && old(plist[loc]) == -1 ==>
        valid == old(valid) - 1 && r == Returned(valid) && Ranks() == old(Ranks())[loc := value]
      ensures 0 <= loc < count && old(plist[loc]) != -1 ==>
        && r == Returned(SUCCESS) && valid == old(valid)
        && Ranks() == if rc > 1 then old(Ranks()) else old(Ranks())[loc := value]
      ensures r == Returned(INVALID_VALUE) <==>
        loc > count || (0 <= loc < count && old(plist[loc]) == -1 && old(valid) == INVALID_VALUE + 1)
    {
      if loc > count {
        return Returned(INVALID_VALUE);
      }
      if loc < 0 || loc == count {
        return OutOfBounds;
      }
      if plist[loc] == -1 {
        valid := valid - 1;
        plist[loc] := value;
        return Returned(valid);
      } else {
        if rc > 1 {
          return Returned(SUCCESS);
        }
        plist[loc] := value;
        return Returned(SUCCESS);
      }
    }
  }

  // A list with every place to be set; null for a count that is not positive.
  method CreateEmpty(count: int) returns (pl: PList?)
    ensures pl == null <==> count <= 0
    ensures pl != null ==>
      && fresh(pl) && fresh(pl.plist) && pl.Valid() && pl.count == pl.plist.Length == count
      && pl.valid == count && pl.rc == 1 && forall i :: 0 <= i < count ==> pl.plist[i] == -1
  {
    if count <= 0 {
      return null;
    }
    var plist := new int[count](_ => -1);
    pl := new PList(plist, count, count);
  }

  // A fresh list is filled place by place with a stretch of another; it is valid
  // exactly when the last place is set.
  method CreateFrom(source: PList, cursor: nat, per: nat) returns (pl: PList)
    requires source.Valid() && per > 0 && cursor + per <= source.count
    ensures fresh(pl) && fresh(pl.plist) && pl.Valid()
    ensures pl.valid == 0 && pl.Ranks() == source.Ranks()[cursor..cursor + per]
  {
    var empty := CreateEmpty(per);
    pl := empty;
    for j := 0 to per
      invariant fresh(pl) && fresh(pl.plist) && pl.Valid() && pl.count == per && pl.valid == per - j
      invariant pl.Ranks()[..j] == source.Ranks()[cursor..cursor + j]
      invariant forall i :: j <= i < per ==> pl.Ranks()[i] == -1
    {
      ghost var before := pl.Ranks();
      assert pl.plist[j] == before[j] == -1;
      var _ := pl.Set(j, source.plist[cursor + j]);
      assert pl.Ranks()[..j + 1] == before[..j] + [source.Ranks()[cursor + j]];
      assert source.Ranks()[cursor..cursor + j + 1]
             == source.Ranks()[cursor..cursor + j] + [source.Ranks()[cursor + j]];
    }
  }

  function Contents(lists: seq<PList>): (ss: seq<seq<int>>)
    requires forall i :: 0 <= i < |lists| ==> lists[i].Valid()
    reads lists, set p | p in lists :: p.plist
    ensures |ss| == |lists| && forall i :: 0 <= i < |lists| ==> ss[i] == lists[i].Ranks()
  {
    seq(|lists|, i requires 0 <= i < |lists| && lists[i].Valid() reads lists, set p | p in lists :: p.plist =>
      lists[i].Ranks())
  }

  lemma Shares(count: nat, num: nat)
    requires 0 < num <= count
    ensures var (per, extra) := (count / num, count % num);
      && per > 0 && Extent(num - 1, per) + (per + extra) == count && Extent(num, per) == Extent(num - 1, per) + per
  {
    var per := count / num;
    assert count == num * per + count % num;
    assert per == 0 ==> num * per == 0;
    ExtentIs(num, per);
  }

  // The ranks of several lists, one list after another.
  ghost function Joined(pieces: seq<PList>): seq<int>
    reads pieces, set p | p in pieces :: p.plist
  {
    if pieces == [] then []
    else Joined(pieces[..|pieces| - 1]) +
         if pieces[|pieces| - 1].Valid() then pieces[|pieces| - 1].Ranks() else []
  }

  lemma JoinedGrows(pieces: seq<PList>, piece: PList)
    requires piece.Valid()
    ensures Joined([]) == [] && Joined(pieces + [piece]) == Joined(pieces) + piece.Ranks()
  {
    assert (pieces + [piece])[..|pieces + [piece]| - 1] == pieces;
  }

  // The pieces cut so far: valid lists that make up the first `cursor` ranks.
  ghost predicate CutTo(pl: PList, pieces: seq<PList>, cursor: nat)
    reads pl, pl.plist, pieces, set p | p in pieces :: p.plist
  {
    && pl.Valid() && cursor <= pl.count
    && (forall i :: 0 <= i < |pieces| ==> pieces[i].Valid() && pieces[i].valid == 0)
    && Joined(pieces) == pl.Ranks()[..cursor]
  }

  method Cut(pl: PList, pieces: seq<PList>, cursor: nat, size: nat) returns (piece: PList)
    requires CutTo(pl, pieces, cursor) && size > 0 && cursor + size <= pl.count
    ensures fresh(piece) && fresh(piece.plist) && piece.count == size
    ensures CutTo(pl, pieces + [piece], cursor + size)
  {
    piece := CreateFrom(pl, cursor, size);
    ghost var more := pieces + [piece];
    assert more[..|more| - 1] == pieces;
    assert pl.Ranks()[..cursor + size] == pl.Ranks()[..cursor] + pl.Ranks()[cursor..cursor + size];
  }

  // k pieces of size per.
  function Extent(k: nat, per: nat): nat {
    if k == 0 then 0 else Extent(k - 1, per) + per
  }

  lemma {:induction false} ExtentIs(k: nat, per: nat)
    ensures Extent(k, per) == k * per
  {
    if k > 0 {
      ExtentIs(k - 1, per);
    }
  }

  lemma {:induction false} ExtentGrows(i: nat, k: nat, per: nat)
    requires i <= k
    ensures Extent(i, per) <= Extent(k, per)
  {
    if i < k {
      ExtentGrows(i, k - 1, per);
    }
  }

  // The first loop of the division: k pieces of the same size.
  method CutEqually(pl: PList, per: nat, k: nat) returns (pieces: seq<PList>, cursor: nat)
    requires pl.Valid() && per > 0 && Extent(k, per) <= pl.count
    ensures |pieces| == k && cursor == Extent(k, per) && CutTo(pl, pieces, cursor)
    ensures forall p | p in pieces :: fresh(p) && p.count == per
  {
    cursor := 0;
    pieces := [];
    for i := 0 to k
      invariant |pieces| == i && cursor == Extent(i, per) && CutTo(pl, pieces, cursor)
      invariant forall p | p in pieces :: fresh(p) && p.count == per
    {
      ExtentGrows(i + 1, k, per);
      var piece := Cut(pl, pieces, cursor, per);
      pieces, cursor := pieces + [piece], cursor + per;
    }
  }

  // Division into num pieces of the same length, of which the last takes what is left
  // over; -1 when there are fewer ranks than pieces.
  method EqualDivision(pl: PList, num: nat) returns (r: int, pieces: seq<PList>)
    requires pl.Valid() && num > 0
    ensures num > pl.count ==> r == -1 && pieces == []
    ensures num <= pl.count ==> r == 0 && |pieces| == num
    ensures forall i :: 0 <= i < |pieces| ==>
      fresh(pieces[i]) && pieces[i].count == pl.count / num + if i == num - 1 then pl.count % num else 0
    ensures num <= pl.count ==> CutTo(pl, pieces, pl.count)
  {
    if num > pl.count {
      return -1, [];
    }
    var per := pl.count / num;
    var extra := pl.count % num;
    Shares(pl.count, num);
    var k := if extra != 0 then num - 1 else num;
    var cursor;
    pieces, cursor := CutEqually(pl, per, k);
    if extra != 0 {
      var piece := Cut(pl, pieces, cursor, per + extra);
      pieces := pieces + [piece];
    }
    r := 0;
  }

  function Total(ss: seq<seq<int>>): nat {
    if ss == [] then 0 else Total(ss[..|ss| - 1]) + |ss[|ss| - 1]|
  }

  method TotalCount(lists: seq<PList>) returns (total: nat)
    requires forall i :: 0 <= i < |lists| ==> lists[i].Valid()
    ensures total == Total(Contents(lists))
  {
    total := 0;
    for i := 0 to |lists|
      invariant total == Total(Contents(lists)[..i])
    {
      assert Contents(lists)[..i + 1][..i] == Contents(lists)[..i];
      total := total + lists[i].count;
    }
    assert Contents(lists)[..|lists|] == Contents(lists);
  }

  // The search for a value among the first `cursor` entries.
  method Locate(list: array<int>, cursor: nat, v: int) returns (k: nat)
    requires cursor <= list.Length
    ensures k == Place(list[..cursor], v)
  {
    k := 0;
    while k < cursor && list[k] != v
      invariant k <= cursor && forall i :: 0 <= i < k ==> list[i] != v
    {
      k := k + 1;
    }
    PlaceIs(list[..cursor], v, k);
  }

  lemma {:induction false} PlaceIs(s: seq<int>, v: int, k: nat)
    requires k <= |s| && (k < |s| ==> s[k] == v) && forall i :: 0 <= i < k ==> s[i] != v
    ensures Place(s, v) == k
  {
    if k > 0 {
      PlaceIs(s[1..], v, k - 1);
    }
  }

  lemma {:induction false} TotalGrows(ss: seq<seq<int>>, i: nat)
    requires i <= |ss|
    ensures Total(ss[..i]) <= Total(ss)
    decreases |ss|
  {
    if i < |ss| {
      TotalGrows(ss[..|ss| - 1], i);
      assert ss[..|ss| - 1][..i] == ss[..i];
    } else {
      assert ss[..i] == ss;
    }
  }

  lemma TotalOfFirst(ss: seq<seq<int>>)
    requires ss != []
    ensures Total(ss[..1]) == |ss[0]| <= Total(ss)
  {
    TotalGrows(ss, 1);
    assert ss[..1][..0] == [];
  }

  lemma TotalNext(ss: seq<seq<int>>, i: nat)
    requires i < |ss|
    ensures Total(ss[..i + 1]) == Total(ss[..i]) + |ss[i]| <= Total(ss)
  {
    TotalGrows(ss, i + 1);
    assert ss[..i + 1][..i] == ss[..i];
  }

  // --- Union ---

  method AllSet(lists: seq<PList>) returns (ok: bool)
    ensures ok <==> forall i :: 0 <= i < |lists| ==> lists[i].valid == 0
  {
    for i := 0 to |lists|
      invariant forall k :: 0 <= k < i ==> lists[k].valid == 0
    {
      if lists[i].valid != 0 {
        return false;
      }
    }
    return true;
  }

  // Every value of vs that is not among the first `cursor` entries is appended.
  method AddList(list: array<int>, cursor: nat, vs: PList) returns (cursor': nat)
    requires vs.Valid() && list != vs.plist && cursor + vs.count <= list.Length
    modifies list
    ensures cursor <= cursor' <= cursor + vs.count
    ensures list[..cursor'] == AddAll(old(list[..cursor]), vs.Ranks())
  {
    cursor' := cursor;
    ghost var was, values := list[..cursor], vs.Ranks();
    for j := 0 to vs.count
      invariant cursor <= cursor' <= cursor + j && vs.Ranks() == values
      invariant list[..cursor'] == AddAll(was, values[..j])
    {
      AddAllNext(was, values, j);
      var k := Locate(list, cursor', vs.plist[j]);
      if k == cursor' {
        ghost var before := list[..cursor'];
        list[k] := vs.plist[j];
        cursor' := cursor' + 1;
        assert list[..cursor'] == before + [values[j]];
      }
    }
    assert values[..vs.count] == values;
  }

  lemma UnionNext(ss: seq<seq<int>>, i: nat)
    requires 0 < i < |ss|
    ensures UnionOf(ss[..i + 1]) == AddAll(UnionOf(ss[..i]), ss[i])
  {
    assert ss[..i + 1][..i] == ss[..i];
  }

  method CopyList(list: array<int>, vs: PList)
    requires vs.Valid() && list != vs.plist && vs.count <= list.Length
    modifies list
    ensures list[..vs.count] == vs.Ranks()
  {
    for i := 0 to vs.count
      invariant list[..i] == vs.Ranks()[..i]
    {
      list[i] := vs.plist[i];
    }
  }

  // The lists hold these ranks, in memory apart from `list`.
  ghost predicate Holds(lists: seq<PList>, ss: seq<seq<int>>, list: array<int>)
    reads lists, set p | p in lists :: p.plist
  {
    && |lists| == |ss|
    && forall i :: 0 <= i < |lists| ==> lists[i].Valid() && lists[i].plist != list && lists[i].Ranks() == ss[i]
  }

  // The copying loops of the union.
  method Merge(lists: seq<PList>, list: array<int>, ghost ss: seq<seq<int>>) returns (cursor: nat)
    requires lists != [] && Holds(lists, ss, list) && list.Length == Total(ss)
    modifies list
    ensures cursor <= list.Length && list[..cursor] == UnionOf(ss)
  {
    TotalOfFirst(ss);
    CopyList(list, lists[0]);
    cursor := lists[0].count;
    assert ss[..1] == [ss[0]];
    for i := 1 to |lists|
      invariant Holds(lists, ss, list)
      invariant cursor <= Total(ss[..i]) <= list.Length && list[..cursor] == UnionOf(ss[..i])
    {
      TotalNext(ss, i);
      UnionNext(ss, i);
      cursor := AddList(list, cursor, lists[i]);
    }
    assert ss[..|lists|] == ss;
  }

  method MergeAll(lists: seq<PList>, ghost ss: seq<seq<int>>) returns (list: array<int>, cursor: nat)
    requires lists != [] && (forall i :: 0 <= i < |lists| ==> lists[i].Valid()) && ss == Contents(lists)
    ensures fresh(list) && cursor <= list.Length && list[..cursor] == UnionOf(ss)
  {
    var total := TotalCount(lists);
    list := new int[total](_ => 0);
    assert Holds(lists, ss, list);
    cursor := Merge(lists, list, ss);
  }

  // Null when some list has places that are not set.
  method Union(lists: seq<PList>) returns (r: PList?)
    requires lists != [] && forall i :: 0 <= i < |lists| ==> lists[i].Valid()
    ensures r == null <==> exists i :: 0 <= i < |lists| && lists[i].valid != 0
    ensures r != null ==> fresh(r) && r.Valid() && r.valid == 0 && r.Ranks() == UnionOf(Contents(lists))
  {
    var ok := AllSet(lists);
    if !ok {
      return null;
    }
    var list, cursor := MergeAll(lists, Contents(lists));
    r := new PList(list, cursor, 0);
  }

  // --- Intersection ---

  ghost function TallyIn(list: array<int>, inclusion: array<int>, cursor: nat): (t: Tally)
    requires cursor <= list.Length && cursor <= inclusion.Length
    reads list, inclusion
    ensures |t.list| == |t.seen| == cursor
  {
    Tally(list[..cursor], inclusion[..cursor])
  }

  lemma BumpAllNext(t: Tally, vs: seq<int>, j: nat)
    requires |t.list| == |t.seen| && j < |vs|
    ensures BumpAll(t, vs[..j + 1]) == Bump(BumpAll(t, vs[..j]), vs[j])
  {
    assert vs[..j + 1][..j] == vs[..j];
  }

  // Every value of vs is counted at its place, or appended with count 1.
  method CountList(list: array<int>, inclusion: array<int>, cursor: nat, vs: PList) returns (cursor': nat)
    requires vs.Valid() && list != vs.plist && inclusion != vs.plist && list != inclusion
    requires list.Length == inclusion.Length && cursor + vs.count <= list.Length
    modifies list, inclusion
    ensures cursor <= cursor' <= cursor + vs.count
    ensures TallyIn(list, inclusion, cursor') == BumpAll(old(TallyIn(list, inclusion, cursor)), vs.Ranks())
  {
    cursor' := cursor;
    ghost var was, values := TallyIn(list, inclusion, cursor), vs.Ranks();
    for j := 0 to vs.count
      invariant cursor <= cursor' <= cursor + j && vs.Ranks() == values
      invariant TallyIn(list, inclusion, cursor') == BumpAll(was, values[..j])
    {
      BumpAllNext(was, values, j);
      cursor' := CountValue(list, inclusion, cursor', vs.plist[j]);
    }
    assert values[..vs.count] == values;
  }

  method CountValue(list: array<int>, inclusion: array<int>, cursor: nat, v: int) returns (cursor': nat)
    requires list != inclusion && list.Length == inclusion.Length && cursor < list.Length
    modifies list, inclusion
    ensures cursor <= cursor' <= cursor + 1
    ensures TallyIn(list, inclusion, cursor') == Bump(old(TallyIn(list, inclusion, cursor)), v)
  {
    ghost var was := TallyIn(list, inclusion, cursor);
    var k := Locate(list, cursor, v);
    if k < cursor {
      inclusion[k] := inclusion[k] + 1;
      assert inclusion[..cursor] == was.seen[k := was.seen[k] + 1];
      return cursor;
    }
    list[k] := v;
    inclusion[k] := 1;
    assert list[..cursor + 1] == was.list + [v] && inclusion[..cursor + 1] == was.seen + [1];
    return cursor + 1;
  }

  // The entries counted num times move to the front, in place.
  method Compact(list: array<int>, inclusion: array<int>, cursor: nat, num: int) returns (k: nat)
    requires list != inclusion && cursor <= list.Length == inclusion.Length
    modifies list
    ensures k <= cursor && list[..k] == Kept(old(TallyIn(list, inclusion, cursor)), num, cursor)
  {
    ghost var t := TallyIn(list, inclusion, cursor);
    k := 0;
    for i := 0 to cursor
      invariant k <= i && list[..k] == Kept(t, num, i)
      invariant list[i..cursor] == t.list[i..] && inclusion[..cursor] == t.seen
    {
      assert list[i..cursor][0] == t.list[i] && inclusion[i] == t.seen[i];
      if inclusion[i] == num {
        ghost var kept, rest := list[..k], list[i..cursor];
        list[k] := list[i];
        assert list[..k + 1] == kept + [t.list[i]];
        assert list[i + 1..cursor] == rest[1..];
        k := k + 1;
      } else {
        assert list[i + 1..cursor] == list[i..cursor][1..];
      }
    }
  }

  lemma TallyNext(ss: seq<seq<int>>, i: nat)
    requires 0 < i < |ss|
    ensures TallyOf(ss[..i + 1]) == BumpAll(TallyOf(ss[..i]), ss[i])
  {
    assert ss[..i + 1][..i] == ss[..i];
  }

  lemma TallyFirst(ss: seq<seq<int>>, seen: seq<int>)
    requires ss != [] && |seen| == |ss[0]| && forall k :: 0 <= k < |seen| ==> seen[k] == 1
    ensures TallyOf(ss[..1]) == Tally(ss[0], seen)
  {
    assert ss[..1][0] == ss[0];
    assert seen == seq(|ss[0]|, _ => 1);
  }

  method CountNext(lists: seq<PList>, list: array<int>, inclusion: array<int>, ghost ss: seq<seq<int>>,
                   cursor: nat, i: nat) returns (cursor': nat)
    requires 0 < i < |lists| && list != inclusion && list.Length == inclusion.Length == Total(ss)
    requires Holds(lists, ss, list) && Holds(lists, ss, inclusion)
    requires cursor <= Total(ss[..i]) <= list.Length && TallyIn(list, inclusion, cursor) == TallyOf(ss[..i])
    modifies list, inclusion
    ensures Holds(lists, ss, list) && Holds(lists, ss, inclusion)
    ensures cursor' <= Total(ss[..i + 1]) <= list.Length
    ensures TallyIn(list, inclusion, cursor') == TallyOf(ss[..i + 1])
  {
    TotalNext(ss, i);
    TallyNext(ss, i);
    cursor' := CountList(list, inclusion, cursor, lists[i]);
  }

  // The counting loops of the intersection.
  method Count(lists: seq<PList>, list: array<int>, inclusion: array<int>, ghost ss: seq<seq<int>>)
    returns (cursor: nat)
    requires lists != [] && list != inclusion && list.Length == inclusion.Length == Total(ss)
    requires Holds(lists, ss, list) && Holds(lists, ss, inclusion)
    requires forall k :: 0 <= k < inclusion.Length ==> inclusion[k] == 1
    modifies list, inclusion
    ensures cursor <= list.Length && TallyIn(list, inclusion, cursor) == TallyOf(ss)
  {
    TotalOfFirst(ss);
    CopyList(list, lists[0]);
    cursor := lists[0].count;
    TallyFirst(ss, inclusion[..cursor]);
    for i := 1 to |lists|
      invariant Holds(lists, ss, list) && Holds(lists, ss, inclusion)
      invariant cursor <= Total(ss[..i]) && Total(ss[..i]) <= list.Length
      invariant TallyIn(list, inclusion, cursor) == TallyOf(ss[..i])
    {
      cursor := CountNext(lists, list, inclusion, ss, cursor, i);
    }
    assert ss[..|lists|] == ss;
  }

  method CountAndCompact(lists: seq<PList>, ghost ss: seq<seq<int>>) returns (list: array<int>, k: nat)
    requires lists != [] && (forall i :: 0 <= i < |lists| ==> lists[i].Valid()) && ss == Contents(lists)
    ensures fresh(list) && k <= list.Length && list[..k] == IsectOf(ss)
  {
    var total := TotalCount(lists);
    list := new int[total](_ => 0);
    var inclusion := new int[total](_ => 1);
    var cursor := Count(lists, list, inclusion, ss);
    k := Compact(list, inclusion, cursor, |lists|);
  }

  // Null when some list has places that are not set, or nothing is common.
  method Isect(lists: seq<PList>) returns (r: PList?)
    requires lists != [] && forall i :: 0 <= i < |lists| ==> lists[i].Valid()
    ensures r == null <==> (exists i :: 0 <= i < |lists| && lists[i].valid != 0) || IsectOf(Contents(lists)) == []
    ensures r != null ==> fresh(r) && r.Valid() && r.valid == 0 && r.Ranks() == IsectOf(Contents(lists))
  {
    var ok := AllSet(lists);
    if !ok {
      return null;
    }
    var list, k := CountAndCompact(lists, Contents(lists));
    if k == 0 {
      return null;
    }
    assert list[..k] != [];
    r := new PList(list, k, 0);
  }

  // --- Difference ---

  // The first occurrence of v in a is flagged.
  method Flag(a: PList, flags: array<int>, v: int)
    requires a.Valid() && flags.Length == a.count && flags != a.plist
    modifies flags
    ensures forall j :: 0 <= j < a.count ==>
      flags[j] == if a.Ranks()[j] == v && v !in a.Ranks()[..j] then 1 else old(flags[j])
  {
    var k := Locate(a.plist, a.count, v);
    if k < a.count {
      flags[k] := 1;
    }
  }

  // The first loops: what is to be dropped is flagged.
  method FlagAll(a: PList, b: PList) returns (list: array<int>)
    requires a.Valid() && b.Valid()
    ensures fresh(list) && list.Length == a.count
    ensures forall k :: 0 <= k < a.count ==> list[k] == if Flagged(a.Ranks(), b.Ranks(), k) then 1 else 0
  {
    list := new int[a.count](_ => 0);
    for i := 0 to b.count
      invariant forall j :: 0 <= j < a.count ==>
        list[j] == if a.Ranks()[j] in b.Ranks()[..i] && a.Ranks()[j] !in a.Ranks()[..j] then 1 else 0
    {
      Flag(a, list, b.plist[i]);
      assert b.Ranks()[..i + 1] == b.Ranks()[..i] + [b.plist[i]];
    }
    assert b.Ranks()[..b.count] == b.Ranks();
  }

  // The last loop: the result overwrites the flags it has read.
  method KeepUnflagged(a: PList, list: array<int>, ghost b: seq<int>) returns (j: nat)
    requires a.Valid() && list.Length == a.count && list != a.plist
    requires forall k :: 0 <= k < a.count ==> list[k] == if Flagged(a.Ranks(), b, k) then 1 else 0
    modifies list
    ensures j <= list.Length && list[..j] == DiffTo(a.Ranks(), b, a.count)
  {
    j := 0;
    ghost var ranks := a.Ranks();
    for i := 0 to a.count
      invariant a.Ranks() == ranks && j <= i && list[..j] == DiffTo(ranks, b, i)
      invariant forall k :: i <= k < a.count ==> list[k] == if Flagged(ranks, b, k) then 1 else 0
    {
      if list[i] == 0 {
        ghost var kept := list[..j];
        list[j] := a.plist[i];
        assert list[..j + 1] == kept + [ranks[i]];
        j := j + 1;
      }
    }
  }

  // Flags first, then the result: the same memory serves for both.
  method Diff(a: PList?, b: PList?) returns (r: PList?)
    requires (a != null ==> a.Valid()) && (b != null ==> b.Valid())
    ensures r == null <==> a == null || b == null || a.valid != 0 || b.valid != 0
    ensures r != null ==> fresh(r) && r.Valid() && r.valid == 0 && r.Ranks() == DiffTo(a.Ranks(), b.Ranks(), a.count)
  {
    if a == null || b == null || a.valid != 0 || b.valid != 0 {
      return null;
    }
    var list := FlagAll(a, b);
    var j := KeepUnflagged(a, list, b.Ranks());
    r := new PList(list, j, 0);
  }
}
