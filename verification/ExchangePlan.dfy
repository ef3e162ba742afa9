// The distributed bit-reversal permutation. Node r holds a block of m
// coefficients. It first sends every coefficient that belongs elsewhere, together
// with its index there, and saves the ones that stay; then it gets one pair for
// every position it has sent away and stores it where the pair says.
module ExchangePlan {

  // Position i of node r is exchanged with position index(r, i) of node(r, i).
  datatype Plan = Plan(p: nat, m: nat, node: (nat, nat) -> nat, index: (nat, nat) -> nat)

  ghost predicate MutualAt(pl: Plan, r: nat, i: nat) {
    var k, j := pl.node(r, i), pl.index(r, i);
    k < pl.p && j < pl.m && pl.node(k, j) == r && pl.index(k, j) == i
  }

  ghost predicate Mutual(pl: Plan) {
    forall r: nat, i: nat :: r < pl.p && i < pl.m ==> MutualAt(pl, r, i)
  }

  // How many of the first i positions of r go to k.
  function Count(pl: Plan, r: nat, k: nat, i: nat): nat {
    if i == 0 then 0 else Count(pl, r, k, i - 1) + if pl.node(r, i - 1) == k then 1 else 0
  }

  // The pairs that r sends to k, from its first i positions.
  function Pairs<T>(pl: Plan, init: (nat, nat) -> T, r: nat, k: nat, i: nat): (s: seq<(nat, T)>)
    ensures |s| == Count(pl, r, k, i)
  {
    if i == 0 then []
    else Pairs(pl, init, r, k, i - 1) +
         if pl.node(r, i - 1) == k then [(pl.index(r, i - 1), init(r, i - 1))] else []
  }

  lemma {:induction false} PairAt<T>(pl: Plan, init: (nat, nat) -> T, r: nat, k: nat, i: nat, n: nat)
    requires i < n && pl.node(r, i) == k
    ensures Count(pl, r, k, i) < Count(pl, r, k, n)
    ensures Pairs(pl, init, r, k, n)[Count(pl, r, k, i)] == (pl.index(r, i), init(r, i))
  {
    if i < n - 1 {
      PairAt(pl, init, r, k, i, n - 1);
    }
  }

  lemma {:induction false} PairOrigin<T>(pl: Plan, init: (nat, nat) -> T, r: nat, k: nat, n: nat, t: nat)
    returns (i: nat)
    requires t < Count(pl, r, k, n)
    ensures i < n && pl.node(r, i) == k && Count(pl, r, k, i) == t
    ensures Pairs(pl, init, r, k, n)[t] == (pl.index(r, i), init(r, i))
  {
    if t < Count(pl, r, k, n - 1) {
      i := PairOrigin(pl, init, r, k, n - 1, t);
    } else {
      i := n - 1;
    }
  }

  lemma {:induction false} CountWithin(pl: Plan, r: nat, k: nat, i: nat, n: nat)
    requires i <= n
    ensures Count(pl, r, k, i) <= Count(pl, r, k, n) && Count(pl, r, k, i) <= i
    decreases n
  {
    if i < n {
      CountWithin(pl, r, k, i, n - 1);
    } else if i > 0 {
      CountWithin(pl, r, k, i - 1, n - 1);
    }
  }

  ghost function Going(pl: Plan, r: nat, k: nat, n: nat): set<nat> {
    set i: nat | i < n && pl.node(r, i) == k
  }

  lemma {:induction false} CountIsSize(pl: Plan, r: nat, k: nat, n: nat)
    ensures Count(pl, r, k, n) == |Going(pl, r, k, n)|
  {
    if n > 0 {
      CountIsSize(pl, r, k, n - 1);
      if pl.node(r, n - 1) == k {
        assert Going(pl, r, k, n) == Going(pl, r, k, n - 1) + {n - 1};
      } else {
        assert Going(pl, r, k, n) == Going(pl, r, k, n - 1);
      }
    }
  }

  lemma {:induction false} InjectionFits(f: nat -> nat, a: set<nat>, b: set<nat>)
    requires forall x :: x in a ==> f(x) in b
    requires forall x, y :: x in a && y in a && f(x) == f(y) ==> x == y
    ensures |a| <= |b|
    decreases |a|
  {
    if a != {} {
      var x :| x in a;
      InjectionFits(f, a - {x}, b - {f(x)});
    }
  }

  lemma GoingFits(pl: Plan, r: nat, k: nat)
    requires Mutual(pl) && r < pl.p && k < pl.p
    ensures |Going(pl, r, k, pl.m)| <= |Going(pl, k, r, pl.m)|
  {
    var f := (i: nat) => pl.index(r, i);
    forall i | i in Going(pl, r, k, pl.m) ensures MutualAt(pl, r, i) && f(i) in Going(pl, k, r, pl.m) {
    }
    forall x, y | x in Going(pl, r, k, pl.m) && y in Going(pl, r, k, pl.m) && f(x) == f(y) ensures x == y {
      assert MutualAt(pl, r, x) && MutualAt(pl, r, y);
    }
    InjectionFits(f, Going(pl, r, k, pl.m), Going(pl, k, r, pl.m));
  }

  // As many pairs go from r to k as from k to r.
  lemma CountsSymmetric(pl: Plan, r: nat, k: nat)
    requires Mutual(pl) && r < pl.p && k < pl.p
    ensures Count(pl, r, k, pl.m) == Count(pl, k, r, pl.m)
  {
    CountIsSize(pl, r, k, pl.m);
    CountIsSize(pl, k, r, pl.m);
    GoingFits(pl, r, k);
    GoingFits(pl, k, r);
  }

  // Step i of the second loop of node r, with the pair it gets.
  function Stored<T>(pl: Plan, init: (nat, nat) -> T, block: seq<T>, r: nat, i: nat): seq<T>
    requires i < |block|
  {
    var k := pl.node(r, i);
    var t := Count(pl, r, k, i);
    if k == r then block[i := init(r, pl.index(r, i))]
    else if t < Count(pl, k, r, pl.m) then
      var pair := Pairs(pl, init, k, r, pl.m)[t];
      if pair.0 < |block| then block[pair.0 := pair.1] else block
    else block
  }

  // The block of node r after the first i steps of its second loop.
  function Block<T>(pl: Plan, init: (nat, nat) -> T, r: nat, i: nat): (b: seq<T>)
    requires i <= pl.m
    ensures |b| == pl.m
  {
    if i == 0 then seq(pl.m, (j: nat) => init(r, j))
    else Stored(pl, init, Block(pl, init, r, i - 1), r, i - 1)
  }

  // Position q is written in step i.
  ghost predicate Writes(pl: Plan, r: nat, i: nat, q: nat) {
    var k := pl.node(r, i);
    if k == r then q == i
    else pl.node(r, q) == k && Count(pl, k, r, pl.index(r, q)) == Count(pl, r, k, i)
  }

  // Every value stored belongs where it is stored ...
  lemma StoresRight<T>(pl: Plan, init: (nat, nat) -> T, block: seq<T>, r: nat, i: nat, q: nat)
    requires Mutual(pl) && r < pl.p && i < pl.m && |block| == pl.m && q < pl.m
    ensures |Stored(pl, init, block, r, i)| == pl.m
    ensures
      var value := Stored(pl, init, block, r, i)[q];
      value == block[q] || value == init(pl.node(r, q), pl.index(r, q))
    ensures Writes(pl, r, i, q) ==> Stored(pl, init, block, r, i)[q] == init(pl.node(r, q), pl.index(r, q))
  {
    var k := pl.node(r, i);
    var t := Count(pl, r, k, i);
    assert MutualAt(pl, r, i) && MutualAt(pl, r, q);
    if k != r {
      if t < Count(pl, k, r, pl.m) {
        var j := PairOrigin(pl, init, k, r, pl.m, t);
        assert MutualAt(pl, k, j);
      }
      if Writes(pl, r, i, q) {
        PairAt(pl, init, k, r, pl.index(r, q), pl.m);
      }
    }
  }

  lemma {:induction false} StaysRight<T>(pl: Plan, init: (nat, nat) -> T, r: nat, i: nat, q: nat, n: nat)
    requires Mutual(pl) && r < pl.p && i < n <= pl.m && q < pl.m && Writes(pl, r, i, q)
    ensures Block(pl, init, r, n)[q] == init(pl.node(r, q), pl.index(r, q))
  {
    StoresRight(pl, init, Block(pl, init, r, n - 1), r, n - 1, q);
    if i < n - 1 {
      StaysRight(pl, init, r, i, q, n - 1);
    }
  }

  // ... and every position is stored to: all of the block is exchanged.
  lemma BlockExchanged<T>(pl: Plan, init: (nat, nat) -> T, r: nat, q: nat)
    requires Mutual(pl) && r < pl.p && q < pl.m
    ensures Block(pl, init, r, pl.m)[q] == init(pl.node(r, q), pl.index(r, q))
  {
    var k, j := pl.node(r, q), pl.index(r, q);
    assert MutualAt(pl, r, q);
    var i := q;
    if k != r {
      PairAt(pl, init, k, r, j, pl.m);
      CountsSymmetric(pl, r, k);
      i := PairOrigin(pl, init, r, k, pl.m, Count(pl, k, r, j));
    }
    StaysRight(pl, init, r, i, q, pl.m);
  }
}
