// Runs of a step system, and the two induction principles every concurrent
// part of this project uses: an invariant of the steps holds in every state of
// every run, and a measure that falls with each step bounds the run's length.
module Runs {

  ghost predicate IsRun<S(!new)>(init: S -> bool, next: (S, S) -> bool, run: seq<S>) {
    && |run| > 0
    && init(run[0])
    && forall i :: 0 <= i < |run| - 1 ==> next(run[i], run[i + 1])
  }

  // A run is a first state and then one step after another.
  lemma RunGrows<S(!new)>(init: S -> bool, next: (S, S) -> bool, run: seq<S>, s: S)
    ensures IsRun(init, next, [s]) <==> init(s)
    ensures run != [] ==> (IsRun(init, next, run + [s]) <==> IsRun(init, next, run) && next(run[|run| - 1], s))
  {
    var longer := run + [s];
    if run != [] && IsRun(init, next, run) && next(run[|run| - 1], s) {
      forall i | 0 <= i < |longer| - 1 ensures next(longer[i], longer[i + 1]) {
        assert i < |run| - 1 ==> next(run[i], run[i + 1]);
      }
    }
    if run != [] && IsRun(init, next, longer) {
      assert next(longer[|run| - 1], longer[|run| - 1 + 1]);
      forall i | 0 <= i < |run| - 1 ensures next(run[i], run[i + 1]) {
        assert next(longer[i], longer[i + 1]);
      }
    }
  }

  lemma {:induction false} InvariantHolds<S(!new)>(
    init: S -> bool, next: (S, S) -> bool, inv: S -> bool, run: seq<S>, i: nat)
    requires IsRun(init, next, run) && i < |run|
    requires forall s :: init(s) ==> inv(s)
    requires forall s, s' :: inv(s) && next(s, s') ==> inv(s')
    ensures inv(run[i])
    decreases i
  {
    if i > 0 {
      InvariantHolds(init, next, inv, run, i - 1);
      assert next(run[i - 1], run[i - 1 + 1]);
    }
  }

  lemma {:induction false} LengthBounded<S(!new)>(
    init: S -> bool, next: (S, S) -> bool, inv: S -> bool, rank: S -> nat, run: seq<S>)
    requires IsRun(init, next, run)
    requires forall s :: init(s) ==> inv(s)
    requires forall s, s' :: inv(s) && next(s, s') ==> inv(s') && rank(s') < rank(s)
    ensures |run| <= rank(run[0]) + 1
    decreases |run|
  {
    if |run| > 1 {
      var shorter := run[..|run| - 1];
      RankFalls(init, next, inv, rank, run, |run| - 1);
    }
  }

  ghost predicate Ended<S(!new)>(next: (S, S) -> bool, s: S) {
    forall s' :: !next(s, s')
  }

  // Where every step lowers a rank, each run can be continued to one that ends.
  lemma {:induction false} RunEnds<S(!new)>(
    init: S -> bool, next: (S, S) -> bool, inv: S -> bool, rank: S -> nat, run: seq<S>) returns (run': seq<S>)
    requires IsRun(init, next, run)
    requires forall s :: init(s) ==> inv(s)
    requires forall s, s' :: inv(s) && next(s, s') ==> inv(s') && rank(s') < rank(s)
    ensures IsRun(init, next, run') && run <= run' && Ended(next, run'[|run'| - 1])
    decreases rank(run[|run| - 1])
  {
    var last := run[|run| - 1];
    run' := run;
    if s' :| next(last, s') {
      RankFalls(init, next, inv, rank, run, |run| - 1);
      RunGrows(init, next, run, s');
      run' := RunEnds(init, next, inv, rank, run + [s']);
    }
  }

  lemma {:induction false} RankFalls<S(!new)>(
    init: S -> bool, next: (S, S) -> bool, inv: S -> bool, rank: S -> nat, run: seq<S>, i: nat)
    requires IsRun(init, next, run) && i < |run|
    requires forall s :: init(s) ==> inv(s)
    requires forall s, s' :: inv(s) && next(s, s') ==> inv(s') && rank(s') < rank(s)
    ensures inv(run[i]) && rank(run[i]) + i <= rank(run[0])
    decreases i
  {
    if i > 0 {
      RankFalls(init, next, inv, rank, run, i - 1);
      assert next(run[i - 1], run[i - 1 + 1]);
    }
  }
}

// Runs together with the events that make them.
module Traces {
  import opened Runs

  ghost predicate IsTrace<S(!new), E(!new)>(
    init: S -> bool, does: (S, E, S) -> bool, run: seq<S>, events: seq<E>) {
    && |run| == |events| + 1
    && init(run[0])
    && forall i :: 0 <= i < |events| ==> does(run[i], events[i], run[i + 1])
  }

  // Every sequence of events that can be done is a run of the steps.
  lemma TraceIsRun<S(!new), E(!new)>(
    init: S -> bool, does: (S, E, S) -> bool, next: (S, S) -> bool, run: seq<S>, events: seq<E>)
    requires IsTrace(init, does, run, events)
    requires forall s, e, s' :: does(s, e, s') ==> next(s, s')
    ensures IsRun(init, next, run)
  {
    forall i | 0 <= i < |run| - 1 ensures next(run[i], run[i + 1]) {
      assert does(run[i], events[i], run[i + 1]);
    }
  }

  // An invariant that speaks of the state and of the events so far.
  lemma {:induction false} TraceHolds<S(!new), E(!new)>(
    init: S -> bool, does: (S, E, S) -> bool, inv: (S, seq<E>) -> bool, run: seq<S>, events: seq<E>, i: nat)
    requires IsTrace(init, does, run, events) && i < |run|
    requires forall s :: init(s) ==> inv(s, [])
    requires forall s, es, e, s' :: inv(s, es) && does(s, e, s') ==> inv(s', es + [e])
    ensures inv(run[i], events[..i])
    decreases i
  {
    if i > 0 {
      TraceHolds(init, does, inv, run, events, i - 1);
      assert does(run[i - 1], events[i - 1], run[i - 1 + 1]);
      assert events[..i] == events[..i - 1] + [events[i - 1]];
    } else {
      assert events[..0] == [];
    }
  }
}

// Sums over the processes of a system, for ranking arguments.
module Sums {

  function Sum(s: seq<nat>): nat {
    if s == [] then 0 else s[0] + Sum(s[1..])
  }

  lemma {:induction false} SumUpdate(s: seq<nat>, i: nat, v: nat)
    requires i < |s|
    ensures Sum(s[i := v]) + s[i] == Sum(s) + v
  {
    if i > 0 {
      SumUpdate(s[1..], i - 1, v);
      assert s[i := v][1..] == s[1..][i - 1 := v];
    } else {
      assert s[i := v][1..] == s[1..];
    }
  }

  lemma {:induction false} SumConstant(s: seq<nat>, v: nat)
    requires forall i :: 0 <= i < |s| ==> s[i] == v
    ensures Sum(s) == |s| * v
  {
    if s != [] {
      SumConstant(s[1..], v);
      assert |s| * v == (|s| - 1) * v + v;
    }
  }
}
