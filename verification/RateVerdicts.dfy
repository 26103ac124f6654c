// Which sub-routines of the rate test retire, and when: the test of a measured rate against the share
// of the curve that falls to a sub-routine.
module RateVerdicts {
  import opened RateProtocol
  import Arith

  // The sub-routines in the pool that measured no round from q on.
  ghost function Gone(s: System, q: nat): set<int>
  {
    set j | 0 <= j < |s.pairs| && j in s.pool && |s.pairs[j]| <= q
  }

  // Among how many sub-routines the rate of round q is divided.
  ghost function Share(c: Config, s: System, q: nat): int
  {
    if c.concurrent then 1 else c.n - |Gone(s, q)|
  }

  // Round q is the last one of the curve, or the sub-routine received less in it than the threshold asks
  // for of its share.
  ghost predicate Misses(c: Config, s: System, i: nat, q: nat)
    requires i < |s.pairs| && q < |s.pairs[i]| && q < |c.curve|
  {
    q == |c.curve| - 1
    || (!c.ignoreThreshold && Share(c, s, q) >= 1
        && s.pairs[i][q].rx < c.threshold * ((c.curve[q] / Share(c, s, q)) as real))
  }

  // The sub-routine has retired or is about to.
  ghost predicate Leaving(s: System, i: nat)
    requires i < |s.subs|
  {
    match s.subs[i]
    case Idle => i in s.pool
    case Running(_) => false
    case Reporting(v) => v != NONE
    case InChannel(v) => v != NONE
    case Collected(v) => v != NONE
  }

  // A sub-routine misses exactly the round after which it leaves.
  ghost predicate VerdictsOf(c: Config, s: System, i: nat)
    requires i < |s.pairs| && i < |s.subs|
  {
    && |s.pairs[i]| <= |c.curve|
    && forall q :: 0 <= q < |s.pairs[i]| ==> (Misses(c, s, i, q) <==> q + 1 == |s.pairs[i]| && Leaving(s, i))
  }

  ghost predicate Verdicts(c: Config, s: System)
    requires Shaped(c, s)
  {
    && (forall i :: 0 <= i < c.n ==> VerdictsOf(c, s, i))
    && (forall i :: 0 <= i < c.n && s.subs[i].Running? ==> s.subs[i].finished == |Gone(s, s.ratePos)|)
    && (s.phase.Launching? ==> |s.pool| == |Gone(s, s.ratePos)|)
  }

  // ---------- every step keeps it ----------

  lemma ShareOk(c: Config, s: System, i: nat, q: nat)
    requires Shaped(c, s) && PoolOk(c, s) && i < c.n && q < |s.pairs[i]|
    ensures |Gone(s, q)| < c.n && Share(c, s, q) >= 1
  {
    assert Gone(s, q) <= Arith.Range(c.n) - {i as int};
    Arith.SubsetBySize(Gone(s, q), Arith.Range(c.n) - {i as int});
  }

  // What a sub-routine has missed depends on its own pairs and on who was gone.
  lemma MissesSame(c: Config, s: System, t: System, i: nat, q: nat)
    requires i < |s.pairs| && i < |t.pairs| && q < |s.pairs[i]| && q < |t.pairs[i]| && q < |c.curve|
    requires s.pairs[i][q] == t.pairs[i][q] && Gone(s, q) == Gone(t, q)
    ensures Misses(c, s, i, q) <==> Misses(c, t, i, q)
  {
  }

  lemma VerdictsSame(c: Config, s: System, t: System, i: nat)
    requires i < |s.pairs| && i < |s.subs| && i < |t.pairs| && i < |t.subs|
    requires s.pairs[i] == t.pairs[i] && (Leaving(s, i) <==> Leaving(t, i))
    requires forall q :: 0 <= q < |s.pairs[i]| ==> Gone(s, q) == Gone(t, q)
    ensures VerdictsOf(c, s, i) ==> VerdictsOf(c, t, i)
  {
    hide Misses, Gone, Leaving;
    if VerdictsOf(c, s, i) {
      forall q | 0 <= q < |s.pairs[i]| ensures Misses(c, s, i, q) <==> Misses(c, t, i, q) {
        MissesSame(c, s, t, i, q);
      }
    }
  }

  lemma FreshVerdicts(c: Config)
    requires Sane(c)
    ensures Verdicts(c, Fresh(c))
  {
    var s := Fresh(c);
    assert Gone(s, 0) == {};
  }

  lemma LaunchVerdicts(c: Config, s: System)
    requires Sane(c) && Invariant(c, s) && Verdicts(c, s) && s.phase.Launching?
    ensures Verdicts(c, Launched(c, s))
  {
    var t := Launched(c, s);
    hide AccOk, ChanOk, CountOk, Misses;
    assert forall q :: Gone(t, q) == Gone(s, q);
    hide Gone;
    forall i | 0 <= i < c.n ensures VerdictsOf(c, t, i) {
      assert SubOk(c, s, i);
      VerdictsSame(c, s, t, i);
    }
    hide VerdictsOf, SubsOk, PoolOk;
  }

  lemma DeliverVerdicts(c: Config, s: System, i: nat)
    requires Sane(c) && Invariant(c, s) && Verdicts(c, s) && Enabled(c, s, Deliver(i))
    ensures Verdicts(c, Next(c, s, Deliver(i)))
  {
    var t := Next(c, s, Deliver(i));
    hide AccOk, ChanOk, CountOk, SubsOk, PoolOk, Misses;
    assert forall q :: Gone(t, q) == Gone(s, q);
    hide Gone;
    forall j | 0 <= j < c.n ensures VerdictsOf(c, t, j) {
      VerdictsSame(c, s, t, j);
    }
    hide VerdictsOf;
  }

  lemma MeasureVerdicts(c: Config, s: System, i: nat, pair: Pair)
    requires Sane(c) && Invariant(c, s) && Verdicts(c, s) && Enabled(c, s, Measure(i, pair))
    ensures Verdicts(c, Next(c, s, Measure(i, pair)))
  {
    var t := Next(c, s, Measure(i, pair));
    assert SubOk(c, s, i);
    hide AccOk, ChanOk, CountOk, SubsOk;
    SameGone(s, t, i);
    MeasuredVerdict(c, s, i, pair);
    hide Gone, Verdict, PoolOk;
    forall j | 0 <= j < c.n && j != i ensures VerdictsOf(c, t, j) {
      VerdictsSame(c, s, t, j);
    }
    hide VerdictsOf;
  }

  lemma SameGone(s: System, t: System, i: nat)
    requires |s.pairs| == |t.pairs| && s.pool == t.pool && i < |s.pairs| && i !in s.pool
    requires forall j :: 0 <= j < |s.pairs| && j != i ==> s.pairs[j] == t.pairs[j]
    ensures forall q: nat :: Gone(t, q) == Gone(s, q)
  {
  }

  // The verdict on the round just measured is the test against the share.
  lemma MeasuredVerdict(c: Config, s: System, i: nat, pair: Pair)
    requires Sane(c) && Shaped(c, s) && PoolOk(c, s) && Verdicts(c, s) && Enabled(c, s, Measure(i, pair))
    requires i !in s.pool && |s.pairs[i]| == s.ratePos
    ensures VerdictsOf(c, Next(c, s, Measure(i, pair)), i)
  {
    var t := Next(c, s, Measure(i, pair));
    var p := s.ratePos;
    SameGone(s, t, i);
    ShareOk(c, t, i, p);
    assert VerdictsOf(c, s, i) && !Leaving(s, i);
    assert Misses(c, t, i, p) <==> Verdict(c, p, i, s.subs[i].finished, pair) != NONE;
    hide Gone, Verdict;
    forall q | 0 <= q < p ensures !Misses(c, t, i, q) {
      assert t.pairs[i][q] == s.pairs[i][q];
      MissesSame(c, s, t, i, q);
    }
  }

  lemma ReceiveVerdicts(c: Config, s: System)
    requires Sane(c) && Invariant(c, s) && Verdicts(c, s) && Enabled(c, s, Receive)
    ensures Verdicts(c, Next(c, s, Receive))
  {
    var t := Next(c, s, Receive);
    var m := s.chan[0];
    assert s.subs[m.sender] == InChannel(m.value);
    assert SubOk(c, s, m.sender);
    hide AccOk, ChanOk, CountOk, PoolOk, Misses;
    LaterGone(s, t, m.sender, s.ratePos);
    forall i | 0 <= i < c.n ensures VerdictsOf(c, t, i) {
      assert SubOk(c, s, i);
      LeavingReceived(c, s, i);
      hide Gone, Leaving;
      VerdictsSame(c, s, t, i);
    }
    hide VerdictsOf, Gone, SubsOk;
  }

  lemma LeavingReceived(c: Config, s: System, i: nat)
    requires Invariant(c, s) && Enabled(c, s, Receive) && i < c.n
    ensures |s.pairs[i]| <= s.ratePos + 1
    ensures Leaving(s, i) <==> Leaving(Next(c, s, Receive), i)
  {
    hide AccOk, CountOk, PoolOk;
    assert s.subs[s.chan[0].sender] == InChannel(s.chan[0].value);
    assert SubOk(c, s, i) && SubOk(c, s, s.chan[0].sender);
  }

  // Who retires in the current round was not gone before it.
  lemma LaterGone(s: System, t: System, i: nat, pos: nat)
    requires t.pairs == s.pairs && i < |s.pairs| && |s.pairs[i]| == pos + 1
    requires forall x :: x != i ==> (x in t.pool <==> x in s.pool)
    requires i in s.pool ==> i in t.pool
    ensures forall q: nat :: q <= pos ==> Gone(t, q) == Gone(s, q)
  {
  }

  lemma CloseVerdicts(c: Config, s: System)
    requires Sane(c) && Invariant(c, s) && Verdicts(c, s) && Enabled(c, s, Close)
    ensures Verdicts(c, Next(c, s, Close))
  {
    var t := Next(c, s, Close);
    BarrierClear(c, s);
    hide AccOk, ChanOk, CountOk, Accumulated, Misses;
    assert forall q :: Gone(t, q) == Gone(s, q);
    forall i | 0 <= i < c.n ensures VerdictsOf(c, t, i) && |s.pairs[i]| <= s.ratePos + 1 {
      assert SubOk(c, s, i);
      hide Gone;
      VerdictsSame(c, s, t, i);
    }
    if t.phase.Launching? {
      PoolGone(c, t);
    }
    hide VerdictsOf, Gone, SubsOk, PoolOk;
  }

  lemma PoolGone(c: Config, s: System)
    requires Shaped(c, s) && PoolOk(c, s) && forall i :: 0 <= i < c.n ==> |s.pairs[i]| <= s.ratePos
    ensures |s.pool| == |Gone(s, s.ratePos)|
  {
    Arith.DistinctSize(s.pool);
    assert Arith.Elems(s.pool) == Gone(s, s.ratePos);
  }

  lemma {:induction false} RunsKeepVerdicts(c: Config, run: seq<System>, actions: seq<Action>, k: nat)
    requires Sane(c) && IsRun(c, run, actions) && k < |run|
    ensures Shaped(c, run[k]) && Verdicts(c, run[k])
    decreases k
  {
    hide Invariant, Enabled, Next, Verdicts, Shaped;
    if k == 0 {
      StartInvariant(c);
      ShapedStart(c);
      FreshVerdicts(c);
    } else {
      RunsKeepVerdicts(c, run, actions, k - 1);
      RunStep(c, run, actions, k - 1);
      RunsKeepInvariant(c, run, actions, k - 1);
      StepVerdicts(c, run[k - 1], actions[k - 1]);
    }
  }

  lemma ShapedStart(c: Config)
    requires Sane(c)
    ensures Shaped(c, Fresh(c))
  {
  }

  lemma StepVerdicts(c: Config, s: System, a: Action)
    requires Sane(c) && Invariant(c, s) && Enabled(c, s, a) && Shaped(c, s) && Verdicts(c, s)
    ensures Shaped(c, Next(c, s, a)) && Verdicts(c, Next(c, s, a))
  {
    match a
    case LaunchNext => LaunchVerdicts(c, s);
    case Measure(i, pair) => MeasureVerdicts(c, s, i, pair);
    case Deliver(i) => DeliverVerdicts(c, s, i);
    case Receive => ReceiveVerdicts(c, s);
    case Close => CloseVerdicts(c, s);
    hide Verdicts, Verdict, Accumulated;
  }

  // ---------- who retires when ----------

  // How many sub-routines measured no round from q on, after a completed run.
  ghost function RetiredBefore(pairs: seq<seq<Pair>>, q: nat): set<int>
  {
    set j | 0 <= j < |pairs| && |pairs[j]| <= q
  }

  lemma AllGone(c: Config, s: System, q: nat)
    requires Invariant(c, s) && s.phase.Finished?
    ensures Gone(s, q) == RetiredBefore(s.pairs, q)
  {
    FullPool(c, s);
    hide SubsOk, ChanOk, AccOk, CountOk;
  }

  // After a completed run: round q is the last one that sub-routine i measured exactly if it is the last
  // of the curve, or the threshold counts and i received less than it asks for of its share, which is the
  // rate of the round divided among those that had not retired before it, or undivided.
  lemma LastRoundIff(c: Config, run: seq<System>, actions: seq<Action>, i: nat, q: nat)
    requires Sane(c) && IsRun(c, run, actions) && run[|actions|].phase.Finished? && i < c.n
    ensures var s := run[|actions|];
      && Shaped(c, s) && i in s.pool && |s.pairs[i]| <= |c.curve|
      && (q < |s.pairs[i]| ==>
            var among := if c.concurrent then 1 else c.n - |RetiredBefore(s.pairs, q)|;
            && among >= 1
            && (|s.pairs[i]| == q + 1 <==>
                  q == |c.curve| - 1
                  || (!c.ignoreThreshold && s.pairs[i][q].rx < c.threshold * ((c.curve[q] / among) as real))))
  {
    var s := run[|actions|];
    RunsKeepInvariant(c, run, actions, |actions|);
    RunsKeepVerdicts(c, run, actions, |actions|);
    FullPool(c, s);
    hide IsRun, AccOk, ChanOk, Misses, Share, Gone, RetiredBefore, PoolOk, Sane;
    assert SubOk(c, s, i) && VerdictsOf(c, s, i) && Leaving(s, i);
    hide CountOk, SubsOk, Verdicts, Leaving;
    if q < |s.pairs[i]| {
      MissesRaw(c, s, i, q);
    }
  }

  lemma MissesRaw(c: Config, s: System, i: nat, q: nat)
    requires Invariant(c, s) && s.phase.Finished? && i < c.n && q < |s.pairs[i]| && q < |c.curve|
    ensures var among := if c.concurrent then 1 else c.n - |RetiredBefore(s.pairs, q)|;
      && among >= 1
      && (Misses(c, s, i, q) <==>
            q == |c.curve| - 1
            || (!c.ignoreThreshold && s.pairs[i][q].rx < c.threshold * ((c.curve[q] / among) as real)))
  {
    AllGone(c, s, q);
    ShareOk(c, s, i, q);
    hide Gone, RetiredBefore, SubsOk, ChanOk, AccOk, CountOk, PoolOk;
  }

  // The step in which sub-routine i is put into the pool, in round q.
  ghost predicate RetiresAt(run: seq<System>, i: nat, q: nat, k: nat)
  {
    k + 1 < |run| && i !in run[k].pool && i in run[k + 1].pool && run[k].ratePos == q
  }

  // A sub-routine retires in round q exactly if it has measured it and misses it.
  lemma RetiresIff(c: Config, run: seq<System>, actions: seq<Action>, i: nat, q: nat)
    requires Sane(c) && IsRun(c, run, actions) && run[|actions|].phase.Finished? && i < c.n
    ensures var s := run[|actions|];
      && Shaped(c, s)
      && ((exists k: nat :: RetiresAt(run, i, q, k)) <==>
            && q < |s.pairs[i]| && q < |c.curve|
            && var among := if c.concurrent then 1 else c.n - |RetiredBefore(s.pairs, q)|;
               among >= 1 &&
               (q == |c.curve| - 1
                || (!c.ignoreThreshold && s.pairs[i][q].rx < c.threshold * ((c.curve[q] / among) as real))))
  {
    var m := |actions|;
    LastRoundIff(c, run, actions, i, q);
    hide Sane, RetiredBefore, Shaped;
    if k: nat :| RetiresAt(run, i, q, k) {
      RetiresOnce(c, run, actions, i, k, m);
    }
    var k := JoinStep(c, run, actions, i, m);
    RetiresOnce(c, run, actions, i, k, m);
    assert RetiresAt(run, i, run[k].ratePos, k);
  }

  // If every sub-routine reaches its share in every round it measures, or the threshold does not count,
  // the test uses the whole curve.
  lemma WholeCurve(c: Config, run: seq<System>, actions: seq<Action>)
    requires Sane(c) && IsRun(c, run, actions) && run[|actions|].phase.Finished?
    requires Shaped(c, run[|actions|])
    requires c.ignoreThreshold || forall i, q :: 0 <= i < c.n && 0 <= q < |run[|actions|].pairs[i]| && q < |c.curve| ==>
      KeepsUp(c, run[|actions|].pairs, i, q)
    ensures |run[|actions|].accData| == |c.curve|
    ensures forall i :: 0 <= i < c.n ==> |run[|actions|].pairs[i]| == |c.curve|
  {
    var s := run[|actions|];
    CompletedRun(c, run, actions);
    hide IsRun, MaxRx, RetiredBefore;
    forall i | 0 <= i < c.n ensures |s.pairs[i]| == |c.curve| {
      MeasuresSome(c, run, actions, i);
      LastRoundIff(c, run, actions, i, |s.pairs[i]| - 1);
      var q := |s.pairs[i]| - 1;
      assert c.ignoreThreshold || KeepsUp(c, s.pairs, i, q);
    }
    MeasuredRounds(c, run, actions, 0);
  }

  ghost predicate KeepsUp(c: Config, pairs: seq<seq<Pair>>, i: nat, q: nat)
    requires i < |pairs| && q < |pairs[i]| && q < |c.curve|
  {
    var among := if c.concurrent then 1 else c.n - |RetiredBefore(pairs, q)|;
    among >= 1 ==> pairs[i][q].rx >= c.threshold * ((c.curve[q] / among) as real)
  }

  lemma MeasuresSome(c: Config, run: seq<System>, actions: seq<Action>, i: nat)
    requires Sane(c) && IsRun(c, run, actions) && run[|actions|].phase.Finished? && i < c.n
    ensures Shaped(c, run[|actions|]) && |run[|actions|].pairs[i]| >= 1
  {
    var m := |actions|;
    RunsKeepInvariant(c, run, actions, m);
    FullPool(c, run[m]);
    hide Invariant, Sane;
    var k := JoinStep(c, run, actions, i, m);
    RetiresOnce(c, run, actions, i, k, m);
  }

  lemma MeasuredRounds(c: Config, run: seq<System>, actions: seq<Action>, i: nat)
    requires Sane(c) && IsRun(c, run, actions) && run[|actions|].phase.Finished? && i < c.n
    ensures Shaped(c, run[|actions|]) && |run[|actions|].pairs[i]| <= run[|actions|].ratePos + 1
  {
    var s := run[|actions|];
    RunsKeepInvariant(c, run, actions, |actions|);
    hide ChanOk, AccOk, CountOk, PoolOk, IsRun;
    assert SubOk(c, s, i);
  }

  // ---------- every round is measured, at its rate ----------

  // Somebody has measured every round that is closed or about to be; every pair has its round's rate.
  ghost predicate Measured(c: Config, s: System)
    requires Shaped(c, s)
  {
    && (forall r :: 0 <= r < |s.accData| ==> SomeoneIn(s, r))
    && (s.phase.Closing? ==> SomeoneIn(s, s.ratePos))
    && (forall i, q :: 0 <= i < c.n && 0 <= q < |s.pairs[i]| && q < |c.curve| ==>
          s.pairs[i][q].target == c.curve[q] as real)
  }

  ghost predicate SomeoneIn(s: System, r: nat)
  {
    exists i :: 0 <= i < |s.pairs| && |s.pairs[i]| > r
  }

  lemma StepMeasured(c: Config, s: System, a: Action)
    requires Sane(c) && Invariant(c, s) && Enabled(c, s, a) && Shaped(c, s) && Measured(c, s)
    ensures Shaped(c, Next(c, s, a)) && Measured(c, Next(c, s, a))
  {
    var t := Next(c, s, a);
    hide AccOk, CountOk, PoolOk, Verdict, Accumulated;
    if a.Measure? {
      assert SubOk(c, s, a.i);
    }
    if a.Receive? {
      assert s.subs[s.chan[0].sender] == InChannel(s.chan[0].value);
      assert SubOk(c, s, s.chan[0].sender);
      assert SomeoneIn(t, s.ratePos);
    }
    hide SubsOk, ChanOk;
    forall r: nat | SomeoneIn(s, r) ensures SomeoneIn(t, r) {
      var i :| 0 <= i < |s.pairs| && |s.pairs[i]| > r;
      assert |t.pairs[i]| >= |s.pairs[i]|;
    }
    hide SomeoneIn;
    AccGrows(c, s, a);
  }

  lemma AccGrows(c: Config, s: System, a: Action)
    requires Invariant(c, s) && Enabled(c, s, a)
    ensures |Next(c, s, a).accData| == |s.accData| + if a.Close? then 1 else 0
    ensures a.Close? ==> |s.accData| == s.ratePos
  {
    hide SubsOk, ChanOk, CountOk, PoolOk, Verdict, Accumulated, MaxRx;
  }

  lemma {:induction false} RunsMeasured(c: Config, run: seq<System>, actions: seq<Action>, k: nat)
    requires Sane(c) && IsRun(c, run, actions) && k < |run|
    ensures Shaped(c, run[k]) && Measured(c, run[k])
    decreases k
  {
    if k > 0 {
      hide Invariant, Enabled, Next, Measured, Shaped;
      RunsMeasured(c, run, actions, k - 1);
      RunStep(c, run, actions, k - 1);
      RunsKeepInvariant(c, run, actions, k - 1);
      StepMeasured(c, run[k - 1], actions[k - 1]);
    }
  }

  lemma {:induction false} TargetOf(c: Config, pairs: seq<seq<Pair>>, r: nat, k: nat)
    requires k <= |pairs| && r < |c.curve|
    requires forall i :: 0 <= i < |pairs| && |pairs[i]| > r ==> pairs[i][r].target == c.curve[r] as real
    ensures Accumulated(pairs, r, k).target
      == if exists i :: 0 <= i < k && |pairs[i]| > r then c.curve[r] as real else -1.0
  {
    if k > 0 {
      TargetOf(c, pairs, r, k - 1);
    }
  }

  // The total of round r is reported under the rate of round r.
  lemma RoundTarget(c: Config, run: seq<System>, actions: seq<Action>, k: nat, r: nat)
    requires Sane(c) && IsRun(c, run, actions) && k < |run| && r < |run[k].accData|
    ensures r < |c.curve| && run[k].accData[r].target == c.curve[r] as real
  {
    var s := run[k];
    RunsMeasured(c, run, actions, k);
    RunsKeepInvariant(c, run, actions, k);
    assert SomeoneIn(s, r);
    hide IsRun, SubsOk, ChanOk, CountOk, PoolOk, Accumulated, MaxRx;
    TargetOf(c, s.pairs, r, c.n);
  }

  // One sub-routine alone: the test ends with the first rate that it misses, or with the curve.
  lemma FirstMissEnds(c: Config, run: seq<System>, actions: seq<Action>, q: nat)
    requires Sane(c) && c.n == 1 && IsRun(c, run, actions) && run[|actions|].phase.Finished?
    ensures var s := run[|actions|];
      && Shaped(c, s) && |s.accData| == |s.pairs[0]| <= |c.curve|
      && (q < |s.accData| ==>
            (q + 1 == |s.accData| <==>
               q == |c.curve| - 1
               || (!c.ignoreThreshold && s.pairs[0][q].rx < c.threshold * (c.curve[q] as real))))
  {
    var s := run[|actions|];
    CompletedRun(c, run, actions);
    LastRoundIff(c, run, actions, 0, q);
    MeasuredRounds(c, run, actions, 0);
    RunsMeasured(c, run, actions, |actions|);
    assert SomeoneIn(s, |s.accData| - 1);
    hide IsRun, MaxRx;
    if q < |s.accData| {
      assert RetiredBefore(s.pairs, q) == {};
      assert c.curve[q] / 1 == c.curve[q];
    }
  }
}
