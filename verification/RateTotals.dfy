// A whole rate test together with the measuring windows of its sub-routines: the pairs a sub-routine
// reports are those its calculations append, and the totals of all rounds count no answer twice.
module RateTotals {
  import P = RateProtocol
  import W = RateWindow

  // ---------- one sub-routine ----------

  function RxSum(ps: seq<P.Pair>): real
  {
    if ps == [] then 0.0 else RxSum(ps[..|ps| - 1]) + ps[|ps| - 1].rx
  }

  ghost predicate NoNegative(ps: seq<P.Pair>)
  {
    forall i :: 0 <= i < |ps| ==> ps[i].rx >= 0.0
  }

  lemma RateAdds(m: nat, n: nat, send: nat)
    requires send >= 1
    ensures W.Rate(m + n, send) == W.Rate(m, send) + W.Rate(n, send)
    ensures W.Rate(0, send) == 0.0 && W.Rate(m, send) >= 0.0
  {
  }

  lemma RateRises(m: nat, n: nat, send: nat)
    requires send >= 1 && m <= n
    ensures W.Rate(m, send) <= W.Rate(n, send)
  {
    RateAdds(m, n - m, send);
    RateAdds(n - m, 0, send);
  }

  // The rates reported so far are those of the counts of the windows so far.
  ghost predicate RatesCounted(s: W.System, send: nat)
    requires send >= 1
  {
    RxSum(s.data.curve) == W.Rate(W.SumCounts(s.windows), send) && NoNegative(s.data.curve)
  }

  lemma RxSumNext(ps: seq<P.Pair>, p: P.Pair)
    ensures RxSum(ps + [p]) == RxSum(ps) + p.rx
    ensures NoNegative(ps) && p.rx >= 0.0 ==> NoNegative(ps + [p])
  {
    assert (ps + [p])[..|ps|] == ps;
  }

  lemma CountsNext(ws: seq<W.Window>, w: W.Window)
    ensures W.SumCounts(ws + [w]) == W.SumCounts(ws) + w.count
  {
    assert (ws + [w])[..|ws|] == ws;
  }

  // A calculation appends one pair, whose receiving rate is that of its count.
  lemma CurveNext(d: W.Data, now: int, target: real, send: nat, wait: nat)
    requires send >= 1 && NoNegative(d.curve)
    ensures var t := W.Calculated(d, now, target, send, wait);
      RxSum(t.curve) == RxSum(d.curve) + W.Rate(W.Counted(d, now, send, wait), send) && NoNegative(t.curve)
  {
    var n := W.Counted(d, now, send, wait);
    RateAdds(n, 0, send);
    hide W.Rate, W.Counted, RxSum, NoNegative;
    var t := W.Calculated(d, now, target, send, wait);
    RxSumNext(d.curve, t.curve[|d.curve|]);
  }

  lemma WindowsNext(s: W.System, now: int, target: real, send: nat, wait: nat)
    requires send >= 1 && W.Enabled(s, send, wait, W.Calculate(now, target))
    ensures var t := W.Next(s, send, wait, W.Calculate(now, target));
      && t.data == W.Calculated(s.data, now, target, send, wait)
      && W.SumCounts(t.windows) == W.SumCounts(s.windows) + W.Counted(s.data, now, send, wait)
  {
    hide W.Rate, W.Counted, W.SumCounts, W.RxStart, W.Calculated;
    var t := W.Next(s, send, wait, W.Calculate(now, target));
    if s.data.first == -1 {
      NothingCounted(s.data, now, send, wait);
    } else {
      CountsNext(s.windows, t.windows[|s.windows|]);
    }
  }

  lemma StepCounted(s: W.System, send: nat, wait: nat, a: W.Action)
    requires send >= 1 && W.Enabled(s, send, wait, a) && RatesCounted(s, send)
    ensures RatesCounted(W.Next(s, send, wait, a), send)
  {
    hide W.Rate, W.Counted, RxSum, W.SumCounts, W.RxStart, NoNegative, W.Calculated;
    if a.Calculate? {
      var n := W.Counted(s.data, a.now, send, wait);
      RateAdds(W.SumCounts(s.windows), n, send);
      CurveNext(s.data, a.now, a.target, send, wait);
      WindowsNext(s, a.now, a.target, send, wait);
      hide W.Next;
    }
  }

  lemma NothingCounted(d: W.Data, now: int, send: nat, wait: nat)
    requires d.first == -1
    ensures W.Counted(d, now, send, wait) == 0
  {
  }

  lemma {:induction false} RunCounted(start: nat, send: nat, wait: nat, run: seq<W.System>, actions: seq<W.Action>,
                                      k: nat)
    requires send >= 1 && W.IsRun(start, send, wait, run, actions) && k < |run|
    ensures RatesCounted(run[k], send)
    decreases k
  {
    hide RatesCounted, W.Enabled, W.Next;
    if k == 0 {
      FreshCounted(start, send);
    } else {
      RunCounted(start, send, wait, run, actions, k - 1);
      assert W.StepAt(send, wait, run, actions, k - 1);
      StepCounted(run[k - 1], send, wait, actions[k - 1]);
    }
  }

  lemma FreshCounted(start: nat, send: nat)
    requires send >= 1
    ensures RatesCounted(W.Fresh(start), send)
  {
    RateAdds(0, 0, send);
  }

  // A sub-routine's rates over all its rounds add up to at most the rate of the answers it has logged.
  lemma SubTotal(start: nat, send: nat, wait: nat, run: seq<W.System>, actions: seq<W.Action>, k: nat)
    requires send >= 1 && W.IsRun(start, send, wait, run, actions) && k < |run|
    ensures RxSum(run[k].data.curve) <= W.Rate(|run[k].data.answers|, send) && NoNegative(run[k].data.curve)
  {
    RunCounted(start, send, wait, run, actions, k);
    hide W.IsRun, W.Rate, RxSum, W.SumCounts, W.Disjoint, W.FullCount, W.Hits, NoNegative;
    W.NoDoubleCount(start, send, wait, run, actions, k);
    RateRises(W.SumCounts(run[k].windows), |run[k].data.answers|, send);
  }

  // ---------- all sub-routines ----------

  function SubSums(pairs: seq<seq<P.Pair>>, k: nat): real
    requires k <= |pairs|
  {
    if k == 0 then 0.0 else SubSums(pairs, k - 1) + RxSum(pairs[k - 1])
  }

  function RoundSums(pairs: seq<seq<P.Pair>>, m: nat, k: nat): real
    requires k <= |pairs|
  {
    if m == 0 then 0.0 else RoundSums(pairs, m - 1, k) + P.Accumulated(pairs, m - 1, k).rx
  }

  // The first m entries, or all of them.
  function First(ps: seq<P.Pair>, m: nat): seq<P.Pair>
  {
    if m <= |ps| then ps[..m] else ps
  }

  // Adding one sub-routine to the totals of m rounds adds its first m pairs.
  lemma {:induction false} OneMoreSub(pairs: seq<seq<P.Pair>>, m: nat, k: nat)
    requires 1 <= k <= |pairs|
    ensures RoundSums(pairs, m, k) == RoundSums(pairs, m, k - 1) + RxSum(First(pairs[k - 1], m))
  {
    var ps := pairs[k - 1];
    if m == 0 {
      assert First(ps, 0) == [];
    } else {
      OneMoreSub(pairs, m - 1, k);
      if m <= |ps| {
        assert First(ps, m) == First(ps, m - 1) + [ps[m - 1]];
        RxSumNext(First(ps, m - 1), ps[m - 1]);
      } else {
        assert First(ps, m) == ps && First(ps, m - 1) == ps;
      }
    }
  }

  lemma {:induction false} FirstBound(ps: seq<P.Pair>, m: nat)
    requires NoNegative(ps)
    ensures RxSum(First(ps, m)) <= RxSum(ps)
    ensures |ps| <= m ==> RxSum(First(ps, m)) == RxSum(ps)
    decreases |ps|
  {
    if m < |ps| {
      var n := |ps| - 1;
      FirstBound(ps[..n], m);
      assert First(ps, m) == First(ps[..n], m);
    } else {
      assert First(ps, m) == ps;
    }
  }

  // Round by round or sub-routine by sub-routine, the rates add up to the same.
  lemma {:induction false} SwapSums(pairs: seq<seq<P.Pair>>, m: nat, k: nat)
    requires k <= |pairs| && forall i :: 0 <= i < |pairs| ==> NoNegative(pairs[i])
    ensures RoundSums(pairs, m, k) <= SubSums(pairs, k)
    ensures (forall i :: 0 <= i < k ==> |pairs[i]| <= m) ==> RoundSums(pairs, m, k) == SubSums(pairs, k)
    decreases k
  {
    if k == 0 {
      NoSubs(pairs, m);
    } else {
      hide RxSum, First, NoNegative, P.Accumulated;
      SwapSums(pairs, m, k - 1);
      OneMoreSub(pairs, m, k);
      FirstBound(pairs[k - 1], m);
    }
  }

  lemma {:induction false} NoSubs(pairs: seq<seq<P.Pair>>, m: nat)
    ensures RoundSums(pairs, m, 0) == 0.0
  {
    if m > 0 {
      NoSubs(pairs, m - 1);
    }
  }

  // ---------- the test with its windows ----------

  // The windows of one sub-routine, from their start to where they stand.
  datatype History = History(start: nat, run: seq<W.System>, actions: seq<W.Action>)

  ghost predicate IsHistory(h: History, send: nat, wait: nat)
    requires send >= 1
  {
    W.IsRun(h.start, send, wait, h.run, h.actions)
  }

  ghost function Now(h: History): W.System
    requires h.run != []
  {
    h.run[|h.run| - 1]
  }

  // Every sub-routine's pairs are those its calculations have appended.
  ghost predicate Backed(s: P.System, hs: seq<History>, send: nat, wait: nat)
    requires send >= 1
  {
    && |hs| == |s.pairs|
    && forall i :: 0 <= i < |hs| ==>
         IsHistory(hs[i], send, wait) && hs[i].run != [] && Now(hs[i]).data.curve == s.pairs[i]
  }

  ghost function Logged(hs: seq<History>, k: nat): nat
    requires k <= |hs| && forall i :: 0 <= i < |hs| ==> hs[i].run != []
  {
    if k == 0 then 0 else Logged(hs, k - 1) + |Now(hs[k - 1]).data.answers|
  }

  // A sub-routine's calculation at the current rate is a measuring step of the test, and backs it.
  lemma CalculationMeasures(c: P.Config, s: P.System, hs: seq<History>, i: nat, send: nat, wait: nat, now: int)
    requires send >= 1 && Backed(s, hs, send, wait) && P.Shaped(c, s) && i < c.n
    requires s.subs[i].Running? && s.subs[i].finished < c.n
    requires W.Enabled(Now(hs[i]), send, wait, W.Calculate(now, c.curve[s.ratePos] as real))
    ensures var a := W.Calculate(now, c.curve[s.ratePos] as real);
      var next := W.Next(Now(hs[i]), send, wait, a);
      var pair := next.data.curve[|next.data.curve| - 1];
      && P.Enabled(c, s, P.Measure(i, pair))
      && Backed(P.Next(c, s, P.Measure(i, pair)), hs[i := Extended(hs[i], a, next)], send, wait)
  {
    var a := W.Calculate(now, c.curve[s.ratePos] as real);
    ExtendedIs(hs[i], a, send, wait);
    hide W.IsRun, W.Counted, W.Rate, P.Verdict, W.RxStart;
  }

  ghost function Extended(h: History, a: W.Action, next: W.System): History
  {
    History(h.start, h.run + [next], h.actions + [a])
  }

  lemma ExtendedIs(h: History, a: W.Action, send: nat, wait: nat)
    requires send >= 1 && IsHistory(h, send, wait) && h.run != [] && W.Enabled(Now(h), send, wait, a)
    ensures IsHistory(Extended(h, a, W.Next(Now(h), send, wait, a)), send, wait)
  {
    var next := W.Next(Now(h), send, wait, a);
    var longer := Extended(h, a, next);
    hide W.Next, W.Enabled;
    forall k | 0 <= k < |longer.actions| ensures W.StepAt(send, wait, longer.run, longer.actions, k) {
      if k < |h.actions| {
        assert W.StepAt(send, wait, h.run, h.actions, k);
      }
    }
  }

  lemma {:induction false} SubsBounded(s: P.System, hs: seq<History>, send: nat, wait: nat, k: nat)
    requires send >= 1 && Backed(s, hs, send, wait) && k <= |hs|
    ensures forall i :: 0 <= i < |hs| ==> hs[i].run != []
    ensures SubSums(s.pairs, k) <= W.Rate(Logged(hs, k), send)
    decreases k
  {
    hide RxSum, W.Rate, IsHistory, W.IsRun;
    if k == 0 {
      RateAdds(0, 0, send);
    } else {
      SubsBounded(s, hs, send, wait, k - 1);
      HistoryTotal(hs[k - 1], send, wait);
      RateAdds(Logged(hs, k - 1), |Now(hs[k - 1]).data.answers|, send);
    }
  }

  lemma HistoryTotal(h: History, send: nat, wait: nat)
    requires send >= 1 && IsHistory(h, send, wait) && h.run != []
    ensures RxSum(Now(h).data.curve) <= W.Rate(|Now(h).data.answers|, send) && NoNegative(Now(h).data.curve)
  {
    SubTotal(h.start, send, wait, h.run, h.actions, |h.run| - 1);
  }

  // In every reachable state of a test whose pairs are backed by windows: the totals of all rounds add
  // up to at most the rate of all logged answers, so no answer is in two rounds' totals.
  lemma {:induction false} TotalsBounded(c: P.Config, run: seq<P.System>, actions: seq<P.Action>, k: nat,
                                         hs: seq<History>, send: nat, wait: nat)
    requires send >= 1 && P.Sane(c) && P.IsRun(c, run, actions) && k < |run| && Backed(run[k], hs, send, wait)
    ensures forall i :: 0 <= i < |hs| ==> hs[i].run != []
    ensures RxSum(run[k].accData) <= W.Rate(Logged(hs, |hs|), send)
    ensures P.Shaped(c, run[k])
    ensures run[k].phase.Finished? ==> RxSum(run[k].accData) == SubSums(run[k].pairs, c.n)
  {
    hide *;
    var s := run[k];
    P.RunsKeepInvariant(c, run, actions, k);
    StateTotals(c, s);
    PairsNoNegative(s, hs, send, wait);
    BackedSize(s, hs, send, wait);
    SubsBounded(s, hs, send, wait, |hs|);
    SwapSums(s.pairs, |s.accData|, c.n);
  }

  lemma BackedSize(s: P.System, hs: seq<History>, send: nat, wait: nat)
    requires send >= 1 && Backed(s, hs, send, wait)
    ensures |hs| == |s.pairs|
  {
    hide IsHistory;
  }

  // What the invariant says about the totals.
  lemma StateTotals(c: P.Config, s: P.System)
    requires P.Invariant(c, s)
    ensures P.Shaped(c, s) && |s.pairs| == c.n
    ensures RxSum(s.accData) == RoundSums(s.pairs, |s.accData|, c.n)
    ensures s.phase.Finished? ==> forall i :: 0 <= i < c.n ==> |s.pairs[i]| <= |s.accData|
  {
    TotalsAre(c, s, |s.accData|);
    assert s.accData[..|s.accData|] == s.accData;
    if s.phase.Finished? {
      AllMeasured(c, s);
    }
    hide RxSum, RoundSums, P.AccOk, P.SubsOk, P.ChanOk, P.CountOk, P.PoolOk;
  }

  lemma PairsNoNegative(s: P.System, hs: seq<History>, send: nat, wait: nat)
    requires send >= 1 && Backed(s, hs, send, wait)
    ensures forall i :: 0 <= i < |s.pairs| ==> NoNegative(s.pairs[i])
  {
    hide IsHistory, NoNegative;
    forall i | 0 <= i < |s.pairs| ensures NoNegative(s.pairs[i]) {
      HistoryTotal(hs[i], send, wait);
    }
  }

  lemma AllMeasured(c: P.Config, s: P.System)
    requires P.Shaped(c, s) && P.SubsOk(c, s) && P.AccOk(c, s) && s.phase.Finished?
    ensures forall i :: 0 <= i < c.n ==> |s.pairs[i]| <= |s.accData|
  {
    hide P.Accumulated, P.MaxRx;
    forall i | 0 <= i < c.n ensures |s.pairs[i]| <= |s.accData| {
      assert P.SubOk(c, s, i);
    }
  }

  lemma {:induction false} TotalsAre(c: P.Config, s: P.System, m: nat)
    requires P.Shaped(c, s) && P.AccOk(c, s) && m <= |s.accData|
    ensures RxSum(s.accData[..m]) == RoundSums(s.pairs, m, c.n)
    decreases m
  {
    if m > 0 {
      hide P.Accumulated, P.MaxRx;
      TotalsAre(c, s, m - 1);
      assert s.accData[..m][..m - 1] == s.accData[..m - 1];
    }
  }
}
