// The rate test of one resolver: rounds of concurrent sub-routines along a rate curve, a counting
// barrier over a channel, and sub-routines that retire when the resolver no longer keeps up.
module RateProtocol {
  import Arith

  // The rates are taken as exact.
  datatype Pair = Pair(target: real, duration: int, tx: real, rx: real, loss: real)

  // n sub-routines; a sub-routine reports -1 to stay, or its own number to retire.
  datatype Config = Config(n: nat, curve: seq<nat>, concurrent: bool, ignoreThreshold: bool, threshold: real,
                           capacity: nat)

  ghost predicate Sane(c: Config)
  {
    c.n >= 1 && c.curve != [] && c.capacity >= 1
  }

  // What a sub-routine of the current round is doing; Idle before its launch, or when it has retired.
  datatype Sub = Idle | Running(finished: nat) | Reporting(value: int) | InChannel(value: int) | Collected(value: int)

  // Only the value travels; the sender is recorded to say whose report it is.
  datatype Report = Report(sender: nat, value: int)

  datatype Phase = Launching(next: nat) | Collecting | Closing | Finished

  datatype System = System(ratePos: nat, pool: seq<int>, subs: seq<Sub>, pairs: seq<seq<Pair>>, chan: seq<Report>,
                           phase: Phase, chanCount: nat, accData: seq<Pair>, accMax: Pair)

  datatype Action = LaunchNext | Measure(i: nat, pair: Pair) | Deliver(i: nat) | Receive | Close

  const NONE := -1

  const ZERO_PAIR := Pair(0.0, 0, 0.0, 0.0, 0.0)

  function Fresh(c: Config): System
  {
    System(0, [], seq(c.n, _ => Idle), seq(c.n, _ => []), [], Launching(0), 0, [], ZERO_PAIR)
  }

  // The verdict of a sub-routine on the round it has just measured.
  function Verdict(c: Config, pos: nat, i: nat, finished: nat, pair: Pair): int
    requires pos < |c.curve| && finished < c.n
  {
    if pos == |c.curve| - 1 then i
    else if c.ignoreThreshold then NONE
    else
      var divisor := if c.concurrent then 1 else c.n - finished;
      if pair.rx < c.threshold * ((c.curve[pos] / divisor) as real) then i else NONE
  }

  // The sum over the sub-routines that measured round r, among the first k.
  function Accumulated(pairs: seq<seq<Pair>>, r: nat, k: nat): Pair
    requires k <= |pairs|
  {
    if k == 0 then Pair(-1.0, -1, 0.0, 0.0, 0.0)
    else
      var p := Accumulated(pairs, r, k - 1);
      if |pairs[k - 1]| <= r then p
      else
        var q := pairs[k - 1][r];
        Pair(if p.target == -1.0 then q.target else p.target, if p.target == -1.0 then q.duration else p.duration,
             p.tx + q.tx, p.rx + q.rx, p.loss + q.loss)
  }

  // ---------- steps ----------

  predicate Shaped(c: Config, s: System)
  {
    |s.subs| == c.n && |s.pairs| == c.n && s.ratePos < |c.curve|
  }

  predicate Enabled(c: Config, s: System, a: Action)
  {
    && Shaped(c, s)
    && match a
       case LaunchNext => s.phase.Launching?
       case Measure(i, pair) =>
         i < c.n && s.subs[i].Running? && s.subs[i].finished < c.n && pair.target == c.curve[s.ratePos] as real
       case Deliver(i) => i < c.n && s.subs[i].Reporting? && |s.chan| < c.capacity
       case Receive => s.phase.Collecting? && s.chan != [] && s.chan[0].sender < c.n
       case Close => s.phase.Closing? && (|s.pool| != c.n ==> s.ratePos + 1 < |c.curve|)
  }

  function Launched(c: Config, s: System): System
    requires Shaped(c, s) && s.phase.Launching?
  {
    var i := s.phase.next;
    if i >= c.n then s.(phase := Collecting, chanCount := 0)
    else if i in s.pool then s.(phase := Launching(i + 1))
    else s.(subs := s.subs[i := Running(|s.pool|)], phase := Launching(i + 1))
  }

  function Received(c: Config, s: System): System
    requires Shaped(c, s) && s.chan != [] && s.chan[0].sender < c.n
  {
    var m := s.chan[0];
    var pool := if m.value != NONE && m.value !in s.pool then s.pool + [m.value] else s.pool;
    var count := if m.value != NONE then s.chanCount else s.chanCount + 1;
    s.(chan := s.chan[1..], subs := s.subs[m.sender := Collected(m.value)], pool := pool, chanCount := count,
       phase := if count == c.n - |pool| then Closing else Collecting)
  }

  function Closed(c: Config, s: System): System
    requires Shaped(c, s)
  {
    var p := Accumulated(s.pairs, s.ratePos, c.n);
    var t := s.(accMax := if s.accMax.rx < p.rx then p else s.accMax, accData := s.accData + [p]);
    if |s.pool| == c.n then t.(phase := Finished)
    else t.(ratePos := s.ratePos + 1, phase := Launching(0), subs := seq(c.n, _ => Idle))
  }

  function Next(c: Config, s: System, a: Action): System
    requires Enabled(c, s, a)
  {
    match a
    case LaunchNext => Launched(c, s)
    case Measure(i, pair) =>
      s.(pairs := s.pairs[i := s.pairs[i] + [pair]],
         subs := s.subs[i := Reporting(Verdict(c, s.ratePos, i, s.subs[i].finished, pair))])
    case Deliver(i) =>
      s.(chan := s.chan + [Report(i, s.subs[i].value)], subs := s.subs[i := InChannel(s.subs[i].value)])
    case Receive => Received(c, s)
    case Close => Closed(c, s)
  }

  // The tester of one resolver; each method is one step of the main routine or of a sub-routine.
  class RateTest {
    const c: Config
    var ratePos: nat
    var pool: seq<int>
    var subs: seq<Sub>
    var pairs: seq<seq<Pair>>
    var chan: seq<Report>
    var phase: Phase
    var chanCount: nat
    var accData: seq<Pair>
    var accMax: Pair

    function View(): System
      reads this
    {
      System(ratePos, pool, subs, pairs, chan, phase, chanCount, accData, accMax)
    }

    constructor (c: Config)
      ensures this.c == c && View() == Fresh(c)
    {
      this.c := c;
      ratePos, pool, subs, pairs, chan := 0, [], seq(c.n, _ => Idle), seq(c.n, _ => []), [];
      phase, chanCount, accData, accMax := Launching(0), 0, [], ZERO_PAIR;
    }

    method Launch()
      requires Enabled(c, View(), LaunchNext)
      modifies this
      ensures View() == Next(c, old(View()), LaunchNext)
    {
      var i := phase.next;
      if i >= c.n {
        chanCount, phase := 0, Collecting;
        return;
      }
      phase := Launching(i + 1);
      if i in pool {
        return;
      }
      subs := subs[i := Running(|pool|)];
    }

    method MeasureRound(i: nat, pair: Pair)
      requires Enabled(c, View(), Measure(i, pair))
      modifies this
      ensures View() == Next(c, old(View()), Measure(i, pair))
    {
      pairs := pairs[i := pairs[i] + [pair]];
      var report := NONE;
      if ratePos == |c.curve| - 1 {
        report := i;
      } else if !c.ignoreThreshold {
        var divisor := 1;
        if !c.concurrent {
          divisor := c.n - subs[i].finished;
        }
        if pair.rx < c.threshold * ((c.curve[ratePos] / divisor) as real) {
          report := i;
        }
      }
      subs := subs[i := Reporting(report)];
    }

    method SendReport(i: nat)
      requires Enabled(c, View(), Deliver(i))
      modifies this
      ensures View() == Next(c, old(View()), Deliver(i))
    {
      chan := chan + [Report(i, subs[i].value)];
      subs := subs[i := InChannel(subs[i].value)];
    }

    method Collect()
      requires Enabled(c, View(), Receive)
      modifies this
      ensures View() == Next(c, old(View()), Receive)
    {
      var m := chan[0];
      chan := chan[1..];
      subs := subs[m.sender := Collected(m.value)];
      if m.value != NONE {
        if m.value !in pool {
          pool := pool + [m.value];
        }
      } else {
        chanCount := chanCount + 1;
      }
      if chanCount == c.n - |pool| {
        phase := Closing;
      }
    }

    method CloseRound()
      requires Enabled(c, View(), Close)
      modifies this
      ensures View() == Next(c, old(View()), Close)
    {
      var p := Pair(-1.0, -1, 0.0, 0.0, 0.0);
      for k := 0 to |pairs|
        invariant View() == old(View())
        invariant p == Accumulated(pairs, ratePos, k)
      {
        if |pairs[k]| > ratePos {
          var q := pairs[k][ratePos];
          if p.target == -1.0 {
            p := p.(target := q.target, duration := q.duration);
          }
          p := p.(rx := p.rx + q.rx, tx := p.tx + q.tx, loss := p.loss + q.loss);
        }
      }
      if accMax.rx < p.rx {
        accMax := p;
      }
      accData := accData + [p];
      if |pool| == c.n {
        phase := Finished;
        return;
      }
      ratePos := ratePos + 1;
      subs := seq(c.n, _ => Idle);
      phase := Launching(0);
    }
  }

  // ---------- the invariant ----------

  // One sub-routine: where it stands, how many rounds it has measured, whether it is in the pool.
  ghost predicate SubOk(c: Config, s: System, i: nat)
    requires Shaped(c, s) && i < c.n
  {
    match s.subs[i]
    case Idle =>
      if i in s.pool then |s.pairs[i]| <= s.ratePos
      else |s.pairs[i]| == s.ratePos && s.phase.Launching? && s.phase.next <= i
    case Running(f) => i !in s.pool && |s.pairs[i]| == s.ratePos && f < c.n
    case Reporting(v) => i !in s.pool && |s.pairs[i]| == s.ratePos + 1 && VerdictOk(c, s, i, v)
    case InChannel(v) => i !in s.pool && |s.pairs[i]| == s.ratePos + 1 && VerdictOk(c, s, i, v)
    case Collected(v) =>
      (i in s.pool <==> v != NONE) && |s.pairs[i]| == s.ratePos + 1 && VerdictOk(c, s, i, v) && !s.phase.Launching?
  }

  ghost predicate VerdictOk(c: Config, s: System, i: nat, v: int)
  {
    (v == i || v == NONE) && (s.ratePos == |c.curve| - 1 ==> v == i)
  }

  ghost predicate SubsOk(c: Config, s: System)
    requires Shaped(c, s)
  {
    && (forall i :: 0 <= i < c.n ==> SubOk(c, s, i))
    && (s.phase.Launching? ==> s.phase.next <= c.n && forall i :: s.phase.next <= i < c.n ==> s.subs[i] == Idle)
  }

  ghost predicate PoolOk(c: Config, s: System)
  {
    && (forall x :: x in s.pool ==> 0 <= x < c.n)
    && Arith.Distinct(s.pool)
  }

  // The channel holds one report of each sub-routine that has sent and not been heard.
  ghost predicate ChanOk(c: Config, s: System)
    requires Shaped(c, s)
  {
    && |s.chan| <= c.capacity
    && (forall k :: 0 <= k < |s.chan| ==>
          s.chan[k].sender < c.n && s.subs[s.chan[k].sender] == InChannel(s.chan[k].value))
    && (forall j, k :: 0 <= j < k < |s.chan| ==> s.chan[j].sender != s.chan[k].sender)
    && (forall i :: 0 <= i < c.n && s.subs[i].InChannel? ==> Report(i, s.subs[i].value) in s.chan)
  }

  // The sub-routines that stay after reporting, and those that have not retired.
  ghost function Staying(c: Config, s: System): set<int>
    requires Shaped(c, s)
  {
    set i | 0 <= i < c.n && s.subs[i] == Collected(NONE)
  }

  ghost function Active(c: Config, s: System): set<int>
  {
    set i | 0 <= i < c.n && i !in s.pool
  }

  ghost predicate CountOk(c: Config, s: System)
    requires Shaped(c, s)
  {
    && (s.phase.Collecting? || s.phase.Closing? || s.phase.Finished? ==> s.chanCount == |Staying(c, s)|)
    && (s.phase.Launching? || s.phase.Collecting? ==> |s.pool| < c.n && Staying(c, s) != Active(c, s))
    && (s.phase.Closing? || s.phase.Finished? ==> Staying(c, s) == Active(c, s))
    && (s.phase.Finished? ==> |s.pool| == c.n)
  }

  ghost function MaxRx(ps: seq<Pair>): real
  {
    if ps == [] then 0.0
    else
      var before := MaxRx(ps[..|ps| - 1]);
      if before < ps[|ps| - 1].rx then ps[|ps| - 1].rx else before
  }

  ghost predicate AccOk(c: Config, s: System)
    requires Shaped(c, s)
  {
    && |s.accData| == s.ratePos + (if s.phase.Finished? then 1 else 0)
    && (forall r :: 0 <= r < |s.accData| ==> s.accData[r] == Accumulated(s.pairs, r, c.n))
    && s.accMax.rx == MaxRx(s.accData)
    && (s.accMax == ZERO_PAIR || s.accMax in s.accData)
  }

  ghost predicate Invariant(c: Config, s: System)
  {
    Shaped(c, s) && SubsOk(c, s) && PoolOk(c, s) && ChanOk(c, s) && CountOk(c, s) && AccOk(c, s)
  }

  // ---------- counting ----------

  lemma ActiveSize(c: Config, s: System)
    requires PoolOk(c, s)
    ensures |s.pool| <= c.n && |Active(c, s)| == c.n - |s.pool|
  {
    var pool := Arith.Elems(s.pool);
    Arith.DistinctSize(s.pool);
    Arith.SubsetBySize(pool, Arith.Range(c.n));
    assert Active(c, s) == Arith.Range(c.n) - pool;
  }

  lemma StayingActive(c: Config, s: System)
    requires Shaped(c, s) && SubsOk(c, s) && PoolOk(c, s)
    ensures Staying(c, s) <= Active(c, s)
    ensures |Staying(c, s)| == c.n - |s.pool| <==> Staying(c, s) == Active(c, s)
  {
    forall i | i in Staying(c, s) ensures i in Active(c, s) {
      assert SubOk(c, s, i);
    }
    ActiveSize(c, s);
    Arith.SubsetBySize(Staying(c, s), Active(c, s));
  }

  // ---------- every step keeps it ----------

  lemma StartInvariant(c: Config)
    requires Sane(c)
    ensures Invariant(c, Fresh(c))
  {
    var s := Fresh(c);
    assert 0 in Active(c, s);
    assert Staying(c, s) == {};
  }

  lemma {:induction false} AccStable(pairs: seq<seq<Pair>>, more: seq<seq<Pair>>, r: nat, k: nat)
    requires |pairs| == |more| && k <= |pairs|
    requires forall j :: 0 <= j < k ==>
      (|pairs[j]| > r <==> |more[j]| > r) && (|pairs[j]| > r ==> pairs[j][r] == more[j][r])
    ensures Accumulated(pairs, r, k) == Accumulated(more, r, k)
  {
    if k > 0 {
      AccStable(pairs, more, r, k - 1);
    }
  }

  lemma LaunchKeeps(c: Config, s: System)
    requires Sane(c) && Invariant(c, s) && s.phase.Launching?
    ensures Invariant(c, Launched(c, s))
  {
    var t := Launched(c, s);
    var n := s.phase.next;
    hide AccOk, MaxRx;
    LaunchSubs(c, s);
    hide SubsOk;
    assert AccOk(c, t) by {
      SameAcc(c, s, t);
    }
    assert Staying(c, t) == Staying(c, s) && Active(c, t) == Active(c, s);
    if n >= c.n {
      LaunchedNone(c, s);
    }
  }

  lemma LaunchedNone(c: Config, s: System)
    requires Invariant(c, s) && s.phase.Launching?
    ensures Staying(c, s) == {}
  {
    forall i | 0 <= i < c.n ensures s.subs[i] != Collected(NONE) {
      assert SubOk(c, s, i);
    }
  }

  lemma LaunchSubs(c: Config, s: System)
    requires Sane(c) && Invariant(c, s) && s.phase.Launching?
    ensures SubsOk(c, Launched(c, s))
  {
    var t := Launched(c, s);
    hide AccOk, MaxRx, ChanOk;
    forall i | 0 <= i < c.n ensures SubOk(c, t, i) {
      assert SubOk(c, s, i);
    }
  }

  lemma SameAcc(c: Config, s: System, t: System)
    requires Shaped(c, s) && Shaped(c, t) && AccOk(c, s)
    requires t.accData == s.accData && t.accMax == s.accMax && t.ratePos == s.ratePos && t.pairs == s.pairs
    requires s.phase.Finished? == t.phase.Finished?
    ensures AccOk(c, t)
  {
  }

  lemma FullPool(c: Config, s: System)
    requires PoolOk(c, s) && |s.pool| == c.n
    ensures forall i :: 0 <= i < c.n ==> i in s.pool
  {
    ActiveSize(c, s);
    forall i | 0 <= i < c.n ensures i in s.pool {
      assert i !in Active(c, s);
    }
  }

  lemma BusyUnfinished(c: Config, s: System, i: nat)
    requires Shaped(c, s) && i < c.n && SubsOk(c, s) && PoolOk(c, s) && CountOk(c, s) && s.subs[i].Running?
    ensures !s.phase.Finished? && !s.phase.Closing?
  {
    assert SubOk(c, s, i);
    assert i in Active(c, s) && i !in Staying(c, s);
  }

  lemma MeasureKeeps(c: Config, s: System, i: nat, pair: Pair)
    requires Sane(c) && Invariant(c, s) && Enabled(c, s, Measure(i, pair))
    ensures Invariant(c, Next(c, s, Measure(i, pair)))
  {
    var t := Next(c, s, Measure(i, pair));
    MeasureAcc(c, s, i, pair);
    hide AccOk, MaxRx;
    MeasureSubs(c, s, i, pair);
    hide SubsOk, SubOk, Verdict;
    assert Staying(c, t) == Staying(c, s) && Active(c, t) == Active(c, s);
  }

  lemma MeasureSubs(c: Config, s: System, i: nat, pair: Pair)
    requires Sane(c) && Invariant(c, s) && Enabled(c, s, Measure(i, pair))
    ensures var t := Next(c, s, Measure(i, pair)); Shaped(c, t) && SubsOk(c, t)
  {
    var t := Next(c, s, Measure(i, pair));
    hide AccOk, MaxRx, ChanOk, CountOk;
    var v := t.subs[i].value;
    assert SubOk(c, s, i);
    assert v == i || v == NONE;
    assert s.ratePos == |c.curve| - 1 ==> v == i;
    hide Verdict;
    forall j | 0 <= j < c.n ensures SubOk(c, t, j) {
      assert SubOk(c, s, j);
    }
  }

  lemma MeasureAcc(c: Config, s: System, i: nat, pair: Pair)
    requires Sane(c) && Invariant(c, s) && Enabled(c, s, Measure(i, pair))
    ensures AccOk(c, Next(c, s, Measure(i, pair)))
  {
    var t := Next(c, s, Measure(i, pair));
    assert SubOk(c, s, i);
    BusyUnfinished(c, s, i);
    hide SubsOk, ChanOk, CountOk, PoolOk, Verdict, MaxRx;
    forall r | 0 <= r < |t.accData| ensures t.accData[r] == Accumulated(t.pairs, r, c.n) {
      AccStable(s.pairs, t.pairs, r, c.n);
    }
  }

  lemma DeliverKeeps(c: Config, s: System, i: nat)
    requires Sane(c) && Invariant(c, s) && Enabled(c, s, Deliver(i))
    ensures Invariant(c, Next(c, s, Deliver(i)))
  {
    var t := Next(c, s, Deliver(i));
    hide AccOk, MaxRx;
    assert AccOk(c, t) by {
      SameAcc(c, s, t);
    }
    forall j | 0 <= j < c.n ensures SubOk(c, t, j) {
      assert SubOk(c, s, j);
    }
    DeliverChan(c, s, i);
    hide ChanOk;
    assert Staying(c, t) == Staying(c, s) && Active(c, t) == Active(c, s);
  }

  lemma DeliverChan(c: Config, s: System, i: nat)
    requires Invariant(c, s) && Enabled(c, s, Deliver(i))
    ensures ChanOk(c, Next(c, s, Deliver(i)))
  {
    var t := Next(c, s, Deliver(i));
    hide AccOk, SubsOk, CountOk, PoolOk;
    forall j | 0 <= j < c.n && t.subs[j].InChannel? ensures Report(j, t.subs[j].value) in t.chan {
      if j == i {
        assert t.chan[|s.chan|] == Report(i, t.subs[i].value);
      } else {
        assert Report(j, s.subs[j].value) in s.chan;
      }
    }
  }

  lemma ReceiveKeeps(c: Config, s: System)
    requires Sane(c) && Invariant(c, s) && Enabled(c, s, Receive)
    ensures Invariant(c, Next(c, s, Receive))
  {
    var t := Next(c, s, Receive);
    hide AccOk, MaxRx;
    assert AccOk(c, t) by {
      SameAcc(c, s, t);
    }
    ReceiveSubs(c, s);
    ReceiveChan(c, s);
    ReceiveCount(c, s);
    StayingActive(c, t);
    ActiveSize(c, t);
    hide SubsOk, ChanOk, PoolOk, Staying, Active;
  }

  lemma ReceiveSubs(c: Config, s: System)
    requires Sane(c) && Invariant(c, s) && Enabled(c, s, Receive)
    ensures var t := Next(c, s, Receive); Shaped(c, t) && SubsOk(c, t) && PoolOk(c, t)
  {
    var t := Next(c, s, Receive);
    var m := s.chan[0];
    hide AccOk, MaxRx, CountOk;
    assert s.subs[m.sender] == InChannel(m.value);
    hide ChanOk;
    assert SubOk(c, s, m.sender);
    forall j | 0 <= j < c.n ensures SubOk(c, t, j) {
      assert SubOk(c, s, j);
    }
  }

  lemma ReceiveChan(c: Config, s: System)
    requires Invariant(c, s) && Enabled(c, s, Receive)
    ensures ChanOk(c, Next(c, s, Receive))
  {
    var t := Next(c, s, Receive);
    hide AccOk, SubsOk, CountOk, PoolOk;
    forall k | 0 <= k < |t.chan|
      ensures t.chan[k].sender < c.n && t.subs[t.chan[k].sender] == InChannel(t.chan[k].value)
    {
      assert t.chan[k] == s.chan[k + 1];
    }
    forall j | 0 <= j < c.n && t.subs[j].InChannel? ensures Report(j, t.subs[j].value) in t.chan {
      assert Report(j, s.subs[j].value) in s.chan;
      assert s.chan == [s.chan[0]] + t.chan;
    }
  }

  lemma ReceiveCount(c: Config, s: System)
    requires Sane(c) && Invariant(c, s) && Enabled(c, s, Receive)
    ensures var t := Next(c, s, Receive); Shaped(c, t) && t.chanCount == |Staying(c, t)|
  {
    var t := Next(c, s, Receive);
    var m := s.chan[0];
    hide AccOk, SubsOk, PoolOk;
    assert s.subs[m.sender] == InChannel(m.value);
    if m.value == NONE {
      assert Staying(c, t) == Staying(c, s) + {m.sender as int};
      assert m.sender !in Staying(c, s);
    } else {
      assert Staying(c, t) == Staying(c, s);
    }
  }

  lemma SomeoneSent(c: Config, s: System)
    requires Shaped(c, s) && ChanOk(c, s)
    ensures s.chan != [] ==> exists i :: 0 <= i < c.n && s.subs[i].InChannel?
  {
    if s.chan != [] {
      assert s.subs[s.chan[0].sender].InChannel?;
    }
  }

  // When the barrier opens nothing is left in the channel and nobody is still at work.
  lemma BarrierClear(c: Config, s: System)
    requires Sane(c) && Invariant(c, s) && s.phase.Closing?
    ensures s.chan == []
    ensures forall i :: 0 <= i < c.n && i !in s.pool ==> s.subs[i] == Collected(NONE)
    ensures forall i :: 0 <= i < c.n ==> s.subs[i].Idle? || s.subs[i].Collected?
    ensures s.ratePos == |c.curve| - 1 ==> |s.pool| == c.n
    ensures Enabled(c, s, Close)
  {
    hide AccOk, MaxRx;
    forall i | 0 <= i < c.n && i !in s.pool ensures s.subs[i] == Collected(NONE) {
      assert i in Active(c, s);
      assert i in Staying(c, s);
    }
    forall i | 0 <= i < c.n ensures s.subs[i].Idle? || s.subs[i].Collected? {
      assert SubOk(c, s, i);
    }
    SomeoneSent(c, s);
    ActiveSize(c, s);
    if s.ratePos == |c.curve| - 1 {
      forall i | 0 <= i < c.n ensures i in s.pool {
        assert SubOk(c, s, i);
      }
      assert Active(c, s) == {};
    }
  }

  lemma CloseKeeps(c: Config, s: System)
    requires Sane(c) && Invariant(c, s) && Enabled(c, s, Close)
    ensures Invariant(c, Next(c, s, Close))
  {
    var t := Next(c, s, Close);
    BarrierClear(c, s);
    CloseAcc(c, s);
    ActiveSize(c, s);
    hide AccOk, MaxRx, Accumulated;
    CloseSubs(c, s);
    hide SubsOk;
    assert Active(c, t) == Active(c, s);
    if |s.pool| == c.n {
      assert Staying(c, t) == Staying(c, s);
    } else {
      assert Staying(c, t) == {};
      assert Active(c, t) != {};
    }
  }

  lemma CloseSubs(c: Config, s: System)
    requires Sane(c) && Invariant(c, s) && Enabled(c, s, Close)
    ensures SubsOk(c, Next(c, s, Close))
  {
    var t := Next(c, s, Close);
    BarrierClear(c, s);
    hide AccOk, MaxRx, Accumulated, ChanOk, CountOk;
    forall i | 0 <= i < c.n ensures SubOk(c, t, i) {
      assert SubOk(c, s, i);
    }
  }

  lemma CloseAcc(c: Config, s: System)
    requires Invariant(c, s) && Enabled(c, s, Close)
    ensures AccOk(c, Next(c, s, Close))
  {
    var t := Next(c, s, Close);
    var p := Accumulated(s.pairs, s.ratePos, c.n);
    hide SubsOk, ChanOk, CountOk, PoolOk, Accumulated;
    assert t.accData[..|t.accData| - 1] == s.accData;
    assert t.accData[|s.accData|] == p;
  }

  lemma StepKeeps(c: Config, s: System, a: Action)
    requires Sane(c) && Invariant(c, s) && Enabled(c, s, a)
    ensures Invariant(c, Next(c, s, a))
  {
    match a
    case LaunchNext => LaunchKeeps(c, s);
    case Measure(i, pair) => MeasureKeeps(c, s, i, pair);
    case Deliver(i) => DeliverKeeps(c, s, i);
    case Receive => ReceiveKeeps(c, s);
    case Close => CloseKeeps(c, s);
  }

  // ---------- whole runs ----------

  ghost predicate IsRun(c: Config, run: seq<System>, actions: seq<Action>)
  {
    && |run| == |actions| + 1 && run[0] == Fresh(c)
    && forall k :: 0 <= k < |actions| ==> StepAt(c, run, actions, k)
  }

  ghost predicate StepAt(c: Config, run: seq<System>, actions: seq<Action>, k: nat)
    requires k < |actions| && |run| == |actions| + 1
  {
    Enabled(c, run[k], actions[k]) && run[k + 1] == Next(c, run[k], actions[k])
  }

  lemma RunStep(c: Config, run: seq<System>, actions: seq<Action>, k: nat)
    requires IsRun(c, run, actions) && k < |actions|
    ensures |run| == |actions| + 1 && Enabled(c, run[k], actions[k]) && run[k + 1] == Next(c, run[k], actions[k])
  {
    hide Enabled, Next;
    assert StepAt(c, run, actions, k);
  }

  lemma {:induction false} RunsKeepInvariant(c: Config, run: seq<System>, actions: seq<Action>, k: nat)
    requires Sane(c) && IsRun(c, run, actions) && k < |run|
    ensures Invariant(c, run[k])
    decreases k
  {
    hide Invariant, Enabled, Next;
    if k == 0 {
      StartInvariant(c);
    } else {
      RunsKeepInvariant(c, run, actions, k - 1);
      RunStep(c, run, actions, k - 1);
      StepKeeps(c, run[k - 1], actions[k - 1]);
    }
  }

  // The barrier opens exactly when every sub-routine launched in this round has reported, each once,
  // and been heard; then the channel is empty, and the next rate is still on the curve.
  lemma BarrierExact(c: Config, s: System)
    requires Sane(c) && Invariant(c, s) && Enabled(c, s, Receive)
    ensures var t := Next(c, s, Receive);
      && (t.phase.Closing? <==> forall i :: 0 <= i < c.n ==> t.subs[i].Collected? || (t.subs[i].Idle? && i in t.pool))
      && (t.phase.Closing? ==> t.chan == [] && (|t.pool| != c.n ==> t.ratePos + 1 < |c.curve|))
  {
    var t := Next(c, s, Receive);
    ReceiveKeeps(c, s);
    if t.phase.Closing? {
      BarrierClear(c, t);
      forall i | 0 <= i < c.n ensures t.subs[i].Collected? || (t.subs[i].Idle? && i in t.pool) {
        assert SubOk(c, t, i);
      }
    }
    if forall i :: 0 <= i < c.n ==> t.subs[i].Collected? || (t.subs[i].Idle? && i in t.pool) {
      AllHeard(c, t);
    }
  }

  lemma AllHeard(c: Config, t: System)
    requires Shaped(c, t) && SubsOk(c, t)
    requires forall i :: 0 <= i < c.n ==> t.subs[i].Collected? || (t.subs[i].Idle? && i in t.pool)
    ensures Staying(c, t) == Active(c, t)
  {
    forall i | 0 <= i < c.n ensures i in Staying(c, t) <==> i in Active(c, t) {
      assert SubOk(c, t, i);
    }
  }

  // No deadlock: as long as the test has not finished some step is possible.
  lemma Progress(c: Config, s: System) returns (a: Action)
    requires Sane(c) && Invariant(c, s) && !s.phase.Finished?
    ensures Enabled(c, s, a)
  {
    hide AccOk, MaxRx;
    match s.phase
    case Launching(_) => a := LaunchNext;
    case Closing =>
      BarrierClear(c, s);
      a := Close;
    case Collecting =>
      if s.chan != [] {
        a := Receive;
      } else {
        var i := SomeUnheard(c, s);
        assert SubOk(c, s, i);
        if s.subs[i].Running? {
          a := Measure(i, Pair(c.curve[s.ratePos] as real, 0, 0.0, 0.0, 0.0));
        } else {
          a := Deliver(i);
        }
      }
  }

  lemma SomeUnheard(c: Config, s: System) returns (i: nat)
    requires Sane(c) && Invariant(c, s) && s.phase.Collecting? && s.chan == []
    ensures i < c.n && (s.subs[i].Running? || s.subs[i].Reporting?)
  {
    hide AccOk, MaxRx;
    StayingActive(c, s);
    var x :| x in Active(c, s) && x !in Staying(c, s);
    i := x;
    assert SubOk(c, s, i);
  }

  // ---------- termination ----------

  function Work(sub: Sub): nat
  {
    match sub
    case Idle => 0
    case Running(_) => 3
    case Reporting(_) => 2
    case InChannel(_) => 1
    case Collected(_) => 0
  }

  function TotalWork(subs: seq<Sub>): nat
  {
    if subs == [] then 0 else TotalWork(subs[..|subs| - 1]) + Work(subs[|subs| - 1])
  }

  function PhaseWork(c: Config, p: Phase): nat
  {
    match p
    case Launching(next) => if next <= c.n then 5 * (c.n - next) + 3 else 3
    case Collecting => 2
    case Closing => 1
    case Finished => 0
  }

  function Steps(rounds: nat, each: nat): nat
  {
    rounds * each
  }

  lemma OneRound(rounds: nat, each: nat)
    ensures Steps(rounds + 1, each) == Steps(rounds, each) + each
  {
  }

  // The steps still possible.
  function Remaining(c: Config, s: System): nat
    requires Shaped(c, s)
  {
    Steps(|c.curve| - 1 - s.ratePos, 5 * c.n + 4) + PhaseWork(c, s.phase) + TotalWork(s.subs)
  }

  lemma {:induction false} WorkUpdate(subs: seq<Sub>, i: nat, sub: Sub)
    requires i < |subs|
    ensures TotalWork(subs[i := sub]) == TotalWork(subs) - Work(subs[i]) + Work(sub)
  {
    var n := |subs| - 1;
    if i < n {
      WorkUpdate(subs[..n], i, sub);
      assert subs[i := sub][..n] == subs[..n][i := sub];
    } else {
      assert subs[i := sub][..n] == subs[..n];
    }
  }

  lemma {:induction false} IdleWork(n: nat)
    ensures TotalWork(seq(n, _ => Idle)) == 0
  {
    if n > 0 {
      assert seq(n, _ => Idle)[..n - 1] == seq(n - 1, _ => Idle);
      IdleWork(n - 1);
    }
  }

  lemma LaunchShortens(c: Config, s: System)
    requires Shaped(c, s) && SubsOk(c, s) && s.phase.Launching?
    ensures Remaining(c, Launched(c, s)) < Remaining(c, s)
  {
    hide Steps, TotalWork;
    if s.phase.next < c.n {
      WorkUpdate(s.subs, s.phase.next, Running(|s.pool|));
      assert s.subs[s.phase.next] == Idle;
    }
  }

  lemma ReceiveShortens(c: Config, s: System)
    requires Enabled(c, s, Receive) && ChanOk(c, s)
    ensures Remaining(c, Next(c, s, Receive)) < Remaining(c, s)
  {
    hide Steps, TotalWork;
    var m := s.chan[0];
    assert s.subs[m.sender] == InChannel(m.value);
    WorkUpdate(s.subs, m.sender, Collected(m.value));
  }

  lemma CloseShortens(c: Config, s: System)
    requires Enabled(c, s, Close)
    ensures Shaped(c, Next(c, s, Close)) && Remaining(c, Next(c, s, Close)) < Remaining(c, s)
  {
    hide Steps, TotalWork, Accumulated;
    if |s.pool| != c.n {
      OneRound(|c.curve| - 2 - s.ratePos, 5 * c.n + 4);
      IdleWork(c.n);
    }
  }

  lemma StepShortens(c: Config, s: System, a: Action)
    requires Sane(c) && Invariant(c, s) && Enabled(c, s, a)
    ensures Shaped(c, Next(c, s, a)) && Remaining(c, Next(c, s, a)) < Remaining(c, s)
  {
    hide AccOk, CountOk, Accumulated, TotalWork, Verdict, Steps, ChanOk, SubsOk, PoolOk;
    match a
    case LaunchNext => LaunchShortens(c, s);
    case Measure(i, pair) => WorkUpdate(s.subs, i, Next(c, s, a).subs[i]);
    case Deliver(i) => WorkUpdate(s.subs, i, Next(c, s, a).subs[i]);
    case Receive => ReceiveShortens(c, s);
    case Close => CloseShortens(c, s);
  }

  lemma {:induction false} RunShortens(c: Config, run: seq<System>, actions: seq<Action>, k: nat)
    requires Sane(c) && IsRun(c, run, actions) && k < |run|
    ensures Shaped(c, run[k]) && Remaining(c, run[k]) + k <= Steps(|c.curve|, 5 * c.n + 4) - 1
    decreases k
  {
    hide Invariant, Enabled, Next, Remaining;
    if k == 0 {
      FreshWork(c);
    } else {
      RunShortens(c, run, actions, k - 1);
      RunStep(c, run, actions, k - 1);
      RunsKeepInvariant(c, run, actions, k - 1);
      StepShortens(c, run[k - 1], actions[k - 1]);
    }
  }

  lemma FreshWork(c: Config)
    requires Sane(c)
    ensures Shaped(c, Fresh(c)) && Remaining(c, Fresh(c)) == Steps(|c.curve|, 5 * c.n + 4) - 1
  {
    IdleWork(c.n);
    OneRound(|c.curve| - 1, 5 * c.n + 4);
  }

  // Every run is short, and a run that cannot go on has finished, in at most one round per rate.
  lemma RunsEnd(c: Config, run: seq<System>, actions: seq<Action>)
    requires Sane(c) && IsRun(c, run, actions)
    ensures |actions| < |c.curve| * (5 * c.n + 4)
    ensures var s := run[|actions|];
      && |s.accData| <= |c.curve|
      && (s.phase.Finished? <==> forall a :: !Enabled(c, s, a))
  {
    var s := run[|actions|];
    RunShortens(c, run, actions, |actions|);
    RunsKeepInvariant(c, run, actions, |actions|);
    if !s.phase.Finished? {
      var a := Progress(c, s);
    } else {
      FinishedStill(c, s);
    }
  }

  lemma FinishedStill(c: Config, s: System)
    requires Sane(c) && Invariant(c, s) && s.phase.Finished?
    ensures forall a :: !Enabled(c, s, a)
  {
    hide AccOk, MaxRx;
    FullPool(c, s);
    forall i | 0 <= i < c.n ensures !s.subs[i].Running? && !s.subs[i].Reporting? {
      assert SubOk(c, s, i);
    }
  }

  // ---------- retirement ----------

  lemma {:induction false} RetiredKept(c: Config, run: seq<System>, actions: seq<Action>, i: nat, k: nat, m: nat)
    requires Sane(c) && IsRun(c, run, actions) && k <= m < |run| && i < c.n
    requires Shaped(c, run[k]) && i in run[k].pool
    ensures Shaped(c, run[m]) && i in run[m].pool && run[m].pairs[i] == run[k].pairs[i]
    decreases m
  {
    if m > k {
      hide Invariant, Enabled, Next;
      RetiredKept(c, run, actions, i, k, m - 1);
      RunStep(c, run, actions, m - 1);
      RunsKeepInvariant(c, run, actions, m - 1);
      StepRetired(c, run[m - 1], actions[m - 1], i);
    }
  }

  lemma StepRetired(c: Config, s: System, a: Action, i: nat)
    requires Sane(c) && Invariant(c, s) && Enabled(c, s, a) && i < c.n && i in s.pool
    ensures Shaped(c, Next(c, s, a)) && i in Next(c, s, a).pool && Next(c, s, a).pairs[i] == s.pairs[i]
  {
    hide AccOk, MaxRx, ChanOk, CountOk;
    assert SubOk(c, s, i);
  }

  // A sub-routine that retires in round q has measured the rounds 0..q, and never another one.
  lemma RetiresOnce(c: Config, run: seq<System>, actions: seq<Action>, i: nat, k: nat, m: nat)
    requires Sane(c) && IsRun(c, run, actions) && k < m < |run| && i < c.n
    requires i !in run[k].pool && i in run[k + 1].pool
    ensures Shaped(c, run[m]) && |run[m].pairs[i]| == run[k].ratePos + 1 && i in run[m].pool
  {
    RunsKeepInvariant(c, run, actions, k);
    RunsKeepInvariant(c, run, actions, k + 1);
    RunStep(c, run, actions, k);
    RetireRound(c, run[k], actions[k], i);
    hide Invariant, Enabled, Next, IsRun;
    RetiredKept(c, run, actions, i, k + 1, m);
  }

  lemma RetireRound(c: Config, s: System, a: Action, i: nat)
    requires Sane(c) && Invariant(c, s) && Enabled(c, s, a) && i < c.n
    requires i !in s.pool && i in Next(c, s, a).pool
    ensures Shaped(c, Next(c, s, a)) && |Next(c, s, a).pairs[i]| == s.ratePos + 1
  {
    hide AccOk, MaxRx, CountOk;
    assert a == Receive;
    var m := s.chan[0];
    assert SubOk(c, s, m.sender);
  }

  lemma {:induction false} JoinStep(c: Config, run: seq<System>, actions: seq<Action>, i: nat, m: nat) returns (k: nat)
    requires Sane(c) && IsRun(c, run, actions) && m < |run| && i < c.n && i in run[m].pool
    ensures k < m && i !in run[k].pool && i in run[k + 1].pool
  {
    if m > 0 && i in run[m - 1].pool {
      k := JoinStep(c, run, actions, i, m - 1);
    } else {
      k := m - 1;
    }
  }

  lemma {:induction false} RatePosRises(c: Config, run: seq<System>, actions: seq<Action>, k: nat, m: nat)
    requires IsRun(c, run, actions) && k <= m < |run|
    ensures run[k].ratePos <= run[m].ratePos
    decreases m
  {
    if k < m {
      RatePosRises(c, run, actions, k, m - 1);
      RunStep(c, run, actions, m - 1);
    }
  }

  // Not in the pool as long as the test was in a round before r.
  ghost predicate StillIn(run: seq<System>, r: nat, i: int)
  {
    forall k :: 0 <= k < |run| && run[k].ratePos < r ==> i !in run[k].pool
  }

  // A sub-routine has measured round r exactly if it had not retired before that round.
  lemma MeasuredIff(c: Config, run: seq<System>, actions: seq<Action>, i: nat, r: nat)
    requires Sane(c) && IsRun(c, run, actions) && run[|actions|].phase.Finished? && i < c.n
    ensures Shaped(c, run[|actions|])
    ensures |run[|actions|].pairs[i]| > r <==> StillIn(run, r, i)
  {
    var m := |actions|;
    RunsKeepInvariant(c, run, actions, m);
    FullPool(c, run[m]);
    var k := JoinStep(c, run, actions, i, m);
    RunStep(c, run, actions, k);
    RetiresOnce(c, run, actions, i, k, m);
    assert run[k + 1].ratePos == run[k].ratePos by {
      RunsKeepInvariant(c, run, actions, k);
      JoinKeepsPos(c, run[k], actions[k], i);
    }
    hide Invariant, Enabled, Next, IsRun, Sane;
    if !StillIn(run, r, i) {
      var x :| 0 <= x < |run| && run[x].ratePos < r && i in run[x].pool;
      if x <= k {
        RetiredKeptPool(c, run, actions, i, x, k);
      } else {
        RatePosRises(c, run, actions, k, x);
      }
    }
  }

  lemma JoinKeepsPos(c: Config, s: System, a: Action, i: nat)
    requires Enabled(c, s, a) && i !in s.pool && i in Next(c, s, a).pool
    ensures Next(c, s, a).ratePos == s.ratePos
  {
  }

  lemma RetiredKeptPool(c: Config, run: seq<System>, actions: seq<Action>, i: nat, k: nat, m: nat)
    requires Sane(c) && IsRun(c, run, actions) && k <= m < |run| && i < c.n && i in run[k].pool
    ensures i in run[m].pool
  {
    RunsKeepInvariant(c, run, actions, k);
    RetiredKept(c, run, actions, i, k, m);
  }

  // The sending, receiving and loss rates of round r added up over a set of sub-routines below k.
  ghost function Sums(pairs: seq<seq<Pair>>, r: nat, who: set<int>, k: nat): (real, real, real)
    requires k <= |pairs| && forall i :: i in who && 0 <= i < k ==> |pairs[i]| > r
  {
    if k == 0 then (0.0, 0.0, 0.0)
    else
      var t := Sums(pairs, r, who, k - 1);
      if k - 1 in who then
        var q := pairs[k - 1][r];
        (t.0 + q.tx, t.1 + q.rx, t.2 + q.loss)
      else t
  }

  lemma {:induction false} AccumulatedSums(pairs: seq<seq<Pair>>, r: nat, who: set<int>, k: nat)
    requires k <= |pairs| && forall i :: 0 <= i < k ==> (i in who <==> |pairs[i]| > r)
    ensures var p := Accumulated(pairs, r, k); (p.tx, p.rx, p.loss) == Sums(pairs, r, who, k)
  {
    if k > 0 {
      AccumulatedSums(pairs, r, who, k - 1);
    }
  }

  ghost function WhoStillIn(c: Config, run: seq<System>, r: nat): set<int>
  {
    set i | 0 <= i < c.n && StillIn(run, r, i)
  }

  // After a completed run: everybody has retired; the total of round r is over exactly the
  // sub-routines that had not retired before it; and the reported maximum is the greatest round,
  // or zero.
  lemma CompletedRun(c: Config, run: seq<System>, actions: seq<Action>)
    requires Sane(c) && IsRun(c, run, actions) && run[|actions|].phase.Finished?
    ensures var s := run[|actions|];
      && Shaped(c, s) && |s.accData| == s.ratePos + 1 <= |c.curve|
      && (forall i :: 0 <= i < c.n ==> i in s.pool)
      && s.accMax.rx == MaxRx(s.accData) && (s.accMax == ZERO_PAIR || s.accMax in s.accData)
  {
    var s := run[|actions|];
    RunsKeepInvariant(c, run, actions, |actions|);
    FullPool(c, s);
    hide SubsOk, ChanOk, CountOk, PoolOk, IsRun, Accumulated;
  }

  lemma RoundTotal(c: Config, run: seq<System>, actions: seq<Action>, r: nat)
    requires Sane(c) && IsRun(c, run, actions) && run[|actions|].phase.Finished?
    requires r <= run[|actions|].ratePos
    ensures var s := run[|actions|]; var who := WhoStillIn(c, run, r);
      && Shaped(c, s) && r < |s.accData|
      && (forall i :: i in who && 0 <= i < c.n ==> |s.pairs[i]| > r)
      && (s.accData[r].tx, s.accData[r].rx, s.accData[r].loss) == Sums(s.pairs, r, who, c.n)
      && s.accData[r].rx <= s.accMax.rx
  {
    var s := run[|actions|];
    var who := WhoStillIn(c, run, r);
    CompletedRun(c, run, actions);
    forall i | 0 <= i < c.n ensures i in who <==> |s.pairs[i]| > r {
      MeasuredIff(c, run, actions, i, r);
    }
    AccumulatedIs(c, run, actions, r);
    hide IsRun, Accumulated, Sums, WhoStillIn, MaxRx;
    AccumulatedSums(s.pairs, r, who, c.n);
    MaxBound(s.accData, r);
  }

  lemma AccumulatedIs(c: Config, run: seq<System>, actions: seq<Action>, r: nat)
    requires Sane(c) && IsRun(c, run, actions)
    requires r < |run[|actions|].accData|
    ensures var s := run[|actions|]; Shaped(c, s) && s.accData[r] == Accumulated(s.pairs, r, c.n)
  {
    RunsKeepInvariant(c, run, actions, |actions|);
  }

  lemma {:induction false} MaxBound(ps: seq<Pair>, r: nat)
    requires r < |ps|
    ensures ps[r].rx <= MaxRx(ps) && 0.0 <= MaxRx(ps)
  {
    MaxNonNegative(ps);
    if r < |ps| - 1 {
      MaxBound(ps[..|ps| - 1], r);
    }
  }

  lemma {:induction false} MaxNonNegative(ps: seq<Pair>)
    ensures 0.0 <= MaxRx(ps)
  {
    if ps != [] {
      MaxNonNegative(ps[..|ps| - 1]);
    }
  }
}
