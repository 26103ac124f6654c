// The measuring windows of one sub-routine of the rate test: answers are logged with their arrival
// times, and at the end of every round those inside a window are counted, backwards from the newest.
module RateWindow {
  import P = RateProtocol

  // Times are in microseconds.
  datatype Answer = Answer(ts: int, size: nat)

  // first is the arrival of the first answer since the last calculation, or -1.
  datatype Data = Data(answers: seq<Answer>, curve: seq<P.Pair>, sent: nat, first: int)

  const EMPTY := Data([], [], 0, -1)

  // The window opens one sending interval before now, or with the first answer if that came later
  // than one waiting interval after the start of sending but before that point.
  function RxStart(first: int, now: int, send: nat, wait: nat): int
  {
    if now - (send + wait) * 1000 < first < now - send * 1000 then first else now - send * 1000
  }

  // The backward scan gives up at the first answer older than the window.
  function EarlyCount(answers: seq<Answer>, lo: int, hi: int): nat
  {
    if answers == [] || answers[|answers| - 1].ts < lo then 0
    else EarlyCount(answers[..|answers| - 1], lo, hi) + if answers[|answers| - 1].ts < hi then 1 else 0
  }

  predicate Inside(a: Answer, lo: int, hi: int)
  {
    lo <= a.ts < hi
  }

  function FullCount(answers: seq<Answer>, lo: int, hi: int): nat
  {
    if answers == [] then 0
    else FullCount(answers[..|answers| - 1], lo, hi) + if Inside(answers[|answers| - 1], lo, hi) then 1 else 0
  }

  function Counted(d: Data, now: int, send: nat, wait: nat): nat
  {
    if d.first == -1 then 0
    else
      var lo := RxStart(d.first, now, send, wait);
      EarlyCount(d.answers, lo, lo + send * 1000)
  }

  function Rate(n: int, send: nat): real
    requires send >= 1
  {
    n as real / send as real * 1000.0
  }

  function Calculated(d: Data, now: int, target: real, send: nat, wait: nat): Data
    requires send >= 1
  {
    var n := Counted(d, now, send, wait);
    d.(curve := d.curve + [P.Pair(target, send, Rate(d.sent, send), Rate(n, send), Rate(d.sent - n, send))],
       sent := 0, first := -1)
  }

  function Logged(d: Data, now: int, size: nat): Data
  {
    d.(answers := d.answers + [Answer(now, size)], first := if d.first == -1 then now else d.first)
  }

  class RateData {
    var answers: seq<Answer>
    var curve: seq<P.Pair>
    var sent: nat
    var first: int

    function View(): Data
      reads this
    {
      Data(answers, curve, sent, first)
    }

    constructor ()
      ensures View() == EMPTY
    {
      answers, curve, sent, first := [], [], 0, -1;
    }

    method HandlePkt(now: int, size: nat)
      modifies this
      ensures View() == Logged(old(View()), now, size)
    {
      answers := answers + [Answer(now, size)];
      if first == -1 {
        first := now;
      }
    }

    method CountSent()
      modifies this
      ensures View() == old(View()).(sent := old(sent) + 1)
    {
      sent := sent + 1;
    }

    method CalcLastSecondRate(now: int, target: real, send: nat, wait: nat)
      requires send >= 1
      modifies this
      ensures View() == Calculated(old(View()), now, target, send, wait)
    {
      var n := 0;
      if first != -1 {
        var lo := now - send * 1000;
        if first > now - (send + wait) * 1000 && first < now - send * 1000 {
          lo := first;
        }
        var hi := lo + send * 1000;
        var i := |answers| - 1;
        assert answers[..|answers|] == answers;
        while i >= 0
          invariant -1 <= i < |answers|
          invariant n + EarlyCount(answers[..i + 1], lo, hi) == EarlyCount(answers, lo, hi)
        {
          assert answers[..i + 1][..i] == answers[..i];
          if answers[i].ts < lo {
            break;
          }
          if answers[i].ts < hi {
            n := n + 1;
          }
          i := i - 1;
        }
      }
      curve := curve + [P.Pair(target, send, Rate(sent, send), Rate(n, send), Rate(sent - n, send))];
      sent, first := 0, -1;
    }
  }

  // ---------- the early exit ----------

  // Some answer inside the window was logged before one that is older than the window.
  ghost predicate Overtaken(answers: seq<Answer>, lo: int, hi: int)
  {
    exists i, j :: 0 <= i < j < |answers| && Inside(answers[i], lo, hi) && answers[j].ts < lo
  }

  lemma {:induction false} CountPositive(answers: seq<Answer>, i: nat, lo: int, hi: int)
    requires i < |answers| && Inside(answers[i], lo, hi)
    ensures FullCount(answers, lo, hi) >= 1
  {
    if i < |answers| - 1 {
      CountPositive(answers[..|answers| - 1], i, lo, hi);
    }
  }

  lemma {:induction false} NoneInside(answers: seq<Answer>, lo: int, hi: int)
    requires forall i :: 0 <= i < |answers| ==> !Inside(answers[i], lo, hi)
    ensures FullCount(answers, lo, hi) == 0
  {
    if answers != [] {
      NoneInside(answers[..|answers| - 1], lo, hi);
    }
  }

  // The scan with early exit counts the whole window exactly when no answer inside the window is
  // followed in the log by one that is older than the window.
  lemma {:induction false} EarlyExitIff(answers: seq<Answer>, lo: int, hi: int)
    ensures EarlyCount(answers, lo, hi) <= FullCount(answers, lo, hi)
    ensures EarlyCount(answers, lo, hi) == FullCount(answers, lo, hi) <==> !Overtaken(answers, lo, hi)
  {
    if answers != [] {
      var n := |answers| - 1;
      var before := answers[..n];
      EarlyExitIff(before, lo, hi);
      if answers[n].ts < lo {
        if exists i :: 0 <= i < n && Inside(before[i], lo, hi) {
          var i :| 0 <= i < n && Inside(before[i], lo, hi);
          CountPositive(before, i, lo, hi);
          assert Inside(answers[i], lo, hi) && answers[n].ts < lo;
        } else {
          NoneInside(before, lo, hi);
        }
      } else {
        OvertakenBefore(answers, lo, hi);
      }
    }
  }

  lemma OvertakenBefore(answers: seq<Answer>, lo: int, hi: int)
    requires answers != [] && answers[|answers| - 1].ts >= lo
    ensures Overtaken(answers, lo, hi) <==> Overtaken(answers[..|answers| - 1], lo, hi)
  {
    var before := answers[..|answers| - 1];
    if Overtaken(answers, lo, hi) {
      var i, j :| 0 <= i < j < |answers| && Inside(answers[i], lo, hi) && answers[j].ts < lo;
      assert Inside(before[i], lo, hi) && before[j].ts < lo;
    }
    if Overtaken(before, lo, hi) {
      var i, j :| 0 <= i < j < |before| && Inside(before[i], lo, hi) && before[j].ts < lo;
      assert Inside(answers[i], lo, hi) && answers[j].ts < lo;
    }
  }

  // ---------- runs ----------

  datatype Window = Window(lo: int, hi: int, count: nat)

  // A handler takes the time of its answer first and logs it later, under a lock; `waiting` are the
  // answers in between, which can be logged in any order. mark is the length of the log, and last the
  // time, at the last calculation.
  datatype System = System(data: Data, clock: int, waiting: multiset<Answer>, last: int, mark: nat,
                           windows: seq<Window>)

  datatype Action = Arrive(now: int, size: nat) | Log(answer: Answer) | Sent | Calculate(now: int, target: real)

  // Sending lasts at least the sending interval and is followed by at least the waiting interval,
  // and both lie after the previous calculation.
  predicate Enabled(s: System, send: nat, wait: nat, a: Action)
  {
    match a
    case Arrive(now, _) => s.clock <= now
    case Log(answer) => answer in s.waiting
    case Sent => true
    case Calculate(now, _) => s.clock <= now && s.last + (send + wait) * 1000 <= now
  }

  function Next(s: System, send: nat, wait: nat, a: Action): System
    requires send >= 1 && Enabled(s, send, wait, a)
  {
    match a
    case Arrive(now, size) => s.(clock := now, waiting := s.waiting + multiset{Answer(now, size)})
    case Log(answer) => s.(data := Logged(s.data, answer.ts, answer.size), waiting := s.waiting - multiset{answer})
    case Sent => s.(data := s.data.(sent := s.data.sent + 1))
    case Calculate(now, target) =>
      var lo := RxStart(s.data.first, now, send, wait);
      System(Calculated(s.data, now, target, send, wait), now, s.waiting, now, |s.data.answers|,
             if s.data.first == -1 then s.windows
             else s.windows + [Window(lo, lo + send * 1000, Counted(s.data, now, send, wait))])
  }

  ghost predicate Disjoint(ws: seq<Window>)
  {
    forall i, j :: 0 <= i < j < |ws| ==> ws[i].hi <= ws[j].lo
  }

  // Every window is closed by `end`, counts no more than what is inside it, and overlaps no other.
  ghost predicate Placed(ws: seq<Window>, answers: seq<Answer>, end: int)
  {
    && (forall w :: w in ws ==> w.lo < w.hi <= end && w.count <= FullCount(answers, w.lo, w.hi))
    && Disjoint(ws)
  }

  ghost predicate WindowsOk(s: System)
  {
    Placed(s.windows, s.data.answers, s.last)
  }

  ghost predicate LogOk(s: System)
  {
    && 0 <= s.last <= s.clock && s.mark <= |s.data.answers|
    && (forall a :: a in s.waiting ==> 0 <= a.ts <= s.clock)
    && (forall i :: 0 <= i < |s.data.answers| ==> 0 <= s.data.answers[i].ts <= s.clock)
    && (forall i :: 0 <= i < s.mark ==> s.data.answers[i].ts <= s.last)
    && s.data.first == if s.mark == |s.data.answers| then -1 else s.data.answers[s.mark].ts
  }

  ghost predicate Invariant(s: System)
  {
    LogOk(s) && WindowsOk(s)
  }

  function Fresh(start: nat): System
  {
    System(EMPTY, start, multiset{}, start, 0, [])
  }

  lemma LogKeeps(s: System, answer: Answer)
    requires Invariant(s) && answer in s.waiting
    ensures Invariant(s.(data := Logged(s.data, answer.ts, answer.size), waiting := s.waiting - multiset{answer}))
  {
    var t := s.(data := Logged(s.data, answer.ts, answer.size), waiting := s.waiting - multiset{answer});
    assert forall a :: a in t.waiting ==> a in s.waiting;
    assert t.data.answers[..|s.data.answers|] == s.data.answers;
    forall w | w in t.windows ensures w.count <= FullCount(t.data.answers, w.lo, w.hi) {
      assert w in s.windows;
    }
  }

  // A window closes before now and opens after the previous calculation.
  lemma WindowPlace(first: int, last: int, now: int, send: nat, wait: nat)
    requires send >= 1 && last + (send + wait) * 1000 <= now
    ensures var lo := RxStart(first, now, send, wait); last <= lo && lo + send * 1000 <= now
  {
  }

  lemma CalculateKeeps(s: System, send: nat, wait: nat, now: int, target: real)
    requires send >= 1 && Invariant(s) && Enabled(s, send, wait, Calculate(now, target))
    ensures Invariant(Next(s, send, wait, Calculate(now, target)))
  {
    hide LogOk, WindowsOk, Next;
    CalculatedLog(s, send, wait, now, target);
    CalculatedWindows(s, send, wait, now, target);
  }

  lemma CalculatedLog(s: System, send: nat, wait: nat, now: int, target: real)
    requires send >= 1 && LogOk(s) && Enabled(s, send, wait, Calculate(now, target))
    ensures LogOk(Next(s, send, wait, Calculate(now, target)))
  {
    hide RxStart, Counted, Rate;
  }

  lemma CalculatedWindows(s: System, send: nat, wait: nat, now: int, target: real)
    requires send >= 1 && Invariant(s) && Enabled(s, send, wait, Calculate(now, target))
    ensures WindowsOk(Next(s, send, wait, Calculate(now, target)))
  {
    WindowPlace(s.data.first, s.last, now, send, wait);
    var lo := RxStart(s.data.first, now, send, wait);
    EarlyExitIff(s.data.answers, lo, lo + send * 1000);
    var w := Window(lo, lo + send * 1000, Counted(s.data, now, send, wait));
    hide RxStart, EarlyCount, FullCount, Overtaken, Rate, LogOk, Placed;
    OneMore(s.windows, w, s.data.answers, s.last, now);
  }

  lemma OneMore(ws: seq<Window>, w: Window, answers: seq<Answer>, last: int, now: int)
    requires Placed(ws, answers, last) && last <= now
    ensures Placed(ws, answers, now)
    ensures last <= w.lo < w.hi <= now && w.count <= FullCount(answers, w.lo, w.hi) ==> Placed(ws + [w], answers, now)
  {
    hide FullCount;
  }

  lemma StepKeeps(s: System, send: nat, wait: nat, a: Action)
    requires send >= 1 && Invariant(s) && Enabled(s, send, wait, a)
    ensures Invariant(Next(s, send, wait, a))
  {
    match a
    case Arrive(_, _) =>
    case Log(answer) => LogKeeps(s, answer);
    case Sent =>
    case Calculate(now, target) => CalculateKeeps(s, send, wait, now, target);
  }

  ghost predicate IsRun(start: nat, send: nat, wait: nat, run: seq<System>, actions: seq<Action>)
    requires send >= 1
  {
    && |run| == |actions| + 1 && run[0] == Fresh(start)
    && forall k :: 0 <= k < |actions| ==> StepAt(send, wait, run, actions, k)
  }

  ghost predicate StepAt(send: nat, wait: nat, run: seq<System>, actions: seq<Action>, k: nat)
    requires send >= 1 && k < |actions| && |run| == |actions| + 1
  {
    Enabled(run[k], send, wait, actions[k]) && run[k + 1] == Next(run[k], send, wait, actions[k])
  }

  lemma {:induction false} RunsKeepInvariant(start: nat, send: nat, wait: nat, run: seq<System>, actions: seq<Action>,
                                             k: nat)
    requires send >= 1 && IsRun(start, send, wait, run, actions) && k < |run|
    ensures Invariant(run[k])
    decreases k
  {
    if k > 0 {
      hide Invariant, Enabled, Next;
      RunsKeepInvariant(start, send, wait, run, actions, k - 1);
      assert StepAt(send, wait, run, actions, k - 1);
      StepKeeps(run[k - 1], send, wait, actions[k - 1]);
    }
  }

  // ---------- nothing is counted twice ----------

  function Hits(ws: seq<Window>, a: Answer): nat
  {
    if ws == [] then 0
    else Hits(ws[..|ws| - 1], a) + if Inside(a, ws[|ws| - 1].lo, ws[|ws| - 1].hi) then 1 else 0
  }

  function SumCounts(ws: seq<Window>): nat
  {
    if ws == [] then 0 else SumCounts(ws[..|ws| - 1]) + ws[|ws| - 1].count
  }

  function SumFull(ws: seq<Window>, answers: seq<Answer>): nat
  {
    if ws == [] then 0
    else SumFull(ws[..|ws| - 1], answers) + FullCount(answers, ws[|ws| - 1].lo, ws[|ws| - 1].hi)
  }

  lemma {:induction false} HitOnce(ws: seq<Window>, a: Answer)
    requires Disjoint(ws)
    ensures Hits(ws, a) <= 1
    ensures Hits(ws, a) == 0 || exists i :: 0 <= i < |ws| && Inside(a, ws[i].lo, ws[i].hi)
  {
    if ws != [] {
      var n := |ws| - 1;
      HitOnce(ws[..n], a);
      if Hits(ws[..n], a) != 0 {
        var i :| 0 <= i < n && Inside(a, ws[..n][i].lo, ws[..n][i].hi);
        assert ws[i].hi <= ws[n].lo;
        assert Inside(a, ws[i].lo, ws[i].hi);
      }
    }
  }

  lemma {:induction false} SumStep(ws: seq<Window>, answers: seq<Answer>)
    requires answers != []
    ensures SumFull(ws, answers) == SumFull(ws, answers[..|answers| - 1]) + Hits(ws, answers[|answers| - 1])
  {
    if ws != [] {
      SumStep(ws[..|ws| - 1], answers);
    }
  }

  lemma {:induction false} SumNone(ws: seq<Window>)
    ensures SumFull(ws, []) == 0
  {
    if ws != [] {
      SumNone(ws[..|ws| - 1]);
    }
  }

  lemma {:induction false} SumBound(ws: seq<Window>, answers: seq<Answer>)
    requires Disjoint(ws)
    ensures SumFull(ws, answers) <= |answers|
  {
    if answers == [] {
      SumNone(ws);
    } else {
      SumBound(ws, answers[..|answers| - 1]);
      SumStep(ws, answers);
      HitOnce(ws, answers[|answers| - 1]);
    }
  }

  lemma {:induction false} CountsBounded(ws: seq<Window>, answers: seq<Answer>)
    requires forall w :: w in ws ==> w.count <= FullCount(answers, w.lo, w.hi)
    ensures SumCounts(ws) <= SumFull(ws, answers)
  {
    if ws != [] {
      CountsBounded(ws[..|ws| - 1], answers);
      assert ws[|ws| - 1] in ws;
    }
  }

  // In every run, in whatever order the handlers log their answers: the windows are pairwise disjoint,
  // no count exceeds the number of answers inside its window, and together the windows count no
  // answer twice.
  lemma NoDoubleCount(start: nat, send: nat, wait: nat, run: seq<System>, actions: seq<Action>, k: nat)
    requires send >= 1 && IsRun(start, send, wait, run, actions) && k < |run|
    ensures var s := run[k];
      && Disjoint(s.windows)
      && (forall w :: w in s.windows ==> w.count <= FullCount(s.data.answers, w.lo, w.hi))
      && SumCounts(s.windows) <= |s.data.answers|
      && forall a :: a in s.data.answers ==> Hits(s.windows, a) <= 1
  {
    var s := run[k];
    RunsKeepInvariant(start, send, wait, run, actions, k);
    hide IsRun;
    CountsBounded(s.windows, s.data.answers);
    SumBound(s.windows, s.data.answers);
    forall a | a in s.data.answers ensures Hits(s.windows, a) <= 1 {
      HitOnce(s.windows, a);
    }
  }

  // A calculation counts its whole window exactly when no answer of the log inside the window is
  // followed by one that arrived before the window.
  lemma WindowExactIff(start: nat, send: nat, wait: nat, run: seq<System>, actions: seq<Action>, k: nat)
    requires send >= 1 && IsRun(start, send, wait, run, actions) && k < |actions|
    requires actions[k].Calculate? && run[k].data.first != -1
    ensures run[k + 1].windows != []
    ensures var w := run[k + 1].windows[|run[k + 1].windows| - 1];
      var log := run[k].data.answers;
      && w.hi == w.lo + send * 1000
      && (w.count == FullCount(log, w.lo, w.hi) <==> !Overtaken(log, w.lo, w.hi))
  {
    assert StepAt(send, wait, run, actions, k);
    var lo := RxStart(run[k].data.first, actions[k].now, send, wait);
    hide IsRun, Overtaken, EarlyCount, FullCount, RxStart, Calculated;
    EarlyExitIff(run[k].data.answers, lo, lo + send * 1000);
  }

  // That condition can fail: two handlers log in the opposite order of arrival, and the answer inside
  // the window is not counted.
  lemma OvertakenRun() returns (run: seq<System>, actions: seq<Action>)
    ensures IsRun(0, 1, 1, run, actions) && |actions| == 5 && actions[4].Calculate?
    ensures run[5].windows == [Window(1000, 2000, 0)]
    ensures FullCount(run[4].data.answers, 1000, 2000) == 1 && Overtaken(run[4].data.answers, 1000, 2000)
  {
    var early, late := Answer(10, 0), Answer(1500, 0);
    actions := [Arrive(10, 0), Arrive(1500, 0), Log(late), Log(early), Calculate(2000, 0.0)];
    var s1 := System(EMPTY, 10, multiset{early}, 0, 0, []);
    var s2 := System(EMPTY, 1500, multiset{early, late}, 0, 0, []);
    var s3 := System(Data([late], [], 0, 1500), 1500, multiset{early}, 0, 0, []);
    var s4 := System(Data([late, early], [], 0, 1500), 1500, multiset{}, 0, 0, []);
    OvertakenSteps(early, late, s1, s2, s3, s4);
    OvertakenCount(early, late);
    OvertakenLast(s4);
    hide EarlyCount, FullCount, Overtaken, Next, Enabled;
    run := [Fresh(0), s1, s2, s3, s4, Next(s4, 1, 1, actions[4])];
    assert StepAt(1, 1, run, actions, 0) && StepAt(1, 1, run, actions, 1) && StepAt(1, 1, run, actions, 2);
    assert StepAt(1, 1, run, actions, 3) && StepAt(1, 1, run, actions, 4);
  }

  lemma OvertakenSteps(early: Answer, late: Answer, s1: System, s2: System, s3: System, s4: System)
    requires early == Answer(10, 0) && late == Answer(1500, 0)
    requires s1 == System(EMPTY, 10, multiset{early}, 0, 0, [])
    requires s2 == System(EMPTY, 1500, multiset{early, late}, 0, 0, [])
    requires s3 == System(Data([late], [], 0, 1500), 1500, multiset{early}, 0, 0, [])
    requires s4 == System(Data([late, early], [], 0, 1500), 1500, multiset{}, 0, 0, [])
    ensures Enabled(Fresh(0), 1, 1, Arrive(10, 0)) && Next(Fresh(0), 1, 1, Arrive(10, 0)) == s1
    ensures Enabled(s1, 1, 1, Arrive(1500, 0)) && Next(s1, 1, 1, Arrive(1500, 0)) == s2
    ensures Enabled(s2, 1, 1, Log(late)) && Next(s2, 1, 1, Log(late)) == s3
    ensures Enabled(s3, 1, 1, Log(early)) && Next(s3, 1, 1, Log(early)) == s4
  {
    assert s2.waiting - multiset{late} == s3.waiting && s3.waiting - multiset{early} == s4.waiting;
    assert [] + [late] == [late] && [late] + [early] == [late, early];
  }

  lemma OvertakenLast(s: System)
    requires s.data.first == 1500 && s.clock <= 2000 && s.last == 0 && s.windows == []
    requires EarlyCount(s.data.answers, 1000, 2000) == 0
    ensures Enabled(s, 1, 1, Calculate(2000, 0.0))
    ensures Next(s, 1, 1, Calculate(2000, 0.0)).windows == [Window(1000, 2000, 0)]
  {
    hide EarlyCount, Rate;
    assert RxStart(1500, 2000, 1, 1) == 1000;
  }

  lemma OvertakenCount(early: Answer, late: Answer)
    requires early.ts == 10 && late.ts == 1500
    ensures EarlyCount([late, early], 1000, 2000) == 0 && FullCount([late, early], 1000, 2000) == 1
    ensures Overtaken([late, early], 1000, 2000)
  {
    var log := [late, early];
    assert log[..1] == [late] && [late][..0] == [];
    assert FullCount([late], 1000, 2000) == 1;
    assert Inside(log[0], 1000, 2000) && log[1].ts < 1000;
  }

  ghost predicate NoneBefore(a: seq<Answer>, lo: int)
  {
    forall i :: 0 <= i < |a| ==> lo <= a[i].ts
  }

  // If the window was moved to the first answer logged since the last calculation, it counts exactly
  // the answers logged since then that arrived before its end, if and only if none of them arrived
  // before the first one logged.
  lemma MovedWindowIff(s: System, send: nat, wait: nat, now: int, target: real)
    requires send >= 1 && Invariant(s) && Enabled(s, send, wait, Calculate(now, target))
    requires s.data.first != -1 && now - (send + wait) * 1000 < s.data.first < now - send * 1000
    ensures var since := s.data.answers[s.mark..];
      Counted(s.data, now, send, wait) == FullCount(since, 0, s.data.first + send * 1000)
      <==> NoneBefore(since, s.data.first)
  {
    var lo := s.data.first;
    var hi := lo + send * 1000;
    var since := s.data.answers[s.mark..];
    hide EarlyCount, FullCount, Overtaken, NoneBefore;
    OvertakenSince(s, hi);
    CountSince(s, hi);
    EarlyExitIff(s.data.answers, lo, hi);
    WiderCount(since, lo, hi);
  }

  // Answers logged before the last calculation lie before a moved window.
  lemma CountSince(s: System, hi: int)
    requires LogOk(s) && s.last < s.data.first < hi
    ensures FullCount(s.data.answers, s.data.first, hi) == FullCount(s.data.answers[s.mark..], s.data.first, hi)
  {
    var answers := s.data.answers;
    assert answers == answers[..s.mark] + answers[s.mark..];
    hide FullCount;
    CountConcat(answers[..s.mark], answers[s.mark..], s.data.first, hi);
    NoneInside(answers[..s.mark], s.data.first, hi);
  }

  lemma OvertakenSince(s: System, hi: int)
    requires LogOk(s) && s.last < s.data.first < hi
    ensures NoneBefore(s.data.answers[s.mark..], 0)
    ensures Overtaken(s.data.answers, s.data.first, hi) <==> !NoneBefore(s.data.answers[s.mark..], s.data.first)
  {
    OvertakenAfter(s.data.answers, s.mark, s.data.first, hi);
    hide Overtaken;
  }

  // With nothing inside the window before the mark, and the answer at the mark opening the window.
  lemma OvertakenAfter(answers: seq<Answer>, mark: nat, lo: int, hi: int)
    requires mark < |answers| && answers[mark].ts == lo < hi
    requires forall i :: 0 <= i < mark ==> answers[i].ts < lo
    ensures Overtaken(answers, lo, hi) <==> !NoneBefore(answers[mark..], lo)
  {
    var since := answers[mark..];
    if Overtaken(answers, lo, hi) {
      var i, j :| 0 <= i < j < |answers| && Inside(answers[i], lo, hi) && answers[j].ts < lo;
      assert mark <= i;
      assert since[j - mark] == answers[j];
    }
    if !NoneBefore(since, lo) {
      var j :| 0 <= j < |since| && since[j].ts < lo;
      assert answers[mark + j] == since[j];
      assert Inside(answers[mark], lo, hi);
    }
  }

  lemma {:induction false} WiderCount(a: seq<Answer>, lo: int, hi: int)
    requires 0 <= lo <= hi && NoneBefore(a, 0)
    ensures FullCount(a, lo, hi) <= FullCount(a, 0, hi)
    ensures FullCount(a, lo, hi) == FullCount(a, 0, hi) <==> NoneBefore(a, lo)
  {
    if a != [] {
      var n := |a| - 1;
      WiderCount(a[..n], lo, hi);
      assert NoneBefore(a, lo) <==> lo <= a[n].ts && NoneBefore(a[..n], lo);
    }
  }

  lemma {:induction false} CountConcat(a: seq<Answer>, b: seq<Answer>, lo: int, hi: int)
    ensures FullCount(a + b, lo, hi) == FullCount(a, lo, hi) + FullCount(b, lo, hi)
  {
    if b == [] {
      assert a + b == a;
    } else {
      assert (a + b)[..|a + b| - 1] == a + b[..|b| - 1];
      CountConcat(a, b[..|b| - 1], lo, hi);
    }
  }

  // ---------- what a round reports ----------

  // The queries sent since the last calculation, and the answers logged since then and altogether.
  function SentSince(actions: seq<Action>): nat
  {
    if actions == [] then 0
    else
      var before := SentSince(actions[..|actions| - 1]);
      match actions[|actions| - 1]
      case Sent => before + 1
      case Calculate(_, _) => 0
      case _ => before
  }

  function LoggedSince(actions: seq<Action>): seq<Answer>
  {
    if actions == [] then []
    else
      var before := LoggedSince(actions[..|actions| - 1]);
      match actions[|actions| - 1]
      case Log(answer) => before + [answer]
      case Calculate(_, _) => []
      case _ => before
  }

  function AllLogged(actions: seq<Action>): seq<Answer>
  {
    if actions == [] then []
    else
      var before := AllLogged(actions[..|actions| - 1]);
      match actions[|actions| - 1]
      case Log(answer) => before + [answer]
      case _ => before
  }

  ghost predicate Accounted(d: Data, actions: seq<Action>)
  {
    && d.sent == SentSince(actions)
    && d.answers == AllLogged(actions)
    && d.first == (if LoggedSince(actions) == [] then -1 else LoggedSince(actions)[0].ts)
    && forall a :: a in LoggedSince(actions) ==> a.ts >= 0
  }

  lemma StepAccounted(s: System, send: nat, wait: nat, before: seq<Action>, a: Action)
    requires send >= 1 && Enabled(s, send, wait, a) && Accounted(s.data, before)
    requires forall x :: x in s.waiting ==> x.ts >= 0
    ensures Accounted(Next(s, send, wait, a).data, before + [a])
  {
    assert (before + [a])[..|before|] == before;
    hide RxStart, Counted, Rate;
  }

  lemma WaitingTimes(s: System)
    requires Invariant(s)
    ensures forall x :: x in s.waiting ==> x.ts >= 0
  {
    hide WindowsOk;
  }

  lemma {:induction false} RunAccounted(start: nat, send: nat, wait: nat, run: seq<System>, actions: seq<Action>,
                                        k: nat)
    requires send >= 1 && IsRun(start, send, wait, run, actions) && k < |run|
    ensures k <= |actions| && Accounted(run[k].data, actions[..k])
    decreases k
  {
    if k > 0 {
      assert StepAt(send, wait, run, actions, k - 1);
      RunsKeepInvariant(start, send, wait, run, actions, k - 1);
      RunAccounted(start, send, wait, run, actions, k - 1);
      assert actions[..k] == actions[..k - 1] + [actions[k - 1]];
      hide *;
      StepIs(send, wait, run, actions, k - 1);
      WaitingTimes(run[k - 1]);
      StepAccounted(run[k - 1], send, wait, actions[..k - 1], actions[k - 1]);
    } else {
      assert actions[..0] == [];
    }
  }

  lemma StepIs(send: nat, wait: nat, run: seq<System>, actions: seq<Action>, k: nat)
    requires send >= 1 && k < |actions| && |run| == |actions| + 1 && StepAt(send, wait, run, actions, k)
    ensures Enabled(run[k], send, wait, actions[k]) && run[k + 1] == Next(run[k], send, wait, actions[k])
  {
    hide Enabled, Next;
  }

  // A rate is a number of packets by a time in milliseconds, in packets per second.
  lemma RateMeans(n: int, send: nat)
    requires send >= 1
    ensures Rate(n, send) * (send as real) == n as real * 1000.0
  {
    var x, y := n as real, send as real;
    assert x / y * y == x;
    assert x / y * 1000.0 * y == x / y * y * 1000.0;
  }

  lemma RateDifference(m: int, n: int, send: nat)
    requires send >= 1
    ensures Rate(m - n, send) == Rate(m, send) - Rate(n, send)
  {
  }

  // The answers from position `from` on that arrived inside a window.
  ghost function Within(answers: seq<Answer>, from: nat, lo: int, hi: int): set<int>
  {
    set i | from <= i < |answers| && lo <= answers[i].ts < hi
  }

  lemma WithinNext(answers: seq<Answer>, from: nat, lo: int, hi: int)
    requires from < |answers|
    ensures var n := |answers| - 1;
      |Within(answers, from, lo, hi)|
        == |Within(answers[..n], from, lo, hi)| + if lo <= answers[n].ts < hi then 1 else 0
  {
    var n := |answers| - 1;
    var before := Within(answers[..n], from, lo, hi);
    assert n !in before;
    assert Within(answers, from, lo, hi) == before + if lo <= answers[n].ts < hi then {n} else {};
  }

  lemma WithinNone(answers: seq<Answer>, lo: int, hi: int)
    ensures Within(answers, |answers|, lo, hi) == {}
  {
  }

  // What the scan counts: those inside the window after the last answer older than the window.
  lemma {:induction false} EarlyCountIs(answers: seq<Answer>, lo: int, hi: int) returns (cut: nat)
    ensures cut <= |answers| && (cut > 0 ==> answers[cut - 1].ts < lo)
    ensures forall i :: cut <= i < |answers| ==> lo <= answers[i].ts
    ensures EarlyCount(answers, lo, hi) == |Within(answers, cut, lo, hi)|
  {
    var n := |answers| - 1;
    hide Within;
    if answers == [] || answers[n].ts < lo {
      cut := |answers|;
      WithinNone(answers, lo, hi);
    } else {
      cut := EarlyCountIs(answers[..n], lo, hi);
      WithinNext(answers, cut, lo, hi);
    }
  }

  lemma {:induction false} FullCountIs(answers: seq<Answer>, lo: int, hi: int)
    ensures FullCount(answers, lo, hi) == |Within(answers, 0, lo, hi)|
  {
    hide Within;
    if answers == [] {
      WithinNone(answers, lo, hi);
    } else {
      FullCountIs(answers[..|answers| - 1], lo, hi);
      WithinNext(answers, 0, lo, hi);
    }
  }

  // n is the number of answers counted at `now`: none if nothing was logged since the last calculation,
  // and otherwise those inside the window among the answers from `cut` on, which are the ones logged
  // after the last answer older than the window.
  ghost predicate Windowed(log: seq<Answer>, since: seq<Answer>, now: int, send: nat, wait: nat, cut: nat, n: nat)
  {
    var earliest, latest := now - (send + wait) * 1000, now - send * 1000;
    if since == [] then n == 0
    else
      var lo := if earliest < since[0].ts < latest then since[0].ts else latest;
      && cut <= |log| && (cut > 0 ==> log[cut - 1].ts < lo)
      && (forall i :: cut <= i < |log| ==> lo <= log[i].ts)
      && n == |Within(log, cut, lo, lo + send * 1000)|
  }

  ghost predicate Reports(pair: P.Pair, target: real, send: nat, sent: nat, n: nat)
  {
    && pair.target == target && pair.duration == send
    && pair.tx * (send as real) == sent as real * 1000.0
    && pair.rx * (send as real) == n as real * 1000.0
    && pair.loss == pair.tx - pair.rx
  }

  lemma ReportsRates(target: real, send: nat, sent: nat, n: nat)
    requires send >= 1
    ensures Reports(P.Pair(target, send, Rate(sent, send), Rate(n, send), Rate(sent - n, send)), target, send, sent, n)
  {
    RateMeans(sent, send);
    RateMeans(n, send);
    RateDifference(sent, n, send);
    hide Rate;
  }

  // In every run a calculation appends one pair: its rates times the sending interval are a thousand
  // times the number of queries sent since the last calculation, and of answers counted; the loss is
  // the difference.
  lemma PairMeasured(start: nat, send: nat, wait: nat, run: seq<System>, actions: seq<Action>, k: nat)
    returns (cut: nat, n: nat)
    requires send >= 1 && IsRun(start, send, wait, run, actions) && k < |actions| && actions[k].Calculate?
    ensures Windowed(AllLogged(actions[..k]), LoggedSince(actions[..k]), actions[k].now, send, wait, cut, n)
    ensures run[k + 1].data.curve != []
    ensures var pair := run[k + 1].data.curve[|run[k + 1].data.curve| - 1];
      && run[k + 1].data.curve == run[k].data.curve + [pair]
      && Reports(pair, actions[k].target, send, SentSince(actions[..k]), n)
  {
    assert StepAt(send, wait, run, actions, k);
    RunAccounted(start, send, wait, run, actions, k);
    hide *;
    StepIs(send, wait, run, actions, k);
    var d, now := run[k].data, actions[k].now;
    CalculationIs(run[k], send, wait, now, actions[k].target);
    n := Counted(d, now, send, wait);
    cut := CountedIs(d, actions[..k], now, send, wait);
    ReportsRates(actions[k].target, send, d.sent, n);
    SentIs(d, actions[..k]);
  }

  lemma SentIs(d: Data, actions: seq<Action>)
    requires Accounted(d, actions)
    ensures d.sent == SentSince(actions) && d.answers == AllLogged(actions)
  {
    hide SentSince, AllLogged, LoggedSince;
  }

  lemma CalculationIs(s: System, send: nat, wait: nat, now: int, target: real)
    requires send >= 1 && Enabled(s, send, wait, Calculate(now, target))
    ensures var n := Counted(s.data, now, send, wait);
      Next(s, send, wait, Calculate(now, target)).data.curve == s.data.curve
        + [P.Pair(target, send, Rate(s.data.sent, send), Rate(n, send), Rate(s.data.sent - n, send))]
  {
    hide Rate, Counted, RxStart;
  }

  lemma CountedIs(d: Data, actions: seq<Action>, now: int, send: nat, wait: nat) returns (cut: nat)
    requires Accounted(d, actions)
    ensures Windowed(AllLogged(actions), LoggedSince(actions), now, send, wait, cut, Counted(d, now, send, wait))
  {
    var since := LoggedSince(actions);
    hide LoggedSince, AllLogged, SentSince, Within, EarlyCount;
    cut := 0;
    if since != [] {
      assert since[0] in since;
      var lo := RxStart(d.first, now, send, wait);
      cut := EarlyCountIs(d.answers, lo, lo + send * 1000);
    }
  }
}
