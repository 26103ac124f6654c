// The TCP traceroute's hand-off from the SYN phase to the DNS phase. A SYN-ACK handler reads
// syn_ack_received without the lock and, when it may go on, takes the lock and re-checks the
// DNS port; any number of handlers can be between the two steps. Answers of routers on the way are
// recorded in the same two steps.
module Traceroute {
  import opened Wrappers

  datatype Hop = Hop(hopCount: int, ts: int, responseIp: int)

  // A SYN-ACK as the handler sees it.
  datatype SynAck = SynAck(srcIp: int, dstPort: int)

  // An ICMP "time exceeded" answer: the probe's source port and IP identification, and who answered.
  datatype Expired = Expired(srcPort: int, ipId: int, routerIp: int)

  // Which of the two hop lists an answer goes to.
  datatype Phase = SynPhase | DnsPhase | NoPhase

  // The fields of one traceroute; a timestamp of -1 means "not yet".
  datatype Param = Param(
    allSynsSent: int,
    allDnsPacketsSent: int,
    synAckReceived: int,
    dnsReplyReceived: int,
    initialIp: Option<int>,
    firstToSynAck: Option<int>,
    dnsPort: int,
    finished: int,
    written: bool,
    synHops: seq<Hop>,
    dnsHops: seq<Hop>,
    dnsAnswers: seq<int>)

  // A traceroute object as first allocated: every field at its zero value except `finished`.
  const FRESH := Param(0, 0, 0, 0, None, None, 0, -1, false, [], [], [])

  // zero() leaves the recorded first responder as it was.
  function Zeroed(p: Param): Param
  {
    Param(-1, -1, -1, -1, None, p.firstToSynAck, 0, -1, false, [], [], [])
  }

  // The routine that owns a port range waits for this before it starts on a new target; that it also
  // waits some seconds after `finished` only makes it later.
  predicate MayRestart(p: Param)
  {
    p.initialIp.None? || (p.written && p.finished != -1)
  }

  // The routine that owns a port range starts on a new target.
  function Restart(p: Param, ip: int): Param
  {
    Zeroed(p).(initialIp := Some(ip))
  }

  // The section under the lock.
  function Locked(p: Param, pkt: SynAck, now: int): Param
  {
    var seen := p.(synHops := p.synHops + [Hop(pkt.dstPort - CalcStartPort(pkt.dstPort), now, pkt.srcIp)],
                   synAckReceived := now,
                   firstToSynAck := Some(pkt.srcIp));
    if p.dnsPort != 0 then seen else seen.(dnsPort := pkt.dstPort)
  }

  // The unlocked test of an ICMP answer.
  function PhaseOf(p: Param, icmp: Expired): Phase
  {
    if p.synAckReceived == -1 then SynPhase else if p.dnsPort == icmp.srcPort then DnsPhase else NoPhase
  }

  // Its locked section: while SYNs are out the probe's port names the hop, later its identification.
  function SynHopAdded(p: Param, icmp: Expired, now: int): Param
  {
    p.(synHops := p.synHops + [Hop(icmp.srcPort - CalcStartPort(icmp.srcPort), now, icmp.routerIp)])
  }

  // The subtraction is one of 16-bit numbers.
  function DnsHopAdded(p: Param, port: int, id: int, now: int, ip: int): Param
  {
    p.(dnsHops := p.dnsHops + [Hop((id - CalcStartPort(port)) % 0x10000, now, ip)])
  }

  class TracertParam {
    var allSynsSent: int
    var allDnsPacketsSent: int
    var synAckReceived: int
    var dnsReplyReceived: int
    var initialIp: Option<int>
    var firstToSynAck: Option<int>
    var dnsPort: int
    var finished: int
    var written: bool
    var synHops: seq<Hop>
    var dnsHops: seq<Hop>
    var dnsAnswers: seq<int>

    function View(): Param
      reads this
    {
      Param(allSynsSent, allDnsPacketsSent, synAckReceived, dnsReplyReceived, initialIp,
            firstToSynAck, dnsPort, finished, written, synHops, dnsHops, dnsAnswers)
    }

    constructor ()
      ensures View() == FRESH
    {
      allSynsSent, allDnsPacketsSent, synAckReceived, dnsReplyReceived := 0, 0, 0, 0;
      initialIp, firstToSynAck, dnsPort := None, None, 0;
      finished, written := -1, false;
      synHops, dnsHops, dnsAnswers := [], [], [];
    }

    method Zero()
      modifies this
      ensures allSynsSent == allDnsPacketsSent == synAckReceived == dnsReplyReceived == finished == -1
      ensures !written && dnsPort == 0 && initialIp == None && firstToSynAck == old(firstToSynAck)
      ensures synHops == [] && dnsHops == [] && dnsAnswers == []
      ensures View() == Zeroed(old(View()))
    {
      allDnsPacketsSent := -1;
      allSynsSent := -1;
      synAckReceived := -1;
      dnsReplyReceived := -1;
      written := false;
      finished := -1;
      dnsPort := 0;
      synHops := [];
      dnsHops := [];
      dnsAnswers := [];
      initialIp := None;
    }

    // One locked section of the owning routine.
    method StartOn(ip: int)
      requires MayRestart(View())
      modifies this
      ensures View() == Restart(old(View()), ip)
    {
      Zero();
      initialIp := Some(ip);
    }

    // The unlocked test: whether it lets a handler go on to wait for the lock.
    method MayHandOff() returns (b: bool)
      ensures forall s: System, pkt: SynAck :: s.param == View() ==>
        Step(s, Test(pkt)) == if b then s.(waiting := s.waiting + multiset{pkt}) else s
    {
      b := synAckReceived == -1;
    }

    // The locked section; `starts` tells whether this handler goes on to send DNS packets.
    method HandOff(pkt: SynAck, now: int) returns (starts: bool)
      modifies this
      ensures View() == Locked(old(View()), pkt, now)
      ensures forall s: System :: s.param == old(View()) ==>
        && Step(s, Enter(pkt, now)).param == View()
        && Step(s, Enter(pkt, now)).started == if starts then s.started + [pkt] else s.started
    {
      var hop := pkt.dstPort - CalcStartPort(pkt.dstPort);
      synHops := synHops + [Hop(hop, now, pkt.srcIp)];
      synAckReceived := now;
      firstToSynAck := Some(pkt.srcIp);
      if dnsPort != 0 {
        starts := false;
        return;
      }
      dnsPort := pkt.dstPort;
      starts := true;
    }

    method TestExpiredIcmp(icmp: Expired) returns (phase: Phase)
      ensures forall s: System :: s.param == View() ==>
        Step(s, TestExpired(icmp)) ==
          match phase
          case SynPhase => s.(synExpired := s.synExpired + multiset{icmp})
          case DnsPhase => s.(dnsExpired := s.dnsExpired + multiset{icmp})
          case NoPhase => s
    {
      if synAckReceived == -1 {
        return SynPhase;
      } else if synAckReceived != -1 && dnsPort == icmp.srcPort {
        return DnsPhase;
      }
      return NoPhase;
    }

    method AddSynHop(icmp: Expired, now: int)
      modifies this
      ensures View() == SynHopAdded(old(View()), icmp, now)
    {
      var hop := icmp.srcPort - CalcStartPort(icmp.srcPort);
      synHops := synHops + [Hop(hop, now, icmp.routerIp)];
    }

    // For an ICMP answer to a DNS probe with its IP identification, for a DNS response with its DNS id.
    method AddDnsHop(port: int, id: int, now: int, ip: int)
      modifies this
      ensures View() == DnsHopAdded(old(View()), port, id, now, ip)
    {
      var hop := (id - CalcStartPort(port)) % 0x10000;
      dnsHops := dnsHops + [Hop(hop, now, ip)];
    }
  }

  // ---------- interleavings ----------

  // The traceroute, the handlers that passed the test but have not entered the lock, and what
  // happened since the last restart: which handlers entered, which started a DNS phase.
  datatype System = System(
    param: Param,
    waiting: multiset<SynAck>,
    synExpired: multiset<Expired>,
    dnsExpired: multiset<Expired>,
    entered: seq<SynAck>,
    started: seq<SynAck>)

  // Meanwhile stands for every other writer: the answers of a DNS response, FIN-ACKs, the senders, the
  // timeout and the writing of results. None of them touches the fields of the other actions.
  datatype Action =
    | StartTrace(ip: int)
    | Test(pkt: SynAck)
    | Enter(pkt: SynAck, now: int)
    | TestExpired(icmp: Expired)
    | EnterSynHop(icmp: Expired, now: int)
    | EnterDnsHop(icmp: Expired, now: int)
    | DnsResponse(dstPort: int, dnsId: int, srcIp: int, now: int)
    | Meanwhile(after: Param)

  const INITIAL := System(FRESH, multiset{}, multiset{}, multiset{}, [], [])

  predicate SameHandOff(p: Param, q: Param)
  {
    && p.synAckReceived == q.synAckReceived && p.firstToSynAck == q.firstToSynAck && p.dnsPort == q.dnsPort
    && p.initialIp == q.initialIp && p.synHops == q.synHops && p.dnsHops == q.dnsHops
  }

  // Destination ports of handled packets are never 0 and clock readings are never negative.
  predicate Possible(s: System, a: Action)
  {
    match a
    case StartTrace(_) => MayRestart(s.param)
    case Test(pkt) => pkt.dstPort > 0
    case Enter(pkt, now) => pkt in s.waiting && now >= 0
    case TestExpired(_) => true
    case EnterSynHop(icmp, _) => icmp in s.synExpired
    case EnterDnsHop(icmp, _) => icmp in s.dnsExpired
    case DnsResponse(_, _, _, _) => true
    case Meanwhile(after) => SameHandOff(s.param, after)
  }

  function Step(s: System, a: Action): System
  {
    match a
    case StartTrace(ip) => s.(param := Restart(s.param, ip), entered := [], started := [])
    case Test(pkt) =>
      if s.param.synAckReceived == -1 then s.(waiting := s.waiting + multiset{pkt}) else s
    case Enter(pkt, now) =>
      s.(param := Locked(s.param, pkt, now),
         waiting := s.waiting - multiset{pkt},
         entered := s.entered + [pkt],
         started := if s.param.dnsPort == 0 then s.started + [pkt] else s.started)
    case TestExpired(icmp) =>
      (match PhaseOf(s.param, icmp)
       case SynPhase => s.(synExpired := s.synExpired + multiset{icmp})
       case DnsPhase => s.(dnsExpired := s.dnsExpired + multiset{icmp})
       case NoPhase => s)
    case EnterSynHop(icmp, now) =>
      s.(param := SynHopAdded(s.param, icmp, now), synExpired := s.synExpired - multiset{icmp})
    case EnterDnsHop(icmp, now) =>
      s.(param := DnsHopAdded(s.param, icmp.srcPort, icmp.ipId, now, icmp.routerIp),
         dnsExpired := s.dnsExpired - multiset{icmp})
    case DnsResponse(dstPort, dnsId, srcIp, now) => s.(param := DnsHopAdded(s.param, dstPort, dnsId, now, srcIp))
    case Meanwhile(after) => s.(param := after)
  }

  ghost predicate IsRunFrom(s: System, run: seq<System>, actions: seq<Action>)
  {
    && |run| == |actions| + 1
    && run[0] == s
    && forall i :: 0 <= i < |actions| ==> StepAt(run, actions, i)
  }

  ghost predicate StepAt(run: seq<System>, actions: seq<Action>, i: nat)
    requires i < |actions| && |run| == |actions| + 1
  {
    Possible(run[i], actions[i]) && run[i + 1] == Step(run[i], actions[i])
  }

  ghost predicate IsRun(run: seq<System>, actions: seq<Action>)
  {
    IsRunFrom(INITIAL, run, actions)
  }

  lemma RunStep(s: System, run: seq<System>, actions: seq<Action>, i: nat)
    requires IsRunFrom(s, run, actions) && i < |actions|
    ensures |run| == |actions| + 1 && Possible(run[i], actions[i]) && run[i + 1] == Step(run[i], actions[i])
  {
    hide Possible, Step;
    assert StepAt(run, actions, i);
  }

  lemma RunLength(s: System, run: seq<System>, actions: seq<Action>)
    requires IsRunFrom(s, run, actions)
    ensures |run| == |actions| + 1 && run[0] == s
  {
  }

  ghost predicate Invariant(s: System)
  {
    PositivePorts(s) && Record(s)
  }

  ghost predicate PositivePorts(s: System)
  {
    && (forall pkt :: pkt in s.waiting ==> pkt.dstPort > 0)
    && (forall pkt :: pkt in s.entered ==> pkt.dstPort > 0)
  }

  ghost predicate Record(s: System)
  {
    if s.entered == [] then s.started == [] && s.param.dnsPort == 0
    else
      // the first handler to enter owns the DNS phase, and it is the only one
      && s.started == [s.entered[0]]
      && s.param.dnsPort == s.entered[0].dstPort
      // the recorded "first" responder is the last handler to enter
      && s.param.firstToSynAck == Some(s.entered[|s.entered| - 1].srcIp)
      && s.param.synAckReceived >= 0
  }

  lemma StepKeepsInvariant(s: System, a: Action)
    requires Invariant(s) && Possible(s, a)
    ensures Invariant(Step(s, a))
  {
    match a
    case StartTrace(_) => {}
    case Test(_) => {}
    case Enter(pkt, now) => {
      EnterKeepsInvariant(s, pkt, now);
    }
    case _ => {}
  }

  lemma EnterKeepsInvariant(s: System, pkt: SynAck, now: int)
    requires Invariant(s) && pkt in s.waiting && now >= 0
    ensures Invariant(Step(s, Enter(pkt, now)))
  {
    hide CalcStartPort;
    var t := Step(s, Enter(pkt, now));
    assert PositivePorts(t) by {
      assert forall q :: q in t.waiting ==> q in s.waiting;
    }
    assert Record(t) by {
      if s.entered != [] {
        assert s.entered[0] in s.entered;
      }
    }
  }

  lemma {:induction false} RunsKeepInvariant(run: seq<System>, actions: seq<Action>, i: nat)
    requires IsRun(run, actions) && i < |run|
    ensures Invariant(run[i])
    decreases i
  {
    if i > 0 {
      RunsKeepInvariant(run, actions, i - 1);
      RunStep(INITIAL, run, actions, i - 1);
      hide Invariant, Step, Possible, IsRunFrom;
      StepKeepsInvariant(run[i - 1], actions[i - 1]);
    }
  }

  // Under every interleaving at most one DNS phase starts between two restarts.
  lemma AtMostOnePhase(run: seq<System>, actions: seq<Action>, i: nat)
    requires IsRun(run, actions) && i < |run|
    ensures |run[i].started| <= 1
    ensures run[i].param.dnsPort != 0 <==> |run[i].started| == 1
    ensures |run[i].started| == 1 ==>
      && run[i].entered != []
      && run[i].started[0] == run[i].entered[0]
      && run[i].param.dnsPort == run[i].started[0].dstPort
  {
    RunsKeepInvariant(run, actions, i);
    if run[i].entered != [] {
      assert run[i].entered[0] in run[i].entered;
    }
  }

  // Once the DNS port is set it keeps its value until the next restart.
  lemma {:induction false} PortStaysUntilRestart(run: seq<System>, actions: seq<Action>, i: nat, j: nat)
    requires IsRun(run, actions) && i <= j < |run|
    requires run[i].param.dnsPort != 0
    requires forall k :: i <= k < j ==> !actions[k].StartTrace?
    ensures run[j].param.dnsPort == run[i].param.dnsPort
    ensures run[j].started == run[i].started
    decreases j
  {
    if i < j {
      PortStaysUntilRestart(run, actions, i, j - 1);
      RunStep(INITIAL, run, actions, j - 1);
      hide CalcStartPort, IsRunFrom;
    }
  }

  // ---------- the recorded responder ----------

  ghost predicate NoRestart(actions: seq<Action>)
  {
    forall k :: 0 <= k < |actions| ==> !actions[k].StartTrace?
  }

  // The record names the responder whose packet opened the DNS phase.
  ghost predicate NamesOpener(s: System)
  {
    s.started != [] && s.param.firstToSynAck == Some(s.started[0].srcIp)
  }

  ghost predicate AlwaysNamesOpener(s: System)
  {
    forall run, actions :: IsRunFrom(s, run, actions) && NoRestart(actions) ==> NamesOpener(run[|actions|])
  }

  ghost predicate WaitersAgree(s: System)
    requires s.started != []
  {
    forall pkt :: pkt in s.waiting ==> pkt.srcIp == s.started[0].srcIp
  }

  // Once a phase has started, the record keeps naming its opener, whatever happens before the next
  // restart, exactly when it does so now and every handler still between test and lock has the
  // opener's address.
  lemma FirstResponderIff(run: seq<System>, actions: seq<Action>, i: nat)
    requires IsRun(run, actions) && i < |run| && run[i].started != []
    ensures AlwaysNamesOpener(run[i]) <==> NamesOpener(run[i]) && WaitersAgree(run[i])
  {
    var s := run[i];
    RunsKeepInvariant(run, actions, i);
    hide IsRunFrom;
    if AlwaysNamesOpener(s) {
      NamesNow(s);
      forall pkt | pkt in s.waiting ensures pkt.srcIp == s.started[0].srcIp {
        WaiterRenames(s, pkt);
      }
    }
    if NamesOpener(s) && WaitersAgree(s) {
      forall more, acts | IsRunFrom(s, more, acts) && NoRestart(acts)
        ensures |more| == |acts| + 1 && NamesOpener(more[|acts|])
      {
        RunLength(s, more, acts);
        OpenerKept(s, more, acts, |acts|);
      }
    }
  }

  lemma NamesNow(s: System)
    requires AlwaysNamesOpener(s)
    ensures NamesOpener(s)
  {
    assert IsRunFrom(s, [s], []) && NoRestart([]);
  }

  lemma WaiterRenames(s: System, pkt: SynAck)
    requires AlwaysNamesOpener(s) && Invariant(s) && s.started != [] && pkt in s.waiting
    ensures pkt.srcIp == s.started[0].srcIp
  {
    var acts := [Enter(pkt, 0)];
    var more := [s, Step(s, acts[0])];
    assert StepAt(more, acts, 0);
    assert IsRunFrom(s, more, acts) && NoRestart(acts);
    assert NamesOpener(more[1]);
  }

  lemma {:induction false} OpenerKept(s: System, run: seq<System>, actions: seq<Action>, j: nat)
    requires Invariant(s) && NamesOpener(s) && WaitersAgree(s)
    requires IsRunFrom(s, run, actions) && NoRestart(actions) && j < |run|
    ensures run[j].started == s.started && NamesOpener(run[j]) && WaitersAgree(run[j])
    ensures run[j].param.synAckReceived != -1 && run[j].param.dnsPort != 0
    decreases j
  {
    if j == 0 {
      if s.entered != [] {
        assert s.entered[0] in s.entered;
      }
    } else {
      OpenerKept(s, run, actions, j - 1);
      RunStep(s, run, actions, j - 1);
      assert !actions[j - 1].StartTrace?;
      hide IsRunFrom, NoRestart, Invariant, CalcStartPort;
      KeptByStep(run[j - 1], actions[j - 1]);
    }
  }

  lemma KeptByStep(s: System, a: Action)
    requires NamesOpener(s) && WaitersAgree(s) && s.param.synAckReceived != -1 && s.param.dnsPort != 0
    requires Possible(s, a) && !a.StartTrace?
    ensures var t := Step(s, a);
      && t.started == s.started && NamesOpener(t) && WaitersAgree(t)
      && t.param.synAckReceived != -1 && t.param.dnsPort != 0
  {
    hide CalcStartPort;
    var t := Step(s, a);
    assert forall q :: q in t.waiting ==> q in s.waiting;
  }

  // Two handlers can pass the unlocked test; the record then names the one that did not open the phase.
  lemma RaceOverwritesResponder() returns (run: seq<System>, actions: seq<Action>)
    ensures IsRun(run, actions)
    ensures var last := run[|run| - 1];
      && |last.entered| == 2 && |last.started| == 1
      && last.param.firstToSynAck != Some(last.started[0].srcIp)
  {
    hide CalcStartPort;
    var a, b := SynAck(1, 61025), SynAck(2, 61026);
    actions := [StartTrace(9), Test(a), Test(b), Enter(a, 5), Enter(b, 5)];
    var s1 := Step(INITIAL, actions[0]);
    var s2 := Step(s1, actions[1]);
    var s3 := Step(s2, actions[2]);
    var s4 := Step(s3, actions[3]);
    var s5 := Step(s4, actions[4]);
    run := [INITIAL, s1, s2, s3, s4, s5];
    hide Step, Possible;
    assert forall i :: 0 <= i < 5 ==> StepAt(run, actions, i);
  }

  // ---------- handlers left over from before a restart ----------

  // A restart and what follows up to the next one.
  ghost predicate OneTrace(actions: seq<Action>)
  {
    actions != [] && actions[0].StartTrace? && forall k :: 1 <= k < |actions| ==> !actions[k].StartTrace?
  }

  ghost predicate TestedInside(actions: seq<Action>, pkt: SynAck)
  {
    exists k :: 1 <= k < |actions| && actions[k] == Test(pkt)
  }

  ghost predicate OpenersTested(s: System, actions: seq<Action>)
  {
    forall pkt :: pkt in s.started ==> TestedInside(actions, pkt)
  }

  // Whenever the traceroute restarts in state s, the DNS phase that follows is opened by a handler
  // that passed the test after the restart.
  ghost predicate NoStaleOpener(s: System)
  {
    forall run, actions :: IsRunFrom(s, run, actions) && OneTrace(actions) ==> OpenersTested(run[|actions|], actions)
  }

  // A state in which the traceroute may restart is safe from handlers of the previous target exactly
  // when none of them is between test and lock.
  lemma StaleIff(s: System)
    requires MayRestart(s.param)
    ensures NoStaleOpener(s) <==> s.waiting == multiset{}
  {
    hide IsRunFrom, OneTrace, OpenersTested, MayRestart;
    if NoStaleOpener(s) && s.waiting != multiset{} {
      var pkt :| pkt in s.waiting;
      StaleOpens(s, pkt);
    }
    if s.waiting == multiset{} {
      forall run, actions | IsRunFrom(s, run, actions) && OneTrace(actions)
        ensures |run| == |actions| + 1 && OpenersTested(run[|actions|], actions)
      {
        AllTested(s, run, actions);
      }
    }
  }

  // A waiting handler can open the new target's phase with a packet of the old one.
  lemma StaleOpens(s: System, pkt: SynAck)
    requires pkt in s.waiting && MayRestart(s.param)
    ensures !NoStaleOpener(s)
  {
    var actions := [StartTrace(0), Enter(pkt, 0)];
    var s1 := Step(s, actions[0]);
    var run := [s, s1, Step(s1, actions[1])];
    assert StepAt(run, actions, 0) && StepAt(run, actions, 1);
    assert IsRunFrom(s, run, actions) && OneTrace(actions);
    assert run[2].started == [pkt];
    assert !TestedInside(actions, pkt);
    assert pkt in run[|actions|].started;
    assert !OpenersTested(run[|actions|], actions);
  }

  lemma AllTested(s: System, run: seq<System>, actions: seq<Action>)
    requires s.waiting == multiset{} && IsRunFrom(s, run, actions) && OneTrace(actions)
    ensures |run| == |actions| + 1 && OpenersTested(run[|actions|], actions)
  {
    var n := |actions|;
    assert |run| == n + 1;
    hide IsRunFrom;
    forall pkt | pkt in run[n].started ensures TestedInside(actions, pkt) {
      TestedBefore(s, run, actions, n, pkt);
    }
  }

  // Where a packet that waits or has opened a phase came from.
  lemma StepOrigin(s: System, a: Action, pkt: SynAck)
    requires Possible(s, a)
    requires pkt in Step(s, a).waiting || pkt in Step(s, a).started
    ensures a == Test(pkt) || pkt in s.waiting || (!a.StartTrace? && pkt in s.started)
  {
    hide CalcStartPort;
  }

  lemma {:induction false} TestedBefore(s: System, run: seq<System>, actions: seq<Action>, j: nat, pkt: SynAck)
    requires s.waiting == multiset{} && IsRunFrom(s, run, actions) && OneTrace(actions)
    requires 1 <= j <= |actions| && |run| == |actions| + 1
    requires pkt in run[j].waiting || pkt in run[j].started
    ensures exists k :: 1 <= k < j && actions[k] == Test(pkt)
    decreases j
  {
    RunStep(s, run, actions, j - 1);
    assert run[0] == s;
    hide IsRunFrom, Step, Possible;
    StepOrigin(run[j - 1], actions[j - 1], pkt);
    if j > 1 {
      if actions[j - 1] == Test(pkt) {
        assert 1 <= j - 1 < j && actions[j - 1] == Test(pkt);
      } else {
        TestedBefore(s, run, actions, j - 1, pkt);
      }
    }
  }

  // Such a state is reachable: a handler tests, the traceroute finishes and is written, and the
  // handler enters after the restart on the next target.
  lemma StaleHandlerOpensNewPhase() returns (run: seq<System>, actions: seq<Action>)
    ensures IsRun(run, actions)
    ensures |actions| == 5 && actions[1].Test? && actions[2].Meanwhile? && actions[3].StartTrace? && actions[4].Enter?
    ensures MayRestart(run[3].param) && run[3].waiting == multiset{actions[1].pkt} && run[4].started == []
    ensures run[5].started == [actions[1].pkt]
  {
    hide CalcStartPort;
    var a := SynAck(1, 61025);
    var s1 := Step(INITIAL, StartTrace(9));
    var s2 := Step(s1, Test(a));
    var done := s2.param.(finished := 7, written := true);
    actions := [StartTrace(9), Test(a), Meanwhile(done), StartTrace(10), Enter(a, 8)];
    var s3 := Step(s2, actions[2]);
    var s4 := Step(s3, actions[3]);
    run := [INITIAL, s1, s2, s3, s4, Step(s4, actions[4])];
  }

  // ---------- the recorded hops ----------

  // The hops heard of while SYNs were out, by the actions since the last restart among these: for each
  // SYN-ACK handler and each ICMP handler that entered, in order, port modulo 32, time and address.
  function SynHopsOf(actions: seq<Action>): seq<Hop>
  {
    if actions == [] then []
    else
      var before := SynHopsOf(actions[..|actions| - 1]);
      match actions[|actions| - 1]
      case StartTrace(_) => []
      case Enter(pkt, now) => before + [Hop(pkt.dstPort % 32, now, pkt.srcIp)]
      case EnterSynHop(icmp, now) => before + [Hop(icmp.srcPort % 32, now, icmp.routerIp)]
      case _ => before
  }

  // And those of the DNS phase: the distance of the identification from the start of the port range.
  function DnsHopsOf(actions: seq<Action>): seq<Hop>
  {
    if actions == [] then []
    else
      var before := DnsHopsOf(actions[..|actions| - 1]);
      match actions[|actions| - 1]
      case StartTrace(_) => []
      case EnterDnsHop(icmp, now) =>
        before + [Hop((icmp.ipId - icmp.srcPort + icmp.srcPort % 32) % 0x10000, now, icmp.routerIp)]
      case DnsResponse(port, id, ip, now) => before + [Hop((id - port + port % 32) % 0x10000, now, ip)]
      case _ => before
  }

  function TargetOf(actions: seq<Action>): Option<int>
  {
    if actions == [] then None
    else if actions[|actions| - 1].StartTrace? then Some(actions[|actions| - 1].ip)
    else TargetOf(actions[..|actions| - 1])
  }

  // After any run the two lists hold exactly what was heard since the last restart, in order, and the
  // target is that of the last restart.
  lemma {:induction false} HopsRecorded(run: seq<System>, actions: seq<Action>, j: nat)
    requires IsRun(run, actions) && j < |run|
    ensures j <= |actions|
    ensures run[j].param.synHops == SynHopsOf(actions[..j])
    ensures run[j].param.dnsHops == DnsHopsOf(actions[..j])
    ensures run[j].param.initialIp == TargetOf(actions[..j])
    decreases j
  {
    RunLength(INITIAL, run, actions);
    if j > 0 {
      HopsRecorded(run, actions, j - 1);
      RunStep(INITIAL, run, actions, j - 1);
      assert actions[..j] == actions[..j - 1] + [actions[j - 1]];
      hide *;
      StepRecords(run[j - 1], actions[..j - 1], actions[j - 1]);
    } else {
      assert actions[..0] == [];
    }
  }

  lemma StepRecords(s: System, before: seq<Action>, a: Action)
    requires Possible(s, a)
    requires s.param.synHops == SynHopsOf(before) && s.param.dnsHops == DnsHopsOf(before)
    requires s.param.initialIp == TargetOf(before)
    ensures var t := Step(s, a);
      && t.param.synHops == SynHopsOf(before + [a]) && t.param.dnsHops == DnsHopsOf(before + [a])
      && t.param.initialIp == TargetOf(before + [a])
  {
    hide *;
    StepRecordsSyn(s, before, a);
    StepRecordsDns(s, before, a);
    StepKeepsTarget(s, before, a);
  }

  lemma StepRecordsSyn(s: System, before: seq<Action>, a: Action)
    requires Possible(s, a) && s.param.synHops == SynHopsOf(before)
    ensures Step(s, a).param.synHops == SynHopsOf(before + [a])
  {
    assert (before + [a])[..|before|] == before;
    hide PhaseOf, CalcStartPort, DnsHopsOf, DnsHopAdded;
    match a
    case Enter(pkt, _) => { StartPort(pkt.dstPort); }
    case EnterSynHop(icmp, _) => { StartPort(icmp.srcPort); }
    case EnterDnsHop(icmp, now) => { DnsHopOnly(s.param, icmp.srcPort, icmp.ipId, now, icmp.routerIp); }
    case DnsResponse(port, id, ip, now) => { DnsHopOnly(s.param, port, id, now, ip); }
    case _ => {}
  }

  lemma StepRecordsDns(s: System, before: seq<Action>, a: Action)
    requires Possible(s, a) && s.param.dnsHops == DnsHopsOf(before)
    ensures Step(s, a).param.dnsHops == DnsHopsOf(before + [a])
  {
    assert (before + [a])[..|before|] == before;
    hide PhaseOf, CalcStartPort, SynHopsOf, SynHopAdded, DnsHopAdded;
    match a
    case EnterDnsHop(icmp, now) => { DnsHopOnly(s.param, icmp.srcPort, icmp.ipId, now, icmp.routerIp); }
    case DnsResponse(port, id, ip, now) => { DnsHopOnly(s.param, port, id, now, ip); }
    case EnterSynHop(icmp, now) => { SynHopOnly(s.param, icmp, now); }
    case _ => {}
  }

  lemma StartPort(port: int)
    ensures CalcStartPort(port) == port - port % 32
  {
  }

  lemma DnsHopOnly(p: Param, port: int, id: int, now: int, ip: int)
    ensures var q := DnsHopAdded(p, port, id, now, ip);
      && q.synHops == p.synHops && q.initialIp == p.initialIp
      && q.dnsHops == p.dnsHops + [Hop((id - port + port % 32) % 0x10000, now, ip)]
  {
    assert id - CalcStartPort(port) == id - port + port % 32;
  }

  lemma SynHopOnly(p: Param, icmp: Expired, now: int)
    ensures var q := SynHopAdded(p, icmp, now); q.dnsHops == p.dnsHops && q.initialIp == p.initialIp
  {
    hide CalcStartPort;
  }

  lemma StepKeepsTarget(s: System, before: seq<Action>, a: Action)
    requires Possible(s, a) && s.param.initialIp == TargetOf(before)
    ensures Step(s, a).param.initialIp == TargetOf(before + [a])
  {
    assert (before + [a])[..|before|] == before;
    hide PhaseOf, CalcStartPort;
  }

  // Whatever follows up to the next restart, the list of the SYN phase stays as it is.
  ghost predicate SynHopsFinal(s: System)
  {
    forall run: seq<System>, actions :: IsRunFrom(s, run, actions) && NoRestart(actions) ==>
      run[|actions|].param.synHops == s.param.synHops
  }

  // In every reachable state in which a SYN-ACK was recorded, the list is final exactly when nobody is
  // between test and lock, neither with a SYN-ACK nor with an ICMP answer.
  lemma FinalIff(run: seq<System>, actions: seq<Action>, i: nat)
    requires IsRun(run, actions) && i < |run| && run[i].entered != []
    ensures SynHopsFinal(run[i]) <==> run[i].waiting == multiset{} && run[i].synExpired == multiset{}
  {
    var s := run[i];
    RunsKeepInvariant(run, actions, i);
    hide IsRunFrom, NoRestart;
    if SynHopsFinal(s) && s.waiting != multiset{} {
      var pkt :| pkt in s.waiting;
      EntersAdd(s, pkt, Expired(0, 0, 0));
      OneStep(s, Enter(pkt, 0));
    }
    if SynHopsFinal(s) && s.synExpired != multiset{} {
      var icmp :| icmp in s.synExpired;
      EntersAdd(s, SynAck(0, 0), icmp);
      OneStep(s, EnterSynHop(icmp, 0));
    }
    if s.waiting == multiset{} && s.synExpired == multiset{} {
      forall more: seq<System>, acts | IsRunFrom(s, more, acts) && NoRestart(acts)
        ensures |more| == |acts| + 1 && more[|acts|].param.synHops == s.param.synHops
      {
        RunLength(s, more, acts);
        HopsKept(s, more, acts, |acts|);
      }
    }
  }

  lemma EntersAdd(s: System, pkt: SynAck, icmp: Expired)
    ensures |Step(s, Enter(pkt, 0)).param.synHops| == |s.param.synHops| + 1
    ensures |Step(s, EnterSynHop(icmp, 0)).param.synHops| == |s.param.synHops| + 1
  {
    hide CalcStartPort;
  }

  lemma OneStep(s: System, a: Action)
    requires SynHopsFinal(s) && Possible(s, a) && !a.StartTrace?
    ensures Step(s, a).param.synHops == s.param.synHops
  {
    hide Step, Possible;
    var run, actions := [s, Step(s, a)], [a];
    assert StepAt(run, actions, 0);
    assert IsRunFrom(s, run, actions) && NoRestart(actions);
    assert run[|actions|] == Step(s, a);
  }

  lemma {:induction false} HopsKept(s: System, run: seq<System>, actions: seq<Action>, j: nat)
    requires s.param.synAckReceived != -1 && s.waiting == multiset{} && s.synExpired == multiset{}
    requires IsRunFrom(s, run, actions) && NoRestart(actions) && j < |run|
    ensures var t := run[j];
      && t.param.synHops == s.param.synHops && t.param.synAckReceived != -1
      && t.waiting == multiset{} && t.synExpired == multiset{}
    decreases j
  {
    RunLength(s, run, actions);
    if j > 0 {
      HopsKept(s, run, actions, j - 1);
      RunStep(s, run, actions, j - 1);
      assert !actions[j - 1].StartTrace?;
      hide IsRunFrom, NoRestart, CalcStartPort;
    }
  }

  // ---------- ports ----------

  function CalcStartPort(port: int): int
  {
    port - port % 32
  }

  // A probe sent with hop limit ttl from the range that starts at `start` is recognised as that range
  // and that hop: a SYN by its port alone, a DNS probe, which keeps the port of some answered SYN, by
  // its identification.
  lemma PortNamesHop(start: int, ttl: int, answered: int)
    requires start % 32 == 0 && 0 <= start && 1 <= ttl <= 30 && 1 <= answered <= 30 && start + 30 < 0x10000
    ensures CalcStartPort(start + ttl) == start
    ensures (start + ttl) % 32 == ttl
    ensures (start + ttl - (start + answered) + (start + answered) % 32) % 0x10000 == ttl
    ensures (start + ttl) % 0x10000 == start + ttl
  {
    assert start == 32 * (start / 32);
  }
}
