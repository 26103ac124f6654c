// The TCP scanner: a probe id is hidden in source port and sequence number, and the connection a
// packet belongs to is recovered from its acknowledgement number. Each probe grows a chain
// SYN, SYN-ACK, (FIN-)PSH-ACK; complete chains are queued for writing.
module TcpTracker {
  import opened Arith
  import opened TcpCodec
  import opened Wrappers

  // ---------- flags ----------

  datatype Flags = Flags(fin: bool, syn: bool, rst: bool, psh: bool, ack: bool) {
    predicate IsSynAck() { this == SYN_ACK }
    predicate IsPshAck() { this == PSH_ACK }
    predicate IsFinAck() { this == FIN_ACK }
    predicate IsFinPshAck() { this == FIN_PSH_ACK }
  }

  const SYN := Flags(false, true, false, false, false)
  const SYN_ACK := Flags(false, true, false, false, true)
  const PSH_ACK := Flags(false, false, false, true, true)
  const FIN_ACK := Flags(true, false, false, false, true)
  const FIN_PSH_ACK := Flags(true, false, false, true, true)

  // ---------- the table ----------

  datatype Node = Node(id: int, ts: int, ip: nat, port: int, seqno: int, ack: int, flags: Flags, recs: seq<nat>)

  datatype Key = Key(port: int, seqno: int)

  // What the payload of a segment amounts to: none, nothing usable, or a decoded DNS response whose
  // answers carry an address or not.
  datatype Payload = NoPayload | Unusable | DnsResponse(answers: seq<Option<nat>>)

  datatype Packet = Packet(srcIp: nat, dstPort: int, seqno: int, ack: int, flags: Flags, payload: Payload)

  // A chain is named by its position in `chains`; table, queue and writer refer to it by that name.
  datatype System = System(
    chains: seq<seq<Node>>,
    items: map<Key, nat>,
    queue: seq<nat>,
    written: seq<seq<Node>>)

  datatype Action =
    | SendSyn(id: int, ip: nat, now: int)
    | Handle(pkt: Packet, now: int)
    | WriteNext
    | Sweep(readings: map<Key, int>)

  const INITIAL := System([], map[], [], [])

  function Back32(ack: int, back: int): int
  {
    (ack - back) % TWO_32
  }

  function SynNode(id: int, ip: nat, now: int): Node
  {
    Node(id, now, ip, PortOf(id), SeqOf(id), 0, SYN, [])
  }

  function NextNode(id: int, pkt: Packet, now: int, recs: seq<nat>): Node
  {
    Node(id, now, pkt.srcIp, pkt.dstPort, pkt.seqno, pkt.ack, pkt.flags, recs)
  }

  function Last(chain: seq<Node>): Node
    requires chain != []
  {
    chain[|chain| - 1]
  }

  predicate AllAddresses(answers: seq<Option<nat>>)
  {
    forall i :: 0 <= i < |answers| ==> answers[i].Some?
  }

  function Addresses(answers: seq<Option<nat>>): (r: seq<nat>)
    requires AllAddresses(answers)
  {
    seq(|answers|, i requires 0 <= i < |answers| => answers[i].value)
  }

  // The table names existing, non-empty chains.
  ghost predicate WellFormed(s: System)
  {
    && (forall r :: 0 <= r < |s.chains| ==> s.chains[r] != [])
    && (forall k :: k in s.items ==> s.items[k] < |s.chains|)
    && (forall i :: 0 <= i < |s.queue| ==> s.queue[i] < |s.chains|)
  }

  ghost function Extend(s: System, r: nat, n: Node): System
    requires r < |s.chains|
  {
    s.(chains := s.chains[r := s.chains[r] + [n]])
  }

  ghost function HandleSynAck(s: System, pkt: Packet, now: int): System
    requires WellFormed(s)
  {
    var key := Key(pkt.dstPort, Back32(pkt.ack, 1));
    if key !in s.items || |s.chains[s.items[key]]| != 1 then s
    else Extend(s, s.items[key], NextNode(s.chains[s.items[key]][0].id, pkt, now, []))
  }

  ghost function HandleFinAck(L: nat, s: System, pkt: Packet): System
    requires WellFormed(s)
  {
    var key := Key(pkt.dstPort, Back32(pkt.ack, 2 + L));
    if key !in s.items || !Last(s.chains[s.items[key]]).flags.IsPshAck() then s
    else s.(queue := s.queue + [s.items[key]])
  }

  ghost function HandleResponse(L: nat, s: System, pkt: Packet, now: int): System
    requires WellFormed(s) && pkt.payload.DnsResponse?
  {
    var key := Key(pkt.dstPort, Back32(pkt.ack, 1 + L));
    if key !in s.items then s
    else
      var r := s.items[key];
      var last := Last(s.chains[r]);
      if !last.flags.IsSynAck() || !AllAddresses(pkt.payload.answers) then s
      else
        var t := Extend(s, r, NextNode(last.id, pkt, now, Addresses(pkt.payload.answers)));
        if pkt.flags.IsFinPshAck() then t.(queue := t.queue + [r]) else t
  }

  ghost predicate Possible(s: System, a: Action)
  {
    match a
    case SendSyn(id, _, _) => 0 <= id < TWO_32
    case Handle(pkt, _) => 0 <= pkt.ack < TWO_32
    case WriteNext => s.queue != []
    case Sweep(readings) => s.items.Keys <= readings.Keys
  }

  ghost function LateKeys(s: System, readings: map<Key, int>): set<Key>
    requires WellFormed(s) && s.items.Keys <= readings.Keys
  {
    set k | k in s.items && readings[k] - s.chains[s.items[k]][0].ts > 10
  }

  ghost function Step(L: nat, s: System, a: Action): System
    requires WellFormed(s) && Possible(s, a)
  {
    match a
    case SendSyn(id, ip, now) =>
      s.(chains := s.chains + [[SynNode(id, ip, now)]],
         items := s.items[Key(PortOf(id), SeqOf(id)) := |s.chains|])
    case Handle(pkt, now) =>
      if pkt.payload.NoPayload? then
        if pkt.flags.IsSynAck() then HandleSynAck(s, pkt, now)
        else if pkt.flags.IsFinAck() then HandleFinAck(L, s, pkt)
        else s
      else if pkt.payload.DnsResponse? && (pkt.flags.IsPshAck() || pkt.flags.IsFinPshAck()) then
        HandleResponse(L, s, pkt, now)
      else s
    case WriteNext =>
      var chain := s.chains[s.queue[0]];
      s.(queue := s.queue[1..],
         written := s.written + [chain],
         items := s.items - {Key(chain[0].port, chain[0].seqno)})
    case Sweep(readings) =>
      s.(items := s.items - LateKeys(s, readings))
  }

  class TcpScanner {
    const payloadSize: nat
    var chains: seq<seq<Node>>
    var items: map<Key, nat>
    var queue: seq<nat>
    var written: seq<seq<Node>>

    ghost function View(): System
      reads this
    {
      System(chains, items, queue, written)
    }

    ghost predicate Valid()
      reads this
    {
      WellFormed(View())
    }

    constructor (payloadSize: nat)
      ensures Valid() && this.payloadSize == payloadSize && View() == INITIAL
    {
      this.payloadSize := payloadSize;
      chains, items, queue, written := [], map[], [], [];
    }

    method SendSyn(id: int, ip: nat, now: int)
      requires Valid() && 0 <= id < TWO_32
      modifies this
      ensures Valid()
      ensures View() == Step(payloadSize, old(View()), Action.SendSyn(id, ip, now))
    {
      var seqno := (id % TWO_21) * 2048;
      var port := id / TWO_21 + 61440;
      var item := Node(id, now, ip, port, seqno, 0, Flags(false, true, false, false, false), []);
      chains := chains + [[item]];
      items := items[Key(port, seqno) := |chains| - 1];
    }

    method HandlePkt(pkt: Packet, now: int)
      requires Valid() && 0 <= pkt.ack < TWO_32
      modifies this
      ensures Valid()
      ensures View() == Step(payloadSize, old(View()), Handle(pkt, now))
    {
      if pkt.payload.NoPayload? {
        if pkt.flags.IsSynAck() {
          var key := Key(pkt.dstPort, Back32(pkt.ack, 1));
          if key !in items {
            return;
          }
          var root := items[key];
          if |chains[root]| != 1 {
            return;
          }
          var data := NextNode(Last(chains[root]).id, pkt, now, []);
          chains := chains[root := chains[root] + [data]];
        } else if pkt.flags.IsFinAck() {
          var key := Key(pkt.dstPort, Back32(pkt.ack, 2 + payloadSize));
          if key !in items {
            return;
          }
          var root := items[key];
          if !Last(chains[root]).flags.IsPshAck() {
            return;
          }
          queue := queue + [root];
        }
      } else if pkt.flags.IsPshAck() || pkt.flags.IsFinPshAck() {
        if pkt.payload.Unusable? {
          return;
        }
        var key := Key(pkt.dstPort, Back32(pkt.ack, 1 + payloadSize));
        if key !in items {
          return;
        }
        var root := items[key];
        var last := Last(chains[root]);
        if last.flags.IsPshAck() {
          return;
        }
        if !last.flags.IsSynAck() {
          return;
        }
        var answersIp: seq<nat> := [];
        for i := 0 to |pkt.payload.answers|
          invariant chains == old(chains) && View() == old(View())
          invariant AllAddresses(pkt.payload.answers[..i]) && answersIp == Addresses(pkt.payload.answers[..i])
        {
          if pkt.payload.answers[i].None? {
            return;
          }
          assert pkt.payload.answers[..i + 1] == pkt.payload.answers[..i] + [pkt.payload.answers[i]];
          answersIp := answersIp + [pkt.payload.answers[i].value];
        }
        assert pkt.payload.answers[..|pkt.payload.answers|] == pkt.payload.answers;
        var data := NextNode(last.id, pkt, now, answersIp);
        chains := chains[root := chains[root] + [data]];
        if pkt.flags.IsFinPshAck() {
          queue := queue + [root];
        }
      }
    }

    // Takes the oldest queue entry, writes its whole chain and drops the table entry under its key.
    method WriteItem()
      requires Valid() && queue != []
      modifies this
      ensures Valid()
      ensures View() == Step(payloadSize, old(View()), WriteNext)
    {
      var root := queue[0];
      queue := queue[1..];
      written := written + [chains[root]];
      items := items - {Key(chains[root][0].port, chains[root][0].seqno)};
    }
  }

  // ---------- invariants of every run ----------

  // A prefix of SYN, SYN-ACK, PSH-ACK or FIN-PSH-ACK, with one id and one port, acknowledging
  // seq + 1 and then seq + 1 + L.
  ghost predicate GoodChain(L: nat, chain: seq<Node>)
  {
    && 1 <= |chain| <= 3
    && 0 <= chain[0].id < TWO_32
    && chain[0] == SynNode(chain[0].id, chain[0].ip, chain[0].ts)
    && (forall i :: 0 <= i < |chain| ==> chain[i].id == chain[0].id && chain[i].port == chain[0].port)
    && (|chain| >= 2 ==>
          && chain[1].flags == SYN_ACK
          && chain[1].recs == []
          && chain[1].ack == AckOf(L, chain[0].id, SynAckPhase))
    && (|chain| == 3 ==>
          && (chain[2].flags == PSH_ACK || chain[2].flags == FIN_PSH_ACK)
          && chain[2].ack == AckOf(L, chain[0].id, AnswerPhase))
  }

  ghost predicate FullChain(L: nat, chain: seq<Node>)
  {
    GoodChain(L, chain) && |chain| == 3
  }

  ghost predicate Invariant(L: nat, s: System)
  {
    && WellFormed(s)
    && (forall r :: 0 <= r < |s.chains| ==> GoodChain(L, s.chains[r]))
    && (forall k :: k in s.items ==> KeyNames(k, s.chains[s.items[k]]))
    && (forall i :: 0 <= i < |s.queue| ==> |s.chains[s.queue[i]]| == 3)
    && (forall i :: 0 <= i < |s.written| ==> s.written[i] in s.chains && |s.written[i]| == 3)
  }

  predicate KeyNames(k: Key, chain: seq<Node>)
  {
    chain != [] && k == Key(chain[0].port, chain[0].seqno)
  }

  lemma BackFromAck(L: nat, id: int, ack: int, phase: Phase)
    requires 0 <= id < TWO_32 && 0 <= ack < TWO_32
    requires Back32(ack, Offset(L, phase)) == SeqOf(id)
    ensures ack == AckOf(L, id, phase)
  {
    var o := Offset(L, phase);
    var q := (ack - o) / TWO_32;
    assert ack - o == TWO_32 * q + SeqOf(id);
    assert SeqOf(id) + o == ack - TWO_32 * q;
    ModUnique32(ack, -q);
  }

  lemma ModUnique32(r: int, t: int)
    requires 0 <= r < TWO_32
    ensures (r + TWO_32 * t) % TWO_32 == r
  {
  }

  lemma ExtendKeeps(L: nat, s: System, r: nat, n: Node)
    requires Invariant(L, s) && r < |s.chains| && |s.chains[r]| < 3 && GoodChain(L, s.chains[r] + [n])
    ensures Invariant(L, Extend(s, r, n))
  {
    hide GoodChain;
    var t := Extend(s, r, n);
    forall k | k in t.items
      ensures KeyNames(k, t.chains[t.items[k]])
    {
      assert KeyNames(k, s.chains[s.items[k]]);
    }
    forall i | 0 <= i < |t.queue|
      ensures |t.chains[t.queue[i]]| == 3
    {
      assert s.queue[i] != r;
    }
    forall i | 0 <= i < |t.written|
      ensures t.written[i] in t.chains
    {
      assert s.written[i] in s.chains;
      var j :| 0 <= j < |s.chains| && s.chains[j] == s.written[i];
      assert t.chains[j] == s.written[i];
    }
  }

  lemma SynAckKeeps(L: nat, s: System, pkt: Packet, now: int)
    requires Invariant(L, s) && 0 <= pkt.ack < TWO_32 && pkt.flags.IsSynAck()
    ensures Invariant(L, HandleSynAck(s, pkt, now))
  {
    var key := Key(pkt.dstPort, Back32(pkt.ack, 1));
    if key in s.items && |s.chains[s.items[key]]| == 1 {
      var r := s.items[key];
      var chain := s.chains[r];
      assert KeyNames(key, chain);
      BackFromAck(L, chain[0].id, pkt.ack, SynAckPhase);
      ExtendKeeps(L, s, r, NextNode(chain[0].id, pkt, now, []));
    }
  }

  lemma ResponseKeeps(L: nat, s: System, pkt: Packet, now: int)
    requires Invariant(L, s) && 0 <= pkt.ack < TWO_32 && pkt.payload.DnsResponse?
    requires pkt.flags.IsPshAck() || pkt.flags.IsFinPshAck()
    ensures Invariant(L, HandleResponse(L, s, pkt, now))
  {
    var key := Key(pkt.dstPort, Back32(pkt.ack, 1 + L));
    if key in s.items {
      var r := s.items[key];
      var chain := s.chains[r];
      var last := Last(chain);
      assert KeyNames(key, chain) && GoodChain(L, chain);
      if last.flags.IsSynAck() && AllAddresses(pkt.payload.answers) {
        assert |chain| == 2;
        BackFromAck(L, chain[0].id, pkt.ack, AnswerPhase);
        ExtendKeeps(L, s, r, NextNode(last.id, pkt, now, Addresses(pkt.payload.answers)));
      }
    }
  }

  lemma SendSynKeeps(L: nat, s: System, id: int, ip: nat, now: int)
    requires Invariant(L, s) && 0 <= id < TWO_32
    ensures Invariant(L, Step(L, s, SendSyn(id, ip, now)))
  {
    var t := Step(L, s, SendSyn(id, ip, now));
    var key := Key(PortOf(id), SeqOf(id));
    assert GoodChain(L, [SynNode(id, ip, now)]);
    hide GoodChain, PortOf, SeqOf;
    forall k | k in t.items
      ensures KeyNames(k, t.chains[t.items[k]])
    {
      if k != key {
        assert KeyNames(k, s.chains[s.items[k]]);
      }
    }
    forall i | 0 <= i < |t.written|
      ensures t.written[i] in t.chains
    {
      assert s.written[i] in s.chains;
      var j :| 0 <= j < |s.chains| && s.chains[j] == s.written[i];
      assert t.chains[j] == s.written[i];
    }
  }

  lemma StepKeepsInvariant(L: nat, s: System, a: Action)
    requires Invariant(L, s) && Possible(s, a)
    ensures Invariant(L, Step(L, s, a))
  {
    match a
    case SendSyn(id, ip, now) => SendSynKeeps(L, s, id, ip, now);
    case Handle(pkt, now) => HandleKeeps(L, s, pkt, now);
    case WriteNext => WriteKeeps(L, s);
    case Sweep(readings) => { hide GoodChain; }
  }

  lemma HandleKeeps(L: nat, s: System, pkt: Packet, now: int)
    requires Invariant(L, s) && 0 <= pkt.ack < TWO_32
    ensures Invariant(L, Step(L, s, Handle(pkt, now)))
  {
    hide HandleResponse, HandleSynAck, HandleFinAck, Invariant;
    if pkt.payload.NoPayload? {
      if pkt.flags.IsSynAck() {
        SynAckKeeps(L, s, pkt, now);
      } else if pkt.flags.IsFinAck() {
        FinAckKeeps(L, s, pkt);
      }
    } else if pkt.payload.DnsResponse? && (pkt.flags.IsPshAck() || pkt.flags.IsFinPshAck()) {
      ResponseKeeps(L, s, pkt, now);
    }
  }

  lemma FinAckKeeps(L: nat, s: System, pkt: Packet)
    requires Invariant(L, s)
    ensures Invariant(L, HandleFinAck(L, s, pkt))
  {
    var key := Key(pkt.dstPort, Back32(pkt.ack, 2 + L));
    if key in s.items {
      var chain := s.chains[s.items[key]];
      assert Last(chain).flags == PSH_ACK ==> |chain| == 3 by {
        assert GoodChain(L, chain);
      }
    }
    hide GoodChain, Back32;
  }

  lemma WriteKeeps(L: nat, s: System)
    requires Invariant(L, s) && s.queue != []
    ensures Invariant(L, Step(L, s, WriteNext))
  {
    hide GoodChain;
    assert s.chains[s.queue[0]] in s.chains;
  }

  ghost predicate IsRun(L: nat, run: seq<System>, actions: seq<Action>)
  {
    && |run| == |actions| + 1
    && run[0] == INITIAL
    && forall i :: 0 <= i < |actions| ==>
         WellFormed(run[i]) && Possible(run[i], actions[i]) && run[i + 1] == Step(L, run[i], actions[i])
  }

  lemma RunStep(L: nat, run: seq<System>, actions: seq<Action>, i: nat)
    requires IsRun(L, run, actions) && i < |actions|
    ensures |run| == |actions| + 1
    ensures WellFormed(run[i]) && Possible(run[i], actions[i]) && run[i + 1] == Step(L, run[i], actions[i])
  {
  }

  // In every reachable state every chain has the required form and only complete chains are queued
  // or written, whatever packets arrive and even if ids are used again.
  lemma {:induction false} RunsKeepInvariant(L: nat, run: seq<System>, actions: seq<Action>, i: nat)
    requires IsRun(L, run, actions) && i < |run|
    ensures Invariant(L, run[i])
    decreases i
  {
    if i > 0 {
      RunStep(L, run, actions, i - 1);
      RunsKeepInvariant(L, run, actions, i - 1);
      hide IsRun, Step, Invariant, WellFormed, Possible;
      StepKeepsInvariant(L, run[i - 1], actions[i - 1]);
    }
  }

  // A chain only grows at its end, so once complete it never changes.
  lemma ChainsGrow(L: nat, s: System, a: Action, r: nat)
    requires WellFormed(s) && Possible(s, a) && r < |s.chains|
    ensures r < |Step(L, s, a).chains| && s.chains[r] <= Step(L, s, a).chains[r]
  {
    hide Back32, PortOf, SeqOf;
  }

  lemma LengthBound(L: nat, s: System, r: nat)
    requires Invariant(L, s) && r < |s.chains|
    ensures |s.chains[r]| <= 3
  {
    assert GoodChain(L, s.chains[r]);
  }

  lemma CompleteStays(L: nat, s: System, a: Action, t: System, r: nat)
    requires WellFormed(s) && Possible(s, a) && t == Step(L, s, a) && Invariant(L, t)
    requires r < |s.chains| && |s.chains[r]| == 3
    ensures r < |t.chains| && t.chains[r] == s.chains[r]
  {
    hide Step, Possible, WellFormed;
    ChainsGrow(L, s, a, r);
    LengthBound(L, t, r);
  }

  lemma {:induction false} CompleteChainsFrozen(L: nat, run: seq<System>, actions: seq<Action>, i: nat, j: nat, r: nat)
    requires IsRun(L, run, actions) && |run| == |actions| + 1 && i <= j < |run|
    requires r < |run[i].chains| && |run[i].chains[r]| == 3
    ensures r < |run[j].chains| && run[j].chains[r] == run[i].chains[r]
    decreases j
  {
    hide *;
    if i < j {
      RunStep(L, run, actions, j - 1);
      CompleteChainsFrozen(L, run, actions, i, j - 1, r);
      RunsKeepInvariant(L, run, actions, j);
      CompleteStays(L, run[j - 1], actions[j - 1], run[j], r);
    }
  }

  // ---------- runs without id reuse ----------

  ghost predicate DistinctIds(actions: seq<Action>)
  {
    forall i, j :: 0 <= i < j < |actions| && actions[i].SendSyn? && actions[j].SendSyn?
      ==> actions[i].id != actions[j].id
  }

  // Chain r belongs to the id of some send; without reuse different chains have different ids.
  ghost predicate IdsIssued(s: System, actions: seq<Action>, n: nat)
    requires n <= |actions|
  {
    forall r :: 0 <= r < |s.chains| ==> s.chains[r] != [] && exists i :: Issues(actions, n, i, s.chains[r][0].id)
  }

  ghost predicate Issues(actions: seq<Action>, n: nat, i: int, id: int)
    requires n <= |actions|
  {
    0 <= i < n && actions[i].SendSyn? && actions[i].id == id
  }

  ghost predicate IdsDiffer(s: System)
  {
    && (forall r :: 0 <= r < |s.chains| ==> s.chains[r] != [])
    && forall r, q :: 0 <= r < q < |s.chains| ==> s.chains[r][0].id != s.chains[q][0].id
  }

  lemma RootsKept(L: nat, s: System, a: Action)
    requires Invariant(L, s) && Possible(s, a)
    ensures var t := Step(L, s, a);
      && |t.chains| == |s.chains| + (if a.SendSyn? then 1 else 0)
      && (forall r :: 0 <= r < |s.chains| ==>
            t.chains[r] != [] && s.chains[r] != [] && t.chains[r][0] == s.chains[r][0])
      && (a.SendSyn? ==> t.chains[|s.chains|] == [SynNode(a.id, a.ip, a.now)])
  {
    hide GoodChain, Back32, PortOf, SeqOf, KeyNames;
  }

  lemma {:induction false} NoReuseNoClash(L: nat, run: seq<System>, actions: seq<Action>, i: nat)
    requires IsRun(L, run, actions) && i < |run| && DistinctIds(actions)
    ensures IdsIssued(run[i], actions, i) && IdsDiffer(run[i])
    decreases i
  {
    if i > 0 {
      NoReuseNoClash(L, run, actions, i - 1);
      RunsKeepInvariant(L, run, actions, i - 1);
      RootsKept(L, run[i - 1], actions[i - 1]);
      NoReuseStep(run[i - 1], run[i], actions, i);
    }
  }

  lemma NoReuseStep(s: System, t: System, actions: seq<Action>, i: nat)
    requires 0 < i <= |actions| && DistinctIds(actions)
    requires IdsIssued(s, actions, i - 1) && IdsDiffer(s)
    requires |t.chains| == |s.chains| + (if actions[i - 1].SendSyn? then 1 else 0)
    requires forall r :: 0 <= r < |s.chains| ==>
      t.chains[r] != [] && s.chains[r] != [] && t.chains[r][0] == s.chains[r][0]
    requires actions[i - 1].SendSyn? ==>
      t.chains[|s.chains|] == [SynNode(actions[i - 1].id, actions[i - 1].ip, actions[i - 1].now)]
    ensures IdsIssued(t, actions, i) && IdsDiffer(t)
  {
    forall r | 0 <= r < |t.chains|
      ensures t.chains[r] != [] && exists k :: Issues(actions, i, k, t.chains[r][0].id)
      ensures r < |s.chains| && actions[i - 1].SendSyn? ==> t.chains[r][0].id != actions[i - 1].id
    {
      if r < |s.chains| {
        var k :| Issues(actions, i - 1, k, s.chains[r][0].id);
        assert Issues(actions, i, k, t.chains[r][0].id);
      } else {
        assert Issues(actions, i, i - 1, t.chains[r][0].id);
      }
    }
  }

  // Without id reuse, two written chains with the same id are the same chain.
  lemma WrittenByIdUnique(L: nat, run: seq<System>, actions: seq<Action>, i: nat, x: nat, y: nat)
    requires IsRun(L, run, actions) && i < |run| && DistinctIds(actions)
    requires x < |run[i].written| && y < |run[i].written|
    ensures FullChain(L, run[i].written[x]) && FullChain(L, run[i].written[y])
    ensures run[i].written[x][0].id == run[i].written[y][0].id ==> run[i].written[x] == run[i].written[y]
  {
    RunsKeepInvariant(L, run, actions, i);
    NoReuseNoClash(L, run, actions, i);
    var s := run[i];
    var a :| 0 <= a < |s.chains| && s.chains[a] == s.written[x];
    var b :| 0 <= b < |s.chains| && s.chains[b] == s.written[y];
    assert GoodChain(L, s.chains[a]) && GoodChain(L, s.chains[b]);
    hide GoodChain;
    if a < b { assert s.chains[a][0].id != s.chains[b][0].id; }
    if b < a { assert s.chains[b][0].id != s.chains[a][0].id; }
  }
}
