// What one packet does to the TCP scanner's chains and queue, in terms of the packet's own numbers, and
// how an ordinary connection ends up queued.
module TcpPackets {
  import opened Arith
  import opened TcpCodec
  import opened TcpTracker
  import opened Wrappers

  // Chain r is the one the table holds under the key of its SYN.
  ghost predicate InTable(s: System, r: nat)
  {
    && r < |s.chains| && s.chains[r] != []
    && Key(s.chains[r][0].port, s.chains[r][0].seqno) in s.items
    && s.items[Key(s.chains[r][0].port, s.chains[r][0].seqno)] == r
  }

  // The packet goes to the port of the probe and acknowledges its sequence number plus `ahead`.
  predicate Acknowledges(pkt: Packet, id: int, ahead: nat)
  {
    && pkt.dstPort == id / 0x20_0000 + 61440
    && pkt.ack == ((id % 0x20_0000) * 2048 + ahead) % 0x1_0000_0000
  }

  ghost predicate Addressed(s: System, pkt: Packet, r: nat, ahead: nat)
  {
    InTable(s, r) && Acknowledges(pkt, s.chains[r][0].id, ahead)
  }

  // The flags of the chain's last node.
  ghost predicate EndsWith(s: System, r: nat, fin: bool, syn: bool, rst: bool, psh: bool, ack: bool)
  {
    r < |s.chains| && s.chains[r] != [] && s.chains[r][|s.chains[r]| - 1].flags == Flags(fin, syn, rst, psh, ack)
  }

  // A bare SYN-ACK for a chain that is just its SYN.
  ghost predicate Opens(s: System, pkt: Packet, r: nat)
  {
    && pkt.payload.NoPayload? && pkt.flags == Flags(false, true, false, false, true)
    && Addressed(s, pkt, r, 1) && |s.chains[r]| == 1
  }

  // A PSH-ACK or FIN-PSH-ACK with a DNS response of addresses only, for a chain that ends in a SYN-ACK.
  ghost predicate Answers(L: nat, s: System, pkt: Packet, r: nat)
  {
    && pkt.payload.DnsResponse?
    && (pkt.flags == Flags(false, false, false, true, true) || pkt.flags == Flags(true, false, false, true, true))
    && Addressed(s, pkt, r, 1 + L) && EndsWith(s, r, false, true, false, false, true)
    && forall i :: 0 <= i < |pkt.payload.answers| ==> pkt.payload.answers[i].Some?
  }

  // A bare FIN-ACK for a chain that ends in a PSH-ACK.
  ghost predicate Closes(L: nat, s: System, pkt: Packet, r: nat)
  {
    && pkt.payload.NoPayload? && pkt.flags == Flags(true, false, false, false, true)
    && Addressed(s, pkt, r, 2 + L) && EndsWith(s, r, false, false, false, true, true)
  }

  ghost predicate Queues(L: nat, s: System, pkt: Packet, r: nat)
  {
    Closes(L, s, pkt, r) || (Answers(L, s, pkt, r) && pkt.flags.fin)
  }

  // The node made from the packet: the chain's id, the packet's time, source, numbers and flags, and the
  // addresses of its answers.
  ghost predicate NodeOf(n: Node, id: int, pkt: Packet, now: int)
  {
    && n.id == id && n.ts == now && n.ip == pkt.srcIp && n.port == pkt.dstPort
    && n.seqno == pkt.seqno && n.ack == pkt.ack && n.flags == pkt.flags
    && if pkt.payload.DnsResponse? then
         && |n.recs| == |pkt.payload.answers|
         && forall i :: 0 <= i < |n.recs| ==> pkt.payload.answers[i] == Some(n.recs[i])
       else n.recs == []
  }

  // ---------- finding the chain ----------

  lemma Root(L: nat, s: System, r: nat)
    requires Invariant(L, s) && r < |s.chains|
    ensures s.chains[r] != [] && 0 <= s.chains[r][0].id < TWO_32
    ensures s.chains[r][0].port == PortOf(s.chains[r][0].id) && s.chains[r][0].seqno == SeqOf(s.chains[r][0].id)
  {
    assert GoodChain(L, s.chains[r]);
  }

  lemma BackIff(id: int, ack: int, ahead: nat)
    requires 0 <= id < TWO_32 && 0 <= ack < TWO_32
    ensures Back32(ack, ahead) == SeqOf(id) <==> ack == (SeqOf(id) + ahead) % TWO_32
  {
    CodecFits(id);
    var seqno := SeqOf(id);
    if Back32(ack, ahead) == seqno {
      var q := (ack - ahead) / TWO_32;
      assert ack - ahead == TWO_32 * q + seqno;
      ModUnique32(ack, -q);
      assert seqno + ahead == ack + TWO_32 * (-q);
    }
    if ack == (seqno + ahead) % TWO_32 {
      var q := (seqno + ahead) / TWO_32;
      assert seqno + ahead == TWO_32 * q + ack;
      ModUnique32(seqno, -q);
      assert ack - ahead == seqno + TWO_32 * (-q);
    }
  }

  // The table lookup by port and acknowledgement finds chain r exactly if the packet is addressed to it.
  lemma FoundIff(L: nat, s: System, pkt: Packet, r: nat, ahead: nat)
    requires Invariant(L, s) && 0 <= pkt.ack < TWO_32
    ensures var key := Key(pkt.dstPort, Back32(pkt.ack, ahead));
      Addressed(s, pkt, r, ahead) <==> key in s.items && s.items[key] == r
  {
    var key := Key(pkt.dstPort, Back32(pkt.ack, ahead));
    if key in s.items && s.items[key] == r {
      assert KeyNames(key, s.chains[r]);
    }
    if r < |s.chains| {
      Root(L, s, r);
      BackIff(s.chains[r][0].id, pkt.ack, ahead);
    }
    hide Invariant, Back32;
  }

  // ---------- one packet ----------

  lemma SynAckStep(L: nat, s: System, pkt: Packet, now: int)
    requires Invariant(L, s) && 0 <= pkt.ack < TWO_32
    requires pkt.payload.NoPayload? && pkt.flags == Flags(false, true, false, false, true)
    ensures var t := HandleSynAck(s, pkt, now); Effect(L, s, t, pkt, now)
  {
    var key := Key(pkt.dstPort, Back32(pkt.ack, 1));
    forall r: nat | r < |s.chains| ensures Addressed(s, pkt, r, 1) <==> key in s.items && s.items[key] == r {
      FoundIff(L, s, pkt, r, 1);
    }
    hide GoodChain, Back32, Addressed, KeyNames;
  }

  lemma FinAckStep(L: nat, s: System, pkt: Packet, now: int)
    requires Invariant(L, s) && 0 <= pkt.ack < TWO_32
    requires pkt.payload.NoPayload? && pkt.flags == Flags(true, false, false, false, true)
    ensures var t := HandleFinAck(L, s, pkt); Effect(L, s, t, pkt, now)
  {
    var ahead := 2 + L;
    var key := Key(pkt.dstPort, Back32(pkt.ack, ahead));
    forall r: nat | r < |s.chains| ensures Addressed(s, pkt, r, ahead) <==> key in s.items && s.items[key] == r {
      FoundIff(L, s, pkt, r, ahead);
    }
    hide GoodChain, Back32, Addressed, KeyNames;
    if key in s.items {
      var q := s.items[key];
      assert Addressed(s, pkt, q, ahead);
      assert Queues(L, s, pkt, q) <==> Last(s.chains[q]).flags == Flags(false, false, false, true, true);
    }
  }

  lemma ResponseStep(L: nat, s: System, pkt: Packet, now: int)
    requires Invariant(L, s) && 0 <= pkt.ack < TWO_32 && pkt.payload.DnsResponse?
    requires pkt.flags == Flags(false, false, false, true, true) || pkt.flags == Flags(true, false, false, true, true)
    ensures var t := HandleResponse(L, s, pkt, now); Effect(L, s, t, pkt, now)
  {
    var ahead := 1 + L;
    var key := Key(pkt.dstPort, Back32(pkt.ack, ahead));
    forall r: nat | r < |s.chains| ensures Addressed(s, pkt, r, ahead) <==> key in s.items && s.items[key] == r {
      FoundIff(L, s, pkt, r, ahead);
    }
    if key in s.items {
      OneId(L, s, s.items[key]);
    }
    hide GoodChain, Back32, Addressed, KeyNames;
    if key in s.items {
      var q := s.items[key];
      assert Addressed(s, pkt, q, ahead);
      assert Answers(L, s, pkt, q) <==> Last(s.chains[q]).flags.IsSynAck() && AllAddresses(pkt.payload.answers);
      assert Queues(L, s, pkt, q) <==> Answers(L, s, pkt, q) && pkt.flags.fin;
    }
  }

  lemma OneId(L: nat, s: System, r: nat)
    requires Invariant(L, s) && r < |s.chains|
    ensures s.chains[r] != [] && Last(s.chains[r]).id == s.chains[r][0].id
  {
    assert GoodChain(L, s.chains[r]);
  }

  // Exactly the chains that the packet opens or answers grow, by its node; exactly the chain that it
  // closes, or answers with FIN, is queued; and nothing else changes.
  ghost predicate Effect(L: nat, s: System, t: System, pkt: Packet, now: int)
  {
    && t.items == s.items && t.written == s.written && |t.chains| == |s.chains|
    && (forall r: nat :: r < |s.chains| ==> Changed(L, s, t, pkt, now, r))
    && (forall r: nat :: r < |s.chains| && Queues(L, s, pkt, r) ==> t.queue == s.queue + [r])
    && ((forall r: nat :: r < |s.chains| ==> !Queues(L, s, pkt, r)) ==> t.queue == s.queue)
  }

  ghost predicate Changed(L: nat, s: System, t: System, pkt: Packet, now: int, r: nat)
    requires r < |s.chains| && r < |t.chains|
  {
    if Opens(s, pkt, r) || Answers(L, s, pkt, r) then
      && s.chains[r] != [] && |t.chains[r]| == |s.chains[r]| + 1 && t.chains[r][..|s.chains[r]|] == s.chains[r]
      && NodeOf(t.chains[r][|s.chains[r]|], s.chains[r][0].id, pkt, now)
    else t.chains[r] == s.chains[r]
  }

  // The effect of any packet in any reachable state.
  lemma PacketEffect(L: nat, s: System, pkt: Packet, now: int)
    requires Invariant(L, s) && 0 <= pkt.ack < TWO_32
    ensures Effect(L, s, Step(L, s, Handle(pkt, now)), pkt, now)
  {
    if pkt.payload.NoPayload? && pkt.flags == Flags(false, true, false, false, true) {
      SynAckStep(L, s, pkt, now);
    } else if pkt.payload.NoPayload? && pkt.flags == Flags(true, false, false, false, true) {
      FinAckStep(L, s, pkt, now);
    } else if pkt.payload.DnsResponse?
        && (pkt.flags == Flags(false, false, false, true, true) || pkt.flags == Flags(true, false, false, true, true)) {
      ResponseStep(L, s, pkt, now);
    } else {
      assert Step(L, s, Handle(pkt, now)) == s;
    }
    hide HandleSynAck, HandleFinAck, HandleResponse, GoodChain, Addressed;
  }

  // Sending a SYN starts a chain of one node, in clear numbers, and enters it under its port and number.
  lemma SynSent(L: nat, s: System, id: int, ip: nat, now: int)
    requires Invariant(L, s) && 0 <= id < TWO_32
    ensures var t := Step(L, s, SendSyn(id, ip, now)); var r := |s.chains|;
      && t.chains == s.chains + [[Node(id, now, ip, id / 0x20_0000 + 61440, (id % 0x20_0000) * 2048, 0,
                                       Flags(false, true, false, false, false), [])]]
      && InTable(t, r) && t.queue == s.queue && t.written == s.written && r !in t.queue
  {
    hide GoodChain, KeyNames;
  }

  // ---------- an ordinary connection ----------

  // The action has nothing to do with chain r: another id, other acknowledgements, another chain
  // written, a sweep that does not find it late.
  ghost predicate Elsewhere(L: nat, s: System, a: Action, r: nat)
    requires r < |s.chains| && s.chains[r] != []
  {
    var root := s.chains[r][0];
    match a
    case SendSyn(id, _, _) => id != root.id
    case Handle(pkt, _) =>
      !Acknowledges(pkt, root.id, 1) && !Acknowledges(pkt, root.id, 1 + L) && !Acknowledges(pkt, root.id, 2 + L)
    case WriteNext => s.queue != [] && s.queue[0] < |s.chains| && s.chains[s.queue[0]] != []
                      && s.chains[s.queue[0]][0].id != root.id
    case Sweep(readings) => Key(root.port, root.seqno) in readings
                            && readings[Key(root.port, root.seqno)] - root.ts <= 10
  }

  lemma KeysDiffer(id: int, other: int)
    requires 0 <= id < TWO_32 && 0 <= other < TWO_32 && id != other
    ensures Key(PortOf(id), SeqOf(id)) != Key(PortOf(other), SeqOf(other))
  {
    CodecInvertible(id);
    CodecInvertible(other);
    hide PortOf, SeqOf;
  }

  lemma ElsewhereKeeps(L: nat, s: System, a: Action, r: nat)
    requires Invariant(L, s) && Possible(s, a) && InTable(s, r) && Elsewhere(L, s, a, r)
    ensures var t := Step(L, s, a);
      InTable(t, r) && r < |t.chains| && t.chains[r] == s.chains[r] && (r !in s.queue ==> r !in t.queue)
  {
    Root(L, s, r);
    match a
    case SendSyn(id, ip, now) =>
      KeysDiffer(s.chains[r][0].id, id);
      hide PortOf, SeqOf, GoodChain;
    case Handle(pkt, now) =>
      PacketEffect(L, s, pkt, now);
      NotQueued(L, s, pkt, now, r);
      hide Acknowledges, EndsWith, GoodChain, Step, NodeOf, KeyNames;
      assert Changed(L, s, Step(L, s, a), pkt, now, r);
    case WriteNext =>
      Root(L, s, s.queue[0]);
      KeysDiffer(s.chains[r][0].id, s.chains[s.queue[0]][0].id);
      hide PortOf, SeqOf, GoodChain;
    case Sweep(readings) =>
      hide PortOf, SeqOf, GoodChain, KeyNames;
  }

  lemma NotQueued(L: nat, s: System, pkt: Packet, now: int, r: nat)
    requires Invariant(L, s) && 0 <= pkt.ack < TWO_32 && r < |s.chains| && !Queues(L, s, pkt, r)
    ensures r !in s.queue ==> r !in Step(L, s, Handle(pkt, now)).queue
  {
    PacketEffect(L, s, pkt, now);
    hide Queues, Changed, Step, Invariant;
    var t := Step(L, s, Handle(pkt, now));
    if o: nat :| o < |s.chains| && Queues(L, s, pkt, o) {
      assert t.queue == s.queue + [o] && o != r;
    }
  }

  // The steps between two of the connection's packets leave chain r alone.
  ghost predicate Quiet(L: nat, run: seq<System>, actions: seq<Action>, i: nat, j: nat, r: nat)
    requires j <= |actions| < |run|
  {
    forall k :: i <= k < j ==> QuietAt(L, run, actions, k, r)
  }

  ghost predicate QuietAt(L: nat, run: seq<System>, actions: seq<Action>, k: nat, r: nat)
    requires k < |actions| < |run|
  {
    r < |run[k].chains| && run[k].chains[r] != [] && Elsewhere(L, run[k], actions[k], r)
  }

  // From one packet of the connection to the next.
  lemma {:induction false} ChainWaits(L: nat, run: seq<System>, actions: seq<Action>, i: nat, j: nat, r: nat)
    requires IsRun(L, run, actions) && |run| == |actions| + 1 && i <= j <= |actions|
    requires InTable(run[i], r) && r < |run[i].chains| && r !in run[i].queue && Quiet(L, run, actions, i, j, r)
    ensures InTable(run[j], r) && r < |run[j].chains|
    ensures run[j].chains[r] == run[i].chains[r] && r !in run[j].queue
    decreases j
  {
    if i < j {
      QuietLast(L, run, actions, i, j, r);
      hide *;
      ChainWaits(L, run, actions, i, j - 1, r);
      RunsKeepInvariant(L, run, actions, j - 1);
      RunStep(L, run, actions, j - 1);
      ElsewhereKeeps(L, run[j - 1], actions[j - 1], r);
      InTableBound(run[j], r);
    }
  }

  lemma QuietLast(L: nat, run: seq<System>, actions: seq<Action>, i: nat, j: nat, r: nat)
    requires i < j <= |actions| < |run| && Quiet(L, run, actions, i, j, r)
    ensures Quiet(L, run, actions, i, j - 1, r)
    ensures r < |run[j - 1].chains| && run[j - 1].chains[r] != [] && Elsewhere(L, run[j - 1], actions[j - 1], r)
  {
    hide Elsewhere;
    assert QuietAt(L, run, actions, j - 1, r);
  }

  lemma InTableBound(s: System, r: nat)
    requires InTable(s, r)
    ensures r < |s.chains|
  {
  }

  // One packet of the connection: the chain grows by its node, or it is queued.
  lemma ConnectionPacket(L: nat, run: seq<System>, actions: seq<Action>, i: nat, r: nat)
    requires IsRun(L, run, actions) && i < |actions| && actions[i].Handle?
    requires InTable(run[i], r) && r !in run[i].queue
    ensures |run| == |actions| + 1 && InTable(run[i + 1], r)
    ensures Changed(L, run[i], run[i + 1], actions[i].pkt, actions[i].now, r)
    ensures Queues(L, run[i], actions[i].pkt, r) ==> run[i + 1].queue == run[i].queue + [r]
    ensures !Queues(L, run[i], actions[i].pkt, r) ==> r !in run[i + 1].queue
  {
    RunsKeepInvariant(L, run, actions, i);
    RunStep(L, run, actions, i);
    assert 0 <= actions[i].pkt.ack < TWO_32;
    hide IsRun, Step, Invariant, Possible, WellFormed;
    PacketEffect(L, run[i], actions[i].pkt, actions[i].now);
    if !Queues(L, run[i], actions[i].pkt, r) {
      NotQueued(L, run[i], actions[i].pkt, actions[i].now, r);
    }
    hide Queues, NodeOf, Opens, Answers;
    assert Changed(L, run[i], run[i + 1], actions[i].pkt, actions[i].now, r);
  }

  // The packets of a connection to the probe with this id.
  predicate Handshake(a: Action, id: int)
  {
    && a.Handle? && a.pkt.payload.NoPayload? && a.pkt.flags == Flags(false, true, false, false, true)
    && Acknowledges(a.pkt, id, 1)
  }

  predicate Response(L: nat, a: Action, id: int)
  {
    && a.Handle? && a.pkt.payload.DnsResponse? && a.pkt.flags == Flags(false, false, false, true, true)
    && Acknowledges(a.pkt, id, 1 + L)
    && forall i :: 0 <= i < |a.pkt.payload.answers| ==> a.pkt.payload.answers[i].Some?
  }

  predicate Closing(L: nat, a: Action, id: int)
  {
    && a.Handle? && a.pkt.payload.NoPayload? && a.pkt.flags == Flags(true, false, false, false, true)
    && Acknowledges(a.pkt, id, 2 + L)
  }

  // A SYN is sent; SYN-ACK, PSH-ACK with addresses and FIN-ACK with its acknowledgements come in this
  // order, among anything that concerns other chains: the chain of the three packets is queued by the
  // last one, and not before.
  lemma ConnectionQueued(L: nat, run: seq<System>, actions: seq<Action>, i0: nat, i1: nat, i2: nat, i3: nat)
    requires IsRun(L, run, actions) && i0 < i1 < i2 < i3 < |actions| && actions[i0].SendSyn?
    requires Handshake(actions[i1], actions[i0].id) && Response(L, actions[i2], actions[i0].id)
    requires Closing(L, actions[i3], actions[i0].id)
    requires |run| == |actions| + 1
    requires var r := |run[i0].chains|;
      && Quiet(L, run, actions, i0 + 1, i1, r) && Quiet(L, run, actions, i1 + 1, i2, r)
      && Quiet(L, run, actions, i2 + 1, i3, r)
    ensures var r := |run[i0].chains|; var id := actions[i0].id;
      && r < |run[i3 + 1].chains| && r !in run[i3].queue && run[i3 + 1].queue == run[i3].queue + [r]
      && var chain := run[i3 + 1].chains[r];
      && |chain| == 3
      && chain[0] == Node(id, actions[i0].now, actions[i0].ip, id / 0x20_0000 + 61440, (id % 0x20_0000) * 2048, 0,
                          Flags(false, true, false, false, false), [])
      && NodeOf(chain[1], id, actions[i1].pkt, actions[i1].now)
      && NodeOf(chain[2], id, actions[i2].pkt, actions[i2].now)
  {
    var r := |run[i0].chains|;
    SynStarts(L, run, actions, i0);
    hide *;
    ChainWaits(L, run, actions, i0 + 1, i1, r);
    Opened(L, run, actions, i1, r);
    ChainWaits(L, run, actions, i1 + 1, i2, r);
    Answered(L, run, actions, i2, r);
    ChainWaits(L, run, actions, i2 + 1, i3, r);
    Closed(L, run, actions, i3, r);
  }

  lemma SynStarts(L: nat, run: seq<System>, actions: seq<Action>, i: nat)
    requires IsRun(L, run, actions) && i < |actions| && actions[i].SendSyn?
    ensures |run| == |actions| + 1
    ensures var r := |run[i].chains|; var id := actions[i].id;
      && InTable(run[i + 1], r) && r !in run[i + 1].queue && r < |run[i + 1].chains|
      && run[i + 1].chains[r] == [Node(id, actions[i].now, actions[i].ip, id / 0x20_0000 + 61440,
                                       (id % 0x20_0000) * 2048, 0, Flags(false, true, false, false, false), [])]
  {
    RunsKeepInvariant(L, run, actions, i);
    RunStep(L, run, actions, i);
    assert 0 <= actions[i].id < TWO_32;
    hide IsRun, Step, Invariant, Possible, WellFormed, InTable;
    SynSent(L, run[i], actions[i].id, actions[i].ip, actions[i].now);
  }

  lemma Opened(L: nat, run: seq<System>, actions: seq<Action>, i: nat, r: nat)
    requires IsRun(L, run, actions) && |run| == |actions| + 1 && i < |actions|
    requires InTable(run[i], r) && r < |run[i].chains| && r !in run[i].queue && |run[i].chains[r]| == 1
    requires Handshake(actions[i], run[i].chains[r][0].id)
    ensures InTable(run[i + 1], r) && r !in run[i + 1].queue && r < |run[i + 1].chains|
    ensures var chain := run[i + 1].chains[r];
      && |chain| == 2 && chain[0] == run[i].chains[r][0]
      && chain[1].flags == Flags(false, true, false, false, true)
      && NodeOf(chain[1], chain[0].id, actions[i].pkt, actions[i].now)
  {
    hide IsRun, Acknowledges, NodeOf;
    ConnectionPacket(L, run, actions, i, r);
    SameFlags(run[i + 1].chains[r][1], run[i].chains[r][0].id, actions[i].pkt, actions[i].now);
  }

  lemma SameFlags(n: Node, id: int, pkt: Packet, now: int)
    ensures NodeOf(n, id, pkt, now) ==> n.flags == pkt.flags
  {
  }

  lemma Answered(L: nat, run: seq<System>, actions: seq<Action>, i: nat, r: nat)
    requires IsRun(L, run, actions) && |run| == |actions| + 1 && i < |actions|
    requires InTable(run[i], r) && r < |run[i].chains| && r !in run[i].queue && |run[i].chains[r]| == 2
    requires run[i].chains[r][1].flags == Flags(false, true, false, false, true)
    requires Response(L, actions[i], run[i].chains[r][0].id)
    ensures InTable(run[i + 1], r) && r !in run[i + 1].queue && r < |run[i + 1].chains|
    ensures var chain := run[i + 1].chains[r];
      && |chain| == 3 && chain[..2] == run[i].chains[r]
      && chain[2].flags == Flags(false, false, false, true, true)
      && NodeOf(chain[2], chain[0].id, actions[i].pkt, actions[i].now)
  {
    hide IsRun, Acknowledges, NodeOf;
    ConnectionPacket(L, run, actions, i, r);
    SameFlags(run[i + 1].chains[r][2], run[i].chains[r][0].id, actions[i].pkt, actions[i].now);
  }

  lemma Closed(L: nat, run: seq<System>, actions: seq<Action>, i: nat, r: nat)
    requires IsRun(L, run, actions) && |run| == |actions| + 1 && i < |actions|
    requires InTable(run[i], r) && r < |run[i].chains| && r !in run[i].queue && |run[i].chains[r]| == 3
    requires run[i].chains[r][2].flags == Flags(false, false, false, true, true)
    requires Closing(L, actions[i], run[i].chains[r][0].id)
    ensures r < |run[i + 1].chains| && run[i + 1].chains[r] == run[i].chains[r]
    ensures run[i + 1].queue == run[i].queue + [r]
  {
    hide IsRun, Acknowledges, NodeOf;
    ConnectionPacket(L, run, actions, i, r);
  }
}
