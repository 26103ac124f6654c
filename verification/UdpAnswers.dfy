// What a packet, an insertion and a sweep do to a UDP probe, over whole runs: when a response is taken
// for a probe's answer, what is recorded of it, and when a probe expires.
module UdpAnswers {
  import opened Arith
  import opened UdpTracker
  import opened Wrappers

  // ---------- what is stored ----------

  // The entry is what some insertion made of its allocation: its target, its time, its id and key.
  ghost predicate InsertedAs(c: Config, actions: seq<Action>, n: nat, item: Item)
    requires c.Valid() && n <= |actions|
  {
    && (exists j :: 0 <= j < n && actions[j] == Insert(item.serial, item.ip, item.tsReq))
    && item.id == item.serial % TWO_32
    && item.port == c.portMin + (item.serial / 0x10000) % (c.portMax - c.portMin + 1)
    && item.dnsid == item.serial % 0x10000
  }

  ghost predicate Stored(c: Config, s: System, actions: seq<Action>, n: nat)
    requires c.Valid() && n <= |actions|
  {
    && (forall k :: k in s.items ==> InsertedAs(c, actions, n, s.items[k]) && s.items[k].answer.None?)
    && (forall q :: 0 <= q < |s.queue| ==> InsertedAs(c, actions, n, s.queue[q]))
  }

  lemma InsertedLater(c: Config, actions: seq<Action>, n: nat, item: Item, other: Item)
    requires c.Valid() && n < |actions| && InsertedAs(c, actions, n, item)
    requires other == item.(answer := other.answer)
    ensures InsertedAs(c, actions, n + 1, other)
  {
  }

  lemma NewItemInserted(c: Config, actions: seq<Action>, n: nat)
    requires c.Valid() && n < |actions| && actions[n].Insert?
    ensures InsertedAs(c, actions, n + 1, NewItem(c, actions[n].serial, actions[n].ip, actions[n].now))
    ensures NewItem(c, actions[n].serial, actions[n].ip, actions[n].now).answer.None?
  {
    KthAllocation(c, actions[n].serial);
    hide After;
  }

  lemma RunStep(c: Config, run: seq<System>, actions: seq<Action>, i: nat)
    requires IsRun(c, run, actions) && i < |actions|
    ensures |run| == |actions| + 1 && Possible(run[i], actions[i]) && run[i + 1] == Step(c, run[i], actions[i])
  {
    hide Step;
  }

  lemma StepStored(c: Config, s: System, actions: seq<Action>, n: nat)
    requires c.Valid() && n < |actions| && Possible(s, actions[n]) && Stored(c, s, actions, n)
    ensures Stored(c, Step(c, s, actions[n]), actions, n + 1)
  {
    if actions[n].Insert? {
      NewItemInserted(c, actions, n);
    }
    forall item: Item, other: Item | InsertedAs(c, actions, n, item) && other == item.(answer := other.answer)
      ensures InsertedAs(c, actions, n + 1, other)
    {
      InsertedLater(c, actions, n, item, other);
    }
    hide InsertedAs, NewItem, LateKeys, Serials;
    var t := Step(c, s, actions[n]);
    forall k | k in t.items ensures InsertedAs(c, actions, n + 1, t.items[k]) && t.items[k].answer.None? {
      if k in s.items && t.items[k] == s.items[k] {
        assert s.items[k] == s.items[k].(answer := s.items[k].answer);
      }
    }
    forall q | 0 <= q < |t.queue| ensures InsertedAs(c, actions, n + 1, t.queue[q]) {
      if q < |s.queue| {
        assert s.queue[q] == s.queue[q].(answer := s.queue[q].answer);
      }
    }
  }

  // In every run the table and the queue hold what was inserted, target and request time included.
  lemma {:induction false} RunsStore(c: Config, run: seq<System>, actions: seq<Action>, i: nat)
    requires c.Valid() && IsRun(c, run, actions) && i < |run|
    ensures i <= |actions| && Stored(c, run[i], actions, i)
    decreases i
  {
    if i > 0 {
      RunStep(c, run, actions, i - 1);
      RunsStore(c, run, actions, i - 1);
      hide Stored, Step, Possible, IsRun;
      StepStored(c, run[i - 1], actions, i - 1);
    }
  }

  // ---------- responses ----------

  // The probe is waiting, and its port and DNS id are those of the packet.
  ghost predicate Awaits(c: Config, s: System, pkt: Packet, k: nat)
    requires pkt.dns.Some?
  {
    k in Pending(s) && KeyOf(c, k) == Key(pkt.dstPort, pkt.dns.value.id)
  }

  // A packet is taken for an answer exactly when it comes from the DNS port, has data that decodes, and
  // some probe waits for it; then exactly this probe is queued, with what was stored of it and the
  // packet's source, time, records, flags, size and first time to live. Any other packet changes nothing.
  lemma RespondIff(c: Config, s: System, pkt: Packet, now: int)
    requires Invariant(c, s)
    ensures var t := Step(c, s, Respond(pkt, now));
      && (t.queue != s.queue <==>
            pkt.srcPort == c.dstPort && pkt.hasData && pkt.dns.Some? && exists k :: Awaits(c, s, pkt, k))
      && (t.queue == s.queue ==> t == s)
      && (t.queue != s.queue ==>
            var key := Key(pkt.dstPort, pkt.dns.value.id);
            && key in s.items && Awaits(c, s, pkt, s.items[key].serial)
            && t.items == s.items - {key}
            && t.queue == s.queue + [
                 Item(s.items[key].serial, s.items[key].id, s.items[key].tsReq, s.items[key].ip,
                      s.items[key].port, s.items[key].dnsid,
                      Some(Answer(pkt.srcIp, now, pkt.dns.value.answers, pkt.flags, pkt.size,
                                  if pkt.dns.value.answers == [] then 0 else pkt.dns.value.answers[0].ttl)))])
  {
    if pkt.dns.Some? {
      var key := Key(pkt.dstPort, pkt.dns.value.id);
      AwaitsIff(c, s, pkt);
      hide Awaits, KeyOf;
      var t := Step(c, s, Respond(pkt, now));
      assert |t.queue| > |s.queue| || t == s;
    }
  }

  lemma AwaitsIff(c: Config, s: System, pkt: Packet)
    requires Invariant(c, s) && pkt.dns.Some?
    ensures var key := Key(pkt.dstPort, pkt.dns.value.id);
      && ((exists k :: Awaits(c, s, pkt, k)) <==> key in s.items)
      && (key in s.items ==> Awaits(c, s, pkt, s.items[key].serial))
  {
    var key := Key(pkt.dstPort, pkt.dns.value.id);
    hide KeyOf;
    if key in s.items {
      assert s.items[key].serial in Pending(s) && KeyOf(c, s.items[key].serial) == key;
      assert Awaits(c, s, pkt, s.items[key].serial);
    }
    if k: nat :| Awaits(c, s, pkt, k) {
      var stored :| stored in s.items && s.items[stored].serial == k;
      assert stored == key;
    }
  }

  // In every run: a valid response to a waiting probe is queued at once, with the target and the time
  // of the insertion that made the probe.
  lemma ResponseQueued(c: Config, run: seq<System>, actions: seq<Action>, i: nat, k: nat)
    requires c.Valid() && IsRun(c, run, actions) && i < |actions| && actions[i].Respond?
    requires actions[i].pkt.srcPort == c.dstPort && actions[i].pkt.hasData && actions[i].pkt.dns.Some?
    requires Awaits(c, run[i], actions[i].pkt, k)
    ensures |run[i + 1].queue| == |run[i].queue| + 1
    ensures var item := run[i + 1].queue[|run[i].queue|]; var pkt := actions[i].pkt;
      && item.serial == k && InsertedAs(c, actions, i + 1, item)
      && item.answer == Some(Answer(pkt.srcIp, actions[i].now, pkt.dns.value.answers, pkt.flags, pkt.size,
                                    if pkt.dns.value.answers == [] then 0 else pkt.dns.value.answers[0].ttl))
  {
    RunsKeepInvariant(c, run, actions, i);
    RunsStore(c, run, actions, i + 1);
    RunStep(c, run, actions, i);
    OneAwaits(c, run[i], actions[i].pkt, k);
    RespondIff(c, run[i], actions[i].pkt, actions[i].now);
    hide IsRun, Invariant, Awaits, InsertedAs;
  }

  lemma OneAwaits(c: Config, s: System, pkt: Packet, k: nat)
    requires Invariant(c, s) && pkt.dns.Some? && Awaits(c, s, pkt, k)
    ensures var key := Key(pkt.dstPort, pkt.dns.value.id); key in s.items && s.items[key].serial == k
  {
    hide KeyOf;
    var stored :| stored in s.items && s.items[stored].serial == k;
  }

  // ---------- expiry ----------

  // An allocation that has been inserted is never inserted again.
  lemma {:induction false} InsertedOnce(c: Config, run: seq<System>, actions: seq<Action>, j: nat, m: nat, k: nat)
    requires IsRun(c, run, actions) && j < m < |run| && actions[j].Insert? && actions[j].serial == k
    ensures k !in run[m].unsent && k <= run[m].issued
    decreases m
  {
    RunStep(c, run, actions, m - 1);
    RunsKeepInvariant(c, run, actions, m - 1);
    if m == j + 1 {
      assert k in Everywhere(run[j]);
    } else {
      InsertedOnce(c, run, actions, j, m - 1, k);
    }
    hide IsRun, Invariant, LateKeys, Serials, NewItem;
  }

  lemma SameInsertion(c: Config, run: seq<System>, actions: seq<Action>, j: nat, j': nat)
    requires IsRun(c, run, actions) && j < |actions| && j' < |actions| && actions[j].Insert? && actions[j'].Insert?
    requires actions[j].serial == actions[j'].serial
    ensures j == j'
  {
    RunStep(c, run, actions, j);
    RunStep(c, run, actions, j');
    if j < j' {
      InsertedOnce(c, run, actions, j, j', actions[j].serial);
    }
    if j' < j {
      InsertedOnce(c, run, actions, j', j, actions[j].serial);
    }
  }

  // A waiting probe expires exactly at a sweep that reads, for it, more than ten seconds after the
  // time of its insertion.
  lemma ExpiresIff(c: Config, run: seq<System>, actions: seq<Action>, j: nat, i: nat)
    requires c.Valid() && IsRun(c, run, actions) && j < i < |actions| && actions[j].Insert?
    requires actions[j].serial in Pending(run[i])
    ensures actions[i].Sweep? ==> KeyOf(c, actions[j].serial) in actions[i].readings
    ensures actions[j].serial in run[i + 1].expired <==>
      actions[i].Sweep? && actions[i].readings[KeyOf(c, actions[j].serial)] - actions[j].now > 10
  {
    var k := actions[j].serial;
    var s := run[i];
    RunsKeepInvariant(c, run, actions, i);
    RunsStore(c, run, actions, i);
    RunStep(c, run, actions, i);
    var key := PendingKey(c, s, k);
    assert InsertedAs(c, actions, i, s.items[key]);
    var j' :| 0 <= j' < i && actions[j'] == Insert(k, s.items[key].ip, s.items[key].tsReq);
    SameInsertion(c, run, actions, j, j');
    hide IsRun, KeyOf, InsertedAs, Stored;
    if actions[i].Sweep? {
      SweptIff(c, s, actions[i].readings, key);
    }
  }

  lemma PendingKey(c: Config, s: System, k: nat) returns (key: Key)
    requires Invariant(c, s) && k in Pending(s)
    ensures key == KeyOf(c, k) && key in s.items && s.items[key].serial == k && k !in s.expired
  {
    hide KeyOf;
    key :| key in s.items && s.items[key].serial == k;
  }

  // The serial of an entry expires in a sweep exactly when the entry's time is too old.
  lemma SweptIff(c: Config, s: System, readings: map<Key, int>, key: Key)
    requires Invariant(c, s) && key in s.items && s.items.Keys <= readings.Keys
    ensures s.items[key].serial in Step(c, s, Sweep(readings)).expired <==> readings[key] - s.items[key].tsReq > 10
  {
    hide KeyOf;
    var late := LateKeys(s.items, readings);
    var k := s.items[key].serial;
    assert k in Pending(s);
    if k in Serials(s.items, late) {
      var other :| other in late && s.items[other].serial == k;
      assert other == KeyOf(c, k) == key;
    }
    if readings[key] - s.items[key].tsReq > 10 {
      assert key in late;
    }
  }
}
