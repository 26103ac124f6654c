// The UDP scanner's probe table: an odometer hands out (port, DNS id) pairs, senders insert under
// them, responses and the timeout sweep take entries out. Every action runs under a lock.
module UdpTracker {
  import opened Arith
  import opened Wrappers

  datatype Config = Config(portMin: int, portMax: int, dstPort: int) {
    ghost predicate Valid() {
      0 <= portMin <= portMax < 0x10000
    }

    function Ports(): int {
      portMax - portMin + 1
    }
  }

  datatype Key = Key(port: int, dnsid: int)

  // ---------- the odometer ----------

  datatype Odometer = Odometer(id: int, port: int, dnsid: int)

  function Advance(c: Config, o: Odometer): Odometer
  {
    var id := (o.id + 1) % TWO_32;
    if o.dnsid + 1 > 0xFFFF then
      Odometer(id, if o.port + 1 > c.portMax then c.portMin else o.port + 1, 0)
    else
      Odometer(id, o.port, o.dnsid + 1)
  }

  function After(c: Config, k: nat): Odometer
  {
    if k == 0 then Odometer(0, c.portMin, 0) else Advance(c, After(c, k - 1))
  }

  lemma ModNext(q: nat, p: int)
    requires p >= 1
    ensures (q + 1) % p == if q % p == p - 1 then 0 else q % p + 1
  {
    var t := q / p;
    if q % p == p - 1 {
      assert q + 1 == p * (t + 1);
      MultipleMod(p, t + 1);
    } else {
      assert q + 1 == p * t + (q % p + 1);
      ModUnique(p, t, q % p + 1);
    }
  }

  lemma ModUnique(p: int, t: int, r: int)
    requires 0 <= r < p
    ensures (p * t + r) % p == r && (p * t + r) / p == t
  {
    var x := p * t + r;
    assert x == p * (x / p) + x % p;
    assert p * (t - x / p) == x % p - r;
    SmallMultiple(p, t - x / p);
  }

  // The k-th allocation in closed form.
  lemma {:induction false} KthAllocation(c: Config, k: nat)
    requires c.Valid()
    ensures After(c, k) == Odometer(k % TWO_32, c.portMin + (k / 0x10000) % c.Ports(), k % 0x10000)
  {
    if k == 0 {
      SmallMod(0, c.Ports());
    } else {
      KthAllocation(c, k - 1);
      AllocationNext(c, k - 1);
    }
  }

  lemma AllocationNext(c: Config, k: nat)
    requires c.Valid()
    ensures Advance(c, Odometer(k % TWO_32, c.portMin + (k / 0x10000) % c.Ports(), k % 0x10000))
         == Odometer((k + 1) % TWO_32, c.portMin + ((k + 1) / 0x10000) % c.Ports(), (k + 1) % 0x10000)
  {
    ModNext(k / 0x10000, c.Ports());
    LowHalf(k);
    NextId(k);
  }

  lemma LowHalf(k: nat)
    ensures if k % 0x10000 == 0xFFFF
      then (k + 1) / 0x10000 == k / 0x10000 + 1 && (k + 1) % 0x10000 == 0
      else (k + 1) / 0x10000 == k / 0x10000 && (k + 1) % 0x10000 == k % 0x10000 + 1
  {
  }

  lemma NextId(k: nat)
    ensures (k % TWO_32 + 1) % TWO_32 == (k + 1) % TWO_32
  {
  }

  ghost function KeyOf(c: Config, k: nat): Key
  {
    Key(After(c, k).port, After(c, k).dnsid)
  }

  // Two allocations share a key exactly when their numbers differ by a multiple of 65536 * ports.
  lemma SameKeyIff(c: Config, i: nat, j: nat)
    requires c.Valid()
    ensures KeyOf(c, i) == KeyOf(c, j) <==> (j - i) % (0x10000 * c.Ports()) == 0
  {
    KthAllocation(c, i);
    KthAllocation(c, j);
    SplitMultiple(0x10000, c.Ports(), i, j);
  }

  lemma SplitMultiple(m: int, p: int, i: nat, j: nat)
    requires m >= 1 && p >= 1
    ensures m * p >= 1
    ensures i % m == j % m && (i / m) % p == (j / m) % p <==> (j - i) % (m * p) == 0
  {
    MulAtLeast(m, p);
    if i % m == j % m && (i / m) % p == (j / m) % p {
      var t := SameDigits(m, p, i, j);
      MultipleMod(m * p, t);
    }
    if (j - i) % (m * p) == 0 {
      DigitsKept(m, p, i, j, (j - i) / (m * p));
    }
  }

  lemma SameDigits(m: int, p: int, i: nat, j: nat) returns (t: int)
    requires m >= 1 && p >= 1
    requires i % m == j % m && (i / m) % p == (j / m) % p
    ensures j - i == (m * p) * t
  {
    var qi, qj := i / m, j / m;
    t := qj / p - qi / p;
    assert i == m * qi + i % m && j == m * qj + j % m;
    assert qi == p * (qi / p) + qi % p && qj == p * (qj / p) + qj % p;
    Regroup(m, p, qi, qj, qi / p, qj / p, qi % p);
  }

  lemma Regroup(m: int, p: int, qi: int, qj: int, ti: int, tj: int, u: int)
    requires qi == p * ti + u && qj == p * tj + u
    ensures m * qj - m * qi == (m * p) * (tj - ti)
  {
    assert qj - qi == p * (tj - ti);
    assert m * qj - m * qi == m * (qj - qi);
  }

  lemma DigitsKept(m: int, p: int, i: nat, j: nat, t: int)
    requires m >= 1 && p >= 1 && j - i == (m * p) * t
    ensures i % m == j % m && (i / m) % p == (j / m) % p
  {
    var q, r := i / m, i % m;
    assert i == m * q + r;
    assert (m * p) * t == m * (p * t);
    assert j == m * (q + p * t) + r;
    ModUnique(m, q + p * t, r);
    var h, u := q / p, q % p;
    assert q + p * t == p * (h + t) + u;
    ModUnique(p, h + t, u);
  }

  // Any 65536 * ports consecutive allocations have pairwise different keys.
  lemma ConsecutiveKeysDiffer(c: Config, i: nat, j: nat)
    requires c.Valid() && i < j < i + 0x10000 * c.Ports()
    ensures KeyOf(c, i) != KeyOf(c, j)
  {
    SameKeyIff(c, i, j);
    SmallMod(j - i, 0x10000 * c.Ports());
  }

  // ---------- the table ----------

  datatype Record = Record(ttl: int, data: int)

  datatype Answer = Answer(ip: int, ts: int, recs: seq<Record>, flags: int, size: nat, ttl: int)

  // `serial` is the allocation number; id is what is left of it in 32 bits.
  datatype Item = Item(serial: nat, id: int, tsReq: int, ip: int, port: int, dnsid: int, answer: Option<Answer>)

  datatype Dns = Dns(id: int, answers: seq<Record>)

  // A received UDP packet; dns is None when its payload does not decode.
  datatype Packet = Packet(srcIp: int, srcPort: int, dstPort: int, hasData: bool, dns: Option<Dns>, flags: int,
                           size: nat)

  datatype System = System(
    issued: nat,            // allocations so far
    unsent: set<nat>,          // issued, not yet inserted
    items: map<Key, Item>,
    queue: seq<Item>,          // handed to the writer
    expired: set<nat>,         // removed by a sweep
    displaced: set<nat>)       // overwritten by an insert under the same key

  datatype Action =
    | Allocate
    | Insert(serial: nat, ip: int, now: int)
    | Respond(pkt: Packet, now: int)
    | Sweep(readings: map<Key, int>)

  const INITIAL := System(0, {}, map[], [], {}, {})

  predicate Possible(s: System, a: Action)
  {
    match a
    case Insert(serial, _, _) => serial in s.unsent
    case Sweep(readings) => s.items.Keys <= readings.Keys
    case _ => true
  }

  predicate Late(item: Item, now: int)
  {
    now - item.tsReq > 10
  }

  function NewItem(c: Config, serial: nat, ip: int, now: int): Item
  {
    var o := After(c, serial);
    Item(serial, o.id, now, ip, o.port, o.dnsid, None)
  }

  // Whether the packet gets past the port, payload and decoding tests, and names a table entry.
  predicate Matches(c: Config, items: map<Key, Item>, pkt: Packet)
  {
    && pkt.srcPort == c.dstPort
    && pkt.hasData
    && pkt.dns.Some?
    && Key(pkt.dstPort, pkt.dns.value.id) in items
  }

  function Answered(item: Item, pkt: Packet, now: int): Item
    requires pkt.dns.Some?
  {
    var answers := pkt.dns.value.answers;
    item.(answer := Some(Answer(pkt.srcIp, now, answers, pkt.flags, pkt.size,
                                if answers == [] then 0 else answers[0].ttl)))
  }

  function LateKeys(items: map<Key, Item>, readings: map<Key, int>): set<Key>
    requires items.Keys <= readings.Keys
  {
    set k | k in items && Late(items[k], readings[k])
  }

  function Serials(items: map<Key, Item>, keys: set<Key>): set<nat>
    requires keys <= items.Keys
  {
    set k | k in keys :: items[k].serial
  }

  function Step(c: Config, s: System, a: Action): System
    requires Possible(s, a)
  {
    match a
    case Allocate => s.(issued := s.issued + 1, unsent := s.unsent + {s.issued + 1})
    case Insert(serial, ip, now) =>
      var item := NewItem(c, serial, ip, now);
      var key := Key(item.port, item.dnsid);
      s.(unsent := s.unsent - {serial},
         items := s.items[key := item],
         displaced := if key in s.items then s.displaced + {s.items[key].serial} else s.displaced)
    case Respond(pkt, now) =>
      if !Matches(c, s.items, pkt) then s
      else
        var key := Key(pkt.dstPort, pkt.dns.value.id);
        s.(items := s.items - {key}, queue := s.queue + [Answered(s.items[key], pkt, now)])
    case Sweep(readings) =>
      var late := LateKeys(s.items, readings);
      s.(items := s.items - late, expired := s.expired + Serials(s.items, late))
  }

  class UdpScanner {
    const c: Config
    var id: int
    var port: int
    var dnsid: int
    var items: map<Key, Item>
    var queue: seq<Item>
    ghost var issued: nat
    ghost var unsent: set<nat>
    ghost var expired: set<nat>
    ghost var displaced: set<nat>

    ghost function View(): System
      reads this
    {
      System(issued, unsent, items, queue, expired, displaced)
    }

    ghost predicate Valid()
      reads this
    {
      && c.Valid()
      && Odometer(id, port, dnsid) == After(c, issued)
    }

    constructor (c: Config)
      requires c.Valid()
      ensures Valid() && this.c == c && View() == INITIAL
    {
      this.c := c;
      id, port, dnsid := 0, c.portMin, 0;
      items, queue := map[], [];
      issued, unsent, expired, displaced := 0, {}, {}, {};
    }

    // The returned triple belongs to the allocation just counted, in closed form.
    method UpdateSyncInit() returns (newId: int, newPort: int, newDnsid: int)
      requires Valid()
      modifies this
      ensures Valid()
      ensures View() == Step(c, old(View()), Allocate)
      ensures newId == issued % TWO_32
      ensures newPort == c.portMin + (issued / 0x10000) % c.Ports()
      ensures newDnsid == issued % 0x10000
    {
      id := (id + 1) % TWO_32;
      if dnsid + 1 > 0xFFFF {
        dnsid := 0;
        if port + 1 > c.portMax {
          port := c.portMin;
        } else {
          port := port + 1;
        }
      } else {
        dnsid := dnsid + 1;
      }
      issued := issued + 1;
      unsent := unsent + {issued};
      KthAllocation(c, issued);
      return id, port, dnsid;
    }

    // serial says which allocation the triple came from.
    method SendDns(serial: nat, itemId: int, ip: int, srcPort: int, itemDnsid: int, now: int)
      requires Valid() && serial in unsent
      requires Odometer(itemId, srcPort, itemDnsid) == After(c, serial)
      modifies this
      ensures Valid()
      ensures View() == Step(c, old(View()), Insert(serial, ip, now))
    {
      var item := Item(serial, itemId, now, ip, srcPort, itemDnsid, None);
      var key := Key(srcPort, itemDnsid);
      unsent := unsent - {serial};
      displaced := if key in items then displaced + {items[key].serial} else displaced;
      items := items[key := item];
    }

    method HandlePkt(pkt: Packet, now: int)
      requires Valid()
      modifies this
      ensures Valid()
      ensures View() == Step(c, old(View()), Respond(pkt, now))
    {
      if pkt.srcPort != c.dstPort {
        return;
      }
      if pkt.hasData {
        if pkt.dns.None? {
          return;
        }
        var key := Key(pkt.dstPort, pkt.dns.value.id);
        if key !in items {
          return;
        }
        var item := items[key];
        items := items - {key};
        var recs: seq<Record>, ttl := [], 0;
        if |pkt.dns.value.answers| != 0 {
          recs := recs + pkt.dns.value.answers;
          ttl := pkt.dns.value.answers[0].ttl;
        }
        item := item.(answer := Some(Answer(pkt.srcIp, now, recs, pkt.flags, pkt.size, ttl)));
        assert recs == pkt.dns.value.answers;
        queue := queue + [item];
      }
    }

    // One sweep; readings[k] is the clock as read when key k is visited.
    method Timeout(readings: map<Key, int>)
      requires Valid() && items.Keys <= readings.Keys
      modifies this
      ensures Valid()
      ensures View() == Step(c, old(View()), Sweep(readings))
    {
      ghost var start := items;
      var keys := items.Keys;
      ghost var done: set<Key> := {};
      while keys != {}
        invariant Valid() && View() == old(View()).(items := items, expired := expired)
        invariant done + keys == start.Keys && done !! keys
        invariant items == start - (done * LateKeys(start, readings))
        invariant expired == old(expired) + Serials(start, done * LateKeys(start, readings))
        decreases keys
      {
        var k :| k in keys;
        var v := items[k];
        if Late(v, readings[k]) {
          expired := expired + {v.serial};
          items := items - {k};
          assert (done + {k}) * LateKeys(start, readings) == done * LateKeys(start, readings) + {k};
        } else {
          assert (done + {k}) * LateKeys(start, readings) == done * LateKeys(start, readings);
        }
        keys := keys - {k};
        done := done + {k};
      }
      assert done * LateKeys(start, readings) == LateKeys(start, readings);
    }
  }

  // ---------- conservation ----------

  ghost predicate IsRun(c: Config, run: seq<System>, actions: seq<Action>)
  {
    && |run| == |actions| + 1
    && run[0] == INITIAL
    && forall i :: 0 <= i < |actions| ==> Possible(run[i], actions[i]) && run[i + 1] == Step(c, run[i], actions[i])
  }

  ghost function Pending(s: System): set<nat>
  {
    Serials(s.items, s.items.Keys)
  }

  ghost function Queued(s: System): set<nat>
  {
    set i | 0 <= i < |s.queue| :: s.queue[i].serial
  }

  // Entries carry the key they are stored under, and it is the key of their allocation.
  ghost predicate KeysOwn(c: Config, s: System)
  {
    forall k :: k in s.items ==>
      k == Key(s.items[k].port, s.items[k].dnsid) && k == KeyOf(c, s.items[k].serial)
  }

  ghost predicate QueuedOnce(s: System)
  {
    forall i, j :: 0 <= i < j < |s.queue| ==> s.queue[i].serial != s.queue[j].serial
  }

  ghost predicate Apart(s: System)
  {
    && Pending(s) !! Queued(s)
    && Pending(s) !! s.expired
    && Pending(s) !! s.displaced
    && Queued(s) !! s.expired
    && Queued(s) !! s.displaced
    && s.expired !! s.displaced
    && s.unsent !! Pending(s)
    && s.unsent !! Queued(s)
    && s.unsent !! s.expired
    && s.unsent !! s.displaced
  }

  ghost function Everywhere(s: System): set<nat>
  {
    s.unsent + Pending(s) + Queued(s) + s.expired + s.displaced
  }

  ghost predicate Conserved(s: System)
  {
    forall k :: k in Everywhere(s) <==> 1 <= k <= s.issued
  }

  ghost predicate Invariant(c: Config, s: System)
  {
    KeysOwn(c, s) && QueuedOnce(s) && Apart(s) && Conserved(s)
  }

  lemma PendingWithout(c: Config, s: System, gone: set<Key>)
    requires KeysOwn(c, s) && gone <= s.items.Keys
    ensures Serials(s.items - gone, s.items.Keys - gone) == Pending(s) - Serials(s.items, gone)
    ensures Serials(s.items, gone) <= Pending(s)
  {
    var rest := s.items - gone;
    forall x | x in Serials(rest, s.items.Keys - gone)
      ensures x in Pending(s) - Serials(s.items, gone)
    {
      var k :| k in s.items.Keys - gone && rest[k].serial == x;
      assert s.items[k].serial == x;
      assert k == KeyOf(c, x) && k !in gone;
    }
    forall x | x in Pending(s) - Serials(s.items, gone)
      ensures x in Serials(rest, s.items.Keys - gone)
    {
      var k :| k in s.items && s.items[k].serial == x;
      assert k !in gone;
      assert rest[k].serial == x;
    }
  }

  lemma InsertKeeps(c: Config, s: System, serial: nat, ip: int, now: int)
    requires Invariant(c, s) && serial in s.unsent
    ensures Invariant(c, Step(c, s, Insert(serial, ip, now)))
  {
    var t := Step(c, s, Insert(serial, ip, now));
    var key := KeyOf(c, serial);
    var gone := if key in s.items then {key} else {};
    PendingWithout(c, s, gone);
    var rest := s.items - gone;
    assert t.items == rest[key := NewItem(c, serial, ip, now)];
    assert Pending(t) == Serials(rest, s.items.Keys - gone) + {serial} by {
      assert t.items.Keys == (s.items.Keys - gone) + {key};
      SerialsInsert(rest, key, NewItem(c, serial, ip, now));
      assert rest.Keys == s.items.Keys - gone;
    }
    assert Queued(t) == Queued(s);
    assert Serials(s.items, gone) == if key in s.items then {s.items[key].serial} else {};
    assert t.displaced == s.displaced + Serials(s.items, gone);
    Moved(s, t);
  }

  lemma SerialsInsert(items: map<Key, Item>, key: Key, item: Item)
    requires key !in items
    ensures Serials(items[key := item], items.Keys + {key}) == Serials(items, items.Keys) + {item.serial}
  {
    var more := items[key := item];
    forall x | x in Serials(items, items.Keys)
      ensures x in Serials(more, items.Keys + {key})
    {
      var k :| k in items && items[k].serial == x;
      assert more[k].serial == x;
    }
    assert more[key].serial == item.serial;
  }

  // Probes only move between places.
  lemma Moved(s: System, t: System)
    requires Conserved(s) && s.issued == t.issued && Everywhere(s) == Everywhere(t)
    ensures Conserved(t)
  {
  }

  lemma RespondKeeps(c: Config, s: System, pkt: Packet, now: int)
    requires Invariant(c, s) && Matches(c, s.items, pkt)
    ensures Invariant(c, Step(c, s, Respond(pkt, now)))
  {
    var t := Step(c, s, Respond(pkt, now));
    var key := Key(pkt.dstPort, pkt.dns.value.id);
    var serial := s.items[key].serial;
    PendingWithout(c, s, {key});
    assert t.items.Keys == s.items.Keys - {key};
    assert Serials(s.items, {key}) == {serial};
    assert Queued(t) == Queued(s) + {serial} by {
      forall x | x in Queued(s) ensures x in Queued(t) {
        var i :| 0 <= i < |s.queue| && s.queue[i].serial == x;
        assert t.queue[i].serial == x;
      }
      assert t.queue[|s.queue|].serial == serial;
    }
    forall i, j | 0 <= i < j < |t.queue|
      ensures t.queue[i].serial != t.queue[j].serial
    {
      assert t.queue[i].serial in Queued(s);
    }
    Moved(s, t);
  }

  lemma SweepKeeps(c: Config, s: System, readings: map<Key, int>)
    requires Invariant(c, s) && s.items.Keys <= readings.Keys
    ensures Invariant(c, Step(c, s, Sweep(readings)))
  {
    var t := Step(c, s, Sweep(readings));
    var late := LateKeys(s.items, readings);
    PendingWithout(c, s, late);
    assert t.items.Keys == s.items.Keys - late;
    assert Queued(t) == Queued(s);
    Moved(s, t);
  }

  lemma AllocateKeeps(c: Config, s: System)
    requires Invariant(c, s)
    ensures Invariant(c, Step(c, s, Allocate))
  {
    var t := Step(c, s, Allocate);
    assert Pending(t) == Pending(s) && Queued(t) == Queued(s);
    assert s.issued + 1 !in Everywhere(s);
    assert Everywhere(t) == Everywhere(s) + {s.issued + 1};
  }

  lemma {:induction false} RunsKeepInvariant(c: Config, run: seq<System>, actions: seq<Action>, i: nat)
    requires IsRun(c, run, actions) && i < |run|
    ensures Invariant(c, run[i])
    decreases i
  {
    if i > 0 {
      RunsKeepInvariant(c, run, actions, i - 1);
      var s := run[i - 1];
      match actions[i - 1]
      case Allocate => AllocateKeeps(c, s);
      case Insert(serial, ip, now) => InsertKeeps(c, s, serial, ip, now);
      case Respond(pkt, now) => if Matches(c, s.items, pkt) { RespondKeeps(c, s, pkt, now); }
      case Sweep(readings) => SweepKeeps(c, s, readings);
    }
  }

  function Count(b: bool): nat
  {
    if b then 1 else 0
  }

  // Under every interleaving each inserted probe is in exactly one place: waiting for its answer,
  // queued for writing, expired, or displaced.
  lemma InExactlyOnePlace(c: Config, run: seq<System>, actions: seq<Action>, i: nat, k: nat)
    requires IsRun(c, run, actions) && i < |run|
    requires 1 <= k <= run[i].issued && k !in run[i].unsent
    ensures Count(k in Pending(run[i])) + Count(k in Queued(run[i]))
          + Count(k in run[i].expired) + Count(k in run[i].displaced) == 1
    ensures forall x, y :: 0 <= x < y < |run[i].queue| ==> run[i].queue[x].serial != run[i].queue[y].serial
  {
    RunsKeepInvariant(c, run, actions, i);
    assert k in Everywhere(run[i]);
  }

  // The queue only grows, and only by a response addressed to the port and DNS id of the probe it queues.
  lemma QueuedByOwnResponse(c: Config, run: seq<System>, actions: seq<Action>, i: nat)
    requires IsRun(c, run, actions) && i < |actions|
    ensures run[i].queue <= run[i + 1].queue
    ensures run[i].queue != run[i + 1].queue ==>
      && actions[i].Respond?
      && actions[i].pkt.dns.Some?
      && |run[i + 1].queue| == |run[i].queue| + 1
      && var item := run[i + 1].queue[|run[i].queue|];
         && Key(actions[i].pkt.dstPort, actions[i].pkt.dns.value.id) == KeyOf(c, item.serial)
         && item.serial in Pending(run[i]) && item.serial !in Pending(run[i + 1])
         && item.answer.Some? && item.answer.value.ip == actions[i].pkt.srcIp
  {
    RunsKeepInvariant(c, run, actions, i);
    RunsKeepInvariant(c, run, actions, i + 1);
    if run[i].queue != run[i + 1].queue {
      var item := run[i + 1].queue[|run[i].queue|];
      assert item.serial in Queued(run[i + 1]);
      var key := Key(actions[i].pkt.dstPort, actions[i].pkt.dns.value.id);
      assert run[i].items[key].serial == item.serial;
    }
  }

  // A probe is displaced only by one whose allocation number is a non-zero multiple of
  // 65536 * ports away.
  lemma DisplacedByDistant(c: Config, run: seq<System>, actions: seq<Action>, i: nat, k: nat)
    requires c.Valid() && IsRun(c, run, actions) && i < |actions|
    requires k in run[i + 1].displaced && k !in run[i].displaced
    ensures actions[i].Insert? && actions[i].serial != k
    ensures (actions[i].serial - k) % (0x10000 * c.Ports()) == 0
  {
    RunsKeepInvariant(c, run, actions, i);
    var s := run[i];
    var serial := actions[i].serial;
    assert s.items[KeyOf(c, serial)].serial == k;
    assert k in Pending(s);
    SameKeyIff(c, k, serial);
  }

  // A run of at most 65536 * ports allocations loses no probe to a key clash.
  lemma {:induction false} NoDisplacement(c: Config, run: seq<System>, actions: seq<Action>, i: nat)
    requires c.Valid() && IsRun(c, run, actions) && i < |run|
    requires run[i].issued <= 0x10000 * c.Ports()
    ensures run[i].displaced == {}
    decreases i
  {
    if i > 0 {
      NoDisplacement(c, run, actions, i - 1);
      RunsKeepInvariant(c, run, actions, i);
      RunsKeepInvariant(c, run, actions, i - 1);
      if k :| k in run[i].displaced {
        DisplacedByDistant(c, run, actions, i - 1, k);
        var serial := actions[i - 1].serial;
        assert k in Everywhere(run[i]) && serial in Everywhere(run[i - 1]);
        assert k in Everywhere(run[i - 1]);
        SameKeyIff(c, k, serial);
        if k < serial { ConsecutiveKeysDiffer(c, k, serial); }
        if serial < k { SameKeyIff(c, serial, k); ConsecutiveKeysDiffer(c, serial, k); }
      }
    }
  }
}
