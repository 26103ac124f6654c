// IPv4 fragment reassembly: the fragment buffer keyed by the IP identification field, and the
// quadratic scan that decides by counting whether a datagram is complete.
module Reassembly {
  import opened Arith
  import opened Wrappers

  type Byte = b: int | 0 <= b < 256

  datatype Protocol = Udp | Tcp | OtherProtocol

  // A decoded IPv4 packet; fragOffset counts units of eight bytes.
  datatype Packet = Packet(id: int, moreFragments: bool, fragOffset: nat, protocol: Protocol, payload: seq<Byte>) {
    predicate IsFragment() {
      moreFragments || fragOffset != 0
    }

    predicate IsLast() {
      fragOffset != 0 && !moreFragments
    }
  }

  // What reaches the packet handler: the header of the packet that arrived and the transport bytes.
  datatype Outcome = Deliver(header: Packet, transport: seq<Byte>) | Nothing

  type Buffers = map<int, seq<Packet>>

  // ---------- specification of the completion scan ----------

  // The first stored fragment that starts at byte position `at`; |frags| when there is none.
  function Match(frags: seq<Packet>, at: int): (i: nat)
    ensures i <= |frags|
    ensures i < |frags| ==> frags[i].fragOffset * 8 == at
    ensures forall j :: 0 <= j < i ==> frags[j].fragOffset * 8 != at
  {
    if frags == [] || frags[0].fragOffset * 8 == at then 0 else 1 + Match(frags[1..], at)
  }

  ghost predicate InRange(order: seq<nat>, n: nat)
  {
    forall k :: 0 <= k < |order| ==> order[k] < n
  }

  // The payloads of the fragments named by `order`, one after the other.
  ghost function Concat(frags: seq<Packet>, order: seq<nat>): seq<Byte>
    requires InRange(order, |frags|)
  {
    if order == [] then []
    else Concat(frags, order[..|order| - 1]) + frags[order[|order| - 1]].payload
  }

  // The fragments the scan picks in its first k rounds, unless some round finds none.
  ghost function Picks(frags: seq<Packet>, k: nat): (r: Option<seq<nat>>)
    ensures r.Some? ==> |r.value| == k && InRange(r.value, |frags|)
  {
    if k == 0 then Some([])
    else match Picks(frags, k - 1)
      case None => None
      case Some(o) =>
        var i := Match(frags, |Concat(frags, o)|);
        if i == |frags| then None else Some(o + [i])
  }

  ghost predicate LastBelow(frags: seq<Packet>, i: nat)
  {
    exists j :: 0 <= j < i && j < |frags| && frags[j].IsLast()
  }

  // Some round looked at a last fragment, at or before the fragment it picked.
  ghost predicate LastScanned(frags: seq<Packet>, order: seq<nat>)
    requires InRange(order, |frags|)
  {
    exists k :: 0 <= k < |order| && LastBelow(frags, order[k] + 1)
  }

  ghost function Assemble(frags: seq<Packet>): Option<seq<Byte>>
  {
    match Picks(frags, |frags|)
    case None => None
    case Some(o) => if LastScanned(frags, o) then Some(Concat(frags, o)) else None
  }

  function Stored(bufs: Buffers, id: int): seq<Packet>
  {
    if id in bufs then bufs[id] else []
  }

  ghost function StepBuffers(bufs: Buffers, p: Packet): Buffers
  {
    if !p.IsFragment() then bufs
    else if Assemble(Stored(bufs, p.id) + [p]).None? then bufs[p.id := Stored(bufs, p.id) + [p]]
    else bufs - {p.id}
  }

  ghost function StepOutcome(bufs: Buffers, p: Packet): Outcome
  {
    if !p.IsFragment() then Deliver(p, p.payload)
    else match Assemble(Stored(bufs, p.id) + [p])
      case None => Nothing
      case Some(bytes) => if p.protocol == OtherProtocol then Nothing else Deliver(p, bytes)
  }

  class Base {
    var fragmap: Buffers

    constructor ()
      ensures fragmap == map[]
    {
      fragmap := map[];
    }

    method ProcessPkt(p: Packet) returns (out: Outcome)
      modifies this
      ensures fragmap == StepBuffers(old(fragmap), p)
      ensures out == StepOutcome(old(fragmap), p)
    {
      if p.moreFragments || p.fragOffset != 0 {
        if p.id !in fragmap {
          fragmap := fragmap[p.id := []];
        }
        fragmap := fragmap[p.id := fragmap[p.id] + [p]];
        assert fragmap == old(fragmap)[p.id := Stored(old(fragmap), p.id) + [p]];
        var complete := CheckComplete(fragmap[p.id]);
        if complete.None? {
          out := Nothing;
          return;
        }
        fragmap := fragmap - {p.id};
        match p.protocol
        case Udp => out := Deliver(p, complete.value);
        case Tcp => out := Deliver(p, complete.value);
        case OtherProtocol => out := Nothing;
      } else {
        out := Deliver(p, p.payload);
      }
    }
  }

  // The quadratic scan: one round per stored fragment, each looking for the fragment that continues
  // the bytes gathered so far.
  method CheckComplete(frags: seq<Packet>) returns (r: Option<seq<Byte>>)
    ensures r == Assemble(frags)
  {
    hide Match, LastScanned, LastBelow, Concat;
    var transp: seq<Byte> := [];
    var lastSeen := false;
    ghost var order: seq<nat> := [];
    NothingScanned(frags);
    ConcatNone(frags);
    for round := 0 to |frags|
      invariant Picks(frags, round) == Some(order)
      invariant transp == Concat(frags, order)
      invariant lastSeen <==> LastScanned(frags, order)
    {
      var fragSeen := false;
      var i := 0;
      ghost var lastBefore := lastSeen;
      while i < |frags|
        invariant 0 <= i <= |frags|
        invariant forall j :: 0 <= j < i ==> frags[j].fragOffset * 8 != |transp|
        invariant lastSeen <==> lastBefore || LastBelow(frags, i)
        decreases |frags| - i
      {
        LastBelowNext(frags, i);
        if frags[i].fragOffset != 0 && !frags[i].moreFragments {
          lastSeen := true;
        }
        if frags[i].fragOffset * 8 == |transp| {
          fragSeen := true;
          break;
        }
        i := i + 1;
      }
      MatchIs(frags, |transp|, i);
      if !fragSeen {
        NoneStays(frags, round + 1, |frags|);
        return None;
      }
      LastScannedSnoc(frags, order, i);
      ConcatNext(frags, order, i);
      transp := transp + frags[i].payload;
      order := order + [i];
    }
    r := if lastSeen then Some(transp) else None;
  }

  lemma ConcatNone(frags: seq<Packet>)
    ensures Concat(frags, []) == []
  {
  }

  lemma NothingScanned(frags: seq<Packet>)
    ensures !LastScanned(frags, []) && !LastBelow(frags, 0)
  {
  }

  lemma ConcatNext(frags: seq<Packet>, order: seq<nat>, i: nat)
    requires InRange(order, |frags|) && i < |frags|
    ensures Concat(frags, order + [i]) == Concat(frags, order) + frags[i].payload
  {
    assert (order + [i])[..|order|] == order;
  }

  lemma LastBelowNext(frags: seq<Packet>, i: nat)
    requires i < |frags|
    ensures LastBelow(frags, i + 1) <==> LastBelow(frags, i) || frags[i].IsLast()
  {
  }

  lemma {:induction false} MatchIs(frags: seq<Packet>, at: int, i: nat)
    requires i <= |frags| && (i < |frags| ==> frags[i].fragOffset * 8 == at)
    requires forall j :: 0 <= j < i ==> frags[j].fragOffset * 8 != at
    ensures Match(frags, at) == i
  {
    if i > 0 {
      MatchIs(frags[1..], at, i - 1);
    }
  }

  lemma {:induction false} NoneStays(frags: seq<Packet>, k: nat, n: nat)
    requires k <= n && Picks(frags, k).None?
    ensures Picks(frags, n).None?
  {
    if k < n {
      NoneStays(frags, k, n - 1);
    }
  }

  lemma LastScannedSnoc(frags: seq<Packet>, order: seq<nat>, i: nat)
    requires InRange(order, |frags|) && i < |frags|
    ensures LastScanned(frags, order + [i]) <==> LastScanned(frags, order) || LastBelow(frags, i + 1)
  {
    var o := order + [i];
    if LastScanned(frags, order) {
      var k :| 0 <= k < |order| && LastBelow(frags, order[k] + 1);
      assert o[k] == order[k];
    }
    if LastBelow(frags, i + 1) {
      assert o[|order|] == i;
    }
  }

  // ---------- what the count decides ----------

  ghost predicate NonEmpty(frags: seq<Packet>)
  {
    forall f :: f in frags ==> f.payload != []
  }

  ghost predicate Contiguous(frags: seq<Packet>, order: seq<nat>)
    requires InRange(order, |frags|)
  {
    forall k :: 0 <= k < |order| ==> frags[order[k]].fragOffset * 8 == |Concat(frags, order[..k])|
  }

  // `order` uses every stored fragment once, and each starts where the ones before it end.
  ghost predicate Tiles(frags: seq<Packet>, order: seq<nat>)
  {
    InRange(order, |frags|) && IsPermutation(order, |frags|) && Contiguous(frags, order)
  }

  ghost predicate HasLast(frags: seq<Packet>)
  {
    exists f :: f in frags && f.IsLast()
  }

  lemma {:induction false} ConcatGrows(frags: seq<Packet>, order: seq<nat>, j: nat, k: nat)
    requires NonEmpty(frags) && InRange(order, |frags|) && j < k <= |order|
    ensures |Concat(frags, order[..j])| < |Concat(frags, order[..k])|
  {
    assert order[..k][..k - 1] == order[..k - 1];
    assert frags[order[k - 1]] in frags;
    if j < k - 1 {
      ConcatGrows(frags, order, j, k - 1);
    }
  }

  lemma {:induction false} PicksPrefix(frags: seq<Packet>, k: nat, n: nat)
    requires k <= n && Picks(frags, n).Some?
    ensures Picks(frags, k) == Some(Picks(frags, n).value[..k])
  {
    if k < n {
      PicksPrefix(frags, k, n - 1);
      assert Picks(frags, n).value[..n - 1] == Picks(frags, n - 1).value;
      assert Picks(frags, n).value[..k] == Picks(frags, n - 1).value[..k];
    } else {
      assert Picks(frags, n).value[..n] == Picks(frags, n).value;
    }
  }

  // Offsets along a contiguous order of non-empty fragments strictly increase.
  lemma OffsetsIncrease(frags: seq<Packet>, order: seq<nat>)
    requires NonEmpty(frags) && InRange(order, |frags|) && Contiguous(frags, order)
    ensures forall j, k :: 0 <= j < k < |order| ==> frags[order[j]].fragOffset < frags[order[k]].fragOffset
    ensures Distinct(order)
  {
    forall j, k | 0 <= j < k < |order|
      ensures frags[order[j]].fragOffset < frags[order[k]].fragOffset
    {
      ConcatGrows(frags, order, j, k);
    }
  }

  // Counting as many rounds as there are fragments forces every fragment to be used: a round per
  // fragment, all different, leaves none out.
  lemma PicksTile(frags: seq<Packet>)
    requires NonEmpty(frags) && Picks(frags, |frags|).Some?
    ensures Tiles(frags, Picks(frags, |frags|).value)
  {
    var order := Picks(frags, |frags|).value;
    forall k | 0 <= k < |order|
      ensures frags[order[k]].fragOffset * 8 == |Concat(frags, order[..k])|
    {
      PicksPrefix(frags, k, |frags|);
      PicksPrefix(frags, k + 1, |frags|);
      assert order[..k + 1][k] == order[k];
    }
    OffsetsIncrease(frags, order);
    FullRange(order, |frags|);
  }

  lemma {:induction false} TilePicks(frags: seq<Packet>, order: seq<nat>, k: nat)
    requires NonEmpty(frags) && Tiles(frags, order) && k <= |order|
    ensures Picks(frags, k) == Some(order[..k])
  {
    if k == 0 {
      assert order[..0] == [];
    } else {
      hide Concat, Tiles, NonEmpty;
      TilePicks(frags, order, k - 1);
      TileMatch(frags, order, k - 1);
      assert order[..k - 1] + [order[k - 1]] == order[..k];
    }
  }

  lemma TileMatch(frags: seq<Packet>, order: seq<nat>, k: nat)
    requires NonEmpty(frags) && Tiles(frags, order) && k < |order|
    ensures Match(frags, |Concat(frags, order[..k])|) == order[k]
  {
    hide Concat, Match;
    OffsetsIncrease(frags, order);
    var i := Match(frags, |Concat(frags, order[..k])|);
    assert frags[order[k]].fragOffset * 8 == |Concat(frags, order[..k])|;
    assert i in order;
    var m :| 0 <= m < |order| && order[m] == i;
    assert !(m < k) && !(k < m);
  }

  lemma TiledLast(frags: seq<Packet>, order: seq<nat>)
    requires Tiles(frags, order)
    ensures LastScanned(frags, order) <==> HasLast(frags)
  {
    if HasLast(frags) {
      var f :| f in frags && f.IsLast();
      var j :| 0 <= j < |frags| && frags[j] == f;
      assert j in order;
      var k :| 0 <= k < |order| && order[k] == j;
      assert LastBelow(frags, order[k] + 1);
    }
  }

  // Delivery happens exactly when the stored fragments tile a datagram from byte 0 and one of them
  // is a last fragment; the bytes are then the payloads in tiling order.
  lemma AssembleIff(frags: seq<Packet>)
    requires NonEmpty(frags)
    ensures Assemble(frags).Some? <==> HasLast(frags) && exists order :: Tiles(frags, order)
    ensures forall order :: Tiles(frags, order) && HasLast(frags) ==> Assemble(frags) == Some(Concat(frags, order))
  {
    if Assemble(frags).Some? {
      PicksTile(frags);
      TiledLast(frags, Picks(frags, |frags|).value);
    }
    forall order | Tiles(frags, order) && HasLast(frags)
      ensures Assemble(frags) == Some(Concat(frags, order))
    {
      TilePicks(frags, order, |order|);
      assert order[..|order|] == order;
      TiledLast(frags, order);
    }
  }

  // Delivered bytes are all fragments stored under that id, each used once, in strictly increasing
  // offset order and contiguous from 0, and the id leaves the buffer.
  lemma StepSound(bufs: Buffers, p: Packet) returns (order: seq<nat>)
    requires p.IsFragment() && NonEmpty(Stored(bufs, p.id) + [p])
    requires StepOutcome(bufs, p).Deliver?
    ensures var frags := Stored(bufs, p.id) + [p];
      && Tiles(frags, order)
      && HasLast(frags)
      && StepOutcome(bufs, p) == Deliver(p, Concat(frags, order))
      && forall j, k :: 0 <= j < k < |order| ==> frags[order[j]].fragOffset < frags[order[k]].fragOffset
    ensures StepBuffers(bufs, p) == bufs - {p.id}
  {
    var frags := Stored(bufs, p.id) + [p];
    AssembleIff(frags);
    order :| Tiles(frags, order);
    OffsetsIncrease(frags, order);
  }

  // ---------- runs ----------

  ghost function Run(bufs: Buffers, arrivals: seq<Packet>): Buffers
  {
    if arrivals == [] then bufs
    else StepBuffers(Run(bufs, arrivals[..|arrivals| - 1]), arrivals[|arrivals| - 1])
  }

  // What happens when the arrival at position t is processed.
  ghost function OutcomeAt(bufs: Buffers, arrivals: seq<Packet>, t: nat): Outcome
    requires t < |arrivals|
  {
    StepOutcome(Run(bufs, arrivals[..t]), arrivals[t])
  }

  predicate Belongs(p: Packet, id: int) {
    p.IsFragment() && p.id == id
  }

  // The fragments of datagram `id` in an arrival history.
  ghost function Of(arrivals: seq<Packet>, id: int): seq<Packet>
  {
    if arrivals == [] then []
    else
      var rest := Of(arrivals[..|arrivals| - 1], id);
      var p := arrivals[|arrivals| - 1];
      if Belongs(p, id) then rest + [p] else rest
  }

  lemma RunSnoc(bufs: Buffers, arrivals: seq<Packet>, t: nat, id: int)
    requires t < |arrivals|
    ensures Run(bufs, arrivals[..t + 1]) == StepBuffers(Run(bufs, arrivals[..t]), arrivals[t])
    ensures Of(arrivals[..t + 1], id)
         == if Belongs(arrivals[t], id) then Of(arrivals[..t], id) + [arrivals[t]] else Of(arrivals[..t], id)
  {
    assert arrivals[..t + 1][..t] == arrivals[..t];
  }

  lemma OfNext(arrivals: seq<Packet>, u: nat, t: nat, id: int)
    requires u <= t < |arrivals|
    ensures Of(arrivals[u..t + 1], id)
         == if Belongs(arrivals[t], id) then Of(arrivals[u..t], id) + [arrivals[t]] else Of(arrivals[u..t], id)
  {
    hide Belongs;
    var part := arrivals[u..t + 1];
    assert part[..|part| - 1] == arrivals[u..t] && part[|part| - 1] == arrivals[t];
  }

  lemma OfNone(arrivals: seq<Packet>, id: int)
    requires arrivals == []
    ensures Of(arrivals, id) == []
  {
  }

  lemma StepStored(bufs: Buffers, p: Packet, id: int)
    ensures var t := StepBuffers(bufs, p);
      if !Belongs(p, id) then (id in t <==> id in bufs) && Stored(t, id) == Stored(bufs, id)
      else if Assemble(Stored(bufs, id) + [p]).None? then Stored(t, id) == Stored(bufs, id) + [p]
      else id !in t && Stored(t, id) == []
  {
    hide Assemble;
  }

  // A packet with neither a fragment offset nor the more-fragments bit is handed over as it stands and
  // leaves all buffers alone.
  lemma Unfragmented(bufs: Buffers, arrivals: seq<Packet>, t: nat)
    requires t < |arrivals| && !arrivals[t].moreFragments && arrivals[t].fragOffset == 0
    ensures OutcomeAt(bufs, arrivals, t) == Deliver(arrivals[t], arrivals[t].payload)
    ensures Run(bufs, arrivals[..t + 1]) == Run(bufs, arrivals[..t])
  {
    hide Run;
    RunSnoc(bufs, arrivals, t, 0);
  }

  // What becomes of one datagram depends on its own fragments only: its buffer after any run, and the
  // outcome of every arrival under its id, are those of a run in which nothing else arrived.
  lemma {:induction false} OwnFragmentsOnly(bufs: Buffers, arrivals: seq<Packet>, id: int)
    ensures var own := Of(arrivals, id);
      && (id in Run(bufs, arrivals) <==> id in Run(bufs, own))
      && Stored(Run(bufs, arrivals), id) == Stored(Run(bufs, own), id)
      && forall p: Packet :: p.IsFragment() && p.id == id ==>
           StepOutcome(Run(bufs, arrivals), p) == StepOutcome(Run(bufs, own), p)
  {
    if arrivals != [] {
      var n := |arrivals| - 1;
      var before, p := arrivals[..n], arrivals[n];
      OwnFragmentsOnly(bufs, before, id);
      StepStored(Run(bufs, before), p, id);
      if Belongs(p, id) {
        StepStored(Run(bufs, Of(before, id)), p, id);
        assert Of(arrivals, id)[..|Of(arrivals, id)| - 1] == Of(before, id);
      }
      hide Stored, StepBuffers, Assemble;
    }
    SameStored(Run(bufs, arrivals), Run(bufs, Of(arrivals, id)), id);
  }

  lemma SameStored(a: Buffers, b: Buffers, id: int)
    ensures Stored(a, id) == Stored(b, id) ==>
      forall p: Packet :: p.IsFragment() && p.id == id ==> StepOutcome(a, p) == StepOutcome(b, p)
  {
    hide Assemble;
  }

  // At time t the buffer of an id holds exactly the fragments that arrived since u, when it held none.
  ghost predicate Since(arrivals: seq<Packet>, u: nat, t: nat, id: int)
    requires t <= |arrivals|
  {
    && u <= t
    && id !in Run(map[], arrivals[..u])
    && Stored(Run(map[], arrivals[..t]), id) == Of(arrivals[u..t], id)
  }

  lemma SinceNow(arrivals: seq<Packet>, t: nat, id: int)
    requires t <= |arrivals| && id !in Run(map[], arrivals[..t])
    ensures Since(arrivals, t, t, id)
  {
    hide Run, Of;
    OfNone(arrivals[t..t], id);
  }

  lemma SinceNext(arrivals: seq<Packet>, u: nat, t: nat, id: int)
    requires t < |arrivals| && Since(arrivals, u, t, id)
    requires Belongs(arrivals[t], id) ==> id in Run(map[], arrivals[..t + 1])
    ensures Since(arrivals, u, t + 1, id)
  {
    hide Run, Of, Stored, Assemble, StepBuffers, Belongs;
    RunSnoc(map[], arrivals, t, id);
    OfNext(arrivals, u, t, id);
    StepStored(Run(map[], arrivals[..t]), arrivals[t], id);
  }

  lemma {:induction false} StoredSince(arrivals: seq<Packet>, t: nat, id: int) returns (u: nat)
    requires t <= |arrivals|
    ensures Since(arrivals, u, t, id)
    decreases t
  {
    if t == 0 {
      RunNone(arrivals);
      SinceNow(arrivals, 0, id);
      u := 0;
    } else {
      hide *;
      var before := StoredSince(arrivals, t - 1, id);
      if id in Run(map[], arrivals[..t]) || !Belongs(arrivals[t - 1], id) {
        SinceNext(arrivals, before, t - 1, id);
        u := before;
      } else {
        SinceNow(arrivals, t, id);
        u := t;
      }
    }
  }

  lemma RunNone(arrivals: seq<Packet>)
    ensures Run(map[], arrivals[..0]) == map[]
  {
  }

  ghost predicate NoEmptyFragment(arrivals: seq<Packet>, id: int)
  {
    forall p :: p in arrivals && Belongs(p, id) ==> p.payload != []
  }

  lemma {:induction false} OfNonEmpty(arrivals: seq<Packet>, id: int)
    requires NoEmptyFragment(arrivals, id)
    ensures NonEmpty(Of(arrivals, id))
  {
    if arrivals != [] {
      var n := |arrivals| - 1;
      assert forall p :: p in arrivals[..n] ==> p in arrivals;
      assert arrivals[n] in arrivals;
      OfNonEmpty(arrivals[..n], id);
    }
  }

  lemma SliceNonEmpty(arrivals: seq<Packet>, u: nat, t: nat, id: int)
    requires u <= t <= |arrivals| && NoEmptyFragment(arrivals, id)
    ensures NonEmpty(Of(arrivals[u..t], id))
  {
    hide Belongs, Of;
    assert forall p :: p in arrivals[u..t] ==> p in arrivals;
    OfNonEmpty(arrivals[u..t], id);
  }

  // Whatever arrives, as long as no fragment of the id is empty: bytes delivered from fragments are
  // those of all fragments that arrived under the id since its buffer was last empty, each used once,
  // in strictly increasing offset order and contiguous from 0, with a last fragment among them; and
  // the id leaves the buffer.
  lemma DeliverySound(arrivals: seq<Packet>, t: nat) returns (u: nat, order: seq<nat>)
    requires t < |arrivals| && arrivals[t].IsFragment() && NoEmptyFragment(arrivals, arrivals[t].id)
    requires OutcomeAt(map[], arrivals, t).Deliver?
    ensures u <= t && arrivals[t].id !in Run(map[], arrivals[..u])
    ensures var frags := Of(arrivals[u..t + 1], arrivals[t].id);
      && Tiles(frags, order)
      && HasLast(frags)
      && OutcomeAt(map[], arrivals, t) == Deliver(arrivals[t], Concat(frags, order))
      && forall j, k :: 0 <= j < k < |order| ==> frags[order[j]].fragOffset < frags[order[k]].fragOffset
    ensures arrivals[t].id !in Run(map[], arrivals[..t + 1])
  {
    var p := arrivals[t];
    assert Belongs(p, p.id);
    u := StoredSince(arrivals, t, p.id);
    hide *;
    OfNext(arrivals, u, t, p.id);
    SliceNonEmpty(arrivals, u, t + 1, p.id);
    RunSnoc(map[], arrivals, t, p.id);
    OutcomeIs(arrivals, t);
    order := StepSound(Run(map[], arrivals[..t]), p);
  }

  lemma OutcomeIs(arrivals: seq<Packet>, t: nat)
    requires t < |arrivals|
    ensures OutcomeAt(map[], arrivals, t) == StepOutcome(Run(map[], arrivals[..t]), arrivals[t])
  {
  }

  // A fragment two copies of which are stored blocks its id for good: no later arrival under that
  // id is ever delivered.
  lemma {:induction false} DuplicateBlocks(bufs: Buffers, arrivals: seq<Packet>, id: int, i: nat, j: nat)
    requires i < j < |Stored(bufs, id)| && Stored(bufs, id)[i].fragOffset == Stored(bufs, id)[j].fragOffset
    requires NonEmpty(Stored(bufs, id)) && NoEmptyFragment(arrivals, id)
    ensures Stored(bufs, id) <= Stored(Run(bufs, arrivals), id) && NonEmpty(Stored(Run(bufs, arrivals), id))
    ensures forall t :: 0 <= t < |arrivals| && Belongs(arrivals[t], id) ==> OutcomeAt(bufs, arrivals, t) == Nothing
  {
    hide Assemble;
    if arrivals != [] {
      var n := |arrivals| - 1;
      var before, p := arrivals[..n], arrivals[n];
      DuplicateBlocks(bufs, before, id, i, j);
      forall t | 0 <= t < n && Belongs(arrivals[t], id)
        ensures OutcomeAt(bufs, arrivals, t) == Nothing
      {
        assert before[..t] == arrivals[..t];
        assert OutcomeAt(bufs, before, t) == Nothing;
      }
      if Belongs(p, id) {
        var stored := Stored(Run(bufs, before), id);
        DuplicateIncomplete(stored + [p], i, j);
        assert arrivals[..n] == before;
      }
    }
  }

  lemma DuplicateIncomplete(frags: seq<Packet>, i: nat, j: nat)
    requires NonEmpty(frags) && i < j < |frags| && frags[i].fragOffset == frags[j].fragOffset
    ensures Assemble(frags).None?
  {
    if Assemble(frags).Some? {
      AssembleIff(frags);
      var order :| Tiles(frags, order);
      SameOffset(frags, order, i, j);
    }
  }

  lemma SameOffset(frags: seq<Packet>, order: seq<nat>, i: nat, j: nat)
    requires NonEmpty(frags) && Tiles(frags, order) && i < j < |frags|
    ensures frags[i].fragOffset != frags[j].fragOffset
  {
    OffsetsIncrease(frags, order);
    hide Contiguous, Concat, NonEmpty;
    assert i in order && j in order;
    var a :| 0 <= a < |order| && order[a] == i;
    var b :| 0 <= b < |order| && order[b] == j;
    if a < b {
      assert frags[order[a]].fragOffset < frags[order[b]].fragOffset;
    } else {
      assert a != b;
      assert frags[order[b]].fragOffset < frags[order[a]].fragOffset;
    }
  }

  // ---------- the round trip ----------

  ghost function Flatten(pieces: seq<seq<Byte>>): seq<Byte>
  {
    if pieces == [] then [] else Flatten(pieces[..|pieces| - 1]) + pieces[|pieces| - 1]
  }

  // Two or more non-empty pieces, all but the last a multiple of eight bytes (RFC 791 section 3.2).
  ghost predicate ValidSplit(pieces: seq<seq<Byte>>)
  {
    && |pieces| >= 2
    && (forall k :: 0 <= k < |pieces| ==> pieces[k] != [])
    && (forall k :: 0 <= k < |pieces| - 1 ==> |pieces[k]| % 8 == 0)
  }

  ghost function Piece(pieces: seq<seq<Byte>>, id: int, protocol: Protocol, k: nat): Packet
    requires k < |pieces|
  {
    Packet(id, k < |pieces| - 1, |Flatten(pieces[..k])| / 8, protocol, pieces[k])
  }

  lemma {:induction false} StartsAligned(pieces: seq<seq<Byte>>, k: nat)
    requires ValidSplit(pieces) && k < |pieces|
    ensures |Flatten(pieces[..k])| % 8 == 0
  {
    if k > 0 {
      StartsAligned(pieces, k - 1);
      assert pieces[..k][..k - 1] == pieces[..k - 1];
    }
  }

  lemma {:induction false} StartsIncrease(pieces: seq<seq<Byte>>, j: nat, k: nat)
    requires ValidSplit(pieces) && j < k <= |pieces|
    ensures |Flatten(pieces[..j])| < |Flatten(pieces[..k])|
  {
    assert pieces[..k][..k - 1] == pieces[..k - 1];
    if j < k - 1 {
      StartsIncrease(pieces, j, k - 1);
    }
  }

  // frags are the pieces named by perm, in that order.
  ghost predicate Received(frags: seq<Packet>, pieces: seq<seq<Byte>>, id: int, protocol: Protocol, perm: seq<nat>)
  {
    && |frags| == |perm|
    && InRange(perm, |pieces|)
    && Distinct(perm)
    && forall i :: 0 <= i < |perm| ==> frags[i] == Piece(pieces, id, protocol, perm[i])
  }

  lemma ContiguousAt(frags: seq<Packet>, order: seq<nat>, k: nat)
    requires InRange(order, |frags|) && Contiguous(frags, order) && k < |order|
    ensures frags[order[k]].fragOffset * 8 == |Concat(frags, order[..k])|
  {
  }

  // Entry m of the order names the position at which piece m arrived.
  ghost predicate InPieceOrder(perm: seq<nat>, order: seq<nat>)
    requires InRange(order, |perm|)
  {
    forall m :: 0 <= m < |order| ==> perm[order[m]] == m
  }

  lemma PieceOrderNext(perm: seq<nat>, order: seq<nat>, k: nat)
    requires InRange(order, |perm|) && 0 < k <= |order|
    requires InPieceOrder(perm, order[..k - 1]) && perm[order[k - 1]] == k - 1
    ensures InPieceOrder(perm, order[..k])
  {
    forall m | 0 <= m < k
      ensures perm[order[..k][m]] == m
    {
      if m < k - 1 {
        assert order[..k - 1][m] == order[m];
      }
    }
  }

  // In a contiguous order of received pieces the k-th one is piece k.
  lemma {:induction false} ContiguousIsPieceOrder(frags: seq<Packet>, pieces: seq<seq<Byte>>, id: int,
                                                  protocol: Protocol, perm: seq<nat>, order: seq<nat>, k: nat)
    requires ValidSplit(pieces) && Received(frags, pieces, id, protocol, perm)
    requires InRange(order, |frags|) && Contiguous(frags, order) && k <= |order|
    ensures k <= |pieces| && InPieceOrder(perm, order[..k])
    ensures Concat(frags, order[..k]) == Flatten(pieces[..k])
  {
    if k > 0 {
      ContiguousAt(frags, order, k - 1);
      ContiguousIsPieceOrder(frags, pieces, id, protocol, perm, order, k - 1);
      PieceAtStart(frags, pieces, id, protocol, perm, order[k - 1], k - 1);
      hide Concat, Flatten, Contiguous, Received, ValidSplit;
      PieceOrderNext(perm, order, k);
      ConcatSnoc(frags, order, k);
      FlattenSnoc(pieces, k);
    }
  }

  // The received piece that starts where piece k starts is piece k.
  lemma PieceAtStart(frags: seq<Packet>, pieces: seq<seq<Byte>>, id: int, protocol: Protocol, perm: seq<nat>,
                     i: nat, k: nat)
    requires ValidSplit(pieces) && Received(frags, pieces, id, protocol, perm)
    requires i < |frags| && k <= |pieces| && frags[i].fragOffset * 8 == |Flatten(pieces[..k])|
    ensures perm[i] == k && frags[i].payload == pieces[k]
  {
    hide Flatten;
    assert frags[i] == Piece(pieces, id, protocol, perm[i]);
    StartsAligned(pieces, perm[i]);
    SameStart(pieces, perm[i], k);
  }

  lemma ConcatSnoc(frags: seq<Packet>, order: seq<nat>, k: nat)
    requires InRange(order, |frags|) && 0 < k <= |order|
    ensures Concat(frags, order[..k]) == Concat(frags, order[..k - 1]) + frags[order[k - 1]].payload
  {
    assert order[..k][..k - 1] == order[..k - 1];
  }

  lemma FlattenSnoc(pieces: seq<seq<Byte>>, k: nat)
    requires 0 < k <= |pieces|
    ensures Flatten(pieces[..k]) == Flatten(pieces[..k - 1]) + pieces[k - 1]
  {
    assert pieces[..k][..k - 1] == pieces[..k - 1];
  }

  lemma SameStart(pieces: seq<seq<Byte>>, i: nat, j: nat)
    requires ValidSplit(pieces) && i <= |pieces| && j <= |pieces|
    requires |Flatten(pieces[..i])| == |Flatten(pieces[..j])|
    ensures i == j
  {
    if i < j { StartsIncrease(pieces, i, j); }
    if j < i { StartsIncrease(pieces, j, i); }
  }

  lemma OrderedPieceIndex(perm: seq<nat>, order: seq<nat>, i: nat)
    requires InRange(order, |perm|) && i in order
    requires InPieceOrder(perm, order)
    ensures i < |perm| && perm[i] < |order|
  {
  }

  // With a piece still missing nothing is delivered.
  lemma PartialYieldsNothing(frags: seq<Packet>, pieces: seq<seq<Byte>>, id: int, protocol: Protocol, perm: seq<nat>)
    requires ValidSplit(pieces) && Received(frags, pieces, id, protocol, perm) && |perm| < |pieces|
    ensures Assemble(frags).None?
  {
    ReceivedNonEmpty(frags, pieces, id, protocol, perm);
    if Assemble(frags).Some? {
      AssembleIff(frags);
      var order :| Tiles(frags, order);
      ContiguousIsPieceOrder(frags, pieces, id, protocol, perm, order, |order|);
      assert order[..|order|] == order;
      var f :| f in frags && f.IsLast();
      var i :| 0 <= i < |frags| && frags[i] == f;
      assert perm[i] == |pieces| - 1;
      OrderedPieceIndex(perm, order, i);
    }
  }

  lemma ReceivedNonEmpty(frags: seq<Packet>, pieces: seq<seq<Byte>>, id: int, protocol: Protocol, perm: seq<nat>)
    requires ValidSplit(pieces) && Received(frags, pieces, id, protocol, perm)
    ensures NonEmpty(frags)
  {
  }

  // With all pieces there, in any order of arrival, the original bytes come out.
  lemma CompleteYieldsPayload(frags: seq<Packet>, pieces: seq<seq<Byte>>, id: int, protocol: Protocol, perm: seq<nat>)
    requires ValidSplit(pieces) && Received(frags, pieces, id, protocol, perm) && |perm| == |pieces|
    ensures Assemble(frags) == Some(Flatten(pieces))
  {
    hide Concat, Flatten;
    var n := |pieces|;
    FullRange(perm, n);
    var order := Inverse(perm, n, n);
    OrderDistinct(perm, order, n);
    FullRange(order, n);
    InverseTiles(frags, pieces, id, protocol, perm, order);
    InverseConcat(frags, pieces, id, protocol, perm, order, n);
    assert order[..n] == order && pieces[..n] == pieces;
    LastReceived(frags, pieces, id, protocol, perm, order[n - 1]);
    ReceivedNonEmpty(frags, pieces, id, protocol, perm);
    AssembleIff(frags);
  }

  lemma LastReceived(frags: seq<Packet>, pieces: seq<seq<Byte>>, id: int, protocol: Protocol, perm: seq<nat>, i: nat)
    requires ValidSplit(pieces) && Received(frags, pieces, id, protocol, perm)
    requires i < |perm| && perm[i] == |pieces| - 1
    ensures HasLast(frags)
  {
    StartsAligned(pieces, |pieces| - 1);
    StartsIncrease(pieces, 0, |pieces| - 1);
    assert frags[i] in frags;
    assert frags[i].IsLast();
  }

  lemma InverseTiles(frags: seq<Packet>, pieces: seq<seq<Byte>>, id: int, protocol: Protocol,
                     perm: seq<nat>, order: seq<nat>)
    requires ValidSplit(pieces) && Received(frags, pieces, id, protocol, perm) && |perm| == |pieces|
    requires InRange(order, |pieces|) && IsPermutation(order, |pieces|)
    requires forall m :: 0 <= m < |order| ==> perm[order[m]] == m
    ensures Tiles(frags, order)
  {
    hide Concat, Flatten;
    assert InRange(order, |frags|) by {
      forall k | 0 <= k < |order| ensures order[k] < |frags| { assert order[k] in order; }
    }
    forall k | 0 <= k < |order|
      ensures frags[order[k]].fragOffset * 8 == |Concat(frags, order[..k])|
    {
      InverseConcat(frags, pieces, id, protocol, perm, order, k);
      StartsAligned(pieces, k);
      assert frags[order[k]] == Piece(pieces, id, protocol, perm[order[k]]);
    }
  }

  lemma {:induction false} Inverse(perm: seq<nat>, n: nat, k: nat) returns (order: seq<nat>)
    requires IsPermutation(perm, n) && k <= n
    ensures |order| == k && InRange(order, n)
    ensures forall m :: 0 <= m < k ==> perm[order[m]] == m
  {
    if k == 0 {
      order := [];
    } else {
      var rest := Inverse(perm, n, k - 1);
      assert k - 1 in perm;
      var i :| 0 <= i < n && perm[i] == k - 1;
      order := rest + [i];
    }
  }

  lemma OrderDistinct(perm: seq<nat>, order: seq<nat>, n: nat)
    requires |perm| == |order| == n && InRange(order, n)
    requires forall m :: 0 <= m < n ==> perm[order[m]] == m
    ensures Distinct(order)
  {
  }

  lemma {:induction false} InverseConcat(frags: seq<Packet>, pieces: seq<seq<Byte>>, id: int, protocol: Protocol,
                                         perm: seq<nat>, order: seq<nat>, k: nat)
    requires Received(frags, pieces, id, protocol, perm) && |perm| == |pieces| == |order|
    requires InRange(order, |pieces|) && forall m :: 0 <= m < |order| ==> perm[order[m]] == m
    requires k <= |order|
    ensures Concat(frags, order[..k]) == Flatten(pieces[..k])
  {
    if k > 0 {
      InverseConcat(frags, pieces, id, protocol, perm, order, k - 1);
      ConcatSnoc(frags, order, k);
      FlattenSnoc(pieces, k);
    }
  }

  lemma ReceivedPrefix(frags: seq<Packet>, pieces: seq<seq<Byte>>, id: int, protocol: Protocol, perm: seq<nat>, m: nat)
    requires Received(frags, pieces, id, protocol, perm) && m <= |perm|
    ensures Received(frags[..m], pieces, id, protocol, perm[..m])
  {
  }

  lemma {:induction false} OfPrefix(arrivals: seq<Packet>, id: int, t: nat)
    requires t <= |arrivals|
    ensures Of(arrivals[..t], id) <= Of(arrivals, id)
  {
    if t < |arrivals| {
      var n := |arrivals| - 1;
      OfPrefix(arrivals[..n], id, t);
      assert arrivals[..n][..t] == arrivals[..t];
    } else {
      assert arrivals[..t] == arrivals;
    }
  }

  lemma StepHolds(bufs: Buffers, p: Packet, id: int)
    requires Belongs(p, id) ==> Assemble(Stored(bufs, id) + [p]).None?
    ensures Stored(StepBuffers(bufs, p), id) == if Belongs(p, id) then Stored(bufs, id) + [p] else Stored(bufs, id)
  {
    hide Assemble;
  }

  lemma PrefixYieldsNothing(arrivals: seq<Packet>, id: int, pieces: seq<seq<Byte>>, protocol: Protocol, perm: seq<nat>,
                            t: nat)
    requires ValidSplit(pieces) && t <= |arrivals|
    requires Received(Of(arrivals, id), pieces, id, protocol, perm) && |perm| == |pieces|
    requires |Of(arrivals[..t], id)| < |pieces|
    ensures Assemble(Of(arrivals[..t], id)).None?
  {
    ReceivedAll(Of(arrivals, id), pieces, id, protocol, perm);
    hide *;
    OfPrefix(arrivals, id, t);
    var m := |Of(arrivals[..t], id)|;
    ReceivedPrefix(Of(arrivals, id), pieces, id, protocol, perm, m);
    assert Of(arrivals, id)[..m] == Of(arrivals[..t], id);
    PartialYieldsNothing(Of(arrivals[..t], id), pieces, id, protocol, perm[..m]);
  }

  lemma ReceivedAll(frags: seq<Packet>, pieces: seq<seq<Byte>>, id: int, protocol: Protocol, perm: seq<nat>)
    requires Received(frags, pieces, id, protocol, perm)
    ensures |frags| == |perm|
  {
  }

  // While pieces are missing the buffer holds exactly the fragments that came, whatever else arrives.
  lemma {:induction false} BufferHoldsArrived(bufs: Buffers, arrivals: seq<Packet>, id: int, pieces: seq<seq<Byte>>,
                                              protocol: Protocol, perm: seq<nat>, t: nat)
    requires id !in bufs && ValidSplit(pieces) && t <= |arrivals|
    requires Received(Of(arrivals, id), pieces, id, protocol, perm) && |perm| == |pieces|
    requires |Of(arrivals[..t], id)| < |pieces|
    ensures Stored(Run(bufs, arrivals[..t]), id) == Of(arrivals[..t], id)
    decreases t
  {
    if t > 0 {
      hide *;
      RunSnoc(bufs, arrivals, t - 1, id);
      BufferHoldsArrived(bufs, arrivals, id, pieces, protocol, perm, t - 1);
      PrefixYieldsNothing(arrivals, id, pieces, protocol, perm, t);
      StepHolds(Run(bufs, arrivals[..t - 1]), arrivals[t - 1], id);
    }
  }

  // A payload split as RFC 791 section 3.2 prescribes, each piece arriving once in any order and
  // interleaved with any other packets: every arrival but the last of its pieces yields nothing,
  // the last one delivers exactly the original bytes, or nothing if they are neither UDP nor TCP, and
  // frees the identification.
  lemma RoundTrip(bufs: Buffers, arrivals: seq<Packet>, id: int, pieces: seq<seq<Byte>>, protocol: Protocol,
                  perm: seq<nat>, t: nat)
    requires id !in bufs && ValidSplit(pieces)
    requires Received(Of(arrivals, id), pieces, id, protocol, perm) && |perm| == |pieces|
    requires t < |arrivals| && Belongs(arrivals[t], id)
    ensures |Of(arrivals[..t + 1], id)| < |pieces| ==> OutcomeAt(bufs, arrivals, t) == Nothing
    ensures |Of(arrivals[..t + 1], id)| == |pieces| ==>
      && OutcomeAt(bufs, arrivals, t)
        == (if protocol == OtherProtocol then Nothing else Deliver(arrivals[t], Flatten(pieces)))
      && id !in Run(bufs, arrivals[..t + 1])
    ensures |Of(arrivals[..t + 1], id)| <= |pieces|
  {
    hide Of, Run, Flatten, Assemble;
    RunSnoc(bufs, arrivals, t, id);
    OfPrefix(arrivals, id, t + 1);
    BufferHoldsArrived(bufs, arrivals, id, pieces, protocol, perm, t);
    var now := Of(arrivals[..t + 1], id);
    var m := |now|;
    ReceivedPrefix(Of(arrivals, id), pieces, id, protocol, perm, m);
    assert Of(arrivals, id)[..m] == now;
    assert now == Stored(Run(bufs, arrivals[..t]), id) + [arrivals[t]];
    if m < |pieces| {
      PartialYieldsNothing(now, pieces, id, protocol, perm[..m]);
    } else {
      assert perm[..m] == perm;
      CompleteYieldsPayload(now, pieces, id, protocol, perm);
      OfProtocol(arrivals, id, pieces, protocol, perm, t);
    }
  }

  lemma OfProtocol(arrivals: seq<Packet>, id: int, pieces: seq<seq<Byte>>, protocol: Protocol, perm: seq<nat>, t: nat)
    requires Received(Of(arrivals, id), pieces, id, protocol, perm)
    requires t < |arrivals| && Belongs(arrivals[t], id)
    ensures arrivals[t].protocol == protocol
  {
    OfPrefix(arrivals, id, t + 1);
    RunSnoc(map[], arrivals, t, id);
    var i := |Of(arrivals[..t], id)|;
    assert Of(arrivals[..t + 1], id)[i] == arrivals[t];
    assert Of(arrivals, id)[i] == arrivals[t];
  }

  // Once its last piece has been delivered the identification stays free.
  lemma {:induction false} FreedAfterwards(bufs: Buffers, arrivals: seq<Packet>, id: int, pieces: seq<seq<Byte>>,
                                           protocol: Protocol, perm: seq<nat>, t: nat)
    requires id !in bufs && ValidSplit(pieces) && t <= |arrivals|
    requires Received(Of(arrivals, id), pieces, id, protocol, perm) && |perm| == |pieces|
    requires |Of(arrivals[..t], id)| == |pieces|
    ensures id !in Run(bufs, arrivals[..t])
  {
    if t > 0 {
      hide Of, Run, Assemble, Flatten;
      RunSnoc(bufs, arrivals, t - 1, id);
      if Belongs(arrivals[t - 1], id) {
        RoundTrip(bufs, arrivals, id, pieces, protocol, perm, t - 1);
      } else {
        FreedAfterwards(bufs, arrivals, id, pieces, protocol, perm, t - 1);
      }
    }
  }

  // ---------- repeated pieces ----------

  // Every fragment is a copy of some piece, and pieces may be repeated or missing.
  ghost predicate Copies(frags: seq<Packet>, pieces: seq<seq<Byte>>, id: int, protocol: Protocol, perm: seq<nat>)
  {
    && |frags| == |perm|
    && InRange(perm, |pieces|)
    && forall i :: 0 <= i < |perm| ==> frags[i] == Piece(pieces, id, protocol, perm[i])
  }

  // As many fragments as there are pieces came before any piece was repeated.
  ghost predicate AllBeforeRepeat(perm: seq<nat>, n: nat)
  {
    |perm| >= n && Distinct(perm[..n])
  }

  lemma CopiesNonEmpty(frags: seq<Packet>, pieces: seq<seq<Byte>>, id: int, protocol: Protocol, perm: seq<nat>)
    requires ValidSplit(pieces) && Copies(frags, pieces, id, protocol, perm)
    ensures NonEmpty(frags)
  {
  }

  lemma CopiesIncomplete(frags: seq<Packet>, pieces: seq<seq<Byte>>, id: int, protocol: Protocol, perm: seq<nat>)
    requires ValidSplit(pieces) && Copies(frags, pieces, id, protocol, perm) && !AllBeforeRepeat(perm, |pieces|)
    ensures Assemble(frags).None?
  {
    CopiesNonEmpty(frags, pieces, id, protocol, perm);
    hide Assemble, NonEmpty, ValidSplit, Flatten;
    if Distinct(perm) {
      PartialYieldsNothing(frags, pieces, id, protocol, perm);
    } else {
      var i, j :| 0 <= i < j < |perm| && perm[i] == perm[j];
      DuplicateIncomplete(frags, i, j);
    }
  }

  lemma CopiesPrefix(arrivals: seq<Packet>, id: int, pieces: seq<seq<Byte>>, protocol: Protocol, perm: seq<nat>, t: nat)
    requires t <= |arrivals| && Copies(Of(arrivals, id), pieces, id, protocol, perm)
    ensures var m := |Of(arrivals[..t], id)|;
      m <= |perm| && Of(arrivals[..t], id) == Of(arrivals, id)[..m]
      && Copies(Of(arrivals[..t], id), pieces, id, protocol, perm[..m])
  {
    OfPrefix(arrivals, id, t);
    hide Of, Piece;
  }

  lemma NothingStored(id: int)
    ensures Stored(map[], id) == []
  {
  }

  // As long as a piece is repeated before all have come, the buffer only grows.
  lemma {:induction false} NeverFreed(arrivals: seq<Packet>, id: int, pieces: seq<seq<Byte>>, protocol: Protocol,
                                      perm: seq<nat>, t: nat)
    requires ValidSplit(pieces) && t <= |arrivals| && Copies(Of(arrivals, id), pieces, id, protocol, perm)
    requires !AllBeforeRepeat(perm, |pieces|)
    ensures Stored(Run(map[], arrivals[..t]), id) == Of(arrivals[..t], id)
    ensures Assemble(Of(arrivals[..t], id)).None?
    decreases t
  {
    CopiesPrefix(arrivals, id, pieces, protocol, perm, t);
    RepeatPrefix(perm, |Of(arrivals[..t], id)|, |pieces|);
    hide *;
    CopiesIncomplete(Of(arrivals[..t], id), pieces, id, protocol, perm[..|Of(arrivals[..t], id)|]);
    if t == 0 {
      RunNone(arrivals);
      NothingStored(id);
      OfNone(arrivals[..0], id);
    } else {
      NeverFreed(arrivals, id, pieces, protocol, perm, t - 1);
      RunSnoc(map[], arrivals, t - 1, id);
      StepHolds(Run(map[], arrivals[..t - 1]), arrivals[t - 1], id);
    }
  }

  lemma RepeatPrefix(perm: seq<nat>, m: nat, n: nat)
    requires m <= |perm| && !AllBeforeRepeat(perm, n)
    ensures !AllBeforeRepeat(perm[..m], n)
  {
    assert m >= n ==> perm[..m][..n] == perm[..n];
  }

  lemma {:induction false} NthArrival(arrivals: seq<Packet>, id: int, n: nat) returns (t: nat)
    requires 1 <= n <= |Of(arrivals, id)|
    ensures t < |arrivals| && Belongs(arrivals[t], id) && |Of(arrivals[..t + 1], id)| == n
    decreases |arrivals|
  {
    var last := |arrivals| - 1;
    hide Belongs;
    if n == |Of(arrivals, id)| && Belongs(arrivals[last], id) {
      t := last;
      assert arrivals[..last + 1] == arrivals;
    } else {
      t := NthArrival(arrivals[..last], id, n);
      assert arrivals[..last][..t + 1] == arrivals[..t + 1];
    }
  }

  ghost predicate DeliveredAt(arrivals: seq<Packet>, id: int, t: nat)
  {
    t < |arrivals| && Belongs(arrivals[t], id) && OutcomeAt(map[], arrivals, t) != Nothing
  }

  // The pieces of one datagram arrive in any order, any of them any number of times, among any other
  // packets: something is delivered under the identification exactly when all pieces come before any
  // of them is repeated. The first delivery is then the payload.
  lemma DeliveredIff(arrivals: seq<Packet>, id: int, pieces: seq<seq<Byte>>, protocol: Protocol, perm: seq<nat>)
    requires ValidSplit(pieces) && protocol != OtherProtocol
    requires Copies(Of(arrivals, id), pieces, id, protocol, perm)
    ensures (exists t: nat :: DeliveredAt(arrivals, id, t)) <==> AllBeforeRepeat(perm, |pieces|)
    ensures AllBeforeRepeat(perm, |pieces|) ==>
      exists t: nat :: DeliveredAt(arrivals, id, t)
                       && OutcomeAt(map[], arrivals, t) == Deliver(arrivals[t], Flatten(pieces))
  {
    if AllBeforeRepeat(perm, |pieces|) {
      var t := PayloadDelivered(arrivals, id, pieces, protocol, perm);
    } else {
      hide Copies, ValidSplit, AllBeforeRepeat;
      forall t: nat ensures !DeliveredAt(arrivals, id, t) {
        NotDelivered(arrivals, id, pieces, protocol, perm, t);
      }
    }
  }

  lemma NotDelivered(arrivals: seq<Packet>, id: int, pieces: seq<seq<Byte>>, protocol: Protocol, perm: seq<nat>, t: nat)
    requires ValidSplit(pieces) && Copies(Of(arrivals, id), pieces, id, protocol, perm)
    requires !AllBeforeRepeat(perm, |pieces|)
    ensures !DeliveredAt(arrivals, id, t)
  {
    hide Of, Run, Assemble, ValidSplit, Copies, AllBeforeRepeat;
    if t < |arrivals| && Belongs(arrivals[t], id) {
      NeverFreed(arrivals, id, pieces, protocol, perm, t);
      NeverFreed(arrivals, id, pieces, protocol, perm, t + 1);
      RunSnoc(map[], arrivals, t, id);
    }
  }

  lemma PayloadDelivered(arrivals: seq<Packet>, id: int, pieces: seq<seq<Byte>>, protocol: Protocol, perm: seq<nat>)
    returns (t: nat)
    requires ValidSplit(pieces) && protocol != OtherProtocol
    requires Copies(Of(arrivals, id), pieces, id, protocol, perm) && AllBeforeRepeat(perm, |pieces|)
    ensures DeliveredAt(arrivals, id, t) && OutcomeAt(map[], arrivals, t) == Deliver(arrivals[t], Flatten(pieces))
  {
    var n := |pieces|;
    t := NthArrival(arrivals, id, n);
    CopiesPrefix(arrivals, id, pieces, protocol, perm, t + 1);
    var part := arrivals[..t + 1];
    hide Of, Run, Assemble, Flatten, Piece;
    assert part[..t] == arrivals[..t] && part[..t + 1] == part;
    assert Received(Of(part, id), pieces, id, protocol, perm[..n]);
    RoundTrip(map[], part, id, pieces, protocol, perm[..n], t);
  }

  ghost function CopiesOf(pieces: seq<seq<Byte>>, id: int, protocol: Protocol, perm: seq<nat>): (frags: seq<Packet>)
    requires InRange(perm, |pieces|)
    ensures |frags| == |perm|
    ensures forall i :: 0 <= i < |frags| ==> frags[i] == Piece(pieces, id, protocol, perm[i])
  {
    seq(|perm|, i requires 0 <= i < |perm| => Piece(pieces, id, protocol, perm[i]))
  }

  lemma CopiesOfAre(pieces: seq<seq<Byte>>, id: int, protocol: Protocol, perm: seq<nat>)
    requires ValidSplit(pieces) && InRange(perm, |pieces|)
    ensures var arrivals := CopiesOf(pieces, id, protocol, perm);
      && (forall t :: 0 <= t < |arrivals| ==> Belongs(arrivals[t], id))
      && Copies(Of(arrivals, id), pieces, id, protocol, perm)
  {
    var arrivals := CopiesOf(pieces, id, protocol, perm);
    hide Piece, Of, ValidSplit, Belongs;
    forall t | 0 <= t < |arrivals| ensures Belongs(arrivals[t], id) {
      PieceIsFragment(pieces, id, protocol, perm[t]);
    }
    OfAll(arrivals, id);
  }

  // The numbers below n in order, the first one twice.
  function FirstTwice(n: nat): (perm: seq<nat>)
    requires n >= 2
    ensures |perm| == n + 1 && perm[0] == 0 && forall k :: 1 <= k <= n ==> perm[k] == k - 1
  {
    seq(n + 1, i => if i == 0 then 0 else i - 1)
  }

  lemma FirstTwiceRepeats(n: nat)
    requires n >= 2
    ensures InRange(FirstTwice(n), n) && !AllBeforeRepeat(FirstTwice(n), n)
  {
    var perm := FirstTwice(n);
    assert perm[..n][0] == perm[..n][1];
  }

  // Every piece arrives, the first one twice in the beginning: nothing is ever delivered.
  lemma RepeatedFirstPiece(pieces: seq<seq<Byte>>, id: int, protocol: Protocol)
    requires ValidSplit(pieces)
    ensures |pieces| >= 2 && InRange(FirstTwice(|pieces|), |pieces|)
    ensures var arrivals := CopiesOf(pieces, id, protocol, FirstTwice(|pieces|));
      && (forall t :: 0 <= t < |arrivals| ==> Belongs(arrivals[t], id))
      && (forall t :: 0 <= t < |arrivals| ==> OutcomeAt(map[], arrivals, t) == Nothing)
  {
    var perm := FirstTwice(|pieces|);
    FirstTwiceRepeats(|pieces|);
    CopiesOfAre(pieces, id, protocol, perm);
    var arrivals := CopiesOf(pieces, id, protocol, perm);
    hide ValidSplit, Copies, Of, AllBeforeRepeat, OutcomeAt, Belongs;
    forall t | 0 <= t < |arrivals| ensures OutcomeAt(map[], arrivals, t) == Nothing {
      NotDelivered(arrivals, id, pieces, protocol, perm, t);
    }
  }

  lemma PieceIsFragment(pieces: seq<seq<Byte>>, id: int, protocol: Protocol, k: nat)
    requires ValidSplit(pieces) && k < |pieces|
    ensures Belongs(Piece(pieces, id, protocol, k), id)
  {
    if k == |pieces| - 1 {
      StartsAligned(pieces, k);
      StartsIncrease(pieces, 0, k);
    }
  }

  lemma {:induction false} OfAll(arrivals: seq<Packet>, id: int)
    requires forall t :: 0 <= t < |arrivals| ==> Belongs(arrivals[t], id)
    ensures Of(arrivals, id) == arrivals
  {
    if arrivals != [] {
      OfAll(arrivals[..|arrivals| - 1], id);
    }
  }

  // ---------- empty fragments ----------

  function Again(i: nat, m: nat): seq<nat>
  {
    if m == 0 then [] else Again(i, m - 1) + [i]
  }

  // The scan has picked `order` and the next fragment it finds is an empty one.
  ghost predicate ReachesEmpty(frags: seq<Packet>, order: seq<nat>, i: nat)
  {
    && InRange(order, |frags|) && |order| < |frags| && Picks(frags, |order|) == Some(order)
    && i == Match(frags, |Concat(frags, order)|) < |frags| && frags[i].payload == []
  }

  lemma PicksNext(frags: seq<Packet>, order: seq<nat>, i: nat)
    requires InRange(order, |frags|) && Picks(frags, |order|) == Some(order)
    requires i == Match(frags, |Concat(frags, order)|) < |frags|
    ensures Picks(frags, |order| + 1) == Some(order + [i])
  {
    hide Match, Concat;
  }

  // The scan never gets past an empty fragment: it picks it in every further round.
  lemma {:induction false} EmptyPicked(frags: seq<Packet>, order: seq<nat>, i: nat, m: nat)
    requires ReachesEmpty(frags, order, i)
    ensures InRange(order, |frags|) && |Again(i, m)| == m && InRange(order + Again(i, m), |frags|)
    ensures Picks(frags, |order| + m) == Some(order + Again(i, m))
    ensures Concat(frags, order + Again(i, m)) == Concat(frags, order)
    ensures LastScanned(frags, order + Again(i, m)) <==>
      LastScanned(frags, order) || (m > 0 && LastBelow(frags, i + 1))
  {
    hide Match, Concat, Picks, LastScanned, LastBelow;
    if m == 0 {
      assert order + [] == order;
    } else {
      EmptyPicked(frags, order, i, m - 1);
      var longer := order + Again(i, m - 1);
      assert order + Again(i, m) == longer + [i];
      PicksNext(frags, longer, i);
      ConcatNext(frags, longer, i);
      LastScannedSnoc(frags, longer, i);
    }
  }

  // So what was gathered before is delivered, if a last fragment has been looked at by then.
  lemma EmptyDelivers(frags: seq<Packet>, order: seq<nat>, i: nat)
    requires ReachesEmpty(frags, order, i)
    ensures InRange(order, |frags|)
    ensures Assemble(frags) ==
      if LastScanned(frags, order) || LastBelow(frags, i + 1) then Some(Concat(frags, order)) else None
  {
    hide *;
    ReachedShort(frags, order, i);
    var m := |frags| - |order|;
    EmptyPicked(frags, order, i, m);
    var all := order + Again(i, m);
    assert |order| + m == |frags|;
    AssembleIs(frags, all);
  }

  lemma ReachedShort(frags: seq<Packet>, order: seq<nat>, i: nat)
    requires ReachesEmpty(frags, order, i)
    ensures InRange(order, |frags|) && |order| < |frags|
  {
    hide Picks, Match, Concat, InRange;
  }

  lemma AssembleIs(frags: seq<Packet>, order: seq<nat>)
    requires InRange(order, |frags|) && Picks(frags, |frags|) == Some(order)
    ensures Assemble(frags) == if LastScanned(frags, order) then Some(Concat(frags, order)) else None
  {
    hide Picks, LastScanned, Concat;
  }

  // A last fragment and then an empty one at offset 0: an empty payload is delivered, although the
  // bytes before the last fragment are missing.
  lemma EmptyExample(a: Packet, b: Packet)
    requires a.IsLast() && b.IsFragment() && a.id == b.id && b.fragOffset == 0 && b.payload == []
    requires b.protocol != OtherProtocol
    ensures OutcomeAt(map[], [a, b], 0) == Nothing && OutcomeAt(map[], [a, b], 1) == Deliver(b, [])
  {
    AloneIncomplete(a);
    EmptySecond(a, b);
    hide Assemble;
    assert [a, b][..0] == [] && [a, b][..1] == [a] && [a][..0] == [];
    assert Run(map[], []) == map[];
    assert Stored(map[], a.id) + [a] == [a];
    assert Run(map[], [a]) == map[a.id := [a]];
    assert Stored(map[a.id := [a]], a.id) + [b] == [a, b];
  }

  lemma AloneIncomplete(a: Packet)
    requires a.IsLast()
    ensures Assemble([a]).None?
  {
    assert Match([a], 0) == 1;
    assert Picks([a], 0) == Some([]);
  }

  lemma EmptySecond(a: Packet, b: Packet)
    requires a.IsLast() && b.fragOffset == 0 && b.payload == []
    ensures Assemble([a, b]) == Some([])
  {
    var frags := [a, b];
    assert frags[1..] == [b];
    assert Match(frags, 0) == 1;
    assert frags[0].IsLast();
    assert LastBelow(frags, 2);
    assert ReachesEmpty(frags, [], 1);
    EmptyDelivers(frags, [], 1);
  }
}
