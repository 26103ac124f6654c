// The address generator of the TCP and UDP scanners: walks the permuter over a network of
// 2^hostsize addresses, including the /0 scan whose arithmetic overflows.
module GenIps {
  import opened Arith
  import Lcg

  // netip + uint32(val), on 32-bit unsigned registers.
  function Address(netip: int, val: int): (a: int)
    ensures 0 <= a < TWO_32 && a == (netip + val) % TWO_32
  {
    (netip + val % TWO_32) % TWO_32
  }

  // An address of the network of `size` addresses that starts at netip, past 255.255.255.255 from 0 on.
  predicate InNetwork(netip: int, size: int, a: int)
  {
    0 <= a < TWO_32 && (a - netip) % TWO_32 < size
  }

  lemma NetworkAddress(netip: int, size: int, i: int)
    requires 0 <= netip < TWO_32 && 0 <= i < size <= TWO_32
    ensures InNetwork(netip, size, Address(netip, i)) && (Address(netip, i) - netip) % TWO_32 == i
  {
  }

  lemma NetworkOffset(netip: int, a: int)
    requires 0 <= netip < TWO_32 && 0 <= a < TWO_32
    ensures Address(netip, (a - netip) % TWO_32) == a
  {
  }

  // Where the network does not wrap around it is the interval from netip on.
  lemma NetworkInterval(netip: int, size: int, a: int)
    requires 0 <= netip && netip + size <= TWO_32 && size >= 1
    ensures InNetwork(netip, size, a) <==> netip <= a < netip + size
  {
  }

  // Different offsets below 2^32 give different addresses.
  lemma AddressInjective(netip: int, x: int, y: int)
    requires 0 <= netip < TWO_32 && 0 <= x < TWO_32 && 0 <= y < TWO_32
    ensures Address(netip, x) == Address(netip, y) ==> x == y
  {
  }

  // Truncated to 32 bits, every value drawn for a network of 2^h addresses is its residue modulo
  // 2^h; for h = 32 the value itself can be negative.
  lemma DrawnOffset(h: nat, r1: int, r2: int, i: nat)
    requires h <= 32 && 0 <= r1 < Pow2(h) && 0 <= r2 < Pow2(h) && i < Pow2(h) <= TWO_32
    ensures var out := Lcg.Outputs(Lcg.InitParams(Pow2(h), r2), r1, Pow2(h));
      |out| == Pow2(h) && out[i] % TWO_32 == out[i] % Pow2(h)
  {
    hide Pow2;
    Pow2Values();
    var stop := Pow2(h);
    var p := Lcg.InitParams(stop, r2);
    Lcg.PowerOfTwoResidues(h, r1, r2);
    if h <= 31 {
      Pow2Monotone(h, 31);
      Lcg.NothingSkipped(p, r1, stop);
      Lcg.SmallOrbit(stop, r1, r2, i);
      Lcg.OrbitBounds(p, r1, i);
      var v := Lcg.Outputs(p, r1, stop)[i];
      SmallMod(v, stop);
      SmallMod(v, TWO_32);
    }
  }

  // The draws as offsets into the network: every offset below 2^h, each once.
  lemma DrawsPermute(h: nat, r1: int, r2: int) returns (offsets: seq<int>)
    requires h <= 32 && 0 <= r1 < Pow2(h) && 0 <= r2 < Pow2(h) <= TWO_32
    ensures var out := Lcg.Outputs(Lcg.InitParams(Pow2(h), r2), r1, Pow2(h));
      |out| == |offsets| && forall i :: 0 <= i < |out| ==> out[i] % TWO_32 == offsets[i]
    ensures IsPermutation(offsets, Pow2(h))
  {
    hide Pow2, Lcg.Outputs;
    var out := Lcg.Outputs(Lcg.InitParams(Pow2(h), r2), r1, Pow2(h));
    Lcg.PowerOfTwoResidues(h, r1, r2);
    offsets := seq(|out|, i requires 0 <= i < |out| => out[i] % Pow2(h));
    forall i | 0 <= i < |out|
      ensures out[i] % TWO_32 == offsets[i]
    {
      DrawnOffset(h, r1, r2, i);
    }
  }

  lemma HostRange(h: nat)
    requires h <= 32
    ensures Pow2(h) <= TWO_32 <= TWO_62
  {
    Pow2Values();
    Pow2Monotone(h, 32);
  }

  // r1 and r2 are the generator's random draws; the stop channel is seen closed after stopAfter sends.
  method Generate(netip: int, hostsize: nat, r1: int, r2: int, stopAfter: nat) returns (sent: seq<int>)
    requires 0 <= netip < TWO_32 && hostsize <= 32
    requires 0 <= r1 < Pow2(hostsize) && 0 <= r2 < Pow2(hostsize)
    // no address twice, none outside the network
    ensures Distinct(sent)
    ensures forall a :: a in sent ==> 0 <= a < TWO_32 && (a - netip) % TWO_32 < Pow2(hostsize)
    ensures |sent| == if stopAfter < Pow2(hostsize) then stopAfter else Pow2(hostsize)
    // an undisturbed run reaches exactly the addresses of the network
    ensures stopAfter >= Pow2(hostsize) ==>
      forall a :: a in sent <==> 0 <= a < TWO_32 && (a - netip) % TWO_32 < Pow2(hostsize)
    ensures stopAfter >= Pow2(hostsize) && netip + Pow2(hostsize) <= TWO_32 ==>
      forall a :: a in sent <==> netip <= a < netip + Pow2(hostsize)
    // the k-th address sent is the k-th draw after netip, on 32 bits
    ensures Pow2(hostsize) <= TWO_62
    ensures var draws := Lcg.Outputs(Lcg.InitParams(Pow2(hostsize), r2), r1, Pow2(hostsize));
      |sent| <= |draws| && forall k :: 0 <= k < |sent| ==> sent[k] == (netip + draws[k]) % TWO_32
  {
    hide Pow2, Lcg.Outputs, Lcg.Orbit;
    HostRange(hostsize);
    ghost var size := Pow2(hostsize);
    var g := new Lcg.Generator(Pow2(hostsize), r1, r2);
    ghost var p := g.P();
    Lcg.PowerOfTwoResidues(hostsize, r1, r2);
    assert forall n: nat :: |Lcg.Outputs(p, r1, n)| == n;
    ghost var offsets := DrawsPermute(hostsize, r1, r2);
    ghost var out := Lcg.Outputs(p, r1, size);
    sent := [];
    assert Lcg.Outputs(p, r1, 0) == [] by { assert |Lcg.Outputs(p, r1, 0)| == 0; }
    var more := g.HasNext();
    while more
      invariant g.Valid() && g.P() == p && g.seed == r1 && fresh(g)
      invariant more <==> |Lcg.Outputs(p, r1, g.pos)| < size
      invariant g.pos == |sent| <= size && |sent| <= stopAfter
      invariant forall i :: 0 <= i < |sent| ==> sent[i] == Address(netip, out[i])
      decreases size - |sent|
    {
      if |sent| == stopAfter {
        break;
      }
      var val := g.Next();
      assert Lcg.Outputs(p, r1, g.pos) <= out by {
        Lcg.OutputsGrow(p, r1, g.pos, size);
      }
      assert val == Lcg.Outputs(p, r1, g.pos)[|sent|] == out[|sent|];
      sent := sent + [Address(netip, val)];
      more := g.HasNext();
    }
    SentOffsets(netip, out, offsets, sent);
    if netip + size <= TWO_32 {
      forall a ensures InNetwork(netip, size, a) <==> netip <= a < netip + size {
        NetworkInterval(netip, size, a);
      }
    }
  }

  lemma SentOffsets(netip: int, out: seq<int>, offsets: seq<int>, sent: seq<int>)
    requires 0 <= netip < TWO_32 && |sent| <= |out| == |offsets| <= TWO_32
    requires IsPermutation(offsets, |offsets|)
    requires forall i :: 0 <= i < |out| ==> out[i] % TWO_32 == offsets[i]
    requires forall i :: 0 <= i < |sent| ==> sent[i] == Address(netip, out[i])
    ensures Distinct(sent)
    ensures forall a :: a in sent ==> InNetwork(netip, |out|, a)
    ensures |sent| == |out| ==> forall a :: a in sent <==> InNetwork(netip, |out|, a)
  {
    hide InNetwork;
    forall i | 0 <= i < |sent|
      ensures offsets[i] in offsets && sent[i] == Address(netip, offsets[i]) && InNetwork(netip, |out|, sent[i])
    {
      assert offsets[i] in offsets;
      SmallMod(offsets[i], TWO_32);
      NetworkAddress(netip, |out|, offsets[i]);
    }
    forall i, j | 0 <= i < j < |sent|
      ensures sent[i] != sent[j]
    {
      AddressInjective(netip, offsets[i], offsets[j]);
    }
    if |sent| == |out| {
      forall a | InNetwork(netip, |out|, a)
        ensures a in sent
      {
        OffsetSent(netip, offsets, sent, a);
      }
    }
  }

  lemma OffsetSent(netip: int, offsets: seq<int>, sent: seq<int>, a: int)
    requires 0 <= netip < TWO_32 && |sent| == |offsets| <= TWO_32 && IsPermutation(offsets, |offsets|)
    requires forall i :: 0 <= i < |sent| ==> sent[i] == Address(netip, offsets[i])
    requires InNetwork(netip, |offsets|, a)
    ensures a in sent
  {
    var i := (a - netip) % TWO_32;
    NetworkOffset(netip, a);
    assert i in offsets;
    var j :| 0 <= j < |offsets| && offsets[j] == i;
    assert sent[j] == a;
  }
}
