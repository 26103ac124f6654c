// Powers of two, divisibility by them, and the machine arithmetic of a 64-bit signed integer.
module Arith {

  function Pow2(n: nat): (r: int)
    ensures r >= 1
  {
    if n == 0 then 1 else 2 * Pow2(n - 1)
  }

  lemma {:induction false} Pow2Monotone(m: nat, n: nat)
    requires m <= n
    ensures Pow2(m) <= Pow2(n)
  {
    if m < n {
      Pow2Monotone(m, n - 1);
    }
  }

  lemma {:induction false} Pow2Add(m: nat, n: nat)
    ensures Pow2(m + n) == Pow2(m) * Pow2(n)
  {
    if m != 0 {
      Pow2Add(m - 1, n);
      assert Pow2(m + n) == 2 * Pow2(m - 1 + n);
    }
  }

  const TWO_31 := 0x8000_0000
  const TWO_32 := 0x1_0000_0000
  const TWO_61 := 0x2000_0000_0000_0000
  const TWO_62 := 0x4000_0000_0000_0000
  const TWO_63 := 0x8000_0000_0000_0000
  const TWO_64 := 0x1_0000_0000_0000_0000

  lemma {:induction false} Pow2Values()
    ensures Pow2(31) == TWO_31 && Pow2(32) == TWO_32
    ensures Pow2(61) == TWO_61 && Pow2(62) == TWO_62 && Pow2(64) == TWO_64
  {
    assert Pow2(8) == 0x100;
    Pow2Add(8, 8);
    Pow2Add(16, 16);
    Pow2Add(16, 8);
    Pow2Add(24, 7);
    assert Pow2(7) == 0x80;
    Pow2Add(32, 24);
    assert Pow2(5) == 0x20 && Pow2(6) == 0x40;
    Pow2Add(56, 5);
    Pow2Add(56, 6);
    Pow2Add(32, 32);
  }

  // The exponent of the least power of two that is at least n.
  function CeilLog2(n: nat): (k: nat)
    requires n >= 1
    ensures n <= Pow2(k)
    ensures k > 0 ==> Pow2(k - 1) < n
  {
    if n == 1 then 0 else 1 + CeilLog2((n + 1) / 2)
  }

  // ---------- divisibility by a power of two, one bit at a time ----------

  predicate Div2(k: nat, x: int)
  {
    k == 0 || (x % 2 == 0 && Div2(k - 1, x / 2))
  }

  lemma {:induction false} Div2IsMod(k: nat, x: int)
    ensures Div2(k, x) <==> x % Pow2(k) == 0
  {
    if k > 0 {
      Div2IsMod(k - 1, x / 2);
      var p := Pow2(k - 1);
      ModDouble(x, p);
    }
  }

  lemma ModDouble(x: int, p: int)
    requires p >= 1
    ensures x % (2 * p) == 0 <==> x % 2 == 0 && (x / 2) % p == 0
  {
    if x % 2 == 0 && (x / 2) % p == 0 {
      var q := (x / 2) / p;
      assert x == (2 * p) * q;
      MultipleMod(2 * p, q);
    }
    if x % (2 * p) == 0 {
      var q := x / (2 * p);
      assert x == 2 * (p * q);
      assert x / 2 == p * q;
      MultipleMod(p, q);
    }
  }

  lemma SmallMultiple(p: int, q: int)
    requires -p < p * q < p
    ensures q == 0
  {
    assert q >= 1 ==> p * q >= p by {
      if q >= 1 { MulAtLeast(p, q); }
    }
    assert q <= -1 ==> p * q <= -p by {
      if q <= -1 { MulAtLeast(p, -q); }
    }
  }

  lemma MulAtLeast(p: int, q: int)
    requires p >= 0 && q >= 1
    ensures p * q >= p
  {
    assert p * q == p + p * (q - 1);
  }

  lemma MultipleMod(p: int, q: int)
    requires p >= 1
    ensures (p * q) % p == 0
  {
    assert p * q == p * ((p * q) / p) + (p * q) % p;
    var r := (p * q) % p;
    var d := q - (p * q) / p;
    assert p * d == r;
    SmallMultiple(p, d);
  }

  lemma Div2Zero(x: int)
    ensures Div2(0, x)
  {
  }

  lemma Div2Double(k: nat, x: int)
    requires k > 0
    ensures Div2(k, 2 * x) <==> Div2(k - 1, x)
  {
  }

  lemma Div2Odd(k: nat, x: int)
    requires k > 0 && x % 2 == 1
    ensures !Div2(k, x)
  {
  }

  lemma {:induction false} Div2Scale(k: nat, a: int, x: int)
    requires Div2(k, x)
    ensures Div2(k, a * x)
  {
    if k > 0 {
      var h := x / 2;
      assert a * x == 2 * (a * h);
      Div2Scale(k - 1, a, h);
    }
  }

  lemma {:induction false} Div2Sum(k: nat, x: int, y: int)
    requires Div2(k, x) && Div2(k, y)
    ensures Div2(k, x + y) && Div2(k, x - y)
  {
    if k > 0 {
      Div2Sum(k - 1, x / 2, y / 2);
      assert (x + y) / 2 == x / 2 + y / 2 && (x - y) / 2 == x / 2 - y / 2;
    }
  }

  lemma {:induction false} Div2Multiple(k: nat, n: nat, q: int)
    requires k <= n
    ensures Div2(k, Pow2(n) * q)
  {
    if k > 0 {
      assert Pow2(n) * q == 2 * (Pow2(n - 1) * q);
      Div2Multiple(k - 1, n - 1, q);
    }
  }

  // An odd factor carries no power of two.
  lemma {:induction false} Div2CancelOdd(k: nat, o: int, y: int)
    requires o % 2 == 1
    ensures Div2(k, o * y) <==> Div2(k, y)
  {
    if Div2(k, y) {
      Div2Scale(k, o, y);
    }
    if k > 0 && Div2(k, o * y) {
      var h := o / 2;
      assert o * y == 2 * (h * y) + y;
      var z := y / 2;
      assert o * y == 2 * (o * z);
      Div2CancelOdd(k - 1, o, z);
    }
  }

  lemma Div2Small(k: nat, x: int)
    requires Div2(k, x) && -Pow2(k) < x < Pow2(k)
    ensures x == 0
  {
    Div2IsMod(k, x);
    var p := Pow2(k);
    assert x == p * (x / p);
    var q := x / p;
    SmallMultiple(p, q);
  }

  // ---------- machine arithmetic ----------

  // The value a 64-bit two's complement register holds after an operation whose exact result is z.
  function Wrap64(z: int): (r: int)
    ensures -TWO_63 <= r < TWO_63
    ensures -TWO_63 <= z < TWO_63 ==> r == z
  {
    (z + TWO_63) % TWO_64 - TWO_63
  }

  // Remainder that takes the sign of the dividend.
  function TruncMod(x: int, m: int): (r: int)
    requires m >= 1
    ensures -m < r < m
    ensures x >= 0 ==> 0 <= r
    ensures x <= 0 ==> r <= 0
  {
    if x >= 0 then x % m else -((-x) % m)
  }

  lemma SmallMod(x: int, m: int)
    requires 0 <= x < m
    ensures x % m == x
  {
    assert x == m * (x / m) + x % m;
    SmallMultiple(m, x / m);
  }

  lemma Wrap64Congruent(k: nat, z: int)
    requires k <= 64
    ensures Div2(k, Wrap64(z) - z)
  {
    Pow2Values();
    var q := (z + TWO_63) / TWO_64;
    assert Wrap64(z) - z == Pow2(64) * (-q);
    Div2Multiple(k, 64, -q);
  }

  lemma Wrap64Parity(z: int)
    ensures Wrap64(z) % 2 == z % 2
  {
    Wrap64Congruent(1, z);
    assert Div2(1, Wrap64(z) - z);
  }

  lemma Wrap64Unique(z: int, r: int, q: int)
    requires r == z + TWO_64 * q && -TWO_63 <= r < TWO_63
    ensures Wrap64(z) == r
  {
    var q' := (z + TWO_63) / TWO_64;
    assert z + TWO_63 == TWO_64 * q' + (z + TWO_63) % TWO_64;
  }

  lemma Wrap64Compose(z: int, o: int)
    ensures Wrap64(Wrap64(z) + o) == Wrap64(z + o)
  {
    var q := (z + TWO_63) / TWO_64;
    var q' := (z + o + TWO_63) / TWO_64;
    assert Wrap64(z) == z - TWO_64 * q;
    assert Wrap64(z + o) == z + o - TWO_64 * q';
    Wrap64Unique(Wrap64(z) + o, Wrap64(z + o), q - q');
  }

  lemma TruncModCongruent(k: nat, x: int)
    ensures Div2(k, TruncMod(x, Pow2(k)) - x)
  {
    var p := Pow2(k);
    if x >= 0 {
      assert TruncMod(x, p) - x == p * (-(x / p));
      Div2Multiple(k, k, -(x / p));
    } else {
      assert TruncMod(x, p) - x == p * ((-x) / p);
      Div2Multiple(k, k, (-x) / p);
    }
  }

  // ---------- counting ----------

  function Range(n: nat): (s: set<int>)
    ensures forall x :: x in s <==> 0 <= x < n
    ensures |s| == n
  {
    if n == 0 then {} else Range(n - 1) + {n - 1}
  }

  lemma SubsetBySize<T>(a: set<T>, b: set<T>)
    requires a <= b
    ensures |a| <= |b|
    ensures |a| == |b| ==> a == b
  {
    assert b == a + (b - a);
  }

  ghost predicate Distinct<T>(s: seq<T>)
  {
    forall i, j :: 0 <= i < j < |s| ==> s[i] != s[j]
  }

  ghost function Elems<T>(s: seq<T>): set<T>
  {
    set x | x in s
  }

  lemma {:induction false} DistinctSize<T>(s: seq<T>)
    ensures |Elems(s)| <= |s|
    ensures Distinct(s) ==> |Elems(s)| == |s|
  {
    if s != [] {
      var t := s[..|s| - 1];
      DistinctSize(t);
      assert s == t + [s[|s| - 1]];
      assert Elems(s) == Elems(t) + {s[|s| - 1]};
    }
  }

  // s lists every number below n, each once.
  ghost predicate IsPermutation(s: seq<int>, n: nat)
  {
    |s| == n && Distinct(s) && forall x :: x in s <==> 0 <= x < n
  }

  // Pigeonhole: distinct values inside [0, n), n of them, are all of [0, n).
  lemma FullRange(s: seq<int>, n: nat)
    requires |s| == n && Distinct(s)
    requires forall x :: x in s ==> 0 <= x < n
    ensures IsPermutation(s, n)
  {
    DistinctSize(s);
    SubsetBySize(Elems(s), Range(n));
    assert forall x :: x in s <==> x in Elems(s);
  }
}
