// The address permuter: a linear congruential generator modulo the least power of two that is
// at least `stop`, which drops the values outside [0, stop). All arithmetic is 64-bit signed,
// with wrap-around and a remainder that truncates toward zero.
module Lcg {
  import opened Arith

  // What Init fixes for the whole life of a generator; the modulus is 2^k.
  datatype Params = Params(offset: int, multiplier: int, k: nat, max: int) {
    ghost predicate Valid() {
      && offset % 2 == 1
      && multiplier % 4 == 1
      && k <= 62
      && 1 <= max <= Pow2(k)
    }

    // One update of the value register.
    function Step(x: int): int {
      TruncMod(Wrap64(Wrap64(x * multiplier) + offset), Pow2(k))
    }
  }

  // The parameters Init computes when its second random draw is r2.
  function InitParams(stop: int, r2: int): (p: Params)
    requires 1 <= stop <= TWO_62 && 0 <= r2 < stop
    ensures p.Valid() && p.max == stop
    ensures 2 <= stop ==> Pow2(p.k - 1) < stop
  {
    InitValid(stop, r2);
    Params(Wrap64(Wrap64((r2 + stop) * 2) + 1), 4 * (stop / 4) + 1, CeilLog2(stop), stop)
  }

  lemma InitValid(stop: int, r2: int)
    requires 1 <= stop <= TWO_62 && 0 <= r2 < stop
    ensures Params(Wrap64(Wrap64((r2 + stop) * 2) + 1), 4 * (stop / 4) + 1, CeilLog2(stop), stop).Valid()
  {
    hide Wrap64, Pow2;
    ModulusFits(stop);
    OffsetOdd(stop, r2);
    MultiplierForm(stop / 4);
  }

  lemma ModulusFits(stop: int)
    requires 1 <= stop <= TWO_62
    ensures CeilLog2(stop) <= 62
  {
    hide Pow2;
    if CeilLog2(stop) > 62 {
      Pow2Values();
      Pow2Monotone(62, CeilLog2(stop) - 1);
    }
  }

  lemma OffsetOdd(stop: int, r2: int)
    ensures Wrap64(Wrap64((r2 + stop) * 2) + 1) % 2 == 1
  {
    hide Wrap64;
    Wrap64Parity((r2 + stop) * 2);
    Wrap64Parity(Wrap64((r2 + stop) * 2) + 1);
  }

  // The value register after n updates.
  ghost function Orbit(p: Params, seed: int, n: nat): int
  {
    if n == 0 then seed else p.Step(Orbit(p, seed, n - 1))
  }

  // What the generator has returned once the value register has been updated n times.
  ghost function Outputs(p: Params, seed: int, n: nat): seq<int>
  {
    if n == 0 then [] else
    var before := Outputs(p, seed, n - 1);
    var v := Orbit(p, seed, n - 1);
    if v < p.max then before + [v] else before
  }

  class Generator {
    var value: int
    var offset: int
    var multiplier: int
    var modulus: int
    var max: int
    var found: int
    ghost var k: nat
    ghost var seed: int
    ghost var pos: nat  // updates of `value` so far

    ghost function P(): Params
      reads this
    {
      Params(offset, multiplier, k, max)
    }

    ghost predicate Valid()
      reads this
    {
      && P().Valid()
      && modulus == Pow2(k)
      && 0 <= seed < max
      && value == Orbit(P(), seed, pos)
      && found == |Outputs(P(), seed, pos)|
    }

    // r1 and r2 are the two random draws.
    constructor (stop: int, r1: int, r2: int)
      requires 1 <= stop <= TWO_62
      requires 0 <= r1 < stop && 0 <= r2 < stop
      ensures Valid() && fresh(this)
      ensures P() == InitParams(stop, r2) && seed == r1 && pos == 0
    {
      value := r1;
      offset := Wrap64(Wrap64((r2 + stop) * 2) + 1);
      multiplier := 4 * (stop / 4) + 1;
      modulus := Pow2(CeilLog2(stop));
      found := 0;
      max := stop;
      k := CeilLog2(stop);
      seed := r1;
      pos := 0;
      new;
      assert P() == InitParams(stop, r2);
    }

    // Returns the first orbit value below max at or after the present position, having skipped
    // at most modulus - max values.
    method Next() returns (v: int)
      requires Valid()
      modifies `value, `found, `pos
      ensures Valid()
      ensures old(pos) < pos <= old(pos) + (modulus - max) + 1
      ensures v == Orbit(P(), seed, pos - 1) < max
      ensures forall i :: old(pos) <= i < pos - 1 ==> Orbit(P(), seed, i) >= max
      ensures Outputs(P(), seed, pos) == old(Outputs(P(), seed, pos)) + [v]
      ensures found == old(found) + 1
    {
      hide Wrap64, TruncMod, Pow2, Orbit, Outputs;
      ghost var p, start := P(), pos;
      ghost var target := SkipBound(p, seed, pos);
      while value >= max
        invariant P() == p && modulus == Pow2(k) && found == old(found)
        invariant start <= pos <= target
        invariant value == Orbit(p, seed, pos)
        invariant forall i :: start <= i < pos ==> Orbit(p, seed, i) >= max
        invariant Outputs(p, seed, pos) == old(Outputs(p, seed, pos))
        decreases target - pos
      {
        OrbitNext(p, seed, pos);
        value := TruncMod(Wrap64(Wrap64(value * multiplier) + offset), modulus);
        pos := pos + 1;
      }
      OrbitNext(p, seed, pos);
      found := found + 1;
      v := value;
      value := TruncMod(Wrap64(Wrap64(value * multiplier) + offset), modulus);
      pos := pos + 1;
    }

    method HasNext() returns (b: bool)
      requires Valid()
      ensures b <==> |Outputs(P(), seed, pos)| < max
    {
      b := found < max;
    }
  }

  lemma OrbitNext(p: Params, seed: int, n: nat)
    ensures Orbit(p, seed, n + 1) == p.Step(Orbit(p, seed, n))
    ensures Outputs(p, seed, n + 1)
         == Outputs(p, seed, n) + if Orbit(p, seed, n) < p.max then [Orbit(p, seed, n)] else []
  {
  }

  // ---------- the full-period theorem ----------

  // 1 + a + ... + a^(n-1)
  function Geo(a: int, n: nat): int
  {
    if n == 0 then 0 else a * Geo(a, n - 1) + 1
  }

  lemma {:induction false} GeoSplit(a: int, m: nat, n: nat)
    ensures Geo(a, m + n) == Geo(a, m) + (1 + (a - 1) * Geo(a, m)) * Geo(a, n)
  {
    if n > 0 {
      GeoSplit(a, m, n - 1);
      assert m + n - 1 == m + (n - 1);
      var g, h := Geo(a, m), Geo(a, n - 1);
      assert Geo(a, m + n) == a * (g + (1 + (a - 1) * g) * h) + 1;
      GeoAlgebra(a, g, h);
    }
  }

  lemma GeoAlgebra(a: int, g: int, h: int)
    ensures a * (g + (1 + (a - 1) * g) * h) + 1 == g + (1 + (a - 1) * g) * (a * h + 1)
  {
    var w := (a - 1) * g;
    assert w == a * g - g;
    assert a * (g + (1 + w) * h) == a * g + a * ((1 + w) * h);
    assert a * ((1 + w) * h) == (1 + w) * (a * h);
    assert (1 + w) * (a * h + 1) == (1 + w) * (a * h) + (1 + w);
  }

  // For a multiplier congruent to 1 modulo 4 the geometric sum has exactly the powers of two of n.
  lemma {:induction false} GeoDivisible(a: int, k: nat, n: nat)
    requires a % 4 == 1
    ensures Div2(k, Geo(a, n)) <==> Div2(k, n)
  {
    hide Geo, Div2;
    if k == 0 {
      Div2Zero(n);
      Div2Zero(Geo(a, n));
    } else if n % 2 == 1 {
      OddMultiplier(a);
      GeoParity(a, n);
      Div2Odd(k, n);
      Div2Odd(k, Geo(a, n));
    } else {
      var e := n / 2;
      assert n == e + e == 2 * e;
      GeoEvenStep(a, k, e);
      Div2Double(k, e);
      GeoDivisible(a, k - 1, e);
    }
  }

  lemma OddMultiplier(a: int)
    requires a % 4 == 1
    ensures a % 2 == 1
  {
    assert a == 2 * (2 * (a / 4)) + 1;
  }

  lemma MultiplierForm(t: int)
    ensures (4 * t + 1) % 4 == 1
  {
  }

  lemma GeoEvenStep(a: int, k: nat, e: nat)
    requires a % 4 == 1 && k > 0
    ensures Div2(k, Geo(a, e + e)) <==> Div2(k - 1, Geo(a, e))
  {
    hide Geo, Div2;
    var o := GeoEven(a, e);
    var g := Geo(a, e);
    Div2Double(k, o * g);
    Div2CancelOdd(k - 1, o, g);
  }

  lemma GeoEven(a: int, e: nat) returns (o: int)
    requires a % 4 == 1
    ensures o % 2 == 1 && Geo(a, e + e) == 2 * (o * Geo(a, e))
  {
    hide Geo;
    GeoSplit(a, e, e);
    o := GeoHalf(a, Geo(a, e));
  }

  lemma GeoHalf(a: int, g: int) returns (o: int)
    requires a % 4 == 1
    ensures o % 2 == 1 && g + (1 + (a - 1) * g) * g == 2 * (o * g)
  {
    var t := a / 4;
    var w := t * g;
    o := 1 + 2 * w;
    assert (a - 1) * g == 4 * w by { assert a - 1 == 4 * t; }
    assert (1 + 4 * w) * g == g + 4 * (w * g);
    assert (1 + 2 * w) * g == g + 2 * (w * g);
  }

  lemma GeoNext(a: int, n: nat)
    ensures Geo(a, n + 1) == a * Geo(a, n) + 1
  {
  }

  lemma {:induction false} GeoParity(a: int, n: nat)
    requires a % 2 == 1
    ensures Geo(a, n) % 2 == n % 2
  {
    if n > 0 {
      hide Geo;
      GeoParity(a, n - 1);
      GeoNext(a, n - 1);
      OddTimes(a, Geo(a, n - 1));
      NextParity(a * Geo(a, n - 1), n - 1);
    }
  }

  lemma NextParity(x: int, n: int)
    requires x % 2 == n % 2
    ensures (x + 1) % 2 == (n + 1) % 2
  {
  }

  lemma OddTimes(a: int, g: int)
    requires a % 2 == 1
    ensures (a * g) % 2 == g % 2
  {
    var b := a / 2;
    assert a * g == 2 * (b * g) + g;
  }

  // The recurrence without any reduction.
  function Exact(p: Params, x: int, n: nat): int
  {
    if n == 0 then x else p.multiplier * Exact(p, x, n - 1) + p.offset
  }

  lemma {:induction false} ExactShift(p: Params, x: int, n: nat)
    ensures Exact(p, x, n) - x == Geo(p.multiplier, n) * ((p.multiplier - 1) * x + p.offset)
  {
    if n > 0 {
      ExactShift(p, x, n - 1);
      ExactNext(p, x, n - 1);
      GeoNext(p.multiplier, n - 1);
      hide Exact, Geo;
      ShiftAlgebra(p.multiplier, p.offset, x, Geo(p.multiplier, n - 1), Exact(p, x, n - 1));
    }
  }

  lemma ExactNext(p: Params, x: int, n: nat)
    ensures Exact(p, x, n + 1) == p.multiplier * Exact(p, x, n) + p.offset
  {
  }

  lemma ShiftAlgebra(a: int, c: int, x: int, g: int, e: int)
    requires e - x == g * ((a - 1) * x + c)
    ensures a * e + c - x == (a * g + 1) * ((a - 1) * x + c)
  {
    var w := (a - 1) * x + c;
    assert a * e == a * x + a * (g * w);
    assert a * (g * w) == (a * g) * w;
    assert (a * g + 1) * w == (a * g) * w + w;
    assert (a - 1) * x == a * x - x;
  }

  lemma {:induction false} ExactSplit(p: Params, x: int, m: nat, n: nat)
    ensures Exact(p, x, m + n) == Exact(p, Exact(p, x, m), n)
  {
    if n > 0 {
      ExactSplit(p, x, m, n - 1);
      assert m + n - 1 == m + (n - 1);
    }
  }

  // Wrapping and truncation never lose the residue modulo 2^k.
  lemma StepCongruent(p: Params, x: int, y: int)
    requires p.k <= 62 && Div2(p.k, x - y)
    ensures Div2(p.k, p.Step(x) - (p.multiplier * y + p.offset))
  {
    var m := Wrap64(x * p.multiplier);
    var s := Wrap64(m + p.offset);
    Wrap64Congruent(p.k, x * p.multiplier);
    Wrap64Congruent(p.k, m + p.offset);
    TruncModCongruent(p.k, s);
    Div2Scale(p.k, p.multiplier, x - y);
    assert p.multiplier * (x - y) == x * p.multiplier - p.multiplier * y;
    Div2Sum(p.k, p.Step(x) - s, s - (m + p.offset));
    Div2Sum(p.k, p.Step(x) - (m + p.offset), m - x * p.multiplier);
    Div2Sum(p.k, p.Step(x) - p.offset - x * p.multiplier, x * p.multiplier - p.multiplier * y);
  }

  lemma {:induction false} OrbitCongruent(p: Params, seed: int, n: nat)
    requires p.k <= 62
    ensures Div2(p.k, Orbit(p, seed, n) - Exact(p, seed, n))
  {
    if n == 0 {
      Div2Multiple(p.k, p.k, 0);
    } else {
      OrbitCongruent(p, seed, n - 1);
      StepCongruent(p, Orbit(p, seed, n - 1), Exact(p, seed, n - 1));
    }
  }

  // Two positions of the register agree modulo 2^k exactly when they are a multiple of 2^k apart.
  lemma FullPeriod(p: Params, seed: int, i: nat, j: nat)
    requires p.Valid() && i <= j
    ensures Div2(p.k, Orbit(p, seed, j) - Orbit(p, seed, i)) <==> Div2(p.k, j - i)
  {
    hide Div2, Orbit, Exact, Params.Step, Pow2;
    var d := j - i;
    var x := Exact(p, seed, i);
    ExactSplit(p, seed, i, d);
    assert i + d == j;
    ExactReturns(p, x, d);
    OrbitCongruent(p, seed, i);
    OrbitCongruent(p, seed, j);
    DifferenceCongruent(p.k, Orbit(p, seed, i), Orbit(p, seed, j), x, Exact(p, seed, j));
  }

  lemma ExactReturns(p: Params, x: int, n: nat)
    requires p.Valid()
    ensures Div2(p.k, Exact(p, x, n) - x) <==> Div2(p.k, n)
  {
    hide Div2, Geo, Exact;
    OddMultiplier(p.multiplier);
    ExactShift(p, x, n);
    WeightOdd(p.multiplier, p.offset, x);
    OddFactor(p.k, (p.multiplier - 1) * x + p.offset, Geo(p.multiplier, n), Exact(p, x, n) - x);
    GeoDivisible(p.multiplier, p.k, n);
  }

  lemma OddFactor(k: nat, w: int, g: int, e: int)
    requires w % 2 == 1 && e == g * w
    ensures Div2(k, e) <==> Div2(k, g)
  {
    Div2CancelOdd(k, w, g);
    assert w * g == e;
  }

  lemma WeightOdd(m: int, c: int, x: int)
    requires m % 2 == 1 && c % 2 == 1
    ensures ((m - 1) * x + c) % 2 == 1
  {
    assert (m - 1) * x == 2 * ((m / 2) * x) by {
      assert m - 1 == 2 * (m / 2);
    }
    assert (m - 1) * x + c == 2 * ((m / 2) * x + c / 2) + 1;
  }

  lemma DifferenceCongruent(k: nat, a: int, b: int, x: int, y: int)
    requires Div2(k, a - x) && Div2(k, b - y)
    ensures Div2(k, b - a) <==> Div2(k, y - x)
  {
    Div2Sum(k, b - y, a - x);
    var d := (b - y) - (a - x);
    assert d == (b - a) - (y - x);
    if Div2(k, y - x) {
      Div2Sum(k, d, y - x);
      assert d + (y - x) == b - a;
    }
    if Div2(k, b - a) {
      Div2Sum(k, b - a, d);
      assert (b - a) - d == y - x;
    }
  }

  ghost function Residue(p: Params, seed: int, n: nat): int
  {
    Orbit(p, seed, n) % Pow2(p.k)
  }

  lemma ModRange(x: int, m: int)
    requires m >= 1
    ensures 0 <= x % m < m
  {
  }

  lemma ResidueEqual(k: nat, x: int, y: int)
    ensures x % Pow2(k) == y % Pow2(k) <==> Div2(k, x - y)
  {
    var m := Pow2(k);
    var d := x / m - y / m;
    assert x - y == m * d + (x % m - y % m);
    Div2Multiple(k, k, d);
    if Div2(k, x - y) {
      Div2Sum(k, x - y, m * d);
      Div2Small(k, x % m - y % m);
    }
  }

  lemma ResiduesDiffer(p: Params, seed: int, i: nat, j: nat)
    requires p.Valid() && i < j < i + Pow2(p.k)
    ensures Residue(p, seed, i) != Residue(p, seed, j)
  {
    FullPeriod(p, seed, i, j);
    ResidueEqual(p.k, Orbit(p, seed, j), Orbit(p, seed, i));
    if Div2(p.k, j - i) {
      Div2Small(p.k, j - i);
    }
  }

  ghost function Window(p: Params, seed: int, start: nat, n: nat): seq<int>
  {
    seq(n, i requires 0 <= i => Residue(p, seed, start + i))
  }

  lemma WindowDistinct(p: Params, seed: int, start: nat, n: nat)
    requires p.Valid() && n <= Pow2(p.k)
    ensures Distinct(Window(p, seed, start, n))
    ensures forall x :: x in Window(p, seed, start, n) ==> 0 <= x < Pow2(p.k)
  {
    hide Orbit;
    var w := Window(p, seed, start, n);
    forall x | x in w
      ensures 0 <= x < Pow2(p.k)
    {
      var i :| 0 <= i < n && w[i] == x;
      ModRange(Orbit(p, seed, start + i), Pow2(p.k));
    }
    forall i, j | 0 <= i < j < n
      ensures w[i] != w[j]
    {
      ResiduesDiffer(p, seed, start + i, start + j);
    }
  }

  // Any 2^k consecutive positions visit every residue.
  lemma Visits(p: Params, seed: int, start: nat, r: int) returns (j: nat)
    requires p.Valid() && 0 <= r < Pow2(p.k)
    ensures start <= j < start + Pow2(p.k) && Residue(p, seed, j) == r
  {
    var w := Window(p, seed, start, Pow2(p.k));
    WindowDistinct(p, seed, start, Pow2(p.k));
    FullRange(w, Pow2(p.k));
    assert r in w;
    var i :| 0 <= i < |w| && w[i] == r;
    j := start + i;
  }

  // The register stays strictly between -2^k and 2^k, so a value of at least max is its own residue.
  lemma {:induction false} OrbitBounds(p: Params, seed: int, n: nat)
    requires p.Valid() && 0 <= seed < p.max
    ensures -Pow2(p.k) < Orbit(p, seed, n) < Pow2(p.k)
    ensures Orbit(p, seed, n) >= 0 ==> Residue(p, seed, n) == Orbit(p, seed, n)
  {
    if Orbit(p, seed, n) >= 0 {
      SmallMod(Orbit(p, seed, n), Pow2(p.k));
    }
  }

  // The skip loop ends: within modulus - max further updates some value is below max.
  lemma SkipBound(p: Params, seed: int, start: nat) returns (j: nat)
    requires p.Valid() && 0 <= seed < p.max
    ensures start <= j <= start + Pow2(p.k) - p.max
    ensures Orbit(p, seed, j) < p.max
    ensures forall i :: start <= i < j ==> Orbit(p, seed, i) >= p.max
  {
    j := start;
    while Orbit(p, seed, j) >= p.max
      invariant start <= j <= start + Pow2(p.k) - p.max
      invariant forall i :: start <= i < j ==> Orbit(p, seed, i) >= p.max
      decreases start + Pow2(p.k) - j
    {
      AboveBound(p, seed, start, j + 1);
      j := j + 1;
    }
  }

  // Within one period the values of at least max are pairwise different residues of [max, 2^k).
  lemma AboveBound(p: Params, seed: int, start: nat, j: nat)
    requires p.Valid() && 0 <= seed < p.max
    requires start <= j <= start + Pow2(p.k)
    requires forall i :: start <= i < j ==> Orbit(p, seed, i) >= p.max
    ensures j - start <= Pow2(p.k) - p.max
  {
    hide Orbit, Pow2, Residue;
    var n := j - start;
    var w := Window(p, seed, start, n);
    var over := Range(Pow2(p.k)) - Range(p.max);
    assert Range(Pow2(p.k)) == Range(p.max) + over;
    WindowDistinct(p, seed, start, n);
    DistinctSize(w);
    forall x | x in Elems(w)
      ensures x in over
    {
      AboveElement(p, seed, start, n, x);
    }
    SubsetBySize(Elems(w), over);
  }

  lemma AboveElement(p: Params, seed: int, start: nat, n: nat, x: int)
    requires p.Valid() && 0 <= seed < p.max && x in Window(p, seed, start, n)
    requires forall i :: start <= i < start + n ==> Orbit(p, seed, i) >= p.max
    ensures p.max <= x < Pow2(p.k)
  {
    hide Orbit, Pow2, Residue;
    var w := Window(p, seed, start, n);
    var i :| 0 <= i < n && w[i] == x;
    OrbitBounds(p, seed, start + i);
    assert Residue(p, seed, start + i) == Orbit(p, seed, start + i);
  }

  // ---------- the first `max` outputs ----------

  lemma {:induction false} OutputsGrow(p: Params, seed: int, m: nat, n: nat)
    requires m <= n
    ensures Outputs(p, seed, m) <= Outputs(p, seed, n)
  {
    if m < n {
      OutputsGrow(p, seed, m, n - 1);
    }
  }

  // Every output is an orbit value below max, and every such value is output.
  lemma {:induction false} OutputOrigin(p: Params, seed: int, n: nat, v: int) returns (i: nat)
    requires v in Outputs(p, seed, n)
    ensures i < n && Orbit(p, seed, i) == v < p.max
  {
    if v in Outputs(p, seed, n - 1) {
      i := OutputOrigin(p, seed, n - 1, v);
    } else {
      i := n - 1;
    }
  }

  lemma {:induction false} OutputIncludes(p: Params, seed: int, n: nat, i: nat)
    requires i < n && Orbit(p, seed, i) < p.max
    ensures Orbit(p, seed, i) in Outputs(p, seed, n)
  {
    if i < n - 1 {
      OutputIncludes(p, seed, n - 1, i);
    }
  }

  lemma {:induction false} OutputsDistinct(p: Params, seed: int, n: nat)
    requires p.Valid() && n <= Pow2(p.k)
    ensures Distinct(Outputs(p, seed, n))
  {
    if n > 0 {
      OutputsDistinct(p, seed, n - 1);
      var v := Orbit(p, seed, n - 1);
      if v in Outputs(p, seed, n - 1) {
        var i := OutputOrigin(p, seed, n - 1, v);
        ResiduesDiffer(p, seed, i, n - 1);
        assert false;
      }
    }
  }

  // The generator can always be asked for more.
  lemma {:induction false} OutputsReach(p: Params, seed: int, count: nat) returns (n: nat)
    requires p.Valid() && 0 <= seed < p.max
    ensures |Outputs(p, seed, n)| == count
  {
    if count == 0 {
      n := 0;
    } else {
      var m := OutputsReach(p, seed, count - 1);
      var j := SkipBound(p, seed, m);
      SkippedOutputs(p, seed, m, j);
      n := j + 1;
    }
  }

  lemma {:induction false} SkippedOutputs(p: Params, seed: int, m: nat, j: nat)
    requires m <= j && forall i :: m <= i < j ==> Orbit(p, seed, i) >= p.max
    ensures Outputs(p, seed, j) == Outputs(p, seed, m)
  {
    if m < j {
      SkippedOutputs(p, seed, m, j - 1);
    }
  }

  // As long as no update goes negative, the first `max` outputs are exactly 0 .. max-1, each once,
  // and they are complete within one period.
  lemma NonNegativePermutes(p: Params, seed: int)
    requires p.Valid() && 0 <= seed < p.max
    requires forall n: nat :: Orbit(p, seed, n) >= 0
    ensures IsPermutation(Outputs(p, seed, Pow2(p.k)), p.max)
    ensures forall n: nat :: |Outputs(p, seed, n)| == p.max ==> IsPermutation(Outputs(p, seed, n), p.max)
  {
    var period := Pow2(p.k);
    var out := Outputs(p, seed, period);
    OutputsDistinct(p, seed, period);
    forall r
      ensures r in out <==> 0 <= r < p.max
    {
      if r in out {
        var i := OutputOrigin(p, seed, period, r);
      }
      if 0 <= r < p.max {
        var j := Visits(p, seed, 0, r);
        OrbitBounds(p, seed, j);
        OutputIncludes(p, seed, period, j);
      }
    }
    DistinctSize(out);
    assert Elems(out) == Range(p.max);
    forall n: nat | |Outputs(p, seed, n)| == p.max
      ensures IsPermutation(Outputs(p, seed, n), p.max)
    {
      if n <= period {
        OutputsGrow(p, seed, n, period);
      } else {
        OutputsGrow(p, seed, period, n);
      }
      assert Outputs(p, seed, n) == out;
    }
  }

  // ---------- which ranges the machine arithmetic supports ----------

  // With draws r1 and r2 the first `stop` values returned are 0 .. stop-1, each once.
  ghost predicate Permutes(stop: int, r1: int, r2: int)
    requires 1 <= stop <= TWO_62 && 0 <= r1 < stop && 0 <= r2 < stop
  {
    forall n: nat :: |Outputs(InitParams(stop, r2), r1, n)| == stop
                 ==> IsPermutation(Outputs(InitParams(stop, r2), r1, n), stop)
  }

  lemma StepNonNegative(p: Params, x: int)
    requires 0 <= x < TWO_31 && 0 <= p.multiplier <= TWO_31 + 1 && 0 <= p.offset < TWO_63 - TWO_62 - TWO_32
    ensures p.Step(x) >= 0
  {
    MulBounds(x, p.multiplier, TWO_31 - 1, TWO_31 + 1);
  }

  lemma MulBounds(x: int, y: int, mx: int, my: int)
    requires 0 <= x <= mx && 0 <= y <= my
    ensures 0 <= x * y <= mx * my
  {
    assert x * y <= x * my by { assert x * (my - y) >= 0; }
    assert x * my <= mx * my by { assert (mx - x) * my >= 0; }
  }

  lemma SmallModulus(stop: int, r2: int)
    requires 1 <= stop <= TWO_31 && 0 <= r2 < stop
    ensures Pow2(InitParams(stop, r2).k) <= TWO_31
    ensures 0 <= InitParams(stop, r2).multiplier <= TWO_31 + 1
    ensures InitParams(stop, r2).offset == 2 * (r2 + stop) + 1
  {
    var k := InitParams(stop, r2).k;
    hide Pow2;
    Pow2Values();
    if k > 31 { Pow2Monotone(31, k - 1); } else { Pow2Monotone(k, 31); }
  }

  lemma {:induction false} SmallOrbit(stop: int, r1: int, r2: int, n: nat)
    requires 1 <= stop <= TWO_31 && 0 <= r1 < stop && 0 <= r2 < stop
    ensures 0 <= Orbit(InitParams(stop, r2), r1, n) < TWO_31
  {
    var p := InitParams(stop, r2);
    SmallModulus(stop, r2);
    if n > 0 {
      hide Wrap64, TruncMod, Pow2, InitParams;
      SmallOrbit(stop, r1, r2, n - 1);
      StepNonNegative(p, Orbit(p, r1, n - 1));
    }
  }

  // A negative value among the first outputs, wherever it appears, spoils the permutation.
  lemma NegativeSpoils(stop: int, r1: int, r2: int, n: nat)
    requires 1 <= stop <= TWO_62 && 0 <= r1 < stop && 0 <= r2 < stop
    requires n <= stop
    requires exists i :: 0 <= i < n && Orbit(InitParams(stop, r2), r1, i) < 0
    ensures !Permutes(stop, r1, r2)
  {
    hide Orbit, Outputs, InitParams, Pow2;
    var p := InitParams(stop, r2);
    var i :| 0 <= i < n && Orbit(p, r1, i) < 0;
    var v := Orbit(p, r1, i);
    var m := OutputsReach(p, r1, stop);
    OutputsLength(p, r1, m);
    OutputIncludes(p, r1, m, i);
  }

  lemma {:induction false} OutputsLength(p: Params, seed: int, n: nat)
    ensures |Outputs(p, seed, n)| <= n
  {
    if n > 0 {
      OutputsLength(p, seed, n - 1);
    }
  }

  lemma OverflowGoesNegative(p: Params, x: int)
    requires p.k <= 62
    requires TWO_63 <= x * p.multiplier + p.offset < TWO_64
    requires 0 <= x * p.multiplier && -TWO_63 <= p.offset < TWO_63
    requires !Div2(p.k, x * p.multiplier + p.offset)
    ensures p.Step(x) < 0
  {
    hide TruncMod, Div2;
    var z := x * p.multiplier;
    Wrap64Compose(z, p.offset);
    Wrap64Unique(z + p.offset, z + p.offset - TWO_64, -1);
    NegativeRemainder(p.k, z + p.offset);
  }

  lemma NegativeRemainder(k: nat, y: int)
    requires k <= 62 && TWO_63 <= y < TWO_64 && !Div2(k, y)
    ensures TruncMod(y - TWO_64, Pow2(k)) < 0
  {
    hide TruncMod, Div2;
    var s := y - TWO_64;
    if TruncMod(s, Pow2(k)) == 0 {
      TruncModCongruent(k, s);
      assert Div2(k, -s);
      Div2Scale(k, -1, -s);
      assert -1 * -s == s;
      assert Pow2(64) * 1 == TWO_64 by { Pow2Values(); }
      Div2Multiple(k, 64, 1);
      Div2Sum(k, s, TWO_64);
    }
  }

  // 2^31 < stop < 2^32: the draws 0 and 2^32-1-stop reach 2^32-1, whose update overflows.
  lemma MiddleRangeFails(stop: int)
    requires TWO_31 < stop < TWO_32
    ensures !Permutes(stop, 0, TWO_32 - 1 - stop)
  {
    var r2 := TWO_32 - 1 - stop;
    var p := InitParams(stop, r2);
    var top := TWO_32 - 1;
    assert p.k == 32 && p.offset == 2 * TWO_32 - 1 && TWO_31 + 1 <= p.multiplier <= TWO_32 - 3 by {
      MiddleParams(stop, r2);
    }
    MiddleSteps(p);
    assert Orbit(p, 0, 1) == top && Orbit(p, 0, 2) < 0 by {
      assert Orbit(p, 0, 0) == 0;
    }
    NegativeSpoils(stop, 0, r2, 3);
  }

  lemma MiddleParams(stop: int, r2: int)
    requires TWO_31 < stop < TWO_32 && r2 == TWO_32 - 1 - stop
    ensures InitParams(stop, r2).k == 32
    ensures InitParams(stop, r2).offset == 2 * TWO_32 - 1
    ensures TWO_31 + 1 <= InitParams(stop, r2).multiplier <= TWO_32 - 3
  {
    var k := InitParams(stop, r2).k;
    hide Pow2;
    Pow2Values();
    if k > 32 { Pow2Monotone(32, k - 1); }
    if k < 32 { Pow2Monotone(k, 31); }
  }

  lemma MiddleSteps(p: Params)
    requires p.Valid() && p.k == 32 && p.offset == 2 * TWO_32 - 1
    requires TWO_31 + 1 <= p.multiplier <= TWO_32 - 3
    ensures p.Step(0) == TWO_32 - 1 && p.Step(TWO_32 - 1) < 0
  {
    hide Pow2, Div2;
    Pow2Values();
    assert p.Step(0) == TWO_32 - 1 by {
      assert 0 * p.multiplier == 0;
    }
    var top, m := TWO_32 - 1, p.multiplier;
    var z := top * m + p.offset;
    assert z == TWO_32 * (m + 2) - (m + 1);
    if Div2(32, z) {
      Div2Multiple(32, 32, m + 2);
      Div2Sum(32, TWO_32 * (m + 2), z);
      Div2Small(32, m + 1);
    }
    OverflowGoesNegative(p, top);
  }

  // 2^32 <= stop <= 2^61: some first draw overflows at once, with r2 = 0 or r2 = 1.
  lemma UpperRangeFails(stop: int) returns (r1: int, r2: int)
    requires TWO_32 <= stop <= TWO_61
    ensures 0 <= r1 < stop && 0 <= r2 < stop && !Permutes(stop, r1, r2)
  {
    hide Pow2, Div2, CeilLog2, Outputs;
    var m := 4 * (stop / 4) + 1;
    r1 := JustOver(m);
    r2 := if Div2(CeilLog2(stop), r1 * m + 2 * stop + 1) then 1 else 0;
    var p := InitParams(stop, r2);
    assert p.multiplier == m && p.offset == 2 * (r2 + stop) + 1;
    assert TWO_63 <= r1 * m + p.offset < TWO_64;
    if r2 == 1 && Div2(p.k, r1 * m + p.offset) {
      UpperNotBoth(stop, r1 * m + 2 * stop + 1);
    }
    OverflowGoesNegative(p, r1);
    assert Orbit(p, r1, 1) == p.Step(Orbit(p, r1, 0));
    NegativeSpoils(stop, r1, r2, 2);
  }

  lemma JustOver(m: int) returns (x: int)
    requires TWO_32 - 3 <= m <= TWO_61 + 1
    ensures 0 <= x <= TWO_31 + 2
    ensures TWO_63 < x * m <= TWO_63 + m
  {
    x := TWO_63 / m + 1;
    assert (x - 1) * m + TWO_63 % m == TWO_63;
    assert x * m == (x - 1) * m + m;
    assert (TWO_31 + 2) * (TWO_32 - 3) > TWO_63;
    if x - 1 >= TWO_31 + 2 {
      MulBounds(TWO_31 + 2, TWO_32 - 3, x - 1, m);
    }
  }

  lemma UpperNotBoth(stop: int, y: int)
    requires TWO_32 <= stop <= TWO_61
    ensures !(Div2(CeilLog2(stop), y) && Div2(CeilLog2(stop), y + 2))
  {
    hide Pow2;
    var k := CeilLog2(stop);
    Pow2Values();
    if k < 2 { Pow2Monotone(k, 31); }
    assert !Div2(k, 2) by {
      assert !Div2(k - 1, 1);
    }
    if Div2(k, y) && Div2(k, y + 2) {
      Div2Sum(k, y + 2, y);
    }
  }

  // 2^61 < stop <= 2^62: the offset itself can wrap to a negative odd number.
  lemma TopRangeFails(stop: int)
    requires TWO_61 < stop <= TWO_62
    ensures !Permutes(stop, 0, stop - 1)
  {
    var p := InitParams(stop, stop - 1);
    assert p.offset < 0;
    assert p.k >= 1 by {
      assert Pow2(0) == 1;
    }
    NegativeOffset(p);
    assert Orbit(p, 0, 1) == p.Step(Orbit(p, 0, 0));
    NegativeSpoils(stop, 0, stop - 1, 2);
  }

  lemma NegativeOffset(p: Params)
    requires p.Valid() && p.k >= 1 && -TWO_63 <= p.offset < 0
    ensures p.Step(0) < 0
  {
    hide TruncMod, Pow2;
    assert 0 * p.multiplier == 0;
    assert p.Step(0) == TruncMod(p.offset, Pow2(p.k));
    if p.Step(0) == 0 {
      TruncModCongruent(p.k, p.offset);
      assert false;
    }
  }

  // On a 64-bit machine the permuter works for every pair of draws exactly when stop <= 2^31.
  lemma PermutationIff(stop: int)
    requires 1 <= stop <= TWO_62
    ensures (forall r1, r2 | 0 <= r1 < stop && 0 <= r2 < stop :: Permutes(stop, r1, r2))
        <==> stop <= TWO_31
  {
    if stop <= TWO_31 {
      forall r1, r2 | 0 <= r1 < stop && 0 <= r2 < stop
        ensures Permutes(stop, r1, r2)
      {
        forall n: nat ensures Orbit(InitParams(stop, r2), r1, n) >= 0 {
          SmallOrbit(stop, r1, r2, n);
        }
        NonNegativePermutes(InitParams(stop, r2), r1);
      }
    } else if stop < TWO_32 {
      MiddleRangeFails(stop);
    } else if stop <= TWO_61 {
      var r1, r2 := UpperRangeFails(stop);
    } else {
      TopRangeFails(stop);
    }
  }

  // For a power of two nothing is skipped, and the first stop outputs run through every residue,
  // even where the register wraps and goes negative.
  lemma PowerOfTwoResidues(h: nat, r1: int, r2: int)
    requires h <= 62 && 0 <= r1 < Pow2(h) && 0 <= r2 < Pow2(h) && Pow2(h) <= TWO_62
    ensures InitParams(Pow2(h), r2).k == h
    ensures forall n: nat :: |Outputs(InitParams(Pow2(h), r2), r1, n)| == n
    ensures var out := Outputs(InitParams(Pow2(h), r2), r1, Pow2(h));
      |out| == Pow2(h) && IsPermutation(seq(|out|, i requires 0 <= i < |out| => out[i] % Pow2(h)), Pow2(h))
  {
    var stop := Pow2(h);
    var p := InitParams(stop, r2);
    ExactModulus(h, r2);
    forall n: nat
      ensures |Outputs(p, r1, n)| == n && forall i :: 0 <= i < n ==> Outputs(p, r1, n)[i] == Orbit(p, r1, i)
    {
      NothingSkipped(p, r1, n);
    }
    var out := Outputs(p, r1, stop);
    var res := seq(|out|, i requires 0 <= i < |out| => out[i] % Pow2(h));
    WindowDistinct(p, r1, 0, stop);
    assert res == Window(p, r1, 0, stop);
    FullRange(res, stop);
  }

  lemma SingleValue(r2: int)
    requires 0 <= r2 < 1
    ensures InitParams(1, r2).k == 0
  {
  }

  lemma ExactModulus(h: nat, r2: int)
    requires h <= 62 && 0 <= r2 < Pow2(h) <= TWO_62
    ensures InitParams(Pow2(h), r2).k == h
  {
    hide InitParams;
    if Pow2(h) == 1 { SingleValue(r2); }
    var k := InitParams(Pow2(h), r2).k;
    if k < h {
      assert Pow2(k + 1) == 2 * Pow2(k);
      Pow2Monotone(k + 1, h);
    } else if k > h && Pow2(h) >= 2 {
      Pow2Monotone(h, k - 1);
    }
  }

  lemma {:induction false} NothingSkipped(p: Params, seed: int, n: nat)
    requires p.Valid() && 0 <= seed < p.max == Pow2(p.k)
    ensures |Outputs(p, seed, n)| == n
    ensures forall i :: 0 <= i < n ==> Outputs(p, seed, n)[i] == Orbit(p, seed, i)
  {
    if n > 0 {
      NothingSkipped(p, seed, n - 1);
      OrbitBounds(p, seed, n - 1);
    }
  }
}
