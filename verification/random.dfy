/** How Prng mixes 31-bit draws into 32- and 64-bit numbers (include/nebula/random.h). */
module Random {
  import opened Counting
  import opened Words

  const TWO_TO_THE_12 := 0x1000
  const TWO_TO_THE_13 := 0x2000
  const TWO_TO_THE_18 := 0x4_0000
  const TWO_TO_THE_19 := 0x8_0000
  const TWO_TO_THE_30 := 0x4000_0000
  const TWO_TO_THE_60 := 0x1000_0000_0000_0000

  function Pow2(k: nat): (p: nat)
    ensures p > 0
  {
    if k == 0 then 1 else 2 * Pow2(k - 1)
  }

  /** Bitwise or. */
  function Or(a: nat, b: nat): nat {
    if a == 0 && b == 0 then 0
    else 2 * Or(a / 2, b / 2) + (if a % 2 == 1 || b % 2 == 1 then 1 else 0)
  }

  /** r << 19 in 32 bits, then or with r2 >> 12. */
  function U32(r: nat, r2: nat): nat {
    Or(r * TWO_TO_THE_19 % TWO_TO_THE_32, r2 / TWO_TO_THE_12)
  }

  /** a << 32 in 64 bits, then or with b. */
  function U64(a: nat, b: nat): nat {
    Or(a * TWO_TO_THE_32 % TWO_TO_THE_64, b)
  }

  /** The generator: random_r's coming results, and how many have been taken. */
  class Prng {
    const draws: seq<nat>
    var taken: nat

    ghost predicate Valid()
      reads this
    {
      taken <= |draws| && forall i :: 0 <= i < |draws| ==> draws[i] < TWO_TO_THE_31
    }

    constructor (results: seq<nat>)
      requires forall i :: 0 <= i < |results| ==> results[i] < TWO_TO_THE_31
      ensures Valid() && draws == results && taken == 0
    {
      draws, taken := results, 0;
    }

    method RandomR() returns (r: nat)
      requires Valid() && taken < |draws|
      modifies this
      ensures Valid() && taken == old(taken) + 1 && r == draws[old(taken)]
    {
      r := draws[taken];
      taken := taken + 1;
    }

    method RandomU32() returns (v: nat)
      requires Valid() && taken + 2 <= |draws|
      modifies this
      ensures Valid() && taken == old(taken) + 2
      ensures v == U32(draws[old(taken)], draws[old(taken) + 1])
    {
      var r := RandomR();
      var r2 := RandomR();
      v := Or(r * TWO_TO_THE_19 % TWO_TO_THE_32, r2 / TWO_TO_THE_12);
    }

    method RandomU64() returns (v: nat)
      requires Valid() && taken + 4 <= |draws|
      modifies this
      ensures Valid() && taken == old(taken) + 4
      ensures v == U64(U32(draws[old(taken)], draws[old(taken) + 1]),
                       U32(draws[old(taken) + 2], draws[old(taken) + 3]))
    {
      var a := RandomU32();
      var b := RandomU32();
      v := a;
      v := v * TWO_TO_THE_32 % TWO_TO_THE_64;
      v := Or(v, b);
    }
  }

  /** An or of numbers that share no bit is their sum. */
  lemma {:induction false} OrDisjoint(a: nat, b: nat, k: nat)
    requires b < Pow2(k)
    ensures Or(a * Pow2(k), b) == a * Pow2(k) + b
  {
    if k == 0 {
      OrZero(a);
    } else if a == 0 && b == 0 {
    } else {
      OrDisjoint(a, b / 2, k - 1);
      Halve(a, Pow2(k - 1));
    }
  }

  lemma {:induction false} OrZero(a: nat)
    ensures Or(a, 0) == a
  {
    if a != 0 {
      OrZero(a / 2);
    }
  }

  lemma Halve(a: nat, p: nat)
    ensures a * (2 * p) == 2 * (a * p)
    ensures a * (2 * p) / 2 == a * p && a * (2 * p) % 2 == 0
  {}

  lemma Powers()
    ensures Pow2(19) == TWO_TO_THE_19 && Pow2(32) == TWO_TO_THE_32
  {
    assert Pow2(8) == 256;
    assert Pow2(16) == 65536;
    assert Pow2(24) == 16777216;
  }

  lemma ShiftDropsHighBits(r: nat)
    ensures r * TWO_TO_THE_19 % TWO_TO_THE_32 == (r % TWO_TO_THE_13) * TWO_TO_THE_19
  {
    var q := r / TWO_TO_THE_13;
    assert r * TWO_TO_THE_19 == q * TWO_TO_THE_32 + (r % TWO_TO_THE_13) * TWO_TO_THE_19;
  }

  /** The high 13 bits of the result are the low ones of the first draw, its low 19 bits the high ones of
      the second. */
  lemma U32Splits(r: nat, r2: nat)
    requires r < TWO_TO_THE_31 && r2 < TWO_TO_THE_31
    ensures U32(r, r2) == (r % TWO_TO_THE_13) * TWO_TO_THE_19 + r2 / TWO_TO_THE_12
    ensures U32(r, r2) < TWO_TO_THE_32
  {
    hide Or;
    Powers();
    ShiftDropsHighBits(r);
    OrDisjoint(r % TWO_TO_THE_13, r2 / TWO_TO_THE_12, 19);
  }

  lemma U64Splits(a: nat, b: nat)
    requires a < TWO_TO_THE_32 && b < TWO_TO_THE_32
    ensures U64(a, b) == a * TWO_TO_THE_32 + b && U64(a, b) < TWO_TO_THE_64
  {
    hide Or;
    Powers();
    OrDisjoint(a, b, 32);
  }

  // ----- uniformity -----

  function Draws(): set<int> { Interval(TWO_TO_THE_31) }

  /** The pairs of draws that randomU32 turns into v. */
  function Preimages32(v: nat): set<(int, int)> {
    set p | p in Product(Draws(), Draws()) && U32(p.0, p.1) == v
  }

  /** The quadruples of draws that randomU64 turns into w. */
  function Preimages64(w: nat): set<((int, int), (int, int))> {
    set q | q in Product(Product(Draws(), Draws()), Product(Draws(), Draws()))
            && U64(U32(q.0.0, q.0.1), U32(q.1.0, q.1.1)) == w
  }

  function WithLowBits(c: nat): set<int> {
    set r | r in Draws() && r % TWO_TO_THE_13 == c
  }

  function WithHighBits(c: nat): set<int> {
    set r | r in Draws() && r / TWO_TO_THE_12 == c
  }

  lemma WithLowBitsSize(c: nat)
    requires c < TWO_TO_THE_13
    ensures |WithLowBits(c)| == TWO_TO_THE_18
  {
    var f := h => h * TWO_TO_THE_13 + c;
    forall r | r in WithLowBits(c) ensures r in Image(Interval(TWO_TO_THE_18), f) {
      var h := r / TWO_TO_THE_13;
      assert h in Interval(TWO_TO_THE_18) && f(h) == r;
    }
    assert WithLowBits(c) == Image(Interval(TWO_TO_THE_18), f);
    ImageSize(Interval(TWO_TO_THE_18), f);
    IntervalSize(TWO_TO_THE_18);
  }

  lemma WithHighBitsSize(c: nat)
    requires c < TWO_TO_THE_19
    ensures |WithHighBits(c)| == TWO_TO_THE_12
  {
    var f := l => c * TWO_TO_THE_12 + l;
    forall r | r in WithHighBits(c) ensures r in Image(Interval(TWO_TO_THE_12), f) {
      var l := r % TWO_TO_THE_12;
      assert l in Interval(TWO_TO_THE_12) && f(l) == r;
    }
    assert WithHighBits(c) == Image(Interval(TWO_TO_THE_12), f);
    ImageSize(Interval(TWO_TO_THE_12), f);
    IntervalSize(TWO_TO_THE_12);
  }

  /** randomU32 is exactly uniform: each 32-bit value comes from 2^30 of the 2^62 pairs of draws. */
  lemma U32IsUniform(v: nat)
    requires v < TWO_TO_THE_32
    ensures |Preimages32(v)| == TWO_TO_THE_30
  {
    var high, low := v / TWO_TO_THE_19, v % TWO_TO_THE_19;
    forall r, r2 | r in Draws() && r2 in Draws()
      ensures U32(r, r2) == v <==> r in WithLowBits(high) && r2 in WithHighBits(low)
    {
      U32Splits(r, r2);
    }
    assert Preimages32(v) == Product(WithLowBits(high), WithHighBits(low));
    WithLowBitsSize(high);
    WithHighBitsSize(low);
    ProductSize(WithLowBits(high), WithHighBits(low));
  }

  /** randomU64 is exactly uniform: each 64-bit value comes from 2^60 of the 2^124 quadruples. */
  lemma U64IsUniform(w: nat)
    requires w < TWO_TO_THE_64
    ensures |Preimages64(w)| == TWO_TO_THE_60
  {
    var a, b := w / TWO_TO_THE_32, w % TWO_TO_THE_32;
    forall p, q | p in Product(Draws(), Draws()) && q in Product(Draws(), Draws())
      ensures U64(U32(p.0, p.1), U32(q.0, q.1)) == w <==> p in Preimages32(a) && q in Preimages32(b)
    {
      U32Splits(p.0, p.1);
      U32Splits(q.0, q.1);
      U64Splits(U32(p.0, p.1), U32(q.0, q.1));
    }
    assert Preimages64(w) == Product(Preimages32(a), Preimages32(b));
    U32IsUniform(a);
    U32IsUniform(b);
    ProductSize(Preimages32(a), Preimages32(b));
  }
}
