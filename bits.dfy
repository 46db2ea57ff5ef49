/** The u32 bit operations the overlays use to pack colours, stated over
    unbounded naturals: shifts as multiplication and division by powers of
    two, `|` and `&` bit by bit from the least significant end. */
module Bits {
  import opened Numeric

  function Pow2(k: nat): (r: nat)
    ensures 1 <= r
  {
    if k == 0 then 1 else 2 * Pow2(k - 1)
  }

  lemma Pow2Bytes()
    ensures Pow2(8) == 0x100 && Pow2(16) == 0x1_0000
  {
    assert Pow2(4) == 0x10;
    assert Pow2(8) == 0x100;
    assert Pow2(12) == 0x1000;
  }

  /** `x << k` on u32: bits shifted past bit 31 are lost. */
  function Shl(x: u32, k: nat): (r: u32)
    ensures x * Pow2(k) < 0x1_0000_0000 ==> r == x * Pow2(k)
  {
    (x * Pow2(k)) % 0x1_0000_0000
  }

  /** `x >> k` on u32 (a logical shift): k halvings, each dropping the
      lowest bit. */
  function Shr(x: u32, k: nat): (r: u32)
    ensures r <= x
  {
    if k == 0 then x else Shr(x / 2, k - 1)
  }

  /** Shifting right by k undoes a shift left by k and drops whatever sat
      in the low k bits. */
  lemma {:induction false} ShrExact(a: nat, b: nat, k: nat)
    requires b < Pow2(k)
    requires a * Pow2(k) + b < 0x1_0000_0000
    ensures Shr(a * Pow2(k) + b, k) == a
    decreases k
  {
    if k > 0 {
      var x := a * Pow2(k) + b;
      var h := a * Pow2(k - 1) + b / 2;
      assert a * Pow2(k) == 2 * (a * Pow2(k - 1));
      assert x == 2 * h + b % 2;
      DivModUnique(x, 2, h, b % 2);
      ShrExact(a, b / 2, k - 1);
    }
  }

  /** Bitwise or. */
  function Or(a: nat, b: nat): nat
    decreases a + b
  {
    if a == 0 then b
    else if b == 0 then a
    else 2 * Or(a / 2, b / 2) + (if a % 2 == 1 || b % 2 == 1 then 1 else 0)
  }

  /** Bitwise and. */
  function And(a: nat, b: nat): nat
    decreases a + b
  {
    if a == 0 || b == 0 then 0
    else 2 * And(a / 2, b / 2) + (if a % 2 == 1 && b % 2 == 1 then 1 else 0)
  }

  /** When the low k bits of one operand are clear and the other operand
      fits in them, `|` adds. */
  lemma {:induction false} OrDisjoint(a: nat, b: nat, k: nat)
    requires b < Pow2(k)
    ensures Or(a * Pow2(k), b) == a * Pow2(k) + b
    decreases k
  {
    var x := a * Pow2(k);
    if k == 0 {
    } else if x == 0 || b == 0 {
    } else {
      assert x / 2 == a * Pow2(k - 1) && x % 2 == 0;
      OrDisjoint(a, b / 2, k - 1);
      assert Or(x, b) == 2 * Or(x / 2, b / 2) + b % 2;
    }
  }

  /** `& (2^k - 1)` keeps the low k bits. */
  lemma {:induction false} AndLowMask(x: nat, k: nat)
    ensures And(x, Pow2(k) - 1) == x % Pow2(k)
    decreases k
  {
    if k == 0 || x == 0 {
    } else {
      var p := Pow2(k - 1);
      var m := Pow2(k) - 1;
      assert m == 2 * (p - 1) + 1;
      assert m / 2 == p - 1 && m % 2 == 1;
      AndLowMask(x / 2, k - 1);
      assert And(x, m) == 2 * And(x / 2, m / 2) + x % 2;
      ModHalf(x, p);
    }
  }

  lemma ModHalf(x: nat, p: nat)
    requires 1 <= p
    ensures 2 * ((x / 2) % p) + x % 2 == x % (2 * p)
  {
    var q := (x / 2) / p;
    var s := (x / 2) % p;
    assert x == 2 * p * q + (2 * s + x % 2);
    assert 0 <= 2 * s + x % 2 < 2 * p;
    DivModUnique(x, 2 * p, q, 2 * s + x % 2);
  }

  lemma DivModUnique(x: int, d: int, q: int, r: int)
    requires 0 < d && x == d * q + r && 0 <= r < d
    ensures x % d == r && x / d == q
  {
    var k := q - x / d;
    assert d * k == x % d - r;
    if k != 0 {
      assert false;
    }
  }
}
