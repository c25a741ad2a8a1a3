/** Values shared by the whole model: optional values, results with an error
    message, the world tile, and Kotlin's 32-bit `Int` arithmetic written out
    on unbounded integers. */
module Common {

  datatype Option<+T> = None | Some(value: T)

  /** A Kotlin exception (`check`, `checkNotNull`, `throw Exception(..)`)
      becomes a `Failure` carrying the exception's message. */
  datatype Result<+R> = Success(value: R) | Failure(message: string)

  /** A position in the world: `x`, `z` and a height plane. */
  datatype Tile = Tile(x: int, z: int, height: int)

  /** `Tile.sameAs`: the two tiles agree on all three coordinates. */
  predicate SameAs(a: Tile, b: Tile) {
    a.x == b.x && a.z == b.z && a.height == b.height
  }

  /** `Tile.isWithinRadius(x, z, height, radius)`: same plane, and neither
      axis differs by more than `radius`. */
  predicate IsWithinRadius(t: Tile, x: int, z: int, height: int, radius: int) {
    t.height == height && Abs(t.x - x) <= radius && Abs(t.z - z) <= radius
  }

  function Abs(v: int): nat { if v < 0 then -v else v }

  // ---------------------------------------------------------------------
  // 32-bit two's complement arithmetic (Kotlin `Int`)
  // ---------------------------------------------------------------------

  const TWO_32: int := 0x1_0000_0000
  const TWO_31: int := 0x8000_0000

  predicate IsInt32(v: int) { -TWO_31 <= v < TWO_31 }

  function Pow2(k: nat): (r: nat)
    ensures r >= 1
  {
    if k == 0 then 1 else 2 * Pow2(k - 1)
  }

  /** The unsigned 32-bit pattern of `v`. */
  function Unsigned(v: int): (u: nat)
    ensures u < TWO_32
  {
    v % TWO_32
  }

  /** Reads an unsigned 32-bit pattern back as a signed `Int`. */
  function Signed(u: nat): (v: int)
    requires u < TWO_32
    ensures IsInt32(v) && Unsigned(v) == u
  {
    if u >= TWO_31 then u - TWO_32 else u
  }

  /** Wrap-around of an arbitrary integer into the `Int` range. */
  function Wrap32(v: int): (r: int)
    ensures IsInt32(r)
    ensures (r - v) % TWO_32 == 0
    ensures IsInt32(v) ==> r == v
  {
    Signed(Unsigned(v))
  }

  /** Kotlin `a shl k` for 0 <= k < 32. */
  function Shl(a: int, k: nat): int
    requires k < 32
  {
    Wrap32(a * Pow2(k))
  }

  /** Kotlin `a shr k`: the arithmetic shift rounds towards negative
      infinity, which is Dafny's division by a positive divisor. */
  function Shr(a: int, k: nat): int
    requires k < 32
  {
    Wrap32(a) / Pow2(k)
  }

  /** Bitwise `and` of the low `n` bits of two naturals. */
  function BitAnd(a: nat, b: nat, n: nat): (r: nat)
    ensures r < Pow2(n)
  {
    if n == 0 then 0
    else 2 * BitAnd(a / 2, b / 2, n - 1) + (if a % 2 == 1 && b % 2 == 1 then 1 else 0)
  }

  /** Bitwise `or` of the low `n` bits of two naturals. */
  function BitOr(a: nat, b: nat, n: nat): (r: nat)
    ensures r < Pow2(n)
  {
    if n == 0 then 0
    else 2 * BitOr(a / 2, b / 2, n - 1) + (if a % 2 == 1 || b % 2 == 1 then 1 else 0)
  }

  /** Kotlin `a and b` on `Int`. */
  function And(a: int, b: int): int {
    Pow2_32();
    Signed(BitAnd(Unsigned(a), Unsigned(b), 32))
  }

  /** Kotlin `a or b` on `Int`. */
  function Or(a: int, b: int): int {
    Pow2_32();
    Signed(BitOr(Unsigned(a), Unsigned(b), 32))
  }

  /** Kotlin `a / b` on `Int`: the quotient is truncated towards zero. */
  function Quot(a: int, b: int): (q: int)
    requires b != 0
    ensures a >= 0 && b > 0 ==> q == a / b
  {
    if a >= 0 then (if b > 0 then a / b else -(a / -b))
    else (if b > 0 then -((-a) / b) else (-a) / (-b))
  }

  /** Concatenation is associative (for element types whose equality is
      costly to reason about element by element). */
  lemma ConcatAssoc<T>(a: seq<T>, b: seq<T>, c: seq<T>)
    ensures a + (b + c) == (a + b) + c
  {
  }

  lemma ConcatEmpty<T>(a: seq<T>)
    ensures a + [] == a && [] + a == a
  {
  }

  lemma Pow2Add(j: nat, k: nat)
    ensures Pow2(j + k) == Pow2(j) * Pow2(k)
  {
    if j > 0 { Pow2Add(j - 1, k); }
  }

  lemma Pow2_32()
    ensures Pow2(32) == TWO_32
  {
    Pow2Add(16, 16);
    assert Pow2(16) == 65536 by { Pow2Add(8, 8); assert Pow2(8) == 256; }
  }

  lemma Pow2_14_16()
    ensures Pow2(14) == 16384 && Pow2(16) == 65536
  {
    Pow2Add(8, 8);
    Pow2Add(8, 6);
    assert Pow2(8) == 256;
  }

  /** Masking with `2^k - 1` keeps the low `k` bits. */
  lemma BitAndLowMask(a: nat, k: nat, n: nat)
    requires k <= n
    ensures BitAnd(a, Pow2(k) - 1, n) == a % Pow2(k)
  {
    BitAndMaskIsLowBits(a, k, n);
    LowBitsIsMod(a, k);
  }

  /** The low `k` bits of `a`, bit by bit. */
  function LowBits(a: nat, k: nat): nat {
    if k == 0 then 0 else 2 * LowBits(a / 2, k - 1) + a % 2
  }

  lemma {:induction false} LowBitsIsMod(a: nat, k: nat)
    ensures LowBits(a, k) == a % Pow2(k)
  {
    if k > 0 {
      LowBitsIsMod(a / 2, k - 1);
      DivModPow2(a, k);
    }
  }

  /** `2^k - 1` is odd and halves to `2^(k-1) - 1`. */
  lemma MaskHalves(k: nat)
    requires k > 0
    ensures (Pow2(k) - 1) % 2 == 1 && (Pow2(k) - 1) / 2 == Pow2(k - 1) - 1
  {
    var h := Pow2(k - 1);
    assert Pow2(k) - 1 == (h - 1) * 2 + 1;
    LemmaModUnique(Pow2(k) - 1, 2, h - 1, 1);
  }

  lemma {:induction false} BitAndMaskIsLowBits(a: nat, k: nat, n: nat)
    requires k <= n
    ensures BitAnd(a, Pow2(k) - 1, n) == LowBits(a, k)
  {
    if k == 0 {
      BitAndZero(a, n);
    } else {
      MaskHalves(k);
      BitAndStep(a, Pow2(k) - 1, n);
      BitAndMaskIsLowBits(a / 2, k - 1, n - 1);
    }
  }

  /** One bit of `BitAnd` with an odd mask. */
  lemma BitAndStep(a: nat, m: nat, n: nat)
    requires n > 0 && m % 2 == 1
    ensures BitAnd(a, m, n) == 2 * BitAnd(a / 2, m / 2, n - 1) + a % 2
  {
  }

  /** Masking an `Int` with `2^k - 1` keeps its residue modulo `2^k`,
      negative values included. */
  lemma {:induction false} AndLowMask(a: int, k: nat)
    requires 1 <= k <= 31
    ensures And(a, Pow2(k) - 1) == a % Pow2(k)
  {
    Pow2_32();
    var p := Pow2(k);
    var q := Pow2(31 - k);
    var m := Pow2(32 - k);
    Pow2Add(k, 31 - k);
    Pow2Add(k, 32 - k);
    assert Pow2(32) == 2 * Pow2(31);
    assert p * q == TWO_31;
    assert p * m == TWO_32;
    MulAtLeast(q, p);
    assert p <= TWO_31;
    LemmaModUnique(p - 1, TWO_32, 0, p - 1);
    assert Unsigned(p - 1) == p - 1;
    var u := Unsigned(a);
    assert u == a % (p * m);
    ModOfMod(a, p, m);
    BitAndLowMask(u, k, 32);
    assert BitAnd(u, p - 1, 32) == a % p;
    assert And(a, p - 1) == Signed(a % p);
  }

  lemma ModOfMod(a: int, p: int, m: int)
    requires p > 0 && m > 0
    ensures (a % (p * m)) % p == a % p
  {
    var r := a % (p * m);
    var q := a / (p * m);
    assert a == q * (p * m) + r;
    assert a == (q * m + r / p) * p + r % p by {
      assert r == (r / p) * p + r % p;
      assert q * (p * m) == (q * m) * p;
    }
    LemmaModUnique(a, p, q * m + r / p, r % p);
  }

  lemma {:induction false} BitAndZero(a: nat, n: nat)
    ensures BitAnd(a, 0, n) == 0
  {
    if n > 0 { BitAndZero(a / 2, n - 1); }
  }

  /** a mod 2^k splits into the lowest bit and the rest shifted down. */
  lemma DivModPow2(a: int, k: nat)
    requires k > 0
    ensures a % Pow2(k) == 2 * ((a / 2) % Pow2(k - 1)) + a % 2
  {
    var p := Pow2(k - 1);
    var q := (a / 2) / p;
    var r := (a / 2) % p;
    assert a / 2 == q * p + r;
    assert a == q * (2 * p) + (2 * r + a % 2);
    assert 0 <= 2 * r + a % 2 < 2 * p;
    LemmaModUnique(a, 2 * p, q, 2 * r + a % 2);
  }

  lemma LemmaModUnique(a: int, m: int, q: int, r: int)
    requires m > 0 && 0 <= r < m && a == q * m + r
    ensures a % m == r && a / m == q
  {
    var q0, r0 := a / m, a % m;
    var d := q0 - q;
    assert d * m == r - r0 by {
      assert q0 * m + r0 == q * m + r;
      assert (q0 - q) * m == q0 * m - q * m;
    }
    if d > 0 {
      MulAtLeast(d, m);
    } else if d < 0 {
      assert (-d) * m == -(d * m);
      MulAtLeast(-d, m);
    }
  }

  lemma MulAtLeast(d: int, m: int)
    requires d >= 1 && m > 0
    ensures d * m >= m
  {
    assert d * m == (d - 1) * m + m;
    assert (d - 1) * m >= 0;
  }

  /** `or` of a value whose low `k` bits are clear with a value below `2^k`
      is their sum. */
  lemma {:induction false} BitOrDisjoint(a: nat, b: nat, k: nat, n: nat)
    requires k <= n
    requires a % Pow2(k) == 0 && b < Pow2(k)
    ensures BitOr(a, b, n) == (a + b) % Pow2(n)
  {
    if n == 0 {
    } else if k == 0 {
      assert b == 0;
      BitOrZero(a, n);
    } else {
      DivModPow2(a, k);
      assert (a / 2) % Pow2(k - 1) == 0;
      assert b / 2 < Pow2(k - 1);
      BitOrDisjoint(a / 2, b / 2, k - 1, n - 1);
      assert a % 2 == 0;
      assert (a + b) / 2 == a / 2 + b / 2;
      assert (a + b) % 2 == b % 2;
      DivModPow2(a + b, n);
    }
  }

  lemma {:induction false} BitOrZero(a: nat, n: nat)
    ensures BitOr(a, 0, n) == a % Pow2(n)
  {
    if n > 0 {
      BitOrZero(a / 2, n - 1);
      DivModPow2(a, n);
    }
  }

  // ---------------------------------------------------------------------
  // Decimal text of an `Int`, as the JVM writes it in exception messages
  // ---------------------------------------------------------------------

  function DigitChar(d: nat): char
    requires d < 10
  {
    (48 + d) as char
  }

  /** The decimal digits of `n`, most significant first, without leading
      zeros. */
  function NatToDecimal(n: nat): (s: string)
    ensures |s| >= 1
  {
    if n < 10 then [DigitChar(n)] else NatToDecimal(n / 10) + [DigitChar(n % 10)]
  }

  /** `Integer.toString`: a minus sign in front of a negative value. */
  function IntToDecimal(v: int): string {
    if v < 0 then "-" + NatToDecimal(-v) else NatToDecimal(v)
  }

  predicate IsDigits(s: string) {
    forall i :: 0 <= i < |s| ==> '0' <= s[i] <= '9'
  }

  /** Reading decimal digits back as a number. */
  function DigitsValue(s: string): nat
    requires IsDigits(s)
  {
    if s == [] then 0 else 10 * DigitsValue(s[..|s| - 1]) + (s[|s| - 1] as int - 48)
  }

  /** Reading an optionally signed decimal back as a number. */
  function ParseDecimal(s: string): int
    requires |s| >= 1 && (if s[0] == '-' then IsDigits(s[1..]) else IsDigits(s))
  {
    if s[0] == '-' then -(DigitsValue(s[1..]) as int) else DigitsValue(s)
  }

  lemma {:induction false} NatToDecimalRoundTrip(n: nat)
    ensures IsDigits(NatToDecimal(n)) && NatToDecimal(n)[0] != '-'
    ensures DigitsValue(NatToDecimal(n)) == n
    ensures n > 0 ==> NatToDecimal(n)[0] != '0'
  {
    var s := NatToDecimal(n);
    if n >= 10 {
      NatToDecimalRoundTrip(n / 10);
      var t := NatToDecimal(n / 10);
      assert s == t + [DigitChar(n % 10)];
      assert s[..|s| - 1] == t;
      assert s[0] == t[0];
    }
  }

  /** The decimal text of an `Int` reads back as that `Int`: the index in
      an exception message names the index exactly. */
  lemma IntToDecimalRoundTrip(v: int)
    ensures var s := IntToDecimal(v);
      |s| >= 1 && (if s[0] == '-' then IsDigits(s[1..]) else IsDigits(s)) && ParseDecimal(s) == v
  {
    if v < 0 {
      NatToDecimalRoundTrip(-v);
      assert IntToDecimal(v)[1..] == NatToDecimal(-v);
    } else {
      NatToDecimalRoundTrip(v);
    }
  }
}
