/** The usual optional-value wrapper. */
module Wrappers {
  datatype Option<+T> = None | Some(value: T)
}

/**
 * Fixed-width unsigned arithmetic and C's truncating division, written out
 * explicitly because Dafny's integers are unbounded and its `/` and `%` are
 * Euclidean.
 */
module Machine {
  const U8: nat := 0x100
  const U16: nat := 0x1_0000
  const U32: nat := 0x1_0000_0000
  const U64: nat := 0x1_0000_0000_0000_0000

  type byte = x: int | 0 <= x < 0x100

  /** Unsigned wrap-around to `2^bits` for a modulus `m`. */
  function Wrap(x: int, m: nat): (r: nat)
    requires m > 0
    ensures r < m
    ensures 0 <= x < m ==> r == x
  {
    x % m
  }

  /**
   * Conversion to a 32-bit signed `int`: two's-complement truncation, as the
   * usual compilers do it.
   */
  function ToInt32(x: int): (r: int)
    ensures -0x8000_0000 <= r < 0x8000_0000
    ensures 0 <= x < 0x8000_0000 ==> r == x
  {
    var u := x % U32;
    if u < 0x8000_0000 then u else u - U32
  }

  /** Conversion to a 16-bit signed integer (`int16_t`): two's-complement truncation. */
  function ToInt16(x: int): (r: int)
    ensures -0x8000 <= r < 0x8000
    ensures -0x8000 <= x < 0x8000 ==> r == x
  {
    var u := x % U16;
    if u < 0x8000 then u else u - U16
  }

  /** Incrementing a truncated counter and truncating again is truncating the incremented count. */
  lemma ToInt16Step(c: nat)
    ensures ToInt16(ToInt16(c) + 1) == ToInt16(c + 1)
  {
    var q := c / U16;
    var u := c % U16;
    assert c == U16 * q + u;
    var t := ToInt16(c);
    if u + 1 < U16 {
      LemmaModUnique(c + 1, U16, q, u + 1);
      if u < 0x8000 {
        assert t + 1 == u + 1;
      } else {
        assert t + 1 == u + 1 - U16;
        LemmaModUnique(u + 1 - U16, U16, -1, u + 1);
      }
    } else {
      LemmaModUnique(c + 1, U16, q + 1, 0);
      assert t == u - U16 == -1;
    }
  }

  /** C's `/` on signed integers: rounds toward zero. */
  function CDiv(a: int, b: int): (q: int)
    requires b != 0
    ensures a >= 0 && b > 0 ==> q == a / b
    ensures q * b == a - CRem(a, b)
  {
    if a >= 0 then (if b > 0 then a / b else -(a / -b))
    else (if b > 0 then -((-a) / b) else (-a) / (-b))
  }

  /** C's `%` on signed integers: the remainder takes the sign of `a`. */
  function CRem(a: int, b: int): (r: int)
    requires b != 0
    ensures -(Abs(b) as int) < r < Abs(b)
    ensures a >= 0 ==> 0 <= r
    ensures a <= 0 ==> r <= 0
  {
    if a >= 0 then a % Abs(b) else -((-a) % Abs(b))
  }

  function Abs(x: int): nat { if x < 0 then -x else x }

  /** The `n` low-order bytes of `v`, least significant first. */
  function LittleEndian(v: nat, n: nat): (bs: seq<byte>)
    ensures |bs| == n
    decreases n
  {
    if n == 0 then [] else [(v % 256) as byte] + LittleEndian(v / 256, n - 1)
  }

  /** The value of a little-endian byte sequence. */
  function FromLittleEndian(bs: seq<byte>): (v: nat)
  {
    if bs == [] then 0 else bs[0] as nat + 256 * FromLittleEndian(bs[1..])
  }

  function Pow256(n: nat): (p: nat)
    ensures p > 0
  {
    if n == 0 then 1 else 256 * Pow256(n - 1)
  }

  lemma {:induction false} FromLittleEndianBound(bs: seq<byte>)
    ensures FromLittleEndian(bs) < Pow256(|bs|)
  {
    if bs != [] {
      FromLittleEndianBound(bs[1..]);
    }
  }

  /** Encoding the low `n` bytes and reading them back gives `v mod 256^n`. */
  lemma {:induction false} LittleEndianRoundTrip(v: nat, n: nat)
    ensures FromLittleEndian(LittleEndian(v, n)) == v % Pow256(n)
  {
    if n > 0 {
      LittleEndianRoundTrip(v / 256, n - 1);
      var p := Pow256(n - 1);
      var bs := LittleEndian(v, n);
      assert bs[1..] == LittleEndian(v / 256, n - 1);
      ModSplit(v, p);
    }
  }

  lemma ModSplit(v: nat, p: nat)
    requires p > 0
    ensures v % (256 * p) == v % 256 + 256 * ((v / 256) % p)
  {
    var q := v / 256;
    var r := v % 256;
    assert v == 256 * q + r;
    var q2 := q / p;
    var r2 := q % p;
    assert q == p * q2 + r2;
    assert v == (256 * p) * q2 + (256 * r2 + r);
    assert 0 <= 256 * r2 + r < 256 * p;
    LemmaModUnique(v, 256 * p, q2, 256 * r2 + r);
  }

  lemma LemmaModUnique(v: int, m: int, q: int, r: int)
    requires m > 0 && 0 <= r < m && v == m * q + r
    ensures v % m == r && v / m == q
  {
    var q0 := v / m;
    var r0 := v % m;
    assert v == m * q0 + r0;
    if q0 > q {
      assert m * q0 >= m * (q + 1) by { LemmaMulMono(m, q + 1, q0); }
      assert false;
    } else if q0 < q {
      assert m * q >= m * (q0 + 1) by { LemmaMulMono(m, q0 + 1, q); }
      assert false;
    }
  }

  /** Adding the modulus does not change the remainder. */
  lemma ModAddModulus(x: nat, m: nat)
    requires m > 0
    ensures (x + m) % m == x % m
  {
    LemmaModUnique(x, m, x / m, x % m);
    LemmaModUnique(x + m, m, x / m + 1, x % m);
  }

  lemma LemmaMulLe(a: nat, b: nat, c: nat)
    requires a <= b
    ensures a * c <= b * c
  {
  }

  lemma MulAddDist(a: nat, k: nat, c: nat)
    ensures (a + k) * c == a * c + k * c
  {
  }

  /** Wrapping after each of two additions is wrapping once after both. */
  lemma WrapAdd(x: nat, k: nat, y: nat, m: nat)
    requires m > 0 && y == x + k
    ensures Wrap(Wrap(x, m) + k, m) == Wrap(y, m)
  {
    var q := x / m;
    var r := x % m;
    assert x == m * q + r;
    var q2 := (r + k) / m;
    var r2 := (r + k) % m;
    assert r + k == m * q2 + r2;
    assert x + k == m * (q + q2) + r2;
    LemmaModUnique(x + k, m, q + q2, r2);
  }

  lemma LemmaMulMono(m: int, a: int, b: int)
    requires m > 0 && a <= b
    ensures m * a <= m * b
  {
  }

  lemma Pow256Values()
    ensures Pow256(1) == U8 && Pow256(2) == U16 && Pow256(4) == U32 && Pow256(8) == U64
  {
    assert Pow256(2) == 256 * 256;
    assert Pow256(3) == 256 * 256 * 256;
    assert Pow256(4) == U32;
    assert Pow256(5) == 256 * U32;
    assert Pow256(6) == 256 * 256 * U32;
    assert Pow256(7) == 256 * 256 * 256 * U32;
  }
}
