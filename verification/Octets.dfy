/** Bytes, their exclusive or, big-endian numbers, and the primitives the security code takes from libraries. */
module Octets {
  import opened Wrappers

  type Byte = n: int | 0 <= n < 256

  /** The lowest `bits` binary digits of the exclusive or. */
  function XorBits(bits: nat, a: nat, b: nat): nat {
    if bits == 0 then 0 else (if a % 2 == b % 2 then 0 else 1) + 2 * XorBits(bits - 1, a / 2, b / 2)
  }

  function PowerOfTwo(bits: nat): nat {
    if bits == 0 then 1 else 2 * PowerOfTwo(bits - 1)
  }

  lemma {:induction false} XorBound(bits: nat, a: nat, b: nat)
    ensures XorBits(bits, a, b) < PowerOfTwo(bits)
  {
    if bits > 0 { XorBound(bits - 1, a / 2, b / 2); }
  }

  function Xor(a: Byte, b: Byte): Byte {
    XorBound(8, a, b);
    assert PowerOfTwo(4) == 16;
    assert PowerOfTwo(8) == 256;
    XorBits(8, a, b)
  }

  lemma {:induction false} XorBitsCancel(bits: nat, a: nat, b: nat)
    requires a < PowerOfTwo(bits)
    ensures XorBits(bits, XorBits(bits, a, b), b) == a
  {
    if bits > 0 {
      var rest := XorBits(bits - 1, a / 2, b / 2);
      XorBitsCancel(bits - 1, a / 2, b / 2);
      assert XorBits(bits, a, b) / 2 == rest;
    }
  }

  lemma XorCancel(a: Byte, b: Byte)
    ensures Xor(Xor(a, b), b) == a
  {
    hide XorBits;
    assert PowerOfTwo(4) == 16;
    assert PowerOfTwo(8) == 256;
    XorBitsCancel(8, a, b);
  }

  /** Digit k of a byte, the lowest first, is 1. */
  predicate One(a: Byte, k: nat)
    requires k < 8
  {
    a / [1, 2, 4, 8, 16, 32, 64, 128][k] % 2 == 1
  }

  function Halved(n: nat, k: nat): nat {
    if k == 0 then n else Halved(n / 2, k - 1)
  }

  lemma Larger(q: nat, x: nat, y: nat)
    requires x < y
    ensures q * x + q <= q * y
  {
    assert q * (y - x - 1) >= 0;
  }

  lemma Quotient(q: nat, x: nat, r: nat, y: nat, s: nat)
    requires q * x + r == q * y + s && r < q && s < q
    ensures x == y
  {
    if x < y { Larger(q, x, y); }
    if y < x { Larger(q, y, x); }
  }

  lemma HalfQuotient(n: nat, q: nat)
    requires q > 0
    ensures n / 2 / q == n / (2 * q)
  {
    var x, r := n / (2 * q), n % (2 * q);
    assert n == 2 * q * x + r;
    assert 2 * q * x == 2 * (q * x);
    assert n / 2 == q * x + r / 2;
    Quotient(q, x, r / 2, n / 2 / q, n / 2 % q);
  }

  lemma {:induction false} HalvedIsQuotient(n: nat, k: nat)
    ensures PowerOfTwo(k) > 0 && Halved(n, k) == n / PowerOfTwo(k)
  {
    if k > 0 {
      HalvedIsQuotient(n / 2, k - 1);
      HalfQuotient(n, PowerOfTwo(k - 1));
    }
  }

  lemma PowersOfTwo(k: nat)
    requires k < 8
    ensures PowerOfTwo(k) == [1, 2, 4, 8, 16, 32, 64, 128][k]
  {
    assert PowerOfTwo(1) == 2 && PowerOfTwo(2) == 4 && PowerOfTwo(3) == 8 && PowerOfTwo(4) == 16;
    assert PowerOfTwo(5) == 32 && PowerOfTwo(6) == 64 && PowerOfTwo(7) == 128;
  }

  lemma {:induction false} XorBitsDigit(bits: nat, a: nat, b: nat, k: nat)
    requires k < bits
    ensures Halved(XorBits(bits, a, b), k) % 2 == 1 <==> Halved(a, k) % 2 != Halved(b, k) % 2
  {
    var rest := XorBits(bits - 1, a / 2, b / 2);
    assert XorBits(bits, a, b) / 2 == rest;
    if k > 0 { XorBitsDigit(bits - 1, a / 2, b / 2, k - 1); }
  }

  /** The exclusive or: each digit is 1 exactly where the two digits differ. */
  lemma XorDigits(a: Byte, b: Byte, k: nat)
    requires k < 8
    ensures One(Xor(a, b), k) <==> One(a, k) != One(b, k)
  {
    hide XorBits, Halved, PowerOfTwo;
    XorBitsDigit(8, a, b, k);
    PowersOfTwo(k);
    HalvedIsQuotient(a, k);
    HalvedIsQuotient(b, k);
    HalvedIsQuotient(Xor(a, b), k);
  }

  /** The `width` lowest base-256 digits of a number, most significant first. */
  function BigEndian(width: nat, n: nat): (octets: seq<Byte>)
    ensures |octets| == width
  {
    if width == 0 then [] else BigEndian(width - 1, n / 256) + [n % 256]
  }

  function FromBigEndian(octets: seq<Byte>): nat {
    if octets == [] then 0 else FromBigEndian(octets[..|octets| - 1]) * 256 + octets[|octets| - 1]
  }

  function PowerOf256(width: nat): nat {
    if width == 0 then 1 else 256 * PowerOf256(width - 1)
  }

  lemma {:induction false} BigEndianValue(width: nat, n: nat)
    requires n < PowerOf256(width)
    ensures FromBigEndian(BigEndian(width, n)) == n
  {
    if width > 0 {
      BigEndianValue(width - 1, n / 256);
      assert BigEndian(width, n)[..width - 1] == BigEndian(width - 1, n / 256);
    }
  }

  /** The four octets of a 32-bit number, the most significant first. */
  lemma BigEndian4(n: nat)
    requires n < 0x1_0000_0000
    ensures BigEndian(4, n) == [n / 0x100_0000, n / 0x1_0000 % 0x100, n / 0x100 % 0x100, n % 0x100]
  {
    var a, b, c := n / 0x100, n / 0x1_0000, n / 0x100_0000;
    assert a / 0x100 == b && b / 0x100 == c && c < 0x100;
    assert BigEndian(1, c) == [c];
    assert BigEndian(2, b) == [c, b % 0x100];
    assert BigEndian(3, a) == [c, b % 0x100, a % 0x100];
  }

  /** The eight octets of a 64-bit number: the first weighs 2^56, the last 1. */
  lemma BigEndian8(n: nat)
    requires n < 0x1_0000_0000_0000_0000
    ensures
      var s: seq<int> := BigEndian(8, n);
      s[0] * 0x100_0000_0000_0000 + s[1] * 0x1_0000_0000_0000 + s[2] * 0x100_0000_0000 + s[3] * 0x1_0000_0000
      + s[4] * 0x100_0000 + s[5] * 0x1_0000 + s[6] * 0x100 + s[7] == n
  {
    var a := n / 0x100;
    var b := a / 0x100;
    var c := b / 0x100;
    var d := c / 0x100;
    FourDigits(n, a, b, c, d, 4);
    var e := d / 0x100;
    var f := e / 0x100;
    var g := f / 0x100;
    FourDigits(d, e, f, g, g / 0x100, 0);
  }

  lemma FourDigits(n: nat, a: nat, b: nat, c: nat, d: nat, width: nat)
    requires a == n / 0x100 && b == a / 0x100 && c == b / 0x100 && d == c / 0x100
    ensures BigEndian(width + 4, n) == BigEndian(width, d) + [c % 0x100, b % 0x100, a % 0x100, n % 0x100]
  {
    assert BigEndian(width + 4, n) == BigEndian(width + 3, a) + [n % 0x100];
    assert BigEndian(width + 3, a) == BigEndian(width + 2, b) + [a % 0x100];
    assert BigEndian(width + 2, b) == BigEndian(width + 1, c) + [b % 0x100];
    assert BigEndian(width + 1, c) == BigEndian(width, d) + [c % 0x100];
  }

  /** The length of an HMAC-SHA-256 value. */
  const DIGEST_SIZE: nat := 32

  type Digest = bytes: seq<Byte> | |bytes| == DIGEST_SIZE witness seq(DIGEST_SIZE, _ => 0)

  /** HMAC-SHA-256, of which only the length of the result is used. */
  type Hmac = (seq<Byte>, seq<Byte>) -> Digest

  /** A base64 alphabet: the decoder accepts what the encoder wrote, and may refuse anything else. */
  datatype Base64 = Base64(encode: seq<Byte> -> string, decode: string -> Option<seq<Byte>>)
  {
    ghost predicate Inverse() {
      && encode([]) == ""
      && forall raw :: decode(encode(raw)) == Some(raw)
    }
  }
}
