/** The service-instance hash: 64-bit FNV-1a (section 2 of draft-eastlake-fnv) written in
    base32 (section 6 of RFC 4648), as tools/aws_redis_update_manager/lib/fnv.rb does it. */
module Fnv {

  type Byte = b: nat | b < 256

  const OFFSET: nat := 0xcbf29ce484222325
  const PRIME: nat := 1_099_511_628_211
  const MODULUS: nat := 0x1_0000_0000_0000_0000

  // ---------------------------------------------------------------- xor

  /** Ruby's `^` on non-negative integers. */
  function Xor(a: nat, b: nat): (r: nat)
    decreases a + b
  {
    if a == 0 && b == 0 then 0 else 2 * Xor(a / 2, b / 2) + (if a % 2 == b % 2 then 0 else 1)
  }

  lemma {:induction false} XorUndoes(a: nat, b: nat)
    ensures Xor(Xor(a, b), b) == a
    decreases a + b
  {
    if a != 0 || b != 0 {
      XorUndoes(a / 2, b / 2);
      var x := Xor(a, b);
      assert x / 2 == Xor(a / 2, b / 2) && x % 2 == if a % 2 == b % 2 then 0 else 1;
    }
  }

  lemma {:induction false} XorComm(a: nat, b: nat)
    ensures Xor(a, b) == Xor(b, a)
    decreases a + b
  {
    if a != 0 || b != 0 {
      XorComm(a / 2, b / 2);
    }
  }

  /** Xor stays below any power of two both operands stay below. */
  lemma {:induction false} XorBound(a: nat, b: nat, k: nat)
    requires a < Pow2(k) && b < Pow2(k)
    ensures Xor(a, b) < Pow2(k)
    decreases k
  {
    if a != 0 || b != 0 {
      XorBound(a / 2, b / 2, k - 1);
    }
  }

  function Pow2(k: nat): nat { if k == 0 then 1 else 2 * Pow2(k - 1) }

  lemma Pow2Of64()
    ensures Pow2(64) == MODULUS
  {
    assert Pow2(4) == 16;
    Pow2Add(4, 4);
    Pow2Add(8, 8);
    Pow2Add(16, 16);
    Pow2Add(32, 32);
  }

  lemma Regroup(p: nat, q: nat)
    ensures (2 * p) * q == 2 * (p * q)
  {
  }

  lemma {:induction false} Pow2Add(a: nat, b: nat)
    ensures Pow2(a + b) == Pow2(a) * Pow2(b)
  {
    if a > 0 {
      Pow2Add(a - 1, b);
      Regroup(Pow2(a - 1), Pow2(b));
      assert Pow2(a + b) == 2 * Pow2(a - 1 + b) && Pow2(a) == 2 * Pow2(a - 1);
    }
  }

  // ---------------------------------------------------------------- the hash

  /** One turn of the loop: `hash ^= b; hash *= prime; hash &= mask`. */
  function Step(hash: nat, b: Byte): (r: nat)
    ensures r < MODULUS
  {
    (Xor(hash, b) * PRIME) % MODULUS
  }

  function HashFrom(hash: nat, input: seq<Byte>): nat
    decreases |input|
  {
    if input == [] then hash else HashFrom(Step(hash, input[0]), input[1..])
  }

  function Hash(input: seq<Byte>): nat { HashFrom(OFFSET, input) }

  /** PRIME's inverse modulo 2^64. */
  const INVERSE: nat := 0xce965057aff6957b

  function Unstep(hash: nat, b: Byte): nat { Xor((hash * INVERSE) % MODULUS, b) }

  lemma ModIs(x: int, r: nat, t: int)
    requires r < MODULUS && x == r + t * MODULUS
    ensures x % MODULUS == r
  {
    var q, r' := x / MODULUS, x % MODULUS;
    assert (q - t) * MODULUS == r - r';
  }

  lemma MultiplyUndoes(x: nat)
    requires x < MODULUS
    ensures ((x * PRIME) % MODULUS) * INVERSE % MODULUS == x
    ensures ((x * INVERSE) % MODULUS) * PRIME % MODULUS == x
  {
    var y, d := (x * PRIME) % MODULUS, x * PRIME / MODULUS;
    var z, e := (x * INVERSE) % MODULUS, x * INVERSE / MODULUS;
    assert y == x * PRIME - d * MODULUS && z == x * INVERSE - e * MODULUS;
    ModIs(y * INVERSE, x, x * 887285111055 - d * INVERSE);
    ModIs(z * PRIME, x, x * 887285111055 - e * PRIME);
  }

  lemma XorOfByte(hash: nat, b: Byte)
    requires hash < MODULUS
    ensures Xor(hash, b) < MODULUS
  {
    Pow2Of64();
    XorBound(hash, b, 64);
  }

  /** For a fixed byte a turn of the loop is a bijection on the states. */
  lemma StepUndone(hash: nat, b: Byte)
    requires hash < MODULUS
    ensures Unstep(Step(hash, b), b) == hash
    ensures Unstep(hash, b) < MODULUS && Step(Unstep(hash, b), b) == hash
  {
    hide Xor;
    XorOfByte(hash, b);
    MultiplyUndoes(Xor(hash, b));
    XorUndoes(hash, b);
    var y := (hash * INVERSE) % MODULUS;
    XorOfByte(y, b);
    XorUndoes(y, b);
    MultiplyUndoes(hash);
  }

  /** For a fixed state it is injective in the byte. */
  lemma StepTellsBytes(hash: nat, b: Byte, c: Byte)
    requires hash < MODULUS && Step(hash, b) == Step(hash, c)
    ensures b == c
  {
    hide Xor;
    XorOfByte(hash, b);
    XorOfByte(hash, c);
    MultiplyUndoes(Xor(hash, b));
    MultiplyUndoes(Xor(hash, c));
    XorComm(hash, b);
    XorComm(hash, c);
    XorUndoes(b, hash);
    XorUndoes(c, hash);
  }

  lemma {:induction false} HashFromTells(x: nat, y: nat, input: seq<Byte>)
    requires x < MODULUS && y < MODULUS && HashFrom(x, input) == HashFrom(y, input)
    ensures x == y
    decreases |input|
  {
    if input != [] {
      HashFromTells(Step(x, input[0]), Step(y, input[0]), input[1..]);
      StepUndone(x, input[0]);
      StepUndone(y, input[0]);
    }
  }

  lemma {:induction false} HashFromSplit(hash: nat, input: seq<Byte>, i: nat)
    requires hash < MODULUS && i <= |input|
    ensures HashFrom(hash, input) == HashFrom(HashFrom(hash, input[..i]), input[i..])
    ensures HashFrom(hash, input[..i]) < MODULUS
    decreases i
  {
    if i > 0 {
      HashFromSplit(Step(hash, input[0]), input[1..], i - 1);
      assert input[..i][1..] == input[1..][..i - 1] && input[1..][i - 1..] == input[i..];
    } else {
      assert input[..0] == [] && input[0..] == input;
    }
  }

  /** Strings of one length that differ in exactly one byte never collide. */
  lemma OneByteTells(s: seq<Byte>, t: seq<Byte>, i: nat)
    requires |s| == |t| && i < |s| && s[i] != t[i]
    requires forall k :: 0 <= k < |s| && k != i ==> s[k] == t[k]
    ensures Hash(s) != Hash(t)
  {
    HashFromSplit(OFFSET, s, i);
    HashFromSplit(OFFSET, t, i);
    assert s[..i] == t[..i] && s[i..][1..] == t[i..][1..];
    var here := HashFrom(OFFSET, s[..i]);
    if Hash(s) == Hash(t) {
      HashFromTells(Step(here, s[i]), Step(here, t[i]), s[i..][1..]);
      StepTellsBytes(here, s[i], t[i]);
    }
  }

  /** The loop. */
  method Fnv(input: seq<Byte>) returns (hash: nat)
    ensures hash == Hash(input) && hash < MODULUS
  {
    hash := OFFSET;
    for i := 0 to |input|
      invariant hash < MODULUS && HashFrom(hash, input[i..]) == Hash(input)
    {
      assert input[i..][1..] == input[i + 1..];
      hash := Xor(hash, input[i]);
      hash := hash * PRIME;
      hash := hash % MODULUS;
    }
  }

  // ---------------------------------------------------------------- a short hash

  /** Xor with a number below 2^k leaves the bits from k on alone. */
  lemma {:induction false} XorLow(h: nat, a: nat, b: nat, k: nat)
    requires a < Pow2(k) && b < Pow2(k)
    ensures Xor(h * Pow2(k) + a, b) == h * Pow2(k) + Xor(a, b)
    decreases k
  {
    hide Xor;
    if k == 0 {
      XorZero(h);
      XorZero(0);
    } else {
      var p := Pow2(k - 1);
      XorLow(h, a / 2, b / 2, k - 1);
      Regroup(p, h);
      Halves(h * p, a);
      XorHalves(h * Pow2(k) + a, b);
      XorHalves(a, b);
    }
  }

  lemma {:induction false} XorZero(a: nat)
    ensures Xor(a, 0) == a
  {
    if a != 0 {
      XorZero(a / 2);
    }
  }

  lemma Halves(m: nat, a: nat)
    ensures (2 * m + a) / 2 == m + a / 2 && (2 * m + a) % 2 == a % 2
  {
  }

  lemma XorHalves(a: nat, b: nat)
    ensures Xor(a, b) == 2 * Xor(a / 2, b / 2) + (if a % 2 == b % 2 then 0 else 1)
  {
  }

  lemma XorByte(h: nat, a: Byte, b: Byte)
    ensures Xor(h * 256 + a, b) == h * 256 + Xor(a, b)
  {
    assert Pow2(4) == 16;
    Pow2Add(4, 4);
    XorLow(h, a, b, 8);
  }

  lemma TwoXors()
    ensures Xor(0x25, 0x66) == 0x43 && Xor(0xd9, 0x6f) == 0xb6
  {
    XorZero(0);
    hide Xor;
    XorHalves(0x25, 0x66);
    XorHalves(0x12, 0x33);
    XorHalves(0x09, 0x19);
    XorHalves(0x04, 0x0c);
    XorHalves(0x02, 0x06);
    XorHalves(0x01, 0x03);
    XorHalves(0x00, 0x01);
    XorHalves(0xd9, 0x6f);
    XorHalves(0x6c, 0x37);
    XorHalves(0x36, 0x1b);
    XorHalves(0x1b, 0x0d);
    XorHalves(0x0d, 0x06);
    XorHalves(0x06, 0x03);
    XorHalves(0x03, 0x01);
    XorHalves(0x01, 0x00);
  }

  lemma TwoSteps(b: Byte, c: Byte)
    ensures Hash([b, c]) == Step(Step(OFFSET, b), c)
  {
    hide Step;
    var s: seq<Byte> := [b, c];
    assert s[1..] == [c] && s[1..][1..] == [];
    assert HashFrom(Step(OFFSET, b), s[1..]) == HashFrom(Step(Step(OFFSET, b), c), []);
  }

  /** The two-byte string "fo" has a hash below 2^60, of 15 hex digits. */
  lemma HashOfFo()
    ensures Hash([0x66, 0x6f]) == 0x8985907b541d342
  {
    hide Xor, HashFrom;
    TwoXors();
    XorByte(0xcbf29ce4842223, 0x25, 0x66);
    assert Step(OFFSET, 0x66) == 0xaf63db4c8601ead9;
    XorByte(0xaf63db4c8601ea, 0xd9, 0x6f);
    assert Step(0xaf63db4c8601ead9, 0x6f) == 0x8985907b541d342;
    TwoSteps(0x66, 0x6f);
  }

  lemma ThreeXors()
    ensures Xor(0x25, 0x67) == 0x42 && Xor(0x26, 0x75) == 0x53 && Xor(0x09, 0x69) == 0x60
  {
    XorZero(0);
    hide Xor;
    XorHalves(0x25, 0x67);
    XorHalves(0x12, 0x33);
    XorHalves(0x09, 0x19);
    XorHalves(0x04, 0x0c);
    XorHalves(0x02, 0x06);
    XorHalves(0x01, 0x03);
    XorHalves(0x00, 0x01);
    XorHalves(0x26, 0x75);
    XorHalves(0x13, 0x3a);
    XorHalves(0x09, 0x1d);
    XorHalves(0x04, 0x0e);
    XorHalves(0x02, 0x07);
    XorHalves(0x01, 0x03);
    XorHalves(0x00, 0x01);
    XorHalves(0x09, 0x69);
    XorHalves(0x04, 0x34);
    XorHalves(0x02, 0x1a);
    XorHalves(0x01, 0x0d);
    XorHalves(0x00, 0x06);
    XorHalves(0x00, 0x03);
    XorHalves(0x00, 0x01);
  }

  lemma ThreeMoreXors()
    ensures Xor(0x20, 0x64) == 0x44 && Xor(0x8c, 0x2d) == 0xa1 && Xor(0x93, 0x31) == 0xa2
  {
    XorZero(0);
    hide Xor;
    XorHalves(0x20, 0x64);
    XorHalves(0x10, 0x32);
    XorHalves(0x08, 0x19);
    XorHalves(0x04, 0x0c);
    XorHalves(0x02, 0x06);
    XorHalves(0x01, 0x03);
    XorHalves(0x00, 0x01);
    XorHalves(0x8c, 0x2d);
    XorHalves(0x46, 0x16);
    XorHalves(0x23, 0x0b);
    XorHalves(0x11, 0x05);
    XorHalves(0x08, 0x02);
    XorHalves(0x04, 0x01);
    XorHalves(0x02, 0x00);
    XorHalves(0x01, 0x00);
    XorHalves(0x93, 0x31);
    XorHalves(0x49, 0x18);
    XorHalves(0x24, 0x0c);
    XorHalves(0x12, 0x06);
    XorHalves(0x09, 0x03);
    XorHalves(0x04, 0x01);
    XorHalves(0x02, 0x00);
    XorHalves(0x01, 0x00);
  }

  lemma HashFromCons(hash: nat, b: Byte, rest: seq<Byte>)
    ensures HashFrom(hash, [b] + rest) == HashFrom(Step(hash, b), rest)
  {
    assert ([b] + rest)[1..] == rest;
  }

  lemma SixSteps()
    ensures Step(0xcbf29ce484222325, 0x67) == 0xaf63da4c8601e926
    ensures Step(0xaf63da4c8601e926, 0x75) == 0x8954307b53f7809
    ensures Step(0x8954307b53f7809, 0x69) == 0xd5194618fad98b20
    ensures Step(0xd5194618fad98b20, 0x64) == 0xf37d60723fa7a48c
    ensures Step(0xf37d60723fa7a48c, 0x2d) == 0x65af832229dcbd93
    ensures Step(0x65af832229dcbd93, 0x31) == 0xa5f9750d22163a46
  {
    hide Xor;
    ThreeXors();
    ThreeMoreXors();
    XorByte(0xcbf29ce4842223, 0x25, 0x67);
    XorByte(0xaf63da4c8601e9, 0x26, 0x75);
    XorByte(0x8954307b53f78, 0x09, 0x69);
    XorByte(0xd5194618fad98b, 0x20, 0x64);
    XorByte(0xf37d60723fa7a4, 0x8c, 0x2d);
    XorByte(0x65af832229dcbd, 0x93, 0x31);
  }

  /** The hash of "guid-1", the first example of the repository's tests. */
  lemma HashOfGuid1()
    ensures Hash([0x67, 0x75, 0x69, 0x64, 0x2d, 0x31]) == 0xa5f9750d22163a46
  {
    hide Step, HashFrom;
    SixSteps();
    HashFromCons(0xcbf29ce484222325, 0x67, [0x75, 0x69, 0x64, 0x2d, 0x31]);
    assert [0x67, 0x75, 0x69, 0x64, 0x2d, 0x31] == [0x67] + [0x75, 0x69, 0x64, 0x2d, 0x31];
    HashFromCons(0xaf63da4c8601e926, 0x75, [0x69, 0x64, 0x2d, 0x31]);
    assert [0x75, 0x69, 0x64, 0x2d, 0x31] == [0x75] + [0x69, 0x64, 0x2d, 0x31];
    HashFromCons(0x8954307b53f7809, 0x69, [0x64, 0x2d, 0x31]);
    assert [0x69, 0x64, 0x2d, 0x31] == [0x69] + [0x64, 0x2d, 0x31];
    HashFromCons(0xd5194618fad98b20, 0x64, [0x2d, 0x31]);
    assert [0x64, 0x2d, 0x31] == [0x64] + [0x2d, 0x31];
    HashFromCons(0xf37d60723fa7a48c, 0x2d, [0x31]);
    assert [0x2d, 0x31] == [0x2d] + [0x31];
    HashFromCons(0x65af832229dcbd93, 0x31, []);
    assert [0x31] == [0x31] + [];
    NothingToHash(0xa5f9750d22163a46);
  }

  lemma NothingToHash(hash: nat)
    ensures HashFrom(hash, []) == hash
  {
  }
}
