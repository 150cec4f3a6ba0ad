/** The text form of the hash (tools/aws_redis_update_manager/lib/fnv.rb): `to_s(16)`,
    `pack("H*")`, then base32 over groups of five bytes, cut off after 13 characters; compared
    with the encoding of section 6 of RFC 4648 and with a decoder. */
module FnvBase32 {
  import opened Fnv

  const ALPHABET := "abcdefghijklmnopqrstuvwxyz234567"

  // ---------------------------------------------------------------- the program

  ghost predicate Hex(digits: seq<nat>) { forall k :: 0 <= k < |digits| ==> digits[k] < 16 }

  /** `n.to_s(16)`: no leading zeros. */
  function HexDigits(n: nat): (r: seq<nat>)
    ensures |r| > 0 && Hex(r)
  {
    if n < 16 then [n] else HexDigits(n / 16) + [n % 16]
  }

  /** `pack("H*")`: two digits to a byte; an odd last digit goes in the high half. */
  function PackH(digits: seq<nat>): (r: seq<Byte>)
    requires Hex(digits)
  {
    seq((|digits| + 1) / 2, k requires 0 <= k < (|digits| + 1) / 2 =>
      16 * digits[2 * k] + if 2 * k + 1 < |digits| then digits[2 * k + 1] else 0)
  }

  function Zeros(n: nat): (r: seq<Byte>)
    ensures |r| == n
  {
    seq(n, _ => 0)
  }

  /** The low `k` base-32 digits of `n`, most significant first. */
  function Chars(n: nat, k: nat): (r: string)
    ensures |r| == k
  {
    if k == 0 then "" else Chars(n / 32, k - 1) + [ALPHABET[n % 32]]
  }

  /** Big-endian. */
  function BytesValue(bytes: seq<Byte>): nat {
    if bytes == [] then 0
    else 256 * BytesValue(bytes[..|bytes| - 1]) + (bytes[|bytes| - 1] as nat)
  }

  function Groups(inp: seq<Byte>): (r: string)
    requires |inp| % 5 == 0
    ensures |r| == |inp| / 5 * 8
  {
    if inp == [] then "" else Chars(BytesValue(inp[..5]), 8) + Groups(inp[5..])
  }

  /** A whole group of zeros is added when there is nothing to pad. */
  function Padded(inp: seq<Byte>): (r: seq<Byte>)
    ensures |r| == |inp| + 5 - |inp| % 5
  {
    inp + Zeros(5 - |inp| % 5)
  }

  function Cut(s: string): string { if |s| <= 13 then s else s[..13] }

  function Encode(inp: seq<Byte>): string { Cut(Groups(Padded(inp))) }

  /** The text form of a hash. */
  function Text(hash: nat): string { Encode(PackH(HexDigits(hash))) }

  lemma FiveBytes(g: seq<Byte>)
    requires |g| == 5
    ensures BytesValue(g) == (((g[0] as nat * 256 + g[1]) * 256 + g[2]) * 256 + g[3]) * 256 + g[4]
  {
    assert g[..4][..3] == g[..3] && g[..3][..2] == g[..2] && g[..2][..1] == g[..1] && g[..1][..0] == [];
    assert BytesValue(g[..1]) == g[0] as nat;
    assert BytesValue(g[..2]) == BytesValue(g[..1]) * 256 + g[1];
    assert BytesValue(g[..3]) == BytesValue(g[..2]) * 256 + g[2];
    assert BytesValue(g[..4]) == BytesValue(g[..3]) * 256 + g[3];
  }

  /** The block of the substitution: eight `divmod`s, least significant character first. */
  method Block(group: seq<Byte>) returns (accumulator: string)
    requires |group| == 5
    ensures accumulator == Chars(BytesValue(group), 8)
  {
    FiveBytes(group);
    var n32: nat := ((group[0] as nat * 256 + group[1]) * 256 + group[2]) * 256 + group[3];
    n32 := n32 * 256 + group[4];
    ghost var value := n32;
    hide BytesValue;
    accumulator := "";
    for k := 0 to 8
      invariant Chars(n32, 8 - k) + accumulator == Chars(value, 8)
    {
      var i8 := n32 % 32;
      n32 := n32 / 32;
      accumulator := [ALPHABET[i8]] + accumulator;
    }
  }

  lemma EncodeIs(inp: seq<Byte>)
    ensures Encode(inp) == Cut(Groups(inp + Zeros(5 - |inp| % 5)))
  {
  }

  /** The loop's body: one group is spelled, the others are still to come. */
  lemma NextGroup(out: string, rest: seq<Byte>)
    requires rest != [] && |rest| % 5 == 0
    ensures out + Chars(BytesValue(rest[..5]), 8) + Groups(rest[5..]) == out + Groups(rest)
  {
    hide Groups, BytesValue, Chars;
    assert rest == rest[..5] + rest[5..];
    GroupsCons(rest[..5], rest[5..]);
  }

  /** The program's encoder. */
  method FnvBase32Encode(inp: seq<Byte>) returns (out: string)
    ensures out == Encode(inp)
  {
    hide Groups, BytesValue, Chars, Encode, Padded;
    EncodeIs(inp);
    NoGroups();
    var remainder := |inp| % 5;
    var rest := inp + Zeros(5 - remainder);
    ghost var all := rest;
    out := "";
    while rest != []
      invariant |rest| % 5 == 0
      invariant out + Groups(rest) == Groups(all)
      decreases |rest|
    {
      NextGroup(out, rest);
      var text := Block(rest[..5]);
      out := out + text;
      rest := rest[5..];
    }
    assert out + "" == out;
    out := if |out| <= 13 then out else out[..13];
  }

  // ---------------------------------------------------------------- RFC 4648, section 6

  ghost predicate Binary(bits: seq<nat>) { forall k :: 0 <= k < |bits| ==> bits[k] < 2 }

  /** The `k` low bits of `n`, most significant first. */
  function BitsOf(n: nat, k: nat): (r: seq<nat>)
    ensures |r| == k && Binary(r)
  {
    if k == 0 then [] else BitsOf(n / 2, k - 1) + [n % 2]
  }

  function Bits(bytes: seq<Byte>): (r: seq<nat>)
    ensures |r| == 8 * |bytes| && Binary(r)
  {
    if bytes == [] then [] else Bits(bytes[..|bytes| - 1]) + BitsOf(bytes[|bytes| - 1], 8)
  }

  function NoBits(n: nat): (r: seq<nat>)
    ensures |r| == n && Binary(r)
  {
    seq(n, _ => 0)
  }

  /** Five bits as a number. */
  function Quintet(b: seq<nat>): (v: nat)
    requires |b| == 5 && Binary(b)
    ensures v < 32
  {
    assert b[0] < 2 && b[1] < 2 && b[2] < 2 && b[3] < 2 && b[4] < 2;
    16 * b[0] + 8 * b[1] + 4 * b[2] + 2 * b[3] + b[4]
  }

  lemma BinaryPart(bits: seq<nat>, i: nat)
    requires Binary(bits) && i <= |bits|
    ensures Binary(bits[..i]) && Binary(bits[i..])
  {
  }

  /** A character for every five bits. */
  function Quintets(bits: seq<nat>): (r: string)
    requires |bits| % 5 == 0 && Binary(bits)
    ensures |r| == |bits| / 5
  {
    if bits == [] then "" else
      var i := |bits| - 5;
      BinaryPart(bits, i);
      Quintets(bits[..i]) + [ALPHABET[Quintet(bits[i..])]]
  }

  /** The zero bits that make `8 * n` bits a multiple of five. */
  function Fill(n: nat): (f: nat)
    ensures f < 5 && (8 * n + f) % 5 == 0
    ensures (8 * n + f) / 5 == (8 * n + 4) / 5
  {
    2 * n % 5
  }

  lemma BinaryAppend(a: seq<nat>, b: seq<nat>)
    requires Binary(a) && Binary(b)
    ensures Binary(a + b)
  {
  }

  /** The input as one string of bits, zero bits added on the right up to a multiple of five,
      and no `=` padding. */
  function Rfc(bytes: seq<Byte>): (r: string)
    ensures |r| == (8 * |bytes| + 4) / 5
  {
    BinaryAppend(Bits(bytes), NoBits(Fill(|bytes|)));
    Quintets(Bits(bytes) + NoBits(Fill(|bytes|)))
  }

  function Index(c: char): (i: nat)
    ensures i < 32
  {
    if 'a' <= c <= 'z' then (c - 'a') as nat else if '2' <= c <= '7' then 26 + (c - '2') as nat else 0
  }

  function CharsValue(s: string): nat {
    if s == "" then 0 else 32 * CharsValue(s[..|s| - 1]) + Index(s[|s| - 1])
  }

  /** Thirteen characters hold 65 bits; the last one is the zero added on the right. */
  function Decode(s: string): nat { CharsValue(s) / 2 }

  /** The `k` low bytes of `n`, most significant first. */
  function BigEndian(n: nat, k: nat): (r: seq<Byte>)
    ensures |r| == k
  {
    if k == 0 then [] else BigEndian(n / 256, k - 1) + [n % 256]
  }

  // ---------------------------------------------------------------- digits and values

  lemma ShiftDigit(a: nat, b: nat, p: nat)
    ensures (a * (32 * p) + b) / 32 == a * p + b / 32
    ensures (a * (32 * p) + b) % 32 == b % 32
  {
    var n, q := a * (32 * p) + b, a * p + b / 32;
    assert a * (32 * p) == 32 * (a * p);
    assert n == 32 * q + b % 32;
  }

  lemma CharsStep(n: nat, k: nat)
    requires k > 0
    ensures Chars(n, k) == Chars(n / 32, k - 1) + [ALPHABET[n % 32]]
  {
  }

  lemma NoChars(n: nat)
    ensures Chars(n, 0) == ""
  {
  }

  lemma {:induction false} CharsSplit(a: nat, b: nat, j: nat, k: nat)
    requires b < Pow2(5 * k)
    ensures Chars(a * Pow2(5 * k) + b, j + k) == Chars(a, j) + Chars(b, k)
    decreases k
  {
    hide Chars, Pow2;
    var n := a * Pow2(5 * k) + b;
    if k == 0 {
      OneIsPow2();
      NoChars(b);
      assert n == a;
    } else {
      Times32(k - 1);
      ShiftDigit(a, b, Pow2(5 * (k - 1)));
      CharsSplit(a, b / 32, j, k - 1);
      CharsStep(n, j + k);
      CharsStep(b, k);
    }
  }

  lemma OneIsPow2()
    ensures Pow2(0) == 1
  {
  }

  lemma Times32(k: nat)
    ensures Pow2(5 * (k + 1)) == 32 * Pow2(5 * k)
  {
    Pow2Add(5 * k, 5);
    assert Pow2(5) == 32;
  }

  lemma CharsValueSnoc(s: string, c: char)
    ensures CharsValue(s + [c]) == 32 * CharsValue(s) + Index(c)
    ensures CharsValue("") == 0
  {
    hide Index;
    assert (s + [c])[..|s|] == s;
  }

  lemma {:induction false} CharsTell(n: nat, k: nat)
    requires n < Pow2(5 * k)
    ensures CharsValue(Chars(n, k)) == n
    decreases k
  {
    hide Chars, CharsValue, Index, Pow2;
    if k == 0 {
      OneIsPow2();
      NoChars(n);
      CharsValueSnoc("", 'a');
    } else {
      Times32(k - 1);
      CharsTell(n / 32, k - 1);
      CharsStep(n, k);
      CharsValueSnoc(Chars(n / 32, k - 1), ALPHABET[n % 32]);
      IndexOf(n % 32);
    }
  }

  lemma IndexOf(i: nat)
    requires i < 32
    ensures Index(ALPHABET[i]) == i
  {
  }

  lemma Times256(k: nat)
    ensures Pow2(8 * (k + 1)) == 256 * Pow2(8 * k)
  {
    Pow2Add(8 * k, 8);
    assert Pow2(4) == 16 && Pow2(8) == 256;
  }

  lemma {:induction false} ZerosValue(bytes: seq<Byte>, z: nat)
    ensures BytesValue(bytes + Zeros(z)) == BytesValue(bytes) * Pow2(8 * z)
    decreases z
  {
    if z == 0 {
      assert bytes + Zeros(0) == bytes;
    } else {
      var s := bytes + Zeros(z);
      assert s[..|s| - 1] == bytes + Zeros(z - 1);
      ZerosValue(bytes, z - 1);
      Times256(z - 1);
    }
  }

  lemma NoGroups()
    ensures Groups([]) == ""
  {
  }

  lemma GroupsCons(g: seq<Byte>, a: seq<Byte>)
    requires |g| == 5 && |a| % 5 == 0
    ensures Groups(g + a) == Chars(BytesValue(g), 8) + Groups(a)
  {
    hide BytesValue, Chars;
    assert (g + a)[..5] == g && (g + a)[5..] == a;
  }

  lemma {:induction false} GroupsAppend(a: seq<Byte>, g: seq<Byte>)
    requires |a| % 5 == 0 && |g| == 5
    ensures Groups(a + g) == Groups(a) + Chars(BytesValue(g), 8)
    decreases |a|
  {
    hide Groups, BytesValue, Chars;
    if a == [] {
      assert a + g == g + [];
      GroupsCons(g, []);
      NoGroups();
    } else {
      var h, t := a[..5], a[5..];
      assert a == h + t && a + g == h + (t + g);
      GroupsCons(h, t);
      GroupsCons(h, t + g);
      GroupsAppend(t, g);
    }
  }

  lemma BytesValueSnoc(a: seq<Byte>, b: Byte)
    ensures BytesValue(a + [b]) == 256 * BytesValue(a) + (b as nat)
    ensures BytesValue([]) == 0
  {
    assert (a + [b])[..|a|] == a;
  }

  lemma {:induction false} BytesValueAppend(a: seq<Byte>, b: seq<Byte>)
    ensures BytesValue(a + b) == BytesValue(a) * Pow2(8 * |b|) + BytesValue(b)
    ensures BytesValue(b) < Pow2(8 * |b|)
    decreases |b|
  {
    hide BytesValue, Pow2;
    if b == [] {
      assert a + b == a;
      OneIsPow2();
      BytesValueSnoc([], 0);
    } else {
      var i, last := b[..|b| - 1], b[|b| - 1];
      assert b == i + [last] && a + b == (a + i) + [last];
      BytesValueSnoc(i, last);
      BytesValueSnoc(a + i, last);
      BytesValueAppend(a, i);
      Times256(|i|);
      var p, v := Pow2(8 * |i|), BytesValue(a);
      assert v * (256 * p) == 256 * (v * p);
    }
  }

  /** The program's groups spell the whole input as one number in base 32. */
  lemma {:induction false} GroupsAreChars(x: seq<Byte>)
    requires |x| % 5 == 0
    ensures Groups(x) == Chars(BytesValue(x), |x| / 5 * 8)
    decreases |x|
  {
    hide Groups, BytesValue, Chars, Pow2;
    if x == [] {
      NoGroups();
      NoChars(BytesValue(x));
    } else {
      var a, g := x[..|x| - 5], x[|x| - 5..];
      assert x == a + g;
      GroupsAppend(a, g);
      GroupsAreChars(a);
      BytesValueAppend(a, g);
      CharsSplit(BytesValue(a), BytesValue(g), |a| / 5 * 8, 8);
    }
  }

  // ---------------------------------------------------------------- bits and values

  function BitsValue(bits: seq<nat>): nat {
    if bits == [] then 0 else 2 * BitsValue(bits[..|bits| - 1]) + bits[|bits| - 1]
  }

  lemma BitsValueSnoc(a: seq<nat>, n: nat)
    ensures BitsValue(a + [n]) == 2 * BitsValue(a) + n
  {
    assert (a + [n])[..|a|] == a;
  }

  lemma {:induction false} BitsValueAppend(a: seq<nat>, n: nat, k: nat)
    requires n < Pow2(k)
    ensures BitsValue(a + BitsOf(n, k)) == BitsValue(a) * Pow2(k) + n
    decreases k
  {
    hide BitsValue;
    if k == 0 {
      assert a + BitsOf(n, 0) == a;
    } else {
      var high := BitsOf(n / 2, k - 1);
      assert a + BitsOf(n, k) == (a + high) + [n % 2];
      BitsValueSnoc(a + high, n % 2);
      BitsValueAppend(a, n / 2, k - 1);
      var v, p := BitsValue(a), Pow2(k - 1);
      assert v * (2 * p) == 2 * (v * p);
    }
  }

  lemma {:induction false} NoBitsAreZero(k: nat)
    ensures NoBits(k) == BitsOf(0, k)
  {
    if k > 0 {
      NoBitsAreZero(k - 1);
      assert NoBits(k) == NoBits(k - 1) + [0];
    }
  }

  lemma {:induction false} BitsTell(bytes: seq<Byte>)
    ensures BitsValue(Bits(bytes)) == BytesValue(bytes)
  {
    if bytes != [] {
      BitsTell(bytes[..|bytes| - 1]);
      assert Pow2(4) == 16 && Pow2(8) == 256;
      BitsValueAppend(Bits(bytes[..|bytes| - 1]), bytes[|bytes| - 1], 8);
    }
  }

  lemma LastFive(high: seq<nat>, b: seq<nat>)
    requires |b| == 5 && Binary(b)
    ensures BitsValue(high + b) == 32 * BitsValue(high) + Quintet(b)
  {
    hide BitsValue, Binary;
    assert high + b == high + [b[0]] + [b[1]] + [b[2]] + [b[3]] + [b[4]];
    BitsValueSnoc(high, b[0]);
    BitsValueSnoc(high + [b[0]], b[1]);
    BitsValueSnoc(high + [b[0]] + [b[1]], b[2]);
    BitsValueSnoc(high + [b[0]] + [b[1]] + [b[2]], b[3]);
    BitsValueSnoc(high + [b[0]] + [b[1]] + [b[2]] + [b[3]], b[4]);
  }

  lemma LastQuintet(high: seq<nat>, b: seq<nat>)
    requires |high| % 5 == 0 && Binary(high) && |b| == 5 && Binary(b)
    ensures Binary(high + b) && Quintets(high + b) == Quintets(high) + [ALPHABET[Quintet(b)]]
  {
    hide Quintet, Binary;
    BinaryAppend(high, b);
    var bits := high + b;
    assert bits[..|bits| - 5] == high && bits[|bits| - 5..] == b;
  }

  lemma OneMoreDigit(m: nat, q: nat, k: nat)
    requires q < 32
    ensures Chars(32 * m + q, k + 1) == Chars(m, k) + [ALPHABET[q]]
  {
    hide Chars;
    var n := 32 * m + q;
    assert n / 32 == m && n % 32 == q;
    CharsStep(n, k + 1);
  }

  lemma NoQuintets()
    ensures Binary([]) && Quintets([]) == "" && BitsValue([]) == 0
  {
  }

  lemma {:induction false} QuintetsAreChars(bits: seq<nat>)
    requires |bits| % 5 == 0 && Binary(bits)
    ensures Quintets(bits) == Chars(BitsValue(bits), |bits| / 5)
    decreases |bits|
  {
    hide *;
    if bits == [] {
      NoQuintets();
      NoChars(0);
    } else {
      var k := |bits| / 5 - 1;
      var high, b := bits[..5 * k], bits[5 * k..];
      assert bits == high + b;
      BinaryPart(bits, 5 * k);
      QuintetsAreChars(high);
      LastFive(high, b);
      LastQuintet(high, b);
      OneMoreDigit(BitsValue(high), Quintet(b), k);
    }
  }

  lemma RfcIs(bytes: seq<Byte>)
    ensures var bits := Bits(bytes) + NoBits(Fill(|bytes|));
            |bits| % 5 == 0 && Binary(bits) && Rfc(bytes) == Quintets(bits) && |Rfc(bytes)| == |bits| / 5
  {
    hide Bits, NoBits, Quintets, Binary, Fill;
    BinaryAppend(Bits(bytes), NoBits(Fill(|bytes|)));
  }

  lemma RfcIsChars(bytes: seq<Byte>)
    ensures Rfc(bytes) == Chars(BytesValue(bytes) * Pow2(Fill(|bytes|)), |Rfc(bytes)|)
  {
    hide *;
    var f := Fill(|bytes|);
    RfcIs(bytes);
    BitsTell(bytes);
    NoBitsAreZero(f);
    Pow2Positive(f);
    BitsValueAppend(Bits(bytes), 0, f);
    QuintetsAreChars(Bits(bytes) + NoBits(f));
  }

  lemma {:induction false} Pow2Positive(k: nat)
    ensures Pow2(k) > 0
  {
    if k > 0 {
      Pow2Positive(k - 1);
    }
  }

  // ---------------------------------------------------------------- the encoder against RFC 4648

  /** The program's zeros fill the last quintet and then some whole ones. */
  lemma FillIs(inp: seq<Byte>) returns (k: nat)
    ensures 8 * (5 - |inp| % 5) == Fill(|inp|) + 5 * k
    ensures |Padded(inp)| / 5 * 8 == |Rfc(inp)| + k && |Padded(inp)| % 5 == 0
  {
    hide Padded, Rfc;
    k := (8 * (5 - |inp| % 5) - Fill(|inp|)) / 5;
  }

  /** Whatever its length, the input's RFC 4648 text is the start of what the groups spell. */
  lemma GroupsStartWithRfc(inp: seq<Byte>)
    ensures Rfc(inp) <= Groups(Padded(inp))
  {
    hide *;
    var z, f := 5 - |inp| % 5, Fill(|inp|);
    var k := FillIs(inp);
    var v := BytesValue(inp);
    GroupsAreChars(Padded(inp));
    PaddedIs(inp);
    ZerosValue(inp, z);
    RfcIsChars(inp);
    Pow2Add(f, 5 * k);
    Pow2Positive(5 * k);
    Associates(v, Pow2(f), Pow2(5 * k));
    CharsSplit(v * Pow2(f), 0, |Rfc(inp)|, k);
    assert Groups(Padded(inp)) == Rfc(inp) + Chars(0, k);
  }

  lemma Associates(a: nat, b: nat, c: nat)
    ensures a * (b * c) == (a * b) * c
  {
  }

  /** The cut makes the text the RFC 4648 one for inputs of eight bytes and for no others. */
  lemma EncodeIsRfcIff(inp: seq<Byte>)
    ensures Encode(inp) == Rfc(inp) <==> |inp| == 8
  {
    hide Groups, Rfc;
    GroupsStartWithRfc(inp);
  }

  // ---------------------------------------------------------------- the text of a hash

  function HexValue(digits: seq<nat>): nat {
    if digits == [] then 0 else 16 * HexValue(digits[..|digits| - 1]) + digits[|digits| - 1]
  }

  lemma {:induction false} HexTells(n: nat)
    ensures HexValue(HexDigits(n)) == n
  {
    if n >= 16 {
      HexTells(n / 16);
      assert HexDigits(n)[..|HexDigits(n)| - 1] == HexDigits(n / 16);
    }
  }

  /** No leading zeros: the number of digits is the size of the number. */
  lemma {:induction false} HexLength(n: nat)
    ensures n < Pow2(4 * |HexDigits(n)|)
    ensures n > 0 ==> Pow2(4 * (|HexDigits(n)| - 1)) <= n
  {
    var d := |HexDigits(n)|;
    Times16(d - 1);
    if n < 16 {
      assert Pow2(0) == 1;
    } else {
      HexLength(n / 16);
      Times16(d - 2);
    }
  }

  lemma Times16(k: nat)
    ensures Pow2(4 * (k + 1)) == 16 * Pow2(4 * k)
  {
    Pow2Add(4 * k, 4);
    assert Pow2(4) == 16;
  }

  lemma {:induction false} Pow2Grows(a: nat, b: nat)
    requires a <= b
    ensures Pow2(a) <= Pow2(b)
    decreases b
  {
    if a < b {
      Pow2Grows(a, b - 1);
    }
  }

  /** The number of hex digits of `n` is at most `d` exactly when `n` is below 16^d. */
  lemma HexLengthIff(n: nat, d: nat)
    requires d > 0
    ensures |HexDigits(n)| <= d <==> n < Pow2(4 * d)
  {
    hide HexDigits, Pow2;
    HexLength(n);
    if |HexDigits(n)| <= d {
      Pow2Grows(4 * |HexDigits(n)|, 4 * d);
    } else {
      Pow2Grows(4 * d, 4 * (|HexDigits(n)| - 1));
      Pow2Positive(4 * d);
      assert n > 0 by {
        if n == 0 {
          OneDigit();
        }
      }
    }
  }

  lemma OneDigit()
    ensures HexDigits(0) == [0]
  {
  }

  lemma HexValueSnoc(a: seq<nat>, d: nat)
    ensures HexValue(a + [d]) == 16 * HexValue(a) + d
  {
    assert (a + [d])[..|a|] == a;
  }

  lemma PackHSnoc(digits: seq<nat>, x: nat, y: nat)
    requires Hex(digits) && |digits| % 2 == 0 && x < 16 && y < 16
    ensures Hex(digits + [x]) && PackH(digits + [x]) == PackH(digits) + [16 * x]
    ensures Hex(digits + [x] + [y]) && PackH(digits + [x] + [y]) == PackH(digits) + [16 * x + y]
  {
  }

  /** Packing keeps the value, times 16 when the number of digits is odd. */
  lemma {:induction false} PackHTells(digits: seq<nat>)
    requires Hex(digits)
    ensures BytesValue(PackH(digits)) == HexValue(digits) * (if |digits| % 2 == 0 then 1 else 16)
    decreases |digits|
  {
    hide BytesValue, HexValue, PackH;
    var n := |digits|;
    if n == 0 {
      NoDigits();
    } else {
      var i := digits[..if n % 2 == 1 then n - 1 else n - 2];
      PackHTells(i);
      var x := digits[|i|];
      var y := digits[n - 1];
      PackHSnoc(i, x, y);
      HexValueSnoc(i, x);
      if n % 2 == 1 {
        assert digits == i + [x];
        BytesValueSnoc(PackH(i), 16 * x);
      } else {
        assert digits == i + [x] + [y];
        HexValueSnoc(i + [x], y);
        BytesValueSnoc(PackH(i), 16 * x + y);
      }
    }
  }

  lemma NoDigits()
    ensures BytesValue(PackH([])) == 0 && HexValue([]) == 0
  {
  }

  function Digits(hash: nat): nat { |HexDigits(hash)| }

  /** Between 9 and 16 hex digits, the text is that of the digits moved to the left end of
      16 digits. */
  lemma TextIs(hash: nat)
    requires 9 <= Digits(hash) <= 16
    ensures Text(hash) == Chars(2 * (hash * Pow2(64 - 4 * Digits(hash))), 13)
  {
    hide Groups, BytesValue, Chars, Pow2, HexDigits, HexValue, Padded;
    var d := Digits(hash);
    var packed := PackH(HexDigits(hash));
    var x := Padded(packed);
    var z := 10 - |packed|;
    assert x == packed + Zeros(z) by { PaddedIs(packed); }
    HexTells(hash);
    PackHTells(HexDigits(hash));
    ZerosValue(packed, z);
    GroupsAreChars(x);
    Shifted(hash, d, BytesValue(packed), z);
    Pow2Positive(15);
    var w := hash * Pow2(64 - 4 * d);
    assert Groups(x) == Chars(2 * w * Pow2(15) + 0, 13 + 3);
    CharsSplit(2 * w, 0, 13, 3);
    assert Groups(x)[..13] == Chars(2 * w, 13);
  }

  lemma PaddedIs(inp: seq<Byte>)
    ensures Padded(inp) == inp + Zeros(5 - |inp| % 5)
  {
  }

  lemma Shifted(hash: nat, d: nat, v: nat, z: nat)
    requires 9 <= d <= 16 && z == 10 - (d + 1) / 2 && v == hash * (if d % 2 == 0 then 1 else 16)
    ensures v * Pow2(8 * z) == 2 * (hash * Pow2(64 - 4 * d)) * Pow2(15)
  {
    hide Pow2;
    Pow2Add(64 - 4 * d, 16);
    TwoTo16();
    var p := Pow2(64 - 4 * d);
    assert hash * (p * (2 * Pow2(15))) == 2 * (hash * p) * Pow2(15);
    if d % 2 == 1 {
      Times16(2 * z);
      assert hash * 16 * Pow2(8 * z) == hash * (16 * Pow2(8 * z));
    }
  }

  lemma TwoTo16()
    ensures Pow2(16) == 2 * Pow2(15)
  {
  }

  lemma {:induction false} BigEndianTells(n: nat, k: nat)
    requires n < Pow2(8 * k)
    ensures BytesValue(BigEndian(n, k)) == n
    decreases k
  {
    if k > 0 {
      Times256(k - 1);
      BigEndianTells(n / 256, k - 1);
      assert BigEndian(n, k)[..k - 1] == BigEndian(n / 256, k - 1);
    }
  }

  /** The RFC 4648 text of a 64-bit number, as one number in base 32. */
  lemma RfcOfHash(hash: nat)
    requires hash < MODULUS
    ensures Rfc(BigEndian(hash, 8)) == Chars(2 * hash, 13)
  {
    hide Rfc, Chars, BytesValue, BigEndian;
    Pow2Of64();
    BigEndianTells(hash, 8);
    RfcIsChars(BigEndian(hash, 8));
    assert Pow2(1) == 2;
  }

  lemma ThirteenCharsTell(n: nat)
    requires n < MODULUS
    ensures CharsValue(Chars(2 * n, 13)) == 2 * n
  {
    hide Chars, CharsValue, Pow2;
    Pow2Of64();
    Pow2Add(64, 1);
    TwoTo1();
    CharsTell(2 * n, 13);
  }

  lemma TwoTo1()
    ensures Pow2(1) == 2
  {
  }

  /** The decoder recovers every 64-bit number from its RFC 4648 text. */
  lemma DecodeRfc(hash: nat)
    requires hash < MODULUS
    ensures |Rfc(BigEndian(hash, 8))| == 13 && Decode(Rfc(BigEndian(hash, 8))) == hash
  {
    hide Rfc, Chars, CharsValue, BigEndian;
    RfcOfHash(hash);
    ThirteenCharsTell(hash);
  }

  lemma ShortText(hash: nat)
    requires Digits(hash) <= 8
    ensures |Text(hash)| == 8
  {
  }

  /** What the text of a hash is: the RFC 4648 text of the hash shifted left until its first
      digit is not zero. */
  lemma TextIsRfcOfShifted(hash: nat)
    requires hash < MODULUS && 9 <= Digits(hash)
    ensures Digits(hash) <= 16 && hash * Pow2(64 - 4 * Digits(hash)) < MODULUS
    ensures Text(hash) == Rfc(BigEndian(hash * Pow2(64 - 4 * Digits(hash)), 8))
  {
    hide *;
    Pow2Of64();
    DigitsMean(hash);
    var d := Digits(hash);
    HexLengthIff(hash, 16);
    Pow2Add(4 * d, 64 - 4 * d);
    Pow2Positive(64 - 4 * d);
    var p := Pow2(64 - 4 * d);
    MulLess(hash, Pow2(4 * d), p);
    TextIs(hash);
    RfcOfHash(hash * p);
  }

  lemma MulLess(a: nat, b: nat, p: nat)
    requires a < b && p > 0
    ensures a * p < b * p
  {
  }

  lemma DigitsMean(hash: nat)
    ensures Digits(hash) == |HexDigits(hash)| && hash < Pow2(4 * Digits(hash))
  {
    HexLength(hash);
  }

  const FULL: nat := 0x1000_0000_0000_0000

  lemma FullDigits(hash: nat)
    requires hash < MODULUS
    ensures hash >= FULL <==> Digits(hash) == 16
    ensures Digits(hash) <= 16
  {
    hide HexDigits;
    HexLengthIff(hash, 15);
    HexLengthIff(hash, 16);
    Pow2Of64();
    Pow2Add(60, 4);
    assert Pow2(4) == 16;
  }

  /** The text is the RFC 4648 text of the hash's eight bytes, and decodes to the hash, for
      exactly the hashes of 16 hex digits: those from 2^60 on. */
  lemma TextIsRfcIff(hash: nat)
    requires hash < MODULUS
    ensures Text(hash) == Rfc(BigEndian(hash, 8)) <==> hash >= FULL
    ensures |Text(hash)| == 13 && Decode(Text(hash)) == hash <==> hash >= FULL
  {
    hide Rfc, Text, Digits, Decode, BigEndian, Pow2;
    FullDigits(hash);
    DecodeRfc(hash);
    var d := Digits(hash);
    if d <= 8 {
      ShortText(hash);
    } else {
      TextIsRfcOfShifted(hash);
      var w := hash * Pow2(64 - 4 * d);
      DecodeRfc(w);
      if d == 16 {
        OneIsPow2();
      } else {
        Pow2Grows(4, 64 - 4 * d);
        TwoTo4();
        assert hash > 0 by {
          if hash == 0 {
            OneDigit();
            DigitsMean(0);
          }
        }
        assert w >= hash * 16;
      }
    }
  }

  lemma TwoTo4()
    ensures Pow2(4) == 16
  {
  }

  /** So two different full hashes never share a name. */
  lemma FullHashesTell(x: nat, y: nat)
    requires FULL <= x < MODULUS && FULL <= y < MODULUS && Text(x) == Text(y)
    ensures x == y
  {
    TextIsRfcIff(x);
    TextIsRfcIff(y);
  }

  /** Up to 8 hex digits, the text is that of the digits moved to the left end of 10. */
  lemma ShortTextIs(hash: nat)
    requires Digits(hash) <= 8
    ensures Text(hash) == Chars(hash * Pow2(40 - 4 * Digits(hash)), 8)
  {
    hide Groups, BytesValue, Chars, Pow2, HexDigits, HexValue, Padded;
    var d := Digits(hash);
    var packed := PackH(HexDigits(hash));
    var x := Padded(packed);
    var z := 5 - |packed|;
    assert x == packed + Zeros(z) by { PaddedIs(packed); }
    HexTells(hash);
    PackHTells(HexDigits(hash));
    ZerosValue(packed, z);
    GroupsAreChars(x);
    if d % 2 == 1 {
      Times16(2 * z);
      assert hash * 16 * Pow2(8 * z) == hash * (16 * Pow2(8 * z));
    }
  }

  lemma DigitsOf16(hash: nat)
    requires hash > 0
    ensures Digits(16 * hash) == Digits(hash) + 1
  {
  }

  /** Below 2^60 a hash shares its text with sixteen times itself, unless it has 8 hex digits,
      when one text has 8 characters and the other 13. */
  lemma ShortHashesCollideIff(hash: nat)
    requires hash < FULL
    ensures 16 * hash < MODULUS
    ensures Text(hash) == Text(16 * hash) <==> Digits(hash) != 8
  {
    hide Rfc, Text, BigEndian, Pow2, Digits, Chars;
    FullDigits(hash);
    var d := Digits(hash);
    if hash == 0 {
      NoughtHasOneDigit();
    } else {
      DigitsOf16(hash);
      FullDigits(16 * hash);
      ShiftedPow2(hash, d);
      if d <= 7 {
        ShortTextIs(hash);
        ShortTextIs(16 * hash);
      } else if d == 8 {
        ShortText(hash);
        TextIsRfcOfShifted(16 * hash);
        DecodeRfc((16 * hash) * Pow2(64 - 4 * Digits(16 * hash)));
      } else {
        TextIsRfcOfShifted(hash);
        TextIsRfcOfShifted(16 * hash);
      }
    }
  }

  lemma NoughtHasOneDigit()
    ensures Digits(0) == 1
  {
    OneDigit();
  }

  lemma ShiftedPow2(hash: nat, d: nat)
    ensures d <= 9 ==> hash * Pow2(40 - 4 * d) == 16 * hash * Pow2(40 - 4 * (d + 1))
    ensures d <= 15 ==> hash * Pow2(64 - 4 * d) == 16 * hash * Pow2(64 - 4 * (d + 1))
  {
    hide Pow2;
    if d <= 9 {
      Times16(9 - d);
      var p := Pow2(40 - 4 * (d + 1));
      assert hash * (16 * p) == 16 * hash * p;
    }
    if d <= 15 {
      Times16(15 - d);
      var p := Pow2(64 - 4 * (d + 1));
      assert hash * (16 * p) == 16 * hash * p;
    }
  }

  /** The program can be given such an identifier: the string "fo" has a hash of 15 hex digits,
      its name is not the RFC 4648 text of the hash, does not decode to it, and is shared. */
  lemma ShortHashIsReal()
    ensures var h := Hash([0x66, 0x6f]);
            && h == 0x8985907b541d342 && Text(h) != Rfc(BigEndian(h, 8))
            && |Text(h)| == 13 && Decode(Text(h)) == 16 * h && Text(h) == Text(16 * h)
  {
    hide Hash, Text, Rfc, BigEndian, Decode, Digits;
    HashOfFo();
    var h := Hash([0x66, 0x6f]);
    TextIsRfcIff(h);
    FifteenDigits(h);
    ShortHashesCollideIff(h);
    TextIsRfcIff(16 * h);
  }

  lemma FifteenDigits(hash: nat)
    requires 0x100_0000_0000_0000 <= hash < FULL
    ensures Digits(hash) == 15
  {
    hide HexDigits, Pow2;
    HexLengthIff(hash, 14);
    HexLengthIff(hash, 15);
    TwoTo7();
    Pow2Add(7, 7);
    Pow2Add(14, 14);
    Pow2Add(28, 28);
    TwoTo4();
    Pow2Add(56, 4);
  }

  lemma TwoTo7()
    ensures Pow2(7) == 128
  {
    assert Pow2(4) == 16;
  }

  /** The whole of `fnv`: the loop, the packing and the encoder. */
  method FnvName(input: seq<Byte>) returns (name: string)
    ensures name == Text(Hash(input))
  {
    var hash := Fnv.Fnv(input);
    var packed := PackH(HexDigits(hash));
    name := FnvBase32Encode(packed);
  }

  /** Identifiers of one length that differ in one byte get different names, if both hashes
      have 16 hex digits. */
  lemma NamesTell(s: seq<Byte>, t: seq<Byte>, i: nat)
    requires |s| == |t| && i < |s| && s[i] != t[i]
    requires forall k :: 0 <= k < |s| && k != i ==> s[k] == t[k]
    requires Hash(s) >= FULL && Hash(t) >= FULL
    ensures Text(Hash(s)) != Text(Hash(t))
  {
    hide Text, Hash;
    HashIsWord(s);
    HashIsWord(t);
    OneByteTells(s, t, i);
    if Text(Hash(s)) == Text(Hash(t)) {
      FullHashesTell(Hash(s), Hash(t));
    }
  }

  lemma HashIsWord(s: seq<Byte>)
    ensures Hash(s) < MODULUS
  {
    HashFromSplit(OFFSET, s, |s|);
    assert s[..|s|] == s;
  }

  lemma Chars1To4()
    ensures Chars(0xa5f97, 4) == "ux4x"
  {
    hide Chars;
    NoChars(0);
    CharsStep(0x14, 1);
    CharsStep(0x297, 2);
    CharsStep(0x52fc, 3);
    CharsStep(0xa5f97, 4);
    assert "ux4x" == "u" + "x" + "4" + "x";
  }

  lemma Chars5To7()
    ensures Chars(0x52fcba869, 7) == Chars(0xa5f97, 4) + "kdj"
  {
    hide Chars;
    CharsStep(0x14bf2ea, 5);
    CharsStep(0x297e5d43, 6);
    CharsStep(0x52fcba869, 7);
    assert "kdj" == "k" + "d" + "j";
  }

  lemma Chars8To10()
    ensures Chars(0x297e5d4348858, 10) == Chars(0x52fcba869, 7) + "ccy"
  {
    hide Chars;
    CharsStep(0xa5f9750d22, 8);
    CharsStep(0x14bf2ea1a442, 9);
    CharsStep(0x297e5d4348858, 10);
    assert "ccy" == "c" + "c" + "y";
  }

  lemma Chars11To13()
    ensures Chars(0x14bf2ea1a442c748c, 13) == Chars(0x297e5d4348858, 10) + "5em"
  {
    hide Chars;
    CharsStep(0x52fcba86910b1d, 11);
    CharsStep(0xa5f9750d22163a4, 12);
    CharsStep(0x14bf2ea1a442c748c, 13);
    assert "5em" == "5" + "e" + "m";
  }

  /** The name of "guid-1", as the repository's tests have it. */
  lemma NameOfGuid1()
    ensures Text(Hash([0x67, 0x75, 0x69, 0x64, 0x2d, 0x31])) == "ux4xkdjccy5em"
  {
    hide Hash, Text, Rfc, BigEndian, Decode, Digits, Chars;
    HashOfGuid1();
    TextIsRfcIff(0xa5f9750d22163a46);
    RfcOfHash(0xa5f9750d22163a46);
    Chars1To4();
    Chars5To7();
    Chars8To10();
    Chars11To13();
    assert "ux4xkdjccy5em" == "ux4x" + "kdj" + "ccy" + "5em";
  }
}
