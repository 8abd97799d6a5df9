/** Octets as bit patterns and as numbers. */
module Octets {
  type Octet = bv8

  /** Hashes are taken as they come: nothing is known of them but the width of a digest. */
  type Digest = d: seq<Octet> | |d| == 32 witness seq(32, i => 0)
  type Hash = seq<Octet> -> Digest

  /** The bits of an octet, least significant first. */
  type Bits = b: seq<bool> | |b| == 8 witness seq(8, i => false)

  function If(b: bool, o: Octet): Octet {
    if b then o else 0
  }

  function Packed(b: Bits): Octet {
    If(b[0], 1) | If(b[1], 2) | If(b[2], 4) | If(b[3], 8) | If(b[4], 16) | If(b[5], 32) | If(b[6], 64) | If(b[7], 128)
  }

  function Unpacked(o: Octet): Bits {
    [o & 1 != 0, o & 2 != 0, o & 4 != 0, o & 8 != 0, o & 16 != 0, o & 32 != 0, o & 64 != 0, o & 128 != 0]
  }

  lemma PackedUnpacked(b: Bits)
    ensures Unpacked(Packed(b)) == b
  {
  }

  lemma UnpackedPacked(o: Octet)
    ensures Packed(Unpacked(o)) == o
  {
  }

  function Pow2(k: nat): (p: nat)
    ensures p > 0
  {
    if k == 0 then 1 else 2 * Pow2(k - 1)
  }

  function Sum(b: seq<bool>): (n: nat)
    ensures n < Pow2(|b|)
  {
    if b == [] then 0 else (if b[0] then 1 else 0) + 2 * Sum(b[1..])
  }

  function Binary(n: nat, k: nat): (b: seq<bool>)
    ensures |b| == k
  {
    if k == 0 then [] else [n % 2 == 1] + Binary(n / 2, k - 1)
  }

  lemma {:induction false} BinarySum(n: nat, k: nat)
    requires n < Pow2(k)
    ensures Sum(Binary(n, k)) == n
  {
    if k > 0 { BinarySum(n / 2, k - 1); }
  }

  lemma {:induction false} SumBinary(b: seq<bool>)
    ensures Binary(Sum(b), |b|) == b
  {
    if b != [] { SumBinary(b[1..]); }
  }

  /** The number an octet stands for, and back. */
  function Number(o: Octet): nat {
    Sum(Unpacked(o))
  }

  function Octet8(n: nat): Octet
    requires n < 256
  {
    Packed(Binary(n, 8))
  }

  lemma EightBits()
    ensures Pow2(8) == 256
  {
    assert Pow2(8) == 2 * Pow2(7) == 4 * Pow2(6) == 8 * Pow2(5) == 16 * Pow2(4) == 32 * Pow2(3) == 64 * Pow2(2);
  }

  lemma NumberOfOctet(n: nat)
    requires n < 256
    ensures Number(Octet8(n)) == n
  {
    hide Packed, Unpacked, Sum, Binary;
    EightBits();
    PackedUnpacked(Binary(n, 8));
    BinarySum(n, 8);
  }

  lemma OctetOfNumber(o: Octet)
    ensures Number(o) < 256 && Octet8(Number(o)) == o
  {
    hide Packed, Unpacked, Sum, Binary;
    EightBits();
    SumBinary(Unpacked(o));
    UnpackedPacked(o);
  }

  // ---- concatenation -----------------------------------------------------

  function Concat(parts: seq<seq<Octet>>): seq<Octet> {
    if parts == [] then [] else Concat(parts[..|parts| - 1]) + parts[|parts| - 1]
  }

  lemma ConcatLast(parts: seq<seq<Octet>>)
    ensures Concat([]) == []
    ensures parts != [] ==> Concat(parts) == Concat(parts[..|parts| - 1]) + parts[|parts| - 1]
  {
  }

  lemma {:induction false} ConcatFromFront(parts: seq<seq<Octet>>)
    requires parts != []
    ensures Concat(parts) == parts[0] + Concat(parts[1..])
  {
    hide Concat;
    ConcatLast(parts);
    var init, rest := parts[..|parts| - 1], parts[1..];
    if |parts| == 1 {
      assert init == [] && rest == [];
    } else {
      ConcatFromFront(init);
      ConcatLast(rest);
      assert init[1..] == rest[..|rest| - 1];
    }
  }

  // ---- big-endian numbers ------------------------------------------------

  function Pow256(k: nat): (p: nat)
    ensures p > 0
  {
    if k == 0 then 1 else 256 * Pow256(k - 1)
  }

  function Unsigned(b: seq<Octet>): nat {
    if b == [] then 0 else 256 * Unsigned(b[..|b| - 1]) + Number(b[|b| - 1])
  }

  /** The last `k` big-endian octets of a number: a conversion to a narrower width drops the rest. */
  function BigEndian(n: nat, k: nat): (b: seq<Octet>)
    ensures |b| == k
  {
    if k == 0 then [] else BigEndian(n / 256, k - 1) + [Octet8(n % 256)]
  }

  lemma {:induction false} UnsignedOfBigEndian(n: nat, k: nat)
    requires n < Pow256(k)
    ensures Unsigned(BigEndian(n, k)) == n
  {
    hide Number, Octet8;
    if k > 0 {
      UnsignedOfBigEndian(n / 256, k - 1);
      NumberOfOctet(n % 256);
    }
  }

  lemma BigEndianOfTwo(n: nat)
    ensures BigEndian(n, 2) == [Octet8(n / 256 % 256), Octet8(n % 256)]
  {
    hide Octet8;
    assert BigEndian(n / 256, 1) == BigEndian(n / 256 / 256, 0) + [Octet8(n / 256 % 256)];
  }

  /** Two octets hold a number modulo 65536. */
  lemma TwoOctetsTruncate(n: nat)
    ensures Unsigned(BigEndian(n, 2)) == n % 65536
  {
    hide Octet8, Unsigned, BigEndian;
    Widths();
    UnsignedOfBigEndian(n % 65536, 2);
    BigEndianOfTwo(n);
    BigEndianOfTwo(n % 65536);
    LowDigits(n);
  }

  lemma LowDigits(n: nat)
    ensures n % 65536 / 256 % 256 == n / 256 % 256 && n % 65536 % 256 == n % 256
  {
  }

  lemma {:induction false} BigEndianOfUnsigned(b: seq<Octet>)
    ensures Unsigned(b) < Pow256(|b|) && BigEndian(Unsigned(b), |b|) == b
  {
    hide Number, Octet8;
    if b != [] {
      var head, last := b[..|b| - 1], b[|b| - 1];
      BigEndianOfUnsigned(head);
      OctetOfNumber(last);
      var n := Unsigned(b);
      assert n / 256 == Unsigned(head) && n % 256 == Number(last);
      assert BigEndian(n, |b|) == head + [last];
    }
  }

  lemma Widths()
    ensures Pow256(1) == 256 && Pow256(2) == 65536 && Pow256(4) == 0x1_0000_0000 && Pow256(8) == 0x1_0000_0000_0000_0000
  {
    assert Pow256(8) == 256 * Pow256(7) == 65536 * Pow256(6);
    assert Pow256(6) == 256 * Pow256(5) == 65536 * Pow256(4);
    assert Pow256(4) == 256 * Pow256(3) == 65536 * Pow256(2);
  }

  // ---- the top bit -------------------------------------------------------

  /** The low seven bits as a number. */
  function Low7(o: Octet): nat {
    Number(o & 0x7f)
  }

  lemma {:induction false} TopDigitZero(n: nat, k: nat)
    requires k > 0 && n < Pow2(k - 1)
    ensures !Binary(n, k)[k - 1]
  {
    if k > 1 { TopDigitZero(n / 2, k - 1); }
  }

  lemma TopBitClear(b: Bits)
    requires !b[7]
    ensures Packed(b) & 0x7f == Packed(b) && Packed(b) & 0x80 == 0
    ensures (0x80 | Packed(b)) & 0x7f == Packed(b) && (0x80 | Packed(b)) & 0x80 != 0
  {
  }

  /** A number below 128 leaves the top bit free for a flag. */
  lemma SevenBits(n: nat)
    requires n < 128
    ensures Low7(Octet8(n)) == n && Octet8(n) & 0x80 == 0
    ensures Low7(0x80 | Octet8(n)) == n && (0x80 | Octet8(n)) & 0x80 != 0
  {
    hide Packed, Number;
    EightBits();
    TopDigitZero(n, 8);
    TopBitClear(Binary(n, 8));
    NumberOfOctet(n);
  }

  // ---- ASCII -------------------------------------------------------------

  function Code(c: char): Octet
    requires c as int < 128
  {
    c as int as Octet
  }

  /** The octets of an ASCII text. */
  function Ascii(s: string): (b: seq<Octet>)
    requires forall i | 0 <= i < |s| :: s[i] as int < 128
    ensures |b| == |s|
  {
    seq(|s|, i requires 0 <= i < |s| => Code(s[i]))
  }
}
