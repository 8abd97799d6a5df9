/** The padded length of a NIP-44 message: rounding up to the next size class. */
module PaddedLength {
  import opened Octets

  /** How many bits a number needs: the word width less its leading zeros. */
  function BitLength(n: nat): nat {
    if n == 0 then 0 else 1 + BitLength(n / 2)
  }

  function NextPower(len: nat): nat
    requires len > 32
  {
    Pow2(BitLength(len - 1))
  }

  function Chunk(power: nat): (c: nat)
    ensures c > 0
  {
    if power <= 256 then 32 else power / 8
  }

  function RoundUp(n: nat, c: nat): nat
    requires n > 0 && c > 0
  {
    c * ((n - 1) / c + 1)
  }

  function PaddedLen(len: nat): nat {
    if len <= 32 then 32 else RoundUp(len, Chunk(NextPower(len)))
  }

  // ---- rounding ----------------------------------------------------------

  lemma QuotientBounds(n: nat, c: nat)
    requires c > 0
    ensures c * (n / c) <= n < c * (n / c) + c
  {
    assert n == c * (n / c) + n % c;
  }

  lemma RoundUpBounds(n: nat, c: nat)
    requires n > 0 && c > 0
    ensures n <= RoundUp(n, c) < n + c
  {
    QuotientBounds(n - 1, c);
    assert RoundUp(n, c) == c * ((n - 1) / c) + c;
  }

  lemma ScaleOrder(c: nat, a: nat, b: nat)
    requires a <= b
    ensures c * a <= c * b
  {
  }

  /** Rounding up gives the least multiple of the chunk that is large enough. */
  lemma RoundUpIsLeast(n: nat, c: nat, k: nat)
    requires n > 0 && c > 0 && n <= c * k
    ensures RoundUp(n, c) <= c * k
  {
    var q := (n - 1) / c;
    QuotientBounds(n - 1, c);
    if q < k { ScaleOrder(c, q + 1, k); } else { ScaleOrder(c, k, q); }
  }

  // ---- powers of two -----------------------------------------------------

  lemma {:induction false} BitLengthBounds(n: nat)
    requires n > 0
    ensures BitLength(n) > 0 && Pow2(BitLength(n) - 1) <= n < Pow2(BitLength(n))
  {
    if n > 1 { BitLengthBounds(n / 2); }
  }

  lemma {:induction false} Pow2Order(j: nat, k: nat)
    requires j <= k
    ensures Pow2(j) <= Pow2(k)
  {
    if j < k { Pow2Order(j, k - 1); }
  }

  /** The bit length is the only exponent whose octave holds the number. */
  lemma OctaveIsBitLength(n: nat, k: nat)
    requires n > 0 && k > 0 && Pow2(k - 1) <= n < Pow2(k)
    ensures BitLength(n) == k
  {
    var b := BitLength(n);
    BitLengthBounds(n);
    if b < k { Pow2Order(b, k - 1); }
    if b > k { Pow2Order(k, b - 1); }
  }

  /** How many chunks a power of two holds. */
  function Chunks(power: nat): nat {
    if power <= 256 then power / 32 else 8
  }

  lemma ChunkDivides(p: nat)
    requires p % 64 == 0
    ensures p == Chunk(p) * Chunks(p)
  {
    var m := p / 64;
    if p <= 256 {
      assert Chunk(p) == 32 && Chunks(p) == 2 * m;
    } else {
      assert Chunk(p) == 8 * m && Chunks(p) == 8;
    }
  }

  lemma NextPowerFacts(len: nat)
    requires len > 32
    ensures NextPower(len) >= 64 && NextPower(len) % 64 == 0
    ensures len <= NextPower(len) < 2 * len
    ensures NextPower(len) == Chunk(NextPower(len)) * Chunks(NextPower(len))
  {
    hide Chunk, Chunks;
    var b := BitLength(len - 1);
    BitLengthBounds(len - 1);
    FifthPower();
    if b < 6 { Pow2Order(b, 5); } else { PowerOfAtLeastSix(b); }
    assert Pow2(b) == 2 * Pow2(b - 1);
    ChunkDivides(Pow2(b));
  }

  lemma FifthPower()
    ensures Pow2(5) == 32
  {
    assert Pow2(5) == 2 * Pow2(4) == 4 * Pow2(3) == 8 * Pow2(2) == 16 * Pow2(1);
  }

  lemma {:induction false} PowerOfAtLeastSix(b: nat)
    requires b >= 6
    ensures Pow2(b) >= 64 && Pow2(b) % 64 == 0
  {
    if b == 6 {
      FifthPower();
    } else {
      PowerOfAtLeastSix(b - 1);
    }
  }

  // ---- the padded length -------------------------------------------------

  lemma WithinItsOctave(len: nat)
    requires len > 32
    ensures len <= PaddedLen(len) <= NextPower(len)
  {
    var c := Chunk(NextPower(len));
    NextPowerFacts(len);
    RoundUpBounds(len, c);
    RoundUpIsLeast(len, c, Chunks(NextPower(len)));
  }

  lemma SameOctave(m: nat, n: nat)
    requires 32 < m <= n <= NextPower(m)
    ensures NextPower(n) == NextPower(m)
  {
    BitLengthBounds(m - 1);
    OctaveIsBitLength(n - 1, BitLength(m - 1));
  }

  lemma MonotoneInOctave(m: nat, n: nat)
    requires 32 < m <= n <= NextPower(m)
    ensures PaddedLen(m) <= PaddedLen(n)
  {
    hide NextPower;
    SameOctave(m, n);
    var c := Chunk(NextPower(m));
    RoundUpBounds(n, c);
    RoundUpIsLeast(m, c, (n - 1) / c + 1);
  }

  /** Longer texts never get shorter padding. */
  lemma PaddingIsMonotone(m: nat, n: nat)
    requires m <= n
    ensures PaddedLen(m) <= PaddedLen(n)
  {
    hide NextPower, RoundUp;
    if m <= 32 {
      if n > 32 { WithinItsOctave(n); }
    } else if n <= NextPower(m) {
      MonotoneInOctave(m, n);
    } else {
      WithinItsOctave(m);
      WithinItsOctave(n);
    }
  }

  lemma RoundUpTwice(n: nat, c: nat)
    requires n > 0 && c > 0
    ensures RoundUp(n, c) > 0 && RoundUp(RoundUp(n, c), c) == RoundUp(n, c)
  {
    RoundUpBounds(n, c);
    RoundUpBounds(RoundUp(n, c), c);
    RoundUpIsLeast(RoundUp(n, c), c, (n - 1) / c + 1);
  }

  /** A padded length pads to itself, so every text shares its size with the longest text of its class. */
  lemma PaddingIsIdempotent(n: nat)
    ensures PaddedLen(PaddedLen(n)) == PaddedLen(n)
  {
    hide NextPower, Chunk, RoundUp;
    if n > 32 {
      WithinItsOctave(n);
      SameOctave(n, PaddedLen(n));
      RoundUpTwice(n, Chunk(NextPower(n)));
    }
  }

  /** The sizes on the wire are multiples of 32, leave room for the text, and waste at most
      31 octets or a quarter of the text. */
  lemma PaddingIsTight(n: nat)
    ensures n <= PaddedLen(n) && PaddedLen(n) % 32 == 0
    ensures n > 32 ==> PaddedLen(n) - n < 32 || 4 * (PaddedLen(n) - n) < n
  {
    if n > 32 {
      var c := Chunk(NextPower(n));
      NextPowerFacts(n);
      RoundUpBounds(n, c);
      MultipleOf32(NextPower(n), BitLength(n - 1), (n - 1) / c + 1);
    }
  }

  lemma BigPower(b: nat)
    requires Pow2(b) > 256
    ensures Pow2(b) / 8 % 32 == 0
  {
    EightBits();
    if b <= 8 { Pow2Order(b, 8); } else { ChunkOfPower(b); }
  }

  lemma ChunkOfPower(b: nat)
    requires b >= 9
    ensures Pow2(b) / 8 % 32 == 0
  {
    PowerOfAtLeastSix(b - 3);
    assert Pow2(b - 1) == 2 * Pow2(b - 2);
    assert Pow2(b) == 2 * Pow2(b - 1);
    EighthOf(Pow2(b - 3));
  }

  lemma EighthOf(p: nat)
    requires p % 64 == 0
    ensures 8 * p / 8 % 32 == 0
  {
  }

  lemma MultipleOf32(power: nat, b: nat, q: nat)
    requires power == Pow2(b)
    ensures (Chunk(power) * q) % 32 == 0
  {
    if power > 256 { BigPower(b); }
    var h := Chunk(power) / 32;
    assert Chunk(power) * q == 32 * (h * q);
  }

  // ---- the size classes --------------------------------------------------

  lemma RoundUpIsMultiple(n: nat, c: nat)
    requires n > 0 && c > 0
    ensures RoundUp(n, c) % c == 0
  {
    Multiple(c, (n - 1) / c + 1);
  }

  lemma Multiple(c: nat, q: nat)
    requires c > 0
    ensures c * q % c == 0
  {
    var r, d := c * q % c, q - c * q / c;
    assert c * d == r;
    if d > 0 { ScaleOrder(c, 1, d); }
    if d < 0 { ScaleOrder(c, 1, -d); }
  }

  lemma {:induction false} EighthOfPower(k: nat)
    requires k >= 3
    ensures Pow2(k) == 8 * Pow2(k - 3)
  {
    assert Pow2(k) == 2 * Pow2(k - 1) && Pow2(k - 1) == 2 * Pow2(k - 2) && Pow2(k - 2) == 2 * Pow2(k - 3);
  }

  lemma PowerAt(n: nat, k: nat)
    requires k >= 6 && Pow2(k - 1) < n <= Pow2(k)
    ensures n > 32 && NextPower(n) == Pow2(k)
  {
    FifthPower();
    Pow2Order(5, k - 1);
    OctaveIsBitLength(n - 1, k);
  }

  /** Texts of up to 256 octets are padded to the least multiple of 32 that holds them, and at least to 32. */
  lemma SmallClasses(n: nat)
    requires n <= 256
    ensures PaddedLen(n) % 32 == 0 && PaddedLen(n) >= 32 && n <= PaddedLen(n)
    ensures n > 32 ==> PaddedLen(n) < n + 32
    ensures n <= 32 ==> PaddedLen(n) == 32
  {
    if n > 32 {
      EightBits();
      BitLengthBounds(n - 1);
      var b := BitLength(n - 1);
      if b > 8 { Pow2Order(8, b - 1); }
      Pow2Order(b, 8);
      RoundUpBounds(n, 32);
      RoundUpIsMultiple(n, 32);
    }
  }

  /** Beyond, each octave has classes an eighth of its end apart, and a text is padded to the least that holds it. */
  lemma LargeClasses(n: nat, k: nat)
    requires k >= 9 && Pow2(k - 1) < n <= Pow2(k)
    ensures Pow2(k - 3) > 0 && PaddedLen(n) % Pow2(k - 3) == 0
    ensures n <= PaddedLen(n) < n + Pow2(k - 3)
  {
    PowerAt(n, k);
    EighthOfPower(k);
    EightBits();
    Pow2Order(8, k - 1);
    RoundUpBounds(n, Pow2(k - 3));
    RoundUpIsMultiple(n, Pow2(k - 3));
  }
}
