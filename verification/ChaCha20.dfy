/** ChaCha20 as section 2 of RFC 8439 defines it, and the in-place cipher that computes it. */
module ChaCha20 {
  import opened Octets

  type Word = bv32

  // ---- words -------------------------------------------------------------

  function Plus(v: Word, w: Word): Word { v + w }

  function Xor(v: Word, w: Word): Word { v ^ w }

  function Left(w: Word, n: nat): Word
    requires n < 32
  {
    w.RotateLeft(n)
  }

  function WordOf(b: seq<Octet>): Word
    requires |b| == 4
  {
    (b[0] as Word) | ((b[1] as Word) << 8) | ((b[2] as Word) << 16) | ((b[3] as Word) << 24)
  }

  function OctetsOf(w: Word): (b: seq<Octet>)
    ensures |b| == 4
  {
    [(w & 0xff) as Octet, ((w >> 8) & 0xff) as Octet, ((w >> 16) & 0xff) as Octet, (w >> 24) as Octet]
  }

  /** Little-endian octets of a word read back as the word. */
  lemma WordRoundTrip(w: Word)
    ensures WordOf(OctetsOf(w)) == w
  {
  }

  // ---- the block function ------------------------------------------------

  datatype Quad = Quad(a: Word, b: Word, c: Word, d: Word)

  function HalfRound(q: Quad, x: nat, y: nat): Quad
    requires x < 32 && y < 32
  {
    var a := Plus(q.a, q.b);
    var d := Left(Xor(q.d, a), x);
    var c := Plus(q.c, d);
    Quad(a, Left(Xor(q.b, c), y), c, d)
  }

  function QuarterRound(q: Quad): Quad {
    HalfRound(HalfRound(q, 16, 12), 8, 7)
  }

  type State = s: seq<Word> | |s| == 16 witness seq(16, i => 0)

  predicate Apart(a: nat, b: nat, c: nat, d: nat) {
    a < 16 && b < 16 && c < 16 && d < 16 && a != b && a != c && a != d && b != c && b != d && c != d
  }

  function OnQuad(s: State, a: nat, b: nat, c: nat, d: nat): State
    requires Apart(a, b, c, d)
  {
    var q := QuarterRound(Quad(s[a], s[b], s[c], s[d]));
    s[a := q.a][b := q.b][c := q.c][d := q.d]
  }

  function Columns(s: State): State {
    OnQuad(OnQuad(OnQuad(OnQuad(s, 0, 4, 8, 12), 1, 5, 9, 13), 2, 6, 10, 14), 3, 7, 11, 15)
  }

  function Diagonals(s: State): State {
    OnQuad(OnQuad(OnQuad(OnQuad(s, 0, 5, 10, 15), 1, 6, 11, 12), 2, 7, 8, 13), 3, 4, 9, 14)
  }

  /** The four words at these places, as one number each. */
  function At(s: seq<Word>, a: nat, b: nat, c: nat, d: nat): Quad
    requires |s| == 16 && Apart(a, b, c, d)
  {
    Quad(s[a], s[b], s[c], s[d])
  }

  lemma OneQuadIsMixed(s: State, a: nat, b: nat, c: nat, d: nat)
    requires Apart(a, b, c, d)
    ensures At(OnQuad(s, a, b, c, d), a, b, c, d) == QuarterRound(At(s, a, b, c, d))
  {
    hide QuarterRound;
  }

  predicate Clear(a: nat, b: nat, c: nat, d: nat, x: nat) {
    x != a && x != b && x != c && x != d
  }

  lemma OtherQuadStays(s: State, a: nat, b: nat, c: nat, d: nat, e: nat, f: nat, g: nat, h: nat)
    requires Apart(a, b, c, d) && Apart(e, f, g, h)
    requires Clear(a, b, c, d, e) && Clear(a, b, c, d, f) && Clear(a, b, c, d, g) && Clear(a, b, c, d, h)
    ensures At(OnQuad(s, a, b, c, d), e, f, g, h) == At(s, e, f, g, h)
  {
    hide QuarterRound;
  }

  /** A column round mixes each of the four columns of the state, seen as four rows of four words. */
  lemma ColumnsAreMixed(s: State, c: nat)
    requires c < 4
    ensures At(Columns(s), c, 4 + c, 8 + c, 12 + c) == QuarterRound(At(s, c, 4 + c, 8 + c, 12 + c))
  {
    hide QuarterRound, OnQuad, At;
    var s1 := OnQuad(s, 0, 4, 8, 12);
    var s2 := OnQuad(s1, 1, 5, 9, 13);
    var s3 := OnQuad(s2, 2, 6, 10, 14);
    if c == 0 {
      OneQuadIsMixed(s, 0, 4, 8, 12);
      OtherQuadStays(s1, 1, 5, 9, 13, 0, 4, 8, 12);
      OtherQuadStays(s2, 2, 6, 10, 14, 0, 4, 8, 12);
      OtherQuadStays(s3, 3, 7, 11, 15, 0, 4, 8, 12);
    } else if c == 1 {
      OtherQuadStays(s, 0, 4, 8, 12, 1, 5, 9, 13);
      OneQuadIsMixed(s1, 1, 5, 9, 13);
      OtherQuadStays(s2, 2, 6, 10, 14, 1, 5, 9, 13);
      OtherQuadStays(s3, 3, 7, 11, 15, 1, 5, 9, 13);
    } else if c == 2 {
      OtherQuadStays(s, 0, 4, 8, 12, 2, 6, 10, 14);
      OtherQuadStays(s1, 1, 5, 9, 13, 2, 6, 10, 14);
      OneQuadIsMixed(s2, 2, 6, 10, 14);
      OtherQuadStays(s3, 3, 7, 11, 15, 2, 6, 10, 14);
    } else {
      OtherQuadStays(s, 0, 4, 8, 12, 3, 7, 11, 15);
      OtherQuadStays(s1, 1, 5, 9, 13, 3, 7, 11, 15);
      OtherQuadStays(s2, 2, 6, 10, 14, 3, 7, 11, 15);
      OneQuadIsMixed(s3, 3, 7, 11, 15);
    }
  }

  /** A diagonal round mixes each of the four diagonals, which run down and to the right and around. */
  lemma DiagonalsAreMixed(s: State, c: nat)
    requires c < 4
    ensures
      var i, j, k := 4 + (c + 1) % 4, 8 + (c + 2) % 4, 12 + (c + 3) % 4;
      At(Diagonals(s), c, i, j, k) == QuarterRound(At(s, c, i, j, k))
  {
    hide QuarterRound, OnQuad, At;
    var s1 := OnQuad(s, 0, 5, 10, 15);
    var s2 := OnQuad(s1, 1, 6, 11, 12);
    var s3 := OnQuad(s2, 2, 7, 8, 13);
    if c == 0 {
      OneQuadIsMixed(s, 0, 5, 10, 15);
      OtherQuadStays(s1, 1, 6, 11, 12, 0, 5, 10, 15);
      OtherQuadStays(s2, 2, 7, 8, 13, 0, 5, 10, 15);
      OtherQuadStays(s3, 3, 4, 9, 14, 0, 5, 10, 15);
    } else if c == 1 {
      OtherQuadStays(s, 0, 5, 10, 15, 1, 6, 11, 12);
      OneQuadIsMixed(s1, 1, 6, 11, 12);
      OtherQuadStays(s2, 2, 7, 8, 13, 1, 6, 11, 12);
      OtherQuadStays(s3, 3, 4, 9, 14, 1, 6, 11, 12);
    } else if c == 2 {
      OtherQuadStays(s, 0, 5, 10, 15, 2, 7, 8, 13);
      OtherQuadStays(s1, 1, 6, 11, 12, 2, 7, 8, 13);
      OneQuadIsMixed(s2, 2, 7, 8, 13);
      OtherQuadStays(s3, 3, 4, 9, 14, 2, 7, 8, 13);
    } else {
      OtherQuadStays(s, 0, 5, 10, 15, 3, 4, 9, 14);
      OtherQuadStays(s1, 1, 6, 11, 12, 3, 4, 9, 14);
      OtherQuadStays(s2, 2, 7, 8, 13, 3, 4, 9, 14);
      OneQuadIsMixed(s3, 3, 4, 9, 14);
    }
  }

  /** The quarter round does what section 2.1.1 of RFC 8439 shows it doing. */
  lemma QuarterRoundVector()
    ensures QuarterRound(Quad(0x11111111, 0x01020304, 0x9b8d6f43, 0x01234567))
         == Quad(0xea2a92f4, 0xcb1cf8ce, 0x4581472e, 0x5881c4bb)
  {
    assert HalfRound(Quad(0x11111111, 0x01020304, 0x9b8d6f43, 0x01234567), 16, 12)
        == Quad(0x12131415, 0xd8177edf, 0xecff8273, 0x51721330);
  }

  function Rounds(s: State, n: nat): State {
    if n == 0 then s else Diagonals(Columns(Rounds(s, n - 1)))
  }

  const SIGMA: seq<Word> := [0x61707865, 0x3320646e, 0x79622d32, 0x6b206574]

  function Words(b: seq<Octet>): (w: seq<Word>)
    requires |b| % 4 == 0
    ensures |w| == |b| / 4
  {
    seq(|b| / 4, i requires 0 <= i < |b| / 4 => WordOf(b[4 * i..4 * i + 4]))
  }

  type Key = k: seq<Octet> | |k| == 32 witness seq(32, i => 0)
  type Nonce = n: seq<Octet> | |n| == 12 witness seq(12, i => 0)

  function Initial(key: Key, nonce: Nonce, counter: Word): State {
    SIGMA + Words(key) + [counter] + Words(nonce)
  }

  /** The first four words spell "expand 32-byte k"; then come the key, the counter and the nonce. */
  lemma InitialLayout(key: Key, nonce: Nonce, counter: Word)
    ensures
      var s := Initial(key, nonce, counter);
      && s[..4] == Words(Ascii("expand 32-byte k")) && s[4..12] == Words(key)
      && s[12] == counter && s[13..] == Words(nonce)
  {
    SigmaSpells();
  }

  lemma FirstCodes()
    ensures Code('e') == 0x65 && Code('x') == 0x78 && Code('p') == 0x70 && Code('a') == 0x61 && Code('n') == 0x6e
  {
  }

  lemma MiddleCodes()
    ensures Code('d') == 0x64 && Code(' ') == 0x20 && Code('3') == 0x33 && Code('2') == 0x32 && Code('-') == 0x2d
  {
  }

  lemma LastCodes()
    ensures Code('b') == 0x62 && Code('y') == 0x79 && Code('t') == 0x74 && Code('k') == 0x6b
  {
  }

  lemma SigmaOctets()
    ensures Ascii("expand 32-byte k")
         == [0x65, 0x78, 0x70, 0x61, 0x6e, 0x64, 0x20, 0x33, 0x32, 0x2d, 0x62, 0x79, 0x74, 0x65, 0x20, 0x6b]
  {
    hide Code;
    FirstCodes();
    MiddleCodes();
    LastCodes();
  }

  lemma SigmaWords()
    ensures WordOf([0x65, 0x78, 0x70, 0x61]) == 0x61707865 && WordOf([0x6e, 0x64, 0x20, 0x33]) == 0x3320646e
    ensures WordOf([0x32, 0x2d, 0x62, 0x79]) == 0x79622d32 && WordOf([0x74, 0x65, 0x20, 0x6b]) == 0x6b206574
  {
  }

  lemma SigmaSpells()
    ensures Words(Ascii("expand 32-byte k")) == SIGMA
  {
    SigmaOctets();
    SigmaWords();
    hide WordOf, Ascii;
    var b := Ascii("expand 32-byte k");
    assert b[0..4] == [0x65, 0x78, 0x70, 0x61] && b[4..8] == [0x6e, 0x64, 0x20, 0x33];
    assert b[8..12] == [0x32, 0x2d, 0x62, 0x79] && b[12..16] == [0x74, 0x65, 0x20, 0x6b];
  }

  function Added(s: State, t: State): State {
    seq(16, i requires 0 <= i < 16 => Plus(s[i], t[i]))
  }

  function Serialized(s: State): (b: seq<Octet>)
    ensures |b| == 64
  {
    seq(64, i requires 0 <= i < 64 => OctetsOf(s[i / 4])[i % 4])
  }

  function Block(key: Key, nonce: Nonce, counter: Word): (b: seq<Octet>)
    ensures |b| == 64
  {
    var s := Initial(key, nonce, counter);
    Serialized(Added(Rounds(s, 10), s))
  }

  // ---- the stream --------------------------------------------------------

  const COUNTERS := 0x1_0000_0000

  function Counter(n: nat): Word
    requires n < COUNTERS
  {
    n as Word
  }

  function Mask(x: Octet, y: Octet): Octet { x ^ y }

  function StreamOctet(key: Key, nonce: Nonce, i: nat): Octet
    requires i / 64 < COUNTERS
  {
    Block(key, nonce, Counter(i / 64))[i % 64]
  }

  /** Every octet is masked with the key stream at its own position. */
  function Masked(key: Key, nonce: Nonce, text: seq<Octet>): (r: seq<Octet>)
    requires |text| <= 64 * COUNTERS
    ensures |r| == |text|
  {
    seq(|text|, i requires 0 <= i < |text| => Mask(text[i], StreamOctet(key, nonce, i)))
  }

  lemma OctetXorTwice(x: Octet, y: Octet)
    ensures Mask(Mask(x, y), y) == x
  {
  }

  /** Masking twice gives the text back. */
  lemma MaskingIsAnInvolution(key: Key, nonce: Nonce, text: seq<Octet>)
    requires |text| <= 64 * COUNTERS
    ensures Masked(key, nonce, Masked(key, nonce, text)) == text
  {
    hide StreamOctet, Mask;
    forall i | 0 <= i < |text| ensures Masked(key, nonce, Masked(key, nonce, text))[i] == text[i] {
      OctetXorTwice(text[i], StreamOctet(key, nonce, i));
    }
  }

  // ---- in place ----------------------------------------------------------

  method MixHalf(state: array<Word>, a: nat, b: nat, c: nat, d: nat, x: nat, y: nat)
    requires state.Length == 16 && Apart(a, b, c, d) && x < 32 && y < 32
    modifies state
    ensures At(state[..], a, b, c, d) == HalfRound(old(At(state[..], a, b, c, d)), x, y)
    ensures forall i | 0 <= i < 16 && i != a && i != b && i != c && i != d :: state[i] == old(state[i])
  {
    hide Plus, Xor, Left;
    state[a] := Plus(state[a], state[b]);
    state[d] := Left(Xor(state[d], state[a]), x);
    state[c] := Plus(state[c], state[d]);
    state[b] := Left(Xor(state[b], state[c]), y);
  }

  method Mix(state: array<Word>, a: nat, b: nat, c: nat, d: nat)
    requires state.Length == 16 && Apart(a, b, c, d)
    modifies state
    ensures state[..] == OnQuad(old(state[..]), a, b, c, d)
  {
    hide HalfRound;
    MixHalf(state, a, b, c, d, 16, 12);
    MixHalf(state, a, b, c, d, 8, 7);
  }

  method DoubleRound(state: array<Word>)
    requires state.Length == 16
    modifies state
    ensures state[..] == Diagonals(Columns(old(state[..])))
  {
    hide OnQuad;
    Mix(state, 0, 4, 8, 12);
    Mix(state, 1, 5, 9, 13);
    Mix(state, 2, 6, 10, 14);
    Mix(state, 3, 7, 11, 15);
    Mix(state, 0, 5, 10, 15);
    Mix(state, 1, 6, 11, 12);
    Mix(state, 2, 7, 8, 13);
    Mix(state, 3, 4, 9, 14);
  }

  method AddInto(working: array<Word>, state: array<Word>)
    requires working.Length == 16 && state.Length == 16 && working != state
    modifies working
    ensures working[..] == Added(old(working[..]), state[..])
  {
    hide Plus;
    for i := 0 to 16
      invariant forall j | 0 <= j < 16 ::
        working[j] == if j < i then Plus(old(working[j]), state[j]) else old(working[j])
    {
      working[i] := Plus(working[i], state[i]);
    }
  }

  method Serialize(working: array<Word>, stream: array<Octet>)
    requires working.Length == 16 && stream.Length == 64
    modifies stream
    ensures stream[..] == Serialized(working[..])
  {
    hide OctetsOf;
    for i := 0 to 16
      invariant forall j | 0 <= j < 4 * i :: stream[j] == OctetsOf(working[j / 4])[j % 4]
    {
      var b := OctetsOf(working[i]);
      stream[4 * i], stream[4 * i + 1], stream[4 * i + 2], stream[4 * i + 3] := b[0], b[1], b[2], b[3];
    }
  }

  method BlockInto(state: array<Word>, stream: array<Octet>, ghost key: Key, ghost nonce: Nonce, ghost counter: Word)
    requires state.Length == 16 && stream.Length == 64
    requires state[..] == Initial(key, nonce, counter)
    modifies stream
    ensures stream[..] == Block(key, nonce, counter)
  {
    hide Initial, Columns, Diagonals, Added, Serialized;
    var working := new Word[16](i requires 0 <= i < 16 reads state => state[i]);
    assert working[..] == state[..];
    for n := 0 to 10
      invariant working[..] == Rounds(state[..], n)
    {
      DoubleRound(working);
    }
    AddInto(working, state);
    Serialize(working, stream);
  }

  /** The first octets are masked, the rest not yet. */
  ghost predicate Progress(now: seq<Octet>, key: Key, nonce: Nonce, text: seq<Octet>, done: nat) {
    && |text| <= 64 * COUNTERS && |now| == |text|
    && forall i | 0 <= i < |text| :: now[i] == if i < done then Mask(text[i], StreamOctet(key, nonce, i)) else text[i]
  }

  method XorChunk(buffer: array<Octet>, start: nat, stream: array<Octet>, ghost key: Key, ghost nonce: Nonce,
                  ghost text: seq<Octet>)
    requires buffer != stream && stream.Length == 64 && start % 64 == 0 && start < buffer.Length
    requires Progress(buffer[..], key, nonce, text, start)
    requires start / 64 < COUNTERS && stream[..] == Block(key, nonce, Counter(start / 64))
    modifies buffer
    ensures Progress(buffer[..], key, nonce, text, start + 64)
  {
    hide Block, Mask, Counter;
    var end := if buffer.Length - start < 64 then buffer.Length - start else 64;
    for j := 0 to end
      invariant Progress(buffer[..], key, nonce, text, start + j)
    {
      PlaceOf(start, j);
      buffer[start + j] := Mask(buffer[start + j], stream[j]);
    }
  }

  lemma PlaceOf(start: nat, j: nat)
    requires start % 64 == 0 && j < 64
    ensures (start + j) / 64 == start / 64 && (start + j) % 64 == j
  {
  }

  method ChaChaXor(key: Key, nonce: Nonce, buffer: array<Octet>)
    requires buffer.Length <= 64 * COUNTERS
    modifies buffer
    ensures buffer[..] == Masked(key, nonce, old(buffer[..]))
  {
    hide Block, Words, StreamOctet, Mask, Counter;
    ghost var text := buffer[..];
    var words := Initial(key, nonce, 0);
    var state := new Word[16](i requires 0 <= i < 16 => words[i]);
    var stream := new Octet[64];
    var counter := 0;
    while 64 * counter < buffer.Length
      invariant counter <= COUNTERS
      invariant state[..] == words[12 := state[12]]
      invariant Progress(buffer[..], key, nonce, text, 64 * counter)
    {
      state[12] := Counter(counter);
      assert state[..] == Initial(key, nonce, Counter(counter));
      BlockInto(state, stream, key, nonce, Counter(counter));
      XorChunk(buffer, 64 * counter, stream, key, nonce, text);
      counter := counter + 1;
    }
    assert buffer[..] == Masked(key, nonce, text);
  }
}
