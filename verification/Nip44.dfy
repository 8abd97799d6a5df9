/** NIP-44 version 2 payloads: what is sealed, what is accepted, and that they are the same. */
module Nip44 {
  import opened Wrappers
  import opened Octets
  import opened ChaCha20
  import opened Hkdf
  import opened Keys
  import opened PaddedLength

  const MAX_PLAINTEXT := 65408
  const VERSION: Octet := 2

  /** The services the program takes from elsewhere. Text is carried as its UTF-8 octets. */
  datatype Library = Library(
    sha: Hash,
    curve: Curve,
    encode: seq<Octet> -> string,
    decode: string -> Option<seq<Octet>>,
    utf8: seq<Octet> -> bool)
  {
    ghost predicate Lawful() {
      curve.Lawful() && forall b :: decode(encode(b)) == Some(b)
    }
  }

  // ---- padding -----------------------------------------------------------

  /** The length the first two octets declare. */
  function Declared(b: seq<Octet>): nat
    requires |b| >= 2
  {
    Unsigned(b[..2])
  }

  lemma DeclaredRoundTrip(n: nat, rest: seq<Octet>)
    requires n < 65536
    ensures Declared(BigEndian(n, 2) + rest) == n
  {
    hide BigEndian, Unsigned;
    Widths();
    UnsignedOfBigEndian(n, 2);
    assert (BigEndian(n, 2) + rest)[..2] == BigEndian(n, 2);
  }

  function Zeros(n: nat): seq<Octet> {
    seq(n, i => 0)
  }

  predicate FitsIn(text: seq<Octet>) {
    0 < |text| <= MAX_PLAINTEXT
  }

  /** A length prefix, the text, and whatever fills it up to its size class. */
  ghost predicate IsPadded(padded: seq<Octet>, text: seq<Octet>) {
    && FitsIn(text)
    && |padded| == 2 + PaddedLen(|text|)
    && 2 + |text| <= |padded|
    && padded[..2 + |text|] == BigEndian(|text|, 2) + text
  }

  function Unpadded(padded: seq<Octet>): Result<seq<Octet>, CryptoError>
    requires |padded| >= 2
  {
    var n := Declared(padded);
    if n == 0 || n > MAX_PLAINTEXT || |padded| != 2 + PaddedLen(n) || 2 + n > |padded| then Err(InvalidPadding)
    else Ok(padded[2..2 + n])
  }

  /** The reader takes exactly the padded forms; the fill itself is never looked at. */
  lemma UnpaddingIsExact(padded: seq<Octet>, text: seq<Octet>)
    requires |padded| >= 2
    ensures Unpadded(padded) == Ok(text) <==> IsPadded(padded, text)
  {
    hide PaddedLen, BigEndian, Unsigned;
    Widths();
    if IsPadded(padded, text) {
      var head := BigEndian(|text|, 2) + text;
      assert padded == BigEndian(|text|, 2) + (text + padded[2 + |text|..]) by {
        assert padded == padded[..2 + |text|] + padded[2 + |text|..];
      }
      DeclaredRoundTrip(|text|, text + padded[2 + |text|..]);
    }
    BigEndianOfUnsigned(padded[..2]);
    if Unpadded(padded) == Ok(text) {
      assert padded[..2 + |text|] == padded[..2] + text;
    }
  }

  // ---- payloads ----------------------------------------------------------

  function CipherKey(keys: seq<Octet>): Key
    requires |keys| == KEYS
  {
    keys[..32]
  }

  function CipherNonce(keys: seq<Octet>): Nonce
    requires |keys| == KEYS
  {
    keys[32..44]
  }

  function MacKey(keys: seq<Octet>): seq<Octet>
    requires |keys| == KEYS
  {
    keys[44..]
  }

  /** The 76 derived octets are, in this order, the cipher's key, its nonce and the key of the authentication code. */
  lemma KeysAreSplit(keys: seq<Octet>)
    requires |keys| == 76
    ensures CipherKey(keys) + CipherNonce(keys) + MacKey(keys) == keys && |MacKey(keys)| == 32
  {
  }

  function Mac(sha: Hash, keys: seq<Octet>, nonce: Digest, sealed: seq<Octet>): Digest
    requires |keys| == KEYS
  {
    Hmac(sha, MacKey(keys), nonce + sealed)
  }

  function Payload(sha: Hash, conversation: Digest, nonce: Digest, padded: seq<Octet>): seq<Octet>
    requires |padded| <= 64 * COUNTERS
  {
    var keys := Expand(sha, conversation, nonce, KEYS);
    var sealed := Masked(CipherKey(keys), CipherNonce(keys), padded);
    [VERSION] + nonce + sealed + Mac(sha, keys, nonce, sealed)
  }

  function PayloadNonce(p: seq<Octet>): Digest
    requires |p| >= 99
  {
    p[1..33]
  }

  function Opened(sha: Hash, conversation: Digest, p: seq<Octet>): Result<seq<Octet>, CryptoError>
    requires |p| >= 99
  {
    var nonce, sealed := PayloadNonce(p), p[33..|p| - 32];
    var keys := Expand(sha, conversation, nonce, KEYS);
    if p[|p| - 32..] != Mac(sha, keys, nonce, sealed) then Err(InvalidMac)
    else if |sealed| > 64 * COUNTERS then Err(CounterOverflow)
    else Unpadded(Masked(CipherKey(keys), CipherNonce(keys), sealed))
  }

  lemma PaddedSize(n: nat)
    requires n <= MAX_PLAINTEXT
    ensures n <= PaddedLen(n) && 32 <= PaddedLen(n) < 2 * 65536
  {
    if n > 32 {
      NextPowerFacts(n);
      WithinItsOctave(n);
    }
  }

  lemma PayloadParts(nonce: Digest, sealed: seq<Octet>, mac: Digest)
    ensures
      var p := [VERSION] + nonce + sealed + mac;
      |p| == 65 + |sealed| && p[0] == VERSION && p[1..33] == nonce && p[33..|p| - 32] == sealed && p[|p| - 32..] == mac
  {
  }

  lemma PayloadRejoins(p: seq<Octet>)
    requires |p| >= 99 && p[0] == VERSION
    ensures p == [VERSION] + p[1..33] + p[33..|p| - 32] + p[|p| - 32..]
  {
  }

  /** What was sealed is what opens. */
  lemma SealedOpens(sha: Hash, conversation: Digest, nonce: Digest, padded: seq<Octet>, text: seq<Octet>)
    requires IsPadded(padded, text) && |padded| <= 64 * COUNTERS
    ensures
      var p := Payload(sha, conversation, nonce, padded);
      |p| >= 99 && p[0] == VERSION && PayloadNonce(p) == nonce && Opened(sha, conversation, p) == Ok(text)
  {
    hide Expand, Masked, Hmac, Unpadded, IsPadded, PaddedLen;
    var keys := Expand(sha, conversation, nonce, KEYS);
    var sealed := Masked(CipherKey(keys), CipherNonce(keys), padded);
    assert |padded| >= 34 by { PaddedFits(padded, text); PaddedSize(|text|); }
    PayloadParts(nonce, sealed, Mac(sha, keys, nonce, sealed));
    MaskingIsAnInvolution(CipherKey(keys), CipherNonce(keys), padded);
    UnpaddingIsExact(padded, text);
  }

  lemma PaddedFits(padded: seq<Octet>, text: seq<Octet>)
    requires IsPadded(padded, text)
    ensures FitsIn(text) && |padded| == 2 + PaddedLen(|text|)
  {
  }

  /** What opens was sealed: with this key, under the payload's own nonce, around this very text. */
  lemma OpenedWasSealed(sha: Hash, conversation: Digest, p: seq<Octet>, text: seq<Octet>)
    requires |p| >= 99 && p[0] == VERSION && Opened(sha, conversation, p) == Ok(text)
    ensures exists padded ::
      |padded| <= 64 * COUNTERS && IsPadded(padded, text) && p == Payload(sha, conversation, PayloadNonce(p), padded)
  {
    hide Expand, Masked, Hmac, Unpadded, IsPadded, PaddedLen;
    var keys := Expand(sha, conversation, PayloadNonce(p), KEYS);
    var sealed := p[33..|p| - 32];
    var padded := Masked(CipherKey(keys), CipherNonce(keys), sealed);
    MaskingIsAnInvolution(CipherKey(keys), CipherNonce(keys), sealed);
    UnpaddingIsExact(padded, text);
    PayloadRejoins(p);
    assert p == Payload(sha, conversation, PayloadNonce(p), padded);
  }

  // ---- messages ----------------------------------------------------------

  function Encrypted(lib: Library, secret: nat, peer: Digest, text: seq<Octet>, nonce: Digest)
    : Result<string, CryptoError>
  {
    var key := ConversationKey(lib.sha, lib.curve, secret, peer);
    if key.Err? then Err(key.error)
    else if |text| == 0 then Err(EmptyPlaintext)
    else if |text| > MAX_PLAINTEXT then Err(PlaintextTooLong)
    else
      PaddedSize(|text|);
      Ok(lib.encode(Payload(lib.sha, key.value, nonce,
        BigEndian(|text|, 2) + text + Zeros(PaddedLen(|text|) - |text|))))
  }

  function Decrypted(lib: Library, secret: nat, peer: Digest, cipher: string): Result<seq<Octet>, CryptoError>
  {
    var payload := lib.decode(cipher);
    if payload.None? || |payload.value| < 99 || payload.value[0] != VERSION then Err(InvalidPayload)
    else
      var key := ConversationKey(lib.sha, lib.curve, secret, peer);
      if key.Err? then Err(key.error)
      else
        var text := Opened(lib.sha, key.value, payload.value);
        if text.Err? then text
        else if lib.utf8(text.value) then text
        else Err(InvalidUtf8)
  }

  /** The two ends read each other: every text of 1 to 65408 octets, any nonce, any pair of keys. */
  lemma MessagesRoundTrip(lib: Library, a: nat, b: nat, text: seq<Octet>, nonce: Digest)
    requires lib.Lawful() && lib.curve.IsSecret(a) && lib.curve.IsSecret(b) && FitsIn(text) && lib.utf8(text)
    ensures
      var sent := Encrypted(lib, a, PublicKey(lib.curve, b), text, nonce);
      sent.Ok? && Decrypted(lib, b, PublicKey(lib.curve, a), sent.value) == Ok(text)
  {
    hide ConversationKey, Payload, Opened, IsPadded, PaddedLen, BigEndian;
    ConversationKeysAgree(lib.sha, lib.curve, a, b);
    PaddedSize(|text|);
    var padded := BigEndian(|text|, 2) + text + Zeros(PaddedLen(|text|) - |text|);
    ZeroFillPads(text);
    var key := ConversationKey(lib.sha, lib.curve, a, PublicKey(lib.curve, b)).value;
    SealedOpens(lib.sha, key, nonce, padded, text);
  }

  lemma ZeroFillPads(text: seq<Octet>)
    requires FitsIn(text)
    ensures |text| <= PaddedLen(|text|)
      && IsPadded(BigEndian(|text|, 2) + text + Zeros(PaddedLen(|text|) - |text|), text)
  {
    hide PaddedLen;
    PaddedSize(|text|);
    assert (BigEndian(|text|, 2) + text + Zeros(PaddedLen(|text|) - |text|))[..2 + |text|]
      == BigEndian(|text|, 2) + text;
  }

  /** A ciphertext was sealed for this pair of keys around this text. */
  ghost predicate SealedFor(lib: Library, secret: nat, peer: Digest, cipher: string, text: seq<Octet>) {
    var key := ConversationKey(lib.sha, lib.curve, secret, peer);
    && key.Ok? && lib.decode(cipher).Some?
    && exists nonce: Digest, padded :: |padded| <= 64 * COUNTERS && IsPadded(padded, text)
         && lib.decode(cipher).value == Payload(lib.sha, key.value, nonce, padded)
  }

  /** Decryption accepts exactly the payloads sealed with the shared key around a UTF-8 text,
      and returns that text: any change to version, nonce, ciphertext or authentication code is refused. */
  lemma DecryptionIsExact(lib: Library, secret: nat, peer: Digest, cipher: string, text: seq<Octet>)
    ensures Decrypted(lib, secret, peer, cipher) == Ok(text)
      <==> SealedFor(lib, secret, peer, cipher, text) && lib.utf8(text)
  {
    hide ConversationKey, Payload, Opened, IsPadded;
    var payload := lib.decode(cipher);
    var key := ConversationKey(lib.sha, lib.curve, secret, peer);
    if Decrypted(lib, secret, peer, cipher) == Ok(text) {
      OpenedWasSealed(lib.sha, key.value, payload.value, text);
    }
    if SealedFor(lib, secret, peer, cipher, text) && lib.utf8(text) {
      var nonce: Digest, padded :| |padded| <= 64 * COUNTERS && IsPadded(padded, text)
         && payload.value == Payload(lib.sha, key.value, nonce, padded);
      SealedOpens(lib.sha, key.value, nonce, padded, text);
    }
  }

  // ---- refusals ----------------------------------------------------------

  /** A text is refused exactly if a key is bad, it is empty or it is longer than 65408 octets. */
  lemma EncryptionRefusals(lib: Library, secret: nat, peer: Digest, text: seq<Octet>, nonce: Digest)
    ensures
      var r, key := Encrypted(lib, secret, peer, text, nonce), ConversationKey(lib.sha, lib.curve, secret, peer);
      && (r.Ok? <==> key.Ok? && 1 <= |text| <= 65408)
      && (key.Err? ==> r == Err(key.error))
      && (key.Ok? ==> (r == Err(EmptyPlaintext) <==> |text| == 0) && (r == Err(PlaintextTooLong) <==> |text| > 65408))
  {
    hide ConversationKey, Payload, PaddedLen, BigEndian;
  }

  /** A ciphertext is refused before anything else if it does not decode to a payload of version 2, then for its keys,
      and then exactly if its last 32 octets are not the authentication code of what lies between. */
  lemma DecryptionRefusals(lib: Library, secret: nat, peer: Digest, cipher: string)
    ensures
      var r, p, key := Decrypted(lib, secret, peer, cipher), lib.decode(cipher),
                       ConversationKey(lib.sha, lib.curve, secret, peer);
      var malformed := p.None? || |p.value| < 99 || p.value[0] != 2;
      && (malformed ==> r == Err(InvalidPayload))
      && (!malformed && key.Err? ==> r == Err(key.error))
      && (!malformed && key.Ok? ==>
            var n := |p.value|;
            var keys := Expand(lib.sha, key.value, p.value[1..33], 76);
            r == Err(InvalidMac) <==> p.value[n - 32..] != Hmac(lib.sha, keys[44..], p.value[1..n - 32]))
  {
    hide ConversationKey, Expand, Hmac, Unpadded, Masked;
    var p := lib.decode(cipher);
    if p.Some? && |p.value| >= 99 {
      assert p.value[1..33] + p.value[33..|p.value| - 32] == p.value[1..|p.value| - 32];
      UnpaddedNeverMac();
    }
  }

  lemma UnpaddedNeverMac()
    ensures forall b: seq<Octet> | |b| >= 2 :: Unpadded(b) != Err(InvalidMac)
  {
  }

  // ---- in place ----------------------------------------------------------

  method CopyInto(buffer: array<Octet>, offset: nat, source: seq<Octet>)
    requires offset + |source| <= buffer.Length
    modifies buffer
    ensures buffer[..] == old(buffer[..offset]) + source + old(buffer[offset + |source|..])
  {
    for i := 0 to |source|
      invariant buffer[..] == old(buffer[..offset]) + source[..i] + old(buffer[offset + i..])
    {
      buffer[offset + i] := source[i];
    }
  }

  method Encrypt(lib: Library, secret: nat, peer: Digest, text: seq<Octet>, nonce: Digest)
    returns (r: Result<string, CryptoError>)
    ensures r == Encrypted(lib, secret, peer, text, nonce)
  {
    hide Masked, Expand, Hmac, PaddedLen, BigEndian, ConversationKey;
    var key := ConversationKey(lib.sha, lib.curve, secret, peer);
    if key.Err? {
      return Err(key.error);
    }
    if |text| == 0 {
      return Err(EmptyPlaintext);
    }
    if |text| > MAX_PLAINTEXT {
      return Err(PlaintextTooLong);
    }
    var keys := DeriveMessageKeys(lib.sha, key.value, nonce);
    PaddedSize(|text|);
    var padded := new Octet[2 + PaddedLen(|text|)](_ => 0);
    CopyInto(padded, 0, BigEndian(|text|, 2));
    assert padded[..] == BigEndian(|text|, 2) + Zeros(PaddedLen(|text|));
    CopyInto(padded, 2, text);
    assert padded[..] == BigEndian(|text|, 2) + text + Zeros(PaddedLen(|text|) - |text|);
    ChaChaXor(CipherKey(keys), CipherNonce(keys), padded);
    var mac := HmacSha256(lib.sha, keys[44..], [nonce, padded[..]]);
    TwoParts(nonce, padded[..]);
    r := Ok(lib.encode([VERSION] + nonce + padded[..] + mac));
  }

  lemma TwoParts(a: seq<Octet>, b: seq<Octet>)
    ensures Concat([a, b]) == a + b
  {
    FlattenThree([], a, b, true);
  }

  method Decrypt(lib: Library, secret: nat, peer: Digest, cipher: string) returns (r: Result<seq<Octet>, CryptoError>)
    ensures r == Decrypted(lib, secret, peer, cipher)
  {
    hide Masked, Expand, Hmac, PaddedLen, ConversationKey, Unsigned;
    var payload := lib.decode(cipher);
    if payload.None? || |payload.value| < 99 || payload.value[0] != VERSION {
      return Err(InvalidPayload);
    }
    var p := payload.value;
    var nonce, sealed, supplied := PayloadNonce(p), p[33..|p| - 32], p[|p| - 32..];
    var key := ConversationKey(lib.sha, lib.curve, secret, peer);
    if key.Err? {
      return Err(key.error);
    }
    var keys := DeriveMessageKeys(lib.sha, key.value, nonce);
    var mac := HmacSha256(lib.sha, keys[44..], [nonce, sealed]);
    TwoParts(nonce, sealed);
    if supplied != mac {
      return Err(InvalidMac);
    }
    if |sealed| > 64 * COUNTERS {
      return Err(CounterOverflow);
    }
    var text := new Octet[|sealed|](i requires 0 <= i < |sealed| => sealed[i]);
    assert text[..] == sealed;
    ChaChaXor(CipherKey(keys), CipherNonce(keys), text);
    assert text[..2] == text[..][..2];
    var declared := Unsigned(text[..2]);
    if declared == 0 || declared > MAX_PLAINTEXT || text.Length != 2 + PaddedLen(declared)
      || 2 + declared > text.Length
    {
      return Err(InvalidPadding);
    }
    if !lib.utf8(text[2..2 + declared]) {
      return Err(InvalidUtf8);
    }
    r := Ok(text[2..2 + declared]);
  }
}
