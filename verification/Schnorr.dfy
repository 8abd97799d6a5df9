/** BIP-340 signatures. */
module Schnorr {
  import opened Wrappers
  import opened Octets
  import opened ChaCha20
  import opened Keys

  datatype Signature = Signature(r: Digest, s: nat)

  const AUX_TAG: seq<Octet> := Ascii("BIP0340/aux")
  const NONCE_TAG: seq<Octet> := Ascii("BIP0340/nonce")
  const CHALLENGE_TAG: seq<Octet> := Ascii("BIP0340/challenge")

  function TaggedHash(sha: Hash, tag: seq<Octet>, text: seq<Octet>): Digest {
    sha(sha(tag) + sha(tag) + text)
  }

  function Reduced(c: Curve, d: Digest): (k: nat)
    requires c.order > 0
    ensures k < c.order
  {
    Unsigned(d) % c.order
  }

  function Challenge(sha: Hash, c: Curve, r: Digest, public: Digest, message: Digest): nat
    requires c.order > 0
  {
    Reduced(c, TaggedHash(sha, CHALLENGE_TAG, r + public + message))
  }

  function XorDigests(a: Digest, b: Digest): Digest {
    seq(32, i requires 0 <= i < 32 => Mask(a[i], b[i]))
  }

  function EvenScalar(c: Curve, k: nat): nat
    requires 0 < k < c.order
  {
    if c.odd(k) then c.order - k else k
  }

  function NonceScalar(sha: Hash, c: Curve, d: nat, public: Digest, message: Digest, aux: Digest): (k: nat)
    requires c.order > 0
    ensures k < c.order
  {
    var t := XorDigests(TaggedHash(sha, AUX_TAG, aux), c.bytes(d));
    Reduced(c, TaggedHash(sha, NONCE_TAG, t + public + message))
  }

  /** The nonce is the default one of BIP-340: the secret, masked with the tagged hash of the auxiliary randomness, is
      hashed with the key and the message under the nonce tag. */
  lemma NonceIsDefault(sha: Hash, c: Curve, d: nat, public: Digest, message: Digest, aux: Digest)
    requires c.order > 0
    ensures
      var auxTag, nonceTag := sha(Ascii("BIP0340/aux")), sha(Ascii("BIP0340/nonce"));
      var masked := seq(32, i requires 0 <= i < 32 => Mask(c.bytes(d)[i], sha(auxTag + auxTag + aux)[i]));
      NonceScalar(sha, c, d, public, message, aux)
      == Unsigned(sha(nonceTag + nonceTag + (masked + public + message))) % c.order
  {
    hide Ascii, Unsigned;
    var auxTag := sha(Ascii("BIP0340/aux"));
    var hash := TaggedHash(sha, AUX_TAG, aux);
    assert forall i | 0 <= i < 32 :: Mask(hash[i], c.bytes(d)[i]) == Mask(c.bytes(d)[i], hash[i]);
    assert XorDigests(hash, c.bytes(d)) == seq(32, i requires 0 <= i < 32 => Mask(c.bytes(d)[i], hash[i]));
  }

  function Response(k: nat, e: nat, d: nat, order: nat): (s: nat)
    requires order > 0
    ensures s < order
  {
    (k + e * d) % order
  }

  /** The logarithm of sG - eP. */
  function Recovered(s: nat, e: nat, p: nat, order: nat): nat
    requires order > 0
  {
    (s - e * p) % order
  }

  lemma RecoversNonce(k: nat, e: nat, d: nat, order: nat)
    requires k < order
    ensures Recovered(Response(k, e, d, order), e, d, order) == k
  {
    var ed := e * d;
    var q := (k + ed) / order;
    assert k + ed == order * q + (k + ed) % order;
    assert (k + ed) % order - ed == order * (-q) + k;
    ModIs((k + ed) % order - ed, order, k, -q);
  }

  function Sign(sha: Hash, c: Curve, secret: nat, message: Digest, aux: Digest): Result<Signature, CryptoError>
    requires c.order > 1
  {
    if !c.IsSecret(secret) then Err(InvalidSecret)
    else
      var public := PublicKey(c, secret);
      var d := EvenScalar(c, secret);
      var k0 := NonceScalar(sha, c, d, public, message, aux);
      if k0 == 0 then Err(InvalidSignature)
      else
        var k, r := EvenScalar(c, k0), c.x(k0);
        Ok(Signature(r, Response(k, Challenge(sha, c, r, public, message), d, c.order)))
  }

  /** Verification as BIP-340 states it: e is the tagged hash of r, the key and the message, and R = sG - eP is not the
      identity, has even y, and x(R) = r. */
  predicate Verify(sha: Hash, c: Curve, public: Digest, message: Digest, sig: Signature)
    requires c.order > 1
  {
    && c.lift(public).Some?
    && sig.s < c.order
    && var tag := sha(Ascii("BIP0340/challenge"));
       var e := Unsigned(sha(tag + tag + (sig.r + public + message))) % c.order;
       var point := (sig.s - e * c.lift(public).value) % c.order;
       point != 0 && !c.odd(point) && c.x(point) == sig.r
  }

  /** Whatever the parities of the key and of the nonce point, every signature issued verifies
      under the x-only public key. */
  lemma SignaturesVerify(sha: Hash, c: Curve, secret: nat, message: Digest, aux: Digest)
    requires c.Lawful() && Sign(sha, c, secret, message, aux).Ok?
    ensures Verify(sha, c, PublicKey(c, secret), message, Sign(sha, c, secret, message, aux).value)
  {
    hide NonceScalar, Response, Unsigned, Ascii;
    var public, d := PublicKey(c, secret), EvenScalar(c, secret);
    var k0 := NonceScalar(sha, c, d, public, message, aux);
    var k, r := EvenScalar(c, k0), c.x(k0);
    RecoversNonce(k, Challenge(sha, c, r, public, message), d, c.order);
  }
}
