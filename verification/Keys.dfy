/** The group behind the keys, with every point written as its discrete logarithm. */
module Keys {
  import opened Wrappers
  import opened Octets
  import opened Hkdf

  /** A point is `k` times the generator; `lift` finds the even point over an x coordinate. */
  datatype Curve = Curve(
    order: nat,
    x: nat -> Digest,
    odd: nat -> bool,
    lift: Digest -> Option<nat>,
    bytes: nat -> Digest)
  {
    /** Opposite points share x and differ in the parity of y. */
    ghost predicate Lawful() {
      && order > 1
      && (forall k | 0 < k < order :: x(order - k) == x(k) && odd(order - k) != odd(k))
      && (forall k | 0 < k < order :: lift(x(k)) == Some(if odd(k) then order - k else k))
    }

    predicate IsSecret(k: nat) {
      0 < k < order
    }
  }

  /** `CounterOverflow` stands for the one place where the program stops instead of refusing. */
  datatype CryptoError =
    | InvalidSecret
    | InvalidPeer
    | InvalidSignature
    | EmptyPlaintext
    | PlaintextTooLong
    | InvalidPayload
    | InvalidMac
    | InvalidPadding
    | InvalidUtf8
    | CounterOverflow

  function PublicKey(c: Curve, secret: nat): Digest {
    c.x(secret)
  }

  // ---- the shared secret -------------------------------------------------

  const SALT: seq<Octet> := Ascii("nip44-v2")

  function ConversationKey(sha: Hash, c: Curve, secret: nat, peer: Digest): Result<Digest, CryptoError> {
    if !c.IsSecret(secret) then Err(InvalidSecret)
    else if c.lift(peer).None? then Err(InvalidPeer)
    else Ok(Hmac(sha, SALT, c.x((secret * c.lift(peer).value) % c.order)))
  }

  lemma ModIs(a: int, n: nat, r: int, q: int)
    requires n > 0 && a == n * q + r && 0 <= r < n
    ensures a % n == r
  {
    assert a == n * (a / n) + a % n;
    var d := q - a / n;
    assert n * d == a % n - r;
    if d > 0 { AtLeastOnce(n, d); }
    if d < 0 { AtLeastOnce(n, -d); }
  }

  lemma AtLeastOnce(n: nat, d: int)
    requires d >= 1
    ensures n * d >= n
  {
  }

  lemma NegatedProduct(a: nat, b: nat, n: nat)
    requires n > 1 && b < n
    ensures (a * (n - b)) % n == if (a * b) % n == 0 then 0 else n - (a * b) % n
  {
    var r, q := (a * b) % n, (a * b) / n;
    assert a * (n - b) == n * a - a * b;
    assert a * b == n * q + r;
    if r == 0 {
      assert n * a - n * q == n * (a - q);
      ModIs(a * (n - b), n, 0, a - q);
    } else {
      assert n * a - n * q - n == n * (a - q - 1);
      ModIs(a * (n - b), n, n - r, a - q - 1);
    }
  }

  /** The shared point's x does not depend on which representative of the peer was lifted. */
  lemma SharedX(c: Curve, a: nat, b: nat)
    requires c.Lawful() && c.IsSecret(a) && c.IsSecret(b)
    ensures c.lift(c.x(b)).Some? && c.x((a * c.lift(c.x(b)).value) % c.order) == c.x((a * b) % c.order)
  {
    NegatedProduct(a, b, c.order);
  }

  /** Both ends of a conversation derive the same key, whatever the parity of their own points: the HMAC of the shared
      point's x under the NIP-44 salt. */
  lemma ConversationKeysAgree(sha: Hash, c: Curve, a: nat, b: nat)
    requires c.Lawful() && c.IsSecret(a) && c.IsSecret(b)
    ensures ConversationKey(sha, c, a, PublicKey(c, b)) == Ok(Hmac(sha, Ascii("nip44-v2"), c.x((a * b) % c.order)))
    ensures ConversationKey(sha, c, a, PublicKey(c, b)) == ConversationKey(sha, c, b, PublicKey(c, a))
  {
    hide Ascii, Hmac;
    SharedX(c, a, b);
    SharedX(c, b, a);
    assert a * b == b * a;
  }
}
