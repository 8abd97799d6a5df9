/** HMAC-SHA-256 and the HKDF expansion of one NIP-44 message's keys, over any 32-octet hash. */
module Hkdf {
  import opened Wrappers
  import opened Octets
  import opened ChaCha20

  // ---- RFC 2104 ----------------------------------------------------------

  const BLOCK := 64

  function ZeroFilled(key: seq<Octet>): (k: seq<Octet>)
    requires |key| <= BLOCK
    ensures |k| == BLOCK
  {
    key + seq(BLOCK - |key|, i => 0)
  }

  function XorAll(k: seq<Octet>, pad: Octet): seq<Octet> {
    seq(|k|, i requires 0 <= i < |k| => Mask(k[i], pad))
  }

  function Hmac(sha: Hash, key: seq<Octet>, text: seq<Octet>): Digest
    requires |key| <= BLOCK
  {
    sha(XorAll(ZeroFilled(key), 0x5c) + sha(XorAll(ZeroFilled(key), 0x36) + text))
  }

  lemma MaskedZero(pad: Octet, k: Octet)
    ensures Mask(0, pad) == pad && Mask(pad, k) == Mask(k, pad)
  {
  }

  /** The pads start out as the constants and take the key in place. */
  method Pad(key: seq<Octet>, constant: Octet) returns (pad: seq<Octet>)
    requires |key| <= BLOCK
    ensures pad == XorAll(ZeroFilled(key), constant)
  {
    hide Mask;
    var a := new Octet[BLOCK](_ => constant);
    MaskedZero(constant, 0);
    for i := 0 to |key|
      invariant forall j | 0 <= j < BLOCK :: a[j] == if j < i then Mask(key[j], constant) else constant
    {
      MaskedZero(constant, key[i]);
      a[i] := Mask(a[i], key[i]);
    }
    pad := a[..];
  }

  method HmacSha256(sha: Hash, key: seq<Octet>, parts: seq<seq<Octet>>) returns (mac: Digest)
    requires |key| <= BLOCK
    ensures mac == Hmac(sha, key, Concat(parts))
  {
    var inner := Pad(key, 0x36);
    var outer := Pad(key, 0x5c);
    var fed := inner;
    for i := 0 to |parts|
      invariant fed == inner + Concat(parts[..i])
    {
      assert parts[..i + 1][..i] == parts[..i];
      fed := fed + parts[i];
    }
    assert parts[..|parts|] == parts;
    mac := sha(outer + sha(fed));
  }

  // ---- RFC 5869 ----------------------------------------------------------

  const KEYS := 76

  /** T(n) of section 2.3 of RFC 5869. */
  function T(sha: Hash, prk: Digest, info: seq<Octet>, n: nat): seq<Octet>
    requires n < 256
  {
    if n == 0 then [] else Hmac(sha, prk, T(sha, prk, info, n - 1) + info + [Octet8(n)])
  }

  /** T(1) | ... | T(n). */
  function Expanded(sha: Hash, prk: Digest, info: seq<Octet>, n: nat): (okm: seq<Octet>)
    requires n < 256
    ensures |okm| == 32 * n
  {
    if n == 0 then [] else Expanded(sha, prk, info, n - 1) + T(sha, prk, info, n)
  }

  /** HKDF-Expand of section 2.3 of RFC 5869, as many octets as asked for. */
  function Expand(sha: Hash, prk: Digest, info: seq<Octet>, length: nat): (okm: seq<Octet>)
    requires length <= 255 * 32
    ensures |okm| == length
  {
    Expanded(sha, prk, info, (length + 31) / 32)[..length]
  }

  method DeriveMessageKeys(sha: Hash, prk: Digest, nonce: seq<Octet>) returns (keys: seq<Octet>)
    ensures keys == Expand(sha, prk, nonce, KEYS)
  {
    hide Hmac, Octet8;
    var output := new Octet[KEYS](_ => 0);
    var previous: Option<Digest> := None;
    var offset, counter := 0, 1;
    while offset < output.Length
      invariant 0 < counter <= 4 && offset == if counter == 4 then KEYS else 32 * (counter - 1)
      invariant previous.None? <==> counter == 1
      invariant previous.Some? ==> previous.value == T(sha, prk, nonce, counter - 1)
      invariant output[..offset] == Expanded(sha, prk, nonce, counter - 1)[..offset]
      decreases output.Length - offset
    {
      var parts := if previous.None? then [nonce, [Octet8(counter)]] else [previous.value, nonce, [Octet8(counter)]];
      FlattenThree(T(sha, prk, nonce, counter - 1), nonce, [Octet8(counter)], counter == 1);
      var block := HmacSha256(sha, prk, parts);
      assert block == T(sha, prk, nonce, counter);
      var take := if output.Length - offset < 32 then output.Length - offset else 32;
      ghost var before := output[..offset];
      for i := 0 to take
        invariant output[..offset] == before
        invariant output[offset..offset + i] == block[..i]
      {
        output[offset + i] := block[i];
      }
      assert output[..offset + take] == before + block[..take];
      offset := offset + take;
      previous := Some(block);
      counter := counter + 1;
    }
    keys := output[..];
  }

  lemma FlattenThree(a: seq<Octet>, b: seq<Octet>, c: seq<Octet>, short: bool)
    requires short ==> a == []
    ensures Concat(if short then [b, c] else [a, b, c]) == a + b + c
  {
    assert [b, c][..1] == [b] && [b][..0] == [];
    assert Concat([b]) == Concat([]) + b && Concat([b, c]) == Concat([b]) + c;
    assert [a, b, c][..2] == [a, b] && [a, b][..1] == [a] && [a][..0] == [];
    assert Concat([a]) == Concat([]) + a && Concat([a, b]) == Concat([a]) + b
      && Concat([a, b, c]) == Concat([a, b]) + c;
  }
}
