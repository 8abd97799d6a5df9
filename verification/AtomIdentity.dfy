/** The identity of a live demand atom: a digest over its filter, routing, identity and evidence,
    and why two atoms that share one are the same atom or exhibit a collision of the hash itself. */
module AtomIdentity {
  import opened Wrappers
  import opened Octets

  /** A relay URL as its octets. */
  type Url = seq<Octet>

  datatype Routing = Auto | Explicit(relays: seq<Url>)

  datatype Origin = Hint | SourceProvenance

  datatype Evidence = Evidence(relay: Url, origin: Origin)

  /** `filter` is the filter's canonical encoding; `evidence` lists an ordered set in its own order. */
  datatype Atom = Atom(filter: seq<Octet>, routing: Routing, identity: Option<Digest>, evidence: seq<Evidence>)
  {
    /** Every URL is short enough for a four-octet length. */
    ghost predicate Framable() {
      && (routing.Explicit? ==> forall u | u in routing.relays :: |u| < Pow256(4))
      && (forall e | e in evidence :: |e.relay| < Pow256(4))
    }
  }

  // ---- framing -----------------------------------------------------------

  function UrlRow(u: Url): seq<Octet> {
    BigEndian(|u|, 4) + u
  }

  function UrlList(us: seq<Url>): seq<seq<Octet>> {
    seq(|us|, i requires 0 <= i < |us| => UrlRow(us[i]))
  }

  function UrlRows(us: seq<Url>): seq<Octet> {
    Concat(UrlList(us))
  }

  function OriginTag(o: Origin): Octet {
    match o
    case Hint => 0
    case SourceProvenance => 1
  }

  function EvidenceRow(e: Evidence): seq<Octet> {
    [OriginTag(e.origin)] + UrlRow(e.relay)
  }

  function EvidenceList(es: seq<Evidence>): seq<seq<Octet>> {
    seq(|es|, i requires 0 <= i < |es| => EvidenceRow(es[i]))
  }

  function EvidenceRows(es: seq<Evidence>): seq<Octet> {
    Concat(EvidenceList(es))
  }

  lemma UrlRowsSplit(us: seq<Url>)
    requires us != []
    ensures UrlRows(us) == UrlRow(us[0]) + UrlRows(us[1..])
  {
    hide UrlRow;
    ConcatFromFront(UrlList(us));
    assert UrlList(us)[1..] == UrlList(us[1..]);
  }

  lemma EvidenceRowsSplit(es: seq<Evidence>)
    requires es != []
    ensures EvidenceRows(es) == EvidenceRow(es[0]) + EvidenceRows(es[1..])
  {
    hide EvidenceRow;
    ConcatFromFront(EvidenceList(es));
    assert EvidenceList(es)[1..] == EvidenceList(es[1..]);
  }

  /** A length-prefixed URL shows where it ends. */
  lemma UrlRowIsPrefixFree(u: Url, v: Url, x: seq<Octet>, y: seq<Octet>)
    requires |u| < Pow256(4) && |v| < Pow256(4) && UrlRow(u) + x == UrlRow(v) + y
    ensures u == v && x == y
  {
    hide BigEndian, Unsigned;
    var s := UrlRow(u) + x;
    assert s[..4] == BigEndian(|u|, 4);
    assert (UrlRow(v) + y)[..4] == BigEndian(|v|, 4);
    UnsignedOfBigEndian(|u|, 4);
    UnsignedOfBigEndian(|v|, 4);
    assert s[4..4 + |u|] == u && s[4 + |u|..] == x;
    assert (UrlRow(v) + y)[4..4 + |v|] == v && (UrlRow(v) + y)[4 + |v|..] == y;
  }

  lemma {:induction false} UrlRowsAreInjective(us: seq<Url>, vs: seq<Url>)
    requires (forall u | u in us :: |u| < Pow256(4)) && (forall v | v in vs :: |v| < Pow256(4))
    requires UrlRows(us) == UrlRows(vs)
    ensures us == vs
  {
    hide UrlRow;
    if us != [] { UrlRowsSplit(us); RowIsNotEmpty(us[0]); }
    if vs != [] { UrlRowsSplit(vs); RowIsNotEmpty(vs[0]); }
    if us != [] && vs != [] {
      UrlRowIsPrefixFree(us[0], vs[0], UrlRows(us[1..]), UrlRows(vs[1..]));
      UrlRowsAreInjective(us[1..], vs[1..]);
    }
  }

  lemma RowIsNotEmpty(u: Url)
    ensures UrlRow(u) != []
  {
  }

  lemma EvidenceRowIsPrefixFree(d: Evidence, e: Evidence, x: seq<Octet>, y: seq<Octet>)
    requires |d.relay| < Pow256(4) && |e.relay| < Pow256(4) && EvidenceRow(d) + x == EvidenceRow(e) + y
    ensures d == e && x == y
  {
    hide UrlRow;
    var s, t := EvidenceRow(d) + x, EvidenceRow(e) + y;
    assert s[0] == OriginTag(d.origin) && t[0] == OriginTag(e.origin);
    assert s[1..] == UrlRow(d.relay) + x && t[1..] == UrlRow(e.relay) + y;
    UrlRowIsPrefixFree(d.relay, e.relay, x, y);
  }

  lemma {:induction false} EvidenceRowsAreInjective(ds: seq<Evidence>, es: seq<Evidence>)
    requires (forall d | d in ds :: |d.relay| < Pow256(4)) && (forall e | e in es :: |e.relay| < Pow256(4))
    requires EvidenceRows(ds) == EvidenceRows(es)
    ensures ds == es
  {
    hide UrlRow;
    if ds != [] { EvidenceRowsSplit(ds); }
    if es != [] { EvidenceRowsSplit(es); }
    if ds != [] && es != [] {
      EvidenceRowIsPrefixFree(ds[0], es[0], EvidenceRows(ds[1..]), EvidenceRows(es[1..]));
      EvidenceRowsAreInjective(ds[1..], es[1..]);
    }
  }

  // ---- how long a framed string may be -----------------------------------

  ghost predicate AllUpTo(us: seq<Url>, limit: nat) {
    forall u | u in us :: |u| <= limit
  }

  /** Lists of strings up to this length are told apart by their framing. */
  ghost predicate Faithful(limit: nat) {
    forall us, vs | AllUpTo(us, limit) && AllUpTo(vs, limit) && UrlRows(us) == UrlRows(vs) :: us == vs
  }

  function Zeros(n: nat): seq<Octet> {
    seq(n, _ => 0)
  }

  lemma OctetOfZero()
    ensures Octet8(0) == 0
  {
    hide Octet8;
    assert Number(0) == 0;
    OctetOfNumber(0);
  }

  lemma {:induction false} ZeroIsZeros(k: nat)
    ensures BigEndian(0, k) == Zeros(k)
  {
    OctetOfZero();
    hide Octet8;
    if k > 0 { ZeroIsZeros(k - 1); }
  }

  lemma Quotient(n: nat)
    ensures 256 * n / 256 == n && 256 * n % 256 == 0
  {
  }

  /** The first number too long for the prefix leaves the prefix of nothing. */
  lemma {:induction false} PrefixWraps(k: nat)
    ensures BigEndian(Pow256(k), k) == Zeros(k)
  {
    OctetOfZero();
    hide Octet8;
    if k > 0 {
      PrefixWraps(k - 1);
      Quotient(Pow256(k - 1));
    }
  }

  lemma {:induction false} EmptyRows(n: nat)
    ensures UrlRows(seq(n, _ => [])) == Zeros(4 * n)
  {
    hide BigEndian;
    var us: seq<Url> := seq(n, _ => []);
    if n > 0 {
      UrlRowsSplit(us);
      assert us[1..] == seq(n - 1, _ => []);
      EmptyRows(n - 1);
      ZeroIsZeros(4);
      assert Zeros(4) + Zeros(4 * (n - 1)) == Zeros(4 * n);
    }
  }

  lemma OneLongRow(u: Url)
    ensures UrlRows([u]) == UrlRow(u)
  {
    hide UrlRow;
    UrlRowsSplit([u]);
    assert [u][1..] == [];
  }

  /** The framing tells lists of strings apart exactly while their lengths fit the four octets: at that length one
      string of zeros reads as a run of empty ones. */
  lemma FramingIsFaithfulExactly(limit: nat)
    ensures Faithful(limit) <==> limit < Pow256(4)
  {
    hide UrlRows, BigEndian;
    var p := Pow256(4);
    if limit < p {
      forall us, vs | AllUpTo(us, limit) && AllUpTo(vs, limit) && UrlRows(us) == UrlRows(vs) ensures us == vs {
        UrlRowsAreInjective(us, vs);
      }
    } else {
      var n := p / 4 + 1;
      assert p % 4 == 0 by { assert p == 256 * Pow256(3); }
      var us, vs: seq<Url> := [Zeros(p)], seq(n, _ => []);
      OneLongRow(Zeros(p));
      PrefixWraps(4);
      EmptyRows(n);
      assert UrlRows(us) == Zeros(4) + Zeros(p) == Zeros(4 * n) == UrlRows(vs);
      assert AllUpTo(us, limit) && AllUpTo(vs, limit) && |us| != |vs|;
    }
  }

  // ---- the digest --------------------------------------------------------

  function RoutingPreimage(base: Digest, routing: Routing): seq<Octet> {
    match routing
    case Auto => base + [0]
    case Explicit(relays) => base + [1] + UrlRows(relays)
  }

  function IdentityPreimage(tagged: Digest, identity: Option<Digest>): seq<Octet> {
    match identity
    case None => tagged + [0]
    case Some(key) => tagged + [1] + key
  }

  function EvidencePreimage(contextual: Digest, evidence: seq<Evidence>): seq<Octet> {
    contextual + [3] + EvidenceRows(evidence)
  }

  function Tagged(h: Hash, a: Atom): Digest {
    h(RoutingPreimage(h(a.filter), a.routing))
  }

  function Contextual(h: Hash, a: Atom): Digest {
    h(IdentityPreimage(Tagged(h, a), a.identity))
  }

  /** What is hashed last. */
  function LastPreimage(h: Hash, a: Atom): seq<Octet> {
    if a.evidence == [] then IdentityPreimage(Tagged(h, a), a.identity)
    else EvidencePreimage(Contextual(h, a), a.evidence)
  }

  function AtomHash(h: Hash, a: Atom): Digest {
    h(LastPreimage(h, a))
  }

  /** Every octet string that is hashed on the way. */
  function Preimages(h: Hash, a: Atom): set<seq<Octet>> {
    {a.filter, RoutingPreimage(h(a.filter), a.routing), IdentityPreimage(Tagged(h, a), a.identity), LastPreimage(h, a)}
  }

  /** Two different strings hashed for these atoms have the same digest. */
  ghost predicate Collide(h: Hash, a: Atom, b: Atom) {
    exists x, y :: x in Preimages(h, a) && y in Preimages(h, b) && x != y && h(x) == h(y)
  }

  // ---- identity ----------------------------------------------------------

  lemma HashedAlike(h: Hash, a: Atom, b: Atom, x: seq<Octet>, y: seq<Octet>)
    requires x in Preimages(h, a) && y in Preimages(h, b) && h(x) == h(y)
    ensures x == y || Collide(h, a, b)
  {
  }

  /** The atoms agree in everything that is hashed: filter, identity, and the framed routing and evidence. */
  predicate SameFraming(a: Atom, b: Atom) {
    && a.filter == b.filter && a.identity == b.identity && SameRouting(a.routing, b.routing)
    && (a.evidence == [] <==> b.evidence == []) && EvidenceRows(a.evidence) == EvidenceRows(b.evidence)
  }

  predicate SameRouting(r: Routing, s: Routing) {
    (r.Auto? <==> s.Auto?) && (r.Explicit? && s.Explicit? ==> UrlRows(r.relays) == UrlRows(s.relays))
  }

  /** Where every URL fits its length field, atoms framed alike are the same atom. */
  lemma FramingIsInjective(a: Atom, b: Atom)
    requires a.Framable() && b.Framable() && SameFraming(a, b)
    ensures a == b
  {
    hide UrlRows, EvidenceRows;
    if a.routing.Explicit? { UrlRowsAreInjective(a.routing.relays, b.routing.relays); }
    EvidenceRowsAreInjective(a.evidence, b.evidence);
  }

  lemma RoutingPreimageShows(c: Digest, d: Digest, r: Routing, s: Routing)
    requires RoutingPreimage(c, r) == RoutingPreimage(d, s)
    ensures c == d && SameRouting(r, s)
  {
    hide UrlRows;
    var x, y := RoutingPreimage(c, r), RoutingPreimage(d, s);
    assert x[..32] == c && y[..32] == d;
    assert x[32] == if r.Auto? then 0 else 1;
    assert y[32] == if s.Auto? then 0 else 1;
    if r.Explicit? && s.Explicit? {
      assert x[33..] == UrlRows(r.relays) && y[33..] == UrlRows(s.relays);
    }
  }

  lemma IdentityPreimageIsInjective(c: Digest, d: Digest, i: Option<Digest>, j: Option<Digest>)
    requires IdentityPreimage(c, i) == IdentityPreimage(d, j)
    ensures c == d && i == j
  {
    var x, y := IdentityPreimage(c, i), IdentityPreimage(d, j);
    assert x[..32] == c && y[..32] == d;
    assert x[32] == if i.None? then 0 else 1;
    assert y[32] == if j.None? then 0 else 1;
    if i.Some? && j.Some? {
      assert x[33..] == i.value && y[33..] == j.value;
    }
  }

  lemma EvidencePreimageShows(c: Digest, d: Digest, es: seq<Evidence>, fs: seq<Evidence>)
    requires EvidencePreimage(c, es) == EvidencePreimage(d, fs)
    ensures c == d && EvidenceRows(es) == EvidenceRows(fs)
  {
    hide EvidenceRows;
    var x, y := EvidencePreimage(c, es), EvidencePreimage(d, fs);
    assert x[..32] == c && y[..32] == d;
    assert x[33..] == EvidenceRows(es) && y[33..] == EvidenceRows(fs);
  }

  /** The tag octet keeps the evidence form apart from the two identity forms. */
  lemma FormsAreApart(c: Digest, d: Digest, i: Option<Digest>, es: seq<Evidence>)
    ensures IdentityPreimage(c, i) != EvidencePreimage(d, es)
  {
    hide EvidenceRows;
    assert IdentityPreimage(c, i)[32] == if i.None? then 0 else 1;
    assert EvidencePreimage(d, es)[32] == 3;
  }

  lemma SameContext(h: Hash, a: Atom, b: Atom)
    requires Contextual(h, a) == Contextual(h, b)
    ensures (a.filter == b.filter && SameRouting(a.routing, b.routing) && a.identity == b.identity) || Collide(h, a, b)
  {
    hide Collide, Preimages, IdentityPreimage, RoutingPreimage, SameRouting;
    PreimagesHold(h, a);
    PreimagesHold(h, b);
    if !Collide(h, a, b) {
      HashedAlike(h, a, b, IdentityPreimage(Tagged(h, a), a.identity), IdentityPreimage(Tagged(h, b), b.identity));
      IdentityPreimageIsInjective(Tagged(h, a), Tagged(h, b), a.identity, b.identity);
      HashedAlike(h, a, b, RoutingPreimage(h(a.filter), a.routing), RoutingPreimage(h(b.filter), b.routing));
      RoutingPreimageShows(h(a.filter), h(b.filter), a.routing, b.routing);
      HashedAlike(h, a, b, a.filter, b.filter);
    }
  }

  lemma PreimagesHold(h: Hash, a: Atom)
    ensures a.filter in Preimages(h, a) && RoutingPreimage(h(a.filter), a.routing) in Preimages(h, a)
    ensures IdentityPreimage(Tagged(h, a), a.identity) in Preimages(h, a) && LastPreimage(h, a) in Preimages(h, a)
  {
  }

  /** Atoms framed alike have one hash, whatever the hash function. */
  lemma SameFramingSameHash(h: Hash, a: Atom, b: Atom)
    requires SameFraming(a, b)
    ensures AtomHash(h, a) == AtomHash(h, b)
  {
    hide UrlRows, EvidenceRows;
    assert RoutingPreimage(h(a.filter), a.routing) == RoutingPreimage(h(b.filter), b.routing);
  }

  /** Atoms with one hash are framed alike, or two different strings hashed while computing it have the same
      digest; and framed alike they are equal, as long as every URL fits its length field. */
  lemma EqualHashesMeanEqualAtoms(h: Hash, a: Atom, b: Atom)
    requires AtomHash(h, a) == AtomHash(h, b)
    ensures SameFraming(a, b) || Collide(h, a, b)
    ensures a.Framable() && b.Framable() ==> a == b || Collide(h, a, b)
  {
    SameFramingOrCollision(h, a, b);
    hide Collide, SameFraming;
    if a.Framable() && b.Framable() && SameFraming(a, b) { FramingIsInjective(a, b); }
  }

  lemma SameFramingOrCollision(h: Hash, a: Atom, b: Atom)
    requires AtomHash(h, a) == AtomHash(h, b)
    ensures SameFraming(a, b) || Collide(h, a, b)
  {
    hide Collide, Preimages, IdentityPreimage, EvidencePreimage, Tagged, SameRouting, EvidenceRows;
    PreimagesHold(h, a);
    PreimagesHold(h, b);
    HashedAlike(h, a, b, LastPreimage(h, a), LastPreimage(h, b));
    if !Collide(h, a, b) {
      FormsAreApart(Tagged(h, a), Contextual(h, b), a.identity, b.evidence);
      FormsAreApart(Tagged(h, b), Contextual(h, a), b.identity, a.evidence);
      if a.evidence != [] && b.evidence != [] {
        EvidencePreimageShows(Contextual(h, a), Contextual(h, b), a.evidence, b.evidence);
      }
      SameContext(h, a, b);
    }
  }

  // ---- as computed -------------------------------------------------------

  method FoldContext(h: Hash, base: Digest, routing: Routing, identity: Option<Digest>) returns (d: Digest)
    ensures d == h(IdentityPreimage(h(RoutingPreimage(base, routing)), identity))
  {
    hide UrlRow;
    var tagged: Digest;
    match routing {
      case Auto => tagged := h(base + [0]);
      case Explicit(relays) =>
        var bytes := base + [1];
        ghost var rows := UrlList(relays);
        for i := 0 to |relays|
          invariant bytes == base + [1] + Concat(rows[..i])
        {
          assert rows[..i + 1][..i] == rows[..i];
          bytes := bytes + UrlRow(relays[i]);
        }
        assert rows[..|rows|] == rows;
        tagged := h(bytes);
    }
    match identity {
      case None => d := h(tagged + [0]);
      case Some(key) => d := h(tagged + [1] + key);
    }
  }

  method HashAtom(h: Hash, a: Atom) returns (d: Digest)
    ensures d == AtomHash(h, a)
  {
    hide EvidenceRow, IdentityPreimage, RoutingPreimage;
    d := FoldContext(h, h(a.filter), a.routing, a.identity);
    if a.evidence == [] {
      return;
    }
    var bytes := d + [3];
    ghost var rows := EvidenceList(a.evidence);
    for i := 0 to |a.evidence|
      invariant bytes == Contextual(h, a) + [3] + Concat(rows[..i])
    {
      assert rows[..i + 1][..i] == rows[..i];
      bytes := bytes + EvidenceRow(a.evidence[i]);
    }
    assert rows[..|rows|] == rows;
    d := h(bytes);
  }
}
