/** Concrete wire spellings: hex for 32-byte ids and keys, decimal for 16-bit kinds,
    and the `<kind>:<pubkey>:<d>` coordinate, each with its reader. */
module Text {
  import opened Wrappers

  newtype byte = x: int | 0 <= x < 256

  /** An event id or a public key. */
  type Id32 = s: seq<byte> | |s| == 32 witness seq(32, _ => 0)

  // ---- hex ---------------------------------------------------------------

  const HEX: string := "0123456789abcdef"

  function HexDigit(d: nat): char
    requires d < 16
  {
    HEX[d]
  }

  /** Readers accept either case. */
  function HexValue(c: char): Option<nat> {
    if '0' <= c <= '9' then Some((c - '0') as nat)
    else if 'a' <= c <= 'f' then Some((c - 'a') as nat + 10)
    else if 'A' <= c <= 'F' then Some((c - 'A') as nat + 10)
    else None
  }

  function ToHex(bytes: seq<byte>): string {
    if bytes == [] then ""
    else [HexDigit(bytes[0] as nat / 16), HexDigit(bytes[0] as nat % 16)] + ToHex(bytes[1..])
  }

  function FromHex(s: string): (r: Option<seq<byte>>)
    ensures r.Some? ==> |s| == 2 * |r.value|
  {
    if s == "" then Some([])
    else if |s| == 1 then None
    else
      var hi, lo, rest := HexValue(s[0]), HexValue(s[1]), FromHex(s[2..]);
      if hi.None? || lo.None? || rest.None? || hi.value >= 16 || lo.value >= 16 then None
      else Some([(hi.value * 16 + lo.value) as byte] + rest.value)
  }

  function IdFromHex(s: string): Option<Id32> {
    var r := FromHex(s);
    if r.Some? && |r.value| == 32 then Some(r.value) else None
  }

  lemma HexDigitReads(d: nat)
    requires d < 16
    ensures HexValue(HexDigit(d)) == Some(d) && HexDigit(d) != ':'
  {
  }

  lemma {:induction false} HexRoundTrip(bytes: seq<byte>)
    ensures FromHex(ToHex(bytes)) == Some(bytes) && |ToHex(bytes)| == 2 * |bytes| && ':' !in ToHex(bytes)
  {
    if bytes != [] {
      HexRoundTrip(bytes[1..]);
      var b := bytes[0] as nat;
      HexDigitReads(b / 16);
      HexDigitReads(b % 16);
      var s := ToHex(bytes);
      assert s[2..] == ToHex(bytes[1..]);
      assert bytes == [bytes[0]] + bytes[1..];
    }
  }

  /** What every reader of an id relies on: printed ids are nonempty and read back. */
  lemma IdRoundTrip(id: Id32)
    ensures IdFromHex(ToHex(id)) == Some(id) && ToHex(id) != "" && ':' !in ToHex(id)
  {
    HexRoundTrip(id);
  }

  lemma MarkersAreNotIds()
    ensures IdFromHex("root").None? && IdFromHex("reply").None? && IdFromHex("").None?
  {
  }

  // ---- decimal -----------------------------------------------------------

  function Digits(n: nat): string {
    if n < 10 then [HexDigit(n)] else Digits(n / 10) + [HexDigit(n % 10)]
  }

  /** The number a string of decimal digits denotes. */
  function Value(s: string): Option<nat> {
    if s == "" then Some(0)
    else
      var c, head := s[|s| - 1], Value(s[..|s| - 1]);
      if head.Some? && '0' <= c <= '9' then Some(head.value * 10 + (c - '0') as nat) else None
  }

  /** A 16-bit number: an optional plus sign, then at least one digit. */
  function ParseU16(s: string): Option<nat> {
    var body := if |s| > 1 && s[0] == '+' then s[1..] else s;
    if body == "" then None
    else
      var v := Value(body);
      if v.Some? && v.value < 65536 then v else None
  }

  lemma DecimalDigit(d: nat)
    requires d < 10
    ensures '0' <= HexDigit(d) <= '9' && (HexDigit(d) - '0') as nat == d
    ensures HexDigit(d) != '+' && HexDigit(d) != ':'
  {
  }

  lemma OneMoreDigit(head: string, n: nat, d: nat)
    requires d < 10 && Value(head) == Some(n)
    ensures Value(head + [HexDigit(d)]) == Some(10 * n + d)
  {
    hide HexDigit;
    DecimalDigit(d);
    var s := head + [HexDigit(d)];
    assert s[..|s| - 1] == head;
  }

  lemma {:induction false} DigitsRead(n: nat)
    ensures Value(Digits(n)) == Some(n) && Digits(n) != "" && Digits(n)[0] != '+' && ':' !in Digits(n)
  {
    hide HexDigit, Value;
    DecimalDigit(n % 10);
    if n < 10 {
      assert Value("") == Some(0) by { NoDigits(); }
      OneMoreDigit("", 0, n);
      assert "" + [HexDigit(n)] == [HexDigit(n)];
    } else {
      DigitsRead(n / 10);
      OneMoreDigit(Digits(n / 10), n / 10, n % 10);
    }
  }

  lemma NoDigits()
    ensures Value("") == Some(0)
  {
  }

  lemma U16RoundTrip(n: nat)
    requires n < 65536
    ensures ParseU16(Digits(n)) == Some(n) && Digits(n) != "" && ':' !in Digits(n)
  {
    DigitsRead(n);
  }

  // ---- coordinates -------------------------------------------------------

  datatype Coordinate = Coordinate(kind: nat, author: Id32, identifier: string)

  /** The text before the first colon and the text after it. */
  function SplitOnce(s: string): Option<(string, string)> {
    if s == "" then None
    else if s[0] == ':' then Some(("", s[1..]))
    else
      var rest := SplitOnce(s[1..]);
      if rest.None? then None else Some(([s[0]] + rest.value.0, rest.value.1))
  }

  lemma {:induction false} SplitsAtFirstColon(head: string, tail: string)
    requires ':' !in head
    ensures SplitOnce(head + ":" + tail) == Some((head, tail))
  {
    var s := head + ":" + tail;
    if head == "" {
      assert s[1..] == tail;
    } else {
      SplitsAtFirstColon(head[1..], tail);
      assert s[1..] == head[1..] + ":" + tail;
      assert s[0] == head[0] && [head[0]] + head[1..] == head;
    }
  }

  function PrintCoordinate(c: Coordinate): string {
    Digits(c.kind) + ":" + (ToHex(c.author) + ":" + c.identifier)
  }

  /** Three parts at most: an identifier keeps its own colons. */
  function ParseCoordinate(s: string): Option<Coordinate> {
    var first := SplitOnce(s);
    if first.None? then None
    else
      var second := SplitOnce(first.value.1);
      var kind := ParseU16(first.value.0);
      if second.None? || kind.None? then None
      else
        var author := IdFromHex(second.value.0);
        if author.None? then None else Some(Coordinate(kind.value, author.value, second.value.1))
  }

  lemma CoordinateRoundTrip(c: Coordinate)
    requires c.kind < 65536
    ensures ParseCoordinate(PrintCoordinate(c)) == Some(c) && PrintCoordinate(c) != ""
  {
    U16RoundTrip(c.kind);
    IdRoundTrip(c.author);
    SplitsAtFirstColon(Digits(c.kind), ToHex(c.author) + ":" + c.identifier);
    SplitsAtFirstColon(ToHex(c.author), c.identifier);
  }
}
