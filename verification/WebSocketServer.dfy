/** The relay's side of a WebSocket: reading the texts a client sends, one frame at a time. */
module WebSocketServer {
  import opened Wrappers
  import opened Octets
  import opened WebSocket

  const TEXT: Octet := 0x1
  const CLOSE: Octet := 0x8
  const PING: Octet := 0x9
  const PONG: Octet := 0xa

  function Flip(a: Octet, b: Octet): Octet { a ^ b }

  type MaskKey = m: seq<Octet> | |m| == 4 witness [0, 0, 0, 0]

  function Masked(mask: MaskKey, payload: seq<Octet>): (r: seq<Octet>)
    ensures |r| == |payload|
  {
    seq(|payload|, i requires 0 <= i < |payload| => Flip(payload[i], mask[i % 4]))
  }

  lemma FlipTwice(a: Octet, b: Octet)
    ensures Flip(Flip(a, b), b) == a
  {
  }

  lemma MaskedPrefix(mask: MaskKey, payload: seq<Octet>, n: nat)
    requires n <= |payload|
    ensures Masked(mask, Masked(mask, payload)[..n]) == payload[..n]
  {
    hide Flip;
    forall i | 0 <= i < n ensures Masked(mask, Masked(mask, payload)[..n])[i] == payload[i] {
      FlipTwice(payload[i], mask[i % 4]);
    }
  }

  // ---- one frame ---------------------------------------------------------

  datatype Parsed = Parsed(opcode: Octet, payload: seq<Octet>, rest: seq<Octet>)

  function BodyAt(buf: seq<Octet>, h: Head): nat
    requires |buf| >= 2
  {
    h.offset + if buf[1] & 0x80 != 0 then 4 else 0
  }

  function ReadFrame(buf: seq<Octet>): (p: Option<Parsed>)
    ensures p.Some? ==> |p.value.rest| < |buf|
  {
    var h := HeadOf(buf);
    if h.None? || |buf| < BodyAt(buf, h.value) + h.value.length then None
    else
      var at := BodyAt(buf, h.value);
      var end := at + h.value.length;
      var payload := if at == h.value.offset then buf[at..end] else Masked(buf[h.value.offset..at], buf[at..end]);
      Some(Parsed(buf[0] & 0x0f, payload, buf[end..]))
  }

  // ---- what a client sends -----------------------------------------------

  const CLIENT_MASK: MaskKey := [0x37, 0xfa, 0x21, 0x3d]

  function SentLength(n: nat): seq<Octet> {
    if n < 126 then [0x80 | Octet8(n)] else [0x80 | 126] + BigEndian(n, 2)
  }

  function Sent(payload: seq<Octet>): seq<Octet> {
    [0x81] + SentLength(|payload|) + CLIENT_MASK + Masked(CLIENT_MASK, payload)
  }

  /** The length that survives the sixteen-bit length field. */
  function Declared(payload: seq<Octet>): (n: nat)
    ensures n <= |payload|
  {
    if |payload| < 126 then |payload| else |payload| % 65536
  }

  lemma HeadOfSent(payload: seq<Octet>, more: seq<Octet>)
    ensures
      var buf := Sent(payload) + more;
      && HeadOf(buf) == Some(Head(Declared(payload), 1 + |SentLength(|payload|)|))
      && buf[1] & 0x80 != 0 && buf[0] & 0x0f == TEXT
  {
    hide Unsigned, Low7, BigEndian, Octet8, Masked;
    var buf, n := Sent(payload) + more, |payload|;
    assert buf[0] == 0x81;
    assert 0x81 as Octet & 0x0f == 1;
    if n < 126 {
      SevenBits(n);
      assert buf[1] == 0x80 | Octet8(n);
    } else {
      EscapeCodes();
      assert buf[1] == 0x80 | 126;
      assert buf[2..4] == BigEndian(n, 2);
      TwoOctetsTruncate(n);
    }
  }

  lemma SentParts(payload: seq<Octet>, more: seq<Octet>, n: nat)
    requires n <= |payload|
    ensures
      var buf, offset, body := Sent(payload) + more, 1 + |SentLength(|payload|)|, Masked(CLIENT_MASK, payload);
      && |buf| == offset + 4 + |payload| + |more|
      && buf[offset..offset + 4] == CLIENT_MASK
      && buf[offset + 4..offset + 4 + n] == body[..n]
      && buf[offset + 4 + n..] == body[n..] + more
  {
    hide Masked, SentLength;
    var buf, offset, body := Sent(payload) + more, 1 + |SentLength(|payload|)|, Masked(CLIENT_MASK, payload);
    assert buf[offset + 4..] == body + more;
    assert buf[offset + 4..offset + 4 + n] == (body + more)[..n];
  }

  /** The relay recovers what the client sent, up to the length the client's length field can carry:
      the whole payload exactly when it is shorter than 65536 octets. */
  lemma SentReadsBack(payload: seq<Octet>, more: seq<Octet>)
    ensures
      var n := Declared(payload);
      ReadFrame(Sent(payload) + more) == Some(Parsed(TEXT, payload[..n], Masked(CLIENT_MASK, payload)[n..] + more))
    ensures ReadFrame(Sent(payload) + more) == Some(Parsed(TEXT, payload, more)) <==> |payload| < 65536
  {
    hide HeadOf, Masked, Sent, SentLength;
    var n := Declared(payload);
    HeadOfSent(payload, more);
    SentParts(payload, more, n);
    MaskedPrefix(CLIENT_MASK, payload, n);
    if |payload| < 65536 {
      assert payload[..n] == payload && Masked(CLIENT_MASK, payload)[n..] + more == more;
    }
  }

  // ---- the next text -----------------------------------------------------

  /** The text read, if any, what is left of the stream, and what was answered meanwhile. */
  datatype Turn = Turn(text: Option<seq<Octet>>, rest: seq<Octet>, answers: seq<Octet>)

  /** Pings are answered and everything but text and close is passed over. */
  function NextText(buf: seq<Octet>): (t: Turn)
    ensures t.text.Some? ==> |t.rest| < |buf|
    decreases |buf|
  {
    var p := ReadFrame(buf);
    if p.None? then Turn(None, [], [])
    else if p.value.opcode == TEXT then Turn(Some(p.value.payload), p.value.rest, [])
    else if p.value.opcode == CLOSE then Turn(None, p.value.rest, [])
    else
      var later := NextText(p.value.rest);
      if p.value.opcode == PING then later.(answers := Frame(PONG, p.value.payload) + later.answers) else later
  }

  function Texts(buf: seq<Octet>): seq<seq<Octet>>
    decreases |buf|
  {
    var t := NextText(buf);
    if t.text.None? then [] else [t.text.value] + Texts(t.rest)
  }

  function SentAll(payloads: seq<seq<Octet>>): seq<Octet> {
    if payloads == [] then [] else Sent(payloads[0]) + SentAll(payloads[1..])
  }

  /** A whole session: the texts read are those sent, in order and nothing else, exactly when every one of them is
      shorter than 65536 octets. */
  lemma {:induction false} SessionReadsBack(payloads: seq<seq<Octet>>)
    ensures Texts(SentAll(payloads)) == payloads <==> forall p | p in payloads :: |p| < 65536
  {
    hide Sent, ReadFrame, Masked;
    if payloads == [] {
      assert ReadFrame([]).None? by { NothingIsRead(); }
    } else {
      var first, others := payloads[0], payloads[1..];
      SentReadsBack(first, SentAll(others));
      SessionReadsBack(others);
      var buf := SentAll(payloads);
      assert payloads == [first] + others;
      if |first| < 65536 {
        assert NextText(buf) == Turn(Some(first), SentAll(others), []);
        assert Texts(buf) == [first] + Texts(SentAll(others));
        assert Texts(buf)[1..] == Texts(SentAll(others));
      } else {
        LongIsCut(first);
        assert Texts(buf)[0] == first[..Declared(first)];
      }
    }
  }

  lemma LongIsCut(payload: seq<Octet>)
    requires |payload| >= 65536
    ensures Declared(payload) < |payload|
  {
  }

  lemma NothingIsRead()
    ensures ReadFrame([]).None?
  {
  }

  // ---- pings, closes and the rest ----------------------------------------

  datatype ClientFrame = ClientFrame(opcode: Octet, payload: seq<Octet>)

  ghost predicate Writable(f: ClientFrame) {
    f.opcode < 16 && |f.payload| < Pow256(8)
  }

  function Wire(frames: seq<ClientFrame>): seq<Octet> {
    if frames == [] then [] else Frame(frames[0].opcode, frames[0].payload) + Wire(frames[1..])
  }

  lemma LowNibble(opcode: Octet)
    requires opcode < 16
    ensures (0x80 | opcode) & 0x0f == opcode
  {
  }

  lemma FrameReadsBack(f: ClientFrame, more: seq<Octet>)
    requires Writable(f)
    ensures ReadFrame(Frame(f.opcode, f.payload) + more) == Some(Parsed(f.opcode, f.payload, more))
  {
    hide HeadOf, Length, Masked;
    var frame := Frame(f.opcode, f.payload);
    HeadOfFrame(f.opcode, f.payload);
    HeadExtends(frame, more);
    LowNibble(f.opcode);
    var at := |frame| - |f.payload|;
    assert frame[at..] == f.payload;
    assert (frame + more)[at..|frame|] == f.payload && (frame + more)[|frame|..] == more;
  }

  /** One pong for each ping, with its payload, in order. */
  function Pongs(frames: seq<ClientFrame>): seq<Octet> {
    if frames == [] then []
    else (if frames[0].opcode == 0x9 then Frame(0xa, frames[0].payload) else []) + Pongs(frames[1..])
  }

  predicate Decides(f: ClientFrame) {
    f.opcode == 0x1 || f.opcode == 0x8
  }

  /** The first text or close decides: a text is returned, a close ends the reading, everything before it is passed
      over, and each ping among that is answered. */
  lemma {:induction false} FirstTextOrClose(frames: seq<ClientFrame>, k: nat, more: seq<Octet>)
    requires k < |frames| && Decides(frames[k])
    requires forall i | 0 <= i <= k :: Writable(frames[i])
    requires forall i | 0 <= i < k :: !Decides(frames[i])
    ensures NextText(Wire(frames) + more)
         == Turn(if frames[k].opcode == 0x1 then Some(frames[k].payload) else None,
                 Wire(frames[k + 1..]) + more, Pongs(frames[..k]))
  {
    hide ReadFrame, Frame, Writable;
    var first, others := frames[0], frames[1..];
    assert Writable(frames[0]);
    FrameReadsBack(first, Wire(others) + more);
    assert Wire(frames) + more == Frame(first.opcode, first.payload) + (Wire(others) + more);
    if k > 0 {
      FirstTextOrClose(others, k - 1, more);
      assert others[k..] == frames[k + 1..] && others[..k - 1] == frames[..k][1..];
    }
  }

  // ---- the socket --------------------------------------------------------

  class Socket {
    var incoming: seq<Octet>
    var outgoing: seq<Octet>

    /** One read of the operating system: some of what is there, nothing only at end of stream. */
    method Read(limit: nat) returns (got: seq<Octet>)
      requires limit > 0
      modifies `incoming
      ensures old(incoming) == got + incoming && |got| <= limit && (got == [] <==> old(incoming) == [])
    {
      if incoming == [] {
        return [];
      }
      var k: nat :| 1 <= k <= limit && k <= |incoming|;
      got := incoming[..k];
      incoming := incoming[k..];
    }

    method ReadExactOrEof(n: nat) returns (r: Option<seq<Octet>>)
      modifies `incoming
      ensures |old(incoming)| >= n ==> r == Some(old(incoming)[..n]) && incoming == old(incoming)[n..]
      ensures |old(incoming)| < n ==> r == None && incoming == []
    {
      var filled: seq<Octet> := [];
      while |filled| < n
        invariant old(incoming) == filled + incoming && |filled| <= n
        decreases n - |filled|
      {
        var got := Read(n - |filled|);
        if got == [] {
          return None;
        }
        filled := filled + got;
      }
      r := Some(filled);
    }

    method WriteFrame(opcode: Octet, payload: seq<Octet>)
      modifies `outgoing
      ensures outgoing == old(outgoing) + Frame(opcode, payload)
    {
      hide BigEndian, Octet8;
      var frame := [0x80 | opcode];
      var length := |payload|;
      if length < 126 {
        frame := frame + [Octet8(length)];
      } else if length < 65536 {
        frame := frame + [126];
        frame := frame + BigEndian(length, 2);
      } else {
        frame := frame + [127];
        frame := frame + BigEndian(length, 8);
      }
      frame := frame + payload;
      outgoing := outgoing + frame;
    }

    /** The frame's octets, piece by piece. */
    method ReadOne() returns (r: Option<(Octet, seq<Octet>)>)
      modifies `incoming
      ensures
        var p := ReadFrame(old(incoming));
        && r == (if p.Some? then Some((p.value.opcode, p.value.payload)) else None)
        && incoming == (if p.Some? then p.value.rest else [])
    {
      hide Unsigned, Low7, Masked;
      ghost var buf := incoming;
      var header := ReadExactOrEof(2);
      if header.None? {
        return None;
      }
      var opcode, masked, length := header.value[0] & 0x0f, header.value[1] & 0x80 != 0, Low7(header.value[1]);
      ghost var offset := 2;
      if length == 126 {
        var extended := ReadExactOrEof(2);
        if extended.None? {
          return None;
        }
        length, offset := Unsigned(extended.value), 4;
        assert extended.value == buf[2..4];
      } else if length == 127 {
        var extended := ReadExactOrEof(8);
        if extended.None? {
          return None;
        }
        length, offset := Unsigned(extended.value), 10;
        assert extended.value == buf[2..10];
      }
      assert HeadOf(buf) == Some(Head(length, offset)) && incoming == buf[offset..];
      r := ReadBody(opcode, masked, length, buf, offset);
    }

    method ReadBody(opcode: Octet, masked: bool, length: nat, ghost buf: seq<Octet>, ghost offset: nat)
      returns (r: Option<(Octet, seq<Octet>)>)
      requires HeadOf(buf) == Some(Head(length, offset)) && incoming == buf[offset..]
      requires opcode == buf[0] & 0x0f && masked == (buf[1] & 0x80 != 0)
      modifies `incoming
      ensures
        var p := ReadFrame(buf);
        && r == (if p.Some? then Some((p.value.opcode, p.value.payload)) else None)
        && incoming == (if p.Some? then p.value.rest else [])
    {
      hide HeadOf, Masked;
      var mask: MaskKey := [0, 0, 0, 0];
      if masked {
        var read := ReadExactOrEof(4);
        if read.None? {
          return None;
        }
        mask := read.value;
        assert mask == buf[offset..offset + 4];
      }
      ghost var at := offset + if masked then 4 else 0;
      assert incoming == buf[at..];
      var body := ReadExactOrEof(length);
      if body.None? {
        return None;
      }
      assert body.value == buf[at..at + length] && incoming == buf[at + length..];
      var payload := body.value;
      if masked {
        payload := Unmask(mask, body.value);
      }
      r := Some((opcode, payload));
    }

    method ReadText(pending: seq<string>, lossy: seq<Octet> -> string) returns (text: Option<string>, left: seq<string>)
      modifies this
      ensures pending != [] ==> text == Some(pending[0]) && left == pending[1..] && unchanged(this)
      ensures
        var t := NextText(old(incoming));
        pending == [] ==>
          && text == (if t.text.Some? then Some(lossy(t.text.value)) else None)
          && left == [] && incoming == t.rest && outgoing == old(outgoing) + t.answers
    {
      hide ReadFrame, Frame;
      left := pending;
      if left != [] {
        return Some(left[0]), left[1..];
      }
      ghost var answered: seq<Octet> := [];
      while true
        invariant left == [] && outgoing == old(outgoing) + answered
        invariant
          var t := NextText(incoming);
          NextText(old(incoming)) == t.(answers := answered + t.answers)
        decreases |incoming|
      {
        var frame := ReadOne();
        if frame.None? {
          return None, left;
        }
        var opcode, payload := frame.value.0, frame.value.1;
        if opcode == TEXT {
          return Some(lossy(payload)), left;
        } else if opcode == CLOSE {
          return None, left;
        } else if opcode == PING {
          WriteFrame(PONG, payload);
          answered := answered + Frame(PONG, payload);
        }
      }
    }
  }

  method Unmask(mask: MaskKey, body: seq<Octet>) returns (payload: seq<Octet>)
    ensures payload == Masked(mask, body)
  {
    hide Flip;
    var a := new Octet[|body|](i requires 0 <= i < |body| => body[i]);
    for i := 0 to a.Length
      invariant forall j | 0 <= j < a.Length :: a[j] == if j < i then Flip(body[j], mask[j % 4]) else body[j]
    {
      a[i] := Flip(a[i], mask[i % 4]);
    }
    payload := a[..];
  }
}
