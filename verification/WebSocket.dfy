/** WebSocket frames as section 5.2 of RFC 6455 lays them out: what one side writes and the other
    reads, however the octets are cut up on the way. */
module WebSocket {
  import opened Wrappers
  import opened Octets

  // ---- the format --------------------------------------------------------

  function Length(n: nat): seq<Octet> {
    if n < 126 then [Octet8(n)]
    else if n < 65536 then [126] + BigEndian(n, 2)
    else [127] + BigEndian(n, 8)
  }

  /** The length takes as few octets as it can: one up to 125, three up to 65535, nine beyond, the longer two marked. */
  lemma LengthsAreMinimal(n: nat)
    ensures |Length(n)| == (if n <= 125 then 1 else if n <= 65535 then 3 else 9)
    ensures 125 < n <= 65535 ==> Length(n)[0] == 126 && Length(n)[1..] == BigEndian(n, 2)
    ensures n > 65535 ==> Length(n)[0] == 127 && Length(n)[1..] == BigEndian(n, 8)
  {
    hide BigEndian, Octet8;
  }

  /** An unmasked frame, as a server sends it. */
  function Frame(opcode: Octet, payload: seq<Octet>): seq<Octet> {
    [0x80 | opcode] + Length(|payload|) + payload
  }

  datatype Head = Head(length: nat, offset: nat)

  /** How long the payload is and where the length field ends, once enough octets are there. */
  function HeadOf(buf: seq<Octet>): (h: Option<Head>)
    ensures h.Some? ==> 2 <= h.value.offset <= |buf|
  {
    if |buf| < 2 then None
    else
      var short := Low7(buf[1]);
      if short == 126 then (if |buf| < 4 then None else Some(Head(Unsigned(buf[2..4]), 4)))
      else if short == 127 then (if |buf| < 10 then None else Some(Head(Unsigned(buf[2..10]), 10)))
      else Some(Head(short, 2))
  }

  lemma HeadExtends(buf: seq<Octet>, more: seq<Octet>)
    requires HeadOf(buf).Some?
    ensures HeadOf(buf + more) == HeadOf(buf)
  {
    hide Unsigned, Low7;
    if |buf| >= 4 { assert (buf + more)[2..4] == buf[2..4]; }
    if |buf| >= 10 { assert (buf + more)[2..10] == buf[2..10]; }
  }

  lemma EscapeCodes()
    ensures Low7(126) == 126 && Low7(127) == 127 && 126 as Octet & 0x80 == 0 && 127 as Octet & 0x80 == 0
    ensures Low7(0x80 | 126) == 126 && (0x80 as Octet | 126) & 0x80 != 0
  {
    assert Octet8(126) == 126 && Octet8(127) == 127;
    SevenBits(126);
    SevenBits(127);
  }

  lemma HeadOfFrame(opcode: Octet, payload: seq<Octet>)
    requires |payload| < Pow256(8)
    ensures HeadOf(Frame(opcode, payload)) == Some(Head(|payload|, |Frame(opcode, payload)| - |payload|))
    ensures Frame(opcode, payload)[1] & 0x80 == 0
  {
    hide Unsigned, Low7, BigEndian, Octet8;
    var f, n := Frame(opcode, payload), |payload|;
    Widths();
    EscapeCodes();
    if n < 126 {
      SevenBits(n);
    } else if n < 65536 {
      assert f[2..4] == BigEndian(n, 2);
      UnsignedOfBigEndian(n, 2);
    } else {
      assert f[2..10] == BigEndian(n, 8);
      UnsignedOfBigEndian(n, 8);
    }
  }

  // ---- taking frames from a buffer ---------------------------------------

  datatype Taken = Taken(payload: seq<Octet>, rest: seq<Octet>)

  function Take(buf: seq<Octet>): (t: Option<Taken>)
    ensures t.Some? ==> |t.value.rest| < |buf|
  {
    var h := HeadOf(buf);
    if h.None? || |buf| < h.value.offset + h.value.length then None
    else
      var end := h.value.offset + h.value.length;
      Some(Taken(buf[h.value.offset..end], buf[end..]))
  }

  /** More octets never change a frame that is already complete. */
  lemma TakeExtends(buf: seq<Octet>, more: seq<Octet>)
    requires Take(buf).Some?
    ensures Take(buf + more) == Some(Taken(Take(buf).value.payload, Take(buf).value.rest + more))
  {
    hide HeadOf;
    HeadExtends(buf, more);
    var offset, end := HeadOf(buf).value.offset, HeadOf(buf).value.offset + HeadOf(buf).value.length;
    assert (buf + more)[offset..end] == buf[offset..end] && (buf + more)[end..] == buf[end..] + more;
  }

  lemma TakeFrameBack(opcode: Octet, payload: seq<Octet>)
    requires |payload| < Pow256(8)
    ensures Take(Frame(opcode, payload)) == Some(Taken(payload, []))
  {
    hide HeadOf, Octet8, BigEndian;
    HeadOfFrame(opcode, payload);
    var f := Frame(opcode, payload);
    assert f[|f| - |payload|..|f|] == payload && f[|f|..] == [];
  }

  /** Part of a frame is not a frame. */
  lemma PartIsNotTaken(part: seq<Octet>, opcode: Octet, payload: seq<Octet>)
    requires |payload| < Pow256(8) && part < Frame(opcode, payload)
    ensures Take(part).None?
  {
    hide Take, Frame;
    var f := Frame(opcode, payload);
    TakeFrameBack(opcode, payload);
    assert part + f[|part|..] == f;
    if Take(part).Some? { TakeExtends(part, f[|part|..]); }
  }

  datatype Frames = Frames(payloads: seq<seq<Octet>>, rest: seq<Octet>)

  function TakeAll(buf: seq<Octet>): Frames
    decreases |buf|
  {
    var t := Take(buf);
    if t.None? then Frames([], buf)
    else
      var others := TakeAll(t.value.rest);
      Frames([t.value.payload] + others.payloads, others.rest)
  }

  lemma TakeAllStep(buf: seq<Octet>)
    ensures TakeAll(buf) ==
      if Take(buf).None? then Frames([], buf)
      else Frames([Take(buf).value.payload] + TakeAll(Take(buf).value.rest).payloads,
        TakeAll(Take(buf).value.rest).rest)
  {
    hide Take;
  }

  /** Taking frames as octets arrive gives what taking them all at the end would give. */
  lemma {:induction false} TakeAllInParts(a: seq<Octet>, b: seq<Octet>)
    ensures
      var first := TakeAll(a);
      var second := TakeAll(first.rest + b);
      TakeAll(a + b) == Frames(first.payloads + second.payloads, second.rest)
    decreases |a|
  {
    hide Take;
    if Take(a).Some? {
      TakeExtends(a, b);
      var payload, rest := Take(a).value.payload, Take(a).value.rest;
      TakeAllInParts(rest, b);
      assert TakeAll(a).payloads == [payload] + TakeAll(rest).payloads;
      assert TakeAll(a + b).payloads == [payload] + TakeAll(rest + b).payloads;
    }
  }

  datatype Message = Message(opcode: Octet, payload: seq<Octet>)

  function Wire(messages: seq<Message>): seq<Octet> {
    if messages == [] then []
    else Frame(messages[0].opcode, messages[0].payload) + Wire(messages[1..])
  }

  function Payloads(messages: seq<Message>): seq<seq<Octet>> {
    seq(|messages|, i requires 0 <= i < |messages| => messages[i].payload)
  }

  ghost predicate Sendable(messages: seq<Message>) {
    forall m | m in messages :: |m.payload| < Pow256(8)
  }

  lemma PayloadsStep(messages: seq<Message>)
    ensures Payloads([]) == []
    ensures messages != [] ==> Payloads(messages) == [messages[0].payload] + Payloads(messages[1..])
  {
  }

  lemma WireStep(m: Message, more: seq<Octet>)
    requires |m.payload| < Pow256(8)
    ensures TakeAll(Frame(m.opcode, m.payload) + more)
      == Frames([m.payload] + TakeAll(more).payloads, TakeAll(more).rest)
  {
    hide Take, Frame;
    TakeFrameBack(m.opcode, m.payload);
    TakeExtends(Frame(m.opcode, m.payload), more);
    assert [] + more == more;
  }

  /** Every frame written is read back in order, and an unfinished last frame waits in the buffer. */
  lemma {:induction false} WireReadsBack(messages: seq<Message>, tail: seq<Octet>, opcode: Octet, payload: seq<Octet>)
    requires Sendable(messages) && |payload| < Pow256(8) && tail < Frame(opcode, payload)
    ensures TakeAll(Wire(messages) + tail) == Frames(Payloads(messages), tail)
  {
    hide Take, Frame, Payloads;
    PayloadsStep(messages);
    if messages == [] {
      assert Wire(messages) + tail == tail;
      PartIsNotTaken(tail, opcode, payload);
    } else {
      hide TakeAll;
      var m, rest := messages[0], messages[1..];
      WireReadsBack(rest, tail, opcode, payload);
      WireStep(m, Wire(rest) + tail);
      assert Wire(messages) + tail == Frame(m.opcode, m.payload) + (Wire(rest) + tail);
    }
  }

  function Kept(payloads: seq<seq<Octet>>, json: seq<Octet> -> bool): seq<seq<Octet>> {
    if payloads == [] then []
    else
      var head, last := Kept(payloads[..|payloads| - 1], json), payloads[|payloads| - 1];
      if json(last) then head + [last] else head
  }

  lemma KeptNone(json: seq<Octet> -> bool)
    ensures Kept([], json) == []
  {
  }

  lemma KeptStep(payloads: seq<seq<Octet>>, last: seq<Octet>, json: seq<Octet> -> bool)
    ensures Kept(payloads + [last], json) == Kept(payloads, json) + if json(last) then [last] else []
  {
    assert (payloads + [last])[..|payloads|] == payloads;
  }

  lemma {:induction false} KeptAppends(a: seq<seq<Octet>>, b: seq<seq<Octet>>, json: seq<Octet> -> bool)
    ensures Kept(a + b, json) == Kept(a, json) + Kept(b, json)
  {
    if b == [] {
      assert a + b == a;
    } else {
      var all := a + b;
      KeptAppends(a, b[..|b| - 1], json);
      assert all[..|all| - 1] == a + b[..|b| - 1];
    }
  }

  /** The client's side of a session: what has arrived and is not yet part of a complete frame. */
  class RawSession {
    var buf: seq<Octet>

    constructor ()
      ensures buf == []
    {
      buf := [];
    }

    method TakeFrame() returns (payload: Option<seq<Octet>>)
      modifies this
      ensures payload == if Take(old(buf)).Some? then Some(Take(old(buf)).value.payload) else None
      ensures buf == if Take(old(buf)).Some? then Take(old(buf)).value.rest else old(buf)
    {
      if |buf| < 2 {
        return None;
      }
      var short := Low7(buf[1]);
      var len, offset := short, 2;
      if short == 126 {
        if |buf| < 4 {
          return None;
        }
        len, offset := Unsigned(buf[2..4]), 4;
      } else if short == 127 {
        if |buf| < 10 {
          return None;
        }
        len, offset := Unsigned(buf[2..10]), 10;
      }
      if |buf| < offset + len {
        return None;
      }
      payload := Some(buf[offset..offset + len]);
      buf := buf[offset + len..];
    }

    /** Takes every complete frame now in the buffer, keeping the payloads that parse. */
    method Drain(json: seq<Octet> -> bool) returns (out: seq<seq<Octet>>)
      modifies this
      ensures out == Kept(TakeAll(old(buf)).payloads, json) && buf == TakeAll(old(buf)).rest
    {
      hide Take, TakeAll, Kept;
      out := [];
      ghost var taken: seq<seq<Octet>> := [];
      ghost var before := buf;
      KeptNone(json);
      var payload := TakeFrame();
      while payload.Some?
        invariant payload.Some? ==> Take(before) == Some(Taken(payload.value, buf))
        invariant payload.None? ==> Take(before).None? && buf == before
        invariant out == Kept(taken, json)
        invariant TakeAll(old(buf)) == Frames(taken + TakeAll(before).payloads, TakeAll(before).rest)
        decreases |before|, payload.Some?
      {
        TakeAllStep(before);
        KeptStep(taken, payload.value, json);
        assert taken + ([payload.value] + TakeAll(buf).payloads) == (taken + [payload.value]) + TakeAll(buf).payloads;
        taken := taken + [payload.value];
        if json(payload.value) {
          out := out + [payload.value];
        }
        before := buf;
        payload := TakeFrame();
      }
      TakeAllStep(before);
      assert taken + [] == taken;
    }

    /** Reads until the socket has no more to give; the chunks are what each read returned. */
    method ReadMessages(chunks: seq<seq<Octet>>, json: seq<Octet> -> bool) returns (out: seq<seq<Octet>>)
      modifies this
      ensures out == Kept(TakeAll(old(buf) + Concat(chunks)).payloads, json)
      ensures buf == TakeAll(old(buf) + Concat(chunks)).rest
    {
      hide TakeAll, Kept;
      out := Drain(json);
      assert old(buf) + Concat(chunks[..0]) == old(buf);
      for i := 0 to |chunks|
        invariant out == Kept(TakeAll(old(buf) + Concat(chunks[..i])).payloads, json)
        invariant buf == TakeAll(old(buf) + Concat(chunks[..i])).rest
      {
        ghost var seen := old(buf) + Concat(chunks[..i]);
        assert chunks[..i + 1][..i] == chunks[..i];
        assert old(buf) + Concat(chunks[..i + 1]) == seen + chunks[i];
        TakeAllInParts(seen, chunks[i]);
        buf := buf + chunks[i];
        KeptAppends(TakeAll(seen).payloads, TakeAll(buf).payloads, json);
        var more := Drain(json);
        out := out + more;
      }
      assert chunks[..|chunks|] == chunks;
    }
  }
}
