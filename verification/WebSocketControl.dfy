/**
 Control frames (sections 5.5 and 7.4 of RFC 6455), from printed bytes to what a call does, and
 the frames the client makes.
 */
module WebSocketControl {
  import opened Wrappers
  import opened ByteStrings
  import opened Numerals
  import opened XorMask
  import opened Utf8
  import opened WebSocketFrames
  import opened WebSocketMessages
  import opened WebSocketReassembly

  // ----- what a close may say

  /** The status at the start of a payload, most significant octet first. */
  function StatusOf(data: Bytes): nat
    requires 2 <= |data|
  {
    256 * data[0] as nat + data[1] as nat
  }

  /** The status codes that a close must not carry: those below 1000, the ones reserved or never
      sent (1004, 1005, 1006, 1015), those up to 2999 that nobody registered, and those from 5000
      on. */
  predicate IsForbiddenStatus(code: nat) {
    code < 1000 || code in {1004, 1005, 1006} || 1015 <= code < 3000 || 5000 <= code
  }

  lemma ClosesSayWhatTheyMay(code: nat)
    ensures IsCloseStatus(code) <==> !IsForbiddenStatus(code)
  {
  }

  /** Nothing at all, or a status and a reason that is the beginning of well-formed text, which
      need not be when the check is skipped. */
  ghost predicate IsClosePayload(data: Bytes, skipUtf8: bool) {
    data == [] ||
    (&& 2 <= |data| <= 125
     && !IsForbiddenStatus(StatusOf(data))
     && (skipUtf8 || exists more :: WellFormed(data[2..] + more)))
  }

  lemma TwoDigits(b: Bytes)
    requires |b| == 2
    ensures FromBytes(b) == StatusOf(b)
  {
    assert b[..1] == [b[0]] && b[..1][..0] == [];
    assert FromBytes(b[..1]) == b[0];
  }

  lemma CloseStatusIsRead(data: Bytes, skipUtf8: bool)
    requires |data| >= 2
    ensures IsCloseStatus(FromBytes(data[..2])) <==> !IsForbiddenStatus(StatusOf(data))
    ensures (|data| > 2 && !skipUtf8 ==> Validates(data[2..])) <==>
            (skipUtf8 || exists more :: WellFormed(data[2..] + more))
  {
    TwoDigits(data[..2]);
    ClosesSayWhatTheyMay(StatusOf(data));
    ValidatesExactlyPrefixes(data[2..]);
    if |data| == 2 {
      assert AreScalars([]) && EncodeAll([]) == [];
      assert data[2..] + [] == [];
    }
  }

  /** A received frame is let through exactly when no reserved bit is set, the opcode is one of
      the six, a ping is not a fragment, and a close has a payload that a close may have. */
  lemma {:induction false} FramesAreValidExactly(f: Frame, skipUtf8: bool)
    ensures IsValid(f, skipUtf8) <==>
      && f.rsv1 == 0 && f.rsv2 == 0 && f.rsv3 == 0
      && f.opcode in {0, 1, 2, 8, 9, 10}
      && (f.opcode == 9 ==> f.fin != 0)
      && (f.opcode == 8 ==> IsClosePayload(f.data, skipUtf8))
  {
    if f.opcode == 8 && |f.data| >= 2 {
      CloseStatusIsRead(f.data, skipUtf8);
    }
  }

  // ----- what a call does with a printed control frame

  /** 1000, two octets. */
  const NORMAL: Bytes := [3, 232]

  /** A close of the peer ends the call with it and is answered by a close of its own, final,
      masked and with status 1000, if and only if its payload is one that a close may have;
      otherwise the call raises and nothing is sent.  The message being put together is kept. */
  lemma {:induction false} CloseIsEchoedExactlyWhenAllowed(
      s: Settings, control: bool, order: ByteOrder, a: Assembly, f: Frame, key: Bytes, other: ByteOrder, rest: Bytes)
    requires |key| == 4 && HasWireForm(f) && f.rsv1 == 0 && f.rsv2 == 0 && f.rsv3 == 0
    requires f.opcode == 8
    ensures Format(f, key, other).Ok?
    ensures Receive(s, control, order, a, Format(f, key, other).value + rest) ==
      if IsClosePayload(f.data, s.skipUtf8)
      then Reception(a, [Frame(1, 0, 0, 0, 8, 1, NORMAL)], Return((8, f.data)), rest)
      else Reception(a, [], Throw(ProtocolException), rest)
  {
    FramesAreValidExactly(f, s.skipUtf8);
    FormatReadsBack(f, key, rest, other, order, s.skipUtf8);
    if IsClosePayload(f.data, s.skipUtf8) {
      PrintedFrameIsHandled(s, control, order, f, key, other, a, rest, OnFrame(s, control, a, f));
    }
  }

  /** A ping of at most 125 octets, if it is not a fragment, is answered by a pong with its data,
      final and masked; any other one raises.  A pong sends nothing.  The call ends with either
      if the caller asked for control frames, and goes on with the rest of the input if not. */
  lemma {:induction false} PingIsAnsweredExactlyWhenAllowed(
      s: Settings, control: bool, order: ByteOrder, a: Assembly, f: Frame, key: Bytes, other: ByteOrder, rest: Bytes)
    requires |key| == 4 && HasWireForm(f) && f.rsv1 == 0 && f.rsv2 == 0 && f.rsv3 == 0
    requires f.opcode == 9 || f.opcode == 10
    ensures Format(f, key, other).Ok?
    ensures var answer := if f.opcode == 9 then [Frame(1, 0, 0, 0, 10, 1, f.data)] else [];
      Receive(s, control, order, a, Format(f, key, other).value + rest) ==
      if f.opcode == 9 && (f.fin == 0 || |f.data| > 125) then Reception(a, [], Throw(ProtocolException), rest)
      else if control then Reception(a, answer, Return((f.opcode, f.data)), rest)
      else Answered(answer, Receive(s, control, order, a, rest))
  {
    FormatReadsBack(f, key, rest, other, order, s.skipUtf8);
    if IsValid(f, s.skipUtf8) {
      PrintedFrameIsHandled(s, control, order, f, key, other, a, rest, OnFrame(s, control, a, f));
    }
  }

  // ----- what the client sends

  /** Whatever the client sends, of any of the six kinds and any length below 2^63, is printed,
      and the peer parses it to one final, masked frame without reserved bits that holds it. */
  lemma {:induction false} SentFrameReadsBack(opcode: int, data: Bytes, key: Bytes, rest: Bytes,
                                              order: ByteOrder, other: ByteOrder, skipUtf8: bool)
    requires opcode in {0, 1, 2, 8, 9, 10} && |data| < 0x8000_0000_0000_0000 && |key| == 4
    ensures Format(Created(opcode, data), key, order).Ok?
    ensures Parse(Format(Created(opcode, data), key, order).value + rest, other, skipUtf8) ==
            Complete(Checked(Frame(1, 0, 0, 0, opcode, 1, data), skipUtf8), rest)
    ensures opcode < 8 ==> IsValid(Frame(1, 0, 0, 0, opcode, 1, data), skipUtf8)
  {
    PowersOf256();
    var f := Created(opcode, data);
    var flags := [f.fin, f.rsv1, f.rsv2, f.rsv3, f.mask];
    assert flags == [1, 0, 0, 0, 1];
    FormatReadsBack(f, key, rest, order, other, skipUtf8);
  }
}
