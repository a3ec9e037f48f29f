/**
 What the fragments of a WebSocket message become (section 5.4 of RFC 6455), for every run of
 frames, and from printed bytes to the delivered message.
 */
module WebSocketReassembly {
  import opened Wrappers
  import opened ByteStrings
  import opened Numerals
  import opened XorMask
  import opened Utf8
  import opened WebSocketFrames
  import opened WebSocketMessages

  type Opcoded = f: Frame | IsOpcode(f.opcode)
    witness Frame(1, 0, 0, 0, OPCODE_TEXT, 0, [])

  /** The assembly after frames received since the connection was made.  A frame that raises
      is dropped, and the next call goes on with the next frame. */
  function After(s: Settings, control: bool, frames: seq<Opcoded>): Assembly
    decreases |frames|
  {
    if frames == [] then IDLE
    else
      var n := |frames| - 1;
      OnFrame(s, control, After(s, control, frames[..n]), frames[n]).after
  }

  // ----- the reference: the data frames of the message not yet finished

  /** A continuation needs a message to continue, and a first fragment needs none. */
  predicate Fits(unfinished: seq<Opcoded>, f: Frame) {
    f.opcode == OPCODE_CONT <==> unfinished != []
  }

  function Unfinished(frames: seq<Opcoded>): seq<Opcoded>
    decreases |frames|
  {
    if frames == [] then []
    else
      var n := |frames| - 1;
      var f := frames[n];
      var before := Unfinished(frames[..n]);
      if !IsData(f) || !Fits(before, f) then before
      else if f.fin != 0 then []
      else before + [f]
  }

  function Payloads(fragments: seq<Frame>): Bytes
    decreases |fragments|
  {
    if fragments == [] then []
    else Payloads(fragments[..|fragments| - 1]) + fragments[|fragments| - 1].data
  }

  function Expected(unfinished: seq<Frame>): Option<int> {
    if unfinished == [] then None else Some(unfinished[0].opcode)
  }

  function Summary(s: Settings, unfinished: seq<Frame>): Assembly {
    Assembly(if unfinished == [] || s.fireContFrame then None
             else Some((unfinished[0].opcode, Payloads(unfinished))),
             Expected(unfinished))
  }

  lemma PayloadsSnoc(fragments: seq<Frame>, f: Frame)
    ensures Payloads(fragments + [f]) == Payloads(fragments) + f.data
    ensures fragments == [] ==> Payloads(fragments + [f]) == f.data
    ensures (fragments + [f])[0] == if fragments == [] then f else fragments[0]
  {
    assert (fragments + [f])[..|fragments|] == fragments;
  }

  predicate IsOpenMessage(u: seq<Frame>) {
    forall i :: 0 <= i < |u| ==> IsData(u[i]) && u[i].fin == 0 && (u[i].opcode == OPCODE_CONT <==> i > 0)
  }

  /** An unfinished message is a first fragment and continuations, none of them final. */
  lemma {:induction false} UnfinishedIsAMessage(frames: seq<Opcoded>)
    ensures IsOpenMessage(Unfinished(frames))
    decreases |frames|
  {
    if frames == [] {
    } else {
      var n := |frames| - 1;
      UnfinishedIsAMessage(frames[..n]);
      var f, before := frames[n], Unfinished(frames[..n]);
      if IsData(f) && Fits(before, f) && f.fin == 0 {
        assert Unfinished(frames) == before + [f];
        forall i | 0 <= i < |before| + 1
          ensures var x := (before + [f])[i];
            IsData(x) && x.fin == 0 && (x.opcode == OPCODE_CONT <==> i > 0)
        {
        }
      }
    }
  }

  lemma SummaryGrows(s: Settings, u: seq<Opcoded>, f: Opcoded)
    requires IsData(f) && Fits(u, f) && f.fin == 0
    ensures OnData(s, Summary(s, u), f).after == Summary(s, u + [f])
  {
    PayloadsSnoc(u, f);
  }

  lemma SummaryEnds(s: Settings, u: seq<Opcoded>, f: Opcoded)
    requires IsData(f) && Fits(u, f) && f.fin != 0
    ensures OnData(s, Summary(s, u), f).after == IDLE
  {
  }

  /** In every run, between frames, the assembly is exactly the unfinished message: its first
      opcode and the concatenation of its payloads. */
  lemma {:induction false} AssemblyIsTheUnfinishedMessage(s: Settings, control: bool, frames: seq<Opcoded>)
    ensures After(s, control, frames) == Summary(s, Unfinished(frames))
    decreases |frames|
  {
    if frames == [] {
    } else {
      var n := |frames| - 1;
      AssemblyIsTheUnfinishedMessage(s, control, frames[..n]);
      var f, u := frames[n], Unfinished(frames[..n]);
      if IsData(f) && Fits(u, f) {
        if f.fin == 0 {
          SummaryGrows(s, u, f);
        } else {
          SummaryEnds(s, u, f);
        }
      }
    }
  }

  /** `recving_frames` is set exactly when `cont_data` is, in every state in which fragments
      are not handed over one by one; when they are, just between messages. */
  lemma BothSetOrNeither(s: Settings, control: bool, frames: seq<Opcoded>)
    ensures var a := After(s, control, frames);
      (a.recvingFrames.Some? <==> a.contData.Some?) <==> (!s.fireContFrame || Unfinished(frames) == [])
  {
    AssemblyIsTheUnfinishedMessage(s, control, frames);
  }

  function Verdict(s: Settings, opcode: int, data: Bytes): Outcome {
    match Extracted(s, (opcode, data))
    case Ok(message) => Return(message)
    case Err(error) => Throw(error)
  }

  /** What a data frame does to a summarised message, `whole` being the message with it. */
  lemma OnNextFragment(s: Settings, u: seq<Opcoded>, f: Opcoded, whole: seq<Opcoded>)
    requires !s.fireContFrame && IsData(f) && whole == u + [f]
    ensures OnData(s, Summary(s, u), f).outcome ==
      if !Fits(u, f) then Throw(ProtocolException)
      else if f.fin == 0 then Continue
      else Verdict(s, whole[0].opcode, Payloads(whole))
  {
    PayloadsSnoc(u, f);
  }

  /** A message that is delivered is, in every run, the payloads of one first fragment and all
      its continuations, none of them final but the last, under the opcode of the first; a
      fragment raises just when it does not fit, or when it completes text that is not the
      beginning of any well-formed text. */
  lemma DeliveredIsTheConcatenation(s: Settings, control: bool, frames: seq<Opcoded>, f: Opcoded)
    requires !s.fireContFrame && IsData(f)
    ensures var outcome := OnFrame(s, control, After(s, control, frames), f).outcome;
      var u := Unfinished(frames);
      var whole := u + [f];
      && IsOpenMessage(u)
      && (outcome == Throw(ProtocolException) <==> !Fits(u, f))
      && (outcome == Continue <==> Fits(u, f) && f.fin == 0)
      && (outcome == Throw(PayloadException) <==>
            Fits(u, f) && f.fin != 0 && whole[0].opcode == OPCODE_TEXT && !s.skipUtf8
            && !exists more :: WellFormed(Payloads(whole) + more))
      && (outcome.Return? ==> outcome.message == (whole[0].opcode, Payloads(whole)))
  {
    AssemblyIsTheUnfinishedMessage(s, control, frames);
    UnfinishedIsAMessage(frames);
    var u := Unfinished(frames);
    OnNextFragment(s, u, f, u + [f]);
    ValidatesExactlyPrefixes(Payloads(u + [f]));
  }

  /** When fragments are handed over one by one, each that fits is returned at once, as it is and
      unchecked, in every run. */
  lemma FragmentsAreHandedOver(s: Settings, control: bool, frames: seq<Opcoded>, f: Opcoded)
    requires s.fireContFrame && IsData(f)
    ensures OnFrame(s, control, After(s, control, frames), f).outcome ==
      if Fits(Unfinished(frames), f) then Return((f.opcode, f.data)) else Throw(ProtocolException)
  {
    AssemblyIsTheUnfinishedMessage(s, control, frames);
  }

  // ----- from printed frames to the message

  /** A message cut into fragments, with pings and pongs between them: `open` when its first
      fragment is already out. */
  predicate IsMessage(opcode: int, frames: seq<Frame>, open: bool)
    decreases |frames|
  {
    && frames != []
    && var f := frames[0];
       if f.opcode == OPCODE_PING then
         f.fin != 0 && |f.data| < 126 && IsMessage(opcode, frames[1..], open)
       else if f.opcode == OPCODE_PONG then IsMessage(opcode, frames[1..], open)
       else
         && f.opcode == (if open then OPCODE_CONT else opcode)
         && if f.fin != 0 then |frames| == 1 else IsMessage(opcode, frames[1..], true)
  }

  function FragmentOf(f: Frame): Bytes {
    if IsData(f) then f.data else []
  }

  function AnswerTo(f: Frame): seq<Frame> {
    if f.opcode == OPCODE_PING then [Created(OPCODE_PONG, f.data)] else []
  }

  /** The payload of the fragments, first to last. */
  function Message(frames: seq<Frame>): Bytes
    decreases |frames|
  {
    if frames == [] then [] else FragmentOf(frames[0]) + Message(frames[1..])
  }

  /** One pong for each ping, in order and with its data. */
  function Pongs(frames: seq<Frame>): seq<Frame>
    decreases |frames|
  {
    if frames == [] then [] else AnswerTo(frames[0]) + Pongs(frames[1..])
  }

  /** Frames as the peer prints them, each with a key of its own: flags that are bits, none of
      the reserved ones set, a known opcode, and a length of 63 bits. */
  predicate Printable(frames: seq<Frame>, keys: seq<Bytes>) {
    && |keys| == |frames|
    && forall i :: 0 <= i < |frames| ==>
         |keys[i]| == 4 && HasWireForm(frames[i])
         && frames[i].rsv1 == 0 && frames[i].rsv2 == 0 && frames[i].rsv3 == 0
  }

  function Printed(frames: seq<Frame>, keys: seq<Bytes>, order: ByteOrder): Bytes
    requires Printable(frames, keys)
    decreases |frames|
  {
    if frames == [] then []
    else
      FormsArePrinted(frames[0], keys[0], order);
      Format(frames[0], keys[0], order).value + Printed(frames[1..], keys[1..], order)
  }

  /** What is in the assembly after the fragments so far. */
  function Begun(opcode: int, open: bool, data: Bytes): Assembly {
    if open then Assembly(Some((opcode, data)), Some(opcode)) else IDLE
  }

  /** One printed frame is parsed and handled. */
  lemma PrintedFrameIsHandled(s: Settings, control: bool, order: ByteOrder, f: Frame, key: Bytes,
                              other: ByteOrder, a: Assembly, rest: Bytes, r: Reaction)
    requires |key| == 4 && HasWireForm(f) && IsValid(f, s.skipUtf8)
    requires r == OnFrame(s, control, a, f)
    ensures Format(f, key, other).Ok?
    ensures var input := Format(f, key, other).value + rest;
      Receive(s, control, order, a, input) ==
      if r.outcome != Continue then Reception(r.after, r.sent, r.outcome, rest)
      else Answered(r.sent, Receive(s, control, order, r.after, rest))
  {
    FormatReadsBack(f, key, rest, other, order, s.skipUtf8);
  }

  lemma OnMessageFrame(s: Settings, opcode: int, frames: seq<Frame>, open: bool, data: Bytes, data': Bytes)
    requires !s.fireContFrame && (opcode == OPCODE_TEXT || opcode == OPCODE_BINARY)
    requires IsMessage(opcode, frames, open) && (open || data == [])
    requires var f := frames[0]; f.rsv1 == 0 && f.rsv2 == 0 && f.rsv3 == 0
    requires data' == data + FragmentOf(frames[0])
    ensures var f := frames[0];
      var r := OnFrame(s, false, Begun(opcode, open, data), f);
      && IsValid(f, s.skipUtf8) && r.sent == AnswerTo(f)
      && if IsData(f) && f.fin != 0
         then r.after == IDLE && r.outcome == Verdict(s, opcode, data') && frames[1..] == []
         else r.after == Begun(opcode, open || IsData(f), data') && r.outcome == Continue
              && IsMessage(opcode, frames[1..], open || IsData(f)) && (open || IsData(f) || data' == [])
  {
    assert data == [] ==> data' == FragmentOf(frames[0]);
    assert data + [] == data;
  }

  lemma PrintedCons(frames: seq<Frame>, keys: seq<Bytes>, order: ByteOrder, rest: Bytes)
    requires frames != [] && Printable(frames, keys)
    ensures Format(frames[0], keys[0], order).Ok?
    ensures Printed(frames, keys, order) + rest ==
            Format(frames[0], keys[0], order).value + (Printed(frames[1..], keys[1..], order) + rest)
  {
    FormsArePrinted(frames[0], keys[0], order);
  }

  lemma MessageCons(frames: seq<Frame>, data: Bytes, data': Bytes)
    requires frames != [] && data' == data + FragmentOf(frames[0])
    ensures data + Message(frames) == data' + Message(frames[1..])
    ensures frames[1..] == [] ==> data + Message(frames) == data'
  {
    var tail := Message(frames[1..]);
    Reassociate(data, FragmentOf(frames[0]), tail);
    assert frames[1..] == [] ==> data' + tail == data';
  }

  /** The frame handled first, then the rest of the message. */
  lemma ReceptionCons(s: Settings, order: ByteOrder, a: Assembly, input: Bytes, f: Frame, a': Assembly,
                      input': Bytes, frames: seq<Frame>, outcome: Outcome, rest: Bytes)
    requires frames != [] && frames[0] == f
    requires Receive(s, false, order, a, input) == Answered(AnswerTo(f), Receive(s, false, order, a', input'))
    requires Receive(s, false, order, a', input') == Reception(IDLE, Pongs(frames[1..]), outcome, rest)
    ensures Receive(s, false, order, a, input) == Reception(IDLE, Pongs(frames), outcome, rest)
  {
  }

  lemma {:induction false} MessageFromHere(
      s: Settings, order: ByteOrder, opcode: int, frames: seq<Frame>, keys: seq<Bytes>,
      other: ByteOrder, open: bool, data: Bytes, rest: Bytes)
    requires !s.fireContFrame && (opcode == OPCODE_TEXT || opcode == OPCODE_BINARY)
    requires Printable(frames, keys) && IsMessage(opcode, frames, open) && (open || data == [])
    ensures Receive(s, false, order, Begun(opcode, open, data), Printed(frames, keys, other) + rest) ==
            Reception(IDLE, Pongs(frames), Verdict(s, opcode, data + Message(frames)), rest)
    decreases |frames|
  {
    var f, a, data' := frames[0], Begun(opcode, open, data), data + FragmentOf(frames[0]);
    OnMessageFrame(s, opcode, frames, open, data, data');
    MessageCons(frames, data, data');
    PrintedCons(frames, keys, other, rest);
    var r, rest' := OnFrame(s, false, a, f), Printed(frames[1..], keys[1..], other) + rest;
    PrintedFrameIsHandled(s, false, order, f, keys[0], other, a, rest', r);
    if IsData(f) && f.fin != 0 {
      assert rest' == rest;
      assert Pongs(frames) == [];
    } else {
      MessageFromHere(s, order, opcode, frames[1..], keys[1..], other, open || IsData(f), data', rest);
      ReceptionCons(s, order, a, Printed(frames, keys, other) + rest, f, r.after, rest', frames,
                    Verdict(s, opcode, data + Message(frames)), rest);
    }
  }

  /** However a message is cut into fragments, whatever pings and pongs come between them and
      whatever keys mask them, one call over the printed bytes answers the pings in order,
      delivers the message once with the opcode of its first fragment and the concatenated
      payload, and leaves what follows untouched. */
  lemma {:induction false} MessageIsReassembled(s: Settings, order: ByteOrder, opcode: int, frames: seq<Frame>,
                             keys: seq<Bytes>, other: ByteOrder, rest: Bytes)
    requires !s.fireContFrame && (opcode == OPCODE_TEXT || opcode == OPCODE_BINARY)
    requires Printable(frames, keys) && IsMessage(opcode, frames, false)
    ensures var r := Receive(s, false, order, IDLE, Printed(frames, keys, other) + rest);
      && r.after == IDLE && r.sent == Pongs(frames) && r.rest == rest
      && r.outcome == (if opcode == OPCODE_TEXT && !s.skipUtf8 && !Validates(Message(frames))
                       then Throw(PayloadException) else Return((opcode, Message(frames))))
  {
    MessageFromHere(s, order, opcode, frames, keys, other, false, [], rest);
    assert [] + Message(frames) == Message(frames);
  }

  /** Text that is well-formed is always delivered. */
  lemma {:induction false} WellFormedTextIsDelivered(s: Settings, order: ByteOrder, frames: seq<Frame>,
                                  keys: seq<Bytes>, other: ByteOrder, rest: Bytes)
    requires !s.fireContFrame
    requires Printable(frames, keys) && IsMessage(OPCODE_TEXT, frames, false)
    requires WellFormed(Message(frames))
    ensures Receive(s, false, order, IDLE, Printed(frames, keys, other) + rest) ==
            Reception(IDLE, Pongs(frames), Return((OPCODE_TEXT, Message(frames))), rest)
  {
    MessageIsReassembled(s, order, OPCODE_TEXT, frames, keys, other, rest);
    assert Message(frames) + [] == Message(frames);
    ValidatesExactlyPrefixes(Message(frames));
  }

  /** Every answer the client sends to a valid frame, pong or close, is printable, and the peer
      reads back exactly that frame and finds it valid. */
  lemma {:induction false} AnswersReadBack(s: Settings, control: bool, a: Assembly, f: Opcoded, answer: Frame, key: Bytes,
                        order: ByteOrder, other: ByteOrder, skipUtf8: bool, rest: Bytes)
    requires answer in OnFrame(s, control, a, f).sent && |key| == 4
    ensures Format(answer, key, order).Ok?
    ensures Parse(Format(answer, key, order).value + rest, other, skipUtf8) == Complete(Ok(answer), rest)
    ensures f.opcode == OPCODE_PING ==> answer.opcode == OPCODE_PONG && answer.data == f.data
    ensures f.opcode == OPCODE_PING || f.opcode == OPCODE_CLOSE
  {
    assert NORMAL_CLOSURE[..2] == NORMAL_CLOSURE;
    assert FromBytes(NORMAL_CLOSURE) == 1000 by {
      assert NORMAL_CLOSURE[..1] == [3] && NORMAL_CLOSURE[..1][..0] == [];
      assert FromBytes(NORMAL_CLOSURE[..1]) == 3;
    }
    FormatReadsBack(answer, key, rest, order, other, skipUtf8);
  }
}
