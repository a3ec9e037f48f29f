/**
 WebSocket messages: fragments are put together across interleaved control frames (section
 5.4 of RFC 6455), pings are answered, and a close is echoed.
 */
module WebSocketMessages {
  import opened Wrappers
  import opened ByteStrings
  import opened XorMask
  import opened Utf8
  import opened WebSocketFrames
  import opened FrameBuffer

  datatype Exception = ProtocolException | PayloadException

  datatype Settings = Settings(fireContFrame: bool, skipUtf8: bool)

  /** The message being put together: first opcode and payload so far, and the opcode whose
      continuation is expected. */
  datatype Assembly = Assembly(contData: Option<(int, Bytes)>, recvingFrames: Option<int>)

  const IDLE := Assembly(None, None)

  predicate IsData(f: Frame) {
    f.opcode == OPCODE_TEXT || f.opcode == OPCODE_BINARY || f.opcode == OPCODE_CONT
  }

  predicate Illegal(a: Assembly, f: Frame) {
    || (a.recvingFrames == None && f.opcode == OPCODE_CONT)
    || (a.recvingFrames.Some? && (f.opcode == OPCODE_TEXT || f.opcode == OPCODE_BINARY))
  }

  function Added(a: Assembly, f: Frame): Assembly {
    var expected := if a.contData == None && f.opcode != OPCODE_CONT then Some(f.opcode) else a.recvingFrames;
    var data := if a.contData == None then (f.opcode, f.data)
                else (a.contData.value.0, a.contData.value.1 + f.data);
    Assembly(Some(data), if f.fin != 0 then None else expected)
  }

  predicate Fires(s: Settings, f: Frame) {
    f.fin != 0 || s.fireContFrame
  }

  /** What happens to the message taken out of the assembly. */
  function Extracted(s: Settings, data: (int, Bytes)): Result<(int, Bytes), Exception> {
    if !s.fireContFrame && data.0 == OPCODE_TEXT && !s.skipUtf8 && !Validates(data.1)
    then Err(PayloadException)
    else Ok(data)
  }

  // ----- one frame

  datatype Outcome =
    | Continue
    | Return(message: (int, Bytes))
    | Throw(error: Exception)

  datatype Reaction = Reaction(after: Assembly, sent: seq<Frame>, outcome: Outcome)

  /** A frame the client makes: final, and masked. */
  function Created(opcode: int, data: Bytes): Frame {
    Frame(1, 0, 0, 0, opcode, 1, data)
  }

  const NORMAL_CLOSURE: Bytes := [3, 232]

  function OnData(s: Settings, a: Assembly, f: Frame): Reaction
    requires IsData(f)
  {
    if Illegal(a, f) then Reaction(a, [], Throw(ProtocolException))
    else
      var added := Added(a, f);
      if !Fires(s, f) then Reaction(added, [], Continue)
      else
        var fired := added.(contData := None);
        match Extracted(s, added.contData.value)
        case Ok(message) => Reaction(fired, [], Return(message))
        case Err(error) => Reaction(fired, [], Throw(error))
  }

  function OnControl(control: bool, a: Assembly, f: Frame): Reaction
    requires !IsData(f) && IsOpcode(f.opcode)
  {
    if f.opcode == OPCODE_CLOSE then
      Reaction(a, [Created(OPCODE_CLOSE, NORMAL_CLOSURE)], Return((f.opcode, f.data)))
    else if f.opcode == OPCODE_PING && |f.data| >= 126 then
      Reaction(a, [], Throw(ProtocolException))
    else
      Reaction(a, if f.opcode == OPCODE_PING then [Created(OPCODE_PONG, f.data)] else [],
               if control then Return((f.opcode, f.data)) else Continue)
  }

  function OnFrame(s: Settings, control: bool, a: Assembly, f: Frame): Reaction
    requires IsOpcode(f.opcode)
  {
    if IsData(f) then OnData(s, a, f) else OnControl(control, a, f)
  }

  // ----- one call over a whole input

  datatype Reception = Reception(after: Assembly, sent: seq<Frame>, outcome: Outcome, rest: Bytes)

  /** What a call makes of the input: it ends at the first frame that returns or raises; with
      no such frame it waits for more input, which is `Continue` here. */
  function Receive(s: Settings, control: bool, order: ByteOrder, a: Assembly, input: Bytes): Reception
    decreases |input|
  {
    match Parse(input, order, s.skipUtf8)
    case Incomplete => Reception(a, [], Continue, input)
    case Complete(Err(error), rest) => Reception(a, [], Throw(ProtocolException), rest)
    case Complete(Ok(frame), rest) =>
      ParseConsumes(input, order, s.skipUtf8);
      ParsedIsValid(input, order, s.skipUtf8);
      var r := OnFrame(s, control, a, frame);
      if r.outcome != Continue then Reception(r.after, r.sent, r.outcome, rest)
      else Answered(r.sent, Receive(s, control, order, r.after, rest))
  }

  function Answered(sent: seq<Frame>, r: Reception): Reception {
    r.(sent := sent + r.sent)
  }

  lemma ParsedIsValid(input: Bytes, order: ByteOrder, skipUtf8: bool)
    ensures var p := Parse(input, order, skipUtf8);
      p.Complete? && p.frame.Ok? ==> IsValid(p.frame.value, skipUtf8)
  {
  }

  // ----- the objects

  class ContinuousFrame {
    const s: Settings
    var contData: Option<(int, Bytes)>
    var recvingFrames: Option<int>

    constructor (s: Settings)
      ensures this.s == s && State() == IDLE
    {
      this.s := s;
      contData, recvingFrames := None, None;
    }

    function State(): Assembly
      reads this
    {
      Assembly(contData, recvingFrames)
    }

    method Validate(f: Frame) returns (raised: bool)
      ensures raised == Illegal(State(), f)
    {
      if recvingFrames == None && f.opcode == OPCODE_CONT {
        return true;
      }
      if recvingFrames.Some? && (f.opcode == OPCODE_TEXT || f.opcode == OPCODE_BINARY) {
        return true;
      }
      raised := false;
    }

    method Add(f: Frame)
      requires IsData(f)
      modifies this
      ensures State() == Added(old(State()), f)
    {
      if contData.Some? {
        contData := Some((contData.value.0, contData.value.1 + f.data));
      } else {
        if f.opcode == OPCODE_TEXT || f.opcode == OPCODE_BINARY {
          recvingFrames := Some(f.opcode);
        }
        contData := Some((f.opcode, f.data));
      }
      if f.fin != 0 {
        recvingFrames := None;
      }
    }

    /** Takes the assembled data out; without any it raises. */
    method Extract() returns (r: Result<(int, Bytes), Exception>)
      modifies this
      ensures State() == old(State()).(contData := None)
      ensures r == if old(contData) == None then Err(ProtocolException) else Extracted(s, old(contData).value)
    {
      if contData == None {
        return Err(ProtocolException);
      }
      var data := contData.value;
      contData := None;
      if !s.fireContFrame && data.0 == OPCODE_TEXT && !s.skipUtf8 {
        var valid := Utf8.Validate(data.1);
        if !valid {
          return Err(PayloadException);
        }
      }
      r := Ok(data);
    }
  }

  datatype Ending =
    | Returned(message: (int, Bytes))
    | Threw(error: Exception)
    | SocketRaised(reason: RecvError)

  datatype Round = Again | Ended(ending: Ending)

  function RaisedIn(round: Round): Option<RecvError> {
    if round.Ended? && round.ending.SocketRaised? then Some(round.ending.reason) else None
  }

  /** Receiving `input` with `a` is sending `sent` and then receiving `input'` with `a'`. */
  ghost predicate ReceivesOn(s: Settings, control: bool, order: ByteOrder, a: Assembly, input: Bytes,
                             sent: seq<Frame>, a': Assembly, input': Bytes)
  {
    Receive(s, control, order, a, input) == Answered(sent, Receive(s, control, order, a', input'))
  }

  lemma ReceivesOnNothing(s: Settings, control: bool, order: ByteOrder, a: Assembly, input: Bytes)
    ensures ReceivesOn(s, control, order, a, input, [], a, input)
  {
    assert [] + Receive(s, control, order, a, input).sent == Receive(s, control, order, a, input).sent;
  }

  /** One frame of the input, on the way. */
  lemma ReceiveStep(s: Settings, control: bool, order: ByteOrder, a: Assembly, input: Bytes,
                    f: Frame, r: Reaction, rest: Bytes)
    requires Parse(input, order, s.skipUtf8) == Complete(Ok(f), rest)
    requires IsOpcode(f.opcode) && r == OnFrame(s, control, a, f)
    ensures r.outcome == Continue ==> ReceivesOn(s, control, order, a, input, r.sent, r.after, rest)
    ensures r.outcome != Continue ==>
      Receive(s, control, order, a, input) == Reception(r.after, r.sent, r.outcome, rest)
  {
  }

  lemma AnsweredTwice(sent: seq<Frame>, more: seq<Frame>, r: Reception)
    ensures Answered(sent, Answered(more, r)) == Answered(sent + more, r)
  {
    assert sent + (more + r.sent) == (sent + more) + r.sent;
  }

  /** What rounds of the loop did, against one parse of the whole input. */
  ghost predicate Explained(s: Settings, control: bool, order: ByteOrder, a: Assembly, input: Bytes,
                            sent: seq<Frame>, a': Assembly, input': Bytes, round: Round)
  {
    if round.Again? || round.ending.SocketRaised? then
      ReceivesOn(s, control, order, a, input, sent, a', input')
    else
      var outcome := if round.ending.Returned? then Return(round.ending.message) else Throw(round.ending.error);
      Receive(s, control, order, a, input) == Reception(a', sent, outcome, input')
  }

  lemma ExplainedFurther(s: Settings, control: bool, order: ByteOrder, a: Assembly, input: Bytes,
                         sent: seq<Frame>, a': Assembly, input': Bytes,
                         more: seq<Frame>, a'': Assembly, input'': Bytes, round: Round)
    requires ReceivesOn(s, control, order, a, input, sent, a', input')
    requires Explained(s, control, order, a', input', more, a'', input'', round)
    ensures Explained(s, control, order, a, input, sent + more, a'', input'', round)
  {
    AnsweredTwice(sent, more, Receive(s, control, order, a'', input''));
  }

  lemma SuffixGrows<T>(before: seq<T>, middle: seq<T>, after: seq<T>)
    requires before <= middle <= after
    ensures before <= after && after[|before|..] == middle[|before|..] + after[|middle|..]
  {
  }

  class WebSocket {
    const frameBuffer: FrameBuffer
    const contFrame: ContinuousFrame
    var connected: bool
    var sent: seq<Frame>

    constructor (socket: Socket, order: ByteOrder, s: Settings)
      ensures Valid() && Assembled() == IDLE && sent == [] && Input() == socket.stream
      ensures contFrame.s == s && frameBuffer.order == order
    {
      frameBuffer := new FrameBuffer(socket, order, s.skipUtf8);
      contFrame := new ContinuousFrame(s);
      connected := true;
      sent := [];
    }

    ghost predicate Valid()
      reads this, frameBuffer
    {
      frameBuffer.Valid() && frameBuffer.skipUtf8 == contFrame.s.skipUtf8
    }

    ghost function Input(): Bytes
      reads frameBuffer, frameBuffer.socket
    {
      frameBuffer.Input()
    }

    function Assembled(): Assembly
      reads contFrame
    {
      contFrame.State()
    }

    method Pong(data: Bytes)
      modifies this`sent
      ensures sent == old(sent) + [Created(OPCODE_PONG, data)]
    {
      sent := sent + [Created(OPCODE_PONG, data)];
    }

    method SendClose()
      modifies this`sent, this`connected
      ensures sent == old(sent) + [Created(OPCODE_CLOSE, NORMAL_CLOSURE)] && !connected
    {
      connected := false;
      sent := sent + [Created(OPCODE_CLOSE, NORMAL_CLOSURE)];
    }

    method HandleData(f: Frame) returns (outcome: Outcome)
      requires IsData(f)
      modifies contFrame
      ensures OnData(contFrame.s, old(Assembled()), f) == Reaction(Assembled(), [], outcome)
    {
      var raised := contFrame.Validate(f);
      if raised {
        return Throw(ProtocolException);
      }
      contFrame.Add(f);
      if f.fin != 0 || contFrame.s.fireContFrame {
        var r := contFrame.Extract();
        match r
        case Ok(message) => return Return(message);
        case Err(error) => return Throw(error);
      }
      outcome := Continue;
    }

    method HandleControl(control: bool, f: Frame) returns (outcome: Outcome)
      requires !IsData(f) && IsOpcode(f.opcode)
      modifies this
      ensures OnControl(control, Assembled(), f).outcome == outcome
      ensures sent == old(sent) + OnControl(control, Assembled(), f).sent
      ensures connected == (old(connected) && f.opcode != OPCODE_CLOSE)
    {
      if f.opcode == OPCODE_CLOSE {
        SendClose();
        return Return((f.opcode, f.data));
      }
      if f.opcode == OPCODE_PING {
        if |f.data| < 126 {
          Pong(f.data);
        } else {
          return Throw(ProtocolException);
        }
      }
      outcome := if control then Return((f.opcode, f.data)) else Continue;
    }

    method Handle(control: bool, f: Frame) returns (outcome: Outcome)
      requires IsOpcode(f.opcode)
      modifies this, contFrame
      ensures OnFrame(contFrame.s, control, old(Assembled()), f) ==
              Reaction(Assembled(), OnFrame(contFrame.s, control, old(Assembled()), f).sent, outcome)
      ensures sent == old(sent) + OnFrame(contFrame.s, control, old(Assembled()), f).sent
      ensures connected == (old(connected) && f.opcode != OPCODE_CLOSE)
    {
      if IsData(f) {
        outcome := HandleData(f);
      } else {
        outcome := HandleControl(control, f);
      }
    }

    /** One round of the loop below. */
    method ReceiveOne(control: bool) returns (round: Round)
      requires Valid()
      modifies this, contFrame, frameBuffer, frameBuffer.socket
      ensures Valid() && old(sent) <= sent
      ensures frameBuffer.socket.Log(old(frameBuffer.socket.raised), RaisedIn(round))
      ensures Explained(contFrame.s, control, frameBuffer.order, old(Assembled()), old(Input()),
                        sent[|old(sent)|..], Assembled(), Input(), round)
      ensures round == Again ==> |Input()| < |old(Input())|
    {
      ghost var a, input := Assembled(), Input();
      var received := frameBuffer.RecvFrame();
      if received.Raised? {
        ReceivesOnNothing(contFrame.s, control, frameBuffer.order, a, input);
        return Ended(SocketRaised(received.reason));
      }
      ParseConsumes(input, frameBuffer.order, contFrame.s.skipUtf8);
      if received.Invalid? {
        return Ended(Threw(ProtocolException));
      }
      var f := received.frame;
      ParsedIsValid(input, frameBuffer.order, contFrame.s.skipUtf8);
      ghost var r := OnFrame(contFrame.s, control, a, f);
      ReceiveStep(contFrame.s, control, frameBuffer.order, a, input, f, r, Input());
      var outcome := Handle(control, f);
      assert sent[|old(sent)|..] == r.sent;
      round := match outcome
        case Return(message) => Ended(Returned(message))
        case Throw(error) => Ended(Threw(error))
        case Continue => Again;
    }

    /** The next message.  It is the one the whole input gives, with the same answers sent on
        the way; after an exception of the socket, the rest of the input still gives it. */
    method RecvDataFrame(control: bool) returns (ending: Ending)
      requires Valid()
      modifies this, contFrame, frameBuffer, frameBuffer.socket
      ensures Valid() && old(sent) <= sent
      ensures frameBuffer.socket.Log(old(frameBuffer.socket.raised), RaisedIn(Ended(ending)))
      ensures Explained(contFrame.s, control, frameBuffer.order, old(Assembled()), old(Input()),
                        sent[|old(sent)|..], Assembled(), Input(), Ended(ending))
    {
      ghost var s, order, a, input, before := contFrame.s, frameBuffer.order, Assembled(), Input(), sent;
      ReceivesOnNothing(s, control, order, a, input);
      while true
        invariant Valid() && before <= sent
        invariant frameBuffer.socket.raised == old(frameBuffer.socket.raised)
        invariant ReceivesOn(s, control, order, a, input, sent[|before|..], Assembled(), Input())
        decreases |Input()|
      {
        ghost var a', input', sent' := Assembled(), Input(), sent;
        var round := ReceiveOne(control);
        ExplainedFurther(s, control, order, a, input, sent'[|before|..], a', input',
                         sent[|sent'|..], Assembled(), Input(), round);
        SuffixGrows(before, sent', sent);
        if round.Ended? {
          return round.ending;
        }
      }
    }
  }
}
