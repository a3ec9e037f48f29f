/**
 The resumable reader of WebSocket frames.

 A frame is read in stages, header, length, mask and payload, from a socket that hands over
 any non-empty part of what was asked for, or raises.  After an exception the next call picks
 the frame up at the stage it was left in.
 */
module FrameBuffer {
  import opened Wrappers
  import opened ByteStrings
  import opened Numerals
  import opened XorMask
  import opened WebSocketFrames

  datatype RecvError = Timeout | ConnectionClosed

  function ErrorOf<T>(r: Result<T, RecvError>): Option<RecvError> {
    if r.Err? then Some(r.error) else None
  }

  /** The connection: `stream` is what the peer sends from here on, `raised` the exceptions so
      far. */
  class Socket {
    var stream: Bytes
    ghost var raised: seq<RecvError>

    constructor (bytes: Bytes)
      ensures stream == bytes && raised == []
    {
      stream := bytes;
      raised := [];
    }

    ghost predicate Log(before: seq<RecvError>, raise: Option<RecvError>)
      reads this
    {
      if raise == None then raised == before else raised == before + [raise.value]
    }

    /** The socket decides how much it hands over, and when to raise. */
    method Recv(bufsize: nat) returns (r: Result<Bytes, RecvError>)
      requires bufsize > 0
      modifies this
      ensures r.Ok? ==> 0 < |r.value| <= bufsize && old(stream) == r.value + stream
      ensures r.Err? ==> stream == old(stream)
      ensures Log(old(raised), ErrorOf(r))
    {
      var error: RecvError := *;
      var failing: bool := *;
      if stream == [] || failing {
        raised := raised + [error];
        return Err(error);
      }
      var n: nat :| 0 < n <= bufsize && n <= |stream|;
      r := Ok(stream[..n]);
      stream := stream[n..];
    }
  }

  /** What the stages done so far know of the frame, against the bytes they have read. */
  ghost predicate Stages(read: Bytes, header: Option<Header>, length: Option<nat>, mask: Option<Bytes>) {
    match header
    case None => read == [] && length == None && mask == None
    case Some(h) =>
      var n1 := 2 + ExtensionSize(h);
      && 2 <= |read| && h == HeaderOf(read[0], read[1])
      && match length
         case None => |read| == 2 && mask == None
         case Some(n) =>
           && n1 <= |read| && n == PayloadLength(h, read[2..n1])
           && match mask
              case None => |read| == n1
              case Some(key) => |read| == n1 + KeySize(h) && key == read[n1..]
  }

  datatype Received =
    | Got(frame: Frame)
    | Invalid(error: ProtocolError)
    | Raised(reason: RecvError)

  /** How the parser of a whole input reports what a call returned. */
  function ParsedAs(r: Received): Result<Frame, ProtocolError>
    requires !r.Raised?
  {
    if r.Got? then Ok(r.frame) else Err(r.error)
  }

  /** A frame that is not valid is replaced by the exception. */
  method Validated(frame: Frame, skipUtf8: bool) returns (r: Received)
    ensures !r.Raised? && ParsedAs(r) == Checked(frame, skipUtf8)
  {
    var raised := ValidateFrame(frame, skipUtf8);
    r := if raised == None then Got(frame) else Invalid(ProtocolError);
  }

  lemma LengthStage(read: Bytes, h: Header, extension: Bytes, next: Bytes)
    requires Stages(read, Some(h), None, None)
    requires |extension| == ExtensionSize(h) && next == read + extension
    ensures Stages(next, Some(h), Some(PayloadLength(h, extension)), None)
  {
    assert next[2..2 + |extension|] == extension;
  }

  lemma MaskStage(read: Bytes, h: Header, n: nat, key: Bytes, next: Bytes)
    requires Stages(read, Some(h), Some(n), None)
    requires |key| == KeySize(h) && next == read + key
    ensures Stages(next, Some(h), Some(n), Some(key))
  {
    var n1 := |read|;
    assert next[n1..] == key;
    assert next[2..n1] == read[2..n1];
  }

  /** Bytes read while in one stage go through the parser as part of the same input. */
  lemma StagesParse(read: Bytes, h: Header, n: nat, key: Bytes, payload: Bytes, rest: Bytes,
                    input: Bytes, order: ByteOrder, skipUtf8: bool)
    requires Stages(read, Some(h), Some(n), Some(key)) && |payload| == n
    requires input == read + (payload + rest)
    ensures Parse(input, order, skipUtf8) ==
            Complete(Checked(FrameOf(h, key, payload, order), skipUtf8), rest)
  {
    var n1 := 2 + ExtensionSize(h);
    assert read == read[..2] + read[2..n1] + key;
    assert input == read[..2] + read[2..n1] + key + payload + rest;
    ParsePieces(h, read[..2], read[2..n1], key, payload, rest, input, order, skipUtf8);
  }

  lemma ParseStreamStep(input: Bytes, frame: Result<Frame, ProtocolError>, rest: Bytes,
                        order: ByteOrder, skipUtf8: bool)
    requires Parse(input, order, skipUtf8) == Complete(frame, rest)
    ensures ParseStream(input, order, skipUtf8).0 == [frame] + ParseStream(rest, order, skipUtf8).0
    ensures ParseStream(input, order, skipUtf8).1 == ParseStream(rest, order, skipUtf8).1
  {
  }

  /** One parse of `input` gives `frames` and then whatever a parse of `rest` gives. */
  ghost predicate ParsesOnFrom(input: Bytes, frames: seq<Result<Frame, ProtocolError>>, rest: Bytes,
                               order: ByteOrder, skipUtf8: bool)
  {
    && ParseStream(input, order, skipUtf8).0 == frames + ParseStream(rest, order, skipUtf8).0
    && ParseStream(input, order, skipUtf8).1 == ParseStream(rest, order, skipUtf8).1
  }

  lemma ParsesOnFurther(input: Bytes, frames: seq<Result<Frame, ProtocolError>>, middle: Bytes,
                        frame: Result<Frame, ProtocolError>, rest: Bytes, order: ByteOrder, skipUtf8: bool)
    requires ParsesOnFrom(input, frames, middle, order, skipUtf8)
    requires Parse(middle, order, skipUtf8) == Complete(frame, rest)
    ensures ParsesOnFrom(input, frames + [frame], rest, order, skipUtf8)
  {
    ParseStreamStep(middle, frame, rest, order, skipUtf8);
    Reassociate(frames, [frame], ParseStream(rest, order, skipUtf8).0);
  }

  class FrameBuffer {
    const socket: Socket
    const order: ByteOrder
    const skipUtf8: bool
    var recvBuffer: seq<Bytes>
    var header: Option<Header>
    var length: Option<nat>
    var maskValue: Option<Bytes>
    ghost var read: Bytes // the bytes of this frame the finished stages took

    constructor (socket: Socket, order: ByteOrder, skipUtf8: bool)
      ensures this.socket == socket && this.order == order && this.skipUtf8 == skipUtf8
      ensures Valid() && Input() == socket.stream
    {
      this.socket, this.order, this.skipUtf8 := socket, order, skipUtf8;
      recvBuffer := [];
      header, length, maskValue, read := None, None, None, [];
      new;
      assert Input() == socket.stream;
    }

    ghost predicate Valid()
      reads this
    {
      Stages(read, header, length, maskValue)
    }

    /** Received or still to come, and not yet taken by a stage. */
    ghost function Pending(): Bytes
      reads this, socket
    {
      Flatten(recvBuffer) + socket.stream
    }

    /** The input from the first byte of the frame being read. */
    ghost function Input(): Bytes
      reads this, socket
    {
      read + Pending()
    }

    method Clear()
      modifies this`header, this`length, this`maskValue, this`read
      ensures header == None && length == None && maskValue == None && read == []
    {
      header, length, maskValue, read := None, None, None, [];
    }

    /** Exactly `bufsize` bytes, or the socket's exception with every byte so far kept. */
    method RecvStrict(bufsize: nat) returns (r: Result<Bytes, RecvError>)
      modifies this`recvBuffer, socket
      ensures r.Ok? ==> |r.value| == bufsize && old(Pending()) == r.value + Pending()
      ensures r.Err? ==> Pending() == old(Pending())
      ensures socket.Log(old(socket.raised), ErrorOf(r))
    {
      var shortage: int := bufsize - |Flatten(recvBuffer)|;
      while shortage > 0
        invariant shortage == bufsize - |Flatten(recvBuffer)|
        invariant Pending() == old(Pending())
        invariant socket.raised == old(socket.raised)
      {
        ghost var before, buffered := socket.stream, Flatten(recvBuffer);
        var piece := socket.Recv(if shortage < 16384 then shortage else 16384);
        if piece.Err? {
          return Err(piece.error);
        }
        FlattenSnoc(recvBuffer, piece.value);
        assert buffered + before == (buffered + piece.value) + socket.stream;
        recvBuffer := recvBuffer + [piece.value];
        shortage := shortage - |piece.value|;
      }
      var unified := Flatten(recvBuffer);
      if shortage == 0 {
        recvBuffer := [];
        r := Ok(unified);
        assert Pending() == socket.stream;
      } else {
        recvBuffer := [unified[bufsize..]];
        r := Ok(unified[..bufsize]);
        assert Flatten(recvBuffer) == unified[bufsize..] + Flatten(recvBuffer[1..]) == unified[bufsize..];
        assert unified == unified[..bufsize] + unified[bufsize..];
      }
    }

    method RecvHeader() returns (raised: Option<RecvError>)
      requires Valid() && header == None
      modifies this`recvBuffer, this`header, this`read, socket
      ensures Valid() && Input() == old(Input())
      ensures socket.Log(old(socket.raised), raised)
      ensures raised == None ==> header.Some?
    {
      var r := RecvStrict(2);
      if r.Err? {
        return Some(r.error);
      }
      header := Some(HeaderOf(r.value[0], r.value[1]));
      read := r.value;
      raised := None;
    }

    method RecvLength() returns (raised: Option<RecvError>)
      requires Valid() && header.Some? && length == None
      modifies this`recvBuffer, this`length, this`read, socket
      ensures Valid() && Input() == old(Input())
      ensures socket.Log(old(socket.raised), raised)
      ensures raised == None ==> length.Some?
    {
      var h := header.value;
      if ExtensionSize(h) == 0 {
        LengthStage(read, h, [], read);
        length := Some(h.lengthBits);
        return None;
      }
      var r := RecvStrict(ExtensionSize(h));
      if r.Err? {
        return Some(r.error);
      }
      LengthStage(read, h, r.value, read + r.value);
      Reassociate(read, r.value, Pending());
      length := Some(FromBytes(r.value));
      read := read + r.value;
      raised := None;
    }

    method RecvMask() returns (raised: Option<RecvError>)
      requires Valid() && header.Some? && length.Some? && maskValue == None
      modifies this`recvBuffer, this`maskValue, this`read, socket
      ensures Valid() && Input() == old(Input())
      ensures socket.Log(old(socket.raised), raised)
      ensures raised == None ==> maskValue.Some?
    {
      var h := header.value;
      if h.hasMask == 0 {
        MaskStage(read, h, length.value, [], read);
        maskValue := Some([]);
        return None;
      }
      var r := RecvStrict(4);
      if r.Err? {
        return Some(r.error);
      }
      MaskStage(read, h, length.value, r.value, read + r.value);
      Reassociate(read, r.value, Pending());
      maskValue := Some(r.value);
      read := read + r.value;
      raised := None;
    }

    /** The payload, once the other stages are done; the buffer is then ready for the next
        frame, before the frame is checked. */
    method RecvPayload() returns (r: Received)
      requires Valid() && header.Some? && length.Some? && maskValue.Some?
      modifies this, socket
      ensures Valid()
      ensures socket.Log(old(socket.raised), if r.Raised? then Some(r.reason) else None)
      ensures r.Raised? ==> Input() == old(Input())
      ensures !r.Raised? ==> Parse(old(Input()), order, skipUtf8) == Complete(ParsedAs(r), Input())
    {
      var payload := RecvStrict(length.value);
      if payload.Err? {
        return Raised(payload.error);
      }
      var h, n, key := header.value, length.value, maskValue.value;
      StagesParse(read, h, n, key, payload.value, Pending(), old(Input()), order, skipUtf8);
      var frame := FrameOf(h, key, payload.value, order);
      Clear();
      assert Input() == Pending();
      r := Validated(frame, skipUtf8);
    }

    /** The next frame.  Whatever the socket did before, the frame is the one a parse of the
        whole input gives, and exactly its bytes are gone; it raises just when the socket
        does, and then no byte is gone. */
    method RecvFrame() returns (r: Received)
      requires Valid()
      modifies this, socket
      ensures Valid()
      ensures socket.Log(old(socket.raised), if r.Raised? then Some(r.reason) else None)
      ensures r.Raised? ==> Input() == old(Input())
      ensures !r.Raised? ==> Parse(old(Input()), order, skipUtf8) == Complete(ParsedAs(r), Input())
    {
      if header == None {
        var raised := RecvHeader();
        if raised.Some? {
          return Raised(raised.value);
        }
      }
      if length == None {
        var raised := RecvLength();
        if raised.Some? {
          return Raised(raised.value);
        }
      }
      if maskValue == None {
        var raised := RecvMask();
        if raised.Some? {
          return Raised(raised.value);
        }
      }
      r := RecvPayload();
    }

    /** A caller that calls again and again, over any timeouts: every call the socket let
        through gave a frame, the frames are those of one parse of the whole input, each once
        and in order, and what is not yet read parses to the others. */
    method RecvRepeatedly(calls: nat) returns (frames: seq<Result<Frame, ProtocolError>>)
      requires Valid()
      modifies this, socket
      ensures Valid()
      ensures ParsesOnFrom(old(Input()), frames, Input(), order, skipUtf8)
      ensures |frames| + |socket.raised| == |old(socket.raised)| + calls
    {
      frames := [];
      for i := 0 to calls
        invariant Valid()
        invariant ParsesOnFrom(old(Input()), frames, Input(), order, skipUtf8)
        invariant |frames| + |socket.raised| == |old(socket.raised)| + i
      {
        ghost var input := Input();
        var r := RecvFrame();
        if !r.Raised? {
          ParsesOnFurther(old(Input()), frames, input, ParsedAs(r), Input(), order, skipUtf8);
          frames := frames + [ParsedAs(r)];
        }
      }
    }
  }
}
