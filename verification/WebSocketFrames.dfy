/**
 WebSocket frames (section 5.2 of RFC 6455): the printer, the rules a received frame must
 meet, and a parser of a whole input in one go, which the resumable one of FrameBuffer is
 compared with.
 */
module WebSocketFrames {
  import opened Wrappers
  import opened ByteStrings
  import opened Numerals
  import opened XorMask
  import opened Utf8

  const OPCODE_CONT := 0x0
  const OPCODE_TEXT := 0x1
  const OPCODE_BINARY := 0x2
  const OPCODE_CLOSE := 0x8
  const OPCODE_PING := 0x9
  const OPCODE_PONG := 0xA

  const LENGTH_7 := 0x7E
  const LENGTH_16 := 0x1_0000
  const LENGTH_63 := 0x8000_0000_0000_0000

  datatype Frame = Frame(fin: int, rsv1: int, rsv2: int, rsv3: int, opcode: int, mask: int, data: Bytes)

  predicate IsOpcode(opcode: int) {
    opcode == OPCODE_CONT || opcode == OPCODE_TEXT || opcode == OPCODE_BINARY
    || opcode == OPCODE_CLOSE || opcode == OPCODE_PING || opcode == OPCODE_PONG
  }

  // ----- what a received frame must meet

  predicate IsCloseStatus(code: int) {
    1000 <= code <= 1003 || 1007 <= code <= 1014 || 3000 <= code < 5000
  }

  /** Whether `validate` lets the frame through; it raises a protocol exception otherwise. */
  predicate IsValid(f: Frame, skipUtf8: bool) {
    && f.rsv1 == 0 && f.rsv2 == 0 && f.rsv3 == 0
    && IsOpcode(f.opcode)
    && (f.opcode == OPCODE_PING ==> f.fin != 0)
    && (f.opcode == OPCODE_CLOSE && f.data != [] ==>
          && 2 <= |f.data| < 126
          && (|f.data| > 2 && !skipUtf8 ==> Validates(f.data[2..]))
          && IsCloseStatus(FromBytes(f.data[..2])))
  }

  datatype ProtocolError = ProtocolError

  function Checked(f: Frame, skipUtf8: bool): Result<Frame, ProtocolError> {
    if IsValid(f, skipUtf8) then Ok(f) else Err(ProtocolError)
  }

  /** `validate`, branch by branch. */
  method ValidateFrame(f: Frame, skipUtf8: bool) returns (raised: Option<ProtocolError>)
    ensures raised == None <==> IsValid(f, skipUtf8)
  {
    if f.rsv1 != 0 || f.rsv2 != 0 || f.rsv3 != 0 {
      return Some(ProtocolError);
    }
    if !IsOpcode(f.opcode) {
      return Some(ProtocolError);
    }
    if f.opcode == OPCODE_PING && f.fin == 0 {
      return Some(ProtocolError);
    }
    if f.opcode == OPCODE_CLOSE {
      var length := |f.data|;
      if length == 0 {
        return None;
      }
      if length == 1 || length >= 126 {
        return Some(ProtocolError);
      }
      if length > 2 && !skipUtf8 {
        var text := Validate(f.data[2..]);
        if !text {
          return Some(ProtocolError);
        }
      }
      if !IsCloseStatus(FromBytes(f.data[..2])) {
        return Some(ProtocolError);
      }
    }
    raised := None;
  }

  // ----- the printer

  predicate IsBit(b: int) {
    b == 0 || b == 1
  }

  function FirstHeaderByte(f: Frame): byte
    requires IsBit(f.fin) && IsBit(f.rsv1) && IsBit(f.rsv2) && IsBit(f.rsv3) && IsOpcode(f.opcode)
  {
    128 * f.fin + 64 * f.rsv1 + 32 * f.rsv2 + 16 * f.rsv3 + f.opcode
  }

  /** The mask bit, the length and its extension. */
  function LengthField(mask: int, length: nat): Bytes
    requires IsBit(mask) && length < LENGTH_63
  {
    if length < LENGTH_7 then [128 * mask + length]
    else if length < LENGTH_16 then [128 * mask + 0x7E] + ToBytes(length, 2)
    else [128 * mask + 0x7F] + ToBytes(length, 8)
  }

  /** The frame on the wire.  A mask value that is not a bit does not fit its byte. */
  function Format(f: Frame, key: Bytes, order: ByteOrder): Result<Bytes, ArgumentError>
    requires |key| == 4
  {
    if !IsBit(f.fin) || !IsBit(f.rsv1) || !IsBit(f.rsv2) || !IsBit(f.rsv3) then Err(ValueError)
    else if !IsOpcode(f.opcode) || |f.data| >= LENGTH_63 || !IsBit(f.mask) then Err(ValueError)
    else
      var header := [FirstHeaderByte(f)] + LengthField(f.mask, |f.data|);
      Ok(header + if f.mask == 0 then f.data else key + Mask(key, f.data, order))
  }

  // ----- one parse of a whole input

  datatype Header = Header(fin: int, rsv1: int, rsv2: int, rsv3: int, opcode: int, hasMask: int, lengthBits: nat)

  function HeaderOf(b1: byte, b2: byte): Header {
    Header(b1 / 128 % 2, b1 / 64 % 2, b1 / 32 % 2, b1 / 16 % 2, b1 % 16, b2 / 128 % 2, b2 % 128)
  }

  /** How many bytes the length takes after the header. */
  function ExtensionSize(h: Header): nat {
    if h.lengthBits == 0x7E then 2 else if h.lengthBits == 0x7F then 8 else 0
  }

  function PayloadLength(h: Header, extension: Bytes): nat {
    if ExtensionSize(h) == 0 then h.lengthBits else FromBytes(extension)
  }

  function KeySize(h: Header): nat {
    if h.hasMask != 0 then 4 else 0
  }

  function FrameOf(h: Header, key: Bytes, payload: Bytes, order: ByteOrder): Frame
    requires |key| == KeySize(h)
  {
    Frame(h.fin, h.rsv1, h.rsv2, h.rsv3, h.opcode, h.hasMask,
          if h.hasMask != 0 then Mask(key, payload, order) else payload)
  }

  datatype Parsed =
    | Incomplete
    | Complete(frame: Result<Frame, ProtocolError>, rest: Bytes)

  function Parse(input: Bytes, order: ByteOrder, skipUtf8: bool): Parsed {
    if |input| < 2 then Incomplete
    else
      var h := HeaderOf(input[0], input[1]);
      var n1 := 2 + ExtensionSize(h);
      if |input| < n1 then Incomplete
      else
        var n2 := n1 + KeySize(h);
        var n3 := n2 + PayloadLength(h, input[2..n1]);
        if |input| < n3 then Incomplete
        else Complete(Checked(FrameOf(h, input[n1..n2], input[n2..n3], order), skipUtf8), input[n3..])
  }

  lemma ParseConsumes(input: Bytes, order: ByteOrder, skipUtf8: bool)
    ensures var p := Parse(input, order, skipUtf8); p.Complete? ==> |p.rest| + 2 <= |input|
  {
  }

  /** Every complete frame of the input, in order, and what is left. */
  function ParseStream(input: Bytes, order: ByteOrder, skipUtf8: bool): (seq<Result<Frame, ProtocolError>>, Bytes)
    decreases |input|
  {
    match Parse(input, order, skipUtf8)
    case Incomplete => ([], input)
    case Complete(frame, rest) =>
      ParseConsumes(input, order, skipUtf8);
      var (more, left) := ParseStream(rest, order, skipUtf8);
      ([frame] + more, left)
  }

  // ----- the printer and the parser undo each other

  lemma FirstByteReadsBack(fin: int, rsv1: int, rsv2: int, rsv3: int, opcode: int, b: int)
    requires IsBit(fin) && IsBit(rsv1) && IsBit(rsv2) && IsBit(rsv3) && 0 <= opcode < 16
    requires b == 128 * fin + 64 * rsv1 + 32 * rsv2 + 16 * rsv3 + opcode
    ensures b / 128 % 2 == fin && b / 64 % 2 == rsv1 && b / 32 % 2 == rsv2
    ensures b / 16 % 2 == rsv3 && b % 16 == opcode
  {
    assert b / 16 == 8 * fin + 4 * rsv1 + 2 * rsv2 + rsv3;
    assert b / 32 == 4 * fin + 2 * rsv1 + rsv2;
    assert b / 64 == 2 * fin + rsv1;
    assert b / 128 == fin;
  }

  lemma HeaderReadsBack(f: Frame, low: nat, b2: byte)
    requires IsBit(f.fin) && IsBit(f.rsv1) && IsBit(f.rsv2) && IsBit(f.rsv3) && IsOpcode(f.opcode)
    requires IsBit(f.mask) && low < 128 && b2 == 128 * f.mask + low
    ensures HeaderOf(FirstHeaderByte(f), b2) ==
            Header(f.fin, f.rsv1, f.rsv2, f.rsv3, f.opcode, f.mask, low)
  {
    FirstByteReadsBack(f.fin, f.rsv1, f.rsv2, f.rsv3, f.opcode, FirstHeaderByte(f));
  }

  lemma SecondByteReadsBack(mask: int, low: int, b: int)
    requires IsBit(mask) && 0 <= low < 128 && b == 128 * mask + low
    ensures b / 128 % 2 == mask && b % 128 == low
  {
  }

  lemma PowersOf256()
    ensures Pow256(2) == LENGTH_16 && 2 * LENGTH_63 == Pow256(8)
  {
    assert Pow256(2) == 0x1_0000;
    assert Pow256(4) == 0x1_0000_0000;
    assert Pow256(8) == 0x1_0000_0000_0000_0000;
  }

  lemma ExtensionReadsBack(mask: int, length: nat, field: Bytes)
    requires IsBit(mask) && length < LENGTH_63 && field == LengthField(mask, length)
    ensures field != []
    ensures LENGTH_7 <= length ==> FromBytes(field[1..]) == length
    ensures |field| == if length < LENGTH_7 then 1 else if length < LENGTH_16 then 3 else 9
  {
    PowersOf256();
    if length < LENGTH_7 {
    } else if length < LENGTH_16 {
      FromToBytes(length, 2);
      assert field[1..] == ToBytes(length, 2);
    } else {
      FromToBytes(length, 8);
      assert field[1..] == ToBytes(length, 8);
    }
  }

  lemma LengthFieldReadsBack(mask: int, length: nat)
    requires IsBit(mask) && length < LENGTH_63
    ensures var field := LengthField(mask, length);
      var h := HeaderOf(0, field[0]);
      && |field| == 1 + ExtensionSize(h)
      && h.hasMask == mask && field[0] == 128 * mask + h.lengthBits
      && PayloadLength(h, field[1..]) == length
  {
    var field := LengthField(mask, length);
    ExtensionReadsBack(mask, length, field);
    var low := if length < LENGTH_7 then length else if length < LENGTH_16 then 0x7E else 0x7F;
    assert field[0] == 128 * mask + low;
    SecondByteReadsBack(mask, low, field[0]);
  }

  /** No shorter form of the length field holds the length. */
  lemma LengthFieldIsMinimal(mask: int, length: nat, other: Bytes)
    requires IsBit(mask) && length < LENGTH_63
    requires other != [] && |other| == 1 + ExtensionSize(HeaderOf(0, other[0]))
    requires PayloadLength(HeaderOf(0, other[0]), other[1..]) == length
    ensures |LengthField(mask, length)| <= |other|
  {
    if |other| == 3 {
      ToFromBytes(other[1..]);
      assert Pow256(2) == 0x1_0000;
    }
  }

  lemma Slices(a: Bytes, b: Bytes, c: Bytes, d: Bytes, e: Bytes)
    ensures var s := a + b + c + d + e;
      && s[..|a|] == a
      && s[|a|..|a| + |b|] == b
      && s[|a| + |b|..|a| + |b| + |c|] == c
      && s[|a| + |b| + |c|..|a| + |b| + |c| + |d|] == d
      && s[|a| + |b| + |c| + |d|..] == e
  {
  }

  /** The pieces of an input the parser cuts it into. */
  lemma ParsePieces(h: Header, start: Bytes, extension: Bytes, key: Bytes, payload: Bytes, rest: Bytes,
                    input: Bytes, order: ByteOrder, skipUtf8: bool)
    requires |start| == 2 && h == HeaderOf(start[0], start[1])
    requires |extension| == ExtensionSize(h) && |key| == KeySize(h)
    requires |payload| == PayloadLength(h, extension)
    requires input == start + extension + key + payload + rest
    ensures Parse(input, order, skipUtf8) ==
            Complete(Checked(FrameOf(h, key, payload, order), skipUtf8), rest)
  {
    Slices(start, extension, key, payload, rest);
    assert input[0] == input[..2][0] && input[1] == input[..2][1];
  }

  /** What the printer writes, cut where the parser cuts it. */
  lemma FormatPieces(f: Frame, key: Bytes, order: ByteOrder, rest: Bytes, field: Bytes, sent: Bytes, payload: Bytes)
    requires |key| == 4 && Format(f, key, order).Ok?
    requires field == LengthField(f.mask, |f.data|) && field != []
    requires sent == if f.mask == 0 then [] else key
    requires payload == if f.mask == 0 then f.data else Mask(key, f.data, order)
    ensures Format(f, key, order).value + rest ==
            [FirstHeaderByte(f), field[0]] + field[1..] + sent + payload + rest
  {
    assert [FirstHeaderByte(f)] + field == [FirstHeaderByte(f), field[0]] + field[1..];
    assert Format(f, key, order).value == [FirstHeaderByte(f)] + field + sent + payload;
  }

  /** Reading with the same key restores the payload. */
  lemma FrameReadsBack(f: Frame, h: Header, key: Bytes, payload: Bytes, order: ByteOrder, other: ByteOrder)
    requires |key| == 4 && IsBit(f.mask)
    requires h == Header(f.fin, f.rsv1, f.rsv2, f.rsv3, f.opcode, f.mask, h.lengthBits)
    requires payload == if f.mask == 0 then f.data else Mask(key, f.data, order)
    ensures |payload| == |f.data|
    ensures FrameOf(h, if f.mask == 0 then [] else key, payload, other) == f
  {
    MaskIsBytewise(key, f.data, order);
    MaskUndoesItself(key, f.data, order, other);
  }

  /** The wire has one bit for each flag and 63 for the length (section 5.2 of RFC 6455), and six
      opcodes are in use (its section 11.8). */
  predicate HasWireForm(f: Frame) {
    && (forall flag :: flag in [f.fin, f.rsv1, f.rsv2, f.rsv3, f.mask] ==> 0 <= flag < 2)
    && f.opcode in {0, 1, 2, 8, 9, 10}
    && 2 * |f.data| < Pow256(8)
  }

  /** Every frame that has a form on the wire is printed, and no other; then anything that
      follows, it parses to the same flags, opcode, mask bit and payload, and exactly its own
      bytes are consumed, whatever the byte order of the machine at either end. */
  lemma {:induction false} FormatReadsBack(f: Frame, key: Bytes, rest: Bytes,
                                           order: ByteOrder, other: ByteOrder, skipUtf8: bool)
    requires |key| == 4
    ensures Format(f, key, order).Ok? <==> HasWireForm(f)
    ensures HasWireForm(f) ==>
      Parse(Format(f, key, order).value + rest, other, skipUtf8) == Complete(Checked(f, skipUtf8), rest)
  {
    FormsArePrinted(f, key, order);
    if HasWireForm(f) {
      PrintedReadsBack(f, key, rest, order, other, skipUtf8);
    }
  }

  lemma FormsArePrinted(f: Frame, key: Bytes, order: ByteOrder)
    requires |key| == 4
    ensures Format(f, key, order).Ok? <==> HasWireForm(f)
  {
    PowersOf256();
    var flags := [f.fin, f.rsv1, f.rsv2, f.rsv3, f.mask];
    assert flags[0] in flags && flags[1] in flags && flags[2] in flags && flags[3] in flags && flags[4] in flags;
  }

  lemma PrintedReadsBack(f: Frame, key: Bytes, rest: Bytes, order: ByteOrder, other: ByteOrder, skipUtf8: bool)
    requires |key| == 4 && Format(f, key, order).Ok?
    ensures Parse(Format(f, key, order).value + rest, other, skipUtf8) == Complete(Checked(f, skipUtf8), rest)
  {
    LengthFieldReadsBack(f.mask, |f.data|);
    var field := LengthField(f.mask, |f.data|);
    var low := HeaderOf(0, field[0]).lengthBits;
    HeaderReadsBack(f, low, field[0]);
    var h := Header(f.fin, f.rsv1, f.rsv2, f.rsv3, f.opcode, f.mask, low);
    var sent := if f.mask == 0 then [] else key;
    var payload := if f.mask == 0 then f.data else Mask(key, f.data, order);
    FrameReadsBack(f, h, key, payload, order, other);
    FormatPieces(f, key, order, rest, field, sent, payload);
    ParsePieces(h, [FirstHeaderByte(f), field[0]], field[1..], sent, payload, rest,
                Format(f, key, order).value + rest, other, skipUtf8);
  }

  /** How long the printed form is. */
  lemma PrintedSize(f: Frame, key: Bytes, order: ByteOrder)
    requires |key| == 4 && Format(f, key, order).Ok?
    ensures |Format(f, key, order).value| == 1 + |LengthField(f.mask, |f.data|)| + 4 * f.mask + |f.data|
  {
    MaskIsBytewise(key, f.data, order);
  }

  /** What a parsed frame took of the input. */
  lemma ParsedSize(input: Bytes, order: ByteOrder, skipUtf8: bool)
    requires var p := Parse(input, order, skipUtf8); p.Complete? && p.frame.Ok?
    ensures var p := Parse(input, order, skipUtf8);
      var f, h := p.frame.value, HeaderOf(input[0], input[1]);
      && 2 + ExtensionSize(h) <= |input| && f.mask == h.hasMask
      && |f.data| == PayloadLength(h, input[2..2 + ExtensionSize(h)])
      && |input| - |p.rest| == 2 + ExtensionSize(h) + 4 * f.mask + |f.data|
  {
    var h := HeaderOf(input[0], input[1]);
    var n1 := 2 + ExtensionSize(h);
    var n2 := n1 + KeySize(h);
    var n3 := n2 + PayloadLength(h, input[2..n1]);
    if h.hasMask != 0 {
      MaskIsBytewise(input[n1..n2], input[n2..n3], order);
    }
  }

  lemma ParsedFlags(b1: byte, b2: byte)
    ensures var h := HeaderOf(b1, b2);
      && 0 <= h.fin < 2 && 0 <= h.rsv1 < 2 && 0 <= h.rsv2 < 2 && 0 <= h.rsv3 < 2
      && 0 <= h.opcode < 16 && 0 <= h.hasMask < 2
      && HeaderOf(0, b2).hasMask == h.hasMask && HeaderOf(0, b2).lengthBits == h.lengthBits
  {
  }

  /** Every frame that was parsed and found valid can be printed again, with any key, if its
      length has 63 bits; the printed form parses to the same frame, and it is not longer than
      what the parser took for it. */
  lemma {:induction false} ParsedFramePrintsAgain(input: Bytes, key: Bytes, rest: Bytes,
                                                  order: ByteOrder, other: ByteOrder, skipUtf8: bool)
    requires |key| == 4
    requires var p := Parse(input, order, skipUtf8);
      p.Complete? && p.frame.Ok? && |p.frame.value.data| < LENGTH_63
    ensures var p := Parse(input, order, skipUtf8);
      var f := p.frame.value;
      && Format(f, key, other).Ok?
      && Parse(Format(f, key, other).value + rest, order, skipUtf8) == Complete(Ok(f), rest)
      && |Format(f, key, other).value| <= |input| - |p.rest|
  {
    var p := Parse(input, order, skipUtf8);
    var f := p.frame.value;
    ParsedFlags(input[0], input[1]);
    ParsedSize(input, order, skipUtf8);
    PrintedReadsBack(f, key, rest, other, order, skipUtf8);
    PrintedSize(f, key, other);
    var field := input[1..2 + ExtensionSize(HeaderOf(input[0], input[1]))];
    assert field[1..] == input[2..2 + ExtensionSize(HeaderOf(input[0], input[1]))];
    LengthFieldIsMinimal(f.mask, |f.data|, field);
  }

  // ----- the layout of the wire

  /** The length code and the extension that may stand for a length: any of the three forms that
      holds it, the shortest or not. */
  predicate IsLengthForm(code: int, extension: Bytes, length: nat) {
    || (0 <= code <= 125 && extension == [] && length == code)
    || (code == 126 && |extension| == 2 && length == FromBytes(extension))
    || (code == 127 && |extension| == 8 && length == FromBytes(extension))
  }

  predicate IsHeaderLayout(h: Header, start: Bytes) {
    && IsBit(h.fin) && IsBit(h.rsv1) && IsBit(h.rsv2) && IsBit(h.rsv3) && IsBit(h.hasMask)
    && 0 <= h.opcode < 16 && h.lengthBits < 128 && |start| == 2
    && start[0] as int == 128 * h.fin + 64 * h.rsv1 + 32 * h.rsv2 + 16 * h.rsv3 + h.opcode
    && start[1] as int == 128 * h.hasMask + h.lengthBits
  }

  lemma HeaderOfLayout(h: Header, start: Bytes)
    requires IsHeaderLayout(h, start)
    ensures HeaderOf(start[0], start[1]) == h
  {
    FirstByteReadsBack(h.fin, h.rsv1, h.rsv2, h.rsv3, h.opcode, start[0]);
    SecondByteReadsBack(h.hasMask, h.lengthBits, start[1]);
  }

  /** The octets of the payload, each combined with the octet of the key that is its turn. */
  predicate IsUnmasked(payload: Bytes, key: Bytes, data: Bytes) {
    && |data| == |payload|
    && (key == [] ==> data == payload)
    && (key != [] ==> |key| == 4 && forall i :: 0 <= i < |payload| ==> data[i] == XorByte(payload[i], key[i % 4]))
  }

  lemma UnmaskedData(h: Header, key: Bytes, payload: Bytes, data: Bytes, order: ByteOrder)
    requires |key| == KeySize(h) && IsUnmasked(payload, key, data)
    ensures FrameOf(h, key, payload, order) == Frame(h.fin, h.rsv1, h.rsv2, h.rsv3, h.opcode, h.hasMask, data)
  {
    if key != [] {
      MaskIsBytewise(key, payload, order);
      assert forall i :: 0 <= i < |data| ==> data[i] == BytewiseMask(key, payload)[i];
    }
  }

  /** Whatever is laid out on the wire as section 5.2 of RFC 6455 has it, with any opcode, in any of
      the forms of its length, is parsed to these flags, this opcode and the unmasked payload, and
      exactly its bytes are consumed; and any part of it that is cut short is not parsed yet. */
  lemma {:induction false} LayoutIsParsed(h: Header, start: Bytes, extension: Bytes, key: Bytes, payload: Bytes,
                                          data: Bytes, rest: Bytes, cut: nat, order: ByteOrder, skipUtf8: bool)
    requires IsHeaderLayout(h, start) && IsLengthForm(h.lengthBits, extension, |payload|)
    requires |key| == (if h.hasMask == 1 then 4 else 0) && IsUnmasked(payload, key, data)
    requires cut < |start + extension + key + payload|
    ensures var whole := start + extension + key + payload;
      && Parse(whole + rest, order, skipUtf8) ==
         Complete(Checked(Frame(h.fin, h.rsv1, h.rsv2, h.rsv3, h.opcode, h.hasMask, data), skipUtf8), rest)
      && Parse(whole[..cut], order, skipUtf8) == Incomplete
  {
    HeaderOfLayout(h, start);
    UnmaskedData(h, key, payload, data, order);
    ParsePieces(h, start, extension, key, payload, rest, start + extension + key + payload + rest, order, skipUtf8);
    CutIsIncomplete(h, start, extension, key, payload, start + extension + key + payload, cut, order, skipUtf8);
  }

  lemma CutIsIncomplete(h: Header, start: Bytes, extension: Bytes, key: Bytes, payload: Bytes, whole: Bytes,
                        cut: nat, order: ByteOrder, skipUtf8: bool)
    requires |start| == 2 && h == HeaderOf(start[0], start[1])
    requires |extension| == ExtensionSize(h) && |key| == KeySize(h)
    requires |payload| == PayloadLength(h, extension)
    requires whole == start + extension + key + payload && cut < |whole|
    ensures Parse(whole[..cut], order, skipUtf8) == Incomplete
  {
    var input, n1 := whole[..cut], 2 + ExtensionSize(h);
    if cut >= 2 {
      assert input[0] == start[0] && input[1] == start[1];
      if cut >= n1 {
        assert input[2..n1] == whole[2..n1] == extension;
      }
    }
  }
}
