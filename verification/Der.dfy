/**
 The DER encoder of the private certificate, and a reader of the basic encoding rules of
 ITU-T X.690 to compare it with.
 */
module Der {
  import opened Wrappers
  import opened ByteStrings
  import opened Numerals

  /** No byte string is longer than this (sys.maxsize). */
  const MAX_SIZE := 0x7FFF_FFFF_FFFF_FFFF

  // ----- the encoder

  function Length(length: nat): (b: Bytes)
    requires length <= MAX_SIZE
    ensures 1 <= |b| <= 9
  {
    if length < 128 then [length]
    else
      SizeHasFewDigits(length);
      var data := ToBytes(length, (BitLength(length) + 7) / 8);
      [0x80 + |data|] + data
  }

  lemma SizeHasFewDigits(length: nat)
    requires length <= MAX_SIZE
    ensures (BitLength(length) + 7) / 8 == DigitCount(length) <= 8
  {
    BytesForBits(length);
    assert Pow256(4) == 0x1_0000_0000;
    assert Pow256(8) == 0x1_0000_0000_0000_0000;
    FewDigits(length, 8);
  }

  function Encode(tag: byte, value: Bytes): Bytes
    requires |value| <= MAX_SIZE
  {
    [tag] + Length(|value|) + value
  }

  /** `value.lstrip(b"\0")` */
  function Strip(value: Bytes): (stripped: Bytes)
    ensures |stripped| <= |value|
  {
    if value != [] && value[0] == 0 then Strip(value[1..]) else value
  }

  function IntegerContent(value: Bytes): Bytes {
    var stripped := Strip(value);
    var digits := if stripped == [] then [0] else stripped;
    if digits[0] >= 0x80 then [0] + digits else digits
  }

  /** What an integer becomes before its content is worked out. */
  function NaturalBytes(n: nat): Bytes {
    var count := (BitLength(n) + 7) / 8;
    ToBytes(n, if count > 1 then count else 1)
  }

  predicate IntegerFits(n: nat) {
    |IntegerContent(NaturalBytes(n))| <= MAX_SIZE
  }

  function Integer(n: nat): Bytes
    requires IntegerFits(n)
  {
    Encode(0x02, IntegerContent(NaturalBytes(n)))
  }

  /** All base-128 digits of a number, each marked as followed by another one. */
  function Continued(n: nat): Bytes {
    if n == 0 then [] else Continued(n / 128) + [0x80 + n % 128]
  }

  /** One arc of an object identifier. */
  function Arc(n: nat): Bytes {
    Continued(n / 128) + [n % 128]
  }

  function Arcs(parts: seq<nat>): Bytes {
    if parts == [] then [] else Arc(parts[0]) + Arcs(parts[1..])
  }

  /** The content octets of an object identifier; the first two arcs share one byte. */
  function OidContent(parts: seq<nat>): Result<Bytes, ArgumentError> {
    if |parts| < 2 then Err(IndexError)
    else if 40 * parts[0] + parts[1] >= 256 then Err(ValueError)
    else Ok([40 * parts[0] + parts[1]] + Arcs(parts[2..]))
  }

  /** The nested loops that build the content octets. */
  method EncodeOid(parts: seq<nat>) returns (r: Result<Bytes, ArgumentError>)
    ensures r == OidContent(parts)
    ensures r == Err(IndexError) <==> |parts| < 2
    ensures r == Err(ValueError) <==> |parts| >= 2 && 40 * parts[0] + parts[1] > 255
  {
    if |parts| < 2 {
      return Err(IndexError);
    }
    if 40 * parts[0] + parts[1] >= 256 {
      return Err(ValueError);
    }
    var encoded: Bytes := [40 * parts[0] + parts[1]];
    for k := 2 to |parts|
      invariant encoded + Arcs(parts[k..]) == [40 * parts[0] + parts[1]] + Arcs(parts[2..])
    {
      var part := parts[k];
      var chunks: Bytes := [part % 128];
      part := part / 128;
      while part != 0
        invariant Arc(parts[k]) == Continued(part) + Reversed(chunks)
      {
        ContinuedTurn(part, chunks);
        chunks := chunks + [0x80 + part % 128];
        part := part / 128;
      }
      ArcsTurn(encoded, parts, k);
      encoded := encoded + Reversed(chunks);
    }
    assert encoded + Arcs(parts[|parts|..]) == encoded;
    return Ok(encoded);
  }

  lemma ContinuedTurn(part: nat, chunks: Bytes)
    requires part != 0
    ensures Continued(part) + Reversed(chunks) == Continued(part / 128) + Reversed(chunks + [0x80 + part % 128])
  {
    assert Reversed(chunks + [0x80 + part % 128]) == [0x80 + part % 128] + Reversed(chunks);
  }

  lemma ArcsTurn(encoded: Bytes, parts: seq<nat>, k: nat)
    requires k < |parts|
    ensures encoded + Arcs(parts[k..]) == (encoded + Arc(parts[k])) + Arcs(parts[k + 1..])
  {
    assert parts[k..][1..] == parts[k + 1..];
  }

  function Reversed(s: Bytes): Bytes {
    seq(|s|, i requires 0 <= i < |s| => s[|s| - 1 - i])
  }

  // ----- reading lengths and values (sections 8.1.2 and 8.1.3 of ITU-T X.690)

  /** A length, and the input after it.  The definite form only; leading zeros are read. */
  function ReadLength(input: Bytes): Option<(nat, Bytes)> {
    if input == [] then None
    else if input[0] < 0x80 then Some((input[0], input[1..]))
    else
      var count := input[0] - 0x80;
      if count == 0 || count == 127 || |input| < 1 + count then None
      else Some((FromBytes(input[1..1 + count]), input[1 + count..]))
  }

  datatype Tlv = Tlv(tag: byte, content: Bytes, rest: Bytes)

  /** A value, and the input after it.  Tags of one octet only. */
  function ReadTlv(input: Bytes): Option<Tlv> {
    if input == [] || input[0] % 32 == 31 then None
    else
      match ReadLength(input[1..])
      case None => None
      case Some((length, rest)) =>
        if |rest| < length then None else Some(Tlv(input[0], rest[..length], rest[length..]))
  }

  lemma LongFormReads(data: Bytes, rest: Bytes)
    requires 0 < |data| < 127
    ensures ReadLength([0x80 + |data|] + data + rest) == Some((FromBytes(data), rest))
  {
    var input := [0x80 + |data|] + data + rest;
    assert input[1..1 + |data|] == data;
    assert input[1 + |data|..] == rest;
  }

  lemma LongFormHoldsLength(length: nat) returns (data: Bytes)
    requires 128 <= length <= MAX_SIZE
    ensures 0 < |data| < 127 && Length(length) == [0x80 + |data|] + data
    ensures FromBytes(data) == length
  {
    SizeHasFewDigits(length);
    data := ToBytes(length, DigitCount(length));
    DigitsBound(length);
    FromToBytes(length, DigitCount(length));
  }

  lemma LengthReadsBack(length: nat, rest: Bytes)
    requires length <= MAX_SIZE
    ensures ReadLength(Length(length) + rest) == Some((length, rest))
  {
    if length < 128 {
      assert [length as byte] + rest == Length(length) + rest;
    } else {
      var data := LongFormHoldsLength(length);
      LongFormReads(data, rest);
    }
  }

  /** Section 10.1: no other octets that stand for this length are fewer. */
  lemma LengthIsMinimal(length: nat, other: Bytes)
    requires length <= MAX_SIZE
    requires ReadLength(other) == Some((length, []))
    ensures |Length(length)| <= |other|
  {
    if length >= 128 {
      SizeHasFewDigits(length);
      var digits := other[1..|other|];
      ToFromBytes(digits);
      FewDigits(length, |digits|);
    }
  }

  lemma EncodedReadsBack(tag: byte, value: Bytes, rest: Bytes)
    requires tag % 32 != 31 && |value| <= MAX_SIZE
    ensures ReadTlv(Encode(tag, value) + rest) == Some(Tlv(tag, value, rest))
  {
    var input := Encode(tag, value) + rest;
    assert input[1..] == Length(|value|) + (value + rest);
    LengthReadsBack(|value|, value + rest);
    assert (value + rest)[..|value|] == value && (value + rest)[|value|..] == rest;
  }

  // ----- integers (section 8.3)

  /** The two's complement value of the content octets. */
  function TwosComplement(content: Bytes): int {
    if content == [] then 0
    else FromBytes(content) - if content[0] >= 0x80 then Pow256(|content|) else 0
  }

  lemma {:induction false} LeadingDigit(b: Bytes)
    requires b != []
    ensures FromBytes(b) == b[0] * Pow256(|b| - 1) + FromBytes(b[1..])
    ensures FromBytes(b[1..]) < Pow256(|b| - 1)
  {
    ToFromBytes(b[1..]);
    if |b| == 1 {
    } else {
      var front := b[..|b| - 1];
      LeadingDigit(front);
      assert b[1..][..|b| - 2] == front[1..];
      assert Pow256(|b| - 1) == 256 * Pow256(|b| - 2);
      assert 256 * (b[0] * Pow256(|b| - 2)) == b[0] * Pow256(|b| - 1);
    }
  }

  lemma {:induction false} StripKeepsValue(b: Bytes)
    ensures FromBytes(Strip(b)) == FromBytes(b)
    ensures Strip(b) != [] ==> Strip(b)[0] != 0
  {
    if b == [] || b[0] != 0 {
    } else {
      LeadingDigit(b);
      StripKeepsValue(b[1..]);
    }
  }

  /** Unsigned big-endian bytes, with any leading zeros, keep their value. */
  lemma IntegerContentReadsBack(value: Bytes)
    ensures TwosComplement(IntegerContent(value)) == FromBytes(value)
  {
    StripKeepsValue(value);
    var content := IntegerContent(value);
    if content[0] == 0 {
      LeadingDigit(content);
      assert 0 * Pow256(|content| - 1) == 0;
      if |content| > 1 {
        assert content[1..] == Strip(value);
      }
    }
  }

  lemma ProductsAreOrdered(a: nat, b: nat, p: nat)
    requires a <= b
    ensures a * p <= b * p
  {
    assert (b - a) * p >= 0;
  }

  /** A non-negative number of k octets is below half of 256^k. */
  lemma ContentHoldsBelowHalf(content: Bytes)
    requires content != [] && TwosComplement(content) >= 0
    ensures TwosComplement(content) < 128 * Pow256(|content| - 1)
  {
    LeadingDigit(content);
    ToFromBytes(content);
    if content[0] < 0x80 {
      ProductsAreOrdered(content[0], 127, Pow256(|content| - 1));
    }
  }

  /** Section 8.3.2: no fewer octets hold the same number. */
  lemma IntegerContentIsMinimal(value: Bytes, other: Bytes)
    requires other != [] && TwosComplement(other) == FromBytes(value)
    ensures |IntegerContent(value)| <= |other|
  {
    StripKeepsValue(value);
    var stripped := Strip(value);
    ContentHoldsBelowHalf(other);
    if |IntegerContent(value)| > |other| {
      LeadingDigit(stripped);
      var p := Pow256(|stripped| - 1);
      if stripped[0] >= 0x80 {
        ProductsAreOrdered(128, stripped[0], p);
        Pow256Grows(|other| - 1, |stripped| - 1);
      } else {
        assert p == 256 * Pow256(|stripped| - 2);
        ProductsAreOrdered(1, stripped[0], p);
        Pow256Grows(|other| - 1, |stripped| - 2);
      }
    }
  }

  /** The encoding of every natural number reads back, and nothing after it is touched. */
  lemma IntegerReadsBack(n: nat, rest: Bytes)
    requires IntegerFits(n)
    ensures var read := ReadTlv(Integer(n) + rest);
      read.Some? && read.value.tag == 0x02 && TwosComplement(read.value.content) == n && read.value.rest == rest
  {
    NaturalBytesHoldTheNumber(n);
    IntegerContentReadsBack(NaturalBytes(n));
    EncodedReadsBack(0x02, IntegerContent(NaturalBytes(n)), rest);
  }

  lemma NaturalBytesHoldTheNumber(n: nat)
    ensures FromBytes(NaturalBytes(n)) == n
  {
    BytesForBits(n);
    DigitsBound(n);
    var count := if DigitCount(n) > 1 then DigitCount(n) else 1;
    Pow256Grows(DigitCount(n), count);
    FromToBytes(n, count);
  }

  // ----- object identifiers (section 8.19)

  /** The subidentifiers of the content octets; `partial` is what was read of the current one. */
  function ReadArcsFrom(content: Bytes, partial: Option<nat>): Option<seq<nat>> {
    if content == [] then if partial.None? then Some([]) else None
    else if partial.None? && content[0] == 0x80 then None
    else
      var high := if partial.Some? then partial.value else 0;
      if content[0] >= 0x80 then ReadArcsFrom(content[1..], Some(128 * high + content[0] - 0x80))
      else
        match ReadArcsFrom(content[1..], None)
        case None => None
        case Some(more) => Some([128 * high + content[0]] + more)
  }

  /** The first subidentifier stands for two arcs. */
  function ReadOid(content: Bytes): Option<seq<nat>> {
    match ReadArcsFrom(content, None)
    case None => None
    case Some(arcs) =>
      if arcs == [] then None
      else Some([FirstArc(arcs[0]), arcs[0] - 40 * FirstArc(arcs[0])] + arcs[1..])
  }

  function FirstArc(subidentifier: nat): (first: nat)
    ensures 40 * first <= subidentifier
  {
    if subidentifier < 80 then subidentifier / 40 else 2
  }

  lemma {:induction false} ContinuedReadsOn(n: nat, tail: Bytes)
    requires n > 0
    ensures Continued(n)[0] != 0x80
    ensures ReadArcsFrom(Continued(n) + tail, None) == ReadArcsFrom(tail, Some(n))
  {
    var last: byte := 0x80 + n % 128;
    if n < 128 {
      assert Continued(n / 128) == [];
      assert Continued(n) + tail == [last] + tail;
      assert ([last] + tail)[1..] == tail;
    } else {
      assert Continued(n) + tail == Continued(n / 128) + ([last] + tail);
      ContinuedReadsOn(n / 128, [last] + tail);
      assert ([last] + tail)[1..] == tail;
    }
  }

  lemma ArcReadsBack(n: nat, tail: Bytes)
    ensures ReadArcsFrom(Arc(n) + tail, None) ==
            match ReadArcsFrom(tail, None) case None => None case Some(more) => Some([n] + more)
  {
    var end: Bytes := [n % 128] + tail;
    assert end[1..] == tail;
    assert Arc(n) + tail == Continued(n / 128) + end;
    if n >= 128 {
      ContinuedReadsOn(n / 128, end);
    } else {
      assert Continued(n / 128) + end == end;
    }
  }

  lemma {:induction false} ArcsReadBack(parts: seq<nat>)
    ensures ReadArcsFrom(Arcs(parts), None) == Some(parts)
  {
    if parts == [] {
    } else {
      ArcsReadBack(parts[1..]);
      ArcReadsBack(parts[0], Arcs(parts[1..]));
      assert [parts[0]] + parts[1..] == parts;
    }
  }

  /** How many subidentifiers end in these octets. */
  function Endings(content: Bytes): nat {
    if content == [] then 0 else (if content[0] < 0x80 then 1 else 0) + Endings(content[1..])
  }

  lemma {:induction false} OneArcPerEnding(content: Bytes, partial: Option<nat>)
    ensures var arcs := ReadArcsFrom(content, partial); arcs.Some? ==> |arcs.value| == Endings(content)
    decreases |content|
  {
    if content == [] {
    } else {
      var high := if partial.Some? then partial.value else 0;
      OneArcPerEnding(content[1..], if content[0] >= 0x80 then Some(128 * high + content[0] - 0x80) else None);
    }
  }

  /** The arcs X.660 allows: 0, 1 or 2, and below 40 after 0 and 1. */
  predicate ValidOid(parts: seq<nat>) {
    |parts| >= 2 && parts[0] <= 2 && (parts[0] < 2 ==> parts[1] < 40)
  }

  lemma FirstArcOf(first: nat, second: nat)
    requires first <= 2 && (first < 2 ==> second < 40)
    ensures FirstArc(40 * first + second) == first
  {
  }

  lemma SmallFirstArcsReadBack(parts: seq<nat>)
    requires ValidOid(parts) && 40 * parts[0] + parts[1] < 128
    ensures ReadOid([40 * parts[0] + parts[1]] + Arcs(parts[2..])) == Some(parts)
  {
    var first: byte, more := 40 * parts[0] + parts[1], parts[2..];
    var content := [first] + Arcs(more);
    FirstArcOf(parts[0], parts[1]);
    assert content[1..] == Arcs(more);
    ArcsReadBack(more);
    assert ReadArcsFrom(content, None) == Some([first as nat] + more);
    assert ([first as nat] + more)[1..] == more;
    assert parts == [parts[0], parts[1]] + more;
  }

  /** A first byte with its high bit set swallows the next arc, so that one arc is missing. */
  lemma LargeFirstArcsAreMisread(parts: seq<nat>)
    requires ValidOid(parts) && 128 <= 40 * parts[0] + parts[1] < 256
    ensures ReadOid([40 * parts[0] + parts[1]] + Arcs(parts[2..])) != Some(parts)
  {
    var first: byte, more := 40 * parts[0] + parts[1], parts[2..];
    var content := [first] + Arcs(more);
    assert content[1..] == Arcs(more);
    ArcsReadBack(more);
    OneArcPerEnding(Arcs(more), None);
    OneArcPerEnding(content, None);
  }

  /** The encoder puts the first two arcs in one byte whatever their value, so what it writes
      reads back exactly when they fit one subidentifier octet.  It is an error for them not
      to fit one byte at all. */
  lemma OidReadsBackExactlyWhenFirstArcsAreSmall(parts: seq<nat>)
    requires ValidOid(parts)
    ensures OidContent(parts).Ok? <==> 40 * parts[0] + parts[1] < 256
    ensures OidContent(parts).Ok? ==>
              (ReadOid(OidContent(parts).value) == Some(parts) <==> 40 * parts[0] + parts[1] < 128)
  {
    if 40 * parts[0] + parts[1] < 128 {
      SmallFirstArcsReadBack(parts);
    } else if 40 * parts[0] + parts[1] < 256 {
      LargeFirstArcsAreMisread(parts);
    }
  }

  /** The smallest valid identifier that does not read back. */
  lemma OidTwoFortyEightIsMisread()
    ensures ValidOid([2, 48])
    ensures OidContent([2, 48]) == Ok([0x80]) && ReadOid([0x80]) == None
  {
    var parts: seq<nat> := [2, 48];
    assert Arcs(parts[2..]) == [];
    assert 40 * parts[0] + parts[1] == 0x80;
    assert [0x80] + Arcs(parts[2..]) == [0x80];
  }

  /** Section 8.19.2: an arc never starts with a needless octet. */
  lemma ArcIsMinimal(n: nat)
    ensures Arc(n)[0] != 0x80
  {
    if n >= 128 {
      ContinuedReadsOn(n / 128, []);
    }
  }

  // ----- nested values

  /** A value whose content is a row of values, or one whose content is not. */
  datatype Node = Primitive(tag: byte, content: Bytes) | Constructed(tag: byte, children: seq<Node>)

  /** The tag says whether the content is a row of values. */
  predicate Tagged(n: Node) {
    && n.tag % 32 != 31
    && (n.Constructed? <==> n.tag / 32 % 2 == 1)
    && (n.Constructed? ==> forall c :: c in n.children ==> Tagged(c))
  }

  function LengthSize(length: nat): nat {
    if length < 128 then 1 else 1 + DigitCount(length)
  }

  function NodeSize(n: Node): nat {
    var content := match n
      case Primitive(_, content) => |content|
      case Constructed(_, children) => RowSize(children);
    1 + LengthSize(content) + content
  }

  function RowSize(nodes: seq<Node>): nat {
    if nodes == [] then 0 else NodeSize(nodes[0]) + RowSize(nodes[1..])
  }

  function EncodeNode(n: Node): (b: Bytes)
    requires NodeSize(n) <= MAX_SIZE
    ensures |b| == NodeSize(n)
    decreases n, 0
  {
    var content := match n
      case Primitive(_, content) => content
      case Constructed(_, children) => EncodeRow(children);
    assert |Length(|content|)| == LengthSize(|content|) by {
      if |content| >= 128 {
        SizeHasFewDigits(|content|);
      }
    }
    Encode(n.tag, content)
  }

  function EncodeRow(nodes: seq<Node>): (b: Bytes)
    requires RowSize(nodes) <= MAX_SIZE
    ensures |b| == RowSize(nodes)
    decreases nodes, 1
  {
    if nodes == [] then [] else EncodeNode(nodes[0]) + EncodeRow(nodes[1..])
  }

  lemma ReadTlvShrinks(input: Bytes)
    ensures ReadTlv(input).Some? ==>
              |ReadTlv(input).value.content| < |input| && |ReadTlv(input).value.rest| < |input|
  {
  }

  /** The first value of a row; its children are those of its content when its tag says so. */
  function NodeOf(tag: byte, content: Bytes, children: Option<seq<Node>>): Option<Node> {
    if tag / 32 % 2 == 0 then Some(Primitive(tag, content))
    else if children == None then None
    else Some(Constructed(tag, children.value))
  }

  function Joined(first: Option<Node>, more: Option<seq<Node>>): Option<seq<Node>> {
    if first == None || more == None then None else Some([first.value] + more.value)
  }

  /** Everything in the input, values within values included. */
  function ReadRow(input: Bytes): Option<seq<Node>>
    decreases |input|
  {
    if input == [] then Some([])
    else
      ReadTlvShrinks(input);
      match ReadTlv(input)
      case None => None
      case Some(Tlv(tag, content, rest)) =>
        Joined(NodeOf(tag, content, if tag / 32 % 2 == 0 then None else ReadRow(content)), ReadRow(rest))
  }

  lemma ReadRowStep(input: Bytes, tag: byte, content: Bytes, rest: Bytes, first: Option<Node>)
    requires ReadTlv(input) == Some(Tlv(tag, content, rest))
    requires first == NodeOf(tag, content, if tag / 32 % 2 == 0 then None else ReadRow(content))
    ensures ReadRow(input) == Joined(first, ReadRow(rest))
  {
  }

  /** Values nested to any depth read back. */
  lemma {:induction false} RowReadsBack(nodes: seq<Node>)
    requires RowSize(nodes) <= MAX_SIZE
    requires forall n :: n in nodes ==> Tagged(n)
    ensures ReadRow(EncodeRow(nodes)) == Some(nodes)
    decreases nodes
  {
    if nodes == [] {
    } else {
      var n, more := nodes[0], nodes[1..];
      assert Tagged(n);
      RowReadsBack(more);
      if n.Constructed? {
        RowReadsBack(n.children);
      }
      var content := if n.Primitive? then n.content else EncodeRow(n.children);
      EncodedReadsBack(n.tag, content, EncodeRow(more));
      assert [n] + more == nodes;
    }
  }

  /** Wherever they stand in a row of values, these octets are read as these values. */
  ghost predicate Reads(octets: Bytes, nodes: seq<Node>) {
    forall rest, more :: ReadRow(rest) == Some(more) ==> ReadRow(octets + rest) == Some(nodes + more)
  }

  lemma ReadsAlone(octets: Bytes, nodes: seq<Node>)
    requires Reads(octets, nodes)
    ensures ReadRow(octets) == Some(nodes)
  {
    assert ReadRow([]) == Some([]);
    assert octets + [] == octets && nodes + [] == nodes;
  }

  lemma BothAreRead(a: Bytes, b: Bytes, x: seq<Node>, y: seq<Node>, both: Bytes)
    requires Reads(a, x) && Reads(b, y) && both == a + b
    ensures Reads(both, x + y)
  {
    forall rest, more | ReadRow(rest) == Some(more)
      ensures ReadRow(both + rest) == Some((x + y) + more)
    {
      assert ReadRow(b + rest) == Some(y + more);
      Reassociate(a, b, rest);
      Reassociate(x, y, more);
    }
  }

  lemma OneIsRead(tag: byte, content: Bytes, encoded: Bytes, node: Node)
    requires tag % 32 != 31 && |content| <= MAX_SIZE && encoded == Encode(tag, content)
    requires NodeOf(tag, content, if tag / 32 % 2 == 0 then None else ReadRow(content)) == Some(node)
    ensures Reads(encoded, [node])
  {
    forall rest, more | ReadRow(rest) == Some(more)
      ensures ReadRow(encoded + rest) == Some([node] + more)
    {
      EncodedReadsBack(tag, content, rest);
      ReadRowStep(encoded + rest, tag, content, rest, Some(node));
    }
  }

  lemma PrimitiveIsRead(tag: byte, content: Bytes, encoded: Bytes)
    requires tag % 32 != 31 && tag / 32 % 2 == 0 && |content| <= MAX_SIZE && encoded == Encode(tag, content)
    ensures Reads(encoded, [Primitive(tag, content)])
  {
    OneIsRead(tag, content, encoded, Primitive(tag, content));
  }

  lemma ConstructedIsRead(tag: byte, content: Bytes, encoded: Bytes, children: seq<Node>)
    requires tag % 32 != 31 && tag / 32 % 2 == 1 && |content| <= MAX_SIZE && encoded == Encode(tag, content)
    requires Reads(content, children)
    ensures Reads(encoded, [Constructed(tag, children)])
  {
    ReadsAlone(content, children);
    OneIsRead(tag, content, encoded, Constructed(tag, children));
  }
}
