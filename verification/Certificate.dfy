/**
 The certificate of the direct server: the values its encoder nests into each other, and
 what a reader finds in the result.
 */
module Certificate {
  import opened Wrappers
  import opened ByteStrings
  import opened Numerals
  import opened Der

  const RSA_SHA256: Bytes :=
    [0x30, 0x0D, 0x06, 0x09, 0x2A, 0x86, 0x48, 0x86, 0xF7, 0x0D, 0x01, 0x01, 0x0B, 0x05, 0x00]
  const RSA_ENCRYPTION: Bytes :=
    [0x30, 0x0D, 0x06, 0x09, 0x2A, 0x86, 0x48, 0x86, 0xF7, 0x0D, 0x01, 0x01, 0x01, 0x05, 0x00]

  /** The content octets of the object identifier of a common name, 2.5.4.3. */
  const COMMON_NAME: Bytes := [0x55, 0x04, 0x03]

  /** What goes into a certificate: the key, a random serial number, the name in UTF-8 and
      the two dates as their ASCII text. */
  datatype Fields = Fields(
    modulus: nat,
    exponent: nat,
    serial: nat,
    name: Bytes,
    validFrom: Bytes,
    validTo: Bytes)

  function IntegerSize(n: nat): nat {
    |IntegerContent(NaturalBytes(n))|
  }

  /** Everything fits in memory, with room for the headers. */
  predicate Fits(f: Fields) {
    IntegerSize(f.modulus) + IntegerSize(f.exponent) + IntegerSize(f.serial)
      + 2 * |f.name| + |f.validFrom| + |f.validTo| <= MAX_SIZE / 2
  }

  function Name(name: Bytes): (b: Bytes)
    requires |name| <= MAX_SIZE / 2
    ensures |b| <= |name| + 53
  {
    var attribute := Encode(0x30, Encode(0x06, COMMON_NAME) + Encode(0x0C, name));
    Encode(0x30, Encode(0x31, attribute))
  }

  function PublicKey(f: Fields): (b: Bytes)
    requires Fits(f)
    ensures |b| <= IntegerSize(f.modulus) + IntegerSize(f.exponent) + 30
  {
    Encode(0x30, Integer(f.modulus) + Integer(f.exponent))
  }

  function PublicKeyInfo(f: Fields): (b: Bytes)
    requires Fits(f)
    ensures |b| <= IntegerSize(f.modulus) + IntegerSize(f.exponent) + 66
  {
    Encode(0x30, RSA_ENCRYPTION + Encode(0x03, [0] + PublicKey(f)))
  }

  /** The version number of the certificate, 2 for X.509 version 3. */
  function Version(): (b: Bytes)
    ensures b == [0xA0, 0x03, 0x02, 0x01, 0x02]
  {
    assert NaturalBytes(2) == [2] by {
      assert BitLength(2) == 2;
      assert ToBytes(2, 1) == ToBytes(0, 0) + [2];
    }
    Encode(0xA0, Integer(2))
  }

  function Validity(f: Fields): (b: Bytes)
    requires Fits(f)
    ensures |b| <= |f.validFrom| + |f.validTo| + 30
  {
    Encode(0x30, Encode(0x17, f.validFrom) + Encode(0x17, f.validTo))
  }

  /** From the dates on. */
  function SubjectPart(f: Fields): (b: Bytes)
    requires Fits(f)
    ensures |b| <= IntegerSize(f.modulus) + IntegerSize(f.exponent) + |f.name| + |f.validFrom| + |f.validTo| + 149
  {
    Validity(f) + (Name(f.name) + PublicKeyInfo(f))
  }

  function ToBeSigned(f: Fields): (b: Bytes)
    requires Fits(f)
    ensures |b| <= MAX_SIZE / 2 + 400
  {
    Encode(0x30, Version() + (Integer(f.serial) + (RSA_SHA256 + (Name(f.name) + SubjectPart(f)))))
  }

  /** The whole certificate; `signature` is what the private key makes of the signed part. */
  function CertificateDer(f: Fields, signature: Bytes): Bytes
    requires Fits(f) && |signature| <= MAX_SIZE / 4
  {
    Encode(0x30, ToBeSigned(f) + (RSA_SHA256 + Encode(0x03, [0] + signature)))
  }

  // ----- what a reader must find (section 4.1 of RFC 5280, section 8.6 of ITU-T X.680)

  const INTEGER: byte := 2
  const BIT_STRING: byte := 3
  const NULL: byte := 5
  const OBJECT_IDENTIFIER: byte := 6
  const UTF8_STRING: byte := 12
  const UTC_TIME: byte := 23
  const SEQUENCE: byte := 32 + 16
  const SET: byte := 32 + 17

  /** The context-specific tag 0, constructed. */
  const EXPLICIT_0: byte := 128 + 32 + 0

  const SHA256_WITH_RSA: seq<nat> := [1, 2, 840, 113549, 1, 1, 11]
  const RSA_KEY: seq<nat> := [1, 2, 840, 113549, 1, 1, 1]
  const COMMON_NAME_TYPE: seq<nat> := [2, 5, 4, 3]

  /** The input is one value and nothing else. */
  function ReadOne(input: Bytes): Option<Node> {
    match ReadRow(input)
    case None => None
    case Some(nodes) => if |nodes| == 1 then Some(nodes[0]) else None
  }

  predicate IsRow(n: Node, tag: byte, count: nat) {
    n.Constructed? && n.tag == tag && |n.children| == count
  }

  predicate IsInteger(n: Node, value: int) {
    n.Primitive? && n.tag == INTEGER && n.content != [] && TwosComplement(n.content) == value
  }

  predicate IsOid(n: Node, arcs: seq<nat>) {
    n.Primitive? && n.tag == OBJECT_IDENTIFIER && ReadOid(n.content) == Some(arcs)
  }

  /** A bit string of whole octets: none of the bits of the last one is unused. */
  predicate IsBits(n: Node, octets: Bytes) {
    n == Primitive(BIT_STRING, [0] + octets)
  }

  predicate IsAlgorithm(n: Node, arcs: seq<nat>) {
    && IsRow(n, SEQUENCE, 2)
    && IsOid(n.children[0], arcs)
    && n.children[1] == Primitive(NULL, [])
  }

  predicate IsAttribute(n: Node, text: Bytes) {
    && IsRow(n, SEQUENCE, 2)
    && IsOid(n.children[0], COMMON_NAME_TYPE)
    && n.children[1] == Primitive(UTF8_STRING, text)
  }

  predicate IsName(n: Node, text: Bytes) {
    && IsRow(n, SEQUENCE, 1)
    && IsRow(n.children[0], SET, 1)
    && IsAttribute(n.children[0].children[0], text)
  }

  predicate IsValidity(n: Node, from: Bytes, to: Bytes) {
    n == Constructed(SEQUENCE, [Primitive(UTC_TIME, from), Primitive(UTC_TIME, to)])
  }

  predicate IsRsaKey(n: Node, modulus: nat, exponent: nat) {
    && IsRow(n, SEQUENCE, 2)
    && IsInteger(n.children[0], modulus)
    && IsInteger(n.children[1], exponent)
  }

  /** The bit string holds one more value. */
  ghost predicate IsKeyInfo(n: Node, modulus: nat, exponent: nat) {
    && IsRow(n, SEQUENCE, 2)
    && IsAlgorithm(n.children[0], RSA_KEY)
    && exists key :: && IsBits(n.children[1], key)
                     && ReadOne(key).Some? && IsRsaKey(ReadOne(key).value, modulus, exponent)
  }

  predicate IsVersion(n: Node, version: nat) {
    IsRow(n, EXPLICIT_0, 1) && IsInteger(n.children[0], version)
  }

  ghost predicate IsToBeSigned(n: Node, f: Fields) {
    && IsRow(n, SEQUENCE, 7)
    && IsVersion(n.children[0], 2)
    && IsInteger(n.children[1], f.serial)
    && IsAlgorithm(n.children[2], SHA256_WITH_RSA)
    && IsName(n.children[3], f.name)
    && IsValidity(n.children[4], f.validFrom, f.validTo)
    && IsName(n.children[5], f.name)
    && IsKeyInfo(n.children[6], f.modulus, f.exponent)
  }

  ghost predicate IsCertificate(n: Node, f: Fields, signature: Bytes) {
    && IsRow(n, SEQUENCE, 3)
    && IsToBeSigned(n.children[0], f)
    && IsAlgorithm(n.children[1], SHA256_WITH_RSA)
    && IsBits(n.children[2], signature)
  }

  // ----- the parts, read on their own

  lemma IntegerIsRead(n: nat) returns (node: Node)
    requires IntegerFits(n)
    ensures Reads(Integer(n), [node]) && IsInteger(node, n)
  {
    var content := IntegerContent(NaturalBytes(n));
    NaturalBytesHoldTheNumber(n);
    IntegerContentReadsBack(NaturalBytes(n));
    PrimitiveIsRead(INTEGER, content, Integer(n));
    node := Primitive(INTEGER, content);
  }

  lemma BitsAreRead(octets: Bytes, encoded: Bytes) returns (node: Node)
    requires |octets| < MAX_SIZE && encoded == Encode(0x03, [0] + octets)
    ensures Reads(encoded, [node]) && IsBits(node, octets)
  {
    PrimitiveIsRead(BIT_STRING, [0] + octets, encoded);
    node := Primitive(BIT_STRING, [0] + octets);
  }

  lemma PairIsRead(a: Bytes, b: Bytes, x: Node, y: Node, content: Bytes, encoded: Bytes)
    requires Reads(a, [x]) && Reads(b, [y])
    requires content == a + b && |content| <= MAX_SIZE && encoded == Encode(0x30, content)
    ensures Reads(encoded, [Constructed(SEQUENCE, [x, y])])
  {
    BothAreRead(a, b, [x], [y], content);
    assert [x] + [y] == [x, y];
    ConstructedIsRead(SEQUENCE, content, encoded, [x, y]);
  }

  // ----- object identifiers

  lemma ArcsStep(part: nat, arc: Bytes, more: seq<nat>, rest: Bytes)
    requires Arcs(more) == rest && Arc(part) == arc
    ensures Arcs([part] + more) == arc + rest
  {
    assert ([part] + more)[1..] == more;
  }

  lemma OidContentOf(parts: seq<nat>, arcs: Bytes)
    requires |parts| >= 2 && 40 * parts[0] + parts[1] < 256 && Arcs(parts[2..]) == arcs
    ensures OidContent(parts) == Ok([40 * parts[0] + parts[1]] + arcs)
  {
  }

  lemma SmallArcs(last: nat)
    requires last < 128
    ensures Arcs([1] + ([1] + [last])) == [0x01] + ([0x01] + [last])
  {
    var none: seq<nat>, end: Bytes := [], [last];
    LargeArcs();
    assert Arc(last) == end && Arcs(none) == [];
    ArcsStep(last, end, none, []);
    assert [last] + none == [last] && end + [] == end;
    ArcsStep(1, [0x01], [last], end);
    ArcsStep(1, [0x01], [1] + [last], [0x01] + end);
  }

  /** The octets of the two algorithms; the arcs start with 1.2.840.113549.1.1. */
  lemma AlgorithmArcs(last: nat)
    requires last < 128
    ensures OidContent([1, 2, 840, 113549, 1, 1, last]) ==
            Ok([0x2A, 0x86, 0x48, 0x86, 0xF7, 0x0D, 0x01, 0x01, last])
  {
    var small, arcs := [1] + ([1] + [last]), [0x01] + ([0x01] + [last]);
    SmallArcs(last);
    LargeArcs();
    ArcsStep(113549, [0x86, 0xF7, 0x0D], small, arcs);
    ArcsStep(840, [0x86, 0x48], [113549] + small, [0x86, 0xF7, 0x0D] + arcs);
    var parts: seq<nat> := [1, 2, 840, 113549, 1, 1, last];
    assert parts[2..] == [840] + ([113549] + small);
    OidContentOf(parts, [0x86, 0x48] + ([0x86, 0xF7, 0x0D] + arcs));
    assert [0x2A] + ([0x86, 0x48] + ([0x86, 0xF7, 0x0D] + arcs)) ==
           [0x2A, 0x86, 0x48, 0x86, 0xF7, 0x0D, 0x01, 0x01, last];
  }

  lemma LargeArcs()
    ensures Arc(840) == [0x86, 0x48] && Arc(113549) == [0x86, 0xF7, 0x0D] && Arc(1) == [0x01]
  {
    assert Continued(6) == [0x86];
    assert Continued(887) == Continued(6) + [0xF7];
  }

  /** The ready-made name type is what the encoder of identifiers writes for 2.5.4.3. */
  lemma ReadyMadeNameType()
    ensures OidContent([2, 5, 4, 3]) == Ok(COMMON_NAME)
  {
    var none: seq<nat> := [];
    assert Arc(4) == [4] && Arc(3) == [3] && Arcs(none) == [];
    ArcsStep(3, [3], none, []);
    assert [3] + none == [3] && [3] + [] == [3];
    ArcsStep(4, [4], [3], [3]);
    var parts: seq<nat> := [2, 5, 4, 3];
    assert parts[2..] == [4] + [3];
    OidContentOf(parts, [4] + [3]);
    assert [0x55] + ([4] + [3]) == COMMON_NAME;
  }

  lemma OidIsRead(arcs: seq<nat>, content: Bytes, encoded: Bytes)
    requires ValidOid(arcs) && 40 * arcs[0] + arcs[1] < 128
    requires OidContent(arcs) == Ok(content) && |content| <= MAX_SIZE && encoded == Encode(0x06, content)
    ensures Reads(encoded, [Primitive(OBJECT_IDENTIFIER, content)])
    ensures IsOid(Primitive(OBJECT_IDENTIFIER, content), arcs)
  {
    OidReadsBackExactlyWhenFirstArcsAreSmall(arcs);
    PrimitiveIsRead(OBJECT_IDENTIFIER, content, encoded);
  }

  lemma AlgorithmPartsAreRead(last: nat, content: Bytes, oid: Bytes, nothing: Bytes)
    requires last < 128
    requires content == [0x2A, 0x86, 0x48, 0x86, 0xF7, 0x0D, 0x01, 0x01, last]
    requires oid == [0x06, 0x09] + content && nothing == [0x05, 0x00]
    ensures Reads(oid, [Primitive(OBJECT_IDENTIFIER, content)]) && Reads(nothing, [Primitive(NULL, [])])
    ensures IsOid(Primitive(OBJECT_IDENTIFIER, content), [1, 2, 840, 113549, 1, 1, last])
  {
    AlgorithmArcs(last);
    OidIsRead([1, 2, 840, 113549, 1, 1, last], content, oid);
    PrimitiveIsRead(NULL, [], nothing);
  }

  lemma AlgorithmIsRead(last: nat, algorithm: Bytes) returns (node: Node)
    requires last < 128
    requires algorithm ==
      [0x30, 0x0D, 0x06, 0x09, 0x2A, 0x86, 0x48, 0x86, 0xF7, 0x0D, 0x01, 0x01, last, 0x05, 0x00]
    ensures Reads(algorithm, [node]) && IsAlgorithm(node, [1, 2, 840, 113549, 1, 1, last])
  {
    var content: Bytes := [0x2A, 0x86, 0x48, 0x86, 0xF7, 0x0D, 0x01, 0x01, last];
    var oid: Bytes, nothing: Bytes := [0x06, 0x09] + content, [0x05, 0x00];
    AlgorithmPartsAreRead(last, content, oid, nothing);
    assert algorithm == [0x30, |oid + nothing|] + (oid + nothing);
    node := SequenceOfTwo(oid, nothing, Primitive(OBJECT_IDENTIFIER, content), Primitive(NULL, []), algorithm);
  }

  lemma SequenceOfTwo(a: Bytes, b: Bytes, x: Node, y: Node, encoded: Bytes) returns (node: Node)
    requires Reads(a, [x]) && Reads(b, [y])
    requires |a + b| < 128 && encoded == [0x30, |a + b|] + (a + b)
    ensures Reads(encoded, [node]) && node == Constructed(SEQUENCE, [x, y])
  {
    PairIsRead(a, b, x, y, a + b, encoded);
    node := Constructed(SEQUENCE, [x, y]);
  }

  // ----- the values of the certificate

  lemma NameTypeIsRead(encoded: Bytes)
    requires encoded == Encode(0x06, COMMON_NAME)
    ensures Reads(encoded, [Primitive(OBJECT_IDENTIFIER, COMMON_NAME)])
    ensures IsOid(Primitive(OBJECT_IDENTIFIER, COMMON_NAME), COMMON_NAME_TYPE)
  {
    ReadyMadeNameType();
    OidIsRead(COMMON_NAME_TYPE, COMMON_NAME, encoded);
  }

  lemma AttributeIsRead(name: Bytes, type_: Bytes, text: Bytes, attribute: Bytes) returns (node: Node)
    requires |name| <= MAX_SIZE / 2
    requires type_ == Encode(0x06, COMMON_NAME) && text == Encode(0x0C, name)
    requires attribute == Encode(0x30, type_ + text)
    ensures Reads(attribute, [node]) && IsAttribute(node, name)
  {
    var x, y := Primitive(OBJECT_IDENTIFIER, COMMON_NAME), Primitive(UTF8_STRING, name);
    NameTypeIsRead(type_);
    PrimitiveIsRead(UTF8_STRING, name, text);
    PairIsRead(type_, text, x, y, type_ + text, attribute);
    node := Constructed(SEQUENCE, [x, y]);
  }

  lemma AttributeSetIsRead(attribute: Bytes, node: Node, inner: Bytes, outer: Bytes)
    requires |attribute| <= MAX_SIZE - 20 && Reads(attribute, [node])
    requires inner == Encode(0x31, attribute) && outer == Encode(0x30, inner)
    ensures Reads(outer, [Constructed(SEQUENCE, [Constructed(SET, [node])])])
  {
    ConstructedIsRead(SET, attribute, inner, [node]);
    ConstructedIsRead(SEQUENCE, inner, outer, [Constructed(SET, [node])]);
  }

  /** A name is read as one common name with its text. */
  lemma {:induction false} NameReadsBack(name: Bytes) returns (node: Node)
    requires |name| <= MAX_SIZE / 2
    ensures Reads(Name(name), [node]) && IsName(node, name)
  {
    var type_, text := Encode(0x06, COMMON_NAME), Encode(0x0C, name);
    var attribute := Encode(0x30, type_ + text);
    var inner := AttributeIsRead(name, type_, text, attribute);
    AttributeSetIsRead(attribute, inner, Encode(0x31, attribute), Name(name));
    node := Constructed(SEQUENCE, [Constructed(SET, [inner])]);
  }

  lemma ValidityReadsBack(f: Fields) returns (node: Node)
    requires Fits(f)
    ensures Reads(Validity(f), [node]) && IsValidity(node, f.validFrom, f.validTo)
  {
    var from, to := Encode(0x17, f.validFrom), Encode(0x17, f.validTo);
    var x, y := Primitive(UTC_TIME, f.validFrom), Primitive(UTC_TIME, f.validTo);
    PrimitiveIsRead(UTC_TIME, f.validFrom, from);
    PrimitiveIsRead(UTC_TIME, f.validTo, to);
    PairIsRead(from, to, x, y, from + to, Validity(f));
    node := Constructed(SEQUENCE, [x, y]);
  }

  lemma PublicKeyReadsBack(f: Fields) returns (node: Node)
    requires Fits(f)
    ensures Reads(PublicKey(f), [node]) && IsRsaKey(node, f.modulus, f.exponent)
  {
    var x := IntegerIsRead(f.modulus);
    var y := IntegerIsRead(f.exponent);
    PairIsRead(Integer(f.modulus), Integer(f.exponent), x, y, Integer(f.modulus) + Integer(f.exponent), PublicKey(f));
    node := Constructed(SEQUENCE, [x, y]);
  }

  lemma PublicKeyInfoReadsBack(f: Fields) returns (node: Node)
    requires Fits(f)
    ensures Reads(PublicKeyInfo(f), [node]) && IsKeyInfo(node, f.modulus, f.exponent)
  {
    var key := PublicKeyReadsBack(f);
    var bits := Encode(0x03, [0] + PublicKey(f));
    var x := AlgorithmIsRead(1, RSA_ENCRYPTION);
    var y := BitsAreRead(PublicKey(f), bits);
    PairIsRead(RSA_ENCRYPTION, bits, x, y, RSA_ENCRYPTION + bits, PublicKeyInfo(f));
    node := Constructed(SEQUENCE, [x, y]);
    KeyIsInPlace(f, PublicKey(f), key, node);
  }

  lemma KeyIsInPlace(f: Fields, octets: Bytes, key: Node, node: Node)
    requires Reads(octets, [key]) && IsRsaKey(key, f.modulus, f.exponent)
    requires IsRow(node, SEQUENCE, 2) && IsAlgorithm(node.children[0], RSA_KEY) && IsBits(node.children[1], octets)
    ensures IsKeyInfo(node, f.modulus, f.exponent)
  {
    ReadsAlone(octets, [key]);
  }

  lemma VersionReadsBack() returns (node: Node)
    ensures Reads(Version(), [node]) && IsVersion(node, 2)
  {
    TwoFits();
    var two := IntegerIsRead(2);
    assert Version() == Encode(0xA0, Integer(2));
    ConstructedIsRead(EXPLICIT_0, Integer(2), Version(), [two]);
    node := Constructed(EXPLICIT_0, [two]);
  }

  lemma TwoFits()
    ensures IntegerFits(2) && |Integer(2)| <= 9
  {
    assert NaturalBytes(2) == [2] by {
      assert BitLength(2) == 2;
      assert ToBytes(2, 1) == ToBytes(0, 0) + [2];
    }
  }

  // ----- the whole certificate

  lemma SubjectPartReadsBack(f: Fields) returns (x: Node, y: Node, z: Node)
    requires Fits(f)
    ensures Reads(SubjectPart(f), [x, y, z])
    ensures IsValidity(x, f.validFrom, f.validTo) && IsName(y, f.name) && IsKeyInfo(z, f.modulus, f.exponent)
  {
    x := ValidityReadsBack(f);
    y := NameReadsBack(f.name);
    z := PublicKeyInfoReadsBack(f);
    var rest := Name(f.name) + PublicKeyInfo(f);
    BothAreRead(Name(f.name), PublicKeyInfo(f), [y], [z], rest);
    BothAreRead(Validity(f), rest, [x], [y] + [z], SubjectPart(f));
    assert [x] + ([y] + [z]) == [x, y, z];
  }

  lemma FromIssuerIsRead(f: Fields, part: Bytes) returns (nodes: seq<Node>)
    requires Fits(f) && part == RSA_SHA256 + (Name(f.name) + SubjectPart(f))
    ensures Reads(part, nodes) && |nodes| == 5
    ensures IsAlgorithm(nodes[0], SHA256_WITH_RSA) && IsName(nodes[1], f.name)
    ensures IsValidity(nodes[2], f.validFrom, f.validTo) && IsName(nodes[3], f.name)
    ensures IsKeyInfo(nodes[4], f.modulus, f.exponent)
  {
    var x, y, z := SubjectPartReadsBack(f);
    var issuer := NameReadsBack(f.name);
    var algorithm := AlgorithmIsRead(11, RSA_SHA256);
    BothAreRead(Name(f.name), SubjectPart(f), [issuer], [x, y, z], Name(f.name) + SubjectPart(f));
    BothAreRead(RSA_SHA256, Name(f.name) + SubjectPart(f), [algorithm], [issuer] + [x, y, z], part);
    nodes := [algorithm] + ([issuer] + [x, y, z]);
  }

  lemma SignedPartIsRead(f: Fields, content: Bytes) returns (nodes: seq<Node>)
    requires Fits(f)
    requires content == Version() + (Integer(f.serial) + (RSA_SHA256 + (Name(f.name) + SubjectPart(f))))
    ensures Reads(content, nodes) && IsToBeSigned(Constructed(SEQUENCE, nodes), f)
  {
    var part := RSA_SHA256 + (Name(f.name) + SubjectPart(f));
    var more := FromIssuerIsRead(f, part);
    var version := VersionReadsBack();
    var serial := IntegerIsRead(f.serial);
    BothAreRead(Integer(f.serial), part, [serial], more, Integer(f.serial) + part);
    BothAreRead(Version(), Integer(f.serial) + part, [version], [serial] + more, content);
    nodes := [version] + ([serial] + more);
  }

  lemma ToBeSignedReadsBack(f: Fields) returns (node: Node)
    requires Fits(f)
    ensures Reads(ToBeSigned(f), [node]) && IsToBeSigned(node, f)
  {
    var content := Version() + (Integer(f.serial) + (RSA_SHA256 + (Name(f.name) + SubjectPart(f))));
    var nodes := SignedPartIsRead(f, content);
    ConstructedIsRead(SEQUENCE, content, ToBeSigned(f), nodes);
    node := Constructed(SEQUENCE, nodes);
  }

  lemma SignatureIsRead(signature: Bytes, bits: Bytes, end: Bytes) returns (x: Node, y: Node)
    requires |signature| <= MAX_SIZE / 4 && bits == Encode(0x03, [0] + signature) && end == RSA_SHA256 + bits
    ensures Reads(end, [x] + [y]) && IsAlgorithm(x, SHA256_WITH_RSA) && IsBits(y, signature)
  {
    x := AlgorithmIsRead(11, RSA_SHA256);
    y := BitsAreRead(signature, bits);
    BothAreRead(RSA_SHA256, bits, [x], [y], end);
  }

  lemma CertificatePartsAreRead(f: Fields, signature: Bytes, end: Bytes, content: Bytes) returns (nodes: seq<Node>)
    requires Fits(f) && |signature| <= MAX_SIZE / 4
    requires end == RSA_SHA256 + Encode(0x03, [0] + signature) && content == ToBeSigned(f) + end
    ensures Reads(content, nodes) && IsCertificate(Constructed(SEQUENCE, nodes), f, signature)
  {
    var x := ToBeSignedReadsBack(f);
    var y, z := SignatureIsRead(signature, Encode(0x03, [0] + signature), end);
    BothAreRead(ToBeSigned(f), end, [x], [y] + [z], content);
    nodes := [x] + ([y] + [z]);
  }

  /** A reader of the basic encoding rules finds in the encoded octets one value and nothing
      else, and it is the certificate of the fields: every value where it belongs, with the tag
      that says what it is, the identifiers of the algorithms and of the name, the key within
      its bit string, and the signature. */
  lemma {:induction false} CertificateReadsBack(f: Fields, signature: Bytes)
    requires Fits(f) && |signature| <= MAX_SIZE / 4
    ensures var read := ReadOne(CertificateDer(f, signature));
      read.Some? && IsCertificate(read.value, f, signature)
  {
    var end := RSA_SHA256 + Encode(0x03, [0] + signature);
    var content := ToBeSigned(f) + end;
    var nodes := CertificatePartsAreRead(f, signature, end, content);
    ConstructedIsRead(SEQUENCE, content, CertificateDer(f, signature), nodes);
    ReadsAlone(CertificateDer(f, signature), [Constructed(SEQUENCE, nodes)]);
  }

  // ----- the signed octets

  /** The first value of some octets, header included. */
  function First(input: Bytes): Bytes {
    match ReadTlv(input)
    case None => []
    case Some(tlv) => if |tlv.rest| <= |input| then input[..|input| - |tlv.rest|] else []
  }

  /** What the signature is about is the first value within the certificate, header included. */
  lemma {:induction false} SignedOctetsReadBack(f: Fields, signature: Bytes)
    requires Fits(f) && |signature| <= MAX_SIZE / 4
    ensures var read := ReadTlv(CertificateDer(f, signature));
      read.Some? && read.value.rest == [] && First(read.value.content) == ToBeSigned(f)
  {
    var end := RSA_SHA256 + Encode(0x03, [0] + signature);
    var inner := Version() + (Integer(f.serial) + (RSA_SHA256 + (Name(f.name) + SubjectPart(f))));
    EncodedReadsBack(0x30, ToBeSigned(f) + end, []);
    assert CertificateDer(f, signature) + [] == CertificateDer(f, signature);
    EncodedReadsBack(0x30, inner, end);
    assert (ToBeSigned(f) + end)[..|ToBeSigned(f)|] == ToBeSigned(f);
  }
}
