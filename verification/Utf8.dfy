/**
 The table-driven UTF-8 checker of the WebSocket library, against RFC 3629.
 */
module Utf8 {
  import opened ByteStrings

  const ACCEPT := 0
  const REJECT := 12

  // ----- the checker

  /** The first part of the table: the class of a byte. */
  function ClassOf(b: byte): (c: nat)
    ensures c < 12
  {
    if b < 0x80 then 0
    else if b < 0x90 then 1
    else if b < 0xA0 then 9
    else if b < 0xC0 then 7
    else if b < 0xC2 then 8
    else if b < 0xE0 then 2
    else if b == 0xE0 then 10
    else if b < 0xED then 3
    else if b == 0xED then 4
    else if b < 0xF0 then 3
    else if b == 0xF0 then 11
    else if b < 0xF4 then 6
    else if b == 0xF4 then 5
    else 8
  }

  predicate IsState(s: nat) {
    s % 12 == 0 && s <= 96
  }

  /** The second part of the table: the state a class of byte leads to. */
  function NextState(state: nat, class_: nat): (next: nat)
    ensures IsState(next)
  {
    var continuation := class_ == 1 || class_ == 7 || class_ == 9;
    match state
    case 0 =>
      (match class_
       case 0 => 0
       case 2 => 24
       case 3 => 36
       case 4 => 60
       case 5 => 96
       case 6 => 84
       case 10 => 48
       case 11 => 72
       case _ => 12)
    case 24 => if continuation then 0 else 12
    case 36 => if continuation then 24 else 12
    case 48 => if class_ == 7 then 24 else 12
    case 60 => if class_ == 1 || class_ == 9 then 24 else 12
    case 72 => if class_ == 7 || class_ == 9 then 36 else 12
    case 84 => if continuation then 36 else 12
    case 96 => if class_ == 1 then 36 else 12
    case _ => 12
  }

  /** `(0xFF >> tp) & ch`: the bits of a first byte below its class shifted in. */
  function FirstBits(ch: byte, tp: nat): nat {
    if tp == 0 then ch
    else if tp == 1 then ch % 128
    else if tp == 2 then ch % 64
    else if tp == 3 then ch % 32
    else if tp == 4 then ch % 16
    else if tp == 5 then ch % 8
    else if tp == 6 then ch % 4
    else if tp == 7 then ch % 2
    else 0
  }

  /** The state of the automaton, and the bits of the current scalar value read so far. */
  datatype Dfa = Dfa(state: nat, codep: nat)

  function Decode(d: Dfa, ch: byte): (r: Dfa)
    requires IsState(d.state)
    ensures IsState(r.state)
  {
    var tp := ClassOf(ch);
    var codep := if d.state != ACCEPT then ch % 64 + 64 * d.codep else FirstBits(ch, tp);
    Dfa(NextState(d.state, tp), codep)
  }

  function Run(d: Dfa, bytes: Bytes): (r: Dfa)
    requires IsState(d.state)
    ensures IsState(r.state)
    decreases |bytes|
  {
    if bytes == [] then d else Run(Decode(d, bytes[0]), bytes[1..])
  }

  const START := Dfa(ACCEPT, 0)

  /** The loop of the checker, which gives up at the first byte that is rejected and does not
      look at the state it ends in. */
  method Validate(bytes: Bytes) returns (valid: bool)
    ensures valid == Validates(bytes)
    ensures valid <==> exists more :: WellFormed(bytes + more)
  {
    ValidatesExactlyPrefixes(bytes);
    var d := START;
    for k := 0 to |bytes|
      invariant IsState(d.state) && d.state != REJECT
      invariant Run(d, bytes[k..]) == Run(START, bytes)
    {
      assert bytes[k..][1..] == bytes[k + 1..];
      d := Decode(d, bytes[k]);
      if d.state == REJECT {
        RejectIsFinal(d, bytes[k + 1..]);
        return false;
      }
    }
    assert bytes[|bytes|..] == [];
    return true;
  }

  predicate Validates(bytes: Bytes) {
    Run(START, bytes).state != REJECT
  }

  lemma {:induction false} RejectIsFinal(d: Dfa, bytes: Bytes)
    requires d.state == REJECT
    ensures Run(d, bytes).state == REJECT
    decreases |bytes|
  {
    if bytes == [] {
    } else {
      RejectIsFinal(Decode(d, bytes[0]), bytes[1..]);
    }
  }

  lemma {:induction false} RunConcat(d: Dfa, a: Bytes, b: Bytes)
    requires IsState(d.state)
    ensures Run(d, a + b) == Run(Run(d, a), b)
    decreases |a|
  {
    if a == [] {
      assert a + b == b;
    } else {
      assert (a + b)[1..] == a[1..] + b;
      RunConcat(Decode(d, a[0]), a[1..], b);
    }
  }

  // ----- RFC 3629

  /** Section 3: the character numbers that can be encoded. */
  predicate IsScalar(v: nat) {
    v < 0x110000 && !(0xD800 <= v < 0xE000)
  }

  /** The bits of the number are distributed six at a time, from the last byte back. */
  function EncodeScalar(v: nat): (b: Bytes)
    requires IsScalar(v)
    ensures 1 <= |b| <= 4
  {
    var v1 := v / 64;
    var v2 := v1 / 64;
    if v < 0x80 then [v]
    else if v < 0x800 then [0xC0 + v1, 0x80 + v % 64]
    else if v < 0x10000 then [0xE0 + v2, 0x80 + v1 % 64, 0x80 + v % 64]
    else [0xF0 + v2 / 64, 0x80 + v2 % 64, 0x80 + v1 % 64, 0x80 + v % 64]
  }

  ghost predicate AreScalars(vs: seq<nat>) {
    forall v :: v in vs ==> IsScalar(v)
  }

  function EncodeAll(vs: seq<nat>): Bytes
    requires AreScalars(vs)
  {
    if vs == [] then [] else EncodeScalar(vs[0]) + EncodeAll(vs[1..])
  }

  ghost predicate WellFormed(bytes: Bytes) {
    exists vs :: AreScalars(vs) && EncodeAll(vs) == bytes
  }

  /** Well-formed but for its last character, of which something is missing. */
  ghost predicate CutShort(bytes: Bytes) {
    exists vs, v, n ::
      AreScalars(vs) && IsScalar(v) && 0 < n < |EncodeScalar(v)| && bytes == EncodeAll(vs) + EncodeScalar(v)[..n]
  }

  // ----- one character

  lemma RunOne(d: Dfa, a: byte)
    requires IsState(d.state)
    ensures Run(d, [a]) == Decode(d, a)
  {
    assert [a][1..] == [];
  }

  /** Where a first byte leads, and the bits it contributes. */
  lemma FirstByte(d: Dfa, a: byte)
    requires d.state == ACCEPT
    ensures var r := Decode(d, a);
      && (a < 0x80 ==> r == Dfa(ACCEPT, a))
      && (0xC2 <= a < 0xE0 ==> r == Dfa(24, a - 0xC0))
      && (a == 0xE0 ==> r == Dfa(48, 0))
      && (a == 0xED ==> r == Dfa(60, 13))
      && (0xE1 <= a < 0xF0 && a != 0xED ==> r == Dfa(36, a - 0xE0))
      && (a == 0xF0 ==> r == Dfa(72, 0))
      && (0xF1 <= a < 0xF4 ==> r == Dfa(84, a - 0xF0))
      && (a == 0xF4 ==> r == Dfa(96, 4))
      && (0x80 <= a < 0xC2 || 0xF5 <= a ==> r.state == REJECT)
  {
  }

  /** A number extended by the six bits of a later byte. */
  function Join(high: nat, b: byte): nat {
    64 * high + b % 64
  }

  /** Which second bytes each first byte allows. */
  predicate Allows(state: nat, b: byte) {
    match state
    case 48 => 0xA0 <= b < 0xC0
    case 60 => 0x80 <= b < 0xA0
    case 72 => 0x90 <= b < 0xC0
    case 96 => 0x80 <= b < 0x90
    case _ => 0x80 <= b < 0xC0
  }

  /** How many bytes are still missing. */
  function Missing(state: nat): nat {
    match state
    case 0 => 0
    case 24 => 1
    case 36 => 2
    case 48 => 2
    case 60 => 2
    case _ => 3
  }

  /** A later byte is allowed or rejected; it adds six bits. */
  lemma LaterByte(d: Dfa, b: byte)
    requires IsState(d.state) && d.state != ACCEPT && d.state != REJECT
    ensures Decode(d, b).state == REJECT <==> !Allows(d.state, b)
    ensures Allows(d.state, b) ==>
              && Decode(d, b).state == (if Missing(d.state) == 1 then ACCEPT else if Missing(d.state) == 2 then 24 else 36)
              && Decode(d, b).codep == Join(d.codep, b)
  {
  }

  ghost predicate ReadsAs(d: Dfa, e: Bytes, v: nat)
    requires IsState(d.state)
  {
    && Run(d, e) == Dfa(ACCEPT, v)
    && forall n :: 0 < n < |e| ==> Run(d, e[..n]).state != ACCEPT && Run(d, e[..n]).state != REJECT
  }

  lemma RunSnoc(d: Dfa, bytes: Bytes, last: byte)
    requires IsState(d.state)
    ensures Run(d, bytes + [last]) == Decode(Run(d, bytes), last)
  {
    RunConcat(d, bytes, [last]);
    RunOne(Run(d, bytes), last);
  }

  lemma TwoBytesAreRead(d: Dfa, a: byte, b: byte)
    requires d.state == ACCEPT && 0xC2 <= a < 0xE0 && 0x80 <= b < 0xC0
    ensures ReadsAs(d, [a, b], Join(a - 0xC0, b))
  {
    FirstByte(d, a);
    RunOne(d, a);
    RunSnoc(d, [a], b);
    LaterByte(Decode(d, a), b);
    assert [a] + [b] == [a, b] && [a, b][..1] == [a];
  }

  lemma ThreeBytesAreRead(d: Dfa, a: byte, b: byte, c: byte)
    requires d.state == ACCEPT && 0xE0 <= a < 0xF0 && Allows(Decode(d, a).state, b) && 0x80 <= c < 0xC0
    ensures ReadsAs(d, [a, b, c], Join(Join(a - 0xE0, b), c))
  {
    FirstByte(d, a);
    RunOne(d, a);
    RunSnoc(d, [a], b);
    RunSnoc(d, [a, b], c);
    LaterByte(Decode(d, a), b);
    LaterByte(Decode(Decode(d, a), b), c);
    assert [a] + [b] == [a, b] && [a, b] + [c] == [a, b, c];
    assert [a, b, c][..1] == [a] && [a, b, c][..2] == [a, b];
  }

  lemma FourBytesAreRead(d: Dfa, a: byte, b: byte, c: byte, e: byte)
    requires d.state == ACCEPT && 0xF0 <= a < 0xF5 && Allows(Decode(d, a).state, b)
    requires 0x80 <= c < 0xC0 && 0x80 <= e < 0xC0
    ensures ReadsAs(d, [a, b, c, e], Join(Join(Join(a - 0xF0, b), c), e))
  {
    var d1 := Decode(d, a);
    var d2 := Decode(d1, b);
    var d3 := Decode(d2, c);
    FirstByte(d, a);
    RunOne(d, a);
    RunSnoc(d, [a], b);
    RunSnoc(d, [a, b], c);
    RunSnoc(d, [a, b, c], e);
    assert [a] + [b] == [a, b] && [a, b] + [c] == [a, b, c] && [a, b, c] + [e] == [a, b, c, e];
    assert [a, b, c, e][..1] == [a] && [a, b, c, e][..2] == [a, b] && [a, b, c, e][..3] == [a, b, c];
    LaterByte(d1, b);
    LaterByte(d2, c);
    LaterByte(d3, e);
    assert d3.state == 24 && Decode(d3, e).state == ACCEPT;
  }

  lemma JoinSplits(high: nat, b: byte)
    requires 0x80 <= b < 0xC0
    ensures Join(high, b) / 64 == high && 0x80 + Join(high, b) % 64 == b
  {
  }

  lemma SplitJoins(v: nat)
    ensures Join(v / 64, 0x80 + v % 64) == v
  {
  }

  lemma TwoByteEncoding(a: byte, b: byte)
    requires 0xC2 <= a < 0xE0 && 0x80 <= b < 0xC0
    ensures IsScalar(Join(a - 0xC0, b)) && EncodeScalar(Join(a - 0xC0, b)) == [a, b]
  {
    JoinSplits(a - 0xC0, b);
  }

  lemma ThreeByteEncoding(a: byte, b: byte, c: byte)
    requires 0xE0 <= a < 0xF0 && 0x80 <= b < 0xC0 && 0x80 <= c < 0xC0
    requires (a == 0xE0 ==> b >= 0xA0) && (a == 0xED ==> b < 0xA0)
    ensures var v := Join(Join(a - 0xE0, b), c); IsScalar(v) && EncodeScalar(v) == [a, b, c]
  {
    JoinSplits(a - 0xE0, b);
    JoinSplits(Join(a - 0xE0, b), c);
  }

  lemma FourByteEncoding(a: byte, b: byte, c: byte, e: byte)
    requires 0xF0 <= a < 0xF5 && 0x80 <= b < 0xC0 && 0x80 <= c < 0xC0 && 0x80 <= e < 0xC0
    requires (a == 0xF0 ==> b >= 0x90) && (a == 0xF4 ==> b < 0x90)
    ensures var v := Join(Join(Join(a - 0xF0, b), c), e); IsScalar(v) && EncodeScalar(v) == [a, b, c, e]
  {
    JoinSplits(a - 0xF0, b);
    JoinSplits(Join(a - 0xF0, b), c);
    JoinSplits(Join(Join(a - 0xF0, b), c), e);
  }

  lemma ThreeByteScalarIsRead(d: Dfa, v: nat)
    requires d.state == ACCEPT && IsScalar(v) && 0x800 <= v < 0x10000
    ensures ReadsAs(d, EncodeScalar(v), v)
  {
    var v1 := v / 64;
    SplitJoins(v);
    SplitJoins(v1);
    var a, b, c := 0xE0 + v1 / 64, 0x80 + v1 % 64, 0x80 + v % 64;
    FirstByte(d, a);
    ThreeBytesAreRead(d, a, b, c);
  }

  lemma FourByteScalarIsRead(d: Dfa, v: nat)
    requires d.state == ACCEPT && IsScalar(v) && 0x10000 <= v
    ensures ReadsAs(d, EncodeScalar(v), v)
  {
    var v1 := v / 64;
    var v2 := v1 / 64;
    SplitJoins(v);
    SplitJoins(v1);
    SplitJoins(v2);
    var a, b, c, e := 0xF0 + v2 / 64, 0x80 + v2 % 64, 0x80 + v1 % 64, 0x80 + v % 64;
    FirstByte(d, a);
    FourBytesAreRead(d, a, b, c, e);
  }

  /** Reading one encoded character ends in ACCEPT with its number; before its last byte the
      state is neither ACCEPT nor REJECT. */
  lemma CharacterIsRead(d: Dfa, v: nat)
    requires d.state == ACCEPT && IsScalar(v)
    ensures ReadsAs(d, EncodeScalar(v), v)
  {
    if v < 0x80 {
      FirstByte(d, v);
      RunOne(d, v);
    } else if v < 0x800 {
      SplitJoins(v);
      TwoBytesAreRead(d, 0xC0 + v / 64, 0x80 + v % 64);
    } else if v < 0x10000 {
      ThreeByteScalarIsRead(d, v);
    } else {
      FourByteScalarIsRead(d, v);
    }
  }

  /** After a first byte, input that ends in ACCEPT has all the bytes that are missing. */
  lemma {:induction false} AcceptedInputGoesOn(d: Dfa, bytes: Bytes)
    requires IsState(d.state) && d.state != ACCEPT && d.state != REJECT
    requires Run(d, bytes).state == ACCEPT
    ensures |bytes| >= Missing(d.state) && Allows(d.state, bytes[0])
    ensures forall k :: 1 <= k < Missing(d.state) ==> 0x80 <= bytes[k] < 0xC0
    decreases |bytes|
  {
    LaterByte(d, bytes[0]);
    var next := Decode(d, bytes[0]);
    if next.state == REJECT {
      RejectIsFinal(next, bytes[1..]);
    } else if next.state != ACCEPT {
      AcceptedInputGoesOn(next, bytes[1..]);
      assert forall k :: 1 <= k < |bytes| ==> bytes[k] == bytes[1..][k - 1];
    }
  }

  /** The other way round: input that ends in ACCEPT starts with an encoded character. */
  lemma AcceptedInputStartsWithACharacter(d: Dfa, bytes: Bytes) returns (v: nat)
    requires d.state == ACCEPT && bytes != [] && Run(d, bytes).state == ACCEPT
    ensures IsScalar(v) && EncodeScalar(v) <= bytes
  {
    var a := bytes[0];
    var d1 := Decode(d, a);
    v := a;
    FirstByte(d, a);
    if d1.state == REJECT {
      RejectIsFinal(d1, bytes[1..]);
    } else if d1.state != ACCEPT {
      AcceptedInputGoesOn(d1, bytes[1..]);
      var b := bytes[1];
      if Missing(d1.state) == 1 {
        v := Join(a - 0xC0, b);
        TwoByteEncoding(a, b);
      } else if Missing(d1.state) == 2 {
        assert bytes[2] == bytes[1..][1];
        v := Join(Join(a - 0xE0, b), bytes[2]);
        ThreeByteEncoding(a, b, bytes[2]);
      } else {
        assert bytes[2] == bytes[1..][1] && bytes[3] == bytes[1..][2];
        v := Join(Join(Join(a - 0xF0, b), bytes[2]), bytes[3]);
        FourByteEncoding(a, b, bytes[2], bytes[3]);
      }
    }
  }

  // ----- whole strings

  lemma {:induction false} AllIsRead(d: Dfa, vs: seq<nat>)
    requires d.state == ACCEPT && AreScalars(vs)
    ensures Run(d, EncodeAll(vs)) == Dfa(ACCEPT, if vs == [] then d.codep else vs[|vs| - 1])
    decreases |vs|
  {
    if vs == [] {
    } else {
      CharacterIsRead(d, vs[0]);
      RunConcat(d, EncodeScalar(vs[0]), EncodeAll(vs[1..]));
      AllIsRead(Dfa(ACCEPT, vs[0]), vs[1..]);
    }
  }

  lemma {:induction false} AcceptedIsWellFormed(d: Dfa, bytes: Bytes) returns (vs: seq<nat>)
    requires d.state == ACCEPT && Run(d, bytes).state == ACCEPT
    ensures AreScalars(vs) && EncodeAll(vs) == bytes
    decreases |bytes|
  {
    vs := [];
    if bytes == [] {
    } else {
      var v := AcceptedInputStartsWithACharacter(d, bytes);
      var n := |EncodeScalar(v)|;
      CharacterIsRead(d, v);
      assert bytes == EncodeScalar(v) + bytes[n..];
      RunConcat(d, EncodeScalar(v), bytes[n..]);
      var more := AcceptedIsWellFormed(Dfa(ACCEPT, v), bytes[n..]);
      vs := [v] + more;
      assert vs[1..] == more;
    }
  }

  /** The automaton is in ACCEPT exactly when the bytes read so far are well-formed, and then
      holds the number of the last character. */
  lemma AcceptMeansWellFormed(bytes: Bytes)
    ensures Run(START, bytes).state == ACCEPT <==> WellFormed(bytes)
    ensures forall vs :: AreScalars(vs) && vs != [] && EncodeAll(vs) == bytes ==>
              Run(START, bytes).codep == vs[|vs| - 1]
  {
    if Run(START, bytes).state == ACCEPT {
      var vs := AcceptedIsWellFormed(START, bytes);
    }
    forall vs | AreScalars(vs) && EncodeAll(vs) == bytes
      ensures Run(START, bytes) == Dfa(ACCEPT, if vs == [] then 0 else vs[|vs| - 1])
    {
      AllIsRead(START, vs);
    }
  }

  /** Bytes that bring any state but REJECT back to ACCEPT. */
  function Filling(state: nat): Bytes {
    match state
    case 24 => [0x80]
    case 36 => [0x80, 0x80]
    case 48 => [0xA0, 0x80]
    case 60 => [0x80, 0x80]
    case 72 => [0x90, 0x80, 0x80]
    case 84 => [0x80, 0x80, 0x80]
    case 96 => [0x80, 0x80, 0x80]
    case _ => []
  }

  lemma FillingReachesAccept(d: Dfa)
    requires IsState(d.state) && d.state != REJECT
    ensures Run(d, Filling(d.state)).state == ACCEPT
  {
    var f := Filling(d.state);
    if d.state != ACCEPT {
      LaterByte(d, f[0]);
      var d2 := Decode(d, f[0]);
      if |f| > 1 {
        LaterByte(d2, f[1]);
        var d3 := Decode(d2, f[1]);
        if |f| > 2 {
          LaterByte(d3, f[2]);
          assert f[1..][1..] == [f[2]];
          RunOne(d3, f[2]);
        } else {
          assert f[1..] == [f[1]];
          RunOne(d2, f[1]);
        }
      } else {
        assert f == [f[0]];
        RunOne(d, f[0]);
      }
    }
  }

  /** The checker never looks at the state it ends in: it says yes exactly to the prefixes of
      well-formed strings. */
  lemma ValidatesExactlyPrefixes(bytes: Bytes)
    ensures Validates(bytes) <==> exists more :: WellFormed(bytes + more)
  {
    var d := Run(START, bytes);
    if d.state != REJECT {
      FillingReachesAccept(d);
      RunConcat(START, bytes, Filling(d.state));
      AcceptMeansWellFormed(bytes + Filling(d.state));
    } else {
      forall more
        ensures !WellFormed(bytes + more)
      {
        RunConcat(START, bytes, more);
        RejectIsFinal(d, more);
        AcceptMeansWellFormed(bytes + more);
      }
    }
  }

  lemma PrependCharacter(v: nat, rest: Bytes)
    requires IsScalar(v)
    ensures WellFormed(rest) ==> WellFormed(EncodeScalar(v) + rest)
    ensures CutShort(rest) ==> CutShort(EncodeScalar(v) + rest)
  {
    if WellFormed(rest) {
      var vs :| AreScalars(vs) && EncodeAll(vs) == rest;
      assert ([v] + vs)[1..] == vs;
      assert EncodeAll([v] + vs) == EncodeScalar(v) + rest;
    }
    if CutShort(rest) {
      var vs, last, n :| AreScalars(vs) && IsScalar(last) && 0 < n < |EncodeScalar(last)|
                         && rest == EncodeAll(vs) + EncodeScalar(last)[..n];
      assert ([v] + vs)[1..] == vs;
      assert EncodeScalar(v) + rest == EncodeAll([v] + vs) + EncodeScalar(last)[..n];
    }
  }

  /** A prefix of a well-formed string is well-formed or cut short. */
  lemma {:induction false} PrefixIsWholeOrCut(bytes: Bytes, vs: seq<nat>)
    requires AreScalars(vs) && bytes <= EncodeAll(vs)
    ensures WellFormed(bytes) || CutShort(bytes)
    decreases |vs|
  {
    var none: seq<nat> := [];
    if bytes == [] {
      assert EncodeAll(none) == bytes;
    } else {
      var e := EncodeScalar(vs[0]);
      if |bytes| < |e| {
        assert bytes == EncodeAll(none) + e[..|bytes|];
      } else {
        assert bytes == e + bytes[|e|..];
        PrefixIsWholeOrCut(bytes[|e|..], vs[1..]);
        PrependCharacter(vs[0], bytes[|e|..]);
      }
    }
  }

  lemma CutShortIsNeither(bytes: Bytes)
    requires CutShort(bytes)
    ensures Validates(bytes) && !WellFormed(bytes)
  {
    var vs, v, n :| AreScalars(vs) && IsScalar(v) && 0 < n < |EncodeScalar(v)|
                    && bytes == EncodeAll(vs) + EncodeScalar(v)[..n];
    AllIsRead(START, vs);
    var d := Run(START, EncodeAll(vs));
    RunConcat(START, EncodeAll(vs), EncodeScalar(v)[..n]);
    CharacterIsRead(d, v);
    AcceptMeansWellFormed(bytes);
  }

  /** The checker is documented to tell well-formed strings from all others.  It does, exactly
      unless the string is well-formed but for a last character that is cut short. */
  lemma VerdictIsRightExactlyUnlessCutShort(bytes: Bytes)
    ensures (Validates(bytes) <==> WellFormed(bytes)) <==> !CutShort(bytes)
  {
    AcceptMeansWellFormed(bytes);
    ValidatesExactlyPrefixes(bytes);
    if CutShort(bytes) {
      CutShortIsNeither(bytes);
    } else if Validates(bytes) {
      var more :| WellFormed(bytes + more);
      var vs :| AreScalars(vs) && EncodeAll(vs) == bytes + more;
      PrefixIsWholeOrCut(bytes, vs);
    }
  }

  /** The shortest string on which the checker is wrong. */
  lemma LoneFirstByteIsValidated()
    ensures Validates([0xC3]) && !WellFormed([0xC3])
  {
    var e := EncodeScalar(0xC0);
    var none: seq<nat> := [];
    assert e[..1] == [0xC3];
    assert [0xC3] == EncodeAll(none) + e[..1];
    assert CutShort([0xC3]);
    CutShortIsNeither([0xC3]);
  }
}
