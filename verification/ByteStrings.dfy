/** Byte strings, and the concatenation of the pieces a byte string was cut into. */
module ByteStrings {

  type byte = x: int | 0 <= x < 256

  type Bytes = seq<byte>

  lemma Reassociate<T>(a: seq<T>, b: seq<T>, c: seq<T>)
    ensures a + (b + c) == (a + b) + c
  {
  }

  function Flatten<T>(pieces: seq<seq<T>>): seq<T> {
    if pieces == [] then [] else pieces[0] + Flatten(pieces[1..])
  }

  lemma {:induction false} FlattenConcat<T>(a: seq<seq<T>>, b: seq<seq<T>>)
    ensures Flatten(a + b) == Flatten(a) + Flatten(b)
  {
    if a == [] {
      assert a + b == b;
    } else {
      assert (a + b)[1..] == a[1..] + b;
      FlattenConcat(a[1..], b);
    }
  }

  lemma FlattenSnoc<T>(pieces: seq<seq<T>>, last: seq<T>)
    ensures Flatten(pieces + [last]) == Flatten(pieces) + last
  {
    FlattenConcat(pieces, [last]);
    assert Flatten([last]) == last + Flatten([]) == last;
  }

  lemma FlattenPrefixSnoc<T>(pieces: seq<seq<T>>, k: nat)
    requires k < |pieces|
    ensures Flatten(pieces[..k + 1]) == Flatten(pieces[..k]) + pieces[k]
  {
    assert pieces[..k + 1] == pieces[..k] + [pieces[k]];
    FlattenSnoc(pieces[..k], pieces[k]);
  }
}
