/** The mixer: every source's next block, summed sample by sample and clipped. */
module AudioMixer {
  import opened Wrappers
  import opened ByteStrings
  import opened AudioCapture

  /** Clipping to what a sixteen bit sample can hold. */
  function Clipped(x: int): Sample {
    if x > 32767 then 32767 else if x < -32768 then -32768 else x
  }

  function Distance(a: int, b: int): nat {
    if a < b then b - a else a - b
  }

  /** No sample is nearer to the number than what it is clipped to. */
  lemma ClippedIsNearest(x: int, other: Sample)
    ensures Distance(Clipped(x), x) <= Distance(other, x)
    ensures IsSample(x) ==> Clipped(x) == x
  {
    assert IsSample(other);
  }

  type Blocks = seq<Bytes>

  predicate HaveSamples(blocks: Blocks, count: nat) {
    forall i :: 0 <= i < |blocks| ==> |blocks[i]| == 2 * count
  }

  function SumAt(blocks: Blocks, count: nat, k: nat): int
    requires HaveSamples(blocks, count) && k < count
    decreases |blocks|
  {
    if blocks == [] then 0
    else SumAt(blocks[..|blocks| - 1], count, k) + SampleAt(blocks[|blocks| - 1], k)
  }

  function ClippedSums(blocks: Blocks, count: nat): seq<Sample>
    requires HaveSamples(blocks, count)
  {
    seq(count, k requires 0 <= k < count => Clipped(SumAt(blocks, count, k)))
  }

  // ----- the reference: exhausted sources are silence

  type Handouts = seq<Option<Bytes>>

  predicate AreHandouts(handouts: Handouts, count: nat) {
    forall i :: 0 <= i < |handouts| ==> handouts[i].Some? ==> |handouts[i].value| == 2 * count
  }

  function SampleOrSilence(handout: Option<Bytes>, k: nat): Sample
    requires handout.Some? ==> 2 * k + 1 < |handout.value|
  {
    if handout == None then 0 else SampleAt(handout.value, k)
  }

  /** The sum of sample `k` over all sources. */
  function TrueSumAt(handouts: Handouts, count: nat, k: nat): int
    requires AreHandouts(handouts, count) && k < count
    decreases |handouts|
  {
    if handouts == [] then 0
    else
      var n := |handouts| - 1;
      TrueSumAt(handouts[..n], count, k) + SampleOrSilence(handouts[n], k)
  }

  /** Sample by sample, the clipped sum over all sources. */
  function MixOf(handouts: Handouts, count: nat): Bytes
    requires AreHandouts(handouts, count)
  {
    PackedAll(seq(count, k requires 0 <= k < count => Clipped(TrueSumAt(handouts, count, k))))
  }

  /** The blocks of the sources that had something. */
  function Present(handouts: Handouts): Blocks
    decreases |handouts|
  {
    if handouts == [] then []
    else
      var n := |handouts| - 1;
      Present(handouts[..n]) + if handouts[n].Some? then [handouts[n].value] else []
  }

  lemma {:induction false} PresentHaveSamples(handouts: Handouts, count: nat)
    requires AreHandouts(handouts, count)
    ensures HaveSamples(Present(handouts), count)
    decreases |handouts|
  {
    if handouts == [] {
    } else {
      PresentHaveSamples(handouts[..|handouts| - 1], count);
    }
  }

  lemma SumAtSnoc(blocks: Blocks, block: Bytes, count: nat, k: nat)
    requires HaveSamples(blocks, count) && |block| == 2 * count && k < count
    ensures HaveSamples(blocks + [block], count)
    ensures SumAt(blocks + [block], count, k) == SumAt(blocks, count, k) + SampleAt(block, k)
  {
    assert (blocks + [block])[..|blocks|] == blocks;
  }

  lemma {:induction false} SilenceAddsNothing(handouts: Handouts, count: nat, k: nat)
    requires AreHandouts(handouts, count) && k < count
    ensures HaveSamples(Present(handouts), count)
    ensures TrueSumAt(handouts, count, k) == SumAt(Present(handouts), count, k)
    decreases |handouts|
  {
    PresentHaveSamples(handouts, count);
    if handouts == [] {
    } else {
      var n := |handouts| - 1;
      SilenceAddsNothing(handouts[..n], count, k);
      if handouts[n].Some? {
        SumAtSnoc(Present(handouts[..n]), handouts[n].value, count, k);
      } else {
        assert Present(handouts) == Present(handouts[..n]);
      }
    }
  }

  lemma MixOfPresent(handouts: Handouts, count: nat)
    requires AreHandouts(handouts, count)
    ensures HaveSamples(Present(handouts), count)
    ensures MixOf(handouts, count) == PackedAll(ClippedSums(Present(handouts), count))
  {
    PresentHaveSamples(handouts, count);
    var left := seq(count, k requires 0 <= k < count => Clipped(TrueSumAt(handouts, count, k)));
    forall k | 0 <= k < count
      ensures left[k] == ClippedSums(Present(handouts), count)[k]
    {
      SilenceAddsNothing(handouts, count, k);
    }
    assert left == ClippedSums(Present(handouts), count);
  }

  // ----- the shortcuts

  function SamplesOf(block: Bytes, count: nat): seq<Sample>
    requires |block| == 2 * count
  {
    seq(count, k requires 0 <= k < count => SampleAt(block, k))
  }

  /** Packing what was unpacked restores the block. */
  lemma {:induction false} PackingRestores(block: Bytes, count: nat)
    requires |block| == 2 * count
    ensures PackedAll(SamplesOf(block, count)) == block
    decreases count
  {
    if count == 0 {
    } else {
      var samples := SamplesOf(block, count);
      PackingRestores(block[2..], count - 1);
      assert samples[1..] == SamplesOf(block[2..], count - 1);
      assert samples[0] == Signed(block[0], block[1]);
      PackedOfSigned(block[0], block[1]);
      assert block == [block[0], block[1]] + block[2..];
    }
  }

  lemma SumOfOne(block: Bytes, count: nat)
    requires |block| == 2 * count
    ensures ClippedSums([block], count) == SamplesOf(block, count)
  {
    forall k | 0 <= k < count
      ensures ClippedSums([block], count)[k] == SamplesOf(block, count)[k]
    {
      assert [] + [block] == [block];
      SumAtSnoc([], block, count, k);
    }
  }

  lemma SumOfNone(count: nat)
    ensures ClippedSums([], count) == SamplesOf(Zeros(2 * count), count)
  {
  }

  /** With no block the formula gives silence, with one the block itself. */
  lemma ShortcutsAgree(blocks: Blocks, count: nat)
    requires HaveSamples(blocks, count)
    ensures blocks == [] ==> PackedAll(ClippedSums(blocks, count)) == Zeros(2 * count)
    ensures |blocks| == 1 ==> PackedAll(ClippedSums(blocks, count)) == blocks[0]
  {
    if blocks == [] {
      SumOfNone(count);
      PackingRestores(Zeros(2 * count), count);
    } else if |blocks| == 1 {
      assert blocks == [blocks[0]];
      SumOfOne(blocks[0], count);
      PackingRestores(blocks[0], count);
    }
  }

  // ----- the order of the sources

  lemma {:induction false} SumWithout(blocks: Blocks, count: nat, k: nat, i: nat)
    requires HaveSamples(blocks, count) && k < count && i < |blocks|
    ensures HaveSamples(blocks[..i] + blocks[i + 1..], count)
    ensures SumAt(blocks, count, k) == SumAt(blocks[..i] + blocks[i + 1..], count, k) + SampleAt(blocks[i], k)
    decreases |blocks|
  {
    var n := |blocks| - 1;
    if i == n {
      assert blocks[..i] + blocks[i + 1..] == blocks[..n];
    } else {
      SumWithout(blocks[..n], count, k, i);
      var others := blocks[..n][..i] + blocks[..n][i + 1..];
      assert blocks[..i] + blocks[i + 1..] == others + [blocks[n]];
      SumAtSnoc(others, blocks[n], count, k);
    }
  }

  lemma MultisetWithout(blocks: Blocks, i: nat)
    requires i < |blocks|
    ensures multiset(blocks[..i] + blocks[i + 1..]) == multiset(blocks) - multiset{blocks[i]}
  {
    assert blocks == blocks[..i] + ([blocks[i]] + blocks[i + 1..]);
  }

  lemma IndexOf(blocks: Blocks, block: Bytes) returns (i: nat)
    requires block in multiset(blocks)
    ensures i < |blocks| && blocks[i] == block
  {
    i :| i < |blocks| && blocks[i] == block;
  }

  lemma {:induction false} SumIgnoresOrder(a: Blocks, b: Blocks, count: nat, k: nat)
    requires HaveSamples(a, count) && HaveSamples(b, count) && k < count
    requires multiset(a) == multiset(b)
    ensures SumAt(a, count, k) == SumAt(b, count, k)
    decreases |a|
  {
    if a == [] {
      assert |multiset(b)| == 0;
    } else {
      var n := |a| - 1;
      assert a[n] in multiset(a);
      var i := IndexOf(b, a[n]);
      MultisetWithout(b, i);
      MultisetWithout(a, n);
      assert a[..n] + a[n + 1..] == a[..n];
      SumWithout(b, count, k, i);
      SumIgnoresOrder(a[..n], b[..i] + b[i + 1..], count, k);
    }
  }

  lemma {:induction false} PresentKeepsCounts(handouts: Handouts, block: Bytes)
    ensures multiset(Present(handouts))[block] == multiset(handouts)[Some(block)]
    decreases |handouts|
  {
    if handouts == [] {
    } else {
      var n := |handouts| - 1;
      PresentKeepsCounts(handouts[..n], block);
      assert handouts == handouts[..n] + [handouts[n]];
    }
  }

  /** The mix does not depend on the order of the sources. */
  lemma MixIgnoresOrder(a: Handouts, b: Handouts, count: nat)
    requires AreHandouts(a, count) && AreHandouts(b, count) && multiset(a) == multiset(b)
    ensures MixOf(a, count) == MixOf(b, count)
  {
    MixOfPresent(a, count);
    MixOfPresent(b, count);
    forall block
      ensures multiset(Present(a))[block] == multiset(Present(b))[block]
    {
      PresentKeepsCounts(a, block);
      PresentKeepsCounts(b, block);
    }
    assert multiset(Present(a)) == multiset(Present(b));
    forall k | 0 <= k < count
      ensures ClippedSums(Present(a), count)[k] == ClippedSums(Present(b), count)[k]
    {
      SumIgnoresOrder(Present(a), Present(b), count, k);
    }
    assert ClippedSums(Present(a), count) == ClippedSums(Present(b), count);
  }

  // ----- the mixer

  /** Sums into a table, then clips it. */
  method Summed(blocks: Blocks, count: nat) returns (mix: Bytes)
    requires HaveSamples(blocks, count)
    ensures mix == PackedAll(ClippedSums(blocks, count))
  {
    var total := new int[count](i => 0);
    for j := 0 to |blocks|
      invariant forall k :: 0 <= k < count ==> total[k] == SumAt(blocks[..j], count, k)
    {
      Add(total, blocks, count, j);
    }
    assert blocks[..|blocks|] == blocks;
    for index := 0 to count
      invariant forall k :: 0 <= k < index ==> total[k] == Clipped(SumAt(blocks, count, k))
      invariant forall k :: index <= k < count ==> total[k] == SumAt(blocks, count, k)
    {
      if total[index] > 32767 {
        total[index] := 32767;
      } else if total[index] < -32768 {
        total[index] := -32768;
      }
    }
    assert total[..] == ClippedSums(blocks, count);
    mix := PackedAll(total[..]);
  }

  method Add(total: array<int>, blocks: Blocks, count: nat, j: nat)
    requires HaveSamples(blocks, count) && total.Length == count && j < |blocks|
    requires forall k :: 0 <= k < count ==> total[k] == SumAt(blocks[..j], count, k)
    modifies total
    ensures forall k :: 0 <= k < count ==> total[k] == SumAt(blocks[..j + 1], count, k)
  {
    assert blocks[..j + 1] == blocks[..j] + [blocks[j]];
    for index := 0 to count
      invariant forall k :: 0 <= k < index ==> total[k] == SumAt(blocks[..j + 1], count, k)
      invariant forall k :: index <= k < count ==> total[k] == SumAt(blocks[..j], count, k)
    {
      SumAtSnoc(blocks[..j], blocks[j], count, index);
      total[index] := total[index] + SampleAt(blocks[j], index);
    }
  }

  /** What a source hands over at a tick. */
  function NextHandout(f: Format, s: State): Option<Bytes> {
    Handed(BlockBytes(f), Step(f, s, Take(BlockBytes(f))).1)
  }

  lemma HandoutIsABlock(f: Format, s: State)
    ensures NextHandout(f, s).Some? ==> |NextHandout(f, s).value| == BlockBytes(f)
  {
  }

  class Mixer {
    const f: Format
    var sources: seq<Source>

    constructor (f: Format)
      ensures this.f == f && sources == []
    {
      this.f := f;
      sources := [];
    }

    /** Its sources are different objects of its own format. */
    predicate Valid()
      reads this
    {
      && (forall i :: 0 <= i < |sources| ==> sources[i].f == f)
      && (forall i, j :: 0 <= i < j < |sources| ==> sources[i] != sources[j])
    }

    ghost function Handouts(): Handouts
      reads this, sources
    {
      seq(|sources|, i requires 0 <= i < |sources| reads this, sources => NextHandout(f, sources[i].Value()))
    }

    method TakeAll() returns (handouts: Handouts)
      requires Valid()
      modifies sources
      ensures handouts == old(Handouts())
      ensures forall i :: 0 <= i < |sources| ==>
        sources[i].Value() == Step(f, old(sources[i].Value()), Take(BlockBytes(f))).0
    {
      handouts := [];
      for i := 0 to |sources|
        invariant handouts == old(Handouts())[..i]
        invariant forall j :: 0 <= j < i ==>
          sources[j].Value() == Step(f, old(sources[j].Value()), Take(BlockBytes(f))).0
        invariant forall j :: i <= j < |sources| ==> sources[j].Value() == old(sources[j].Value())
      {
        var block := sources[i].TakeBlock(BlockBytes(f));
        handouts := handouts + [block];
      }
    }

    /** One tick: every source gives up one block, and the mix is their clipped sum. */
    method Mix() returns (mix: Bytes)
      requires Valid()
      modifies sources
      ensures AreHandouts(old(Handouts()), BlockSamples(f))
      ensures mix == MixOf(old(Handouts()), BlockSamples(f))
      ensures |mix| == BlockBytes(f)
      ensures forall i :: 0 <= i < |sources| ==>
        sources[i].Value() == Step(f, old(sources[i].Value()), Take(BlockBytes(f))).0
    {
      HandoutsAreBlocks();
      var handouts := TakeAll();
      var blocks := Present(handouts);
      MixOfPresent(handouts, BlockSamples(f));
      ShortcutsAgree(blocks, BlockSamples(f));
      if blocks == [] {
        return Zeros(BlockBytes(f));
      }
      if |blocks| == 1 {
        return blocks[0];
      }
      mix := Summed(blocks, BlockSamples(f));
    }

    lemma HandoutsAreBlocks()
      ensures AreHandouts(Handouts(), BlockSamples(f))
    {
      forall i | 0 <= i < |sources|
        ensures Handouts()[i].Some? ==> |Handouts()[i].value| == BlockBytes(f)
      {
        HandoutIsABlock(f, sources[i].Value());
      }
    }
  }
}
