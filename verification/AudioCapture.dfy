/**
 A captured source, reduced to the output format as it comes in and kept in a bounded buffer.
 */
module AudioCapture {
  import opened Wrappers
  import opened ByteStrings

  const BYTES_PER_FRAME := 4
  const DECIMATION := 3

  // ----- sixteen bit samples, little endian

  predicate IsSample(x: int) {
    -0x8000 <= x <= 0x7FFF
  }

  function Signed(low: byte, high: byte): (x: int)
    ensures IsSample(x)
  {
    var n := 256 * high as int + low as int;
    if n >= 0x8000 then n - 0x1_0000 else n
  }

  function Packed(x: int): Bytes
    requires IsSample(x)
  {
    var n := if x < 0 then x + 0x1_0000 else x;
    [n % 256, n / 256]
  }

  function SampleAt(block: Bytes, k: nat): (x: int)
    requires 2 * k + 1 < |block|
    ensures IsSample(x)
  {
    Signed(block[2 * k], block[2 * k + 1])
  }

  type Sample = x: int | IsSample(x)

  function PackedAll(samples: seq<Sample>): (b: Bytes)
    ensures |b| == 2 * |samples|
  {
    if samples == [] then [] else Packed(samples[0]) + PackedAll(samples[1..])
  }

  lemma SignedOfPacked(x: Sample)
    ensures Signed(Packed(x)[0], Packed(x)[1]) == x
  {
    var n := if x < 0 then x + 0x1_0000 else x;
    assert Packed(x) == [n % 256, n / 256];
    assert 256 * (n / 256) + n % 256 == n;
  }

  lemma PackedOfSigned(low: byte, high: byte)
    ensures Packed(Signed(low, high)) == [low, high]
  {
    var n := 256 * high as int + low as int;
    assert n % 256 == low && n / 256 == high;
  }

  lemma {:induction false} PackedAllConcat(a: seq<Sample>, b: seq<Sample>)
    ensures PackedAll(a + b) == PackedAll(a) + PackedAll(b)
    decreases |a|
  {
    if a == [] {
      assert a + b == b;
    } else {
      PackedAllConcat(a[1..], b);
      assert (a + b)[1..] == a[1..] + b;
      Reassociate(Packed(a[0]), PackedAll(a[1..]), PackedAll(b));
    }
  }

  // ----- the reduction of a block

  /** The average of the two channels, rounded down. */
  function Average(left: Sample, right: Sample): Sample {
    var sum: int := left as int + right as int;
    assert IsSample(left) && IsSample(right);
    assert 2 * (sum / 2) <= sum < 2 * (sum / 2) + 2;
    sum / 2
  }

  function AverageAt(block: Bytes, frame: nat): Sample
    requires BYTES_PER_FRAME * frame + 3 < |block|
  {
    var k := BYTES_PER_FRAME * frame;
    Average(Signed(block[k], block[k + 1]), Signed(block[k + 2], block[k + 3]))
  }

  /** How many frames one in three leaves. */
  function Kept(frames: nat): nat {
    (frames + DECIMATION - 1) / DECIMATION
  }

  function KeptSamples(block: Bytes, frames: nat): seq<Sample>
    requires |block| == BYTES_PER_FRAME * frames
  {
    seq(Kept(frames), i requires 0 <= i < Kept(frames) => AverageAt(block, DECIMATION * i))
  }

  /** One frame in three, on one channel; unpacking wants whole frames. */
  function Downmix(block: Bytes, frames: nat): Bytes
    requires |block| == BYTES_PER_FRAME * frames
  {
    PackedAll(KeptSamples(block, frames))
  }

  lemma AverageInConcat(a: Bytes, b: Bytes, frame: nat, m: nat)
    requires |a| == 4 * m && 4 * frame + 3 < |a| + |b|
    ensures AverageAt(a + b, frame) == if frame < m then AverageAt(a, frame) else AverageAt(b, frame - m)
  {
    var k := 4 * frame;
    if frame < m {
      assert (a + b)[k] == a[k] && (a + b)[k + 1] == a[k + 1] && (a + b)[k + 2] == a[k + 2] && (a + b)[k + 3] == a[k + 3];
    } else {
      var j := 4 * (frame - m);
      assert (a + b)[k] == b[j] && (a + b)[k + 1] == b[j + 1] && (a + b)[k + 2] == b[j + 2] && (a + b)[k + 3] == b[j + 3];
    }
  }

  lemma KeptSum(n: nat, frames: nat)
    ensures Kept(3 * n + frames) == n + Kept(frames)
  {
  }

  lemma KeptConcat(a: Bytes, b: Bytes, n: nat, frames: nat)
    requires |a| == 12 * n && |b| == 4 * frames
    ensures KeptSamples(a + b, 3 * n + frames) == KeptSamples(a, 3 * n) + KeptSamples(b, frames)
  {
    KeptSum(n, 0);
    KeptSum(n, frames);
    var left, right := KeptSamples(a + b, 3 * n + frames), KeptSamples(a, 3 * n) + KeptSamples(b, frames);
    forall i | 0 <= i < |left|
      ensures left[i] == right[i]
    {
      AverageInConcat(a, b, 3 * i, 3 * n);
      assert 3 * i - 3 * n == 3 * (i - n);
    }
  }

  lemma {:induction false} PackedSampleAt(samples: seq<Sample>, k: nat)
    requires k < |samples|
    ensures SampleAt(PackedAll(samples), k) == samples[k]
    decreases k
  {
    var rest := PackedAll(samples[1..]);
    assert PackedAll(samples) == Packed(samples[0]) + rest;
    if k == 0 {
      SignedOfPacked(samples[0]);
    } else {
      PackedSampleAt(samples[1..], k - 1);
      assert PackedAll(samples)[2 * k] == rest[2 * (k - 1)];
      assert PackedAll(samples)[2 * k + 1] == rest[2 * (k - 1) + 1];
    }
  }

  lemma AverageIsTheMean(block: Bytes, frame: nat)
    requires BYTES_PER_FRAME * frame + 3 < |block|
    ensures var sum := SampleAt(block, 2 * frame) + SampleAt(block, 2 * frame + 1);
      sum - 1 <= 2 * AverageAt(block, frame) <= sum
  {
  }

  lemma KeptSampleAt(block: Bytes, frames: nat, k: nat)
    requires |block| == BYTES_PER_FRAME * frames && 3 * k < frames
    ensures k < Kept(frames) && KeptSamples(block, frames)[k] == AverageAt(block, 3 * k)
  {
  }

  /** The reduction keeps frames 0, 3, 6 and so on, each as the average of its two channels
      rounded down. */
  lemma DownmixAveragesOneFrameInThree(block: Bytes, frames: nat, k: nat)
    requires |block| == BYTES_PER_FRAME * frames && 3 * k < frames
    ensures |Downmix(block, frames)| == 2 * Kept(frames) && 2 * k + 1 < |Downmix(block, frames)|
    ensures var left, right := SampleAt(block, 6 * k), SampleAt(block, 6 * k + 1);
      var mean := SampleAt(Downmix(block, frames), k);
      left + right - 1 <= 2 * mean <= left + right
  {
    KeptSampleAt(block, frames, k);
    PackedSampleAt(KeptSamples(block, frames), k);
    AverageIsTheMean(block, 3 * k);
  }

  /** A whole number of output frames can be reduced on its own. */
  lemma DownmixConcat(a: Bytes, b: Bytes, n: nat, frames: nat)
    requires |a| == 12 * n && |b| == 4 * frames
    ensures Downmix(a + b, 3 * n + frames) == Downmix(a, 3 * n) + Downmix(b, frames)
  {
    KeptConcat(a, b, n, frames);
    PackedAllConcat(KeptSamples(a, 3 * n), KeptSamples(b, frames));
  }

  // ----- a source

  /** The two formats the mixer accepts: what is carried in the legacy form, and the captured
      form itself. */
  datatype Format = Legacy | Stereo

  /** Input bytes that make whole output frames. */
  function InputBytes(f: Format): (n: nat)
    ensures n > 0
  {
    if f == Stereo then BYTES_PER_FRAME else BYTES_PER_FRAME * DECIMATION
  }

  /** The size of so many of them. */
  function InputSize(f: Format, groups: nat): nat {
    if f == Stereo then 4 * groups else 12 * groups
  }

  function OutputSize(f: Format, groups: nat): nat {
    if f == Stereo then 4 * groups else 2 * groups
  }

  /** Whether some bytes are a whole number of output frames. */
  predicate AreFrames(f: Format, size: nat) {
    if f == Stereo then size % 4 == 0 else size % 2 == 0
  }

  /** Twenty milliseconds at 48 kHz in stereo, or at 16 kHz on one channel. */
  function BlockSamples(f: Format): nat {
    if f == Stereo then 1920 else 320
  }

  function BlockBytes(f: Format): nat {
    2 * BlockSamples(f)
  }

  function MaxPending(f: Format): nat {
    25 * BlockBytes(f)
  }

  function Reduce(f: Format, block: Bytes, groups: nat): (reduced: Bytes)
    requires |block| == InputSize(f, groups)
    ensures |reduced| == OutputSize(f, groups)
  {
    if f == Stereo then block
    else
      KeptSum(groups, 0);
      Downmix(block, 3 * groups)
  }

  lemma LegacyConcat(a: Bytes, b: Bytes, n: nat, m: nat, all: nat)
    requires |a| == 12 * n && |b| == 12 * m && all == n + m
    ensures |a + b| == 12 * all
    ensures Downmix(a + b, 3 * all) == Downmix(a, 3 * n) + Downmix(b, 3 * m)
  {
    DownmixConcat(a, b, n, 3 * m);
    assert 3 * all == 3 * n + 3 * m;
  }

  lemma ReduceConcat(f: Format, a: Bytes, b: Bytes, n: nat, m: nat)
    requires |a| == InputSize(f, n) && |b| == InputSize(f, m)
    ensures Reduce(f, a + b, n + m) == Reduce(f, a, n) + Reduce(f, b, m)
  {
    if f == Legacy {
      LegacyConcat(a, b, n, m, n + m);
    }
  }

  /** Whole output frames of the bytes. */
  function Groups(f: Format, bytes: Bytes): nat {
    if f == Stereo then |bytes| / 4 else |bytes| / 12
  }

  function Whole(f: Format, bytes: Bytes): (whole: Bytes)
    ensures |whole| == InputSize(f, Groups(f, bytes))
  {
    bytes[..InputSize(f, Groups(f, bytes))]
  }

  function Remainder(f: Format, bytes: Bytes): Bytes {
    bytes[InputSize(f, Groups(f, bytes))..]
  }

  /** The reduction of the whole output frames of some bytes, all at once. */
  function Reduced(f: Format, bytes: Bytes): Bytes {
    Reduce(f, Whole(f, bytes), Groups(f, bytes))
  }

  datatype State = State(rest: Bytes, buffer: Bytes)

  datatype Event = Feed(block: Bytes) | Take(size: nat)

  datatype Segment = Taken(bytes: Bytes) | Dropped(bytes: Bytes)

  /** The oldest sound makes room when there is too much. */
  function Bounded(f: Format, buffer: Bytes): (Bytes, seq<Segment>) {
    if |buffer| <= MaxPending(f) then (buffer, [])
    else
      var excess := |buffer| - MaxPending(f);
      (buffer[excess..], [Dropped(buffer[..excess])])
  }

  /** The state after an event and what left the buffer, dropped or taken. */
  function Step(f: Format, s: State, e: Event): (State, seq<Segment>) {
    match e
    case Feed(block) =>
      var all := s.rest + block;
      if Groups(f, all) == 0 then (State(all, s.buffer), [])
      else
        var (buffer, segments) := Bounded(f, s.buffer + Reduced(f, all));
        (State(Remainder(f, all), buffer), segments)
    case Take(size) =>
      if s.buffer == [] then (s, [])
      else
        var n := if size < |s.buffer| then size else |s.buffer|;
        (s.(buffer := s.buffer[n..]), [Taken(s.buffer[..n])])
  }

  function Zeros(count: nat): Bytes {
    seq(count, i => 0)
  }

  /** What a take hands over, filled up with silence; nothing when the buffer is empty. */
  function Handed(size: nat, segments: seq<Segment>): Option<Bytes> {
    if segments == [] then None
    else
      var taken := segments[0].bytes;
      Some(if |taken| < size then taken + Zeros(size - |taken|) else taken)
  }

  /** So many bytes of some sound from a place on, and silence after its end. */
  function Window(sound: Bytes, from: nat, size: nat): Bytes {
    seq(size, i requires 0 <= i < size => if from + i < |sound| then sound[from + i] else 0)
  }

  lemma WindowIsTaken(buffer: Bytes, size: nat)
    ensures var taken := buffer[..if size < |buffer| then size else |buffer|];
      (if |taken| < size then taken + Zeros(size - |taken|) else taken) == Window(buffer, 0, size)
  {
  }

  lemma WindowFromHere(sound: Bytes, from: nat, size: nat)
    requires from <= |sound|
    ensures Window(sound, from, size) == Window(sound[from..], 0, size)
  {
  }

  lemma UsableIsWhole(f: Format, block: Bytes, usable: int)
    requires usable == |block| - |block| % InputBytes(f)
    ensures 0 <= usable <= |block|
    ensures block[..usable] == Whole(f, block) && block[usable..] == Remainder(f, block)
    ensures usable == 0 <==> Groups(f, block) == 0
    ensures usable == 0 ==> block[usable..] == block
  {
  }

  class Source {
    const f: Format
    var rest: Bytes
    var buffer: Bytes

    constructor (f: Format)
      ensures this.f == f && Value() == State([], [])
    {
      this.f := f;
      rest, buffer := [], [];
    }

    function Value(): State
      reads this
    {
      State(rest, buffer)
    }

    method FeedBlock(fed: Bytes)
      modifies this
      ensures Value() == Step(f, old(Value()), Feed(fed)).0
    {
      var block := rest + fed;
      var usable := |block| - |block| % InputBytes(f);
      UsableIsWhole(f, block, usable);
      rest := block[usable..];
      if usable == 0 {
        return;
      }
      buffer := buffer + Reduce(f, block[..usable], Groups(f, block));
      var excess := |buffer| - MaxPending(f);
      if excess > 0 {
        buffer := buffer[excess..];
      }
    }

    method TakeBlock(size: nat) returns (block: Option<Bytes>)
      modifies this
      ensures Value() == Step(f, old(Value()), Take(size)).0
      ensures block == Handed(size, Step(f, old(Value()), Take(size)).1)
      ensures block == if old(buffer) == [] then None else Some(Window(old(buffer), 0, size))
      ensures buffer == if size < |old(buffer)| then old(buffer)[size..] else []
    {
      if buffer == [] {
        return None;
      }
      WindowIsTaken(buffer, size);
      var n := if size < |buffer| then size else |buffer|;
      var taken := buffer[..n];
      buffer := buffer[n..];
      if |taken| < size {
        taken := taken + Zeros(size - |taken|);
      }
      block := Some(taken);
    }
  }

  // ----- every run of a source

  datatype History = History(captured: Bytes, segments: seq<Segment>)

  function Run(f: Format, events: seq<Event>): (State, History)
    decreases |events|
  {
    if events == [] then (State([], []), History([], []))
    else
      var n := |events| - 1;
      var (s, h) := Run(f, events[..n]);
      var (after, segments) := Step(f, s, events[n]);
      (after, History(h.captured + (if events[n].Feed? then events[n].block else []), h.segments + segments))
  }

  function BytesOf(segments: seq<Segment>): Bytes {
    if segments == [] then [] else segments[0].bytes + BytesOf(segments[1..])
  }

  lemma {:induction false} BytesOfConcat(a: seq<Segment>, b: seq<Segment>)
    ensures BytesOf(a + b) == BytesOf(a) + BytesOf(b)
    decreases |a|
  {
    if a == [] {
      assert a + b == b;
    } else {
      BytesOfConcat(a[1..], b);
      assert (a + b)[1..] == a[1..] + b;
      Reassociate(a[0].bytes, BytesOf(a[1..]), BytesOf(b));
    }
  }

  lemma BytesOfOne(segment: Segment)
    ensures BytesOf([segment]) == segment.bytes
  {
  }

  lemma SizesAdd(f: Format, a: Bytes, b: Bytes, all: Bytes)
    requires all == Remainder(f, a) + b
    ensures Groups(f, a + b) == Groups(f, a) + Groups(f, all)
    ensures InputSize(f, Groups(f, a + b)) == InputSize(f, Groups(f, a)) + InputSize(f, Groups(f, all))
  {
    var n := Groups(f, a);
    assert |a + b| == InputSize(f, n) + |all|;
    if f == Stereo {
      assert (4 * n + |all|) / 4 == n + |all| / 4;
    } else {
      assert (12 * n + |all|) / 12 == n + |all| / 12;
    }
  }

  lemma SlicesOfConcat(a: Bytes, b: Bytes, m: nat)
    requires m <= |b|
    ensures (a + b)[..|a| + m] == a + b[..m] && (a + b)[|a| + m..] == b[m..]
  {
  }

  /** Cutting the bytes elsewhere first changes nothing. */
  lemma WholeInConcat(f: Format, a: Bytes, b: Bytes, all: Bytes)
    requires all == Remainder(f, a) + b
    ensures Groups(f, a + b) == Groups(f, a) + Groups(f, all)
    ensures Whole(f, a + b) == Whole(f, a) + Whole(f, all)
    ensures Remainder(f, a + b) == Remainder(f, all)
  {
    SizesAdd(f, a, b, all);
    assert a + b == Whole(f, a) + all;
    SlicesOfConcat(Whole(f, a), all, InputSize(f, Groups(f, all)));
  }

  lemma ReducedConcat(f: Format, a: Bytes, b: Bytes, all: Bytes)
    requires all == Remainder(f, a) + b
    ensures Reduced(f, a + b) == Reduced(f, a) + Reduced(f, all)
  {
    WholeInConcat(f, a, b, all);
    ReduceConcat(f, Whole(f, a), Whole(f, all), Groups(f, a), Groups(f, all));
  }

  /** The state of a source that has captured some bytes and let some go. */
  ghost predicate Streams(f: Format, s: State, h: History) {
    && s.rest == Remainder(f, h.captured)
    && BytesOf(h.segments) + s.buffer == Reduced(f, h.captured)
  }

  lemma BoundedKeepsBytes(f: Format, buffer: Bytes)
    ensures BytesOf(Bounded(f, buffer).1) + Bounded(f, buffer).0 == buffer
  {
    if |buffer| > MaxPending(f) {
      var excess := |buffer| - MaxPending(f);
      BytesOfOne(Dropped(buffer[..excess]));
      assert buffer[..excess] + buffer[excess..] == buffer;
    } else {
      assert [] + buffer == buffer;
    }
  }

  /** The bytes that left and those still there are the bytes before and the new ones. */
  lemma Repartition(gone: Bytes, buffer: Bytes, reduced: Bytes, leaving: Bytes, left: Bytes)
    requires leaving + left == buffer + reduced
    ensures (gone + leaving) + left == (gone + buffer) + reduced
  {
    Reassociate(gone, leaving, left);
    Reassociate(gone, buffer, reduced);
  }

  /** What a block adds to what goes out. */
  lemma FeedAdds(f: Format, s: State, block: Bytes)
    ensures var all := s.rest + block;
      var (after, segments) := Step(f, s, Feed(block));
      && after.rest == Remainder(f, all)
      && BytesOf(segments) + after.buffer == s.buffer + Reduced(f, all)
  {
    var all := s.rest + block;
    var reduced := Reduced(f, all);
    if Groups(f, all) == 0 {
      assert reduced == [];
      assert [] + s.buffer == s.buffer + [];
      assert all == Remainder(f, all);
    } else {
      BoundedKeepsBytes(f, s.buffer + reduced);
    }
  }

  lemma FeedStreams(f: Format, s: State, h: History, block: Bytes)
    requires Streams(f, s, h)
    ensures var (after, segments) := Step(f, s, Feed(block));
      Streams(f, after, History(h.captured + block, h.segments + segments))
  {
    var all := s.rest + block;
    var (after, segments) := Step(f, s, Feed(block));
    WholeInConcat(f, h.captured, block, all);
    ReducedConcat(f, h.captured, block, all);
    FeedAdds(f, s, block);
    BytesOfConcat(h.segments, segments);
    Repartition(BytesOf(h.segments), s.buffer, Reduced(f, all), BytesOf(segments), after.buffer);
  }

  lemma TakeStreams(f: Format, s: State, h: History, size: nat)
    requires Streams(f, s, h)
    ensures var (after, segments) := Step(f, s, Take(size));
      Streams(f, after, History(h.captured, h.segments + segments))
  {
    var (after, segments) := Step(f, s, Take(size));
    if s.buffer == [] {
      assert h.segments + [] == h.segments;
    } else {
      BytesOfConcat(h.segments, segments);
      BytesOfOne(segments[0]);
      Reassociate(BytesOf(h.segments), BytesOf(segments), after.buffer);
      assert BytesOf(segments) + after.buffer == s.buffer;
    }
  }

  lemma StartStreams(f: Format)
    ensures Streams(f, State([], []), History([], []))
  {
    assert |Reduced(f, [])| == 0;
  }

  lemma StepStreams(f: Format, s: State, h: History, e: Event)
    requires Streams(f, s, h)
    ensures var (after, segments) := Step(f, s, e);
      Streams(f, after, History(h.captured + (if e.Feed? then e.block else []), h.segments + segments))
  {
    match e
    case Feed(block) => FeedStreams(f, s, h, block);
    case Take(size) =>
      TakeStreams(f, s, h, size);
      assert h.captured + [] == h.captured;
  }

  lemma {:induction false} RunStreams(f: Format, events: seq<Event>)
    ensures Streams(f, Run(f, events).0, Run(f, events).1)
    decreases |events|
  {
    if events == [] {
      StartStreams(f);
    } else {
      var n := |events| - 1;
      RunStreams(f, events[..n]);
      StepStreams(f, Run(f, events[..n]).0, Run(f, events[..n]).1, events[n]);
    }
  }

  /** However the captured bytes are cut into blocks, what a source emits is the reduction of
      all the whole output frames captured so far, taken at once: what was taken, what was
      dropped and what is buffered cut it up in order, and only an incomplete frame waits. */
  lemma {:induction false} StreamingEqualsBatch(f: Format, events: seq<Event>)
    ensures var (s, h) := Run(f, events);
      && BytesOf(h.segments) + s.buffer == Reduced(f, h.captured)
      && h.captured == Whole(f, h.captured) + s.rest
      && |s.rest| < InputBytes(f)
  {
    RunStreams(f, events);
    WholeAndRemainder(f, Run(f, events).1.captured);
  }

  lemma WholeAndRemainder(f: Format, bytes: Bytes)
    ensures bytes == Whole(f, bytes) + Remainder(f, bytes) && |Remainder(f, bytes)| < InputBytes(f)
  {
  }

  predicate TakesFrames(f: Format, events: seq<Event>) {
    forall e <- events :: e.Take? ==> AreFrames(f, e.size)
  }

  predicate IsAligned(f: Format, buffer: Bytes) {
    AreFrames(f, |buffer|) && |buffer| <= MaxPending(f)
  }

  lemma FramesAddUp(f: Format, a: nat, b: nat)
    requires AreFrames(f, a) && AreFrames(f, b)
    ensures AreFrames(f, a + b) && (a >= b ==> AreFrames(f, a - b))
  {
    var n, m := if f == Stereo then a / 4 else a / 2, if f == Stereo then b / 4 else b / 2;
    assert a == OutputSize(f, n) && b == OutputSize(f, m);
    SizeIsFrames(f, n + m);
    if a >= b {
      SizeIsFrames(f, n - m);
    }
  }

  lemma SizeIsFrames(f: Format, n: nat)
    ensures AreFrames(f, OutputSize(f, n))
  {
    if f == Stereo {
      assert (4 * n) % 4 == 0;
    } else {
      assert (2 * n) % 2 == 0;
    }
  }

  lemma ReducedIsFrames(f: Format, bytes: Bytes)
    ensures AreFrames(f, |Reduced(f, bytes)|)
  {
    SizeIsFrames(f, Groups(f, bytes));
  }

  lemma LimitIsFrames(f: Format)
    ensures AreFrames(f, MaxPending(f)) && AreFrames(f, BlockBytes(f))
  {
  }

  lemma StepKeepsAligned(f: Format, s: State, e: Event)
    requires IsAligned(f, s.buffer) && (e.Take? ==> AreFrames(f, e.size))
    ensures IsAligned(f, Step(f, s, e).0.buffer)
  {
    match e
    case Feed(block) =>
      var all := s.rest + block;
      ReducedIsFrames(f, all);
      FramesAddUp(f, |s.buffer|, |Reduced(f, all)|);
      LimitIsFrames(f);
    case Take(size) =>
      FramesAddUp(f, |s.buffer|, size);
  }

  /** With block-sized takes, the buffer stays a whole number of output frames within its limit,
      across drops. */
  lemma {:induction false} BufferStaysAligned(f: Format, events: seq<Event>)
    requires TakesFrames(f, events)
    ensures IsAligned(f, Run(f, events).0.buffer)
    decreases |events|
  {
    if events == [] {
    } else {
      var n := |events| - 1;
      BufferStaysAligned(f, events[..n]);
      assert events[n] in events;
      StepKeepsAligned(f, Run(f, events[..n]).0, events[n]);
    }
  }
}
