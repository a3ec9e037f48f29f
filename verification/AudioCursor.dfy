/**
 A source is a place in the sound it captured: what was fed only makes the sound longer, a take
 hands over what follows the place and moves it on, and the place is moved on when the sound gets
 too far ahead.  The mixer adds up what follows the places of all its sources.
 */
module AudioCursor {
  import opened Wrappers
  import opened ByteStrings
  import opened AudioCapture
  import opened AudioMixer

  // ----- the reference

  /** All that was fed, in order. */
  function Captured(events: seq<Event>): Bytes
    decreases |events|
  {
    if events == [] then []
    else
      var n := |events| - 1;
      Captured(events[..n]) + if events[n].Feed? then events[n].block else []
  }

  /** The reduction of its whole output frames, taken at once. */
  function Sound(f: Format, events: seq<Event>): Bytes {
    Reduced(f, Captured(events))
  }

  function Larger(a: int, b: int): int {
    if a < b then b else a
  }

  function Smaller(a: int, b: int): int {
    if a < b then a else b
  }

  /** Stereo at 48 kHz, or one channel at 16 kHz, in samples of two octets. */
  function BytesPerSecond(f: Format): nat {
    if f == Stereo then 48000 * 2 * 2 else 16000 * 2
  }

  lemma SizesInTime(f: Format)
    ensures 2 * MaxPending(f) == BytesPerSecond(f) && 50 * BlockBytes(f) == BytesPerSecond(f)
    ensures BlockBytes(f) == 2 * BlockSamples(f)
  {
  }

  /** How much of the sound is gone: a take goes on by what it asks for, up to the end, and after
      a feed no more than half a second is left. */
  function Place(f: Format, events: seq<Event>): nat
    decreases |events|
  {
    if events == [] then 0
    else
      var n := |events| - 1;
      var place := Place(f, events[..n]);
      match events[n]
      case Take(size) => Smaller(place + size, |Sound(f, events)|)
      case Feed(_) => Larger(place, |Sound(f, events)| - BytesPerSecond(f) / 2)
  }

  // ----- every run

  ghost predicate IsAtPlace(f: Format, s: State, captured: Bytes, place: nat) {
    && s.rest == Remainder(f, captured)
    && place <= |Reduced(f, captured)| <= place + MaxPending(f)
    && s.buffer == Reduced(f, captured)[place..]
  }

  lemma BoundedMovesOn(f: Format, sound: Bytes, place: nat)
    requires place <= |sound|
    ensures var place' := Larger(place, |sound| - MaxPending(f));
      0 <= place' <= |sound| <= place' + MaxPending(f) && Bounded(f, sound[place..]).0 == sound[place'..]
  {
  }

  lemma FeedStep(f: Format, s: State, block: Bytes, all: Bytes, more: Bytes)
    requires all == s.rest + block && more == Reduced(f, all)
    ensures Groups(f, all) == 0 ==>
      Step(f, s, Feed(block)).0 == State(all, s.buffer) && Remainder(f, all) == all && more == []
    ensures Groups(f, all) > 0 ==>
      Step(f, s, Feed(block)).0 == State(Remainder(f, all), Bounded(f, s.buffer + more).0)
  {
  }

  lemma FeedMovesOn(f: Format, s: State, block: Bytes, all: Bytes, sound: Bytes, more: Bytes, sound': Bytes, place: nat)
    requires all == s.rest + block && more == Reduced(f, all) && sound' == sound + more
    requires place <= |sound| <= place + MaxPending(f) && s.buffer == sound[place..]
    ensures var place' := Larger(place, |sound'| - MaxPending(f));
      && 0 <= place' <= |sound'| <= place' + MaxPending(f)
      && Step(f, s, Feed(block)).0 == State(Remainder(f, all), sound'[place'..])
  {
    FeedStep(f, s, block, all, more);
    assert s.buffer + more == sound'[place..];
    BoundedMovesOn(f, sound', place);
    assert more == [] ==> sound' == sound;
  }

  lemma FeedKeepsPlace(f: Format, s: State, before: Bytes, place: nat, block: Bytes, captured: Bytes)
    requires IsAtPlace(f, s, before, place) && captured == before + block
    ensures IsAtPlace(f, Step(f, s, Feed(block)).0, captured, Larger(place, |Reduced(f, captured)| - MaxPending(f)))
  {
    var all := s.rest + block;
    WholeInConcat(f, before, block, all);
    ReducedConcat(f, before, block, all);
    FeedMovesOn(f, s, block, all, Reduced(f, before), Reduced(f, all), Reduced(f, captured), place);
  }

  lemma TakeMovesOn(f: Format, s: State, sound: Bytes, place: nat, size: nat)
    requires place <= |sound| && s.buffer == sound[place..]
    ensures Step(f, s, Take(size)).0 == State(s.rest, sound[Smaller(place + size, |sound|)..])
  {
  }

  lemma TakeHandsOver(f: Format, s: State, sound: Bytes, place: nat, size: nat)
    requires place <= |sound| && s.buffer == sound[place..]
    ensures Handed(size, Step(f, s, Take(size)).1) ==
      if place == |sound| then None else Some(Window(sound, place, size))
  {
    WindowIsTaken(s.buffer, size);
    WindowFromHere(sound, place, size);
  }

  lemma TakeKeepsPlace(f: Format, s: State, captured: Bytes, place: nat, size: nat)
    requires IsAtPlace(f, s, captured, place)
    ensures IsAtPlace(f, Step(f, s, Take(size)).0, captured, Smaller(place + size, |Reduced(f, captured)|))
  {
    TakeMovesOn(f, s, Reduced(f, captured), place, size);
  }

  lemma StepKeepsPlace(f: Format, s: State, before: Bytes, place: nat, e: Event, captured: Bytes, place': int)
    requires IsAtPlace(f, s, before, place)
    requires captured == before + if e.Feed? then e.block else []
    requires place' ==
      match e
      case Take(size) => Smaller(place + size, |Reduced(f, captured)|)
      case Feed(_) => Larger(place, |Reduced(f, captured)| - MaxPending(f))
    ensures place' >= 0 && IsAtPlace(f, Step(f, s, e).0, captured, place')
  {
    match e
    case Feed(block) => FeedKeepsPlace(f, s, before, place, block, captured);
    case Take(size) =>
      assert captured == before;
      TakeKeepsPlace(f, s, before, place, size);
  }

  lemma {:induction false} RunIsAtPlace(f: Format, events: seq<Event>)
    ensures IsAtPlace(f, Run(f, events).0, Captured(events), Place(f, events))
    decreases |events|
  {
    if events == [] {
      StartStreams(f);
    } else {
      var n := |events| - 1;
      RunIsAtPlace(f, events[..n]);
      SizesInTime(f);
      StepKeepsPlace(f, Run(f, events[..n]).0, Captured(events[..n]), Place(f, events[..n]), events[n],
                     Captured(events), Place(f, events));
    }
  }

  /** In every run, what is buffered is the sound from the place on, half a second at most; and a take
      hands over the bytes that follow the place, filled up with silence, or nothing at the end. */
  lemma {:induction false} SourceIsAPlaceInTheSound(f: Format, events: seq<Event>, size: nat)
    ensures var s := Run(f, events).0;
      var sound, place := Sound(f, events), Place(f, events);
      && place <= |sound| <= place + BytesPerSecond(f) / 2
      && s.buffer == sound[place..]
      && Handed(size, Step(f, s, Take(size)).1) == if place == |sound| then None else Some(Window(sound, place, size))
  {
    SizesInTime(f);
    RunIsAtPlace(f, events);
    TakeHandsOver(f, Run(f, events).0, Sound(f, events), Place(f, events), size);
  }

  /** The sound in stereo is what was captured, and else one sample for each three frames, the
      average of the two channels of the first of them, rounded down; what is not yet a whole
      number of them waits. */
  lemma {:induction false} SoundIsWhatWasCaptured(f: Format, events: seq<Event>, k: nat)
    requires f == Legacy ==> k < |Captured(events)| / 12
    ensures var captured, sound := Captured(events), Sound(f, events);
      && (f == Stereo ==> sound == captured[..|captured| / 4 * 4])
      && (f == Legacy ==>
            && |sound| == 2 * (|captured| / 12)
            && var left, right := SampleAt(captured, 6 * k), SampleAt(captured, 6 * k + 1);
               left + right - 1 <= 2 * SampleAt(sound, k) <= left + right)
  {
    var captured := Captured(events);
    if f == Legacy {
      LegacySound(captured, k);
    }
  }

  lemma LegacySound(captured: Bytes, k: nat)
    requires k < |captured| / 12
    ensures var sound := Reduced(Legacy, captured);
      && |sound| == 2 * (|captured| / 12)
      && var left, right := SampleAt(captured, 6 * k), SampleAt(captured, 6 * k + 1);
         left + right - 1 <= 2 * SampleAt(sound, k) <= left + right
  {
    var groups, whole := Groups(Legacy, captured), Whole(Legacy, captured);
    DownmixAveragesOneFrameInThree(whole, 3 * groups, k);
    assert whole == captured[..12 * groups];
    assert SampleAt(whole, 6 * k) == SampleAt(captured, 6 * k);
    assert SampleAt(whole, 6 * k + 1) == SampleAt(captured, 6 * k + 1);
  }

  // ----- the mixer

  /** Sample `k` of what follows the place of a source, or silence. */
  function NextSample(f: Format, events: seq<Event>, k: nat): Sample {
    var window := Window(Sound(f, events), Place(f, events), 2 * k + 2);
    SampleAt(window, k)
  }

  /** Added up over all sources. */
  function NextSum(f: Format, runs: seq<seq<Event>>, k: nat): int
    decreases |runs|
  {
    if runs == [] then 0 else NextSum(f, runs[..|runs| - 1], k) + NextSample(f, runs[|runs| - 1], k)
  }

  /** What the sources hand over at a tick. */
  function HandoutsOf(f: Format, runs: seq<seq<Event>>): Handouts {
    seq(|runs|, i requires 0 <= i < |runs| => NextHandout(f, Run(f, runs[i]).0))
  }

  lemma HandoutsFit(f: Format, runs: seq<seq<Event>>)
    ensures AreHandouts(HandoutsOf(f, runs), BlockSamples(f))
  {
    forall i | 0 <= i < |runs|
      ensures HandoutsOf(f, runs)[i].Some? ==> |HandoutsOf(f, runs)[i].value| == 2 * BlockSamples(f)
    {
      HandoutIsABlock(f, Run(f, runs[i]).0);
    }
  }

  lemma HandoutSample(f: Format, events: seq<Event>, k: nat)
    requires k < BlockSamples(f)
    ensures var handout := NextHandout(f, Run(f, events).0);
      && (handout.Some? ==> 2 * k + 1 < |handout.value|)
      && SampleOrSilence(handout, k) == NextSample(f, events, k)
  {
    SourceIsAPlaceInTheSound(f, events, BlockBytes(f));
  }

  lemma {:induction false} SumIsOfTheSounds(f: Format, runs: seq<seq<Event>>, k: nat)
    requires k < BlockSamples(f)
    ensures AreHandouts(HandoutsOf(f, runs), BlockSamples(f))
    ensures TrueSumAt(HandoutsOf(f, runs), BlockSamples(f), k) == NextSum(f, runs, k)
    decreases |runs|
  {
    HandoutsFit(f, runs);
    if runs == [] {
    } else {
      var n := |runs| - 1;
      SumIsOfTheSounds(f, runs[..n], k);
      assert HandoutsOf(f, runs)[..n] == HandoutsOf(f, runs[..n]);
      HandoutSample(f, runs[n], k);
    }
  }

  /** After any runs of any number of sources, the next mix lasts a fiftieth of a second, and sample
      `k` of it is the sample nearest to the sum of what comes `k` samples after the place of each
      of them. */
  lemma {:induction false} MixIsOfTheSounds(f: Format, runs: seq<seq<Event>>, k: nat, other: Sample)
    requires 100 * k < BytesPerSecond(f)
    ensures AreHandouts(HandoutsOf(f, runs), BlockSamples(f))
    ensures var mix := MixOf(HandoutsOf(f, runs), BlockSamples(f));
      && 50 * |mix| == BytesPerSecond(f)
      && Distance(SampleAt(mix, k), NextSum(f, runs, k)) <= Distance(other, NextSum(f, runs, k))
  {
    SizesInTime(f);
    SumIsOfTheSounds(f, runs, k);
    var handouts, count := HandoutsOf(f, runs), BlockSamples(f);
    var samples := seq(count, i requires 0 <= i < count => Clipped(TrueSumAt(handouts, count, i)));
    PackedSampleAt(samples, k);
    ClippedIsNearest(NextSum(f, runs, k), other);
  }

  /** The next mix of a source on its own is what follows its place. */
  lemma {:induction false} LoneSourceIsHeard(f: Format, events: seq<Event>)
    ensures AreHandouts(HandoutsOf(f, [events]), BlockSamples(f))
    ensures MixOf(HandoutsOf(f, [events]), BlockSamples(f)) == Window(Sound(f, events), Place(f, events), BlockBytes(f))
  {
    var handouts := HandoutsOf(f, [events]);
    HandoutsFit(f, [events]);
    SourceIsAPlaceInTheSound(f, events, BlockBytes(f));
    MixOfPresent(handouts, BlockSamples(f));
    ShortcutsAgree(Present(handouts), BlockSamples(f));
    assert handouts[..0] == [];
    var sound, place := Sound(f, events), Place(f, events);
    if place == |sound| {
      assert Window(sound, place, BlockBytes(f)) == Zeros(BlockBytes(f));
    } else {
      assert Present(handouts) == [Window(sound, place, BlockBytes(f))];
    }
  }

  /** A block fed to a source that is new is heard at the next tick: its reduction, if it makes one
      output block. */
  lemma FirstBlockIsHeard(f: Format, block: Bytes)
    requires |Reduced(f, block)| == BlockBytes(f)
    ensures AreHandouts(HandoutsOf(f, [[Feed(block)]]), BlockSamples(f))
    ensures MixOf(HandoutsOf(f, [[Feed(block)]]), BlockSamples(f)) == Reduced(f, block)
  {
    var events := [Feed(block)];
    LoneSourceIsHeard(f, events);
    assert events[..0] == [] && Captured(events) == [] + block == block;
    assert Window(Reduced(f, block), 0, BlockBytes(f)) == Reduced(f, block);
  }
}
