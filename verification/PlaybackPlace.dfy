/**
 The playback buffer as a place in the row of accepted blocks, and playing as what happened at
 that place; both are told from the operations alone.
 */
module PlaybackPlace {
  import opened Wrappers
  import opened ByteStrings
  import opened PlaybackBuffer

  // ----- the reference

  predicate IsClosed(ops: seq<Operation>) {
    Close in ops
  }

  /** The blocks put while the buffer was open, in order. */
  function AcceptedBlocks(ops: seq<Operation>): seq<Block>
    decreases |ops|
  {
    if ops == [] then []
    else
      var n := |ops| - 1;
      AcceptedBlocks(ops[..n]) + if ops[n].Put? && !IsClosed(ops[..n]) then [ops[n].block] else []
  }

  function Larger(a: int, b: int): int {
    if a < b then b else a
  }

  /** How many of the accepted blocks are gone: one more for each get, up to the last one; all of
      them after a reset or a close; and after a put so many that the others fit. */
  function Place(d: Durations, ops: seq<Operation>): int
    decreases |ops|
  {
    if ops == [] then 0
    else
      var n := |ops| - 1;
      var place := Place(d, ops[..n]);
      match ops[n]
      case Put(_) => Larger(place, |AcceptedBlocks(ops)| - MaxFrames(d))
      case Get => if place < |AcceptedBlocks(ops)| then place + 1 else place
      case Reset => |AcceptedBlocks(ops)|
      case Close => |AcceptedBlocks(ops)|
      case WaitForPrebuffer => place
  }

  /** How many blocks are buffered. */
  function Left(d: Durations, ops: seq<Operation>): int {
    |AcceptedBlocks(ops)| - Place(d, ops)
  }

  /** How far the place was moved by puts, by gets, and by resets and closes. */
  function Moved(d: Durations, ops: seq<Operation>, fate: Fate): int
    decreases |ops|
  {
    if ops == [] then 0
    else
      var n := |ops| - 1;
      var counts := match ops[n]
        case Put(_) => fate == Dropped
        case Get => fate == Returned
        case _ => fate == Discarded;
      Moved(d, ops[..n], fate) + if counts then Place(d, ops) - Place(d, ops[..n]) else 0
  }

  /** Playing starts when an open buffer holds the prebuffer in milliseconds, and ends when the
      last block is taken or at a reset. */
  predicate IsPlaying(d: Durations, ops: seq<Operation>)
    decreases |ops|
  {
    && ops != []
    && var n := |ops| - 1;
       match ops[n]
       case WaitForPrebuffer =>
         IsPlaying(d, ops[..n]) || (!IsClosed(ops) && Left(d, ops) * d.frameMs >= d.prebufferMs)
       case Get => IsPlaying(d, ops[..n]) && Left(d, ops[..n]) != 1
       case Reset => false
       case _ => IsPlaying(d, ops[..n])
  }

  /** How often the last block was taken while playing. */
  function RanDry(d: Durations, ops: seq<Operation>): nat
    decreases |ops|
  {
    if ops == [] then 0
    else
      var n := |ops| - 1;
      RanDry(d, ops[..n]) + if ops[n].Get? && IsPlaying(d, ops[..n]) && Left(d, ops[..n]) == 1 then 1 else 0
  }

  // ----- milliseconds and frames

  lemma ProductsAreOrdered(a: int, b: int, f: int)
    requires a <= b && f > 0
    ensures a * f <= b * f
  {
    assert (b - a) * f >= 0;
  }

  /** The prebuffer is rounded up to frames. */
  lemma PrebufferInFrames(d: Settings, k: int)
    requires d.frameMs > 0
    ensures k >= PrebufferFrames(d) <==> k * d.frameMs >= d.prebufferMs
  {
    var f, p := d.frameMs, PrebufferFrames(d);
    assert p * f <= d.prebufferMs + f - 1 < p * f + f;
    if k >= p {
      ProductsAreOrdered(p, k, f);
    } else {
      ProductsAreOrdered(k + 1, p, f);
      assert (k + 1) * f == k * f + f;
    }
  }

  /** The ceiling is rounded down. */
  lemma CeilingInFrames(d: Settings, k: int)
    requires d.frameMs > 0
    ensures k <= MaxFrames(d) <==> k * d.frameMs <= d.maxMs
  {
    var f, m := d.frameMs, MaxFrames(d);
    assert m * f <= d.maxMs < m * f + f;
    if k <= m {
      ProductsAreOrdered(k, m, f);
    } else {
      ProductsAreOrdered(m + 1, k, f);
      assert (m + 1) * f == m * f + f;
    }
  }

  /** So many frames last as long as the prebuffer and no longer than the ceiling. */
  predicate LastsBetween(d: Settings, k: int) {
    d.prebufferMs <= k * d.frameMs <= d.maxMs
  }

  /** Durations are accepted exactly when all are positive, the ceiling is not below the target, and
      some whole number of frames lasts as long as the prebuffer and no longer than the ceiling. */
  lemma DurationsFitExactly(d: Settings)
    ensures AreDurations(d) <==>
      && d.frameMs > 0 && d.prebufferMs > 0 && d.targetMs > 0 && d.maxMs >= d.targetMs
      && exists k :: LastsBetween(d, k)
  {
    if d.frameMs > 0 {
      if AreDurations(d) {
        PrebufferInFrames(d, PrebufferFrames(d));
        CeilingInFrames(d, PrebufferFrames(d));
        assert LastsBetween(d, PrebufferFrames(d));
      }
      if k :| LastsBetween(d, k) {
        PrebufferInFrames(d, k);
        CeilingInFrames(d, k);
      }
    }
  }

  // ----- the buffer is at its place

  ghost predicate IsAt(d: Durations, s: State, accepted: seq<Block>, place: int, closed: bool, playing: bool) {
    && 0 <= place <= |accepted| <= place + MaxFrames(d)
    && s.blocks == accepted[place..]
    && s.closed == closed && (closed ==> place == |accepted|)
    && s.started == playing
  }

  lemma PutIsAt(d: Durations, s: State, accepted: seq<Block>, place: int, closed: bool, playing: bool, block: Block,
                accepted': seq<Block>, place': int)
    requires IsAt(d, s, accepted, place, closed, playing)
    requires accepted' == (if closed then accepted else accepted + [block])
    requires place' == Larger(place, |accepted'| - MaxFrames(d))
    ensures IsAt(d, Step(d, s, Put(block)).after, accepted', place', closed, playing)
    ensures |Step(d, s, Put(block)).gone| == place' - place
  {
    RoomForOne(d);
    if !closed {
      var k := Excess(d, s.blocks);
      assert k == place' - place;
      assert accepted[place..][k..] + [block] == accepted'[place'..];
    }
  }

  lemma GetIsAt(d: Durations, s: State, accepted: seq<Block>, place: int, closed: bool, playing: bool)
    requires IsAt(d, s, accepted, place, closed, playing)
    ensures var left := |accepted| - place;
      var e := Step(d, s, Get);
      && IsAt(d, e.after, accepted, if left > 0 then place + 1 else place, closed, playing && left != 1)
      && e.after.underruns == s.underruns + (if playing && left == 1 then 1 else 0)
      && |e.gone| == if left > 0 then 1 else 0
  {
    RoomForOne(d);
  }

  lemma OtherIsAt(d: Durations, s: State, accepted: seq<Block>, place: int, closed: bool, playing: bool, op: Operation)
    requires IsAt(d, s, accepted, place, closed, playing) && !op.Put? && !op.Get?
    ensures var e := Step(d, s, op);
      var starts := !closed && (|accepted| - place) * d.frameMs >= d.prebufferMs;
      && IsAt(d, e.after, accepted, if op.WaitForPrebuffer? then place else |accepted|, closed || op.Close?,
              if op.WaitForPrebuffer? then playing || starts else playing && !op.Reset?)
      && e.after.underruns == s.underruns
      && |e.gone| == if op.WaitForPrebuffer? then 0 else |accepted| - place
  {
    RoomForOne(d);
    PrebufferInFrames(d, |accepted| - place);
  }

  lemma ClosedSnoc(before: seq<Operation>, op: Operation, ops: seq<Operation>)
    requires ops == before + [op]
    ensures IsClosed(ops) <==> IsClosed(before) || op == Close
    ensures ops[..|before|] == before
  {
  }

  /** The state that goes with the operations. */
  ghost predicate Agrees(d: Durations, s: State, ops: seq<Operation>) {
    && IsAt(d, s, AcceptedBlocks(ops), Place(d, ops), IsClosed(ops), IsPlaying(d, ops))
    && s.underruns == RanDry(d, ops)
  }

  lemma PutAgrees(d: Durations, s: State, before: seq<Operation>, block: Block, ops: seq<Operation>)
    requires Agrees(d, s, before) && ops == before + [Put(block)]
    ensures Agrees(d, Step(d, s, Put(block)).after, ops)
    ensures |Step(d, s, Put(block)).gone| == Place(d, ops) - Place(d, before)
  {
    ClosedSnoc(before, Put(block), ops);
    PutIsAt(d, s, AcceptedBlocks(before), Place(d, before), IsClosed(before), IsPlaying(d, before), block,
            AcceptedBlocks(ops), Place(d, ops));
  }

  lemma GetAgrees(d: Durations, s: State, before: seq<Operation>, ops: seq<Operation>)
    requires Agrees(d, s, before) && ops == before + [Get]
    ensures Agrees(d, Step(d, s, Get).after, ops)
    ensures |Step(d, s, Get).gone| == Place(d, ops) - Place(d, before)
  {
    ClosedSnoc(before, Get, ops);
    GetIsAt(d, s, AcceptedBlocks(before), Place(d, before), IsClosed(before), IsPlaying(d, before));
  }

  lemma OtherAgrees(d: Durations, s: State, before: seq<Operation>, op: Operation, ops: seq<Operation>)
    requires Agrees(d, s, before) && ops == before + [op] && !op.Put? && !op.Get?
    ensures Agrees(d, Step(d, s, op).after, ops)
    ensures |Step(d, s, op).gone| == Place(d, ops) - Place(d, before)
  {
    ClosedSnoc(before, op, ops);
    OtherIsAt(d, s, AcceptedBlocks(before), Place(d, before), IsClosed(before), IsPlaying(d, before), op);
  }

  lemma StepAgrees(d: Durations, s: State, before: seq<Operation>, op: Operation, ops: seq<Operation>)
    requires Agrees(d, s, before) && ops == before + [op]
    ensures Agrees(d, Step(d, s, op).after, ops)
    ensures |Step(d, s, op).gone| == Place(d, ops) - Place(d, before)
  {
    match op
    case Put(block) => PutAgrees(d, s, before, block, ops);
    case Get => GetAgrees(d, s, before, ops);
    case _ => OtherAgrees(d, s, before, op, ops);
  }

  lemma {:induction false} RunAgrees(d: Durations, ops: seq<Operation>)
    ensures Agrees(d, Run(d, ops).0, ops)
    decreases |ops|
  {
    if ops == [] {
      RoomForOne(d);
    } else {
      var n := |ops| - 1;
      RunAgrees(d, ops[..n]);
      assert ops == ops[..n] + [ops[n]];
      StepAgrees(d, Run(d, ops[..n]).0, ops[..n], ops[n], ops);
    }
  }

  /** In every run the buffer holds exactly the accepted blocks from the place on, no more than the
      ceiling allows, and a get returns the one at the place, or nothing at the end; it plays, and
      has run dry as often, as the operations say. */
  lemma {:induction false} BufferIsAPlace(d: Durations, ops: seq<Operation>)
    ensures var s := Run(d, ops).0;
      var accepted, place := AcceptedBlocks(ops), Place(d, ops);
      && 0 <= place <= |accepted| && (|accepted| - place) * d.frameMs <= d.maxMs
      && s.blocks == accepted[place..]
      && Step(d, s, Get).gone == (if place == |accepted| then [] else [Gone(accepted[place], Returned)])
      && s.closed == IsClosed(ops) && s.started == IsPlaying(d, ops) && s.underruns == RanDry(d, ops)
  {
    RunAgrees(d, ops);
    CeilingInFrames(d, |AcceptedBlocks(ops)| - Place(d, ops));
  }

  lemma FateOfStep(d: Durations, s: State, op: Operation, fate: Fate)
    ensures var e := Step(d, s, op);
      var counts := match op
        case Put(_) => fate == Dropped
        case Get => fate == Returned
        case _ => fate == Discarded;
      Count(e.gone, fate) == if counts then |e.gone| else 0
  {
    match op
    case Put(block) =>
      if !s.closed {
        RoomForOne(d);
        CountWithFate(s.blocks[..Excess(d, s.blocks)], Dropped, fate);
      }
    case Get =>
      if s.blocks != [] {
        var gone := [Gone(s.blocks[0], Returned)];
        assert gone[..0] == [];
      }
    case _ => CountWithFate(s.blocks, Discarded, fate);
  }

  /** Blocks are dropped by puts only, returned by gets only, and discarded by resets and closes
      only: as many as the place was moved by them. */
  lemma {:induction false} FatesAreTheMoves(d: Durations, ops: seq<Operation>, fate: Fate)
    ensures Count(Run(d, ops).1.gone, fate) == Moved(d, ops, fate)
    decreases |ops|
  {
    if ops == [] {
    } else {
      var n := |ops| - 1;
      var s, l := Run(d, ops[..n]).0, Run(d, ops[..n]).1;
      assert ops == ops[..n] + [ops[n]];
      FatesAreTheMoves(d, ops[..n], fate);
      RunAgrees(d, ops[..n]);
      StepAgrees(d, s, ops[..n], ops[n], ops);
      FateOfStep(d, s, ops[n], fate);
      CountConcat(l.gone, Step(d, s, ops[n]).gone, fate);
    }
  }
}
