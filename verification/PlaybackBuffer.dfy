/**
 The bounded buffer between the network and the sound card.  Each method holds the lock all
 along or waits for a condition; a wait counts as one step, at the moment it ends.
 */
module PlaybackBuffer {
  import opened Wrappers
  import opened ByteStrings

  type Block = Bytes

  datatype Settings = Settings(frameMs: int, prebufferMs: int, targetMs: int, maxMs: int)

  predicate AreDurations(d: Settings) {
    && d.frameMs > 0 && d.prebufferMs > 0 && d.targetMs > 0 && d.maxMs >= d.targetMs
    && MaxFrames(d) >= PrebufferFrames(d)
  }

  function PrebufferFrames(d: Settings): int
    requires d.frameMs > 0
  {
    (d.prebufferMs + d.frameMs - 1) / d.frameMs
  }

  function MaxFrames(d: Settings): int
    requires d.frameMs > 0
  {
    d.maxMs / d.frameMs
  }

  type Durations = d: Settings | AreDurations(d)
    witness Settings(20, 100, 200, 500)

  datatype State = State(blocks: seq<Block>, started: bool, closed: bool, dropped: nat, underruns: nat)

  const EMPTY := State([], false, false, 0, 0)

  datatype Operation =
    | Put(block: Block)
    | WaitForPrebuffer
    | Get
    | Reset
    | Close

  // ----- what each operation does, and what becomes of the blocks

  datatype Fate = Returned | Dropped | Discarded

  datatype Gone = Gone(block: Block, fate: Fate)

  /** `accepted` and `gone` are the blocks coming in and going out; `begins` says that playing
      starts here, `interrupted` that a reset ends it. */
  datatype Effect = Effect(after: State, accepted: seq<Block>, gone: seq<Gone>, begins: bool, interrupted: bool)

  function WithFate(blocks: seq<Block>, fate: Fate): seq<Gone> {
    seq(|blocks|, i requires 0 <= i < |blocks| => Gone(blocks[i], fate))
  }

  /** How many of the oldest blocks make room for one more. */
  function Excess(d: Durations, blocks: seq<Block>): nat {
    if |blocks| >= MaxFrames(d) then |blocks| - MaxFrames(d) + 1 else 0
  }

  lemma RoomForOne(d: Durations)
    ensures MaxFrames(d) >= PrebufferFrames(d) >= 1
  {
    var k := d.prebufferMs - 1;
    assert (k + d.frameMs) / d.frameMs >= 1;
  }

  function Step(d: Durations, s: State, op: Operation): Effect {
    match op
    case Put(block) =>
      if s.closed then Effect(s, [], [], false, false)
      else
        RoomForOne(d);
        var k := Excess(d, s.blocks);
        Effect(s.(blocks := s.blocks[k..] + [block], dropped := s.dropped + k),
               [block], WithFate(s.blocks[..k], Dropped), false, false)
    case WaitForPrebuffer =>
      if s.started || s.closed || |s.blocks| < PrebufferFrames(d) then Effect(s, [], [], false, false)
      else Effect(s.(started := true), [], [], true, false)
    case Get =>
      if s.blocks == [] then Effect(s, [], [], false, false)
      else
        var ends := s.started && |s.blocks| == 1;
        Effect(s.(blocks := s.blocks[1..], started := s.started && !ends,
                  underruns := s.underruns + if ends then 1 else 0),
               [], [Gone(s.blocks[0], Returned)], false, false)
    case Reset =>
      Effect(s.(blocks := [], started := false), [], WithFate(s.blocks, Discarded), false, s.started)
    case Close =>
      Effect(s.(blocks := [], closed := true), [], WithFate(s.blocks, Discarded), false, false)
  }

  // ----- the object

  class TimedAudioBuffer {
    const d: Durations
    var blocks: seq<Block>
    var started: bool
    var closed: bool
    var droppedBlocks: nat
    var underruns: nat

    constructor (d: Durations)
      ensures this.d == d && Value() == EMPTY
    {
      this.d := d;
      blocks, started, closed, droppedBlocks, underruns := [], false, false, 0, 0;
    }

    /** Durations that do not fit together raise. */
    static method Create(frameMs: int, prebufferMs: int, targetMs: int, maxMs: int)
      returns (r: Result<TimedAudioBuffer, ArgumentError>)
      ensures r.Ok? <==> AreDurations(Settings(frameMs, prebufferMs, targetMs, maxMs))
      ensures r.Ok? ==> fresh(r.value) && r.value.Value() == EMPTY
                        && r.value.d == Settings(frameMs, prebufferMs, targetMs, maxMs)
    {
      if frameMs <= 0 || prebufferMs <= 0 || targetMs <= 0 || maxMs < targetMs {
        return Err(ValueError);
      }
      if maxMs / frameMs < (prebufferMs + frameMs - 1) / frameMs {
        return Err(ValueError);
      }
      var buffer := new TimedAudioBuffer(Settings(frameMs, prebufferMs, targetMs, maxMs));
      r := Ok(buffer);
    }

    function Value(): State
      reads this
    {
      State(blocks, started, closed, droppedBlocks, underruns)
    }

    method PutBlock(block: Block) returns (accepted: bool)
      modifies this
      ensures Value() == Step(d, old(Value()), Put(block)).after
      ensures accepted == !old(closed)
    {
      if closed {
        return false;
      }
      RoomForOne(d);
      ghost var before, popped := blocks, 0;
      while |blocks| >= MaxFrames(d)
        invariant popped <= Excess(d, before) && popped <= |before| && blocks == before[popped..]
        invariant droppedBlocks == old(droppedBlocks) + popped
        invariant started == old(started) && closed == old(closed) && underruns == old(underruns)
        decreases |blocks|
      {
        assert before[popped..][1..] == before[popped + 1..];
        blocks := blocks[1..];
        droppedBlocks := droppedBlocks + 1;
        popped := popped + 1;
      }
      assert popped == Excess(d, before);
      blocks := blocks + [block];
      accepted := true;
    }

    method Wait() returns (ready: bool)
      modifies this
      ensures Value() == Step(d, old(Value()), WaitForPrebuffer).after
      ensures ready <==> old(started) || (!old(closed) && |old(blocks)| >= PrebufferFrames(d))
    {
      if started {
        return true;
      }
      ready := closed || |blocks| >= PrebufferFrames(d);
      if closed || !ready {
        return false;
      }
      started := true;
      ready := true;
    }

    method GetBlock() returns (block: Option<Block>)
      modifies this
      ensures Value() == Step(d, old(Value()), Get).after
      ensures block == if old(blocks) == [] then None else Some(old(blocks)[0])
    {
      if blocks == [] {
        return None;
      }
      block := Some(blocks[0]);
      blocks := blocks[1..];
      if started && blocks == [] {
        started := false;
        underruns := underruns + 1;
      }
    }

    method ResetAll()
      modifies this
      ensures Value() == Step(d, old(Value()), Reset).after
    {
      blocks := [];
      started := false;
    }

    method CloseAll()
      modifies this
      ensures Value() == Step(d, old(Value()), Close).after
    {
      closed := true;
      blocks := [];
    }
  }

  // ----- every run

  /** What happened in a run, oldest first. */
  datatype Ledger = Ledger(accepted: seq<Block>, gone: seq<Gone>, begun: nat, interrupted: nat)

  function Run(d: Durations, ops: seq<Operation>): (State, Ledger)
    decreases |ops|
  {
    if ops == [] then (EMPTY, Ledger([], [], 0, 0))
    else
      var n := |ops| - 1;
      var (s, l) := Run(d, ops[..n]);
      var e := Step(d, s, ops[n]);
      (e.after,
       Ledger(l.accepted + e.accepted, l.gone + e.gone,
              l.begun + (if e.begins then 1 else 0), l.interrupted + if e.interrupted then 1 else 0))
  }

  function BlocksOf(gone: seq<Gone>): seq<Block> {
    seq(|gone|, i requires 0 <= i < |gone| => gone[i].block)
  }

  function Count(gone: seq<Gone>, fate: Fate): nat
    decreases |gone|
  {
    if gone == [] then 0
    else Count(gone[..|gone| - 1], fate) + if gone[|gone| - 1].fate == fate then 1 else 0
  }

  lemma BlocksOfConcat(a: seq<Gone>, b: seq<Gone>)
    ensures BlocksOf(a + b) == BlocksOf(a) + BlocksOf(b)
  {
  }

  lemma BlocksWithFate(blocks: seq<Block>, fate: Fate)
    ensures BlocksOf(WithFate(blocks, fate)) == blocks
  {
  }

  lemma {:induction false} CountConcat(a: seq<Gone>, b: seq<Gone>, fate: Fate)
    ensures Count(a + b, fate) == Count(a, fate) + Count(b, fate)
    decreases |b|
  {
    if b == [] {
      assert a + b == a;
    } else {
      var n := |b| - 1;
      assert (a + b)[..|a| + n] == a + b[..n];
      CountConcat(a, b[..n], fate);
    }
  }

  lemma {:induction false} CountWithFate(blocks: seq<Block>, fate: Fate, counted: Fate)
    ensures Count(WithFate(blocks, fate), counted) == if fate == counted then |blocks| else 0
    decreases |blocks|
  {
    if blocks == [] {
    } else {
      var n := |blocks| - 1;
      assert WithFate(blocks, fate)[..n] == WithFate(blocks[..n], fate);
      CountWithFate(blocks[..n], fate, counted);
    }
  }

  /** One step: what was buffered or comes in leaves at the front or is still buffered. */
  lemma StepKeepsOrder(d: Durations, s: State, op: Operation)
    ensures var e := Step(d, s, op);
      s.blocks + e.accepted == BlocksOf(e.gone) + e.after.blocks
  {
    var e := Step(d, s, op);
    match op
    case Put(block) =>
      if !s.closed {
        RoomForOne(d);
        var k := Excess(d, s.blocks);
        BlocksWithFate(s.blocks[..k], Dropped);
        assert s.blocks + [block] == s.blocks[..k] + (s.blocks[k..] + [block]);
      }
    case Get =>
      if s.blocks != [] {
        assert BlocksOf(e.gone) == [s.blocks[0]];
      }
    case _ =>
      BlocksWithFate(s.blocks, Discarded);
  }

  lemma StepCounts(d: Durations, s: State, op: Operation)
    ensures var e := Step(d, s, op);
      e.after.dropped == s.dropped + Count(e.gone, Dropped)
  {
    match op
    case Put(block) =>
      if !s.closed {
        RoomForOne(d);
        CountWithFate(s.blocks[..Excess(d, s.blocks)], Dropped, Dropped);
      }
    case Get =>
      if s.blocks != [] {
        var gone := [Gone(s.blocks[0], Returned)];
        assert gone[..0] == [];
        assert Count(gone, Dropped) == 0;
      }
    case _ =>
      CountWithFate(s.blocks, Discarded, Dropped);
  }

  /** In every run the accepted blocks are those returned, dropped or discarded, in order, and
      then those still buffered; so the buffer holds exactly the last ones accepted. */
  lemma {:induction false} NoBlockIsLostOrReordered(d: Durations, ops: seq<Operation>)
    ensures var (s, l) := Run(d, ops);
      && l.accepted == BlocksOf(l.gone) + s.blocks
      && s.blocks == l.accepted[|l.accepted| - |s.blocks|..]
    decreases |ops|
  {
    if ops == [] {
    } else {
      var n := |ops| - 1;
      NoBlockIsLostOrReordered(d, ops[..n]);
      var (s, l) := Run(d, ops[..n]);
      var e := Step(d, s, ops[n]);
      StepKeepsOrder(d, s, ops[n]);
      BlocksOfConcat(l.gone, e.gone);
      Reassociate(BlocksOf(l.gone), s.blocks, e.accepted);
      Reassociate(BlocksOf(l.gone), BlocksOf(e.gone), e.after.blocks);
    }
  }

  lemma {:induction false} FatesAddUp(gone: seq<Gone>)
    ensures |gone| == Count(gone, Returned) + Count(gone, Dropped) + Count(gone, Discarded)
    decreases |gone|
  {
    if gone == [] {
    } else {
      FatesAddUp(gone[..|gone| - 1]);
    }
  }

  lemma {:induction false} DroppedIsCounted(d: Durations, ops: seq<Operation>)
    ensures var (s, l) := Run(d, ops);
      s.dropped == Count(l.gone, Dropped)
    decreases |ops|
  {
    if ops == [] {
    } else {
      var n := |ops| - 1;
      DroppedIsCounted(d, ops[..n]);
      var (s, l) := Run(d, ops[..n]);
      StepCounts(d, s, ops[n]);
      CountConcat(l.gone, Step(d, s, ops[n]).gone, Dropped);
    }
  }

  /** Accepted blocks are returned, dropped, discarded or buffered, and the counter of dropped
      ones is right. */
  lemma {:induction false} BlocksAddUp(d: Durations, ops: seq<Operation>)
    ensures var (s, l) := Run(d, ops);
      && |l.accepted| == Count(l.gone, Returned) + Count(l.gone, Dropped) + Count(l.gone, Discarded) + |s.blocks|
      && s.dropped == Count(l.gone, Dropped)
  {
    NoBlockIsLostOrReordered(d, ops);
    FatesAddUp(Run(d, ops).1.gone);
    DroppedIsCounted(d, ops);
  }

  lemma MaxFramesFit(d: Durations, k: nat)
    requires k <= MaxFrames(d)
    ensures k * d.frameMs <= d.maxMs
  {
    assert MaxFrames(d) * d.frameMs <= d.maxMs;
    assert k * d.frameMs <= MaxFrames(d) * d.frameMs;
  }

  predicate AddsUp(d: Durations, s: State, begun: nat, interrupted: nat) {
    && |s.blocks| <= MaxFrames(d)
    && begun == s.underruns + interrupted + (if s.started then 1 else 0)
    && (!s.closed && s.started ==> s.blocks != [])
    && (s.closed ==> s.blocks == [])
  }

  lemma StepAddsUp(d: Durations, s: State, begun: nat, interrupted: nat, op: Operation)
    requires AddsUp(d, s, begun, interrupted)
    ensures var e := Step(d, s, op);
      AddsUp(d, e.after, begun + (if e.begins then 1 else 0), interrupted + if e.interrupted then 1 else 0)
  {
    RoomForOne(d);
  }

  /** In every run playing starts as often as it runs dry or is reset, and once more while it
      goes on; a buffer that is open and playing is never empty, and a closed one always is. */
  lemma {:induction false} PlayingIsAccountedFor(d: Durations, ops: seq<Operation>)
    ensures var (s, l) := Run(d, ops);
      && |s.blocks| <= MaxFrames(d)
      && l.begun == s.underruns + l.interrupted + (if s.started then 1 else 0)
      && (!s.closed && s.started ==> s.blocks != [])
      && (s.closed ==> s.blocks == [])
    decreases |ops|
  {
    if ops == [] {
      RoomForOne(d);
    } else {
      var n := |ops| - 1;
      PlayingIsAccountedFor(d, ops[..n]);
      var (s, l) := Run(d, ops[..n]);
      StepAddsUp(d, s, l.begun, l.interrupted, ops[n]);
    }
  }

  /** In every run the buffered time stays within the ceiling. */
  lemma {:induction false} BufferedTimeIsBounded(d: Durations, ops: seq<Operation>)
    ensures |Run(d, ops).0.blocks| * d.frameMs <= d.maxMs
  {
    PlayingIsAccountedFor(d, ops);
    MaxFramesFit(d, |Run(d, ops).0.blocks|);
  }
}
