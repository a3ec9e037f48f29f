/**
 From captured blocks to played ones: whatever messages are lost, repeated or late, what the
 listener has fed since its last resynchronisation lines up block for block with what was
 captured.
 */
module AudioTimeline {
  import opened Wrappers
  import opened ByteStrings
  import opened AudioSequence
  import opened AudioShare

  datatype Capture = Capture(block: Block, at: Moment)

  // ----- the sender numbers every group

  /** The sender after captures, and what it sent. */
  function Sent(stream: nat, captures: seq<Capture>): (Sender, seq<Message>)
    decreases |captures|
  {
    if captures == [] then (Sender([], 0), [])
    else
      var n := |captures| - 1;
      var (sender, messages) := Sent(stream, captures[..n]);
      var sending := OnBlock(sender, stream, captures[n].block, captures[n].at);
      (sending.after, if sending.message == None then messages else messages + [sending.message.value])
  }

  /** The message of the group of frames 2g and 2g + 1, when it goes out. */
  function GroupMessage(stream: nat, captures: seq<Capture>, g: nat): Option<Message>
    requires 2 * g + 1 < |captures|
  {
    var blocks, at := [captures[2 * g].block, captures[2 * g + 1].block], captures[2 * g + 1].at;
    if GoesOut(blocks, at) then Some(MessageOf(stream, 2 * g % SPACE, blocks, at.encoder.encode)) else None
  }

  /** What the encoder of that moment makes of the block captured under a number. */
  function PacketOf(captures: seq<Capture>, frame: nat): Bytes
    requires 2 * (frame / 2) + 1 < |captures|
  {
    var encoder := captures[2 * (frame / 2) + 1].at.encoder;
    if encoder.WorkingEncoder? then encoder.encode(captures[frame].block) else []
  }

  function Outbox(stream: nat, captures: seq<Capture>, groups: nat): seq<Message>
    requires 2 * groups <= |captures|
  {
    if groups == 0 then []
    else
      var message := GroupMessage(stream, captures, groups - 1);
      Outbox(stream, captures, groups - 1) + if message == None then [] else [message.value]
  }

  function BlocksFrom(captures: seq<Capture>, from: nat): seq<Block>
    requires from <= |captures| <= from + 1
  {
    if from == |captures| then [] else [captures[from].block]
  }

  lemma {:induction false} OutboxPrefix(stream: nat, captures: seq<Capture>, more: seq<Capture>, groups: nat)
    requires 2 * groups <= |captures|
    ensures Outbox(stream, captures + more, groups) == Outbox(stream, captures, groups)
  {
    if groups == 0 {
    } else {
      OutboxPrefix(stream, captures, more, groups - 1);
      assert GroupMessage(stream, captures + more, groups - 1) == GroupMessage(stream, captures, groups - 1);
    }
  }

  lemma ModStep(n: nat)
    ensures NextSequence(n % SPACE, 2) == (n + 2) % SPACE
  {
    ModSum(n, 2);
  }

  function Numbered(stream: nat, captures: seq<Capture>): (Sender, seq<Message>) {
    var groups := |captures| / 2;
    (Sender(BlocksFrom(captures, 2 * groups), 2 * groups % SPACE), Outbox(stream, captures, groups))
  }

  ghost predicate Steps(stream: nat, before: seq<Capture>, last: Capture) {
    var (sender, messages) := Numbered(stream, before);
    var sending := OnBlock(sender, stream, last.block, last.at);
    Numbered(stream, before + [last]) ==
    (sending.after, if sending.message == None then messages else messages + [sending.message.value])
  }

  lemma FirstOfAGroup(stream: nat, before: seq<Capture>, last: Capture, g: nat)
    requires |before| == 2 * g
    ensures Steps(stream, before, last)
  {
    OutboxPrefix(stream, before, [last], g);
    var captures := before + [last];
    assert |captures| / 2 == g && |before| / 2 == g;
    assert captures[2 * g] == last;
    assert BlocksFrom(captures, 2 * g) == [last.block] == [] + [last.block];
  }

  lemma SecondOfAGroup(stream: nat, before: seq<Capture>, last: Capture, g: nat)
    requires |before| == 2 * g + 1
    ensures Steps(stream, before, last)
  {
    OutboxPrefix(stream, before, [last], g);
    var captures := before + [last];
    assert |captures| / 2 == g + 1 && |before| / 2 == g;
    assert captures[2 * g + 1] == last && captures[2 * g] == before[2 * g];
    ModStep(2 * g);
    assert BlocksFrom(before, 2 * g) + [last.block] == [captures[2 * g].block, captures[2 * g + 1].block];
    OutboxStep(stream, captures, g);
    assert BlocksFrom(captures, 2 * (g + 1)) == [];
  }

  lemma OutboxStep(stream: nat, captures: seq<Capture>, g: nat)
    requires 2 * g + 1 < |captures|
    ensures var message := GroupMessage(stream, captures, g);
      Outbox(stream, captures, g + 1) ==
      if message == None then Outbox(stream, captures, g) else Outbox(stream, captures, g) + [message.value]
  {
  }

  /** Sent, silent or abandoned, every group takes its two numbers: the messages that go out
      carry the true number of their first frame, modulo 2^32, and the packets of their own
      blocks. */
  lemma {:induction false} SenderNumbersEveryGroup(stream: nat, captures: seq<Capture>)
    ensures Sent(stream, captures) == Numbered(stream, captures)
    decreases |captures|
  {
    if captures == [] {
    } else {
      var n := |captures| - 1;
      assert captures == captures[..n] + [captures[n]];
      SenderNumbersEveryGroup(stream, captures[..n]);
      if n % 2 == 0 {
        FirstOfAGroup(stream, captures[..n], captures[n], n / 2);
      } else {
        SecondOfAGroup(stream, captures[..n], captures[n], n / 2);
      }
    }
  }

  // ----- the listener, against the true frame numbers

  /** Group `g` of the captures arrives: it was sent, and it is near what is expected. */
  predicate CanArrive(stream: nat, captures: seq<Capture>, taken: seq<nat>, g: nat) {
    && 1 <= stream <= MAX_STREAM_ID
    && 2 * g + 1 < |captures| && GroupMessage(stream, captures, g).Some?
    && Near(Expecting(taken), 2 * g)
  }

  /** The groups newer than every one before them, which are the ones to be played. */
  function Taken(arrivals: seq<nat>): seq<nat>
    decreases |arrivals|
  {
    if arrivals == [] then []
    else
      var n := |arrivals| - 1;
      var before := Taken(arrivals[..n]);
      if before == [] || arrivals[n] > before[|before| - 1] then before + [arrivals[n]] else before
  }

  function Expecting(taken: seq<nat>): Tracker {
    Tracker(if taken == [] then None else Some(2 * taken[|taken| - 1] + 2), 0)
  }

  /** Messages may be lost, repeated and late. */
  predicate Arrive(stream: nat, captures: seq<Capture>, arrivals: seq<nat>)
    decreases |arrivals|
  {
    arrivals == [] ||
    var n := |arrivals| - 1;
    && Arrive(stream, captures, arrivals[..n])
    && CanArrive(stream, captures, Taken(arrivals[..n]), arrivals[n])
  }

  const SILENT := Listener(FRESH, [], 0)

  /** The listener after the arrivals, with a decoder that does not fail. */
  function After(stream: nat, captures: seq<Capture>, arrivals: seq<nat>): Listener
    requires Arrive(stream, captures, arrivals)
    decreases |arrivals|
  {
    if arrivals == [] then SILENT
    else
      var n := |arrivals| - 1;
      OnMessage(After(stream, captures, arrivals[..n]), true, stream, Player(None),
                GroupMessage(stream, captures, arrivals[n]).value)
  }

  // ----- the reference: what should have been fed

  /** Frames missing between two groups. */
  function Gap(earlier: nat, later: nat): int {
    2 * later - (2 * earlier + 2)
  }

  predicate Increasing(taken: seq<nat>) {
    forall i, j :: 0 <= i < j < |taken| ==> taken[i] < taken[j]
  }

  predicate AreGroups(captures: seq<Capture>, taken: seq<nat>) {
    forall i :: 0 <= i < |taken| ==> 2 * taken[i] + 1 < |captures|
  }

  /** The true number of the first frame fed since the last gap above three frames. */
  function Base(taken: seq<nat>): nat
    requires taken != []
    decreases |taken|
  {
    var n := |taken| - 1;
    if n == 0 || Gap(taken[n - 1], taken[n]) > 3 then 2 * taken[n] else Base(taken[..n])
  }

  function LongGaps(taken: seq<nat>): nat
    decreases |taken|
  {
    if |taken| <= 1 then 0
    else
      var n := |taken| - 1;
      LongGaps(taken[..n]) + if Gap(taken[n - 1], taken[n]) > 3 then 1 else 0
  }

  /** Frame by frame: the block captured under that number, or concealment when its group did
      not come. */
  function Timeline(captures: seq<Capture>, taken: seq<nat>, from: nat, to: nat): seq<Sound>
    requires from <= to <= |captures| && to % 2 == 0
  {
    seq(to - from, i requires 0 <= i < to - from => SoundOf(captures, taken, from + i))
  }

  function SoundOf(captures: seq<Capture>, taken: seq<nat>, frame: nat): Sound
    requires 2 * (frame / 2) + 1 < |captures|
  {
    if frame / 2 in taken then Decoded(PacketOf(captures, frame)) else Concealed
  }

  // ----- the two agree

  lemma IncreasingSnoc(captures: seq<Capture>, taken: seq<nat>, g: nat)
    requires Increasing(taken) && AreGroups(captures, taken)
    requires 2 * g + 1 < |captures| && (taken == [] || taken[|taken| - 1] < g)
    ensures Increasing(taken + [g]) && AreGroups(captures, taken + [g])
  {
    var n := |taken|;
    forall i | 0 <= i < n
      ensures taken[i] < g
    {
      assert i < n - 1 ==> taken[i] < taken[n - 1];
    }
  }

  lemma {:induction false} BaseInRange(taken: seq<nat>)
    requires taken != [] && Increasing(taken)
    ensures Base(taken) <= 2 * taken[|taken| - 1]
    decreases |taken|
  {
    var n := |taken| - 1;
    if n == 0 {
    } else {
      BaseInRange(taken[..n]);
    }
  }

  /** A new group changes nothing before it, and the frames it skips are concealed. */
  lemma TimelineGrows(captures: seq<Capture>, taken: seq<nat>, g: nat, from: nat)
    requires taken != [] && Increasing(taken) && taken[|taken| - 1] < g && 2 * g + 1 < |captures|
    requires from <= 2 * taken[|taken| - 1] + 2
    ensures var e := 2 * taken[|taken| - 1] + 2;
      Timeline(captures, taken + [g], from, 2 * g + 2) ==
      Timeline(captures, taken, from, e) + (Concealment(2 * g - e) + NewSounds(captures, g))
  {
    var e := 2 * taken[|taken| - 1] + 2;
    var left := Timeline(captures, taken + [g], from, 2 * g + 2);
    var right := Timeline(captures, taken, from, e) + (Concealment(2 * g - e) + NewSounds(captures, g));
    assert |left| == |right|;
    forall i | 0 <= i < |left|
      ensures left[i] == right[i]
    {
      SoundIsKept(captures, taken, g, from + i);
    }
  }

  function NewSounds(captures: seq<Capture>, g: nat): seq<Sound>
    requires 2 * g + 1 < |captures|
  {
    [Decoded(PacketOf(captures, 2 * g)), Decoded(PacketOf(captures, 2 * g + 1))]
  }

  lemma SoundIsKept(captures: seq<Capture>, taken: seq<nat>, g: nat, frame: nat)
    requires taken != [] && Increasing(taken) && taken[|taken| - 1] < g && 2 * g + 1 < |captures|
    requires frame < 2 * g + 2
    ensures SoundOf(captures, taken + [g], frame) ==
      if frame < 2 * taken[|taken| - 1] + 2 then SoundOf(captures, taken, frame)
      else if frame < 2 * g then Concealed
      else Decoded(PacketOf(captures, frame))
  {
    var k := frame / 2;
    assert k in taken + [g] <==> k in taken || k == g;
    if k in taken {
      var i :| 0 <= i < |taken| && taken[i] == k;
      assert i < |taken| - 1 ==> taken[i] < taken[|taken| - 1];
    }
  }

  lemma TimelineStarts(captures: seq<Capture>, taken: seq<nat>, g: nat)
    requires g in taken && 2 * g + 1 < |captures|
    ensures Timeline(captures, taken, 2 * g, 2 * g + 2) == NewSounds(captures, g)
  {
    var left := Timeline(captures, taken, 2 * g, 2 * g + 2);
    assert 2 * g / 2 == g && (2 * g + 1) / 2 == g;
    assert left[0] == SoundOf(captures, taken, 2 * g);
    assert left[1] == SoundOf(captures, taken, 2 * g + 1);
  }

  /** The state of the listener that goes with a true history. */
  ghost predicate Matches(captures: seq<Capture>, taken: seq<nat>, l: Listener)
    requires Increasing(taken) && AreGroups(captures, taken)
  {
    && l.tracker.expected == Wrapped(Expecting(taken)).expected
    && l.resets == LongGaps(taken)
    && if taken == [] then l.fed == []
       else
         var to := 2 * taken[|taken| - 1] + 2;
         BaseInRange(taken);
         l.fed == Timeline(captures, taken, Base(taken), to)
  }

  /** The classification of one arrival. */
  lemma ArrivalIsClassified(stream: nat, captures: seq<Capture>, taken: seq<nat>, g: nat, l: Listener)
    requires CanArrive(stream, captures, taken, g)
    requires l.tracker.expected == Wrapped(Expecting(taken)).expected
    ensures var (tracker, verdict) := Classify(l.tracker, 2 * g % SPACE, 2);
      if taken != [] && g <= taken[|taken| - 1] then
        (verdict == Duplicate || verdict == Old) && tracker.expected == l.tracker.expected
      else
        && (verdict == Accepted || verdict == Missing)
        && tracker.expected == Some((2 * g + 2) % SPACE)
        && tracker.missing == if taken == [] then 0 else Gap(taken[|taken| - 1], g)
  {
    ClassifyRefines(Expecting(taken), 2 * g, 2);
  }

  /** What is decoded of a group that was sent. */
  lemma GroupIsDecoded(stream: nat, captures: seq<Capture>, g: nat)
    requires 1 <= stream <= MAX_STREAM_ID && 2 * g + 1 < |captures| && GroupMessage(stream, captures, g).Some?
    ensures var m := GroupMessage(stream, captures, g).value;
      && IsAcceptable(m, true, stream) && |m.packets| == 2 && m.sequence == 2 * g % SPACE
      && Decodings(m.packets) == NewSounds(captures, g)
  {
    assert 2 * g / 2 == g && (2 * g + 1) / 2 == g;
    var m := GroupMessage(stream, captures, g).value;
    assert m.packets[0] == Some(PacketOf(captures, 2 * g));
    assert m.packets[1] == Some(PacketOf(captures, 2 * g + 1));
  }

  /** What playing a new group does. */
  lemma NewArrivalIsPlayed(stream: nat, captures: seq<Capture>, taken: seq<nat>, g: nat, l: Listener)
    requires CanArrive(stream, captures, taken, g) && (taken == [] || g > taken[|taken| - 1])
    requires l.tracker.expected == Wrapped(Expecting(taken)).expected
    ensures var missing := if taken == [] then 0 else Gap(taken[|taken| - 1], g);
      OnMessage(l, true, stream, Player(None), GroupMessage(stream, captures, g).value) ==
      if missing > MAX_PLC_FRAMES
      then Listener(Tracker(Some((2 * g + 2) % SPACE), missing), NewSounds(captures, g), l.resets + 1)
      else Listener(Tracker(Some((2 * g + 2) % SPACE), missing),
                    l.fed + (Concealment(missing) + NewSounds(captures, g)), l.resets)
  {
    GroupIsDecoded(stream, captures, g);
    ArrivalIsClassified(stream, captures, taken, g, l);
  }

  predicate Resynchronises(taken: seq<nat>, g: nat) {
    taken == [] || Gap(taken[|taken| - 1], g) > MAX_PLC_FRAMES
  }

  lemma BaseSnoc(taken: seq<nat>, g: nat)
    ensures Base(taken + [g]) == if Resynchronises(taken, g) then 2 * g else Base(taken)
  {
    assert (taken + [g])[..|taken|] == taken;
    assert taken != [] ==> (taken + [g])[|taken| - 1] == taken[|taken| - 1];
  }

  lemma TimelineOfANewGroup(captures: seq<Capture>, taken: seq<nat>, g: nat, timeline: seq<Sound>)
    requires Increasing(taken) && AreGroups(captures, taken) && 2 * g + 1 < |captures|
    requires taken == [] || g > taken[|taken| - 1]
    requires Base(taken + [g]) <= 2 * g + 2
    requires timeline == Timeline(captures, taken + [g], Base(taken + [g]), 2 * g + 2)
    ensures if Resynchronises(taken, g) then timeline == NewSounds(captures, g)
      else
        var e := 2 * taken[|taken| - 1] + 2;
        && Base(taken) <= e
        && timeline == Timeline(captures, taken, Base(taken), e) + (Concealment(2 * g - e) + NewSounds(captures, g))
  {
    BaseSnoc(taken, g);
    if Resynchronises(taken, g) {
      TimelineStarts(captures, taken + [g], g);
    } else {
      BaseInRange(taken);
      TimelineGrows(captures, taken, g, Base(taken));
    }
  }

  lemma LongGapsSnoc(taken: seq<nat>, g: nat)
    ensures LongGaps(taken + [g]) ==
      LongGaps(taken) + if taken != [] && Gap(taken[|taken| - 1], g) > MAX_PLC_FRAMES then 1 else 0
  {
    assert (taken + [g])[..|taken|] == taken;
  }

  lemma NewArrivalMatches(stream: nat, captures: seq<Capture>, taken: seq<nat>, g: nat, l: Listener)
    requires CanArrive(stream, captures, taken, g) && (taken == [] || g > taken[|taken| - 1])
    requires Increasing(taken) && AreGroups(captures, taken) && Matches(captures, taken, l)
    ensures Increasing(taken + [g]) && AreGroups(captures, taken + [g])
    ensures Matches(captures, taken + [g],
                    OnMessage(l, true, stream, Player(None), GroupMessage(stream, captures, g).value))
  {
    IncreasingSnoc(captures, taken, g);
    NewArrivalIsPlayed(stream, captures, taken, g, l);
    BaseInRange(taken + [g]);
    TimelineOfANewGroup(captures, taken, g, Timeline(captures, taken + [g], Base(taken + [g]), 2 * g + 2));
    LongGapsSnoc(taken, g);
    if taken == [] {
      var new_ := Concealment(0) + NewSounds(captures, g);
      assert new_ == NewSounds(captures, g);
      assert [] + new_ == new_;
    }
  }

  lemma LateArrivalIsIgnored(stream: nat, captures: seq<Capture>, taken: seq<nat>, g: nat, l: Listener)
    requires CanArrive(stream, captures, taken, g) && taken != [] && g <= taken[|taken| - 1]
    requires Increasing(taken) && AreGroups(captures, taken) && Matches(captures, taken, l)
    ensures Matches(captures, taken,
                    OnMessage(l, true, stream, Player(None), GroupMessage(stream, captures, g).value))
  {
    GroupIsDecoded(stream, captures, g);
    ArrivalIsClassified(stream, captures, taken, g, l);
  }

  lemma {:induction false} ListenerMatches(stream: nat, captures: seq<Capture>, arrivals: seq<nat>)
    requires Arrive(stream, captures, arrivals)
    ensures Increasing(Taken(arrivals)) && AreGroups(captures, Taken(arrivals))
    ensures Matches(captures, Taken(arrivals), After(stream, captures, arrivals))
    decreases |arrivals|
  {
    if arrivals == [] {
    } else {
      var n := |arrivals| - 1;
      var before, g, l := Taken(arrivals[..n]), arrivals[n], After(stream, captures, arrivals[..n]);
      ListenerMatches(stream, captures, arrivals[..n]);
      if before == [] || g > before[|before| - 1] {
        NewArrivalMatches(stream, captures, before, g, l);
      } else {
        LateArrivalIsIgnored(stream, captures, before, g, l);
      }
    }
  }

  /** What was fed since the last resynchronisation is the captured timeline, frame for frame
      from its first block up to the newest group, with exactly the blocks of missing groups
      concealed; so as many blocks were fed as the true count advanced.  The stream was
      resynchronised once for each gap above the limit, and never else. */
  lemma {:induction false} FedIsTheCapturedTimeline(stream: nat, captures: seq<Capture>, arrivals: seq<nat>)
    requires Arrive(stream, captures, arrivals) && arrivals != []
    ensures var taken := Taken(arrivals);
      && taken != []
      && var last := taken[|taken| - 1];
         var l := After(stream, captures, arrivals);
         && Base(taken) <= 2 * last + 2 <= |captures|
         && l.fed == Timeline(captures, taken, Base(taken), 2 * last + 2)
         && |l.fed| == 2 * last + 2 - Base(taken)
         && l.tracker.expected == Some((2 * last + 2) % SPACE)
         && l.resets == LongGaps(taken)
  {
    ListenerMatches(stream, captures, arrivals);
    TakenIsNotEmpty(arrivals);
    BaseInRange(Taken(arrivals));
  }

  lemma TakenIsNotEmpty(arrivals: seq<nat>)
    requires arrivals != []
    ensures Taken(arrivals) != []
  {
  }
}
