/**
 The Opus stream between two computers: the sender numbers every group of blocks, sent or
 not, and the listener conceals short gaps and resynchronises after long ones.

 The encoder is, at each moment, some total function from blocks to packets.
 */
module AudioShare {
  import opened Wrappers
  import opened ByteStrings
  import opened AudioSequence
  import BitrateControl

  const BLOCKS_PER_MESSAGE := 2
  const MAX_QUEUED_MESSAGES := 20
  const MAX_PLC_FRAMES := 3
  const MAX_PACKET_BYTES := 4000
  const MAX_STREAM_ID := 0xFFFF_FFFF
  const FRAME_MS := 20
  const SAMPLE_RATE := 48000
  const CHANNELS := 2

  type Block = Bytes

  predicate IsPacket(b: Bytes) {
    1 <= |b| <= MAX_PACKET_BYTES
  }

  type Packet = b: Bytes | IsPacket(b)
    witness [0]

  /** A packet travels as Base64 text: it is what that decodes to, if it decodes at all.  Rate
      and channel count may be left out. */
  datatype Message = Message(
    stream: int,
    sequence: int,
    frameMs: int,
    sampleRate: Option<int>,
    channels: Option<int>,
    packets: seq<Option<Bytes>>)

  // ----- the sender

  datatype Encoder = NoEncoder | FailingEncoder | WorkingEncoder(encode: Block -> Packet)

  /** What the sender finds when a block comes. */
  datatype Moment = Moment(idle: bool, queueDepth: nat, encoder: Encoder, now: real)

  datatype Sender = Sender(pending: seq<Block>, sequence: nat)

  predicate IsSilent(block: Block) {
    forall b <- block :: b == 0
  }

  predicate Sounds(blocks: seq<Block>) {
    exists b <- blocks :: !IsSilent(b)
  }

  /** Whether a full group goes out. */
  predicate GoesOut(blocks: seq<Block>, at: Moment) {
    && !at.idle
    && Sounds(blocks)
    && at.queueDepth <= MAX_QUEUED_MESSAGES
    && at.encoder.WorkingEncoder?
  }

  function Packets(blocks: seq<Block>, encode: Block -> Packet): seq<Option<Bytes>> {
    seq(|blocks|, i requires 0 <= i < |blocks| => Some(encode(blocks[i])))
  }

  function MessageOf(stream: nat, sequence: nat, blocks: seq<Block>, encode: Block -> Packet): Message {
    Message(stream, sequence, FRAME_MS, Some(SAMPLE_RATE), Some(CHANNELS), Packets(blocks, encode))
  }

  /** What a full group tells the bitrate controller: nothing without an encoder, or when the
      encoder fails or the group is not even looked at. */
  function Observed(blocks: seq<Block>, at: Moment): Option<BitrateControl.Observation> {
    if at.idle || at.encoder.NoEncoder? then None
    else if Sounds(blocks) && at.queueDepth > MAX_QUEUED_MESSAGES then
      Some(BitrateControl.Observation(at.queueDepth, true, at.now))
    else if Sounds(blocks) && at.encoder.FailingEncoder? then None
    else Some(BitrateControl.Observation(at.queueDepth, false, at.now))
  }

  datatype Sending = Sending(
    after: Sender,
    message: Option<Message>,
    observation: Option<BitrateControl.Observation>)

  function OnBlock(s: Sender, stream: nat, block: Block, at: Moment): Sending {
    var pending := s.pending + [block];
    if |pending| < BLOCKS_PER_MESSAGE then Sending(Sender(pending, s.sequence), None, None)
    else
      Sending(Sender([], NextSequence(s.sequence, |pending|)),
              if GoesOut(pending, at) then Some(MessageOf(stream, s.sequence, pending, at.encoder.encode)) else None,
              Observed(pending, at))
  }

  class Publisher {
    const stream: nat
    const controller: BitrateControl.BitrateController
    var pending: seq<Block>
    var sendSequence: nat
    var sent: seq<Message>

    constructor (stream: nat)
      ensures this.stream == stream && State() == Sender([], 0) && sent == []
      ensures fresh(controller) && controller.s == BitrateControl.DEFAULTS
      ensures controller.Value() == BitrateControl.Fresh(BitrateControl.INITIAL_BITRATE)
    {
      this.stream := stream;
      controller := new BitrateControl.BitrateController(BitrateControl.INITIAL_BITRATE, BitrateControl.DEFAULTS);
      pending, sendSequence, sent := [], 0, [];
    }

    function State(): Sender
      reads this
    {
      Sender(pending, sendSequence)
    }

    method AllSilent(blocks: seq<Block>) returns (silent: bool)
      ensures silent <==> !Sounds(blocks)
    {
      for i := 0 to |blocks|
        invariant forall j :: 0 <= j < i ==> IsSilent(blocks[j])
      {
        if !IsSilent(blocks[i]) {
          return false;
        }
      }
      silent := true;
    }

    /** The controller sees the pressure, unless there is no encoder to set. */
    method ObserveBitrate(at: Moment, dropped: bool)
      modifies controller
      ensures controller.Value() ==
        if at.encoder.NoEncoder? then old(controller.Value())
        else BitrateControl.Observe(controller.s, old(controller.Value()),
                                    BitrateControl.Observation(at.queueDepth, dropped, at.now))
    {
      if at.encoder.NoEncoder? {
        return;
      }
      var _ := controller.ObserveDepth(at.queueDepth, dropped, at.now);
    }

    method OnOpusBlock(block: Block, at: Moment)
      modifies this, controller
      ensures var sending := OnBlock(old(State()), stream, block, at);
        && State() == sending.after
        && sent == (if sending.message == None then old(sent) else old(sent) + [sending.message.value])
        && controller.Value() ==
             if sending.observation == None then old(controller.Value())
             else BitrateControl.Observe(controller.s, old(controller.Value()), sending.observation.value)
    {
      pending := pending + [block];
      if |pending| < BLOCKS_PER_MESSAGE {
        return;
      }
      var blocks := pending;
      pending := [];
      var sequence := sendSequence;
      sendSequence := (sendSequence + |blocks|) % SPACE;
      if at.idle {
        return;
      }
      var silent := AllSilent(blocks);
      if silent {
        ObserveBitrate(at, false);
        return;
      }
      if at.queueDepth > MAX_QUEUED_MESSAGES {
        ObserveBitrate(at, true);
        return;
      }
      if !at.encoder.WorkingEncoder? {
        return;
      }
      ObserveBitrate(at, false);
      sent := sent + [MessageOf(stream, sequence, blocks, at.encoder.encode)];
    }
  }

  // ----- the listener

  datatype Sound = Decoded(packet: Bytes) | Concealed

  /** The blocks fed to the player since the last resynchronisation. */
  datatype Listener = Listener(tracker: Tracker, fed: seq<Sound>, resets: nat)

  /** The player of the moment, and how many more blocks its decoder takes before it raises. */
  datatype Playing = NoPlayer | Player(failsAfter: Option<nat>)

  predicate ArePackets(packets: seq<Option<Bytes>>) {
    forall i :: 0 <= i < |packets| ==> packets[i].Some? && IsPacket(packets[i].value)
  }

  /** What the parameters of a session and the limits of a message allow. */
  predicate IsValid(m: Message, stream: nat) {
    && 1 <= m.stream <= MAX_STREAM_ID && m.stream == stream
    && AreParameters(m.sequence, |m.packets|)
    && m.frameMs == FRAME_MS
    && (m.sampleRate == None || m.sampleRate == Some(SAMPLE_RATE))
    && (m.channels == None || m.channels == Some(CHANNELS))
    && ArePackets(m.packets)
  }

  predicate IsAcceptable(m: Message, active: bool, stream: nat) {
    active && IsValid(m, stream)
  }

  /** `validate_opus_data`, branch by branch. */
  method ValidateOpusData(m: Message, stream: nat) returns (raised: bool)
    ensures raised <==> !IsValid(m, stream)
  {
    if !(1 <= m.stream <= MAX_STREAM_ID) || !(0 <= m.sequence < SPACE) || m.stream != stream {
      return true;
    }
    if m.frameMs != FRAME_MS {
      return true;
    }
    if m.sampleRate.Some? && m.sampleRate.value != SAMPLE_RATE {
      return true;
    }
    if m.channels.Some? && m.channels.value != CHANNELS {
      return true;
    }
    if !(1 <= |m.packets| <= MAX_PACKETS) {
      return true;
    }
    for i := 0 to |m.packets|
      invariant forall j :: 0 <= j < i ==> m.packets[j].Some? && IsPacket(m.packets[j].value)
    {
      if m.packets[i] == None || !IsPacket(m.packets[i].value) {
        return true;
      }
    }
    raised := false;
  }

  function Concealment(count: nat): seq<Sound> {
    seq(count, i => Concealed)
  }

  function Decodings(packets: seq<Option<Bytes>>): seq<Sound>
    requires ArePackets(packets)
  {
    seq(|packets|, i requires 0 <= i < |packets| => Decoded(packets[i].value))
  }

  /** A short gap is concealed before the packets are decoded. */
  function Restored(missing: nat, packets: seq<Option<Bytes>>): seq<Sound>
    requires ArePackets(packets)
  {
    Concealment(missing) + Decodings(packets)
  }

  /** What a decoder that raises at some point lets through. */
  function Through(sounds: seq<Sound>, failsAfter: Option<nat>): seq<Sound> {
    if failsAfter == None || |sounds| <= failsAfter.value then sounds else sounds[..failsAfter.value]
  }

  function OnMessage(l: Listener, active: bool, stream: nat, playing: Playing, m: Message): Listener {
    if !IsAcceptable(m, active, stream) then l
    else
      var (tracker, verdict) := Classify(l.tracker, m.sequence, |m.packets|);
      if verdict == Duplicate || verdict == Old || playing == NoPlayer then l.(tracker := tracker)
      else if tracker.missing > MAX_PLC_FRAMES then
        Listener(tracker, Through(Decodings(m.packets), playing.failsAfter), l.resets + 1)
      else
        Listener(tracker, l.fed + Through(Restored(tracker.missing, m.packets), playing.failsAfter), l.resets)
  }

  class OpusPlayer {
    var fed: seq<Sound>
    var resets: nat
    var failsAfter: Option<nat>

    constructor (failsAfter: Option<nat>)
      ensures fed == [] && resets == 0 && this.failsAfter == failsAfter
    {
      fed, resets, this.failsAfter := [], 0, failsAfter;
    }

    method Feed(sound: Sound) returns (raised: bool)
      modifies this`fed, this`failsAfter
      ensures raised <==> old(failsAfter) == Some(0)
      ensures raised ==> fed == old(fed) && failsAfter == old(failsAfter)
      ensures !raised ==> fed == old(fed) + [sound]
      ensures !raised ==> failsAfter == Less(old(failsAfter), 1)
    {
      if failsAfter == Some(0) {
        return true;
      }
      fed := fed + [sound];
      failsAfter := Less(failsAfter, 1);
      raised := false;
    }

    method ResetStream()
      modifies this`fed, this`resets
      ensures fed == [] && resets == old(resets) + 1
    {
      fed, resets := [], resets + 1;
    }
  }

  function Less(failsAfter: Option<nat>, n: nat): Option<nat> {
    if failsAfter == None then None
    else if failsAfter.value <= n then Some(0) else Some(failsAfter.value - n)
  }

  class Viewer {
    const stream: nat
    const opusSequences: SequenceTracker
    const player: OpusPlayer?
    var active: bool

    constructor (stream: nat, player: OpusPlayer?)
      ensures this.stream == stream && this.player == player && active
      ensures opusSequences.State() == FRESH
    {
      this.stream, this.player, active := stream, player, true;
      opusSequences := new SequenceTracker();
    }

    function State(): Listener
      reads opusSequences, player
    {
      if player == null then Listener(opusSequences.State(), [], 0)
      else Listener(opusSequences.State(), player.fed, player.resets)
    }

    function Situation(): Playing
      reads player
    {
      if player == null then NoPlayer else Player(player.failsAfter)
    }

    /** Feeds until the decoder raises. */
    method FeedAll(sounds: seq<Sound>) returns (raised: bool)
      requires player != null
      modifies player`fed, player`failsAfter
      ensures player.fed == old(player.fed) + Through(sounds, old(player.failsAfter))
      ensures !raised ==> player.failsAfter == Less(old(player.failsAfter), |sounds|)
      ensures raised <==> old(player.failsAfter).Some? && old(player.failsAfter).value < |sounds|
    {
      ghost var limit := player.failsAfter;
      for i := 0 to |sounds|
        invariant limit.Some? ==> i <= limit.value
        invariant player.fed == old(player.fed) + sounds[..i]
        invariant player.failsAfter == Less(limit, i)
      {
        raised := player.Feed(sounds[i]);
        if raised {
          return;
        }
        assert sounds[..i + 1] == sounds[..i] + [sounds[i]];
      }
      assert sounds[..|sounds|] == sounds;
      raised := false;
    }

    method HandleOpusData(m: Message)
      modifies opusSequences, player
      ensures State() == OnMessage(old(State()), active, stream, old(Situation()), m)
    {
      if !active {
        return;
      }
      var raised := ValidateOpusData(m, stream);
      if raised {
        return;
      }
      var disposition := opusSequences.Accept(m.sequence, |m.packets|);
      if disposition.Err? {
        return;
      }
      if disposition.value == Duplicate || disposition.value == Old {
        return;
      }
      if player == null {
        return;
      }
      Play(opusSequences.missingCount, m.packets);
    }

    method Play(missing: nat, packets: seq<Option<Bytes>>)
      requires player != null && ArePackets(packets)
      modifies player
      ensures missing > MAX_PLC_FRAMES ==>
        player.fed == Through(Decodings(packets), old(player.failsAfter)) && player.resets == old(player.resets) + 1
      ensures missing <= MAX_PLC_FRAMES ==>
        player.fed == old(player.fed) + Through(Restored(missing, packets), old(player.failsAfter))
        && player.resets == old(player.resets)
    {
      if missing > MAX_PLC_FRAMES {
        player.ResetStream();
        var _ := FeedAll(Decodings(packets));
        AfterReset(packets, player.fed, old(player.failsAfter));
      } else {
        PlayOn(missing, packets);
      }
    }

    /** After a short gap, or none. */
    method PlayOn(missing: nat, packets: seq<Option<Bytes>>)
      requires player != null && ArePackets(packets)
      modifies player`fed, player`failsAfter
      ensures player.fed == old(player.fed) + Through(Restored(missing, packets), old(player.failsAfter))
    {
      ghost var before, limit := player.fed, player.failsAfter;
      RestoredThrough(missing, packets, limit);
      var raised := FeedAll(Concealment(missing));
      if raised {
        return;
      }
      var _ := FeedAll(Decodings(packets));
      Reassociate(before, Through(Concealment(missing), limit), Through(Decodings(packets), Less(limit, missing)));
    }
  }

  lemma AfterReset(packets: seq<Option<Bytes>>, fed: seq<Sound>, failsAfter: Option<nat>)
    requires ArePackets(packets) && fed == [] + Through(Decodings(packets), failsAfter)
    ensures fed == Through(Decodings(packets), failsAfter)
  {
  }

  lemma ThroughBoth(a: seq<Sound>, b: seq<Sound>, failsAfter: Option<nat>)
    ensures Through(a + b, failsAfter) ==
      if failsAfter.Some? && failsAfter.value < |a| then Through(a, failsAfter)
      else Through(a, failsAfter) + Through(b, Less(failsAfter, |a|))
  {
  }

  lemma RestoredThrough(missing: nat, packets: seq<Option<Bytes>>, failsAfter: Option<nat>)
    requires ArePackets(packets)
    ensures Through(Restored(missing, packets), failsAfter) ==
      if failsAfter.Some? && failsAfter.value < missing then Through(Concealment(missing), failsAfter)
      else Through(Concealment(missing), failsAfter) + Through(Decodings(packets), Less(failsAfter, missing))
    ensures Concealment(0) == []
  {
    ThroughBoth(Concealment(missing), Decodings(packets), failsAfter);
  }
}
