/**
 What a session lets out and lets in: which captured sound is sent, what the bitrate controller
 hears of it, and which messages the listener takes.
 */
module AudioSessions {
  import opened Wrappers
  import opened ByteStrings
  import opened AudioSequence
  import opened AudioShare
  import opened AudioTimeline
  import BitrateControl

  // ----- what goes out

  predicate HasSound(block: Block) {
    exists i :: 0 <= i < |block| && block[i] != 0
  }

  /** Some octet of one of the two blocks of a group is not zero. */
  predicate IsHeard(captures: seq<Capture>, g: nat)
    requires 2 * g + 1 < |captures|
  {
    HasSound(captures[2 * g].block) || HasSound(captures[2 * g + 1].block)
  }

  lemma SilentHasNoSound(block: Block)
    ensures IsSilent(block) <==> !HasSound(block)
  {
    if !HasSound(block) {
      forall b | b in block
        ensures b == 0
      {
        var i :| 0 <= i < |block| && block[i] == b;
      }
    } else {
      var i :| 0 <= i < |block| && block[i] != 0;
      assert block[i] in block;
    }
  }

  /** The group as it is sent, with a working encoder. */
  function Numbers(stream: nat, captures: seq<Capture>, g: nat): Message
    requires 2 * g + 1 < |captures| && captures[2 * g + 1].at.encoder.WorkingEncoder?
  {
    var encode := captures[2 * g + 1].at.encoder.encode;
    Message(stream, 2 * g % 0x1_0000_0000, 20, Some(48000), Some(2),
            [Some(encode(captures[2 * g].block)), Some(encode(captures[2 * g + 1].block))])
  }

  lemma GroupSounds(captures: seq<Capture>, g: nat)
    requires 2 * g + 1 < |captures|
    ensures Sounds([captures[2 * g].block, captures[2 * g + 1].block]) <==> IsHeard(captures, g)
  {
    var a, b := captures[2 * g].block, captures[2 * g + 1].block;
    var blocks := [a, b];
    assert blocks[0] in blocks && blocks[1] in blocks;
    SilentHasNoSound(a);
    SilentHasNoSound(b);
  }

  lemma OutboxHas(stream: nat, captures: seq<Capture>, groups: nat, g: nat)
    requires g < groups && 2 * groups <= |captures| && GroupMessage(stream, captures, g).Some?
    ensures GroupMessage(stream, captures, g).value in Outbox(stream, captures, groups)
  {
  }

  /** In every run, a full group is sent exactly when the session is active, something in it
      sounds, no more than twenty messages wait and the encoder works; and then with its number,
      the format of the session and its own two packets. */
  lemma {:induction false} SoundIsSentExactly(stream: nat, captures: seq<Capture>, g: nat)
    requires 2 * g + 1 < |captures|
    ensures var at := captures[2 * g + 1].at;
      GroupMessage(stream, captures, g).Some? <==>
      !at.idle && IsHeard(captures, g) && at.queueDepth <= 20 && at.encoder.WorkingEncoder?
    ensures GroupMessage(stream, captures, g).Some? ==>
      && GroupMessage(stream, captures, g).value == Numbers(stream, captures, g)
      && Numbers(stream, captures, g) in Sent(stream, captures).1
  {
    GroupSounds(captures, g);
    if GroupMessage(stream, captures, g).Some? {
      SenderNumbersEveryGroup(stream, captures);
      OutboxHas(stream, captures, |captures| / 2, g);
      var encode := captures[2 * g + 1].at.encoder.encode;
      assert GroupMessage(stream, captures, g).value.packets ==
             [Some(encode(captures[2 * g].block)), Some(encode(captures[2 * g + 1].block))];
    }
  }

  /** The controller hears nothing of an idle session and nothing without an encoder; it hears of a
      drop exactly when sound was given up because more than twenty messages waited, and of the
      queue alone when a group was sent or silent; so a failing encoder is not heard of. */
  lemma PressureIsHeardExactly(s: Sender, stream: nat, block: Block, at: Moment)
    requires |s.pending| == 1
    ensures var sending := OnBlock(s, stream, block, at);
      var heard := sending.observation;
      var sounds := Sounds([s.pending[0], block]);
      && (heard.Some? ==> heard.value.queueDepth == at.queueDepth && heard.value.now == at.now)
      && (heard.Some? && heard.value.dropped <==>
            !at.idle && !at.encoder.NoEncoder? && sounds && at.queueDepth > 20)
      && (heard.Some? && !heard.value.dropped <==>
            sending.message.Some? || (!at.idle && !at.encoder.NoEncoder? && !sounds))
  {
    assert s.pending + [block] == [s.pending[0], block];
  }

  // ----- what comes in

  /** What a session and the limits of a message rule out. */
  predicate IsForeign(m: Message, stream: nat) {
    || m.stream != stream || m.stream < 1 || m.stream > 0xFFFF_FFFF
    || m.sequence < 0 || m.sequence >= 0x1_0000_0000
    || m.frameMs != 20
    || (m.sampleRate.Some? && m.sampleRate.value != 48000)
    || (m.channels.Some? && m.channels.value != 2)
    || m.packets == [] || |m.packets| > 2
    || exists i :: && 0 <= i < |m.packets|
                   && (m.packets[i] == None || m.packets[i].value == [] || |m.packets[i].value| > 4000)
  }

  /** A listener takes the messages of its own session and no others; a rate or a number of
      channels that is left out is no fault. */
  lemma {:induction false} MessagesAreValidExactly(m: Message, stream: nat)
    ensures IsValid(m, stream) <==> !IsForeign(m, stream)
  {
    if ArePackets(m.packets) {
      forall i | 0 <= i < |m.packets|
        ensures m.packets[i].Some? && m.packets[i].value != [] && |m.packets[i].value| <= 4000
      {
      }
    }
  }

  /** Messages of the groups, with any others in between. */
  datatype Arrival = OfGroup(g: nat) | Other(m: Message)

  function Own(arrivals: seq<Arrival>): seq<nat>
    decreases |arrivals|
  {
    if arrivals == [] then []
    else
      var n := |arrivals| - 1;
      Own(arrivals[..n]) + if arrivals[n].OfGroup? then [arrivals[n].g] else []
  }

  predicate ComeIn(stream: nat, captures: seq<Capture>, arrivals: seq<Arrival>)
    decreases |arrivals|
  {
    arrivals == [] ||
    var n := |arrivals| - 1;
    && ComeIn(stream, captures, arrivals[..n])
    && match arrivals[n]
       case OfGroup(g) => CanArrive(stream, captures, AudioTimeline.Taken(Own(arrivals[..n])), g)
       case Other(m) => IsForeign(m, stream)
  }

  function Listening(stream: nat, captures: seq<Capture>, arrivals: seq<Arrival>): Listener
    requires ComeIn(stream, captures, arrivals)
    decreases |arrivals|
  {
    if arrivals == [] then SILENT
    else
      var n := |arrivals| - 1;
      var m := match arrivals[n]
        case OfGroup(g) => GroupMessage(stream, captures, g).value
        case Other(m) => m;
      OnMessage(Listening(stream, captures, arrivals[..n]), true, stream, Player(None), m)
  }

  lemma OwnSnoc(stream: nat, captures: seq<Capture>, own: seq<nat>, g: nat)
    requires Arrive(stream, captures, own) && CanArrive(stream, captures, AudioTimeline.Taken(own), g)
    ensures Arrive(stream, captures, own + [g])
    ensures After(stream, captures, own + [g]) ==
      OnMessage(After(stream, captures, own), true, stream, Player(None), GroupMessage(stream, captures, g).value)
  {
    assert (own + [g])[..|own|] == own;
  }

  /** Messages of other streams, and those that are not as the session has them, change nothing,
      wherever they come in between: the listener is where its own messages take it. */
  lemma {:induction false} ForeignMessagesChangeNothing(stream: nat, captures: seq<Capture>, arrivals: seq<Arrival>)
    requires ComeIn(stream, captures, arrivals)
    ensures Arrive(stream, captures, Own(arrivals))
    ensures Listening(stream, captures, arrivals) == After(stream, captures, Own(arrivals))
    decreases |arrivals|
  {
    if arrivals == [] {
    } else {
      var n := |arrivals| - 1;
      ForeignMessagesChangeNothing(stream, captures, arrivals[..n]);
      match arrivals[n]
      case OfGroup(g) => OwnSnoc(stream, captures, Own(arrivals[..n]), g);
      case Other(m) =>
        MessagesAreValidExactly(m, stream);
        assert Own(arrivals) == Own(arrivals[..n]);
    }
  }

  // ----- a listener without a player, or with a decoder that raises

  function Least(a: nat, b: nat): nat {
    if a < b then a else b
  }

  lemma ThroughIsAPrefix(before: seq<Sound>, sounds: seq<Sound>, k: nat)
    ensures before + Through(sounds, Some(k)) == (before + sounds)[..|before| + Least(k, |sounds|)]
  {
  }

  /** Whatever the player, the stream is followed in the same way; without one nothing is fed, and
      a decoder that raises after some blocks was fed exactly the first of those that one that does
      not raise is fed. */
  lemma FedIsAsFarAsItGoes(l: Listener, active: bool, stream: nat, m: Message, k: nat)
    ensures var whole := OnMessage(l, active, stream, Player(None), m);
      var part := OnMessage(l, active, stream, Player(Some(k)), m);
      var none := OnMessage(l, active, stream, NoPlayer, m);
      var kept := if whole.resets == l.resets then |l.fed| else 0;
      && part.tracker == none.tracker == whole.tracker
      && part.resets == whole.resets && none.resets == l.resets && none.fed == l.fed
      && kept <= |whole.fed| && (whole.resets == l.resets ==> l.fed <= whole.fed)
      && part.fed == whole.fed[..kept + Least(k, |whole.fed| - kept)]
      && (!active ==> whole == l)
  {
    if IsAcceptable(m, active, stream) {
      var (tracker, verdict) := Classify(l.tracker, m.sequence, |m.packets|);
      if verdict == Accepted || verdict == Missing {
        if tracker.missing > MAX_PLC_FRAMES {
          ThroughIsAPrefix([], Decodings(m.packets), k);
          assert [] + Decodings(m.packets) == Decodings(m.packets);
        } else {
          ThroughIsAPrefix(l.fed, Restored(tracker.missing, m.packets), k);
        }
      } else {
        assert l.fed[..|l.fed|] == l.fed;
      }
    } else {
      assert l.fed[..|l.fed|] == l.fed;
    }
  }
}
