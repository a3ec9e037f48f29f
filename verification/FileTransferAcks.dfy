/**
 What a computer is told of a transfer is true, over the unreliable channel of FileTransferSafety:
 every acknowledgement was sent by a receiver that did what it says, and every report of success
 or refusal has one behind it.
 */
module FileTransferAcks {
  import opened Wrappers
  import opened ByteStrings
  import opened FileTransferProtocol
  import opened FileTransferSafety

  // ----- the deliveries of a run

  /** A message handled at a computer, and the computer just before. */
  datatype Delivery = Delivery(peer: Peer, message: Message, answer: Answer, replaced: bool, before: Endpoint)

  function SentBy(w: World, d: Delivery): seq<Message> {
    OnMessage(d.before, d.message, d.answer, d.replaced, w.hash).1
  }

  function AfterIt(w: World, d: Delivery): Endpoint {
    OnMessage(d.before, d.message, d.answer, d.replaced, w.hash).0
  }

  function DeliveryOf(c: Channel, a: Action): set<Delivery> {
    if a.Deliver? && a.peer in c.peers && a.message in c.air
    then {Delivery(a.peer, a.message, a.answer, a.replaced, c.peers[a.peer])}
    else {}
  }

  function Deliveries(w: World, c: Channel, actions: seq<Action>): set<Delivery>
    decreases |actions|
  {
    if actions == [] then {} else DeliveryOf(c, actions[0]) + Deliveries(w, Step(w, c, actions[0]), actions[1..])
  }

  // ----- what a delivery may have done

  /** The start was answered: the transfer was opened under the path the user named, or the
      computer was busy, or the user said no, and nothing changed. */
  ghost predicate IsAnswer(w: World, d: Delivery, id: TransferId, accepted: bool) {
    && d.message.Start? && d.message.id == id
    && if accepted
       then
         && d.before.incoming.None? && d.answer.SaveTo?
         && AfterIt(w, d) == d.before.(incoming := Some(NewIncoming(id, d.message.size, d.answer.path)))
       else (d.before.incoming.Some? || d.answer.Refuse?) && AfterIt(w, d) == d.before
  }

  /** A chunk was written, and the temporary file then held all the chunks up to it. */
  ghost predicate IsWrite(w: World, d: Delivery, id: TransferId, index: int) {
    && id in w.uploads && 0 <= index < |w.uploads[id].pieces|
    && AfterIt(w, d).incoming.Some?
    && var r := AfterIt(w, d).incoming.value;
       r.id == id && r.expected == index + 1 && r.written == Flatten(w.uploads[id].pieces[..index + 1])
  }

  /** The file was saved where the user chose, as an acceptable content of the transfer. */
  ghost predicate IsSave(w: World, chosen: set<Saving>, d: Delivery, id: TransferId, path: Path) {
    && Saving(d.peer, id, path) in chosen
    && path in AfterIt(w, d).disk && Acceptable(w, id, AfterIt(w, d).disk[path])
  }

  // ----- what is kept

  ghost predicate IsBacked(w: World, history: set<Delivery>, m: Message) {
    exists d :: d in history && m in SentBy(w, d)
  }

  predicate IsReply(m: Message) {
    m.StartAck? || m.ChunkAck? || m.CompleteAck?
  }

  /** The sender heard what was sent, and no more than the window is ahead of it. */
  ghost predicate HasHeard(air: set<Message>, e: Endpoint) {
    e.outgoing.Some? ==>
      var s := e.outgoing.value;
      && (s.accepted.Some? ==> StartAck(s.id, s.accepted.value) in air)
      && s.acked >= -1 && (s.acked >= 0 ==> ChunkAck(s.id, s.acked) in air)
      && (s.completed ==> CompleteAck(s.id) in air)
      && s.index - 1 - s.acked <= CHUNK_WINDOW
  }

  /** What a report of success or refusal needs. */
  ghost predicate HasGround(w: World, history: set<Delivery>, air: set<Message>, peer: Peer, r: Report) {
    && (r.outcome == Sent ==> CompleteAck(r.id) in air)
    && (r.outcome == Refused ==> StartAck(r.id, false) in air)
    && (r.outcome == Received ==> exists d :: d in history && d.peer == peer && CompleteAck(r.id) in SentBy(w, d))
  }

  ghost predicate ReportsHaveGround(w: World, history: set<Delivery>, air: set<Message>, peer: Peer,
                                    before: seq<Report>, now: seq<Report>)
  {
    && before <= now
    && forall i :: |before| <= i < |now| ==> HasGround(w, history, air, peer, now[i])
  }

  ghost predicate IsTruthful(w: World, history: set<Delivery>, start: Channel, c: Channel) {
    && c.peers.Keys == start.peers.Keys
    && (forall m :: m in c.air && IsReply(m) ==> IsBacked(w, history, m))
    && forall p :: p in c.peers ==>
         && HasHeard(c.air, c.peers[p])
         && ReportsHaveGround(w, history, c.air, p, start.peers[p].reports, c.peers[p].reports)
  }

  // ----- one action

  lemma ReplyIsHeard(air: set<Message>, e: Endpoint, m: Message, answer: Answer, replaced: bool, hash: Hash)
    requires HasHeard(air, e) && m in air
    ensures HasHeard(air, OnMessage(e, m, answer, replaced, hash).0)
  {
  }

  lemma ThreadHasHeard(air: set<Message>, e: Endpoint, expired: bool, hash: Hash)
    requires HasHeard(air, e)
    ensures var (e', sent) := Wake(e, expired, hash);
      && HasHeard(air, e')
      && (forall m :: m in sent ==> !IsReply(m))
      && (e'.reports == e.reports ||
          (&& e.outgoing.Some? && |e'.reports| == |e.reports| + 1 && e.reports <= e'.reports
           && var r := e'.reports[|e.reports|];
              && r.id == e.outgoing.value.id && r.outcome != Received
              && (r.outcome == Sent ==> CompleteAck(r.id) in air)
              && (r.outcome == Refused ==> StartAck(r.id, false) in air)))
  {
  }

  /** A delivery only adds one report at most. */
  lemma DeliveryReports(w: World, e: Endpoint, m: Message, answer: Answer, replaced: bool)
    ensures var (e', sent) := OnMessage(e, m, answer, replaced, w.hash);
      || e'.reports == e.reports
      || (&& |e'.reports| == |e.reports| + 1 && e.reports <= e'.reports
          && var r := e'.reports[|e.reports|];
             && r.outcome != Sent && r.outcome != Refused
             && (r.outcome == Received ==> CompleteAck(r.id) in sent))
  {
  }

  lemma GroundIsKept(w: World, history: set<Delivery>, air: set<Message>, air': set<Message>, peer: Peer,
                     before: seq<Report>, now: seq<Report>)
    requires ReportsHaveGround(w, history, air, peer, before, now) && air <= air'
    ensures ReportsHaveGround(w, history, air', peer, before, now)
  {
    forall i | |before| <= i < |now|
      ensures HasGround(w, history, air', peer, now[i])
    {
      assert HasGround(w, history, air, peer, now[i]);
    }
  }

  lemma GroundGrows(w: World, history: set<Delivery>, air: set<Message>, peer: Peer,
                    before: seq<Report>, now: seq<Report>, now': seq<Report>)
    requires ReportsHaveGround(w, history, air, peer, before, now)
    requires |now'| == |now| + 1 && now <= now' && HasGround(w, history, air, peer, now'[|now|])
    ensures ReportsHaveGround(w, history, air, peer, before, now')
  {
    forall i | |before| <= i < |now'|
      ensures HasGround(w, history, air, peer, now'[i])
    {
      assert i < |now| ==> now'[i] == now[i];
    }
  }

  /** What an action at a computer does to what that computer knows, `air` being what was sent
      before it. */
  ghost predicate LocalIsTruthful(w: World, history: set<Delivery>, air: set<Message>, peer: Peer,
                                  before: seq<Report>, e': Endpoint, sent: seq<Message>)
  {
    && HasHeard(air, e')
    && (forall m :: m in sent && IsReply(m) ==> IsBacked(w, history, m))
    && ReportsHaveGround(w, history, air, peer, before, e'.reports)
  }

  lemma DeliveryIsTruthful(w: World, history: set<Delivery>, air: set<Message>, before: seq<Report>, d: Delivery)
    requires d in history && d.message in air && HasHeard(air, d.before)
    requires ReportsHaveGround(w, history, air, d.peer, before, d.before.reports)
    ensures LocalIsTruthful(w, history, air, d.peer, before, AfterIt(w, d), SentBy(w, d))
  {
    ReplyIsHeard(air, d.before, d.message, d.answer, d.replaced, w.hash);
    DeliveryReports(w, d.before, d.message, d.answer, d.replaced);
    if AfterIt(w, d).reports != d.before.reports {
      GroundGrows(w, history, air, d.peer, before, d.before.reports, AfterIt(w, d).reports);
    }
  }

  lemma ThreadIsTruthful(w: World, history: set<Delivery>, air: set<Message>, peer: Peer, before: seq<Report>,
                         e: Endpoint, expired: bool)
    requires HasHeard(air, e) && ReportsHaveGround(w, history, air, peer, before, e.reports)
    ensures LocalIsTruthful(w, history, air, peer, before, Wake(e, expired, w.hash).0, Wake(e, expired, w.hash).1)
  {
    ThreadHasHeard(air, e, expired, w.hash);
    var e' := Wake(e, expired, w.hash).0;
    if e'.reports != e.reports {
      GroundGrows(w, history, air, peer, before, e.reports, e'.reports);
    }
  }

  lemma ActionIsTruthful(w: World, history: set<Delivery>, c: Channel, before: seq<Report>, e: Endpoint, a: Action)
    requires HasHeard(c.air, e) && ReportsHaveGround(w, history, c.air, a.peer, before, e.reports)
    requires a.peer in c.peers && e == c.peers[a.peer] && DeliveryOf(c, a) <= history
    ensures var (e', sent) := Local(w, c, e, a);
      LocalIsTruthful(w, history, c.air, a.peer, before, e', sent)
  {
    match a
    case WakeThread(peer, expired) => ThreadIsTruthful(w, history, c.air, peer, before, e, expired);
    case Deliver(peer, m, answer, replaced) =>
      if m in c.air {
        var d := Delivery(peer, m, answer, replaced, e);
        assert d in DeliveryOf(c, a);
        DeliveryIsTruthful(w, history, c.air, before, d);
      }
    case CrashThread(_) =>
      if e.outgoing.Some? {
        GroundGrows(w, history, c.air, a.peer, before, e.reports, Crash(e).reports);
      }
    case _ =>
  }

  lemma HeardIsKept(air: set<Message>, air': set<Message>, e: Endpoint)
    requires HasHeard(air, e) && air <= air'
    ensures HasHeard(air', e)
  {
  }

  lemma StepIsTruthful(w: World, history: set<Delivery>, start: Channel, c: Channel, a: Action)
    requires IsTruthful(w, history, start, c) && DeliveryOf(c, a) <= history
    ensures IsTruthful(w, history, start, Step(w, c, a))
  {
    if a.peer in c.peers {
      var c' := Step(w, c, a);
      var e', sent := Local(w, c, c.peers[a.peer], a).0, Local(w, c, c.peers[a.peer], a).1;
      ActionIsTruthful(w, history, c, start.peers[a.peer].reports, c.peers[a.peer], a);
      forall p | p in c'.peers
        ensures HasHeard(c'.air, c'.peers[p])
        ensures ReportsHaveGround(w, history, c'.air, p, start.peers[p].reports, c'.peers[p].reports)
      {
        HeardIsKept(c.air, c'.air, c'.peers[p]);
        GroundIsKept(w, history, c.air, c'.air, p, start.peers[p].reports, c'.peers[p].reports);
      }
    }
  }

  lemma {:induction false} RunIsTruthful(w: World, history: set<Delivery>, start: Channel, c: Channel,
                                         actions: seq<Action>)
    requires IsTruthful(w, history, start, c) && Deliveries(w, c, actions) <= history
    ensures IsTruthful(w, history, start, Run(w, c, actions))
    decreases |actions|
  {
    if actions == [] {
    } else {
      StepIsTruthful(w, history, start, c, actions[0]);
      RunIsTruthful(w, history, start, Step(w, c, actions[0]), actions[1..]);
    }
  }

  // ----- what the deliveries of a run are like

  ghost predicate DeliveryOk(w: World, chosen: set<Saving>, start: Channel, d: Delivery) {
    && d.peer in start.peers
    && EndpointOk(w, chosen, d.peer, start.peers[d.peer].disk, d.before) && Genuine(w, d.message)
    && (d.message.Start? && d.answer.SaveTo? ==> Saving(d.peer, d.message.id, d.answer.path) in chosen)
  }

  lemma {:induction false} DeliveriesAreOk(w: World, chosen: set<Saving>, start: Channel, c: Channel,
                                           actions: seq<Action>, d: Delivery)
    requires ChannelOk(w, chosen, start, c) && Savings(actions) <= chosen && d in Deliveries(w, c, actions)
    ensures DeliveryOk(w, chosen, start, d)
    decreases |actions|
  {
    if d in DeliveryOf(c, actions[0]) {
      assert SavingOf(actions[0]) <= chosen;
    } else {
      StepKeepsChannel(w, chosen, start, c, actions[0]);
      DeliveriesAreOk(w, chosen, start, Step(w, c, actions[0]), actions[1..], d);
    }
  }

  lemma AnswerIsTrue(w: World, d: Delivery, id: TransferId, accepted: bool)
    requires StartAck(id, accepted) in SentBy(w, d)
    ensures IsAnswer(w, d, id, accepted)
  {
  }

  lemma WriteIsTrue(w: World, chosen: set<Saving>, start: Channel, d: Delivery, id: TransferId, index: int)
    requires DeliveryOk(w, chosen, start, d) && ChunkAck(id, index) in SentBy(w, d)
    ensures IsWrite(w, d, id, index)
  {
    MessageKeepsEndpoint(w, chosen, d.peer, start.peers[d.peer].disk, d.before, d.message, d.answer, d.replaced);
  }

  lemma SaveIsTrue(w: World, chosen: set<Saving>, start: Channel, d: Delivery, id: TransferId)
    requires DeliveryOk(w, chosen, start, d) && CompleteAck(id) in SentBy(w, d)
    ensures d.before.incoming.Some? && IsSave(w, chosen, d, id, d.before.incoming.value.destination)
  {
    var r := d.before.incoming.value;
    SavingIsAcceptable(w, r, d.message.size, d.message.checksum);
  }

  // ----- whole runs

  lemma RunIsBacked(w: World, start: Channel, actions: seq<Action>)
    requires Fresh(start)
    ensures IsTruthful(w, Deliveries(w, start, actions), start, Run(w, start, actions))
  {
    RunIsTruthful(w, Deliveries(w, start, actions), start, start, actions);
  }

  /** At every moment of every run, whatever is lost, repeated or reordered, what a sender has been
      told is true: it was answered as it believes, by a receiver that opened the transfer where
      its user chose, or that was busy or declined and changed nothing; the chunk it takes for
      acknowledged was written, with all before it; and no more than eight are sent beyond it. */
  lemma {:induction false} AcknowledgementsAreTrue(w: World, start: Channel, actions: seq<Action>, peer: Peer)
    requires Fresh(start) && peer in start.peers
    ensures peer in Run(w, start, actions).peers
    ensures var e, history := Run(w, start, actions).peers[peer], Deliveries(w, start, actions);
      e.outgoing.Some? ==>
        var s := e.outgoing.value;
        && (s.accepted.Some? ==> exists d :: d in history && IsAnswer(w, d, s.id, s.accepted.value))
        && (s.acked != -1 ==> exists d :: d in history && IsWrite(w, d, s.id, s.acked))
        && s.index - 1 - s.acked <= 8
  {
    RunIsBacked(w, start, actions);
    FreshIsOk(w, Savings(actions), start);
    var c, history := Run(w, start, actions), Deliveries(w, start, actions);
    assert HasHeard(c.air, c.peers[peer]);
    if c.peers[peer].outgoing.Some? {
      var s := c.peers[peer].outgoing.value;
      if s.accepted.Some? {
        assert IsBacked(w, history, StartAck(s.id, s.accepted.value));
        var d :| d in history && StartAck(s.id, s.accepted.value) in SentBy(w, d);
        AnswerIsTrue(w, d, s.id, s.accepted.value);
      }
      if s.acked != -1 {
        assert IsBacked(w, history, ChunkAck(s.id, s.acked));
        var d :| d in history && ChunkAck(s.id, s.acked) in SentBy(w, d);
        DeliveriesAreOk(w, Savings(actions), start, start, actions, d);
        WriteIsTrue(w, Savings(actions), start, d, s.id, s.acked);
      }
    }
  }

  /** In every run, a file reported as sent was saved by some computer, and one reported as received
      by this one: where its user chose, as leading chunks of the transfer of the announced size
      that its checksum does not tell from it, and so whole if the file did not change.  And one
      reported as refused was declined by a computer, or met a busy one. */
  lemma {:induction false} ReportsAreTrue(w: World, start: Channel, actions: seq<Action>, peer: Peer, i: nat)
    requires Fresh(start) && peer in start.peers && |start.peers[peer].reports| <= i
    ensures peer in Run(w, start, actions).peers
    ensures var reports, history := Run(w, start, actions).peers[peer].reports, Deliveries(w, start, actions);
      i < |reports| ==>
        var r := reports[i];
        && (r.outcome == Sent ==>
              exists d, path :: d in history && IsSave(w, Savings(actions), d, r.id, path))
        && (r.outcome == Received ==>
              exists d, path :: d in history && d.peer == peer && IsSave(w, Savings(actions), d, r.id, path))
        && (r.outcome == Refused ==> exists d :: d in history && IsAnswer(w, d, r.id, false))
  {
    RunIsBacked(w, start, actions);
    FreshIsOk(w, Savings(actions), start);
    var c, history := Run(w, start, actions), Deliveries(w, start, actions);
    var reports := c.peers[peer].reports;
    assert ReportsHaveGround(w, history, c.air, peer, start.peers[peer].reports, reports);
    if i < |reports| {
      var r := reports[i];
      assert HasGround(w, history, c.air, peer, r);
      match r.outcome {
        case Sent =>
          assert IsBacked(w, history, CompleteAck(r.id));
          var d :| d in history && CompleteAck(r.id) in SentBy(w, d);
          DeliveriesAreOk(w, Savings(actions), start, start, actions, d);
          SaveIsTrue(w, Savings(actions), start, d, r.id);
        case Received =>
          var d :| d in history && d.peer == peer && CompleteAck(r.id) in SentBy(w, d);
          DeliveriesAreOk(w, Savings(actions), start, start, actions, d);
          SaveIsTrue(w, Savings(actions), start, d, r.id);
        case Refused =>
          assert IsBacked(w, history, StartAck(r.id, false));
          var d :| d in history && StartAck(r.id, false) in SentBy(w, d);
          AnswerIsTrue(w, d, r.id, false);
        case _ =>
      }
    }
  }

  // ----- how a transfer ends at its receiver

  /** Nothing else changes at the computer, but for the report. */
  predicate EndsWith(e: Endpoint, e': Endpoint, disk: map<Path, Bytes>, outcome: Option<Outcome>) {
    && e.incoming.Some?
    && e' == Endpoint(e.outgoing, None, disk,
                      e.reports + if outcome == None then [] else [Report(e.incoming.value.id, outcome.value)])
  }

  /** A message that ends the transfer being received, and how. */
  predicate EndsByMessage(w: World, m: Message, replaced: bool, e: Endpoint, e': Endpoint, sent: seq<Message>)
    requires e.incoming.Some?
  {
    var r := e.incoming.value;
    match m
    case Abort(_) => sent == [] && EndsWith(e, e', e.disk, Some(Interrupted))
    case Chunk(_, index, data) =>
      && (index != r.expected || data == None)
      && sent == [Abort(r.id)] && EndsWith(e, e', e.disk, Some(Corrupted))
    case Complete(_, size, checksum) =>
      if |r.written| != size || (checksum != "" && w.hash(r.written) != checksum)
      then sent == [Abort(r.id)] && EndsWith(e, e', e.disk, Some(Corrupted))
      else if !replaced then sent == [Abort(r.id)] && EndsWith(e, e', e.disk, Some(Failed))
      else sent == [CompleteAck(r.id)] && EndsWith(e, e', e.disk[r.destination := r.written], Some(Received))
    case _ => false
  }

  /** An action that ends the transfer being received, and how. */
  predicate EndsReception(w: World, a: Action, e: Endpoint, e': Endpoint, sent: seq<Message>)
    requires e.incoming.Some?
  {
    var r := e.incoming.value;
    match a
    case CancelIncoming(_) => sent == [Abort(r.id)] && EndsWith(e, e', e.disk, None)
    case CloseConnection(_) =>
      && sent == []
      && EndsWith(e.(outgoing := e'.outgoing), e', e.disk, None)
      && (e'.outgoing.Some? <==> e.outgoing.Some?) && (e'.outgoing.Some? ==> e'.outgoing.value.cancelled)
    case Deliver(_, m, _, replaced) => m.id == r.id && EndsByMessage(w, m, replaced, e, e', sent)
    case _ => false
  }

  /** Whether the action has to end it. */
  predicate MustEnd(c: Channel, e: Endpoint, a: Action)
    requires e.incoming.Some?
  {
    var r := e.incoming.value;
    match a
    case CancelIncoming(_) => true
    case CloseConnection(_) => true
    case Deliver(_, m, _, _) =>
      && m in c.air && m.id == r.id
      && (m.Complete? || (m.Chunk? && (m.index != r.expected || m.data == None)) || (m.Abort? && !Sending(e, r.id)))
    case _ => false
  }

  /** In every run, an action ends the transfer that a computer receives exactly when it has to,
      and then it is one of these: the file is saved and that is acknowledged; it is announced by
      an abort that its user cancelled, that a chunk was out of order or unreadable, that the
      file is not of its size or checksum, or that it cannot be saved; an abort of the other end
      said so; or the connection closed.  The disk changes in the first case only.  Otherwise
      the same transfer goes on under the same path. */
  lemma {:induction false} ReceptionsEndExactly(w: World, start: Channel, actions: seq<Action>, a: Action)
    requires Fresh(start) && a.peer in start.peers
    ensures a.peer in Run(w, start, actions).peers
    ensures var c := Run(w, start, actions);
      var e := c.peers[a.peer];
      var (e', sent) := Local(w, c, e, a);
      e.incoming.Some? ==>
        && (e'.incoming.None? <==> MustEnd(c, e, a))
        && (e'.incoming.None? ==> EndsReception(w, a, e, e', sent))
        && (e'.incoming.Some? ==>
              && e'.incoming.value.id == e.incoming.value.id
              && e'.incoming.value.destination == e.incoming.value.destination
              && e'.disk == e.disk)
  {
    FreshIsOk(w, Savings(actions), start);
    RunKeepsChannel(w, Savings(actions), start, start, actions);
    var c := Run(w, start, actions);
    if c.peers[a.peer].incoming.Some? {
      assert IncomingOk(w, c.peers[a.peer].incoming.value);
      OneReceptionEnds(w, c, c.peers[a.peer], a);
    }
  }

  lemma OneReceptionEnds(w: World, c: Channel, e: Endpoint, a: Action)
    requires e.incoming.Some?
    requires var r := e.incoming.value; r.hashed == r.written && r.received == |r.written|
    ensures var (e', sent) := Local(w, c, e, a);
      && (e'.incoming.None? <==> MustEnd(c, e, a))
      && (e'.incoming.None? ==> EndsReception(w, a, e, e', sent))
      && (e'.incoming.Some? ==>
            && e'.incoming.value.id == e.incoming.value.id
            && e'.incoming.value.destination == e.incoming.value.destination
            && e'.disk == e.disk)
  {
    assert e.reports + [] == e.reports;
  }
}
