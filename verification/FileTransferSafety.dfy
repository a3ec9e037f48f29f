/**
 Safety of the chunked file transfer over an unreliable channel.

 Any number of computers share a channel that may lose, repeat and reorder messages, but
 not alter them: a message that was sent once may reach any computer, any number of times,
 at any later moment.  Transfers start, stall, time out, are cancelled at either end and
 lose their connection at any point of the run.
 */
module FileTransferSafety {
  import opened Wrappers
  import opened ByteStrings
  import opened FileTransferProtocol

  type Peer = string

  /** What the run is about: which file each transfer identifier stands for, and SHA-256. */
  datatype World = World(uploads: map<TransferId, Upload>, hash: Hash)

  /** The computers, and every message sent so far. */
  datatype Channel = Channel(peers: map<Peer, Endpoint>, air: set<Message>)

  datatype Action =
    | SendFile(peer: Peer, id: TransferId)
    | WakeThread(peer: Peer, expired: bool)
    | CrashThread(peer: Peer)
    | Deliver(peer: Peer, message: Message, answer: Answer, replaced: bool)
    | CancelOutgoing(peer: Peer)
    | CancelIncoming(peer: Peer)
    | CloseConnection(peer: Peer)

  /** What the action does at the computer it happens at; an action that cannot happen there
      does nothing. */
  function Local(w: World, c: Channel, e: Endpoint, a: Action): (Endpoint, seq<Message>) {
    match a
    case SendFile(_, id) => if id in w.uploads then (BeginSend(e, id, w.uploads[id]), []) else (e, [])
    case WakeThread(_, expired) => Wake(e, expired, w.hash)
    case CrashThread(_) => (Crash(e), [])
    case Deliver(_, m, answer, replaced) =>
      if m in c.air then OnMessage(e, m, answer, replaced, w.hash) else (e, [])
    case CancelOutgoing(_) => CancelSend(e)
    case CancelIncoming(_) => CancelReceive(e)
    case CloseConnection(_) => (Disconnect(e), [])
  }

  function Step(w: World, c: Channel, a: Action): Channel {
    if a.peer !in c.peers then c
    else
      var (e, sent) := Local(w, c, c.peers[a.peer], a);
      Channel(c.peers[a.peer := e], c.air + set m | m in sent)
  }

  function Run(w: World, c: Channel, actions: seq<Action>): Channel
    decreases |actions|
  {
    if actions == [] then c else Run(w, Step(w, c, actions[0]), actions[1..])
  }

  /** A user's answer to a start message: the transfer is to be saved under this path. */
  datatype Saving = Saving(peer: Peer, id: TransferId, path: Path)

  function SavingOf(a: Action): set<Saving> {
    if a.Deliver? && a.message.Start? && a.answer.SaveTo? then {Saving(a.peer, a.message.id, a.answer.path)} else {}
  }

  /** What the users answered in a run. */
  function Savings(actions: seq<Action>): set<Saving>
    decreases |actions|
  {
    if actions == [] then {} else SavingOf(actions[0]) + Savings(actions[1..])
  }

  /** Nothing sent yet; the disks may hold anything. */
  ghost predicate Fresh(c: Channel) {
    && c.air == {}
    && forall p :: p in c.peers ==> c.peers[p].outgoing.None? && c.peers[p].incoming.None?
  }

  // ----- what every message, transfer and disk satisfies

  ghost predicate Genuine(w: World, m: Message) {
    match m
    case Start(id, size, _) => id in w.uploads && size == w.uploads[id].size
    case Chunk(id, index, data) =>
      id in w.uploads && 0 <= index < |w.uploads[id].pieces| && data == Some(w.uploads[id].pieces[index])
    case Complete(id, size, checksum) =>
      id in w.uploads && size == w.uploads[id].size && checksum == w.hash(Content(w.uploads[id]))
    case _ => true
  }

  ghost predicate OutgoingOk(w: World, s: Outgoing) {
    && s.id in w.uploads
    && s.upload == w.uploads[s.id]
    && s.index <= |s.upload.pieces|
    && s.hashed == Flatten(s.upload.pieces[..s.index])
    && (s.phase.AwaitWindow? ==> s.index < |s.upload.pieces| && s.phase.data == s.upload.pieces[s.index])
  }

  ghost predicate IncomingOk(w: World, r: Incoming) {
    && r.id in w.uploads
    && r.expected <= |w.uploads[r.id].pieces|
    && r.written == r.hashed == Flatten(w.uploads[r.id].pieces[..r.expected])
    && r.received == |r.written|
  }

  /** What the receiver may save as transfer `id`: a whole number of leading chunks, of the
      announced size, which the checksum does not tell from the whole file. */
  ghost predicate Acceptable(w: World, id: TransferId, content: Bytes) {
    && id in w.uploads
    && var u := w.uploads[id];
    && (exists k :: 0 <= k <= |u.pieces| && content == Flatten(u.pieces[..k]))
    && |content| == u.size
    && (w.hash(Content(u)) == "" || w.hash(content) == w.hash(Content(u)))
  }

  /** A path holds what it held before, or a transfer the user of this computer chose to save
      there. */
  ghost predicate PathOk(w: World, chosen: set<Saving>, peer: Peer, before: map<Path, Bytes>, path: Path, content: Bytes) {
    (path in before && content == before[path]) ||
    exists id :: Saving(peer, id, path) in chosen && Acceptable(w, id, content)
  }

  ghost predicate DiskOk(w: World, chosen: set<Saving>, peer: Peer, before: map<Path, Bytes>, now: map<Path, Bytes>) {
    && before.Keys <= now.Keys
    && forall path :: path in now ==> PathOk(w, chosen, peer, before, path, now[path])
  }

  ghost predicate EndpointOk(w: World, chosen: set<Saving>, peer: Peer, before: map<Path, Bytes>, e: Endpoint) {
    && (e.outgoing.Some? ==> OutgoingOk(w, e.outgoing.value))
    && (e.incoming.Some? ==>
          && IncomingOk(w, e.incoming.value)
          && Saving(peer, e.incoming.value.id, e.incoming.value.destination) in chosen)
    && DiskOk(w, chosen, peer, before, e.disk)
  }

  ghost predicate ChannelOk(w: World, chosen: set<Saving>, start: Channel, c: Channel) {
    && c.peers.Keys == start.peers.Keys
    && (forall m :: m in c.air ==> Genuine(w, m))
    && forall p :: p in c.peers ==> EndpointOk(w, chosen, p, start.peers[p].disk, c.peers[p])
  }

  // ----- one step

  lemma ResumeKeepsOutgoing(w: World, s: Outgoing, expired: bool)
    requires OutgoingOk(w, s)
    ensures var p := Resume(s, expired, w.hash);
      p.Running? ==> OutgoingOk(w, p.next) && p.next.id == s.id && forall m :: m in p.sent ==> Genuine(w, m)
  {
    assert s.upload.pieces[..|s.upload.pieces|] == s.upload.pieces;
    if s.phase.AwaitWindow? {
      FlattenPrefixSnoc(s.upload.pieces, s.index);
    }
  }

  lemma SavingIsAcceptable(w: World, r: Incoming, size: nat, checksum: Digest)
    requires IncomingOk(w, r) && Genuine(w, Complete(r.id, size, checksum))
    requires Matches(r, size, checksum, w.hash)
    ensures Acceptable(w, r.id, r.written)
  {
  }

  lemma SavingKeepsDisk(w: World, chosen: set<Saving>, peer: Peer, before: map<Path, Bytes>, now: map<Path, Bytes>,
                        id: TransferId, path: Path, content: Bytes)
    requires DiskOk(w, chosen, peer, before, now)
    requires Saving(peer, id, path) in chosen && Acceptable(w, id, content)
    ensures DiskOk(w, chosen, peer, before, now[path := content])
  {
    var now' := now[path := content];
    forall p | p in now'
      ensures PathOk(w, chosen, peer, before, p, now'[p])
    {
      assert p != path ==> p in now;
    }
  }

  lemma StartKeepsEndpoint(w: World, chosen: set<Saving>, peer: Peer, before: map<Path, Bytes>, e: Endpoint,
                           id: TransferId, size: nat, answer: Answer)
    requires EndpointOk(w, chosen, peer, before, e) && id in w.uploads
    requires answer.SaveTo? ==> Saving(peer, id, answer.path) in chosen
    ensures var (e', sent) := OnStart(e, id, size, answer);
      EndpointOk(w, chosen, peer, before, e') && forall m :: m in sent ==> Genuine(w, m)
  {
    assert w.uploads[id].pieces[..0] == [];
  }

  lemma ChunkKeepsEndpoint(w: World, chosen: set<Saving>, peer: Peer, before: map<Path, Bytes>, e: Endpoint,
                           id: TransferId, index: int, data: Option<Bytes>)
    requires EndpointOk(w, chosen, peer, before, e) && Genuine(w, Chunk(id, index, data)) && Receiving(e, id)
    ensures var (e', sent) := OnChunk(e, index, data);
      EndpointOk(w, chosen, peer, before, e') && forall m :: m in sent ==> Genuine(w, m)
  {
    if index == e.incoming.value.expected {
      FlattenPrefixSnoc(w.uploads[id].pieces, index);
    }
  }

  lemma CompleteKeepsEndpoint(w: World, chosen: set<Saving>, peer: Peer, before: map<Path, Bytes>, e: Endpoint,
                              id: TransferId, size: nat, checksum: Digest, replaced: bool)
    requires EndpointOk(w, chosen, peer, before, e) && Genuine(w, Complete(id, size, checksum)) && Receiving(e, id)
    ensures var (e', sent) := OnComplete(e, size, checksum, replaced, w.hash);
      EndpointOk(w, chosen, peer, before, e') && forall m :: m in sent ==> Genuine(w, m)
  {
    var r := e.incoming.value;
    if Matches(r, size, checksum, w.hash) {
      SavingIsAcceptable(w, r, size, checksum);
      SavingKeepsDisk(w, chosen, peer, before, e.disk, id, r.destination, r.written);
    }
  }

  lemma MessageKeepsEndpoint(w: World, chosen: set<Saving>, peer: Peer, before: map<Path, Bytes>, e: Endpoint,
                             m: Message, answer: Answer, replaced: bool)
    requires EndpointOk(w, chosen, peer, before, e) && Genuine(w, m)
    requires m.Start? && answer.SaveTo? ==> Saving(peer, m.id, answer.path) in chosen
    ensures var (e', sent) := OnMessage(e, m, answer, replaced, w.hash);
      EndpointOk(w, chosen, peer, before, e') && forall m' :: m' in sent ==> Genuine(w, m')
  {
    match m
    case Start(id, size, _) => StartKeepsEndpoint(w, chosen, peer, before, e, id, size, answer);
    case Chunk(id, index, data) =>
      if Receiving(e, id) {
        ChunkKeepsEndpoint(w, chosen, peer, before, e, id, index, data);
      }
    case Complete(id, size, checksum) =>
      if Receiving(e, id) {
        CompleteKeepsEndpoint(w, chosen, peer, before, e, id, size, checksum, replaced);
      }
    case _ =>
  }

  lemma LocalKeepsEndpoint(w: World, chosen: set<Saving>, before: map<Path, Bytes>, c: Channel, e: Endpoint, a: Action)
    requires EndpointOk(w, chosen, a.peer, before, e) && forall m :: m in c.air ==> Genuine(w, m)
    requires SavingOf(a) <= chosen
    ensures var (e', sent) := Local(w, c, e, a);
      EndpointOk(w, chosen, a.peer, before, e') && forall m :: m in sent ==> Genuine(w, m)
  {
    match a
    case SendFile(_, id) =>
      if id in w.uploads {
        assert w.uploads[id].pieces[..0] == [];
      }
    case WakeThread(_, expired) =>
      if e.outgoing.Some? {
        ResumeKeepsOutgoing(w, e.outgoing.value, expired);
      }
    case Deliver(peer, m, answer, replaced) =>
      if m in c.air {
        MessageKeepsEndpoint(w, chosen, peer, before, e, m, answer, replaced);
      }
    case _ =>
  }

  lemma StepKeepsChannel(w: World, chosen: set<Saving>, start: Channel, c: Channel, a: Action)
    requires ChannelOk(w, chosen, start, c) && SavingOf(a) <= chosen
    ensures ChannelOk(w, chosen, start, Step(w, c, a))
  {
    if a.peer in c.peers {
      LocalKeepsEndpoint(w, chosen, start.peers[a.peer].disk, c, c.peers[a.peer], a);
    }
  }

  lemma {:induction false} RunKeepsChannel(w: World, chosen: set<Saving>, start: Channel, c: Channel,
                                           actions: seq<Action>)
    requires ChannelOk(w, chosen, start, c) && Savings(actions) <= chosen
    ensures ChannelOk(w, chosen, start, Run(w, c, actions))
    decreases |actions|
  {
    if actions == [] {
    } else {
      StepKeepsChannel(w, chosen, start, c, actions[0]);
      RunKeepsChannel(w, chosen, start, Step(w, c, actions[0]), actions[1..]);
    }
  }

  // ----- whole runs

  lemma AnnouncedSizeMeansWhole(u: Upload, k: nat)
    requires Unchanging(u) && k <= |u.pieces|
    requires |Flatten(u.pieces[..k])| == u.size
    ensures Flatten(u.pieces[..k]) == Content(u)
  {
    assert u.pieces == u.pieces[..k] + u.pieces[k..];
    FlattenConcat(u.pieces[..k], u.pieces[k..]);
  }

  lemma FreshIsOk(w: World, chosen: set<Saving>, start: Channel)
    requires Fresh(start)
    ensures ChannelOk(w, chosen, start, start)
  {
  }

  /** At every moment of every run, what a computer wrote to its temporary file is exactly
      the chunks it has counted, in order, without a hole or a repetition. */
  lemma WrittenIsTheChunksCounted(w: World, start: Channel, actions: seq<Action>, peer: Peer)
    requires Fresh(start) && peer in start.peers
    ensures peer in Run(w, start, actions).peers
    ensures var e := Run(w, start, actions).peers[peer];
      e.incoming.Some? ==>
        var r := e.incoming.value;
        && r.id in w.uploads
        && r.expected <= |w.uploads[r.id].pieces|
        && r.written == Flatten(w.uploads[r.id].pieces[..r.expected])
        && Saving(peer, r.id, r.destination) in Savings(actions)
  {
    FreshIsOk(w, Savings(actions), start);
    RunKeepsChannel(w, Savings(actions), start, start, actions);
  }

  /** Whatever the checksum function, and even if files change while they are sent, a path
      only changes when the user chose to save a transfer there, and then to leading chunks of
      that transfer, of the size announced for it, and with the checksum of all that was read. */
  lemma DiskOnlyReceivesAcceptableFiles(w: World, start: Channel, actions: seq<Action>, peer: Peer, path: Path)
    requires Fresh(start) && peer in start.peers
    ensures peer in Run(w, start, actions).peers
    ensures var disk := Run(w, start, actions).peers[peer].disk;
      && (path in start.peers[peer].disk ==> path in disk)
      && (path in disk && !(path in start.peers[peer].disk && disk[path] == start.peers[peer].disk[path]) ==>
            exists id :: Saving(peer, id, path) in Savings(actions) && Acceptable(w, id, disk[path]))
  {
    FreshIsOk(w, Savings(actions), start);
    RunKeepsChannel(w, Savings(actions), start, start, actions);
    var disk := Run(w, start, actions).peers[peer].disk;
    assert path in disk ==> PathOk(w, Savings(actions), peer, start.peers[peer].disk, path, disk[path]);
  }

  /** Files that do not change while they are sent arrive whole, where the user chose to save
      them, or not at all; no other path is touched.  The checksum plays no part in this:
      indices and sizes are enough. */
  lemma DestinationsReceiveWholeFilesOnly(w: World, start: Channel, actions: seq<Action>, peer: Peer, path: Path)
    requires Fresh(start) && peer in start.peers
    requires forall id :: id in w.uploads ==> Unchanging(w.uploads[id])
    ensures peer in Run(w, start, actions).peers
    ensures var disk := Run(w, start, actions).peers[peer].disk;
      && (path in start.peers[peer].disk ==> path in disk)
      && (path in disk && !(path in start.peers[peer].disk && disk[path] == start.peers[peer].disk[path]) ==>
            exists id :: && Saving(peer, id, path) in Savings(actions)
                         && id in w.uploads && disk[path] == Content(w.uploads[id]))
  {
    DiskOnlyReceivesAcceptableFiles(w, start, actions, peer, path);
    var disk := Run(w, start, actions).peers[peer].disk;
    if path in disk && !(path in start.peers[peer].disk && disk[path] == start.peers[peer].disk[path]) {
      var id :| Saving(peer, id, path) in Savings(actions) && Acceptable(w, id, disk[path]);
      var u := w.uploads[id];
      var k :| 0 <= k <= |u.pieces| && disk[path] == Flatten(u.pieces[..k]);
      AnnouncedSizeMeansWhole(u, k);
    }
  }

  // ----- how a transfer ends at its sender

  /** A transfer cancelled at the sender, by its user or on behalf of the other end. */
  predicate IsCancelled(e: Endpoint) {
    e.outgoing.Some? && e.outgoing.value.cancelled
  }

  ghost predicate CancelsAnnounced(c: Channel) {
    forall p :: p in c.peers && IsCancelled(c.peers[p]) ==> Abort(c.peers[p].outgoing.value.id) in c.air
  }

  lemma LocalAnnouncesCancel(w: World, c: Channel, e: Endpoint, a: Action)
    requires IsCancelled(e) ==> Abort(e.outgoing.value.id) in c.air
    requires !a.CloseConnection?
    ensures var (e', sent) := Local(w, c, e, a);
      IsCancelled(e') ==> Abort(e'.outgoing.value.id) in c.air || Abort(e'.outgoing.value.id) in sent
  {
  }

  lemma {:induction false} RunAnnouncesCancels(w: World, c: Channel, actions: seq<Action>)
    requires CancelsAnnounced(c) && forall i :: 0 <= i < |actions| ==> !actions[i].CloseConnection?
    ensures CancelsAnnounced(Run(w, c, actions))
    decreases |actions|
  {
    if actions == [] {
    } else {
      var a := actions[0];
      if a.peer in c.peers {
        LocalAnnouncesCancel(w, c, c.peers[a.peer], a);
      }
      RunAnnouncesCancels(w, Step(w, c, a), actions[1..]);
    }
  }

  /** Why a transfer ends with an outcome, in a state where some messages have been sent. */
  ghost predicate EndsFor(c: Channel, s: Outgoing, a: Action, outcome: Outcome) {
    match outcome
    case Sent => a.WakeThread? && s.completed && !s.cancelled
    case Refused => a.WakeThread? && s.accepted == Some(false) && !s.cancelled
    case Interrupted => a.WakeThread? && if s.cancelled then Abort(s.id) in c.air else a.expired && !Awaited(s)
    case Failed => a.CrashThread?
    case _ => false
  }

  ghost predicate EndsSilently(c: Channel, e: Endpoint, a: Action, e': Endpoint, sent: seq<Message>)
    requires e.outgoing.Some?
  {
    && sent == []
    && e'.reports != []
    && var report := e'.reports[|e'.reports| - 1];
       report.id == e.outgoing.value.id && EndsFor(c, e.outgoing.value, a, report.outcome)
  }

  lemma ThreadEndsSilently(w: World, c: Channel, e: Endpoint, a: Action)
    requires a.WakeThread? && e.outgoing.Some? && (IsCancelled(e) ==> Abort(e.outgoing.value.id) in c.air)
    ensures var (e', sent) := Local(w, c, e, a);
      e'.outgoing.None? ==> EndsSilently(c, e, a, e', sent)
  {
  }

  /** No action puts another transfer in the place of the one being sent. */
  lemma SameTransferGoesOn(w: World, c: Channel, e: Endpoint, a: Action)
    requires e.outgoing.Some?
    ensures var e' := Local(w, c, e, a).0;
      e'.outgoing.Some? ==>
        e'.outgoing.value.id == e.outgoing.value.id && e'.outgoing.value.upload == e.outgoing.value.upload
  {
  }

  lemma OnlyTheThreadEnds(w: World, c: Channel, e: Endpoint, a: Action)
    requires e.outgoing.Some? && !a.WakeThread? && !a.CrashThread?
    ensures Local(w, c, e, a).0.outgoing.Some?
  {
  }

  /** While connections stay open, every action that ends a transfer at its sender sends nothing,
      and is one of these: it was completed, refused, cancelled, which an abort of one of the
      ends preceded, or timed out in a wait whose condition does not hold, or its thread died of
      an exception.  Until then the same file is sent, whatever else its user asks for. */
  lemma TransfersEndSilently(w: World, start: Channel, actions: seq<Action>, a: Action)
    requires Fresh(start) && a.peer in start.peers && !a.CloseConnection?
    requires forall i :: 0 <= i < |actions| ==> !actions[i].CloseConnection?
    ensures a.peer in Run(w, start, actions).peers
    ensures var c := Run(w, start, actions);
      var e := c.peers[a.peer];
      var (e', sent) := Local(w, c, e, a);
      e.outgoing.Some? ==>
        if e'.outgoing.None? then EndsSilently(c, e, a, e', sent)
        else
          && e'.outgoing.value.id == e.outgoing.value.id
          && e'.outgoing.value.upload == e.outgoing.value.upload
  {
    FreshIsOk(w, Savings(actions), start);
    RunKeepsChannel(w, Savings(actions), start, start, actions);
    assert forall p :: p in start.peers ==> !IsCancelled(start.peers[p]);
    RunAnnouncesCancels(w, start, actions);
    var c := Run(w, start, actions);
    var e := c.peers[a.peer];
    if e.outgoing.Some? {
      SameTransferGoesOn(w, c, e, a);
      if a.WakeThread? {
        ThreadEndsSilently(w, c, e, a);
      } else if !a.CrashThread? {
        OnlyTheThreadEnds(w, c, e, a);
      }
    }
  }

  // ----- the reads of a file nobody touches

  /** What reading a file of this content chunk by chunk returns. */
  function ChunksOf(content: Bytes): seq<Bytes> {
    if content == [] then []
    else if |content| <= CHUNK_SIZE then [content]
    else [content[..CHUNK_SIZE]] + ChunksOf(content[CHUNK_SIZE..])
  }

  /** An untouched file is an upload of the kind the theorems are about. */
  lemma {:induction false} UntouchedFileIsUnchanging(content: Bytes)
    ensures Unchanging(Upload(|content|, ChunksOf(content))) && Content(Upload(|content|, ChunksOf(content))) == content
  {
    if content == [] {
    } else if |content| > CHUNK_SIZE {
      UntouchedFileIsUnchanging(content[CHUNK_SIZE..]);
      assert ValidUpload(Upload(|content| - CHUNK_SIZE, ChunksOf(content[CHUNK_SIZE..])));
      assert content == content[..CHUNK_SIZE] + content[CHUNK_SIZE..];
    } else {
      assert Flatten([content]) == content + Flatten([]) == content;
    }
  }
}
