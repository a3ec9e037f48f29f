/**
 The chunked file transfer as atomic steps.

 The sending thread only gives way while it waits for an acknowledgement, so its body is
 cut at the calls that wait: `Resume` runs it from one wait to the next.  Everything the
 network thread does on receipt of a message is one step, `OnMessage`.  Both are shared by
 the safety argument (FileTransferSafety), by the liveness argument (FileTransferFifo) and
 by the objects that carry the state (FileTransferObjects).
 */
module FileTransferProtocol {
  import opened Wrappers
  import opened ByteStrings

  const CHUNK_SIZE := 64 * 1024
  const CHUNK_WINDOW := 8

  type TransferId = string
  type Path = string

  /** The hexadecimal digest; an empty one is what a peer that sends none amounts to. */
  type Digest = string

  /** SHA-256, of which nothing is assumed. */
  type Hash = Bytes -> Digest

  /** A file as the sender meets it: the size it had when the transfer was asked for, and
      what each successive read of the open file returned until the end of the file. */
  datatype Upload = Upload(size: nat, pieces: seq<Bytes>)

  ghost predicate ValidUpload(u: Upload) {
    forall i :: 0 <= i < |u.pieces| ==> 0 < |u.pieces[i]| <= CHUNK_SIZE
  }

  /** The file did not change between the announcement of its size and its last read. */
  ghost predicate Unchanging(u: Upload) {
    ValidUpload(u) && u.size == |Flatten(u.pieces)|
  }

  function Content(u: Upload): Bytes {
    Flatten(u.pieces)
  }

  /** What a transfer tells the other end.  The data of a chunk is what its Base64 text
      decodes to, if it decodes at all. */
  datatype Message =
    | Start(id: TransferId, size: nat, chunkSize: nat)
    | StartAck(id: TransferId, accepted: bool)
    | Chunk(id: TransferId, index: int, data: Option<Bytes>)
    | ChunkAck(id: TransferId, index: int)
    | Complete(id: TransferId, size: nat, checksum: Digest)
    | CompleteAck(id: TransferId)
    | Abort(id: TransferId)

  datatype Outcome = Sent | Interrupted | Refused | Failed | Received | Corrupted

  /** What the user is told in the end about a transfer. */
  datatype Report = Report(id: TransferId, outcome: Outcome)

  // ----- sending

  /** Where the sending thread stands: not started yet, or in one of its three waits.
      A chunk is read before the wait for room in the window. */
  datatype Phase = Ready | AwaitStart | AwaitWindow(data: Bytes) | AwaitComplete

  datatype Outgoing = Outgoing(
    id: TransferId,
    upload: Upload,
    phase: Phase,
    accepted: Option<bool>,
    acked: int,
    completed: bool,
    cancelled: bool,
    index: nat,
    hashed: Bytes)

  function NewOutgoing(id: TransferId, upload: Upload): Outgoing {
    Outgoing(id, upload, Ready, None, -1, false, false, 0, [])
  }

  /** What the thread finds each time it evaluates the condition it waits for. */
  datatype Waiting = KeepWaiting | GiveUp | Proceed

  function Wait(condition: bool, cancelled: bool, expired: bool): Waiting {
    if condition then if cancelled then GiveUp else Proceed
    else if cancelled || expired then GiveUp
    else KeepWaiting
  }

  datatype Progress =
    | Blocked
    | Running(next: Outgoing, sent: seq<Message>)
    | Finished(outcome: Outcome)

  function CompleteMessage(s: Outgoing, hash: Hash): Message {
    Complete(s.id, s.upload.size, hash(s.hashed))
  }

  /** Reads the next chunk, or announces the end of the file. */
  function ReadNext(s: Outgoing, hash: Hash): (Outgoing, seq<Message>) {
    if s.index < |s.upload.pieces| then (s.(phase := AwaitWindow(s.upload.pieces[s.index])), [])
    else (s.(phase := AwaitComplete), [CompleteMessage(s, hash)])
  }

  /** Whether the condition of the wait the thread is in holds. */
  predicate Awaited(s: Outgoing) {
    match s.phase
    case Ready => true
    case AwaitStart => s.accepted.Some?
    case AwaitWindow(_) => s.index - s.acked <= CHUNK_WINDOW
    case AwaitComplete => s.completed
  }

  /** The thread runs until its next wait; `expired` says that the current one timed out. */
  function Resume(s: Outgoing, expired: bool, hash: Hash): Progress {
    if s.phase == Ready then
      Running(s.(phase := AwaitStart), [Start(s.id, s.upload.size, CHUNK_SIZE)])
    else
      match Wait(Awaited(s), s.cancelled, expired)
      case KeepWaiting => Blocked
      case GiveUp => Finished(Interrupted)
      case Proceed =>
        match s.phase
        case AwaitStart =>
          if !s.accepted.value then Finished(Refused)
          else
            var (next, sent) := ReadNext(s, hash);
            Running(next, sent)
        case AwaitWindow(data) =>
          var (next, sent) := ReadNext(s.(index := s.index + 1, hashed := s.hashed + data), hash);
          Running(next, [Chunk(s.id, s.index, Some(data))] + sent)
        case AwaitComplete => Finished(Sent)
  }

  function OnReply(s: Outgoing, m: Message): Outgoing {
    match m
    case StartAck(_, accepted) => s.(accepted := Some(accepted))
    case ChunkAck(_, index) => s.(acked := if index > s.acked then index else s.acked)
    case CompleteAck(_) => s.(completed := true)
    case Abort(_) => s.(cancelled := true)
    case _ => s
  }

  // ----- receiving

  /** A transfer the user accepted; `written` is what the temporary file holds. */
  datatype Incoming = Incoming(
    id: TransferId,
    size: nat,
    destination: Path,
    written: Bytes,
    hashed: Bytes,
    received: nat,
    expected: nat)

  function NewIncoming(id: TransferId, size: nat, destination: Path): Incoming {
    Incoming(id, size, destination, [], [], 0, 0)
  }

  function Append(r: Incoming, data: Bytes): Incoming {
    r.(written := r.written + data,
       hashed := r.hashed + data,
       received := r.received + |data|,
       expected := r.expected + 1)
  }

  predicate Matches(r: Incoming, size: nat, checksum: Digest, hash: Hash) {
    r.received == size && (checksum == "" || hash(r.hashed) == checksum)
  }

  // ----- one computer

  /** What becomes of an incoming transfer: the user names a path, or the transfer is
      refused (too large, declined, not enough space, temporary file not created). */
  datatype Answer = Refuse | SaveTo(path: Path)

  /** One computer: at most one transfer each way, its disk, and what it reported. */
  datatype Endpoint = Endpoint(
    outgoing: Option<Outgoing>,
    incoming: Option<Incoming>,
    disk: map<Path, Bytes>,
    reports: seq<Report>)

  predicate Sending(e: Endpoint, id: TransferId) {
    e.outgoing.Some? && e.outgoing.value.id == id
  }

  predicate Receiving(e: Endpoint, id: TransferId) {
    e.incoming.Some? && e.incoming.value.id == id
  }

  /** The receiver forgets the transfer, and its temporary file with it. */
  function DropIncoming(e: Endpoint): Endpoint {
    e.(incoming := None)
  }

  function EndIncoming(e: Endpoint, outcome: Outcome): Endpoint
    requires e.incoming.Some?
  {
    DropIncoming(e).(reports := e.reports + [Report(e.incoming.value.id, outcome)])
  }

  function EndOutgoing(e: Endpoint, outcome: Outcome): Endpoint
    requires e.outgoing.Some?
  {
    e.(outgoing := None, reports := e.reports + [Report(e.outgoing.value.id, outcome)])
  }

  function OnStart(e: Endpoint, id: TransferId, size: nat, answer: Answer): (Endpoint, seq<Message>) {
    if e.incoming.Some? || answer.Refuse? then (e, [StartAck(id, false)])
    else (e.(incoming := Some(NewIncoming(id, size, answer.path))), [StartAck(id, true)])
  }

  function OnChunk(e: Endpoint, index: int, data: Option<Bytes>): (Endpoint, seq<Message>)
    requires e.incoming.Some?
  {
    var r := e.incoming.value;
    if index != r.expected || data.None? then (EndIncoming(e, Corrupted), [Abort(r.id)])
    else (e.(incoming := Some(Append(r, data.value))), [ChunkAck(r.id, index)])
  }

  /** `replaced` says whether moving the temporary file over the destination succeeds. */
  function OnComplete(e: Endpoint, size: nat, checksum: Digest, replaced: bool, hash: Hash): (Endpoint, seq<Message>)
    requires e.incoming.Some?
  {
    var r := e.incoming.value;
    if !Matches(r, size, checksum, hash) then (EndIncoming(e, Corrupted), [Abort(r.id)])
    else if !replaced then (EndIncoming(e, Failed), [Abort(r.id)])
    else (EndIncoming(e.(disk := e.disk[r.destination := r.written]), Received), [CompleteAck(r.id)])
  }

  /** One message of the other end is handled; the result is the new state and the replies. */
  function OnMessage(e: Endpoint, m: Message, answer: Answer, replaced: bool, hash: Hash): (Endpoint, seq<Message>) {
    match m
    case Start(id, size, _) => OnStart(e, id, size, answer)
    case Chunk(id, index, data) => if Receiving(e, id) then OnChunk(e, index, data) else (e, [])
    case Complete(id, size, checksum) =>
      if Receiving(e, id) then OnComplete(e, size, checksum, replaced, hash) else (e, [])
    case Abort(id) =>
      if Sending(e, id) then (e.(outgoing := Some(OnReply(e.outgoing.value, m))), [])
      else if Receiving(e, id) then (EndIncoming(e, Interrupted), [])
      else (e, [])
    case _ =>
      if Sending(e, m.id) then (e.(outgoing := Some(OnReply(e.outgoing.value, m))), []) else (e, [])
  }

  function BeginSend(e: Endpoint, id: TransferId, upload: Upload): Endpoint {
    if e.outgoing.Some? then e else e.(outgoing := Some(NewOutgoing(id, upload)))
  }

  /** The sending thread of this computer gets to run. */
  function Wake(e: Endpoint, expired: bool, hash: Hash): (Endpoint, seq<Message>) {
    if e.outgoing.None? then (e, [])
    else
      match Resume(e.outgoing.value, expired, hash)
      case Blocked => (e, [])
      case Running(next, sent) => (e.(outgoing := Some(next)), sent)
      case Finished(outcome) => (EndOutgoing(e, outcome), [])
  }

  /** The sending thread dies of an exception, such as a file that cannot be opened. */
  function Crash(e: Endpoint): Endpoint {
    if e.outgoing.None? then e else EndOutgoing(e, Failed)
  }

  /** The user closes the progress dialog of the file being sent. */
  function CancelSend(e: Endpoint): (Endpoint, seq<Message>) {
    if e.outgoing.None? || e.outgoing.value.cancelled || e.outgoing.value.completed then (e, [])
    else (e.(outgoing := Some(e.outgoing.value.(cancelled := true))), [Abort(e.outgoing.value.id)])
  }

  /** The user closes the progress dialog of the file being received. */
  function CancelReceive(e: Endpoint): (Endpoint, seq<Message>) {
    if e.incoming.None? then (e, [])
    else (DropIncoming(e), [Abort(e.incoming.value.id)])
  }

  /** The connection closes. */
  function Disconnect(e: Endpoint): Endpoint {
    var e' := if e.outgoing.None? then e
              else e.(outgoing := Some(e.outgoing.value.(cancelled := true)));
    DropIncoming(e')
  }
}
