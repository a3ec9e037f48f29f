/**
 Progress of the chunked file transfer over a reliable first-in first-out connection.

 One computer sends, the other accepts; nobody cancels, nothing times out and the received
 file can be saved.  The sending thread and the two deliveries are interleaved in any way.
 */
module FileTransferFifo {
  import opened Wrappers
  import opened ByteStrings
  import opened FileTransferProtocol

  /** The sender `a`, the receiver `b`, and the messages on their way. */
  datatype Link = Link(a: Endpoint, b: Endpoint, toB: seq<Message>, toA: seq<Message>)

  /** The transfer under way: what is sent, what the user of the other computer answers, and
      SHA-256. */
  datatype Job = Job(id: TransferId, upload: Upload, answer: Answer, hash: Hash)

  datatype Move = SenderRuns | ReceiverReads | SenderReads

  predicate Enabled(j: Job, l: Link, move: Move) {
    match move
    case SenderRuns => l.a.outgoing.Some? && !Resume(l.a.outgoing.value, false, j.hash).Blocked?
    case ReceiverReads => l.toB != []
    case SenderReads => l.toA != []
  }

  function Next(j: Job, l: Link, move: Move): Link
    requires Enabled(j, l, move)
  {
    match move
    case SenderRuns =>
      var (a, sent) := Wake(l.a, false, j.hash);
      l.(a := a, toB := l.toB + sent)
    case ReceiverReads =>
      var (b, sent) := OnMessage(l.b, l.toB[0], j.answer, true, j.hash);
      l.(b := b, toB := l.toB[1..], toA := l.toA + sent)
    case SenderReads =>
      var (a, sent) := OnMessage(l.a, l.toA[0], Refuse, true, j.hash);
      l.(a := a, toA := l.toA[1..], toB := l.toB + sent)
  }

  /** The moves can be made one after the other. */
  ghost predicate Possible(j: Job, l: Link, moves: seq<Move>)
    decreases |moves|
  {
    moves == [] || (Enabled(j, l, moves[0]) && Possible(j, Next(j, l, moves[0]), moves[1..]))
  }

  ghost function Run(j: Job, l: Link, moves: seq<Move>): Link
    requires Possible(j, l, moves)
    decreases |moves|
  {
    if moves == [] then l else Run(j, Next(j, l, moves[0]), moves[1..])
  }

  /** The user just asked for the file to be sent. */
  ghost predicate Requested(j: Job, l: Link) {
    && l.a.outgoing == Some(NewOutgoing(j.id, j.upload)) && l.a.incoming.None?
    && l.b.outgoing.None?
    && l.toB == [] && l.toA == []
  }

  /** And the other computer is not receiving, and its user will name a path. */
  ghost predicate Initial(j: Job, l: Link) {
    Requested(j, l) && l.b.incoming.None? && j.answer.SaveTo?
  }

  /** Both ends are done, both said so, and the file is where it was to be saved. */
  ghost predicate Completed(j: Job, l: Link) {
    && l.a.outgoing.None? && l.b.incoming.None? && l.toB == [] && l.toA == []
    && l.a.reports != [] && l.a.reports[|l.a.reports| - 1] == Report(j.id, Sent)
    && l.b.reports != [] && l.b.reports[|l.b.reports| - 1] == Report(j.id, Received)
    && j.answer.SaveTo? && j.answer.path in l.b.disk && l.b.disk[j.answer.path] == Content(j.upload)
  }

  // ----- what is on its way

  function ChunksInFlight(messages: seq<Message>): nat {
    if messages == [] then 0 else (if messages[0].Chunk? then 1 else 0) + ChunksInFlight(messages[1..])
  }

  function AcksInFlight(messages: seq<Message>): nat {
    if messages == [] then 0 else (if messages[0].ChunkAck? then 1 else 0) + AcksInFlight(messages[1..])
  }

  /** Chunks number `lo` up to `hi`, in order. */
  function Chunks(j: Job, lo: nat, hi: nat): seq<Message>
    requires lo <= hi <= |j.upload.pieces|
    decreases hi - lo
  {
    if lo == hi then [] else [Chunk(j.id, lo, Some(j.upload.pieces[lo]))] + Chunks(j, lo + 1, hi)
  }

  /** The acknowledgements of chunks number `lo` up to `hi`, in order. */
  function Acks(j: Job, lo: nat, hi: nat): seq<Message>
    requires lo <= hi
    decreases hi - lo
  {
    if lo == hi then [] else [ChunkAck(j.id, lo)] + Acks(j, lo + 1, hi)
  }

  lemma {:induction false} ChunksSnoc(j: Job, lo: nat, hi: nat)
    requires lo <= hi < |j.upload.pieces|
    ensures Chunks(j, lo, hi + 1) == Chunks(j, lo, hi) + [Chunk(j.id, hi, Some(j.upload.pieces[hi]))]
    decreases hi - lo
  {
    if lo == hi {
    } else {
      ChunksSnoc(j, lo + 1, hi);
    }
  }

  lemma {:induction false} AcksSnoc(j: Job, lo: nat, hi: nat)
    requires lo <= hi
    ensures Acks(j, lo, hi + 1) == Acks(j, lo, hi) + [ChunkAck(j.id, hi)]
    decreases hi - lo
  {
    if lo == hi {
    } else {
      AcksSnoc(j, lo + 1, hi);
    }
  }

  /** Sending a chunk, with what follows it, extends the row of chunks on their way. */
  lemma ChunkJoinsRow(j: Job, lo: nat, hi: nat, ending: seq<Message>)
    requires lo <= hi < |j.upload.pieces|
    ensures Chunks(j, lo, hi) + [] + ([Chunk(j.id, hi, Some(j.upload.pieces[hi]))] + ending) ==
            Chunks(j, lo, hi + 1) + ending
  {
    ChunksSnoc(j, lo, hi);
  }

  /** Delivering the oldest chunk leaves the rest of the row. */
  lemma ChunkLeavesRow(j: Job, lo: nat, hi: nat, ending: seq<Message>)
    requires lo < hi <= |j.upload.pieces|
    ensures (Chunks(j, lo, hi) + ending)[0] == Chunk(j.id, lo, Some(j.upload.pieces[lo]))
    ensures (Chunks(j, lo, hi) + ending)[1..] == Chunks(j, lo + 1, hi) + ending
  {
  }

  lemma AckLeavesRow(j: Job, lo: nat, hi: nat, ending: seq<Message>)
    requires lo < hi
    ensures (Acks(j, lo, hi) + ending)[0] == ChunkAck(j.id, lo)
    ensures (Acks(j, lo, hi) + ending)[1..] == Acks(j, lo + 1, hi) + ending
  {
  }

  lemma {:induction false} CountChunks(j: Job, lo: nat, hi: nat, end: seq<Message>)
    requires lo <= hi <= |j.upload.pieces|
    ensures |Chunks(j, lo, hi)| == hi - lo
    ensures ChunksInFlight(Chunks(j, lo, hi) + end) == hi - lo + ChunksInFlight(end)
    decreases hi - lo
  {
    if lo == hi {
      assert [] + end == end;
    } else {
      CountChunks(j, lo + 1, hi, end);
      assert (Chunks(j, lo, hi) + end)[1..] == Chunks(j, lo + 1, hi) + end;
    }
  }

  lemma {:induction false} CountAcks(j: Job, lo: nat, hi: nat, end: seq<Message>)
    requires lo <= hi
    ensures |Acks(j, lo, hi)| == hi - lo
    ensures AcksInFlight(Acks(j, lo, hi) + end) == hi - lo + AcksInFlight(end)
    decreases hi - lo
  {
    if lo == hi {
      assert [] + end == end;
    } else {
      CountAcks(j, lo + 1, hi, end);
      assert (Acks(j, lo, hi) + end)[1..] == Acks(j, lo + 1, hi) + end;
    }
  }

  // ----- the course of a transfer

  datatype Stage = Asking | Asked | Answered | Accepted | Streaming | Confirming | Confirmed | Over

  ghost function Completion(j: Job): Message {
    Complete(j.id, j.upload.size, j.hash(Content(j.upload)))
  }

  /** What follows the last chunk once it was sent. */
  ghost function Ending(j: Job, s: Outgoing): seq<Message> {
    if s.phase.AwaitComplete? then [Completion(j)] else []
  }

  /** The sender has the upload of the job and nobody stopped it. */
  ghost predicate Alive(j: Job, l: Link) {
    && l.a.outgoing.Some? && l.a.incoming.None? && j.answer.SaveTo?
    && var s := l.a.outgoing.value;
    && s.id == j.id && s.upload == j.upload && !s.cancelled
    && s.index <= |j.upload.pieces| && s.hashed == Flatten(j.upload.pieces[..s.index])
    && (s.phase.AwaitWindow? ==> s.index < |j.upload.pieces| && s.phase.data == j.upload.pieces[s.index])
    && (s.phase.AwaitComplete? ==> s.index == |j.upload.pieces|)
  }

  ghost predicate Unsent(l: Link)
    requires l.a.outgoing.Some?
  {
    var s := l.a.outgoing.value;
    s.acked == -1 && s.index == 0 && !s.completed
  }

  /** The receiver holds the chunks it counted, of the transfer of the job. */
  ghost predicate Open(j: Job, l: Link) {
    && l.b.outgoing.None? && l.b.incoming.Some?
    && var r := l.b.incoming.value;
    && r.id == j.id && r.size == j.upload.size && j.answer == SaveTo(r.destination)
    && r.expected <= |j.upload.pieces|
    && r.written == r.hashed == Flatten(j.upload.pieces[..r.expected])
    && r.received == |r.written|
  }

  ghost predicate Saved(j: Job, l: Link) {
    && l.b.outgoing.None? && l.b.incoming.None?
    && l.b.reports != [] && l.b.reports[|l.b.reports| - 1] == Report(j.id, Received)
    && j.answer.SaveTo? && j.answer.path in l.b.disk && l.b.disk[j.answer.path] == Content(j.upload)
  }

  ghost predicate Streams(j: Job, l: Link) {
    && Alive(j, l) && Open(j, l)
    && var s, r := l.a.outgoing.value, l.b.incoming.value;
    && (s.phase.AwaitWindow? || s.phase.AwaitComplete?) && !s.completed
    && -1 <= s.acked < r.expected <= s.index
    && s.index - 1 - s.acked <= CHUNK_WINDOW
    && l.toB == Chunks(j, r.expected, s.index) + Ending(j, s)
    && l.toA == Acks(j, s.acked + 1, r.expected)
  }

  ghost predicate Confirms(j: Job, l: Link) {
    && Alive(j, l) && Saved(j, l)
    && var s := l.a.outgoing.value;
    && s.phase.AwaitComplete? && !s.completed
    && -1 <= s.acked < s.index
    && s.index - 1 - s.acked <= CHUNK_WINDOW
    && l.toB == []
    && l.toA == Acks(j, s.acked + 1, s.index) + [CompleteAck(j.id)]
  }

  ghost predicate At(j: Job, l: Link, stage: Stage) {
    match stage
    case Asking => Initial(j, l)
    case Asked =>
      && Alive(j, l) && Unsent(l) && l.a.outgoing.value.phase == AwaitStart && l.a.outgoing.value.accepted.None?
      && l.b.outgoing.None? && l.b.incoming.None?
      && l.toB == [Start(j.id, j.upload.size, CHUNK_SIZE)] && l.toA == []
    case Answered =>
      && Alive(j, l) && Unsent(l) && l.a.outgoing.value.phase == AwaitStart && l.a.outgoing.value.accepted.None?
      && Open(j, l) && l.b.incoming.value.expected == 0
      && l.toB == [] && l.toA == [StartAck(j.id, true)]
    case Accepted =>
      && Alive(j, l) && Unsent(l) && l.a.outgoing.value.phase == AwaitStart
      && l.a.outgoing.value.accepted == Some(true)
      && Open(j, l) && l.b.incoming.value.expected == 0
      && l.toB == [] && l.toA == []
    case Streaming => Streams(j, l)
    case Confirming => Confirms(j, l)
    case Confirmed =>
      && Alive(j, l) && Saved(j, l) && l.a.outgoing.value.phase.AwaitComplete? && l.a.outgoing.value.completed
      && l.a.outgoing.value.acked == l.a.outgoing.value.index - 1
      && l.toB == [] && l.toA == []
    case Over => Completed(j, l)
  }

  /** How many moves are left: three for a chunk that still has to be sent, two for one on its
      way, one for an acknowledgement on its way, and those of the opening and the completion. */
  ghost function MovesLeft(j: Job, l: Link, stage: Stage): int {
    var n := |j.upload.pieces|;
    match stage
    case Asking => 3 * n + 7
    case Asked => 3 * n + 6
    case Answered => 3 * n + 5
    case Accepted => 3 * n + 4
    case Streaming =>
      if l.a.outgoing.Some? && l.b.incoming.Some? then
        var s, r := l.a.outgoing.value, l.b.incoming.value;
        3 * (n - s.index) + 2 * (s.index - r.expected) + (r.expected - 1 - s.acked) + 3
      else 0
    case Confirming => if l.a.outgoing.Some? then n - 1 - l.a.outgoing.value.acked + 2 else 0
    case Confirmed => 1
    case Over => 0
  }

  // ----- one move

  /** The accepted sender reads the first chunk, or announces an empty file at once. */
  lemma AcceptedSenderReads(j: Job, l: Link)
    requires At(j, l, Accepted)
    ensures Enabled(j, l, SenderRuns)
    ensures At(j, Next(j, l, SenderRuns), Streaming)
    ensures MovesLeft(j, Next(j, l, SenderRuns), Streaming) == MovesLeft(j, l, Accepted) - 1
  {
    assert j.upload.pieces[..|j.upload.pieces|] == j.upload.pieces;
  }

  /** The sender after its chunk left, with the next one read or the end announced. */
  function ChunkSent(j: Job, s: Outgoing, data: Bytes): (Outgoing, seq<Message>) {
    ReadNext(s.(index := s.index + 1, hashed := s.hashed + data), j.hash)
  }

  lemma SenderTurn(j: Job, l: Link)
    requires l.a.outgoing.Some? && l.a.outgoing.value.phase.AwaitWindow?
    requires Enabled(j, l, SenderRuns) && !l.a.outgoing.value.cancelled
    ensures var s := l.a.outgoing.value;
      var (s', ending) := ChunkSent(j, s, s.phase.data);
      Next(j, l, SenderRuns) ==
      l.(a := l.a.(outgoing := Some(s')), toB := l.toB + ([Chunk(s.id, s.index, Some(s.phase.data))] + ending))
  {
  }

  lemma ChunkSentIsAlive(j: Job, l: Link, toB: seq<Message>)
    requires Alive(j, l) && l.a.outgoing.value.phase.AwaitWindow?
    ensures var s := l.a.outgoing.value;
      var (s', ending) := ChunkSent(j, s, s.phase.data);
      Alive(j, l.(a := l.a.(outgoing := Some(s')), toB := toB)) && ending == Ending(j, s')
  {
    var s := l.a.outgoing.value;
    assert j.upload.pieces[..|j.upload.pieces|] == j.upload.pieces;
    FlattenPrefixSnoc(j.upload.pieces, s.index);
  }

  lemma SentChunkStreams(j: Job, l: Link, l': Link)
    requires Streams(j, l) && l.a.outgoing.value.phase.AwaitWindow? && Awaited(l.a.outgoing.value)
    requires var s := l.a.outgoing.value;
      var (s', ending) := ChunkSent(j, s, s.phase.data);
      l' == l.(a := l.a.(outgoing := Some(s')), toB := l.toB + ([Chunk(s.id, s.index, Some(s.phase.data))] + ending))
    ensures Streams(j, l') && MovesLeft(j, l', Streaming) == MovesLeft(j, l, Streaming) - 1
  {
    var s, lo := l.a.outgoing.value, l.b.incoming.value.expected;
    ChunkSentIsAlive(j, l, l'.toB);
    ChunkJoinsRow(j, lo, s.index, ChunkSent(j, s, s.phase.data).1);
  }

  /** Each run of the thread sends one chunk and reads the next, or announces the end. */
  lemma SenderSendsChunk(j: Job, l: Link)
    requires At(j, l, Streaming) && Enabled(j, l, SenderRuns)
    ensures At(j, Next(j, l, SenderRuns), Streaming)
    ensures MovesLeft(j, Next(j, l, SenderRuns), Streaming) == MovesLeft(j, l, Streaming) - 1
  {
    var s := l.a.outgoing.value;
    assert s.phase.AwaitWindow? && Awaited(s);
    SenderTurn(j, l);
    SentChunkStreams(j, l, Next(j, l, SenderRuns));
  }

  lemma ReceiverTurn(j: Job, l: Link, data: Bytes)
    requires Open(j, l) && l.toB != [] && l.toB[0] == Chunk(j.id, l.b.incoming.value.expected, Some(data))
    ensures var r := l.b.incoming.value;
      Next(j, l, ReceiverReads) ==
      l.(b := l.b.(incoming := Some(Append(r, data))), toB := l.toB[1..], toA := l.toA + [ChunkAck(j.id, r.expected)])
  {
  }

  lemma ReceiverWritesChunk(j: Job, l: Link)
    requires At(j, l, Streaming) && l.b.incoming.value.expected < l.a.outgoing.value.index
    ensures Enabled(j, l, ReceiverReads)
    ensures At(j, Next(j, l, ReceiverReads), Streaming)
    ensures MovesLeft(j, Next(j, l, ReceiverReads), Streaming) == MovesLeft(j, l, Streaming) - 1
  {
    var s, r := l.a.outgoing.value, l.b.incoming.value;
    ChunkLeavesRow(j, r.expected, s.index, Ending(j, s));
    FlattenPrefixSnoc(j.upload.pieces, r.expected);
    AcksSnoc(j, s.acked + 1, r.expected);
    ReceiverTurn(j, l, j.upload.pieces[r.expected]);
  }

  /** The announced size is that of what was read. */
  ghost predicate SizeHolds(j: Job) {
    j.upload.size == |Content(j.upload)|
  }

  /** The receiver is about to read the end of the file. */
  predicate ReadsTheEnd(l: Link, stage: Stage, move: Move) {
    && stage == Streaming && move == ReceiverReads && l.a.outgoing.Some? && l.b.incoming.Some?
    && l.b.incoming.value.expected == l.a.outgoing.value.index
  }

  lemma ReceiverSavesFile(j: Job, l: Link)
    requires SizeHolds(j)
    requires At(j, l, Streaming) && l.b.incoming.value.expected == l.a.outgoing.value.index && l.toB != []
    ensures At(j, Next(j, l, ReceiverReads), Confirming)
    ensures MovesLeft(j, Next(j, l, ReceiverReads), Confirming) == MovesLeft(j, l, Streaming) - 1
  {
    assert l.toB == [Completion(j)] && l.toB[1..] == [];
    assert j.upload.pieces[..|j.upload.pieces|] == j.upload.pieces;
  }

  lemma SenderHearsAck(j: Job, l: Link, stage: Stage)
    requires At(j, l, stage) && Alive(j, l) && l.a.outgoing.value.acked + 1 < l.a.outgoing.value.index
    requires (stage == Streaming && l.toA != []) || stage == Confirming
    ensures Enabled(j, l, SenderReads)
    ensures At(j, Next(j, l, SenderReads), stage)
    ensures MovesLeft(j, Next(j, l, SenderReads), stage) == MovesLeft(j, l, stage) - 1
  {
    var s := l.a.outgoing.value;
    var next := s.acked + 1;
    if stage == Streaming {
      assert l.toA + [] == l.toA && l.toA[1..] + [] == l.toA[1..];
      AckLeavesRow(j, next, l.b.incoming.value.expected, []);
    } else {
      AckLeavesRow(j, next, s.index, [CompleteAck(j.id)]);
    }
    var l' := Next(j, l, SenderReads);
    assert l' == l.(a := l.a.(outgoing := Some(s.(acked := next))), toA := l.toA[1..], toB := l.toB);
  }

  lemma SenderHearsCompletion(j: Job, l: Link)
    requires At(j, l, Confirming) && l.a.outgoing.value.acked + 1 == l.a.outgoing.value.index
    ensures Enabled(j, l, SenderReads)
    ensures At(j, Next(j, l, SenderReads), Confirmed)
    ensures MovesLeft(j, Next(j, l, SenderReads), Confirmed) == MovesLeft(j, l, Confirming) - 1
  {
    assert l.toA == [CompleteAck(j.id)] && l.toA[1..] == [];
  }

  lemma StreamingAdvances(j: Job, l: Link, move: Move) returns (stage': Stage)
    requires ReadsTheEnd(l, Streaming, move) ==> SizeHolds(j)
    requires At(j, l, Streaming) && Enabled(j, l, move)
    ensures At(j, Next(j, l, move), stage')
    ensures MovesLeft(j, Next(j, l, move), stage') == MovesLeft(j, l, Streaming) - 1
  {
    stage' := Streaming;
    match move {
      case SenderRuns => SenderSendsChunk(j, l);
      case ReceiverReads =>
        if l.b.incoming.value.expected < l.a.outgoing.value.index {
          ReceiverWritesChunk(j, l);
        } else {
          ReceiverSavesFile(j, l);
          stage' := Confirming;
        }
      case SenderReads => SenderHearsAck(j, l, Streaming);
    }
  }

  lemma ConfirmingAdvances(j: Job, l: Link, move: Move) returns (stage': Stage)
    requires At(j, l, Confirming) && Enabled(j, l, move)
    ensures At(j, Next(j, l, move), stage')
    ensures MovesLeft(j, Next(j, l, move), stage') == MovesLeft(j, l, Confirming) - 1
  {
    if l.a.outgoing.value.acked + 1 < l.a.outgoing.value.index {
      SenderHearsAck(j, l, Confirming);
      stage' := Confirming;
    } else {
      SenderHearsCompletion(j, l);
      stage' := Confirmed;
    }
  }

  lemma OpeningAdvances(j: Job, l: Link, stage: Stage, move: Move) returns (stage': Stage)
    requires stage == Asking || stage == Asked || stage == Answered
    requires At(j, l, stage) && Enabled(j, l, move)
    ensures At(j, Next(j, l, move), stage')
    ensures MovesLeft(j, Next(j, l, move), stage') == MovesLeft(j, l, stage) - 1
  {
    assert j.upload.pieces[..0] == [];
    stage' := if stage == Asking then Asked else if stage == Asked then Answered else Accepted;
  }

  lemma MoveAdvances(j: Job, l: Link, stage: Stage, move: Move) returns (stage': Stage)
    requires ReadsTheEnd(l, stage, move) ==> SizeHolds(j)
    requires At(j, l, stage) && Enabled(j, l, move)
    ensures At(j, Next(j, l, move), stage')
    ensures MovesLeft(j, Next(j, l, move), stage') == MovesLeft(j, l, stage) - 1
  {
    match stage
    case Accepted => AcceptedSenderReads(j, l); stage' := Streaming;
    case Streaming => stage' := StreamingAdvances(j, l, move);
    case Confirming => stage' := ConfirmingAdvances(j, l, move);
    case Confirmed => stage' := Over;
    case Over => stage' := Over;
    case _ => stage' := OpeningAdvances(j, l, stage, move);
  }

  lemma {:induction false} RunAdvances(j: Job, l: Link, stage: Stage, moves: seq<Move>) returns (stage': Stage)
    requires Unchanging(j.upload) && At(j, l, stage) && Possible(j, l, moves)
    ensures At(j, Run(j, l, moves), stage')
    ensures MovesLeft(j, Run(j, l, moves), stage') == MovesLeft(j, l, stage) - |moves|
    decreases |moves|
  {
    stage' := stage;
    if moves == [] {
    } else {
      stage' := MoveAdvances(j, l, stage, moves[0]);
      stage' := RunAdvances(j, Next(j, l, moves[0]), stage', moves[1..]);
    }
  }

  // ----- conservation and progress over whole runs

  /** The chunks sent and not acknowledged are those on their way plus the acknowledgements
      on their way; they are at most the window; and the receiver stands in between. */
  ghost predicate Conserved(l: Link)
    requires l.a.outgoing.Some?
  {
    var s := l.a.outgoing.value;
    && s.index - 1 - s.acked == ChunksInFlight(l.toB) + AcksInFlight(l.toA) <= CHUNK_WINDOW
    && (l.b.incoming.Some? ==> s.acked + 1 <= l.b.incoming.value.expected <= s.index)
  }

  lemma StreamingConserves(j: Job, l: Link)
    requires At(j, l, Streaming)
    ensures Conserved(l)
  {
    var s, r := l.a.outgoing.value, l.b.incoming.value;
    CountChunks(j, r.expected, s.index, Ending(j, s));
    assert l.toA == Acks(j, s.acked + 1, r.expected) + [];
    CountAcks(j, s.acked + 1, r.expected, []);
  }

  lemma ConfirmingConserves(j: Job, l: Link)
    requires At(j, l, Confirming)
    ensures Conserved(l)
  {
    CountAcks(j, l.a.outgoing.value.acked + 1, l.a.outgoing.value.index, [CompleteAck(j.id)]);
  }

  /** Conservation in every reachable state. */
  lemma UnacknowledgedIsInFlight(j: Job, start: Link, moves: seq<Move>)
    requires Unchanging(j.upload) && Initial(j, start) && Possible(j, start, moves)
    ensures var l := Run(j, start, moves);
      l.a.outgoing.Some? && l.a.outgoing.value.phase != Ready && l.a.outgoing.value.phase != AwaitStart ==> Conserved(l)
  {
    var stage := RunAdvances(j, start, Asking, moves);
    var l := Run(j, start, moves);
    match stage {
      case Streaming => StreamingConserves(j, l);
      case Confirming => ConfirmingConserves(j, l);
      case _ =>
    }
  }

  /** Short of completion, some move can be made.  In particular a sender that cannot go on
      always has a message on its way, in one direction or the other. */
  lemma SomeMoveIsEnabled(j: Job, l: Link, stage: Stage) returns (move: Move)
    requires At(j, l, stage) && stage != Over
    ensures Enabled(j, l, move)
    ensures stage != Asking && Resume(l.a.outgoing.value, false, j.hash).Blocked? ==> move != SenderRuns
  {
    match stage
    case Asked => move := ReceiverReads;
    case Answered => move := SenderReads;
    case Streaming =>
      var s, r := l.a.outgoing.value, l.b.incoming.value;
      move := if r.expected < s.index || s.phase.AwaitComplete? then ReceiverReads
              else if s.acked + 1 < r.expected then SenderReads else SenderRuns;
    case Confirming => move := SenderReads;
    case _ => move := SenderRuns;
  }

  /** No deadlock: a sender that is waiting always has a message on its way. */
  lemma BlockedSenderHasMail(j: Job, start: Link, moves: seq<Move>)
    requires Unchanging(j.upload) && Initial(j, start) && Possible(j, start, moves)
    ensures var l := Run(j, start, moves);
      l.a.outgoing.Some? && Resume(l.a.outgoing.value, false, j.hash).Blocked? ==> l.toB != [] || l.toA != []
  {
    var stage := RunAdvances(j, start, Asking, moves);
    if stage != Over {
      var move := SomeMoveIsEnabled(j, Run(j, start, moves), stage);
    }
  }

  lemma {:induction false} RunSnoc(j: Job, l: Link, moves: seq<Move>, move: Move)
    requires Possible(j, l, moves) && Enabled(j, Run(j, l, moves), move)
    ensures Possible(j, l, moves + [move])
    ensures Run(j, l, moves + [move]) == Next(j, Run(j, l, moves), move)
    decreases |moves|
  {
    if moves == [] {
      assert moves + [move] == [move] && [move][1..] == [];
    } else {
      assert (moves + [move])[1..] == moves[1..] + [move];
      RunSnoc(j, Next(j, l, moves[0]), moves[1..], move);
    }
  }

  /** Termination, with the exact count: whatever the interleaving, a transfer of n chunks is
      complete at both ends after 3n + 7 moves and not before, and until then it can go on. */
  lemma EveryTransferCompletes(j: Job, start: Link, moves: seq<Move>)
    requires Unchanging(j.upload) && Initial(j, start) && Possible(j, start, moves)
    ensures |moves| <= 3 * |j.upload.pieces| + 7
    ensures Completed(j, Run(j, start, moves)) <==> |moves| == 3 * |j.upload.pieces| + 7
    ensures |moves| < 3 * |j.upload.pieces| + 7 ==> exists move :: Possible(j, start, moves + [move])
  {
    var stage := RunAdvances(j, start, Asking, moves);
    if stage != Over {
      var move := SomeMoveIsEnabled(j, Run(j, start, moves), stage);
      RunSnoc(j, start, moves, move);
    }
  }

  // ----- what happens instead when the sender stops short

  /** Why a sending thread may end before its time: a wait that times out, an exception such as
      a file that cannot be opened or read, its user closing the progress dialog, or its own
      connection closing. */
  datatype Stop = TimedOut | Raised | Cancelled | Closed

  /** The sender from the moment it stops, and what it still sends.  A wait only times out when
      its condition does not hold.  A cancelled thread runs on until it notices, at the end of
      the wait it is in or, when it has not started yet, of its first one; so does one whose
      connection closed, but what it sends goes nowhere. */
  function Stopped(j: Job, a: Endpoint, stop: Stop): (Endpoint, seq<Message>) {
    match stop
    case TimedOut => Wake(a, true, j.hash)
    case Raised => (Crash(a), [])
    case Cancelled =>
      var (a1, sent1) := CancelSend(a);
      var (a2, sent2) := RunsOut(j, a1);
      (a2, sent1 + sent2)
    case Closed => (RunsOut(j, Disconnect(a)).0, [])
  }

  function RunsOut(j: Job, a: Endpoint): (Endpoint, seq<Message>) {
    var (a1, sent1) := Wake(a, false, j.hash);
    var (a2, sent2) := Wake(a1, false, j.hash);
    (a2, sent1 + sent2)
  }

  /** Of the messages on their way, `arrived` reach the receiver: all of them, unless the
      connection closed with some still in the queue. */
  ghost predicate CanStop(j: Job, l: Link, stop: Stop, arrived: nat) {
    && l.a.outgoing.Some?
    && (stop == TimedOut ==> Resume(l.a.outgoing.value, false, j.hash).Blocked?)
    && if stop == Closed then arrived <= |l.toB| else arrived == |l.toB|
  }

  /** The receiver handles a message.  Closing its temporary file may raise, for want of space:
      the exception leaves the transfer as it is, and is only logged. */
  function Handled(j: Job, b: Endpoint, m: Message, closeRaises: bool): (Endpoint, seq<Message>) {
    if closeRaises && m.Complete? && Receiving(b, m.id) then (b, [])
    else OnMessage(b, m, j.answer, true, j.hash)
  }

  function Read(j: Job, b: Endpoint, m: Message, closeRaises: bool): Endpoint {
    Handled(j, b, m, closeRaises).0
  }

  /** The receiver reads messages one after the other. */
  function ReadAll(j: Job, b: Endpoint, messages: seq<Message>, closeRaises: bool): Endpoint
    decreases |messages|
  {
    if messages == [] then b
    else ReadAll(j, Read(j, b, messages[0], closeRaises), messages[1..], closeRaises)
  }

  lemma {:induction false} ReadAllConcat(j: Job, b: Endpoint, x: seq<Message>, y: seq<Message>, closeRaises: bool)
    ensures ReadAll(j, b, x + y, closeRaises) == ReadAll(j, ReadAll(j, b, x, closeRaises), y, closeRaises)
    decreases |x|
  {
    if x == [] {
      assert x + y == y;
    } else {
      assert (x + y)[1..] == x[1..] + y;
      ReadAllConcat(j, Read(j, b, x[0], closeRaises), x[1..], y, closeRaises);
    }
  }

  lemma ReadOne(j: Job, b: Endpoint, m: Message, closeRaises: bool)
    ensures ReadAll(j, b, [m], closeRaises) == Read(j, b, m, closeRaises)
  {
    assert [m][1..] == [];
  }

  lemma {:induction false} ReadingChunksKeepsReceiving(j: Job, b: Endpoint, lo: nat, hi: nat, closeRaises: bool)
    requires lo <= hi <= |j.upload.pieces|
    requires Receiving(b, j.id) && b.incoming.value.expected == lo
    ensures var b' := ReadAll(j, b, Chunks(j, lo, hi), closeRaises);
      Receiving(b', j.id) && b'.incoming.value.expected == hi && b'.outgoing == b.outgoing
    decreases hi - lo
  {
    if lo == hi {
    } else {
      var m := Chunk(j.id, lo, Some(j.upload.pieces[lo]));
      var row := Chunks(j, lo, hi);
      assert row[0] == m && row[1..] == Chunks(j, lo + 1, hi);
      ReadingChunksKeepsReceiving(j, Read(j, b, m, closeRaises), lo + 1, hi, closeRaises);
    }
  }

  /** Whether the receiver is left waiting when the sender stops here: after a cancellation,
      when the start only followed the abort; otherwise, when the start arrived and the end of
      the file did not, or could not be closed. */
  predicate LeavesBusy(l: Link, stop: Stop, arrived: nat, closeRaises: bool)
    requires l.a.outgoing.Some?
  {
    match l.a.outgoing.value.phase
    case Ready => stop == Cancelled
    case AwaitStart => stop != Cancelled && (l.b.incoming.Some? || arrived > 0)
    case AwaitWindow(_) => stop != Cancelled
    case AwaitComplete => stop != Cancelled && l.b.incoming.Some? && (arrived < |l.toB| || closeRaises)
  }

  /** An abort goes out when the sender is cancelled, unless it is over for it already. */
  predicate Announces(s: Outgoing, stop: Stop) {
    stop == Cancelled && !s.completed && !s.cancelled
  }

  /** The file that arrived was refused for its size, and an abort is on its way back. */
  ghost predicate Rejected(j: Job, l: Link) {
    && l.a.incoming.None? && l.b.outgoing.None? && l.b.incoming.None? && l.toB == []
    && (l.a.outgoing.Some? ==>
          && l.a.outgoing.value.id == j.id && l.a.outgoing.value.phase.AwaitComplete?
          && !l.a.outgoing.value.completed)
    && forall m :: m in l.toA ==> m.ChunkAck? || m.Abort?
  }

  ghost predicate Reached(j: Job, l: Link, stage: Option<Stage>) {
    if stage == None then Rejected(j, l) else At(j, l, stage.value)
  }

  lemma AcksAreAcks(j: Job, lo: nat, hi: nat)
    requires lo <= hi
    ensures forall m :: m in Acks(j, lo, hi) ==> m.ChunkAck?
    decreases hi - lo
  {
    if lo == hi {
    } else {
      AcksAreAcks(j, lo + 1, hi);
    }
  }

  lemma ReceiverRejectsFile(j: Job, l: Link)
    requires !SizeHolds(j)
    requires At(j, l, Streaming) && l.b.incoming.value.expected == l.a.outgoing.value.index && l.toB != []
    ensures Rejected(j, Next(j, l, ReceiverReads))
  {
    assert l.toB == [Completion(j)] && l.toB[1..] == [];
    assert j.upload.pieces[..|j.upload.pieces|] == j.upload.pieces;
    AcksAreAcks(j, l.a.outgoing.value.acked + 1, l.b.incoming.value.expected);
  }

  lemma RejectedStays(j: Job, l: Link, move: Move)
    requires Rejected(j, l) && Enabled(j, l, move)
    ensures Rejected(j, Next(j, l, move))
  {
    if move == SenderReads {
      assert l.toA[0] in l.toA;
    }
  }

  /** Whether or not the file changed while it was read, every run follows the stages or ends
      with the file refused. */
  lemma {:induction false} RunReaches(j: Job, l: Link, stage: Option<Stage>, moves: seq<Move>)
    returns (stage': Option<Stage>)
    requires Reached(j, l, stage) && Possible(j, l, moves)
    ensures Reached(j, Run(j, l, moves), stage')
    decreases |moves|
  {
    stage' := stage;
    if moves == [] {
    } else {
      stage' := MoveReaches(j, l, stage, moves[0]);
      stage' := RunReaches(j, Next(j, l, moves[0]), stage', moves[1..]);
    }
  }

  lemma MoveReaches(j: Job, l: Link, stage: Option<Stage>, move: Move) returns (stage': Option<Stage>)
    requires Reached(j, l, stage) && Enabled(j, l, move)
    ensures Reached(j, Next(j, l, move), stage')
  {
    if stage == None {
      RejectedStays(j, l, move);
      stage' := None;
    } else if ReadsTheEnd(l, stage.value, move) && !SizeHolds(j) {
      ReceiverRejectsFile(j, l);
      stage' := None;
    } else {
      var next := MoveAdvances(j, l, stage.value, move);
      stage' := Some(next);
    }
  }

  lemma CancelledRunsOut(j: Job, a: Endpoint)
    requires a.outgoing.Some? && a.outgoing.value.cancelled
    ensures var s := a.outgoing.value;
      && RunsOut(j, a).0.outgoing.None?
      && RunsOut(j, a).1 == if s.phase == Ready then [Start(s.id, s.upload.size, CHUNK_SIZE)] else []
  {
    var start: seq<Message> := [Start(a.outgoing.value.id, a.outgoing.value.upload.size, CHUNK_SIZE)];
    assert start + [] == start;
  }

  lemma EndedRunsOut(j: Job, a: Endpoint)
    requires a.outgoing.Some? && a.outgoing.value.phase.AwaitComplete?
    requires a.outgoing.value.completed || a.outgoing.value.cancelled
    ensures RunsOut(j, a).0.outgoing.None? && RunsOut(j, a).1 == []
  {
  }

  /** What a sender that stops still sends: an abort, and after it the start when that had not
      gone out yet; or nothing. */
  lemma StoppedSends(j: Job, l: Link, stage: Option<Stage>, stop: Stop, arrived: nat)
    requires Reached(j, l, stage) && CanStop(j, l, stop, arrived)
    ensures var s := l.a.outgoing.value;
      var (a, sent) := Stopped(j, l.a, stop);
      && a.outgoing.None?
      && sent == if !Announces(s, stop) then []
                 else if s.phase == Ready then [Abort(j.id), Start(j.id, j.upload.size, CHUNK_SIZE)]
                 else [Abort(j.id)]
  {
    var start: seq<Message> := [Start(j.id, j.upload.size, CHUNK_SIZE)];
    assert [Abort(j.id)] + start == [Abort(j.id), Start(j.id, j.upload.size, CHUNK_SIZE)];
    assert [Abort(j.id)] + [] == [Abort(j.id)];
    match stop
    case Cancelled =>
      if Announces(l.a.outgoing.value, stop) {
        CancelledRunsOut(j, CancelSend(l.a).0);
      } else {
        EndedRunsOut(j, l.a);
      }
    case Closed => CancelledRunsOut(j, Disconnect(l.a));
    case _ =>
  }

  lemma ReadsRow(j: Job, l: Link, arrived: nat, closeRaises: bool)
    requires At(j, l, Streaming) && arrived <= |l.toB|
    ensures var b := ReadAll(j, l.b, l.toB[..arrived], closeRaises);
      && b.outgoing.None?
      && (Receiving(b, j.id) <==>
            l.a.outgoing.value.phase.AwaitWindow? || arrived < |l.toB| || closeRaises)
  {
    var s, r := l.a.outgoing.value, l.b.incoming.value;
    var row := Chunks(j, r.expected, s.index);
    CountChunks(j, r.expected, s.index, []);
    if arrived <= |row| {
      ChunksPrefix(j, r.expected, s.index, arrived);
      assert l.toB[..arrived] == row[..arrived];
      ReadingChunksKeepsReceiving(j, l.b, r.expected, r.expected + arrived, closeRaises);
    } else {
      ReadingChunksKeepsReceiving(j, l.b, r.expected, s.index, closeRaises);
      assert l.toB[..arrived] == row + [Completion(j)];
      ReadAllConcat(j, l.b, row, [Completion(j)], closeRaises);
      ReadOne(j, ReadAll(j, l.b, row, closeRaises), Completion(j), closeRaises);
    }
  }

  lemma {:induction false} ChunksPrefix(j: Job, lo: nat, hi: nat, n: nat)
    requires lo <= hi <= |j.upload.pieces| && n <= hi - lo
    ensures |Chunks(j, lo, hi)| == hi - lo && Chunks(j, lo, hi)[..n] == Chunks(j, lo, lo + n)
    decreases hi - lo
  {
    if lo == hi {
    } else {
      CountChunks(j, lo, hi, []);
      ChunksPrefix(j, lo + 1, hi, if n == 0 then 0 else n - 1);
    }
  }

  /** What the receiver makes of what arrives after the sender stopped, aborts aside. */
  lemma ReadsWhatArrives(j: Job, l: Link, stage: Option<Stage>, stop: Stop, arrived: nat, closeRaises: bool)
    requires Reached(j, l, stage) && CanStop(j, l, stop, arrived)
    ensures var s := l.a.outgoing.value;
      var b := ReadAll(j, l.b, l.toB[..arrived], closeRaises);
      && b.outgoing.None?
      && (s.phase == Ready ==> b.incoming.None?)
      && (stop == Cancelled && !Announces(s, stop) ==> b.incoming.None?)
      && (stop != Cancelled ==> (Receiving(b, j.id) <==> LeavesBusy(l, stop, arrived, closeRaises)))
  {
    match stage
    case Some(Asked) =>
      if arrived == 0 {
      } else {
        assert l.toB[..arrived] == [l.toB[0]];
        ReadOne(j, l.b, l.toB[0], closeRaises);
      }
    case Some(Streaming) => ReadsRow(j, l, arrived, closeRaises);
    case _ =>
  }

  lemma AbortFrees(j: Job, b: Endpoint, closeRaises: bool)
    requires b.outgoing.None? && j.answer.SaveTo?
    ensures !Receiving(ReadAll(j, b, [Abort(j.id)], closeRaises), j.id)
    ensures b.incoming.None? ==>
      Receiving(ReadAll(j, b, [Abort(j.id), Start(j.id, j.upload.size, CHUNK_SIZE)], closeRaises), j.id)
  {
    ReadOne(j, b, Abort(j.id), closeRaises);
    var start := Start(j.id, j.upload.size, CHUNK_SIZE);
    assert [Abort(j.id), start] == [Abort(j.id)] + [start];
    ReadAllConcat(j, b, [Abort(j.id)], [start], closeRaises);
    ReadOne(j, ReadAll(j, b, [Abort(j.id)], closeRaises), start, closeRaises);
  }

  /** The protocol has an interrupted transfer announced by either end.  At every moment of every
      run, whether or not the file changes, and for every way the sender may stop: an abort goes
      out exactly when the sender is cancelled and it is not over for it already; and once the
      receiver has read all that arrives, it still waits for the transfer, and refuses any other,
      exactly when the sender stopped otherwise after its start arrived and before the end of the
      file did, or was cancelled before its start went out, or when closing the received file
      raised and no abort follows. */
  lemma {:induction false} ReceiverIsLeftBusyExactly(
      j: Job, start: Link, moves: seq<Move>, stop: Stop, arrived: nat, closeRaises: bool,
      other: TransferId, size: nat, answer: Answer)
    requires Initial(j, start) && Possible(j, start, moves)
    requires CanStop(j, Run(j, start, moves), stop, arrived)
    ensures var l := Run(j, start, moves);
      var s := l.a.outgoing.value;
      var (a, sent) := Stopped(j, l.a, stop);
      var b := ReadAll(j, l.b, l.toB[..arrived] + sent, closeRaises);
      && a.outgoing.None?
      && (Abort(j.id) in sent <==> Announces(s, stop))
      && (Receiving(b, j.id) <==> LeavesBusy(l, stop, arrived, closeRaises))
      && (Receiving(b, j.id) ==> OnStart(b, other, size, answer) == (b, [StartAck(other, false)]))
  {
    var stage := RunReaches(j, start, Some(Asking), moves);
    var l := Run(j, start, moves);
    StoppedSends(j, l, stage, stop, arrived);
    ReadsWhatArrives(j, l, stage, stop, arrived, closeRaises);
    ReadAllConcat(j, l.b, l.toB[..arrived], Stopped(j, l.a, stop).1, closeRaises);
    AbortFrees(j, ReadAll(j, l.b, l.toB[..arrived], closeRaises), closeRaises);
  }

  // ----- a window that fills

  /** The start, its acceptance and the first read, and then so many chunks sent without any
      acknowledgement. */
  function Filling(chunks: nat): seq<Move> {
    if chunks == 0 then [SenderRuns, ReceiverReads, SenderReads, SenderRuns]
    else Filling(chunks - 1) + [SenderRuns]
  }

  /** The moves before the first chunk, one after the other. */
  lemma OpeningMoves(j: Job, start: Link) returns (l1: Link, l2: Link, l3: Link)
    requires Initial(j, start)
    ensures Enabled(j, start, SenderRuns) && l1 == Next(j, start, SenderRuns)
    ensures Enabled(j, l1, ReceiverReads) && l2 == Next(j, l1, ReceiverReads)
    ensures Enabled(j, l2, SenderReads) && l3 == Next(j, l2, SenderReads)
    ensures At(j, l3, Accepted)
  {
    l1 := Next(j, start, SenderRuns);
    var stage1 := OpeningAdvances(j, start, Asking, SenderRuns);
    l2 := Next(j, l1, ReceiverReads);
    var stage2 := OpeningAdvances(j, l1, Asked, ReceiverReads);
    l3 := Next(j, l2, SenderReads);
    var stage3 := OpeningAdvances(j, l2, Answered, SenderReads);
  }

  lemma FirstRead(j: Job, l: Link)
    requires At(j, l, Accepted) && j.upload.pieces != []
    ensures Enabled(j, l, SenderRuns) && At(j, Next(j, l, SenderRuns), Streaming)
    ensures var s := Next(j, l, SenderRuns).a.outgoing.value;
      s.phase.AwaitWindow? && s.index == 0 && s.acked == -1
  {
    AcceptedSenderReads(j, l);
  }

  lemma OpeningIsPossible(j: Job, start: Link)
    requires Initial(j, start) && j.upload.pieces != []
    ensures Possible(j, start, Filling(0))
    ensures At(j, Run(j, start, Filling(0)), Streaming)
    ensures var s := Run(j, start, Filling(0)).a.outgoing.value;
      s.phase.AwaitWindow? && s.index == 0 && s.acked == -1
  {
    var l1, l2, l3 := OpeningMoves(j, start);
    FirstRead(j, l3);
    var none: seq<Move> := [];
    RunSnoc(j, start, none, SenderRuns);
    RunSnoc(j, start, none + [SenderRuns], ReceiverReads);
    RunSnoc(j, start, none + [SenderRuns] + [ReceiverReads], SenderReads);
    RunSnoc(j, start, none + [SenderRuns] + [ReceiverReads] + [SenderReads], SenderRuns);
    assert Filling(0) == none + [SenderRuns] + [ReceiverReads] + [SenderReads] + [SenderRuns];
  }

  lemma OneMoreChunk(j: Job, l: Link)
    requires At(j, l, Streaming) && l.a.outgoing.value.phase.AwaitWindow?
    requires l.a.outgoing.value.acked == -1 && l.a.outgoing.value.index < CHUNK_WINDOW < |j.upload.pieces|
    ensures Enabled(j, l, SenderRuns) && At(j, Next(j, l, SenderRuns), Streaming)
    ensures var s := Next(j, l, SenderRuns).a.outgoing.value;
      s.phase.AwaitWindow? && s.index == l.a.outgoing.value.index + 1 && s.acked == -1
  {
    SenderSendsChunk(j, l);
    SenderTurn(j, l);
  }

  /** A file of more chunks than the window holds fills it, when acknowledgements are slow. */
  lemma {:induction false} WindowFills(j: Job, start: Link, chunks: nat)
    requires Initial(j, start) && chunks <= CHUNK_WINDOW < |j.upload.pieces|
    ensures Possible(j, start, Filling(chunks))
    ensures At(j, Run(j, start, Filling(chunks)), Streaming)
    ensures var s := Run(j, start, Filling(chunks)).a.outgoing.value;
      s.phase.AwaitWindow? && s.index == chunks && s.acked == -1
  {
    if chunks == 0 {
      OpeningIsPossible(j, start);
    } else {
      WindowFills(j, start, chunks - 1);
      OneMoreChunk(j, Run(j, start, Filling(chunks - 1)));
      RunSnoc(j, start, Filling(chunks - 1), SenderRuns);
    }
  }

  /** So the wait for room may time out, at any file of more chunks than the window holds, and
      then the receiver is left busy. */
  lemma FullWindowMayTimeOut(j: Job, start: Link)
    requires Unchanging(j.upload) && Initial(j, start) && CHUNK_WINDOW < |j.upload.pieces|
    ensures Possible(j, start, Filling(CHUNK_WINDOW))
    ensures var l := Run(j, start, Filling(CHUNK_WINDOW));
      && CanStop(j, l, TimedOut, |l.toB|)
      && Receiving(ReadAll(j, l.b, l.toB + Stopped(j, l.a, TimedOut).1, false), j.id)
  {
    WindowFills(j, start, CHUNK_WINDOW);
    var l := Run(j, start, Filling(CHUNK_WINDOW));
    assert l.toB[..|l.toB|] == l.toB;
    ReceiverIsLeftBusyExactly(j, start, Filling(CHUNK_WINDOW), TimedOut, |l.toB|, false, "", 0, Refuse);
  }

  const NINE_BYTES := Upload(9, [[0], [0], [0], [0], [0], [0], [0], [0], [0]])

  /** A witness: nine one-byte chunks, and the twelve moves that send eight of them. */
  lemma NineChunksLeaveTheReceiverBusy(j: Job, start: Link)
    requires j.upload == NINE_BYTES && Initial(j, start)
    ensures Unchanging(j.upload) && Possible(j, start, Filling(8)) && |Filling(8)| == 12
    ensures var l := Run(j, start, Filling(8));
      && CanStop(j, l, TimedOut, |l.toB|)
      && Receiving(ReadAll(j, l.b, l.toB + Stopped(j, l.a, TimedOut).1, false), j.id)
  {
    NineBytesAreUnchanging();
    FillingLength(8);
    FullWindowMayTimeOut(j, start);
  }

  lemma {:induction false} FillingLength(chunks: nat)
    ensures |Filling(chunks)| == chunks + 4
  {
    if chunks == 0 {
    } else {
      FillingLength(chunks - 1);
    }
  }

  lemma {:induction false} FlattenOfBytes(pieces: seq<Bytes>)
    requires forall i :: 0 <= i < |pieces| ==> |pieces[i]| == 1
    ensures |Flatten(pieces)| == |pieces|
  {
    if pieces == [] {
    } else {
      FlattenOfBytes(pieces[1..]);
    }
  }

  lemma NineBytesAreUnchanging()
    ensures Unchanging(NINE_BYTES)
  {
    FlattenOfBytes(NINE_BYTES.pieces);
  }

  // ----- an exception while the receiver writes

  /** The handler raised while it wrote: part of the data may be in the file, nothing was
      counted and nothing was sent. */
  function WriteRaised(b: Endpoint, part: Bytes): Endpoint
    requires b.incoming.Some?
  {
    b.(incoming := Some(b.incoming.value.(written := b.incoming.value.written + part)))
  }

  /** The next message of the sender, another chunk or the end of the file, then ends the
      transfer with an abort and nothing of the damaged file is kept, if and only if it is not
      the end of the file with closing that file raising too; then nothing is sent and the
      receiver is left busy. */
  lemma FailedWriteIsAnnouncedUnlessClosingRaises(
      j: Job, start: Link, moves: seq<Move>, part: Bytes, next: Message, closeRaises: bool)
    requires Unchanging(j.upload) && Initial(j, start) && Possible(j, start, moves)
    requires var l := Run(j, start, moves); l.toB != [] && l.toB[0].Chunk?
    requires next == Completion(j) || (next.Chunk? && next.id == j.id && next.index > Run(j, start, moves).toB[0].index)
    ensures var l := Run(j, start, moves);
      && l.b.incoming.Some?
      && var b := WriteRaised(l.b, part);
         var (b', sent) := Handled(j, b, next, closeRaises);
         && (Abort(j.id) in sent <==> !(next.Complete? && closeRaises))
         && if Abort(j.id) in sent then b' == EndIncoming(l.b, Corrupted) && sent == [Abort(j.id)]
            else b' == b && sent == [] && Receiving(b', j.id)
  {
    var stage := RunAdvances(j, start, Asking, moves);
    var l := Run(j, start, moves);
    var s, r := l.a.outgoing.value, l.b.incoming.value;
    assert r.expected < s.index by {
      assert r.expected == s.index ==> l.toB == Ending(j, s);
    }
    ChunkLeavesRow(j, r.expected, s.index, Ending(j, s));
    PrefixIsShorter(j.upload, r.expected);
  }

  lemma PrefixIsShorter(u: Upload, k: nat)
    requires Unchanging(u) && k < |u.pieces|
    ensures |Flatten(u.pieces[..k])| < u.size
  {
    assert u.pieces == u.pieces[..k] + u.pieces[k..];
    FlattenConcat(u.pieces[..k], u.pieces[k..]);
    assert Flatten(u.pieces[k..]) == u.pieces[k] + Flatten(u.pieces[k..][1..]);
  }
}
