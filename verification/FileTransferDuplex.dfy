/**
 Transfers in both directions at once, over the same two queues.

 Each computer sends one file and receives one.  The messages, the threads and the handlers of
 the two transfers are interleaved in any way; seen from one of them, the other one does nothing.
 */
module FileTransferDuplex {
  import opened Wrappers
  import opened ByteStrings
  import opened FileTransferProtocol
  import opened FileTransferFifo

  datatype Duplex = Duplex(a: Endpoint, b: Endpoint, toB: seq<Message>, toA: seq<Message>)

  /** What `a` sends to `b`, and what `b` sends to `a`. */
  datatype Jobs = Jobs(ab: Job, ba: Job)

  ghost predicate AreJobs(js: Jobs) {
    js.ab.id != js.ba.id && js.ab.hash == js.ba.hash
  }

  datatype DuplexMove = ThreadOfA | ThreadOfB | AReads | BReads

  predicate CanMove(js: Jobs, d: Duplex, move: DuplexMove) {
    match move
    case ThreadOfA => d.a.outgoing.Some? && !Resume(d.a.outgoing.value, false, js.ab.hash).Blocked?
    case ThreadOfB => d.b.outgoing.Some? && !Resume(d.b.outgoing.value, false, js.ba.hash).Blocked?
    case AReads => d.toA != []
    case BReads => d.toB != []
  }

  function Move(js: Jobs, d: Duplex, move: DuplexMove): Duplex
    requires CanMove(js, d, move)
  {
    match move
    case ThreadOfA =>
      var (a, sent) := Wake(d.a, false, js.ab.hash);
      d.(a := a, toB := d.toB + sent)
    case ThreadOfB =>
      var (b, sent) := Wake(d.b, false, js.ba.hash);
      d.(b := b, toA := d.toA + sent)
    case AReads =>
      var (a, sent) := OnMessage(d.a, d.toA[0], js.ba.answer, true, js.ab.hash);
      d.(a := a, toA := d.toA[1..], toB := d.toB + sent)
    case BReads =>
      var (b, sent) := OnMessage(d.b, d.toB[0], js.ab.answer, true, js.ba.hash);
      d.(b := b, toB := d.toB[1..], toA := d.toA + sent)
  }

  ghost predicate CanRun(js: Jobs, d: Duplex, moves: seq<DuplexMove>)
    decreases |moves|
  {
    moves == [] || (CanMove(js, d, moves[0]) && CanRun(js, Move(js, d, moves[0]), moves[1..]))
  }

  ghost function RunBoth(js: Jobs, d: Duplex, moves: seq<DuplexMove>): Duplex
    requires CanRun(js, d, moves)
    decreases |moves|
  {
    if moves == [] then d else RunBoth(js, Move(js, d, moves[0]), moves[1..])
  }

  /** Both users just asked for their file to be sent, and both will name a path for the other's. */
  ghost predicate Begins(js: Jobs, d: Duplex) {
    && js.ab.answer.SaveTo? && js.ba.answer.SaveTo?
    && d.a.outgoing == Some(NewOutgoing(js.ab.id, js.ab.upload)) && d.a.incoming.None?
    && d.b.outgoing == Some(NewOutgoing(js.ba.id, js.ba.upload)) && d.b.incoming.None?
    && d.toB == [] && d.toA == []
  }

  // ----- one direction at a time

  /** The same with the two computers exchanged. */
  function Turned(d: Duplex): Duplex {
    Duplex(d.b, d.a, d.toA, d.toB)
  }

  function TurnedJobs(js: Jobs): Jobs {
    Jobs(js.ba, js.ab)
  }

  function TurnedMove(move: DuplexMove): DuplexMove {
    match move
    case ThreadOfA => ThreadOfB
    case ThreadOfB => ThreadOfA
    case AReads => BReads
    case BReads => AReads
  }

  /** The messages of one transfer. */
  function Only(messages: seq<Message>, id: TransferId): seq<Message> {
    if messages == [] then []
    else (if messages[0].id == id then [messages[0]] else []) + Only(messages[1..], id)
  }

  function Reports(reports: seq<Report>, id: TransferId): seq<Report>
    decreases |reports|
  {
    if reports == [] then []
    else
      var n := |reports| - 1;
      Reports(reports[..n], id) + if reports[n].id == id then [reports[n]] else []
  }

  /** What a computer is to a transfer it sends. */
  function AsSender(e: Endpoint, id: TransferId): Endpoint {
    Endpoint(e.outgoing, None, map[], Reports(e.reports, id))
  }

  /** What a computer is to a transfer it receives. */
  function AsReceiver(e: Endpoint, id: TransferId): Endpoint {
    Endpoint(None, e.incoming, e.disk, Reports(e.reports, id))
  }

  /** The transfer from `a` to `b` on its own. */
  function Side(js: Jobs, d: Duplex): Link {
    var id := js.ab.id;
    Link(AsSender(d.a, id), AsReceiver(d.b, id), Only(d.toB, id), Only(d.toA, id))
  }

  /** Transfers and start messages are where they belong. */
  ghost predicate Sorted(js: Jobs, d: Duplex) {
    && AreJobs(js)
    && (d.a.outgoing.Some? ==> d.a.outgoing.value.id == js.ab.id)
    && (d.b.incoming.Some? ==> d.b.incoming.value.id == js.ab.id)
    && (d.b.outgoing.Some? ==> d.b.outgoing.value.id == js.ba.id)
    && (d.a.incoming.Some? ==> d.a.incoming.value.id == js.ba.id)
    && AreSorted(d.toB, js.ab.id, js.ba.id)
    && AreSorted(d.toA, js.ba.id, js.ab.id)
  }

  /** Messages of two transfers, with starts of the first one only. */
  predicate AreSorted(messages: seq<Message>, first: TransferId, second: TransferId) {
    forall m <- messages :: m.id == first || (m.id == second && !m.Start?)
  }

  lemma {:induction false} OnlyConcat(x: seq<Message>, y: seq<Message>, id: TransferId)
    ensures Only(x + y, id) == Only(x, id) + Only(y, id)
    decreases |x|
  {
    if x == [] {
      assert x + y == y;
    } else {
      assert (x + y)[1..] == x[1..] + y;
      OnlyConcat(x[1..], y, id);
      Reassociate(if x[0].id == id then [x[0]] else [], Only(x[1..], id), Only(y, id));
    }
  }

  lemma {:induction false} OnlyOwn(messages: seq<Message>, owner: TransferId, id: TransferId)
    requires forall m <- messages :: m.id == owner
    ensures Only(messages, id) == if owner == id then messages else []
    decreases |messages|
  {
    if messages == [] {
    } else {
      assert messages[0] in messages;
      OnlyOwn(messages[1..], owner, id);
      assert messages == [messages[0]] + messages[1..];
    }
  }

  lemma ReportsSnoc(reports: seq<Report>, report: Report, id: TransferId)
    ensures Reports(reports + [report], id) ==
            Reports(reports, id) + if report.id == id then [report] else []
  {
    assert (reports + [report])[..|reports|] == reports;
  }

  // ----- a thread or a handler, seen from a transfer

  /** The thread of the sender, which knows of no other transfer. */
  lemma WakeIsSeen(e: Endpoint, id: TransferId, hash: Hash)
    requires e.outgoing.Some? ==> e.outgoing.value.id == id
    ensures var (e', sent) := Wake(e, false, hash);
      && Wake(AsSender(e, id), false, hash) == (AsSender(e', id), sent)
      && (forall m <- sent :: m.id == id)
      && e'.incoming == e.incoming && e'.disk == e.disk
      && (e'.outgoing.Some? ==> e'.outgoing.value.id == id)
  {
    if e.outgoing.Some? {
      match Resume(e.outgoing.value, false, hash)
      case Finished(outcome) => ReportsSnoc(e.reports, Report(id, outcome), id);
      case _ =>
    }
  }

  /** It changes nothing for a transfer received here. */
  lemma WakeIsNotSeen(e: Endpoint, id: TransferId, hash: Hash)
    requires e.outgoing.Some? ==> e.outgoing.value.id != id
    ensures AsReceiver(Wake(e, false, hash).0, id) == AsReceiver(e, id)
  {
    if e.outgoing.Some? {
      match Resume(e.outgoing.value, false, hash)
      case Finished(outcome) => ReportsSnoc(e.reports, Report(e.outgoing.value.id, outcome), id);
      case _ =>
    }
  }

  lemma EndIsSeen(e: Endpoint, outcome: Outcome, id: TransferId)
    requires e.incoming.Some?
    ensures Reports(EndIncoming(e, outcome).reports, id) ==
            Reports(e.reports, id) + if e.incoming.value.id == id then [Report(id, outcome)] else []
  {
    ReportsSnoc(e.reports, Report(e.incoming.value.id, outcome), id);
  }

  ghost predicate ReceivesAlike(e: Endpoint, id: TransferId, step: (Endpoint, seq<Message>),
                                alone: (Endpoint, seq<Message>))
  {
    && alone == (AsReceiver(step.0, id), step.1)
    && (forall m <- step.1 :: m.id == id && !m.Start?)
    && step.0.outgoing == e.outgoing
    && (step.0.incoming.Some? ==> step.0.incoming.value.id == id)
  }

  lemma EndingIsSeen(e: Endpoint, id: TransferId, outcome: Outcome, sent: seq<Message>)
    requires Receiving(e, id) && forall m <- sent :: m.id == id && !m.Start?
    ensures ReceivesAlike(e, id, (EndIncoming(e, outcome), sent), (EndIncoming(AsReceiver(e, id), outcome), sent))
  {
    EndIsSeen(e, outcome, id);
  }

  lemma GrowingIsSeen(e: Endpoint, id: TransferId, r: Incoming, sent: seq<Message>)
    requires Receiving(e, id) && r.id == id && forall m <- sent :: m.id == id && !m.Start?
    ensures ReceivesAlike(e, id, (e.(incoming := Some(r)), sent), (AsReceiver(e, id).(incoming := Some(r)), sent))
  {
  }

  lemma ChunkIsSeen(e: Endpoint, id: TransferId, index: int, data: Option<Bytes>)
    requires Receiving(e, id)
    ensures ReceivesAlike(e, id, OnChunk(e, index, data), OnChunk(AsReceiver(e, id), index, data))
  {
    var r := e.incoming.value;
    if index != r.expected || data.None? {
      EndingIsSeen(e, id, Corrupted, [Abort(id)]);
    } else {
      GrowingIsSeen(e, id, Append(r, data.value), [ChunkAck(id, index)]);
    }
  }

  lemma CompleteIsSeen(e: Endpoint, id: TransferId, size: nat, checksum: Digest, hash: Hash)
    requires Receiving(e, id)
    ensures ReceivesAlike(e, id, OnComplete(e, size, checksum, true, hash),
                          OnComplete(AsReceiver(e, id), size, checksum, true, hash))
  {
    var r := e.incoming.value;
    if !Matches(r, size, checksum, hash) {
      EndingIsSeen(e, id, Corrupted, [Abort(id)]);
    } else {
      EndingIsSeen(e.(disk := e.disk[r.destination := r.written]), id, Received, [CompleteAck(id)]);
    }
  }

  /** A message of a transfer received here. */
  lemma ReadingIsSeen(e: Endpoint, id: TransferId, m: Message, answer: Answer, hash: Hash)
    requires m.id == id && (e.incoming.Some? ==> e.incoming.value.id == id)
    requires e.outgoing.Some? ==> e.outgoing.value.id != id
    ensures ReceivesAlike(e, id, OnMessage(e, m, answer, true, hash), OnMessage(AsReceiver(e, id), m, answer, true, hash))
  {
    if e.incoming.Some? {
      match m
      case Chunk(_, index, data) => ChunkIsSeen(e, id, index, data);
      case Complete(_, size, checksum) => CompleteIsSeen(e, id, size, checksum, hash);
      case Abort(_) => EndIsSeen(e, Interrupted, id);
      case _ =>
    }
  }

  /** A reply for a transfer sent from here. */
  lemma ReplyIsSeen(e: Endpoint, id: TransferId, m: Message, answer: Answer, hash: Hash)
    requires m.id == id && !m.Start? && (e.incoming.Some? ==> e.incoming.value.id != id)
    requires e.outgoing.Some? ==> e.outgoing.value.id == id
    ensures var (e', sent) := OnMessage(e, m, answer, true, hash);
      && OnMessage(AsSender(e, id), m, Refuse, true, hash) == (AsSender(e', id), sent)
      && sent == []
      && e'.incoming == e.incoming && e'.disk == e.disk && e'.reports == e.reports
      && (e'.outgoing.Some? ==> e'.outgoing.value.id == id)
  {
  }

  // ----- a move, seen from a transfer

  /** The move of the transfer from `a` to `b` that a move amounts to, if any. */
  function OwnMove(js: Jobs, d: Duplex, move: DuplexMove): Option<FileTransferFifo.Move> {
    match move
    case ThreadOfA => Some(SenderRuns)
    case ThreadOfB => None
    case AReads => if d.toA != [] && d.toA[0].id == js.ab.id then Some(SenderReads) else None
    case BReads => if d.toB != [] && d.toB[0].id == js.ab.id then Some(ReceiverReads) else None
  }

  /** The move is that one, or nothing. */
  ghost predicate IsSeen(js: Jobs, d: Duplex, move: DuplexMove)
    requires CanMove(js, d, move)
  {
    var d' := Move(js, d, move);
    match OwnMove(js, d, move)
    case None => Side(js, d') == Side(js, d)
    case Some(own) => Enabled(js.ab, Side(js, d), own) && Next(js.ab, Side(js, d), own) == Side(js, d')
  }

  lemma SortedConcat(x: seq<Message>, y: seq<Message>, first: TransferId, second: TransferId)
    requires AreSorted(x, first, second) && AreSorted(y, first, second)
    ensures AreSorted(x + y, first, second)
  {
  }

  lemma SortedRest(messages: seq<Message>, first: TransferId, second: TransferId)
    requires AreSorted(messages, first, second) && messages != []
    ensures AreSorted(messages[1..], first, second)
    ensures messages[0].id == first || (messages[0].id == second && !messages[0].Start?)
  {
    assert messages[0] in messages;
  }

  lemma OnlyHead(messages: seq<Message>, id: TransferId)
    requires messages != []
    ensures messages[0].id == id ==> Only(messages, id) != [] && Only(messages, id)[0] == messages[0]
    ensures messages[0].id == id ==> Only(messages, id)[1..] == Only(messages[1..], id)
    ensures messages[0].id != id ==> Only(messages, id) == Only(messages[1..], id)
  {
  }

  lemma ThreadOfAIsSeen(js: Jobs, d: Duplex)
    requires Sorted(js, d) && CanMove(js, d, ThreadOfA)
    ensures Sorted(js, Move(js, d, ThreadOfA)) && IsSeen(js, d, ThreadOfA)
  {
    var sent := Wake(d.a, false, js.ab.hash).1;
    WakeIsSeen(d.a, js.ab.id, js.ab.hash);
    OnlyConcat(d.toB, sent, js.ab.id);
    OnlyOwn(sent, js.ab.id, js.ab.id);
    SortedConcat(d.toB, sent, js.ab.id, js.ba.id);
  }

  lemma ThreadOfBIsNotSeen(js: Jobs, d: Duplex)
    requires Sorted(js, d) && CanMove(js, d, ThreadOfB)
    ensures Sorted(js, Move(js, d, ThreadOfB)) && IsSeen(js, d, ThreadOfB)
  {
    var sent := Wake(d.b, false, js.ba.hash).1;
    WakeIsSeen(d.b, js.ba.id, js.ba.hash);
    WakeIsNotSeen(d.b, js.ab.id, js.ba.hash);
    OnlyConcat(d.toA, sent, js.ab.id);
    OnlyOwn(sent, js.ba.id, js.ab.id);
    assert Only(d.toA, js.ab.id) + [] == Only(d.toA, js.ab.id);
    SortedConcat(d.toA, sent, js.ba.id, js.ab.id);
  }

  lemma BReadsIsSeen(js: Jobs, d: Duplex)
    requires Sorted(js, d) && CanMove(js, d, BReads)
    ensures Sorted(js, Move(js, d, BReads)) && IsSeen(js, d, BReads)
  {
    var m := d.toB[0];
    var sent := OnMessage(d.b, m, js.ab.answer, true, js.ba.hash).1;
    SortedRest(d.toB, js.ab.id, js.ba.id);
    OnlyHead(d.toB, js.ab.id);
    OnlyConcat(d.toA, sent, js.ab.id);
    if m.id == js.ab.id {
      ReadingIsSeen(d.b, js.ab.id, m, js.ab.answer, js.ba.hash);
      OnlyOwn(sent, js.ab.id, js.ab.id);
      SortedConcat(d.toA, sent, js.ba.id, js.ab.id);
    } else {
      ReplyIsSeen(d.b, js.ba.id, m, js.ab.answer, js.ba.hash);
      assert d.toA + sent == d.toA;
    }
  }

  lemma AReadsIsSeen(js: Jobs, d: Duplex)
    requires Sorted(js, d) && CanMove(js, d, AReads)
    ensures Sorted(js, Move(js, d, AReads)) && IsSeen(js, d, AReads)
  {
    var m := d.toA[0];
    var sent := OnMessage(d.a, m, js.ba.answer, true, js.ab.hash).1;
    SortedRest(d.toA, js.ba.id, js.ab.id);
    OnlyHead(d.toA, js.ab.id);
    OnlyConcat(d.toB, sent, js.ab.id);
    if m.id == js.ab.id {
      ReplyIsSeen(d.a, js.ab.id, m, js.ba.answer, js.ab.hash);
      assert d.toB + sent == d.toB;
      assert Only(d.toB, js.ab.id) + [] == Only(d.toB, js.ab.id);
    } else {
      ReadingIsSeen(d.a, js.ba.id, m, js.ba.answer, js.ab.hash);
      OnlyOwn(sent, js.ba.id, js.ab.id);
      assert Only(d.toB, js.ab.id) + [] == Only(d.toB, js.ab.id);
      SortedConcat(d.toB, sent, js.ab.id, js.ba.id);
      ReadingIsNotSeen(d.a, js.ab.id, m, js.ba.answer, js.ab.hash);
    }
  }

  /** Receiving changes nothing for a transfer sent from here. */
  lemma ReadingIsNotSeen(e: Endpoint, id: TransferId, m: Message, answer: Answer, hash: Hash)
    requires m.id != id && (e.incoming.Some? ==> e.incoming.value.id != id)
    requires e.outgoing.Some? ==> e.outgoing.value.id == id
    ensures AsSender(OnMessage(e, m, answer, true, hash).0, id) == AsSender(e, id)
  {
    if Receiving(e, m.id) {
      EndIsSeen(e, Corrupted, id);
      EndIsSeen(e, Interrupted, id);
      EndIsSeen(e.(disk := e.disk[e.incoming.value.destination := e.incoming.value.written]), Received, id);
    }
  }

  lemma MoveIsSeen(js: Jobs, d: Duplex, move: DuplexMove)
    requires Sorted(js, d) && CanMove(js, d, move)
    ensures Sorted(js, Move(js, d, move)) && IsSeen(js, d, move)
  {
    match move
    case ThreadOfA => ThreadOfAIsSeen(js, d);
    case ThreadOfB => ThreadOfBIsNotSeen(js, d);
    case AReads => AReadsIsSeen(js, d);
    case BReads => BReadsIsSeen(js, d);
  }

  lemma TurnedMoves(js: Jobs, d: Duplex, move: DuplexMove)
    requires Sorted(js, d) && CanMove(js, d, move)
    ensures Sorted(TurnedJobs(js), Turned(d)) && CanMove(TurnedJobs(js), Turned(d), TurnedMove(move))
    ensures Move(TurnedJobs(js), Turned(d), TurnedMove(move)) == Turned(Move(js, d, move))
  {
  }

  /** Every move is one of either transfer. */
  lemma OneOfEither(js: Jobs, d: Duplex, move: DuplexMove)
    requires Sorted(js, d) && CanMove(js, d, move)
    ensures OwnMove(js, d, move).Some? <==> OwnMove(TurnedJobs(js), Turned(d), TurnedMove(move)).None?
  {
    if d.toA != [] {
      SortedRest(d.toA, js.ba.id, js.ab.id);
    }
    if d.toB != [] {
      SortedRest(d.toB, js.ab.id, js.ba.id);
    }
  }

  // ----- runs

  ghost function OwnMoves(js: Jobs, d: Duplex, moves: seq<DuplexMove>): seq<FileTransferFifo.Move>
    requires CanRun(js, d, moves)
    decreases |moves|
  {
    if moves == [] then []
    else
      var own := OwnMove(js, d, moves[0]);
      (if own == None then [] else [own.value]) + OwnMoves(js, Move(js, d, moves[0]), moves[1..])
  }

  /** A run of both is, for each transfer, a run of its own. */
  lemma {:induction false} RunIsSeen(js: Jobs, d: Duplex, moves: seq<DuplexMove>)
    requires Sorted(js, d) && CanRun(js, d, moves)
    ensures Sorted(js, RunBoth(js, d, moves))
    ensures var own := OwnMoves(js, d, moves);
      Possible(js.ab, Side(js, d), own) && Run(js.ab, Side(js, d), own) == Side(js, RunBoth(js, d, moves))
    decreases |moves|
  {
    if moves == [] {
    } else {
      var d' := Move(js, d, moves[0]);
      MoveIsSeen(js, d, moves[0]);
      RunIsSeen(js, d', moves[1..]);
      var own, more := OwnMove(js, d, moves[0]), OwnMoves(js, d', moves[1..]);
      if own == None {
        assert [] + more == more;
      } else {
        assert ([own.value] + more)[1..] == more;
      }
    }
  }

  function TurnedAll(moves: seq<DuplexMove>): seq<DuplexMove>
    decreases |moves|
  {
    if moves == [] then [] else [TurnedMove(moves[0])] + TurnedAll(moves[1..])
  }

  lemma {:induction false} TurnedRun(js: Jobs, d: Duplex, moves: seq<DuplexMove>)
    requires Sorted(js, d) && CanRun(js, d, moves)
    ensures CanRun(TurnedJobs(js), Turned(d), TurnedAll(moves))
    ensures RunBoth(TurnedJobs(js), Turned(d), TurnedAll(moves)) == Turned(RunBoth(js, d, moves))
    ensures |moves| == |OwnMoves(js, d, moves)| + |OwnMoves(TurnedJobs(js), Turned(d), TurnedAll(moves))|
    decreases |moves|
  {
    if moves == [] {
    } else {
      var turned := [TurnedMove(moves[0])] + TurnedAll(moves[1..]);
      assert turned[1..] == TurnedAll(moves[1..]);
      MoveIsSeen(js, d, moves[0]);
      TurnedMoves(js, d, moves[0]);
      OneOfEither(js, d, moves[0]);
      TurnedRun(js, Move(js, d, moves[0]), moves[1..]);
    }
  }

  lemma BeginningIsSeen(js: Jobs, d: Duplex)
    requires AreJobs(js) && Begins(js, d)
    ensures Sorted(js, d) && Initial(js.ab, Side(js, d))
    ensures Sorted(TurnedJobs(js), Turned(d)) && Initial(js.ba, Side(TurnedJobs(js), Turned(d)))
  {
  }

  /** What conservation says of a link, past the start of its transfer. */
  ghost predicate ConservedOnceStarted(l: Link) {
    l.a.outgoing.Some? && l.a.outgoing.value.phase != Ready && l.a.outgoing.value.phase != AwaitStart ==> Conserved(l)
  }

  /** Conservation for each of two transfers at once, in every reachable state. */
  lemma {:induction false} BothConserve(js: Jobs, start: Duplex, moves: seq<DuplexMove>)
    requires AreJobs(js) && Begins(js, start) && CanRun(js, start, moves)
    requires Unchanging(js.ab.upload) && Unchanging(js.ba.upload)
    ensures var d := RunBoth(js, start, moves);
      ConservedOnceStarted(Side(js, d)) && ConservedOnceStarted(Side(TurnedJobs(js), Turned(d)))
  {
    var turned, back, backMoves := TurnedJobs(js), Turned(start), TurnedAll(moves);
    BeginningIsSeen(js, start);
    RunIsSeen(js, start, moves);
    UnacknowledgedIsInFlight(js.ab, Side(js, start), OwnMoves(js, start, moves));
    TurnedRun(js, start, moves);
    RunIsSeen(turned, back, backMoves);
    UnacknowledgedIsInFlight(js.ba, Side(turned, back), OwnMoves(turned, back, backMoves));
  }

  lemma {:induction false} RunBothSnoc(js: Jobs, d: Duplex, moves: seq<DuplexMove>, move: DuplexMove)
    requires CanRun(js, d, moves) && CanMove(js, RunBoth(js, d, moves), move)
    ensures CanRun(js, d, moves + [move])
    decreases |moves|
  {
    if moves == [] {
      assert moves + [move] == [move] && [move][1..] == [];
    } else {
      assert (moves + [move])[1..] == moves[1..] + [move];
      RunBothSnoc(js, Move(js, d, moves[0]), moves[1..], move);
    }
  }

  /** A move of a transfer that can be made on its own can be made. */
  lemma OwnMoveCanBeMade(js: Jobs, d: Duplex, own: FileTransferFifo.Move) returns (move: DuplexMove)
    requires AreJobs(js) && Enabled(js.ab, Side(js, d), own)
    ensures CanMove(js, d, move)
  {
    match own
    case SenderRuns => move := ThreadOfA;
    case SenderReads => move := AReads;
    case ReceiverReads => move := BReads;
  }

  /** A transfer that is not complete on its own lets something happen. */
  lemma UnfinishedGoesOn(js: Jobs, start: Duplex, moves: seq<DuplexMove>) returns (move: DuplexMove)
    requires AreJobs(js) && Begins(js, start) && CanRun(js, start, moves) && Unchanging(js.ab.upload)
    requires |OwnMoves(js, start, moves)| < 3 * |js.ab.upload.pieces| + 7
    ensures CanMove(js, RunBoth(js, start, moves), move)
  {
    BeginningIsSeen(js, start);
    RunIsSeen(js, start, moves);
    var own := OwnMoves(js, start, moves);
    var stage := RunAdvances(js.ab, Side(js, start), Asking, own);
    var next := SomeMoveIsEnabled(js.ab, Run(js.ab, Side(js, start), own), stage);
    move := OwnMoveCanBeMade(js, RunBoth(js, start, moves), next);
  }

  /** Both transfers are over, each at both of its ends, with its file in place. */
  ghost predicate BothCompleted(js: Jobs, d: Duplex) {
    Completed(js.ab, Side(js, d)) && Completed(js.ba, Side(TurnedJobs(js), Turned(d)))
  }

  /** Two transfers of n and m chunks in opposite directions are both complete after 3n + 7 and
      3m + 7 moves, however these are interleaved, and not before; and until then something can
      happen. */
  lemma {:induction false} BothTransfersComplete(js: Jobs, start: Duplex, moves: seq<DuplexMove>)
    requires AreJobs(js) && Begins(js, start) && CanRun(js, start, moves)
    requires Unchanging(js.ab.upload) && Unchanging(js.ba.upload)
    ensures var all := 3 * |js.ab.upload.pieces| + 7 + 3 * |js.ba.upload.pieces| + 7;
      && |moves| <= all
      && (BothCompleted(js, RunBoth(js, start, moves)) <==> |moves| == all)
      && (|moves| < all ==> exists move :: CanRun(js, start, moves + [move]))
  {
    var turned, back, backMoves := TurnedJobs(js), Turned(start), TurnedAll(moves);
    BeginningIsSeen(js, start);
    RunIsSeen(js, start, moves);
    TurnedRun(js, start, moves);
    RunIsSeen(turned, back, backMoves);
    EveryTransferCompletes(js.ab, Side(js, start), OwnMoves(js, start, moves));
    EveryTransferCompletes(js.ba, Side(turned, back), OwnMoves(turned, back, backMoves));
    if |OwnMoves(js, start, moves)| < 3 * |js.ab.upload.pieces| + 7 {
      var move := UnfinishedGoesOn(js, start, moves);
      RunBothSnoc(js, start, moves, move);
    } else if |OwnMoves(turned, back, backMoves)| < 3 * |js.ba.upload.pieces| + 7 {
      var move := UnfinishedGoesOn(turned, back, backMoves);
      RunBothSnoc(js, start, moves, TurnedMove(move));
    }
  }
}
