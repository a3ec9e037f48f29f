/**
 The objects that carry a chunked file transfer.

 Each method is proved to make exactly the step of FileTransferProtocol it stands for, so
 that the theorems of FileTransferSafety and FileTransferFifo are about these objects.
 */
module FileTransferObjects {
  import opened Wrappers
  import opened ByteStrings
  import opened FileTransferProtocol

  /** What reaches the sender between two evaluations of the condition its thread waits for,
      and whether the wait has timed out by then. */
  datatype Round = Round(replies: seq<Message>, expired: bool)

  function HearAll(s: Outgoing, replies: seq<Message>): Outgoing
    decreases |replies|
  {
    if replies == [] then s else HearAll(OnReply(s, replies[0]), replies[1..])
  }

  /** The thread still waits, or it has ended; and what it sent. */
  datatype Thread =
    | Waits(transfer: Outgoing, sent: seq<Message>)
    | Ends(transfer: Outgoing, outcome: Outcome, sent: seq<Message>)

  function After(sent: seq<Message>, t: Thread): Thread {
    t.(sent := sent + t.sent)
  }

  /** The atomic steps the thread makes when these rounds reach it one after the other. */
  function RunThread(s: Outgoing, rounds: seq<Round>, hash: Hash): Thread
    decreases |rounds|
  {
    if rounds == [] then Waits(s, [])
    else
      var s := HearAll(s, rounds[0].replies);
      match Resume(s, rounds[0].expired, hash)
      case Blocked => RunThread(s, rounds[1..], hash)
      case Running(next, sent) => After(sent, RunThread(next, rounds[1..], hash))
      case Finished(outcome) => Ends(s, outcome, [])
  }

  lemma AfterAfter(first: seq<Message>, second: seq<Message>, t: Thread)
    ensures After(first, After(second, t)) == After(first + second, t)
  {
    assert first + (second + t.sent) == (first + second) + t.sent;
  }

  lemma {:induction false} HearingMovesNoThread(s: Outgoing, replies: seq<Message>)
    ensures var h := HearAll(s, replies);
      h.id == s.id && h.upload == s.upload && h.phase == s.phase && h.index == s.index && h.hashed == s.hashed
    decreases |replies|
  {
    if replies == [] {
    } else {
      HearingMovesNoThread(OnReply(s, replies[0]), replies[1..]);
    }
  }

  /** What the thread waits for: an answer, room for chunk `index`, or the last acknowledgement. */
  datatype Condition = AnAnswer | RoomFor(index: nat) | Completion

  datatype Verdict = Satisfied | GivenUp | OutOfRounds

  class OutgoingTransfer {
    const manager: FileTransferManager
    const id: TransferId
    const upload: Upload
    var accepted: Option<bool>
    var acked: int
    var completed: bool
    var cancelled: bool

    // Where the thread stands: its wait, and its local variables.
    ghost var phase: Phase
    ghost var position: nat
    ghost var hashed: Bytes

    ghost function View(): Outgoing
      reads this
    {
      Outgoing(id, upload, phase, accepted, acked, completed, cancelled, position, hashed)
    }

    ghost predicate WaitsFor(condition: Condition)
      reads this
    {
      match condition
      case AnAnswer => phase == AwaitStart
      case RoomFor(index) => phase.AwaitWindow? && position == index
      case Completion => phase == AwaitComplete
    }

    constructor (manager: FileTransferManager, id: TransferId, upload: Upload)
      ensures this.manager == manager && View() == NewOutgoing(id, upload)
    {
      this.manager := manager;
      this.id := id;
      this.upload := upload;
      accepted, acked, completed, cancelled := None, -1, false, false;
      phase, position, hashed := Ready, 0, [];
    }

    method HandleAck(m: Message)
      requires m.StartAck? || m.ChunkAck? || m.CompleteAck?
      modifies this
      ensures View() == OnReply(old(View()), m)
    {
      match m
      case StartAck(_, accepted) => this.accepted := Some(accepted);
      case ChunkAck(_, index) => acked := if index > acked then index else acked;
      case CompleteAck(_) => completed := true;
    }

    method HandleAbort()
      modifies this
      ensures View() == old(View()).(cancelled := true)
    {
      cancelled := true;
    }

    method Cancel()
      modifies this, manager`sent
      ensures View() == if old(cancelled || completed) then old(View()) else old(View()).(cancelled := true)
      ensures manager.sent == old(manager.sent) + if old(cancelled || completed) then [] else [Abort(id)]
    {
      if cancelled || completed {
        return;
      }
      cancelled := true;
      manager.Send(Abort(id));
    }

    method Hear(replies: seq<Message>)
      modifies this
      ensures View() == HearAll(old(View()), replies)
    {
      for k := 0 to |replies|
        invariant HearAll(View(), replies[k..]) == HearAll(old(View()), replies)
      {
        assert replies[k..][1..] == replies[k + 1..];
        match replies[k]
        case Abort(_) => HandleAbort();
        case StartAck(_, _) => HandleAck(replies[k]);
        case ChunkAck(_, _) => HandleAck(replies[k]);
        case CompleteAck(_) => HandleAck(replies[k]);
        case _ =>
      }
    }

    method Holds(condition: Condition) returns (b: bool)
      requires WaitsFor(condition)
      ensures b == Awaited(View())
    {
      match condition
      case AnAnswer => b := accepted.Some?;
      case RoomFor(index) => b := index - acked <= CHUNK_WINDOW;
      case Completion => b := completed;
    }

    /** Waits until the condition holds, the transfer is cancelled, or time is up. */
    method Wait(condition: Condition, rounds: seq<Round>) returns (verdict: Verdict, rest: seq<Round>)
      requires WaitsFor(condition)
      modifies this
      ensures phase == old(phase) && position == old(position) && hashed == old(hashed)
      ensures verdict == OutOfRounds ==> RunThread(old(View()), rounds, manager.hash) == Waits(View(), [])
      ensures verdict == GivenUp ==> RunThread(old(View()), rounds, manager.hash) == Ends(View(), Interrupted, [])
      ensures verdict == Satisfied ==>
                && Awaited(View()) && !cancelled && |rest| < |rounds|
                && RunThread(old(View()), rounds, manager.hash) ==
                     match Resume(View(), false, manager.hash)
                     case Running(next, sent) => After(sent, RunThread(next, rest, manager.hash))
                     case Finished(outcome) => Ends(View(), outcome, [])
    {
      rest := rounds;
      while rest != []
        invariant phase == old(phase) && position == old(position) && hashed == old(hashed)
        invariant |rest| <= |rounds|
        invariant RunThread(View(), rest, manager.hash) == RunThread(old(View()), rounds, manager.hash)
        decreases |rest|
      {
        var expired := rest[0].expired;
        HearingMovesNoThread(View(), rest[0].replies);
        Hear(rest[0].replies);
        rest := rest[1..];
        var holds := Holds(condition);
        if holds {
          return if cancelled then GivenUp else Satisfied, rest;
        }
        if cancelled || expired {
          return GivenUp, rest;
        }
      }
      return OutOfRounds, rest;
    }

    /** One turn of the sending loop: the chunk just read leaves once the window has room. */
    method SendChunk(index: nat, data: Bytes, rounds: seq<Round>) returns (verdict: Verdict, rest: seq<Round>)
      requires index == position < |upload.pieces| && data == upload.pieces[index]
      modifies this, manager`sent
      ensures var course := RunThread(old(View()).(phase := AwaitWindow(data)), rounds, manager.hash);
        match verdict
        case OutOfRounds => course == Waits(View(), []) && manager.sent == old(manager.sent)
        case GivenUp => course == Ends(View(), Interrupted, []) && manager.sent == old(manager.sent)
        case Satisfied =>
          var (next, opening) := ReadNext(View(), manager.hash);
          && phase.AwaitWindow? && position == index + 1 && hashed == old(hashed) + data
          && manager.sent == old(manager.sent) + [Chunk(id, index, Some(data))]
          && course == After([Chunk(id, index, Some(data))] + opening, RunThread(next, rest, manager.hash))
    {
      phase := AwaitWindow(data);
      verdict, rest := Wait(RoomFor(index), rounds);
      if verdict == Satisfied {
        position, hashed := index + 1, hashed + data;
        manager.Send(Chunk(id, index, Some(data)));
      }
    }

    /** Reads and sends every chunk of the file, and adds up its checksum. */
    method SendChunks(rounds: seq<Round>)
      returns (verdict: Verdict, checksum: Bytes, rest: seq<Round>, ghost sent: seq<Message>)
      requires phase == AwaitStart && position == 0 && hashed == []
      modifies this, manager`sent
      ensures manager.sent == old(manager.sent) + sent
      ensures var (start, opening) := ReadNext(old(View()), manager.hash);
        var course := After(opening, RunThread(start, rounds, manager.hash));
        match verdict
        case OutOfRounds => course == Waits(View(), sent)
        case GivenUp => course == Ends(View(), Interrupted, sent)
        case Satisfied =>
          && position == |upload.pieces| && checksum == hashed
          && course == After(sent + [CompleteMessage(View(), manager.hash)],
                             RunThread(View().(phase := AwaitComplete), rest, manager.hash))
    {
      ghost var (start, opening) := ReadNext(View(), manager.hash);
      ghost var course := After(opening, RunThread(start, rounds, manager.hash));
      var index := 0;
      sent := [];
      verdict, checksum, rest := Satisfied, [], rounds;
      assert sent + opening == opening;
      while index < |upload.pieces|
        invariant index <= |upload.pieces| && index == position && checksum == hashed
        invariant verdict == Satisfied && manager.sent == old(manager.sent) + sent
        invariant var (next, opening) := ReadNext(View(), manager.hash);
          course == After(sent + opening, RunThread(next, rest, manager.hash))
      {
        var data := upload.pieces[index];
        ghost var before := RunThread(View().(phase := AwaitWindow(data)), rest, manager.hash);
        assert sent + [] == sent;
        assert course == After(sent, before);
        verdict, rest := SendChunk(index, data, rest);
        if verdict != Satisfied {
          return;
        }
        ghost var (next, opening) := ReadNext(View(), manager.hash);
        ghost var message := [Chunk(id, index, Some(data))];
        AfterAfter(sent, message + opening, RunThread(next, rest, manager.hash));
        assert sent + (message + opening) == (sent + message) + opening;
        checksum := checksum + data;
        index := index + 1;
        sent := sent + message;
      }
    }

    /** Announces the end of the file and waits for it to be saved at the other end. */
    method Conclude(checksum: Bytes, rounds: seq<Round>) returns (outcome: Option<Outcome>)
      requires checksum == hashed
      modifies this, manager`sent
      ensures manager.sent == old(manager.sent) + [Complete(id, upload.size, manager.hash(checksum))]
      ensures RunThread(old(View()).(phase := AwaitComplete), rounds, manager.hash) ==
              if outcome.Some? then Ends(View(), outcome.value, []) else Waits(View(), [])
    {
      manager.Send(Complete(id, upload.size, manager.hash(checksum)));
      phase := AwaitComplete;
      var verdict, _ := Wait(Completion, rounds);
      if verdict != Satisfied {
        return if verdict == GivenUp then Some(Interrupted) else None;
      }
      return Some(Sent);
    }

    /** The body of the sending thread.  It returns the outcome, or None when it is left
        waiting because nothing more happens. */
    method Transfer(rounds: seq<Round>) returns (outcome: Option<Outcome>, ghost sent: seq<Message>)
      requires phase == Ready && position == 0 && hashed == []
      modifies this, manager`sent
      ensures manager.sent == old(manager.sent) + [Start(id, upload.size, CHUNK_SIZE)] + sent
      ensures RunThread(old(View()).(phase := AwaitStart), rounds, manager.hash) ==
              if outcome.Some? then Ends(View(), outcome.value, sent) else Waits(View(), sent)
    {
      manager.Send(Start(id, upload.size, CHUNK_SIZE));
      phase := AwaitStart;
      sent := [];
      var verdict, rest := Wait(AnAnswer, rounds);
      if verdict != Satisfied {
        return if verdict == GivenUp then Some(Interrupted) else None, sent;
      }
      if !accepted.value {
        return Some(Refused), sent;
      }
      var checksum;
      verdict, checksum, rest, sent := SendChunks(rest);
      if verdict != Satisfied {
        return if verdict == GivenUp then Some(Interrupted) else None, sent;
      }
      sent := sent + [CompleteMessage(View(), manager.hash)];
      outcome := Conclude(checksum, rest);
      assert sent + [] == sent;
    }

    /** The whole thread: once it has ended, the manager may send another file.  `dies` says
        that an exception ends it where these rounds leave it. */
    method Run(rounds: seq<Round>, dies: bool) returns (ghost sent: seq<Message>)
      requires manager.Valid() && manager.outgoing == this
      requires phase == Ready && position == 0 && hashed == []
      modifies this, manager
      ensures manager.Valid()
      ensures manager.sent == old(manager.sent) + [Start(id, upload.size, CHUNK_SIZE)] + sent
      ensures match RunThread(old(View()).(phase := AwaitStart), rounds, manager.hash)
        case Waits(s, messages) =>
          sent == messages
          && var left := old(manager.State()).(outgoing := Some(s));
             manager.State() == if dies then Crash(left) else left
        case Ends(s, outcome, messages) =>
          sent == messages && manager.State() == EndOutgoing(old(manager.State()).(outgoing := Some(s)), outcome)
    {
      var outcome;
      outcome, sent := Transfer(rounds);
      if outcome.None? && dies {
        outcome := Some(Failed);
      }
      if outcome.Some? {
        manager.OutgoingFinished(this);
        manager.Announce(id, outcome.value);
      }
    }
  }

  class IncomingTransfer {
    const manager: FileTransferManager
    const id: TransferId
    const size: nat
    var destination: Path
    var stream: Option<Bytes>     // what went through the open temporary file
    var temporary: Option<Bytes>  // the temporary file on the disk
    var checksum: Bytes
    var expected: nat
    var received: nat

    /** Accepted, and its temporary file holds what was written. */
    ghost predicate Open()
      reads this
    {
      stream.Some? && temporary == stream
    }

    ghost function View(): Incoming
      requires stream.Some?
      reads this
    {
      Incoming(id, size, destination, stream.value, checksum, received, expected)
    }

    constructor (manager: FileTransferManager, id: TransferId, size: nat)
      ensures this.manager == manager && this.id == id && this.size == size
      ensures stream.None? && temporary.None? && checksum == [] && expected == 0 && received == 0
    {
      this.manager := manager;
      this.id := id;
      this.size := size;
      destination := "";
      stream, temporary := None, None;
      checksum, expected, received := [], 0, 0;
    }

    method Accept(destination: Path)
      requires checksum == [] && expected == 0 && received == 0
      modifies this, manager`sent
      ensures Open() && View() == NewIncoming(id, size, destination)
      ensures manager.sent == old(manager.sent) + [StartAck(id, true)]
    {
      this.destination := destination;
      stream, temporary := Some([]), Some([]);
      manager.Send(StartAck(id, true));
    }

    /** Refusing one transfer does not touch another one that is being received. */
    method Refuse()
      modifies this, manager`sent, manager`incoming
      ensures manager.sent == old(manager.sent) + [StartAck(id, false)]
      ensures manager.incoming == if old(manager.incoming) == this then null else old(manager.incoming)
    {
      manager.Send(StartAck(id, false));
      Cleanup();
    }

    method HandleChunk(index: int, data: Option<Bytes>)
      requires manager.Valid() && manager.incoming == this
      modifies this, manager
      ensures manager.Did(old(manager.State()), old(manager.sent), OnChunk(old(manager.State()), index, data))
    {
      if index != expected || data.None? {
        Abort();
        manager.Announce(id, Corrupted);
        return;
      }
      stream := Some(stream.value + data.value);
      temporary := stream;
      checksum := checksum + data.value;
      received := received + |data.value|;
      expected := expected + 1;
      manager.Send(ChunkAck(id, index));
    }

    /** `replaced` is whether the operating system lets the temporary file replace the
        destination. */
    method HandleComplete(size: nat, digest: Digest, replaced: bool)
      requires manager.Valid() && manager.incoming == this
      modifies this, manager
      ensures manager.Did(old(manager.State()), old(manager.sent),
                          OnComplete(old(manager.State()), size, digest, replaced, manager.hash))
    {
      stream := None;
      if received != size || (digest != "" && manager.hash(checksum) != digest) {
        Abort();
        manager.Announce(id, Corrupted);
        return;
      }
      if !replaced {
        Abort();
        manager.Announce(id, Failed);
        return;
      }
      manager.disk := manager.disk[destination := temporary.value];
      temporary := None;
      manager.Send(CompleteAck(id));
      Finish();
      manager.Announce(id, Received);
    }

    method Cancel()
      requires manager.Valid() && manager.incoming == this
      modifies this, manager
      ensures manager.Did(old(manager.State()), old(manager.sent), CancelReceive(old(manager.State())))
    {
      Abort();
    }

    method Abort()
      modifies this, manager`sent, manager`incoming
      ensures temporary.None? && manager.sent == old(manager.sent) + [FileTransferProtocol.Abort(id)]
      ensures manager.incoming == if old(manager.incoming) == this then null else old(manager.incoming)
    {
      manager.Send(FileTransferProtocol.Abort(id));
      Cleanup();
    }

    method HandleAbort()
      requires manager.Valid() && manager.incoming == this
      modifies this, manager
      ensures manager.Did(old(manager.State()), old(manager.sent), (EndIncoming(old(manager.State()), Interrupted), []))
    {
      Cleanup();
      manager.Announce(id, Interrupted);
    }

    method Finish()
      modifies manager`incoming
      ensures manager.incoming == if old(manager.incoming) == this then null else old(manager.incoming)
    {
      manager.IncomingFinished(this);
    }

    method Cleanup()
      modifies this, manager`incoming
      ensures stream.None? && temporary.None?
      ensures manager.incoming == if old(manager.incoming) == this then null else old(manager.incoming)
    {
      if stream.Some? {
        stream := None;
      }
      if temporary.Some? {
        temporary := None;
      }
      Finish();
    }
  }

  class FileTransferManager {
    const hash: Hash
    var outgoing: OutgoingTransfer?
    var incoming: IncomingTransfer?
    var sent: seq<Message>
    var disk: map<Path, Bytes>
    var reports: seq<Report>

    ghost predicate Valid()
      reads this, outgoing, incoming
    {
      && (outgoing != null ==> outgoing.manager == this)
      && (incoming != null ==> incoming.manager == this && incoming.Open())
    }

    ghost function State(): Endpoint
      requires Valid()
      reads this, outgoing, incoming
    {
      Endpoint(
        if outgoing == null then None else Some(outgoing.View()),
        if incoming == null then None else Some(incoming.View()),
        disk, reports)
    }

    /** The manager went from the given state to the one of the step, and sent its messages. */
    ghost predicate Did(before: Endpoint, sentBefore: seq<Message>, step: (Endpoint, seq<Message>))
      reads this, outgoing, incoming
    {
      Valid() && State() == step.0 && sent == sentBefore + step.1
    }

    constructor (hash: Hash, disk: map<Path, Bytes>)
      ensures Valid() && State() == Endpoint(None, None, disk, []) && sent == [] && this.hash == hash
    {
      this.hash := hash;
      outgoing, incoming := null, null;
      sent, this.disk, reports := [], disk, [];
    }

    method Send(m: Message)
      modifies this`sent
      ensures sent == old(sent) + [m]
    {
      sent := sent + [m];
    }

    method Announce(id: TransferId, outcome: Outcome)
      modifies this`reports
      ensures reports == old(reports) + [Report(id, outcome)]
    {
      reports := reports + [Report(id, outcome)];
    }

    method IncomingFinished(transfer: IncomingTransfer)
      modifies this`incoming
      ensures incoming == if old(incoming) == transfer then null else old(incoming)
    {
      if incoming == transfer {
        incoming := null;
      }
    }

    method OutgoingFinished(transfer: OutgoingTransfer)
      modifies this`outgoing
      ensures outgoing == if old(outgoing) == transfer then null else old(outgoing)
    {
      if outgoing == transfer {
        outgoing := null;
      }
    }

    method SendFile(id: TransferId, upload: Upload)
      requires Valid()
      modifies this
      ensures Did(old(State()), old(sent), (BeginSend(old(State()), id, upload), []))
    {
      if outgoing == null {
        outgoing := new OutgoingTransfer(this, id, upload);
      }
    }

    method HandleStart(id: TransferId, size: nat, answer: Answer)
      requires Valid()
      modifies this
      ensures Did(old(State()), old(sent), OnStart(old(State()), id, size, answer))
    {
      var transfer := new IncomingTransfer(this, id, size);
      if incoming != null {
        transfer.Refuse();
        return;
      }
      incoming := transfer;
      match answer
      case Refuse => transfer.Refuse();
      case SaveTo(path) => transfer.Accept(path);
    }

    method HandleClosing()
      requires Valid()
      modifies this, outgoing, incoming
      ensures Did(old(State()), old(sent), (Disconnect(old(State())), []))
    {
      if outgoing != null {
        outgoing.HandleAbort();
      }
      if incoming != null {
        incoming.Cleanup();
      }
    }

    /** Hands a message of the other end over to the transfer it belongs to, if any. */
    method Handle(m: Message, answer: Answer, replaced: bool)
      requires Valid()
      modifies this, outgoing, incoming
      ensures Did(old(State()), old(sent), OnMessage(old(State()), m, answer, replaced, hash))
    {
      match m
      case Start(id, size, _) => HandleStart(id, size, answer);
      case Chunk(id, index, data) =>
        if incoming != null && incoming.id == id {
          incoming.HandleChunk(index, data);
        }
      case Complete(id, size, checksum) =>
        if incoming != null && incoming.id == id {
          incoming.HandleComplete(size, checksum, replaced);
        }
      case Abort(id) =>
        if outgoing != null && outgoing.id == id {
          outgoing.HandleAbort();
        } else if incoming != null && incoming.id == id {
          incoming.HandleAbort();
        }
      case _ =>
        if outgoing != null && outgoing.id == m.id {
          outgoing.HandleAck(m);
        }
    }
  }
}
