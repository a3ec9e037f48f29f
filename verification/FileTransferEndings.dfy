/**
 Transfers that the receiver does not take: declined at the start, because its user says no or it
 is busy, or given up later, because its user cancels or the file cannot be saved.  On a reliable
 link the sender is told, whatever the interleaving, and both ends are free again.  And one that
 it takes, from the moment a user asks for it.
 */
module FileTransferEndings {
  import opened Wrappers
  import opened ByteStrings
  import opened FileTransferProtocol
  import opened FileTransferFifo

  // ----- declined at the start

  /** The other computer is receiving already, or its user will say no. */
  predicate Declines(j: Job, l: Link) {
    l.b.incoming.Some? || j.answer.Refuse?
  }

  /** The link after so many moves of a transfer that is declined. */
  function Declining(j: Job, start: Link, made: nat): Link {
    var waiting := NewOutgoing(j.id, j.upload).(phase := AwaitStart);
    match made
    case 0 => start
    case 1 =>
      start.(a := start.a.(outgoing := Some(waiting)), toB := [Start(j.id, j.upload.size, CHUNK_SIZE)])
    case 2 => start.(a := start.a.(outgoing := Some(waiting)), toA := [StartAck(j.id, false)])
    case 3 => start.(a := start.a.(outgoing := Some(waiting.(accepted := Some(false)))))
    case _ =>
      start.(a := start.a.(outgoing := None, reports := start.a.reports + [Report(j.id, Refused)]))
  }

  /** The only move there is, or none. */
  lemma DecliningMoves(j: Job, start: Link, made: nat, move: Move)
    requires Requested(j, start) && Declines(j, start) && made <= 4
    ensures made < 4 ==> Enabled(j, Declining(j, start, made), if made == 1 then ReceiverReads
                                                               else if made == 2 then SenderReads else SenderRuns)
    ensures Enabled(j, Declining(j, start, made), move) ==>
      made < 4 && Next(j, Declining(j, start, made), move) == Declining(j, start, made + 1)
  {
    var l := Declining(j, start, made);
    if made == 1 {
      assert l.toB[1..] == [];
    } else if made == 2 {
      assert l.toA[1..] == [] && l.toB == [];
    }
  }

  /** A transfer that the other end declines is over after exactly four moves: the sender reports
      that it was refused and is free again, and at no moment is anything else changed at either
      end, so a file being received goes on and no disk is touched. */
  lemma {:induction false} DeclinedTransferEnds(j: Job, start: Link, moves: seq<Move>)
    requires Requested(j, start) && Declines(j, start) && Possible(j, start, moves)
    ensures |moves| <= 4 && Run(j, start, moves) == Declining(j, start, |moves|)
    ensures Run(j, start, moves).b == start.b && Run(j, start, moves).a.disk == start.a.disk
    ensures Run(j, start, moves).a.outgoing.Some? ==> Run(j, start, moves).a.outgoing.value.accepted != Some(true)
    ensures |moves| == 4 ==>
      Run(j, start, moves) ==
      start.(a := start.a.(outgoing := None, reports := start.a.reports + [Report(j.id, Refused)]))
    ensures |moves| < 4 ==> exists move :: Possible(j, start, moves + [move])
  {
    RunIsDeclining(j, start, 0, moves);
    var k := |moves|;
    DecliningMoves(j, start, k, SenderRuns);
    if k < 4 {
      RunSnoc(j, start, moves, if k == 1 then ReceiverReads else if k == 2 then SenderReads else SenderRuns);
    }
  }

  lemma {:induction false} RunIsDeclining(j: Job, start: Link, made: nat, moves: seq<Move>)
    requires Requested(j, start) && Declines(j, start) && made <= 4
    requires Possible(j, Declining(j, start, made), moves)
    ensures made + |moves| <= 4
    ensures Run(j, Declining(j, start, made), moves) == Declining(j, start, made + |moves|)
    decreases |moves|
  {
    if moves == [] {
    } else {
      DecliningMoves(j, start, made, moves[0]);
      RunIsDeclining(j, start, made + 1, moves[1..]);
    }
  }

  /** Over every run, whatever the answer: a sender that believes it was accepted was, by a receiver
      that opened the transfer under the path its user named, and that has it still or saved it. */
  lemma {:induction false} AcceptedMeansOpened(j: Job, start: Link, moves: seq<Move>)
    requires Unchanging(j.upload) && Requested(j, start) && Possible(j, start, moves)
    ensures var l := Run(j, start, moves);
      l.a.outgoing.Some? && l.a.outgoing.value.accepted == Some(true) ==>
        && start.b.incoming.None? && j.answer.SaveTo?
        && if Receiving(l.b, j.id) then l.b.incoming.value.destination == j.answer.path
           else j.answer.path in l.b.disk && l.b.disk[j.answer.path] == Content(j.upload)
  {
    if Declines(j, start) {
      DeclinedTransferEnds(j, start, moves);
    } else {
      var stage := RunAdvances(j, start, Asking, moves);
    }
  }

  // ----- given up later

  /** The user of the receiver cancels; or it reads the end of the file, and the operating system
      does or does not let it replace the destination. */
  datatype GivingUp = UserCancels | EndIsRead(replaced: bool)

  /** A file whose size holds, and that can replace the destination, is not given up. */
  ghost predicate CanGiveUp(j: Job, l: Link, why: GivingUp) {
    && l.b.incoming.Some?
    && (why.EndIsRead? ==> l.toB != [] && l.toB[0].Complete? && !(why.replaced && SizeHolds(j)))
  }

  function GivenUp(j: Job, l: Link, why: GivingUp): Link
    requires why.EndIsRead? ==> l.toB != []
  {
    match why
    case UserCancels =>
      var (b, sent) := CancelReceive(l.b);
      l.(b := b, toA := l.toA + sent)
    case EndIsRead(replaced) =>
      var (b, sent) := OnMessage(l.b, l.toB[0], j.answer, replaced, j.hash);
      l.(b := b, toB := l.toB[1..], toA := l.toA + sent)
  }

  /** Acknowledgements, and then the abort. */
  predicate EndsInAbort(j: Job, messages: seq<Message>)
    decreases |messages|
  {
    && messages != []
    && if |messages| == 1 then messages[0] == Abort(j.id)
       else (messages[0].ChunkAck? || messages[0] == StartAck(j.id, true)) && EndsInAbort(j, messages[1..])
  }

  predicate HasNoStart(messages: seq<Message>)
    decreases |messages|
  {
    messages == [] || (!messages[0].Start? && HasNoStart(messages[1..]))
  }

  /** The receiver gave the transfer up, and the abort is on its way, or arrived, or ended it. */
  ghost predicate Withdrawn(j: Job, l: Link) {
    && l.a.incoming.None? && l.b.incoming.None? && l.b.outgoing.None? && HasNoStart(l.toB)
    && match l.a.outgoing
       case None =>
         l.toA == [] && l.a.reports != [] && l.a.reports[|l.a.reports| - 1] == Report(j.id, Interrupted)
       case Some(s) =>
         && s.id == j.id && s.upload == j.upload && !s.phase.Ready?
         && s.index <= |j.upload.pieces| && (s.phase.AwaitWindow? ==> s.index < |j.upload.pieces|)
         && if s.cancelled then l.toA == []
            else EndsInAbort(j, l.toA) && !s.completed && (s.phase.AwaitStart? ==> s.accepted != Some(false))
  }

  /** The most that a sender still sends and reads before its last turn. */
  function TurnsLeft(s: Outgoing): int {
    var unsent := |s.upload.pieces| - s.index;
    match s.phase
    case AwaitWindow(_) => 2 * unsent + 2
    case AwaitComplete => 1
    case _ => 2 * unsent + 3
  }

  /** A bound on the moves that can still be made. */
  function Bound(l: Link): int {
    |l.toA| + |l.toB| + match l.a.outgoing case None => 0 case Some(s) => TurnsLeft(s)
  }

  lemma {:induction false} NoStartConcat(x: seq<Message>, y: seq<Message>)
    requires HasNoStart(x) && HasNoStart(y)
    ensures HasNoStart(x + y)
    decreases |x|
  {
    if x == [] {
      assert x + y == y;
    } else {
      assert (x + y)[1..] == x[1..] + y;
      NoStartConcat(x[1..], y);
    }
  }

  /** What the thread does on its way, and what it does once it is cancelled. */
  lemma WithdrawnThread(s: Outgoing, hash: Hash)
    requires !s.phase.Ready? && s.index <= |s.upload.pieces|
    requires s.phase.AwaitWindow? ==> s.index < |s.upload.pieces|
    requires !s.cancelled ==> !s.completed && (s.phase.AwaitStart? ==> s.accepted != Some(false))
    ensures s.cancelled ==> Resume(s, false, hash) == Finished(Interrupted)
    ensures !s.cancelled ==>
      match Resume(s, false, hash)
      case Blocked => true
      case Finished(_) => false
      case Running(next, sent) =>
        && next.id == s.id && next.upload == s.upload
        && !next.phase.Ready? && !next.phase.AwaitStart? && !next.completed && !next.cancelled
        && next.index <= |s.upload.pieces| && (next.phase.AwaitWindow? ==> next.index < |s.upload.pieces|)
        && |sent| <= 2 && (forall m :: m in sent ==> !m.Start?)
        && TurnsLeft(next) + |sent| < TurnsLeft(s)
  {
  }

  lemma ShortRowHasNoStart(messages: seq<Message>)
    requires |messages| <= 2 && forall m :: m in messages ==> !m.Start?
    ensures HasNoStart(messages)
  {
    if |messages| > 0 {
      assert messages[0] in messages;
    }
    if |messages| > 1 {
      assert messages[1] in messages;
    }
  }

  lemma SenderRunsOn(j: Job, l: Link)
    requires Withdrawn(j, l) && Enabled(j, l, SenderRuns)
    ensures var l' := Next(j, l, SenderRuns);
      Withdrawn(j, l') && l'.b == l.b && 0 <= Bound(l') < Bound(l)
  {
    var s := l.a.outgoing.value;
    WithdrawnThread(s, j.hash);
    if s.cancelled {
      assert l.toB + [] == l.toB;
    } else {
      var sent := Resume(s, false, j.hash).sent;
      ShortRowHasNoStart(sent);
      NoStartConcat(l.toB, sent);
    }
  }

  lemma SenderHearsOn(j: Job, l: Link)
    requires Withdrawn(j, l) && Enabled(j, l, SenderReads)
    ensures var l' := Next(j, l, SenderReads);
      Withdrawn(j, l') && l'.b == l.b && 0 <= Bound(l') < Bound(l)
  {
    assert l.toB + [] == l.toB;
  }

  lemma ReceiverReadsOn(j: Job, l: Link)
    requires Withdrawn(j, l) && Enabled(j, l, ReceiverReads)
    ensures var l' := Next(j, l, ReceiverReads);
      Withdrawn(j, l') && l'.b == l.b && 0 <= Bound(l') < Bound(l)
  {
    assert l.toA + [] == l.toA;
  }

  lemma {:induction false} WithdrawnRun(j: Job, l: Link, moves: seq<Move>)
    requires Withdrawn(j, l) && Possible(j, l, moves)
    ensures Withdrawn(j, Run(j, l, moves)) && Run(j, l, moves).b == l.b
    ensures Bound(l) >= 0 && |moves| <= Bound(l)
    decreases |moves|
  {
    if moves == [] {
    } else {
      match moves[0] {
        case SenderRuns => SenderRunsOn(j, l);
        case SenderReads => SenderHearsOn(j, l);
        case ReceiverReads => ReceiverReadsOn(j, l);
      }
      WithdrawnRun(j, Next(j, l, moves[0]), moves[1..]);
    }
  }

  lemma {:induction false} AcksThenAbort(j: Job, lo: nat, hi: nat)
    requires lo <= hi
    ensures EndsInAbort(j, Acks(j, lo, hi) + [Abort(j.id)])
    decreases hi - lo
  {
    var row := Acks(j, lo, hi) + [Abort(j.id)];
    if lo == hi {
      assert row == [Abort(j.id)];
    } else {
      AcksThenAbort(j, lo + 1, hi);
      assert row[1..] == Acks(j, lo + 1, hi) + [Abort(j.id)];
    }
  }

  lemma {:induction false} ChunksHaveNoStart(j: Job, lo: nat, hi: nat, ending: seq<Message>)
    requires lo <= hi <= |j.upload.pieces| && HasNoStart(ending)
    ensures HasNoStart(Chunks(j, lo, hi) + ending)
    decreases hi - lo
  {
    if lo == hi {
      assert [] + ending == ending;
    } else {
      ChunksHaveNoStart(j, lo + 1, hi, ending);
      assert (Chunks(j, lo, hi) + ending)[1..] == Chunks(j, lo + 1, hi) + ending;
    }
  }

  /** What is on its way at a moment when the receiver has the transfer. */
  lemma QueuesWhileOpen(j: Job, l: Link, stage: Stage)
    requires At(j, l, stage) && l.b.incoming.Some?
    ensures Alive(j, l) && !l.a.outgoing.value.phase.Ready? && !l.a.outgoing.value.completed
    ensures l.a.outgoing.value.phase.AwaitStart? ==> l.a.outgoing.value.accepted != Some(false)
    ensures l.b.outgoing.None? && l.b.incoming.value.id == j.id
    ensures HasNoStart(l.toB) && EndsInAbort(j, l.toA + [Abort(j.id)])
    ensures l.toB != [] && l.toB[0].Complete? ==> l.toB == [Completion(j)]
  {
    var s, r := l.a.outgoing.value, l.b.incoming.value;
    if stage == Streaming {
      ChunksHaveNoStart(j, r.expected, s.index, Ending(j, s));
      AcksThenAbort(j, s.acked + 1, r.expected);
    } else if stage == Answered {
      var row := l.toA + [Abort(j.id)];
      assert row[1..] == [Abort(j.id)];
    } else {
      assert l.toA + [Abort(j.id)] == [Abort(j.id)];
    }
  }

  lemma GivenUpIsWithdrawn(j: Job, l: Link, stage: Stage, why: GivingUp)
    requires At(j, l, stage) && CanGiveUp(j, l, why)
    ensures Withdrawn(j, GivenUp(j, l, why)) && GivenUp(j, l, why).b.disk == l.b.disk
    ensures GivenUp(j, l, why).a == l.a && GivenUp(j, l, why).toA == l.toA + [Abort(j.id)]
  {
    QueuesWhileOpen(j, l, stage);
    match why
    case UserCancels =>
    case EndIsRead(replaced) =>
      assert l.toB == [Completion(j)] && l.toB[1..] == [];
      EndIsRefused(j, l, replaced);
  }

  lemma EndIsRefused(j: Job, l: Link, replaced: bool)
    requires l.b.incoming.Some? && l.b.incoming.value.id == j.id && l.b.outgoing.None?
    requires Open(j, l) && l.b.incoming.value.expected == |j.upload.pieces| && !(replaced && SizeHolds(j))
    ensures var (b, sent) := OnMessage(l.b, Completion(j), j.answer, replaced, j.hash);
      b.incoming.None? && b.outgoing.None? && b.disk == l.b.disk && sent == [Abort(j.id)]
  {
    assert j.upload.pieces[..|j.upload.pieces|] == j.upload.pieces;
  }

  /** Both ends are free, nothing is on its way, and the sender said that it was interrupted. */
  ghost predicate IsOver(j: Job, l: Link) {
    && l.a.outgoing.None? && l.b.incoming.None? && l.toA == [] && l.toB == []
    && l.a.reports != [] && l.a.reports[|l.a.reports| - 1] == Report(j.id, Interrupted)
  }

  /** Whenever the receiver gives a transfer up, because its user cancels, the file that arrived is
      not of the announced size or cannot replace the destination, its disk stays as it is, and
      the abort it sends ends the transfer at both ends: whatever the interleaving from then on,
      only so many moves can follow, and when none can, both ends are free and the sender has
      reported that it was interrupted. */
  lemma {:induction false} GivenUpTransferEnds(j: Job, start: Link, moves: seq<Move>, why: GivingUp, more: seq<Move>)
    requires Initial(j, start) && Possible(j, start, moves)
    requires CanGiveUp(j, Run(j, start, moves), why)
    requires Possible(j, GivenUp(j, Run(j, start, moves), why), more)
    ensures var l := GivenUp(j, Run(j, start, moves), why);
      && |more| <= Bound(l)
      && Run(j, l, more).b == l.b && l.b.disk == Run(j, start, moves).b.disk
      && (IsOver(j, Run(j, l, more)) <==> !exists move :: Possible(j, l, more + [move]))
  {
    var stage := RunReaches(j, start, Some(Asking), moves);
    assert stage.Some?;
    var l := GivenUp(j, Run(j, start, moves), why);
    GivenUpIsWithdrawn(j, Run(j, start, moves), stage.value, why);
    WithdrawnRun(j, l, more);
    OverExactlyWhenNothingMoves(j, Run(j, l, more));
    forall move
      ensures Possible(j, l, more + [move]) <==> Enabled(j, Run(j, l, more), move)
    {
      PossibleSnocExactly(j, l, more, move);
    }
  }

  lemma OverExactlyWhenNothingMoves(j: Job, l: Link)
    requires Withdrawn(j, l)
    ensures IsOver(j, l) <==> !exists move :: Enabled(j, l, move)
  {
    if l.toA != [] {
      assert Enabled(j, l, SenderReads);
    } else if l.toB != [] {
      assert Enabled(j, l, ReceiverReads);
    } else if l.a.outgoing.Some? {
      WithdrawnThread(l.a.outgoing.value, j.hash);
      assert Enabled(j, l, SenderRuns);
    }
  }

  lemma {:induction false} PossibleSnocExactly(j: Job, l: Link, moves: seq<Move>, move: Move)
    requires Possible(j, l, moves)
    ensures Possible(j, l, moves + [move]) <==> Enabled(j, Run(j, l, moves), move)
    decreases |moves|
  {
    if moves == [] {
      assert moves + [move] == [move] && [move][1..] == [];
    } else {
      assert (moves + [move])[1..] == moves[1..] + [move];
      PossibleSnocExactly(j, Next(j, l, moves[0]), moves[1..], move);
    }
  }

  // ----- asked for

  /** Nothing is sent or received, and nothing is on its way. */
  predicate IsQuiet(l: Link) {
    l.a.outgoing.None? && l.a.incoming.None? && l.b.outgoing.None? && l.b.incoming.None? && l.toA == [] && l.toB == []
  }

  /** On a quiet link it is enough that the user asks for a file to be sent and the other user names a
      path: after 3n + 7 moves, whatever their order, the file of n chunks is there, both ends have
      reported it, and the link is quiet again. */
  lemma {:induction false} AskedFileArrives(j: Job, l: Link, moves: seq<Move>)
    requires IsQuiet(l) && Unchanging(j.upload) && j.answer.SaveTo?
    requires Possible(j, l.(a := BeginSend(l.a, j.id, j.upload)), moves) && |moves| == 3 * |j.upload.pieces| + 7
    ensures var l' := Run(j, l.(a := BeginSend(l.a, j.id, j.upload)), moves);
      IsQuiet(l') && Completed(j, l')
  {
    var start := l.(a := BeginSend(l.a, j.id, j.upload));
    EveryTransferCompletes(j, start, moves);
    QuietAtTheOtherEnds(j, start, moves);
  }

  /** The sender never receives, and the receiver never sends. */
  lemma {:induction false} QuietAtTheOtherEnds(j: Job, l: Link, moves: seq<Move>)
    requires l.a.incoming.None? && l.b.outgoing.None? && HasNoStart(l.toA) && Possible(j, l, moves)
    ensures var l' := Run(j, l, moves); l'.a.incoming.None? && l'.b.outgoing.None?
    decreases |moves|
  {
    if moves == [] {
    } else {
      var l' := Next(j, l, moves[0]);
      if moves[0] == ReceiverReads {
        var sent := OnMessage(l.b, l.toB[0], j.answer, true, j.hash).1;
        ShortRowHasNoStart(sent);
        NoStartConcat(l.toA, sent);
      }
      QuietAtTheOtherEnds(j, l', moves[1..]);
    }
  }
}
