/**
 The course of the sending thread, which its object is proved to follow, is what the atomic steps
 of a computer make of the same rounds: each message handled, and the thread let run after it.
 */
module FileTransferThreads {
  import opened Wrappers
  import opened ByteStrings
  import opened FileTransferProtocol
  import opened FileTransferObjects

  /** Acknowledgements and aborts of one transfer. */
  predicate AreReplies(id: TransferId, replies: seq<Message>)
    decreases |replies|
  {
    replies == [] ||
    (&& replies[0].id == id
     && (replies[0].StartAck? || replies[0].ChunkAck? || replies[0].CompleteAck? || replies[0].Abort?)
     && AreReplies(id, replies[1..]))
  }

  predicate AreRounds(id: TransferId, rounds: seq<Round>)
    decreases |rounds|
  {
    rounds == [] || (AreReplies(id, rounds[0].replies) && AreRounds(id, rounds[1..]))
  }

  /** The computer handles messages one after the other. */
  function HandleAll(e: Endpoint, messages: seq<Message>, hash: Hash): Endpoint
    decreases |messages|
  {
    if messages == [] then e
    else HandleAll(OnMessage(e, messages[0], Answer.Refuse, true, hash).0, messages[1..], hash)
  }

  /** In each round it handles what comes, and then its thread runs. */
  function Live(e: Endpoint, rounds: seq<Round>, hash: Hash): (Endpoint, seq<Message>)
    decreases |rounds|
  {
    if rounds == [] then (e, [])
    else
      var (e1, sent) := Wake(HandleAll(e, rounds[0].replies, hash), rounds[0].expired, hash);
      var (e2, more) := Live(e1, rounds[1..], hash);
      (e2, sent + more)
  }

  lemma {:induction false} RepliesAreHeard(e: Endpoint, s: Outgoing, replies: seq<Message>, hash: Hash)
    requires e.outgoing == Some(s) && AreReplies(s.id, replies)
    ensures HandleAll(e, replies, hash) == e.(outgoing := Some(HearAll(s, replies)))
    decreases |replies|
  {
    if replies == [] {
    } else {
      RepliesAreHeard(e.(outgoing := Some(OnReply(s, replies[0]))), OnReply(s, replies[0]), replies[1..], hash);
    }
  }

  /** Replies to a transfer that is over change nothing. */
  lemma {:induction false} LateRepliesAreIgnored(e: Endpoint, id: TransferId, replies: seq<Message>, hash: Hash)
    requires e.outgoing.None? && !Receiving(e, id) && AreReplies(id, replies)
    ensures HandleAll(e, replies, hash) == e
    decreases |replies|
  {
    if replies == [] {
    } else {
      LateRepliesAreIgnored(e, id, replies[1..], hash);
    }
  }

  lemma {:induction false} NothingFollows(e: Endpoint, id: TransferId, rounds: seq<Round>, hash: Hash)
    requires e.outgoing.None? && !Receiving(e, id) && AreRounds(id, rounds)
    ensures Live(e, rounds, hash) == (e, [])
    decreases |rounds|
  {
    if rounds == [] {
    } else {
      LateRepliesAreIgnored(e, id, rounds[0].replies, hash);
      NothingFollows(e, id, rounds[1..], hash);
      var none: seq<Message> := [];
      assert none + none == none;
    }
  }

  /** Where the thread leaves its computer. */
  function LeftBy(e: Endpoint, t: Thread): Endpoint {
    match t
    case Waits(s, _) => e.(outgoing := Some(s))
    case Ends(s, outcome, _) => EndOutgoing(e.(outgoing := Some(s)), outcome)
  }

  lemma OneRound(e: Endpoint, s: Outgoing, rounds: seq<Round>, hash: Hash,
                 h: Outgoing, e': Endpoint, sent: seq<Message>)
    requires rounds != [] && e.outgoing == Some(s) && AreReplies(s.id, rounds[0].replies)
    requires h == HearAll(s, rounds[0].replies)
    requires (e', sent) == Wake(e.(outgoing := Some(h)), rounds[0].expired, hash)
    ensures Live(e, rounds, hash) == (Live(e', rounds[1..], hash).0, sent + Live(e', rounds[1..], hash).1)
  {
    RepliesAreHeard(e, s, rounds[0].replies, hash);
  }

  /** Whatever reaches the thread in its rounds, and whenever its waits time out, it sends the
      messages and leaves its computer as the steps of the computer do, and once it has ended
      nothing that still comes for the transfer does anything. */
  lemma {:induction false} ThreadIsTheComputers(e: Endpoint, s: Outgoing, rounds: seq<Round>, hash: Hash)
    requires e.outgoing == Some(s) && !Receiving(e, s.id) && AreRounds(s.id, rounds)
    ensures var t := RunThread(s, rounds, hash);
      Live(e, rounds, hash) == (LeftBy(e, t), t.sent)
    decreases |rounds|
  {
    if rounds == [] {
    } else {
      var h := HearAll(s, rounds[0].replies);
      HearingMovesNoThread(s, rounds[0].replies);
      var e1 := e.(outgoing := Some(h));
      var (e', sent) := Wake(e1, rounds[0].expired, hash);
      OneRound(e, s, rounds, hash, h, e', sent);
      match Resume(h, rounds[0].expired, hash) {
        case Blocked =>
          ThreadIsTheComputers(e1, h, rounds[1..], hash);
          assert [] + Live(e1, rounds[1..], hash).1 == Live(e1, rounds[1..], hash).1;
        case Running(next, _) =>
          ThreadIsTheComputers(e', next, rounds[1..], hash);
        case Finished(outcome) =>
          NothingFollows(e', s.id, rounds[1..], hash);
      }
    }
  }
}
