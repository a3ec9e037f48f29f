/**
 Where each key event goes, told from what happened before it: to the controlled computer, to this
 one, or to a script that stays here.
 */
module KeyPlaces {
  import opened Wrappers
  import opened ByteStrings
  import opened KeyForwarding
  import opened KeyRuns

  // ----- the reference: what is known from the past

  /** Whether an action leaves the keyboard with the controlled computer. */
  predicate AwayAfter(away: bool, a: Action) {
    match a
    case SendKeys(link, controlled, _, _, _) => if away then !link.connected && controlled else link.IsUp()
    case RequestLocalControl(link, _, _) => away && !link.connected
    case AudioSources(_, afterwards, _, _) => away && afterwards.IsUp()
    case ScreenShareEnds(_, _, _) => false
    case TakeControl(link, _) => away || link.IsUp()
    case Disconnecting => false
    case _ => away
  }

  predicate IsAway(actions: seq<Action>)
    decreases |actions|
  {
    actions != [] && AwayAfter(IsAway(actions[..|actions| - 1]), actions[|actions| - 1])
  }

  function KeysOfGesture(gesture: Option<Gesture>): multiset<Key> {
    if gesture == None then multiset{} else multiset(gesture.value.modifiers) + multiset{gesture.value.key}
  }

  /** The keys of the gesture that sends the keyboard over are awaited, as often as they are in it,
      less one for each release; all are forgotten when the keyboard comes back, and when the link
      or the controlled computer is found to be gone. */
  function AwaitedAfter(awaited: multiset<Key>, away: bool, a: Action): multiset<Key> {
    if !AwayAfter(away, a) then multiset{}
    else
      match a
      case SendKeys(_, _, gesture, _, _) => if away then awaited else KeysOfGesture(gesture)
      case TakeControl(_, gesture) => if away then awaited else KeysOfGesture(gesture)
      case AudioSources(_, _, _, _) => multiset{}
      case RawKey(link, e) =>
        if e.injected then awaited
        else if !link.IsUp() then multiset{}
        else if e.pressed then awaited
        else awaited - multiset{e.key}
      case ClientLeft(link) => if link.IsUp() then awaited else multiset{}
      case NotConnected => multiset{}
      case ConnectionLost => multiset{}
      case _ => awaited
  }

  /** The keys whose next release is for this computer. */
  function AwaitedKeys(actions: seq<Action>): multiset<Key>
    decreases |actions|
  {
    if actions == [] then multiset{}
    else
      var n := |actions| - 1;
      AwaitedAfter(AwaitedKeys(actions[..n]), IsAway(actions[..n]), actions[n])
  }

  /** Where an event goes; nowhere when another part of the add-on made it. */
  datatype Place = There | Here | Script | Nowhere

  function PlaceOf(m: Modifiers, away: bool, awaited: multiset<Key>, ignoring: bool, link: Link, e: KeyEvent): Place {
    if e.injected then Nowhere
    else if !away || !link.IsUp() then Here
    else if !e.pressed && e.key in awaited then Here
    else if e.pressed && e.key !in m && e.guestScript && !ignoring then Script
    else There
  }

  /** A key pressed there that is no modifier uses up the wish to have a gesture sent over. */
  predicate IgnoringAfter(m: Modifiers, ignoring: bool, awaited: multiset<Key>, away: bool, a: Action) {
    match a
    case IgnoreNextGesture(link) => ignoring || (link.connected && away)
    case RawKey(link, e) =>
      ignoring && !(e.pressed && e.key !in m && PlaceOf(m, away, awaited, ignoring, link, e) == There)
    case _ => ignoring
  }

  /** Whether the user asked for the next gesture to be sent over, and none has come since. */
  predicate IsIgnoring(m: Modifiers, actions: seq<Action>)
    decreases |actions|
  {
    && actions != []
    && var n := |actions| - 1;
       var before := actions[..n];
       IgnoringAfter(m, IsIgnoring(m, before), AwaitedKeys(before), IsAway(before), actions[n])
  }

  // ----- the state says the same

  function Pending(s: State): multiset<Key> {
    multiset(s.pendingModifiers) + if s.pendingKey == None then multiset{} else multiset{s.pendingKey.value}
  }

  lemma PendingAfterRelease(s: State, k: Key)
    ensures k in s.pendingModifiers ==>
      Pending(s.(pendingModifiers := s.pendingModifiers - {k})) == Pending(s) - multiset{k}
    ensures k !in s.pendingModifiers && s.pendingKey == Some(k) ==>
      Pending(s.(pendingKey := None)) == Pending(s) - multiset{k}
    ensures k in Pending(s) <==> IsAwaited(s, k)
    ensures !IsAwaited(s, k) ==> Pending(s) - multiset{k} == Pending(s)
  {
  }

  ghost predicate Knows(s: State, away: bool, awaited: multiset<Key>, ignoring: bool) {
    s.sendingKeys == away && Pending(s) == awaited && s.ignoreGesture == ignoring && (!away ==> awaited == multiset{})
  }

  lemma PlaceInState(m: Modifiers, s: State, away: bool, awaited: multiset<Key>, ignoring: bool,
                     link: Link, e: KeyEvent)
    requires Knows(s, away, awaited, ignoring)
    ensures var (effect, passedOn) := OnKey(m, link, s, e);
      var place := PlaceOf(m, away, awaited, ignoring, link, e);
      && effect.sent == (if place == There then [Message(e.key, e.pressed)] else [])
      && (passedOn <==> place == Here)
  {
    PendingAfterRelease(s, e.key);
  }

  lemma RecordedIsKnown(m: Modifiers, s: State, e: KeyEvent)
    ensures var after := Recorded(m, s, e);
      && Pending(after) == Pending(s) && after.sendingKeys == s.sendingKeys
      && after.ignoreGesture == (s.ignoreGesture && !(e.pressed && e.key !in m))
  {
  }

  /** What becomes of an event that is neither injected nor met with the link gone. */
  lemma LiveKeyIsKnown(m: Modifiers, link: Link, s: State, e: KeyEvent)
    requires s.sendingKeys && link.IsUp() && !e.injected
    ensures var after := OnKey(m, link, s, e).0.after;
      && after.sendingKeys
      && Pending(after) == (if e.pressed then Pending(s) else Pending(s) - multiset{e.key})
      && after.ignoreGesture == (s.ignoreGesture && !(e.pressed && e.key !in m))
  {
    PendingAfterRelease(s, e.key);
    RecordedIsKnown(m, s, e);
  }

  lemma KeyIsKnown(m: Modifiers, s: State, away: bool, awaited: multiset<Key>, ignoring: bool, link: Link, e: KeyEvent)
    requires Knows(s, away, awaited, ignoring)
    ensures var a, after := RawKey(link, e), OnKey(m, link, s, e).0.after;
      && after.sendingKeys == AwayAfter(away, a)
      && Pending(after) == AwaitedAfter(awaited, away, a)
      && after.ignoreGesture == IgnoringAfter(m, ignoring, awaited, away, a)
  {
    if away && link.IsUp() && !e.injected {
      LiveKeyIsKnown(m, link, s, e);
    } else {
      ClearedIsKnown(s);
    }
  }

  lemma ClearedIsKnown(s: State)
    ensures Pending(Cleared(s)) == multiset{}
    ensures Cleared(s).sendingKeys == s.sendingKeys && Cleared(s).ignoreGesture == s.ignoreGesture
  {
  }

  lemma SwitchedIsKnown(s: State, gesture: Option<Gesture>)
    ensures Pending(Switched(s, gesture)) == KeysOfGesture(gesture)
    ensures Switched(s, gesture).sendingKeys && Switched(s, gesture).ignoreGesture == s.ignoreGesture
  {
  }

  lemma ToggleIsKnown(m: Modifiers, s: State, away: bool, awaited: multiset<Key>, a: Action)
    requires Knows(s, away, awaited, s.ignoreGesture) && a.SendKeys?
    ensures var after := Step(m, s, a).after;
      && after.sendingKeys == AwayAfter(away, a)
      && Pending(after) == AwaitedAfter(awaited, away, a)
      && after.ignoreGesture == s.ignoreGesture
  {
    if s.sendingKeys {
      ClearedIsKnown(s);
    } else {
      SwitchedIsKnown(s, a.gesture);
    }
  }

  lemma RequestIsKnown(m: Modifiers, s: State, away: bool, awaited: multiset<Key>, a: Action)
    requires Knows(s, away, awaited, s.ignoreGesture) && a.RequestLocalControl?
    ensures var after := Step(m, s, a).after;
      && after.sendingKeys == AwayAfter(away, a)
      && Pending(after) == AwaitedAfter(awaited, away, a)
      && after.ignoreGesture == s.ignoreGesture
  {
    ClearedIsKnown(s);
  }

  lemma TakingIsKnown(m: Modifiers, s: State, away: bool, awaited: multiset<Key>, a: Action)
    requires Knows(s, away, awaited, s.ignoreGesture) && a.TakeControl?
    ensures var after := Step(m, s, a).after;
      && after.sendingKeys == AwayAfter(away, a)
      && Pending(after) == AwaitedAfter(awaited, away, a)
      && after.ignoreGesture == s.ignoreGesture
  {
    SwitchedIsKnown(s, a.gesture);
  }

  lemma LoanIsKnown(m: Modifiers, s: State, away: bool, awaited: multiset<Key>, a: Action)
    requires Knows(s, away, awaited, s.ignoreGesture) && a.AudioSources?
    ensures var after := Step(m, s, a).after;
      && after.sendingKeys == AwayAfter(away, a)
      && Pending(after) == AwaitedAfter(awaited, away, a)
      && after.ignoreGesture == s.ignoreGesture
  {
    ClearedIsKnown(s);
    SwitchedIsKnown(Returned(s, a.link, true, a.masked, a.order).after, None);
  }

  lemma LossIsKnown(m: Modifiers, s: State, away: bool, awaited: multiset<Key>, a: Action)
    requires Knows(s, away, awaited, s.ignoreGesture)
    requires a.ScreenShareEnds? || a.ClientLeft? || a.NotConnected? || a.ConnectionLost? || a.Disconnecting?
    ensures var after := Step(m, s, a).after;
      && after.sendingKeys == AwayAfter(away, a)
      && Pending(after) == AwaitedAfter(awaited, away, a)
      && after.ignoreGesture == s.ignoreGesture
  {
    ClearedIsKnown(s);
  }

  lemma OtherIsKnown(m: Modifiers, s: State, away: bool, awaited: multiset<Key>, ignoring: bool, a: Action)
    requires Knows(s, away, awaited, ignoring) && !a.RawKey?
    ensures var after := Step(m, s, a).after;
      && after.sendingKeys == AwayAfter(away, a)
      && Pending(after) == AwaitedAfter(awaited, away, a)
      && after.ignoreGesture == IgnoringAfter(m, ignoring, awaited, away, a)
  {
    if a.SendKeys? {
      ToggleIsKnown(m, s, away, awaited, a);
    } else if a.RequestLocalControl? {
      RequestIsKnown(m, s, away, awaited, a);
    } else if a.TakeControl? {
      TakingIsKnown(m, s, away, awaited, a);
    } else if a.AudioSources? {
      LoanIsKnown(m, s, away, awaited, a);
    } else if !a.IgnoreNextGesture? {
      LossIsKnown(m, s, away, awaited, a);
    }
  }

  lemma {:induction false} PastIsKnown(m: Modifiers, actions: seq<Action>)
    ensures Knows(Run(m, actions).now, IsAway(actions), AwaitedKeys(actions), IsIgnoring(m, actions))
    decreases |actions|
  {
    if actions == [] {
    } else {
      var n := |actions| - 1;
      var before, s := actions[..n], Run(m, actions[..n]).now;
      PastIsKnown(m, before);
      match actions[n]
      case RawKey(link, e) => KeyIsKnown(m, s, IsAway(before), AwaitedKeys(before), IsIgnoring(m, before), link, e);
      case _ => OtherIsKnown(m, s, IsAway(before), AwaitedKeys(before), IsIgnoring(m, before), actions[n]);
    }
  }

  function PlaceAfter(m: Modifiers, before: seq<Action>, link: Link, e: KeyEvent): Place {
    PlaceOf(m, IsAway(before), AwaitedKeys(before), IsIgnoring(m, before), link, e)
  }

  /** In every run, whatever becomes of the link, an event that was not injected goes to exactly
      one place: it is told to the controlled computer, passed on here, or kept for a script.  It
      is told, as it is, exactly when the keyboard is away, the link is up, it is not a release
      that this computer awaits, and no script of this computer takes it. */
  lemma {:induction false} EveryKeyGoesToOnePlace(m: Modifiers, before: seq<Action>, link: Link, e: KeyEvent)
    ensures var (effect, passedOn) := OnKey(m, link, Run(m, before).now, e);
      var place := PlaceAfter(m, before, link, e);
      && effect.sent == (if place == There then [Message(e.key, e.pressed)] else [])
      && (passedOn <==> place == Here)
      && (!e.injected ==>
            (place == There <==>
               && IsAway(before) && link.IsUp()
               && !(!e.pressed && e.key in AwaitedKeys(before))
               && !(e.pressed && e.key !in m && e.guestScript && !IsIgnoring(m, before))))
  {
    PastIsKnown(m, before);
    PlaceInState(m, Run(m, before).now, IsAway(before), AwaitedKeys(before), IsIgnoring(m, before), link, e);
  }
}
