/**
 Runs of the key forwarding, with the relay and the controlled computer coming and going, and
 what the controlled computer was told meanwhile.
 */
module KeyRuns {
  import opened Wrappers
  import opened ByteStrings
  import opened KeyForwarding

  /** What happens to the keyboard; `link` is how things stand then. */
  datatype Action =
    | RawKey(link: Link, event: KeyEvent)
    | SendKeys(link: Link, controlled: bool, gesture: Option<Gesture>, masked: bool, order: seq<Key>)
    | RequestLocalControl(link: Link, masked: bool, order: seq<Key>)
    | AudioSources(link: Link, afterwards: Link, masked: bool, order: seq<Key>)
    | ScreenShareEnds(link: Link, masked: bool, order: seq<Key>)
    | TakeControl(link: Link, gesture: Option<Gesture>)
    | IgnoreNextGesture(link: Link)
    | ClientLeft(link: Link)
    | NotConnected
    | ConnectionLost
    | Disconnecting

  const DOWN := Link(false, false)

  function LinkOf(a: Action): Link {
    if a.NotConnected? || a.ConnectionLost? || a.Disconnecting? then DOWN else a.link
  }

  function Step(m: Modifiers, s: State, a: Action): Effect {
    match a
    case RawKey(link, event) => OnKey(m, link, s, event).0
    case SendKeys(link, controlled, gesture, masked, order) => Toggled(s, link, controlled, gesture, masked, order)
    case RequestLocalControl(link, masked, order) => Requested(s, link, masked, order)
    case AudioSources(link, afterwards, masked, order) => Lent(s, link, afterwards, masked, order)
    case ScreenShareEnds(link, masked, order) =>
      if s.sendingKeys then Returned(s, link, true, masked, order) else Effect(s, [])
    case TakeControl(link, gesture) => Effect(TakenForScreenShare(s, link, gesture), [])
    case IgnoreNextGesture(link) => Effect(ToIgnore(s, link), [])
    case ClientLeft(link) => Effect(if link.IsUp() then s else Aborted(s), [])
    case NotConnected => Effect(Aborted(s), [])
    case ConnectionLost => Effect(Cleared(s), [])
    case Disconnecting => Returned(s, DOWN, false, false, [])
  }

  /** Whether the action gives the keyboard back, with the modifiers released. */
  predicate GivesBack(s: State, a: Action) {
    && s.sendingKeys
    && match a
       case SendKeys(link, controlled, _, _, _) => link.connected || !controlled
       case RequestLocalControl(link, _, _) => link.connected
       case AudioSources(_, _, _, _) => true
       case ScreenShareEnds(_, _, _) => true
       case _ => false
  }

  /** A release walks the modifiers held at that time. */
  ghost predicate CanHappen(s: State, a: Action) {
    GivesBack(s, a) && a.link.connected ==> Enumerates(a.order, s.keyModifiers)
  }

  /** The messages that reach the controlled computer. */
  function Told(a: Action, sent: seq<Message>): seq<Message> {
    if LinkOf(a).IsUp() then sent else []
  }

  function KeysOf(messages: seq<Message>): set<Key> {
    set x | x in messages :: x.key
  }

  /** `lost` are the modifiers that were recorded when the record was dropped without the
      controlled computer being told, and of which it has not heard since. */
  datatype Course = Course(now: State, told: seq<Message>, lost: set<Key>)

  function Advance(m: Modifiers, c: Course, a: Action): Course {
    var effect := Step(m, c.now, a);
    var told := Told(a, effect.sent);
    Course(effect.after, c.told + told,
           c.lost + (c.now.keyModifiers - effect.after.keyModifiers) - KeysOf(told))
  }

  function Run(m: Modifiers, actions: seq<Action>): Course
    decreases |actions|
  {
    if actions == [] then Course(LOCAL, [], {})
    else
      var n := |actions| - 1;
      Advance(m, Run(m, actions[..n]), actions[n])
  }

  ghost predicate Possible(m: Modifiers, actions: seq<Action>)
    decreases |actions|
  {
    actions == [] ||
    var n := |actions| - 1;
    Possible(m, actions[..n]) && CanHappen(Run(m, actions[..n]).now, actions[n])
  }

  // ----- what the controlled computer was told

  /** The keys that are down after some messages. */
  function Down(messages: seq<Message>): set<Key>
    decreases |messages|
  {
    if messages == [] then {}
    else
      var n := |messages| - 1;
      var k := messages[n].key;
      if messages[n].pressed then Down(messages[..n]) + {k} else Down(messages[..n]) - {k}
  }

  lemma DownSnoc(messages: seq<Message>, last: Message)
    ensures Down(messages + [last]) ==
      if last.pressed then Down(messages) + {last.key} else Down(messages) - {last.key}
  {
    assert (messages + [last])[..|messages|] == messages;
  }

  lemma {:induction false} DownAfterReleases(messages: seq<Message>, order: seq<Key>)
    ensures Down(messages + Releases(order)) == Down(messages) - (set k | k in order)
    decreases |order|
  {
    if order == [] {
      assert messages + Releases(order) == messages;
    } else {
      var n := |order| - 1;
      DownAfterReleases(messages, order[..n]);
      assert order == order[..n] + [order[n]];
      ReleasesOneMore(order[..n], order[n]);
      assert messages + Releases(order) == messages + Releases(order[..n]) + [Message(order[n], false)];
      DownSnoc(messages + Releases(order[..n]), Message(order[n], false));
    }
  }

  lemma DownAfterMask(messages: seq<Message>)
    ensures Down(messages + [Message(VK_NONE, true), Message(VK_NONE, false)]) == Down(messages) - {VK_NONE}
  {
    var pressed := messages + [Message(VK_NONE, true)];
    DownSnoc(messages, Message(VK_NONE, true));
    DownSnoc(pressed, Message(VK_NONE, false));
    assert messages + [Message(VK_NONE, true), Message(VK_NONE, false)] == pressed + [Message(VK_NONE, false)];
  }

  /** A return with release while the controlled computer listens takes exactly the recorded
      modifiers up, with or without the masking pair. */
  lemma ReturnReleasesEverything(m: Modifiers, s: State, told: seq<Message>, masked: bool, order: seq<Key>)
    requires Enumerates(order, s.keyModifiers)
    ensures var sent := ReleaseMessages(s, Link(true, true), masked, order);
      && Down(told + sent) * m == Down(told) * m - s.keyModifiers
      && KeysOf(sent) * m == s.keyModifiers * m
  {
    var none := [Message(VK_NONE, true), Message(VK_NONE, false)];
    var sent := ReleaseMessages(s, Link(true, true), masked, order);
    assert (set k | k in order) == s.keyModifiers;
    KeysOfReleases(order);
    if s.keyModifiers != {} && masked {
      DownAfterMask(told);
      DownAfterReleases(told + none, order);
      Reassociate(told, none, Releases(order));
      KeysOfConcat(none, Releases(order));
      assert KeysOf(none) == {VK_NONE};
    } else {
      DownAfterReleases(told, order);
      assert [] + Releases(order) == Releases(order);
    }
  }

  /** Modifiers whose release could act on its own are released only after the reserved key went
      down and up, which changes nothing else; other modifiers without it, and nothing is sent
      while the relay is gone, or when the keyboard returns without a release. */
  lemma ReleaseIsMaskedExactlyWhenItCouldAct(s: State, link: Link, masked: bool, order: seq<Key>)
    requires VK_NONE !in s.keyModifiers && Enumerates(order, s.keyModifiers)
    ensures var sent := ReleaseMessages(s, link, masked, order);
      && (Message(VK_NONE, true) in sent <==> link.connected && masked && s.keyModifiers != {})
      && (Message(VK_NONE, true) in sent ==> sent[..2] == [Message(VK_NONE, true), Message(VK_NONE, false)])
      && (link.connected ==>
            |sent| == |s.keyModifiers| + if Message(VK_NONE, true) in sent then 2 else 0)
      && (!link.connected ==> sent == [])
      && Returned(s, link, true, masked, order).sent == sent
      && Returned(s, link, false, masked, order).sent == []
  {
    var none := [Message(VK_NONE, true), Message(VK_NONE, false)];
    assert none[0] in none + Releases(order);
    assert (none + Releases(order))[..2] == none;
    assert forall x :: x in Releases(order) ==> !x.pressed;
    assert [] + Releases(order) == Releases(order);
  }

  lemma KeysOfReleases(order: seq<Key>)
    ensures KeysOf(Releases(order)) == set k | k in order
  {
    forall k | k in order
      ensures k in KeysOf(Releases(order))
    {
      var i :| 0 <= i < |order| && order[i] == k;
      assert Releases(order)[i] in Releases(order);
    }
  }

  lemma KeysOfConcat(a: seq<Message>, b: seq<Message>)
    ensures KeysOf(a + b) == KeysOf(a) + KeysOf(b)
  {
  }

  // ----- the record and the truth

  /** The modifiers the controlled computer was told are down are those recorded here and those
      lost, and no others; while the keyboard is local nothing is recorded. */
  ghost predicate InStep(m: Modifiers, c: Course) {
    && Down(c.told) * m == c.now.keyModifiers + c.lost
    && c.now.keyModifiers !! c.lost
    && (!c.now.sendingKeys ==> c.now.keyModifiers == {})
  }

  lemma OneKeyOfMany(m: Modifiers, down: set<Key>, held: set<Key>, lost: set<Key>, k: Key)
    requires down * m == held + lost && held !! lost
    ensures k in m ==> (down + {k}) * m == (held + {k}) + (lost - {k}) && (held + {k}) !! (lost - {k})
    ensures k in m ==> (down - {k}) * m == (held - {k}) + (lost + (held - (held - {k})) - {k})
    ensures k !in m ==> (down + {k}) * m == (down - {k}) * m == held + lost && lost - {k} == lost
  {
  }

  /** A key event is silent, or it is told and recorded. */
  lemma KeyStep(m: Modifiers, link: Link, s: State, e: KeyEvent)
    ensures var effect := OnKey(m, link, s, e).0;
      var held, held' := s.keyModifiers, effect.after.keyModifiers;
      if effect.sent == [] then
        && (held' == held || held' == {}) && effect.after.sendingKeys == s.sendingKeys
      else
        && effect.sent == [Message(e.key, e.pressed)] && link.IsUp()
        && s.sendingKeys && effect.after.sendingKeys
        && held' == if e.key !in m then held else if e.pressed then held + {e.key} else held - {e.key}
  {
  }

  lemma ToldKeyKeepsStep(m: Modifiers, c: Course, k: Key, pressed: bool, c': Course)
    requires InStep(m, c) && c'.now.sendingKeys
    requires c'.told == c.told + [Message(k, pressed)]
    requires var held := c.now.keyModifiers;
      c'.now.keyModifiers == if k !in m then held else if pressed then held + {k} else held - {k}
    requires c'.lost == c.lost + (c.now.keyModifiers - c'.now.keyModifiers) - {k}
    ensures InStep(m, c')
  {
    DownSnoc(c.told, Message(k, pressed));
    OneKeyOfMany(m, Down(c.told), c.now.keyModifiers, c.lost, k);
  }

  /** Actions that tell nothing either keep the record or drop it. */
  lemma SilentStepKeepsStep(m: Modifiers, c: Course, c': Course)
    requires InStep(m, c)
    requires c'.told == c.told && c'.lost == c.lost + (c.now.keyModifiers - c'.now.keyModifiers)
    requires c'.now.keyModifiers == c.now.keyModifiers || c'.now.keyModifiers == {}
    requires c'.now.keyModifiers == {} || c.now.sendingKeys == c'.now.sendingKeys
    ensures InStep(m, c')
  {
  }

  lemma KeyKeepsStep(m: Modifiers, c: Course, a: Action)
    requires InStep(m, c) && a.RawKey?
    ensures InStep(m, Advance(m, c, a))
  {
    KeyStep(m, a.link, c.now, a.event);
    var c' := Advance(m, c, a);
    if Step(m, c.now, a).sent == [] {
      NothingTold(m, c, a);
      SilentStepKeepsStep(m, c, c');
    } else {
      assert KeysOf([Message(a.event.key, a.event.pressed)]) == {a.event.key};
      ToldKeyKeepsStep(m, c, a.event.key, a.event.pressed, c');
    }
  }

  lemma NothingTold(m: Modifiers, c: Course, a: Action)
    requires Told(a, Step(m, c.now, a).sent) == []
    ensures var c' := Advance(m, c, a);
      c'.told == c.told && c'.lost == c.lost + (c.now.keyModifiers - c'.now.keyModifiers)
  {
    var none: seq<Message> := [];
    assert KeysOf(none) == {};
    assert c.told + none == c.told;
  }

  lemma GivingBackStep(m: Modifiers, s: State, a: Action)
    requires GivesBack(s, a)
    ensures Step(m, s, a).after.keyModifiers == {}
    ensures Step(m, s, a).sent == ReleaseMessages(s, a.link, a.masked, a.order)
  {
  }

  lemma OtherStepIsSilent(m: Modifiers, s: State, a: Action)
    requires !a.RawKey? && !GivesBack(s, a) && (!s.sendingKeys ==> s.keyModifiers == {})
    ensures var effect := Step(m, s, a);
      && effect.sent == []
      && (effect.after.keyModifiers == s.keyModifiers || effect.after.keyModifiers == {})
      && (effect.after.keyModifiers == {} || s.sendingKeys == effect.after.sendingKeys)
  {
  }

  lemma ReturnedSets(m: Modifiers, down: set<Key>, held: set<Key>, lost: set<Key>, keys: set<Key>)
    requires down * m == held + lost && held !! lost && keys * m == held * m
    ensures lost + held - keys == lost && (held + lost) - held == lost
  {
    forall k
      ensures k in lost + held - keys <==> k in lost
    {
      assert k in held || k in lost ==> k in down * m;
      assert k in m ==> (k in keys * m <==> k in held * m);
    }
  }

  lemma ReleasedAllInStep(m: Modifiers, c: Course, keys: set<Key>, c': Course)
    requires InStep(m, c) && c'.now.keyModifiers == {}
    requires Down(c'.told) * m == Down(c.told) * m - c.now.keyModifiers
    requires keys * m == c.now.keyModifiers * m && c'.lost == c.lost + c.now.keyModifiers - keys
    ensures InStep(m, c') && c'.lost == c.lost
  {
    ReturnedSets(m, Down(c.told), c.now.keyModifiers, c.lost, keys);
  }

  lemma HeardReturnKeepsStep(m: Modifiers, c: Course, masked: bool, order: seq<Key>, told: seq<Message>, c': Course)
    requires InStep(m, c) && Enumerates(order, c.now.keyModifiers) && c'.now.keyModifiers == {}
    requires told == ReleaseMessages(c.now, Link(true, true), masked, order)
    requires c'.told == c.told + told && c'.lost == c.lost + c.now.keyModifiers - KeysOf(told)
    ensures InStep(m, c') && c'.lost == c.lost
  {
    ReturnReleasesEverything(m, c.now, c.told, masked, order);
    ReleasedAllInStep(m, c, KeysOf(told), c');
  }

  lemma StepKeepsStep(m: Modifiers, c: Course, a: Action)
    requires InStep(m, c) && CanHappen(c.now, a)
    ensures InStep(m, Advance(m, c, a))
  {
    var c' := Advance(m, c, a);
    if a.RawKey? {
      KeyKeepsStep(m, c, a);
    } else if GivesBack(c.now, a) {
      GivingBackStep(m, c.now, a);
      if a.link.IsUp() {
        assert c.now.keyModifiers - {} == c.now.keyModifiers;
        HeardReturnKeepsStep(m, c, a.masked, a.order, Step(m, c.now, a).sent, c');
      } else {
        NothingTold(m, c, a);
        SilentStepKeepsStep(m, c, c');
      }
    } else {
      OtherStepIsSilent(m, c.now, a);
      NothingTold(m, c, a);
      SilentStepKeepsStep(m, c, c');
    }
  }

  lemma UpKeyKeepsTheRecord(m: Modifiers, s: State, e: KeyEvent)
    ensures var effect := OnKey(m, Link(true, true), s, e).0;
      s.keyModifiers - effect.after.keyModifiers <= KeysOf(effect.sent)
  {
    var effect := OnKey(m, Link(true, true), s, e).0;
    assert effect.sent != [] ==> effect.sent[0] in effect.sent && effect.sent[0].key == e.key;
  }

  /** While the controlled computer listens nothing is lost. */
  lemma UpLosesNothing(m: Modifiers, c: Course, a: Action)
    requires InStep(m, c) && CanHappen(c.now, a) && LinkOf(a).IsUp()
    ensures Advance(m, c, a).lost <= c.lost
  {
    if a.RawKey? {
      UpKeyKeepsTheRecord(m, c.now, a.event);
    } else if GivesBack(c.now, a) {
      GivingBackStep(m, c.now, a);
      assert c.now.keyModifiers - {} == c.now.keyModifiers;
      HeardReturnKeepsStep(m, c, a.masked, a.order, Step(m, c.now, a).sent, Advance(m, c, a));
    } else {
      OtherStepIsSilent(m, c.now, a);
      NothingTold(m, c, a);
      assert Step(m, c.now, a).after.keyModifiers == c.now.keyModifiers;
    }
  }

  /** In every run, whatever becomes of the link and of the controlled computer, the modifiers it
      was told are down are exactly those recorded here and those lost; so none is stuck exactly
      when none was lost, and while the keyboard is local those down are the lost ones. */
  lemma {:induction false} DownAreTheRecordedAndTheLost(m: Modifiers, actions: seq<Action>)
    requires Possible(m, actions)
    ensures var c := Run(m, actions);
      && Down(c.told) * m == c.now.keyModifiers + c.lost
      && c.now.keyModifiers !! c.lost
      && (!c.now.sendingKeys ==> c.now.keyModifiers == {})
      && (Down(c.told) * m == c.now.keyModifiers <==> c.lost == {})
    decreases |actions|
  {
    if actions == [] {
    } else {
      var n := |actions| - 1;
      DownAreTheRecordedAndTheLost(m, actions[..n]);
      StepKeepsStep(m, Run(m, actions[..n]), actions[n]);
    }
  }

  predicate StaysUp(actions: seq<Action>) {
    forall a <- actions :: LinkOf(a).IsUp()
  }

  lemma {:induction false} NothingIsLost(m: Modifiers, actions: seq<Action>)
    requires Possible(m, actions) && StaysUp(actions)
    ensures Run(m, actions).lost == {}
    decreases |actions|
  {
    if actions == [] {
    } else {
      var n := |actions| - 1;
      NothingIsLost(m, actions[..n]);
      DownAreTheRecordedAndTheLost(m, actions[..n]);
      assert actions[n] in actions;
      UpLosesNothing(m, Run(m, actions[..n]), actions[n]);
    }
  }

  /** In every run in which the link and the controlled computer stay up, the modifiers it was
      told are down are exactly the recorded ones; and whenever the keyboard is local, none is. */
  lemma {:induction false} NoStuckModifier(m: Modifiers, actions: seq<Action>)
    requires Possible(m, actions) && StaysUp(actions)
    ensures var c := Run(m, actions);
      && Down(c.told) * m == c.now.keyModifiers
      && (!c.now.sendingKeys ==> Down(c.told) * m == {})
  {
    DownAreTheRecordedAndTheLost(m, actions);
    NothingIsLost(m, actions);
  }

  lemma RunSnoc(m: Modifiers, actions: seq<Action>, a: Action)
    ensures Run(m, actions + [a]) == Advance(m, Run(m, actions), a)
  {
    assert (actions + [a])[..|actions|] == actions;
  }

  lemma PossibleSnoc(m: Modifiers, actions: seq<Action>, a: Action)
    requires Possible(m, actions) && CanHappen(Run(m, actions).now, a)
    ensures Possible(m, actions + [a])
  {
    assert (actions + [a])[..|actions|] == actions;
  }

  function Press(k: Key): Action {
    RawKey(Link(true, true), KeyEvent(k, true, false, false))
  }

  function Release(k: Key): Action {
    RawKey(Link(true, true), KeyEvent(k, false, false, false))
  }

  lemma LossAdvances(m: Modifiers, c: Course)
    ensures var c' := Advance(m, c, ConnectionLost);
      c'.now == Cleared(c.now) && c'.lost == c.lost + c.now.keyModifiers
  {
    NothingTold(m, c, ConnectionLost);
  }

  lemma PressAdvances(m: Modifiers, c: Course, k: Key)
    requires c.now.sendingKeys && k in m
    ensures var c' := Advance(m, c, Press(k));
      c'.now.keyModifiers == c.now.keyModifiers + {k} && c'.lost == c.lost - {k}
  {
    assert KeysOf([Message(k, true)]) == {k};
  }

  function TakenOver(): Action {
    SendKeys(Link(true, true), false, None, false, [])
  }

  lemma TakenOverRun(m: Modifiers)
    ensures Possible(m, [TakenOver()])
    ensures var c := Run(m, [TakenOver()]); c.now.sendingKeys && c.now.keyModifiers == {} && c.lost == {}
  {
    var none: seq<Action> := [];
    assert none + [TakenOver()] == [TakenOver()];
    RunSnoc(m, none, TakenOver());
    PossibleSnoc(m, none, TakenOver());
    NothingTold(m, Run(m, none), TakenOver());
  }

  /** A run in which one is lost: the connection goes while the modifier is held. */
  lemma {:induction false} HeldModifierIsLost(m: Modifiers, k: Key)
    requires k in m
    ensures var run := [TakenOver()] + [Press(k)] + [ConnectionLost];
      var c := Run(m, run);
      Possible(m, run) && c.lost == {k} && Down(c.told) * m == {k} && c.now.keyModifiers == {}
  {
    var held := [TakenOver()] + [Press(k)];
    TakenOverRun(m);
    RunSnoc(m, [TakenOver()], Press(k));
    PossibleSnoc(m, [TakenOver()], Press(k));
    PressAdvances(m, Run(m, [TakenOver()]), k);
    RunSnoc(m, held, ConnectionLost);
    PossibleSnoc(m, held, ConnectionLost);
    LossAdvances(m, Run(m, held));
    DownAreTheRecordedAndTheLost(m, held + [ConnectionLost]);
  }

  // ----- a modifier pressed while its earlier release is awaited here

  /** The next release of the key is for this computer. */
  predicate IsAwaited(s: State, k: Key) {
    k in s.pendingModifiers || s.pendingKey == Some(k)
  }

  /** The action happens with the controlled computer listening, is not about the key, and leaves
      the keyboard with it. */
  predicate IsElsewhere(k: Key, a: Action) {
    && LinkOf(a).IsUp()
    && match a
       case RawKey(_, event) => event.injected || event.key != k
       case TakeControl(_, _) => true
       case IgnoreNextGesture(_) => true
       case ClientLeft(_) => true
       case _ => false
  }

  predicate AreElsewhere(k: Key, actions: seq<Action>)
    decreases |actions|
  {
    actions == [] ||
    var n := |actions| - 1;
    AreElsewhere(k, actions[..n]) && IsElsewhere(k, actions[n])
  }

  /** The keyboard is still sent over, and nothing changed about the key. */
  predicate IsUnmoved(k: Key, s: State, s': State) {
    && s'.sendingKeys
    && (k in s'.keyModifiers <==> k in s.keyModifiers)
    && (IsAwaited(s', k) <==> IsAwaited(s, k))
  }

  lemma ElsewhereKeeps(m: Modifiers, s: State, k: Key, a: Action)
    requires IsElsewhere(k, a) && s.sendingKeys
    ensures IsUnmoved(k, s, Step(m, s, a).after)
  {
  }

  lemma RunLast(m: Modifiers, before: seq<Action>, between: seq<Action>)
    requires between != []
    ensures var n := |between| - 1;
      Run(m, before + between) == Advance(m, Run(m, before + between[..n]), between[n])
  {
    var n := |between| - 1;
    assert before + between == before + between[..n] + [between[n]];
    RunSnoc(m, before + between[..n], between[n]);
  }

  lemma OneBetween(m: Modifiers, s: State, c: Course, k: Key, a: Action)
    requires IsElsewhere(k, a) && s.sendingKeys && IsUnmoved(k, s, c.now)
    ensures IsUnmoved(k, s, Advance(m, c, a).now)
  {
    ElsewhereKeeps(m, c.now, k, a);
  }

  lemma PossibleLast(m: Modifiers, before: seq<Action>, k: Key, between: seq<Action>)
    requires between != [] && IsElsewhere(k, between[|between| - 1])
    requires Possible(m, before + between[..|between| - 1])
    ensures Possible(m, before + between)
  {
    var n := |between| - 1;
    assert before + between == before + between[..n] + [between[n]];
    PossibleSnoc(m, before + between[..n], between[n]);
  }

  lemma {:induction false} BetweenKeeps(m: Modifiers, before: seq<Action>, k: Key, between: seq<Action>)
    requires Possible(m, before) && Run(m, before).now.sendingKeys && AreElsewhere(k, between)
    ensures Possible(m, before + between)
    ensures IsUnmoved(k, Run(m, before).now, Run(m, before + between).now)
    decreases |between|
  {
    if between == [] {
      assert before + between == before;
    } else {
      var n := |between| - 1;
      BetweenKeeps(m, before, k, between[..n]);
      RunLast(m, before, between);
      PossibleLast(m, before, k, between);
      OneBetween(m, Run(m, before).now, Run(m, before + between[..n]), k, between[n]);
    }
  }

  lemma PressIsRecorded(m: Modifiers, c: Course, k: Key)
    requires c.now.sendingKeys && k in m
    ensures var after := Advance(m, c, Press(k)).now;
      && after.sendingKeys && k in after.keyModifiers
      && (IsAwaited(after, k) <==> IsAwaited(c.now, k))
  {
  }

  lemma ReleaseIsForOneOfThem(m: Modifiers, c: Course, k: Key)
    requires c.now.sendingKeys && k in m && k in Down(c.told)
    ensures k in Down(Advance(m, c, Release(k)).told) <==> IsAwaited(c.now, k)
  {
    if IsAwaited(c.now, k) {
      assert c.told + [] == c.told;
    } else {
      DownSnoc(c.told, Message(k, false));
    }
  }

  /** After any run, while the keyboard is sent over, a modifier is pressed here, other things
      happen and it is released: the controlled computer believes it is still down if and only
      if an earlier release of it was still awaited here when it was pressed, because that
      release is then taken for the awaited one. */
  lemma {:induction false} ReleasedStaysDownExactlyWhenAwaited(
      m: Modifiers, before: seq<Action>, k: Key, between: seq<Action>)
    requires k in m && Possible(m, before) && Run(m, before).now.sendingKeys
    requires AreElsewhere(k, between)
    ensures Possible(m, before + [Press(k)] + between + [Release(k)])
    ensures k in Down(Run(m, before + [Press(k)] + between + [Release(k)]).told)
            <==> IsAwaited(Run(m, before).now, k)
  {
    RunSnoc(m, before, Press(k));
    PossibleSnoc(m, before, Press(k));
    PressIsRecorded(m, Run(m, before), k);
    BetweenKeeps(m, before + [Press(k)], k, between);
    var held := before + [Press(k)] + between;
    DownAreTheRecordedAndTheLost(m, held);
    assert k in Down(Run(m, held).told) * m;
    RunSnoc(m, held, Release(k));
    PossibleSnoc(m, held, Release(k));
    ReleaseIsForOneOfThem(m, Run(m, held), k);
  }

  /** A run in which it happens: the keyboard is taken over by a gesture that holds the modifier,
      which is then pressed once more and released. */
  lemma {:induction false} HeldGestureModifierStaysDown(m: Modifiers, k: Key, key: Key)
    requires k in m
    ensures var taken := [SendKeys(Link(true, true), false, Some(Gesture({k}, key)), false, [])];
      var run := taken + [Press(k)] + [] + [Release(k)];
      && Possible(m, run)
      && k in Down(Run(m, run).told) && k in Run(m, run).now.keyModifiers
  {
    var none: seq<Action> := [];
    var taken := [SendKeys(Link(true, true), false, Some(Gesture({k}, key)), false, [])];
    assert none + taken == taken;
    RunSnoc(m, none, taken[0]);
    PossibleSnoc(m, none, taken[0]);
    PossibleSnoc(m, taken, Press(k));
    assert taken + [Press(k)] + none == taken + [Press(k)];
    PossibleSnoc(m, taken + [Press(k)], Release(k));
    ReleasedStaysDownExactlyWhenAwaited(m, taken, k, none);
    RunSnoc(m, taken, Press(k));
    RunSnoc(m, taken + [Press(k)], Release(k));
  }
}
