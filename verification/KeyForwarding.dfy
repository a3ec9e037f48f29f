/**
 Keys sent from the controlling computer: which events go to the controlled one, and the
 release of modifiers when control comes back.
 */
module KeyForwarding {
  import opened Wrappers
  import opened ByteStrings

  datatype Key = Key(vkCode: int, extended: bool)

  const VK_NONE := Key(0xFF, false)

  /** The keys NVDA counts as modifiers; the reserved key is none of them. */
  type Modifiers = m: set<Key> | VK_NONE !in m
    witness {}

  datatype Message = Message(key: Key, pressed: bool)

  /** Whether the relay is connected and whether a controlled computer can be reached. */
  datatype Link = Link(connected: bool, slaveAvailable: bool) {
    predicate IsUp() {
      connected && slaveAvailable
    }
  }

  datatype Gesture = Gesture(modifiers: set<Key>, key: Key)

  datatype State = State(
    sendingKeys: bool,
    keyModifiers: set<Key>,
    pendingModifiers: set<Key>,
    pendingKey: Option<Key>,
    ignoreGesture: bool)

  const LOCAL := State(false, {}, {}, None, false)

  /** A key event, and what the outside makes of it: whether another part of the add-on
      injected it, and whether its gesture is bound to a script that stays on this computer. */
  datatype KeyEvent = KeyEvent(key: Key, pressed: bool, injected: bool, guestScript: bool)

  datatype Effect = Effect(after: State, sent: seq<Message>)

  // ----- the steps

  function Cleared(s: State): State {
    s.(pendingModifiers := {}, pendingKey := None, keyModifiers := {})
  }

  function Aborted(s: State): State {
    if s.sendingKeys then Cleared(s) else s
  }

  function Recorded(m: Modifiers, s: State, e: KeyEvent): State {
    if e.key in m then
      s.(keyModifiers := if e.pressed then s.keyModifiers + {e.key} else s.keyModifiers - {e.key})
    else if e.pressed then s.(ignoreGesture := false)
    else s
  }

  /** The event stays on this computer for a script of its own. */
  predicate IsKept(m: Modifiers, s: State, e: KeyEvent) {
    e.key !in m && e.pressed && !s.ignoreGesture && e.guestScript
  }

  /** What a raw key event does, and whether it is passed on to the local system. */
  function OnKey(m: Modifiers, link: Link, s: State, e: KeyEvent): (Effect, bool) {
    if e.injected then (Effect(s, []), false)
    else if !s.sendingKeys then (Effect(s, []), true)
    else if !link.IsUp() then (Effect(Cleared(s), []), true)
    else if !e.pressed && e.key in s.pendingModifiers then
      (Effect(s.(pendingModifiers := s.pendingModifiers - {e.key}), []), true)
    else if !e.pressed && s.pendingKey == Some(e.key) then
      (Effect(s.(pendingKey := None), []), true)
    else
      (Effect(Recorded(m, s, e), if IsKept(m, s, e) then [] else [Message(e.key, e.pressed)]), false)
  }

  /** Every element once, in the order the set happens to be walked. */
  ghost predicate Enumerates(order: seq<Key>, keys: set<Key>) {
    && (forall k :: k in keys <==> k in order)
    && |order| == |keys|
  }

  lemma EnumeratesOneMore(order: seq<Key>, keys: set<Key>, k: Key)
    requires Enumerates(order, keys) && k !in keys
    ensures Enumerates(order + [k], keys + {k})
  {
    forall x
      ensures x in keys + {k} <==> x in order + [k]
    {
      assert x in keys <==> x in order;
      assert (order + [k])[|order|] == k;
    }
  }

  function Releases(order: seq<Key>): seq<Message> {
    seq(|order|, i requires 0 <= i < |order| => Message(order[i], false))
  }

  lemma ReleasesOneMore(order: seq<Key>, k: Key)
    ensures Releases(order + [k]) == Releases(order) + [Message(k, false)]
  {
  }

  /** `masked` says that the held modifiers could act on their own when released. */
  function ReleaseMessages(s: State, link: Link, masked: bool, order: seq<Key>): seq<Message> {
    if !link.connected then []
    else
      (if s.keyModifiers != {} && masked then [Message(VK_NONE, true), Message(VK_NONE, false)] else [])
      + Releases(order)
  }

  function Returned(s: State, link: Link, release: bool, masked: bool, order: seq<Key>): Effect {
    Effect(Cleared(s).(sendingKeys := false),
           if release then ReleaseMessages(s, link, masked, order) else [])
  }

  function Switched(s: State, gesture: Option<Gesture>): State {
    if gesture.Some? then
      s.(sendingKeys := true, pendingModifiers := gesture.value.modifiers, pendingKey := Some(gesture.value.key))
    else s.(sendingKeys := true, pendingModifiers := {}, pendingKey := None)
  }

  /** The toggling script; on a computer that is itself controlled it only asks. */
  function Toggled(s: State, link: Link, controlled: bool, gesture: Option<Gesture>, masked: bool,
                   order: seq<Key>): Effect
  {
    if !link.connected && (controlled || !s.sendingKeys) then Effect(s, [])
    else if link.connected && !s.sendingKeys then
      Effect(if link.slaveAvailable then Switched(s, gesture) else s, [])
    else Returned(s, link, true, masked, order)
  }

  function Requested(s: State, link: Link, masked: bool, order: seq<Key>): Effect {
    if !link.connected || !s.sendingKeys then Effect(s, []) else Returned(s, link, true, masked, order)
  }

  function Lent(s: State, link: Link, afterwards: Link, masked: bool, order: seq<Key>): Effect {
    if !s.sendingKeys then Effect(s, [])
    else
      var back := Returned(s, link, true, masked, order);
      if afterwards.IsUp() then back.(after := Switched(back.after, None)) else back
  }

  function TakenForScreenShare(s: State, link: Link, gesture: Option<Gesture>): State {
    if s.sendingKeys || !link.IsUp() then s else Switched(s, gesture)
  }

  function ToIgnore(s: State, link: Link): State {
    if link.connected && s.sendingKeys then s.(ignoreGesture := true) else s
  }

  // ----- the object

  class KeyForwarder {
    const modifiers: Modifiers
    var sendingKeys: bool
    var keyModifiers: set<Key>
    var hostPendingModifiers: set<Key>
    var hostPendingNonmodifier: Option<Key>
    var ignoreGesture: bool
    var sent: seq<Message>
    var requested: nat // requests for the keyboard this computer sent as a controlled one

    constructor (modifiers: Modifiers)
      ensures this.modifiers == modifiers && Value() == LOCAL && sent == [] && requested == 0
    {
      this.modifiers := modifiers;
      requested := 0;
      sendingKeys, keyModifiers, hostPendingModifiers := false, {}, {};
      hostPendingNonmodifier, ignoreGesture, sent := None, false, [];
    }

    function Value(): State
      reads this
    {
      State(sendingKeys, keyModifiers, hostPendingModifiers, hostPendingNonmodifier, ignoreGesture)
    }

    method Send(key: Key, pressed: bool)
      modifies this`sent
      ensures sent == old(sent) + [Message(key, pressed)]
    {
      sent := sent + [Message(key, pressed)];
    }

    method ClearRemoteKeyState()
      modifies this`keyModifiers, this`hostPendingModifiers, this`hostPendingNonmodifier
      ensures Value() == Cleared(old(Value()))
    {
      hostPendingModifiers := {};
      hostPendingNonmodifier := None;
      keyModifiers := {};
    }

    method AbortRemoteControl()
      modifies this`keyModifiers, this`hostPendingModifiers, this`hostPendingNonmodifier
      ensures Value() == Aborted(old(Value()))
    {
      if !sendingKeys {
        return;
      }
      ClearRemoteKeyState();
    }

    /** The result says whether the local system gets the event. */
    method HandleRawKeys(link: Link, e: KeyEvent) returns (passOn: bool)
      modifies this
      ensures var (effect, local) := OnKey(modifiers, link, old(Value()), e);
        Value() == effect.after && sent == old(sent) + effect.sent && passOn == local
    {
      if e.injected {
        return false;
      }
      if !sendingKeys {
        return true;
      }
      if !link.connected {
        ClearRemoteKeyState();
        return true;
      }
      if !link.slaveAvailable {
        AbortRemoteControl();
        return true;
      }
      if !e.pressed && e.key in hostPendingModifiers {
        hostPendingModifiers := hostPendingModifiers - {e.key};
        return true;
      }
      if !e.pressed && hostPendingNonmodifier == Some(e.key) {
        hostPendingNonmodifier := None;
        return true;
      }
      if e.key in modifiers {
        if e.pressed {
          keyModifiers := keyModifiers + {e.key};
        } else {
          keyModifiers := keyModifiers - {e.key};
        }
      } else if e.pressed {
        if ignoreGesture {
          ignoreGesture := false;
        } else if e.guestScript {
          return false;
        }
      }
      Send(e.key, e.pressed);
      passOn := false;
    }

    /** Sends the release of each key, in whatever order the set gives them. */
    method ReleaseEach(keys: set<Key>) returns (order: seq<Key>)
      modifies this`sent
      ensures Enumerates(order, keys)
      ensures sent == old(sent) + Releases(order)
    {
      order := [];
      var left := keys;
      ghost var done: set<Key> := {};
      while left != {}
        invariant done !! left && done + left == keys
        invariant Enumerates(order, done)
        invariant sent == old(sent) + Releases(order)
        decreases |left|
      {
        var k :| k in left;
        Send(k, false);
        EnumeratesOneMore(order, done, k);
        ReleasesOneMore(order, k);
        Reassociate(old(sent), Releases(order), [Message(k, false)]);
        left, done := left - {k}, done + {k};
        order := order + [k];
      }
      assert done == keys;
    }

    method ReleaseRemoteKeys(link: Link, masked: bool) returns (order: seq<Key>)
      modifies this`keyModifiers, this`sent
      ensures link.connected ==> Enumerates(order, old(keyModifiers))
      ensures Value() == old(Value()).(keyModifiers := {})
      ensures sent == old(sent) + ReleaseMessages(old(Value()), link, masked, order)
    {
      if !link.connected {
        keyModifiers := {};
        return [];
      }
      if keyModifiers != {} && masked {
        Send(VK_NONE, true);
        Send(VK_NONE, false);
      }
      order := ReleaseEach(keyModifiers);
      keyModifiers := {};
    }

    method ReturnToLocalControl(link: Link, release: bool, masked: bool) returns (wasSending: bool, order: seq<Key>)
      modifies this
      ensures requested == old(requested)
      ensures wasSending == old(sendingKeys)
      ensures release && link.connected ==> Enumerates(order, old(keyModifiers))
      ensures var effect := Returned(old(Value()), link, release, masked, order);
        Value() == effect.after && sent == old(sent) + effect.sent
    {
      wasSending := sendingKeys;
      order := [];
      if release {
        order := ReleaseRemoteKeys(link, masked);
      }
      sendingKeys := false;
      ClearRemoteKeyState();
    }

    method SwitchToRemoteControl(gesture: Option<Gesture>)
      modifies this
      ensures requested == old(requested)
      ensures Value() == Switched(old(Value()), gesture) && sent == old(sent)
    {
      sendingKeys := true;
      if gesture.Some? {
        hostPendingModifiers := gesture.value.modifiers;
        hostPendingNonmodifier := Some(gesture.value.key);
      } else {
        hostPendingModifiers := {};
        hostPendingNonmodifier := None;
      }
    }

    /** The toggling script, also run without a gesture when the session gets locked. */
    method ScriptSendKeys(link: Link, controlled: bool, gesture: Option<Gesture>, masked: bool)
      returns (order: seq<Key>)
      modifies this
      ensures link.connected && old(sendingKeys) ==> Enumerates(order, old(keyModifiers))
      ensures var effect := Toggled(old(Value()), link, controlled, gesture, masked, order);
        Value() == effect.after && sent == old(sent) + effect.sent
      ensures requested == old(requested) + if !link.connected && controlled then 1 else 0
    {
      order := [];
      if !link.connected {
        if controlled {
          requested := requested + 1;
          return;
        }
        if sendingKeys {
          var _, walked := ReturnToLocalControl(link, true, masked);
          order := walked;
        }
        return;
      }
      if !sendingKeys && !link.slaveAvailable {
        return;
      }
      if sendingKeys {
        var _, walked := ReturnToLocalControl(link, true, masked);
        order := walked;
      } else {
        SwitchToRemoteControl(gesture);
      }
    }

    method OnRequestLocalControl(link: Link, masked: bool) returns (order: seq<Key>)
      modifies this
      ensures link.connected && old(sendingKeys) ==> Enumerates(order, old(keyModifiers))
      ensures var effect := Requested(old(Value()), link, masked, order);
        Value() == effect.after && sent == old(sent) + effect.sent
    {
      order := [];
      if !link.connected || !sendingKeys {
        return;
      }
      var _, walked := ReturnToLocalControl(link, true, masked);
      order := walked;
    }

    /** The keyboard comes back while the list of applications is open. */
    method OpenAudioSources(link: Link, afterwards: Link, masked: bool) returns (order: seq<Key>)
      modifies this
      ensures link.connected && old(sendingKeys) ==> Enumerates(order, old(keyModifiers))
      ensures var effect := Lent(old(Value()), link, afterwards, masked, order);
        Value() == effect.after && sent == old(sent) + effect.sent
    {
      var resume := sendingKeys;
      order := [];
      if resume {
        var _, walked := ReturnToLocalControl(link, true, masked);
        order := walked;
      }
      if resume && afterwards.IsUp() {
        SwitchToRemoteControl(None);
      }
    }

    method TakeControlForScreenShare(link: Link, gesture: Option<Gesture>)
      modifies this
      ensures Value() == TakenForScreenShare(old(Value()), link, gesture) && sent == old(sent)
    {
      if sendingKeys {
        return;
      }
      if !link.connected || !link.slaveAvailable {
        return;
      }
      SwitchToRemoteControl(gesture);
    }

    method ScriptIgnoreNextGesture(link: Link)
      modifies this`ignoreGesture
      ensures Value() == ToIgnore(old(Value()), link)
    {
      if !link.connected || !sendingKeys {
        return;
      }
      ignoreGesture := true;
    }

    method OnMasterClientLeft(link: Link)
      modifies this`keyModifiers, this`hostPendingModifiers, this`hostPendingNonmodifier
      ensures Value() == if link.IsUp() then old(Value()) else Aborted(old(Value()))
    {
      if link.connected && link.slaveAvailable {
        return;
      }
      AbortRemoteControl();
    }
  }
}
