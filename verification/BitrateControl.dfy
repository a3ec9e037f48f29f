/**
 Bitrate levels chosen from the pressure on the transport, with hysteresis: a level is left
 only after enough observations in a row ask for the same other one, and not too soon after
 the last change.
 */
module BitrateControl {
  import opened Wrappers

  const INITIAL_BITRATE := 96000

  predicate IsLevel(bitrate: int) {
    bitrate == 48000 || bitrate == 64000 || bitrate == 96000 || bitrate == 128000
  }

  datatype Observation = Observation(queueDepth: nat, dropped: bool, now: real)

  function Target(o: Observation): (level: int)
    ensures IsLevel(level)
  {
    if o.dropped || o.queueDepth >= 8 then 48000
    else if o.queueDepth >= 3 then 64000
    else if o.queueDepth == 0 then 128000
    else 96000
  }

  /** More pressure never asks for a higher level, and each level is the highest one that its
      threshold allows. */
  lemma TargetFallsWithPressure(a: Observation, b: Observation)
    requires a.queueDepth <= b.queueDepth && (a.dropped ==> b.dropped)
    ensures Target(b) <= Target(a)
    ensures Target(a) <= 96000 <==> a.dropped || a.queueDepth >= 1
    ensures Target(a) <= 64000 <==> a.dropped || a.queueDepth >= 3
    ensures Target(a) <= 48000 <==> a.dropped || a.queueDepth >= 8
  {
  }

  datatype Settings = Settings(minChangeInterval: real, lowerObservations: int, raiseObservations: int)

  const DEFAULTS := Settings(5.0, 3, 10)

  function Required(s: Settings, current: int, target: int): int {
    if target < current then s.lowerObservations else s.raiseObservations
  }

  predicate Elapsed(s: Settings, lastChange: Option<real>, now: real) {
    lastChange == None || now - lastChange.value >= s.minChangeInterval
  }

  // ----- the controller

  datatype State = State(current: int, lastChange: Option<real>, candidate: Option<int>, candidateCount: nat)

  function Fresh(initial: int): State {
    State(initial, None, None, 0)
  }

  function Observe(s: Settings, c: State, o: Observation): State {
    var target := Target(o);
    if target == c.current then c.(candidate := None, candidateCount := 0)
    else
      var count := if c.candidate == Some(target) then c.candidateCount + 1 else 1;
      if count < Required(s, c.current, target) || !Elapsed(s, c.lastChange, o.now)
      then c.(candidate := Some(target), candidateCount := count)
      else State(target, Some(o.now), None, 0)
  }

  class BitrateController {
    const s: Settings
    var current: int
    var lastChange: Option<real>
    var candidate: Option<int>
    var candidateCount: nat

    constructor (initial: int, s: Settings)
      ensures this.s == s && Value() == Fresh(initial)
    {
      this.s := s;
      current, lastChange, candidate, candidateCount := initial, None, None, 0;
    }

    static method Create(initial: int := INITIAL_BITRATE, s: Settings := DEFAULTS)
      returns (r: Result<BitrateController, ArgumentError>)
      ensures r.Ok? <==> initial in {48000, 64000, 96000, 128000}
      ensures r.Ok? ==> fresh(r.value) && r.value.s == s && r.value.Value() == Fresh(initial)
    {
      if !IsLevel(initial) {
        return Err(ValueError);
      }
      var controller := new BitrateController(initial, s);
      r := Ok(controller);
    }

    function Value(): State
      reads this
    {
      State(current, lastChange, candidate, candidateCount)
    }

    /** The new level, or nothing when it stays; a negative depth raises. */
    method ObserveDepth(queueDepth: int, dropped: bool, now: real) returns (r: Result<Option<int>, ArgumentError>)
      modifies this
      ensures r.Err? <==> queueDepth < 0
      ensures r.Err? ==> Value() == old(Value())
      ensures r.Ok? ==> Value() == Observe(s, old(Value()), Observation(queueDepth, dropped, now))
      ensures r.Ok? ==> r.value == if current == old(current) then None else Some(current)
    {
      if queueDepth < 0 {
        return Err(ValueError);
      }
      var target := Target(Observation(queueDepth, dropped, now));
      if target == current {
        candidate := None;
        candidateCount := 0;
        return Ok(None);
      }
      if candidate != Some(target) {
        candidate := Some(target);
        candidateCount := 0;
      }
      candidateCount := candidateCount + 1;
      var required := if target < current then s.lowerObservations else s.raiseObservations;
      if candidateCount < required || !Elapsed(s, lastChange, now) {
        return Ok(None);
      }
      current := target;
      lastChange := Some(now);
      candidate := None;
      candidateCount := 0;
      r := Ok(Some(current));
    }
  }

  function After(s: Settings, initial: int, seen: seq<Observation>): State
    decreases |seen|
  {
    if seen == [] then Fresh(initial)
    else
      var n := |seen| - 1;
      Observe(s, After(s, initial, seen[..n]), seen[n])
  }

  // ----- the reference: the whole history since the last change

  datatype History = History(level: int, lastChange: Option<real>, since: seq<Observation>)

  /** How many of the last observations ask for the same level as the last one. */
  function Trailing(seen: seq<Observation>): nat
    decreases |seen|
  {
    var n := |seen| - 1;
    if seen == [] then 0
    else if n > 0 && Target(seen[n - 1]) == Target(seen[n]) then Trailing(seen[..n]) + 1
    else 1
  }

  predicate Moves(s: Settings, h: History, o: Observation) {
    && Target(o) != h.level
    && Trailing(h.since + [o]) >= Required(s, h.level, Target(o))
    && Elapsed(s, h.lastChange, o.now)
  }

  function HistoryOf(s: Settings, initial: int, seen: seq<Observation>): History
    decreases |seen|
  {
    if seen == [] then History(initial, None, [])
    else
      var n := |seen| - 1;
      var h := HistoryOf(s, initial, seen[..n]);
      if Moves(s, h, seen[n]) then History(Target(seen[n]), Some(seen[n].now), [])
      else h.(since := h.since + [seen[n]])
  }

  function StateOf(h: History): State {
    var n := |h.since| - 1;
    if n < 0 || Target(h.since[n]) == h.level then State(h.level, h.lastChange, None, 0)
    else State(h.level, h.lastChange, Some(Target(h.since[n])), Trailing(h.since))
  }

  lemma TrailingSnoc(since: seq<Observation>, o: Observation)
    ensures var n := |since| - 1;
      Trailing(since + [o]) == if n >= 0 && Target(since[n]) == Target(o) then Trailing(since) + 1 else 1
  {
    assert (since + [o])[..|since|] == since;
  }

  /** Over every run of observations, the two counters the controller keeps say exactly what the
      whole history says: the level moves when enough observations in a row since the last
      change ask for the new one and the interval is over, and only then. */
  lemma {:induction false} ControllerFollowsTheHistory(s: Settings, initial: int, seen: seq<Observation>)
    ensures After(s, initial, seen) == StateOf(HistoryOf(s, initial, seen))
    decreases |seen|
  {
    if seen == [] {
    } else {
      var n := |seen| - 1;
      ControllerFollowsTheHistory(s, initial, seen[..n]);
      var h := HistoryOf(s, initial, seen[..n]);
      TrailingSnoc(h.since, seen[n]);
    }
  }

  // ----- every change is backed

  predicate AllTarget(seen: seq<Observation>, level: int) {
    forall o <- seen :: Target(o) == level
  }

  lemma {:induction false} TrailingMeansInARow(seen: seq<Observation>, k: nat)
    requires 0 < k <= |seen|
    ensures Trailing(seen) >= k <==> AllTarget(seen[|seen| - k..], Target(seen[|seen| - 1]))
    decreases k
  {
    var n := |seen| - 1;
    var tail := seen[|seen| - k..];
    assert tail[k - 1] == seen[n];
    if k > 1 {
      var t := seen[..n];
      TrailingMeansInARow(t, k - 1);
      var tail' := t[|t| - (k - 1)..];
      assert tail == tail' + [seen[n]];
      assert tail'[k - 2] == seen[n - 1] && seen[n - 1] in tail;
      assert forall o :: o in tail <==> o in tail' || o == seen[n];
    } else {
      assert tail == [seen[n]];
    }
  }

  lemma {:induction false} TrailingIsShort(seen: seq<Observation>)
    ensures Trailing(seen) <= |seen|
    decreases |seen|
  {
    if seen == [] {
    } else {
      TrailingIsShort(seen[..|seen| - 1]);
    }
  }

  /** Nothing changed at the last `count` observations of the run. */
  predicate UnchangedFor(s: Settings, initial: int, seen: seq<Observation>, count: nat)
    requires count <= |seen|
  {
    var c := After(s, initial, seen);
    forall n :: |seen| - count <= n <= |seen| ==>
      After(s, initial, seen[..n]).current == c.current && After(s, initial, seen[..n]).lastChange == c.lastChange
  }

  /** The observations since the last change are the last ones of the run. */
  lemma {:induction false} SinceIsASuffix(s: Settings, initial: int, seen: seq<Observation>)
    ensures var since := HistoryOf(s, initial, seen).since;
      |since| <= |seen| && since == seen[|seen| - |since|..]
    decreases |seen|
  {
    if seen == [] {
    } else {
      SinceIsASuffix(s, initial, seen[..|seen| - 1]);
    }
  }

  lemma UnchangedForNone(s: Settings, initial: int, seen: seq<Observation>)
    ensures UnchangedFor(s, initial, seen, 0)
  {
    assert seen[..|seen|] == seen;
  }

  lemma UnchangedForOneMore(s: Settings, initial: int, before: seq<Observation>, o: Observation, count: nat)
    requires count <= |before| && UnchangedFor(s, initial, before, count)
    requires var c, c' := After(s, initial, before), After(s, initial, before + [o]);
      c.current == c'.current && c.lastChange == c'.lastChange
    ensures UnchangedFor(s, initial, before + [o], count + 1)
  {
    var seen, c' := before + [o], After(s, initial, before + [o]);
    forall n | |seen| - (count + 1) <= n <= |seen|
      ensures After(s, initial, seen[..n]).current == c'.current
      ensures After(s, initial, seen[..n]).lastChange == c'.lastChange
    {
      if n <= |before| {
        assert seen[..n] == before[..n];
      } else {
        assert seen[..n] == seen;
      }
    }
  }

  /** Since then nothing changed. */
  lemma {:induction false} NothingChangedSince(s: Settings, initial: int, seen: seq<Observation>)
    ensures var since := HistoryOf(s, initial, seen).since;
      |since| <= |seen| && UnchangedFor(s, initial, seen, |since|)
    decreases |seen|
  {
    SinceIsASuffix(s, initial, seen);
    if seen == [] {
      UnchangedForNone(s, initial, seen);
    } else {
      var n := |seen| - 1;
      var before, o := seen[..n], seen[n];
      assert seen == before + [o];
      var h := HistoryOf(s, initial, before);
      if Moves(s, h, o) {
        UnchangedForNone(s, initial, seen);
      } else {
        NothingChangedSince(s, initial, before);
        ControllerFollowsTheHistory(s, initial, before);
        ControllerFollowsTheHistory(s, initial, seen);
        UnchangedForOneMore(s, initial, before, o, |h.since|);
      }
    }
  }

  lemma UnchangedForFewer(s: Settings, initial: int, seen: seq<Observation>, count: nat, fewer: nat)
    requires fewer <= count <= |seen| && UnchangedFor(s, initial, seen, count)
    ensures UnchangedFor(s, initial, seen, fewer)
  {
  }

  lemma MovesAreBacked(s: Settings, h: History, o: Observation, since: seq<Observation>, k: int)
    requires Moves(s, h, o) && k > 0 && since == h.since + [o] && k == Required(s, h.level, Target(o))
    ensures 0 < k <= |since| && AllTarget(since[|since| - k..], Target(o))
  {
    TrailingIsShort(since);
    TrailingMeansInARow(since, k);
  }

  /** The level changes exactly when the history says so. */
  lemma ChangeMeansMove(s: Settings, initial: int, seen: seq<Observation>, o: Observation)
    ensures var c := After(s, initial, seen);
      var h := HistoryOf(s, initial, seen);
      && c.current == h.level && c.lastChange == h.lastChange
      && (Observe(s, c, o).current != c.current <==> Moves(s, h, o))
      && (Moves(s, h, o) ==> Observe(s, c, o).current == Target(o))
  {
    ControllerFollowsTheHistory(s, initial, seen);
    TrailingSnoc(HistoryOf(s, initial, seen).since, o);
  }

  /** Each change of level follows the required number of observations in a row that all ask
      for the new level and all came after the change before, and it comes no sooner than the
      interval after that one. */
  lemma EveryChangeIsBacked(s: Settings, initial: int, seen: seq<Observation>, o: Observation)
    requires var before := After(s, initial, seen);
      Observe(s, before, o).current != before.current
    ensures var before := After(s, initial, seen);
      var required := if Target(o) < before.current then s.lowerObservations else s.raiseObservations;
      && Observe(s, before, o).current == Target(o)
      && (required > 0 ==>
            && required <= |seen| + 1 && AllTarget((seen + [o])[|seen| + 1 - required..], Target(o))
            && UnchangedFor(s, initial, seen, required - 1))
      && (before.lastChange.Some? ==> o.now - before.lastChange.value >= s.minChangeInterval)
  {
    ChangeMeansMove(s, initial, seen, o);
    SinceIsASuffix(s, initial, seen);
    var h := HistoryOf(s, initial, seen);
    var k := Required(s, h.level, Target(o));
    if k > 0 {
      MovesAreBacked(s, h, o, h.since + [o], k);
      SuffixOfASuffix(seen, h.since, o, k);
      NothingChangedSince(s, initial, seen);
      UnchangedForFewer(s, initial, seen, |h.since|, k - 1);
    }
  }

  /** With the settings in use: the level falls after three observations in a row that ask for the
      lower one, rises after ten that ask for the higher one, and never changes twice within five
      seconds. */
  lemma {:induction false} ThreeToLowerAndTenToRaise(initial: int, seen: seq<Observation>, o: Observation)
    requires var before := After(DEFAULTS, initial, seen);
      Observe(DEFAULTS, before, o).current != before.current
    ensures var before := After(DEFAULTS, initial, seen);
      var after := Observe(DEFAULTS, before, o);
      var k := if after.current < before.current then 3 else 10;
      && k <= |seen| + 1 && AllTarget((seen + [o])[|seen| + 1 - k..], after.current)
      && UnchangedFor(DEFAULTS, initial, seen, k - 1)
      && (before.lastChange.Some? ==> o.now - before.lastChange.value >= 5.0)
  {
    EveryChangeIsBacked(DEFAULTS, initial, seen, o);
  }

  lemma SuffixOfASuffix(seen: seq<Observation>, since: seq<Observation>, o: Observation, k: nat)
    requires |since| <= |seen| && since == seen[|seen| - |since|..] && k <= |since| + 1
    ensures (since + [o])[|since| + 1 - k..] == (seen + [o])[|seen| + 1 - k..]
  {
  }

  // ----- changes are spaced

  /** The times of the changes, oldest first. */
  function Changes(s: Settings, initial: int, seen: seq<Observation>): seq<real>
    decreases |seen|
  {
    if seen == [] then []
    else
      var n := |seen| - 1;
      var earlier := Changes(s, initial, seen[..n]);
      if After(s, initial, seen).current != After(s, initial, seen[..n]).current
      then earlier + [seen[n].now] else earlier
  }

  /** Any k changes span at least k - 1 intervals, whatever the clock does. */
  lemma {:induction false} ChangesAreSpaced(s: Settings, initial: int, seen: seq<Observation>)
    ensures var changes := Changes(s, initial, seen);
      var last := After(s, initial, seen).lastChange;
      && (last == None <==> changes == [])
      && (changes != [] ==> last == Some(changes[|changes| - 1]))
      && forall i :: 0 <= i < |changes| - 1 ==> changes[i + 1] - changes[i] >= s.minChangeInterval
    decreases |seen|
  {
    if seen == [] {
    } else {
      ChangesAreSpaced(s, initial, seen[..|seen| - 1]);
    }
  }

  lemma {:induction false} SpanOfChanges(s: Settings, initial: int, seen: seq<Observation>, i: nat, j: nat)
    requires i <= j < |Changes(s, initial, seen)|
    ensures var changes := Changes(s, initial, seen);
      changes[j] - changes[i] >= (j - i) as real * s.minChangeInterval
    decreases j
  {
    if i == j {
    } else {
      ChangesAreSpaced(s, initial, seen);
      SpanOfChanges(s, initial, seen, i, j - 1);
      var m := s.minChangeInterval;
      assert (j - i) as real * m == (j - 1 - i) as real * m + m;
    }
  }

  // ----- a constant target

  lemma AfterSnoc(s: Settings, initial: int, seen: seq<Observation>, steady: seq<Observation>)
    requires steady != []
    ensures var n := |steady| - 1;
      After(s, initial, seen + steady) == Observe(s, After(s, initial, seen + steady[..n]), steady[n])
  {
    var n := |steady| - 1;
    assert (seen + steady)[..|seen| + n] == seen + steady[..n];
  }

  lemma AllTargetParts(steady: seq<Observation>, level: int)
    requires steady != [] && AllTarget(steady, level)
    ensures AllTarget(steady[..|steady| - 1], level) && Target(steady[|steady| - 1]) == level
  {
    assert steady[|steady| - 1] in steady;
  }

  /** A level that is asked for all the time is never left. */
  lemma {:induction false} ReachedLevelStays(s: Settings, initial: int, seen: seq<Observation>, steady: seq<Observation>)
    requires AllTarget(steady, After(s, initial, seen).current)
    ensures After(s, initial, seen + steady).current == After(s, initial, seen).current
    decreases |steady|
  {
    if steady == [] {
      assert seen + steady == seen;
    } else {
      var n := |steady| - 1;
      AllTargetParts(steady, After(s, initial, seen).current);
      ReachedLevelStays(s, initial, seen, steady[..n]);
      AfterSnoc(s, initial, seen, steady);
    }
  }

  /** While the target is constant and the level has not moved, the count is at least the
      number of observations. */
  lemma {:induction false} CountGrows(s: Settings, initial: int, seen: seq<Observation>,
                                      steady: seq<Observation>, level: int)
    requires AllTarget(steady, level) && level != After(s, initial, seen).current
    ensures var c := After(s, initial, seen);
      var c' := After(s, initial, seen + steady);
      || c'.current == level
      || (c'.current == c.current && c'.lastChange == c.lastChange
          && (steady != [] ==> c'.candidate == Some(level) && c'.candidateCount >= |steady|))
    decreases |steady|
  {
    if steady == [] {
      assert seen + steady == seen;
    } else {
      var n := |steady| - 1;
      AllTargetParts(steady, level);
      CountGrows(s, initial, seen, steady[..n], level);
      AfterSnoc(s, initial, seen, steady);
    }
  }

  /** Under a constant target the level is there as soon as both thresholds are met: enough
      observations, and the interval since the last change over. */
  lemma {:induction false} ConstantTargetIsReached(s: Settings, initial: int, seen: seq<Observation>,
                                                   steady: seq<Observation>, level: int)
    requires steady != [] && AllTarget(steady, level)
    requires var c := After(s, initial, seen);
      c.current != level ==>
        && |steady| >= (if level < c.current then s.lowerObservations else s.raiseObservations)
        && (c.lastChange.Some? ==> steady[|steady| - 1].now - c.lastChange.value >= s.minChangeInterval)
    ensures After(s, initial, seen + steady).current == level
  {
    var c, n := After(s, initial, seen), |steady| - 1;
    if c.current == level {
      ReachedLevelStays(s, initial, seen, steady);
    } else {
      AllTargetParts(steady, level);
      CountGrows(s, initial, seen, steady[..n], level);
      AfterSnoc(s, initial, seen, steady);
    }
  }
}
