/**
 Numbering of audio frames: sequence numbers modulo 2^32 stand for an unbounded count.
 */
module AudioSequence {
  import opened Wrappers

  const MAX_PACKETS := 2
  const SPACE := 0x1_0000_0000
  const HALF_SPACE := 0x8000_0000

  datatype Verdict = Accepted | Missing | Duplicate | Old

  datatype ParameterError = InvalidParameters

  datatype Tracker = Tracker(expected: Option<nat>, missing: nat)

  const FRESH := Tracker(None, 0)

  function NextSequence(sequence: nat, count: nat): (next: nat)
    ensures next < SPACE
  {
    (sequence + count) % SPACE
  }

  predicate AreParameters(sequence: int, count: int) {
    0 <= sequence < SPACE && 1 <= count <= MAX_PACKETS
  }

  /** The tracker as it is, on values modulo 2^32. */
  function Classify(t: Tracker, sequence: nat, count: nat): (Tracker, Verdict)
    requires AreParameters(sequence, count)
  {
    var next := Some(NextSequence(sequence, count));
    match t.expected
    case None => (Tracker(next, 0), Accepted)
    case Some(expected) =>
      var distance := (sequence - expected) % SPACE;
      if distance == 0 then (Tracker(next, 0), Accepted)
      else if distance < HALF_SPACE then (Tracker(next, distance), Missing)
      else (Tracker(t.expected, 0), if sequence == (expected - count) % SPACE then Duplicate else Old)
  }

  class SequenceTracker {
    var expected: Option<nat>
    var missingCount: nat

    constructor ()
      ensures State() == FRESH
    {
      expected, missingCount := None, 0;
    }

    function State(): Tracker
      reads this
    {
      Tracker(expected, missingCount)
    }

    method Reset()
      modifies this
      ensures State() == FRESH
    {
      expected, missingCount := None, 0;
    }

    /** Parameters out of range raise and change nothing. */
    method Accept(sequence: int, count: int) returns (r: Result<Verdict, ParameterError>)
      modifies this
      ensures r.Ok? <==> AreParameters(sequence, count)
      ensures r.Ok? ==> (State(), r.value) == Classify(old(State()), sequence, count)
      ensures r.Err? ==> State() == old(State())
    {
      if !(0 <= sequence < SPACE) || !(1 <= count <= MAX_PACKETS) {
        return Err(InvalidParameters);
      }
      missingCount := 0;
      if expected == None {
        expected := Some(NextSequence(sequence, count));
        return Ok(Accepted);
      }
      var distance := (sequence - expected.value) % SPACE;
      if distance == 0 {
        expected := Some(NextSequence(sequence, count));
        return Ok(Accepted);
      }
      if distance < HALF_SPACE {
        missingCount := distance;
        expected := Some(NextSequence(sequence, count));
        return Ok(Missing);
      }
      r := Ok(if sequence == (expected.value - count) % SPACE then Duplicate else Old);
    }
  }

  // ----- the same on an unbounded count

  /** A tracker of true frame numbers: what comes late is told from what is new by order alone. */
  function TrueClassify(t: Tracker, start: nat, count: nat): (Tracker, Verdict) {
    match t.expected
    case None => (Tracker(Some(start + count), 0), Accepted)
    case Some(expected) =>
      if start == expected then (Tracker(Some(start + count), 0), Accepted)
      else if start > expected then (Tracker(Some(start + count), start - expected), Missing)
      else (Tracker(Some(expected), 0), if start + count == expected then Duplicate else Old)
  }

  function Wrapped(t: Tracker): Tracker {
    Tracker(if t.expected == None then None else Some(t.expected.value % SPACE), t.missing)
  }

  /** The group starts less than half the number space from what is expected. */
  predicate Near(t: Tracker, start: nat) {
    t.expected == None || t.expected.value - HALF_SPACE <= start < t.expected.value + HALF_SPACE
  }

  lemma ModDifference(a: int, b: int)
    ensures (a % SPACE - b % SPACE) % SPACE == (a - b) % SPACE
  {
    assert a == SPACE * (a / SPACE) + a % SPACE;
    assert b == SPACE * (b / SPACE) + b % SPACE;
    var k := a / SPACE - b / SPACE;
    ModShift(a % SPACE - b % SPACE, k);
  }

  lemma ModShift(x: int, k: int)
    ensures (x + SPACE * k) % SPACE == x % SPACE
  {
  }

  lemma ModSmall(d: int)
    requires -HALF_SPACE <= d < HALF_SPACE
    ensures d % SPACE == if d >= 0 then d else d + SPACE
  {
    if d < 0 {
      ModShift(d, 1);
    }
  }

  lemma ModSum(a: nat, n: nat)
    ensures (a % SPACE + n) % SPACE == (a + n) % SPACE
  {
    assert a + n == a % SPACE + n + SPACE * (a / SPACE);
    ModShift(a % SPACE + n, a / SPACE);
  }

  lemma ModEqualOnlyWhenEqual(x: int, y: int)
    requires -SPACE < x - y < SPACE
    ensures x % SPACE == y % SPACE <==> x == y
  {
    if x % SPACE == y % SPACE {
      var k := x / SPACE - y / SPACE;
      assert x - y == SPACE * k;
    }
  }

  /** The group just before what is expected is recognised by its number. */
  lemma DuplicateByNumber(expected: nat, start: nat, count: nat)
    requires 1 <= count <= MAX_PACKETS && expected - HALF_SPACE <= start < expected
    ensures start % SPACE == (expected % SPACE - count) % SPACE <==> start + count == expected
  {
    ModDifference(expected, count);
    ModEqualOnlyWhenEqual(start, expected - count);
  }

  /** One group: the verdict, the number of missing frames and the new expectation are those of
      the unbounded tracker. */
  lemma ClassifyRefines(t: Tracker, start: nat, count: nat)
    requires 1 <= count <= MAX_PACKETS && Near(t, start)
    ensures var (truth, verdict) := TrueClassify(t, start, count);
      Classify(Wrapped(t), start % SPACE, count) == (Wrapped(truth), verdict)
  {
    ModSum(start, count);
    if t.expected.Some? {
      var expected := t.expected.value;
      ModDifference(start, expected);
      ModSmall(start - expected);
      if start < expected {
        DuplicateByNumber(expected, start, count);
      }
    }
  }

  /** How far behind what is expected a group seems to start, for numbers that wrap around. */
  function Behind(expected: nat, start: nat): nat {
    (expected - start) % SPACE
  }

  /** The groups a tracker that only sees numbers modulo 2^32 can judge: less than half the space
      ahead, or seemingly at most half of it behind, and then not in the place of the group just
      before what is expected, unless it is that group. */
  predicate IsJudgeable(expected: nat, start: nat, count: nat) {
    if start >= expected then start < expected + HALF_SPACE
    else
      && 0 < Behind(expected, start) <= HALF_SPACE
      && (Behind(expected, start) == count ==> start + count == expected)
  }

  lemma DistanceBehind(expected: nat, start: nat)
    requires start < expected
    ensures (start % SPACE - expected % SPACE) % SPACE ==
      if Behind(expected, start) == 0 then 0 else SPACE - Behind(expected, start)
  {
    ModDifference(start, expected);
    var d := expected - start;
    assert -d == -(d % SPACE) + SPACE * (-(d / SPACE));
    ModShift(-(d % SPACE), -(d / SPACE));
    if d % SPACE > 0 {
      ModShift(-(d % SPACE), 1);
    }
  }

  lemma PlaceOfTheGroupBefore(expected: nat, start: nat, count: nat)
    requires 1 <= count <= MAX_PACKETS && start < expected
    ensures start % SPACE == (expected % SPACE - count) % SPACE <==> Behind(expected, start) == count
  {
    ModDifference(expected, count);
    ModDifference(expected, start);
    if start % SPACE == (expected - count) % SPACE {
      ModDifference(start, expected - count);
      var d := expected - start;
      ModShiftBack(d, count);
    } else if Behind(expected, start) == count {
      var d := expected - start;
      var k := d / SPACE;
      assert start == expected - count + SPACE * (-k);
      ModShift(expected - count, -k);
    }
  }

  lemma ModShiftBack(d: int, count: nat)
    requires count < SPACE && (count - d) % SPACE == 0
    ensures d % SPACE == count
  {
    var k := (count - d) / SPACE;
    assert d == count + SPACE * (-k);
    ModShift(count, -k);
  }

  /** The tracker answers as the unbounded one for exactly these groups, early or late. */
  lemma ClassifyIsRightExactlyWhenJudgeable(expected: nat, start: nat, count: nat)
    requires 1 <= count <= MAX_PACKETS
    ensures var t := Tracker(Some(expected), 0);
      var (truth, verdict) := TrueClassify(t, start, count);
      Classify(Wrapped(t), start % SPACE, count) == (Wrapped(truth), verdict)
      <==> IsJudgeable(expected, start, count)
  {
    var t := Tracker(Some(expected), 0);
    if start < expected {
      DistanceBehind(expected, start);
      PlaceOfTheGroupBefore(expected, start, count);
    } else if start < expected + HALF_SPACE {
      ClassifyRefines(t, start, count);
    } else {
      ModDifference(start, expected);
    }
  }

  // ----- over whole runs

  datatype Frames = Frames(start: nat, count: nat)

  type Group = g: Frames | 1 <= g.count <= MAX_PACKETS
    witness Frames(0, 1)

  function Verdicts(t: Tracker, groups: seq<Group>): seq<(Tracker, Verdict)>
    decreases |groups|
  {
    if groups == [] then []
    else
      var step := Classify(t, groups[0].start % SPACE, groups[0].count);
      [step] + Verdicts(step.0, groups[1..])
  }

  function TrueVerdicts(t: Tracker, groups: seq<Group>): seq<(Tracker, Verdict)>
    decreases |groups|
  {
    if groups == [] then []
    else
      var step := TrueClassify(t, groups[0].start, groups[0].count);
      [step] + TrueVerdicts(step.0, groups[1..])
  }

  /** Every group starts near what the unbounded tracker expects when it comes. */
  predicate AllNear(t: Tracker, groups: seq<Group>)
    decreases |groups|
  {
    groups == [] ||
    (Near(t, groups[0].start) && AllNear(TrueClassify(t, groups[0].start, groups[0].count).0, groups[1..]))
  }

  /** What the unbounded tracker does, on values modulo 2^32. */
  function WrappedAll(steps: seq<(Tracker, Verdict)>): seq<(Tracker, Verdict)> {
    seq(|steps|, i requires 0 <= i < |steps| => (Wrapped(steps[i].0), steps[i].1))
  }

  /** Over any number of wrap-arounds, the tracker answers as the unbounded one. */
  lemma {:induction false} TrackerRefinesTheCount(t: Tracker, groups: seq<Group>)
    requires AllNear(t, groups)
    ensures Verdicts(Wrapped(t), groups) == WrappedAll(TrueVerdicts(t, groups))
    decreases |groups|
  {
    if groups == [] {
    } else {
      var step := TrueClassify(t, groups[0].start, groups[0].count);
      ClassifyRefines(t, groups[0].start, groups[0].count);
      TrackerRefinesTheCount(step.0, groups[1..]);
      var more := TrueVerdicts(step.0, groups[1..]);
      assert WrappedAll([step] + more) == [(Wrapped(step.0), step.1)] + WrappedAll(more);
    }
  }

  /** The groups taken for decoding: accepted, or after missing frames. */
  function Taken(verdicts: seq<(Tracker, Verdict)>, groups: seq<Group>): seq<Group>
    requires |verdicts| == |groups|
    decreases |groups|
  {
    if groups == [] then []
    else (if verdicts[0].1 == Accepted || verdicts[0].1 == Missing then [groups[0]] else [])
         + Taken(verdicts[1..], groups[1..])
  }

  /** Each group starts where the one before it ends, or later. */
  predicate Disjoint(from: nat, groups: seq<Group>)
    decreases |groups|
  {
    groups == [] || (from <= groups[0].start && Disjoint(groups[0].start + groups[0].count, groups[1..]))
  }

  lemma {:induction false} TrueTakenAreDisjoint(t: Tracker, groups: seq<Group>)
    ensures |TrueVerdicts(t, groups)| == |groups|
    ensures Disjoint(if t.expected.Some? then t.expected.value else 0, Taken(TrueVerdicts(t, groups), groups))
    decreases |groups|
  {
    if groups == [] {
    } else {
      var step := TrueClassify(t, groups[0].start, groups[0].count);
      TrueTakenAreDisjoint(step.0, groups[1..]);
      var later := Taken(TrueVerdicts(step.0, groups[1..]), groups[1..]);
      if step.1 == Accepted || step.1 == Missing {
        assert ([groups[0]] + later)[1..] == later;
      } else {
        assert [] + later == later;
      }
    }
  }

  lemma {:induction false} TakenOfWrapped(steps: seq<(Tracker, Verdict)>, groups: seq<Group>)
    requires |steps| == |groups|
    ensures Taken(WrappedAll(steps), groups) == Taken(steps, groups)
    decreases |groups|
  {
    if groups == [] {
    } else {
      TakenOfWrapped(steps[1..], groups[1..]);
      assert WrappedAll(steps)[1..] == WrappedAll(steps[1..]);
    }
  }

  /** No frame is decoded twice: the groups the tracker takes cover disjoint, increasing ranges
      of true frame numbers. */
  lemma {:induction false} NoFrameIsTakenTwice(groups: seq<Group>)
    requires AllNear(FRESH, groups)
    ensures |Verdicts(FRESH, groups)| == |groups|
    ensures Disjoint(0, Taken(Verdicts(FRESH, groups), groups))
  {
    assert Wrapped(FRESH) == FRESH;
    TrackerRefinesTheCount(FRESH, groups);
    TrueTakenAreDisjoint(FRESH, groups);
    TakenOfWrapped(TrueVerdicts(FRESH, groups), groups);
  }
}
