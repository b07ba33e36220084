/** The sweep state machine: a beam that steps through the window's distinct angles, and the
    fading trail of the angles it swept last. */
module Sweep {
  import opened Seqs

  /** How many swept angles the trail shows. */
  const BEAM_TRAIL_LENGTH: nat := 5

  datatype Option<T> = None | Some(value: T)

  /** Lines 41-45: append the swept angle and, when the trail is now too long, keep only its
      newest BEAM_TRAIL_LENGTH entries. */
  function PushTrail(trail: seq<int>, angle: int): (t: seq<int>)
    ensures |t| == Min(BEAM_TRAIL_LENGTH, |trail| + 1)
    ensures t[|t| - 1] == angle
    ensures forall i :: 0 <= i < |t| - 1 ==> t[i] == trail[|trail| + 1 - |t| + i]
  {
    var h := trail + [angle];
    if |h| > BEAM_TRAIL_LENGTH then h[|h| - BEAM_TRAIL_LENGTH..] else h
  }

  /** The trail after each angle of `angles` was pushed in turn. */
  function PushAll(trail: seq<int>, angles: seq<int>): seq<int>
    decreases |angles|
  {
    if angles == [] then trail else PushAll(PushTrail(trail, angles[0]), angles[1..])
  }

  /** The trail update keeps the newest BEAM_TRAIL_LENGTH entries of the old trail followed
      by the new angle. */
  lemma PushTrailIsLast(trail: seq<int>, angle: int)
    ensures PushTrail(trail, angle) == Last(trail + [angle], BEAM_TRAIL_LENGTH)
  {
  }

  lemma LastOfLast<T>(x: seq<T>, y: seq<T>, n: nat)
    ensures Last(Last(x, n) + y, n) == Last(x + y, n)
  {
    var l := Last(x, n);
    if |x| > n {
      assert x + y == x[..|x| - n] + (l + y);
    }
  }

  lemma LastStep(s: seq<int>, a: int, rest: seq<int>, n: nat)
    ensures Last(Last(s + [a], n) + rest, n) == Last(s + ([a] + rest), n)
  {
    LastOfLast(s + [a], rest, n);
    assert s + [a] + rest == s + ([a] + rest);
  }

  /** Pushing any run of angles leaves the newest BEAM_TRAIL_LENGTH of everything pushed,
      so the trail never holds more than that and drops the oldest first. */
  lemma {:induction false} PushAllIsLast(trail: seq<int>, angles: seq<int>)
    requires |trail| <= BEAM_TRAIL_LENGTH
    ensures PushAll(trail, angles) == Last(trail + angles, BEAM_TRAIL_LENGTH)
    decreases |angles|
  {
    if angles == [] {
      assert trail + angles == trail;
    } else {
      var a, rest := angles[0], angles[1..];
      var t := PushTrail(trail, a);
      PushAllIsLast(t, rest);
      PushTrailIsLast(trail, a);
      LastStep(trail, a, rest, BEAM_TRAIL_LENGTH);
      assert angles == [a] + rest;
    }
  }

  /** Line 68: the opacity of the trail line at newest-first position `i`. */
  function Opacity(i: nat): real
  {
    1.0 - i as real / BEAM_TRAIL_LENGTH as real
  }

  /** One line of the fading trail. */
  datatype TrailLine = TrailLine(angle: int, opacity: real)

  /** Lines 67-68: the trail newest first, each entry with the opacity of its position. The
      newest line is fully opaque and each older one fainter; with at most BEAM_TRAIL_LENGTH
      entries every line stays visible. */
  function TrailOf(trail: seq<int>): (lines: seq<TrailLine>)
    ensures |lines| == |trail|
    ensures forall i :: 0 <= i < |lines| ==> lines[i].angle == trail[|trail| - 1 - i]
    ensures |lines| > 0 ==> lines[0].opacity == 1.0
    ensures forall i, j :: 0 <= i < j < |lines| ==> lines[i].opacity > lines[j].opacity
    ensures |trail| <= BEAM_TRAIL_LENGTH ==>
      forall i :: 0 <= i < |lines| ==> 0.0 < lines[i].opacity <= 1.0
  {
    seq(|trail|, i requires 0 <= i < |trail| => TrailLine(trail[|trail| - 1 - i], Opacity(i)))
  }

  /** The loop of lines 67-68 that walks the reversed trail and gives each line its opacity. */
  method TrailLines(trail: seq<int>) returns (lines: seq<TrailLine>)
    ensures lines == TrailOf(trail)
  {
    lines := [];
    var i := 0;
    while i < |trail|
      invariant 0 <= i <= |trail|
      invariant lines == TrailOf(trail)[..i]
    {
      var angle := trail[|trail| - 1 - i];
      lines := lines + [TrailLine(angle, 1.0 - i as real / BEAM_TRAIL_LENGTH as real)];
      i := i + 1;
    }
  }

  /** The session's sweep state: the beam position and the trail. */
  datatype SweepState = SweepState(sweepIndex: nat, trail: seq<int>)

  /** Lines 27-28 and 37-38: the state a new session starts in. */
  const Initial := SweepState(0, [])

  /** Lines 40-45 and 113 as written: the stored index is used as it is, so when the
      distinct-angle list has become shorter than it, the lookup fails (None). */
  function NextStateAsWritten(s: SweepState, angleList: seq<int>): (r: Option<SweepState>)
    requires angleList != []
    ensures r.None? <==> s.sweepIndex >= |angleList|
  {
    if s.sweepIndex < |angleList| then
      var current := angleList[s.sweepIndex];
      Some(SweepState((s.sweepIndex + 1) % |angleList|, PushTrail(s.trail, current)))
    else None
  }

  /** One frame of the sweep with the index reduced modulo the list length before the lookup:
      it always succeeds, sweeps an angle of the list and leaves the beam inside the list. */
  function NextState(s: SweepState, angleList: seq<int>): (r: SweepState)
    requires angleList != []
    ensures r.sweepIndex < |angleList|
    ensures r.trail != [] && r.trail[|r.trail| - 1] in angleList
    ensures |s.trail| <= BEAM_TRAIL_LENGTH ==> |r.trail| <= BEAM_TRAIL_LENGTH
  {
    var i := s.sweepIndex % |angleList|;
    SweepState((i + 1) % |angleList|, PushTrail(s.trail, angleList[i]))
  }

  /** Wherever the source's own step succeeds, the guarded step does the same. */
  lemma NextStateRefinesAsWritten(s: SweepState, angleList: seq<int>)
    requires angleList != []
    ensures s.sweepIndex < |angleList| ==> NextStateAsWritten(s, angleList) == Some(NextState(s, angleList))
  {
    if s.sweepIndex < |angleList| {
      ModUnique(s.sweepIndex, |angleList|, 0, s.sweepIndex);
    }
  }

  /** The source's step can only fail on a frame whose angle list is shorter than the last
      frame's: from a state the guarded step produced, a list at least as long never faults. */
  lemma AsWrittenSafeWithoutShrinking(s: SweepState, before: seq<int>, after: seq<int>)
    requires before != [] && |after| >= |before|
    ensures NextStateAsWritten(NextState(s, before), after).Some?
  {
  }

  lemma ModSucc(a: nat, n: nat)
    requires n > 0
    ensures (a % n + 1) % n == (a + 1) % n
  {
    var q, r := a / n, a % n;
    assert a == q * n + r;
    if r + 1 < n {
      ModUnique(a + 1, n, q, r + 1);
    } else {
      assert (q + 1) * n == q * n + n;
      ModUnique(a + 1, n, q + 1, 0);
      ModUnique(n, n, 1, 0);
    }
  }

  lemma ModUnique(x: int, n: int, q: int, r: int)
    requires n > 0 && 0 <= r < n && x == q * n + r
    ensures x % n == r
  {
    var q', r' := x / n, x % n;
    var d := q - q';
    assert d * n == r' - r by {
      assert q * n - q' * n == (q - q') * n;
    }
    if d != 0 {
      MulBound(d, n);
    }
  }

  lemma MulBound(d: int, n: int)
    requires n > 0 && d != 0
    ensures d * n >= n || d * n <= -n
  {
    if d > 0 {
      MulNonNegative(d - 1, n);
      assert d * n == (d - 1) * n + n;
    } else {
      MulNonNegative(-d - 1, n);
      assert d * n == -((-d - 1) * n) - n;
    }
  }

  lemma MulNonNegative(d: nat, n: nat)
    ensures d * n >= 0
  {
  }

  /** The guarded step advances the beam exactly as line 113 does: one place, wrapping. */
  lemma NextIndex(s: SweepState, angleList: seq<int>)
    requires angleList != []
    ensures NextState(s, angleList).sweepIndex == (s.sweepIndex + 1) % |angleList|
  {
    ModSucc(s.sweepIndex, |angleList|);
  }

  /** From any trail of at most BEAM_TRAIL_LENGTH, once that many angles or more have been
      swept the trail holds exactly the newest BEAM_TRAIL_LENGTH of them, in sweep order. */
  lemma TrailAfterManyFrames(trail: seq<int>, angles: seq<int>)
    requires |trail| <= BEAM_TRAIL_LENGTH <= |angles|
    ensures PushAll(trail, angles) == angles[|angles| - BEAM_TRAIL_LENGTH..]
  {
    PushAllIsLast(trail, angles);
    var h := trail + angles;
    assert h[|h| - BEAM_TRAIL_LENGTH..] == angles[|angles| - BEAM_TRAIL_LENGTH..];
  }

  /** Two distinct angles, then one: the source's lookup faults on the second frame, the
      guarded step sweeps the only angle. */
  lemma ShrinkingSweep()
    ensures NextState(Initial, [0, 90]) == SweepState(1, [0])
    ensures NextStateAsWritten(SweepState(1, [0]), [0]) == None
    ensures NextState(SweepState(1, [0]), [0]) == SweepState(0, [0, 0])
  {
  }

  /** The beam wraps from the last distinct angle back to the first. */
  lemma WrapAroundExample()
    ensures NextState(SweepState(3, []), [0, 90, 180, 270]) == SweepState(0, [270])
  {
  }

  /** The per-session state of the display, updated once per frame. */
  class SweepSession {
    var sweepIndex: nat
    var angleHistory: seq<int>

    ghost predicate Valid()
      reads this
    {
      |angleHistory| <= BEAM_TRAIL_LENGTH
    }

    function State(): SweepState
      reads this
    {
      SweepState(sweepIndex, angleHistory)
    }

    /** Lines 27-28 and 37-38: a new session starts at the first angle with an empty trail. */
    constructor ()
      ensures Valid() && State() == Initial
    {
      sweepIndex := 0;
      angleHistory := [];
    }

    /** Lines 40-45, with the stored index first reduced modulo the list length: looks up the
        current angle and pushes it onto the trail. */
    method RecordCurrentAngle(angleList: seq<int>) returns (current: int)
      requires Valid() && angleList != []
      modifies this
      ensures Valid()
      ensures sweepIndex == old(sweepIndex) % |angleList|
      ensures current == angleList[sweepIndex]
      ensures angleHistory == PushTrail(old(angleHistory), current)
    {
      sweepIndex := sweepIndex % |angleList|;
      current := angleList[sweepIndex];
      angleHistory := angleHistory + [current];
      if |angleHistory| > BEAM_TRAIL_LENGTH {
        angleHistory := angleHistory[|angleHistory| - BEAM_TRAIL_LENGTH..];
      }
    }

    /** Line 113: steps the beam to the next distinct angle, wrapping after the last. */
    method AdvanceSweep(angleList: seq<int>)
      requires angleList != []
      modifies this`sweepIndex
      ensures sweepIndex == (old(sweepIndex) + 1) % |angleList|
      ensures sweepIndex < |angleList|
    {
      sweepIndex := (sweepIndex + 1) % |angleList|;
    }
  }
}
