/** One refresh of the radar display: load the log, trim it to the window, sweep the beam,
    run the tracker and describe what is drawn. */
module Radar {
  import opened Readings
  import opened Tracker
  import opened Sweep

  /** What one frame draws: the fading beam trail, every reading of the window as a raw
      point, and the tracked readings. */
  datatype Frame = Frame(trail: seq<TrailLine>, points: seq<Reading>, tracked: seq<Reading>)

  /** The two waiting messages stop the frame before anything is drawn. */
  datatype FrameOutcome = WaitingForSensorData | NoAngleData | Rendered(frame: Frame)

  /** One pass of the display script. `log` is the content of the readings file, None when it
      could not be read. The stored sweep index is reduced modulo the angle-list length before
      the lookup, so a frame with data always renders. */
  method RunFrame(session: SweepSession, log: Option<seq<Reading>>) returns (outcome: FrameOutcome)
    requires session.Valid()
    modifies session
    ensures session.Valid()
    ensures log.None? ==> outcome == WaitingForSensorData && session.State() == old(session.State())
    ensures log == Some([]) ==> outcome == NoAngleData && session.State() == old(session.State())
    ensures log.Some? && log.value != [] ==>
      var window := Window(log.value);
      && outcome.Rendered?
      && session.State() == NextState(old(session.State()), AngleList(window))
      && outcome.frame == Frame(TrailOf(session.angleHistory), window, Tracked(window))
  {
    if log.None? {
      return WaitingForSensorData;
    }
    var window := Window(log.value);
    var angleList := AngleList(window);
    if angleList == [] {
      return NoAngleData;
    }
    var frame := RenderFrame(session, window, angleList);
    outcome := Rendered(frame);
  }

  /** Lines 40-113 for a window with data: sweep the beam, run the tracker, draw the trail. */
  method RenderFrame(session: SweepSession, window: seq<Reading>, angleList: seq<int>) returns (frame: Frame)
    requires session.Valid() && angleList != []
    modifies session
    ensures session.Valid()
    ensures session.State() == NextState(old(session.State()), angleList)
    ensures frame == Frame(TrailOf(session.angleHistory), window, Tracked(window))
  {
    var current := session.RecordCurrentAngle(angleList);
    var tracked, tally := TrackObjects(window);
    var trail := TrailLines(session.angleHistory);
    session.AdvanceSweep(angleList);
    frame := Frame(trail, window, tracked);
  }

  /** When the last WINDOW_SIZE readings all share one angle, the window has a single
      distinct angle. */
  lemma SingleAngleWindow(log: seq<Reading>, a: int)
    requires |log| >= WINDOW_SIZE
    requires forall i :: |log| - WINDOW_SIZE <= i < |log| ==> log[i].angle == a
    ensures AngleList(Window(log)) == [a]
  {
    var w := Window(log);
    assert w[0].angle == a;
    forall b ensures b in [a] <==> b in Angles(w) {
      if b in Angles(w) {
        var r :| r in w && r.angle == b;
        var i :| 0 <= i < |w| && w[i] == r;
      }
    }
    AngleListUnique(w, [a]);
  }

  /** The index fault of the source: after one frame over readings at 0 and 90 degrees the beam
      stands at index 1; once 50 newer readings at 0 degrees fill the window, the distinct-angle
      list is [0] and the source's lookup at index 1 fails, where the guarded step sweeps 0. */
  lemma ShrinkingAngleListFault()
    ensures
      var log1 := [Reading(0, 10), Reading(90, 10)];
      var log2 := log1 + seq(WINDOW_SIZE, _ => Reading(0, 10));
      var s1 := NextState(Initial, AngleList(Window(log1)));
      && s1 == SweepState(1, [0])
      && AngleList(Window(log2)) == [0]
      && NextStateAsWritten(s1, AngleList(Window(log2))) == None
      && NextState(s1, AngleList(Window(log2))) == SweepState(0, [0, 0])
  {
    var log1 := [Reading(0, 10), Reading(90, 10)];
    var log2 := log1 + seq(WINDOW_SIZE, _ => Reading(0, 10));
    assert Window(log1) == log1;
    forall b ensures b in [0, 90] <==> b in Angles(log1) {
      assert log1[0] in log1 && log1[1] in log1;
    }
    AngleListUnique(log1, [0, 90]);
    assert AngleList(Window(log1)) == [0, 90];
    SingleAngleWindow(log2, 0);
    ShrinkingSweep();
  }
}
