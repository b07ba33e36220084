# Object-tracking radar display — Dafny model

This project models one refresh of the radar display script (`radar-display.py`). The sensor's
readings (beam angle in degrees, distance in cm) are logged to a file. On every refresh the
display does five things:

1. It keeps the 50 most recent readings, the **window**.
2. It lists the window's distinct angles in ascending order. An empty list stops the frame with
   "No angle data yet".
3. It advances a **sweep**: the beam at `sweep_index` in that list is appended to a fading
   **trail** of at most `BEAM_TRAIL_LENGTH = 5` angles. After drawing, the index moves one place,
   wrapping around. The index and the trail are the only state kept between frames.
4. It runs the **bucketed object tracker**. Each reading falls into a 10-degree sector
   (`angle // 10 * 10`) and a 5 cm ring (`round(distance / 5) * 5`). A tally per
   (sector, ring) bucket is bumped in window order. Right after the bump, the raw reading is
   emitted as tracked when the tally is at least 2.
5. It hands the trail (newest first, opacity `1 - i/5`), the raw points and the tracked points
   to the plotting library.

Modules, one per component of the script:

- `Seqs` (`seqs.dfy`): `Last`, the "newest n entries" helper that models `tail(50)`.
  `Sweep.PushTrailIsLast` proves that the trail slice equals it.
- `Readings` (`readings.dfy`): the `Reading` record, the window and the sorted distinct angles.
- `Tracker` (`tracker.dfy`): the bucket formulas and a reference specification of the tracker:
  - `Count` and `Tally` give the per-bucket counts;
  - `Tracked` gives the readings whose bucket already occurred earlier in the window.
  
  It also holds `TrackObjects`, the loop of lines 48-61 over a `map<(int, int), nat>`, proved
  equal to that specification.
- `Sweep` (`sweep.dfy`): the trail update, the opacities and the sweep step as pure functions on
  a `SweepState` value. It also holds the `SweepSession` class: its two fields are the
  session-state entries `sweep_index` and `angle_history`, and its methods update them in place.
- `Radar` (`radar.dfy`): `RunFrame`, one whole refresh. It returns `WaitingForSensorData`,
  `NoAngleData` or the rendered `Frame`.

Angles and distances are modelled as `int`. For integers, Dafny's `/` by a positive constant is
Python's `//`. `round(d / 5) * 5` equals `(d + 2) / 5 * 5`. Both facts are proved against a
real-number model of Python's floor and of its round-half-to-even. Opacity is an exact `real`.

Only the second and later readings of a bucket are tracked, because the first reading raises its
tally only to 1 (lines 55-61). `Tracker.TwoInBucketScenario` proves this for (12, 50), (15, 48),
(88, 10): only (15, 48) is tracked.

## Model

| member | source | states |
|---|---|---|
| Readings.Window | radar-display.py:24 | The window has exactly min(50, n) readings. They are the last readings of the log, in log order. |
| Readings.SortedDistinct | radar-display.py:31 | The result is strictly ascending and holds exactly the values of its input. |
| Readings.AngleList | radar-display.py:31-34 | The angle list is strictly ascending. Its elements are exactly the window's angles. It is empty exactly when the window is empty, which is the "No angle data yet" stop. |
| Readings.AngleListUnique | radar-display.py:31 | Any strictly ascending list of exactly the window's angles is the angle list, so `sorted(unique())` is fully determined. |
| Readings.AngleListBound | radar-display.py:31 | The window has no more distinct angles than readings. |
| Tracker.AngleBucket | radar-display.py:52 | The sector key is a multiple of 10 with key <= angle < key + 10. |
| Tracker.DistanceBucket | radar-display.py:53 | The ring key is a multiple of 5 within 2 of the distance. |
| Tracker.AngleBucketIsFloorDivision | radar-display.py:52 | The integer sector formula equals flooring angle / 10 (Python `//`) and multiplying by 10. |
| Tracker.DistanceBucketIsPythonRound | radar-display.py:53 | The integer ring formula equals Python's round-half-to-even of distance / 5, times 5. |
| Tracker.TallyAppend | radar-display.py:55-58 | One more reading adds 1 to its bucket's tally, or enters the bucket with tally 1 if it is new. |
| Tracker.TrackObjects | radar-display.py:48-61 | After the loop, the dictionary maps each bucket of the window to its number of readings. The emitted list is the window's readings whose bucket occurred at an earlier position, in window order. |
| Tracker.TallyTotal | radar-display.py:49-58 | The tallies add up to the window length. |
| Tracker.TrackedLength | radar-display.py:55-61 | The number of tracked points is the window length minus the number of distinct buckets. |
| Tracker.TrackedPerBucket | radar-display.py:55-61 | A bucket with n readings contributes n - 1 tracked points. A bucket that is absent contributes none. |
| Tracker.TrackedIsSubsequence | radar-display.py:51-61 | The tracked list is the window taken at strictly increasing positions. The reading at position j is tracked if and only if an earlier reading shares its bucket. |
| Tracker.FirstOfBucketNotTracked | radar-display.py:55-61 | The first reading of a bucket is never tracked. |
| Tracker.TrackedFromWindow | radar-display.py:61 | Every tracked point is a raw reading of the window, not a bucket centre. |
| Tracker.RepeatedBucketScenario | radar-display.py:51-61 | (0,20), (10,20), (20,80) track nothing. Appending (3,22) tracks (3,22) alone, not the earlier (0,20) of the same bucket. |
| Tracker.TwoInBucketScenario | radar-display.py:51-61 | In (12,50), (15,48), (88,10), only (15,48) is tracked. The lone (88,10) is not. |
| Sweep.PushTrail | radar-display.py:41-45 | The new trail ends with the swept angle and has min(5, old length + 1) entries. Its older entries are the newest entries of the old trail. |
| Sweep.PushTrailIsLast | radar-display.py:41-45 | The trail update yields the last min(5, old length + 1) entries of old trail + [angle]. |
| Sweep.PushAllIsLast | radar-display.py:41-45 | After any run of frames the trail is the newest 5 of the old trail followed by everything swept. The oldest entries are dropped first. |
| Sweep.TrailAfterManyFrames | radar-display.py:41-45 | Once 5 or more angles have been swept, the trail is exactly the 5 most recently swept angles, in order. |
| Sweep.TrailOf | radar-display.py:67-68 | The trail is listed newest first. The newest line has opacity 1. Opacity strictly decreases with age. With at most 5 entries every opacity lies in (0, 1]. |
| Sweep.TrailLines | radar-display.py:67-68 | The loop over the reversed trail builds exactly that list of lines. |
| Sweep.NextStateAsWritten | radar-display.py:40-45 | The source's step fails (IndexError) exactly when the stored index is not below the angle-list length. Otherwise it pushes the angle at that index and advances the index as line 113 does. |
| Sweep.NextState | radar-display.py:37-45 | The guarded step always succeeds. It sweeps an angle of the list, leaves the index inside the list and keeps the trail within 5 entries. |
| Sweep.NextStateRefinesAsWritten | radar-display.py:40-45 | Whenever the source's step succeeds, the guarded step gives the same state. |
| Sweep.AsWrittenSafeWithoutShrinking | radar-display.py:40 | The source's lookup can only fail on a frame whose angle list is shorter than the previous frame's. |
| Sweep.NextIndex | radar-display.py:113 | The guarded step moves the index to (index + 1) mod the angle-list length. |
| Sweep.WrapAroundExample | radar-display.py:113 | With angles [0, 90, 180, 270] and index 3, the beam sweeps 270 and the index wraps to 0. |
| Sweep.ShrinkingSweep | radar-display.py:40 | From index 1 with angle list [0], the source's step fails. The guarded step sweeps 0. |
| Sweep.SweepSession.constructor | radar-display.py:27-38 | A session starts with index 0 and an empty trail. |
| Sweep.SweepSession.RecordCurrentAngle | radar-display.py:40-45 | Reduces the stored index modulo the list length, returns the angle there and pushes it onto the trail. |
| Sweep.SweepSession.AdvanceSweep | radar-display.py:113 | Sets the index to (old index + 1) mod the angle-list length, which lies inside the list. |
| Radar.RenderFrame | radar-display.py:40-113 | A frame with data sets the session to the guarded next state. It draws the new trail newest first with its opacities, every window reading as a raw point, and the tracked readings. |
| Radar.RunFrame | radar-display.py:17-113 | The frame outcome depends on the log. An unreadable log gives "waiting for sensor data" and an empty one "no angle data"; neither changes the session. Otherwise the frame renders from the window of the log. |
| Radar.SingleAngleWindow | radar-display.py:24-31 | When the newest 50 readings share one angle, the angle list is that angle alone. |
| Radar.ShrinkingAngleListFault | radar-display.py:40 | Readings at 0 and 90 degrees leave the beam at index 1. After 50 newer readings at 0 degrees the angle list is [0]. The source's lookup then fails, and the guarded step sweeps 0. |

## Findings

| source | as written | input that shows it | evidently intended | confidence | as-written member | corrected member |
|---|---|---|---|---|---|---|
| radar-display.py:40 | `angle_list[sweep_index]` uses the index stored by the previous frame, which was reduced modulo the previous, possibly longer, angle list | one frame over readings at 0 and 90 degrees (index becomes 1), then 50 newer readings at 0 degrees: the angle list is [0] and index 1 raises IndexError | reduce the index modulo the current list length before the lookup | not executed | Sweep.NextStateAsWritten (shown by Radar.ShrinkingAngleListFault) | Sweep.NextState (used by Sweep.SweepSession.RecordCurrentAngle and Radar.RunFrame) |

## Left out

- `radar-flask.py` is not part of this model. It is the HTTP upload endpoint that stamps and appends rows to the CSV file: I/O with no logic of its own.
- Reading the CSV file and the bare `except` around it (lines 18-22) are file I/O. `RunFrame` takes the log as a parameter, with `None` standing for an unreadable file.
- The timestamp column is not modelled. The display never reads it.
- `st.warning` and `st.stop` are modelled as the `WaitingForSensorData` and `NoAngleData` outcomes, not as side effects.
- Figure construction and layout (lines 64-110) are calls into the plotting library. `MAX_RANGE_CM`, marker styles, clockwise orientation and rotation are not modelled. Only the trail lines with their opacities, the raw points and the tracked points are kept.
- `time.sleep` and `st.experimental_rerun` (lines 116-117) are the scheduling loop. The model runs one frame per `RunFrame` call. In the source, `st.stop()` (lines 22 and 34) and the line-40 IndexError both end the script before lines 116-117. No further refresh is then scheduled, and the display stays on that message until something else triggers a rerun. `WaitingForSensorData` and `NoAngleData` do not model this end of the refresh loop.
- Angles and distances are `int`, not pandas floats. Fractional readings and NaN values are not modelled.
- Radar.RunFrame: follows the corrected lookup (Findings above), so it never raises the IndexError that line 40 raises after the angle list shrinks. That behaviour is modelled only in `Sweep.NextStateAsWritten`.
- Sweep.SweepSession.RecordCurrentAngle: stores the reduced index back into the session. Without the fault the source never needs this, because its stored index is then already below the list length.
- In the source, the trail is initialised before the "no angle data" check (lines 27-28) and the index after it (lines 37-38). The model initialises both when the session is created. No frame can observe the difference.
