/** The bucketed object tracker: a reading is "tracked" when an earlier reading of the
    window fell into the same 10-degree sector and 5 cm ring. */
module Tracker {
  import opened Readings

  /** A bucket: (angle sector, distance ring). */
  type Key = (int, int)

  /** `angle // 10 * 10`: the 10-degree sector holding `angle`. */
  function AngleBucket(angle: int): (k: int)
    ensures k % 10 == 0
    ensures k <= angle < k + 10
  {
    angle / 10 * 10
  }

  /** `round(distance / 5) * 5` for an integer distance: the nearest multiple of 5. */
  function DistanceBucket(distance: int): (k: int)
    ensures k % 5 == 0
    ensures -2 <= distance - k <= 2
  {
    (distance + 2) / 5 * 5
  }

  /** Python's `round` on a real: to the nearest integer, halves to the even neighbour. */
  function PyRound(x: real): int
  {
    var f := x.Floor;
    var frac := x - f as real;
    if frac < 0.5 then f
    else if frac > 0.5 then f + 1
    else if f % 2 == 0 then f
    else f + 1
  }

  /** The integer sector formula agrees with flooring the real quotient. */
  lemma AngleBucketIsFloorDivision(angle: int)
    ensures AngleBucket(angle) == (angle as real / 10.0).Floor * 10
  {
    var q := angle / 10;
    assert q as real <= angle as real / 10.0 < q as real + 1.0;
  }

  /** The integer ring formula agrees with Python's round-half-to-even on `distance / 5`. */
  lemma DistanceBucketIsPythonRound(distance: int)
    ensures DistanceBucket(distance) == PyRound(distance as real / 5.0) * 5
  {
    var q, m := distance / 5, distance % 5;
    var x := distance as real / 5.0;
    assert x == q as real + m as real / 5.0;
    assert x.Floor == q;
    if m <= 2 {
      assert PyRound(x) == q;
      assert (distance + 2) / 5 == q;
    } else {
      assert PyRound(x) == q + 1;
      assert (distance + 2) / 5 == q + 1;
    }
  }

  /** The bucket of one reading (lines 52-53). */
  function KeyOf(r: Reading): Key
  {
    (AngleBucket(r.angle), DistanceBucket(r.distance))
  }

  /** The buckets that occur in `w`. */
  function Keys(w: seq<Reading>): set<Key>
  {
    if w == [] then {} else Keys(w[..|w| - 1]) + {KeyOf(w[|w| - 1])}
  }

  /** How many readings of `w` fall into bucket `k`. */
  function Count(w: seq<Reading>, k: Key): nat
  {
    if w == [] then 0
    else Count(w[..|w| - 1], k) + (if KeyOf(w[|w| - 1]) == k then 1 else 0)
  }

  /** The reference tally: each bucket of the window mapped to its number of readings. */
  function Tally(w: seq<Reading>): map<Key, nat>
  {
    map k | k in Keys(w) :: Count(w, k)
  }

  /** The reference tracker: the readings of `w`, in order, whose bucket already occurred
      earlier in `w`. */
  function Tracked(w: seq<Reading>): seq<Reading>
  {
    if w == [] then []
    else
      var prefix, r := w[..|w| - 1], w[|w| - 1];
      Tracked(prefix) + (if KeyOf(r) in Keys(prefix) then [r] else [])
  }

  lemma {:induction false} KeysMembers(w: seq<Reading>)
    ensures forall k :: k in Keys(w) <==> exists i :: 0 <= i < |w| && KeyOf(w[i]) == k
  {
    if w != [] {
      var p := w[..|w| - 1];
      KeysMembers(p);
      forall k | k in Keys(p) ensures exists i :: 0 <= i < |w| && KeyOf(w[i]) == k {
        var i :| 0 <= i < |p| && KeyOf(p[i]) == k;
        assert KeyOf(w[i]) == k;
      }
      forall k | k in Keys(w) && k !in Keys(p) ensures exists i :: 0 <= i < |w| && KeyOf(w[i]) == k {
        assert KeyOf(w[|w| - 1]) == k;
      }
      forall i | 0 <= i < |p| ensures KeyOf(w[i]) in Keys(p) {
        assert KeyOf(p[i]) == KeyOf(w[i]);
      }
    }
  }

  lemma {:induction false} CountPositive(w: seq<Reading>, k: Key)
    ensures Count(w, k) > 0 <==> k in Keys(w)
  {
    if w != [] {
      var prefix := w[..|w| - 1];
      CountPositive(prefix, k);
    }
  }

  /** How the tally of a window prefix grows by one reading. */
  lemma TallyAppend(p: seq<Reading>, r: Reading)
    ensures var k := KeyOf(r);
      Tally(p + [r]) == if k in Tally(p) then Tally(p)[k := Tally(p)[k] + 1] else Tally(p)[k := 1]
  {
    var w := p + [r];
    assert w[..|w| - 1] == p;
    var k := KeyOf(r);
    CountPositive(p, k);
  }

  /** Lines 48-61: one pass over the window that bumps the tally of each reading's bucket and
      appends the raw reading once that tally is at least 2. */
  method TrackObjects(window: seq<Reading>) returns (tracked: seq<Reading>, tally: map<Key, nat>)
    ensures tally == Tally(window)
    ensures tracked == Tracked(window)
  {
    tracked, tally := [], map[];
    for i := 0 to |window|
      invariant tally == Tally(window[..i])
      invariant tracked == Tracked(window[..i])
    {
      var r := window[i];
      var key := (AngleBucket(r.angle), DistanceBucket(r.distance));
      assert window[..i + 1] == window[..i] + [r];
      TallyAppend(window[..i], r);
      CountPositive(window[..i], key);
      if key in tally {
        tally := tally[key := tally[key] + 1];
      } else {
        tally := tally[key := 1];
      }
      if tally[key] >= 2 {
        tracked := tracked + [r];
      }
    }
    assert window[..|window|] == window;
  }

  /** The sum of the tallies of `m`. */
  ghost function Total(m: map<Key, nat>): nat
    decreases |m|
  {
    if m == map[] then 0
    else
      var k :| k in m;
      assert |m - {k}| < |m| by { assert m.Keys - {k} < m.Keys; }
      m[k] + Total(m - {k})
  }

  lemma TotalRemove(m: map<Key, nat>, k: Key)
    requires k in m
    ensures Total(m) == m[k] + Total(m - {k})
    decreases |m|
  {
    var j :| j in m && Total(m) == m[j] + Total(m - {j});
    if j != k {
      assert |m - {j}| < |m| by { assert (m - {j}).Keys < m.Keys; }
      TotalRemove(m - {j}, k);
      assert |m - {k}| < |m| by { assert (m - {k}).Keys < m.Keys; }
      TotalRemove(m - {k}, j);
      assert m - {j} - {k} == m - {k} - {j};
    }
  }

  /** The tallies add up to the window length: every reading is counted exactly once. */
  lemma {:induction false} TallyTotal(w: seq<Reading>)
    ensures Total(Tally(w)) == |w|
  {
    if w != [] {
      var p, r := w[..|w| - 1], w[|w| - 1];
      assert w == p + [r];
      TallyTotal(p);
      TallyAppend(p, r);
      var k, m := KeyOf(r), Tally(p);
      var m' := Tally(w);
      TotalRemove(m', k);
      if k in m {
        TotalRemove(m, k);
        assert m' - {k} == m - {k};
      } else {
        assert m' - {k} == m;
      }
    }
  }

  /** Every bucket keeps back exactly one reading (its first), so the tracker emits the
      window length minus the number of distinct buckets. */
  lemma {:induction false} TrackedLength(w: seq<Reading>)
    ensures |Tracked(w)| == |w| - |Keys(w)|
  {
    if w != [] {
      var p, r := w[..|w| - 1], w[|w| - 1];
      assert w == p + [r];
      TrackedLength(p);
      if KeyOf(r) in Keys(p) {
        assert Keys(w) == Keys(p);
        assert Tracked(w) == Tracked(p) + [r];
      } else {
        assert |Keys(p) + {KeyOf(r)}| == |Keys(p)| + 1;
        assert Tracked(w) == Tracked(p);
      }
    }
  }

  /** A bucket holding n readings of the window contributes n - 1 tracked points. */
  lemma {:induction false} TrackedPerBucket(w: seq<Reading>, k: Key)
    ensures Count(Tracked(w), k) == if k in Keys(w) then Count(w, k) - 1 else 0
  {
    if w != [] {
      var p, r := w[..|w| - 1], w[|w| - 1];
      assert w == p + [r];
      TrackedPerBucket(p, k);
      CountPositive(p, k);
      CountAppend(p, r, k);
      if KeyOf(r) in Keys(p) {
        assert Tracked(w) == Tracked(p) + [r];
        CountAppend(Tracked(p), r, k);
      } else {
        assert Tracked(w) == Tracked(p);
      }
    }
  }

  lemma CountAppend(s: seq<Reading>, r: Reading, k: Key)
    ensures Count(s + [r], k) == Count(s, k) + (if KeyOf(r) == k then 1 else 0)
  {
    assert (s + [r])[..|s|] == s;
  }

  /** Whether some reading before position `j` of `w` shares the bucket of `w[j]`. */
  predicate SeenBefore(w: seq<Reading>, j: nat)
    requires j < |w|
  {
    exists i :: 0 <= i < j && KeyOf(w[i]) == KeyOf(w[j])
  }

  /** The window positions of the tracked readings. */
  function TrackedPositions(w: seq<Reading>): seq<nat>
  {
    if w == [] then []
    else
      var prefix := w[..|w| - 1];
      TrackedPositions(prefix) + (if KeyOf(w[|w| - 1]) in Keys(prefix) then [|w| - 1] else [])
  }

  lemma SeenBeforeIsPrefixKey(w: seq<Reading>, j: nat)
    requires j < |w|
    ensures SeenBefore(w, j) <==> KeyOf(w[j]) in Keys(w[..j])
  {
    KeysMembers(w[..j]);
  }

  /** Tracked(w) is the order-preserving subsequence of `w` at TrackedPositions(w), and the
      reading at position j is tracked exactly when an earlier reading shares its bucket. */
  lemma {:induction false} TrackedIsSubsequence(w: seq<Reading>)
    ensures |TrackedPositions(w)| == |Tracked(w)|
    ensures forall n :: 0 <= n < |Tracked(w)| ==>
      TrackedPositions(w)[n] < |w| && Tracked(w)[n] == w[TrackedPositions(w)[n]]
    ensures forall n, m :: 0 <= n < m < |TrackedPositions(w)| ==>
      TrackedPositions(w)[n] < TrackedPositions(w)[m]
    ensures forall j :: 0 <= j < |w| ==> (j in TrackedPositions(w) <==> SeenBefore(w, j))
  {
    if w != [] {
      var p, r := w[..|w| - 1], w[|w| - 1];
      TrackedIsSubsequence(p);
      SeenBeforeIsPrefixKey(w, |w| - 1);
      forall j | 0 <= j < |p| ensures SeenBefore(w, j) <==> SeenBefore(p, j) {
        if SeenBefore(w, j) {
          var i :| 0 <= i < j && KeyOf(w[i]) == KeyOf(w[j]);
          assert KeyOf(p[i]) == KeyOf(p[j]);
        }
        if SeenBefore(p, j) {
          var i :| 0 <= i < j && KeyOf(p[i]) == KeyOf(p[j]);
          assert KeyOf(w[i]) == KeyOf(w[j]);
        }
      }
      assert w[..|w| - 1] == p;
    }
  }

  /** The first reading of a bucket is never tracked. */
  lemma FirstOfBucketNotTracked(w: seq<Reading>, j: nat)
    requires j < |w|
    requires forall i :: 0 <= i < j ==> KeyOf(w[i]) != KeyOf(w[j])
    ensures j !in TrackedPositions(w)
  {
    TrackedIsSubsequence(w);
  }

  /** Every tracked point is a raw reading of the window. */
  lemma TrackedFromWindow(w: seq<Reading>)
    ensures forall t :: t in Tracked(w) ==> t in w
  {
    TrackedIsSubsequence(w);
    forall t | t in Tracked(w) ensures t in w {
      var n :| 0 <= n < |Tracked(w)| && Tracked(w)[n] == t;
      assert w[TrackedPositions(w)[n]] == t;
    }
  }

  /** Three readings in three different buckets give no tracked point; a fourth reading
      in the first reading's bucket is tracked on its own, the first one is not. */
  lemma RepeatedBucketScenario()
    ensures Tracked([Reading(0, 20), Reading(10, 20), Reading(20, 80)]) == []
    ensures Tracked([Reading(0, 20), Reading(10, 20), Reading(20, 80), Reading(3, 22)])
         == [Reading(3, 22)]
  {
    var a, b, c, d := Reading(0, 20), Reading(10, 20), Reading(20, 80), Reading(3, 22);
    assert KeyOf(a) == (0, 20) && KeyOf(b) == (10, 20) && KeyOf(c) == (20, 80) && KeyOf(d) == (0, 20);
    assert [a][..0] == [];
    assert [a, b][..1] == [a];
    assert [a, b, c][..2] == [a, b];
    assert [a, b, c, d][..3] == [a, b, c];
    assert Keys([a]) == {(0, 20)} && Tracked([a]) == [];
    assert Keys([a, b]) == {(0, 20), (10, 20)} && Tracked([a, b]) == [];
    assert Keys([a, b, c]) == {(0, 20), (10, 20), (20, 80)} && Tracked([a, b, c]) == [];
  }

  /** Two readings sharing a bucket: only the second is tracked. */
  lemma TwoInBucketScenario()
    ensures Tracked([Reading(12, 50), Reading(15, 48), Reading(88, 10)]) == [Reading(15, 48)]
  {
    var a, b, c := Reading(12, 50), Reading(15, 48), Reading(88, 10);
    assert KeyOf(a) == (10, 50) && KeyOf(b) == (10, 50) && KeyOf(c) == (80, 10);
    assert [a][..0] == [];
    assert [a, b][..1] == [a];
    assert [a, b, c][..2] == [a, b];
    assert Keys([a]) == {(10, 50)} && Tracked([a]) == [];
    assert Keys([a, b]) == {(10, 50)} && Tracked([a, b]) == [b];
  }
}
