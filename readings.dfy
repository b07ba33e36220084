/** Sensor readings, the window of recent readings and its sorted distinct angles. */
module Readings {
  import opened Seqs

  /** One logged sample: the beam angle in degrees and the measured distance in cm. */
  datatype Reading = Reading(angle: int, distance: int)

  /** How many of the most recent readings one frame looks at. */
  const WINDOW_SIZE: nat := 50

  /** The readings one frame works on: the most recent WINDOW_SIZE of the log, oldest first. */
  function Window(log: seq<Reading>): (w: seq<Reading>)
    ensures |w| == Min(WINDOW_SIZE, |log|)
    ensures forall i :: 0 <= i < |w| ==> w[i] == log[|log| - |w| + i]
  {
    Last(log, WINDOW_SIZE)
  }

  predicate StrictlyAscending(s: seq<int>)
  {
    forall i, j :: 0 <= i < j < |s| ==> s[i] < s[j]
  }

  /** The set of angles that occur in `w`. */
  function Angles(w: seq<Reading>): set<int>
  {
    set r | r in w :: r.angle
  }

  /** The angle column of `w`, in window order. */
  function AngleColumn(w: seq<Reading>): (c: seq<int>)
    ensures |c| == |w|
    ensures forall a :: a in c <==> a in Angles(w)
  {
    if w == [] then [] else AngleColumn(w[..|w| - 1]) + [w[|w| - 1].angle]
  }

  /** Inserts `x` into the strictly ascending `s`, unless it is already there. */
  function Insert(s: seq<int>, x: int): (r: seq<int>)
    requires StrictlyAscending(s)
    ensures StrictlyAscending(r)
    ensures forall y :: y in r <==> y in s || y == x
  {
    if s == [] then [x]
    else if x < s[0] then [x] + s
    else if x == s[0] then s
    else
      var tail := Insert(s[1..], x);
      ConsAscending(s[0], tail);
      [s[0]] + tail
  }

  lemma ConsAscending(h: int, t: seq<int>)
    requires StrictlyAscending(t)
    requires forall y :: y in t ==> h < y
    ensures StrictlyAscending([h] + t)
  {
    var r := [h] + t;
    forall i, j | 0 <= i < j < |r| ensures r[i] < r[j] {
      assert r[j] == t[j - 1];
      if i > 0 {
        assert r[i] == t[i - 1];
      } else {
        assert t[j - 1] in t;
      }
    }
  }

  /** The distinct values of `s` in ascending order. */
  function SortedDistinct(s: seq<int>): (r: seq<int>)
    ensures StrictlyAscending(r)
    ensures forall y :: y in r <==> y in s
  {
    if s == [] then [] else Insert(SortedDistinct(s[..|s| - 1]), s[|s| - 1])
  }

  /** `sorted(df["angle"].unique())`: the distinct angles of the window, ascending.
      It is empty exactly when the window is, which is the "no angle data yet" stop. */
  function AngleList(w: seq<Reading>): (r: seq<int>)
    ensures StrictlyAscending(r)
    ensures forall a :: a in r <==> a in Angles(w)
    ensures r == [] <==> w == []
  {
    var r := SortedDistinct(AngleColumn(w));
    assert w != [] ==> w[0].angle in Angles(w);
    r
  }

  /** A strictly ascending sequence is determined by its elements, so AngleList is the
      only strictly ascending list of exactly the window's angles. */
  lemma {:induction false} AscendingDetermined(a: seq<int>, b: seq<int>)
    requires StrictlyAscending(a) && StrictlyAscending(b)
    requires forall y :: y in a <==> y in b
    ensures a == b
  {
    if a != [] {
      assert a[0] in a && a[0] in b;
    }
    if b != [] {
      assert b[0] in b && b[0] in a;
    }
    if a != [] && b != [] {
      assert a[0] == b[0];
      forall y ensures y in a[1..] <==> y in b[1..] {
        if y in a[1..] {
          assert y in b && y != b[0];
        }
        if y in b[1..] {
          assert y in a && y != a[0];
        }
      }
      AscendingDetermined(a[1..], b[1..]);
      assert a == [a[0]] + a[1..] && b == [b[0]] + b[1..];
    }
  }

  lemma AngleListUnique(w: seq<Reading>, s: seq<int>)
    requires StrictlyAscending(s)
    requires forall a :: a in s <==> a in Angles(w)
    ensures s == AngleList(w)
  {
    AscendingDetermined(s, AngleList(w));
  }

  /** The window never has more distinct angles than readings. */
  lemma {:induction false} AngleListBound(w: seq<Reading>)
    ensures |AngleList(w)| <= |w|
  {
    SortedDistinctBound(AngleColumn(w));
  }

  lemma {:induction false} SortedDistinctBound(s: seq<int>)
    ensures |SortedDistinct(s)| <= |s|
  {
    if s != [] {
      SortedDistinctBound(s[..|s| - 1]);
      InsertBound(SortedDistinct(s[..|s| - 1]), s[|s| - 1]);
    }
  }

  lemma {:induction false} InsertBound(s: seq<int>, x: int)
    requires StrictlyAscending(s)
    ensures |Insert(s, x)| <= |s| + 1
  {
    if s != [] && x > s[0] {
      InsertBound(s[1..], x);
    }
  }
}
