/** Authored animation curves, over the reals (native/AnimationTrack.h). */
module AnimationTrack {
  datatype Curve = Constant | Linear | Hermite

  /** A piece of curve over [start, end): its end values, and its slopes there in value per frame. */
  datatype Segment = Segment(start: real, end: real, first: real, last: real, firstSlope: real, lastSlope: real,
      curve: Curve)

  /** What the constructor accepts: not empty, every segment with a length, each starting where the last ended. */
  predicate TrackOk(track: seq<Segment>) {
    && track != []
    && (forall i :: 0 <= i < |track| ==> track[i].start < track[i].end)
    && (forall i, j :: 0 <= i && j == i + 1 < |track| ==> track[j].start == track[i].end)
  }

  lemma {:induction false} StartsAscend(track: seq<Segment>, i: nat, j: nat)
    requires TrackOk(track) && i <= j < |track|
    ensures track[i].start <= track[j].start && track[i].end <= track[j].end
    ensures i < j ==> track[i].end <= track[j].start
    decreases j - i
  {
    if i < j {
      StartsAscend(track, i, j - 1);
      assert track[j].start == track[j - 1].end;
    }
  }

  /** std::upper_bound over the starts of track[lo..hi]. */
  function UpperBound(track: seq<Segment>, frame: real, lo: nat, hi: nat): (n: nat)
    requires TrackOk(track) && lo <= hi <= |track|
    requires forall i :: 0 <= i < lo ==> track[i].start <= frame
    requires forall i :: hi <= i < |track| ==> frame < track[i].start
    ensures lo <= n <= hi
    ensures forall i :: 0 <= i < n ==> track[i].start <= frame
    ensures forall i :: n <= i < |track| ==> frame < track[i].start
    decreases hi - lo
  {
    if lo == hi then lo
    else
      var mid := (lo + hi) / 2;
      if frame < track[mid].start then
        Above(track, frame, mid);
        UpperBound(track, frame, lo, mid)
      else
        Below(track, frame, mid);
        UpperBound(track, frame, mid + 1, hi)
  }

  lemma Above(track: seq<Segment>, frame: real, mid: nat)
    requires TrackOk(track) && mid < |track| && frame < track[mid].start
    ensures forall i :: mid <= i < |track| ==> frame < track[i].start
  {
    forall i | mid <= i < |track| ensures frame < track[i].start { StartsAscend(track, mid, i); }
  }

  lemma Below(track: seq<Segment>, frame: real, mid: nat)
    requires TrackOk(track) && mid < |track| && track[mid].start <= frame
    ensures forall i :: 0 <= i <= mid ==> track[i].start <= frame
  {
    forall i | 0 <= i <= mid ensures track[i].start <= frame { StartsAscend(track, i, mid); }
  }

  /** The value of one segment at `frame`. */
  function Value(s: Segment, frame: real): real
    requires s.start < s.end
  {
    var duration := s.end - s.start;
    var t := frame - s.start;
    var u := t / duration;
    match s.curve
    case Constant => s.first
    case Linear => s.first + (s.last - s.first) * u
    case Hermite =>
      var u2, u3 := u * u, u * u * u;
      (2.0 * u3 - 3.0 * u2 + 1.0) * s.first + (u3 - 2.0 * u2 + u) * duration * s.firstSlope
        + (-2.0 * u3 + 3.0 * u2) * s.last + (u3 - u2) * duration * s.lastSlope
  }

  function Sample(track: seq<Segment>, frame: real): real
    requires TrackOk(track)
  {
    if frame < track[0].start then track[0].first
    else if frame >= track[|track| - 1].end then track[|track| - 1].last
    else Value(track[UpperBound(track, frame, 0, |track|) - 1], frame)
  }

  /**
    A constant segment holds its first value; every segment starts at its first value, and the others end at their last.
  */
  lemma EndValues(s: Segment, frame: real)
    requires s.start < s.end
    ensures s.curve == Constant ==> Value(s, frame) == s.first
    ensures Value(s, s.start) == s.first
    ensures s.curve != Constant ==> Value(s, s.end) == s.last
  {
    var e := s.end - s.start;
    assert (s.start - s.start) / e == 0.0 && (s.end - s.start) / e == 1.0;
  }

  /** Before the track its first value is held, from its end on its last. */
  lemma SampleOutside(track: seq<Segment>, frame: real)
    requires TrackOk(track)
    ensures frame <= track[0].start ==> Sample(track, frame) == track[0].first
    ensures frame >= track[|track| - 1].end ==> Sample(track, frame) == track[|track| - 1].last
  {
    hide Value;
    if frame == track[0].start {
      SampleUsesTheSegment(track, frame, 0);
      EndValues(track[0], frame);
    }
    StartsAscend(track, 0, |track| - 1);
  }

  /** Inside the track the search finds the one segment that contains the frame. */
  lemma SampleUsesTheSegment(track: seq<Segment>, frame: real, i: nat)
    requires TrackOk(track) && i < |track| && track[i].start <= frame < track[i].end
    ensures Sample(track, frame) == Value(track[i], frame)
    ensures forall j :: 0 <= j < |track| && track[j].start <= frame < track[j].end ==> j == i
  {
    hide Value;
    forall j | 0 <= j < |track| && j != i
      ensures !(track[j].start <= frame < track[j].end)
    {
      if j < i { StartsAscend(track, j, i); } else { StartsAscend(track, i, j); }
    }
    StartsAscend(track, 0, i);
    StartsAscend(track, i, |track| - 1);
    var n := UpperBound(track, frame, 0, |track|);
    if i + 1 < n {
      StartsAscend(track, i, n - 1);
    }
  }

  /** Every frame inside the track is in some segment. */
  lemma {:induction false} SegmentExists(track: seq<Segment>, frame: real) returns (i: nat)
    requires TrackOk(track) && track[0].start <= frame < track[|track| - 1].end
    ensures i < |track| && track[i].start <= frame < track[i].end
  {
    i := UpperBound(track, frame, 0, |track|) - 1;
    if i + 1 < |track| {
      assert track[i + 1].start == track[i].end;
    }
  }

  // ---- cubics ----

  /** a + b x + c x^2 + d x^3, at x = frame - origin. */
  datatype Cubic = Cubic(origin: real, a: real, b: real, c: real, d: real) {
    function At(frame: real): real {
      var x := frame - origin;
      a + b * x + c * (x * x) + d * (x * x * x)
    }

    function Slope(frame: real): real {
      var x := frame - origin;
      b + 2.0 * c * x + 3.0 * d * (x * x)
    }
  }

  /** The segment's end values and slopes are those of the cubic. */
  predicate Matches(s: Segment, p: Cubic) {
    s.first == p.At(s.start) && s.last == p.At(s.end) && s.firstSlope == p.Slope(s.start)
      && s.lastSlope == p.Slope(s.end)
  }

  /** The same cubic counted from another origin. */
  function Moved(p: Cubic, origin: real): Cubic {
    var h := origin - p.origin;
    Cubic(origin, p.a + p.b * h + p.c * (h * h) + p.d * (h * h * h), p.b + 2.0 * p.c * h + 3.0 * p.d * (h * h),
      p.c + 3.0 * p.d * h, p.d)
  }

  lemma MovedSame(p: Cubic, origin: real, frame: real)
    ensures Moved(p, origin).At(frame) == p.At(frame)
    ensures Moved(p, origin).Slope(frame) == p.Slope(frame)
  {
    var h, x := origin - p.origin, frame - origin;
    var y := frame - p.origin;
    assert y == h + x;
    assert y * y == h * h + 2.0 * (h * x) + x * x;
    assert y * y * y == h * h * h + 3.0 * (h * h * x) + 3.0 * (h * (x * x)) + x * x * x;
  }

  /** The Hermite form of a + b x + c x^2 + d x^3 on [0, e] is that cubic: x = u e. */
  lemma HermiteIdentity(a: real, b: real, c: real, d: real, e: real, u: real)
    ensures var x := u * e;
      var last, lastSlope := a + b * e + c * (e * e) + d * (e * e * e), b + 2.0 * c * e + 3.0 * d * (e * e);
      var u2, u3 := u * u, u * u * u;
      (2.0 * u3 - 3.0 * u2 + 1.0) * a + (u3 - 2.0 * u2 + u) * e * b
        + (-2.0 * u3 + 3.0 * u2) * last + (u3 - u2) * e * lastSlope
        == a + b * x + c * (x * x) + d * (x * x * x)
  {
  }

  /** A Hermite segment whose ends match a cubic is that cubic throughout. */
  lemma HermiteIsExact(s: Segment, p: Cubic, frame: real)
    requires s.start < s.end && s.curve == Hermite && Matches(s, p)
    ensures Value(s, frame) == p.At(frame)
  {
    hide Cubic.At, Cubic.Slope, Moved;
    var q := Moved(p, s.start);
    MovedSame(p, s.start, s.start);
    MovedSame(p, s.start, s.end);
    MovedSame(p, s.start, frame);
    MovedOrigin(p, s.start);
    var e, x := s.end - s.start, frame - s.start;
    var u := x / e;
    DivideBack(x, e);
    AtOrigin(q);
    AtOffset(q, e);
    AtOffset(q, x);
    assert q.origin + e == s.end && q.origin + x == frame;
    HermiteIdentity(q.a, q.b, q.c, q.d, e, u);
  }

  lemma MovedOrigin(p: Cubic, origin: real)
    ensures Moved(p, origin).origin == origin
  {}

  // ---- splitting a segment ----

  /** The cubic of a Hermite segment, from its end values and slopes. */
  function CubicOf(s: Segment): Cubic
    requires s.start < s.end
  {
    var e := s.end - s.start;
    var rise := (s.last - s.first) / e;
    Cubic(s.start, s.first, s.firstSlope,
          (3.0 * rise - 2.0 * s.firstSlope - s.lastSlope) / e,
          (s.firstSlope + s.lastSlope - 2.0 * rise) / (e * e))
  }

  /** End conditions with the divisions carried out: q e = rise, and so on. */
  lemma SolvedCubic(e: real, first: real, last: real, m0: real, m1: real, rise: real, c: real, d: real)
    requires rise * e == last - first && c * e == 3.0 * rise - 2.0 * m0 - m1 && d * (e * e) == m0 + m1 - 2.0 * rise
    ensures first + m0 * e + c * (e * e) + d * (e * e * e) == last
    ensures m0 + 2.0 * c * e + 3.0 * d * (e * e) == m1
  {
    assert c * (e * e) == (c * e) * e == (3.0 * rise - 2.0 * m0 - m1) * e;
    assert d * (e * e * e) == (d * (e * e)) * e == (m0 + m1 - 2.0 * rise) * e;
    assert 2.0 * c * e == 2.0 * (c * e);
  }

  lemma DivideBack(a: real, b: real)
    requires b != 0.0
    ensures a / b * b == a
  {}

  lemma DivideSquareBack(a: real, e: real)
    requires e > 0.0
    ensures e * e > 0.0 && a / (e * e) * (e * e) == a
  {}

  lemma AtOrigin(p: Cubic)
    ensures p.At(p.origin) == p.a && p.Slope(p.origin) == p.b
  {}

  lemma AtOffset(p: Cubic, e: real)
    ensures p.At(p.origin + e) == p.a + p.b * e + p.c * (e * e) + p.d * (e * e * e)
    ensures p.Slope(p.origin + e) == p.b + 2.0 * p.c * e + 3.0 * p.d * (e * e)
  {
    assert p.origin + e - p.origin == e;
  }

  lemma CubicMatches(s: Segment)
    requires s.start < s.end
    ensures Matches(s, CubicOf(s))
  {
    hide Cubic.At, Cubic.Slope;
    var e, p := s.end - s.start, CubicOf(s);
    var rise := (s.last - s.first) / e;
    DivideBack(s.last - s.first, e);
    DivideBack(3.0 * rise - 2.0 * s.firstSlope - s.lastSlope, e);
    DivideSquareBack(s.firstSlope + s.lastSlope - 2.0 * rise, e);
    SolvedCubic(e, s.first, s.last, s.firstSlope, s.lastSlope, rise, p.c, p.d);
    AtOrigin(p);
    AtOffset(p, e);
    assert p.origin + e == s.end;
  }

  /** A segment cut at `m`: the value and, on a Hermite segment, the slope at the cut are the curve's. */
  function Halves(s: Segment, m: real): (Segment, Segment)
    requires s.start < m < s.end
  {
    match s.curve
    case Constant => (Segment(s.start, m, s.first, s.first, 0.0, 0.0, Constant), s.(start := m))
    case Linear =>
      var v := Value(s, m);
      (s.(end := m, last := v), s.(start := m, first := v))
    case Hermite =>
      var v, slope := Value(s, m), CubicOf(s).Slope(m);
      (s.(end := m, last := v, lastSlope := slope), s.(start := m, first := v, firstSlope := slope))
  }

  lemma LinearIsExact(s: Segment, p: Cubic, frame: real)
    requires s.start < s.end && s.curve == Linear && p.c == p.d == 0.0
    requires s.first == p.At(s.start) && s.last == p.At(s.end)
    ensures Value(s, frame) == p.At(frame)
  {
    var e, t := s.end - s.start, frame - s.start;
    var u := t / e;
    assert u * e == t;
    assert s.last - s.first == p.b * e;
    assert (s.last - s.first) * u == p.b * (u * e);
  }

  lemma HalvesSame(s: Segment, m: real, frame: real)
    requires s.start < m < s.end
    ensures Value(Halves(s, m).0, frame) == Value(s, frame) == Value(Halves(s, m).1, frame)
  {
    var (left, right) := Halves(s, m);
    match s.curve
    case Constant =>
    case Linear =>
      var p := Cubic(s.start, s.first, (s.last - s.first) / (s.end - s.start), 0.0, 0.0);
      LinearIsExact(s, p, m);
      LinearIsExact(s, p, frame);
      LinearIsExact(left, p, frame);
      LinearIsExact(right, p, frame);
    case Hermite =>
      var p := CubicOf(s);
      hide CubicOf, Cubic.At, Cubic.Slope, Value;
      CubicMatches(s);
      HermiteIsExact(s, p, m);
      HermiteIsExact(s, p, frame);
      HermiteIsExact(left, p, frame);
      HermiteIsExact(right, p, frame);
  }

  function Split(track: seq<Segment>, i: nat, m: real): seq<Segment>
    requires i < |track| && track[i].start < m < track[i].end
  {
    track[..i] + [Halves(track[i], m).0, Halves(track[i], m).1] + track[i + 1..]
  }

  lemma SplitOk(track: seq<Segment>, i: nat, m: real)
    requires TrackOk(track) && i < |track| && track[i].start < m < track[i].end
    ensures TrackOk(Split(track, i, m))
    ensures Split(track, i, m)[0].first == track[0].first && Split(track, i, m)[0].start == track[0].start
    ensures Split(track, i, m)[|track|].last == track[|track| - 1].last
      && Split(track, i, m)[|track|].end == track[|track| - 1].end
  {
    hide Value, CubicOf;
    var s := Split(track, i, m);
    forall j, k | 0 <= j && k == j + 1 < |s|
      ensures s[k].start == s[j].end
    {
      if k < i {
        assert s[j] == track[j] && s[k] == track[k];
      } else if k == i {
        assert s[j] == track[j] && track[i].start == track[j].end;
      } else if k > i + 1 {
        assert s[k] == track[k - 1];
        assert j > i + 1 ==> s[j] == track[j - 1];
        assert track[k - 1].start == track[k - 2].end;
      }
    }
  }

  /** Splitting any segment anywhere inside leaves every sample of the track unchanged. */
  lemma SplitKeepsTheCurve(track: seq<Segment>, i: nat, m: real, frame: real)
    requires TrackOk(track) && i < |track| && track[i].start < m < track[i].end
    ensures TrackOk(Split(track, i, m)) && Sample(Split(track, i, m), frame) == Sample(track, frame)
  {
    hide Value, CubicOf, UpperBound, TrackOk;
    SplitOk(track, i, m);
    var s := Split(track, i, m);
    NotEmpty(track);
    if track[0].start <= frame < track[|track| - 1].end {
      var j := SegmentExists(track, frame);
      SampleUsesTheSegment(track, frame, j);
      HalvesSame(track[i], m, frame);
      if j < i {
        SampleUsesTheSegment(s, frame, j);
      } else if j > i {
        SampleUsesTheSegment(s, frame, j + 1);
      } else if frame < m {
        SampleUsesTheSegment(s, frame, i);
      } else {
        SampleUsesTheSegment(s, frame, i + 1);
      }
    } else {
      assert Sample(s, frame) == Sample(track, frame);
    }
  }

  lemma NotEmpty(track: seq<Segment>)
    requires TrackOk(track)
    ensures track != []
  {}
}
