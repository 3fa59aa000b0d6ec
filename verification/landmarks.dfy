/** Frame shaping: from 21 detector landmarks to a 63-number frame that is
    wrist-relative and scaled, and from a polled snapshot stream to a
    fixed-length sequence of such frames. Coordinates are reals; the
    floating-point rounding of the browser is not modelled. */
module Landmarks {
  import opened Wrappers
  import opened RealArith

  /** Frames per captured sequence. */
  const FRAME_COUNT: nat := 32
  /** Points per hand reported by the detector; point 0 is the wrist. */
  const HAND_POINTS: nat := 21
  /** Numbers per flattened frame (21 points, 3 coordinates each). */
  const FRAME_WIDTH: nat := 63
  /** Floor of the scale divisor, so that a collapsed hand never divides by zero. */
  const MIN_SCALE: real := 0.000001

  datatype Point = Point(x: real, y: real, z: real)

  type Frame = seq<real>

  /** The detector's latest snapshot at each poll, indexed by poll number. */
  type Feed = nat -> Option<seq<Point>>

  /** Every snapshot the detector reports holds a whole hand. */
  ghost predicate WellFormedFeed(feed: Feed)
  {
    forall n: nat :: feed(n).Some? ==> |feed(n).value| == HAND_POINTS
  }

  function Sub(p: Point, q: Point): Point
  {
    Point(p.x - q.x, p.y - q.y, p.z - q.z)
  }

  function Plus(p: Point, q: Point): Point
  {
    Point(p.x + q.x, p.y + q.y, p.z + q.z)
  }

  function Div(p: Point, s: real): Point
    requires s != 0.0
  {
    Point(p.x / s, p.y / s, p.z / s)
  }

  /** `hypot` behaves as a length: never negative, and dividing a point by a
      positive number divides its length by that number. Math.hypot is one. */
  ghost predicate IsNorm(hypot: Point -> real)
  {
    && (forall p: Point :: hypot(p) >= 0.0)
    && (forall p: Point, s: real :: s > 0.0 ==> hypot(Div(p, s)) == hypot(p) / s)
  }

  /** Lay the points out as x, y, z, x, y, z, ... */
  function Flatten(lm: seq<Point>): (flat: seq<real>)
    ensures |flat| == 3 * |lm|
    ensures forall i :: 0 <= i < |lm| ==>
      flat[3 * i] == lm[i].x && flat[3 * i + 1] == lm[i].y && flat[3 * i + 2] == lm[i].z
  {
    if lm == [] then [] else [lm[0].x, lm[0].y, lm[0].z] + Flatten(lm[1..])
  }

  /** Read a flat frame back as 21 points, three numbers at a time. */
  function Regroup(flat: seq<real>): (pts: seq<Point>)
    requires |flat| == FRAME_WIDTH
    ensures |pts| == HAND_POINTS
  {
    seq(HAND_POINTS, k requires 0 <= k < HAND_POINTS =>
      Point(flat[3 * k], flat[3 * k + 1], flat[3 * k + 2]))
  }

  /** Regrouping undoes flattening for a whole hand. */
  lemma RegroupFlatten(lm: seq<Point>)
    requires |lm| == HAND_POINTS
    ensures Regroup(Flatten(lm)) == lm
  {
    var flat := Flatten(lm);
    forall k | 0 <= k < HAND_POINTS
      ensures Regroup(flat)[k] == lm[k]
    {
      assert flat[3 * k] == lm[k].x;
    }
  }

  /** Every point moved so that the wrist is the origin. */
  function Center(pts: seq<Point>): (c: seq<Point>)
    requires |pts| > 0
    ensures |c| == |pts|
  {
    seq(|pts|, k requires 0 <= k < |pts| => Sub(pts[k], pts[0]))
  }

  /** The running maximum of `ds`, scanned left to right from `acc`,
      replacing it only by a strictly larger value. */
  function MaxFrom(ds: seq<real>, acc: real): (m: real)
    ensures m >= acc
    ensures forall i :: 0 <= i < |ds| ==> m >= ds[i]
    ensures m == acc || exists i :: 0 <= i < |ds| && m == ds[i]
  {
    if ds == [] then acc
    else
      var m := MaxFrom(ds[1..], if ds[0] > acc then ds[0] else acc);
      assert forall i :: 1 <= i < |ds| ==> ds[i] == ds[1..][i - 1];
      m
  }

  function Distances(c: seq<Point>, hypot: Point -> real): (ds: seq<real>)
    ensures |ds| == |c|
    ensures forall k :: 0 <= k < |c| ==> ds[k] == hypot(c[k])
  {
    seq(|c|, k requires 0 <= k < |c| => hypot(c[k]))
  }

  /** The divisor: the largest distance from the wrist, but never below MIN_SCALE. */
  function Scale(c: seq<Point>, hypot: Point -> real): (s: real)
    ensures s >= MIN_SCALE
  {
    MaxFrom(Distances(c, hypot), MIN_SCALE)
  }

  /** The scale bounds every distance from the wrist and is either the floor
      or one of those distances. */
  lemma ScaleIsMax(c: seq<Point>, hypot: Point -> real)
    ensures forall k :: 0 <= k < |c| ==> Scale(c, hypot) >= hypot(c[k])
    ensures Scale(c, hypot) == MIN_SCALE || exists k :: 0 <= k < |c| && Scale(c, hypot) == hypot(c[k])
  {
    var ds := Distances(c, hypot);
    assert forall k :: 0 <= k < |c| ==> ds[k] == hypot(c[k]);
  }

  /** Wrist-relative points divided by their scale. */
  function ScaleDown(c: seq<Point>, hypot: Point -> real): (q: seq<Point>)
    ensures |q| == |c|
  {
    var s := Scale(c, hypot);
    seq(|c|, k requires 0 <= k < |c| => Div(c[k], s))
  }

  /** The points of the normalised frame, before flattening. */
  function Scaled(flat: seq<real>, hypot: Point -> real): (q: seq<Point>)
    requires |flat| == FRAME_WIDTH
    ensures |q| == HAND_POINTS
  {
    ScaleDown(Center(Regroup(flat)), hypot)
  }

  /** Normalise one flat frame: wrist to the origin, then divide by the scale. */
  function NormalizeFrame(flat: seq<real>, hypot: Point -> real): (r: Frame)
    requires |flat| == FRAME_WIDTH
    ensures |r| == FRAME_WIDTH
    ensures r[0] == 0.0 && r[1] == 0.0 && r[2] == 0.0
  {
    var q := Scaled(flat, hypot);
    var r := Flatten(q);
    assert r[0] == q[0].x && r[1] == q[0].y && r[2] == q[0].z;
    r
  }

  function ZeroFrame(): (z: Frame)
    ensures |z| == FRAME_WIDTH
    ensures forall i :: 0 <= i < |z| ==> z[i] == 0.0
  {
    seq(FRAME_WIDTH, _ => 0.0)
  }

  /** The frame recorded for one poll: zeros when no hand is visible. */
  function FrameOf(snapshot: Option<seq<Point>>, hypot: Point -> real): (f: Frame)
    requires snapshot.Some? ==> |snapshot.value| == HAND_POINTS
    ensures |f| == FRAME_WIDTH
    ensures snapshot.None? ==> f == ZeroFrame()
    ensures snapshot.Some? ==> f[0] == 0.0 && f[1] == 0.0 && f[2] == 0.0
  {
    match snapshot
    case None => ZeroFrame()
    case Some(lm) => NormalizeFrame(Flatten(lm), hypot)
  }

  /** The frames of `n` consecutive polls starting at poll `start`, in poll order. */
  function Polls(frameAt: nat -> Frame, start: nat, n: nat): (frames: seq<Frame>)
    ensures |frames| == n
    ensures forall j :: 0 <= j < n ==> frames[j] == frameAt(start + j)
  {
    if n == 0 then [] else Polls(frameAt, start, n - 1) + [frameAt(start + n - 1)]
  }

  /** One capture: FRAME_COUNT polls of the feed starting at poll `start`. */
  function CaptureSequence(feed: Feed, hypot: Point -> real, start: nat): (frames: seq<Frame>)
    requires WellFormedFeed(feed)
    ensures |frames| == FRAME_COUNT
    ensures forall j :: 0 <= j < FRAME_COUNT ==> |frames[j]| == FRAME_WIDTH
    ensures forall j :: 0 <= j < FRAME_COUNT && feed(start + j).None? ==> frames[j] == ZeroFrame()
    ensures forall j :: 0 <= j < FRAME_COUNT && feed(start + j).Some? ==>
      frames[j] == NormalizeFrame(Flatten(feed(start + j).value), hypot)
  {
    Polls((n: nat) => FrameOf(feed(n), hypot), start, FRAME_COUNT)
  }

  /** Each point of the normalised frame is the wrist-relative point divided by the scale. */
  lemma NormalizedPoint(flat: seq<real>, hypot: Point -> real, k: nat)
    requires |flat| == FRAME_WIDTH
    requires k < HAND_POINTS
    ensures Regroup(NormalizeFrame(flat, hypot))[k]
      == Div(Sub(Regroup(flat)[k], Regroup(flat)[0]), Scale(Center(Regroup(flat)), hypot))
  {
    var q := Scaled(flat, hypot);
    assert NormalizeFrame(flat, hypot) == Flatten(q);
    RegroupFlatten(q);
  }

  function Translate(lm: seq<Point>, v: Point): (moved: seq<Point>)
    ensures |moved| == |lm|
  {
    seq(|lm|, k requires 0 <= k < |lm| => Plus(lm[k], v))
  }

  /** For a whole hand, normalising its flattened frame is scaling its wrist-relative points. */
  lemma NormalizeHand(lm: seq<Point>, hypot: Point -> real)
    requires |lm| == HAND_POINTS
    ensures NormalizeFrame(Flatten(lm), hypot) == Flatten(ScaleDown(Center(lm), hypot))
  {
    RegroupFlatten(lm);
  }

  /** Moving every point by the same vector leaves the wrist-relative points unchanged. */
  lemma CenterTranslate(lm: seq<Point>, v: Point)
    requires |lm| > 0
    ensures Center(Translate(lm, v)) == Center(lm)
  {
    var moved := Translate(lm, v);
    forall k | 0 <= k < |lm|
      ensures Center(moved)[k] == Center(lm)[k]
    {
      assert moved[k] == Plus(lm[k], v);
    }
  }

  /** Moving the whole hand by one vector does not change its normalised frame. */
  lemma TranslationInvariant(lm: seq<Point>, v: Point, hypot: Point -> real)
    requires |lm| == HAND_POINTS
    ensures NormalizeFrame(Flatten(Translate(lm, v)), hypot) == NormalizeFrame(Flatten(lm), hypot)
  {
    NormalizeHand(lm, hypot);
    NormalizeHand(Translate(lm, v), hypot);
    CenterTranslate(lm, v);
  }

  /** Points all at the origin flatten to zeros. */
  lemma {:induction false} FlattenOrigins(q: seq<Point>)
    requires forall k :: 0 <= k < |q| ==> q[k] == Point(0.0, 0.0, 0.0)
    ensures forall i :: 0 <= i < |Flatten(q)| ==> Flatten(q)[i] == 0.0
  {
    if q != [] {
      FlattenOrigins(q[1..]);
      var rest := Flatten(q[1..]);
      assert Flatten(q) == [0.0, 0.0, 0.0] + rest;
      assert forall i :: 3 <= i < |Flatten(q)| ==> Flatten(q)[i] == rest[i - 3];
    }
  }

  /** A hand whose points all coincide with the wrist normalises to the zero frame. */
  lemma CollapsedHandIsZero(lm: seq<Point>, hypot: Point -> real)
    requires |lm| == HAND_POINTS
    requires forall k :: 0 <= k < |lm| ==> lm[k] == lm[0]
    ensures NormalizeFrame(Flatten(lm), hypot) == ZeroFrame()
  {
    var flat := Flatten(lm);
    RegroupFlatten(lm);
    var c := Center(lm);
    var q := ScaleDown(c, hypot);
    assert Scaled(flat, hypot) == q;
    forall k | 0 <= k < |q|
      ensures q[k] == Point(0.0, 0.0, 0.0)
    {
      assert c[k] == Sub(lm[k], lm[0]);
    }
    FlattenOrigins(q);
    assert NormalizeFrame(flat, hypot) == Flatten(q);
  }

  /** With a true norm, no normalised point lies farther than 1 from the wrist. */
  lemma WithinUnitBall(flat: seq<real>, hypot: Point -> real, k: nat)
    requires |flat| == FRAME_WIDTH
    requires IsNorm(hypot)
    requires k < HAND_POINTS
    ensures hypot(Regroup(NormalizeFrame(flat, hypot))[k]) <= 1.0
  {
    var c := Center(Regroup(flat));
    var s := Scale(c, hypot);
    ScaleIsMax(c, hypot);
    NormalizedPoint(flat, hypot, k);
    assert Regroup(NormalizeFrame(flat, hypot))[k] == Div(c[k], s);
    assert hypot(Div(c[k], s)) == hypot(c[k]) / s;
    DivAtMostOne(hypot(c[k]), s);
  }

  /** With a true norm and a hand larger than the floor, the farthest point
      lands exactly at length 1 (in exact real arithmetic). */
  lemma FarthestOnUnitSphere(flat: seq<real>, hypot: Point -> real)
    requires |flat| == FRAME_WIDTH
    requires IsNorm(hypot)
    requires Scale(Center(Regroup(flat)), hypot) > MIN_SCALE
    ensures exists k :: 0 <= k < HAND_POINTS && hypot(Regroup(NormalizeFrame(flat, hypot))[k]) == 1.0
  {
    var c := Center(Regroup(flat));
    var s := Scale(c, hypot);
    var k := FarthestIndex(c, hypot);
    NormalizedPoint(flat, hypot, k);
    assert Regroup(NormalizeFrame(flat, hypot))[k] == Div(c[k], s);
    assert hypot(Div(c[k], s)) == s / s;
    DivSelf(s);
  }

  /** The index of a point at distance exactly Scale, when Scale is above the floor. */
  lemma FarthestIndex(c: seq<Point>, hypot: Point -> real) returns (k: nat)
    requires Scale(c, hypot) > MIN_SCALE
    ensures k < |c| && hypot(c[k]) == Scale(c, hypot)
  {
    ScaleIsMax(c, hypot);
    k :| 0 <= k < |c| && Scale(c, hypot) == hypot(c[k]);
  }
}
