/** The fixed-offset telegram parser of `LMS400.processStringData` and its
    helpers `extractLength`, `extractValue` and `extractDistance`.

    A telegram string here is what `receiveTelegram` returns: the four
    length characters followed by the payload. Every character index the
    Java code reads must exist; a missing one aborts with an index
    exception, modelled as `None`. */
module Telegram {
  import opened JavaInt
  import opened Wrappers
  import Framing

  /** One measurement: distance in millimetres and angle in 1/10000 degree.
      The Cartesian coordinates of `Point.java` are floating point and are
      not part of this model. */
  datatype Point = Point(distance: int, angleRaw: int)

  /** A scan: the points parsed from one telegram, in measurement order. */
  type Scan = seq<Point>

  const MinDistance: int := 700
  const MaxDistance: int := 3000

  /** Offset of the first distance value: 4 (length) + 8 (starting angle)
      + 2 (resolution) + 2 (point count) + 8 (skipped block). */
  const DistanceOffset: nat := 24

  /** Shortest string the header reads succeed on: `extractLength` reads
      indices 0..3 and `extractValue(s, 4, 8)` reads 4..7. */
  const MinTelegram: nat := 8

  /** `(int) (charValue * Math.pow(16, 2 * j))`. For j >= 0 the product is
      an exact integer that the cast saturates; for j < 0 it is
      `c / 256^-j` truncated toward zero. */
  function Weighted(c: int, j: int): (r: int)
    requires c >= 0
    ensures InRange(r)
  {
    if j >= 0 then Saturate(c * Pow256(j)) else Saturate(c / Pow256(-j))
  }

  /** The accumulator of `extractLength` after `i` of its four steps. */
  function LengthSum(s: string, at: nat, i: nat): (acc: int)
    requires i <= 4 && at + 4 <= |s|
    ensures InRange(acc)
  {
    if i == 0 then 0
    else Wrap(LengthSum(s, at, i - 1) + Weighted(s[at + i - 1] as int, 3 - (i - 1)))
  }

  /** `extractLength(s, at)`: the four characters from `at` weighted
      256^3, 256^2, 256, 1. */
  function ExtractLength(s: string, at: nat): (len: int)
    requires at + 4 <= |s|
    ensures InRange(len)
  {
    LengthSum(s, at, 4)
  }

  /** Big-endian value of four character codes. */
  function Digits4(s: string, at: nat): int
    requires at + 4 <= |s|
  {
    ((s[at] as int * 256 + s[at + 1] as int) * 256 + s[at + 2] as int) * 256 + s[at + 3] as int
  }

  /** When the four characters are bytes and the first is below 128,
      `extractLength` is their big-endian value (no saturation, no wrap). */
  lemma ExtractLengthBigEndian(s: string, at: nat)
    requires at + 4 <= |s|
    requires s[at] as int < 128
    requires forall i :: at < i < at + 4 ==> s[i] as int < 256
    ensures ExtractLength(s, at) == Digits4(s, at)
  {
    assert Pow256(1) == 0x100 && Pow256(2) == 0x1_0000 && Pow256(3) == 0x100_0000;
    assert LengthSum(s, at, 1) == s[at] as int * 0x100_0000;
    assert LengthSum(s, at, 2) == s[at] as int * 0x100_0000 + s[at + 1] as int * 0x1_0000;
    assert LengthSum(s, at, 3) == s[at] as int * 0x100_0000 + s[at + 1] as int * 0x1_0000 + s[at + 2] as int * 0x100;
  }

  /** Round trip with the frame codec: the telegram received for a frame
      `send` wrote carries the command's length in its first four characters. */
  lemma ExtractLengthOfFrame(cmd: string, more: seq<Framing.byte>)
    requires Framing.Latin1(cmd)
    requires |cmd| <= IntMax
    ensures var t := Framing.ReceiveFrame(Framing.Frame(cmd) + more).telegram;
      |t| == 4 + |cmd| && ExtractLength(t, 0) == |cmd|
  {
    Framing.RoundTrip(cmd, more);
    var n := |cmd|;
    var t := Framing.HeaderChars(n) + cmd;
    var f := Framing.LengthField(n);
    Framing.BigEndian4(f);
    forall i | 0 <= i < 4
      ensures t[i] as int == f[i] as int
    {
      assert t[i] == Framing.HeaderChars(n)[i];
    }
    assert n / 0x100_0000 < 128;
    ExtractLengthBigEndian(t, 0);
  }

  /** The loop of `extractValue(s, cur, end)` from index `i` with running
      value `acc`; index i carries weight exponent i - (end - 8). */
  function ValueLoop(s: string, i: nat, end: int, acc: int): (v: int)
    requires InRange(acc)
    requires i < end ==> end <= |s|
    ensures InRange(v)
    ensures end <= i ==> v == acc
    decreases end - i
  {
    if i >= end then acc
    else ValueLoop(s, i + 1, end, Wrap(acc + Weighted(s[i] as int, i - (end - 8))))
  }

  /** `extractValue(s, cur, end)`: reads the characters at cur..end-1. */
  function ExtractValue(s: string, cur: nat, end: int): (v: int)
    requires cur < end ==> end <= |s|
    ensures InRange(v)
  {
    ValueLoop(s, cur, end, 0)
  }

  /** `extractValue` with equal bounds reads nothing and yields 0; this is
      the case of the resolution read (12, 12) and the point-count read
      (14, 14) in `processStringData`. */
  lemma EmptyRangeIsZero(s: string, i: nat)
    ensures ExtractValue(s, i, i) == 0
  {
  }

  /** Number of characters other than U+0000 in s[i..end]. */
  function NonZero(s: string, i: nat, end: nat): nat
    requires i <= end <= |s|
    decreases end - i
  {
    if i == end then 0 else (if s[i] as int != 0 then 1 else 0) + NonZero(s, i + 1, end)
  }

  /** The exact sum of the weighted characters s[i..end], before any wrap. */
  function WeightSum(s: string, i: nat, end: nat): int
    requires i <= end <= |s|
    decreases end - i
  {
    if i == end then 0 else Weighted(s[i] as int, i - (end - 8)) + WeightSum(s, i + 1, end)
  }

  /** The loop of `extractValue` wraps after every addition, which is the
      same as wrapping the exact sum once. */
  lemma {:induction false} ValueLoopWrapsOnce(s: string, i: nat, end: nat, acc: int)
    requires i <= end <= |s|
    requires InRange(acc)
    ensures ValueLoop(s, i, end, acc) == Wrap(acc + WeightSum(s, i, end))
    decreases end - i
  {
    if i < end {
      var w := Weighted(s[i] as int, i - (end - 8));
      var rest := WeightSum(s, i + 1, end);
      ValueLoopWrapsOnce(s, i + 1, end, Wrap(acc + w));
      WrapSum(rest, acc + w);
    }
  }

  /** `extractValue(s, cur, end)` is the exact sum of its weighted
      characters reduced to 32 bits. */
  lemma ExtractValueWrapsOnce(s: string, cur: nat, end: nat)
    requires cur <= end <= |s|
    ensures ExtractValue(s, cur, end) == Wrap(WeightSum(s, cur, end))
  {
    ValueLoopWrapsOnce(s, cur, end, 0);
  }

  /** With every weight 256^4 or more, each character other than U+0000
      contributes a saturated `Integer.MAX_VALUE`. */
  lemma {:induction false} HighWeightSum(s: string, i: nat)
    requires 4 <= i <= 8 <= |s|
    ensures WeightSum(s, i, 8) == IntMax * NonZero(s, i, 8)
    decreases 8 - i
  {
    if i < 8 {
      HighWeight(s[i] as int, i);
      HighWeightSum(s, i + 1);
      var k := NonZero(s, i + 1, 8);
      if s[i] as int != 0 {
        assert IntMax * (1 + k) == IntMax + IntMax * k;
      }
    }
  }

  /** In `extractValue(s, 4, 8)`, the read of the starting angle, every
      weight is 256^4 or more, so each character other than U+0000 adds a
      saturated `Integer.MAX_VALUE` and the sum wraps: the result depends
      only on how many of the four characters are not U+0000. */
  lemma StartingAngleSaturates(s: string)
    requires |s| >= MinTelegram
    ensures ExtractValue(s, 4, 8) == Wrap(IntMax * NonZero(s, 4, 8))
  {
    ExtractValueWrapsOnce(s, 4, 8);
    HighWeightSum(s, 4);
  }

  /** A character weighted 256^k with k >= 4 saturates unless it is U+0000. */
  lemma HighWeight(c: int, k: nat)
    requires 0 <= c && k >= 4
    ensures Weighted(c, k) == if c != 0 then IntMax else 0
  {
    PowGrows(k);
    var p := Pow256(k);
    assert Weighted(c, k) == Saturate(c * p);
    if c != 0 {
      assert c * p == p + (c - 1) * p;
    } else {
      assert c * p == 0;
    }
  }

  /** 256^k for k >= 4 is at least 2^32. */
  lemma {:induction false} PowGrows(k: nat)
    requires k >= 4
    ensures Pow256(k) >= Modulus
  {
    if k > 4 {
      PowGrows(k - 1);
    } else {
      assert Pow256(4) == 256 * 256 * 256 * 256;
    }
  }

  /** The two characters at `at` read as a little-endian 16-bit value. */
  function RawDistance(s: string, at: nat): int
    requires at + 1 < |s|
  {
    s[at + 1] as int * 256 + s[at] as int
  }

  /** `extractDistance(s, at)`: the raw distance, or 0 when it lies outside
      the sensor's range [700, 3000]. */
  function ExtractDistance(s: string, at: nat): (d: int)
    requires at + 1 < |s|
    ensures d == 0 || MinDistance <= d <= MaxDistance
    ensures MinDistance <= RawDistance(s, at) <= MaxDistance ==> d == RawDistance(s, at)
    ensures d != 0 ==> d == RawDistance(s, at)
  {
    var distance := RawDistance(s, at);
    if distance > MaxDistance || distance < MinDistance then 0 else distance
  }

  /** `startingAngle + (angularResolution * pointIndex)` in `int` arithmetic. */
  function PointAngle(start: int, resolution: int, k: int): (a: int)
    ensures InRange(a)
    ensures InRange(resolution * k) && InRange(start + resolution * k) ==> a == start + resolution * k
  {
    Wrap(start + Wrap(resolution * k))
  }

  /** The point loop of `processStringData` from index `p`: point k sits at
      offset 24 + 2k and has angle start + resolution * k in `int`
      arithmetic. A read past the end aborts the whole telegram. */
  function PointsFrom(s: string, start: int, resolution: int, count: int, p: nat): (r: Option<Scan>)
    decreases count - p
  {
    if p >= count then Some([])
    else
      var at := DistanceOffset + 2 * p;
      if at + 1 >= |s| then None
      else
        var point := Point(ExtractDistance(s, at), PointAngle(start, resolution, p));
        match PointsFrom(s, start, resolution, count, p + 1)
        case None => None
        case Some(rest) => Some([point] + rest)
  }

  /** What the point loop yields: one point per index in [p, count), with
      the distance read at its offset and the angle of its index; it fails
      exactly when the string is too short for the last point. */
  lemma {:induction false} PointsFromSpec(s: string, start: int, resolution: int, count: int, p: nat)
    ensures var r := PointsFrom(s, start, resolution, count, p);
      && (r.Some? <==> (p >= count || DistanceOffset + 2 * (count - 1) + 1 < |s|))
      && (r.Some? ==> |r.value| == (if p >= count then 0 else count - p))
      && (r.Some? ==> forall k :: 0 <= k < |r.value| ==>
            && DistanceOffset + 2 * (p + k) + 1 < |s|
            && r.value[k].distance == ExtractDistance(s, DistanceOffset + 2 * (p + k))
            && r.value[k].angleRaw == PointAngle(start, resolution, p + k))
    decreases count - p
  {
    if p < count {
      PointsFromSpec(s, start, resolution, count, p + 1);
      var r := PointsFrom(s, start, resolution, count, p);
      var next := PointsFrom(s, start, resolution, count, p + 1);
      if r.Some? {
        assert next.Some?;
        assert r.value == [r.value[0]] + next.value;
        forall k | 0 <= k < |r.value|
          ensures DistanceOffset + 2 * (p + k) + 1 < |s|
          ensures r.value[k].distance == ExtractDistance(s, DistanceOffset + 2 * (p + k))
          ensures r.value[k].angleRaw == PointAngle(start, resolution, p + k)
        {
          if k > 0 {
            assert r.value[k] == next.value[k - 1];
            assert p + k == (p + 1) + (k - 1);
          }
        }
      }
    }
  }

  /** The angle of point k is the starting angle plus k resolution steps,
      reduced to 32 bits once. */
  lemma PointAngleWraps(start: int, resolution: int, k: int)
    ensures PointAngle(start, resolution, k) == Wrap(start + resolution * k)
  {
    WrapSum(start, resolution * k);
  }

  /** Wrapping an operand first does not change a wrapped sum. */
  lemma WrapSum(a: int, b: int)
    ensures Wrap(a + Wrap(b)) == Wrap(a + b)
  {
    var k := (b - Wrap(b)) / Modulus;
    assert b - Wrap(b) == k * Modulus;
    assert (a + b) - (a + Wrap(b)) == k * Modulus;
    WrapCongruent(a + b, a + Wrap(b), k);
  }

  /** Values that differ by a multiple of 2^32 wrap to the same `int`. */
  lemma WrapCongruent(x: int, y: int, k: int)
    requires x - y == k * Modulus
    ensures Wrap(x) == Wrap(y)
  {
    assert x % Modulus == y % Modulus;
  }

  /** `processStringData(s)`: the points of one telegram, or `None` when a
      read runs past the end of the string. */
  function ProcessStringData(s: string): (r: Option<Scan>)
    ensures r.Some? <==> |s| >= MinTelegram
    ensures r.Some? ==> r.value == []
  {
    if |s| < MinTelegram then None
    else
      // extractLength(s, 0) is computed and never used.
      var startingAngle := ExtractValue(s, 4, 8);
      var angularResolution := ExtractValue(s, 12, 12);
      var numberOfPoints := ExtractValue(s, 14, 14);
      PointsFrom(s, startingAngle, angularResolution, numberOfPoints, 0)
  }

  /** The point loop on a telegram with starting angle 550000, resolution
      2500 and raw distances 1500, 4000 and 600: angles advance by the
      resolution and out-of-range distances become 0. */
  lemma PointLoopExample()
    ensures var s := seq(DistanceOffset, _ => 0 as char)
              + [0xDC as char, 0x05 as char, 0xA0 as char, 0x0F as char, 0x58 as char, 0x02 as char];
      PointsFrom(s, 550000, 2500, 3, 0)
        == Some([Point(1500, 550000), Point(0, 552500), Point(0, 555000)])
  {
    var s := seq(DistanceOffset, _ => 0 as char)
               + [0xDC as char, 0x05 as char, 0xA0 as char, 0x0F as char, 0x58 as char, 0x02 as char];
    assert |s| == 30;
    assert s[24] as int == 0xDC && s[25] as int == 0x05;
    assert s[26] as int == 0xA0 && s[27] as int == 0x0F;
    assert s[28] as int == 0x58 && s[29] as int == 0x02;
    assert ExtractDistance(s, 24) == 1500;
    assert ExtractDistance(s, 26) == 0;
    assert ExtractDistance(s, 28) == 0;
    assert PointAngle(550000, 2500, 0) == 550000;
    assert PointAngle(550000, 2500, 1) == 552500;
    assert PointAngle(550000, 2500, 2) == 555000;
    assert PointsFrom(s, 550000, 2500, 3, 3) == Some([]);
    var p2 := Point(0, 555000);
    var p1 := Point(0, 552500);
    var p0 := Point(1500, 550000);
    assert [p2] + [] == [p2];
    assert PointsFrom(s, 550000, 2500, 3, 2) == Some([p2]);
    assert [p1] + [p2] == [p1, p2];
    assert PointsFrom(s, 550000, 2500, 3, 1) == Some([p1, p2]);
    assert [p0] + [p1, p2] == [p0, p1, p2];
  }
}
