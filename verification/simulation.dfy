/** `simulateScan(N)`: synthetic scans without a sensor. */
module Simulation {
  import opened Telegram
  import opened Lms400

  const DefaultDistance: int := 1500
  const StartingAngle: int := 550000
  const AngularResolution: int := 2500
  const NumberOfPoints: nat := 280

  /** The scan built by one iteration: 280 points at distance 1500, the
      j-th at angle 550000 + 2500 * j (in `int` arithmetic). */
  function SimulatedScan(): (scan: Scan)
    ensures |scan| == NumberOfPoints
  {
    seq(NumberOfPoints, j requires 0 <= j < NumberOfPoints => Point(DefaultDistance, PointAngle(StartingAngle, AngularResolution, j)))
  }

  /** The synthetic scan is a valid sweep: every distance is in the sensor's
      range, angles start at 55 degrees, grow by 0.25 degree per point and
      stay below 125 degrees. */
  lemma SimulatedScanShape()
    ensures forall j :: 0 <= j < |SimulatedScan()| ==>
      && SimulatedScan()[j].distance == DefaultDistance
      && MinDistance <= SimulatedScan()[j].distance <= MaxDistance
      && SimulatedScan()[j].angleRaw == StartingAngle + AngularResolution * j
      && StartingAngle <= SimulatedScan()[j].angleRaw < 1250000
    ensures forall i, j :: 0 <= i < j < |SimulatedScan()| ==>
      SimulatedScan()[i].angleRaw < SimulatedScan()[j].angleRaw
  {
  }

  /** The loop of `simulateScan` from iteration `i`: read the reset flag
      (checkpoint i); stop when set, else append one synthetic scan. */
  function SimulateLoop(d: Device, i: nat, n: int, arrivals: seq<bool>): (r: Reply)
    ensures r.ok
    decreases n - i
  {
    if i >= n then Reply(true, d)
    else
      var flag := d.isReset || Arrived(arrivals, i);
      var d1 := d.(isReset := flag);
      if flag then Reply(true, d1)
      else SimulateLoop(d1.(scanData := d1.scanData + [SimulatedScan()]), i + 1, n, arrivals)
  }

  /** `simulateScan(N)`: always reports success. */
  function SimulateScan(d: Device, n: int, arrivals: seq<bool>): (r: Reply)
    ensures r.ok
  {
    SimulateLoop(d, 0, n, arrivals)
  }

  /** The loop from `i` appends one synthetic scan per checkpoint passed
      before the flag is seen set (n - i of them when it never is) and
      changes nothing but the scans and the flag. */
  lemma {:induction false} SimulateLoopSpec(d: Device, i: nat, n: int, arrivals: seq<bool>, j: int)
    requires i <= j
    requires j < n ==> (d.isReset || Arrived(arrivals, j))
    requires j > i ==> !d.isReset
    requires forall k :: i <= k < j && k < n ==> !Arrived(arrivals, k)
    ensures var stop := if j < n then j else if n > i then n else i;
      var r := SimulateLoop(d, i, n, arrivals);
      && r.dev.scanData == d.scanData + seq(stop - i, _ => SimulatedScan())
      && r.dev.(scanData := d.scanData, isReset := d.isReset) == d
      && (j >= n ==> r.dev.isReset == d.isReset)
    decreases n - i
  {
    if i < n {
      var flag := d.isReset || Arrived(arrivals, i);
      if !flag {
        var d1 := d.(scanData := d.scanData + [SimulatedScan()]);
        SimulateLoopSpec(d1, i + 1, n, arrivals, j);
        var stop := if j < n then j else n;
        assert [SimulatedScan()] + seq(stop - i - 1, _ => SimulatedScan()) == seq(stop - i, _ => SimulatedScan());
      } else {
        assert j == i || !d.isReset;
      }
    } else {
      assert seq(0, _ => SimulatedScan()) == [];
    }
  }

  /** `simulateScan(N)` with no reset appends exactly N synthetic scans. */
  lemma SimulateAll(d: Device, n: nat, arrivals: seq<bool>)
    requires NoneSeen(d.isReset, arrivals, n)
    ensures SimulateScan(d, n, arrivals).dev == d.(scanData := d.scanData + seq(n, _ => SimulatedScan()))
  {
    SimulateLoopSpec(d, 0, n, arrivals, n);
  }

  /** `simulateScan(N)` whose reset is first seen at checkpoint j appends
      exactly j synthetic scans and leaves the flag set. */
  lemma SimulateInterrupted(d: Device, j: nat, n: int, arrivals: seq<bool>)
    requires j < n
    requires FirstSeen(d.isReset, arrivals, j)
    ensures SimulateScan(d, n, arrivals).dev
      == d.(scanData := d.scanData + seq(j, _ => SimulatedScan()), isReset := true)
  {
    SimulateLoopSpec(d, 0, n, arrivals, j);
    SimulateLoopFlag(d, 0, j, n, arrivals);
  }

  /** The flag is set when the loop stops at a checkpoint. */
  lemma {:induction false} SimulateLoopFlag(d: Device, i: nat, j: nat, n: int, arrivals: seq<bool>)
    requires i <= j < n
    requires d.isReset || Arrived(arrivals, j)
    requires j > i ==> !d.isReset
    requires forall k :: i <= k < j ==> !Arrived(arrivals, k)
    ensures SimulateLoop(d, i, n, arrivals).dev.isReset
    decreases j - i
  {
    if j > i {
      SimulateLoopFlag(d.(scanData := d.scanData + [SimulatedScan()]), i + 1, j, n, arrivals);
    }
  }
}
