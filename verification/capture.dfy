/** Telegram capture (`measure()`, `measure(N)`) and the scan sequence
    `scan(N)` = start, capture, stop, then consume the reset flag. */
module Capture {
  import opened Wrappers
  import opened Framing
  import opened Lms400
  import opened Handshake

  /** `measure()`: receive one telegram (null when disconnected) and log it. */
  function MeasureOnce(d: Device, link: Link): (r: Outcome)
    ensures r.ok
    ensures r.dev.(stringData := d.stringData) == d
    ensures r.dev.stringData == d.stringData + ReceiveMany(d.isConnected, link, 1).telegrams
    ensures r.link == ReceiveMany(d.isConnected, link, 1).link
  {
    var rx := ReceiveTelegram(d.isConnected, link);
    Outcome(true, d.(stringData := d.stringData + [rx.telegram]), rx.link)
  }

  /** The loop of `measure(N)` from iteration `i`: receive, append, then
      read the reset flag (checkpoint i); when it is set, drop all of
      `stringData` and stop. */
  function MeasureLoop(d: Device, link: Link, i: nat, n: int, arrivals: seq<bool>): (r: Outcome)
    decreases n - i
  {
    if i >= n then Outcome(true, d, link)
    else
      var rx := ReceiveTelegram(d.isConnected, link);
      var flag := d.isReset || Arrived(arrivals, i);
      var d1 := d.(stringData := d.stringData + [rx.telegram], isReset := flag);
      if flag then Outcome(false, d1.(stringData := []), rx.link)
      else MeasureLoop(d1, rx.link, i + 1, n, arrivals)
  }

  /** `measure(N)`. */
  function MeasureMany(d: Device, link: Link, n: int, arrivals: seq<bool>): (r: Outcome)
    ensures r.dev.isConnected == d.isConnected && r.dev.isWorking == d.isWorking
    ensures r.dev.scanData == d.scanData
    ensures r.link.sent == link.sent
  {
    MeasureLoopFrame(d, link, 0, n, arrivals);
    MeasureLoop(d, link, 0, n, arrivals)
  }

  /** The loop touches neither the connection, the working flag, the scans
      nor the bytes sent. */
  lemma {:induction false} MeasureLoopFrame(d: Device, link: Link, i: nat, n: int, arrivals: seq<bool>)
    ensures var r := MeasureLoop(d, link, i, n, arrivals);
      && r.dev.isConnected == d.isConnected && r.dev.isWorking == d.isWorking
      && r.dev.scanData == d.scanData && r.link.sent == link.sent
    decreases n - i
  {
    if i < n {
      var rx := ReceiveTelegram(d.isConnected, link);
      var flag := d.isReset || Arrived(arrivals, i);
      if !flag {
        MeasureLoopFrame(d.(stringData := d.stringData + [rx.telegram], isReset := flag), rx.link, i + 1, n, arrivals);
      }
    }
  }

  /** One loop iteration that sees no reset: the telegram is kept and
      the loop goes on. */
  lemma MeasureLoopStep(d: Device, link: Link, i: nat, n: int, arrivals: seq<bool>)
    requires i < n
    requires !d.isReset && !Arrived(arrivals, i)
    ensures var rx := ReceiveTelegram(d.isConnected, link);
      MeasureLoop(d, link, i, n, arrivals)
        == MeasureLoop(d.(stringData := d.stringData + [rx.telegram]), rx.link, i + 1, n, arrivals)
  {
  }

  /** Receiving k + 1 telegrams is receiving one, then k more. */
  lemma ReceiveManyStep(connected: bool, link: Link, k: nat)
    ensures var rx := ReceiveTelegram(connected, link);
      var rest := ReceiveMany(connected, rx.link, k);
      ReceiveMany(connected, link, k + 1) == Batch([rx.telegram] + rest.telegrams, rest.link)
  {
  }

  /** Without a reset, the loop from `i` appends the next n - i telegrams
      in the order received and succeeds. */
  lemma {:induction false} MeasureLoopComplete(d: Device, link: Link, i: nat, n: int, arrivals: seq<bool>)
    requires !d.isReset
    requires forall k :: i <= k < n ==> !Arrived(arrivals, k)
    ensures var b := ReceiveMany(d.isConnected, link, if n > i then n - i else 0);
      MeasureLoop(d, link, i, n, arrivals)
        == Outcome(true, d.(stringData := d.stringData + b.telegrams), b.link)
    decreases n - i
  {
    if i < n {
      var rx := ReceiveTelegram(d.isConnected, link);
      var d1 := d.(stringData := d.stringData + [rx.telegram]);
      MeasureLoopStep(d, link, i, n, arrivals);
      MeasureLoopComplete(d1, rx.link, i + 1, n, arrivals);
      ReceiveManyStep(d.isConnected, link, n - i - 1);
      var rest := ReceiveMany(d.isConnected, rx.link, n - i - 1);
      var b := ReceiveMany(d.isConnected, link, n - i);
      assert b.telegrams == [rx.telegram] + rest.telegrams && b.link == rest.link;
      assert d1.stringData + rest.telegrams == d.stringData + b.telegrams;
    } else {
      assert d.stringData + [] == d.stringData;
    }
  }

  /** With the flag first seen set at checkpoint j >= i, the loop from `i`
      consumes exactly j - i + 1 telegrams, leaves `stringData` empty and
      fails. */
  lemma {:induction false} MeasureLoopCancelled(d: Device, link: Link, i: nat, j: nat, n: int, arrivals: seq<bool>)
    requires i <= j < n
    requires d.isReset || Arrived(arrivals, j)
    requires j > i ==> !d.isReset
    requires forall k :: i <= k < j ==> !Arrived(arrivals, k)
    ensures MeasureLoop(d, link, i, n, arrivals)
      == Outcome(false, d.(stringData := [], isReset := true), ReceiveMany(d.isConnected, link, j - i + 1).link)
    decreases j - i
  {
    var rx := ReceiveTelegram(d.isConnected, link);
    if j > i {
      var d1 := d.(stringData := d.stringData + [rx.telegram]);
      MeasureLoopCancelled(d1, rx.link, i + 1, j, n, arrivals);
    }
  }

  /** `measure(N)` with no reset seen appends the N received telegrams to
      `stringData` in order, consumes exactly them and succeeds. */
  lemma MeasureComplete(d: Device, link: Link, n: int, arrivals: seq<bool>)
    requires NoneSeen(d.isReset, arrivals, n)
    ensures var b := ReceiveMany(d.isConnected, link, if n > 0 then n else 0);
      MeasureMany(d, link, n, arrivals) == Outcome(true, d.(stringData := d.stringData + b.telegrams), b.link)
  {
    MeasureLoopComplete(d, link, 0, n, arrivals);
  }

  /** `measure(N)` whose reset is first seen after the (j+1)-th append
      consumes exactly j + 1 telegrams, empties `stringData` (including
      answers logged earlier) and fails. */
  lemma MeasureCancelled(d: Device, link: Link, j: nat, n: int, arrivals: seq<bool>)
    requires j < n
    requires FirstSeen(d.isReset, arrivals, j)
    ensures MeasureMany(d, link, n, arrivals)
      == Outcome(false, d.(stringData := [], isReset := true), ReceiveMany(d.isConnected, link, j + 1).link)
  {
    MeasureLoopCancelled(d, link, 0, j, n, arrivals);
  }

  /** `measure(N)` never clears the reset flag: afterwards it is set
      exactly when it was set on entry or a reset arrived before one of
      the N checkpoints, and the call succeeds exactly when it stopped
      at no checkpoint. */
  lemma {:induction false} MeasureResetFlag(d: Device, link: Link, i: nat, n: int, arrivals: seq<bool>)
    requires i > 0 ==> !d.isReset
    ensures var r := MeasureLoop(d, link, i, n, arrivals);
      && (r.dev.isReset <==> d.isReset || exists k :: i <= k < n && Arrived(arrivals, k))
      && (r.ok <==> n <= i || !r.dev.isReset)
    decreases n - i
  {
    if i < n {
      var rx := ReceiveTelegram(d.isConnected, link);
      var flag := d.isReset || Arrived(arrivals, i);
      if !flag {
        var d1 := d.(stringData := d.stringData + [rx.telegram], isReset := flag);
        MeasureResetFlag(d1, rx.link, i + 1, n, arrivals);
        var r := MeasureLoop(d, link, i, n, arrivals);
        if r.dev.isReset {
          var k :| i + 1 <= k < n && Arrived(arrivals, k);
        }
        if exists k :: i <= k < n && Arrived(arrivals, k) {
          var k :| i <= k < n && Arrived(arrivals, k);
          assert k != i;
        }
      }
    }
  }

  /** `scan(N)`: does nothing when disconnected; otherwise start, capture
      and stop whatever their results, then report and clear the reset
      flag. `late` says a reset arrived after the last capture checkpoint
      and before the flag is read at the end. */
  function Scan(d: Device, link: Link, n: int, arrivals: seq<bool>, late: bool): (r: Outcome)
    ensures !d.isConnected ==> r == Outcome(false, d, link)
    ensures d.isConnected ==> !r.dev.isReset && r.dev.isConnected
    ensures d.isConnected ==> r.link.sent == link.sent + Frame(StartCommand) + Frame(StopCommand)
    ensures d.isConnected ==> r.dev.isWorking
    ensures r.dev.scanData == d.scanData
  {
    if !d.isConnected then Outcome(false, d, link)
    else
      var started := StartScanning(d, link);
      var measured := MeasureMany(started.dev, started.link, n, arrivals);
      var stopped := StopScanning(measured.dev, measured.link);
      var flag := stopped.dev.isReset || late;
      var d1 := stopped.dev.(isReset := flag);
      if flag then Outcome(false, d1.(isReset := false), stopped.link)
      else Outcome(true, d1, stopped.link)
  }

  /** `scan(N)` succeeds exactly when connected and no reset was pending or
      arrived at any point of the call. */
  lemma ScanResult(d: Device, link: Link, n: int, arrivals: seq<bool>, late: bool)
    ensures Scan(d, link, n, arrivals, late).ok
      <==> d.isConnected && NoneSeen(d.isReset, arrivals, n) && !late
  {
    if d.isConnected {
      var started := StartScanning(d, link);
      MeasureResetFlag(started.dev, started.link, 0, n, arrivals);
    }
  }

  /** A cancelled capture makes the whole scan fail, even though the stop
      command is still sent. */
  lemma ScanCancelled(d: Device, link: Link, j: nat, n: int, arrivals: seq<bool>, late: bool)
    requires d.isConnected
    requires j < n
    requires FirstSeen(d.isReset, arrivals, j)
    ensures !Scan(d, link, n, arrivals, late).ok
  {
    ScanResult(d, link, n, arrivals, late);
    if j > 0 {
      assert Arrived(arrivals, j);
    }
  }

  /** What `scan(N)` logs when no reset stops the capture: the start
      handshake's answer unless it is a fault, the N captured telegrams in
      order, then the stop handshake's answer unless it is a fault. The
      stream is consumed up to the end of the stop answer's frame. */
  lemma ScanCaptures(d: Device, link: Link, n: int, arrivals: seq<bool>, late: bool)
    requires d.isConnected
    requires NoneSeen(d.isReset, arrivals, n)
    ensures var f1 := ReceiveFrame(link.incoming);
      var b := ReceiveMany(true, Link(f1.rest, link.sent + Frame(StartCommand)), if n > 0 then n else 0);
      var f2 := ReceiveFrame(b.link.incoming);
      var r := Scan(d, link, n, arrivals, late);
      && r.dev.stringData
        == d.stringData + Logged(f1.telegram, StartAck) + b.telegrams + Logged(f2.telegram, StopAck)
      && r.link.incoming == f2.rest
  {
    var started := StartScanning(d, link);
    assert started.link == Link(ReceiveFrame(link.incoming).rest, link.sent + Frame(StartCommand));
    MeasureComplete(started.dev, started.link, n, arrivals);
  }

  /** When the capture is cancelled at checkpoint j, `scan(N)` fails and
      all that remains logged is the stop handshake's answer (unless it is
      a fault); the stream is consumed up to the end of that answer, read
      after the start answer and j + 1 telegrams. */
  lemma ScanCancelledLog(d: Device, link: Link, j: nat, n: int, arrivals: seq<bool>, late: bool)
    requires d.isConnected
    requires j < n
    requires FirstSeen(d.isReset, arrivals, j)
    ensures var f1 := ReceiveFrame(link.incoming);
      var b := ReceiveMany(true, Link(f1.rest, link.sent + Frame(StartCommand)), j + 1);
      var f2 := ReceiveFrame(b.link.incoming);
      var r := Scan(d, link, n, arrivals, late);
      && !r.ok
      && r.dev.stringData == Logged(f2.telegram, StopAck)
      && r.link.incoming == f2.rest
  {
    var started := StartScanning(d, link);
    assert started.link == Link(ReceiveFrame(link.incoming).rest, link.sent + Frame(StartCommand));
    MeasureCancelled(started.dev, started.link, j, n, arrivals);
    ScanCancelled(d, link, j, n, arrivals, late);
  }

  /** A freshly constructed device is disconnected: `scan`, `command` and
      `disconnect` return false and neither read nor write the socket. */
  lemma FreshDeviceIsIdle(link: Link, n: int, arrivals: seq<bool>, late: bool, cmd: string, a1: string, a2: string, closes: bool)
    ensures Scan(Initial, link, n, arrivals, late) == Outcome(false, Initial, link)
    ensures Command(Initial, link, cmd, a1, a2) == Outcome(false, Initial, link)
    ensures Disconnect(Initial, closes) == Reply(false, Initial)
  {
  }
}
