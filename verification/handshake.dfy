/** The answer classifier `check` and the three-message exchange
    `command` (send sMN, expect sMA, expect sAN), with the start and stop
    commands built on it. */
module Handshake {
  import opened Wrappers
  import opened Framing
  import opened Lms400

  /** Marker of a fault answer. */
  const FaultMarker: string := "sFA FF"

  const StartCommand: string := "sMN mLRreqdata 0021"
  const StartAck: string := "sMA mLRreqdata"
  const StartAnswer: string := "sAN mLRreqdata 00000000"

  const StopCommand: string := "sMN mLRstopdata"
  const StopAck: string := "sMA mLRstopdata"
  const StopAnswer: string := "sAN mLRstopdata 00000000"

  /** Results of `check`. */
  const Matched: int := 1
  const Fault: int := -1
  const Unexpected: int := 0

  ghost predicate OccursAt(s: string, pat: string, i: int) {
    0 <= i && i + |pat| <= |s| && s[i..i + |pat|] == pat
  }

  ghost predicate HasSubstring(s: string, pat: string) {
    exists i :: OccursAt(s, pat, i)
  }

  /** Occurrences away from the front of `s` are the occurrences in `s[1..]`. */
  lemma ShiftSubstring(s: string, pat: string)
    requires 0 < |pat| <= |s|
    requires s[..|pat|] != pat
    ensures HasSubstring(s, pat) <==> HasSubstring(s[1..], pat)
  {
    if HasSubstring(s, pat) {
      var i :| OccursAt(s, pat, i);
      assert i != 0;
      assert s[1..][i - 1..i - 1 + |pat|] == s[i..i + |pat|];
      assert OccursAt(s[1..], pat, i - 1);
    }
    if HasSubstring(s[1..], pat) {
      var j :| OccursAt(s[1..], pat, j);
      assert s[1..][j..j + |pat|] == s[j + 1..j + 1 + |pat|];
      assert OccursAt(s, pat, j + 1);
    }
  }

  /** `String.contains`, by scanning from the front. */
  function Contains(s: string, pat: string): (b: bool)
    ensures b <==> HasSubstring(s, pat)
    decreases |s|
  {
    if |s| < |pat| then false
    else if s[..|pat|] == pat then assert OccursAt(s, pat, 0); true
    else ShiftSubstring(s, pat); Contains(s[1..], pat)
  }

  /** What `check` appends to `stringData` for an answer: nothing for the
      expected answer or a fault answer, the answer itself otherwise. */
  ghost function Logged(received: string, expected: string): seq<Option<string>> {
    if received == expected || HasSubstring(received, FaultMarker) then [] else [Some(received)]
  }

  /** Result code and state after `check`. */
  datatype Checked = Checked(code: int, dev: Device)

  /** `check(received, expected)`: 1 for the expected answer, -1 for a
      fault answer, 0 otherwise; only an unexpected answer is logged,
      at the end of `stringData`. */
  function Check(d: Device, received: string, expected: string): (r: Checked)
    ensures r.code == Matched <==> received == expected
    ensures r.code == Fault <==> received != expected && HasSubstring(received, FaultMarker)
    ensures r.code == Unexpected <==> received != expected && !HasSubstring(received, FaultMarker)
    ensures r.code == Unexpected ==> r.dev == d.(stringData := d.stringData + [Some(received)])
    ensures r.code != Unexpected ==> r.dev == d
    ensures r.dev == d.(stringData := d.stringData + Logged(received, expected))
  {
    if received == expected then Checked(Matched, d)
    else if Contains(received, FaultMarker) then Checked(Fault, d)
    else Checked(Unexpected, d.(stringData := d.stringData + [Some(received)]))
  }

  /** `command(cmd, a1, a2)`: send `cmd`; fail unless the first answer is
      `a1`; succeed exactly when the second answer is `a2`. */
  function Command(d: Device, link: Link, cmd: string, a1: string, a2: string): (r: Outcome)
    ensures !d.isConnected ==> r == Outcome(false, d, link)
    ensures d.isConnected ==> r.link.sent == link.sent + Frame(cmd)
    ensures d.isConnected ==>
      var f1 := ReceiveFrame(link.incoming);
      if f1.telegram != a1 then !r.ok && r.link.incoming == f1.rest
      else
        var f2 := ReceiveFrame(f1.rest);
        r.ok == (f2.telegram == a2) && r.link.incoming == f2.rest
    ensures r.dev.(stringData := d.stringData) == d
    ensures |d.stringData| <= |r.dev.stringData| <= |d.stringData| + 1
    ensures r.dev.stringData[..|d.stringData|] == d.stringData
    ensures d.isConnected ==>
      var f1 := ReceiveFrame(link.incoming);
      var f2 := ReceiveFrame(f1.rest);
      r.dev.stringData == d.stringData
        + (if f1.telegram != a1 then Logged(f1.telegram, a1) else Logged(f2.telegram, a2))
  {
    if !d.isConnected then Outcome(false, d, link)
    else
      var link1 := Transmit(link, cmd);
      var rx1 := ReceiveTelegram(d.isConnected, link1);
      var c1 := Check(d, rx1.telegram.value, a1);
      if c1.code != Matched then Outcome(false, c1.dev, rx1.link)
      else
        var rx2 := ReceiveTelegram(d.isConnected, rx1.link);
        var c2 := Check(c1.dev, rx2.telegram.value, a2);
        Outcome(c2.code == Matched, c2.dev, rx2.link)
  }

  /** The answer `command` compares with is the length header followed by
      the payload, so it never equals an expected answer that starts with
      a printable character and is 5 to 2^23 characters long. */
  lemma NeverMatches(input: seq<byte>, expected: string)
    requires 4 < |expected| <= 0x80_0000
    requires expected[0] != 0 as char
    ensures ReceiveFrame(input).telegram != expected
  {
    if |ReceiveFrame(input).telegram| == |expected| {
      ShortTelegramLeadsWithZero(input);
    }
  }

  /** Consequently a connected `command` with such a first expected answer
      always fails, after consuming one frame. */
  lemma CommandAlwaysFails(d: Device, link: Link, cmd: string, a1: string, a2: string)
    requires d.isConnected
    requires 4 < |a1| <= 0x80_0000
    requires a1[0] != 0 as char
    ensures !Command(d, link, cmd, a1, a2).ok
  {
    NeverMatches(link.incoming, a1);
  }

  /** `startScanning()`: `isWorking` becomes the handshake's result, which
      is always false because the acknowledge never matches. When
      connected, exactly one answer frame is read, and it is logged unless
      it is a fault answer. */
  function StartScanning(d: Device, link: Link): (r: Session)
    ensures !r.dev.isWorking
    ensures r.dev.(isWorking := d.isWorking, stringData := d.stringData) == d
    ensures |d.stringData| <= |r.dev.stringData| <= |d.stringData| + 1
    ensures r.dev.stringData[..|d.stringData|] == d.stringData
    ensures !d.isConnected ==> r == Session(d.(isWorking := false), link)
    ensures d.isConnected ==> r.link.sent == link.sent + Frame(StartCommand)
    ensures d.isConnected ==>
      var f := ReceiveFrame(link.incoming);
      r.link.incoming == f.rest && r.dev.stringData == d.stringData + Logged(f.telegram, StartAck)
  {
    var c := Command(d, link, StartCommand, StartAck, StartAnswer);
    assert !c.ok && (d.isConnected ==> ReceiveFrame(link.incoming).telegram != StartAck) by {
      if d.isConnected {
        NeverMatches(link.incoming, StartAck);
      }
    }
    Session(c.dev.(isWorking := c.ok), c.link)
  }

  /** `stopScanning()`: `isWorking` becomes the negation of the handshake's
      result, which is always true because the acknowledge never matches.
      When connected, exactly one answer frame is read, and it is logged
      unless it is a fault answer. */
  function StopScanning(d: Device, link: Link): (r: Session)
    ensures r.dev.isWorking
    ensures r.dev.(isWorking := d.isWorking, stringData := d.stringData) == d
    ensures |d.stringData| <= |r.dev.stringData| <= |d.stringData| + 1
    ensures r.dev.stringData[..|d.stringData|] == d.stringData
    ensures !d.isConnected ==> r == Session(d.(isWorking := true), link)
    ensures d.isConnected ==> r.link.sent == link.sent + Frame(StopCommand)
    ensures d.isConnected ==>
      var f := ReceiveFrame(link.incoming);
      r.link.incoming == f.rest && r.dev.stringData == d.stringData + Logged(f.telegram, StopAck)
  {
    var c := Command(d, link, StopCommand, StopAck, StopAnswer);
    assert !c.ok && (d.isConnected ==> ReceiveFrame(link.incoming).telegram != StopAck) by {
      if d.isConnected {
        NeverMatches(link.incoming, StopAck);
      }
    }
    Session(c.dev.(isWorking := !c.ok), c.link)
  }

  /** Classification of three sample answers. */
  lemma CheckExamples(d: Device)
    ensures Check(d, "sMA mLRreqdata", "sMA mLRreqdata").code == Matched
    ensures Check(d, "sFA FF something", StartAnswer).code == Fault
    ensures Check(d, "sAN other 00", StartAnswer)
      == Checked(Unexpected, d.(stringData := d.stringData + [Some("sAN other 00")]))
  {
    assert OccursAt("sFA FF something", FaultMarker, 0);
    var s := "sAN other 00";
    assert forall i :: 0 <= i < |s| ==> s[i] != 'F';
    assert FaultMarker[1] == 'F';
  }
}
