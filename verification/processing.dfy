/** `process()`: parse every captured telegram, in capture order, into a
    scan appended to `scanData`. A `null` entry or a string too short for
    the header reads throws out of `process`, leaving the scans appended
    so far; `completed` is false in that case. */
module Processing {
  import opened Wrappers
  import opened Telegram
  import opened Lms400

  /** Scans parsed before the loop stopped, and whether it ran to the end. */
  datatype Parsed = Parsed(scans: seq<Scan>, completed: bool)

  /** An entry `processStringData` accepts without an exception. */
  predicate Parsable(entry: Option<string>) {
    entry.Some? && |entry.value| >= MinTelegram
  }

  /** The for-each loop of `process` over the entries. */
  function ParseAll(entries: seq<Option<string>>): (p: Parsed)
    ensures |p.scans| <= |entries|
  {
    if |entries| == 0 then Parsed([], true)
    else
      match entries[0]
      case None => Parsed([], false)
      case Some(s) =>
        match ProcessStringData(s)
        case None => Parsed([], false)
        case Some(scan) =>
          var rest := ParseAll(entries[1..]);
          Parsed([scan] + rest.scans, rest.completed)
  }

  /** The loop yields one empty scan per leading parsable entry; it runs to
      the end exactly when every entry is parsable, and otherwise stops at
      the first entry that is not. */
  lemma {:induction false} ParseAllSpec(entries: seq<Option<string>>)
    ensures var p := ParseAll(entries);
      && (p.completed <==> forall i :: 0 <= i < |entries| ==> Parsable(entries[i]))
      && (forall i :: 0 <= i < |p.scans| ==> p.scans[i] == [] && Parsable(entries[i]))
      && (p.completed ==> |p.scans| == |entries|)
      && (!p.completed ==> |p.scans| < |entries| && !Parsable(entries[|p.scans|]))
  {
    if |entries| > 0 {
      var tail := entries[1..];
      ParseAllSpec(tail);
      var p := ParseAll(entries);
      if Parsable(entries[0]) {
        var rest := ParseAll(tail);
        assert p.scans == [[]] + rest.scans;
        forall i | 0 <= i < |p.scans|
          ensures p.scans[i] == [] && Parsable(entries[i])
        {
          if i > 0 {
            assert p.scans[i] == rest.scans[i - 1];
            assert entries[i] == tail[i - 1];
          }
        }
        if !(forall i :: 0 <= i < |entries| ==> Parsable(entries[i])) {
          var i :| 0 <= i < |entries| && !Parsable(entries[i]);
          assert !Parsable(tail[i - 1]);
        }
        if !p.completed {
          assert entries[|p.scans|] == tail[|rest.scans|];
        }
      }
    }
  }

  /** `process()`: `stringData` is left as it is and one empty scan per
      leading parsable entry is appended to `scanData`; it completes
      exactly when every entry is parsable and otherwise stops at the first
      entry that is not. */
  function Process(d: Device): (r: Reply)
    ensures r.dev.(scanData := d.scanData) == d
    ensures |d.scanData| <= |r.dev.scanData| <= |d.scanData| + |d.stringData|
    ensures r.dev.scanData[..|d.scanData|] == d.scanData
    ensures forall k :: |d.scanData| <= k < |r.dev.scanData| ==> r.dev.scanData[k] == []
    ensures r.ok <==> forall i :: 0 <= i < |d.stringData| ==> Parsable(d.stringData[i])
    ensures r.ok ==> |r.dev.scanData| == |d.scanData| + |d.stringData|
    ensures forall i :: 0 <= i < |r.dev.scanData| - |d.scanData| ==> Parsable(d.stringData[i])
    ensures !r.ok ==> |r.dev.scanData| < |d.scanData| + |d.stringData|
    ensures !r.ok ==> !Parsable(d.stringData[|r.dev.scanData| - |d.scanData|])
  {
    ParseAllSpec(d.stringData);
    var p := ParseAll(d.stringData);
    var scans := d.scanData + p.scans;
    assert forall k :: |d.scanData| <= k < |scans| ==> scans[k] == p.scans[k - |d.scanData|];
    assert |scans| - |d.scanData| == |p.scans|;
    Reply(p.completed, d.(scanData := d.scanData + p.scans))
  }

  /** When every captured entry is a string of at least 8 characters,
      `process` appends exactly one empty scan per entry. */
  lemma ProcessAppendsEmptyScans(d: Device)
    requires forall i :: 0 <= i < |d.stringData| ==> Parsable(d.stringData[i])
    ensures Process(d) == Reply(true, d.(scanData := d.scanData + seq(|d.stringData|, _ => [])))
  {
    ParseAllSpec(d.stringData);
    var p := ParseAll(d.stringData);
    assert p.scans == seq(|d.stringData|, _ => []);
  }

  /** When entry j is the first one that is `null` or shorter than 8
      characters, `process` fails after appending j empty scans. */
  lemma ProcessStopsAtBadEntry(d: Device, j: nat)
    requires j < |d.stringData|
    requires !Parsable(d.stringData[j])
    requires forall i :: 0 <= i < j ==> Parsable(d.stringData[i])
    ensures Process(d) == Reply(false, d.(scanData := d.scanData + seq(j, _ => [])))
  {
    ParseAllSpec(d.stringData);
    var p := ParseAll(d.stringData);
    assert |p.scans| == j;
    assert p.scans == seq(j, _ => []);
  }
}
