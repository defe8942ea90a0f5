/** The session state of an `LMS400` device object and its simple
    operations: the connection flag state machine, the flag setter, the
    clear operations, and the two primitives every exchange uses
    (writing a frame and receiving one). */
module Lms400 {
  import opened Wrappers
  import opened Framing
  import opened Telegram

  /** The fields of the Java object that the protocol logic reads and
      writes. `stringData` entries are `None` where the Java list holds
      `null` (a telegram "received" while disconnected). */
  datatype Device = Device(
    isConnected: bool,
    isWorking: bool,
    isReset: bool,
    stringData: seq<Option<string>>,
    scanData: seq<Scan>)

  /** A freshly constructed device. */
  const Initial: Device := Device(false, false, false, [], [])

  /** The socket as seen by the device: the bytes still to be read and the
      bytes written so far. */
  datatype Link = Link(incoming: seq<byte>, sent: seq<byte>)

  /** A boolean result together with the state after the call. */
  datatype Reply = Reply(ok: bool, dev: Device)

  /** A boolean result, the state and the socket after the call. */
  datatype Outcome = Outcome(ok: bool, dev: Device, link: Link)

  /** State and socket after a call that returns nothing. */
  datatype Session = Session(dev: Device, link: Link)

  /** `setReset(flag)`. */
  function SetReset(d: Device, flag: bool): (r: Device)
    ensures r.isReset == flag
    ensures r.(isReset := d.isReset) == d
  {
    d.(isReset := flag)
  }

  /** `clearStringData()`. */
  function ClearStringData(d: Device): (r: Device)
    ensures r.stringData == []
    ensures r.(stringData := d.stringData) == d
  {
    d.(stringData := [])
  }

  /** `clearScanData()`. */
  function ClearScanData(d: Device): (r: Device)
    ensures r.scanData == []
    ensures r.(scanData := d.scanData) == d
  {
    d.(scanData := [])
  }

  /** `connect()`; `opens` says whether the socket could be opened. */
  function Connect(d: Device, opens: bool): (r: Reply)
    ensures d.isConnected ==> r == Reply(false, d)
    ensures !d.isConnected ==> r.ok == opens && r.dev.isConnected == opens
    ensures r.dev.(isConnected := d.isConnected) == d
  {
    if d.isConnected then Reply(false, d)
    else if opens then Reply(true, d.(isConnected := true))
    else Reply(false, d)
  }

  /** `disconnect()`; `closes` says whether closing the streams and socket
      raised no error. The flag is cleared whatever the outcome. */
  function Disconnect(d: Device, closes: bool): (r: Reply)
    ensures !d.isConnected ==> r == Reply(false, d)
    ensures d.isConnected ==> !r.dev.isConnected && r.ok == closes
    ensures r.dev.(isConnected := d.isConnected) == d
  {
    if !d.isConnected then Reply(false, d)
    else Reply(closes, d.(isConnected := false))
  }

  /** `toggleConnection()`: disconnect when connected, connect otherwise. */
  function ToggleConnection(d: Device, opens: bool, closes: bool): (r: Reply)
    ensures d.isConnected ==> !r.dev.isConnected && r.ok == closes
    ensures !d.isConnected ==> r.dev.isConnected == opens && r.ok == opens
    ensures r.dev.(isConnected := d.isConnected) == d
  {
    if d.isConnected then Disconnect(d, closes) else Connect(d, opens)
  }

  /** A second `connect()` right after a successful one fails and changes
      nothing. */
  lemma ConnectTwice(d: Device)
    requires !d.isConnected
    ensures var first := Connect(d, true);
      first.ok && Connect(first.dev, true) == Reply(false, first.dev)
  {
  }

  /** `send(cmd)`: the frame is appended to what the socket has sent. */
  function Transmit(link: Link, cmd: string): (r: Link)
    ensures r.incoming == link.incoming
    ensures |r.sent| == |link.sent| + Overhead + |cmd|
    ensures r.sent[..|link.sent|] == link.sent
    ensures r.sent[|link.sent|..] == Frame(cmd)
  {
    link.(sent := link.sent + Frame(cmd))
  }

  /** What one `receiveTelegram()` returns and the socket after it. */
  datatype Reception = Reception(telegram: Option<string>, link: Link)

  /** `receiveTelegram()` with `isConnected` equal to `connected`: `null`
      without reading when disconnected, otherwise one frame off the
      incoming bytes. */
  function ReceiveTelegram(connected: bool, link: Link): (r: Reception)
    ensures !connected ==> r == Reception(None, link)
    ensures connected ==> r.telegram.Some? && r.link.sent == link.sent
    ensures connected ==> |r.link.incoming| < |link.incoming| || r.link.incoming == []
  {
    if !connected then Reception(None, link)
    else
      var f := ReceiveFrame(link.incoming);
      Reception(Some(f.telegram), link.(incoming := f.rest))
  }

  /** Telegrams received by `k` successive `receiveTelegram()` calls. */
  datatype Batch = Batch(telegrams: seq<Option<string>>, link: Link)

  /** `k` successive receptions, in order. */
  function ReceiveMany(connected: bool, link: Link, k: nat): (b: Batch)
    ensures |b.telegrams| == k
    ensures b.link.sent == link.sent
    ensures !connected ==> b.link == link
    decreases k
  {
    if k == 0 then Batch([], link)
    else
      var rx := ReceiveTelegram(connected, link);
      var rest := ReceiveMany(connected, rx.link, k - 1);
      Batch([rx.telegram] + rest.telegrams, rest.link)
  }

  /** The reset oracle. `setReset` is called from another thread while a
      scan runs; `arrivals[k]` says that such a call (GUI.java only ever
      passes `true`) lands before the k-th read of the flag. Missing
      entries mean no call. */
  predicate Arrived(arrivals: seq<bool>, k: int) {
    0 <= k < |arrivals| && arrivals[k]
  }

  /** No reset is pending at entry and none arrives before checkpoint `n`. */
  ghost predicate NoneSeen(wasReset: bool, arrivals: seq<bool>, n: int) {
    !wasReset && forall i :: 0 <= i < n ==> !Arrived(arrivals, i)
  }

  /** The flag is first seen set at checkpoint `j`. */
  ghost predicate FirstSeen(wasReset: bool, arrivals: seq<bool>, j: nat) {
    (wasReset || Arrived(arrivals, j)) && (j > 0 ==> NoneSeen(wasReset, arrivals, j))
  }
}
