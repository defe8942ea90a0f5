# LMS400 controller — protocol core in Dafny

This project models the `LMS400` device class of a Java client for the
SICK LMS400 laser rangefinder. The client talks to the sensor over TCP with
framed SOPAS telegrams. Each frame is four STX bytes, a four-byte big-endian
length, the ASCII command and an XOR checksum. The model covers:

- the frame encoder (`send`) and decoder (`receiveTelegram`);
- the answer classifier (`check`) and the sMN → sMA → sAN handshake (`command`), plus the start and stop commands built on it;
- telegram capture (`measure`, `measure(N)`) with cooperative cancellation through the reset flag, and the `scan(N)` sequence;
- the fixed-offset telegram parser (`process`, `processStringData`, `extractLength`, `extractValue`, `extractDistance`);
- the connection flags (`connect`, `disconnect`, `toggleConnection`), `setReset`, the clear operations, and `simulateScan`.

The model is functional. The object's fields form an immutable `Device`
record: `isConnected`, `isWorking`, `isReset`, `stringData` and `scanData`.
The socket is a `Link` made of the bytes still to be read and the bytes
written so far. Each Java method becomes a function from state to state.
Outside events are explicit arguments:

- whether the socket opens;
- whether closing it raises an error;
- the incoming byte stream;
- the reset oracle.

The reset oracle models `setReset(true)` calls from another thread. The GUI
only ever passes `true`. `arrivals[k]` says that such a call lands before the
k-th read of the flag. The flag stays set until `scan` clears it.

Java `int` arithmetic is explicit. `Wrap` reduces `+` and `*` modulo 2^32.
`Saturate` models the `(int)` cast of a `double`. `extractValue` is modelled
exactly, including its weights 256^4..256^7. At the end of a stream, `read()`
returns -1, which becomes the character U+FFFF, as in the Java code.

The code is followed as written, including these behaviours:

- The received telegram keeps its four length characters in front of the payload. `check` compares that string with the bare expected answer. `Handshake.NeverMatches` proves the comparison can never succeed for the protocol's answers. So on a connected device `startScanning` always leaves `isWorking` false and `stopScanning` always leaves it true.
- `scan` ignores the results of `startScanning`, `measure` and `stopScanning`. It reports only the reset flag, which it then clears.
- On reset, `measure(N)` empties all of `stringData`, including stray answers logged before. It leaves the reset flag set.
- `processStringData` reads the resolution and the point count with `extractValue(s, 12, 12)` and `extractValue(s, 14, 14)`. Both reads are empty ranges and yield 0. So every parsed telegram gives an empty scan. The point loop is still modelled and proved correct for any header values.
- The starting angle is read with `extractValue(s, 4, 8)`, whose weights are 256^4 to 256^7. Each character other than U+0000 saturates to `Integer.MAX_VALUE`, and the sum wraps. `Telegram.StartingAngleSaturates` proves the value depends only on how many of the four characters are not U+0000.
- `receiveTelegram` never checks the four marker bytes and discards the checksum byte without checking it.

Behaviours of the code a reader might not expect:

- A cancelled capture does not clear the reset flag; only `scan` does.
- `connect` does not reinitialise the session fields.
- The handshake compares the length-prefixed telegram, not the bare payload.
- The point count read by the parser is always zero.

## Model

| member | source | states |
|---|---|---|
| Framing.Frame | src/sick/LMS400.java:198-227 | a frame is 9 bytes longer than the command: four STX bytes, a length field whose big-endian value is the command length (mod 2^32), the command's bytes in order, then the checksum |
| Framing.LengthField | src/sick/LMS400.java:208-213 | the four length bytes read big-endian give the command length modulo 2^32 |
| Framing.Send | src/sick/LMS400.java:198-227 | the loops of `send` (STX four times, length by successive division by 16^6..16^0, characters with running XOR) write exactly the reference frame |
| Framing.ChecksumAppend | src/sick/LMS400.java:215-219 | the checksum of a concatenation is the XOR of the parts' checksums |
| Framing.ReceiveFrame | src/sick/LMS400.java:235-283 | `receiveTelegram` on a connected stream; its behaviour on any well-formed frame is stated by `Framing.ReceiveAnyFrame`; on a stream that ends early, the missing reads become U+FFFF and nothing remains |
| Framing.ReceiveAnyFrame | src/sick/LMS400.java:235-283 | for any four marker bytes, a length field whose big-endian value is the payload length, any payload and any checksum byte, the result is the length bytes and the payload as characters, and exactly the bytes after the frame remain: markers and checksum are never checked |
| Framing.DeclaredLength | src/sick/LMS400.java:253-262 | the length is computed in Java `int` arithmetic (one wrap of the exact sum, congruent to the per-step wraps); its value on well-formed frames is fixed by `Framing.ReceiveAnyFrame` and `Framing.FrameLength` |
| Framing.FrameLength | src/sick/LMS400.java:253-262 | the length a receiver computes from a frame `send` wrote is the command's length |
| Framing.RoundTrip | src/sick/LMS400.java:198-283 | receiving what `send(cmd)` wrote returns the four length characters followed by `cmd` and leaves exactly the bytes after the frame |
| Framing.ShortTelegramLeadsWithZero | src/sick/LMS400.java:253-272 | every received string of 5 to 2^23 characters starts with U+0000, whatever the input |
| Telegram.ExtractLength | src/sick/LMS400.java:409-416 | a Java `int` for every input; specified by `Telegram.ExtractLengthBigEndian` and `Telegram.ExtractLengthOfFrame` |
| Telegram.ExtractLengthBigEndian | src/sick/LMS400.java:409-416 | on byte characters with a first byte below 128, `extractLength` is the big-endian value of the four characters |
| Telegram.ExtractLengthOfFrame | src/sick/LMS400.java:409-416 | `extractLength` at 0 of the string received for `send(cmd)` equals the length of `cmd` |
| Telegram.ExtractValue | src/sick/LMS400.java:426-434 | a Java `int` for every input; specified by `Telegram.ExtractValueWrapsOnce`, `Telegram.StartingAngleSaturates` and `Telegram.EmptyRangeIsZero` |
| Telegram.ExtractValueWrapsOnce | src/sick/LMS400.java:426-434 | the loop, which wraps after every addition, equals the exact sum of the saturated weighted characters reduced to 32 bits once |
| Telegram.StartingAngleSaturates | src/sick/LMS400.java:426-434 | `extractValue(s, 4, 8)`, the starting-angle read at line 376, is `Integer.MAX_VALUE` times the number of characters at 4..7 other than U+0000, reduced to 32 bits |
| Telegram.EmptyRangeIsZero | src/sick/LMS400.java:426-434 | `extractValue(s, i, i)` reads nothing and returns 0 |
| Telegram.ExtractDistance | src/sick/LMS400.java:443-453 | the result is 0 or within [700, 3000]; it equals the little-endian raw value exactly when that value is in range, and is 0 otherwise |
| Telegram.PointsFrom | src/sick/LMS400.java:388-396 | the point loop; specified by `Telegram.PointsFromSpec` and `Telegram.PointLoopExample` |
| Telegram.PointsFromSpec | src/sick/LMS400.java:388-396 | the point loop yields one point per index, with the distance read at offset 24 + 2k and angle start + resolution·k; it fails exactly when the string is too short for the last point |
| Telegram.PointAngleWraps | src/sick/LMS400.java:392 | the angle expression equals the exact value reduced to 32 bits once |
| Telegram.PointLoopExample | src/sick/LMS400.java:388-396 | start angle 550000, resolution 2500, raw distances 1500, 4000, 600 give angles 550000, 552500, 555000 and distances 1500, 0, 0 |
| Telegram.ProcessStringData | src/sick/LMS400.java:367-400 | parsing succeeds exactly on strings of at least 8 characters and then always yields an empty scan |
| Lms400.SetReset | src/sick/LMS400.java:35-37 | sets the reset flag to the argument and changes no other field |
| Lms400.ClearStringData | src/sick/LMS400.java:55-57 | empties the captured telegrams and changes no other field |
| Lms400.ClearScanData | src/sick/LMS400.java:59-61 | empties the parsed scans and changes no other field |
| Lms400.Connect | src/sick/LMS400.java:71-90 | when already connected: false and no change; otherwise the result and the new connection flag are the socket outcome; no other field changes |
| Lms400.Disconnect | src/sick/LMS400.java:92-121 | when already disconnected: false and no change; otherwise always disconnected afterwards, with the close outcome as result; no other field changes |
| Lms400.ToggleConnection | src/sick/LMS400.java:63-69 | a connected device ends disconnected with the close outcome; a disconnected one ends connected exactly when the socket opens |
| Lms400.ConnectTwice | src/sick/LMS400.java:71-74 | a second `connect` after a successful one returns false and leaves the state as the first left it |
| Lms400.Transmit | src/sick/LMS400.java:198-227 | `send` appends one frame to the bytes sent and reads nothing; the frame is `Framing.Frame`, written by `Framing.Send` |
| Lms400.ReceiveTelegram | src/sick/LMS400.java:235-238 | disconnected: null and nothing consumed; connected: a string, a shorter stream, nothing sent |
| Handshake.Contains | src/sick/LMS400.java:295 | the front-to-back scan is true exactly when the pattern occurs at some position |
| Handshake.Check | src/sick/LMS400.java:292-301 | returns 1 iff the answer equals the expected one, -1 iff it differs and contains "sFA FF", 0 otherwise; exactly in the 0 case the answer is appended at the end of `stringData`, and nothing else changes |
| Handshake.Command | src/sick/LMS400.java:174-190 | disconnected: false, nothing sent or read; connected: the command frame is sent; a first answer other than `a1` gives false after one frame; otherwise the result is whether the second answer is `a2`; the answer that decided the result is logged exactly when it is neither the expected one nor a fault answer, and no other field changes |
| Handshake.NeverMatches | src/sick/LMS400.java:181-183 | no received string equals an expected answer of 5 to 2^23 characters that starts with a character other than U+0000 |
| Handshake.CommandAlwaysFails | src/sick/LMS400.java:174-190 | on a connected device, `command` with such an acknowledge always returns false |
| Handshake.StartScanning | src/sick/LMS400.java:155-157 | `isWorking` ends false; connected, the start frame is sent, exactly one answer frame is read and that answer is logged unless it is a fault answer; nothing else changes |
| Handshake.StopScanning | src/sick/LMS400.java:159-162 | `isWorking` ends true (negation of the always-failing handshake); connected, the stop frame is sent, exactly one answer frame is read and that answer is logged unless it is a fault answer; nothing else changes |
| Handshake.CheckExamples | src/sick/LMS400.java:292-301 | an equal answer is classified 1, an answer containing "sFA FF" -1, and "sAN other 00" against the start answer 0, with the answer logged |
| Capture.MeasureOnce | src/sick/LMS400.java:308-323 | succeeds and appends the next received telegram (null when disconnected) to `stringData`, consuming exactly it |
| Capture.MeasureMany | src/sick/LMS400.java:331-351 | capture never changes the connection, the working flag, the scans or the bytes sent |
| Capture.MeasureLoop | src/sick/LMS400.java:333-346 | the loop of `measure(N)`; specified by `Capture.MeasureLoopFrame`, `Capture.MeasureComplete`, `Capture.MeasureCancelled` and `Capture.MeasureResetFlag` |
| Capture.MeasureComplete | src/sick/LMS400.java:331-351 | with no reset seen, `measure(N)` succeeds, appends the N received telegrams in order and consumes exactly them |
| Capture.MeasureCancelled | src/sick/LMS400.java:331-351 | with the reset first seen after the (j+1)-th append, exactly j+1 telegrams are consumed, `stringData` is empty, the flag stays set and the result is false |
| Capture.MeasureResetFlag | src/sick/LMS400.java:331-351 | afterwards the flag is set iff it was set on entry or a reset arrived at one of the checkpoints; the result is true iff no checkpoint stopped the loop |
| Capture.Scan | src/sick/LMS400.java:131-153 | disconnected: false and no change; connected: the start and stop frames are both sent, the flag ends cleared, `isWorking` ends true, and the scans are untouched |
| Capture.ScanResult | src/sick/LMS400.java:131-153 | `scan(N)` returns true exactly when connected and no reset was pending or arrived during the call |
| Capture.ScanCancelled | src/sick/LMS400.java:131-153 | a cancelled capture makes `scan` return false |
| Capture.ScanCaptures | src/sick/LMS400.java:131-153 | with no reset during the capture, `stringData` gains the start answer (unless a fault), the N captured telegrams in order, then the stop answer (unless a fault); the stream is consumed up to the end of the stop answer |
| Capture.ScanCancelledLog | src/sick/LMS400.java:131-153 | with the capture cancelled at checkpoint j, `scan` fails and `stringData` holds only the stop answer (unless a fault), read after the start answer and j + 1 telegrams |
| Capture.FreshDeviceIsIdle | src/sick/LMS400.java:131-135 | a freshly constructed device (fields initialised at lines 16-21) is disconnected: `scan`, `command` and `disconnect` return false and touch neither the state nor the socket |
| Processing.ParseAll | src/sick/LMS400.java:357-359 | the for-each loop of `process` yields at most one scan per entry; specified by `Processing.ParseAllSpec` |
| Processing.ParseAllSpec | src/sick/LMS400.java:356-360 | the loop yields one empty scan per leading parsable entry; it completes iff every entry is a string of at least 8 characters, and otherwise stops at the first that is not |
| Processing.Process | src/sick/LMS400.java:356-360 | `stringData` and every field but `scanData` are unchanged; the old scans stay a prefix and every added scan is empty; it completes iff every entry is a string of at least 8 characters, then adding exactly one scan per entry; otherwise every entry that got a scan is parsable and the next entry is null or short, so the loop stops at the first such entry |
| Processing.ProcessAppendsEmptyScans | src/sick/LMS400.java:356-400 | when every entry is a string of at least 8 characters, `process` succeeds and appends exactly one empty scan per entry |
| Processing.ProcessStopsAtBadEntry | src/sick/LMS400.java:356-400 | when entry j is the first null or short one, `process` fails after appending exactly j empty scans |
| Simulation.SimulatedScanShape | src/sick/LMS400.java:508-524 | a synthetic scan has 280 points at distance 1500 (in range); point j has angle 550000 + 2500·j, strictly increasing and below 1250000 |
| Simulation.SimulateScan | src/sick/LMS400.java:508-530 | `simulateScan` always returns true |
| Simulation.SimulateLoop | src/sick/LMS400.java:514-527 | the loop of `simulateScan` always ends with success; its effect is specified by `Simulation.SimulateLoopSpec` |
| Simulation.SimulateLoopSpec | src/sick/LMS400.java:514-527 | the loop appends one synthetic scan per checkpoint passed before the flag is seen set; nothing else but the flag changes |
| Simulation.SimulateAll | src/sick/LMS400.java:508-530 | with no reset, exactly N synthetic scans are appended and nothing else changes |
| Simulation.SimulateInterrupted | src/sick/LMS400.java:508-530 | with the reset first seen at checkpoint j, exactly j synthetic scans are appended and the flag stays set |

## Left out

- Sockets and streams are not modelled. This covers `Socket`, `PrintWriter`, `BufferedReader` and their closing. The link is one open byte stream in and one out. The try-with-resources blocks in `connect` (lines 76-78) and `send` (line 202) close the socket or its output stream when they exit. The model keeps the link open, as the rest of the class assumes.
- Charset decoding by `InputStreamReader` is not modelled: each byte read becomes the character with the same code (ISO-8859-1). A platform charset may decode bytes at or above 0x80 differently.
- `IOException` handlers that only print a stack trace are not modelled. Neither are the `catch (Exception e)` branches of `measure`: no exception can arise on the modelled paths.
- Java `char` is a UTF-16 code unit, while Dafny `char` is a Unicode scalar value. The model treats characters by their code. The checksum is the XOR of the characters' low bytes, which equals the low byte of Java's 16-bit XOR.
- Java strings have at most 2^31 - 1 characters. `Framing.Frame` accepts any length and writes it modulo 2^32.
- `Point.java` computes x and y with `Math.cos`/`Math.sin` in floating point, which is not modelled. A point is the integer pair (distance, raw angle).
- `printData`, `saveData` and `saveScanDataToFile` (lines 456-506) are console and file output. The GUI and console front ends are not part of this model.
- The `Thread` superclass is never used as a thread. Real concurrency around `setReset` is replaced by the arrival oracle described above.
- Framing.ReceiveFrame: a declared length near 2^31 would exhaust memory in the Java loop; the model builds the whole string.
- Lms400.ReceiveTelegram: states the shape of one reception. Its contents are given by `Framing.ReceiveFrame`.
- Capture.MeasureMany: its own contract states only what capture leaves unchanged. The captured contents and the reset behaviour are in `Capture.MeasureComplete`, `Capture.MeasureCancelled` and `Capture.MeasureResetFlag`.
- Simulation.SimulateScan: its own contract states only the constant `true` result. Its effect on the scans is in `Simulation.SimulateAll` and `Simulation.SimulateInterrupted`.
- The trivial getters (`isConnected()`, `isWorking()`, `isReset()`, `getScanData`) and the constructors' host and port fields are plain field reads and writes of the record.
