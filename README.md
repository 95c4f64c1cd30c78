# asockit line transport, modelled in Dafny

asockit is a small asyncio library for exchanging text lines over a byte
stream. This project models its two pieces of logic and proves properties of
them:

- **The asyncio adapters** (`connection.py`).
  - `AsyncioWritableConnection.writeline` splits its text with `str.splitlines()`
    and strips every piece with `str.strip()`. For each piece that is not empty, it
    sends the piece followed by `"\n"` as one `write`, then one `drain`.
  - `AsyncioReadableConnection.readline` fails with `ConnectionClosedError` when its
    `StreamReader` is at end of stream. Otherwise it reads one line and returns it stripped.
- **The `SocketReader`** (`reader.py`): the lifecycle of its reading task
  (`start`, `stop`, `set_delegate`, `_is_task_running`), and the loop
  `_start_reading` that passes each line read to the delegate's `on_message`.

Files:

- `Text.dfy`: Python's `str.splitlines()` and `str.strip()`, with their
  character classes written out (`IsLineBreak`, `IsWhitespace`).
  - `Segments` is `splitlines(keepends=True)`, giving each line as body and ending.
  - `SplitLines` gives the bodies.
  - `Strip` is the composition of `TrimStart` and `TrimEnd`. It is checked against
    an independent definition of trimming (`IsTrimOf`).
- `Connection.dfy`: the adapters.
  - `Frame(text)` is the pure statement of what `writeline` sends: one chunk per write.
  - `Transmission(chunks)` is the call trace on the writer, where each write is followed by its drain.
  - `AsyncioWritableConnection.WriteLine` computes the stripped pieces. Its loop `SendLines` is proved to produce
    exactly `Transmission(Frame(text))`.
  - The `StreamWriter` is modelled by the calls made on it.
  - The `StreamReader` is modelled by its buffered lines and its end-of-stream flag. `at_eof()` is "end fed
    and buffer empty", as in asyncio.
- `Reader.dfy`: the reader.
  - The asyncio task is reduced to its `cancelling()` count and its outcome: pending, returned, failed or cancelled.
  - The loop runs over a finite script of events: a line read, a
    concurrent `set_delegate`, the last outside reference to a delegate being
    dropped, the connection closing, and a cancellation at the suspension point.
  - `Dispatch` is the pure statement of the loop. `SocketReader.StartReading` is the loop itself, proved against it.
  - The weak reference of `set_delegate` is an optional delegate identity. It is resolved against the set of
    delegate objects that are still alive.

A few things the code does may not be what a caller expects. The model
follows the code in each case:

- **No restart after the connection closed.** `start` raises
  `ConnectionClosedError` when the connection closes (docstring,
  `reader.py:60-62`). The task then ends failed, which is neither cancelled
  nor cancelling. `_is_task_running` (`reader.py:113-116`) therefore still
  reports it as running, and every later `start` raises
  `ReaderAlreadyStartedError`. `stop` does not help: `Task.cancel()` on a
  finished task does nothing, and awaiting the task raises
  `ConnectionClosedError` again. Nothing resets `_is_reading` on the failure
  path. `Reader.ClosedConnectionKeepsReader` proves this sequence.
- **`stop` when not reading.** The docstring says `stop` "does nothing if not
  currently reading" (`reader.py:74-75`). The code tests only for a task
  (`reader.py:77`). After a close and one `stop`, `is_reading` is false, yet a
  second `stop` awaits the failed task again and raises `ConnectionClosedError`
  (`Reader.ClosedConnectionKeepsReader`).
- **The weak reference.** `set_delegate` stores "a weak reference"
  (`reader.py:83`). Once the loop has resolved it, though, the loop keeps the
  delegate in a local variable (`reader.py:93-101`). From then on the object
  stays alive, and a later `set_delegate` does not redirect the running loop
  (`Reader.HeldDelegateGetsEveryLine`).
- **Stripping on read.** `readline` calls `strip()`, so it removes leading
  whitespace as well as the line terminator and trailing whitespace
  (`connection.py:34`).

## Model

| member | source | states |
|---|---|---|
| Text.Strip | src/asockit/connection.py:34 | `str.strip()`: the result is no longer than the input, has no whitespace at either end, and is empty exactly when the input is all whitespace |
| Text.TrimStartSpec | src/asockit/connection.py:34 | the left half of `strip()` removes a whitespace prefix, and all of it: the result is a suffix of the input, what was removed is whitespace, and the result does not start with whitespace |
| Text.TrimEndSpec | src/asockit/connection.py:34 | the right half of `strip()` removes a whitespace suffix, and all of it |
| Text.StripIsTrim | src/asockit/connection.py:34 | `Strip(s)` occurs in `s` with only whitespace before and after it, and it has no whitespace at its edges |
| Text.TrimBoundsAgree | src/asockit/connection.py:34 | of two non-empty trims of one string, each starts no later and ends no earlier than the other, so they occupy the same place |
| Text.TrimIsUnique | src/asockit/connection.py:34 | there is only one such trimmed string, so the independent definition pins `strip()` down |
| Text.StripIdempotent | src/asockit/connection.py:34 | stripping twice is stripping once |
| Text.StripKeepsNoLineBreak | src/asockit/connection.py:60 | stripping a piece without line breaks leaves it without line breaks |
| Text.StripRemovesEnding | src/asockit/connection.py:34 | a body with clean edges followed by whitespace (such as its line ending) strips back to exactly the body |
| Text.BreakIndex | src/asockit/connection.py:60 | the index of the first line break: everything before it has no line break, and the character there is a break |
| Text.EndingLength | src/asockit/connection.py:60 | the boundary at a break is one character, or two for `"\r\n"`, and is always a line ending `splitlines` recognises |
| Text.Segments | src/asockit/connection.py:60 | `splitlines(keepends=True)`: at most one line per character; bodies have no line break; every ending is a recognised line ending, except that the last line may have none when its body is non-empty (no trailing empty piece) |
| Text.SegmentsJoin | src/asockit/connection.py:60 | splitting loses nothing: the bodies and endings joined back give the input |
| Text.SplitLines | src/asockit/connection.py:60 | `splitlines()`: one body per keepends line, no more pieces than characters, and no piece contains a line break |
| Text.Bodies | src/asockit/connection.py:60 | the bodies of the keepends lines, in order |
| Text.SegmentsAtBreak | src/asockit/connection.py:60 | a single-character line break (not a `"\r"` that starts `"\r\n"`) closes the first line |
| Text.SegmentsAtCrLf | src/asockit/connection.py:60 | `"\r\n"` is one boundary, not two |
| Text.SplitLinesAtBreak | src/asockit/connection.py:60 | `splitlines` of `body + [c] + rest` is `[body]` followed by `splitlines(rest)` |
| Text.SplitLinesAtCrLf | src/asockit/connection.py:60 | the same at a `"\r\n"` boundary |
| Text.SplitLinesOfUnbroken | src/asockit/connection.py:60 | a text without line breaks is one piece, or no piece when empty |
| Text.LineEndingIsBlank | src/asockit/connection.py:34 | every ending `splitlines` recognises, and the missing ending of a last line, is whitespace, so `strip()` removes it |
| Text.BlankIffBlankLines | src/asockit/connection.py:60 | a text is all whitespace exactly when every piece `splitlines` gives is all whitespace |
| Connection.StripAll | src/asockit/connection.py:60 | the comprehension `[line_.strip() for line_ in ...]`: one stripped line per piece, and a stripped line is empty exactly when its piece is blank |
| Connection.Chunks | src/asockit/connection.py:61-63 | what the loop writes for the stripped lines: never more chunks than lines (its membership and order lemmas follow) |
| Connection.Frame | src/asockit/connection.py:60-63 | the pure statement of what `writeline` writes; the number of writes never exceeds the number of pieces `splitlines` gives |
| Connection.Transmission | src/asockit/connection.py:63-64 | the calls for a list of chunks: exactly two per chunk, a write and a drain |
| Connection.TransmissionShape | src/asockit/connection.py:61-64 | the writer trace strictly alternates: chunk k is written at position 2k and drained at 2k+1, so every write is drained before the next one |
| Connection.EmittedIsTransmission | src/asockit/connection.py:61-64 | emitting the stripped lines one by one (write and drain for a non-empty line, nothing for an empty one) produces the transmission of their chunks |
| Connection.AsyncioWritableConnection.SendLines | src/asockit/connection.py:61-64 | the for-loop appends to the writer's calls exactly the transmission of the chunks of its stripped lines |
| Connection.AsyncioWritableConnection.WriteLine | src/asockit/connection.py:50-64 | `writeline` appends to the writer's calls exactly `Transmission(Frame(line))` and changes nothing else |
| Connection.ChunksMembership | src/asockit/connection.py:61-63 | a chunk is sent exactly when it is a non-empty stripped line followed by `"\n"` |
| Connection.ChunksAppend | src/asockit/connection.py:61-63 | chunking is compositional, so input order is kept |
| Connection.ChunksEmptyIffAllEmpty | src/asockit/connection.py:61-63 | nothing is sent exactly when every stripped line is empty |
| Connection.ChunksAreWireLines | src/asockit/connection.py:61-63 | clean lines give well-formed wire lines |
| Connection.FrameChunksAreWireLines | src/asockit/connection.py:60-63 | every chunk `writeline` sends is `c + "\n"` with `c` non-empty, free of line breaks, and without whitespace at either end |
| Connection.FrameMembership | src/asockit/connection.py:60-63 | `writeline` sends exactly the non-empty stripped pieces of `splitlines`, each with `"\n"` appended |
| Connection.StrippedChunkMembership | src/asockit/connection.py:60-63 | the same statement for any list of pieces |
| Connection.FrameEmptyIffBlank | src/asockit/connection.py:60-62 | empty or whitespace-only text sends nothing, and every other text sends something |
| Connection.NoChunksIffBlankPieces | src/asockit/connection.py:60-62 | no chunk comes from a list of pieces exactly when every piece is blank |
| Connection.FrameOfLine | src/asockit/connection.py:60-64 | a text without line breaks is sent as its stripped self, or not at all when that is empty |
| Connection.FrameOfBlankLine | src/asockit/connection.py:62 | a blank line (the empty text among them) sends nothing |
| Connection.FrameOfCleanLine | tests/test_connection.py:38-48 | a clean non-empty line (such as `"foo"`) is sent as exactly one chunk, itself followed by `"\n"` |
| Connection.FrameAtBreak | src/asockit/connection.py:60-64 | `writeline(body + [c] + rest)` sends what `writeline(body)` sends, then what `writeline(rest)` sends |
| Connection.FrameAtCrLf | src/asockit/connection.py:60-64 | the same at a `"\r\n"` boundary |
| Connection.FrameFirstLine | src/asockit/connection.py:60-64 | the same at a `"\n"` boundary |
| Connection.FrameCons | src/asockit/connection.py:60-64 | the chunks of a first unbroken piece and the rest are the first piece's frame followed by the chunks of the rest |
| Connection.FrameOfTerminated | tests/test_connection.py:64-71 | a text of whole lines, each followed by `"\n"`, sends the chunks of those lines stripped, in order |
| Connection.FrameOfThreeLines | tests/test_connection.py:55-62 | three clean lines separated by `"\n"` (such as `"foo\nbar\nbaz"`) are sent as three chunks, in order |
| Connection.FrameOfTwoLines | tests/test_connection.py:55-62 | two clean lines separated by `"\n"` are sent as two chunks, in order |
| Connection.FramePrependClean | src/asockit/connection.py:60-64 | a clean first line is sent as the first chunk, followed by whatever the rest of the text sends |
| Connection.FrameSkipsBlankLines | tests/test_connection.py:50-53 | blank lines before and after a clean line (such as `"\n\nfoo\n\n\n"`) are dropped, and the line is the only chunk |
| Connection.ChunksSkipBlankPieces | tests/test_connection.py:50-53 | the same statement on the pieces |
| Connection.StripAllAppend | src/asockit/connection.py:60 | stripping the pieces distributes over concatenation |
| Connection.StreamReader.AtEof | src/asockit/connection.py:30 | `StreamReader.at_eof()`: only true when nothing is left to read |
| Connection.StreamReader.ReadLine | src/asockit/connection.py:33 | `StreamReader.readline()` hands out the next buffered line; with nothing buffered the wait ends at end of stream with an empty result |
| Connection.AsyncioReadableConnection.ReadLine | src/asockit/connection.py:21-34 | at end of stream: `ConnectionClosedError`, and the stream is untouched. Otherwise exactly one line is consumed and returned stripped; an empty read ends at end of stream |
| Connection.ReceivedLineIsStripped | tests/test_connection.py:87-92 | a received clean line with its ending (such as `b"foo\n"`) is returned as the line alone |
| Connection.WriteOneLine | tests/test_connection.py:38-48 | on a fresh writer, `writeline` of one clean line makes exactly `write(line + "\n")` then `drain()` |
| Connection.ReadOneLineThenClosed | tests/test_connection.py:87-100 | a stream holding one line then its end: the first `readline` returns the line stripped, and the second raises `ConnectionClosedError` |
| Reader.CancelAndSettle | src/asockit/reader.py:79-80 | `Task.cancel()` and awaiting the task: a pending task counts the request and returns normally, because the loop suppresses the cancellation, and it is then no longer running (`reader.py:107-108`); a finished task is unchanged, so a failed task with no cancellation request still counts as running |
| Reader.StartCompletionFollowsLoop | src/asockit/reader.py:62-67 | awaiting the loop's task never raises `CancelledError`, because the loop suppresses it (`reader.py:92`): `start` returns exactly when the loop was cancelled, raises `ConnectionClosedError` exactly when the connection closed (`reader.py:97`), and goes on waiting exactly while the loop is suspended in `readline` |
| Reader.ResolveNeverInvents | src/asockit/reader.py:93-99 | dereferencing the weak reference never yields a delegate that is not the stored one or is no longer alive |
| Reader.Dispatch | src/asockit/reader.py:92-101 | the loop from a given point on, over a script of events: never more notifications than lines read (its properties are the lemmas below) |
| Reader.Run | src/asockit/reader.py:92-101 | the whole loop, with the delegate resolved before the first read: never more notifications than lines read |
| Reader.LinesRead | src/asockit/reader.py:96-97 | the lines `readline` returns before the loop stops; no more than there are events |
| Reader.Messages | src/asockit/reader.py:101 | the messages of the notifications, one per notification, in order |
| Reader.HeldDelegateGetsEveryLine | src/asockit/reader.py:96-101 | once the loop holds a delegate, every line read goes to it, once each and in the order read, whatever `set_delegate` or dropped references do meanwhile |
| Reader.NotificationsAreSuffixOfLines | src/asockit/reader.py:93-101 | what the loop passes on is the lines read from some point on: lines read while no delegate could be resolved are dropped, and none after |
| Reader.NotificationsHaveOneTarget | src/asockit/reader.py:93-101 | the loop notifies at most one delegate over its whole run |
| Reader.LateDelegateGetsNextLine | src/asockit/reader.py:98-99 | a delegate set while the loop holds none receives the very next line |
| Reader.AbsentDelegateDropsLines | src/asockit/reader.py:98-100 | without a live delegate and without `set_delegate`, every line is dropped without error |
| Reader.TerminalEndsLoop | src/asockit/reader.py:92-97 | a closed connection or a cancellation ends the loop: it fails or ends normally as the event says, and nothing after it is seen |
| Reader.Settled | src/asockit/reader.py:66-67 | the task once the loop stops: still pending only while the loop waits for its next line |
| Reader.SocketReader.IsTaskRunning | src/asockit/reader.py:104-116 | `_is_task_running`: false without a task; with one, true exactly when it is neither cancelled nor has a cancellation request pending (`Reader.IsLive`) |
| Reader.SocketReader.constructor | src/asockit/reader.py:47-50 | a new reader is not reading and has no task and no delegate |
| Reader.SocketReader.SetDelegate | src/asockit/reader.py:82-88 | replaces only the stored reference |
| Reader.SocketReader.Start | src/asockit/reader.py:64-69 | with a running task (by `_is_task_running`, `reader.py:113-116`): `ReaderAlreadyStartedError`, nothing changed. Otherwise: reading, a fresh task that ends as the loop does, the completion of awaiting it, and the loop's notifications and `set_delegate` effects |
| Reader.SocketReader.Stop | src/asockit/reader.py:77-80 | with no task: nothing changes. Otherwise: not reading, the task cancelled and awaited, kept in its field, and the await's result |
| Reader.ReadStep | src/asockit/reader.py:97-101 | one read of the loop: the delegate is resolved again only when none is held, and the held delegate is notified of the line |
| Reader.RegisterStep | src/asockit/reader.py:88 | a `set_delegate` while the loop waits replaces the stored reference and nothing else |
| Reader.DropStep | src/asockit/reader.py:94 | losing the last outside reference to a delegate changes only which delegates can still be resolved |
| Reader.SocketReader.StartReading | src/asockit/reader.py:90-102 | the `while True` loop makes exactly the notifications of `Run` over the stored reference, ends as `Run` ends, and leaves the stored reference as `Run` does |
| Reader.Reads | tests/test_reader.py:36-44 | a script of one read per given line |
| Reader.LinesReadOfReads | tests/test_reader.py:36-44 | such a script's lines read are exactly the given lines, and it has no terminal event |
| Reader.ReadsSuspend | src/asockit/reader.py:96-97 | a script of reads alone leaves the loop waiting, with the stored reference unchanged |
| Reader.DelegateGetsLinesUntilCancelled | tests/test_reader.py:36-44 | with a delegate set, `on_message` receives every line read, in order, until a cancellation. `start` then returns normally, `is_reading` stays true, and the task is no longer running |
| Reader.ReadsThenCancel | tests/test_reader.py:36-44 | reads followed by a cancellation, with a live delegate set: the loop ends normally, and the delegate receives every line, in order |
| Reader.ReadsThenClosed | src/asockit/reader.py:96-101 | reads followed by a close, with a live delegate set: the loop fails, and the delegate receives every line, in order |
| Reader.ClosedConnectionKeepsReader | src/asockit/reader.py:64-80 | with a delegate: the lines before the close are delivered, and `start` raises `ConnectionClosedError` with `is_reading` still true. A new `start` is refused. `stop` raises `ConnectionClosedError` again and clears `is_reading`; a second `stop`, although the reader is not reading, raises `ConnectionClosedError` once more, and `start` stays refused |
| Reader.StopAllowsRestart | tests/test_reader.py:46-75 | while the loop waits, `is_reading` is true and a second `start` is refused. `stop` ends the task normally and makes `is_reading` false, and a new `start` is accepted |

`is_reading` (`reader.py:37-39`) is the field `isReading`, read directly.
`ReaderAlreadyStartedError` (`reader.py:12-16`) is the `ReaderAlreadyStarted`
case of `Reader.Error`.
`Reader.Await` is what awaiting a task gives for each of its outcomes
(`reader.py:67`, `reader.py:80`), and `Reader.Resolve` is calling the stored
weak reference (`reader.py:94`, `reader.py:99`); both are helpers of the rows above.

## Left out

- asyncio scheduling. Real interleavings of concurrent `start` and `stop` calls are not modelled, and neither is `asyncio.sleep(0)` fairness. `Start` runs the loop over its whole script in one call. Concurrency reaches the loop only as script events.
- A `start` still awaiting its task (`StillAwaiting`). When a later `stop` settles that task, the suspended `start` would also return; this is not modelled.
- A cancellation delivered before the task's first step. That would end the task cancelled before it enters the suppressing `with` block. No script produces the `Cancelled` outcome, although `Task`, `_is_task_running` and `Await` all handle it.
- The caller's own cancellation, as `asyncio.wait_for` in the tests causes. It is modelled only as the `Cancel` event on the reading task.
- A delegate object whose truth value is false. `if not delegate` (`reader.py:98-100`) is modelled as "no delegate resolved"; an object's own `__bool__` is not.
- Exceptions raised by `on_message`, and errors of `readline` other than `ConnectionClosedError`. The delegate and the connection are opaque.
- Bytes and UTF-8. `encode()` and `decode()` are library codecs, so text is a string throughout.
- `StreamWriter` and `StreamReader` internals: buffering, the `drain` flow control, the reader's limit, and partial-read errors. Only the calls made and the lines handed out are modelled. Data arriving while `readline` waits is treated as already buffered.
- `Connection.AsyncioReadableConnection.ReadLine`: for an empty buffer without end of stream, it is stated for the case where the wait ends at end of stream, because other arrivals are outside the buffered-lines model of the stream.
- `close()` on the writable connection. tests/test_connection.py calls it, but `connection.py` does not define it.
- `writer.py` (`SocketWriter`) only forwards its calls. `abc/` and `__init__.py` only declare protocols, an exception class and re-exports.
- The message text of `ReaderAlreadyStartedError`.
