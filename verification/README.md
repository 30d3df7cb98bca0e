# Badge plugin models

Dafny models of the state machines and codecs inside the badge's WebAssembly
plugins, with proofs of what they are for: the thermal printer pipeline, its text
layout, the snake game, the BLE scanner's device table and list, and three parts of
the Matrix client (recovery keys, the inbound session store, key distribution).

`dafny verify dfyconfig.toml` checks everything.

## How the project is organised

| modules | what they model |
|---|---|
| `Checksum`, `Rle`, `Proto` | CRC8, run-length rows, frames and the byte stream of a print job, built by loops over buffers |
| `Printer` | an independent reader of that stream: what a printer makes of any bytes it gets. It is the reference the builders are proved against |
| `Raster`, `Wire`, `NetJob` | the two job formats and the network receive loop |
| `Layout`, `Pages` | greedy word wrapping against any measuring function, and pagination that drains and re-queues its input |
| `Sending`, `Prints`, `Driver`, `Scenarios` | the print driver: a class with one method per tick, action or print request; ghost books of every transfer, print, page and answer; runs that show its progress and its unexpected cases |
| `Snake` | the game as a class; its rules as functions on a `State`, over which whole games are run |
| `Scanner` | the device table (`merge`, `evict_one`) and the in-place reconciliation of the on-screen list |
| `Numerals`, `Text`, `Base58` | positional numbers, whitespace, base58 and the recovery key |
| `Inbound` | the inbound Megolm session store |
| `Distribution` | the chunked, retried queue of room keys |
| `Bytes` | bytes, bits and little-endian fields |

Code that changes things in place is imperative here as well. Each such method is
proved equal to a function of its inputs or its old state; the theorems are lemmas
about those functions or invariants (`Valid`) kept by every method. Calls into the
host appear as parameters that carry their results, so every theorem holds for all
results the host can give.

## What the proofs found

These are places where the code does not do what its comments or callers suggest.
The model follows the code.

- **Rows reported as printed.** If the last page of a text cannot be rendered
  (`plugins/thermo_printer/src/lib.rs:737-762`), its rows never reach the printer and
  the job is still answered DONE. This happens exactly when the page failed to render
  and the layout left nothing queued (`Prints.RowsAreLost`); the layout leaves nothing
  exactly when no line with text sticks out of the page, or when one line of one row
  is forced on it (`Pages.RestIsEmpty`). `Scenarios.LostRow` is a text of 60 lines that
  loses its last row.
- **A late discovery drops a print.** `on_discovered` has no state check
  (`plugins/thermo_printer/src/lib.rs:676-719`). Delivered during a transfer it ends
  the transfer silently: the print never ends, and an active job or queued lines are
  left behind in an idle driver. `Driver.Driver.OnDiscovered` gives the exact
  conditions, and `Scenarios.LateDiscovery` a run for every job. The run theorem
  `Driver.Serve` assumes the action comes only while discovering.
- **The key accumulator holds up to four chunks.** The comment at
  `plugins/matrix/src/lib.rs:1179-1182` promises one chunk. A failed send keeps its
  payloads while `next` has moved on. The next send is sure to stay within one chunk
  exactly when no failed send is waiting for its retry, or when what waits and the
  targets of the next tick are no more than a chunk together
  (`Distribution.OneChunkUnlessRetrying`); it can carry 16 payloads
  (`Distribution.FourChunksInOneSend`) and never more (`Distribution.JobCompletes`).
- **Giving up is sticky.** `retries` is not reset after giving up, so every later send
  that fails is dropped at once until one succeeds
  (`Distribution.GivenUpIffThreeFailures`, `Distribution.DroppedUntilSuccess`).
- **Reserved raster fields are not checked.** The format says that flags and the
  reserved field are 0. `raster::parse` accepts any values there
  (`Raster.ReservedIgnored`); an accepted payload follows the format exactly when they
  are 0 (`Raster.AcceptedFollowsFormat`), and `Raster.ReservedInUse` is one that does not.
- **The end of a job need not be acknowledged.** With a feed of 0 the closing buffer is
  empty, so the last row chunk is not forced to be a write with response. Where such
  writes are possible, the last write of a completed transfer waits exactly when there
  is a feed, when plain writes are impossible, or when it is an eighth one
  (`Sending.LastWriteWaits`). `Scenarios.UnawaitedEnd` is a run of a raster job that
  ends with a plain write.
- **Long frames.** The length field has 16 bits, so a frame is readable exactly when
  its payload is shorter than 65536 bytes (`Printer.FrameRoundTrip`).

## Model

| member | source | states |
|---|---|---|
| Checksum.Crc8 | plugins/thermo_printer/src/proto.rs:84-97 | the bit loop computes `Crc`, which `CheckedIsMultiple` characterises |
| Checksum.CrcIsRemainder | plugins/thermo_printer/src/proto.rs:83-97 | the bytewise checksum is the bit-by-bit Horner remainder of the data times x^8; with `CheckedIsMultiple` this is division by x^8+x^2+x+1 |
| Checksum.CheckedIsMultiple | plugins/thermo_printer/src/proto.rs:83-97 | the checksum is the one byte that makes the payload, followed by it, a multiple of the polynomial 1 0000 0111 written out, by schoolbook multiplication without carries |
| Checksum.Division | plugins/thermo_printer/src/proto.rs:86-95 | the bits of any message followed by the register are the product of the generator and the bits the register dropped |
| Checksum.ResidueIsZero | plugins/thermo_printer/src/proto.rs:84-97 | data followed by one byte has checksum 0 exactly when that byte is the data's checksum |
| Checksum.CrcLinear | plugins/thermo_printer/src/proto.rs:84-97 | on payloads of equal length the checksum of the XOR is the XOR of the checksums |
| Checksum.BurstDetected | plugins/thermo_printer/src/proto.rs:84-112 | two different payloads that differ only within 8 consecutive bits, across a byte border or not, at any place and length, have different checksums |
| Printer.BurstRejected | plugins/thermo_printer/src/proto.rs:100-112 | a frame whose payload is hit by such a burst is refused by the reader, whatever follows it |
| Proto.Frame | plugins/thermo_printer/src/proto.rs:100-112 | appending byte by byte yields the frame that `FrameRoundTrip` reads back |
| Printer.FrameRoundTrip | plugins/thermo_printer/src/proto.rs:100-112 | the reader gets command, payload and following bytes back if and only if the payload length fits 16 bits |
| Proto.ParseStatus | plugins/thermo_printer/src/proto.rs:116-136 | recognises a status exactly when the bytes are that status's notification with its checksum, and nothing else |
| Proto.ReferenceFrames | plugins/thermo_printer/src/proto.rs:278-305 | the frames and status notifications of the reference vectors, byte by byte |
| Proto.ReverseBitsMirrors | plugins/thermo_printer/src/proto.rs:139-144 | the mask arithmetic moves bit k from the left to bit k from the right |
| Proto.FrameRowPlain | plugins/thermo_printer/src/proto.rs:148-155 | the loop frames the mirrored row, cut or padded with zero bytes to 48 |
| Rle.RleEncodeRow | plugins/thermo_printer/src/proto.rs:160-181 | a coding it returns expands to the row's pixels and is shorter than the row; it declines only when no run coding whatsoever is shorter |
| Rle.PushRun | plugins/thermo_printer/src/proto.rs:183-189 | appends the bytes of one run, which expand to that run (`PushExpand`) |
| Rle.RunsExpand | plugins/thermo_printer/src/proto.rs:160-181 | decoding inverts coding from any state of the loop: the open run comes first, then the pixels |
| Rle.RunsNoLonger | plugins/thermo_printer/src/proto.rs:160-189 | no sequence of run bytes with the same pixels is shorter than the one the encoder builds |
| Proto.FrameRow | plugins/thermo_printer/src/proto.rs:193-200 | picks the coding that `RowFrameMeaning` and `RowFrameShorter` speak about |
| Printer.RowFrameMeaning | plugins/thermo_printer/src/proto.rs:148-200 | either coding of a row is read back as the row's pixels, cut or padded with white to 384 |
| Printer.RowFrameShorter | plugins/thermo_printer/src/proto.rs:193-200 | with run coding enabled a row's frame is never longer than the plain one of 56 bytes |
| Printer.RunCodingUsed | plugins/thermo_printer/src/proto.rs:160-200 | a row goes out run-coded if and only if that is enabled, the row has the full width, and some run coding of its pixels is shorter than the row |
| Printer.RowPixels | plugins/thermo_printer/src/proto.rs:214-221 | pixel x of row y is bit x of the row's own bytes, highest first, and white behind them |
| Proto.JobRows | plugins/thermo_printer/src/proto.rs:214-221 | the loop emits the row stream of a range, in range for every raster that holds its rows |
| Proto.RowsStreamSplit | plugins/thermo_printer/src/proto.rs:214-221 | framing rows in two ranges gives the same bytes as in one |
| Printer.RowsMeaning | plugins/thermo_printer/src/proto.rs:214-221 | the reader draws exactly the rows of the range, in order, and goes on with what follows |
| Proto.BuildJob | plugins/thermo_printer/src/proto.rs:235-248 | the whole job's bytes, in the order `JobMeaning` reads them |
| Printer.JobMeaning | plugins/thermo_printer/src/proto.rs:203-248 | a job is read as speed, energy, apply, one blank row, every raster row's pixels, and the feed if it is not 0; the picture does not depend on run coding |
| Printer.JobNoLonger | plugins/thermo_printer/src/proto.rs:193-248 | a job with run coding is never longer than without |
| Raster.ParseBuild | plugins/thermo_printer/src/raster.rs:47-86 | a built payload is accepted exactly when its geometry is printable and it has enough row bytes; parsing then gives back the geometry and those bytes |
| Raster.ParsedRowsInside | plugins/thermo_printer/src/raster.rs:61-86 | whatever payload is accepted has exactly stride times height row bytes, and framing its rows never reads outside them |
| Raster.ReservedIgnored | plugins/thermo_printer/src/raster.rs:61-86 | what is accepted, and as what, does not depend on the flags byte or the reserved field |
| Raster.AcceptedFollowsFormat | plugins/thermo_printer/src/raster.rs:4-8 | an accepted payload is one the format describes if and only if those bytes are 0 |
| Raster.ReservedInUse | plugins/thermo_printer/src/raster.rs:61-86 | an accepted payload with all of them in use |
| Wire.ParseBuild | plugins/thermo_printer/src/wire.rs:31-64 | a frame comes back, with anything appended to it, if and only if its end is representable in 32 bits |
| Wire.ParsePrefix | plugins/thermo_printer/src/wire.rs:31-51 | bytes after a complete frame do not change what is parsed |
| Wire.FrameExample | plugins/thermo_printer/src/wire.rs:56-64 | a frame written out, byte by byte |
| NetJob.ServeNetJob | plugins/thermo_printer/src/lib.rs:1160-1198 | however the stream is cut into reads, the job handed over is the job in all received bytes; it is refused early exactly on a bad header; an accepted job is what a good header within the size cap announces; the buffer stays below 128 KiB + 2048 |
| NetJob.FrameArrives | plugins/thermo_printer/src/lib.rs:1160-1198 | a frame of allowed size that arrived in full is handed over whatever follows it |
| Layout.WrapText | plugins/thermo_printer/src/layout.rs:15-57 | the loops over paragraphs, words and characters compute `Wrapped`, the subject of the lemmas below |
| Layout.BreakWord | plugins/thermo_printer/src/layout.rs:36-47 | the character loop splits a word as `BreakKeeps` requires |
| Layout.WrapIsSafe | plugins/thermo_printer/src/layout.rs:15-57 | for any measure: every line fits or is a single character, lines are words joined by single spaces, and the non-white characters of input and output are the same sequence |
| Layout.NewlineBreaks | plugins/thermo_printer/src/layout.rs:17-56 | the lines of a text with a newline are those of the part before it followed by those of the part after it, a blank part giving one empty line |
| Layout.WordsSplit | plugins/thermo_printer/src/layout.rs:19 | white space separates words, and nothing else does (`WordsKeepText`) |
| Layout.WrapIsGreedy | plugins/thermo_printer/src/layout.rs:18-49 | in every paragraph, broken words or not, a line is closed only where the first word of the next one, or its next character, does not fit |
| Layout.RewrapIsIdentity | plugins/thermo_printer/src/layout.rs:15-57 | for a substring-monotone measure, wrapping a non-empty output line again returns just that line |
| Layout.FewestLines | plugins/thermo_printer/src/layout.rs:15-57 | if every word fits alone, the greedy lines are at most as many as the parts of any in-order partition into lines that fit |
| Layout.OpenLineCost | plugins/thermo_printer/src/layout.rs:19-34 | the exchange step behind it: starting from a longer open line costs at most one line more than from a suffix of it, and never less |
| Layout.GreedyIsOptimal | plugins/thermo_printer/src/layout.rs:15-57 | for a paragraph whose words fit alone, the output is itself such a partition, breaks no word, and is the smallest one |
| Pages.PageQueue.Paginate | plugins/thermo_printer/src/layout.rs:60-116 | the page and the queue are those of `Laid`: blank lines always go on the page, other lines in full, and only the first line of a page is split, giving up at least one row; page plus queue is the flow that was queued; a non-empty queue gives a non-empty page; rows with text end above the bottom except a forced first row; no page stops while the next line would fit; the final y is the sum of the row heights |
| Pages.RestIsEmpty | plugins/thermo_printer/src/layout.rs:69-116 | a page takes the whole queue exactly when no line with text reaches below the bottom, or when the queue is one line of one row |
| Pages.PageQueue.SplitFirst | plugins/thermo_printer/src/layout.rs:98-111 | splitting an oversized first line and queueing its other rows loses and reorders nothing |
| Pages.SplitFlow | plugins/thermo_printer/src/layout.rs:98-111 | the rows taken and the re-queued rows, wrapped again, are the rows of the line |
| Pages.PrintAllPages | plugins/thermo_printer/src/lib.rs:737-762 | paginating until nothing is queued ends, and the pages together are the wrapped rows of all source lines in order |
| Pages.FontWrapIsStable | plugins/thermo_printer/src/lib.rs:383-391 | wrapping with substring-monotone font measures has the property the pagination theorems assume |
| Sending.CompletedTransfers | plugins/thermo_printer/src/lib.rs:700-882 | in every log the driver keeps, a completed transfer wrote exactly the bytes of its job |
| Sending.CompletedTransferPrints | plugins/thermo_printer/src/lib.rs:700-882 | what the printer reads from a completed transfer is the raster and the settings it started with |
| Sending.LastWriteWaits | plugins/thermo_printer/src/lib.rs:838-846 | where writes with response are possible, the last write of a completed transfer waits if and only if there is a paper feed, plain writes are impossible, or the number of writes is a multiple of eight |
| Sending.WriteShortens | plugins/thermo_printer/src/lib.rs:836-878 | a write of a full chunk, or of the end of a buffer, lowers the bound on the writes to come |
| Sending.WritesOfJob | plugins/thermo_printer/src/lib.rs:700-719 | the bound at the start: the job's bytes over the chunk size, plus one per buffer of 32 rows, plus two |
| Prints.DoneWasPrinted | plugins/thermo_printer/src/lib.rs:498-762 | in sound books, every print that ended well was transferred sheet by sheet, in order: a picture as its own raster, a text as pages that hold all rows of its own lines but those lost at the end; every DONE answered such a print |
| Prints.PagesKeepFlow | plugins/thermo_printer/src/lib.rs:737-762 | the first pages of a text and the lines queued behind them are all its rows, after any number of pages |
| Prints.RowsAreLost | plugins/thermo_printer/src/lib.rs:737-762 | rows are lost if and only if a page was due, failed to render, and the layout left nothing queued; they are the rows of that page |
| Prints.AcceptKeeps | plugins/thermo_printer/src/lib.rs:498-564 | taking a print keeps the books sound, whether it is dropped, waits or is sent |
| Prints.TurnKeeps | plugins/thermo_printer/src/lib.rs:737-762 | completing a transfer keeps them sound: the next page begins, or the print is over and its job answered |
| Sending.RefillKeeps | plugins/thermo_printer/src/lib.rs:764-796 | a refill changes nothing about the bytes still to be sent, and leaves bytes in the buffer exactly when there are any to send |
| Sending.Written | plugins/thermo_printer/src/lib.rs:865-878 | a write takes exactly its bytes off what remains, and the log stays sound: what was written and what remains are the job, never eight plain writes in a row, and every write waits exactly when it is due |
| Driver.Driver.constructor | plugins/thermo_printer/src/lib.rs:153-180 | a fresh driver is idle, with empty books |
| Driver.Driver.StartPrint | plugins/thermo_printer/src/lib.rs:498-515 | accepted exactly when idle, and then sent, connecting, scanning or dropped with its job answered as the link allows, with a new print of its own source in the books; otherwise nothing at all changes |
| Driver.Driver.ConnectOrScan | plugins/thermo_printer/src/lib.rs:546-564 | the exact radio conditions under which the print is sent at once, waits for the link, or is dropped with an error for its job |
| Driver.LinkDecides | plugins/thermo_printer/src/lib.rs:546-590 | sent, connecting, scanning or dropped, each exactly under its own link condition |
| Driver.Driver.StartScan | plugins/thermo_printer/src/lib.rs:566-590 | a scan that cannot start drops the queue and answers the job with an error |
| Driver.Driver.PrintText | plugins/thermo_printer/src/lib.rs:1132-1153 | accepted exactly when idle with lines that render; the first page and the queued lines are then those of the layout; a refused text changes nothing |
| Driver.Driver.ComposeLinesPage | plugins/thermo_printer/src/lib.rs:369-411 | unless there is no surface, the page and the lines left are those of the layout, whether or not rendering succeeds; together they are all rows; rows with text end above the page bottom except a forced first row |
| Driver.Driver.BeginSend | plugins/thermo_printer/src/lib.rs:700-719 | opens a transfer of the pending raster whose remaining bytes are the whole job, and none without one; the books stay but for the pending raster |
| Driver.Driver.RefillSendBuffer | plugins/thermo_printer/src/lib.rs:764-796 | terminates; false exactly when nothing is left to send, and otherwise the buffer holds the next bytes |
| Driver.Driver.PumpSend | plugins/thermo_printer/src/lib.rs:798-882 | nothing is written and no book changed while gated or paused; otherwise the next chunk of what remains goes out, of the exact size and with the exact rule for a write with response, and the queue stays; a transfer completes exactly when nothing is left, with no gated write outstanding, and the books turn |
| Driver.WritesUnlessHeld | plugins/thermo_printer/src/lib.rs:813-850 | nothing is written and nothing changes behind a gated write or within 10 seconds of a BufferFull; otherwise a write is made exactly when bytes remain and it succeeds; it gates exactly when it is one with response |
| Driver.ChunkOfWrite | plugins/thermo_printer/src/lib.rs:804-838 | a write carries a whole chunk, of at least 20 bytes, or what is left of the buffer |
| Driver.PropertyBits | plugins/thermo_printer/src/lib.rs:840-841 | which property bits allow writes with and without response |
| Driver.Driver.WriteChunk | plugins/thermo_printer/src/lib.rs:836-879 | exactly one chunk is written, taken off the remaining bytes and logged; the log stays sound |
| Driver.Driver.OnSendComplete | plugins/thermo_printer/src/lib.rs:737-762 | the books turn as `TurnKeeps` and `RowsAreLost` describe: the next page begins exactly when one is due and renders; otherwise the print is over with one answer |
| Driver.Driver.PrintNextPage | plugins/thermo_printer/src/lib.rs:738-757 | a page that renders adds its sheet to the print, queues what the layout leaves, and starts a transfer; one that fails keeps none of the queue, and is taken for the end of the text exactly when the layout left nothing |
| Driver.Driver.ScanFinished | plugins/thermo_printer/src/lib.rs:607-653 | a pending print connects only to a found printer; otherwise it is dropped and its job answered |
| Driver.Driver.OnConnected | plugins/thermo_printer/src/lib.rs:664-674 | discovery starts, or the print fails with its job answered |
| Driver.Driver.OnDiscovered | plugins/thermo_printer/src/lib.rs:676-698 | jobs and queue stay consistent if and only if this does not interrupt a transfer that has a job or queued lines; every print goes on or ends if and only if no transfer is interrupted |
| Driver.Driver.TakeCharacteristics | plugins/thermo_printer/src/lib.rs:678-688 | the last TX and RX characteristics count, and missing ones leave 0 |
| Driver.LastOneCounts | plugins/thermo_printer/src/lib.rs:681-688 | of several characteristics of a kind the last one is taken |
| Driver.Driver.FailPrint | plugins/thermo_printer/src/lib.rs:721-727 | idle, link and queue forgotten, the print over and its job answered with an error, the log kept |
| Driver.Driver.ClearQueue | plugins/thermo_printer/src/lib.rs:526-532 | nothing stays queued, the print is over, and an active job is answered with an error, once |
| Driver.Driver.OnTick | plugins/thermo_printer/src/lib.rs:1281-1318 | in a transfer, exactly what `PumpSend` says, with the write it made and the page it began; otherwise the exact next state: rescan and poll intervals, timeouts, the outcome of a scan or a connection; a driver that falls idle ends its print and answers its job, any other keeps its books; the log only grows |
| Driver.AttemptsEnd | plugins/thermo_printer/src/lib.rs:1294-1314 | without the saved printer a connection attempt lasts 10 seconds and a discovery 8, to the millisecond; a finished scan connects only a pending print to a found printer |
| Driver.Driver.OnNotify | plugins/thermo_printer/src/lib.rs:1590-1611 | a batch of notifications changes only the pause, to what the last status in it says |
| Driver.LastStatusDecides | plugins/thermo_printer/src/lib.rs:1595-1607 | the last status among the notifications read decides: BufferFull pauses from now on, Ready ends the pause; other bytes and what follows an empty notification count for nothing |
| Driver.Hold | plugins/thermo_printer/src/lib.rs:798-882 | over any run of events without a Ready, whose ticks lie within 10 seconds of the pause, nothing more is written to the transfer and it does not complete |
| Driver.HoldGate | plugins/thermo_printer/src/lib.rs:798-882 | over any run of events without the completion of a write, nothing more is written behind a gated one |
| Driver.Driver.OnWriteDone | plugins/thermo_printer/src/lib.rs:1612-1626 | releases the gate of a running transfer for its own handle only, and keeps the books; a bad status fails the print |
| Driver.Driver.OnExit | plugins/thermo_printer/src/lib.rs:1267-1278 | a running transfer and its queued pages are left alone; anything else is dropped and its job answered |
| Driver.Driver.OnScanMenu | plugins/thermo_printer/src/lib.rs:1343-1352 | opening the scan screen never changes the books, nor the state of a driver that is not idle |
| Driver.Driver.OnJob | plugins/thermo_printer/src/lib.rs:1557-1588 | while busy the job is refused with an error and nothing else changes; idle, a raster or a text that renders becomes a new print with its own first page and rest, sent, connected or scanned for exactly as the link allows; every other job is answered with an error at once |
| Driver.RasterAsksFor | plugins/thermo_printer/src/lib.rs:1567-1583 | a raster job asks for its own raster exactly when it is printable and whole |
| Driver.Driver.HandleJobFrame | plugins/thermo_printer/src/lib.rs:1096-1120 | accepted exactly when idle and the frame holds something to print, which then becomes a new print with its own first page and rest and starts as the link allows; a refused frame changes nothing |
| Driver.FrameAsksFor | plugins/thermo_printer/src/lib.rs:1096-1119 | kind 0 asks for the text, 1 for the image, 2 for the raster, and any other for nothing |
| Driver.Serve | plugins/thermo_printer/src/lib.rs:1266-1630 | over any sequence of events: every job taken from the host is answered at most once, and exactly once whenever the driver is idle; reports are only appended; no print is forgotten, loses a sheet or changes its source; no transfer leaves the log, loses a write or is reopened; every completed transfer wrote exactly its job; every text or raster that ended well was transferred sheet by sheet as its own rows or raster, and every DONE answered one of them |
| Driver.Handle | plugins/thermo_printer/src/lib.rs:1266-1630 | the exact books after each event; a tick writes only what `Pumped` allows and no other event writes |
| Scenarios.RunOut | plugins/thermo_printer/src/lib.rs:764-882 | when writes succeed, nothing pauses and gated writes complete, a transfer ends within the bound on its writes plus one tick, and the next page begins or the print is over |
| Scenarios.LateDiscovery | plugins/thermo_printer/src/lib.rs:676-719 | for every job, a run in which a second discovery leaves the driver idle with the job never answered |
| Scenarios.UnawaitedEnd | plugins/thermo_printer/src/lib.rs:836-846 | for every raster job of one row, without feed: a run answered DONE whose last write is plain although it could wait |
| Scenarios.LostRow | plugins/thermo_printer/src/lib.rs:737-762 | a text job of 60 lines at the printer's line height, answered DONE with 59 rows on its only sheet |
| Snake.Game.constructor | plugins/snake/src/game.rs:123-144 | a game starts in a state with the invariant |
| Snake.StartInv | plugins/snake/src/game.rs:123-144 | a game exists exactly on grids of at least 8 by 4, and has the invariant from the start |
| Snake.StartPosition | plugins/snake/src/game.rs:123-144 | three cells west of the middle, heading east, no points |
| Snake.Game.Steer | plugins/snake/src/game.rs:191-205 | the buffer with its eviction is `Steered`, and keeps the invariant |
| Snake.TurnsQueue | plugins/snake/src/game.rs:191-205 | a turn is queued exactly by a living snake and at right angles to the last one; a third one drops the oldest |
| Snake.Compass | plugins/snake/src/game.rs:43-60 | the four directions on the screen, and their opposites |
| Snake.Game.Step | plugins/snake/src/game.rs:209-255 | a step is `Stepped`, whose outcomes `StepOutcomes` states, and keeps the invariant |
| Snake.StepOutcomes | plugins/snake/src/game.rs:225-254 | a living snake that enters a cell of the grid free of all its body but the tail moves there, its tail following, or eats and keeps its tail; any other step crashes and leaves the body, the food and the score as they were |
| Snake.Game.ApplyTurn | plugins/snake/src/game.rs:214-222 | pops queued turns up to the first legal one |
| Snake.FirstLegalTurn | plugins/snake/src/game.rs:217-223 | the turn taken is the first queued one at right angles to the heading, and those behind it stay |
| Snake.HitsBodyExact | plugins/snake/src/game.rs:233-245 | the tail test by value is the same as leaving out the last body cell |
| Snake.Game.SpawnFood | plugins/snake/src/game.rs:259-282 | the nested walk always finds its cell: the drawn one among the free cells; its fallback is never reached |
| Snake.FoodPlacementIsBijective | plugins/snake/src/game.rs:259-282 | width times height minus length is the number of free cells; every draw picks a different free cell, and every free cell is picked by some draw |
| Snake.FoodIsDrawn | plugins/snake/src/game.rs:259-282 | the food is the free cell, counted row by row, whose number the generator draws; there is none exactly when the grid is full |
| Snake.XorShiftExamples | plugins/snake/src/game.rs:81-95 | two values of the 13, 17, 5 shift register, and a seed of 0 replaced |
| Snake.GameInv | plugins/snake/src/game.rs:104-282 | in every reachable state: body on the grid, distinct, chained by unit steps; alive, the head is the neck plus the heading; food is on a free cell, and none exactly when the grid is full; score is 10 per cell grown; the turn buffer is sound |
| Snake.NextTurnTurns | plugins/snake/src/game.rs:191-223 | a step with queued turns turns by exactly 90 degrees and skips at most one stale entry |
| Snake.NewestInputWins | plugins/snake/src/game.rs:191-223 | if nothing follows an accepted input, it is the heading after one step of the game, or after two if the snake survives the first |
| Snake.NeckIsSafe | plugins/snake/src/game.rs:191-230 | the head never moves into the neck |
| Snake.EatingNeverCrashes | plugins/snake/src/game.rs:231-255 | reaching the food grows the snake by its cell, scores, and leaves new food elsewhere or none |
| Snake.CrashedGameIsFrozen | plugins/snake/src/game.rs:191-212 | no input changes a crashed game |
| Snake.ScoreRises | plugins/snake/src/game.rs:209-255 | the score never falls, and length grows by one per ten points |
| Scanner.Scanner.Merge | plugins/ble_scanner/src/lib.rs:132-165 | after a round of at most 32 results the devices with no missed round are exactly the addresses reported in it; the table keeps distinct addresses and its cap |
| Scanner.Scanner.Fold | plugins/ble_scanner/src/lib.rs:133-158 | while fewer than 64 devices are present, every new device gets a place: the skip at the cap is never taken |
| Scanner.Scanner.EvictOne | plugins/ble_scanner/src/lib.rs:168-179 | removes the stalest device, the weaker one on a tie, if it was missed |
| Scanner.EvictionFindsOne | plugins/ble_scanner/src/lib.rs:136-147 | a full table with fewer than 64 present devices always has one to evict, so the skip at the cap is never taken |
| Scanner.FoldedKeeps | plugins/ble_scanner/src/lib.rs:132-158 | one result adds its address to the present ones and removes none of them |
| Scanner.FoldKnown | plugins/ble_scanner/src/lib.rs:134-141 | a known device takes over strength, type and name, an empty name aside, counts once more up to the limit, and is no longer missed; no other device changes |
| Scanner.FoldNew | plugins/ble_scanner/src/lib.rs:142-157 | a new device goes to the end; at 64 it replaces a device missed most often and weakest among those |
| Scanner.UnreportedStay | plugins/ble_scanner/src/lib.rs:132-165 | while all addresses together are at most 64, a device that was not reported stays in its place, unchanged but for one more missed round, up to 255 |
| Scanner.NoReportedDeviceIsLost | plugins/ble_scanner/src/lib.rs:132-179 | from an empty table, over any rounds of at most 32 results: at most 64 devices, distinct, and the present ones are the last round's addresses |
| Scanner.Scanner.Render | plugins/ble_scanner/src/lib.rs:200-247 | replaying every edit sent to the host gives the mirror, and both equal the rows of the device table; an unchanged list sends no edit |
| Scanner.RowOfDevice | plugins/ble_scanner/src/lib.rs:188-197 | one row per device in table order, shown as stale from the second missed round on |
| Scanner.Scanner.RemoveGone | plugins/ble_scanner/src/lib.rs:208-215 | only rows of existing devices stay, and the replayed list follows |
| Scanner.Scanner.Reconcile | plugins/ble_scanner/src/lib.rs:227-246 | from any distinct known rows, in any order, the result is the target sequence on both sides |
| Scanner.Scanner.PutRow | plugins/ble_scanner/src/lib.rs:228-245 | one more row is in place, none of those before it moves, and the replayed list follows |
| Scanner.Serve | plugins/ble_scanner/src/lib.rs:345-409 | over any sequence of opening, leaving and scan rounds, the table is what the rounds make of it, and while the plugin is open the host's list shows exactly that table |
| Numerals.MulAddValue | plugins/matrix/src/crypto.rs:75-84 | the carry loop multiplies a little-endian number and adds the carry |
| Numerals.CarryBound | plugins/matrix/src/crypto.rs:76-80 | a carry below the multiplier stays below it, below 58 when decoding |
| Numerals.ConvertRoundTrip | plugins/matrix/src/crypto.rs:71-95 | changing base and back is the identity for every digit string, leading zeros included |
| Base58.AlphabetSpelled | plugins/matrix/src/crypto.rs:67-68 | the digit values follow the base58 alphabet, letter by letter |
| Base58.MulAddInPlace | plugins/matrix/src/crypto.rs:75-84 | the two in-place loops compute the multiplication that `MulAddValue` describes |
| Base58.Base58Decode | plugins/matrix/src/crypto.rs:71-95 | the result is the big-endian bytes of the base-58 value behind one zero byte per leading '1', or none on a foreign character |
| Base58.DecodedExactly | plugins/matrix/src/crypto.rs:70-95 | a byte string is the decoding exactly when it has the value of the digits, highest first, and as many leading zeros as they have |
| Base58.DecodedExample | plugins/matrix/src/crypto.rs:70-95 | "5R" decodes to the bytes 1, 0 |
| Base58.Base58Encode | plugins/matrix/src/crypto.rs:659-685 | the digit loops compute the base-58 spelling that `DecodeEncode` inverts |
| Base58.DecodeEncode | plugins/matrix/src/crypto.rs:659-699 | decoding inverts encoding for every byte string |
| Base58.EncodeDecode | plugins/matrix/src/crypto.rs:71-95 | encoding inverts decoding: no two strings decode to the same bytes |
| Base58.ParseRecoveryKey | plugins/matrix/src/crypto.rs:99-111 | strips white space, decodes and checks prefix, length and parity as `RecoveryKeyExact` characterises |
| Base58.RecoveryKeyExact | plugins/matrix/src/crypto.rs:97-111 | a string parses to a key if and only if, white space aside, it spells 8B 01, the key's 32 bytes and a byte with which every bit is set in an even number of the bytes; there is no other accepted string |
| Base58.ParityCountsBits | plugins/matrix/src/crypto.rs:105-107 | a bit of the parity is set exactly when an odd number of the bytes have it set |
| Base58.ParityByteIsUnique | plugins/matrix/src/crypto.rs:687-692 | every key has exactly one such byte: the parity of the bytes before it |
| Inbound.Crypto.InsertInbound | plugins/matrix/src/crypto.rs:321-368 | true exactly when the store changed; every entry stays under its own session id |
| Inbound.ImportOutcome | plugins/matrix/src/crypto.rs:317-368 | an import of a foreign id, another known room or sender, or another chain changes nothing; any other one keeps the lower first index and every known binding |
| Inbound.ImportsAreMonotone | plugins/matrix/src/crypto.rs:317-368 | over any imports: no entry disappears, its chain never changes, its first index never rises, a known room or sender never changes |
| Inbound.OneRoomPerSession | plugins/matrix/src/crypto.rs:403-422 | events a session may decrypt are always of one room, whatever is imported in between, and of one sender once that is known |
| Inbound.StaysDecryptable | plugins/matrix/src/crypto.rs:413-422 | an event stays decryptable under later imports exactly when they leave the sender unbound or bind the event's own |
| Inbound.ImportOrderDoesNotMatter | plugins/matrix/src/crypto.rs:321-368 | imports of one session that agree with each other, and with the entry if one is held, leave the same store in any order, with any repetitions |
| Inbound.ImportedIsBest | plugins/matrix/src/crypto.rs:347-366 | the entry they leave has the least index and every known binding among them and the held one |
| Distribution.Distributor.ProcessDistribution | plugins/matrix/src/lib.rs:1099-1220 | only the oldest job moves, by `TickJob`; it leaves the queue only when done; a missing account empties the queue; the invariant bounds retries and payloads |
| Distribution.Distributor.WrapChunk | plugins/matrix/src/lib.rs:1137-1175 | each target of the chunk is visited once and wrapped at most once, after a session exists |
| Distribution.WrapOutcome | plugins/matrix/src/lib.rs:1137-1175 | a target is wrapped exactly when it has a session or one can be set up with its one-time key, and its payload is addressed to itself |
| Distribution.ChunkPayloads | plugins/matrix/src/lib.rs:1137-1175 | every payload of a chunk is for one of its targets, and every target with a session whose encryption succeeds gets one |
| Distribution.Distributor.Enqueue | plugins/matrix/src/lib.rs:1078-1092 | a job goes to the end of the queue, and none without recipients |
| Distribution.TickShortens | plugins/matrix/src/lib.rs:1105-1219 | every tick, whether its send fails or not, ends the job or brings its end closer |
| Distribution.JobCompletes | plugins/matrix/src/lib.rs:1099-1220 | for every pattern of failures a job of n targets is done within ceil(n/4) + 3 ticks; it visited every target exactly once in order; every payload was delivered or dropped; no send carried more than 16 payloads, and each follows a save |
| Distribution.Drain | plugins/matrix/src/lib.rs:1078-1220 | over any run of offered jobs and ticks, the targets visited and those queued are always the ones offered, in that order, each once; without new jobs the queue is empty after the sum of the jobs' bounds |
| Distribution.BoundIsTight | plugins/matrix/src/lib.rs:1199-1209 | a job that needs every tick of the bound |
| Distribution.FourChunksInOneSend | plugins/matrix/src/lib.rs:1177-1206 | a send of sixteen payloads, contrary to the comment on the accumulator |
| Distribution.OneChunkUnlessRetrying | plugins/matrix/src/lib.rs:1177-1210 | in every reachable state: the next send is sure to carry at most one chunk if and only if no failed send is waiting for its retry, or what waits and the targets of the next tick are at most a chunk together |
| Distribution.GivenUpIffThreeFailures | plugins/matrix/src/lib.rs:1199-1209 | in every reachable state, a failed send is given up at once if and only if three sends have failed since the last success, given up or not |
| Distribution.DroppedUntilSuccess | plugins/matrix/src/lib.rs:1199-1209 | once payloads were given up, over any run of failing sends each one is dropped right after it |

## Left out

- Host calls (radio, sockets, storage, surfaces, menus, toasts, settings): their results are parameters, and what they show to the user is not modelled.
- Font measurement and rendering: `Render` says whether a page could be rendered and as what; that the raster shows the page's text is not modelled.
- Driver.Driver.ComposeLinesPage: takes one wrapping function for the driver's life, so a font setting changed between two pages of a text, or a font that cannot be selected for some lines, is not modelled.
- Driver.Serve: assumes that the discovery action comes only while discovering; `OnDiscovered` says what happens otherwise.
- Driver.Driver.OnJob: the lines of a text job are a parameter; its four-byte header and UTF-8 decoding are not modelled.
- Driver.Driver.HandleJobFrame: the rendering of an image and the lines of a text are parameters.
- Driver.Driver.ScanFinished: the choice of the strongest known model and the list of found printers are a parameter or left out.
- Driver.Driver.OnScanMenu: the other places that only switch the background rescan on or off are left out.
- NetJob.ServeNetJob: deadline, end of stream and read errors are turns of the loop; clock values and the replies written back are not modelled.
- Liveness of a gated write: the code has no timeout for it; `Scenarios.RunOut` shows progress only for hosts that complete every gated write.
- Pages.PageQueue.Paginate: positions are unbounded integers; overflow of 32-bit rows and of the 16-bit drawing position is not modelled.
- Inbound.Crypto.InsertInbound: a session is its id, its chain and its first index; the unconditional inserts of a restored snapshot and of own outbound sessions are left out.
- Distribution.Distributor.ProcessDistribution: payloads are a flat list in wrapping order; grouping by user and the JSON text are left out, as are the queries that find the recipients.
- Base58.Base58Decode: works on characters instead of UTF-8 bytes; both refuse every non-ASCII character.
- Scanner.Scanner.Render: the label format is a parameter, with a length limit on the host's side left out.
- Olm and Megolm cryptography, secret storage, account pickles: libraries that are not part of this model.
- Snake's drawing, speed levels and high scores, QR scaling, model name matching and vCard extraction: small helpers that would only add easy members.
- The calculator, news, home automation and other plugins: user interface glue or floating point.
