# A verified model of Input Leap's protocol and codec cores

Input Leap shares one mouse and keyboard between computers. This project models, in Dafny 4.11,
the parts of it in which a mistake is hard to see: how packets are cut out of a byte stream, how
events and timers are queued, how a client connects and reconnects, how mouse motion is
compressed, how text is converted between encodings, and how clipboards, files, dragged names,
command lines and screen lists are written and read back. The main results hold for every input,
or for every run of arbitrary operations.

`dafny verify dfyconfig.toml` checks the whole project.

## How the model is built

Code that updates fields is a class with those fields, and each of its methods states what the
new state means: a position in the received bytes, a plain queue, a history of timers. Code that
only computes is a function. Whole runs are methods that loop over an arbitrary list of
operations (`Session`, `Run`, `Connection`, `Receive`, `Measure`, `Observe`), and lemmas about
the states they go through; since the list is arbitrary, what they ensure at the end holds after
every step. Fields marked `ghost`, and the `log`, `dispatched`, `announced` and `notices` fields,
record what happened so that it can be compared with what should have happened.

Modules and the files they follow:

| module | models |
|---|---|
| `Framing`, `PacketStream` | `PacketStreamFilter.cpp`: the wire format, and the filter |
| `WakeUp` | input-ready notification across `PacketStreamFilter.cpp`, `Client.cpp` and `ServerProxy.cpp` |
| `Conversations` | the same seen packet by packet |
| `MouseCompression` | held-back motion in `ServerProxy.cpp` |
| `EventQueues` | `EventQueue.cpp` without timers, and `SimpleEventQueueBuffer.cpp` |
| `PriorityQueues`, `Stopwatches`, `Timers` | `PriorityQueue.h`, `Stopwatch.cpp`, and the timers of `EventQueue.cpp` |
| `ClientProtocol` | the connection life cycle in `Client.cpp` and `ClientApp.cpp` |
| `Utf8`, `Utf16` | `Unicode.cpp` |
| `CommandLine`, `ScreenList`, `Search` | `ArgParser.cpp`, `IKeyState.cpp`, and string search |
| `Decimal`, `Chunks`, `FileChunks`, `Clipboards`, `DragInfo` | sizes as text, `FileChunk.cpp`, `IClipboard.cpp` with `Clipboard.cpp` and `ClipboardChunk.cpp`, `DragInformation.cpp` with `DragPayload.cpp` |
| `Metrics`, `Cursor` | `PerformanceMetrics.cpp`, `CursorHandoff.h` with `CursorPosition.h` |
| `Bytes`, `Wrappers` | big-endian numbers and concatenation, and values that may be missing |

## Where the code does less than one would expect

Each of these is proved, with the exact condition under which the code does what is expected.

- Mouse compression changes the meaning of a batch exactly if its last message is a motion of one
  kind while only motion of the other kind is held back and the relative motion is not zero
  (`MouseCompression.ServerProxy.HandleData`; the two ways are `AbsoluteOvertakesRelative` and
  `RelativeOvertakesAbsolute`).
- A version 2 transfer message on a connection that negotiated less than protocol 1.7 makes
  `parseMessage` return `kDisconnect` without disconnecting. `handle_data` then stops. A complete
  packet stays buffered without an event exactly if such a message was refused and it had
  arguments, or another complete packet was buffered behind it (`WakeUp.ClientStream.HandleData`,
  `WakeUp.LostIff`); it stays so until the stream is deleted (`WakeUp.LostStep`). By the packets
  that the socket has brought: exactly if a transfer message comes before any packet at which the
  client hangs up (`Conversations.FateOfPackets`). One such message right after hello is enough
  (`WakeUp.RefusedTransferLosesWakeUp`). Motion stays held back too
  (`MouseCompression.RefusedTransferHoldsMotion`).
- Once the peer has shut down and nothing more arrives, the shutdown is announced exactly if fewer
  than four bytes follow the last packet read, or the stream stands at a bad header
  (`PacketStream.Session`). A packet cut off after its header hides it for good
  (`PacketStream.TruncatedPacketHidesShutdown`).
- The handler for a secure connection is never removed. A second report by the same socket is
  harmless before hello; after it, the report hands the proxy's input back to `handle_hello` and
  ends the three phases (`ClientProtocol.Client.HandleConnected`,
  `ClientProtocol.Client.Dispatch`, `ClientProtocol.SecondReportBreaks`).
- A single empty argument does not survive assembling and splitting a command; every other list
  of arguments without quotes does, with empty ones in it (`CommandLine.RoundTrip`).
- Unmarshalling a clipboard does not check lengths. The loop never steps past the NUL after the
  data exactly if the data with its NUL begins with a marshalled clipboard
  (`Clipboards.ReadableIff`); two short strings that do not are `Clipboards.CutOffCount` and
  `Clipboards.OverlongEntry`. An entry that claims one byte too many gets the NUL for it
  (`Clipboards.EntryWithNul`).
- Clipboard chunks are put together whatever their id. A finish delivers its own clipboard's data
  exactly if no other clipboard had a byte among the pieces since the last start mark
  (`Clipboards.Receive`); `Clipboards.FinishesUnderAnotherId` shows one that does not.
- The countdown of the timers does not see the time between the two clock readings of a check.
  Each timer runs out later by exactly what was missed since it was created or last fired
  (`Timers.Run`); `Timers.MissedTimeDelays` shows one that does not fire although it is overdue.
- A file size of 2^64 or more is read as zero and accepted (`FileChunks.AcceptedAnnouncements`).
- `UTF8ToUTF16` replaces malformed input without reporting an error
  (`Utf16.UTF8ToUTF16`), and a leading U+FEFF does not come back
  (`Utf16.ThereAndBack`, `Utf16.ThereAndBack32`).
- The largest 64-bit sample is counted as two (`Metrics.LargestIsMisplaced`).

## Assumptions

- Sockets, other threads, clocks and the operating system appear as arbitrary arguments and
  arbitrary events; sections under a mutex are single steps. Producers do not add events while
  `loop` drains the pending queue.
- A socket reports its connection before its input, and a secure socket does not report it again
  after hello. Events of a deleted stream do not reach its successor. The underlying stream has
  no format-error events of its own, and nothing more to read once it is closed.
- The clock does not go back between the two readings of `hasTimerExpired`, and a timer handle is
  not given out again while it is in use.
- `PROTOCOL_MAX_MESSAGE_LENGTH` is a parameter, any number from 1 to 2^32 - 1. `double` is `real`.
- The client's screen is open; opening it is not part of the model. `App::m_suspended` is never
  set in the client application, and `handle_stop_retry` changes only the client's own copy of
  the arguments, so neither has an effect on restarting.

## Model

| member | source | states |
|---|---|---|
| `Bytes.BE32RoundTrip` | src/lib/inputleap/PacketStreamFilter.cpp:91-95 | Writing a 32-bit length as four bytes and reading it back is the identity |
| `Bytes.BE32Injective` | src/lib/inputleap/PacketStreamFilter.cpp:135-141 | Reading four bytes and writing them back is the identity, so a header has one meaning |
| `Bytes.BE32Shift` | src/lib/inputleap/PacketStreamFilter.cpp:91-95 | The most significant byte comes first: a further byte is appended and the first dropped |
| `Framing.HeadsAgree` | src/lib/inputleap/PacketStreamFilter.cpp:88-100 | The first packet of a stream is determined by the bytes of the stream |
| `Framing.DeliveredIsPrefix` | src/lib/inputleap/PacketStreamFilter.cpp:52-100 | Packets whose frames begin the received bytes are the first packets sent, and what remains begins the frames of the others |
| `Framing.NextHeader` | src/lib/inputleap/PacketStreamFilter.cpp:130-152 | The header read at a packet boundary is the length of the next packet sent, and the bytes after it are that packet's |
| `Framing.PartialIsPrefix` | src/lib/inputleap/PacketStreamFilter.cpp:52-86 | What has been read of an unfinished packet is a proper beginning of the next packet sent |
| `Framing.HandOver` | src/lib/inputleap/PacketStreamFilter.cpp:65-79 | Handing over bytes of the packet in progress, all of them or some, keeps the reader's place in the received bytes |
| `Framing.MoreArrives` | src/lib/inputleap/PacketStreamFilter.cpp:164-178 | Receiving more bytes keeps the reader's place |
| `Framing.InProgress` | src/lib/inputleap/PacketStreamFilter.cpp:124-152 | The bytes read and to be read of the packet in progress are together the length of the next packet sent |
| `Framing.BetweenPackets` | src/lib/inputleap/PacketStreamFilter.cpp:130-152 | No packet is in progress if and only if fewer than four bytes follow the packets delivered |
| `Framing.AheadHere` | src/lib/inputleap/PacketStreamFilter.cpp:124-128 | Between packets, the filter is ready if and only if a whole packet is ahead in the received bytes, and it is the one in progress |
| `Framing.AheadNext` | src/lib/inputleap/PacketStreamFilter.cpp:65-79 | Delivering the next whole packet leaves exactly the others ahead |
| `Framing.NothingAhead` | src/lib/inputleap/PacketStreamFilter.cpp:143-149 | No packet is ahead of a bad header, whatever follows |
| `Framing.NoBadHeader` | src/lib/inputleap/PacketStreamFilter.cpp:143-149 | With allowed payloads only, a bad header is never met, wherever the stream is cut |
| `Framing.DrainedIsEverything` | src/lib/inputleap/PacketStreamFilter.cpp:52-86 | Once all bytes are there and no packet is ready, exactly the sent payloads have been delivered |
| `Framing.UndeliveredIsReady` | src/lib/inputleap/PacketStreamFilter.cpp:124-128 | Once all bytes are there and not all payloads have been delivered, a packet is ready |
| `Framing.BadHeaderIsBadPayload` | src/lib/inputleap/PacketStreamFilter.cpp:143-149 | A bad header stands before a payload of zero length or above the limit, after everything before it was delivered |
| `PacketStream.PacketStreamFilter.Write` | src/lib/inputleap/PacketStreamFilter.cpp:88-100 | The outgoing bytes are the frames of all payloads written, in order |
| `PacketStream.PacketStreamFilter.ReadPacketSize` | src/lib/inputleap/PacketStreamFilter.cpp:130-152 | Takes a complete header and keeps the place in the received bytes; a bad length empties the buffer, is announced and is the only failure |
| `PacketStream.PacketStreamFilter.Read` | src/lib/inputleap/PacketStreamFilter.cpp:52-86 | Returns exactly the next bytes of the packet in progress, at most what is left of it, only if the whole packet is there, and keeps the place |
| `PacketStream.PacketStreamFilter.ReadMore` | src/lib/inputleap/PacketStreamFilter.cpp:154-186 | Takes in pieces up to a format error; reports exactly the change from not ready to ready; readiness is never lost |
| `PacketStream.PacketStreamFilter.FilterEvent` | src/lib/inputleap/PacketStreamFilter.cpp:188-211 | Input-ready is passed on exactly on becoming ready, shutdown exactly if no packet is in progress, and after a format error nothing is taken in any more |
| `PacketStream.PacketStreamFilter.DropInput` | src/lib/inputleap/PacketStreamFilter.cpp:43-50 | Closing drops the buffered bytes and leaves nothing ready |
| `PacketStream.Feed` | src/lib/inputleap/PacketStreamFilter.cpp:188-211 | No event delivers anything, and without error or closing everything on offer has been taken in |
| `PacketStream.Serve` | src/lib/inputleap/PacketStreamFilter.cpp:52-86 | A read on a ready filter returns the smaller of the size asked for and what is left of the packet, any other nothing; reads grouped by packet stay grouped by packet: a read ends a group exactly if it ends a packet |
| `PacketStream.Play` | src/lib/inputleap/PacketStreamFilter.cpp:52-211 | Any operations on a filter: the reads, none of them empty, grouped by packet, are what it has delivered, and without error or closing it has taken in all that arrived |
| `PacketStream.Session` | src/lib/inputleap/PacketStreamFilter.cpp:52-211 | Over every sequence of arrivals, reads, shutdown, other events and closing: the reads, grouped by packet, are what the received bytes frame; an error stands at a bad header with nothing delivered after it; if nothing arrives after it, a shutdown is announced if and only if fewer than four bytes follow the delivered packets or there was an error |
| `PacketStream.Drain` | src/lib/inputleap/PacketStreamFilter.cpp:52-86 | After any operations with everything arrived, reading any number of bytes at a time until nothing is ready comes to an end, with exactly the payloads sent, each read within one |
| `PacketStream.Transfer` | src/lib/inputleap/PacketStreamFilter.cpp:52-211 | For all allowed payloads, every cutting of their frames and all read sizes, the reads are a prefix of the payloads, none crosses a boundary, all are delivered once everything has arrived and nothing is ready, and a shutdown is announced if and only if it does not cut off a packet whose header has arrived |
| `PacketStream.TruncatedPacketHidesShutdown` | src/lib/inputleap/PacketStreamFilter.cpp:200-207 | A shutdown that cuts a packet off after its header is never announced, whatever is then read |
| `PacketStream.AnyTransfer` | src/lib/inputleap/PacketStreamFilter.cpp:52-186 | For payloads of any length, everything before the first that is empty or above the limit is delivered and nothing after it; once drained, an error was reported if and only if there is such a payload |
| `WakeUp.ClientStream.ReadAll` | src/lib/client/ServerProxy.cpp:235-353 | Reads that add up to what is left of a packet finish exactly that packet, and reads of nothing change nothing |
| `WakeUp.ClientStream.HandleHello` | src/lib/client/Client.cpp:668-707 | Talking exactly if hello is accepted, with its version, and an event queued exactly if more is ready; reads of exactly the packet finish it |
| `WakeUp.ClientStream.ParseMessage` | src/lib/client/ServerProxy.cpp:235-353 | Reading goes on exactly after a message that is understood; a refused transfer message stops it without disconnecting and without reading |
| `WakeUp.ClientStream.ReadMessage` | src/lib/client/ServerProxy.cpp:105-145 | What becomes of a message is told by the place in front of it; a refused one leaves a packet ready exactly if it has arguments or a whole packet behind it |
| `WakeUp.ClientStream.HandleData` | src/lib/client/ServerProxy.cpp:105-150 | All messages before the last were understood; it ends drained, short, hung up or refused by the place and kind of that one, and the stream is given up only then; a live stream is left with a packet ready if and only if it was refused and leaves one; with parsers that read exactly their packets, it ends at the first whole buffered packet that is short, deadly or refused |
| `WakeUp.ClientStream.Dispatch` | src/lib/client/Client.cpp:494-495 | A ready packet goes to hello or to the proxy, and does what they do |
| `WakeUp.ClientStream.SocketReady` | src/lib/inputleap/PacketStreamFilter.cpp:154-211 | What the socket has is taken in up to a bad header, and a handler runs exactly if a packet has become ready |
| `WakeUp.ClientStream.QueuedReady` | src/lib/client/Client.cpp:701-706 | A handler runs exactly if the faked event is waiting |
| `WakeUp.Happen` | src/lib/client/ServerProxy.cpp:105-150 | One step of the event loop, as a relation between the states before and after |
| `WakeUp.Run` | src/lib/client/ServerProxy.cpp:105-150 | Every run, state by state; a wake-up is lost in the end if and only if a refusal left a packet and the stream was not deleted since; a stream is opening if and only if it was neither connected nor deleted, gone once deleted, and waits for hello only while no whole packet has come |
| `WakeUp.LostStep` | src/lib/inputleap/PacketStreamFilter.cpp:180-185 | A step loses a wake-up only by a refusal that leaves a packet, and only deleting the stream ends the loss |
| `WakeUp.LostIff` | src/lib/client/ServerProxy.cpp:105-150 | Over a whole run the same, both directions |
| `WakeUp.RunReadsInput` | src/lib/inputleap/PacketStreamFilter.cpp:154-186 | On a live stream the reader's place is one in what the socket has brought, all of it unless a bad header stopped it, and so is the place of every message that ended a handler |
| `WakeUp.VersionAt` | src/lib/client/Client.cpp:678-699 | The version that decides is the one of the step that took hello |
| `WakeUp.RefusalExplained` | src/lib/client/ServerProxy.cpp:318-323 | A refusal that loses a wake-up: a version below 1.7 in the step that took hello, all messages of the batch before it understood, a transfer message, at its place in what the socket has brought |
| `WakeUp.NeverLost` | src/lib/client/ServerProxy.cpp:318-323 | With version 1.7, or without transfer messages, no wake-up is ever lost |
| `WakeUp.FirstRefused` | src/lib/client/ServerProxy.cpp:318-323 | A refused first message with arguments leaves them without an event |
| `Conversations.WholeGrows` | src/lib/inputleap/PacketStreamFilter.cpp:154-186 | The whole packets in a beginning of the input are the first ones in the input |
| `Conversations.AheadOfFirst` | src/lib/inputleap/PacketStreamFilter.cpp:52-86 | After the first n whole packets, the others are ahead |
| `Conversations.NextAhead` | src/lib/inputleap/PacketStreamFilter.cpp:124-152 | A reader between packets is ready exactly for the next one; if it is not, with all input there or at a bad header, it has read all whole packets |
| `Conversations.TalkTells` | src/lib/client/ServerProxy.cpp:105-150 | Reading messages keeps the account of which packets were read, and why reading ended |
| `Conversations.RunTells` | src/lib/client/ServerProxy.cpp:105-150 | So does every run: what was read is a prefix of the packets of the whole input, all passed; hanging up and a lost wake-up each have a packet as their reason |
| `Conversations.FateOfPackets` | src/lib/client/ServerProxy.cpp:105-150 | Whatever the cutting of the input, with no event queued: still greeting if and only if no whole packet has come; hung up if and only if hello is not accepted or a short or deadly packet comes before any refused transfer message; a wake-up lost if and only if a refused transfer message comes first; else all whole packets have been read |
| `WakeUp.RefusedTransferLosesWakeUp` | src/lib/client/ServerProxy.cpp:318-323 | It happens: hello with version 1.6, then one transfer message with arguments, and nothing that comes later brings the packet back |
| `MouseCompression.ServerProxy.FlushCompressedMouse` | src/lib/client/ServerProxy.cpp:389-402 | The cursor goes exactly where the held-back motion leads, and nothing is held back any more |
| `MouseCompression.ServerProxy.MouseMove` | src/lib/client/ServerProxy.cpp:724-757 | An absolute motion is held back, replacing all others, or forwarded, or ignored, and which |
| `MouseCompression.ServerProxy.MouseRelativeMove` | src/lib/client/ServerProxy.cpp:759-789 | A relative motion is added to those held back, or forwarded, or ignored, and which |
| `MouseCompression.ServerProxy.EnterScreen` | src/lib/client/ServerProxy.cpp:536-555 | Entering discards held-back motion and is seen at its own position |
| `MouseCompression.ServerProxy.FlushAndCall` | src/lib/client/ServerProxy.cpp:557-568 | Keys, buttons, the wheel and leaving are seen where the held-back motion leads |
| `MouseCompression.ServerProxy.Handle` | src/lib/client/ServerProxy.cpp:235-353 | One message keeps the log in step with forwarding at once, except as the last one of a misordered batch |
| `MouseCompression.ServerProxy.HandleData` | src/lib/client/ServerProxy.cpp:105-150 | What the screen sees is the keys, buttons, wheel, leaves and enters of the messages, each at the last place given, moved by the relative motions since; the position at the end of the batch is so if and only if the batch is not misordered, and the same as with forwarding at once; then nothing is held back |
| `MouseCompression.DirectMeans` | src/lib/client/ServerProxy.cpp:724-789 | Forwarding every motion at once puts the cursor at the last counted move or enter, moved by the counted relative motions since, and shows every other message there |
| `MouseCompression.DirectAllMeans` | src/lib/client/ServerProxy.cpp:105-150 | The same over a connection, batch by batch |
| `MouseCompression.SameContinuation` | src/lib/client/ServerProxy.cpp:105-150 | Two logs seen alike are seen alike however they go on |
| `MouseCompression.Connection` | src/lib/client/ServerProxy.cpp:105-150 | Over a whole connection without misordered batches, up to the first message that hangs up or is refused, what the screen sees and where the cursor ends are those of forwarding every motion at once; between batches nothing is held back; the last batch is seen alike up to that message |
| `MouseCompression.AbsoluteOvertakesRelative` | src/lib/client/ServerProxy.cpp:738-756 | A final absolute motion is forwarded before the relative motion held back |
| `MouseCompression.RelativeOvertakesAbsolute` | src/lib/client/ServerProxy.cpp:773-788 | A final relative motion is forwarded before the absolute motion held back, and lost |
| `MouseCompression.RefusedTransferHoldsMotion` | src/lib/client/ServerProxy.cpp:318-323 | A refused transfer message leaves motion held back after the batch |
| `EventQueues.SimpleEventQueueBuffer.GetEvent` | src/lib/base/SimpleEventQueueBuffer.cpp:52-62 | Takes the id put in first, if there is one, and keeps the flag true to the queue |
| `EventQueues.SimpleEventQueueBuffer.AddEvent` | src/lib/base/SimpleEventQueueBuffer.cpp:64-73 | Puts an id in last and keeps the flag true to the queue |
| `EventQueues.ChosenIdIsFree` | src/lib/base/EventQueue.cpp:348-360 | A new id is not in use if and only if a recycled one is at hand or there are fewer than 2^32 events |
| `EventQueues.SaveKeepsPartition` | src/lib/base/EventQueue.cpp:348-365 | Saving keeps ids in use and recycled ids disjoint, without duplicates, and together exactly 0 to n-1, and overwrites no event |
| `EventQueues.RemoveKeepsPartition` | src/lib/base/EventQueue.cpp:367-383 | Removing keeps them so |
| `EventQueues.WaitingPush` | src/lib/base/EventQueue.cpp:212-225 | Putting an event under a free id in front of the buffer adds it last to the waiting events; taking it back undoes that |
| `EventQueues.WaitingPop` | src/lib/base/EventQueue.cpp:367-383 | Taking the id at the back of the buffer takes the oldest waiting event and no other |
| `EventQueues.OnePerId` | src/lib/base/EventQueue.cpp:348-383 | As many ids are in use as events wait |
| `EventQueues.EventQueue.SaveEvent` | src/lib/base/EventQueue.cpp:348-365 | The event is stored, under an id that was not in use if and only if a recycled one was at hand or fewer than 2^32 events were stored |
| `EventQueues.EventQueue.RemoveEvent` | src/lib/base/EventQueue.cpp:367-383 | The event under the id is returned and removed; an unknown id changes nothing |
| `EventQueues.EventQueue.AddEventToBuffer` | src/lib/base/EventQueue.cpp:212-225 | The event comes last, or nothing changes if the buffer refuses it |
| `EventQueues.EventQueue.GetEvent` | src/lib/base/EventQueue.cpp:110-150 | The oldest waiting event is returned and removed |
| `EventQueues.EventQueue.AddEvent` | src/lib/base/EventQueue.cpp:188-210 | Unknown, system and timer events change nothing; quit and ordinary events are dispatched if immediate, wait for the loop before it begins, and else are queued unless refused |
| `EventQueues.EventQueue.BeginLoop` | src/lib/base/EventQueue.cpp:57-72 | The pending events follow what is queued, in order, without those refused |
| `EventQueues.EventQueue.SetBuffer` | src/lib/base/EventQueue.cpp:83-108 | What was queued is discarded |
| `EventQueues.SurvivorsStep` | src/lib/base/EventQueue.cpp:57-72 | How the events accepted so far, given by the operations alone, grow with one more operation |
| `EventQueues.FirstInFirstOut` | src/lib/base/EventQueue.cpp:57-225 | Over every run, delivered, queued and pending events together are the added events less the refused ones, each once and in order; after buffers were replaced they are a subsequence of those, with exactly what was discarded missing |
| `EventQueues.AllDelivered` | src/lib/base/EventQueue.cpp:57-81 | Once the loop has begun, as many gets as events wait deliver all accepted quit and ordinary events, in the order they were added |
| `EventQueues.AcceptedPlus` | src/lib/base/EventQueue.cpp:67-72 | Which pending events a buffer takes: each is judged by its own number |
| `EventQueues.AdoptDiscards` | src/lib/base/EventQueue.cpp:83-108 | A new buffer starts empty, what was queued is discarded, and what waits for the loop is not |
| `EventQueues.Run` | src/lib/base/EventQueue.cpp:57-225 | Over every run, with any refusals and replacements of the buffer, the indexed queue delivers what the plain queue delivers, as long as fewer than 2^32 events wait: a subsequence of the accepted quit and ordinary events, a prefix if no buffer was replaced; immediate ones are all dispatched in order |
| `PriorityQueues.FrontIsLeast` | src/lib/base/PriorityQueue.h:59-64 | The front of a heap is its least element |
| `PriorityQueues.UniformCountdown` | src/lib/base/EventQueue.cpp:399-402 | Subtracting the same time from every timer in place keeps the heap |
| `PriorityQueues.SiftDownStep` | src/lib/base/PriorityQueue.h:59-64 | Swapping with the smaller child moves the one place where the order fails downwards |
| `PriorityQueues.SiftUpStep` | src/lib/base/PriorityQueue.h:53-57 | Swapping with the parent moves it upwards |
| `PriorityQueues.PriorityQueue.Push` | src/lib/base/PriorityQueue.h:53-57 | The element is added and the heap kept |
| `PriorityQueues.PriorityQueue.Top` | src/lib/base/EventQueue.cpp:404-410 | The front is an element of least remaining time |
| `PriorityQueues.PriorityQueue.Pop` | src/lib/base/PriorityQueue.h:59-64 | Exactly the front is removed and the heap kept |
| `PriorityQueues.PriorityQueue.Erase` | src/lib/base/PriorityQueue.h:66-71 | Exactly the given element is removed and the heap rebuilt |
| `PriorityQueues.PriorityQueue.Subtract` | src/lib/base/EventQueue.cpp:399-402 | Every timer has the elapsed time less, and the heap is kept |
| `Stopwatches.Stopwatch.DoReset` | src/lib/base/Stopwatch.cpp:39-53 | Returns the running time since the last reset, and starts counting afresh |
| `Stopwatches.Stopwatch.DoStop` | src/lib/base/Stopwatch.cpp:55-65 | The running time stands still |
| `Stopwatches.Stopwatch.DoStart` | src/lib/base/Stopwatch.cpp:67-78 | The running time goes on from where it stood |
| `Stopwatches.Stopwatch.DoSetTrigger` | src/lib/base/Stopwatch.cpp:80-85 | It stands still until the next reading |
| `Stopwatches.Stopwatch.DoGetTime` | src/lib/base/Stopwatch.cpp:87-101 | Returns the running time since the last reset; the reading of a triggered stopwatch starts it |
| `Stopwatches.Measure` | src/lib/base/Stopwatch.cpp:39-101 | Over every sequence of calls, each reading is the time during which the stopwatch ran since its last reset |
| `Stopwatches.CallMeans` | src/lib/base/Stopwatch.cpp:39-101 | What each call means for the running time from then on |
| `Stopwatches.PauseIsNotCounted` | src/lib/base/Stopwatch.cpp:55-78 | Five seconds, a pause of two and three seconds are read as eight |
| `Stopwatches.TriggerStartsIt` | src/lib/base/Stopwatch.cpp:87-94 | A triggered stopwatch starts with its first reading |
| `Timers.CreateSync` | src/lib/base/EventQueue.cpp:227-261 | A new timer, stored with what is on the clock added, has its deadline a full duration from now |
| `Timers.DeleteSync` | src/lib/base/EventQueue.cpp:263-280 | After deletion the stored timers are again exactly those that are due |
| `Timers.CountdownSync` | src/lib/base/EventQueue.cpp:395-402 | Counting down is the same as moving the stopwatch's mark to the first reading: every stored time runs out exactly when it did |
| `Timers.OthersMiss` | src/lib/base/EventQueue.cpp:395-402 | A timer that does not fire runs out later by exactly the time between the two readings |
| `Timers.FiredRestarts` | src/lib/base/EventQueue.cpp:409-422 | The timer that fires has its full duration before it again, with nothing missed, or is gone if it is a one-shot |
| `Timers.CheckSync` | src/lib/base/EventQueue.cpp:385-425 | After a check, the stored timers are exactly those due by the history, each with exactly its time |
| `Timers.FrontIsRight` | src/lib/base/EventQueue.cpp:404-417 | Firing the front of the heap exactly if it has run out fires exactly when some timer has, and one that runs out first, with the number of its periods |
| `Timers.RightIsSafe` | src/lib/base/EventQueue.cpp:507-515 | A firing that is right comes after the full duration, as many times as it counts |
| `Timers.RightLogIsSafe` | src/lib/base/EventQueue.cpp:385-425 | So a history of right checks is safe: never early, a one-shot once, a deleted timer never |
| `Timers.FirstFiring` | src/lib/base/EventQueue.cpp:227-261 | By the entries alone: a first firing comes no earlier than the full duration after the creation |
| `Timers.NextFiring` | src/lib/base/EventQueue.cpp:413-422 | By the entries alone: a later one no earlier than the full duration after the one before, and none for a one-shot |
| `Timers.DeletedIsSilent` | src/lib/base/EventQueue.cpp:263-280 | By the entries alone: a deleted timer does not fire unless it is created anew |
| `Timers.TimerQueue.NewTimer` | src/lib/base/EventQueue.cpp:227-261 | The history gains the creation, and the timers stay in accord with it |
| `Timers.TimerQueue.DeleteTimer` | src/lib/base/EventQueue.cpp:263-280 | The history gains the deletion; deleting an unknown timer changes no timer |
| `Timers.TimerQueue.HasTimerExpired` | src/lib/base/EventQueue.cpp:385-425 | Fires if and only if a timer has run out, and then one that runs out first, with the number of its periods; the history gains the check |
| `Timers.TimerQueue.Reinsert` | src/lib/base/EventQueue.cpp:409-422 | The front timer is taken out, and put back with its full time unless it is a one-shot |
| `Timers.Run` | src/lib/base/EventQueue.cpp:227-425 | Over every run, each check fires if and only if a timer has run out, and then one that runs out first; so no timer fires before its full duration since its creation or last firing, a one-shot fires at most once, and a deleted timer never |
| `Timers.MissedTimeDelays` | src/lib/base/EventQueue.cpp:395-397 | A one-shot of one second does not fire 1.2 seconds after its creation, a check having missed 0.4 of them |
| `Timers.FiresWhenDue` | src/lib/base/EventQueue.cpp:409-415 | A timer of one second fires 2.5 seconds on, for two periods |
| `ClientProtocol.Client.Connect` | src/lib/client/Client.cpp:142-197 | From no stream: connecting, or idle with a failure sent, or noted for resume; with a stream nothing changes |
| `ClientProtocol.Client.Disconnect` | src/lib/client/Client.cpp:199-213 | From any phase: idle, with one failure or disconnection sent |
| `ClientProtocol.Client.CleanupScreen` | src/lib/client/Client.cpp:553-566 | The proxy and its handlers are gone, and the client is not ready |
| `ClientProtocol.Client.CleanupConnection` | src/lib/client/Client.cpp:539-551 | The stream is gone with every handler left for it |
| `ClientProtocol.Client.HandleConnected` | src/lib/client/Client.cpp:585-598 | The first report waits for hello, a second before hello changes nothing, and one after hello breaks the phases by taking the proxy's input away |
| `ClientProtocol.Client.HandleConnectionFailed` | src/lib/client/Client.cpp:600-609 | Idle, with a failure sent |
| `ClientProtocol.Client.HandleConnectTimeout` | src/lib/client/Client.cpp:611-619 | Idle, with a failure sent, whether or not the socket had reported |
| `ClientProtocol.Client.HandleLost` | src/lib/client/Client.cpp:621-637 | Idle, with a disconnection sent, from connecting or connected |
| `ClientProtocol.Client.HandleHello` | src/lib/client/Client.cpp:668-707 | Connected and not ready, or idle with a failure sent |
| `ClientProtocol.Client.HandleData` | src/lib/client/ServerProxy.cpp:105-150 | Connected, with the handshakes announced, up to the first command that ends the batch; then idle with exactly the disconnection or failure sent, or still connected after a refusal |
| `ClientProtocol.Client.HandleSuspend` | src/lib/client/Client.cpp:709-716 | Idle and suspended, to connect on resume exactly if it was connected |
| `ClientProtocol.Client.HandleResume` | src/lib/client/Client.cpp:718-726 | Connects if noted, and the note is cleared |
| `ClientProtocol.Client.Dispatch` | src/lib/client/Client.cpp:470-504 | An event goes to the handler that the stage says and does what the plain protocol says, unless it is a secure report after hello, and exactly then the phases are broken |
| `ClientProtocol.ClientApp.ScheduleClientRestart` | src/lib/inputleap/ClientApp.cpp:243-257 | One restart timer, however often it is asked for |
| `ClientProtocol.ClientApp.HandleClientRestart` | src/lib/inputleap/ClientApp.cpp:230-240 | The timer is gone and the client not stranded |
| `ClientProtocol.ClientApp.HandleNotice` | src/lib/inputleap/ClientApp.cpp:260-301 | A failure or disconnection leads to a restart timer or to quitting |
| `ClientProtocol.ClientApp.Recover` | src/lib/inputleap/ClientApp.cpp:230-301 | From every reachable state, handling what is queued and a connection attempt that works lead to a stream, to quitting, or to connecting on resume |
| `ClientProtocol.HearingByHandler` | src/lib/client/Client.cpp:470-504 | What the plain protocol does with an event is what the installed handler is for |
| `ClientProtocol.NextDoes` | src/lib/client/Client.cpp:585-726 | The plain protocol does what each step is to do to the fields |
| `ClientProtocol.TimeoutEnds` | src/lib/client/Client.cpp:611-619 | Nothing is connecting directly after a connect timeout, and a connecting client has lost its stream and sent a failure |
| `ClientProtocol.NextGoesOn` | src/lib/inputleap/ClientApp.cpp:230-301 | No step of the plain protocol strands a client that is going |
| `ClientProtocol.NeverStranded` | src/lib/inputleap/ClientApp.cpp:230-301 | Over every run a connection, a restart, a notice, a connection on resume or quitting is under way, and a client that may restart quits if and only if its screen failed |
| `ClientProtocol.Happen` | src/lib/client/Client.cpp:585-726 | Every event changes the fields as stated field by field for its kind: a connect timeout ends a connecting client with a failure, a keep-alive alarm a connected one, and so on for suspend, resume, notices, restarts and each report of the stream; the three phases are kept if and only if it is not a secure report after hello |
| `ClientProtocol.Run` | src/lib/inputleap/ClientApp.cpp:230-301 | Every run, state by state, up to the first secure report after hello: each step does to the fields what its kind is to do; every state is idle, connecting or connected, with at most one restart timer, and something under way; directly after a connect timeout none is connecting, and a failure has been sent if one was; the assertions in setupScreen and setupTimer hold |
| `ClientProtocol.SecondReportBreaks` | src/lib/client/Client.cpp:585-598 | After connecting and hello, another secure report leaves the proxy there and the input with handle_hello |
| `Utf8.FromUTF8` | src/lib/base/Unicode.cpp:628-802 | Each step takes at least one byte and no more than remain |
| `Utf8.EncodeShape` | src/lib/base/Unicode.cpp:804-857 | An encoding has the length that its first byte announces, continuation bytes after it, and the value and minimum of that length |
| `Utf8.EncodeIsBigEndian` | src/lib/base/Unicode.cpp:804-857 | The shortest length that has room, its mark, and the bits of the code six at a time with the highest first |
| `Utf8.DecodeEncode` | src/lib/base/Unicode.cpp:804-857 | Decoding an encoded code gives it back and takes exactly its bytes, whatever follows; U+FFFE and U+FFFF are refused |
| `Utf8.EncodeDecode` | src/lib/base/Unicode.cpp:628-802 | An accepted step has read exactly the encoding of its code, which is valid: there is no overlong form |
| `Utf8.SingleTaken` | src/lib/base/Unicode.cpp:636-672 | A byte below 0x80 is itself; one that cannot begin a sequence is skipped alone |
| `Utf8.ShortTaken` | src/lib/base/Unicode.cpp:675-680 | A sequence that wants more bytes than there are takes them all |
| `Utf8.BrokenTaken` | src/lib/base/Unicode.cpp:728-776 | A sequence that breaks off takes exactly the bytes before the one that does not belong |
| `Utf8.WholeTaken` | src/lib/base/Unicode.cpp:770-801 | A complete sequence takes all its bytes, be its code accepted or not |
| `Utf8.StrayIsAlone` | src/lib/base/Unicode.cpp:628-802 | After a stray byte the decoder goes on with the next one and loses nothing else |
| `Utf8.BrokenIsAlone` | src/lib/base/Unicode.cpp:628-802 | After a sequence that breaks off it goes on from there, if there are as many bytes as were announced |
| `Utf8.DecodedOfEncoded` | src/lib/base/Unicode.cpp:628-857 | The decoder takes a string of encodings apart as it was put together |
| `Utf8.EncodedOfDecoded` | src/lib/base/Unicode.cpp:628-857 | A string without malformed pieces is the encoding of what it is decoded to |
| `Utf8.UniqueDecomposition` | src/lib/base/Unicode.cpp:804-857 | Different lists of valid codes have different encodings |
| `Utf8.IsUTF8` | src/lib/base/Unicode.cpp:114-124 | Accepts a byte string if and only if it is a concatenation of encodings of valid codes |
| `Utf16.UnitsWellFormed` | src/lib/base/Unicode.cpp:200-210 | Units written for scalars are well-formed UTF-16 |
| `Utf16.UTF8ToUTF16` | src/lib/base/Unicode.cpp:178-214 | For every byte string, the result is well-formed and is that of the decoded codes with replacements; errors are reported if and only if a code exceeds the range |
| `Utf16.StrayIsReplaced` | src/lib/base/Unicode.cpp:191-211 | A stray byte becomes one replacement character, and what follows it is kept |
| `Utf16.PairOfBits` | src/lib/base/Unicode.cpp:200-210 | One unit, or ten bits in a high and ten in a low surrogate |
| `Utf16.ScalarsOfUnits` | src/lib/base/Unicode.cpp:528-587 | Reading the units of scalars gives the scalars |
| `Utf16.UTF16ToUTF8` | src/lib/base/Unicode.cpp:528-587 | Errors are reported if and only if the units, after the byte order mark, are not well-formed; the result encodes the scalars read |
| `Utf16.SwapExchanges` | src/lib/base/Unicode.cpp:48-63 | Swapping exchanges the two bytes of a unit |
| `Utf16.SwappedIsRead` | src/lib/base/Unicode.cpp:528-554 | Units in the other byte order, after a mark in that order, are read as they were meant |
| `Utf16.LoneSurrogates` | src/lib/base/Unicode.cpp:555-584 | A lone low surrogate is replaced alone, a high one takes the unit after it along |
| `Utf16.ThereAndBack` | src/lib/base/Unicode.cpp:178-214 | On accepted strings, to UTF-16 and back is the identity if and only if all codes are below 0x110000 and the first is not a byte order mark |
| `Utf16.BackIsAccepted` | src/lib/base/Unicode.cpp:528-587 | What comes back is accepted as UTF-8 if and only if no noncharacter was read |
| `Utf16.UTF8ToUCS4` | src/lib/base/Unicode.cpp:154-176 | The words are the decoded codes, with replacements for malformed pieces |
| `Utf16.UCS4ToUTF8` | src/lib/base/Unicode.cpp:493-526 | The result encodes the words after the byte order mark; errors are reported if and only if a word cannot be encoded |
| `Utf16.SwapTurnsRound` | src/lib/base/Unicode.cpp:65-84 | Swapping turns the four bytes of a word round |
| `Utf16.SurrogateWordIsReplaced` | src/lib/base/Unicode.cpp:808-812 | A word that is no code becomes EF BF BD |
| `Utf16.StrayIsReplaced32` | src/lib/base/Unicode.cpp:167-173 | A stray byte becomes one replacement character |
| `Utf16.ThereAndBack32` | src/lib/base/Unicode.cpp:154-176 | On accepted strings, to UCS-4 and back is the identity if and only if the first code is not the byte order mark |
| `CommandLine.SearchDoubleQuotes` | src/lib/inputleap/ArgParser.cpp:505-525 | A reported window lies between two double quotes after the start |
| `CommandLine.SplitCommandString` | src/lib/inputleap/ArgParser.cpp:459-503 | The loop over spaces with its moving quote window computes the split |
| `CommandLine.AssembleCommand` | src/lib/inputleap/ArgParser.cpp:553-581 | The iterator stays inside the list if and only if ignored arguments have their parameters; then the kept arguments, quoted if they contain a space, are joined by spaces, and quoted in place in the caller's list |
| `CommandLine.AllKept` | src/lib/inputleap/ArgParser.cpp:558-573 | Without the ignored argument everything is kept, and quoted in place |
| `CommandLine.IgnoredGoes` | src/lib/inputleap/ArgParser.cpp:559-562 | The ignored argument goes with its parameters, whatever they are, and the rest is judged anew |
| `CommandLine.CommandAsText` | src/lib/inputleap/ArgParser.cpp:564-573 | An assembled command as text |
| `CommandLine.QuotesComeInPairs` | src/lib/inputleap/ArgParser.cpp:553-581 | After any argument of an assembled command there is a pair of quotes or no quote at all |
| `CommandLine.WindowMovesOn` | src/lib/inputleap/ArgParser.cpp:475-481 | At each separator the window becomes that of the next quoted argument, or lies before all that follows, although it is searched anew from index 1 after the last pair |
| `CommandLine.SplitReachesEnd` | src/lib/inputleap/ArgParser.cpp:472-498 | Spaces inside quotes do not end an argument |
| `CommandLine.SplitJoined` | src/lib/inputleap/ArgParser.cpp:459-503 | Splitting from the start of any argument yields it and all that follow |
| `CommandLine.RoundTrip` | src/lib/inputleap/ArgParser.cpp:459-534 | For arguments without quotes, empty ones included, splitting the joined command returns them if and only if they are not a single empty argument |
| `CommandLine.AssembleAndSplit` | src/lib/inputleap/ArgParser.cpp:459-581 | The same from the argument list, less the ignored arguments and their parameters; a single empty argument kept is lost |
| `Decimal.ValueOfToString` | src/lib/inputleap/FileChunk.cpp:34-40 | The digits printed for a number have that value |
| `Decimal.AppendDigit` | src/lib/inputleap/FileChunk.cpp:34-40 | The most significant digit comes first: a digit more stands for ten times as much |
| `Decimal.ExtractDigits` | src/lib/base/String.cpp:284-298 | A string of digits is read as its value, or as zero if that needs more than 64 bits |
| `Decimal.ExtractIs` | src/lib/base/String.cpp:284-298 | White space in front is skipped, a number of 64 bits is read, and what follows is left |
| `Decimal.ExtractSigned` | src/lib/base/String.cpp:284-298 | A sign may stand in front, and a negative number wraps around |
| `Decimal.WhatMayFollow` | src/lib/base/String.cpp:284-298 | A size may be followed by white space only, a dragged file's number by anything |
| `Decimal.SizeRoundTrip` | src/lib/base/String.cpp:284-298 | Printing and parsing a 64-bit size is the identity |
| `FileChunks.AcceptedAnnouncements` | src/lib/inputleap/FileChunk.cpp:84-110 | A size is accepted if and only if it is within the limit or overflows 64 bits, and read as itself or as zero |
| `FileChunks.Verdicts` | src/lib/inputleap/FileChunk.cpp:83-171 | Which messages get which report; all others are errors |
| `FileChunks.FileChunkAssembler.Assemble` | src/lib/inputleap/FileChunk.cpp:71-172 | An active transfer is the last one started, holds its pieces and is within its announced size, which is within the limit; each report is what the history calls for, a finish if and only if an end mark closes a complete transfer |
| `FileChunks.Receive` | src/lib/inputleap/FileChunk.cpp:71-172 | Over every sequence of messages, the same by the history alone, with the pieces since the last start as the file |
| `FileChunks.Deliver` | src/lib/inputleap/FileChunk.cpp:34-55 | A file within the limit, announced and cut in any way, arrives from any earlier state |
| `Clipboards.Clipboard.Clear` | src/lib/inputleap/Clipboard.cpp:38-56 | No format is left, and the clipboard is owned as of the time it was opened |
| `Clipboards.Clipboard.Add` | src/lib/inputleap/Clipboard.cpp:58-66 | Exactly the given format is set |
| `Clipboards.Unmarshall` | src/lib/inputleap/IClipboard.cpp:25-62 | Whether the loop steps past the NUL after the data is told exactly, and if not, the clipboard holds what the entries say, the last one for each known format |
| `Clipboards.WalkOfPacked` | src/lib/inputleap/IClipboard.cpp:39-57 | The reading loop walks through marshalled entries one by one and comes upon exactly them |
| `Clipboards.PackedOfWalk` | src/lib/inputleap/IClipboard.cpp:39-57 | Data through which the loop stays inside begins with the marshalled form of the entries it comes upon |
| `Clipboards.ReadableIff` | src/lib/inputleap/IClipboard.cpp:25-62 | The loop never steps past the end of the data if and only if it begins with a marshalled clipboard, whose entries are then those read |
| `Clipboards.CutOffCount` | src/lib/inputleap/IClipboard.cpp:35-48 | A count with nothing after it is left, NUL included, by the first read of an entry |
| `Clipboards.OverlongEntry` | src/lib/inputleap/IClipboard.cpp:46-56 | So is an entry that claims two bytes more than there are |
| `Clipboards.EntryWithNul` | src/lib/inputleap/IClipboard.cpp:46-56 | An entry that claims one byte more than there are is read with the NUL as its last byte |
| `Clipboards.Marshall` | src/lib/inputleap/IClipboard.cpp:64-110 | The count, then each format with its length and data, in order of formats |
| `Clipboards.MarshalledBytes` | src/lib/inputleap/IClipboard.cpp:64-110 | A marshalled clipboard byte by byte |
| `Clipboards.LoadedOfEntries` | src/lib/inputleap/IClipboard.cpp:25-110 | The entries of a clipboard load to that clipboard |
| `Clipboards.UnknownIsSkipped` | src/lib/inputleap/IClipboard.cpp:50-56 | An entry of an unknown format has no effect wherever it stands |
| `Clipboards.Copy` | src/lib/inputleap/IClipboard.cpp:121-146 | The copy has the same formats and bytes at the given time, and the original is unchanged |
| `Clipboards.ClipboardAssembler.Assemble` | src/lib/inputleap/ClipboardChunk.cpp:62-96 | Each mark's effect; a finish is reported if and only if an end mark for a known clipboard meets data of the expected size |
| `Clipboards.MixedIsLonger` | src/lib/inputleap/ClipboardChunk.cpp:72-80 | The pieces put together are those of one clipboard if and only if no other has a byte among them |
| `Clipboards.Receive` | src/lib/inputleap/ClipboardChunk.cpp:62-96 | Over every sequence of chunks, each report and the data by the history alone; a finish delivers its own clipboard's data if and only if no other had a byte since the last start mark |
| `Clipboards.FinishesUnderAnotherId` | src/lib/inputleap/ClipboardChunk.cpp:81-92 | Data sent for one clipboard can finish as that of another |
| `Clipboards.Deliver` | src/lib/inputleap/ClipboardChunk.cpp:31-96 | Data announced and cut in any way arrives from any earlier state |
| `Clipboards.CutClipboard` | src/lib/inputleap/StreamChunker.cpp:109-150 | The pieces are together the data, at least one, none longer than the chunk size |
| `Clipboards.Transport` | src/lib/inputleap/IClipboard.cpp:25-110 | Marshalling, cutting in any way, assembling and unmarshalling restore exactly the same formats and bytes |
| `ScreenList.Join` | src/lib/inputleap/IKeyState.cpp:76-96 | Names each followed by a colon after a first colon, nothing for none, an asterisk if one is among them |
| `ScreenList.ListAsText` | src/lib/inputleap/IKeyState.cpp:76-96 | Lists as text |
| `ScreenList.FoundIsListed` | src/lib/inputleap/IKeyState.cpp:46-64 | A name found between colons, anywhere in the list, is one of the names |
| `ScreenList.ListedIsFound` | src/lib/inputleap/IKeyState.cpp:46-64 | Every name is found between colons |
| `ScreenList.ContainsJoined` | src/lib/inputleap/IKeyState.cpp:46-64 | For names without colon and NUL, the substring search succeeds if and only if the name or the asterisk is in the set |
| `ScreenList.Split` | src/lib/inputleap/IKeyState.cpp:98-115 | Of a C string: whether the search for a colon fails is told exactly, and if not, the set of what stands between colons |
| `ScreenList.SegmentsOfTagged` | src/lib/inputleap/IKeyState.cpp:98-115 | What stands between the colons of a list is the set of its names |
| `ScreenList.JoinAndSplit` | src/lib/inputleap/IKeyState.cpp:76-115 | Splitting a joined set returns it, or only the asterisk if that is in it |
| `Metrics.HistogramBucket` | src/lib/base/PerformanceMetrics.cpp:39-47 | The loop computes the bucket, wrap-around included |
| `Metrics.BucketBrackets` | src/lib/base/PerformanceMetrics.cpp:39-47 | A sample is above the previous power of two and at most its bucket's own |
| `Metrics.LargestIsMisplaced` | src/lib/base/PerformanceMetrics.cpp:39-47 | The largest 64-bit number is not: it wraps to zero |
| `Metrics.BucketAtMost` | src/lib/base/PerformanceMetrics.cpp:39-47 | A sample is in a bucket up to b if and only if it is at most 2^b |
| `Metrics.CountUpToIsCountAtMost` | src/lib/base/PerformanceMetrics.cpp:81-100 | The histogram up to a bucket counts the samples up to its power of two |
| `Metrics.CountUpToAll` | src/lib/base/PerformanceMetrics.cpp:49-69 | All buckets together count every sample |
| `Metrics.RankExists` | src/lib/base/PerformanceMetrics.cpp:81-100 | Every rank up to the count is that of some sample |
| `Metrics.RankIs` | src/lib/base/PerformanceMetrics.cpp:88 | The rank is the least one that is at least that part of the count |
| `Metrics.CountIsCount` | src/lib/base/PerformanceMetrics.cpp:81-100 | Counting samples is counting their numbers |
| `Metrics.SumPlus` | src/lib/base/PerformanceMetrics.cpp:57 | The total of samples is the sum of its parts |
| `Metrics.PercentileBracket` | src/lib/base/PerformanceMetrics.cpp:81-100 | Below the last bucket the reported number is at least the sample of that rank, and less than twice it or one |
| `Metrics.PercentilesOrdered` | src/lib/base/PerformanceMetrics.cpp:102-114 | A higher rank is reported no lower |
| `Metrics.Metric.Record` | src/lib/base/PerformanceMetrics.cpp:49-69 | The count, the total modulo 2^64, the least, the greatest and the histogram are those of all samples recorded |
| `Metrics.Metric.Percentile` | src/lib/base/PerformanceMetrics.cpp:81-100 | The number reported is that of the first bucket at which the rank is reached; zero without samples |
| `Metrics.Observe` | src/lib/base/PerformanceMetrics.cpp:102-114 | For every sequence of samples, the count, total and extremes are theirs, p50, p95 and p99 are in order, and of each below the last bucket: that part of the samples is at most the number reported, less than that part is at most half of it, and it brackets the sample of its rank |
| `Cursor.Clamp` | src/lib/inputleap/CursorHandoff.h:27-34 | The result is in range, and a value in range is kept |
| `Cursor.Fraction` | src/lib/inputleap/CursorHandoff.h:36-45 | The fraction is strictly between 0 and 1 |
| `Cursor.FromFraction` | src/lib/inputleap/CursorHandoff.h:47-57 | The result is in range for every fraction |
| `Cursor.CarryBack` | src/lib/inputleap/CursorHandoff.h:36-57 | Mapping a position to an edge at least as long and back is the identity |
| `Cursor.CarryInWholeNumbers` | src/lib/inputleap/CursorHandoff.h:36-57 | The mapping in whole numbers: the middle of the pixel, scaled and rounded down |
| `Cursor.CarryMonotone` | src/lib/inputleap/CursorHandoff.h:36-57 | Mapping keeps the order of positions |
| `Cursor.CarryBackIff` | src/lib/inputleap/CursorHandoff.h:36-57 | There and back is the identity on the whole edge if and only if the other edge is not shorter |
| `Cursor.InsetOnEntry` | src/lib/inputleap/CursorHandoff.h:59-88 | The cursor is inside the screen and at least the inset away from the edge of entry; it is moved only away from that edge, and only to exactly the inset |
| `Cursor.NormalizeEnds` | src/lib/inputleap/CursorPosition.h:20-37 | Both ends of the desktop reach the ends of the range |
| `Cursor.NormalizeMonotone` | src/lib/inputleap/CursorPosition.h:20-37 | The order of positions is kept |
| `Cursor.NormalizeError` | src/lib/inputleap/CursorPosition.h:20-37 | The result is in 0 to 65535 and off by at most half a unit |
| `Cursor.NormalizeApart` | src/lib/inputleap/CursorPosition.h:20-37 | Neighbouring positions differ on desktops of up to 65536 pixels |
| `Cursor.NormalizeInjectiveIff` | src/lib/inputleap/CursorPosition.h:20-37 | All positions are told apart if and only if there are at most 65536 |
| `DragInfo.SanitizeDragFilename` | src/lib/inputleap/DragPayload.cpp:94-119 | The loops editing the name in place compute the safe name |
| `DragInfo.UnsafeCharacters` | src/lib/inputleap/DragPayload.cpp:100-105 | The unsafe bytes as characters |
| `DragInfo.ReservedIsDevice` | src/lib/inputleap/DragPayload.cpp:32-43 | Exactly the device names are reserved, in any case and with any extension |
| `DragInfo.PathIsDropped` | src/lib/inputleap/DragPayload.cpp:96-98 | The path in front of a name does not matter |
| `DragInfo.EndIsDropped` | src/lib/inputleap/DragPayload.cpp:108-110 | Neither do dots and blanks at its end |
| `DragInfo.BytesAreKept` | src/lib/inputleap/DragPayload.cpp:100-118 | Every other byte is kept, or replaced where it stands if it is unsafe; a reserved name gets an underscore in front |
| `DragInfo.NothingGetsAName` | src/lib/inputleap/DragPayload.cpp:112-114 | What is left without a name gets the fallback |
| `DragInfo.LastComponent` | src/lib/inputleap/DragPayload.cpp:94-99 | The part after the last slash or backslash |
| `DragInfo.SanitizedIsSafe` | src/lib/inputleap/DragPayload.cpp:94-119 | Every path gives a non-empty name without unsafe bytes, separators, commas or a dot or blank at its end, and no reserved name |
| `DragInfo.SafeIsKept` | src/lib/inputleap/DragPayload.cpp:94-119 | A safe name is left as it is |
| `DragInfo.SanitizedTwice` | src/lib/inputleap/DragPayload.cpp:94-119 | Sanitizing is idempotent |
| `DragInfo.SetupDragInfo` | src/lib/inputleap/DragInformation.cpp:92-105 | Each safe name and size followed by commas, in order, and their number |
| `DragInfo.NextIsEntry` | src/lib/inputleap/DragInformation.cpp:43-67 | A path and a size, each up to its comma, are read as the path's last component and the size's number, and reading goes on after them |
| `DragInfo.StopsWithoutEntry` | src/lib/inputleap/DragInformation.cpp:43-67 | Reading stops if and only if there is no such entry: a comma is missing or the path has no last component |
| `DragInfo.ParseDragInfo` | src/lib/inputleap/DragInformation.cpp:35-78 | The entries from the start, up to the given number or the first that is not complete |
| `DragInfo.FirstEntries` | src/lib/inputleap/DragInformation.cpp:41-68 | At most as many entries are read as are asked for, and a lower number reads the first of them |
| `DragInfo.ListedAsText` | src/lib/inputleap/DragInformation.cpp:92-105 | A list as text |
| `DragInfo.ParseOne` | src/lib/inputleap/DragInformation.cpp:43-67 | An entry as it was written is read as its safe name and size |
| `DragInfo.ParseListed` | src/lib/inputleap/DragInformation.cpp:35-78 | So is a whole list, from any place in the data |
| `DragInfo.RoundTrip` | src/lib/inputleap/DragInformation.cpp:35-105 | Parsing the set-up string yields exactly the safe names and sizes in order |

## Left out

- The graphical interface, task bar receivers, `main` functions, logging, option and key tables: user interface or single-branch code.
- Sockets, TLS, threads and condition variables: present only as arbitrary events and answers.
- The transfer version 2 messages themselves, `KeyState`, `Screen`, `Server` and the reconnect delays: any delay and any effect on the screen is allowed.
- Locale conversions (`UTF8ToText`, `textToUTF8`, wide characters) and the UCS-2 and UTF-32 variants: the first depend on the C library, the others only add variants of the proofs for UTF-16 and UCS-4.
- The event handler table, `EventTarget` and the blocking wait of `getEvent` with its timeout: `GetEvent` is its non-blocking part, and `Run` stops at any time instead of at a quit event.
- Other platforms' event buffers: only their answer, accept or refuse, is in the model. Producers running while `loop` drains the pending queue are excluded.
- `StreamBuffer` is a byte sequence; its chunk lists and `getSize` are not modelled.
- `CursorHandoffGuard`, `motion_reverses_handoff` and `motion_continues_handoff`: plain comparisons.
- Reading drag payloads, building shortcuts and link pages, file sizes and the file system: the size of a file is given.
- Relaxed atomics in the metrics, and counts that overflow 64 bits.
- EventQueues.EventQueue.AddEventToBuffer: requires a free id, because with 2^32 events waiting and none recycled the code overwrites one (`EventQueues.EventQueue.SaveEvent`).
- Clipboards.Unmarshall: where the loop steps past the NUL after the data, what the program does is undefined, and the model only reports it.
- CommandLine.AssembleCommand: the same where the iterator leaves the list.
- ScreenList.Split: where the search for a colon fails, what the program does is undefined, and the model only reports it.
- Cursor.CarryBack: over the reals, so rounding of `double` is not modelled.
- MouseCompression.ServerProxy.HandleData: positions are not clamped to the screen, sums of motions do not overflow 32 bits, and the position that `queryInfo` reports without flushing is not part of what is seen.
- Timers.TimerQueue.HasTimerExpired: the count of periods is not cut to 32 bits.
- ClientProtocol.Run: stops at a secure report after hello, which `Dispatch` shows to break the phases.
- Conversations.FateOfPackets: takes transfer messages to have arguments; a bare code is refused without loss if nothing is buffered behind it, which depends on the cutting (`Conversations.RunTells` covers it).
