# A verified model of the PLC service

The service stands between applications, which send it messages, and one power-line module on a serial port. It queues
meter readings for each address, matches answers to requests by an eight-bit number, keeps an archive of meters that
several applications share and the module mirrors, and speaks a framed byte protocol. This project models those parts
and proves what they keep over all inputs and all interleavings.

Objects that the program updates in place are classes here (`ConcurrentMeter`, `UartAgent`, `StreamReader`,
`NodeConfig`, `NodeManage`, `FileUpgrade`), and each method is proved against a function of the old state. The theorems
are about those functions, and, where threads meet, about sequences of atomic steps.

- **Meter readings** (`Metering`, `UartMatching`, `MeterSystem`, `MeterInvariant`, `ExactlyOnce`, `MeterOrder`,
  `MeterTimes`, `FrameNumbers`, `SerialLine`, `Verdicts`, `Completion`, `Progress`, `MeterAddresses`, `SpentThreads`).
  One step of `MeterSystem` is one region a thread runs under a lock; any interleaving of the threads, timers and
  received frames is a sequence of steps. One reader thread and one timer thread end the exchanges; neither takes the
  next before it has ended the last. The fields `lost`, `flight`, `accepted`, `dispatched`, `reports`, `makers`,
  `written`, `resolved` are history and never read by a step's decisions. A message that cannot be made a frame makes
  the program panic with the scheduler's lock held (`panicked`), a timer that finds no entry with the matcher's
  (`stopped`). After the first nothing leaves a queue and nothing is accepted, and reader and timer thread each report
  once more before they meet the lock and are `dead`; after the second no frame is written or taken any more.
- **Texts on the line** (`WireForm`). Addresses are kept as text and become six bytes when they are sent; letter case is
  not kept. The scheduler and the archive in memory tell addresses apart by text, the module by bytes.
- **Frames** (`Bytes`, `InfoField`, `AppData`, `UserData`, `Frame`, `FrameStream`). `Fault` marks an evaluation that
  panics or does not end. The program reads a length at a fixed index of its buffer; the model does the same, and says
  exactly when that goes wrong.
- **Archive** (`Archive`, `ArchiveSync`, `ArchiveRuns`, `ArchiveRequests`, `ArchiveAnswers`, `ArchiveLoad`,
  `NodeConfig`, `NodeManage`). `NodeConfig` has real object references: the reference count is the number of places that
  hold an object. Its methods are proved against functions on a `Book` of values, and the runs are about a `World`, the
  book and the module's own archive, which is keyed by six bytes.
- **Long loops and texts** (`Chunking`, `FileUpgrade`, `UpgradeRuns`, `HplcInfo`, `ModuleId`, `Topic`). An upgrade waits
  at one place for a result, and a write can replace the result before the waiting thread has the lock again; `History`
  counts the results asked for, reported by the module, taken and overwritten.

What the proofs found in the program, each stated with its exact condition:

- A step loses a request or poisons a lock exactly when a concurrent frame is not written or displaces a live entry, the
  reader ends an exchange with an answer that does not decode or with a report of the module, a message cannot be made a
  frame, or a timer finds no entry (`ExactlyOnce.LostGrows`). An address that lost a request has none in progress in any
  continuation, and waits up to a panic (`Completion.StuckForever`). A live entry is displaced after 256 frames
  (`FrameNumbers.NumbersWrapAround`).
- In every reachable state an accepted request can still be reported exactly when it is not blocked
  (`Progress.ReportedIffNotBlocked`): by a loss at its address, an exchange of its address that ended in nothing, a
  message in its queue, not behind it, that cannot be sent, a panic while it is queued, or because it is in nobody's
  hand and no thread is left to take it. The last happens even before a panic and without a loss, when reader and timer
  thread each hold an exchange of an address whose next message cannot be sent (`SpentThreads.NobodyLeft`). What is
  blocked is never reported (`Completion.BlockedForever`). No schema keeps such messages out: the file named at
  `src/service/concurrent_meter.rs:147` is not in `schema/`.
- One meter is asked at most once at a time exactly if no two address texts in use are one meter
  (`MeterAddresses.OneRequestPerMeter`).
- Order within an address holds exactly as long as no message is sent while older ones are queued
  (`MeterOrder.OrderKept`), which the metering flag could cause (`MeterOrder.MeteringBreaksOrder`) but the one dispatch
  thread never does (`MeterOrder.MeteringOffNeverOvertakes`).
- The limit of active addresses is not an invariant (`MeterOrder.AddressLimit`).
- A byte between frames makes the reader take the length from the wrong place (`FrameStream.StrayBytes`).
- One changed byte in an accepted frame is noticed exactly unless it is of the length and the length does not exceed the
  bytes there are (`Frame.OneWrongByte`).
- A request that is refused, denied or not answered is not undone: its earlier chunks stay, and so do the nodes its last
  chunk shared or gave up in memory before that (`ArchiveAnswers.RequestAnswered`, `NotConfirmedLists`,
  `RefusedShares`).
- The module holds the union of the applications' lists over all runs exactly if no two address texts are one address
  (`ArchiveRuns.UnionIffOneTextEach`); if two are, three confirmed requests take from the module a meter that is still
  listed (`ArchiveRuns.TwoTextsStrand`).
- An addition panics exactly when one of its new nodes has no form on the line, and when confirmed breaks the archive
  exactly when it brings a new address twice or with another protocol than a second text of it
  (`ArchiveSync.AddChunkKeeps`). A confirmed deletion panics exactly when it names a last reference twice, and parts
  memory from module exactly when a second text of a deleted address stays (`ArchiveSync.DelChunkKeeps`).
- After any run of upgrades of the module and of the meters, the next upgrade of the module, served well, succeeds
  exactly when its lock is still there and every result that was asked for or reported has been taken or overwritten
  (`UpgradeRuns.NextUpgrade`). The report that ends an upgrade of the module is neither, so a second one that is served
  like the first fails at its second segment, and with fewer than two segments never gives its lock back
  (`UpgradeRuns.UpgradeModuleTwice`); of upgrades of the module alone, in order, at most one succeeds
  (`UpgradeRuns.AtMostOneUpgrade`). An upgrade of the meters can take what is left (`UpgradeRuns.UpgradeMetersBetween`),
  and so can an answer that overwrites another (`UpgradeRuns.OverwritingCleans`).

Check everything with `dafny verify dfyconfig.toml`.

## Model

| member | source | states |
|---|---|---|
| WireForm.WireFolds | src/protocol/app_data/mod.rs:124-131 | two address texts become the same six bytes exactly when they differ in letter case only |
| WireForm.WireExists | src/protocol/app_data/mod.rs:124-131 | a text is an address exactly if it has twelve hexadecimal digits |
| WireForm.WirePlaces | src/protocol/app_data/mod.rs:124-131 | each byte is two digits in the order of the text, the first with the greater weight |
| WireForm.ProtocolIs | src/service/concurrent_meter.rs:209 | a protocol text is read exactly if it is decimal digits behind an optional plus sign and less than 256, as the number they write |
| Metering.ConcurrentMeter.HandleMeterReading | src/service/concurrent_meter.rs:272-302 | an arriving message is sent at once, queued or refused, by the limits, the waiting flag and the metering flag, or panics when it would be sent and cannot be; the whole new state and the answer |
| Metering.ConcurrentMeter.HandleNextRequest | src/service/concurrent_meter.rs:225-246 | after a report the oldest queued message goes out, or the address becomes idle; a message that cannot be sent is gone and the program panics |
| Metering.ConcurrentMeter.HandleCacheRequest | src/service/concurrent_meter.rs:317-337 | one visit to every address, in some order, each restarted if idle with a queue, up to a panic |
| Metering.ConcurrentMeter.SendReading | src/service/concurrent_meter.rs:187-223 | a message takes the next frame number and joins the end of the channel exactly if address, protocol and data have their form on the line; any other changes nothing and panics |
| UartMatching.UartAgent.Take | src/uart_agent.rs:200-239 | who owns a received frame: nobody (a report), a table entry, the slot, or nobody at all |
| UartMatching.UartAgent.BeginSerial | src/uart_agent.rs:102-131 | a serial message occupies the slot, and its thread waits unless it is a reply without origin |
| UartMatching.UartAgent.EndSerial | src/uart_agent.rs:124-156 | what the slot still holds when the wait ends is given to the timeout, and counted modulo 256; after an answer the count is zero |
| UartMatching.UartAgent.WriteConcurrent | src/uart_agent.rs:162-198 | only a written frame enters the table, under its number, over what was there |
| UartMatching.UartAgent.TakeTimedOut | src/uart_agent.rs:171-191 | a timer takes the entry of its number, whatever it is, and panics exactly when there is none |
| MeterSystem.SweepAllIsRun | src/service/concurrent_meter.rs:317-337 | the sweep under one lock, in any order, ends where a run of its one-address steps ends, panics included |
| MeterInvariant.InvKept | src/service/concurrent_meter.rs:225-337 | every step of every thread keeps: one place for each request in flight, until a panic a flag for each flight, the ledger of reports, conservation, the queue bound |
| MeterInvariant.InvHolds | src/service/concurrent_meter.rs:158-337 | hence every reachable state has them |
| ExactlyOnce.WaitingMeansOneOutstanding | src/service/concurrent_meter.rs:158-185 | in every reachable state an address has at most one request between dispatch and report, lost ones included; without a panic exactly one if it waits and none if it is idle |
| ExactlyOnce.ExactlyOncePlace | src/service/concurrent_meter.rs:158-246 | every accepted request is at exactly one place: reported once, outstanding at one place, or queued once; how the report came about is `Verdicts.VerdictsAreEarned` |
| Verdicts.VerdictsAreEarned | src/service/concurrent_meter.rs:158-185 | over all runs a timeout is reported only for a request whose row its own timer took, and an answer only for one whose row a reply with its number took, and decoded; the same for every exchange under way, reports and broken replies included |
| ExactlyOnce.LostGrows | src/uart_agent.rs:162-198 | losses and poisoned locks are final, and a step adds one exactly when it is a failed write, a displaced entry, an undecodable answer, an entry consumed by a report, a message that cannot be sent, or a timer without an entry |
| ExactlyOnce.NothingLost | src/service/concurrent_meter.rs:187-223 | nothing is lost and no lock poisoned exactly when no step of the run was one of six named mishaps |
| ExactlyOnce.WaitingIffInProgress | src/service/concurrent_meter.rs:225-337 | waiting means one request in the channel, the table or a handler's hand, at all addresses and with no lock poisoned, exactly when no step of the run was a mishap |
| Completion.StuckForever | src/service/concurrent_meter.rs:225-246 | an address that lost a request has none in progress in any continuation of the run, and waits up to a panic |
| Completion.BlockedForever | src/uart_agent.rs:200-260 | a blocked request is reported in no continuation of the run: at its address, or because reader and timer thread are gone, stopped or about to end |
| Completion.StoppedFreezes | src/uart_agent.rs:162-239 | after a panic under the matcher's lock no frame is written, received or taken; what is sent only queues up |
| Progress.ThreadsHold | src/uart_agent.rs:200-260 | in every reachable state each of the two threads holds at most one exchange, and a dead one none |
| Progress.ReportedIffNotBlocked | src/service/concurrent_meter.rs:158-246 | in every reachable state, panicked or not, some continuation reports an accepted request exactly when it is not blocked |
| Progress.LedToReport | src/uart_agent.rs:162-198 | such a continuation without a sweep: one thread that is not spent ends the exchanges of its address one after another, woken if idle by another message |
| Progress.CanComplete | src/service/concurrent_meter.rs:158-246 | before a panic, if one thread is not spent, exchanges alone, with nothing more accepted and no sweep, lead to a state without a panic in which every accepted request of every clear address is reported exactly once |
| Progress.RestMeansReported | src/service/concurrent_meter.rs:225-246 | when no frame is to be written and nothing can be taken or ended without a panic, nothing accepted is unreported at a clear address |
| Progress.SweepClears | src/service/concurrent_meter.rs:317-337 | a whole sweep, in any order, that meets no message that cannot be sent clears what only waited for it and leaves both threads as they were |
| SpentThreads.NobodyLeft | src/uart_agent.rs:171-260 | for any three addresses, a run with nothing lost and no panic after which a request can never be reported |
| Progress.EndsExactly | src/uart_agent.rs:171-260 | by which steps the reader and the timer thread end, exactly |
| Completion.LogsBounded | src/service/concurrent_meter.rs:158-185 | never more reports, and never more dispatches, than accepted requests |
| MeterAddresses.OneRequestPerMeter | src/service/concurrent_meter.rs:272-302 | over all runs with messages for these address texts no meter is asked twice at once, exactly when no two of the texts are one meter |
| MeterOrder.OrderKept | src/service/concurrent_meter.rs:272-302 | a step keeps accepted = dispatched then queued, for all addresses, exactly when it does not overtake |
| MeterOrder.OrderHolds | src/service/concurrent_meter.rs:225-302 | a run without overtaking keeps that order in every state |
| MeterOrder.FirstInFirstReported | src/service/concurrent_meter.rs:158-246 | and what was accepted is what was reported, then the one in flight, then the queue, in order |
| MeterOrder.MeteringOffNeverOvertakes | src/mqtt_handler.rs:229-238 | if no arrival sees the metering flag, nothing ever overtakes |
| MeterOrder.MeteringBreaksOrder | src/service/concurrent_meter.rs:293-302 | two arrivals that lose the order, once the flag is seen |
| MeterOrder.QueueBoundAndAging | src/service/concurrent_meter.rs:121-131 | no queue exceeds its bound; aging touches no queue and no waiting address, and removes exactly the idle old ones |
| MeterOrder.AddressLimit | src/service/concurrent_meter.rs:281-291 | an arrival keeps the limit exactly unless it wakes an idle address still in the map at the limit |
| MeterTimes.EntryMade | src/service/concurrent_meter.rs:281-291 | a message makes an entry for its address, queued, refused or lost, unless as many other addresses are waiting or have a queue as are allowed |
| MeterTimes.TimeIsOfLast | src/service/concurrent_meter.rs:281-291 | over all runs the time kept for an address is that of the last message that made its entry or was queued for it |
| MeterTimes.AgedExactly | src/service/concurrent_meter.rs:121-131 | aging removes an address exactly if it is idle, has an empty queue, and that message came at least the aging time ago |
| FrameNumbers.NumbersHold | src/protocol/frame.rs:220 | every held frame's number comes from the count at which it was made, for the request that holds it |
| FrameNumbers.OneFrameEach | src/uart_agent.rs:162-198 | no two places hold the same request frame |
| FrameNumbers.DistinctNumbers | src/protocol/frame.rs:249-256 | with fewer than 256 frames made during any outstanding one, outstanding numbers differ |
| FrameNumbers.NoMisrouting | src/uart_agent.rs:209-233 | then an answer reaches exactly the request its number was made for, and a write displaces nothing |
| FrameNumbers.CleanRunsLoseNothing | src/uart_agent.rs:189-194 | runs in that window whose messages can be sent, writes succeed and replies decode lose nothing |
| FrameNumbers.NumbersWrapAround | src/uart_agent.rs:191 | outside the window: a run that loses a request with every write successful |
| SerialLine.ResolvedExactlyOnce | src/uart_agent.rs:84-156 | serial requests are resolved once each, in the order written, by a frame of their own number or their timeout, before the next is written |
| SerialLine.ReportsConsume | src/uart_agent.rs:209-233 | a report of the module takes the slot or a table row exactly when the slot's message keeps an origin key and the report's number is theirs; otherwise nothing changes |
| SerialLine.TimeoutsInARow | src/uart_agent.rs:150-154 | over all runs, when no wait is open, the count of timeouts is the number of requests that ran out of time since the last that was answered, modulo 256; zero right after an answered wait |
| SerialLine.SentLast | src/protocol/frame.rs:249-256 | a message joins the end of the queue with the number of the frame it answers, or the next of the counter, which only then goes on |
| SerialLine.WrittenFirst | src/uart_agent.rs:102-131 | the oldest message is written and takes the slot, also one that is not waited for |
| InfoField.Encode | src/protocol/info_field.rs:159-187 | the encoder, filling an array in place, gives the packed bytes of the field |
| InfoField.InfoRoundTrip | src/protocol/info_field.rs:116-187 | a field survives encoding exactly when each part fits its bits |
| InfoField.InfoReencode | src/protocol/info_field.rs:116-187 | six bytes survive decoding, but for the unused bits of the upward layout, which are cleared |
| InfoField.DownPlaces | src/protocol/info_field.rs:159-178 | where each part of a downward field stands, as a number with its weight, the speed with its low byte first and the unit above it |
| InfoField.UpPlaces | src/protocol/info_field.rs:179-187 | the same for an upward field |
| AppData.AsFnNum | src/protocol/app_data/mod.rs:211-218 | the loop over the mark finds its lowest bit, and fails on none |
| AppData.FnNumRoundTrip | src/protocol/app_data/mod.rs:206-238 | every function number from 1 to 255 survives its bit map |
| AppData.FlagReencode | src/protocol/app_data/mod.rs:206-238 | a bit map survives with only its lowest mark bit |
| AppData.AppRoundTrip | src/protocol/app_data/mod.rs:299-329 | a data unit survives exactly when its data is absent or not empty |
| AppData.AppReencode | src/protocol/app_data/mod.rs:299-329 | accepted bytes survive but for the upper bits of the mark |
| AppData.AppFaults | src/protocol/app_data/mod.rs:206-238 | exactly which data units the program does not survive |
| AppData.AppErrors | src/protocol/app_data/mod.rs:299-317 | the error of every other data unit that is not accepted |
| AppData.AfnCodes | src/protocol/app_data/mod.rs:299-329 | the code of each function class, and that there are no others |
| AppData.AppPlaces | src/protocol/app_data/mod.rs:225-238 | class, mark, row and data stand in this order, the mark with the one bit of the place in the row |
| UserData.EncodeAddress | src/protocol/user_data.rs:45-77 | the loop over the relays writes source, relays and target, each reversed |
| UserData.AddressRoundTrip | src/protocol/user_data.rs:20-77 | addresses with any number of relays survive, an empty relay list as none |
| UserData.UserRoundTrip | src/protocol/user_data.rs:110-178 | user data survives exactly with an address for the classes that carry one, at most one relay and no empty data |
| UserData.UserReencodeExactly | src/protocol/user_data.rs:110-178 | accepted bytes survive exactly when they are in normal form |
| UserData.OffsetIs | src/protocol/user_data.rs:110-178 | where the data unit starts, from the mark and the relay level in the first byte, which stand at the same bits in both directions |
| UserData.UserErrors | src/protocol/user_data.rs:110-178 | an address that is cut off, and else the error of the data unit |
| UserData.AddressPlaces | src/protocol/user_data.rs:45-77 | the first six bytes are the source, last byte first, then each relay in order, the last six the target |
| UserData.NewUserPlaces | src/protocol/user_data.rs:110-178 | the six bytes of the information field that the program makes, and what follows them |
| Frame.CtrlRoundTrip | src/protocol/frame.rs:129-147 | every control value survives its byte |
| Frame.CtrlReencode | src/protocol/frame.rs:129-147 | every accepted control byte survives its value |
| Frame.CtrlPlaces | src/protocol/frame.rs:129-137 | the weights of direction, station and kind of line in the control byte |
| Frame.CalcChecksum | src/protocol/frame.rs:212-218 | the loop computes the sum of all bytes, added as numbers from the front, modulo 256 |
| Frame.SumIsTotal | src/protocol/frame.rs:212-218 | the sum that the theorems speak of is the plain sum modulo 256 |
| Frame.OneWrongByte | src/protocol/frame.rs:354-394 | an accepted frame with one byte changed is refused, with the error of its place, exactly unless the byte is of the length and the length does not exceed the bytes there are |
| Frame.NewFrame | src/protocol/frame.rs:223-256 | a new frame carries the sum of its body, and its own size exactly when that has sixteen bits |
| Frame.FramePlaces | src/protocol/frame.rs:223-256 | every byte of a frame the program makes: mark, size with the low byte first, control, information, address and unit, sum, tail |
| Frame.FrameRoundTrip | src/protocol/frame.rs:354-406 | a frame the program makes is read back equal exactly when its address, relays and data fit |
| Frame.FrameReencode | src/protocol/frame.rs:354-406 | accepted bytes are encoded again exactly when they are in normal form |
| Frame.NormalDecodesOnce | src/protocol/frame.rs:354-394 | two byte strings in normal form never decode to one frame |
| Frame.FrameFaults | src/protocol/frame.rs:354-394 | which byte strings with a sound header the decoder does not survive |
| Frame.FrameErrors | src/protocol/frame.rs:354-394 | for all bytes: which error, in the order of the tests, or which frame |
| FrameStream.ScanAt | src/protocol/frame.rs:288-308 | the cursor loop finds the first header and reads the length at index one of the whole buffer |
| FrameStream.StreamReader.ParseFrame | src/serial_port.rs:131-141 | exactly the bytes of a delivered frame leave the buffer |
| FrameStream.StreamReader.ReadResponse | src/serial_port.rs:106-129 | parse, then read one more piece, until a frame or an error |
| FrameStream.StreamReader.ReadFrames | src/uart_agent.rs:200-204 | the reader's loop delivers the frames, and leaves the bytes and the reason for stopping, that the theorems below are about |
| FrameStream.ParseStable | src/protocol/frame.rs:288-308 | more bytes never change a result that was not a request for more |
| FrameStream.PiecesDoNotMatter | src/serial_port.rs:105-142 | for every byte stream and every cut into pieces, frames, leftover and reason for stopping are those of the uncut bytes |
| FrameStream.FramesReadInOrder | src/serial_port.rs:105-142 | frames laid end to end come out in order, and the incomplete rest stays |
| FrameStream.SentIsRead | src/protocol/frame.rs:223-243 | what one program makes and sends another reads, frame for frame, however the line cuts it |
| FrameStream.ParseCut | src/serial_port.rs:131-141 | a frame cut short is not delivered |
| FrameStream.StrayBytes | src/protocol/frame.rs:288-308 | a frame behind stray bytes is delivered exactly when the two bytes at index one happen to be its size |
| FrameStream.OneStrayByte | src/protocol/frame.rs:301 | behind one stray byte only a frame of 26728 bytes is delivered |
| FrameStream.EndIs | src/serial_port.rs:106-129 | a reader out of frames stops as its stream does: closed by an empty piece, or by an error; what comes after is not read |
| FrameStream.BadFrameStops | src/uart_agent.rs:200-204 | a complete frame that is not accepted ends the reading with its own error, or a crash, and stays in the buffer |
| NodeConfig.SoundIsConsistent | src/service/node_config.rs:58-95 | one object for an address in all lists, and no dead key, mean: addresses once in a list, one protocol for each, index equal to the union |
| NodeConfig.CountOneIsLast | src/service/node_config.rs:175-205 | the reference count is one exactly when no other application has the address |
| NodeConfig.NodeConfig.AddNodeInfoExist | src/service/node_config.rs:117-154 | a known node is shared, an unknown one reported, another protocol refused; the sharing invariant stays |
| NodeConfig.NodeConfig.AddNodeInfoChecked | src/service/node_config.rs:156-164 | a new object enters list and index; the invariant stays if the address was new |
| NodeConfig.NodeConfig.ShouldRemoveNodeInfo | src/service/node_config.rs:175-205 | the last holder is told so, any other gives its reference up; the invariant stays |
| NodeConfig.NodeConfig.RemoveNodeInfoChecked | src/service/node_config.rs:207-216 | list and index lose the address, or it panics because the list has none, or fails because the index has none; the invariant stays exactly when nobody else had it |
| NodeConfig.NodeConfig.ClearAllApp | src/service/node_config.rs:236-239 | nothing is left |
| NodeConfig.NodeConfig.AddNodeInfos | src/service/node_config.rs:282-287 | an application's stored nodes enter in order, up to the first that does not fit |
| NodeConfig.NodeConfig.AddNodeInfosChecked | src/service/node_config.rs:289-294 | all confirmed nodes enter; the invariant stays if their addresses are new and different |
| NodeConfig.NodeConfig.RemoveNodeInfosChecked | src/service/node_config.rs:303-308 | any addresses leave in order, up to the first that is not there; the invariant stays if the application was alone with each |
| Archive.AddExistKeeps | src/service/node_config.rs:117-154 | the archive stays consistent and its index as it was |
| Archive.AddCheckedKeeps | src/service/node_config.rs:156-164 | a new address keeps the archive consistent |
| Archive.ShouldRemoveKeeps | src/service/node_config.rs:175-205 | giving up a shared node keeps it consistent; the answer true means the last holder |
| Archive.RemoveCheckedKeeps | src/service/node_config.rs:207-216 | taking an address off the index keeps it consistent exactly when nobody else lists it |
| ArchiveSync.NewNodesAre | src/service/node_manage.rs:76-94 | a chunk is refused exactly when it clashes with a known protocol; else the module is sent exactly its unknown nodes, in order |
| ArchiveSync.LastReferencesAre | src/service/node_manage.rs:141-155 | the module is sent exactly the nodes the application is alone with, in order, and the others are given up |
| ArchiveSync.AddAllConsistent | src/service/node_manage.rs:105-112 | confirmed new nodes keep the archive consistent exactly when no address comes twice |
| ArchiveSync.RemoveAllAre | src/service/node_manage.rs:166-173 | confirmed removal works out exactly when no address comes twice, and then removes just those |
| ArchiveSync.AddAgrees | src/service/node_manage.rs:96-112 | storing new nodes under their six bytes keeps module and memory together exactly when no two texts of one address have different protocols |
| ArchiveSync.AddChunkKeeps | src/service/node_manage.rs:309-341 | whatever the module answers, memory stays consistent and agrees with it, and nothing panics, exactly if the new nodes have their form on the line and, when confirmed, come once each and differ in protocol from no second text; when it is refused and when it panics |
| ArchiveSync.WithoutAgrees | src/service/node_manage.rs:157-173 | deleting by six bytes keeps module and memory together exactly when no second text of a deleted address stays |
| ArchiveSync.DelChunkKeeps | src/service/node_manage.rs:309-341 | the same for deletion, exactly unless a confirmed chunk names one last reference twice, which panics, or leaves a second text of an address the module gave up |
| ArchiveSync.DelChunkDone | src/service/node_manage.rs:141-173 | a confirmed deletion takes exactly its addresses off the application's list, and off index and module exactly those that no other application has |
| ArchiveRuns.StepKeeps | src/service/node_manage.rs:309-341 | one chunk of either kind goes well exactly when none of the conditions of `Fails` holds |
| ArchiveRuns.RunKeeps | src/service/node_manage.rs:343-371 | a whole run goes well, state by state, exactly when no event fails in the state it meets |
| ArchiveRuns.ModuleHoldsUnion | src/service/node_manage.rs:309-371 | if each address is in use under one text, any run of answered chunks with different addresses goes well, and the module holds exactly the union of the lists, with their protocols |
| ArchiveRuns.UnionIffOneTextEach | src/service/node_manage.rs:96-103 | over all runs with these texts the module holds the union exactly when no two of them are one address |
| ArchiveRuns.TwoTextsStrand | src/service/node_manage.rs:157-164 | for any two texts of one address, a run of three confirmed requests after which the module lacks a listed meter |
| ArchiveRequests.ClearEmpties | src/service/node_manage.rs:175-208 | a confirmed clear empties one application's list, touches no other, and leaves in the index what the others list; memory and module stay together exactly when no other lists a second text of what was taken off |
| ArchiveRequests.AddListsAll | src/service/node_manage.rs:65-112 | a confirmed addition puts exactly its nodes on the list; memory and module stay together exactly when no new node differs in protocol from a second text |
| ArchiveAnswers.RequestAnswered | src/service/node_manage.rs:343-371 | for any replies a request is done exactly when every chunk, in the state it meets, is; else its answer, memory and module are those of the first chunk that is not |
| ArchiveAnswers.RequestTouches | src/service/node_manage.rs:343-371 | nothing but the nodes of the chunks up to that one enters or leaves list, index or module, and no other application's list changes |
| ArchiveAnswers.AddAnswered | src/service/node_manage.rs:309-341 | an added chunk is refused exactly for a clash, panics exactly for a node without its form on the line, and else is answered as the module said if there was anything to send: denied is never done |
| ArchiveAnswers.DelAnswered | src/service/node_manage.rs:309-341 | a deleted chunk is answered as the module said exactly if it has last references, and panics exactly if a confirmed one has an address twice |
| ArchiveAnswers.NotConfirmed | src/service/node_manage.rs:332-338 | without a confirmation the index stays; denied, the module too |
| ArchiveAnswers.NotConfirmedLists | src/service/node_manage.rs:76-94 | what was only shared or given up in memory stays so when the module does not confirm the rest |
| ArchiveAnswers.RefusalNames | src/service/node_config.rs:117-154 | the refusal names both protocols of the first node that clashes |
| ArchiveAnswers.RefusedShares | src/service/node_manage.rs:76-94 | known nodes before the refused one are on the list of the application all the same |
| ArchiveAnswers.TenAtATime | src/service/node_manage.rs:343-371 | every chunk has ten nodes, the last one to ten |
| Chunking.ChunksJoin | src/service/node_manage.rs:343-371 | the chunks of a request, joined, are the request |
| ArchiveLoad.LoadIs | src/service/node_config.rs:167-173 | loading fails exactly when two stored entries give one address two protocols, else memory holds just what was stored |
| ArchiveLoad.DedupDistinct | src/service/node_manage.rs:447-455 | then removing equal nodes is removing equal addresses |
| ArchiveLoad.LoadAgrees | src/service/node_manage.rs:441-460 | a confirmed load into a cleared module panics exactly when a stored node has no form on the line; else the two agree exactly when no two stored texts of one address differ in protocol, in whatever order the applications came; no text is sent twice |
| ArchiveAnswers.StartAnswered | src/service/node_manage.rs:441-460 | a start sends the chunks in order up to the first that cannot be sent or is not confirmed, and is answered with that; the module has stored all before it |
| ArchiveAnswers.LoadStopsFirst | src/service/node_config.rs:167-173 | a load that fails stops at the first entry in conflict with those before it, names both protocols, and keeps those before it |
| ArchiveAnswers.DedupKeepsOrder | src/service/node_manage.rs:447-455 | more stored nodes only add to the end of what is sent |
| ArchiveLoad.ModuleHoldsUnionSinceLoad | src/service/node_manage.rs:309-460 | from the load on, over every answered run that follows, the module holds the union of the lists, if each address is in use under one text |
| NodeManage.NodeManage.AddChunkAcqFiles | src/service/node_manage.rs:76-112 | objects, module and answer change as one chunk of an addition says, or it panics before anything is sent |
| NodeManage.NodeManage.DelChunkAcqFiles | src/service/node_manage.rs:141-173 | the same for a deletion, which the module does by six bytes, or a panic |
| NodeManage.NodeManage.OperateAcqFiles | src/service/node_manage.rs:343-371 | objects, module and answer of a request, chunk by chunk, are those that `ArchiveAnswers.RequestAnswered` speaks of: it stops at the first chunk that is not done; repeats that are known, refused or denied, and any deletion, included |
| NodeManage.NodeManage.ClearAcqFiles | src/service/node_manage.rs:175-208 | a clear is the deletion of the application's own list |
| NodeManage.NodeManage.InitClearAcqFiles | src/service/node_manage.rs:424-439 | memory is cleared by any answer, the module only by a confirmation; without an answer there is no result and memory stays |
| NodeManage.NodeManage.LoadConfig | src/service/node_manage.rs:441-460 | the load, with its loop that drops repeated nodes and its chunks to the module, up to a node that cannot be sent |
| NodeManage.DedupNodes | src/service/node_manage.rs:447-455 | the nested loop keeps each node at its first appearance |
| FileUpgrade.SegmentArrives | src/protocol/app_data/file_transfer.rs:58-71 | a segment's frame is its data and 26 bytes, within the module's limit, and its receiver gets the data |
| FileUpgrade.SegmentPlaces | src/protocol/app_data/file_transfer.rs:58-71 | flag, last mark, command, number of segments, own number, size and data stand in this order, numbers with the low byte first, in a request of the function for files |
| FileUpgrade.RequestSays | src/service/file_upgrade.rs:198-207 | each request of a file says the number of all, its own number and its piece of the file, and whether it is the last |
| FileUpgrade.FileUpgrade.Transfer | src/service/file_upgrade.rs:184-242 | exactly the requests up to the first unexpected result are sent, each wait taking what is there or the last write before it wakes; why it failed; what is left, on its way, taken and overwritten; when it panics |
| FileUpgrade.RequestsCarryFile | src/service/file_upgrade.rs:198-214 | all requests together carry the file, in order, none of it twice |
| FileUpgrade.LastIsMarked | src/protocol/app_data/file_transfer.rs:36-56 | just the last request is marked as last exactly up to 65535 segments |
| FileUpgrade.WholeFile | src/service/file_upgrade.rs:221-240 | the whole file is sent exactly when each wait brought the number of its segment |
| FileUpgrade.FileUpgrade.UpgradeModule | src/service/file_upgrade.rs:184-321 | transfer, what comes between, and wait together, from any state |
| FileUpgrade.FileUpgrade.UpgradeMeters | src/service/file_upgrade.rs:184-321 | the same for an upgrade of the meters |
| UpgradeRuns.RunSettled | src/service/file_upgrade.rs:184-321 | over any run of both kinds of upgrade and late writes, every result that was asked for or reported is left, taken or overwritten |
| UpgradeRuns.NextUpgrade | src/service/file_upgrade.rs:138-143 | after any such run the next well-served upgrade of the module succeeds exactly when the lock is there and taken and overwritten results make up for all asked for and reported |
| UpgradeRuns.UpgradedIff | src/service/file_upgrade.rs:184-321 | from any state, with every wait ended by the first write, the module is upgraded and reports it exactly when lock and flag are free, the file can be sent, nothing is left from before, every segment is acknowledged and the report comes in time |
| UpgradeRuns.FailedBecause | src/service/file_upgrade.rs:216-240 | in order and from a clean place, the first answer that is not its segment decides between a bad file and a failed transfer, and only if there is none can the report be too late |
| UpgradeRuns.NotBegun | src/service/file_upgrade.rs:184-214 | when an upgrade does not begin: no lock, another under way, or a file that does not fit, exactly |
| UpgradeRuns.MetersEnd | src/service/file_upgrade.rs:274-312 | from a clean place the wait for the meters ends with the first answer that says so, or the last round |
| UpgradeRuns.LastWriteStays | src/service/file_upgrade.rs:216-222 | before a wait wakes the answers come in order, the report among them where it is said, and the last of these writes is what the wait sees |
| UpgradeRuns.StaleResult | src/service/file_upgrade.rs:216-232 | with a result left from before, a module that acknowledges everything in order gets the whole file only for no segment, or for one and a zero |
| UpgradeRuns.AtMostOneUpgrade | src/service/file_upgrade.rs:138-143 | in any run of upgrades of the module alone, each in order, and late writes at most one succeeds, and none once something is left |
| UpgradeRuns.UpgradeModuleTwice | src/service/file_upgrade.rs:258-272 | a second upgrade of the module, served like the first, fails at its second segment, or for a file of fewer segments never ends |
| UpgradeRuns.UpgradeMetersBetween | src/service/file_upgrade.rs:274-312 | with an upgrade of the meters of one segment between them, whose first round takes the answer, the second upgrade of the module succeeds |
| UpgradeRuns.OverwritingCleans | src/service/file_upgrade.rs:216-222 | and it can succeed, for two segments or more, if the second wait sees two answers before it has the lock |
| FileUpgrade.FileUpgrade.WaitForMeters | src/service/file_upgrade.rs:252-321 | every round takes one result, asking the module only if none came; rounds of thirty seconds add up to the whole time and not more; success exactly if a write in one of them said the upgrade was over; what is left after them |
| FileUpgrade.FileUpgrade.WaitForModule | src/service/file_upgrade.rs:258-272 | the single wait from any state: it ends by time, or by the end being among the writes before it wakes; with a result there, or writes without the end, it never gives the lock back |
| HplcInfo.Collect | src/service/hplc_info.rs:499-551 | the loop returns the first items of the list, as many as its pages gave, or the error; its start numbers fit sixteen bits |
| HplcInfo.AllCollected | src/service/hplc_info.rs:512-548 | a module with no error and no early empty page gives its whole list |
| HplcInfo.ShortMeansEmptyPage | src/service/hplc_info.rs:539-540 | a short list was cut off by an empty page |
| HplcInfo.NoGaps | src/service/hplc_info.rs:513-519 | each request starts where the page before ended, and there are no more requests than items |
| ModuleId.ParseModuleIds | src/protocol/app_data/route_get.rs:519-562 | the loop over the index, which never leaves the data, gives the records or the first error |
| ModuleId.PrintedIsParsed | src/protocol/app_data/route_get.rs:498-562 | every list of valid records, printed, is parsed back |
| ModuleId.ParsedIsPrinted | src/protocol/app_data/route_get.rs:519-562 | what is accepted is exactly a header and as many records as it counts, end to end, filling the data |
| ModuleId.RecordPlaces | src/protocol/app_data/route_get.rs:498-562 | where each part of a record stands, address and factory backward |
| ModuleId.ResponsePlaces | src/protocol/app_data/route_get.rs:519-562 | the total with its low byte first, the number of records, then the records |
| ModuleId.RecordErrors | src/protocol/app_data/route_get.rs:498-562 | too few bytes, a factory that is no text, and an unknown format are told apart, each exactly |
| ModuleId.ResponseErrors | src/protocol/app_data/route_get.rs:519-562 | the first error of a record, a wrong class, a wrong function and a wrong size are told apart, in this order |
| Topic.PrintedParsed | src/mqtt_topic.rs:96-127 | a printed topic without inner slashes is parsed back exactly when this program is its source or target |
| Topic.ParsedPrinted | src/mqtt_topic.rs:96-127 | a parsed topic prints as the original |
| Topic.ThereAndBack | src/mqtt_topic.rs:173-189 | the answer's topic can be parsed, and twice the way back restores the topic, or gives its response; which part goes where is `Topic.TurnedParts` |
| Topic.TurnedParts | src/mqtt_topic.rs:173-189 | on the texts: source and target change places, a request becomes a response, all else stays |
| Topic.ParsedParts | src/mqtt_topic.rs:96-127 | which texts are topics, what each part means, and which error each other text gets |

## Left out

- MQTT, serial and TCP input and output, JSON and its schemas, command line, logging, power control.
- Storing the archive in a file or database: only memory and module are modelled, so an error of the store after a
  change in memory is not.
- Real time: timers, aging and timeouts are steps or parameters. Timers may fire in any order, as they may when the
  clock is set back between two writes; and a timer may miss an entry that was never there.
- Steps finer than a locked region; a frame is created and sent in one step, and the sweep over all addresses is one
  step for each address.
- What the timer library's own threads do to the writer once the timer thread is dead; and that a thread of one part can
  be kept by a lock of another, such as the one an upgrade never gives back.
- Wake-ups of condition variables, and so liveness of the threads: `Progress` proves that a way to a report exists
  exactly for the requests that are not blocked, not that a scheduler takes it.
- The order of prioritised MQTT messages, which compares two orderings instead of chaining them.
- Error reports that cannot be delivered to an application.
- NodeManage.NodeManage.InitClearAcqFiles: without an answer the program waits for ever; the model returns no result,
  and the module's archive is anything at all.
- NodeManage.NodeManage.OperateAcqFiles: a request is followed up to a confirmed chunk that brings a new address twice,
  which is covered by the contract of the chunk and not by this one, because what follows has two objects for one
  address.
- FileUpgrade.FileUpgrade.Transfer: answers come in the order of their requests, and the module does not report itself
  while segments are sent.
- FileUpgrade.FileUpgrade.WaitForMeters: nor does it while the meters' upgrade is waited for.
- HplcInfo.Collect: the module has one fixed list and says its true length; a list that changes between pages is not
  modelled.
- Arithmetic that overflows is a panic (`Fault`, `Panic`) as in a build with checks; the wrapped values of a build
  without them are not followed.
- Parsers of records of one size, request encoders with a fixed layout, dates, BCD and displayed texts, which would add
  only easy members.
