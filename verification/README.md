# Unwired gate: a verified model

`mqtt.c` connects LoRa nodes behind a gate (a UART) to an MQTT broker. It keeps a table of up to 1000 nodes, each with
a queue of frames for it, and a worker thread that sends them: to class B and C nodes after a delay and with
retransmission, to class A nodes when they ask, and to class C nodes that stay silent only after an invitation to join
again. `utils.c` and `unwds-mqtt.c` hold the codecs the gate and the broker see; the meter modules pack lists of
unbounded length into bytes and masks.

This project models those parts in Dafny 4.11 and proves properties of them. `dafny verify dfyconfig.toml` checks
everything.

| file | what it holds |
|---|---|
| `Downlink.dfy` | one slot of the table and the events that change it |
| `Lifetimes.dfy` | statements over every sequence of events of a slot: order, retries, timing, permits, class A accounting |
| `Acknowledgements.dfy` | when an acknowledgement takes a frame off that was never sent |
| `Remembered.dfy` | what each field of a slot says about the past, and exactly when the worker acts |
| `Reactions.dfy` | what must follow an event: a rejoined node is served, a request answered, an absent node invited |
| `SilentRun.dfy` | what the worker does to a node that never answers: counts in closed form, progress, deadlines |
| `PendingTable.dfy` | the table as a value, its refinement of a finite map, reachable tables |
| `Histories.dfy` | all nodes that ever sat in a slot, and what the statements about lives say of each of them |
| `UartLines.dfy`, `Journal.dfy` | the lines written over a run, and that slot by slot they are what the lives called for |
| `GateLines.dfy` | a reader of the lines to the gate, and which of them tell what was meant |
| `Service.dfy` | the reactions from any state of the whole gateway, down to the lines written |
| `Gateway.dfy` | the class `Gate` with the program's two arrays, updated in place by its handlers and the worker's pass |
| `Locks.dfy` | four threads, two mutexes and the message queue: lock order, no deadlock |
| `Crc.dfy`, `Registers.dfy`, `Words.dfy` | CRC-16/ARC, registers fed bit by bit, bit operators on natural numbers |
| `Hex.dfy` | hexadecimal text in both byte orders, the downlink frame |
| `Sam.dfy` | sign-and-magnitude conversion for any width, in memory of either byte order |
| `Decimal.dfy`, `FixedPoint.dfy`, `JsonText.dfy` | decimal and fixed-point printing, numbers of JSON, what `strtof` reads |
| `MqttMessage.dfy`, `MessageReader.dfy`, `MessageBraces.dfy` | the JSON messages, a reader for them, their braces |
| `MeterText.dfy`, `Iec61107.dfy`, `Iec61107Lists.dfy`, `Iec61107Reply.dfy`, `M230.dfy`, `M230Reply.dfy` | the two meter codecs |

A run of the gateway is a sequence of inputs, each one handler or one pass of the worker; the clock is part of the
input. `Gate`'s methods are proved to take the table to `PendingTable.Next`, so what the lemmas say about `Next`,
`TableAfter` and the lives of nodes holds for the object; what it has written to the UART for nodes is
always `UartLines.Lines` of its inputs. Methods with loops are proved against functions, and the lemmas are about those
functions.

## What is false of the program, and when it holds

- A downlink frame prints the address without padding, while lines with addresses are read as 16 digits: the frame
  reads back exactly for addresses of at least 16^15 (`Hex.FrameReadsBackIffLongAddress`,
  `Hex.ShortAddressIsAmbiguous`).
- With all 50 slots of a message taken the brace that ends "data" is missing; a value with white space in front of a
  number is left without quotes and loses it, an empty value leaves nothing to read, and quotes and backslashes are not
  escaped. A message reads back exactly when a slot is left over, names have no quote or backslash, and values are what
  `Scalar` says (`MessageReader.MessageReadsBack`; `MessageReader.FullMessageDoesNotRead` and
  `MessageBraces.BracesBalance` for the full array). That reader lets control characters and odd numbers pass; under
  the grammar of RFC 8259 names and quoted values must be free of control characters besides, and values without
  quotes must have their digits in order (`MessageReader.JsonReadsBack`).
- The comments of `build_mqtt_message` say that what is left without quotes is a number of JSON and that leading zeros
  are quoted. The code leaves `-05` and `nan` without quotes (`JsonText.BareButNotJson`). An unquoted value that is no
  object or array is a number of JSON exactly when, after an optional minus, a digit comes first, a leading zero is
  followed by a point, an exponent or nothing, and every point by a digit (`JsonText.UnquotedIsJsonNumber`). The other
  way round, a number of JSON gets quotes exactly when it is a zero with an exponent right behind it, like `0e5`
  (`JsonText.QuotedJsonNumber`).
- `hex_to_bytesn` takes a length, but reading forwards it goes to the end of the string. It reads what was asked for
  exactly when the string ends with the field (`Hex.ForwardIgnoresLength`). The two calls that read a field out of a
  longer line (mqtt.c:470, 480) get the right number on every host, but on a big-endian host the bytes of the rest of
  the line are written behind the target (`Hex.FieldIsRead`, `Hex.FieldKeepsNeighbours`).
- An ACK takes the head off the queue even when it was never sent. The frame is lost exactly when no transmission has
  been made since it came to the head (`Acknowledgements.AckLosesUnsentFrame`); of two ACKs in a row the second always
  loses its frame (`Acknowledgements.SecondAckLosesFrame`).
- `num_pending` is 16 bits wide and wraps: it covers the queue of a class A node exactly as long as it never does
  (`Lifetimes.CoveredIffNeverWraps`, `Lifetimes.UnacknowledgedFramesWrap`).
- The notice of pending frames prints their number with at least two digits behind an address without padding. It tells
  both exactly if there are fewer than 256 frames (`GateLines.NoticeReadsBack`, `GateLines.NoticeIsAmbiguous`).
- Sign-and-magnitude conversion loses the smallest integer and, in the other direction, negative zero.
- The IEC 61107 lists lose whatever has no room in two bytes: entries survive exactly when they fit
  (`Iec61107.ListRoundTrip`). The label of a list has room for four characters and loses a digit when both its numbers
  have two (`Iec61107.ListPairShows`).
- The length of such a list has eight bits, and a device number of one digit alone is refused. A list is sent right
  exactly when its text has 2 to 255 characters, or it has 142 entries, a device number of one digit, and that same
  number in the second field of the 29th entry (`Iec61107Lists.ListSentRight`).
- An IEC 61107 reply with a list adds the pairs of exactly the entries in it unless it answers the holidays command
  with three bytes alone, which gives 255 empty rows instead of 16, or holds 256 entries or more
  (`Iec61107Reply.ReplyReadRight`, `Iec61107Reply.ThreeByteReply`). Shorter replies are never taken for a list
  (`Iec61107Reply.ListNeedsThreeBytes`).
- The M230 command writes a mask with its highest byte first, and the reply is read with the lowest byte first. A meter
  that turns the bytes round returns the stored days; one that returns them as they came does exactly when they read
  the same both ways (`M230Reply.StoredDaysAreListed`).

## Model

| member | source | states |
|---|---|---|
| `Downlink.RunConcat` | mqtt.c:776-918 | what a slot is after two stretches of events is what the second does to the result of the first |
| `Lifetimes.FifoConservation` | mqtt.c:255-299 | frames accepted over a lifetime are those removed by ACK or give-up, in order, followed by the queue |
| `Lifetimes.HistoryGrows` | mqtt.c:255-283 | what was accepted or removed earlier stays the beginning of what is accepted or removed later |
| `Lifetimes.SentIsNextInOrder` | mqtt.c:854-906 | a transmitted frame is the one accepted right after all removed ones |
| `Lifetimes.SendsAreInOrder` | mqtt.c:854-906 | positions of transmitted frames never go back; a later frame is sent only when all earlier ones have left |
| `Acknowledgements.HeadSentIsTransmitted` | mqtt.c:854-906 | one bit, set by a transmission and cleared when a frame leaves, tells whether the head has been transmitted |
| `Acknowledgements.AckLosesUnsentFrame` | mqtt.c:687-699 | the frame an ACK takes off is transmitted at some time exactly when that bit was set |
| `Acknowledgements.AcknowledgedFramesWereSent` | mqtt.c:687-699 | all frames taken off by ACKs were transmitted exactly when every ACK found a head that had been sent |
| `Acknowledgements.SecondAckLosesFrame` | mqtt.c:687-699 | the second of two ACKs in a row takes off a frame that is never transmitted |
| `Acknowledgements.RetriesShowTransmission` | mqtt.c:902-917 | while a node is not waiting to rejoin, a retry count above 0 means that the head has been transmitted |
| `Lifetimes.RetriesBounded` | mqtt.c:802-917 | num_retries is at most 6 in every reachable state, whatever tx_maxretr is |
| `Lifetimes.SendsBetweenResets` | mqtt.c:854-917 | at most 6 transmissions between two resets of the counter, also across the jump to 1 on invitation |
| `Lifetimes.TimestampsAfter` | mqtt.c:841-917 | after a transmission or an invitation its timestamp never falls behind it again |
| `Lifetimes.SendsAreSpaced` | mqtt.c:854-917 | two transmissions to a node that is never class A are more than tx_delay apart, also across a rejoin |
| `Lifetimes.InvitationsBackOff` | mqtt.c:801-852 | an invitation at retry count n comes more than 45 n seconds after every earlier one |
| `Lifetimes.InvitedNodeGetsNoData` | mqtt.c:801-852 | an invited class C node gets no data frame until JOIN, LIST or ACK |
| `Lifetimes.PermitsCoverSends` | mqtt.c:720-726 | transmissions made in class A never exceed the accepted PENDING_REQ replies |
| `Lifetimes.RequestBetweenClassASends` | mqtt.c:796-798 | between two transmissions made in class A there is an accepted request |
| `Lifetimes.ClassAAccount` | mqtt.c:687-698 | num_pending less the queue length is the number of give-ups less the ACKs that found the queue empty |
| `Lifetimes.ClassAExactWithoutGiveUp` | mqtt.c:1147-1158 | before the first give-up num_pending is the queue length |
| `Lifetimes.FewEnqueuesNeverWrap` | mqtt.c:1155-1158 | fewer than 65536 enqueues never wrap num_pending |
| `Lifetimes.CoveredIffNeverWraps` | mqtt.c:1147-1158 | the queue is covered by num_pending at every moment exactly when the counter never wraps |
| `Lifetimes.UnacknowledgedFramesWrap` | mqtt.c:1155-1158 | num_pending after n frames that nobody acknowledges is n modulo 65536, with all n queued |
| `SilentRun.SilentCount` | mqtt.c:791-918 | transmissions, invitations and give-ups made and still to come add up to the same all along a silent run |
| `SilentRun.SilentRunInvites` | mqtt.c:791-918 | with tx_maxretr in 1..6 the first frame is sent tx_maxretr times, no other is, and 5 + 6(k-1) invitations are made |
| `SilentRun.SilentRunSends` | mqtt.c:791-918 | otherwise every frame is sent exactly 6 times and nothing is invited |
| `SilentRun.SilentSendIsFrame` | mqtt.c:894-906 | the frame sent with so many frames queued is the one that far from the end |
| `SilentRun.WorkerMakesProgress` | mqtt.c:801-918 | every step of the worker lowers (queue length, not yet invited, 6 - num_retries) |
| `SilentRun.DeadlineHolds` | mqtt.c:801-918 | with a pass every second the time by which the queue will have shrunk never moves back |
| `SilentRun.HeadFrameGone` | mqtt.c:801-918 | the head frame of a joined class C node is gone in tx_maxretr (tx_delay + 1) + 680 seconds and one pass |
| `SilentRun.QueueEmptied` | mqtt.c:801-918 | the whole queue is empty 682 seconds per further frame later |
| `SilentRun.QueueEmptiedWithoutInvitations` | mqtt.c:854-918 | the bound where nothing is invited: 7 gaps, and 6 gaps and a second per further frame |
| `Remembered.SlotIsItsHistory` | mqtt.c:173-226 | every field of a slot is what the history of its node says, field by field: class, attempts, flags, times, announcements, queue |
| `Remembered.AnnouncedIsCounted` | mqtt.c:1155-1158 | num_pending counts frames queued while in class A less ACKs, in 16 bits; other classes leave it alone |
| `Remembered.SendsExactlyWhen` | mqtt.c:791-906 | a frame is sent exactly when data is due and it has had at most five attempts |
| `Remembered.InvitesExactlyWhen` | mqtt.c:801-852 | a node is invited exactly when it is absent and 45 seconds for each attempt have passed |
| `Remembered.GivesUpExactlyWhen` | mqtt.c:802-893 | a frame is given up exactly after six attempts, when the node is absent or data is due |
| `Reactions.WaitingEnds` | mqtt.c:181-191 | exactly LIST or JOIN, a declaration as another class, or ACK ends the waiting of a node |
| `Reactions.WaitingBegins` | mqtt.c:908-913 | exactly what begins it: the tx_maxretr-th transmission to a class C node, or a declaration of an invited node as class C without its joining |
| `Reactions.AbsentUntilAnswer` | mqtt.c:801-852 | along any events a waiting node waits until the first answer and no longer |
| `Reactions.RejoinedIsServed` | mqtt.c:181-191 | nothing is sent to a rejoined node for tx_delay seconds, and its oldest frame at the first visit after that |
| `Reactions.AcknowledgedIsServed` | mqtt.c:687-699 | after an ACK the next frame is sent afresh as soon as tx_delay has passed since the last message |
| `Reactions.RequestIsAnswered` | mqtt.c:720-726 | a request of a class A node stands until the first visit that shows more than tx_delay, which sends its oldest frame, again if need be |
| `Reactions.OtherRequestsAreIgnored` | mqtt.c:720-726 | which requests change nothing |
| `Reactions.RequestedFramesAreSent` | mqtt.c:796-917 | a class A node that asks before every visit and never acknowledges is sent each frame in turn six times, and it is given up at the seventh |
| `Reactions.SilentNewcomer` | mqtt.c:801-839 | a node added for a message that never answers is invited six times for each frame and never sent one |
| `PendingTable.LookupAgrees` | mqtt.c:159-171 | lookup agrees with the map; there is a free slot exactly when the map has fewer than 1000 keys |
| `PendingTable.AddRefines` | mqtt.c:173-226 | adding is refreshing a known key, inserting an unknown one, or nothing when the map is full |
| `PendingTable.KickRefines` | mqtt.c:228-253 | kicking removes exactly that key |
| `PendingTable.PassRefines` | mqtt.c:780-922 | a pass of the worker visits every node of the map once |
| `PendingTable.NextRefines` | mqtt.c:145-253 | every handler and pass on the array is the one on the map; ids stay distinct |
| `PendingTable.MapAfter` | mqtt.c:145-253 | every reachable table represents a map |
| `PendingTable.ReachableIsWellLived` | mqtt.c:173-226 | in every reachable table each node was freshly allocated and saw events in clock order |
| `PendingTable.ReachableNodeIsSafe` | mqtt.c:776-918 | for every node of every reachable table: conservation, retry bound, spacing, permits |
| `PendingTable.PassesOnlyVisit` | mqtt.c:780-792 | while only the worker runs a node keeps its slot and sees only visits |
| `PendingTable.GatewayDropsHeadFrame` | mqtt.c:776-918 | the bound of HeadFrameGone from any reachable state of the whole gateway |
| `PendingTable.GatewayEmptiesQueue` | mqtt.c:776-918 | the bounds for the whole queue, with and without invitations, from any reachable state |
| `Histories.SlotFollows` | mqtt.c:173-253 | any input leaves the node in a slot with what reached it, starts a new one, or kicks it |
| `Histories.LivesAreWellLived` | mqtt.c:173-253 | whoever sat in a slot over a whole run was freshly allocated and saw events in clock order |
| `Histories.EveryStretchIsBounded` | mqtt.c:854-917 | no node was ever sent more than six frames in any stretch of its life without a reset |
| `Histories.EveryInvitationBacksOff` | mqtt.c:801-852 | no node was ever invited sooner than its retry count allows |
| `Histories.EverySendIsInOrder` | mqtt.c:854-906 | transmissions to any node ever served go by the order of acceptance and, outside class A, are spaced |
| `Histories.EveryLossIsAnUnsentHead` | mqtt.c:687-699 | an ACK to any node ever served loses an accepted frame exactly when it had not been sent at the head |
| `Histories.LivesWereAsked` | mqtt.c:1133-1166 | every frame queued for any node ever served is that of some message for that node |
| `Journal.EntriesAreLines` | mqtt.c:776-927 | the journal of a run, read as text, is what the run writes to the UART |
| `Journal.SlotTellsItsLives` | mqtt.c:780-922 | what a run writes about a slot is what the lives of its nodes called for, one after the other |
| `Journal.WrittenSince` | mqtt.c:780-922 | while a node stays in its slot, what is written about the slot is what the inputs that reach it call for |
| `Journal.MomentsAccount` | mqtt.c:801-906 | each of those lines belongs to one step of the life, and later lines to later steps |
| `Journal.FramesInOrder` | mqtt.c:854-917 | two written frames of a life do not overtake each other and are more than tx_delay apart outside class A |
| `Journal.InvitationsAreSpaced` | mqtt.c:801-852 | a written invitation at retry count r comes more than 45 r seconds after every earlier one |
| `Journal.FramesWereAsked` | mqtt.c:1133-1166 | every frame written for a node was asked for by a message for it |
| `GateLines.InvitationReadsBack` | mqtt.c:770-773 | the line of an invitation tells the address |
| `GateLines.NoticeReadsBack` | mqtt.c:1162 | the line of a notice tells the address and the number exactly if that is below 256 |
| `GateLines.NoticeIsAmbiguous` | mqtt.c:611-612 | from 256 on a digit of the number may as well belong to the address |
| `GateLines.EntryReadsBack` | mqtt.c:906 | every line written tells what was meant, notices of 256 frames or more excepted |
| `Service.UnknownNodeIsAdded` | mqtt.c:1102-1158 | a message for an unknown node puts it in the first free slot, to be invited, with the frame queued; without a free slot nothing happens |
| `Service.JoiningNodeIsAdded` | mqtt.c:196-221 | LIST or JOIN of an unknown node puts it there as one that has joined |
| `Service.JoiningNodeIsReady` | mqtt.c:179-196 | LIST or JOIN of a known node ends its waiting and resets its attempts; the pause begins anew if it had been invited |
| `Service.AcknowledgingNode` | mqtt.c:687-699 | an ACK takes the oldest frame and one announcement, and ends the waiting |
| `Service.MessageIsQueued` | mqtt.c:1143-1158 | a message for a known node is queued last and announced in class A only |
| `Service.IgnoredInputs` | mqtt.c:684-728 | requests that do not count and replies about unknown nodes change nothing |
| `Service.NoticesOfNode` | mqtt.c:605-614 | which lines are written at once: the pending frames of a node that joins, and one more in class A |
| `Service.RejoinedNodeIsServed` | mqtt.c:173-197 | from any state: a waiting node that rejoins has its oldest frame written by the first pass more than tx_delay later |
| `Service.AskingNodeIsServed` | mqtt.c:703-728 | from any state: a class A node that asks has its oldest frame written by the first pass that shows more than tx_delay |
| `Service.UnknownNodeIsInvited` | mqtt.c:1096-1167 | from any state: about a node added for a message only invitations are written until it answers, the first by the first pass |
| `Gateway.Gate.constructor` | mqtt.c:145-157 | the empty table |
| `Gateway.Gate.PendingToNodeid` | mqtt.c:159-171 | the slot of the node, or none |
| `Gateway.Gate.AddDevice` | mqtt.c:173-226 | the new table; fails exactly when the id is absent and no slot is free |
| `Gateway.Gate.KickDevice` | mqtt.c:228-253 | the slot is free and its queue empty; false exactly when the id is absent |
| `Gateway.Gate.ServeReply` | mqtt.c:367-735 | each of the five replies is one input; JOIN with something pending writes a notice; all written is still Lines of the inputs |
| `Gateway.Gate.ServeAck` | mqtt.c:687-699 | the event Ack on that node |
| `Gateway.Gate.ServePendingReq` | mqtt.c:703-728 | the event PendingReq on that node |
| `Gateway.Gate.MessageToMote` | mqtt.c:1096-1167 | an unknown node is added as one to invite, the frame is queued, a class A node is announced |
| `Gateway.Gate.ServeItem` | mqtt.c:791-918 | one visit: the new item and the line written are those of Visited and Decide, all other slots unchanged |
| `Gateway.Gate.VisitAll` | mqtt.c:782-919 | the loop over the table visits every occupied slot once, in order, and writes exactly their lines |
| `Gateway.Gate.PendingWorkerPass` | mqtt.c:776-927 | one pass of the worker is one input and writes the lines of its slots |
| `Locks.PathsReleaseWhatTheyTake` | mqtt.c:174-250 | on every path of every thread what is held changes only by what is taken and released |
| `Locks.LockOrder` | mqtt.c:771-773 | mutex_uart may be requested under mutex_pending, never the reverse; blocking calls hold neither |
| `Locks.StepKeepsConsistent` | mqtt.c:780-922 | a step of any thread keeps owners and positions in agreement |
| `Locks.ReachableIsConsistent` | mqtt.c:1018-1028 | in every reachable state a mutex is owned exactly by the thread whose position says so |
| `Locks.RegionsExclude` | mqtt.c:780-922 | in every reachable state at most one thread is at the UART and at most one at the table |
| `Locks.NoDeadlock` | mqtt.c:1147-1166 | some thread can step in every state of every interleaving, whatever the queue's capacity |
| `Locks.MutexesCanBeFreed` | mqtt.c:780-922 | from every reachable state both mutexes can be free again in a bounded number of steps |
| `Crc.Crc16Arc` | utils.c:176-193 | the two nested loops compute the register's value over the data |
| `Crc.EightShifts` | utils.c:183-190 | the inner loop is eight shift steps |
| `Crc.CrcFromIsLinear` | utils.c:176-193 | linear in the register and the data together |
| `Crc.CrcIsLinear` | utils.c:176-193 | the CRC of the exclusive or of two messages is the exclusive or of their CRCs |
| `Crc.CrcComposes` | utils.c:176-193 | the CRC of a concatenation continues from that of the first part |
| `Crc.CrcOfSealedMessageIsZero` | utils.c:176-193 | a message with its own CRC appended, low byte first, has CRC 0 |
| `Crc.CrcIsSerial` | utils.c:180-191 | the byte-wise computation is the bit-serial one, least significant bit first |
| `Crc.ShiftIsBijection` | utils.c:183-190 | the shift step with 0xA001 is a bijection on 16-bit registers, with its inverse |
| `Crc.ShiftIsInjective` | utils.c:183-190 | two registers that shift to the same one are the same |
| `Crc.FirstBit` | utils.c:183-190 | from an empty register a one leaves 0xA001 and a zero leaves 0 |
| `Crc.BurstIsDetected` | utils.c:176-193 | messages of equal length that differ only inside 16 consecutive bits have different CRCs |
| `Hex.HexToBytesN` | utils.c:46-73 | odd lengths refused; what is in memory from the target on after reading from either end |
| `Hex.ForwardIgnoresLength` | utils.c:63-69 | forwards the bytes of the whole string are read: those of the field exactly when the string ends with it |
| `Hex.FieldIsRead` | mqtt.c:470-487 | a field out of a longer line is read right on every host; what is written behind the target |
| `Hex.FieldKeepsNeighbours` | mqtt.c:470-487 | reading forwards leaves everything behind the target alone exactly when the string ends with the field |
| `Hex.HexToBytes` | utils.c:42-44 | the bytes of the whole string, in either order |
| `Hex.BytesToHex` | utils.c:75-82 | appends two upper-case digits a byte, in either order |
| `Hex.FromHexInvertsToHex` | utils.c:42-82 | printed and read in the same order, any bytes come back |
| `Hex.ToHexInvertsFromHex` | utils.c:42-82 | read and printed in the same order, text comes back in upper case |
| `Hex.AddressIndependentOfHost` | mqtt.c:458-463 | the parsed address is the number the digits denote, on hosts of either byte order |
| `Hex.PrintHexReadsBack` | mqtt.c:1145 | an address printed with "%x" denotes itself |
| `Hex.PrintHexLooks` | mqtt.c:1145 | it is printed without leading zeros and with small letters |
| `Hex.DigitsAre` | utils.c:46-80 | the digits are 0-9 and a-f, or A-F where capitals are printed, and are read in either case |
| `Hex.FrameReadsBackIffLongAddress` | mqtt.c:1145 | a frame reads back with a 16-digit reader exactly when the address is at least 16^15 |
| `Hex.ShortAddressIsAmbiguous` | mqtt.c:1145 | below that a digit of the payload may as well belong to the address |
| `Sam.ToSamKeepsValue` | utils.c:229-257 | the value is kept exactly unless it is the minimum |
| `Sam.FromSamKeepsValue` | utils.c:195-227 | every pattern keeps its value |
| `Sam.FromInvertsTo` | utils.c:195-257 | from(to(v)) = v exactly when v is not the minimum, for any width |
| `Sam.ToInvertsFrom` | utils.c:195-257 | to(from(w)) = w exactly when w is not negative zero, for any width |
| `Sam.SwapBytes` | utils.c:91-134 | the bytes are reversed in place on a little-endian host and left alone on a big-endian one |
| `Sam.ConvertToBeSam` | utils.c:229-257 | the memory after converting and swapping, for the four sizes; other sizes left alone |
| `Sam.ConvertFromBeSam` | utils.c:195-227 | the memory after swapping and converting, for the four sizes; other sizes left alone |
| `Sam.WrittenIs` | utils.c:229-257 | the memory holds the converted integer, most significant byte first, whichever host wrote it |
| `Sam.ReceivedIs` | utils.c:195-227 | any host gets the converted integer out of it |
| `Sam.WireRoundTrip` | utils.c:195-257 | what one host writes any host reads back, exactly unless it is the minimum |
| `Sam.ReadAndWriteBack` | utils.c:195-257 | reading and writing back leaves the bytes, exactly unless they are negative zero |
| `FixedPoint.IntToFloatStr` | utils.c:144-163 | the text is the sign, the integer part, the point and the padded fraction |
| `FixedPoint.FixedReadsBack` | utils.c:144-163 | read back and scaled by 10^p it gives d, with p fraction digits and the sign kept when the integer part is 0 |
| `FixedPoint.FixedIsJsonNumber` | unwds-mqtt.c:142-177 | it is a number of section 6 of RFC 8259, and a message leaves it without quotes |
| `JsonText.FloatIsBare` | unwds-mqtt.c:142-154 | what strtof takes whole, without white space in front, has no character that ends a token |
| `JsonText.UnquotedIsJsonNumber` | unwds-mqtt.c:142-171 | exactly which values left without quotes are numbers of section 6 of RFC 8259 |
| `JsonText.QuotedJsonNumber` | unwds-mqtt.c:156-171 | exactly which numbers of section 6 of RFC 8259 get quotes |
| `JsonText.BareButNotJson` | unwds-mqtt.c:142-171 | four values left without quotes that are none |
| `MqttMessage.AddValuePair` | unwds-mqtt.c:41-52 | the first slot with an empty name is filled; nothing happens when there is none |
| `MqttMessage.AddedInOrder` | unwds-mqtt.c:41-52 | pairs fill the slots from the front, in order; those beyond the size are dropped |
| `MqttMessage.FilledInOrder` | unwds-mqtt.c:41-52 | the slots in use are a prefix and hold the pairs added |
| `MqttMessage.AppendPairs` | unwds-mqtt.c:127-178 | the loop over the slots appends the text of the pairs up to the first empty one |
| `MqttMessage.BuildMqttMessage` | unwds-mqtt.c:122-209 | the whole message is MessageText of the pairs, the status, the address and the date |
| `MessageReader.ScalarsArePlain` | unwds-mqtt.c:142-177 | the values that get quotes or are bare tokens are exactly the scalars |
| `MessageReader.MessageReadsBack` | unwds-mqtt.c:122-209 | a message reads back, pairs in order and status, exactly when a slot is left over, names are clean and values are scalars |
| `MessageReader.PlainMessageReadsBack` | unwds-mqtt.c:122-209 | the same for each of the two grammars, by what it allows between quotes and as a token |
| `MessageReader.JsonScalarsArePlain` | unwds-mqtt.c:142-177 | the values that RFC 8259 allows as they are written: quoted without control characters, or digits in order |
| `MessageReader.JsonReadsBack` | unwds-mqtt.c:122-209 | a message is a JSON text of RFC 8259 that tells its pairs exactly when a slot is left over and names and values are such |
| `MessageReader.FullMessageDoesNotRead` | unwds-mqtt.c:128-133 | with every slot taken and no quote or backslash in any pair the text is no message of either grammar |
| `MessageReader.StatusReadsBack` | unwds-mqtt.c:180-208 | the status members are read back, each value under its own name |
| `MessageBraces.BracesBalance` | unwds-mqtt.c:128-208 | as many braces are closed as opened when a slot is left over, one fewer when none is |
| `MeterText.HexTextReadsBack` | modules/umdk-iec61107.c:391-393 | bytes printed with "%02x" are what the text denotes |
| `Iec61107.PackedEntryReadsBack` | modules/umdk-iec61107.c:396-418 | an entry of two-digit fields survives two bytes exactly when it fits them |
| `Iec61107.PackedListReadsBack` | modules/umdk-iec61107.c:395-426 | a packed list unpacks to the same entries in order exactly when all of them fit |
| `Iec61107.FindDevice` | modules/umdk-iec61107.c:355-376 | where the device number begins and how long the list in front of it is |
| `Iec61107.EmitEntries` | modules/umdk-iec61107.c:395-426 | the loop with its 8-bit counter prints the packed entries; it ends for every text and every length |
| `Iec61107.ListCommand` | modules/umdk-iec61107.c:352-428 | the text sent for a list command, or error 04 |
| `Iec61107.EntriesEmitted` | modules/umdk-iec61107.c:395-426 | over a list with as many entries as the loop has rounds, the packed entries are printed |
| `Iec61107.RoundsOfList` | modules/umdk-iec61107.c:395-426 | the loop runs once for each entry of a list of at most 255 characters |
| `Iec61107.ListIsPacked` | modules/umdk-iec61107.c:352-428 | a list of 2 to 255 characters is sent as code, 0x57, part, device, and the packed entries in brackets |
| `Iec61107.ShortTextIsRefused` | modules/umdk-iec61107.c:355-363 | error 4 is sent exactly for texts whose length modulo 256 is below 2 |
| `Iec61107.PackedEntryAt` | modules/umdk-iec61107.c:396-418 | each entry that fits stands in its own two bytes, bit by bit |
| `Iec61107Lists.ListSentRight` | modules/umdk-iec61107.c:352-428 | a list of any length is sent right exactly when it has 2 to 255 characters or is one of the lists of 142 entries whose cut hits the device number |
| `Iec61107Lists.LongCut` | modules/umdk-iec61107.c:395-426 | with a trimmed length of 254 the 8-bit counter makes 142 rounds |
| `Iec61107.EntryPairReadsBack` | modules/umdk-iec61107.c:646-680 | a printed pair tells its entry |
| `Iec61107.ScheduleReply` | modules/umdk-iec61107.c:639-658 | the pairs added for a schedule, empty rows included, for any length of the reply |
| `Iec61107.HolidaysReply` | modules/umdk-iec61107.c:659-686 | the pairs added for a list of holidays, empty rows included, for any length of the reply |
| `Iec61107.ListPairShows` | modules/umdk-iec61107.c:660-670 | the label of a list of holidays tells both its numbers, exactly unless both have two digits |
| `Iec61107.ReplyShowsEntries` | modules/umdk-iec61107.c:646-684 | the pairs show the unpacked entries in order, an odd last byte ignored, and then empty rows |
| `Iec61107.ListRoundTrip` | modules/umdk-iec61107.c:646-684 | a reply shows exactly the entries a command stored exactly when all of them fit |
| `Iec61107Reply.ListNeedsThreeBytes` | modules/umdk-iec61107.c:451-490 | no reply of fewer than three bytes is taken for a list |
| `Iec61107Reply.ListReply` | modules/umdk-iec61107.c:451-686 | which replies are taken for a list, and all pairs added for one up to the end of the list |
| `Iec61107Reply.ReplyReadRight` | modules/umdk-iec61107.c:641-686 | the entries of a list are shown right exactly unless it is a holidays reply of three bytes or has 256 entries |
| `Iec61107Reply.ThreeByteReply` | modules/umdk-iec61107.c:659-686 | a holidays reply of three bytes gives 255 empty rows, where 16 would be right |
| `Iec61107Reply.TextIsShown` | modules/umdk-iec61107.c:352-686 | a meter that returns the bytes it was sent is shown with the entries of the command's text exactly when all fit |
| `Iec61107Reply.ReplyShowsList` | modules/umdk-iec61107.c:469-686 | what the bytes of a reply show: its device, the label of a list of holidays, the entries in order, and empty rows |
| `M230.CollectDays` | modules/umdk-m230.c:440-467 | the loop leaves the masks of the dates read, and tells how the text ended |
| `M230.EmitRecords` | modules/umdk-m230.c:472-476 | the loop prints the months with days |
| `M230.SetHolidays` | modules/umdk-m230.c:430-477 | the text sent for a list of holidays, or ff |
| `M230.DatesReadBack` | modules/umdk-m230.c:444-467 | the dates of a well-formed list, and the device, are read in order |
| `M230.MaskBit` | modules/umdk-m230.c:445-453 | bit d of month m is set exactly when that date is in the list |
| `M230.SameDatesSameMasks` | modules/umdk-m230.c:444-467 | two lists give the same masks exactly when they have the same dates |
| `M230.RecordsIncrease` | modules/umdk-m230.c:472-476 | the months of the records strictly increase |
| `M230.RecordsReadBack` | modules/umdk-m230.c:472-476 | the bytes denote the records |
| `M230.HolidaysSent` | modules/umdk-m230.c:469-476 | what is sent, read as records, holds exactly the dates of the list |
| `M230.TextIsSent` | modules/umdk-m230.c:430-477 | for the text of a list 0xF2, the device, 2 and records with exactly its dates are sent |
| `M230.BadTextIsRefused` | modules/umdk-m230.c:463-466 | 0xFF alone is sent exactly for texts that break off |
| `M230Reply.HolidaysReply` | modules/umdk-m230.c:906-935 | the pair added for the four bytes of a reply |
| `M230Reply.MaskBits` | modules/umdk-m230.c:915-919 | bit j of byte i is bit 8i + j of the mask |
| `M230Reply.DaysAreTheBits` | modules/umdk-m230.c:915-924 | a day is listed exactly when its bit is set |
| `M230Reply.DaysAscend` | modules/umdk-m230.c:915-924 | the days are listed in ascending order |
| `M230Reply.DaysRebuildMask` | modules/umdk-m230.c:915-924 | setting the bits of the listed days gives the mask back |
| `M230Reply.StoredDaysAreListed` | modules/umdk-m230.c:915-924 | the days listed for the bytes of a stored mask, turned round or as sent, against the list of dates |
| `M230Reply.ListedDatesTellMask` | modules/umdk-m230.c:915-924 | a reply lists the days of a list of dates exactly when its mask is the one of the list |
| `M230Reply.ListReadsBack` | modules/umdk-m230.c:914-925 | the text tells the days in order |
| `M230Reply.ListFits` | modules/umdk-m230.c:914-925 | the text fits its buffer exactly when there are at most 24 days |

## Left out

- UART set-up, byte-wise reading and splitting of lines, the daemon, configuration and the command line: input and
  output.
- Parsing of gate replies: a reply arrives with its fields; only the effects on the table and the UART are modelled.
- Lines to the gate that are about no node of the table (broadcasts, start-up commands, lists of static devices): the
  modelled UART records what the handlers and the worker write for nodes.
- Individual data frames of nodes (IND), the mosquitto library, syslog and the console: publishing changes nothing here.
- Races inside a handler: each handler is one step. `add_device` resets num_retries after unlocking (mqtt.c:193-196),
  and `message_to_mote` looks up its node before locking (mqtt.c:1102, 1135): no KICK is assumed to fall in between.
- Failing malloc, failing msgsnd and msgrcv, full buffers and truncation by snprintf (except for the label of the
  holidays list), malformed hexadecimal digits.
- The pending queue is a sequence instead of a linked list, and a pointer to a slot is its index.
- num_retries is a natural number; it never exceeds 6, far below the width of the C field.
- Words of the CRC and of the sign-and-magnitude code are natural numbers, with the bit operators defined on them;
  the byte swaps reverse bytes instead of masking and shifting them.
- `strtof` is the set of texts it reads to the end, in the C locale; no value is computed.
- `strtol` does not saturate at the limits of `long`; text behind the terminator reads as empty.
- The date of a message is a given string.
- `mqtt_escape_quotes`: it is no faithful escape.
- Elements of nested objects and arrays: their text is copied; only their braces are counted, and no reader takes them.
- Iec61107.LastSpace: supposes the space in front of the parameters that the program skips unseen.
- Iec61107.ScheduleReply: needs as much memory behind the reply as the loop reads; so does Iec61107.HolidaysReply.
- Hex.HexToBytesN: needs as much memory from the target on as is written, and forwards an even rest of the line: the
  program would read past the end of the string otherwise.
- M230.CollectDays: needs days from 1 to 32 and months from 1 to 12; otherwise the program shifts by more than the width
  of the word or writes outside its array, for which C defines no result. Day 32 is admitted although C defines no
  result for its `1 << 31` on `int` either: it is taken to set the highest bit, as compilers do.
- Iec61107Reply.ListReply: adds nothing for a reply without a list, where the program adds the pairs of other replies.
- M230.SetHolidays: needs the same of its text.
- M230Reply.HolidaysReply: needs at most 24 days; with more the text is longer than its buffer (M230Reply.ListFits) and
  the program goes on writing behind it, for which C defines no result.
- MessageReader.MessageReadsBack: supposes that no name is empty, as an empty name marks a free slot of the array; so
  does MessageReader.JsonReadsBack. The address and the date are supposed to have no quote or backslash, and for
  MessageReader.JsonReadsBack no control character.
- The other commands and replies of the meters, all other modules, DALI levels and GPS coordinates.
- The keyword dispatch in front of the modelled branches of the two meter modules.
