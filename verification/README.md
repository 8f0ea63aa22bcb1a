# RTFTP: a verified model

RTFTP is a read-only TFTP server (RFC 1350) with the option extension of RFC 2347 and the options
blksize (RFC 2348), timeout and tsize (RFC 2349) and windowsize (RFC 7440). This project models
how it serves a request and states what that guarantees, for every file, every set of options,
every behaviour of the disk and every behaviour of the network. `dafny verify dfyconfig.toml`
checks all of it.

## How it is built

- `Wire`, `Arithmetic`, `Blocks`, `Slots`: 16-bit words and their wrap-around, how a file is cut
  into numbered DATA packets, and which buffer of the ring holds which block.
- `Sender`: the sending side as a machine that steps on inputs (a read or a send that succeeds or
  fails, silence, a message). Its state is that of `send_file` and `send_reliably`, in 16-bit
  numbers; four more fields are history that no step consults: the unbounded number of blocks
  acknowledged (`ackedTotal`) and read (`readTotal`), the rounds, and the datagrams of the round. A
  run is *honest* if every ACK it accepted named a block that was outstanding.
- `RingBuffer`: what the ring of buffers holds and what is therefore sent.
- `Network`: the machine composed with an in-order receiver (section 4 of RFC 7440) over a network
  that loses, duplicates and reorders. Any datagram ever sent may arrive at any time, and the
  receiver may acknowledge whenever it likes.
- `Deliveries`: what the receiver is left with once numbers have wrapped.
- `Bounds`: how long a transfer can go on. `Turns`, `Transmissions`, `Losses`: whether every block
  is sent. `Lockstep`: the one run there is if nothing is lost or reordered and every window is
  acknowledged. `Correspondence`: what `send_file` does is a run of sender, receiver and network.
  `Outcomes`: how a transfer ends, by what happened last.
- `Runs`, `Guarantees`: runs built step by step, and the main theorems. Several promises of the
  code hold for some transfers only; for those there is a run that breaks the promise and a
  theorem that says exactly which transfers keep it.
- `RemoteFile`, `Datagrams`, `PeerHandler`, `Negotiation`: the imperative code, with buffers that
  are overwritten in place. The disk and the network are scripts fixed in advance, so a statement
  about every script is one about every environment. `SendFile` is proved to send and to return
  exactly what the machine does on the inputs that the script amounts to.
- `Text`, `Cursor`, `TftpErrors`, `Messages`, `Options`: the datagrams and the options.
- `InotifyEvents`, `AsyncChannel`, `Tables`, `Server`, `Sessions`: the event splitter, the wakeup
  channel, and the tables of handlers and sessions.

## What turns out not to hold in general

With N the number of blocks and w the window size:

- An ACK is compared as a bare 16-bit number (`src/peer_handler/mod.rs:455`). Late ACKs are never
  accepted exactly if N is at most 65535 (`AcceptsOnlyOutstandingExactly`), and are fatal then
  (`StaleAckFatalExactly`); a fresh ACK is never taken for an old one exactly if N is at most 65535 or w is 1 (`AcceptsAllOutstandingExactly`).
- Slots are taken from the 16-bit number (`src/peer_handler/mod.rs:89`). No outstanding block is
  overwritten exactly if N is at most 65535 or w divides 65536 (`RingHoldsExactly`).
- Only 16 bits of the block number travel (`src/peer_handler/mod.rs:118-119`). The receiver always
  holds a prefix of the file exactly if N is at most 65536 (`AlwaysPrefixExactly`).
- A transfer ends with the first ACK that is accepted after the last block was read
  (`src/peer_handler/mod.rs:113-156`). Completion means delivery exactly if there is one block, or
  at most 65535 of them with a window of one (`SuccessMeansDeliveredExactly`).
- A completed transfer is reported with 0 blocks, since `blocks_sent` is only counted on early
  termination (`CompletedReport`).
- A string is closed one byte too late (`src/cursor/mod.rs:83`). What is written is well formed
  exactly if zeros were in place before (`PutStringsExactly`, `AstrayNul`), which a fresh buffer
  ensures; the server's ERROR replies are written over the request (`AnswerMalformed`,
  `BrokenReply`), and the errors of a session over whatever the buffer holds (`FiredExactly`,
  `BrokenTimeout`). A string that fills the buffer to the last byte stops the program.
- An OACK is retransmitted from the buffer that datagrams are received into; a copy is true exactly
  if the datagrams ignored before it spare every byte of it (`CopyTrueExactly`, `FalseCopy`).
- A repeated ACK ends the transfer (`src/peer_handler/mod.rs:456-463`), also one of the ACK 0 that
  accepted the options. Repetitions are harmless exactly to requests that get no OACK and ask for
  less than 512 bytes (`RepeatsHarmlessExactly`, `RepeatsServed`).
- Past block 65535 a repeated ACK is accepted instead, and starts the same round again. Datagrams
  are bounded, and accepted ACKs achieve something, exactly if N is at most 65535 + w
  (`BoundedExactly`, `AdvancesExactly`).
- Even without loss or reordering the file arrives exactly if w is 1, N is at most 65535, or N is
  at most 131071 and w divides 65535 (`LosslessDeliversExactly`).
- Two blocks that share a slot may be read in one go, and the first is then never sent. For which
  transfers every block is sent before a run completes, `EveryBlockSentExactly` says of honest runs
  and `SentWhenCompletedExactly` of runs with a receiver.
- The limit on sessions is none (`LimitNotEnforced`).
- The waker slot holds one waker. No wakeup is lost exactly if there is at most one consumer
  (`NoLostWakeupExactly`).

RFC 2347 makes option names case-insensitive; the code compares them exactly, and so does the model.

## Model

| member | source | states |
|---|---|---|
| `Guarantees.AcceptsOnlyOutstandingExactly` | src/peer_handler/mod.rs:454-455 | over all runs with a receiver and a network that loses, duplicates and reorders, every ACK accepted names an outstanding block, if and only if the transfer has at most 65535 blocks |
| `Guarantees.StaleAckAccepted` | src/peer_handler/mod.rs:454-455 | for every larger transfer, a reachable run in which a duplicate of ACK 65535 is accepted though it names nothing |
| `Guarantees.StaleAckFatalExactly` | src/peer_handler/mod.rs:455-463 | up to 65535 blocks, an ACK of the receiver ends the transfer as stale if and only if it acknowledges nothing new |
| `Guarantees.RepeatsHarmlessExactly` | src/peer_handler/mod.rs:455-463 | a repetition of the ACK accepted last never ends a transfer, if and only if no options were acknowledged and the file fits into one window |
| `Guarantees.RepeatsServed` | src/peer_handler/mod.rs:409-463 | of all requests served, that holds exactly for those that get no OACK and ask for less than 512 bytes |
| `Guarantees.GreetingKills` | src/peer_handler/mod.rs:455-463 | for every transfer, a reachable world in which a second copy of the ACK 0 that accepted the options is fatal |
| `Guarantees.DuplicateKills` | src/peer_handler/mod.rs:455-463 | for every longer file, a reachable world in which a second copy of ACK 1 is fatal |
| `Guarantees.AcceptsAllOutstandingExactly` | src/peer_handler/mod.rs:455-463 | every ACK of an outstanding block is accepted, if and only if there are at most 65535 blocks or the window is one block |
| `Guarantees.AcceptedUnlessWrapped` | src/peer_handler/mod.rs:455 | in an honest run the ACK of an outstanding block is accepted if and only if no multiple of 65536 lies between the front of the window and that block |
| `Guarantees.FreshAckRefused` | src/peer_handler/mod.rs:455-463 | for every larger transfer with a window of two or more, an honest run in which the ACK of block 65536 is refused |
| `Guarantees.RingHoldsExactly` | src/peer_handler/mod.rs:87-98 | in every honest run each outstanding block is intact in its slot, if and only if there are at most 65535 blocks or the window divides 65536 |
| `Guarantees.OutstandingBlockOverwritten` | src/peer_handler/mod.rs:87-92 | for all other transfers, an honest run that overwrites an outstanding block |
| `Guarantees.TransmissionsFaithful` | src/peer_handler/mod.rs:446-447 | in every honest run of a transfer of at most 65535 blocks, or with a window that divides 65536, each transmission is the header and payload of the block whose turn it is, so all transmissions of a block are the same bytes |
| `Guarantees.OnlyTruePackets` | src/peer_handler/mod.rs:94-98 | in every run, whatever ACKs are accepted, nothing but packets of blocks that were read is ever sent |
| `Guarantees.CompletedSentAll` | src/peer_handler/mod.rs:113-156 | every run of such a transfer that completes, whatever ACKs it accepted, has put the packet of every block on the wire |
| `Guarantees.CountersRefine` | src/peer_handler/mod.rs:110-139 | in every honest run, for files of any length, the 16-bit difference of the two indices is the true number of outstanding blocks and never exceeds the window |
| `Bounds.BoundedExactly` | src/peer_handler/mod.rs:113-155 | over all runs with a receiver and a network, there is a bound on the datagrams of a transfer if and only if it has at most 65535 + w blocks |
| `Bounds.DatagramsBounded` | src/peer_handler/mod.rs:113-155 | for those transfers, in every reachable world: at most max(1, N - w + 1) rounds, at most 5 min(w, N) datagrams in each, and so many in all |
| `Bounds.SendsWithoutEnd` | src/peer_handler/mod.rs:445-477 | for every longer transfer and every n, a reachable world in which n datagrams were sent, since a duplicate of ACK 65535 starts the same round again and again |
| `Bounds.AdvancesExactly` | src/peer_handler/mod.rs:454-455 | every ACK of the receiver that is accepted acknowledges blocks that were outstanding or ends the transfer, if and only if it has at most 65535 + w blocks |
| `Bounds.OutstandingAdvances` | src/peer_handler/mod.rs:454-455 | accepting the ACK of an outstanding block changes the acknowledged index and acknowledges exactly the blocks up to it |
| `Bounds.HonestWithin` | src/peer_handler/mod.rs:113-155 | the same bounds for every honest run of every transfer |
| `Bounds.AssertionsHoldExactly` | src/peer_handler/mod.rs:115-131 | both debug assertions hold in every reachable world if and only if there are at most 65535 + w blocks or the window is 65535 |
| `Bounds.AssertionFails` | src/peer_handler/mod.rs:114-115 | for all other transfers, a reachable world in which the first assertion fails |
| `Guarantees.CompletedLength` | src/peer_handler/mod.rs:117-130 | a completed run, whatever ACKs it accepted, read exactly size / bs + 1 blocks, all full but the last, whose payloads joined are the file and add up to the bytes counted |
| `Guarantees.CompletedReport` | src/peer_handler/mod.rs:146-156 | a completed transfer reports the length of the file and zero blocks; if tsize was requested, that length is the tsize the peer reads in the OACK |
| `Turns.EveryBlockSentExactly` | src/peer_handler/mod.rs:87-98 | in every completed honest run every block went out in its turn, if and only if N is at most 65535, or w divides 65536, or w is over 32768 and N is 65536, or w is 65535 and N at most 131071 |
| `Turns.LosesBlock` | src/peer_handler/mod.rs:117-121 | two blocks with one slot that are read in one go: a completed honest run in which the first of them is never sent |
| `Turns.HonestRound` | src/peer_handler/mod.rs:113-155 | without such blocks, the blocks read in a round are intact until they are sent, and all before them were sent |
| `Losses.SentWhenCompletedExactly` | src/peer_handler/mod.rs:87-98 | every reachable world whose sender has completed has sent every block, if and only if N is at most 65535, or w divides 65536, or N is at most 131071 and one of these holds: N is over 65533 + w, w is 65535, w divides 65537, or w is over 32768 and N is 65536 |
| `Losses.LosesEarly` | src/peer_handler/mod.rs:113-156 | for other transfers of up to 131071 blocks, a reachable world that completes on a partial ACK though a block before the wrap was never sent |
| `Losses.LosesLate` | src/peer_handler/mod.rs:113-156 | for other transfers of more blocks, one that completes on old ACKs though a block before the second wrap was never sent |
| `Losses.StaysDoomed` | src/peer_handler/mod.rs:113-156 | if the end of the file is further away, a block lost at the first wrap stops the receiver for good, and no move of anybody completes the transfer |
| `Transmissions.SoundWaiting` | src/peer_handler/mod.rs:113-155 | where slots do not collide, every run, whatever ACKs it accepted, sends all it has read before it goes on |
| `Transmissions.EveryRunHoldsNewest` | src/peer_handler/mod.rs:87-92 | in every run each slot holds the packet of the newest block that was read into it |
| `Guarantees.ReceiverHoldsPrefix` | src/peer_handler/mod.rs:101-157 | with at most 65536 blocks the receiver holds the first so many blocks in every reachable world, stale ACKs or not, and exactly the file once it has accepted the short block |
| `Guarantees.AlwaysPrefixExactly` | src/peer_handler/mod.rs:118-119 | the receiver holds a prefix of the file in every run, if and only if there are at most 65536 blocks |
| `Guarantees.RunsOver` | src/peer_handler/mod.rs:118-119 | for every larger transfer, a reachable world in which the receiver holds more bytes than the file has |
| `Guarantees.FinalAckMeansDelivered` | src/peer_handler/mod.rs:113-156 | completion implies an ACK from the last window, matched by the receiver, and that every block was sent; if that ACK is of the last block read, the receiver holds the file |
| `Guarantees.SuccessMeansDeliveredExactly` | src/peer_handler/mod.rs:113-156 | completion means that the receiver holds the whole file, in every run, if and only if there is one block, or at most 65535 with a window of one |
| `Guarantees.EndsShort` | src/peer_handler/mod.rs:113-156 | for every transfer of 2 to 65535 blocks and a window of two or more, a run that completes though the receiver is not finished |
| `Guarantees.EndsBlind` | src/peer_handler/mod.rs:455 | for every transfer of 65536 blocks or more, a run that completes on old ACKs though the receiver is not finished |
| `Runs.DriveTo` | src/peer_handler/mod.rs:101-157 | the sender can be brought to any acknowledged count whose window ends by block 65536, with the receiver at the same block |
| `Runs.Advance` | src/peer_handler/mod.rs:113-155 | one round after which exactly the blocks up to a chosen one of the window are acknowledged |
| `Runs.BlindRun` | src/peer_handler/mod.rs:437-478 | once every number has been acknowledged, old ACKs carry the sender to the end of the file without the receiver |
| `Deliveries.ReachableHolds` | src/peer_handler/mod.rs:101-157 | up to 65536 blocks the receiver holds exactly the first m blocks, for some m, in every reachable world |
| `Deliveries.DeliveryHolds` | src/peer_handler/mod.rs:118-119 | up to 65536 blocks, a true packet of whichever block leaves a receiver that takes blocks in order (section 4 of RFC 7440) with the first so many blocks |
| `Deliveries.SendUpTo` | src/peer_handler/mod.rs:113-155 | old ACKs alone make the sender send every block up to any chosen one, though it may overwrite outstanding ones |
| `Deliveries.OldBlockTaken` | src/peer_handler/mod.rs:118-119 | for every block k above 65536, a reachable world in which a late copy of block k - 65536 was taken for it |
| `Lockstep.LosslessDeliversExactly` | src/peer_handler/mod.rs:101-157 | over a network that loses nothing and keeps the order, to a receiver that acknowledges each window, the sender completes and the receiver has the file if and only if w is 1, or N is at most 65535, or N is at most 131071 and w divides 65535 |
| `Lockstep.RunEnds` | src/peer_handler/mod.rs:113-156 | that run always ends, and with the file delivered exactly if none of its windows crosses a wrap |
| `Lockstep.CrossingTicks` | src/peer_handler/mod.rs:455-463 | a window that crosses a wrap ends the run undelivered: its ACK is refused, or the block after a partial ACK is lost |
| `Lockstep.SmoothTicks` | src/peer_handler/mod.rs:114-154 | a window that crosses none arrives whole and is acknowledged whole |
| `Lockstep.HonestKeptOrLost` | src/peer_handler/mod.rs:87-98 | in every honest run each outstanding block is in its slot or lost to a block beyond a wrap |
| `Lockstep.TicksReachable` | src/peer_handler/mod.rs:101-157 | that run is one of the runs of sender, receiver and network |
| `Correspondence.SendFileToReceiver` | src/peer_handler/mod.rs:101-157 | if the peer is a receiver that acts on what was sent and is heard after it spoke, the inputs of `SendFile` lead to a reachable world, where the theorems about the receiver apply |
| `Correspondence.AnsweredReachable` | src/peer_handler/mod.rs:101-157 | any inputs answered in that way are those of a reachable world |
| `Network.AcceptedIsOutstanding` | src/peer_handler/mod.rs:454-455 | while no number has wrapped, an ACK of the receiver that is accepted names a block in (acknowledged, read] |
| `Network.MoveKeepsWorld` | src/peer_handler/mod.rs:101-157 | every move of sender, network or receiver keeps the whole invariant: counters, ring, datagrams sent, the receiver's prefix, and no ACK ahead of the receiver |
| `Network.ReachableSafe` | src/peer_handler/mod.rs:101-157 | that invariant in every reachable world of a transfer of at most 65535 blocks |
| `Network.ReceiveKeepsPrefix` | src/peer_handler/mod.rs:73-86 | a receiver that takes blocks in order (section 4 of RFC 7440) and is handed a true block stays a prefix of the file, and is finished exactly at the last block |
| `RingBuffer.PushStoresPacket` | src/peer_handler/mod.rs:73-86 | reading the next block stores 00 03, its number and its payload in its slot and touches no other |
| `RingBuffer.StepKeepsRing` | src/peer_handler/mod.rs:73-98 | every step keeps every outstanding block in its slot, as long as the window does not span a wrap that matters |
| `RingBuffer.TransmitsTheBlock` | src/peer_handler/mod.rs:446-447 | what goes out is the packet of the block whose turn it is |
| `RingBuffer.HonestRing` | src/peer_handler/mod.rs:73-98 | the ring invariant after every honest run of a sound transfer |
| `RingBuffer.HonestWire` | src/peer_handler/mod.rs:445-453 | after every honest run: only true packets were sent, and every block up to the point reached was |
| `RingBuffer.EveryRunTruthful` | src/peer_handler/mod.rs:73-98 | in every run, honest or not, every slot that is ever sent holds the true packet of some block that was read |
| `Sender.StepKeepsCounters` | src/peer_handler/mod.rs:110-155 | every step keeps the relation of the 16-bit state to the unbounded counts, the window bound, the file offset and the bound on rounds |
| `Sender.HonestCounters` | src/peer_handler/mod.rs:110-155 | that relation after every honest run |
| `Sender.HonestCost` | src/peer_handler/mod.rs:445-477 | the datagrams of a round are those of its earlier attempts and the current one, at most five windows |
| `Sender.HonestTotal` | src/peer_handler/mod.rs:445-477 | all datagrams of a run, by rounds |
| `Slots.SlotsDistinctExactly` | src/peer_handler/mod.rs:87-98 | w consecutive wrapping numbers have distinct slots if and only if they do not cross 65535 to 0 or w divides 65536 |
| `Slots.CrossingSpanCollides` | src/peer_handler/mod.rs:87-98 | two blocks that collide, for every span that crosses and every w that does not divide 65536 |
| `Slots.NearBlocksApart` | src/peer_handler/mod.rs:87-98 | blocks less than a window apart never share a slot where the wrap does not matter |
| `Wire.WrappedDistance` | src/peer_handler/mod.rs:114 | counts at most 65535 apart keep their distance under wrapping subtraction |
| `Wire.WrappedOrder` | src/peer_handler/mod.rs:455 | 16-bit comparison agrees with the order of the counts if and only if no wrap lies between |
| `Blocks.PacketsAre` | src/peer_handler/mod.rs:83-85 | the number of packets is size / bs + 1 |
| `Blocks.PayloadLength` | src/peer_handler/mod.rs:83-85 | every block but the last is full, and the last holds size mod bs bytes |
| `Blocks.PacketLaidOut` | src/peer_handler/mod.rs:73-86 | a DATA packet byte by byte |
| `Blocks.ShortExactlyLast` | src/peer_handler/mod.rs:85 | a read falls short exactly at the last block |
| `Blocks.JoinedIsPrefix` | src/peer_handler/mod.rs:117-126 | the first k payloads joined are that much of the file |
| `PeerHandler.Window.constructor` | src/peer_handler/mod.rs:60-67 | distinct buffers of block size plus header, zero-filled |
| `PeerHandler.Window.PushBlock` | src/peer_handler/mod.rs:73-92 | the slot of the number holds the header and the next min(bs, rest) bytes of the file, cut to length, and every other slot is as before |
| `PeerHandler.Window.SendBlock` | src/peer_handler/mod.rs:94-98 | the packet in the slot of the number is sent, or the send fails |
| `PeerHandler.ReadAcknowledge` | src/peer_handler/mod.rs:159-192 | what is read is what the wait brought, decoded from the whole buffer, with the rest of the script still to come |
| `PeerHandler.AckCameFromPeer` | src/peer_handler/mod.rs:164-177 | an ACK that is read was sent by the peer, as 00 04 and that number |
| `PeerHandler.AckReadExactly` | src/peer_handler/mod.rs:164-177 | a datagram is read as an ACK if and only if it begins with 00 04, and as one of the number that follows |
| `PeerHandler.AbortReadExactly` | src/peer_handler/mod.rs:178-182 | a datagram is read as an abort by the peer if and only if it begins with 00 05, a code and a NUL-closed UTF-8 message |
| `Outcomes.HeardExactly` | src/peer_handler/mod.rs:159-192 | what the sender makes of every wait: silence, an ACK, an abort, or something it cannot use, each if and only if the wait brought that |
| `Outcomes.PeerAborts` | src/peer_handler/mod.rs:146-150 | an ERROR of the peer in any wait of send_file ends it at once, with the bytes read and the blocks of the window as its result, and nothing more is sent |
| `Outcomes.ErrorArrives` | src/datagram_stream.rs:41-58 | such an ERROR is what a wait brings if it is the first datagram that is not passed over |
| `Outcomes.ResultExactly` | src/peer_handler/mod.rs:101-157 | the result of send_file, texts included, for each thing that can happen last, and that a timeout comes only at the fifth attempt |
| `Outcomes.FiveAttempts` | src/peer_handler/mod.rs:445-477 | a window that nobody acknowledges is sent exactly five times, and then the transfer times out |
| `PeerHandler.FireError` | src/peer_handler/mod.rs:33-52 | the ERROR packet goes out, as it was written over the buffer, if and only if it fits and the send works; one that fills the buffer panics |
| `PeerHandler.FiredExactly` | src/peer_handler/mod.rs:33-52 | an error that goes out is complete if and only if the place of its NUL was zero |
| `PeerHandler.SendWindow` | src/peer_handler/mod.rs:446-453 | one attempt sends exactly what the machine sends, up to a send that fails |
| `PeerHandler.Listen` | src/peer_handler/mod.rs:454-475 | the wait is settled as the machine settles it |
| `PeerHandler.SendReliably` | src/peer_handler/mod.rs:437-478 | a round of up to five attempts ends as the machine's round does, on the inputs that the script amounts to |
| `PeerHandler.FillWindow` | src/peer_handler/mod.rs:116-130 | the fill loop reads as the machine reads, until the window is full, the file ends, or the disk fails |
| `PeerHandler.Round` | src/peer_handler/mod.rs:114-154 | one pass of the outer loop follows the machine |
| `PeerHandler.SendFile` | src/peer_handler/mod.rs:101-157 | for every disk and network it ends, and result and datagrams are those of a run of the machine to its end; each wait of that run is what the script brought, a fault in it is a send or a read that failed, and a stale ACK is answered by the error written over it |
| `RemoteFile.GuestHandle.ReadChunk` | src/guestfs/mod.rs:317-340 | a read fails or returns a non-empty part of the file from the offset, nothing only at its end |
| `RemoteFile.FileChunk.Fill` | src/remote_fs.rs:134-148 | as much as fits is copied and taken off the chunk, and the rest of the target is untouched |
| `RemoteFile.FileReader.Open` | src/remote_fs.rs:162-177 | a file that opens stands at its beginning with its first chunk, and it opens if and only if the first read works |
| `RemoteFile.FileReader.BufferNewChunk` | src/remote_fs.rs:179-189 | there is a new chunk exactly if the file has not ended |
| `RemoteFile.FileReader.ReadTo` | src/remote_fs.rs:199-218 | however the disk sizes its chunks it ends, and fills the target with the next min(length, rest) bytes of the file, so it falls short only at the end |
| `RemoteFile.FileReader.GetSize` | src/remote_fs.rs:220-222 | the size of the file |
| `Datagrams.DatagramStream.Send` | src/datagram_stream.rs:28-39 | the datagram goes out, or the send fails |
| `Datagrams.DatagramStream.Recv` | src/datagram_stream.rs:41-58 | the first datagram of the peer that is long enough, within the timeout; ignored ones have overwritten the buffer |
| `Datagrams.ReceivedFromPeer` | src/datagram_stream.rs:41-58 | what is received is a datagram of the peer, and everything before it was ignored |
| `Datagrams.WaitExactly` | src/datagram_stream.rs:41-58 | a wait ends as the first event that is not passed over says, or in a timeout if there is none: received, timed out, or broken |
| `Cursor.ReadCursor.ExtractUshort` | src/cursor/mod.rs:17-25 | a big-endian word, or nothing and no move |
| `Cursor.ReadCursor.ExtractString` | src/cursor/mod.rs:27-50 | the bytes up to the next NUL if they are UTF-8, with the end of data told apart from bad data, and no move on error |
| `Cursor.StringAtField` | src/cursor/mod.rs:27-50 | a NUL-free UTF-8 field that is laid out is read back |
| `Cursor.StringAtMeans` | src/cursor/mod.rs:27-50 | what was read is such a field, laid out there |
| `Text.Utf8Exactly` | src/cursor/mod.rs:27-50 | bytes pass as text if and only if they encode a sequence of Unicode scalar values (RFC 3629) |
| `Cursor.WriteCursor.PutUshort` | src/cursor/mod.rs:63-72 | two bytes are written in place and nothing else, or nothing |
| `Cursor.WriteCursor.PutString` | src/cursor/mod.rs:74-86 | the string is written and a zero one byte behind its place; too long a string is refused, and one that fills the buffer panics |
| `Cursor.PutStringsFits` | src/cursor/mod.rs:74-86 | strings are written if and only if a byte is left over behind them, and the size returned |
| `Cursor.PutStringsExactly` | src/cursor/mod.rs:74-86 | the strings come out each with its NUL if and only if every NUL's place held a zero before or was zeroed by the string before |
| `Cursor.AstrayNul` | src/cursor/mod.rs:82-83 | a string written over a byte that is not zero comes out without its NUL |
| `TftpErrors.Serialize` | src/error.rs:38-53 | written if and only if a byte is left over; what the buffer holds then; complete if and only if the place of the NUL was zero |
| `TftpErrors.ErrorReadsBack` | src/error.rs:46-53 | a complete ERROR packet reads back as its code and message, to its last byte |
| `TftpErrors.CodesAre` | src/error.rs:46-53 | the ERROR packets of the four kinds, byte by byte |
| `Messages.Parse` | src/messages/mod.rs:33-70 | the cursor-driven parser computes `Parsed`, errors and messages included |
| `Messages.ParsesExactly` | src/messages/mod.rs:33-70 | a datagram is accepted as a request if and only if it is 00 01, filename, octet and pairs of options, each NUL-closed UTF-8, and as the request with the last value of each option |
| `Messages.RequestParsesBack` | src/messages/mod.rs:33-70 | the parser inverts the encoder |
| `Messages.OpcodeRefused` | src/messages/mod.rs:34-40 | a datagram gets the error about the opcode if and only if it has another one than 1 |
| `Messages.FilenameRefused` | src/messages/mod.rs:41-43 | it gets the error about the filename if and only if it has opcode 1 and no NUL-closed UTF-8 text after it |
| `Messages.ModeRefused` | src/messages/mod.rs:44-52 | it gets the error about the mode if and only if it has a filename and another mode than octet, not empty |
| `Messages.RefusedExactly` | src/messages/mod.rs:33-70 | every other malformed datagram gets the error about its format |
| `Messages.OverlayExactly` | src/messages/mod.rs:54-68 | an option has the value that came with it last |
| `Messages.FlatAt` | src/messages/mod.rs:97-112 | names and values alternate, each name before its value |
| `Messages.AnswerMalformed` | src/server.rs:95-128 | the ERROR reply to a malformed request is complete if and only if the request buffer held a zero where its NUL belongs |
| `Messages.BrokenReply` | src/server.rs:95-128 | every datagram with another opcode than 1 whose 26th byte is not zero is answered by something else than the ERROR packet |
| `Messages.OptionsAcknowledge.Push` | src/messages/mod.rs:113-115 | the option is appended |
| `Messages.OptionsAcknowledge.Serialize` | src/messages/mod.rs:97-112 | written if and only if a byte is left over; complete if and only if the gaps were clean; without options the size is 0 |
| `Messages.ZeroFilledIsClean` | src/peer_handler/mod.rs:329 | a zero-filled buffer is clean for anything that fits |
| `Messages.OackReadsBack` | src/messages/mod.rs:97-112 | an OACK packet reads back as its options |
| `Messages.OackStringsReadBack` | src/messages/mod.rs:97-112 | an OACK packet reads back as its opcode and every string in order, to its last byte |
| `Options.FindIn` | src/options/mod.rs:34-47 | found if and only if requested as a number in range, and then as that number |
| `Options.PrintedIsFound` | src/options/mod.rs:34-51 | a number that is printed into an option is found again if and only if it is in range |
| `Options.FindTimeout` | src/options/mod.rs:83-96 | found if and only if requested as a number from 1 to 255 |
| `Options.FindBlksize` | src/options/mod.rs:34-47 | found if and only if requested as a number from 8 to 65535, so the cast to 16 bits is lossless |
| `Options.FindWindowSize` | src/options/mod.rs:137-150 | found if and only if requested as a number from 1 to 65535, so the cast to 16 bits is lossless |
| `Options.DecimalParsesBack` | src/options/mod.rs:49-51 | a number that is printed is parsed back |
| `Options.NumberExactly` | src/options/mod.rs:34-47 | the bytes of a number are exactly its decimal digits behind any zeros and at most one plus sign, below 2 to the 64 |
| `Options.ToldIsOffered` | src/peer_handler/mod.rs:536-568 | for every key, the number the peer reads in the OACK is the one the server found |
| `Options.TermsAgree` | src/peer_handler/mod.rs:536-577 | decoding the OACK packet, with defaults 5, 512 and 1, gives exactly the terms the server uses; only requested keys are in it, each exactly if acceptable, and tsize is the size of the file |
| `Options.AnswerLength` | src/peer_handler/mod.rs:536-568 | an OACK is at most 130 bytes long |
| `Datagrams.SurvivesExactly` | src/datagram_stream.rs:41-58 | what lies in the buffer survives any datagrams received over it if and only if each of its bytes is what the last datagram to reach that far carries there |
| `Datagrams.SilentWait` | src/datagram_stream.rs:41-58 | a wait that runs out leaves the buffer with all over it that was ignored meanwhile |
| `Negotiation.CopyTrueExactly` | src/peer_handler/mod.rs:497-511 | the i-th copy of an OACK is a true one if and only if the datagrams ignored before it, in all waits so far, spare it in that sense |
| `Negotiation.FalseCopy` | src/peer_handler/mod.rs:497-511 | for every OACK, a run in which one stray byte makes the second copy something else |
| `Negotiation.OackAttempt` | src/peer_handler/mod.rs:498-520 | one send and one wait: accepted exactly on ACK 0, undecided exactly on silence |
| `Negotiation.RepeatOack` | src/peer_handler/mod.rs:497-527 | up to five copies, each what was in the buffer with all over it that was ignored before; fewer only if a send failed or something was heard; success only if the peer sent ACK 0 |
| `Negotiation.SendOackReliably` | src/peer_handler/mod.rs:480-528 | the same of the OACK, which is written completely if and only if the buffer was clean for it; it succeeds if and only if the wait after the last copy brought ACK 0; the error it must end in otherwise is given byte by byte, and goes out unless its send fails |
| `Negotiation.BuildOack` | src/peer_handler/mod.rs:536-568 | the OACK is the answer to the options, and the terms those agreed |
| `Negotiation.NegotiateOptions` | src/peer_handler/mod.rs:530-578 | the window and timeout are the terms agreed; it succeeds if and only if the peer answered the last of these copies of the OACK with ACK 0, or none was needed |
| `Negotiation.Transmit` | src/peer_handler/mod.rs:418-431 | the transfer, and the errors for a stale ACK and for the failure, each as written over what was in the buffer, and each sent unless its send fails |
| `Negotiation.Send` | src/peer_handler/mod.rs:409-435 | a request is served on the terms agreed: OACK copies, then the machine's datagrams for that transfer, on what the script brings after the peer has accepted, then those errors |
| `Negotiation.BrokenTimeout` | src/peer_handler/mod.rs:522-527 | for every OACK of 26 bytes or more whose 26th is not zero, five silent waits end in something else than the timeout ERROR |
| `Negotiation.SuchAnswer` | src/peer_handler/mod.rs:536-568 | a request for a timeout of 255 and blocks of 65535 bytes gets such an OACK |
| `InotifyEvents.EventFrom` | src/fs_watch/mod.rs:47-74 | there are not enough bytes exactly if they are less than a record, and an event takes up exactly its record |
| `InotifyEvents.RecordParses` | src/fs_watch/mod.rs:47-74 | a well-formed record, whatever follows it, parses as its mask and its name up to the NUL |
| `InotifyEvents.ParsedRecord` | src/fs_watch/mod.rs:47-74 | what parses is a well-formed record, with that mask and name |
| `InotifyEvents.RecordLaidOut` | src/fs_watch/mod.rs:47-74 | a record byte by byte |
| `InotifyEvents.EventNamed` | src/fs_watch/mod.rs:47-74 | an event has the mask of its record, and its name without the padding |
| `InotifyEvents.ParseEvents` | src/fs_watch/mod.rs:209-223 | the loop ends and computes `Events` of the bytes read |
| `InotifyEvents.EventsExactly` | src/fs_watch/mod.rs:209-223 | the events are those of the records the bytes consist of, up to less than a record, and of no others, in order |
| `InotifyEvents.StreamParses` | src/fs_watch/mod.rs:47-74 | any well-formed records followed by less than a record give their masks and names |
| `AsyncChannel.SharedQueue.Push` | src/fs_watch/async_channel.rs:32-37 | the item is appended and the registered consumer woken |
| `AsyncChannel.SharedQueue.PopNowait` | src/fs_watch/async_channel.rs:39-45 | the first item is taken, if any |
| `AsyncChannel.SharedQueue.RegisterWaker` | src/fs_watch/async_channel.rs:46-48 | the waker is replaced |
| `AsyncChannel.SharedQueue.Poll` | src/fs_watch/async_channel.rs:97-106 | ready with the first item, or pending with the waker registered |
| `AsyncChannel.Fifo` | src/fs_watch/async_channel.rs:32-48 | in every run what was delivered is what the operations pushed, in that order, as far as it was polled for, and the rest is queued |
| `AsyncChannel.PollAnswers` | src/fs_watch/async_channel.rs:97-106 | a poll brings the next item that was pushed and not taken yet, if there is one |
| `AsyncChannel.CarryOut` | src/fs_watch/async_channel.rs:32-106 | any operations carried out on a queue bring exactly those items |
| `AsyncChannel.WakerExactly` | src/fs_watch/async_channel.rs:46-48 | a waker is registered if and only if the last operation was a poll in vain, and then the queue is empty |
| `AsyncChannel.WaitsExactly` | src/fs_watch/async_channel.rs:94-107 | a consumer waits unwoken if and only if its last poll was in vain and no push came right after it |
| `AsyncChannel.NoLostWakeupExactly` | src/fs_watch/async_channel.rs:94-107 | nobody waits while something is queued, in every run, if and only if there is at most one consumer |
| `Server.StepConserves` | src/server.rs:46-74 | every event keeps the account of handlers |
| `Server.HandlersConserved` | src/server.rs:46-115 | in every run each handler ever created is in the table, shut down once or dropped once, and in one of these only, and one that was dropped had finished before |
| `Server.TableExactly` | src/server.rs:46-115 | in every run a peer has a handler if and only if it was made for the peer and nothing has displaced it since |
| `Server.StaysExactly` | src/server.rs:46-115 | a handler stays if and only if the event is not a new configuration or a refused request of its peer, nor its end |
| `Server.MadeExactly` | src/server.rs:53-115 | a handler is made exactly for a changed configuration and for a request of a peer that has none |
| `Server.ServedExactly` | src/server.rs:53-115 | after a request or a changed configuration the peer has a handler, the new one if one was made, unless the request was refused |
| `Server.GoneExactly` | src/server.rs:46-115 | which handlers an event shuts down, and that only their own end drops them |
| `Server.TftpServer.Retain` | src/server.rs:48 | finished handlers are dropped, and only those |
| `Server.TftpServer.Install` | src/server.rs:53-61 | a new handler in place of the previous one, which is shut down |
| `Server.TftpServer.HandleRequest` | src/server.rs:95-115 | the peer's handler is fed, made if need be, and shut down if it refuses |
| `Server.TftpServer.Drop` | src/server.rs:138-144 | every handler left is shut down |
| `Server.TftpServer.Serve` | src/server.rs:40-75 | the loop over any events and the drop: each handler the events called for was shut down once, or dropped once after it had finished |
| `Sessions.SessionsConserved` | src/peer_handler/mod.rs:298-341 | in every run no session handle is overwritten or lost, and none is discarded before its session has finished |
| `Sessions.StoppedExactly` | src/peer_handler/mod.rs:305-316 | in every run the handler has stopped if and only if a second of silence found it idle too long and no session left |
| `Sessions.HeldExactly` | src/peer_handler/mod.rs:305-330 | a session is held on until the handler finds that it has finished, and no longer |
| `Sessions.ServedExactly` | src/peer_handler/mod.rs:318-340 | after a request its port has a session, a new one if and only if it had none |
| `Sessions.AllServed` | src/peer_handler/mod.rs:298-340 | as long as no second of silence finds the handler idle too long, every request is served |
| `Sessions.StartsOnlyOnRequest` | src/peer_handler/mod.rs:298-340 | nothing but a request for its port starts a session |
| `Sessions.HandleEvent` | src/peer_handler/mod.rs:298-341 | what the handler does with a request or a second of silence |
| `Sessions.PeerRequestsHandler` | src/peer_handler/mod.rs:288-349 | the handler starts the sessions the requests call for, sends an error for each that finds the table full, and when it returns every session has finished and its handle was discarded once |
| `Sessions.LimitNotEnforced` | src/peer_handler/mod.rs:331-340 | whatever room the table has, never less than it holds and more after an insert into a full one, all that ask, up to all 65536 ports, are served at once, and exactly those that found the table full get an error besides |
| `Sessions.ServedBeyond` | src/peer_handler/mod.rs:331-340 | with room for so many, the next one gets the only error, and it and any number after it are served |
| `Sessions.NeverRefusedTwice` | src/peer_handler/mod.rs:331-340 | in every run no two requests in a row get the error |

## Left out

- libguestfs, NBD attachment and mounting (`src/guestfs/mod.rs`, `src/nbd_disk/mod.rs`): only the contract of a chunk read is kept, and the size of the file is taken to be stable from open to end.
- Local files (`src/local_fs/mod.rs`): operating-system calls; the sender is proved over the remote reader, whose reads fall short only at the end of the file.
- Sockets, the runtime, threads and timers (`src/main.rs`): scripts of events stand for them; a script is finite, and silence follows it.
- Choosing among roots and opening a file (`src/peer_handler/mod.rs:351-407`): no state and no loop beyond the first match.
- Configuration, command line, logging and Display code: no property beyond their text.
- The room in the table of sessions: the standard library chooses it, so it is an input of the model, within what `Roomy` says of any such table.
- The moment at which an idle handler stops: it rests on the wall clock and is an input of the model.
- Lossy conversion of event names to text: names are kept as bytes up to the NUL, and words are little-endian.
- Debug builds: the model follows a release build, which goes on where an assertion fails; for which transfers one can fail is stated by `AssertionsHoldExactly`.
- Network.ReachableSafe: stated for transfers of at most 65535 blocks, because past that number the invariant fails, as the theorems on stale ACKs show; what the receiver holds is stated up to 65536 blocks.
