# ShieSH, verified

A Dafny model of the Shielded Shell (ShieSH), a port of OpenSSH to Windows. One
connection thread, the busy thread, talks to the threads of subsystems through swapped
double buffers. The project models the transport and channel layers, the double buffers,
the byte buffer and the wire encodings under them, the key exchange, and four
self-contained algorithms, and proves what they promise over whole runs.

`dafny verify dfyconfig.toml` checks all of it.

## How it is laid out

**Transport** (RFC 4253 sections 6 to 9). `Packets` is one packet on each side: padding,
MAC, encryption and the incremental reader. `RekeyQueue` is the sender with the packets
it holds back during a key exchange. `Stream` joins both sides by a network that may cut
the bytes anywhere, with keys changing at every NEWKEYS, and proves the round trip;
`Sessions` lets each side negotiate and derive its keys for itself. `PacketSoundness` takes
the reader alone, on any input at all. `OnTheWire` says what the bytes are in terms of the
block function and the MAC, and `KeyUse` what each packet takes from its key and from the
random generator. `Cipher` is AES in counter mode over any block function, so that nothing
is assumed of AES; the MAC and the hash are arbitrary functions as well. `Connection` holds
the objects that do all this in place, proved against `Packets` and `RekeyQueue`.

**Channels** (RFC 4254 sections 5.2 and 5.3). `ReceiveWindow` and `SendWindow` are the two
directions, `Channels` the channel with its close machine as atomic moves of the busy
thread and the worker in any order, `CloseSafety` what every run keeps, `Liveness` what a
channel does get done, `Endings` what it tells the peer, `Histories` that the histories the
laws speak of are those of the moves, `ChannelIds` a table of channels over the
`Repository`. `SessionChannel` is the object form.

**Double buffers.** `WriteDoubleBuffer` and `ReadDoubleBuffer` are two-thread step systems
with the objects they describe; `DoubleBuffer` is what they share. A step is one of the
lock-protected or single-test regions of the code, and puts come between any two of them.

**Buffer, encodings and key exchange.** `Buffers`, `BufferAux`, `Wire` and `Bytes`;
`Proposals`, `Negotiation` and `KeyExchange`; `Messages`, `Tokens` and `Options` are shared
small change.

**Algorithms.** `Base64`, `Glob`, `Cidr` and `UniformRandom`.

A method that changes an object states its new state as a function of the old one
(`view == PutStep(old(view), data)`), and the laws are proved about those functions.

## Where the code does not keep a promise

- `BusyThreadWriteBuffer` can deliver out of order (`EndOfFileOvertakesData`). `FifoExactly`
  gives the interleavings in which it does: those with a put between lines 201 and 204 of a
  `get`, and then one between 204 and 220, or one on each side of the swap at 220. With
  201-204 as one step it is a FIFO.
- `BusyThreadReadBuffer::dataReady` can be down while a message waits, with a put inside a
  `get` (`EventCanBeMissed`) or with none (`EventMissedBetweenGets`). `EventExactly`: it is up
  whenever a message waits exactly in the runs where no `get` resets it with a message in
  the write half.
- The input half of a channel can go from closed back to draining (`InputCanReopen`).
  `InputBackExactly` names the two moves that do it, and `InputForwardExactly` the runs without
  them; the output half never goes back.
- An SFTP channel loses 4 bytes of window for a message forwarded with nothing consumed
  (`FirstMessageLoses`). The loss is exactly 4 for each such forward (`Loses`), so the window is
  whole exactly in the runs without one (`ReceiveWindowConserved`).
- `match_pattern` refuses some strings that a pattern ending in two asterisks means
  (`TwoStarsRefuseNothing`). `MatchIsExact` shows that those patterns are the only ones;
  two asterisks anywhere else do no harm.

## Model

| member | source | states |
|---|---|---|
| `Stream.StreamRoundTrip` | shiesh/CoreConnection.cpp:315-454 | in every run of both sides, over any chunking and any number of key changes, the reader has returned exactly the first packets sent, in order and numbered from 0; it gives up only on a limit that the next packet sent breaks |
| `Stream.NothingOnlyWhileIncomplete` | shiesh/CoreConnection.cpp:315-454 | a call returns nothing exactly while bytes of the next packet are missing, and that packet, with its sequence number, otherwise |
| `Stream.EverythingArrives` | shiesh/CoreConnection.cpp:873-991 | once all bytes are across, polling returns every packet sent that breaks no limit |
| `Stream.DeliveredAsAsked` | shiesh/CoreConnection.cpp:994-1036 | in every run the ordinary messages returned are the first of those that `packet_send` was called with, in order, none dropped or repeated, and so are the transport messages |
| `Sessions.NegotiatedRoundTrip` | shiesh/CoreConnection.cpp:1968-1989 | the round trip between two sides that each negotiate and derive their own keys, over any exchanges and in either direction |
| `Sessions.SidesMeet` | shiesh/CoreConnection.cpp:1968-1989 | what one side sends under is what the other reads under, or neither has keys |
| `Sessions.KeysOfDirection` | shiesh/CoreConnection.cpp:761-835 | what a side sends under is the cipher and the MAC settled for its direction, with the keys of that direction's letters and the first block of its IV |
| `PacketSoundness.ReaderIsSound` | shiesh/CoreConnection.cpp:315-454 | over arbitrary bytes in any chunks, keys derived and calls made at any time, the bytes consumed are the encodings of the packets returned end to end, each at the cursor behind the one before, plus at most one begun first block |
| `PacketSoundness.WaitingLosesNothing` | shiesh/CoreConnection.cpp:331-372 | a call that waits and is resumed with more input does what one call on all of it does |
| `OnTheWire.OneStreamPerKey` | shiesh/CoreConnection.cpp:934-981 | all that is sent under one set of keys: ciphertexts that together are one counter-mode stream from the IV over the packets, and behind each the MAC of its own sequence number and the whole packet |
| `OnTheWire.OnlyAuthenticReturned` | shiesh/CoreConnection.cpp:374-413 | over arbitrary bytes, every packet returned under keys was followed by the MAC, under those keys, of its sequence number and its whole plaintext |
| `OnTheWire.OnlyMadeIsReturned` | shiesh/CoreConnection.cpp:374-413 | if the only right tags in the bytes taken are those made for given pairs of number and packet, the packet returned is one of them, at its own number, over arbitrary bytes in any chunks |
| `OnTheWire.ChangedIsRefused` | shiesh/CoreConnection.cpp:331-413 | a packet changed on the way or moved in the sequence ends the connection with nothing returned: for a length out of range or unaligned, and, the length unchanged, for its MAC unless two MACs agree by accident |
| `Packets.CryptInTwo` | shiesh/CoreConnection.cpp:334-400 | decrypting the first block and the rest in two calls undoes the one encryption and leaves the same cursor |
| `RekeyQueue.SilentWhileRekeying` | shiesh/CoreConnection.cpp:994-1036 | in every run a NEWKEYS lies between our KEXINIT and the next packet that is not of the transport layer |
| `RekeyQueue.HeldPacketsKeepTheirOrder` | shiesh/CoreConnection.cpp:994-1036 | the other packets sent, then the queue, are those asked for in order; held ones go out under the next keys; the queue is empty outside a key exchange |
| `RekeyQueue.NothingIsDropped` | shiesh/CoreConnection.cpp:994-1036 | in every run the ordinary packets sent, then the queue, are exactly those that `packet_send` was called with, in order, and so are the transport packets sent; a prefix of them if the process has ended |
| `KeyUse.PaddingIsFresh` | shiesh/CoreConnection.cpp:915-945 | in every run each packet's padding is the shortest of at least 4 bytes that fills its last block of 16 (8 before keys), and is the generator's bytes in order, low byte of a word first, no word used for two packets (zeros before keys) |
| `KeyUse.KeysAreRetired` | shiesh/CoreConnection.cpp:977-982 | in every run at most 2^32 packets go out under one key, fewer while the process runs; it ends only there or at a NEWKEYS without new keys |
| `Connection.Writer.Emit` | shiesh/CoreConnection.cpp:873-991 | padding, MAC, encryption, counters and the key switch in place are the packet-level step, whose bytes `OneStreamPerKey` and `PaddingIsFresh` describe |
| `Connection.Writer.RandomPadding` | shiesh/CoreConnection.cpp:930-941 | the loop takes four padding bytes from each random word |
| `Connection.Writer.SetNewkeys` | shiesh/CoreConnection.cpp:761-835 | the new keys and counter are in use and the packet count starts again, the sequence number does not |
| `Connection.Writer.PacketSend2Wrapped` | shiesh/CoreConnection.cpp:873-991 | the object does one packet as `SendWrapped` says |
| `Connection.Writer.PacketSend2` | shiesh/CoreConnection.cpp:994-1036 | holding back and the flush loop after NEWKEYS are the rekey queue's step, of which `NothingIsDropped` says what becomes of each call |
| `Connection.Writer.FlushOutgoing` | shiesh/CoreConnection.cpp:1018-1036 | the loop sends all held packets in order |
| `Connection.Reader.PacketReadPoll2` | shiesh/CoreConnection.cpp:315-454 | the incremental reader in place is `Poll`, resuming where the last call stopped; `OnlyAuthenticReturned` and `StreamRoundTrip` say what it returns |
| `Cipher.CtrIncValue` | shiesh/cipher-ctr.cpp:43-51 | the increment adds one to the big-endian counter and wraps to 0 |
| `Cipher.SshCtrInc` | shiesh/cipher-ctr.cpp:43-51 | the loop over the counter bytes is that increment |
| `Cipher.CountersDistinct` | shiesh/cipher-ctr.cpp:43-51 | no counter comes twice within a period |
| `Cipher.SshAesCtr` | shiesh/cipher-ctr.cpp:53-75 | the byte loop is the counter-mode stream, and leaves the counter behind the blocks used |
| `Cipher.CtrCryptTwice` | shiesh/cipher-ctr.cpp:53-75 | decryption is encryption |
| `Cipher.CtrCryptConcat` | shiesh/cipher-ctr.cpp:53-75 | cutting at a multiple of the block changes nothing (section 4 of RFC 4344) |
| `Cipher.XorBit` | shiesh/cipher-ctr.cpp:53-75 | each bit of the exclusive or is 1 exactly when the two bits differ |
| `Cipher.CounterMode` | shiesh/cipher-ctr.cpp:53-75 | bit k of byte i is that of the source byte, flipped by bit k of byte i mod 16 of the encrypted counter block number i/16 |
| `Channels.ReceiveWindowConserved` | shiesh/Channel.cpp:283-307 | in every interleaving with a peer that respects the window, the local window is the peer's credit, and window, consumed, buffered and in-transit bytes make up the maximum, less exactly 4 for each SFTP forward with nothing consumed |
| `Channels.FirstMessageLoses` | shiesh/SFTPChannel.cpp:62-88 | the loss happens: the first SFTP message costs 5 bytes of window of which 1 will be given back |
| `Channels.PeerNeverStalls` | shiesh/Channel.cpp:283-307 | a raw channel whose data is taken and credited leaves the peer all but three packets of the 2M window after a check |
| `Channels.StreamReachesSubsystem` | shiesh/SFTPChannel.cpp:36-88 | whatever the peer does, what was accepted is the messages forwarded, raw or cut at their length prefixes, and then `descending`; each reaches the worker at most once, and between two of its gets as the first ones in order, exactly without a race |
| `Channels.SendWindowConserved` | shiesh/Channel.cpp:186-236 | in every run data sent plus remote window is what the peer granted, exactly while the peer stays below 2^32; every packet is within the peer's limit; data sent and `ascending` are the subsystem's output in order |
| `Histories.HistoriesAreTrue` | shiesh/CoreConnection.cpp:2565-2716 | in every run what the channel counts as sent by the peer, accepted, granted, put by the subsystem, closed and ended is what the moves of the run did |
| `Liveness.PollShips` | shiesh/Channel.cpp:196-236 | a poll of an open channel whose input half is not closed sends one data packet exactly when there are bytes, window and packet size: the first bytes waiting, until none waits, no window is left or the packet is full |
| `Liveness.PollsSend` | shiesh/Channel.cpp:196-236 | any number k of polls sends exactly the first min(waiting, window, k packets) bytes |
| `Liveness.PollsSendAll` | shiesh/Channel.cpp:196-236 | with window for what waits, enough polls send all of it |
| `Liveness.MessagesAreFetched` | shiesh/SessionChannel.cpp:114-118 | in every run a message of the subsystem that waits is taken over within five steps of `get` |
| `Liveness.MessagesAreDelivered` | Concurrenc++/BusyThreadWriteBuffer.h:168-235 | in every run a message that waits for a running subsystem is handed over within six steps of its `get` |
| `Liveness.ForwardsAll` | shiesh/SessionChannel.cpp:120-136 | forwarding on a raw channel empties `descending` into one message, or ends exactly above one chunk |
| `Liveness.ForwardsFirst` | shiesh/SFTPChannel.cpp:62-88 | forwarding on an SFTP channel cuts off exactly the first message once all of it is there |
| `ReceiveWindow.WindowAddsUp` | shiesh/CoreConnection.cpp:2565-2615 | the sum for the receiving half alone, from its invariant |
| `SendWindow.SendWindowAddsUp` | shiesh/Channel.cpp:186-236 | the sum for the sending half alone, from its invariant |
| `ReceiveWindow.PutIsSomewhere` | Concurrenc++/BusyThreadWriteBuffer.h:110-246 | bytes put and not credited are in a half of the double buffer or in a consumed counter |
| `CloseSafety.ClosesOnce` | shiesh/Channel.cpp:314-386 | in every run, also with the worker acting inside `hasAscendingData`, at most one CLOSE and no data after it; input not open means output not open; deleted only after CLOSE sent and received |
| `Liveness.CollectCloses` | shiesh/Channel.cpp:343-386 | in every run a collection sends a CLOSE exactly when both halves are closed, none went out, and this side is done or the peer has closed; it deletes the channel exactly when both halves are closed and the peer has closed |
| `Liveness.SubsystemEndCloses` | shiesh/SessionChannel.cpp:243-271 | in every run, once the subsystem is over and nothing is left to send, its notice, a poll and a collection send the CLOSE, and the peer's CLOSE then deletes the channel |
| `Liveness.PeerCloseEnds` | shiesh/SessionChannel.cpp:100-112 | in every run a channel the peer closed, drained both ways with its subsystem over, is deleted after one more round |
| `Liveness.OutputEnds` | shiesh/Channel.cpp:314-333 | the output half ends exactly when nothing is left to forward, and the end of file is put behind all that was |
| `Endings.EndsAreAnnounced` | shiesh/Channel.cpp:224-255 | in every run EOF and exit status were sent exactly when the channel holds they were; a closed input half or a CLOSE means EOF was sent, and EOF that the subsystem is over, unless the peer closed |
| `CloseSafety.OutputOnlyForward` | shiesh/ChannelPars.cpp:66-77 | the output half never moves backward over any continuation of any run |
| `CloseSafety.InputBackExactly` | shiesh/SessionChannel.cpp:243-271 | in every reachable channel the input half goes back exactly when a drained output half ends over a closed input half, or on the notice that the subsystem is over |
| `CloseSafety.InputForwardExactly` | shiesh/ChannelPars.cpp:66-77 | the input half only moves forward exactly in the runs without such a move |
| `CloseSafety.InputCanReopen` | shiesh/ChannelPars.cpp:66-77 | a run with one |
| `ChannelIds.IdsComeBackOnlyAfterClose` | Concurrenc++/Repository.h:221-290 | an id is handed out exactly as often as channels under it were deleted, plus one while in use, and each deleted channel had sent and received CLOSE |
| `Repository.Repository.CreateObject` | Concurrenc++/Repository.h:164-193 | the object gets the least free id from 1 up |
| `Repository.Repository.FirstUnusedObjectId` | Concurrenc++/Repository.h:271-290 | the search loop finds the least free id, growing the slots by one if there is none |
| `Repository.Repository.DeleteObjectById` | Concurrenc++/Repository.h:232-254 | exactly that slot is freed, or nothing changes |
| `Repository.Repository.ReplaceObject` | Concurrenc++/Repository.h:195-219 | the object is replaced under its own id, or nothing changes |
| `SessionChannel.SessionChannel.OpenWith` | shiesh/Channel.cpp:171-183 | the window is announced as the open step says |
| `SessionChannel.SessionChannel.ChannelInputData` | shiesh/CoreConnection.cpp:2565-2615 | data is ignored, counted as consumed, dropped or buffered as the step says |
| `SessionChannel.SessionChannel.RcvdIeof` | shiesh/Channel.cpp:314-333 | the output half closes, at once if nothing is left |
| `SessionChannel.SessionChannel.ChannelInputOclose` | shiesh/CoreConnection.cpp:2636-2678 | both halves go on as the step says, with an EOF if the input was draining |
| `SessionChannel.SessionChannel.RemoteWindowAdjust` | shiesh/CoreConnection.cpp:2696-2716 | the remote window grows modulo 2^32 |
| `SessionChannel.SessionChannel.ChannelOutputPoll` | shiesh/Channel.cpp:186-238 | one data packet within window and limit, and the first test of `hasAscendingData`; `PollShips` says when and what |
| `SessionChannel.SessionChannel.FinishPoll` | shiesh/Channel.cpp:239-255 | the second test, and the end of a drained input half |
| `SessionChannel.SessionChannel.ChannelCheckWindow` | shiesh/Channel.cpp:283-307 | what was consumed is given back under the code's test |
| `SessionChannel.SessionChannel.ChanIsDead` | shiesh/Channel.cpp:343-386 | the answer and the CLOSE sent on the way; `CollectCloses` says when |
| `SessionChannel.SessionChannel.GarbageCollect` | shiesh/SessionChannel.cpp:100-112 | the two tests and the end of the session between them; `CollectCloses` says what they amount to |
| `SessionChannel.SessionChannel.FillEvents` | shiesh/ChannelPars.cpp:66-77 | the turn of one channel: the drained output half ends, then garbage collection |
| `SessionChannel.SessionChannel.SubprocTerminatedNotify` | shiesh/SessionChannel.cpp:243-271 | exit status and both half states |
| `SessionChannel.SessionChannel.Descend` | shiesh/SessionChannel.cpp:120-136 | what is forwarded to the subsystem, raw or SFTP |
| `SessionChannel.SessionChannel.Ascend` | shiesh/SessionChannel.cpp:114-118 | one step of fetching a message from the subsystem |
| `SessionChannel.Receiver.Descending2sftp` | shiesh/SFTPChannel.cpp:62-88 | one message is cut at its length prefix, with the 4 bytes given back only if something was consumed |
| `SessionChannel.Receiver.Descending2subproc` | shiesh/SessionChannel.cpp:120-136 | all of `descending` as one message |
| `SessionChannel.Transmitter.Ship` | shiesh/Channel.cpp:196-236 | the least of the data there is, the window and the packet limit; `PollsSend` is what repeated polls add up to |
| `WriteDoubleBuffer.NothingLostOrDuplicated` | Concurrenc++/BusyThreadWriteBuffer.h:110-246 | in every interleaving delivered plus both halves is what was put, counters are lengths, and credits match deliveries |
| `WriteDoubleBuffer.FifoExactly` | Concurrenc++/BusyThreadWriteBuffer.h:168-235 | between two gets the messages taken and next to be taken are the first ones put, in order, if and only if no `get` had its gaps hit in the one bad pattern |
| `WriteDoubleBuffer.FifoWhenTestAndSwapTogether` | Concurrenc++/BusyThreadWriteBuffer.h:201-204 | with the test and the swap as one step it is a FIFO |
| `WriteDoubleBuffer.EndOfFileOvertakesData` | Concurrenc++/BusyThreadWriteBuffer.h:168-235 | an interleaving, for every message, in which the end of file is delivered first |
| `WriteDoubleBuffer.NeverStuckNorEmptyHanded` | Concurrenc++/BusyThreadWriteBuffer.h:168-235 | a waiting worker has its event up exactly when a message is there, and the process ends only on an oversized message |
| `WriteDoubleBuffer.EveryPutCounts` | Concurrenc++/BusyThreadWriteBuffer.h:110-164 | in every interleaving what was put is each call's message in order, empty puts apart and ends of file included |
| `WriteDoubleBuffer.WaitingMessagesAreTaken` | Concurrenc++/BusyThreadWriteBuffer.h:168-235 | from any reachable point a worker left alone takes a waiting message within six steps |
| `WriteDoubleBuffer.ConsumedIsCredited` | Concurrenc++/BusyThreadWriteBuffer.h:110-147 | after two puts around the swap of a worker about to wait, every byte it was given is credited |
| `WriteDoubleBuffer.OtherEventsAreHeard` | Concurrenc++/BusyThreadWriteBuffer.h:204-222 | a waiting worker answers another of its events exactly when no message is there |
| `WriteDoubleBuffer.BusyThreadWriteBuffer.Put` | Concurrenc++/BusyThreadWriteBuffer.h:110-147 | the stored bytes, counters and event after a put, and the credit given |
| `WriteDoubleBuffer.BusyThreadWriteBuffer.PutEof` | Concurrenc++/BusyThreadWriteBuffer.h:149-164 | an empty message and the event |
| `WriteDoubleBuffer.BusyThreadWriteBuffer.TakeOne` | Concurrenc++/BusyThreadWriteBuffer.h:187-235 | the first message stored is the one returned |
| `WriteDoubleBuffer.BusyThreadWriteBuffer.Advance` | Concurrenc++/BusyThreadWriteBuffer.h:168-235 | any other step of `get` |
| `WriteDoubleBuffer.BusyThreadWriteBuffer.Swap` | Concurrenc++/BusyThreadWriteBuffer.h:237-246 | halves, counts and consumed counters change places |
| `ReadDoubleBuffer.FifoAlways` | Concurrenc++/BusyThreadReadBuffer.h:86-176 | in every interleaving delivered, read half and write half are the puts in order |
| `ReadDoubleBuffer.EveryPutCounts` | Concurrenc++/BusyThreadReadBuffer.h:86-100 | in every interleaving what was put is each call's message in order |
| `ReadDoubleBuffer.WaitingMessagesAreTaken` | Concurrenc++/BusyThreadReadBuffer.h:102-160 | from any reachable point five steps of `get` take a waiting message |
| `ReadDoubleBuffer.EventExactly` | Concurrenc++/BusyThreadReadBuffer.h:102-160 | the event is up whenever a message waits, all through a run, if and only if no `get` resets it while the write half holds a message |
| `ReadDoubleBuffer.EventCanBeMissed` | Concurrenc++/BusyThreadReadBuffer.h:102-160 | an interleaving in which a message waits with the event down |
| `ReadDoubleBuffer.EventMissedBetweenGets` | Concurrenc++/BusyThreadReadBuffer.h:102-160 | one without a put inside a `get` |
| `ReadDoubleBuffer.BusyThreadReadBuffer.Put` | Concurrenc++/BusyThreadReadBuffer.h:86-100 | the stored bytes, count and event after a put |
| `ReadDoubleBuffer.BusyThreadReadBuffer.TakeOne` | Concurrenc++/BusyThreadReadBuffer.h:102-160 | the first message is appended to the output, raw or behind its length |
| `ReadDoubleBuffer.BusyThreadReadBuffer.Advance` | Concurrenc++/BusyThreadReadBuffer.h:102-160 | any other step of `get` |
| `Buffers.Buffer.AppendSpace` | shiesh/buffer.cpp:95-130 | fatal exactly when no layout is left; the new layout; contents kept; at most one slide and one growth; offset <= end < alloc <= 0xa00000 |
| `Buffers.Buffer.Append` | shiesh/buffer.cpp:64-70 | the data is appended to the contents exactly when there is room |
| `Buffers.Buffer.Compact` | shiesh/buffer.cpp:72-88 | the contents slide to the front and stay the same |
| `Buffers.Buffer.CheckAlloc` | shiesh/buffer.cpp:136-151 | its answer is that of an append, before and after, and the contents stay |
| `Buffers.Buffer.Get` | shiesh/buffer.cpp:163-174 | the first bytes leave the contents, or nothing changes |
| `Buffers.Buffer.Consume` | shiesh/buffer.cpp:185-194 | bytes leave at the front |
| `Buffers.Buffer.ConsumeEnd` | shiesh/buffer.cpp:205-212 | bytes leave at the end |
| `Buffers.FitsBelowBound` | shiesh/buffer.cpp:95-130 | wherever the data sits, an append is not fatal while fewer bytes than the bound for its length are held |
| `Buffers.BoundIsReached` | shiesh/buffer.cpp:95-130 | for every length a run of appends and consumes from an empty buffer reaches the bound, and the append is fatal there |
| `Buffers.RoomIsAppended` | shiesh/buffer.cpp:132-151 | up to a chunk the answer of `buffer_check_alloc` is whether the append succeeds |
| `Buffers.EmptyStartsOver` | shiesh/buffer.cpp:95-130 | an emptied buffer takes what fits its memory at the front, without growing |
| `BufferAux.PutInt` | shiesh/bufaux.cpp:131-138 | four big-endian bytes are appended, exactly when the append is not fatal |
| `BufferAux.PutString` | shiesh/bufaux.cpp:214-219 | length and bytes are appended, exactly when neither append is fatal |
| `BufferAux.GetString` | shiesh/bufaux.cpp:157-183 | the string and what is left, refusal, or fatal error, as the encoding says |
| `BufferAux.PutBignum2` | shiesh/bufbn.cpp:137-173 | the minimal mpint is appended, exactly when no append is fatal |
| `BufferAux.GetBignum2` | shiesh/bufbn.cpp:182-211 | the number decoded, or the error |
| `Bytes.PutU32Inverse` | shiesh/misc.cpp:755-805 | writing undoes reading of four bytes |
| `Wire.StringRoundTrip` | shiesh/bufaux.cpp:157-219 | a written string reads back with its rest exactly when it is within 256K |
| `Wire.StringReadIsWritten` | shiesh/bufaux.cpp:157-183 | whatever is read was written that way |
| `Wire.StringPrefixFree` | shiesh/bufaux.cpp:214-219 | strings are self-delimiting |
| `Wire.MpintRoundTrip` | shiesh/bufbn.cpp:137-211 | decoding inverts encoding exactly below 2^(8*8192-1) and refuses above |
| `Wire.EncodeMpintLength` | shiesh/bufbn.cpp:137-173 | an encoding fits k bytes exactly below 2^(8k-1) |
| `Wire.MpintMinimal` | shiesh/bufbn.cpp:137-173 | no other body of the number is as short |
| `KeyExchange.TranscriptInjective` | shiesh/kexdh.cpp:37-69 | two exchanges are hashed over the same bytes exactly when all eight parts agree |
| `KeyExchange.TranscriptReads` | shiesh/kexdh.cpp:37-69 | a reader of strings finds V_C, V_S, I_C, I_S, K_S, e, f and K in that order and nothing behind |
| `KeyExchange.KexDhTranscript` | shiesh/kexdh.cpp:37-69 | the buffer built is the transcript, and it is built whenever that is no longer than a chunk |
| `KeyExchange.InitIsString` | shiesh/kexdh.cpp:58-64 | the faked header makes a KEXINIT payload a string that starts with its type |
| `KeyExchange.DeriveKey` | shiesh/CoreConnection.cpp:1991-2037 | the loop fills the rounded-up allocation with K1, K2, ... for its letter and writes nothing past it: every block is the hash that section 7.2 of RFC 4253 prescribes |
| `KeyExchange.KeyExtends` | shiesh/CoreConnection.cpp:1991-2037 | a key has the bytes needed, and a longer need starts with a shorter one's key |
| `KeyExchange.KeyIsDerived` | shiesh/CoreConnection.cpp:1991-2037 | byte by byte, a key is HASH(K, H, letter, session id) and then HASH(K, H, what is there so far), in whole digests |
| `KeyExchange.DirectionsLettered` | shiesh/CoreConnection.cpp:1968-1989 | IV, key and MAC key come from A, C and E to the server and B, D and F back |
| `KeyExchange.SixKeys` | shiesh/CoreConnection.cpp:1968-1989 | no two of the six keys are the same if the hash tells the six letters apart |
| `KeyExchange.LettersGiveInputs` | shiesh/CoreConnection.cpp:1991-2037 | the six hash inputs are pairwise different |
| `KeyExchange.KexDeriveKeys` | shiesh/CoreConnection.cpp:1968-1989 | letters A, C, E from client to server and B, D, F back, by mode and role, each key derived byte by byte from its own letter |
| `KeyExchange.Rekey` | shiesh/CoreConnection.cpp:2079-2131 | the code of one role computes `Rekeyed`, a function of the exchange |
| `KeyExchange.KeysMeet` | shiesh/CoreConnection.cpp:1968-1989 | the two sides of every exchange both end, or each one's outgoing algorithms and keys are the other's incoming ones, all long enough |
| `Negotiation.MatchList` | shiesh/match.cpp:235-273 | the first client name, before any empty one, among the first 40 server names before any empty one |
| `Negotiation.CommonIsFirst` | shiesh/match.cpp:235-273 | that is the first common name, and none only if there is none |
| `Negotiation.NamesOfJoin` | shiesh/match.cpp:235-273 | names joined by commas are split back |
| `Negotiation.NamesEndAtEmpty` | shiesh/match.cpp:235-273 | an empty name ends a list whatever follows |
| `Negotiation.FortyNamesCount` | shiesh/match.cpp:235-273 | of the server's list the first 40 names count |
| `Negotiation.SuiteIsFirstChoice` | shiesh/CoreConnection.cpp:2144-2194 | cipher, MAC and compression of a direction are each the client's first choice that the server offers, with the lengths of this program's tables |
| `Negotiation.NegotiatedExactly` | shiesh/CoreConnection.cpp:2078-2131 | there is an agreement exactly when every list has a first common name that the tables know, and it holds those, key exchange and host key included |
| `Negotiation.KexChooseConf` | shiesh/CoreConnection.cpp:2078-2131 | each role's choice is its view of one agreement that does not depend on the role |
| `Negotiation.RolesAgree` | shiesh/CoreConnection.cpp:2078-2131 | client and server fed the same proposals both end, or agree crosswise on every direction and on the key exchange, host key and `we_need` |
| `Negotiation.NeedInRange` | shiesh/CoreConnection.cpp:2113-2125 | `we_need` is between 16 and 32, so that no key of length 0 is derived |
| `Proposals.ProposalsSurvive` | shiesh/CoreConnection.cpp:1887-1936 | proposals survive the wire under any cookie exactly when each list is within 256K and the payload within one chunk |
| `Proposals.KexinitReads` | shiesh/CoreConnection.cpp:1908-1936 | the same for any sender's payload, with its first_kex_packet_follows byte |
| `Proposals.ProposalsInAPacketSurvive` | shiesh/CoreConnection.cpp:1908-1936 | a payload that a packet can carry always survives |
| `Proposals.KexProp2buf` | shiesh/CoreConnection.cpp:1887-1906 | the loops write that payload, and are not fatal up to one chunk |
| `Proposals.KexBuf2prop` | shiesh/CoreConnection.cpp:1908-1936 | the loops read it, or end |
| `Base64.DecodesExactly` | shiesh/base64.cpp:178-295 | the decoder accepts a text without white space with result d exactly when it is the encoding of d |
| `Base64.DecodeEncode` | shiesh/base64.cpp:112-170 | every byte string comes back from its encoding |
| `Base64.CharIsAlphabet` | shiesh/base64.cpp:45-46 | digit v is written as character v of the alphabet |
| `Base64.GroupIsNumber` | shiesh/base64.cpp:112-140 | the four digits of a group are the base-64 digits of its three bytes as one number |
| `Base64.B64Ntop` | shiesh/base64.cpp:112-170 | the encoding and a final 0 in the target, exactly when they fit |
| `Base64.B64Pton` | shiesh/base64.cpp:178-295 | accepts exactly the encodings, white space removed, of data that fits (a byte more unless a multiple of 3), and gives that data |
| `Base64.ThroughText` | shiesh/base64.cpp:112-295 | encoding and then decoding gives the bytes back, with targets of these sizes |
| `Glob.MatchPattern` | shiesh/match.cpp:48-104 | loops and recursion compute `Matches` |
| `Glob.MatchIsSound` | shiesh/match.cpp:48-104 | a match is always one in the meaning of `*` and `?` |
| `Glob.MatchIsExact` | shiesh/match.cpp:48-104 | answers are right for every string if and only if the pattern does not end in two asterisks |
| `Glob.MatchesTaken` | shiesh/match.cpp:48-104 | what is matched in fact: a run of asterisks at the end wants a character |
| `Glob.TwoStarsRefuseNothing` | shiesh/match.cpp:48-104 | the input that fails: `**` and the empty string |
| `Glob.MatchPatternList` | shiesh/match.cpp:113-165 | the loops give the verdict over the entries |
| `Glob.VerdictExactly` | shiesh/match.cpp:113-165 | -1 exactly if a negated entry matches, else 1 exactly if a plain one does and no entry is 1023 or longer |
| `Glob.VerdictMeans` | shiesh/match.cpp:113-165 | the same in the meaning of the wildcards, for lists without an entry that ends in two asterisks |
| `Glob.ItemsReadBack` | shiesh/match.cpp:113-150 | entries written with `!` and commas are read back one by one, lowered if asked for; only an empty last one is lost |
| `Glob.LowerAt` | shiesh/match.cpp:138-139 | lowering changes A to Z only, each to the same letter |
| `Cidr.AddrNetmask` | shiesh/addrmatch.cpp:103-128 | the mask has exactly that many leading ones, or the length is refused |
| `Cidr.AddrAnd` | shiesh/addrmatch.cpp:134-156 | bit by bit, scope kept, families must agree |
| `Cidr.AddrInvert` | shiesh/addrmatch.cpp:218-237 | every bit inverted |
| `Cidr.AddrHostIsAll0s` | shiesh/addrmatch.cpp:280-291 | exactly when the length is valid and all bits behind it are 0 |
| `Cidr.AddrCmp` | shiesh/addrmatch.cpp:161-184 | the sign of the order by family, address and scope; 0 exactly on equality |
| `Cidr.LessIsTotalOrder` | shiesh/addrmatch.cpp:161-184 | that order is total |
| `Cidr.AddrNetmatch` | shiesh/addrmatch.cpp:334-347 | 0 exactly when families, scopes and the first masklen bits agree and the network has no host bits |
| `UniformRandom.MinIsRemainder` | shiesh/Arc4Random.cpp:116-137 | both 32-bit branches compute 2^32 mod bound for every bound |
| `UniformRandom.EveryResultEquallyLikely` | shiesh/Arc4Random.cpp:116-149 | every result comes from exactly floor(2^32/bound) accepted numbers |
| `UniformRandom.MostAreKept` | shiesh/Arc4Random.cpp:139-147 | fewer than half of the numbers are rejected |
| `UniformRandom.Arc4RandomUniform` | shiesh/Arc4Random.cpp:116-149 | the first number that is not rejected, reduced |

## Left out

- Sockets, events, waits, threads, pipes and the service wrapper; an event is a flag here.
- AES, HMAC, digests and big-number arithmetic: arbitrary functions and natural numbers.
- Ciphers other than AES in counter mode; `Sessions` takes the settled cipher to be one.
- Compression, delayed compression, `extra_pad`, rekey thresholds and the block and byte counters.
- The limits of `Buffer` inside the transport and channel models, except one chunk for a message to a subsystem; they are in `Buffers`.
- `direct-tcpip` channels, pseudo-terminals, and channel requests other than the start of a subsystem, which is one move with `open`.
- The order of the calls inside `channel_post` and the loop of `fill_event_array` over slots: a channel's moves may come in any order.
- Update in place of the flags and half states of a channel as separate fields: `SessionChannel` keeps them in one record field, and each direction in a part object.
- KeyExchange.DeriveKey: not for a need of 0, which would overrun its allocation; `NeedInRange` shows that it does not come up.
- Cidr.AddrNetmask: not for an IPv4 length of 0, a shift that C does not define.
- Cidr.AddrHostIsAll0s: the same.
- Cidr.AddrNetmatch: the same.
- UniformRandom.Arc4RandomUniform: assumes that some number drawn is large enough; the code would loop on.
- Base64.B64Pton: not into a null target, and `isspace` is that of the C locale.
- Channels.ReceiveWindowConserved: for peers that respect their window, as is PeerNeverStalls; all other laws of a channel hold whatever the peer sends.
- Parsing of addresses, `match_host_and_ip` and `match_user`: calls to the parts modelled here and to the resolver.
- `kex_gex`, the Diffie-Hellman computation, host keys, user authentication, options and logging.
- SFTP file operations and the `Path` classes.
