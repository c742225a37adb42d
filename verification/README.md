# TypeBit core, verified

A Dafny model of the state machines and data structures at the core of the
TypeBit BitTorrent engine, with proofs of what they promise:

- **uTP** (BEP 29): one socket as step functions (`UtpStep`) and as the object
  the transport drives (`UtpSocket`); two of them and a hostile network
  (`UtpPair`); the account of outstanding bytes (`UtpFlight`); what is delivered
  arrives (`UtpArrival`), and how far exactly a stream comes (`UtpExact`); what
  acks, transmission and retransmission achieve (`UtpEffects`); how much is ever
  buffered (`UtpBounds`).
- **Disk cache**: maps of runs (`CacheRuns`), overlapping writes
  (`CacheOverlap`), reads (`CacheReads`), flush order (`FlushOrder`) and the
  write-back cache over a host disk (`DiskCache`).
- **Bencode**: printer, parser and skip-only walker as functions (`Bencode`) and
  as the loops of the source (`BencodeParser`), with round trips
  (`BencodeRoundTrip`), what only one of the two accepts (`BencodeAgreement`)
  and what parsed values look like (`BencodeShape`).
- **Base58**, **Bitfield** (over `Bits`), **Merkle** root and v2 piece
  verification.
- **Unchoke** selection, its fairness (`UnchokeFair`), its hysteresis and what
  the score depends on (`UnchokeSteady`).
- **SOCKS5** client: frames and handshake states (`SocksFrames`), the
  non-blocking client against arbitrary sockets (`SocksClient`).
- **Interval sets**: `Ranges`, `PieceBytes`, `ReceiptBook`.
- **Rate limit**: token bucket (`RateLimit`), its upload ceiling
  (`RateCeiling`), changes of the rate (`RateChange`).
- **Kademlia routing table**: `NodeIds`, `Routing`, `RoutingTable`.
- **Piece layout**: `Layout`, `TorrentLayout`.

Objects that the source updates in place are classes whose methods are proved
against functions on values; the main theorems are about those functions and
about runs of them. Everything outside the process is a parameter: the host's
verdict on each send and receive, the bytes on the disk, the clock, the hash
function. `dafny verify dfyconfig.toml` checks the whole project.

Where code and comments of the source differ, the model follows the code:

- `flush_bounded` is described as flushing at most `max_bytes`
  (src/disk_cache.rs:405-407); it stops only once at least that many are freed.
  `FlushOrder.BoundIsKept` says exactly when the two are the same.
- `bucket_index` is described as the common prefix length
  (src/dht.rs:137); it is that length with the order inside each byte turned
  round, so it never equals it, and `NodeIds.BucketIsPrefixClass` states what
  does hold.
- The upload burst is described as giving any one-second window at most
  rate * (1 + tolerance) (src/ratelimit.rs:163); the 4 KiB floor breaks that
  exactly below 40951 bytes a second (`RateCeiling.CeilingIsExact`).
- A data packet the host refuses is requeued "for a later attempt"
  (src/utp.rs:525); the attempt uses a new number and the old one is never sent,
  so the receiver waits for it for ever (`UtpExact.RefusedSendStrands`).
- An ack is looked at only if it covers the packet with the lowest key
  (src/utp.rs:409-411), which at the wrap-around is not the oldest one
  (`UtpEffects.AckFreesAllOrNothing`, `UtpEffects.AckWaitsAtWrap`).
- The successor merge inside the predecessor branch of `insert_coalesced`
  (src/disk_cache.rs:238-252) cannot be taken, and neither can the branches for
  a byte that straddles two words in `to_bytes` and `from_bytes`
  (src/bitfield.rs:190-192, src/bitfield.rs:224-226).

## Model

| member | source | states |
|---|---|---|
| `UtpPair.StreamIsPrefix` | src/utp.rs:447-533 | Over every run of a freshly connected pair on a network that loses, duplicates and reorders (each data packet delivered within 2^15 packets of the receiver's ack), what each receiver has reassembled is a prefix of what the other session handed over, across wrap-around, retransmission, failed sends, closing and forged SYN or RESET packets |
| `UtpPair.RunKeeps` | src/utp.rs:341-607 | The pair invariant behind it (histories, sequence numbers, out-of-order buffer, datagrams in flight, packets kept for retransmission) survives every run |
| `UtpPair.StepKeeps` | src/utp.rs:341-607 | The invariant survives every single step of either end |
| `UtpPair.TimelyIsExact` | src/utp.rs:85-87 | Within one lap of the circle, the half-window comparison tells old packets from new ones if and only if the packet is within 2^15 of the ack |
| `UtpPair.DataKeeps` | src/utp.rs:447-480 | Delivering any timely packet, old, next or ahead, advances the contiguous prefix exactly as far as the packets held allow and files the rest under its own number |
| `UtpPair.DrainKeeps` | src/utp.rs:464-473 | Draining leaves no contiguous payload behind and every drained payload is the one its packet number carried |
| `UtpPair.OutOfOrderKeeps` | src/utp.rs:474-479 | A timely packet ahead of the next one is stored where only its own number will find it |
| `UtpPair.SendKeeps` | src/utp.rs:492-533 | One round of transmit, sent or failed, keeps sent bytes followed by queued bytes equal to what was accepted |
| `UtpPair.ReceiveKeeps` | src/utp.rs:341-374 | A packet's ack and payload together keep both directions consistent |
| `UtpPair.TickKeeps` | src/utp.rs:536-576 | Retransmission and delayed acks leave both streams alone |
| `UtpPair.FinKeeps` | src/utp.rs:595-607 | A FIN uses up a packet number without a payload |
| `UtpPair.ReadKeeps` | src/utp.rs:676-700 | A session's read moves bytes out of the buffer and changes no reassembled stream |
| `UtpPair.ResendFrame` | src/utp.rs:547-566 | Retransmission changes nothing but attempt counts and the life cycle |
| `UtpPair.FreeBelowFrame` | src/utp.rs:409-419 | An ack removes exactly the packets it covers; sequence number, queue and both windows stay (for in_flight see `UtpFlight.FreeKeepsTotal`) |
| `UtpPair.ResentWasSent` | src/utp.rs:547-566 | On every run, whatever either end resends is a datagram that is on the network already |
| `UtpPair.ApplyKnown` | src/utp.rs:341-607 | No step keeps a packet that was not sent, and none takes a datagram off the network |
| `UtpPair.OpenedIsFresh` | src/utp.rs:578-592 | However many SYNs were refused or lost before one arrived, the pair it opens agrees on both streams' first numbers, before any acknowledgement is heard |
| `UtpPair.RepeatedSynIsQuiet` | src/utp.rs:578-592 | Repeating the SYN afterwards changes neither end's numbers |
| `UtpPair.OpenedStreamsArePrefixes` | src/utp.rs:636-784 | From the opening on, with SYN and SYN-ACK lost or repeated, streams are prefixes on every run |
| `UtpPair.TransmitIsRounds` | src/utp.rs:492-533 | One call of the transmit loop is a run of single sends: same socket at the end, and everything it sent is on the network |
| `UtpFlight.NothingIsLost` | src/utp.rs:377-533 | On every run with fewer than 2^15 packets outstanding and no ack older than that, the accepted bytes are exactly the reassembled ones, then the outstanding payloads (each held under its own number), then the send buffer; in_flight is the sum of unacked payloads and at most MAX_WINDOW |
| `UtpFlight.RunConserves` | src/utp.rs:377-533 | The conservation invariant survives every such run |
| `UtpFlight.AckIsExact` | src/utp.rs:409-416 | A cumulative ack covers a packet the receiver lacks if and only if the ack is at least 2^15 packets old |
| `UtpFlight.AckConserves` | src/utp.rs:377-430 | Processing an ack that is not stale frees no packet the receiver still lacks |
| `UtpFlight.FreeKeepsTotal` | src/utp.rs:417-421 | Freeing packets keeps in_flight equal to the sum over what is left, so its saturating subtraction never saturates |
| `UtpFlight.SendConserves` | src/utp.rs:506-530 | A sent chunk goes under an unused number; a failed one goes back to the queue |
| `UtpFlight.ResendConserves` | src/utp.rs:547-566 | Retransmission keeps every outstanding payload where it was |
| `UtpPair.ResentIsKnown` | src/utp.rs:561-562 | Retransmission puts no datagram on the network that was not sent before |
| `UtpArrival.DeliveredArrives` | src/utp.rs:447-480 | On every run whose deliveries to one end find room, once all packets numbered below n have been delivered to it, in any order and any number of times, its stream holds all their payloads |
| `UtpArrival.DataArrives` | src/utp.rs:447-480 | A delivery that finds room puts its packet into the stream if it is the next one, and keeps it under its own number if it is ahead |
| `UtpArrival.DataKeepsHere` | src/utp.rs:447-480 | No delivery loses a packet that was there, in the stream or held back |
| `UtpArrival.DrainHere` | src/utp.rs:464-473 | Draining loses none of the packets held back |
| `UtpArrival.RunGathers` | src/utp.rs:341-607 | On every such run everything delivered stays there |
| `UtpExact.StreamIsExact` | src/utp.rs:447-480 | On such a run a stream has come to number n if and only if every number below n has been delivered: it stands at the first one missing |
| `UtpExact.RunOnly` | src/utp.rs:341-607 | On every run, with room or without, only delivered packets are in the stream or held back |
| `UtpExact.DataOnly` | src/utp.rs:447-480 | A delivery adds its own packet at most |
| `UtpExact.HoleStops` | src/utp.rs:506-530 | A number used up without a payload stops the stream there on every run |
| `UtpExact.RefusedSendStrands` | src/utp.rs:524-530 | Once the host has refused a data packet, no byte of the queue at that moment reaches the other end on any run: the chunk is queued again, but its number is gone |
| `UtpBounds.BuffersAreBounded` | src/utp.rs:447-480 | On every run, whatever the network does and however slowly the session reads, an end buffers at most the receive window and 1025 packets in its stream and 1024 payloads out of order |
| `UtpBounds.RunStaysWithin` | src/utp.rs:341-607 | The bound survives every run |
| `UtpBounds.DataIsBounded` | src/utp.rs:447-480 | A delivery keeps it, drained payloads included |
| `UtpBounds.TransmitStaysInWindow` | src/utp.rs:492-505 | A transmit goes at most up to the smaller of the two windows, and sends only on an open connection |
| `UtpEffects.AckFrees` | src/utp.rs:404-430 | An ack frees exactly the packets it covers and takes over the peer's window when the packet with the lowest key is among them, and frees nothing otherwise |
| `UtpEffects.AckFreesAllOrNothing` | src/utp.rs:409-422 | All that an ack covers is freed if and only if it covers nothing or the packet with the lowest key |
| `UtpEffects.AckFreesConfirmed` | src/utp.rs:409-422 | While the keys in use do not straddle the wrap-around, an ack frees every packet the receiver has confirmed with it |
| `UtpEffects.AckWaitsAtWrap` | src/utp.rs:409-411 | At the wrap-around an ack can be in vain: 65535 is confirmed and stays, because 0 is not |
| `UtpEffects.AckMovesLife` | src/utp.rs:402-430 | An ack of the SYN opens, the ack of the last packet after FIN closes, any other leaves the life cycle alone |
| `UtpEffects.TransmitSplitsQueue` | src/utp.rs:492-533 | The payloads sent, then the queue that is left, are the queue that was there |
| `UtpEffects.TransmitPacksFully` | src/utp.rs:503-508 | Packets are numbered in a row and all but the last are full |
| `UtpEffects.TransmitFillsWindow` | src/utp.rs:496-505 | With a host that takes everything, the loop ends with an empty queue or a full window |
| `UtpEffects.ResendGivesUp` | src/utp.rs:547-566 | The connection is given up if and only if an expired packet has had its eighth attempt |
| `UtpEffects.ResendIsComplete` | src/utp.rs:547-566 | Otherwise every expired packet is sent again, in order, and counted once |
| `UtpEffects.EighthTimeoutCloses` | src/utp.rs:547-566 | A packet never acknowledged costs the connection at its eighth time-out and not before |
| `UtpEffects.ControlPackets` | src/utp.rs:341-374 | RESET closes, FIN and SYN make an ack due, and none of them nor a STATE touches what was received |
| `UtpEffects.AckIsDue` | src/utp.rs:447-480 | A data packet makes an ack due if and only if there is room and the stream has not passed its number |
| `UtpEffects.RepeatsAreSilent` | src/utp.rs:458-460 | A repeated packet changes nothing and makes no ack due, so a lost ack is not made up for by the copies |
| `UtpEffects.DueAckIsSent` | src/utp.rs:569-575 | Once due, a tick with nothing queued, or late enough, puts an ack for everything received so far on the network |
| `UtpSocket.UtpSocket.constructor` | src/utp.rs:224-257 | A new socket's window, buffers and life cycle |
| `UtpSocket.UtpSocket.Dial` | src/utp.rs:636-645 | What connect sets on the socket it opens |
| `UtpSocket.UtpSocket.SendSyn` | src/utp.rs:578-592 | A SYN uses up its number the first time the host takes it |
| `UtpSocket.UtpSocket.Answer` | src/utp.rs:765-781 | The socket made for a SYN, and its acknowledgement |
| `UtpSocket.UtpSocket.BuildPacket` | src/utp.rs:263-315 | A packet carries the current ack and the advertised window, never below zero |
| `UtpSocket.UtpSocket.OnAck` | src/utp.rs:377-430 | In place, the ack step whose effect on the pair is proved above, peer window and clamped congestion window included |
| `UtpSocket.UtpSocket.FreeAcked` | src/utp.rs:409-422 | The loop over the unacked map removes exactly the covered packets |
| `UtpSocket.UtpSocket.OnData` | src/utp.rs:447-480 | In place, the data step: duplicate, overflow, in order, out of order, buffer full |
| `UtpSocket.UtpSocket.DrainOob` | src/utp.rs:464-473 | The drain loop moves the whole contiguous run and stops |
| `UtpSocket.UtpSocket.OnPacket` | src/utp.rs:341-374 | Dispatch by packet type; a SYN on a live connection is acknowledged at once |
| `UtpSocket.UtpSocket.SendAck` | src/utp.rs:483-489 | The owed ack is cleared only when the host took it |
| `UtpSocket.UtpSocket.Transmit` | src/utp.rs:492-533 | The loop sends chunk after chunk while both windows allow and stops at the first failed send; the wire gets exactly those packets in order |
| `UtpSocket.UtpSocket.SendOne` | src/utp.rs:506-530 | One chunk: the number is used up either way, the chunk is requeued in order on failure |
| `UtpSocket.UtpSocket.TickRetransmit` | src/utp.rs:536-576 | Expired packets first, then the delayed ack; the wire gets what the host took, in order |
| `UtpSocket.UtpSocket.ResendExpired` | src/utp.rs:547-566 | Each expired packet is resent verbatim until one runs out of attempts, which closes the connection at once |
| `UtpSocket.UtpSocket.SendFin` | src/utp.rs:595-607 | FIN is sent once and uses a sequence number |
| `UtpSocket.UtpSocket.Send` | src/utp.rs:703-719 | All of the data is queued, or nothing when the stream is not writable |
| `UtpSocket.UtpSocket.Recv` | src/utp.rs:676-700 | Bytes in order, at most as many as asked; without any, not open yet, end of stream and would-block are told apart |
| `UtpSocket.UtpSocket.Close` | src/utp.rs:722-730 | A connected socket goes to FIN, any other is closed |
| `DiskCache.Cache.Replay` | src/disk_cache.rs:186-465 | Over every sequence of disjoint writes, flushes, and reads inside one earlier write or of bytes flushed since they were written, each read returns what a flat store with the earlier writes applied returns, whatever was coalesced, flushed, promoted or evicted |
| `DiskCache.Cache.constructor` | src/disk_cache.rs:85-103 | An empty cache represents the disk as it is |
| `DiskCache.Cache.Write` | src/disk_cache.rs:186-214 | A write apart from earlier ones adds exactly its bytes to the flat store and keeps the cache right, whether buffered, coalesced or written through; any write within the budget is coalesced as it stands; from a right counter, the dirty bytes are within the budget afterwards |
| `DiskCache.Cache.MakeRoom` | src/disk_cache.rs:204-211 | Room is made only when it is needed, until the write fits or nothing is dirty, without changing what the cache represents; a right counter stays right |
| `DiskCache.Cache.InsertCoalesced` | src/disk_cache.rs:218-272 | In place, the merge with predecessor or successor, and the counter's change as the source computes it |
| `DiskCache.Cache.Read` | src/disk_cache.rs:275-336 | Returns the written bytes whenever all of the window was written and no dirty byte lies behind one that is not; with nothing clean and a disk that answers in full, exactly the dirty bytes up to the first that is not and disk bytes from there on; a window all dirty or clean is served in full without asking the disk |
| `DiskCache.Cache.PromoteClean` | src/disk_cache.rs:341-396 | Right pages stay right through joining and eviction; the bytes are on the newest page afterwards unless there are too many pages; the clean side is over budget only with a single page |
| `DiskCache.Cache.JoinPages` | src/disk_cache.rs:348-375 | The joined page holds the bytes at their place, and is right if the pages and the bytes were |
| `DiskCache.Cache.KeepPage` | src/disk_cache.rs:376-395 | The page is filed as the newest unless there are too many; the clean side is over budget afterwards only with a single page |
| `DiskCache.Cache.EvictClean` | src/disk_cache.rs:377-390 | Only pages at least as old as every page kept are dropped, until there is room or nothing left |
| `DiskCache.Cache.Flush` | src/disk_cache.rs:399-403 | Afterwards nothing is dirty and the disk is the original disk overlaid with everything written |
| `DiskCache.Cache.FlushBounded` | src/disk_cache.rs:408-410 | Frees the lowest runs up to the first point where the bound is reached, and reports exactly their bytes; the counter falls by as much |
| `DiskCache.Cache.FlushDisk` | src/disk_cache.rs:413-429 | Exactly the runs of the one disk are written out, and the counter falls by their bytes |
| `DiskCache.Cache.FlushOldest` | src/disk_cache.rs:433-465 | Runs leave in key order until enough is freed; what is freed plus what is left is what was there, and the counter falls by what is freed |
| `DiskCache.Cache.CollectBatch` | src/disk_cache.rs:434-455 | Joining contiguous runs into one write changes nothing about the disk that results |
| `DiskCache.Cache.WriteBatch` | src/disk_cache.rs:456-464 | After the batch the disk holds every byte that was taken out of the dirty map |
| `DiskCache.Cache.Perform` | src/disk_cache.rs:186-465 | One call refines its effect on the flat store |
| `DiskCache.InsertSound` | src/disk_cache.rs:218-272 | Coalescing a write into free space keeps dirty runs over disk equal to the flat store |
| `DiskCache.FlushSound` | src/disk_cache.rs:437-442 | Moving a dirty run to the disk leaves the view unchanged |
| `CacheReads.DiskHas` | src/disk_cache.rs:325-334 | In a read with no dirty byte behind one that is not, the disk holds the written bytes from the first that is not dirty to the end |
| `CacheReads.ColdReadIsRight` | src/disk_cache.rs:325-334 | With nothing clean and a disk that answers in full, a read is right if and only if no byte of it is stale: dirty, behind one that is not, and older on the disk |
| `CacheReads.StaleReadExists` | src/disk_cache.rs:325-334 | Such a stale read exists |
| `DiskCache.AllowedIsServed` | src/disk_cache.rs:275-336 | Reads inside one earlier write, and reads of flushed bytes, meet the condition of `Read` |
| `FlushOrder.BoundIsKept` | src/disk_cache.rs:405-410 | A bounded flush stays within its bound if and only if everything fits or some lowest runs add up to exactly the bound |
| `FlushOrder.FreedIsClose` | src/disk_cache.rs:433-455 | It frees at least its bound or everything, and goes over by less than the last run it takes |
| `FlushOrder.FlushOvershoots` | src/disk_cache.rs:405-410 | A run of two bytes against a bound of one |
| `FlushOrder.KeysInOrder` | src/disk_cache.rs:437-437 | The keys come lowest first |
| `FlushOrder.SumIsTotal` | src/disk_cache.rs:433-455 | The runs in key order hold all dirty bytes |
| `CacheOverlap.OverlapIsExact` | src/disk_cache.rs:218-272 | A write over dirty data is found again and hides no other dirty byte if and only if no run starts inside its window and none reaches past it |
| `DiskCache.FlushedDisk` | src/disk_cache.rs:399-403 | With nothing dirty, the disk is the original disk overlaid with the flat store |
| `DiskCache.BatchedWrites` | src/disk_cache.rs:444-453 | Extending the last batch entry is the same as writing the run after it |
| `DiskCache.CounterIsExact` | src/disk_cache.rs:218-272 | The used counter follows the dirty bytes on an insertion if and only if the insertion does not take the successor branch alone |
| `DiskCache.CoalesceGrows` | src/disk_cache.rs:218-272 | An insertion adds at most its own bytes to the dirty ones |
| `CacheRuns.CoalesceJoins` | src/disk_cache.rs:218-272 | Writing into free space turns the write and the runs it touches into one run and changes no other lookup |
| `CacheRuns.CoalesceAgrees` | src/disk_cache.rs:218-272 | Every byte of every run is right after a coalesced write |
| `CacheRuns.RewriteKeepsTail` | src/disk_cache.rs:219-227 | Rewriting a run from its start keeps the run's bytes covered if and only if the rewrite is as long as the run: a shorter one loses the tail |
| `BencodeRoundTrip.ParseUndoesEncode` | src/bencode.rs:32-128 | Parsing undoes printing for every value within the depth, length and item limits, and consumes all input |
| `BencodeRoundTrip.ValueRoundTrip` | src/bencode.rs:97-191 | The same at any position, inside any input, at any depth |
| `BencodeRoundTrip.EncodeIsInjective` | src/bencode.rs:97-128 | Two values with the same encoding are the same value |
| `BencodeRoundTrip.IntRoundTrip` | src/bencode.rs:277-294 | Every 64-bit integer reads back from its printed form |
| `BencodeRoundTrip.IntReadsBack` | src/bencode.rs:388-401 | The canonical-form checks accept every printed integer |
| `BencodeRoundTrip.StrRoundTrip` | src/bencode.rs:296-350 | Parser and walker both pass exactly over a printed string |
| `BencodeRoundTrip.ItemsRoundTrip` | src/bencode.rs:352-365 | A printed list reads back item by item |
| `BencodeRoundTrip.EntriesRoundTrip` | src/bencode.rs:367-385 | A printed dictionary, sorted by key, reads back entry by entry |
| `BencodeRoundTrip.SkipPassesValue` | src/bencode.rs:207-270 | The skip-only walker stops exactly at the end of every printed value |
| `BencodeRoundTrip.WalkerAgrees` | src/bencode.rs:207-385 | Wherever parser and walker both accept, they stop at the same offset, for every input |
| `BencodeAgreement.WalkerAccepts` | src/bencode.rs:207-401 | What the parser accepts, the walker accepts if and only if no integer in it starts with a plus sign and no dictionary prints more than the item limit, repeated keys counted |
| `BencodeAgreement.IntAccepted` | src/bencode.rs:213-234 | An integer the parser accepts is passed by the walker if and only if it does not start with a plus sign |
| `BencodeAgreement.EntriesAccepted` | src/bencode.rs:245-265 | The same for the entries of a dictionary, with the walker's count |
| `BencodeAgreement.ParserOnly` | src/bencode.rs:388-401 | i+5e is accepted by the parser only |
| `BencodeAgreement.WalkerOnly` | src/bencode.rs:213-234 | i1-2e is accepted by the walker only |
| `BencodeRoundTrip.SkipMoves` | src/bencode.rs:207-270 | What the walker accepts on its own it accepts, shifted, inside any surrounding input |
| `BencodeRoundTrip.CaptureIsExact` | src/metainfo.rs:621-642 | The captured infohash preimage of a printed torrent is exactly the encoding of its info value |
| `BencodeRoundTrip.WrappedInfoIsExact` | src/metainfo.rs:781-787 | Wrapping raw info bytes in a dictionary and capturing them gives the same bytes back |
| `BencodeShape.ParsedIsAllowed` | src/bencode.rs:179-401 | Whatever the parser accepts, on any input, is within the limits, sorted and without repeated keys |
| `BencodeShape.ReprintIsStable` | src/bencode.rs:97-191 | Printing what was parsed and parsing it again gives the same value, for every input the parser accepts |
| `BencodeShape.DictKeepsLast` | src/bencode.rs:367-385 | Under each key a parsed dictionary has the value printed last, whatever the order and repeats of the keys |
| `BencodeShape.PutMeans` | src/bencode.rs:383-383 | Insertion keeps keys in order, puts the value under its key and leaves the others |
| `BencodeShape.IntegerIsExact` | src/bencode.rs:388-401 | An integer is read from its printed form, from a plus sign followed by digits, and from nothing else |
| `BencodeParser.Parser.Value` | src/bencode.rs:179-191 | The recursive-descent parser, position included, computes the specified parse, and terminates on every input |
| `BencodeParser.Parser.IntValue` | src/bencode.rs:277-294 | The integer loop, with its 24-character bound |
| `BencodeParser.Parser.LengthPrefix` | src/bencode.rs:321-350 | The length loop, with its digit, leading-zero and size bounds |
| `BencodeParser.Parser.StringValue` | src/bencode.rs:306-318 | A string is taken only when all of it is there |
| `BencodeParser.Parser.ListValue` | src/bencode.rs:352-365 | The list loop stops at its end marker and at the item limit |
| `BencodeParser.Parser.DictValue` | src/bencode.rs:367-385 | The dictionary loop keeps the last value of a repeated key, in key order |
| `BencodeParser.Parser.Skip` | src/bencode.rs:207-270 | The walker, position included, computes the specified skip, and terminates on every input |
| `BencodeParser.Parser.SkipInteger` | src/bencode.rs:213-234 | The walker's looser integer rule |
| `BencodeParser.Parser.SkipString` | src/bencode.rs:296-303 | The walker passes a string without reading it |
| `BencodeParser.Parser.SkipList` | src/bencode.rs:235-244 | The walker's list loop |
| `BencodeParser.Parser.SkipDict` | src/bencode.rs:245-265 | The walker's dictionary loop, with its item limit |
| `BencodeParser.EncodeValue` | src/bencode.rs:97-128 | Printing appends exactly the value's encoding to the buffer |
| `BencodeParser.CaptureInfo` | src/metainfo.rs:621-642 | The top-level walk returns the raw bytes of the first info value, or the walk's error |
| `Base58.DecodeUndoesEncode` | src/crypto/base58.rs:16-76 | decode(encode(x)) is x for every byte string, leading zeros included |
| `Base58.EncodeUndoesDecode` | src/crypto/base58.rs:16-76 | decode accepts exactly the strings over the alphabet, and encode(decode(s)) is s for all of them |
| `Base58.EncodedMeans` | src/crypto/base58.rs:47-76 | The text is the same number, most significant digit first in base 58, behind exactly as many ones as there are leading zero bytes |
| `Base58.HelloVector` | src/crypto/base58.rs:113-118 | The known vector of the source's tests |
| `Base58.RebaseTwice` | src/crypto/base58.rs:16-76 | Rewriting digits in another base and back is the identity, for any two bases from 2 on |
| `Base58.Encode` | src/crypto/base58.rs:47-76 | Repeated long division computes the change of base |
| `Base58.Base58Digits` | src/crypto/base58.rs:54-68 | The outer loop ends because the number shrinks, and its remainders are the base-58 digits |
| `Base58.DivideBy58` | src/crypto/base58.rs:57-62 | One pass of long division: dividend = 58 * quotient + remainder |
| `Base58.Spell` | src/crypto/base58.rs:69-75 | Leading zeros become leading ones, digits come out most significant first |
| `Base58.Decode` | src/crypto/base58.rs:16-44 | Multiply-add computes the change of base; a character outside the alphabet gives None |
| `Base58.FoldBody` | src/crypto/base58.rs:27-40 | The fold's number is the value of the digits read, without leading zero limbs |
| `Base58.MultiplyAdd` | src/crypto/base58.rs:30-39 | One multiply-add, carries pushed at the end |
| `Base58.MulAddIs` | src/crypto/base58.rs:30-39 | Multiply-add on limbs is 58 * n + d on numbers |
| `Bitfield.Bitfield.constructor` | src/bitfield.rs:19-26 | A new field is the empty set |
| `Bitfield.Bitfield.Get` | src/bitfield.rs:44-50 | Membership, false past the length |
| `Bitfield.Bitfield.Set` | src/bitfield.rs:53-63 | Adds the index if it is below the length; bits past the length stay zero and the count stays exact |
| `Bitfield.Bitfield.Clear` | src/bitfield.rs:66-76 | Removes the index |
| `Bitfield.Bitfield.SetAll` | src/bitfield.rs:79-87 | All indices below the length and none above |
| `Bitfield.Bitfield.ClearAll` | src/bitfield.rs:90-93 | The empty set |
| `Bitfield.Bitfield.LastSet` | src/bitfield.rs:111-119 | The greatest member, or None for the empty set |
| `Bitfield.Bitfield.NextSetFrom` | src/bitfield.rs:122-140 | The least member at or above the start, or None if there is none |
| `Bitfield.Bitfield.NextClearFrom` | src/bitfield.rs:147-173 | The least index below the length that is missing, or None if there is none |
| `Bitfield.Bitfield.CountRange` | src/bitfield.rs:268-301 | The number of members in the window, for any window |
| `Bitfield.Bitfield.CountWithin` | src/bitfield.rs:273-300 | Masked word counts equal the count bit by bit |
| `Bitfield.Bitfield.ToBytes` | src/bitfield.rs:182-196 | The message carries exactly the members, most significant bit first, padding zero |
| `Bitfield.Bitfield.FromBytes` | src/bitfield.rs:200-242 | Accepts exactly messages of the right size with zero padding; a refused one changes nothing |
| `Bitfield.Bitfield.LoadWords` | src/bitfield.rs:214-233 | Bytes land in the words bit for bit |
| `Bitfield.Bitfield.Recount` | src/bitfield.rs:303-305 | The recomputed count is the number of members |
| `Bitfield.Bitfield.OrInto` | src/bitfield.rs:245-253 | Union |
| `Bitfield.Bitfield.AndNot` | src/bitfield.rs:256-262 | Difference |
| `Bitfield.WireIsBijective` | src/bitfield.rs:182-242 | Two fields are equal exactly when their messages are |
| `Bitfield.Reload` | src/bitfield.rs:182-242 | Reading back its own message leaves a field unchanged |
| `Bitfield.Echo` | src/bitfield.rs:182-242 | Writing after reading returns the same bytes for every accepted message |
| `Bitfield.CountIsSize` | src/bitfield.rs:39-41 | The stored count is the cardinality in every valid state |
| `Bitfield.OnesIsCardinality` | src/bitfield.rs:303-305 | Counting bits of words is counting members |
| `UnchokeFair.SelectionIsEligible` | src/leech.rs:870-970 | At most the configured number of distinct peers, each of them eligible |
| `UnchokeFair.RejectionsAreJust` | src/leech.rs:921-969 | With a positive margin a rejected newcomer scores below every non-optimistic member plus the margin; without one, no higher; no dropped non-optimistic incumbent outscores a kept one |
| `UnchokeFair.FreeSlotsMeanNoRejection` | src/leech.rs:909-936 | A result with free slots leaves out only an already unchoked optimistic peer that is not fit to be one |
| `UnchokeFair.OptimisticStays` | src/leech.rs:909-919 | A fit optimistic peer is always selected and never displaced |
| `UnchokeFair.SelectionIsFair` | src/leech.rs:921-969 | The invariant of both passes over the ranking holds of the final selection |
| `UnchokeSteady.IncumbentsAreSteady` | src/leech.rs:921-968 | Hysteresis: an unchoked peer that ranks within the slots is dropped only for a newcomer that clears it by the whole margin, saturation included, or strictly where there is no margin |
| `UnchokeSteady.KeepTakes` | src/leech.rs:921-928 | An incumbent with fewer incumbents ahead than slots left is kept |
| `UnchokeSteady.ChallengesAreSteady` | src/leech.rs:937-968 | Every challenge keeps that account of who was dropped for whom |
| `UnchokeSteady.CandidatesAreExact` | src/leech.rs:893-904 | The ranking has exactly the peers that are not blocked and, while seeding, interested, each with its own score |
| `UnchokeSteady.OptimisticIsExact` | src/leech.rs:909-919 | The optimistic peer has its slot if and only if it is a candidate, not snubbed and below the corruption limit |
| `UnchokeSteady.SnubbingCosts` | src/leech.rs:848-850 | A snub costs exactly its penalty |
| `UnchokeSteady.CorruptionCosts` | src/leech.rs:847-847 | Each corrupt piece costs exactly its penalty |
| `UnchokeSteady.LeechingCosts` | src/leech.rs:851-858 | A leech client pays its penalty unless it is local |
| `UnchokeSteady.IdlingCosts` | src/leech.rs:843-846 | Idling on a slot costs its penalty past probation |
| `UnchokeSteady.FreeRidingCosts` | src/leech.rs:829-841 | Taking without giving costs its penalty past probation, whether seeding or leeching |
| `UnchokeSteady.RewardIsCapped` | src/leech.rs:822-838 | No score exceeds the cap on rewards |
| `Unchoke.SelectUnchokeSet` | src/leech.rs:870-970 | The passes over the result vector compute the selection the properties are about |
| `Unchoke.CollectCandidates` | src/leech.rs:893-904 | Filtering and scoring, in view order |
| `Unchoke.KeepIncumbents` | src/leech.rs:921-928 | Incumbents are kept best first while slots last |
| `Unchoke.HearNewcomers` | src/leech.rs:929-968 | Newcomers fill free slots, then challenge the weakest displaceable member |
| `Unchoke.SortRanks` | src/leech.rs:905-905 | The ranking is by score, ties by id |
| `SocksClient.Socks5Client.Drive` | src/socks.rs:436-445 | Against a proxy stream that is exactly a willing conversation, every chunking of receives and every pattern of partial or refused sends before the deadline, on a socket that keeps moving, ends Done with exactly greeting, optional auth and CONNECT written and the whole stream read |
| `SocksClient.Socks5Client.Pump` | src/socks.rs:156-214 | Terminates against every socket and every proxy; what is written is always a prefix of the script; an error means a timeout, a broken socket or an unwilling proxy; a call that moves nothing was refused by the socket |
| `SocksClient.Socks5Client.Transmit` | src/socks.rs:167-184 | Sends what the socket takes; once a frame is out, moves on and uses replies already buffered |
| `SocksClient.Socks5Client.SendFrame` | src/socks.rs:169-178 | The inner send loop keeps the written bytes a prefix of the frame |
| `SocksClient.Socks5Client.Receive` | src/socks.rs:185-206 | The read loop keeps its budget and the buffer bound, and stops only when the socket has nothing |
| `SocksClient.Socks5Client.TakeIn` | src/socks.rs:194-203 | A chunk joins the buffer and completes at most one reply |
| `SocksClient.Socks5Client.ConsumeFrame` | src/socks.rs:231-291 | Uses exactly one complete reply, leaves the rest, and rejects only streams that no willing proxy sends |
| `SocksClient.Socks5Client.OnMethod` | src/socks.rs:233-248 | Method reply: none, user and password when offered, or refusal |
| `SocksClient.Socks5Client.OnAuth` | src/socks.rs:249-259 | Auth reply |
| `SocksClient.Socks5Client.OnReply` | src/socks.rs:260-288 | CONNECT reply, with its length by address type |
| `SocksClient.Socks5Client.AfterSend` | src/socks.rs:217-226 | A frame fully sent leads to the phase that awaits its answer |
| `SocksClient.Socks5Client.BuildAuth` | src/socks.rs:294-308 | The auth frame, both fields cut to 255 bytes |
| `SocksClient.Socks5Client.BuildConnect` | src/socks.rs:311-334 | The CONNECT frame for all three kinds of target |
| `SocksClient.Socks5Client.constructor` | src/socks.rs:124-140 | Starts with the greeting buffered and a saturating deadline |
| `SocksFrames.ConnectIsRead` | src/socks.rs:311-334 | A proxy reading the CONNECT frame by section 4 of RFC 1928 gets the caller's target if and only if its name is at most 255 bytes, and otherwise the first 255 |
| `SocksFrames.GreetingIsRead` | src/socks.rs:124-130 | A proxy reading the greeting by section 3 of RFC 1928 is offered no authentication first, and user name and password if and only if there is a user name |
| `SocksFrames.AuthIsRead` | src/socks.rs:294-308 | A proxy reading the auth frame by section 2 of RFC 1929 gets the caller's credentials if and only if both are at most 255 bytes |
| `SocksFrames.ConversationsAreWhole` | src/socks.rs:231-291 | No willing conversation is a proper prefix of another, so the client cannot stop early |
| `SocksFrames.FollowsScript` | src/socks.rs:156-334 | Whatever has been written is a prefix of greeting, optional auth and CONNECT, all of it once done |
| `SocksFrames.StillOwed` | src/socks.rs:231-291 | A client waiting for a reply of a willing proxy is still owed bytes: no complete reply is ever left unused |
| `SocksFrames.ReplyGrants` | src/socks.rs:260-288 | A complete successful reply ends the conversation exactly there |
| `SocksFrames.DoneIsAll` | src/socks.rs:156-214 | Done means the whole stream is read and the whole script written |
| `PieceBytes.PieceBytes.Add` | src/piece.rs:38-74 | The received set gains the window; the return value is the number of bytes that were new; total is the size of the set |
| `PieceBytes.PieceBytes.CountMissing` | src/piece.rs:42-58 | The early-exit scan counts exactly the missing bytes |
| `PieceBytes.PieceBytes.Covers` | src/piece.rs:82-92 | For a non-empty window, set inclusion |
| `PieceBytes.PieceBytes.NewRanges` | src/piece.rs:99-121 | Exactly the missing part of the window, as sorted separate ranges, summing to what add would return |
| `PieceBytes.Missing` | src/piece.rs:99-121 | One pass over the ranges collects exactly the gaps of the window |
| `PieceBytes.PieceBytes.constructor` | src/piece.rs:31-33 | Nothing received |
| `Ranges.Merge` | src/piece.rs:61-73 | Merging sorted ranges keeps the set of points and leaves them sorted, non-empty and non-touching |
| `Ranges.AddAndMerge` | src/piece.rs:59-73 | Push, sort and merge add exactly the new range's points |
| `Ranges.OverlapCounts` | src/receipt.rs:293-303 | Summing overlaps of separate ranges counts distinct points |
| `ReceiptBook.Book.BuildReceipt` | src/receipt.rs:344-371 | A receipt exists if and only if the range is non-empty, at least nine tenths of its distinct bytes were recorded and a sample lies inside; it states exactly that number of bytes |
| `ReceiptBook.Book.RecordRange` | src/receipt.rs:262-283 | The recorded set gains the window; the bytes counter counts repeats |
| `ReceiptBook.Book.RecordAll` | src/receipt.rs:262-283 | Any order and overlap of windows records their union |
| `ReceiptBook.Book.RecordSample` | src/receipt.rs:286-290 | The first sample at an offset wins |
| `ReceiptBook.Book.Coverage` | src/receipt.rs:293-303 | The number of distinct recorded bytes in the window |
| `ReceiptBook.Book.DataProof` | src/receipt.rs:321-338 | There is a proof exactly when a sample lies in the range, over exactly those samples |
| `ReceiptBook.PermilleFloor` | src/receipt.rs:353-354 | The rounded-down per-mille test is exactly the nine-tenths test |
| `ReceiptBook.ScaledCountFits` | src/receipt.rs:354-354 | Below offset 2^40 the scaled count cannot overflow 64 bits |
| `RateLimit.WindowIsBounded` | src/ratelimit.rs:116-135 | After any history, calls made between t0 and t1 at a fixed non-zero rate are granted at most one burst plus the elapsed time's worth, whatever the clock does in between |
| `RateCeiling.UploadCeiling` | src/ratelimit.rs:137-168 | From 40951 bytes a second on, after any history, no one-second window of an upload bucket exceeds the rate by more than its tolerance |
| `RateCeiling.CeilingIsExact` | src/ratelimit.rs:137-168 | The one-second ceiling is kept if and only if the rate is at least 40951 |
| `RateCeiling.SecondFallsShort` | src/ratelimit.rs:127-135 | From 40951 to 40959 the burst is over the tolerance, but every refill loses a fraction or is capped, so no second gets both in full |
| `RateCeiling.BurstFits` | src/ratelimit.rs:143-168 | The upload burst is within the tolerance if and only if the rate is at least 40960 |
| `RateCeiling.SlowUploadExceeds` | src/ratelimit.rs:165-165 | At every rate below 40951 a caller that asks at the right steps breaks the ceiling within one second |
| `RateLimit.RunIsExact` | src/ratelimit.rs:116-135 | While the bucket does not fill, everything the elapsed time is worth is granted or still there, but for at most one byte a call |
| `RateLimit.RefillLosesLessThanAByte` | src/ratelimit.rs:127-135 | A refill that does not fill the bucket falls short of the elapsed time by less than one byte, saturation included |
| `RateLimit.RunKeepsSound` | src/ratelimit.rs:84-135 | Tokens never exceed the capacity of the current rate, through any calls and rate changes |
| `RateChange.RateChangesGiveNothing` | src/ratelimit.rs:84-135 | Through any calls and any changes among non-zero rates, what is granted and what is left is at most what was there and what the time was worth |
| `RateChange.RateChangeKeepsTokens` | src/ratelimit.rs:84-89 | A change of the rate keeps the tokens that fit the new burst and takes effect from then on |
| `RateChange.UnlimitedGrantsAll` | src/ratelimit.rs:116-119 | Without a limit everything asked for is granted |
| `RateChange.ToleranceFalls` | src/ratelimit.rs:142-151 | The tolerance is ten percent at first, falls by half a percent for each 50 KiB, and never below one |
| `RateChange.StandardBurst` | src/ratelimit.rs:160-160 | The standard burst is a second's worth between 64 KiB and 8 MiB |
| `RateChange.UploadBurst` | src/ratelimit.rs:161-166 | The upload burst is the tolerated part of a second's worth between 4 KiB and 1 MiB |
| `RateLimit.TokenBucket.constructor` | src/ratelimit.rs:61-80 | A new bucket is full |
| `RateLimit.TokenBucket.Refill` | src/ratelimit.rs:127-135 | In place, the refill the bounds are about |
| `RateLimit.TokenBucket.ChangeRate` | src/ratelimit.rs:84-89 | Refills at the old rate, then cuts tokens to the new burst |
| `RateLimit.TokenBucket.Spendable` | src/ratelimit.rs:107-113 | What may be spent now |
| `RateLimit.TokenBucket.Spend` | src/ratelimit.rs:116-124 | Grants what is asked, as far as there are tokens |
| `Merkle.LevelsAreTree` | src/metainfo.rs:745-762 | Hashing level by level with lone children promoted gives the root of one fixed tree: a largest perfect left part, then the rest |
| `Merkle.RootSplits` | src/metainfo.rs:745-762 | The root of one leaf is the leaf; the root of more is the digest of left root then right root, split at the largest power of two below their number |
| `Merkle.ChunkIs` | src/metainfo.rs:591-594 | The i-th block hashed is the i-th 16 KiB of the piece, the last one what is left |
| `Merkle.TreeCollision` | src/metainfo.rs:745-762 | Two different leaf lists of one length and one tree root yield two different inputs with the same digest, one at an inner node of each tree |
| `Merkle.LevelsHashTree` | src/metainfo.rs:745-762 | Level by level, exactly the inner nodes of that tree are hashed |
| `Merkle.RootCollision` | src/metainfo.rs:745-762 | The colliding pair, computed, among the inputs hashed for the two roots |
| `Merkle.PieceCollision` | src/metainfo.rs:578-604 | The colliding pair, computed, among the inputs hashed to verify two different buffers that pass for one piece |
| `Merkle.RootBinds` | src/metainfo.rs:745-762 | Equal roots of equally long lists mean equal lists, or two inputs hashed for the one and the other that collide, for every length |
| `Merkle.LengthMatters` | src/metainfo.rs:745-762 | Without a known length an inner node passes for a leaf, with no collision |
| `Merkle.MerkleRoot` | src/metainfo.rs:745-762 | The level loop ends with the root |
| `Merkle.NextLevel` | src/metainfo.rs:752-759 | One level: pairs hashed, a lone last child promoted |
| `Merkle.VerifyPiece` | src/metainfo.rs:578-604 | A v2 piece passes exactly when its length agrees in 32 bits and the root of its block hashes is the expected one |
| `Merkle.VerifiedPieceIsPinned` | src/metainfo.rs:578-604 | Two buffers that pass for one piece are the same bytes, or two inputs hashed to verify the one and the other collide |
| `Routing.ReachableIsKept` | src/dht.rs:80-194 | In every reachable table our own id is absent, buckets hold at most k entries, each id occurs once and in its own bucket, and real entries have pairwise distinct endpoints |
| `Routing.RunKeeps` | src/dht.rs:149-194 | That invariant survives every run of insertions and failures |
| `Routing.InsertKeeps` | src/dht.rs:149-161 | Insertion keeps it, dropped endpoints and refreshed entries included |
| `Routing.InsertIsGentle` | src/dht.rs:91-161 | Insertion reports success exactly when the id is in the table afterwards, and no good node at another endpoint is ever displaced |
| `Routing.FailureKeeps` | src/dht.rs:170-181 | A failure touches one node only, and evicts it exactly at its fourth in a row |
| `Routing.OneEntryPerId` | src/dht.rs:138-161 | An id has at most one entry in the whole table |
| `Routing.BucketInsertFacts` | src/dht.rs:91-111 | A bucket gives up only the same id's old entry or one node that is not good |
| `Routing.InsertTakes` | src/dht.rs:149-161 | A node is taken in if and only if it is not us and, after the entries at its endpoint are dropped, its bucket has room, knows it, or holds a failing or long silent node; it is then in the table at its address |
| `Routing.BucketTakes` | src/dht.rs:91-111 | The same for one bucket; when it was full exactly one node makes way, and that one was failing or long silent |
| `Routing.BucketKeepsOrder` | src/dht.rs:91-111 | The newcomer goes last, the others keep their order, and of the dispensable nodes the first one goes |
| `Routing.ClearedIs` | src/dht.rs:154-158 | Dropped first are the entries at the endpoint of a real newcomer, and nothing else |
| `Routing.EmptyTakes` | src/dht.rs:129-161 | A new table takes any node but ourselves |
| `Routing.FourthFailureEvicts` | src/dht.rs:170-181 | From a clean slate three failures in a row leave a node in the table and the fourth removes it |
| `NodeIds.FindBucket` | src/dht.rs:138-146 | The byte loop computes the mirrored common-prefix length |
| `NodeIds.BucketIsPrefixClass` | src/dht.rs:137-146 | Ids share a bucket exactly when they share equally long prefixes with ours; the bucket number is never that length itself |
| `NodeIds.LexIsNumeric` | src/dht.rs:32-38 | Comparing distances as byte arrays is comparing them as numbers |
| `NodeIds.DistIsInjective` | src/dht.rs:32-38 | No two ids are equally far from a target |
| `NodeIds.LongerPrefixIsNearer` | src/dht.rs:32-38 | Sharing a longer prefix with the target is being nearer to it |
| `NodeIds.Distance` | src/dht.rs:32-38 | The byte loop computes the XOR |
| `RoutingTable.RoutingTable.Closest` | src/dht.rs:197-205 | Exactly the n entries nearest by XOR distance, nearest first, or all of them when there are fewer |
| `RoutingTable.ClosestIsUnique` | src/dht.rs:197-205 | Only one list meets that description |
| `RoutingTable.RoutingTable.constructor` | src/dht.rs:129-135 | 160 empty buckets |
| `RoutingTable.RoutingTable.InsertNode` | src/dht.rs:149-161 | In place, the insertion the invariant is about |
| `RoutingTable.RoutingTable.Retain` | src/dht.rs:154-158 | Every entry at the endpoint goes, the others keep their order |
| `RoutingTable.RoutingTable.Contains` | src/dht.rs:164-167 | True exactly when some entry of the table has the id |
| `RoutingTable.RoutingTable.OnFailure` | src/dht.rs:170-181 | In place, the failure step |
| `RoutingTable.RoutingTable.OnResponse` | src/dht.rs:184-194 | An answer inserts or refreshes the node with no failures |
| `TorrentLayout.TorrentTiles` | src/metainfo.rs:494-539 | For v1 and v2, every byte of the payload lies in exactly one piece and the piece lengths sum to the total |
| `TorrentLayout.PieceInfoOf` | src/metainfo.rs:494-539 | A piece has a description exactly when it exists; it names the file and offset of the piece's first byte and the piece's length; a v2 piece ends inside its file |
| `TorrentLayout.V1Info` | src/metainfo.rs:497-516 | v1: uniform pieces over the concatenated files |
| `TorrentLayout.V2Info` | src/metainfo.rs:517-537 | v2: pieces of each file, empty files skipped |
| `TorrentLayout.FindFile` | src/metainfo.rs:518-534 | The walk over files finds the one whose pieces include the index |
| `TorrentLayout.PieceAbsOffset` | src/metainfo.rs:542-562 | The first byte of a piece; v2 refuses an index past the end, v1 answers for any index |
| `TorrentLayout.LocateOffset` | src/metainfo.rs:565-574 | The file and offset of a byte, for exactly the bytes of the payload |
| `TorrentLayout.DescribeAndLocate` | src/metainfo.rs:494-574 | locate_offset(piece_abs_offset(i)) is the file and offset of piece_info(i) for every piece |
| `TorrentLayout.PieceCount` | src/metainfo.rs:466-474 | The number of pieces, cut to 32 bits |
| `TorrentLayout.BuildV2PieceHashes` | src/metainfo.rs:707-741 | Each file's layer in file order; a missing layer or one of the wrong length is refused |
| `TorrentLayout.HashPerPiece` | src/metainfo.rs:714-722 | There is a hash for every piece if and only if every non-empty file has a root |
| `TorrentLayout.HashIsFromOwnLayer` | src/metainfo.rs:714-722 | The hash of a piece is the entry of its own file's layer at its place in the file |
| `Layout.PiecesTile` | src/metainfo.rs:494-539 | Cutting consecutive stretches into pieces puts each byte into the one piece computed from it |
| `Layout.LengthsSum` | src/metainfo.rs:494-562 | Piece lengths sum to the total and each piece starts where the earlier ones end |
| `Layout.PieceStaysInUnit` | src/metainfo.rs:517-537 | No piece crosses from one file into the next (BEP 52), and none is empty |
| `Layout.PiecesIsCeiling` | src/metainfo.rs:496-520 | The number of pieces of a stretch is the rounded-up quotient |

## Left out

- uTP connection ids and handles, dispatch by connection id and the SYN retry limit: one connection is modelled, from its SYN on.
- uTP timing: which packets have expired, what the delay estimate asks for and when the delayed ack fires are inputs of each step; RTT and LEDBAT arithmetic (src/utp.rs:379-401, src/utp.rs:433-444) is not modelled, only the clamp.
- UtpSocket.UtpSocket.BuildPacket: timestamps and the selective-ack mask are left out of the packet value; the source writes the mask and never reads it.
- UtpSocket.UtpSocket.OnAck: the RTT and LEDBAT estimates enter as the window they ask for.
- uTP header bytes (src/utp.rs:102-132): packets are values; encoding and decoding the fixed fields would only add easy members.
- uTP end-of-stream: FIN handling beyond the state change and `close` dropping queued bytes; that a lost datagram is in the end delivered depends on the network and is not claimed.
- UtpPair.StreamIsPrefix: data packets older or newer than 2^15 packets are not delivered, because beyond that the 16-bit comparison mistakes them (`UtpPair.TimelyIsExact`).
- UtpFlight.NothingIsLost: the same for acks older than 2^15 packets (`UtpFlight.AckIsExact`) and for 2^15 or more packets outstanding.
- DiskCache.Cache.Write: that the whole cache stays right is promised for writes apart from earlier ones; for others the lookup after the write has its exact condition in `CacheOverlap.OverlapIsExact`, and clean pages and later flushes are not followed.
- DiskCache.Cache.Read: outside its condition, the bytes returned are stated only for an empty clean side and a disk that answers in full (`CacheReads.ColdReadIsRight`); what a stale page does to later reads is not followed.
- DiskCache.Cache.PromoteClean: the 64-bit counter of clean bytes is followed as it is, not proved equal to the bytes held.
- Disk host failures, write statistics and the in-flight and per-tick counters of the cache: not modelled; the host succeeds.
- Bencode accessors and convenience constructors: easy members.
- BencodeParser.EncodeValue: the debug assertion on depth is not modelled.
- Bitfield.Bitfield.OrInto: fields of equal length, as its debug assertion demands; indices are unbounded.
- Bitfield.Bitfield.AndNot: fields of equal length, as its debug assertion demands.
- UnchokeFair.SelectionIsEligible: connection ids are distinct and scores fit 64 bits; unsaturated additions in the score are taken not to overflow.
- UnchokeSteady.FreeRidingCosts: stated for peers that gave nothing; the share test of `permyriad` in between is modelled and enters through the selection only.
- SocksClient.Socks5Client.Drive: a socket direction that refuses for ever, or a clock past the deadline, is left to `Pump`, whose contract covers them.
- SOCKS proxied HTTP (src/socks.rs:446-660): request building and response parsing.
- ReceiptBook.Book.DataProof: returns the sample hashes in the range; sorting them and hashing them with a domain tag is not modelled.
- ReceiptBook.Book.BuildReceipt: integers are unbounded; `ScaledCountFits` shows the 64-bit product cannot overflow below offset 2^40. Signing and the challenge are not modelled.
- Merkle.VerifiedPieceIsPinned: buffers below 2^32 bytes, since the length test looks at 32 bits only. The v1 half (one SHA-1 comparison) is an easy member.
- SHA-1, SHA-256, HMAC and Ed25519: the hash function is a parameter and nothing is assumed of it but its digest length.
- Routing.InsertIsGentle: `export`, `size` and `real_size` and the KRPC layer above the table are not modelled.
- TorrentLayout.PieceInfoOf: the total is the sum of the file lengths; a torrent whose lengths overflow 64 bits when summed is not modelled. Indices are unbounded where the source has 32 bits.
- Torrent metadata parsing other than the info capture (src/metainfo.rs:215-462, src/metainfo.rs:644-703): path cleaning, dictionary lookups, limits.
- Engine, session, wire protocol, platform hosts, foreign interface, port mapping, geolocation tables, monitoring, tracker lists, links and state files: plumbing, tables and text handling.
