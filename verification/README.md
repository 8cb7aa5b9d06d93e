# Verification of bussard's protocol and comparison cores

Dafny models of six parts of bussard and of its tools, with proofs of what they promise. `dafny verify dfyconfig.toml` checks everything.

- **Bus actor** (`BusActor`, `BusInvariants`, `BusProperties`, `BusAnswers`, `BusCauses`, `BusWitnesses`): the task that owns the transport, the task that mirrors the tunnel's link state, and the callers that wait, as a step relation over every interleaving. A step is the code between two points where another task can run; publishing a state is two steps, the atomic store and the watch write. The theorems are about all runs.
- **Capture to frames** (`TcpReassembly`, `KnxFraming`, `KnxDamage`, `TcpCapture`, `TcpLoss`, `TcpGap`): TCP reassembly over sequence numbers modulo 2^32 (section 3.4 of RFC 9293), the buffer that cuts KNXnet/IP frames by their length field, and the reader that holds one of each per flow.
- **Data Secure** (`Gf256`, `Columns`, `Sbox`, `AesState`, `AesCipher`, `AesStandard`, `AesModes`, `Octets`, `DataSecure`, `SecureLayout`, `SecureFrames`, `SequenceCheck`): AES-128 (sections 4.2 and 5.1 to 5.3 of FIPS 197) from the algebra of GF(2^8) up, the CBC-MAC, the continuous counter keystream, sealing and opening for any block cipher, the frames, and the sequence check.
- **Device certificates** (`Digits`, `Crc4`, `Certificate`, `CertificateCheck`, `Base64Url`): the base32 text, its CRC-4 and the exact errors it misses, and the two decoders, one with one big number and one with twelve bits.
- **Download comparison** (`Memory`, `Runs`, `OpsDiff`, `OpsVerdict`, `DiffRules`, `MovedWrites`, `StateDiff`, `LoadControl`, `ImageCompare`, `ImageVerdict`, `ImageMemory`): last-write-wins memory and its canonical regions, and what each verdict of the operation diff, the state diff, the load-control comparison and the image comparison guarantees.
- **Capture walkers** (`Normalize`, `Pcap`, `Pcapng`, `Replay`): grouping frames by device with the drop rules, slicing a recording, the readers of both capture formats, and the removal of retransmitted requests.

`Wrappers` holds the option and result types they share.

Where the source changes things step by step, the model is a method or a class proved against a function; the lemmas are about the functions.

## Assumptions

- Memory is sequentially consistent, and aborting the forwarder takes effect before the actor's next publication. The transport is nondeterministic: a connect succeeds, fails or fails for good, a send succeeds or fails, a receive can fail. The command channel is an unbounded queue, which stands for the channel and the senders blocked on it.
- The sequence matcher of the diff is any list of opcodes that goes through both sequences and whose equal blocks are equal. In the load-control comparison an unequal pair of sequences counts as a difference, which every such list shows.
- The payload hash in an operation's signature is an arbitrary string, and so are keys of objects.
- The IP reader is given TCP segments and UDP payloads; a file is given as its octets; a clock is a natural number of milliseconds.
- White space and upper-casing of certificate text are those of the platform: the theorems ask only that the 32 characters are kept.
- `btoa` and `atob` are modelled by RFC 4648: the decoder drops the bits that do not fill an octet.

## Where the code promises less than its description

- The generation bracket (`connection_generation`) holds for the published state in every run (`EqualGenerationsBracket`), but the tunnel itself can be broken between two Connected readings with one generation: in the window before the forwarder's first poll (`UnseenLinkLoss`), and in the window between a loss and its bump (`LossBeforeBump`). The exact condition for readings with one generation is `ObservedBracket`: from an observed reading (connection up, every link change seen) the tunnel is unbroken exactly when the later reading is observed too. Of the four orders of the two loads at the two readings only one brackets (`LoadOrders`, with the runs `StateFirstReadingsMiss` and `GenerationFirstReadingsMiss`).
- A frame can be answered Stale before it is two seconds old, when it was issued less than two seconds before the end of the wait that holds it (`StaleBeforeCutoff`, `StaleAtHalfTheCutoff`).
- Data on a SYN loses its first octet (`SynWithData`).
- An octet that arrived can be lost, when a shorter segment replaces a longer held one (`ShorterRetransmissionLosesOctets`) or when the delivery stops inside a held segment (`OverlapStrandsOctets`), and in no other case (`AddKeeps`).
- A flush takes the lowest held sequence number without regard to the wrap: when the held numbers straddle it, the flow goes on with a later segment and the earlier one is stranded (`FlushGoesOn`, `FlushStrands`, `FlushSkips`). The buffer is kept across a flush, so a frame that the loss cut is filled up with the octets behind it (`GapMixes`), where the class says that the framer recovers by scanning for the next header.
- The operation diff calls a block on different objects, moved back or to the front, a benign reordering whatever it was moved across (`MoveKeepsOrder`, `ExchangedWrites`), and a repeated operation a benign retry whatever came in between (`RepeatKeepsFinal`, `RepeatedWrite`). A block of memory writes is judged by its own octets, so two sequences that leave the same memory can be DIFFERENT (`ChunkedBlock`, `OverwrittenBlock`).
- The image coverage counts placed octets that the mask drops, so a verdict can be identical below the threshold (`CountedButSkipped`); it counts what was compared exactly when the placed ranges stay in the mask (`CountsWhatIsCompared`).
- A slice keeps records over 64 MiB at which the reader stops (`ReaderAgrees`).

## Model

| member | source | states |
|---|---|---|
| `BusProperties.EqualGenerationsBracket` | crates/bussard-bus/src/lib.rs:525-536 | In every run, two Connected readings with equal generations have Connected and that same generation at every step between them. |
| `BusProperties.SplitReadingsBracket` | crates/bussard-bus/src/lib.rs:525-536 | The same when a reading is two loads: the first reading takes the generation before the state, the second takes it after. |
| `BusProperties.LossMovesGeneration` | crates/bussard-bus/src/lib.rs:1012-1048 | After an observed reading (connection up, link changes all seen) a broken connection shows in the generation, unless the actor is still before its bump or the forwarder has a link change still to bump. |
| `BusProperties.ObservedBracket` | crates/bussard-bus/src/lib.rs:525-536 | From an observed reading to a later one with the same generation, the connection and its link are unbroken exactly when the later reading is observed too. |
| `BusProperties.EndsDecide` | crates/bussard-bus/src/lib.rs:708-754 | Between any two moments of a run, whatever their generations, the connection is unbroken exactly when it is up at the later one with the link version of the earlier one: a connection comes up only with a new link version. |
| `BusProperties.NoLostWakeup` | crates/bussard-bus/src/lib.rs:575-601 | A waiter that is blocked while the state is Connected or Closed has an unseen watch version, or a writer stands between its two writes and its next step gives it one. |
| `BusProperties.WatchAgrees` | crates/bussard-bus/src/lib.rs:307-317 | Outside a publication the watch and the atomic show the same state. |
| `BusProperties.SendSafety` | crates/bussard-bus/src/lib.rs:873-929 | Each command is transmitted at most once and answered at most once, exactly once when the actor is gone; a transmission happens on a live connection and below the cutoff. |
| `BusProperties.AnswerTellsTransmission` | crates/bussard-bus/src/lib.rs:873-978 | A receipt or a transport error means one transmission, every other answer none (which of the two is AnswerTellsConnection); a Stale answer is given at the cutoff or at the backoff deadline. |
| `BusProperties.StaleBeforeCutoff` | crates/bussard-bus/src/lib.rs:945-985 | A held frame can be called stale before the cutoff exactly when it was issued less than the cutoff before the wait that holds it ends; that is the backoff in force after the wait began. |
| `BusProperties.ClosedIsFinal` | crates/bussard-bus/src/lib.rs:708-849 | After Closed is published it stays, no connection is live and the history gains only newly issued commands and the answers of an actor that is gone. |
| `BusProperties.ReconnectAnsweredAfterAttempt` | crates/bussard-bus/src/lib.rs:708-849 | At most one reconnect caller waits, and its answer comes after an attempt that began after its request and is over. |
| `BusProperties.BackoffDoubles` | crates/bussard-bus/src/lib.rs:828-848 | After k elapsed waits since the last connect or requested reconnect the next wait is min(start * 2^k, 30 s). |
| `BusProperties.AttemptsAndFatalStop` | crates/bussard-bus/src/lib.rs:708-821 | The attempts counter is the failed connects since the last success (saturating at 32 bits); a fatal stop happens exactly in runs with a fatal error and no connect. |
| `BusAnswers.AnswersSuit` | crates/bussard-bus/src/lib.rs:873-978 | In every run each answer suits the kind of command it answers: receipts, transport errors and Stale go to sends, CloseDone to closes, ReconnectDone to reconnects; only sends are transmitted. |
| `BusAnswers.AnswerTellsConnection` | crates/bussard-bus/src/lib.rs:880-978 | What the step that gives an answer does to the connection: a receipt leaves it live, a transport error takes it from live to broken, CloseDone leaves none and the actor ending, ReconnectDone comes with the published state that says whether it is up, a Stale answer has its exact age and touches nothing. |
| `BusCauses.EndsForAReason` | crates/bussard-bus/src/lib.rs:708-849 | The actor is ending exactly when a close was carried out or a first connect failed for good, or nobody is left to command it. |
| `BusCauses.HandlesGoneEnds` | crates/bussard-bus/src/lib.rs:873-978 | An actor that finds its handles gone ends and counts no link loss. |
| `BusCauses.AttemptsAreDue` | crates/bussard-bus/src/lib.rs:708-849 | The actor attempts to connect only at its start, after a wait that ran out, or on a reconnect request taken since the attempt before. |
| `BusCauses.WaitEnds` | crates/bussard-bus/src/lib.rs:932-979 | A wait ends with an attempt once the backoff has passed since it began, with an attempt for one more reconnect caller, or with the end of the actor. |
| `BusCauses.FramesInOrder` | crates/bussard-bus/src/lib.rs:873-929 | Frames are transmitted in the order in which they were issued, and those still to be sent come after all that were. |
| `BusCauses.LinkLossesCount` | crates/bussard-bus/src/lib.rs:515-523 | The counter of link losses is the number of broken connections and of link-down reports seen, apart from those seen and not counted yet. |
| `BusCauses.WaiterConcludes` | crates/bussard-bus/src/lib.rs:575-601 | A waiter that ends with success saw Connected, one that ends without saw Closed or ran out of time, and one that goes to sleep saw neither. |
| `BusCauses.WakesNeedNews` | crates/bussard-bus/src/lib.rs:575-601 | A woken waiter is woken again only by something published since. |
| `BusCauses.ConnectingUntilPublished` | crates/bussard-bus/src/lib.rs:307-317 | The watch shows Connecting until something is published, and never again. |
| `BusCauses.ForwarderMirrors` | crates/bussard-bus/src/lib.rs:1012-1048 | When the forwarder has published a change and no other came meanwhile, atomic and watch show the state of the link. |
| `BusInvariants.InvRun` | crates/bussard-bus/src/lib.rs:708-978 | The invariant every step keeps: one writer of the state, sound waiters, every command in exactly one place, timely transmissions, counters and backoff in step with the history. |
| `BusWitnesses.UnseenLinkLoss` | crates/bussard-bus/src/lib.rs:1012-1048 | A run in which the link is lost and comes back before the first poll of the forwarder: equal generations, Connected twice, broken tunnel. |
| `BusWitnesses.LossBeforeBump` | crates/bussard-bus/src/lib.rs:748-754 | A run in which the connection is lost and the actor has not bumped yet: equal readings, the first observed, and no connection at the second. |
| `BusWitnesses.StateFirstReadingsMiss` | crates/bussard-bus/src/lib.rs:525-536 | A run in which readings that load the state before the generation look alike although the state was Reconnecting in between. |
| `BusWitnesses.GenerationFirstReadingsMiss` | crates/bussard-bus/src/lib.rs:525-536 | A run in which the second reading loads the generation before the state: the generation of the old connection, the state of the new one, and Reconnecting in between. |
| `BusWitnesses.LoadOrders` | crates/bussard-bus/src/lib.rs:525-536 | Of the four load orders exactly one brackets in every run: generation before state at the first reading, state before generation at the second. |
| `BusWitnesses.StaleAtHalfTheCutoff` | crates/bussard-bus/src/lib.rs:945-975 | A run in which a frame is answered Stale at half the cutoff. |
| `TcpReassembly.TcpStream.AddSegment` | tools/knxtrace/capture.py:344-363 | The in-place method equals the function Add on the state before it. |
| `TcpReassembly.TcpStream.Flush` | tools/knxtrace/capture.py:365-371 | The in-place method equals FlushGap on the state before it. |
| `TcpReassembly.SeqLtIsLess` | tools/knxtrace/capture.py:374-375 | On a stream below 2^31 octets the modular comparison of sequence numbers is the comparison of positions. |
| `TcpReassembly.SeqLtOrders` | tools/knxtrace/capture.py:374-375 | Of two different sequence numbers exactly one is before the other, unless they are half the space apart: then neither is. |
| `TcpReassembly.AddDelivers` | tools/knxtrace/capture.py:344-363 | Whatever stretch of the stream arrives, the octets given out are the next ones of the stream and the held segments stay faithful to it. |
| `TcpReassembly.AllArrived` | tools/knxtrace/capture.py:331-363 | With fixed boundaries and every segment arrived, the whole stream is out and nothing is pending. |
| `KnxFraming.WalkStream` | tools/knxtrace/knxip.py:1249-1280 | The loop that cuts the buffer in place equals the function Walk on the buffer. |
| `KnxFraming.WalkFrames` | tools/knxtrace/knxip.py:1249-1280 | On a prefix of a stream of well-formed frames the walk emits exactly the whole frames and keeps the rest. |
| `KnxFraming.WalkMore` | tools/knxtrace/knxip.py:1283-1314 | One more delivery into the kept buffer emits exactly the frames it completes. |
| `KnxFraming.WalkDatagram` | tools/knxtrace/knxip.py:1228-1246 | The offset loop equals the function Datagram. |
| `KnxFraming.DatagramConserves` | tools/knxtrace/knxip.py:1228-1246 | What a datagram yields is a prefix of it, and less than a header is lost. |
| `KnxFraming.DatagramFrames` | tools/knxtrace/knxip.py:1228-1246 | Frames sent in one datagram come back as they were. |
| `KnxDamage.FrameForm` | tools/knxtrace/knxip.py:1228-1246 | A frame as octets: 0x06, 0x10, two octets of service, the length in two octets with the high one first; with these it is well-formed exactly when the length is its own. |
| `KnxDamage.ResyncsToHeader` | tools/knxtrace/knxip.py:1249-1280 | Octets before the next header are reported as skipped, exactly these, and the walk goes on at the header. |
| `KnxDamage.DropsWithoutHeader` | tools/knxtrace/knxip.py:1249-1280 | A buffer without a header is dropped whole and its length reported. |
| `KnxDamage.DatagramDamaged` | tools/knxtrace/knxip.py:1228-1246 | Frames and then something that is none: the frames come back, and the rest once as malformed, or not at all when it is shorter than a header. |
| `KnxDamage.UdpFrames` | tools/knxtrace/knxip.py:1293-1296 | In any capture whose UDP payloads are frames, with TCP flows in between, the output without a flow is those frames, datagram by datagram. |
| `TcpCapture.Assembler.Read` | tools/knxtrace/knxip.py:1283-1314 | One packet through the objects and buffers of its flow: output and new state as the per-flow step says, other flows untouched. |
| `TcpCapture.FlowsIsolated` | tools/knxtrace/knxip.py:1283-1314 | What a flow yields in a whole capture is what its own packets yield alone. |
| `TcpCapture.EmitsPrefix` | tools/knxtrace/knxip.py:1283-1314 | Any arrival order with duplicates and overlaps emits exactly the frames complete in the octets delivered: a prefix of the sent frames. |
| `TcpCapture.AllFramesEmitted` | tools/knxtrace/knxip.py:1283-1314 | With fixed boundaries and every segment arrived, every frame is emitted, the buffer is empty and nothing is pending. |
| `TcpCapture.Frames` | tools/knxtrace/knxip.py:1283-1314 | The loop over a capture yields what the packets yield one after the other. |
| `TcpCapture.CaptureEmitsPrefix` | tools/knxtrace/knxip.py:1283-1314 | End to end: in a capture with other flows in between, a flow whose start is known (its SYN, once or repeated, or its first segment first) yields exactly a prefix of the frames sent, whatever the order, duplicates and overlaps, and with a FIN wherever nothing is held. |
| `TcpCapture.CaptureEmitsAll` | tools/knxtrace/knxip.py:1283-1314 | With fixed boundaries and every segment arrived, the capture yields every frame of the flow, its closing FIN included. |
| `TcpCapture.SynWithData` | tools/knxtrace/knxip.py:1290-1305 | Data on the SYN itself comes out whole exactly when there is none: its first octet is dropped. |
| `TcpCapture.FinHarmless` | tools/knxtrace/knxip.py:1305-1314 | A FIN with nothing held changes neither the frames nor the flow. |
| `TcpLoss.AddKeeps` | tools/knxtrace/capture.py:344-363 | A segment keeps every octet that has arrived, given out or still to come, exactly when it is empty or the state before shows no loss: it takes no place of a held segment with a later octet held nowhere else, and where the chain of held segments behind it ends no held segment is cut. |
| `TcpLoss.EverythingOut` | tools/knxtrace/knxip.py:1283-1314 | Whatever the boundaries: when every octet arrived in some segment and no segment lost any, every frame is emitted. |
| `TcpLoss.CaptureEmitsEvery` | tools/knxtrace/knxip.py:1283-1314 | The same for a flow in a capture with other flows in between. |
| `TcpLoss.ShorterRetransmissionLosesOctets` | tools/knxtrace/capture.py:354-357 | Three segments after which a shorter retransmission has replaced a longer held one and an octet that arrived is neither delivered nor held. |
| `TcpLoss.OverlapStrandsOctets` | tools/knxtrace/capture.py:358-363 | Two overlapping segments after which an octet that arrived is held at a place the delivery has passed. |
| `TcpGap.FlushDelivers` | tools/knxtrace/capture.py:365-371 | A flush gives out the stretch of the stream that begins at the lowest held sequence number, and at least one octet. |
| `TcpGap.FlushGoesOn` | tools/knxtrace/capture.py:365-371 | It goes on with the segment that comes first in the stream exactly when the held numbers do not straddle the wrap of the sequence numbers. |
| `TcpGap.FlushStrands` | tools/knxtrace/capture.py:365-371 | When they do, that segment stays held behind the place the flow has reached. |
| `TcpGap.FlushSkips` | tools/knxtrace/capture.py:365-371 | Two held segments on either side of the wrap: the flush gives out the second and keeps the first. |
| `TcpGap.FlushGivesRest` | tools/knxtrace/capture.py:365-371 | With every part of the stream from some part on held, and no wrap between them, the flush gives out all of them and holds nothing. |
| `TcpGap.FinIsSeparate` | tools/knxtrace/knxip.py:1297-1314 | A FIN on a packet does what the packet and then an empty FIN do. |
| `TcpGap.FinEmitsRest` | tools/knxtrace/knxip.py:1297-1314 | A FIN behind lost octets emits every frame from the first held part on, when that begins a frame and the buffer is empty. |
| `TcpGap.CaptureFlushes` | tools/knxtrace/knxip.py:1283-1314 | The same in a capture with other flows in between, behind the frames complete before the loss. |
| `TcpGap.GapMixes` | tools/knxtrace/knxip.py:1297-1314 | When the loss cut a frame, the first frame behind it joins old and new octets, and is the frame that was sent exactly when the new octets equal the lost ones. |
| `TcpGap.SynAligns` | tools/knxtrace/knxip.py:1302-1303 | A SYN starts its stream anew whatever the flow expected, and keeps the segments that overtook it. |
| `Gf256.XTimeAdds` | tools/knxtrace/datasecure.py:94-96 | Multiplying by x distributes over addition in GF(2^8). |
| `Gf256.MulLoop` | tools/knxtrace/datasecure.py:99-106 | The shift-and-add loop computes the product of two bytes. |
| `Gf256.MulPower3` | tools/knxtrace/datasecure.py:63-70 | Multiplying by the k-th power of 3 is k steps of the walk. |
| `Gf256.Order255` | tools/knxtrace/datasecure.py:63-81 | 3 returns to 1 after 255 steps and not before, so the builder meets every nonzero byte once. |
| `Gf256.Distinct` | tools/knxtrace/datasecure.py:63-81 | The 255 powers of 3 and the 255 powers of 1/3 are pairwise different: no table entry is overwritten. |
| `Sbox.EveryNonzeroByte` | tools/knxtrace/datasecure.py:63-81 | Every nonzero byte is one of the 255 powers of 3. |
| `Sbox.BuildSbox` | tools/knxtrace/datasecure.py:63-84 | The loop terminates, and its tables are the S-box and its inverse. |
| `Sbox.SubstitutesReciprocal` | tools/knxtrace/datasecure.py:63-84 | The substitution of x is the affine step on the y with x * y = 1 (section 5.1.1 of FIPS 197). |
| `Sbox.StandardSubstitution` | tools/knxtrace/datasecure.py:63-84 | The tables are those of the standard: 0 becomes 0x63, and every other byte has a reciprocal and becomes its affine image. |
| `Sbox.TablesUnique` | tools/knxtrace/datasecure.py:63-91 | There is one pair of tables with these properties. |
| `Sbox.MutuallyInverse` | tools/knxtrace/datasecure.py:63-84 | Substituting after the inverse substitution gives the byte back. |
| `Columns.MixIsMixRow` | tools/knxtrace/datasecure.py:144-153 | The fused row a + (a+b+c+d) + 2(a+b) is the row 2, 3, 1, 1 of section 5.1.3 of FIPS 197. |
| `Columns.MixTwice` | tools/knxtrace/datasecure.py:144-153 | Mixing a column twice adds 4(a + c) to a. |
| `Columns.InvMixIsMix` | tools/knxtrace/datasecure.py:165-175 | The row 14, 11, 13, 9 is mixing after that addition. |
| `Columns.Products` | tools/knxtrace/datasecure.py:109-113 | The tables for 9, 11, 13 and 14 hold the field products. |
| `AesState.ShiftRowsInverse` | tools/knxtrace/datasecure.py:141-162 | The two row shifts undo each other. |
| `AesState.LeftRight` | tools/knxtrace/datasecure.py:141-162 | The index formulas of the two row shifts are the row turns of the standard. |
| `AesState.MixColumnsInverse` | tools/knxtrace/datasecure.py:143-175 | The two column mixes undo each other, in both orders. |
| `AesStandard.XTimeOnBasis` | tools/knxtrace/datasecure.py:94-96 | Doubling moves each coefficient up by one, and x^8 becomes x^4 + x^3 + x + 1 (section 4.2.1 of FIPS 197). |
| `AesStandard.StandardProducts` | tools/knxtrace/datasecure.py:99-106 | The worked products of section 4.2 of FIPS 197: 57 times 83 is c1, and 57 times 13 is fe. |
| `AesStandard.AffineLow` | tools/knxtrace/datasecure.py:63-81 | Bits 0 to 3 of the affine step, each from five bits of the argument and a bit of 63 (equation 5.1 of FIPS 197). |
| `AesStandard.AffineHigh` | tools/knxtrace/datasecure.py:63-81 | Bits 4 to 7 likewise. |
| `AesStandard.WordOctets` | tools/knxtrace/datasecure.py:119-134 | Octet j of word i is octet j of word i - 4 plus, for i a multiple of 4, the substituted octet (j + 1) mod 4 of word i - 1 and for j = 0 the constant of the standard, and otherwise octet j of word i - 1 (section 5.2 of FIPS 197). |
| `AesStandard.ScheduleOctets` | tools/knxtrace/datasecure.py:119-134 | The same recurrence on the octets of the eleven round keys, the first of which is the key. |
| `AesStandard.CipherOctets` | tools/knxtrace/datasecure.py:137-156 | The cipher gives the last of eleven states that follow the octet rules of section 5.1 of FIPS 197: substituted octets from the shifted column, multiplied by 2, 3, 1, 1 in rounds 1 to 9, plus the round key. |
| `AesCipher.DecipherCipher` | tools/knxtrace/datasecure.py:158-176 | For every key and block, deciphering undoes ciphering. |
| `AesCipher.CipherDecipher` | tools/knxtrace/datasecure.py:137-156 | For every key and block, ciphering undoes deciphering: the cipher is a permutation. |
| `AesCipher.Aes128.constructor` | tools/knxtrace/datasecure.py:119-132 | The word loop builds the key expansion of section 5.2 of FIPS 197. |
| `AesCipher.Words` | tools/knxtrace/datasecure.py:122-131 | The 44 words of the loop are the expansion, with the round constants x^(j-1). |
| `AesCipher.Aes128.EncryptBlock` | tools/knxtrace/datasecure.py:137-156 | The round loop computes the cipher of section 5.1 of FIPS 197. |
| `AesCipher.Aes128.DecryptBlock` | tools/knxtrace/datasecure.py:158-176 | The round loop computes the inverse cipher of section 5.3 of FIPS 197. |
| `AesModes.AesCbcDecrypt` | tools/knxtrace/datasecure.py:183-194 | Raises exactly on a bad IV, key or length, and otherwise returns the CBC decryption, with the tables it builds and hence with any tables of the standard. |
| `AesModes.AesCbcInverse` | tools/knxtrace/datasecure.py:183-194 | CBC decryption gives back every plaintext that CBC encrypted, for any number of blocks. |
| `AesModes.CbcMacLoop` | tools/knxtrace/datasecure.py:197-209 | The padding and the chaining loop compute the CBC-MAC over block 0, length, data and payload, or raise when the length does not fit 16 bits. |
| `AesModes.CtrKeystream` | tools/knxtrace/datasecure.py:212-219 | The loop gives the first n octets of the enciphered counters, the counter wrapping at 2^128. |
| `DataSecure.KeystreamPrefix` | tools/knxtrace/datasecure.py:212-219 | A shorter keystream is a prefix of a longer one. |
| `DataSecure.NonceReads` | tools/knxtrace/datasecure.py:227-239 | The nonce holds the sequence number and both addresses, each to be read back from its own octets. |
| `DataSecure.MacCovers` | tools/knxtrace/datasecure.py:197-276 | Two sealings of one mode feed the same octets to the cipher exactly when sequence number, addresses, flags and data are the same: no padding or length field hides a difference. |
| `DataSecure.SealRaises` | tools/knxtrace/datasecure.py:257-276 | Sealing raises exactly when key, sequence number, addresses or authenticated length do not fit. |
| `DataSecure.OpenSeal` | tools/knxtrace/datasecure.py:257-286 | Opening what was sealed returns the payload with the MAC accepted, in both modes. |
| `DataSecure.AcceptsOnlySealed` | tools/knxtrace/datasecure.py:279-286 | Opening accepts a body and MAC exactly when they are the sealing of the payload it returns. |
| `DataSecure.OneMac` | tools/knxtrace/datasecure.py:279-286 | For a fixed body exactly one MAC is accepted, of four octets. |
| `SecureLayout.FirstBlock` | tools/knxtrace/datasecure.py:227-234 | Block 0 octet by octet: the nonce, 0, address type and format, control, F1, 0 and the length. |
| `SecureLayout.MacInputLayout` | tools/knxtrace/datasecure.py:197-209 | Behind block 0 the length of the authenticated data in two octets, then in either mode the additional data and the payload one after the other, and fewer than 16 zero octets up to a whole block. |
| `SecureLayout.MacIsLastBlock` | tools/knxtrace/datasecure.py:197-209 | The MAC is the last block of the CBC encryption of its input under a zero initialization vector. |
| `SecureLayout.SealOctets` | tools/knxtrace/datasecure.py:257-276 | Octet by octet: the MAC is the first four octets of the CBC-MAC plus the first four of the keystream, the body the payload plus the keystream from the fifth octet on, or the payload itself without encryption. |
| `SecureLayout.EncryptsBits` | tools/knxtrace/datasecure.py:253-254 | Encryption is asked for exactly when bits 6 to 4 of the control field are 001. |
| `SecureLayout.DataLayout` | tools/knxtrace/datasecure.py:289-306 | Where each part of an S-A_Data frame stands. |
| `SecureLayout.SyncReqLayout` | tools/knxtrace/datasecure.py:309-327 | Where each part of an S-A_Sync_Req stands; its serial is in clear. |
| `SecureLayout.SyncResLayout` | tools/knxtrace/datasecure.py:330-349 | Where each part of an S-A_Sync_Res stands: in the place of the sequence number the sum of nonce and challenge, and sealed the responder's number before the requester's. |
| `Octets.MostSignificantFirst` | tools/knxtrace/datasecure.py:237-239 | The first octet of a number counts most. |
| `Octets.ToBytes` | tools/knxtrace/datasecure.py:237-239 | The conversion raises exactly when the number does not fit, and reading the octets gives it back. |
| `Octets.BigEndianFrom` | tools/knxtrace/datasecure.py:302-305 | Every octet string is the big-endian form of the number read from it. |
| `SecureFrames.DecodeEncode` | tools/knxtrace/datasecure.py:289-306 | An S-A_Data frame can be built exactly when its parts fit, and decodes to its APDU with the MAC accepted. |
| `SecureFrames.AcceptedIsEncoded` | tools/knxtrace/datasecure.py:295-306 | A frame that decodes with the MAC accepted is, octet for octet, the encoding of what it decodes to. |
| `SecureFrames.DecodeEncodeSyncReq` | tools/knxtrace/datasecure.py:309-327 | An S-A_Sync_Req with six-octet serial and challenge comes back whole. |
| `SecureFrames.DecodeEncodeSyncRes` | tools/knxtrace/datasecure.py:330-349 | An S-A_Sync_Res comes back whole with the same challenge of at least six octets, and is unreadable with a shorter one. |
| `SequenceCheck.SequenceProblems` | tools/knxtrace/datasecure.py:845-877 | A frame is reported exactly when an earlier one of its sender and key had its number or a higher one, and the report is in order. |
| `SequenceCheck.NothingReported` | tools/knxtrace/datasecure.py:845-877 | Nothing is reported exactly when the numbers strictly increase per sender and key. |
| `Crc4.CheckLoop` | tools/ets-sweep/secure.py:65-76 | The bit loop computes the remainder of the bits times x^4 modulo x^4 + x + 1. |
| `Crc4.CodeWord` | tools/ets-sweep/secure.py:65-76 | The check value is the one that makes the remainder of data and check together zero. |
| `Crc4.CharacterReplaced` | tools/ets-sweep/secure.py:65-76 | Feeding two different five-bit values gives the same remainder exactly when they differ by 10011. |
| `Crc4.CharactersSwapped` | tools/ets-sweep/secure.py:65-76 | Feeding two five-bit values in either order gives the same remainder exactly when they are equal or differ by 10011. |
| `Certificate.ReadNumber` | tools/ets-sweep/secure.py:97-101 | The parsing loop reads the characters as one number in base 32. |
| `Certificate.AlphabetTable` | tools/ets-sweep/secure.py:97-101 | The characters stand for their numbers in the table of RFC 4648. |
| `Certificate.CleanCharacter` | tools/ets-sweep/secure.py:94-99 | White space and minus signs are dropped wherever they stand, and every other character stays, in upper case. |
| `Certificate.ParseText` | tools/ets-sweep/secure.py:84-107 | Parsing a written certificate returns its serial number and key and the check matches. |
| `Certificate.TextOfParsed` | tools/ets-sweep/secure.py:79-107 | Writing what was parsed with a matching check gives the same 36 characters. |
| `CertificateCheck.PassesWhenZero` | web/enroll/enroll.js:362-372 | A text passes exactly when the remainder of its 180 bits is zero, data and check bits alike. |
| `CertificateCheck.TextOfBits` | tools/ets-sweep/secure.py:79-107 | The 36 characters are the 22 octets and then the check nibble, five bits each, the first bit first. |
| `CertificateCheck.ReplaceOne` | web/enroll/enroll.js:398-419 | With one character replaced, a passing certificate passes again exactly when the old and new values differ by 10011. |
| `CertificateCheck.SwapNeighbours` | web/enroll/enroll.js:398-419 | The same for two adjacent characters changing places. |
| `CertificateCheck.Stream` | web/enroll/enroll.js:398-415 | The twelve-bit accumulator extracts the same 22 octets and check nibble as one big number. |
| `CertificateCheck.CheckCertificate` | web/enroll/enroll.js:387-426 | The status is empty, malformed or incomplete exactly as documented, and where the strict parser reads the text, fields and verdict agree with it. |
| `Base64Url.DecodeIsInverse` | web/enroll/enroll.js:72-94 | The decoder returns b for t exactly when t is the encoding of b. |
| `Base64Url.DecodeAccepts` | web/enroll/enroll.js:82-94 | A text is accepted exactly when it has the alphabet, a possible length and no stray bits. |
| `Base64Url.AlphabetTable` | web/enroll/enroll.js:72-77 | The characters stand for their numbers in the table of RFC 4648, the minus for 62 and the underscore for 63. |
| `Base64Url.GroupNumber` | web/enroll/enroll.js:72-77 | Three octets and their four characters are one 24-bit number, the most significant first. |
| `Base64Url.EncodeGroups` | web/enroll/enroll.js:72-77 | Groups of three octets are written one after the other. |
| `Base64Url.KnownTexts` | web/enroll/enroll.js:72-77 | The test vectors of section 10 of RFC 4648 for one, two and three octets. |
| `Memory.Coalesce` | tools/knxtrace/normalize.py:182-200 | Regions in order, nonempty, never adjacent, and holding the last-write-wins memory of the writes. |
| `Memory.Flatten` | tools/knxtrace/opsdiff.py:416-421 | The nested loops build the last-write-wins map. |
| `Runs.CanonicalUnique` | tools/knxtrace/normalize.py:182-200 | There is one canonical list of regions for a memory. |
| `Runs.CoalescedEqual` | tools/knxtrace/normalize.py:182-200 | Two write lists coalesce to equal regions exactly when they leave equal memory. |
| `Runs.RangesByStart` | tools/knxtrace/opsdiff.py:424-439 | The splitter that keeps the open run returns the runs of the addresses. |
| `Runs.RangesByLast` | tools/knxtrace/image.py:1761-1768 | The splitter that widens the last range returns the runs of the addresses. |
| `Runs.SplittersAgree` | tools/knxtrace/image.py:1761-1768 | There is one way to split addresses into runs, so the two splitters agree. |
| `Runs.RunsOf` | tools/knxtrace/image.py:262-270 | The runs of a map of octets are canonical and hold exactly that map. |
| `OpsDiff.MemoryImage` | tools/knxtrace/normalize.py:159-174 | The image of a sequence is the canonical form of its memory writes. |
| `OpsDiff.PairByIdentity` | tools/knxtrace/opsdiff.py:348-364 | Every operation is paired with one of the same identity or left over, nothing left over could still be paired, and the pairs are those of the function PairAll. |
| `OpsDiff.Classify` | tools/knxtrace/opsdiff.py:222-309 | A block gives no finding exactly when it is empty, and without a finding of difference every programming signature of it is accounted for on the other side; the findings are those of the function Classified. |
| `OpsDiff.PairMoves` | tools/knxtrace/opsdiff.py:180-196 | Paired blocks hold the same signatures and balance out; the rest is left in order; the outcome is that of the function MovesOf. |
| `DiffRules.ChunkedBlock` | tools/knxtrace/opsdiff.py:257-290 | For two sequences that differ in one block of memory writes (neither the same multiset nor a retry): benign chunking exactly when the block leaves the same octets on both sides, however they are cut, and then the whole memory is the same; otherwise a payload difference. |
| `DiffRules.OverwrittenBlock` | tools/knxtrace/opsdiff.py:257-290 | A block whose different octets are overwritten behind it: DIFFERENT, although both sequences leave the same memory. |
| `DiffRules.CyclingBlock` | tools/knxtrace/opsdiff.py:237-245 | A block of connects and disconnects alone is one benign cycling finding, and the verdict is BENIGN. |
| `DiffRules.ReorderedBlock` | tools/knxtrace/opsdiff.py:232-235 | For a block with the same operations in another order: benign exactly when it only reads or its objects are all different. |
| `DiffRules.OtherBlock` | tools/knxtrace/opsdiff.py:292-309 | A block that is no reordering, no retry and neither connection plumbing nor memory writes alone: the verdict is DIFFERENT. |
| `DiffRules.OtherFindings` | tools/knxtrace/opsdiff.py:292-309 | Its findings: a payload difference exactly when the sides share an identity, missing exactly when an identity occurs more often in A, extra exactly when one does in B. |
| `DiffRules.MissingAndExtra` | tools/knxtrace/opsdiff.py:348-364 | Pairing leaves something of A exactly when an identity occurs more often in A, and something of B exactly when one occurs more often in B. |
| `OpsVerdict.DiffImages` | tools/knxtrace/opsdiff.py:375-413 | The ranges reported cover exactly the octets on which the two images disagree, named coverage where one side has no octet and content where both have one. |
| `OpsVerdict.CompareOperations` | tools/knxtrace/opsdiff.py:146-169 | No findings exactly when nothing is left over; without a difference each programming signature is on both sides, and equally often when nothing was called a retry. |
| `OpsVerdict.Diff` | tools/knxtrace/opsdiff.py:129-169 | For every valid alignment: not DIFFERENT means equal memory and the same programming signatures (as a multiset unless a retry was found); IDENTICAL means equal signature sequences and equal memory. |
| `MovedWrites.MoveKeepsOrder` | tools/knxtrace/opsdiff.py:180-219 | Between common operations, for a block moved back (delete, equal, insert) and to the front (insert, equal, delete): the whole diff is BENIGN exactly when the memory is equal and the block only reads or goes to different objects; with different objects, every object is sent the same exactly when what the block moved across sends its objects nothing else. |
| `MovedWrites.ExchangedWrites` | tools/knxtrace/opsdiff.py:180-219 | Two different writes to one property, exchanged, at the alignment the matcher gives (insert, equal, delete): the verdict of the whole diff is BENIGN and the last write to the property differs. |
| `MovedWrites.RepeatKeepsFinal` | tools/knxtrace/opsdiff.py:331-345 | The whole diff of a sequence with one that repeats an operation, on either side, is BENIGN exactly when the memory is equal; the last operation its object gets is the same exactly when something reaches the object later or nothing else reached it before the repeat. |
| `MovedWrites.RepeatedWrite` | tools/knxtrace/opsdiff.py:331-345 | Two different writes to one property, and the first again, at the alignment the matcher gives (equal, insert): the verdict of the whole diff is BENIGN and the last write to the property differs. |
| `StateDiff.CompareStates` | tools/knxtrace/statediff.py:81-140 | With a write in the step, the verdict is identical exactly when the two complete final memories are equal; the per-region counts add up to the totals. |
| `StateDiff.FinalMemories` | tools/knxtrace/statediff.py:34-42 | A side's final memory is what all writes leave, one after the other: the base downloads in order, and then its own step. |
| `StateDiff.OctetDiffers` | tools/knxtrace/statediff.py:100-125 | An octet differs exactly when the sides do not leave the same value there, and is unknown exactly when one side leaves none. |
| `StateDiff.TalliesCount` | tools/knxtrace/statediff.py:100-125 | Each region is listed once and its counters count exactly its own touched, differing, unknown and written octets. |
| `StateDiff.RegionIs` | tools/knxtrace/statediff.py:65-70 | An address is of the first segment that holds it, and otherwise of its 256-octet page. |
| `StateDiff.EqualWhenTouchedEqual` | tools/knxtrace/statediff.py:92-99 | Outside what either side wrote both final memories are the base, so comparing the touched octets decides. |
| `StateDiff.ChunkingDoesNotMatter` | tools/knxtrace/statediff.py:34-42 | There is one report for given memories: verdict, regions and counters do not depend on how either side or the base chunked its writes. |
| `LoadControl.CollapseLoop` | tools/knxtrace/image.py:1567-1575 | The loop drops exactly the immediate repeats. |
| `LoadControl.Compare` | tools/knxtrace/image.py:1609-1679 | With ETS records, identical exactly when every object agrees after dropping repeats, under the pairing of one unresolved object with one free object. |
| `LoadControl.PairedVerdict` | tools/knxtrace/image.py:1622-1635 | With unresolved records of ours and one object that only ETS drives, identical exactly when those records are what ETS sent to that object and every other object agrees. |
| `LoadControl.UnpairedVerdict` | tools/knxtrace/image.py:1622-1635 | With none unresolved, or no free object or more than one, identical exactly when every object agrees by itself. |
| `LoadControl.InterleavingDoesNotMatter` | tools/knxtrace/image.py:1622-1631 | The verdict for an object depends on the collapsed sequences per object only, so records may be interleaved in any way. |
| `LoadControl.SameVerdict` | tools/knxtrace/image.py:1620-1679 | Record lists with the same collapsed sequence for every object have the same verdict. |
| `LoadControl.CollapsePlain` | tools/knxtrace/image.py:1567-1575 | A sequence without immediate repeats is kept as it is. |
| `LoadControl.RepeatDoesNotMatter` | tools/knxtrace/image.py:1567-1575 | Repeating a record before the next one of its object changes no object's sequence. |
| `LoadControl.RepeatKeepsVerdict` | tools/knxtrace/image.py:1609-1679 | Repeating a record before the next one of its object changes the verdict against no other list, on either side. |
| `LoadControl.ExchangeKeepsVerdict` | tools/knxtrace/image.py:1609-1679 | Nor does exchanging two neighbouring records of different objects. |
| `ImageCompare.ComposeAndLoad` | tools/knxtrace/image.py:549-674 | Loading a composed image gives the last-write-wins map and the read-but-never-written map, which are disjoint, and the fill of the allocations. |
| `Memory.LastWriteWins` | tools/knxtrace/normalize.py:182-200 | An octet is the data of the last write that holds its address, and is absent exactly when none does. |
| `ImageMemory.OctetCompared` | tools/knxtrace/image.py:634-684 | From writes, answers and fills: an octet of ours is compared exactly when the mask keeps it and some write or fill holds its address, with the last write if there is one and otherwise with the last fill; it is confirmed exactly when it was read and never written, and contradicted when the mask keeps it and the last answer is another. |
| `ImageMemory.CompareCapture` | tools/knxtrace/image.py:785-880 | Capture to verdict: each image differs exactly when some octet of it is not the last written value, or where nothing was written the last fill; its coverages count the placed offsets that were written or filled, and of those read back as ours. |
| `ImageCompare.AddCoverage` | tools/knxtrace/image.py:1725-1748 | The loop counts the placed and the known offsets, in all and per page. |
| `ImageCompare.Coverage` | tools/knxtrace/image.py:723-758 | Thin exactly when nothing is placed, the share is below the threshold or a page with placed octets has none compared. |
| `ImageCompare.ShareBelow` | tools/knxtrace/image.py:723-758 | The share is too small exactly when it is below the threshold: a share equal to it is large enough. |
| `ImageCompare.ThinShrinks` | tools/knxtrace/image.py:723-758 | A coverage that sees at least as much is not thinner. |
| `ImageVerdict.PlacedOffsets` | tools/knxtrace/image.py:709-714 | The offsets of the placed ranges that are in the image, in order, or without ranges those the mask keeps. |
| `ImageVerdict.CountOctets` | tools/knxtrace/image.py:805-833 | The counters are the numbers of octets compared, different, read back, and read back differently. |
| `ImageVerdict.CompareImage` | tools/knxtrace/image.py:785-880 | A region differs exactly when some compared octet differs, and is not comparable exactly when none is compared; its counters and both its coverages are exact. |
| `ImageVerdict.IdenticalMeans` | tools/knxtrace/image.py:888-919 | The overall verdict is identical exactly when no octet in scope differs, some octet in scope is compared and the coverage is not thin. |
| `ImageVerdict.WhichCoverage` | tools/knxtrace/image.py:888-919 | The coverage with the read-confirmed octets decides exactly when some octet in scope was read back and none differently. |
| `ImageVerdict.IdenticalSeesPages` | tools/knxtrace/image.py:1725-1748 | Under an identical verdict the page of every placed octet in scope has a placed octet whose value is known. |
| `ImageVerdict.ConfirmedNeverLowers` | tools/knxtrace/image.py:837-848 | Counting the read-confirmed octets that agree never makes the coverage thin. |
| `ImageVerdict.ConfirmedOnlyAdds` | tools/knxtrace/image.py:892-919 | Read-confirmed octets never take an identical verdict away and never hide or make a difference; they change the verdict only when none in scope differs. |
| `ImageVerdict.CountsCompared` | tools/knxtrace/image.py:810-838 | For one download the octets counted are the placed octets really compared exactly when every placed octet with a known value is in the mask. |
| `ImageVerdict.CountsWhatIsCompared` | tools/knxtrace/image.py:810-838 | For every download they are, exactly when the placed ranges stay in the mask or the image has no address. |
| `ImageVerdict.CountedButSkipped` | tools/knxtrace/image.py:810-919 | A concrete image with three placed octets, one of them in the mask: its verdict is identical and all three are counted, although the one compared is a third and the threshold a half. |
| `Normalize.Walk` | tools/knxtrace/normalize.py:444-501 | The loop over the frames computes the buckets, drop counters and indices of the step function. |
| `Normalize.EchoChangesNothing` | tools/knxtrace/normalize.py:481-484 | Inserting an L_Data.con anywhere leaves every device's operations unchanged, indices included. |
| `Normalize.RepeatChangesNothing` | tools/knxtrace/normalize.py:485-489 | Inserting a flagged repeat before the next frame of its device and direction leaves every device's operations unchanged. |
| `Normalize.RepeatCounted` | tools/knxtrace/normalize.py:485-489 | Such a repeat is counted as a repeat of its device, and nothing else of the device changes. |
| `Normalize.NewPayloadKept` | tools/knxtrace/normalize.py:485-501 | A frame with another payload than the last of its device and direction is an operation, flagged as a repeat or not. |
| `Normalize.EveryFrameCounted` | tools/knxtrace/normalize.py:444-501 | For each device the operations, acknowledgements, echoes and repeats add up to its usable frames. |
| `Normalize.NothingDropped` | tools/knxtrace/normalize.py:444-501 | Without echoes and repeats a device's operations are those of its frames, in order. |
| `Normalize.RestrictedWalk` | tools/knxtrace/normalize.py:444-501 | A walk restricted to one device gives it the operations of the whole walk. |
| `Replay.Requests` | knx-sim/src/replay.rs:60-93 | The loop delivers a request unless it is its channel's last one again since the last connect request. |
| `Replay.RepeatDeliversNothing` | knx-sim/src/replay.rs:60-93 | Repeating a channel's latest request before the next connect request changes nothing, whatever other channels send in between. |
| `Replay.ConnectForgets` | knx-sim/src/replay.rs:60-93 | What follows a connect request is delivered as in a recording of its own. |
| `Replay.AnotherIsDelivered` | knx-sim/src/replay.rs:60-93 | Another request of the channel than its last one is delivered, whatever the other channels sent in between. |
| `Replay.ClassicLoop` | knx-sim/src/replay.rs:145-160 | The record loop terminates on every input and computes the payloads or the position of the error. |
| `Replay.LinkLayers` | knx-sim/src/replay.rs:208-238 | An IP packet is found in a raw frame, behind twelve octets and its type, behind fourteen and its type, and behind four. |
| `Replay.NoPayload` | knx-sim/src/replay.rs:208-238 | Other link types and frames of other types carry nothing. |
| `Replay.LengthsCount` | knx-sim/src/replay.rs:208-238 | Header length, total length and datagram length decide which octets are the payload. |
| `Replay.UdpOfDatagram` | knx-sim/src/replay.rs:208-238 | The payload of a written IPv4 UDP datagram is found again. |
| `Replay.ClassicReads` | knx-sim/src/replay.rs:145-160 | A classic file of any frames on any link gives the UDP payloads of its frames in order, in either byte order and clock resolution; with a cut-off record behind them it is an error at that record. |
| `Replay.ClassicRoundTrip` | knx-sim/src/replay.rs:270-284 | Datagrams written as a classic capture come back in order, in either byte order and clock resolution. |
| `Pcapng.WalkLoop` | knx-sim/src/replay.rs:162-205 | The block loop terminates on every input and computes the payloads or the position of the error. |
| `Pcapng.PcapngReads` | knx-sim/src/replay.rs:162-205 | A capture of any sections, byte orders, interfaces, enhanced and simple packets and other blocks gives the UDP payloads of its frames in order, each on its own interface of its own section; with a cut-off block behind them it is an error at that block. |
| `Pcapng.PcapngRoundTrip` | knx-sim/src/replay.rs:286-322 | Datagrams written as a pcapng capture come back in order, in either byte order. |
| `Pcapng.ClassicDispatched` | knx-sim/src/replay.rs:48-56 | The four magic numbers of classic files lead to the classic reader in the right byte order. |
| `Pcapng.PcapngDispatched` | knx-sim/src/replay.rs:48-56 | A section header leads to the block reader. |
| `Pcapng.EitherFormat` | knx-sim/src/replay.rs:48-56 | The dispatch on the magic number reads the same datagrams back from either format and byte order. |
| `Pcap.Slice` | tools/ets-sweep/series.py:113-126 | The loop returns the file header and the whole records from the offset on, and their number. |
| `Pcap.SliceReads` | tools/ets-sweep/series.py:113-126 | Parsing a slice gives exactly the records from its offset on, a cut-off tail dropped. |
| `Pcap.RecordsFromBoundary` | tools/ets-sweep/series.py:113-126 | From the boundary after k records on there are exactly the records after the k-th. |
| `Pcap.RecordsBetween` | tools/ets-sweep/series.py:113-126 | Of the data cut at the boundary after k records, the records read from the boundary after j are exactly those from j to k: slices partition the recording. |
| `Pcap.ReadPackets` | tools/knxtrace/capture.py:109-128 | A file shorter than its header raises; otherwise the reader yields the packets of the function Packets and stops at a damaged length or a cut-off record. |
| `Pcap.ReaderAgrees` | tools/knxtrace/capture.py:109-128 | The reader yields a prefix of the sliced records, and all of them exactly when none is over 64 MiB. |

## Left out

- The bus model is a relation on values, not a class: two tasks and any number of callers interleave, which a single object's methods cannot show. The rest of the diagnostics, the lease (a one-permit semaphore), and the thin operations over the handle are not modelled.
- The framing of a stream that is damaged in more than one place, beyond one step at a time.
- TcpCapture.CaptureEmitsPrefix: does not cover a flow with a SYN after its first data, which makes the reader start over, or with a FIN while segments are held, which flushes them: for these there are TcpGap.SynAligns and TcpGap.CaptureFlushes.
- The decoding of KNXnet/IP and APDU fields, of IP and TCP headers, and of connect and tunnelling requests: the walkers are given the decoded parts.
- Keyrings, key derivation and the choice of candidate keys; redaction of key material; no claim about secrecy or unforgeability is made.
- The mapping from APDUs to operations, the parsing of segment records, property and group-key comparison, the names, excerpts and byte listings of reports, and the plan system whose verdict is its property parity.
- The order in which the state diff lists its regions, and the list of differences behind a load-control verdict beyond whether it is empty.
- Lists whose last element is changed in place (a region's growing buffer, the last range, a channel's table entry) are sequences; that two names can share such an element is not captured.
- The pcap reader and slicer are modelled for little-endian files, the ones the simulator records; the walker of the replay covers both byte orders. Timestamps are not modelled.
- The octets only ETS wrote, the fill counters of a region and the read-confirmed verdict of an image report.
- Percentages are compared exactly, before any rounding.
