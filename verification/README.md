# A verified model of BoringSSL's connection core

The BoringSSL tree vendored under `ios/Pods/BoringSSL` contains several small
machines whose correctness is not visible in any one function. This project
models them in Dafny and proves what they are for.

- **DTLS handshake transport** (section 4 of RFC 6347). Messages are cut into
  fragments that fit the MTU, sent and retransmitted in flights under never
  repeated record numbers, filtered by a 64-bit replay window, and reassembled
  out of order in a ring of seven buffers. The modules are `HandshakeHeader`,
  `BitMask`, `Reassembly`, `Receiver`, `RecordNumbers`, `ReplayWindow`,
  `RecordReader`, `Flight`, `Sender` and, for the whole system with a network
  that drops, repeats and reorders, `Delivery`.
- **The handshake state machines up to TLS 1.2** (section 7.3 of RFC 5246).
  `HandshakeClient` and `HandshakeServer` have one function per state, the loop
  over them, and what holds against any peer. `HandshakeTypes` holds the message
  script both follow. `HonestClient`, `HonestServer`, `HandshakeInFlight`,
  `HandshakeActs`, `HandshakeLink`, `HandshakeSystem` and `HandshakeAgreement`
  put the two together over an in-order channel. `HandshakeHeard` relates a log
  to what was received, `HandshakeChecks` says what a completed handshake has
  checked, `LateCertificate` when a client uses a key it does not have, and
  `Premaster` treats the RSA key exchange.
- **The cipher preference language.** `CipherList` and `CipherRules` relate the
  in-place splicing of a doubly linked list to sequence rewriting, `CipherOrdering`
  and `CipherCommands` say what sequences of rules establish, `CipherParser`,
  `CipherGrammar` and `CipherInterpreter` treat the rule string, and
  `CipherPreference` and `CipherChoice` lead to the server's choice.
- **The TLS byte pipeline**: `SslBuffer` and `TlsWriter` for writing, `TlsReader`
  for turning handshake records into messages.
- **Codecs and counters**: `Der` and `SessionCodec` for serialised sessions,
  `AeadContext` for nonces and additional data, `RefCount` for the lock-free
  reference count.

State that the source updates in place is held in classes whose contracts tie
it to a value (`HmFragment`, `DtlsReceiver`, `RecordWriter`, `Bitmap`, `Reader`,
`FlightSender`, `CipherOrderList`, `Buffer`, `Connection`, `MessageReader`,
`LockedCounter`).
The transport's answers, the outcomes of cryptographic operations and callbacks,
random bytes and addresses are parameters or arbitrary values.

## What the code does that its documentation does not say

- A DTLS fragment exactly seven messages ahead passes the filter for messages
  too far ahead and is then an error, while one further ahead is ignored
  (`Delivery.FatalExactly`; d1_both.cc:380 and d1_both.cc:266-271).
- When sealing fails behind the first record of a packet, the position in the
  flight is not put back as it is when writing fails, and what had been sealed
  is lost until a retransmission (`Sender.FlightSender.SendFlight`,
  `Sender.FirstMessageLost`; d1_both.cc:783-801).
- A cipher selector of several rules is documented to match their intersection
  (include/openssl/ssl.h:1296-1299). It matches nothing when a rule without a
  minimum version follows one with a minimum version, so `TLSv1.2+AES` and
  `AES+TLSv1.2` differ (`CipherGrammar.RuleSelectsIntersection`).
- A write retried with less than was already written is refused, but the
  progress is forgotten. A full retry after that repeats data if no record is
  waiting, or if moving buffers are allowed and the waiting record fits the first
  chunk; otherwise it is refused too (`TlsWriter.Connection.ShortRetryThenFull`,
  `TlsWriter.FirstByteTwice`; s3_pkt.cc:142-157 and s3_pkt.cc:202-219).
- A client certificate that is configured only after the client went on without
  one makes it use a key that was never kept; one that comes earlier or goes
  again does not (`LateCertificate.CrashExactly`; handshake_client.cc:1220-1236,
  handshake_client.cc:1404-1420 and t1_lib.cc:3488-3531).
- A write buffer may be given a capacity from which its 16-bit offset wraps
  (`SslBuffer.OffsetWraps`; ssl_buffer.cc:47-97).

## Model

| member | source | states |
|---|---|---|
| `HandshakeHeader.ParseInvertsEncode` | ios/Pods/BoringSSL/ssl/d1_both.cc:459-473 | parsing an encoded 12-byte fragment header followed by its body and anything else returns that header, that body and the rest |
| `HandshakeHeader.EncodeInvertsParse` | ios/Pods/BoringSSL/ssl/d1_both.cc:459-473 | whatever parses is, byte for byte, the encoding of what it parsed to, so the wire form is unique |
| `HandshakeHeader.BuildMessage` | ios/Pods/BoringSSL/ssl/d1_both.cc:511-539 | init and finish of a message write the serialisation with fragment offset 0 and fragment length equal to the message length |
| `BitMask.BitRangeBits` | ios/Pods/BoringSSL/ssl/d1_both.cc:203-205 | bit_range(start, end) has exactly the bits from start up to end |
| `Reassembly.AssemblesExactly` | ios/Pods/BoringSSL/ssl/d1_both.cc:211-251 | if all slices come from one body, then after any sequence of them, in any order, overlapping or repeated, the message is complete exactly when they cover it, and is then that body |
| `Reassembly.AddSliceAgrees` | ios/Pods/BoringSSL/ssl/d1_both.cc:211-251 | a slice of the body keeps a partial message in agreement with the body |
| `Reassembly.SetRange` | ios/Pods/BoringSSL/ssl/d1_both.cc:211-235 | the mask loop sets exactly the bits of the range and leaves all others |
| `Reassembly.AllMarked` | ios/Pods/BoringSSL/ssl/d1_both.cc:237-251 | the completeness test over whole bytes and the last partial byte is true exactly when every bit below the message length is set |
| `Reassembly.HmFragment.constructor` | ios/Pods/BoringSSL/ssl/d1_both.cc:152-201 | a new reassembly buffer holds the header of the whole message and no byte of it, and is already complete when the message is empty |
| `Reassembly.HmFragment.Store` | ios/Pods/BoringSSL/ssl/d1_both.cc:400-404 | copying a fragment and marking its range adds exactly that slice to the partial message; no bit at or above the message length is ever set; the mask is dropped exactly on completion |
| `Reassembly.HmFragment.Mark` | ios/Pods/BoringSSL/ssl/d1_both.cc:211-251 | marking refines adding the range to the set of received bytes |
| `Receiver.TakeFragmentKeepsRing` | ios/Pods/BoringSSL/ssl/d1_both.cc:265-295 | every occupied slot holds a sequence number in the seven-message window and congruent to its index, whatever fragment is taken |
| `Receiver.TakeRecordKeepsRing` | ios/Pods/BoringSSL/ssl/d1_both.cc:350-406 | the same over all fragments of a record, with errors stopping the record |
| `Receiver.AdvanceKeepsRing` | ios/Pods/BoringSSL/ssl/d1_both.cc:426-438 | the same when a message is consumed, also where the 16-bit read sequence wraps |
| `Receiver.DtlsReceiver.GetIncomingMessage` | ios/Pods/BoringSSL/ssl/d1_both.cc:265-295 | finds or makes the buffer of a message; fails exactly outside the window or on a mismatch with earlier fragments |
| `Receiver.DtlsReceiver.OpenFragment` | ios/Pods/BoringSSL/ssl/d1_both.cc:355-404 | one round of the fragment loop refines taking the fragment in the ring model, error cases included |
| `Receiver.DtlsReceiver.OpenHandshake` | ios/Pods/BoringSSL/ssl/d1_both.cc:297-406 | on an opened record of any type: a handshake record's fragments are taken one after the other until it ends or an error stops it, the one well-formed unencrypted ChangeCipherSpec is flagged, encrypted application data is dropped, and all else is refused |
| `Receiver.DtlsReceiver.GetMessage` | ios/Pods/BoringSSL/ssl/d1_both.cc:408-424 | returns the serialisation of the current message exactly when it is complete |
| `Receiver.DtlsReceiver.NextMessage` | ios/Pods/BoringSSL/ssl/d1_both.cc:426-438 | frees the slot and advances the 16-bit sequence number |
| `Receiver.DtlsReceiver.HasUnprocessed` | ios/Pods/BoringSSL/ssl/d1_both.cc:440-457 | true exactly if a ChangeCipherSpec is flagged or a slot other than that of the message being processed is in use |
| `Receiver.DtlsReceiver.SetReadState` | ios/Pods/BoringSSL/ssl/dtls_method.cc:81-95 | the epoch changes exactly if nothing is left over, so no message begun in one epoch is finished in the next |
| `Delivery.StepKeepsInv` | ios/Pods/BoringSSL/ssl/d1_both.cc:152-438 | every step of the sender, of a network that drops, repeats and reorders, and of the receiver keeps the ring in agreement with what was added and the consumed messages a prefix of it |
| `Delivery.DeliverySafety` | ios/Pods/BoringSSL/ssl/d1_both.cc:152-831 | in every run with fewer than 2^16 messages, what the receiver has consumed is a prefix of the serialisations of the messages added, each once and in order |
| `Delivery.FatalExactly` | ios/Pods/BoringSSL/ssl/d1_both.cc:297-406 | in every reachable state, a record of the sender ends the connection if and only if it is of message readSeq + 7, or in epoch 1 of another message than the current, or its message exceeds the limit |
| `Delivery.EighthMessageIsFatal` | ios/Pods/BoringSSL/ssl/d1_both.cc:265-271 | a run from the start that ends so: of eight messages the last arrives first |
| `Delivery.DeliverAllStores` | ios/Pods/BoringSSL/ssl/d1_both.cc:297-406 | delivering genuine fragments within the window in any order never fails and stores every one of them, in epoch 1 those of the current message |
| `Delivery.FlightDelivers` | ios/Pods/BoringSSL/ssl/d1_both.cc:768-813 | a flight that was sent completely, delivered in any order with any repetition, assembles every message of it that lies in the window |
| `Delivery.FlightDeliversAcrossEpochs` | ios/Pods/BoringSSL/ssl/d1_both.cc:297-438 | a flight whose last message comes in epoch 1: the records of the others arrive in any order and with duplicates and are all consumed as serialised, the epoch changes, and the last message's records assemble it too |
| `Flight.PathCollects` | ios/Pods/BoringSSL/ssl/d1_both.cc:630-723 | the pieces cut along a path through the flight concatenate, message by message, to the bytes passed over |
| `Flight.CompleteFlight` | ios/Pods/BoringSSL/ssl/d1_both.cc:768-813 | pieces leading from the start to the end of the flight concatenate to every message body |
| `Sender.FlightSender.AddOutgoing` | ios/Pods/BoringSSL/ssl/d1_both.cc:541-580 | a message is queued with the current write epoch and handshake number, the 16-bit number grows by one and wraps, a completed flight is first discarded, and a full queue is refused |
| `Sender.FlightSender.SealNextMessage` | ios/Pods/BoringSSL/ssl/d1_both.cc:630-723 | seals the next piece that fits, at least one byte of body unless the body is empty, and moves the position over exactly that piece |
| `Sender.FlightSender.SealNextPacket` | ios/Pods/BoringSSL/ssl/d1_both.cc:725-766 | the records of a packet carry consecutive pieces and fit the MTU |
| `Sender.FlightSender.SendPacket` | ios/Pods/BoringSSL/ssl/d1_both.cc:783-801 | a refused write puts the position back to the start of the packet; after a sealing failure it is back there if and only if nothing had been sealed into the packet |
| `Sender.FlightSender.SendFlight` | ios/Pods/BoringSSL/ssl/d1_both.cc:768-813 | what has gone out leads without a gap to a position, in packets no longer than the MTU; the flight stands ahead of it exactly by the pieces lost to a sealing failure, and at it otherwise; success ends at the end of the flight; the loop ends by messages left and bytes left |
| `Sender.FirstMessageLost` | ios/Pods/BoringSSL/ssl/d1_both.cc:783-801 | two messages fit a packet and the second fails to seal: nothing goes out, and the flight stands behind the first |
| `Sender.FlightSender.FlushFlight` | ios/Pods/BoringSSL/ssl/d1_both.cc:815-820 | only genuine fragments of added messages go out |
| `Sender.FlightSender.Retransmit` | ios/Pods/BoringSSL/ssl/d1_both.cc:822-831 | a successful retransmission carries every body of the flight, whole and in order |
| `RecordNumbers.IncrementAddsOne` | ios/Pods/BoringSSL/ssl/tls_record.cc:154-163 | adding one with carry is addition on the big-endian value, wrapping to zero only from the largest |
| `RecordNumbers.SequenceUpdate` | ios/Pods/BoringSSL/ssl/tls_record.cc:154-163 | the carry loop performs that addition in place and reports a wrap exactly when all bytes became zero |
| `RecordNumbers.RecordWriter.Seal` | ios/Pods/BoringSSL/ssl/dtls_record.cc:294-351 | up to the first reported wrap no two successful seals, in the current or previous epoch, use the same epoch and number |
| `RecordNumbers.RecordWriter.SetWriteState` | ios/Pods/BoringSSL/ssl/dtls_method.cc:97-107 | changing the write state keeps that, while fewer than 2^16 epochs have been used |
| `ReplayWindow.Bitmap.ShouldDiscard` | ios/Pods/BoringSSL/ssl/dtls_record.cc:140-153 | a number is discarded exactly if it was recorded before or is at least 64 behind the largest |
| `ReplayWindow.Bitmap.Record` | ios/Pods/BoringSSL/ssl/dtls_record.cc:155-175 | recording adds the number to the ideal set and keeps the window and the mask in step with it |
| `ReplayWindow.ShiftLeftBits` | ios/Pods/BoringSSL/ssl/dtls_record.cc:155-175 | shifting the mask moves each bit up and drops those beyond the word |
| `RecordReader.SequenceValue` | ios/Pods/BoringSSL/ssl/dtls_record.cc:128-136 | the 64-bit value of the eight bytes orders records by epoch and then number |
| `RecordReader.ToU64BE` | ios/Pods/BoringSSL/ssl/dtls_record.cc:128-136 | the accumulating loop computes the big-endian value |
| `RecordReader.Reader.Open` | ios/Pods/BoringSSL/ssl/dtls_record.cc:177-272 | a record is accepted only in the current epoch, if well formed, not replayed and authentic; the window changes only then; no epoch and number is ever accepted twice |
| `RecordReader.Reader.SetReadState` | ios/Pods/BoringSSL/ssl/dtls_method.cc:81-95 | refused exactly while handshake data is unprocessed; otherwise a new epoch begins with an empty window and keeps acceptance at most once |
| `HandshakeClient.StepKeepsInv` | ios/Pods/BoringSSL/ssl/handshake_client.cc:413-1733 | in every state, whatever the peer sends: exactly one of session and new session once parameters are chosen; key share, peer key, own key and transcript buffer present wherever used, but for one case, a certificate to be proved whose key was not kept; and the log follows the script |
| `HandshakeClient.RunKeepsInv` | ios/Pods/BoringSSL/ssl/handshake_client.cc:1735-1813 | the same over whole runs, with any suspensions and with certificates that come and go |
| `HandshakeClient.StableRun` | ios/Pods/BoringSSL/ssl/handshake_client.cc:1735-1813 | while the client certificate stays as configured, no missing object is ever used |
| `LateCertificate.CrashExactly` | ios/Pods/BoringSSL/ssl/handshake_client.cc:1197-1483 | against any peer and with a certificate that may come and go, the client uses a missing object if and only if it went on without a certificate although one was requested, and one is configured when it is to be proved |
| `LateCertificate.LateCertificateCrashes` | ios/Pods/BoringSSL/ssl/t1_lib.cc:3488-3531 | a run from the start in which the key of a certificate configured late is used without having been kept |
| `HandshakeClient.HashedOnce` | ios/Pods/BoringSSL/ssl/handshake.cc:215-222 | every message sent or consumed since the last transcript reset is in the transcript exactly once and in order, although hashing and consuming are separate operations of each state with checks between them, and however often states suspend and are entered again |
| `HandshakeClient.CompletedRun` | ios/Pods/BoringSSL/ssl/handshake_client.cc:519-1733 | a client that completes has exchanged exactly the full or the resumed script; in a full handshake the server key exchange came if ECDHE and not if plain RSA, a status only if expected, a certificate request only with certificate authentication, and the server's certificate was checked |
| `HandshakeClient.CertificateAnswered` | ios/Pods/BoringSSL/ssl/handshake_client.cc:1197-1483 | with the client certificate as configured throughout, a completed full handshake has sent a certificate and its proof exactly as requested and configured |
| `HandshakeClient.StepSinks` | ios/Pods/BoringSSL/ssl/handshake_client.cc:1735-1813 | a step that does not suspend strictly decreases the slots left or the states left within a slot; one that suspends changes nothing |
| `HandshakeClient.ClientHandshake.Handshake` | ios/Pods/BoringSSL/ssl/handshake_client.cc:1735-1813 | the state loop ends, is some run of the machine on what the inbox holds, takes off what it took, a ChangeCipherSpec included, and returns ok only when done |
| `HandshakeServer.StepKeepsInv` | ios/Pods/BoringSSL/ssl/handshake_server.cc:426-1537 | the server's counterpart: objects present wherever used in every state, whatever the peer sends, and the log follows the script |
| `HandshakeServer.RunKeepsInv` | ios/Pods/BoringSSL/ssl/handshake_server.cc:1539-1617 | the same over whole runs, with any suspensions |
| `HandshakeServer.HashedOnce` | ios/Pods/BoringSSL/ssl/handshake.cc:215-222 | the server's transcript holds every message exactly once and in order under suspension, such as that of a private key operation before the message is hashed |
| `HandshakeServer.CompletedRun` | ios/Pods/BoringSSL/ssl/handshake_server.cc:426-1537 | a server that completes has exchanged exactly its script; the key exchange was sent exactly for ECDHE or a PSK hint, and a client certificate was taken only if requested |
| `HandshakeServer.StepSinks` | ios/Pods/BoringSSL/ssl/handshake_server.cc:1539-1617 | a step that does not suspend strictly decreases the slots left or the states left within a slot; one that suspends changes nothing |
| `HandshakeServer.ServerHandshake.Handshake` | ios/Pods/BoringSSL/ssl/handshake_server.cc:1539-1617 | the state loop ends, is some run of the machine on what the inbox holds, and returns ok only when done |
| `HandshakeHeard.ClientHeardIsTaken` | ios/Pods/BoringSSL/ssl/handshake.cc:491-628 | against any peer, in every state reached, what the client's log holds of the server is exactly what its rounds took, item by item and in order, a ChangeCipherSpec included, after a HelloVerifyRequest if there was one |
| `HandshakeHeard.ServerHeardIsTaken` | ios/Pods/BoringSSL/ssl/handshake.cc:491-628 | the same for the server |
| `HandshakeChecks.ClientFinishedChecked` | ios/Pods/BoringSSL/ssl/handshake.cc:380-476 | against any peer, a client that completes has both Finished messages in its log, each its sender's and over exactly the messages before it |
| `HandshakeChecks.ServerFinishedChecked` | ios/Pods/BoringSSL/ssl/handshake.cc:380-476 | the same for a server that completes |
| `HandshakeChecks.ClientCertificateChecked` | ios/Pods/BoringSSL/ssl/handshake_server.cc:949-1340 | against any peer, when a server completes a client key is known exactly if a CertificateVerify was taken, its certificate then passed the check, and a server that asked and insists has one |
| `Premaster.MasksTell` | ios/Pods/BoringSSL/crypto/internal.h:242-355 | for every 64-bit word the zero and equality tests give all ones or all zeroes, and selection by such a mask is a choice |
| `Premaster.PassesConforms` | ios/Pods/BoringSSL/ssl/handshake_server.cc:1156-1171 | the position-wise tests hold exactly of the blocks made from nonzero padding and a secret that begins with the client's version |
| `Premaster.SelectPremaster` | ios/Pods/BoringSSL/ssl/handshake_server.cc:1139-1178 | the mask loops leave in place the decrypted secret if the block conforms and otherwise the random one; only too small a key is an error |
| `Premaster.SecretRecovered` | ios/Pods/BoringSSL/ssl/handshake_server.cc:1149-1178 | what a conforming client padded and sent is what is selected |
| `HandshakeTypes.Script` | ios/Pods/BoringSSL/ssl/handshake_client.cc:413-1733 | the numbered slots spell out the full and the resumed message sequences of section 7.3 of RFC 5246 |
| `HonestClient.HonestStep` | ios/Pods/BoringSSL/ssl/handshake_client.cc:413-1733 | given the script's next message, properly made, and no failure, every client state takes or sends what the script says |
| `HonestServer.HonestStep` | ios/Pods/BoringSSL/ssl/handshake_server.cc:426-1537 | the same for every server state |
| `HandshakeLink.EmitLinked` | ios/Pods/BoringSSL/ssl/handshake.cc:491-628 | sending keeps the party ahead by exactly what is in flight, in script position and in transcript |
| `HandshakeLink.HearLinked` | ios/Pods/BoringSSL/ssl/handshake.cc:491-628 | hearing keeps the party behind by exactly what is in flight |
| `HandshakeLink.HeadExpected` | ios/Pods/BoringSSL/ssl/handshake.cc:380-428 | what is first in flight is the next message of the script, and a Finished covers the hearer's transcript |
| `HandshakeSystem.ClientMoveKeeps` | ios/Pods/BoringSSL/ssl/handshake.cc:491-628 | every move of the client keeps the two-party invariant |
| `HandshakeAgreement.ServerMoveKeeps` | ios/Pods/BoringSSL/ssl/handshake.cc:491-628 | every move of the server keeps the two-party invariant |
| `HandshakeAgreement.ServerFinishedMatches` | ios/Pods/BoringSSL/ssl/handshake.cc:380-428 | a server Finished that arrives is computed over exactly the client's transcript |
| `HandshakeAgreement.ClientFinishedMatches` | ios/Pods/BoringSSL/ssl/handshake.cc:380-428 | a client Finished that arrives is computed over exactly the server's transcript |
| `HandshakeAgreement.SomebodyCanMove` | ios/Pods/BoringSSL/ssl/handshake.cc:491-628 | no deadlock: before completion one party can move, nothing it needs being left unflushed |
| `HandshakeAgreement.BoundedRuns` | ios/Pods/BoringSSL/ssl/handshake.cc:491-628 | only boundedly many unsuspended moves are left in any run |
| `HandshakeAgreement.Agreement` | ios/Pods/BoringSSL/ssl/handshake_client.cc:413-1817 | over every interleaving without failures neither side reports an error, both complete, and then have equal transcripts, parameters and mode |
| `CipherRules.CipherOrderList.constructor` | ios/Pods/BoringSSL/ssl/ssl_cipher.cc:814-850 | the list links the table's ciphers, TLS 1.3 ones left out, in table order, all disabled |
| `CipherRules.CipherOrderList.AppendTail` | ios/Pods/BoringSSL/ssl/ssl_cipher.cc:774-792 | the splice moves one node to the end of the list it represents, links forwards and backwards intact |
| `CipherRules.CipherOrderList.AppendHead` | ios/Pods/BoringSSL/ssl/ssl_cipher.cc:794-812 | the splice moves one node to the front |
| `CipherRules.CipherOrderList.Kill` | ios/Pods/BoringSSL/ssl/ssl_cipher.cc:955-975 | the splice removes one node |
| `CipherRules.CipherOrderList.ApplyRule` | ios/Pods/BoringSSL/ssl/ssl_cipher.cc:861-980 | for any table and selector, the pointer walk equals stable filtering and appending on the list's sequence |
| `CipherRules.CipherOrderList.CloseTail` | ios/Pods/BoringSSL/ssl/ssl_cipher.cc:1044-1051 | closing a group clears the flag of the last node only |
| `CipherOrdering.ApplyKeepsInactiveFirst` | ios/Pods/BoringSSL/ssl/ssl_cipher.cc:861-980 | disabled ciphers stay in front of enabled ones under every rule |
| `CipherOrdering.ApplyIds` | ios/Pods/BoringSSL/ssl/ssl_cipher.cc:861-980 | a rule loses exactly the ciphers it kills |
| `CipherOrdering.MaxStrength` | ios/Pods/BoringSSL/ssl/ssl_cipher.cc:982-996 | the first pass finds the strength of the strongest enabled cipher |
| `CipherOrdering.CountStrengths` | ios/Pods/BoringSSL/ssl/ssl_cipher.cc:997-1009 | the second pass gives every strength in use a positive count |
| `CipherOrdering.StrengthSort` | ios/Pods/BoringSSL/ssl/ssl_cipher.cc:982-1021 | @STRENGTH leaves disabled ciphers in place and sorts the enabled ones into strength buckets |
| `CipherCommands.StrengthMeaning` | ios/Pods/BoringSSL/ssl/ssl_cipher.cc:982-1021 | those buckets are the stable descending sort by strength, without groups |
| `CipherCommands.KilledStaysOut` | ios/Pods/BoringSSL/ssl/ssl_cipher.cc:861-980 | a killed cipher is in no later list, whatever commands follow |
| `CipherCommands.RunIds` | ios/Pods/BoringSSL/ssl/ssl_cipher.cc:861-1021 | a whole run of commands loses exactly what its kills select |
| `CipherCommands.RunKeepsInactiveFirst` | ios/Pods/BoringSSL/ssl/ssl_cipher.cc:861-1021 | disabled ciphers precede enabled ones after every run |
| `CipherParser.ParsedTailClear` | ios/Pods/BoringSSL/ssl/ssl_cipher.cc:1023-1202 | every string that parses, from a list without groups, leaves its last cipher outside any group |
| `CipherGrammar.ParseInvertsText` | ios/Pods/BoringSSL/ssl/ssl_cipher.cc:1023-1202 | the text of any directives parses to exactly their meaning, refusals included |
| `CipherGrammar.RuleSelectsIntersection` | ios/Pods/BoringSSL/include/openssl/ssl.h:1296-1299 | a selector of several rules selects the intersection of what they select if and only if no rule without a version follows one with a version; otherwise it selects nothing |
| `CipherGrammar.IntersectionDependsOnOrder` | ios/Pods/BoringSSL/ssl/ssl_cipher.cc:1141-1157 | TLSv1.2+AES selects nothing although AES+TLSv1.2 selects the ciphers matching both |
| `CipherInterpreter.ReadRule` | ios/Pods/BoringSSL/ssl/ssl_cipher.cc:1107-1173 | the part loop reads exactly the parts of the grammar |
| `CipherInterpreter.RunDirective` | ios/Pods/BoringSSL/ssl/ssl_cipher.cc:1098-1192 | a directive is carried out on the list exactly as its commands say, or refused |
| `CipherInterpreter.ProcessRuleStr` | ios/Pods/BoringSSL/ssl/ssl_cipher.cc:1023-1202 | the interpreter accepts exactly the strings that parse, and its effect on the list is their commands in order; it ends by the characters left |
| `CipherPreference.CreateCipherList` | ios/Pods/BoringSSL/ssl/ssl_cipher.cc:1204-1356 | the published ciphers and flags are the enabled part of the list after the default order, DEFAULT and the rules; an empty result is an error |
| `CipherPreference.LastFlagClear` | ios/Pods/BoringSSL/ssl/ssl_cipher.cc:1313-1322 | every configured list ends outside a group |
| `CipherChoice.Scan` | ios/Pods/BoringSSL/ssl/handshake_server.cc:389-421 | with any flags, the scan finds a cipher exactly if a terminated group has an acceptable one, and then the one soonest in the other list, of the earliest such group |
| `CipherChoice.ChooseCipher` | ios/Pods/BoringSSL/ssl/handshake_server.cc:357-424 | null exactly if no shared cipher is usable; else by server preference the client's favourite of the earliest group, by client preference its first usable cipher |
| `CipherChoice.ConfiguredChoice` | ios/Pods/BoringSSL/ssl/handshake_server.cc:357-424 | the same for a server configured with any rule string that parses |
| `CipherChoice.UnterminatedGroupHides` | ios/Pods/BoringSSL/ssl/handshake_server.cc:389-421 | of a list whose last group has no end, the scan finds nothing in that group, however many acceptable ciphers it has |
| `SslBuffer.Buffer.EnsureCap` | ios/Pods/BoringSSL/ssl/ssl_buffer.cc:47-81 | growing takes the contents over unchanged to the new aligned place; refused exactly above 16 bits; positions stay within 16 bits where the alignment slack does |
| `SslBuffer.Buffer.Append` | ios/Pods/BoringSSL/ssl/ssl_buffer.cc:83-88 | bytes written behind the contents are taken in |
| `SslBuffer.Buffer.Consume` | ios/Pods/BoringSSL/ssl/ssl_buffer.cc:90-97 | consuming drops exactly the first bytes; the 16-bit offset finds the rest as long as it does not wrap, and it wraps exactly beyond 0xffff |
| `SslBuffer.OffsetWraps` | ios/Pods/BoringSSL/ssl/ssl_buffer.cc:47-97 | with a capacity of 0xffff, which is accepted, the offset wraps and other bytes are read than were written |
| `TlsWriter.Connection.AddRecordToFlight` | ios/Pods/BoringSSL/ssl/s3_both.cc:135-165 | the sealed record goes behind everything sealed before; nothing sealed is lost or reordered |
| `TlsWriter.Connection.AddMessage` | ios/Pods/BoringSSL/ssl/s3_both.cc:184-205 | the records of a message are its fragments, at least one, none longer than the maximum, and concatenate to it |
| `TlsWriter.Connection.FlushBuffer` | ios/Pods/BoringSSL/ssl/ssl_buffer.cc:239-252 | the transport is given the front of the buffer; on success the buffer is empty |
| `TlsWriter.Connection.FlushFlight` | ios/Pods/BoringSSL/ssl/s3_both.cc:231-279 | the buffer goes first, then the flight; on success everything sealed is on the wire, in sealing order; refused after a write shutdown or for a flight too long |
| `TlsWriter.Connection.DoWrite` | ios/Pods/BoringSSL/ssl/s3_pkt.cc:221-289 | an unflushed flight goes into the buffer ahead of a new record; a pending record is finished before another is sealed; all bytes stay in sealing order; a record is refused without a trace exactly if it is not the pending one's retry or has no room, and otherwise written if the transport is eager |
| `TlsWriter.Connection.WriteAppData` | ios/Pods/BoringSSL/ssl/s3_pkt.cc:129-200 | in every state a call seals exactly the input from behind what it remembers to have sealed up to what it reports or will remember; while nothing was forgotten, the records of all calls of a write concatenate to the reported prefix, each within the fragment limit; early data stays within the ticket's limit; a retry shorter than the progress is refused and forgets it |
| `TlsWriter.Connection.ShortRetryThenFull` | ios/Pods/BoringSSL/ssl/s3_pkt.cc:129-289 | after a retry that is too short, the full retry is refused if and only if a record waits and either moves are not allowed or the record exceeds its first chunk; otherwise it seals the bytes from behind that record once more |
| `TlsWriter.FirstByteTwice` | ios/Pods/BoringSSL/ssl/s3_pkt.cc:142-157 | two bytes with a ticket for one byte of early data, a retry with nothing, and a full retry: two bytes are reported, and the first has been sealed twice |
| `TlsReader.FramingUnique` | ios/Pods/BoringSSL/ssl/s3_both.cc:399-425 | messages taken off a part of a stream are the first messages sent, for any messages sent |
| `TlsReader.NeededIsLeast` | ios/Pods/BoringSSL/ssl/s3_both.cc:399-425 | the number of bytes asked for is more than there is, and no message is complete with fewer |
| `TlsReader.NextMessageExactly` | ios/Pods/BoringSSL/ssl/s3_both.cc:399-439 | after those taken off, the next message sent is found exactly when all its bytes are there |
| `TlsReader.MessageReader.GetMessage` | ios/Pods/BoringSSL/ssl/s3_both.cc:427-439 | the first message is returned exactly if it is complete |
| `TlsReader.MessageReader.OpenHandshake` | ios/Pods/BoringSSL/ssl/s3_both.cc:441-560 | a record's body is appended exactly if it is a handshake record, no message is waiting and the one begun is within the limit; all other outcomes change nothing; the buffer never exceeds one message and one record |
| `TlsReader.MessageReader.NextMessage` | ios/Pods/BoringSSL/ssl/s3_both.cc:562-583 | exactly the first message is taken off, nothing received is lost, and an empty buffer is freed after the handshake |
| `TlsReader.MessageReader.SetReadState` | ios/Pods/BoringSSL/ssl/tls_method.cc:84-95 | keys change exactly when what was received is whole messages, counting the one being processed |
| `TlsReader.MessageReader.ReadsWhatWasSent` | ios/Pods/BoringSSL/ssl/s3_both.cc:399-583 | in every reachable state, however the messages were cut into records, those taken off are the first ones sent, and the next is there exactly when all its bytes have come |
| `SessionCodec.ParseInvertsPrint` | ios/Pods/BoringSSL/ssl/ssl_asn1.cc:200-757 | parsing a printed session returns it, without certificates where their hash is kept and with empty strings as none; the ticket form loses session ID and ticket; omitted fields recover their defaults, the authentication timeout that of the session |
| `SessionCodec.PrintChain` | ios/Pods/BoringSSL/ssl/ssl_asn1.cc:332-349 | the printer's loop writes the certificates after the leaf, concatenated |
| `SessionCodec.ParseChain` | ios/Pods/BoringSSL/ssl/ssl_asn1.cc:698-713 | the parser's loop takes off one DER element after the other |
| `SessionCodec.SplitInvertsChain` | ios/Pods/BoringSSL/ssl/ssl_asn1.cc:698-713 | a chain of DER elements is split back into exactly those elements |
| `Der.TakeInvertsElement` | ios/Pods/BoringSSL/crypto/bytestring/cbs.c:243-314 | reading a DER element back gives its tag, contents and what follows |
| `Der.TakeInvertsUInt` | ios/Pods/BoringSSL/crypto/bytestring/cbs.c:391-426 | reading a printed 64-bit unsigned INTEGER back gives the number |
| `Der.ParseInvertsFields` | ios/Pods/BoringSSL/crypto/bytestring/cbs.c:444-459 | optional fields printed in tag order are read back exactly, present and absent |
| `AeadContext.CreateWellFormed` | ios/Pods/BoringSSL/ssl/ssl_aead_ctx.cc:57-149 | every cipher and version configuration meets what Open and SealScatter assert |
| `AeadContext.AssembleNonce` | ios/Pods/BoringSSL/ssl/ssl_aead_ctx.cc:250-282 | the in-place assembly with its XOR loop builds the nonce |
| `AeadContext.NonceInjective` | ios/Pods/BoringSSL/ssl/ssl_aead_ctx.cc:250-282 | different sequence numbers give different nonces, prepended or mixed in |
| `AeadContext.SealLength` | ios/Pods/BoringSSL/ssl/ssl_aead_ctx.cc:379-405 | the output is exactly prefix, input and suffix long |
| `AeadContext.OpenInvertsSeal` | ios/Pods/BoringSSL/ssl/ssl_aead_ctx.cc:203-405 | for any cipher whose opening undoes its sealing, Open on Seal's output with the same type, version and sequence number returns the plaintext wherever the receiver recovers the authenticated length |
| `AeadContext.ConfiguredSidesAgree` | ios/Pods/BoringSSL/ssl/ssl_aead_ctx.cc:57-405 | whatever cipher family and version both sides are configured with, a sealed record opens to its plaintext; tags of one length are needed only where the length is authenticated |
| `AeadContext.OpensExactly` | ios/Pods/BoringSSL/ssl/ssl_aead_ctx.cc:203-282 | for a cipher that tells the receiver's additional data from the sender's where they differ, the plaintext comes back if and only if the length is recovered |
| `AeadContext.VaryingTagFails` | ios/Pods/BoringSSL/ssl/ssl_aead_ctx.cc:213-224 | with tags of varying length a record of one byte does not open |
| `AeadContext.SampleAgrees` | ios/Pods/BoringSSL/ssl/ssl_aead_ctx.cc:57-405 | a cipher that meets what the above require of ciphers, at work in a TLS 1.2 AES-GCM configuration |
| `RefCount.LockedCounter.Increment` | ios/Pods/BoringSSL/crypto/refcount_lock.c:29-35 | increments below the maximum, saturates there |
| `RefCount.LockedCounter.DecrementAndTestZero` | ios/Pods/BoringSSL/crypto/refcount_lock.c:37-51 | decrements unless saturated, reports reaching zero, aborts at zero |
| `RefCount.Linearises` | ios/Pods/BoringSSL/crypto/refcount_c11.c:37-65 | after any interleaving with any spurious failures, the completed operations in order of effect are a run of the locked counter with the same results and value, always within 32 bits |
| `RefCount.AbortsAtZero` | ios/Pods/BoringSSL/crypto/refcount_c11.c:49-65 | an abort happens only where the locked counter aborts |
| `RefCount.SaturatedForever` | ios/Pods/BoringSSL/crypto/refcount_c11.c:37-65 | a saturated counter never changes again |
| `RefCount.ExactlyOneZero` | ios/Pods/BoringSSL/crypto/refcount_c11.c:49-65 | in a balanced run that never saturates and takes references only from holders, exactly one decrement reports zero |

## Left out

- The TLS 1.3 handshake, early data in the state machines, V2ClientHello, renegotiation and the hand-off of connections.
- The contents of extensions, certificates, key exchanges and signatures: each is an outcome of a step. A Finished message is modelled by what its MAC covers.
- A ChangeCipherSpec that comes before it is waited for is an error of the modelled machines; DTLS keeps it for later, so that a run of the model is given the items in the order in which they are processed.
- The handshake machines' fields are one value that each state function replaces, instead of fields updated in place; aliasing between the objects is not captured.
- An SSL 3.0 client's warning alert in place of an empty certificate is not put on the modelled channel.
- The cipher list's nodes are indices into one table instead of addresses, and bit masks are sets of bit positions.
- The replay window's word operations are given by arithmetic on its bits instead of machine instructions.
- Sender: flights are modelled on fragments; the bytes of a fragment are those of `HandshakeHeader.Encoded`, and sealed records count by their length.
- Delivery.DeliverySafety: stated for fewer than 2^16 handshake messages, because the source's sequence numbers are 16 bits wide and wrap silently.
- RecordNumbers.RecordWriter.SetWriteState: uniqueness is stated while fewer than 2^16 epochs have been used, because the epoch wraps silently.
- TlsWriter.Connection.WriteAppData: requires that a pending flight and any record either fit the 16-bit buffer with its alignment slack or not at all, because the source checks only the capacity and the offset may wrap in between.
- TlsWriter.Connection.DoWrite: requires the same of the record at hand.
- Splitting of records against the CBC attack, the wire format of TLS records, and reading application data.
- Der.TakeInvertsElement: high tag numbers are not modelled, since sessions use none.
- SessionCodec: the printer and parser are functions on byte sequences, except for their loops over the chain; the X.509 objects cached with a session are not modelled.
- AeadContext: the scatter form's extra input and the checks for overlapping buffers.
- The constant-time comparison `constant_time_lt_w`, which the modelled code does not use, and 32-bit words; the timers of DTLS, SRTP, custom extensions and platform code.
- Allocation failure, alerts, the error queue and informational callbacks.
