# Verified model of rocklet

rocklet stands in for the cloud of a robot vacuum: it talks the miIO protocol to the robot
and to the vendor's cloud, reads the robot's map files and logs, and shows the robot to
Kubernetes as a node. These Dafny modules model its five components with the most state and
prove what they keep, over all inputs, all runs and all interleavings.

- **Cloud packets** (`Bytes`, `Cbc`, `Padding`, `CloudPacket`, `PacketOctets`, `CloudMessages`). Header layout,
  16-bit length, checksum, padding (section 6.3 of RFC 5652) and cipher block chaining
  (section 6.2 of NIST SP 800-38A) are defined in full; the AES block functions are any keyed
  permutation and MD5 is any function. `CloudMessages` has the message as a class whose body is
  a slice (array, offset, length, capacity), padded and encrypted in place.
- **Cloud session** (`KeepAlive`, `KeepAliveTurns`, `KeepAliveLoop`, `CloudReceiver`). The keep-alive loop is a
  class whose fields are at all times a fold of the log of what it has seen and done; the
  properties are about every log of every run. The receiver and the calls that wait for a
  response are a machine of atomic steps.
- **Requests and responses** (`Keys`, `Correlation`, `CorrelationRuns`, `Retrieval`). Any number of
  `retrieve` calls, dispatchers and the cloud session share one map of channels. The class
  `Rockrobo` has one method for each stretch of code between two points where another goroutine
  can run, keeps the invariant of the machine, and follows it through any run (`RunSteps`).
- **Maps and logs** (`MapFile`, `MapConvert`, `MapOctets`, `Raster`, `Cleanings`,
  `Crop`, `SlamLog`). The map
  file parser and a printer, the raster, the join of maps with cleaning records, the in-place
  scan and crop of a map image, and the path that the log watcher keeps.
- **Kubernetes** (`StatusCache`, `PodQueue`, `PodController`, `PodWorker`). The cached status object against a
  server whose calls may fail with or without taking effect; the bounded retries; and the pod
  worker with its runners and its timer, in any order of their steps, as a machine and as a class
  that follows it.

In each component a class or a loop does what the program does to its fields, and its
postconditions tie the new state to a function on values; lemmas prove what is promised about
that function over whole runs. What such a function computes is pinned a second time, without
naming it: `PacketOctets` and `MapOctets` say in the octets of a packet or a file what is written
and read, `KeepAliveTurns` says from the events before a turn what the turn does, and the lemmas
with names in `Exactly` do the same for single steps.

Some of what one would expect of the program does not hold. Each such case has an exact
condition or a concrete run:

- Write and then Read loses bodies whose padded length is a multiple of 65536, and NULs at the
  ends of a body (`RoundTripExactly`, `ShortestHeaderOnlyLookalike`).
- Encoding a message that was just decoded leaves ciphertext in its body, because the removed
  padding is spare room of the slice (`Reencode`).
- The receiver only logs a rejected packet: it can count as a hello reply (`RejectedHelloReply`) or
  answer a waiting call (`RejectedAnswerExactly`), and packets that Write makes of bodies over
  4063 octets are never received (`WrittenIsReceivedExactly`).
- The receiver stops for ever exactly when a response comes for a call that has timed out, or a
  call times out while its response is being handed over (`SticksExactly`, `StuckExactly`).
- A call can be left waiting for ever, as when two calls for the internal info overlap
  (`OverlapLosesCall`). It happens exactly when the only key that leads to a call with nothing
  pending is registered or unregistered by another call, or has been by the time that the call
  begins to wait (`LosesExactly`, `LostExactly`); never while no two calls hold the same key
  (`ExclusiveNeverLost`).
- The published crop of a map leaves out the last used column and row, and a map whose used
  pixels lie in one column or one row is an error (`PublishedExactly`, `NewMap`).
- A command can succeed twice for one pod, after a timeout or because the write of the pod's
  status failed (`CommandCanRunTwice`, `CommandCanRunTwiceInTime`). It is possible exactly when two
  attempts of the key have that command and no failure up to it (`SucceedsTwiceExactly`), which can
  be told before a runner is started (`StartMakesItPossible`), and never with one start
  (`StartedOnceSucceedsOnce`).
- An endpoint that replies is kept even if no message to it can be sent (`RepliesKeepEndpoint`).

`dafny verify dfyconfig.toml` checks the project.

## Model

| member | source | states |
|---|---|---|
| Bytes.OctetOrder | pkg/rockrobo/cloud.go:134-135 | the big-endian and little-endian layouts of 16-bit and 32-bit numbers, octet by octet |
| Bytes.FromBEOfBE | pkg/rockrobo/cloud.go:55 | a number that fits is read back from its big-endian layout, for any width |
| Bytes.FromLEOfLE | pkg/navmap/robotdb.go:243 | a number that fits is read back from its little-endian layout, for any width |
| Cbc.DecryptOfEncrypt | pkg/rockrobo/cloud.go:119-122 | decrypting in CBC mode inverts encrypting, for every keyed permutation, key, IV and whole number of blocks |
| Cbc.EncryptOfDecrypt | pkg/rockrobo/cloud.go:90-91 | encrypting in CBC mode inverts decrypting |
| Padding.UnpadOfPad | pkg/rockrobo/cloud.go:214-229 | padding gives what section 6.3 of RFC 5652 allows, and unpadding takes exactly that away |
| Padding.PadOfUnpad | pkg/rockrobo/cloud.go:220-229 | where the padding is canonical, padding the unpadded octets restores them |
| Padding.TrimSpec | pkg/rockrobo/cloud.go:100-101 | trimming takes NULs from both ends, all of them and nothing else |
| Padding.TrimFixed | pkg/rockrobo/cloud.go:100-101 | trimming changes nothing if and only if there is no NUL at either end |
| CloudPacket.HeaderLayout | pkg/rockrobo/cloud.go:23-30 | the place and octet order of each field in the 32-octet header |
| CloudPacket.DecodeOfEncodeHeader | pkg/rockrobo/cloud.go:54-58 | every header is read back from its 32 octets |
| CloudPacket.EncodeOfDecodeHeader | pkg/rockrobo/cloud.go:134-137 | every 32 octets are written back from the header they decode to |
| CloudPacket.ChecksumIgnoresChecksum | pkg/rockrobo/cloud.go:187-212 | the checksum covers the first half of the header only, so its own field does not enter it |
| CloudPacket.ReadOfWrite | pkg/rockrobo/cloud.go:54-150 | reading a written packet never fails and returns every header field, the length modulo 65536, and the body trimmed exactly when the padded length is not a multiple of 65536; otherwise the body is the ciphertext |
| CloudPacket.ReadOfWriteEmpty | pkg/rockrobo/cloud.go:72-75 | a message without a body comes back as it is, with length 32 |
| CloudPacket.RoundTripExactly | pkg/rockrobo/cloud.go:54-150 | the exact bodies that survive Write and then Read: no NUL at either end and no wrap-around of the length |
| CloudPacket.LengthFieldExact | pkg/rockrobo/cloud.go:125-126 | the length field is the length of the written packet if and only if the body has at most 65487 octets |
| CloudPacket.ShortestHeaderOnlyLookalike | pkg/rockrobo/cloud.go:72-75 | the shortest body that is taken for a packet without one has 65520 octets |
| CloudPacket.WriteOfRead | pkg/rockrobo/cloud.go:54-150 | for a packet that was read and decrypted, writing the message reproduces the packet whatever its length and checksum fields hold by then, if and only if the padding was canonical and nothing was trimmed away |
| PacketOctets.XorBit | pkg/rockrobo/cloud.go:119-122 | exclusive or of octets, bit by bit |
| PacketOctets.EncryptedBlock | pkg/rockrobo/cloud.go:119-122 | each block is encrypted after exclusive or with the cipher block before it, the first one with the IV |
| PacketOctets.DecryptedBlock | pkg/rockrobo/cloud.go:90-91 | each block is decrypted and then combined with the cipher block before it |
| PacketOctets.WrittenBlock | pkg/rockrobo/cloud.go:110-165 | every block of a written packet, with the digest of the given key as key and the digest of that and the given key as IV |
| PacketOctets.WrittenChecksum | pkg/rockrobo/cloud.go:128-133 | octets 16 to 31 of a written packet are the digest of its first 16 octets, the key and all behind its header |
| PacketOctets.WrittenHeader | pkg/rockrobo/cloud.go:107-147 | the other octets of the header: those of the message, with the length of the packet |
| PacketOctets.PlaintextBlock | pkg/rockrobo/cloud.go:83-91 | every block of the plaintext that Read obtains |
| PacketOctets.ReadErrorExactly | pkg/rockrobo/cloud.go:54-103 | how reading any octets ends, from the octets alone and in the order of the checks |
| PacketOctets.ReadBodyExactly | pkg/rockrobo/cloud.go:54-103 | header and body after reading without error |
| PacketOctets.HelloPacket | pkg/rockrobo/cloud.go:21-52 | the octets of a hello packet |
| CloudMessages.PadSlice | pkg/rockrobo/cloud.go:214-218 | appending the padding goes to the same array when there is room and to a new one otherwise; all octets outside of the slice stay |
| CloudMessages.Seal | pkg/rockrobo/cloud.go:111-123 | padding and encrypting a slice: the result, and the exact effect on the array of the caller |
| CloudMessages.TrimBounds | pkg/rockrobo/cloud.go:100-101 | the two loops find the extent of the trimmed octets |
| CloudMessages.Open | pkg/rockrobo/cloud.go:83-101 | decrypting in place, unpadding and trimming; after a lossless decoding the spare room suffices for the padding |
| CloudMessages.CloudMessage.Write | pkg/rockrobo/cloud.go:106-150 | the packet written is that of the old message; header and extent of the body stay; the octets of the body stay when there is less spare room than padding and are replaced by ciphertext otherwise |
| CloudMessages.CloudMessage.Read | pkg/rockrobo/cloud.go:54-104 | header, body and error after reading any octets into a message that held anything, on every error path |
| CloudMessages.CloudMessage.Check | pkg/rockrobo/cloud.go:65-84 | the order of size check, header-only exit, checksum check and whole blocks |
| CloudMessages.Reencode | pkg/rockrobo/cloud_test.go:14-63 | Read, clear length and checksum, Write gives the packet back if and only if decoding was lossless, and then leaves ciphertext in the message |
| KeepAlive.RunLegal | pkg/rockrobo/cloud.go:359-522 | in a run of any length every event is in order: attempts only below six failures, registrations only without a channel, reports, forwarding and removals only in the states meant for them |
| KeepAlive.FailuresCounted | pkg/rockrobo/cloud.go:405-490 | the counter equals the number of failure events after the last start of a session or completed handshake |
| KeepAlive.AtMostSixFailures | pkg/rockrobo/cloud.go:414-421 | at every moment of every run that number is at most six |
| KeepAlive.RemovalAfterSixFailures | pkg/rockrobo/cloud.go:415-421 | an endpoint is removed only with exactly six failures, and it is the one of the failed session |
| KeepAlive.SixFailuresRemove | pkg/rockrobo/cloud.go:415-421 | within a session a turn removes the endpoint if and only if there are six failures |
| KeepAlive.ForwardedAfterHello | pkg/rockrobo/cloud.go:439-515 | every forwarded message follows a hello reply from the session's own address in the same attempt and a completed handshake |
| KeepAlive.CloudReportedAfterOtc | pkg/rockrobo/cloud.go:468-486 | that the cloud is connected is reported only right after a successful report upstream and after a matching hello reply in the same attempt |
| KeepAlive.EndpointStaysExactly | pkg/rockrobo/cloud.go:408-421 | from within a session, a run of any length keeps the endpoint and the session if and only if none of its turns begins with six failures since the last completed handshake |
| KeepAlive.RepliesKeepEndpoint | pkg/rockrobo/cloud.go:439-513 | an endpoint is kept for ever as long as replies come in time, from another address or before a report that does not fail, whatever happens to the messages |
| KeepAliveTurns.EndpointsAreKnown | pkg/rockrobo/cloud.go:372-420 | the endpoints are the hosts looked up or reported and not removed since |
| KeepAliveTurns.ScheduleIsLastReport | pkg/rockrobo/cloud.go:406-478 | the schedule is what the last successful report of the session has set |
| KeepAliveTurns.ReportsExactly | pkg/rockrobo/cloud.go:439-478 | a turn reports upstream if and only if its hello is answered by the session's address and no report of the session has succeeded yet or the time of the next is over |
| KeepAliveTurns.TurnCounts | pkg/rockrobo/cloud.go:408-490 | how often each kind of report, registration and handshake happens in a turn of a session, in every run |
| KeepAliveTurns.TurnLeaves | pkg/rockrobo/cloud.go:408-490 | schedule, queue, session and known hosts after a turn of a session: the schedule is the time and interval of the report, and its hosts are known |
| KeepAliveTurns.TurnSends | pkg/rockrobo/cloud.go:424-518 | the message of a turn is sent exactly after a completed handshake, and what the turn does to the count of failures |
| KeepAliveTurns.TurnConnects | pkg/rockrobo/cloud.go:364-406 | what a turn between sessions leads to: lookup, known hosts, and a session exactly with a known host whose address is found |
| KeepAliveLoop.Loop.Choose | pkg/rockrobo/cloud.go:384-406 | picking an endpoint: no endpoint, an address that fails, or a new session with counter and schedule cleared |
| KeepAliveLoop.Loop.Connect | pkg/rockrobo/cloud.go:366-406 | the start of a connection: the queue entry goes, endpoints are looked up when there are none |
| KeepAliveLoop.Loop.AwaitMessage | pkg/rockrobo/cloud.go:490-518 | the counter is cleared, and one message is forwarded, dropped or not there |
| KeepAliveLoop.Loop.Report | pkg/rockrobo/cloud.go:468-490 | the report upstream when it is due, its failure, the next schedule and the new endpoints |
| KeepAliveLoop.Loop.Matched | pkg/rockrobo/cloud.go:454-490 | after a matching reply the queue is registered once a session, and the entry and the channel agree |
| KeepAliveLoop.Loop.Pass | pkg/rockrobo/cloud.go:409-519 | one pass does what its turn says, on every branch, and keeps fields and log in agreement |
| KeepAliveLoop.RunLoop | pkg/rockrobo/cloud.go:362-521 | over any number of passes: the log is that of the run, the counter is at most six, the queue entry is there exactly when the session has a channel |
| CloudReceiver.HelloReplyExactly | pkg/rockrobo/cloud.go:311-333 | a packet counts as a hello reply if and only if it has a header whose length field is 32 |
| CloudReceiver.ShortPacket | pkg/rockrobo/cloud.go:321-328 | a packet shorter than a header leaves an empty message |
| CloudReceiver.RejectedHelloReply | pkg/rockrobo/cloud.go:311-333 | a packet that reading rejects counts as one if and only if its length field is 32 and it is longer |
| CloudReceiver.LongHelloReply | pkg/rockrobo/cloud.go:325-333 | such a packet |
| CloudReceiver.RejectedAnswerExactly | pkg/rockrobo/cloud.go:325-349 | exactly which rejected packets are handed to a waiting call, by length field, size, checksum, padding and the identifier in what is left of the body |
| CloudReceiver.UncheckedAnswer | pkg/rockrobo/cloud.go:325-349 | such a packet, for any registered identifier |
| CloudReceiver.WrittenIsReceivedExactly | pkg/rockrobo/cloud.go:311-325 | a packet made by Write is received if and only if its body has at most 4063 octets, because of the buffer |
| CloudReceiver.Receiver.Handle | pkg/rockrobo/cloud.go:310-353 | what becomes of a packet, cut off at the size of the buffer: the hello reply or the response is being handed over, and the session of an answered call is removed |
| CloudReceiver.Receiver.RegisterID | pkg/rockrobo/cloud.go:524-528 | registering a call for an identifier |
| CloudReceiver.Receiver.GiveUp | pkg/rockrobo/cloud.go:278-304 | a call that times out, or whose packet cannot be sent, leaves its session behind |
| CloudReceiver.Receiver.TakeResponse | pkg/rockrobo/cloud.go:285-286 | a call that waits takes what is offered |
| CloudReceiver.RunEvents | pkg/rockrobo/cloud.go:307-355 | over any packets and steps the fields are those of the machine; at the end the receiver is stuck if and only if some step made it so |
| CloudReceiver.PacketExactly | pkg/rockrobo/cloud.go:335-352 | a packet with a registered identifier is offered to that call and ends its session only; another one changes nothing |
| CloudReceiver.CallsExactly | pkg/rockrobo/cloud.go:285-304 | what registering, timing out and taking do to calls, sessions and the offer |
| CloudReceiver.ResponseCarriesId | pkg/rockrobo/cloud.go:341-350 | in every interleaving the response that a call gets carries its identifier |
| CloudReceiver.OutcomeIsFinal | pkg/rockrobo/cloud.go:285-304 | a call gets one response at most: what it got, or that it timed out, never changes |
| CloudReceiver.ReceivesUnlessStuck | pkg/rockrobo/cloud.go:330-349 | in every reachable state the receiver can take another packet, now or after handing over what it offers, if and only if it does not offer a response to a call that has timed out |
| CloudReceiver.StuckForever | pkg/rockrobo/cloud.go:348-349 | a receiver that does never takes another packet |
| CloudReceiver.SticksExactly | pkg/rockrobo/cloud.go:300-349 | a step gets the receiver stuck if and only if it is a packet with the identifier of a registered call that has timed out, or the timeout of the call that a response is being offered to |
| CloudReceiver.StuckExactly | pkg/rockrobo/cloud.go:300-349 | at the end of a run the receiver is stuck if and only if some step of the run was one of these |
| CloudReceiver.LateResponseSticks | pkg/rockrobo/cloud.go:300-349 | a timeout and then the response get the receiver stuck |
| CloudReceiver.TimeoutUnderOfferSticks | pkg/rockrobo/cloud.go:300-349 | so do the response and then a timeout before it is taken |
| CloudReceiver.StuckRun | pkg/rockrobo/cloud.go:300-349 | a run from the start that ends like that, for any response |
| Keys.IdKeyInjective | pkg/rockrobo/local_connection.go:199-202 | the keys of two identifiers are equal if and only if the identifiers are |
| Keys.IdKeyText | pkg/rockrobo/rockrobo.go:237 | the text of a key: "id=", a sign exactly when negative, and the decimal digits |
| Keys.KeysApart | pkg/rockrobo/local_connection.go:15-22 | identifier keys, response names and the cloud key never meet |
| Correlation.InvStep | pkg/rockrobo/rockrobo.go:231-277 | every step of every goroutine keeps the invariant: registrations owned, deliveries explained, messages conserved, results received |
| Retrieval.Rockrobo.Start | pkg/rockrobo/rockrobo.go:231-232 | a call starts with a channel of its own |
| Retrieval.Rockrobo.RegisterId | pkg/rockrobo/rockrobo.go:236-247 | registering under the identifier key, when there is an identifier |
| Retrieval.Rockrobo.RegisterName | pkg/rockrobo/rockrobo.go:249-265 | registering under the response name, and the error without any key |
| Retrieval.Rockrobo.UnregisterName | pkg/rockrobo/rockrobo.go:254-258 | the deferred removal of the response name, whoever holds it by then |
| Retrieval.Rockrobo.UnregisterId | pkg/rockrobo/rockrobo.go:241-245 | the deferred removal of the identifier key |
| Retrieval.Rockrobo.Lookup | pkg/rockrobo/local_connection.go:193-208 | the channel under the identifier key, or else the one under the name |
| Retrieval.Rockrobo.Decode | pkg/rockrobo/local_connection.go:181-218 | a hello is passed over; another message is dropped or handed to a delivery of its own |
| Retrieval.Rockrobo.Deliver | pkg/rockrobo/rockrobo.go:270-276 | a delivery and the call that waits on its channel meet |
| Retrieval.Rockrobo.Send | pkg/rockrobo/rockrobo.go:267-268 | a call sends its request and begins to wait |
| Retrieval.Rockrobo.CloudForget | pkg/rockrobo/cloud.go:366-370 | a connection of the cloud session begins without entry and channel |
| Retrieval.Rockrobo.CloudListen | pkg/rockrobo/cloud.go:454-460 | the cloud session registers a channel of its own |
| Retrieval.Rockrobo.CloudTake | pkg/rockrobo/cloud.go:492-493 | the cloud session receives a message from its channel |
| Retrieval.RunSteps | pkg/rockrobo/rockrobo.go:231-277 | over any run the fields are those of the machine and the whole invariant holds |
| CorrelationRuns.NoRegistrationOutlivesItsOwner | pkg/rockrobo/rockrobo.go:231-260 | in every reachable state each registered key leads to a call that is between registering and unregistering that key, or is the cloud entry |
| CorrelationRuns.CloudEntryTracksSession | pkg/rockrobo/cloud.go:366-460 | the cloud entry is there if and only if the session has a channel, whatever the calls do |
| CorrelationRuns.KeyLeadsExactly | pkg/rockrobo/rockrobo.go:236-260 | in every reachable state, where each key leads after any step |
| CorrelationRuns.OwnChannelExactlyWhenExclusive | pkg/rockrobo/rockrobo.go:236-260 | throughout a run every call finds its own channel under its keys if and only if no two calls ever hold the same key |
| CorrelationRuns.ResponseMatchesRequest | pkg/rockrobo/rockrobo.go:231-277 | the message that a call returns was decoded and carries its identifier, or nobody was registered for the message's identifier and its name is a key of the call |
| CorrelationRuns.ProxyResponseMatchesId | pkg/rockrobo/rockrobo.go:294-299 | for a call without a response name the second case needs a method name that is literally the identifier key |
| CorrelationRuns.DispatchMoment | pkg/rockrobo/local_connection.go:193-218 | every delivery goes back to one moment of the run at which its message was decoded and its channel was the one looked up |
| CorrelationRuns.IdentifierReachesOwner | pkg/rockrobo/local_connection.go:198-202 | while keys are exclusive, a message with the identifier of a registered call goes to that call |
| CorrelationRuns.DispatchedExactly | pkg/rockrobo/local_connection.go:193-218 | in every reachable state a message is dropped if and only if neither its identifier nor its name is registered, and else is on its way to the channel of its identifier, or of its name when the identifier has none; all else stays |
| CorrelationRuns.HelloPassedOver | pkg/rockrobo/local_connection.go:181-189 | a hello changes nothing |
| CorrelationRuns.CloudReachedExactly | pkg/rockrobo/local_connection.go:193-207 | a message reaches the cloud session if and only if it has the cloud's name, the session has a channel and its identifier is not registered |
| CorrelationRuns.MessagesConserved | pkg/rockrobo/local_connection.go:168-219 | at every step the messages decoded are those dropped plus those pending plus those received, each in one place and unaltered |
| CorrelationRuns.OneMessagePerCall | pkg/rockrobo/rockrobo.go:270-276 | a call receives one message at most |
| CorrelationRuns.SecondResponseStuck | pkg/rockrobo/local_connection.go:215-218 | a second response for a call stays in its delivery for ever |
| CorrelationRuns.LostForever | pkg/rockrobo/rockrobo.go:270-272 | a call that no key leads to and nothing is on its way to never returns |
| CorrelationRuns.LosesExactly | pkg/rockrobo/rockrobo.go:236-272 | in every reachable state an action loses a call if and only if nothing is pending for the call and the action registers or unregisters the only key that leads to it, or is the call's own step into waiting with an identifier key that is taken |
| CorrelationRuns.LostExactly | pkg/rockrobo/rockrobo.go:236-272 | in every run a call is lost at the end if and only if some action of the run was such a one |
| CorrelationRuns.ExclusiveNeverLost | pkg/rockrobo/rockrobo.go:236-272 | no call is lost in a run where no two calls hold the same key |
| CorrelationRuns.OverlapLosesCall | pkg/rockrobo/rockrobo.go:183-202 | a run in which two calls for the internal info overlap and the first one is lost |
| Raster.CellBijection | pkg/navmap/robotdb.go:209-215 | the file octets and the image cells are in one-to-one correspondence |
| Raster.UnpaintedOfPainted | pkg/navmap/robotdb.go:185-215 | the payload, filled up with NULs, can be recovered from the image |
| Raster.SameImage | pkg/navmap/robotdb.go:185-215 | two payloads give the same image if and only if they agree after filling up |
| Raster.ShortPayload | pkg/navmap/robotdb.go:185-186 | a short payload gives the image of the payload filled up with NULs |
| MapOctets.PixelColor | pkg/navmap/robotdb.go:32-52 | the colour of every pixel by the octet for it |
| Raster.Paint | pkg/navmap/robotdb.go:188-215 | the loop over the octets paints every cell with the colour of its octet and leaves the others unpainted |
| Raster.FlipAgrees | pkg/navmap/robotdb.go:209-316 | over the reals, a point is strictly inside a map cell if and only if its converted position is strictly inside the image cell painted for that map cell |
| MapFile.ParsesExactlyTheGrammar | pkg/navmap/robotdb.go:251-289 | the blocks of a file are read without error as a given list if and only if the list is well formed and the file is its printed form |
| MapFile.BlockConsumes | pkg/navmap/robotdb.go:257-261 | every block that is read takes at least eight octets, so reading ends |
| MapFile.PrintOfParsePath | pkg/navmap/robotdb.go:147-171 | a path that is read has exactly the announced number of points, and is the printed form of what was consumed |
| MapFile.ParseBlockOfPrint | pkg/navmap/robotdb.go:257-288 | a printed block is read back, whatever follows it |
| MapOctets.BlockOctets | pkg/navmap/robotdb.go:252-288 | type and size of a block in its octets, which type is what, and how far an unknown block is passed over |
| MapOctets.ChargerOctets | pkg/navmap/robotdb.go:264-271 | the two numbers of a charger |
| MapOctets.PictureOctets | pkg/navmap/robotdb.go:174-186 | the fields of a picture, the number of its pixels, and its errors |
| MapOctets.PathOctets | pkg/navmap/robotdb.go:147-170 | a path is read if and only if there are octets for one point less than it announces, on machines with 32-bit and with 64-bit integers, and it has that many points |
| MapOctets.PathPoint | pkg/navmap/robotdb.go:137-168 | the coordinates of each point of a path |
| MapOctets.FileOctets | pkg/navmap/robotdb.go:232-293 | the 20 octets of the file header, and how reading a file ends |
| MapConvert.ConvertOfPrint | pkg/navmap/robotdb.go:232-308 | a printed file is consumed to its end and yields the last map, and the last path and charger placed in it |
| MapConvert.AcceptedIsPrinted | pkg/navmap/robotdb.go:232-308 | a conversion without error has read the printed form of well-formed blocks and has a map |
| MapConvert.OrderDoesNotMatter | pkg/navmap/robotdb.go:264-305 | reordering that keeps the order within each of the three kinds, and unknown blocks anywhere, change nothing |
| MapOctets.ConvertedMap | pkg/navmap/robotdb.go:272-277 | the map of a file is its last picture, field by field |
| MapOctets.ConvertedPath | pkg/navmap/robotdb.go:295-315 | the path is the last one, point by point in the coordinates of that map |
| MapOctets.ConvertedCharger | pkg/navmap/robotdb.go:303-315 | the charger is the last one in the coordinates of that map |
| MapOctets.ConvertedKeeps | pkg/navmap/robotdb.go:291-307 | what is not in the file stays as it was |
| MapConvert.ReadPath | pkg/navmap/robotdb.go:147-171 | the loop reads the announced points or fails as specified |
| MapConvert.DrawMap | pkg/navmap/robotdb.go:173-230 | the picture that is painted, what is consumed, and the error for an empty image |
| MapConvert.ReadBlock | pkg/navmap/robotdb.go:252-288 | one block goes into the map, the pending path or the pending charger, or is skipped |
| MapConvert.ReadBlocks | pkg/navmap/robotdb.go:251-289 | the block loop ends on every input and leaves the last of each kind |
| MapConvert.ConvertMap | pkg/navmap/robotdb.go:232-308 | the whole new status on every path; an error leaves path and charger as they were; success consumes everything |
| Cleanings.ListCleanings | pkg/navmap/robotdb.go:54-134 | each record ends with the maps of its beginning, of records with the same beginning only the last; it fails if and only if some row's packed data have a bad header, or a row with a record breaks off or does not convert |
| Cleanings.AllConvertExactly | pkg/navmap/robotdb.go:108-130 | the listing goes through if and only if every row does |
| Cleanings.FilledExactly | pkg/navmap/robotdb.go:70-101 | a record stays blank if and only if a later one has the same beginning |
| Cleanings.OtherRowsDoNotMatter | pkg/navmap/robotdb.go:120-129 | a record's status depends on the rows with its own beginning only |
| Cleanings.OneRow | pkg/navmap/robotdb.go:120-129 | with one row for a record, its status is that of its map file |
| Crop.Scan | pkg/navmap/navmap.go:81-127 | the scan recolours the image in place, pixel by pixel, and ends with the attained extremes of the used pixels |
| Crop.Visit | pkg/navmap/navmap.go:106-125 | one pixel is recoloured and counted, and no other changes |
| Crop.OneBox | pkg/navmap/navmap.go:81-127 | the used pixels determine the box |
| Crop.BoxExactly | pkg/navmap/navmap.go:81-127 | the box holds every pixel that is not opaque grey and has such a pixel on each side |
| Crop.NoBox | pkg/navmap/navmap.go:82-86 | without such a pixel the box is inside out |
| Crop.RecoloredExactly | pkg/navmap/navmap.go:106-125 | the colours before and after |
| Crop.NonEmptyExactly | pkg/navmap/navmap.go:129-137 | the crop is not empty if and only if the used pixels lie neither in one column nor in one row |
| Crop.PublishedExactly | pkg/navmap/navmap.go:129-132 | a used pixel is in the crop if and only if it is neither in the last used column nor in the last used row |
| Crop.SomeUsedPixelIsLost | pkg/navmap/navmap.go:129-132 | when any pixel is used, some used pixel is not published |
| Crop.CropPart | pkg/navmap/navmap.go:129-145 | the published data are the recoloured pixels of the box |
| Crop.NewMap | pkg/navmap/navmap.go:81-147 | the whole result, and the exact condition for the encoding error |
| SlamLog.SplitExactly | pkg/navmap/navmap.go:487 | the parts of a line are the one sequence of strings without spaces that makes it up when joined by single spaces |
| SlamLog.TrimmedNewlines | pkg/navmap/navmap.go:486 | all newlines at the end of a line are dropped, and nothing else |
| SlamLog.ParseEstimate | pkg/navmap/navmap.go:500-521 | which parts of an estimate are its coordinates, and when it is given up |
| SlamLog.ParseReset | pkg/navmap/navmap.go:500 | which lines are resets |
| SlamLog.GivenUpExactly | pkg/navmap/navmap.go:485-533 | exactly which lines are given up |
| SlamLog.FromMiddle | pkg/navmap/navmap.go:473-478 | over the reals, the position of an estimate: 20 pixels to a metre from the middle, x to the right and y up |
| SlamLog.PositionsSinceReset | pkg/navmap/navmap.go:350-483 | the positions are the estimates since the last reset, without repetitions |
| SlamLog.PlacedThere | pkg/navmap/navmap.go:356-373 | every estimate is in that sequence, in order, equal neighbours at one place |
| SlamLog.NoStutter | pkg/navmap/navmap.go:360-366 | no two neighbouring positions are equal |
| SlamLog.ChunksDoNotMatter | pkg/navmap/navmap.go:471-482 | handling a log in two chunks gives the same as handling it whole, from any positions |
| SlamLog.AnyChunks | pkg/navmap/navmap.go:471-482 | the same for any number of chunks |
| SlamLog.ParsedExactly | pkg/navmap/navmap.go:485-533 | the lines that are handled are those before the first one that does not parse |
| SlamLog.Watcher.Watch | pkg/navmap/navmap.go:461-483 | the positions after a log, and the crash exactly when a line does not parse |
| SlamLog.Watcher.PositionsAppend | pkg/navmap/navmap.go:356-373 | an estimate is appended unless it repeats the last one |
| SlamLog.Watcher.PositionsEmpty | pkg/navmap/navmap.go:350-354 | a reset forgets all positions |
| StatusCache.Kubernetes.TryUpdateVacuumStatus | pkg/kubernetes/vacuum_status.go:16-63 | result, server and cache after a call, for every outcome of the API calls, although the cached object is changed before it is sent |
| StatusCache.RunCalls | pkg/kubernetes/vacuum_status.go:12-63 | the same over any number of calls; the cache is empty or agrees with the server between them |
| StatusCache.CacheAgrees | pkg/kubernetes/vacuum_status.go:16-63 | in every run the cache is empty or equal to what the server stores, and a call without error leaves exactly its status there |
| StatusCache.NothingOlder | pkg/kubernetes/vacuum_status.go:55-62 | the server never holds a status older than that of the last call without error |
| StatusCache.OneWriteAtMost | pkg/kubernetes/vacuum_status.go:22-62 | a call writes at most once: it creates the object where there is none, and updates it only when the status is another one |
| StatusCache.ErrorExactly | pkg/kubernetes/vacuum_status.go:22-62 | in every run, exactly when a call reports an error |
| StatusCache.ServerExactly | pkg/kubernetes/vacuum_status.go:49-62 | in every run, what the server holds after a call |
| StatusCache.Settled | pkg/kubernetes/vacuum_status.go:49-53 | repeating a status after a call without error changes nothing and cannot fail |
| StatusCache.RecoversAtOnce | pkg/kubernetes/vacuum_status.go:56-60 | after any failures, a call whose API calls succeed has no error: no update is refused as stale |
| PodQueue.CounterIsFailuresModuloSix | pkg/kubernetes/pods_controller.go:170-193 | in every run, over all keys mixed, the counter of a key is the number of its failures since its last success, modulo six |
| PodQueue.DroppedAtEverySixthFailure | pkg/kubernetes/pods_controller.go:179-192 | a failing key is given up if and only if this is a sixth failure since its last success |
| PodQueue.AtMostFiveReAdded | pkg/kubernetes/pods_controller.go:179-189 | between two times that a key is forgotten it is re-added at most five times, and the counter is the number of times |
| PodQueue.RateLimitedQueue.HandleErr | pkg/kubernetes/pods_controller.go:170-193 | the counters and the re-added keys after success, retry and giving up |
| PodQueue.Work | pkg/kubernetes/pods_controller.go:218-221 | the worker loop keeps the counters of the whole history and re-adds exactly the keys that are to be retried, in order |
| PodController.RunCommands | pkg/kubernetes/pods_controller.go:116-134 | the commands are sent in order up to the first failure, each with the image of its container as command and its first argument, and the signal says whether all succeeded |
| PodController.AttemptHasOrigin | pkg/kubernetes/pods_controller.go:97-127 | in every run each attempt goes back to a step that found a pending pod of its key that is not mirrored, and has that pod's images and first arguments in order |
| PodController.ProcessExactly | pkg/kubernetes/pods_controller.go:96-113 | what processing a key does for every lookup |
| PodController.EndsExactly | pkg/kubernetes/pods_controller.go:136-153 | how an attempt ends: writes, error and what is left alone |
| PodController.SucceedsTwiceExactly | pkg/kubernetes/pods_controller.go:113-154 | in every reachable state, and until the key is processed again, command p can come to succeed in two attempts of the key if and only if two attempts have it and no failure up to it |
| PodController.StartMakesItPossible | pkg/kubernetes/pods_controller.go:113-134 | starting a runner makes that possible exactly for the commands of the pod that an earlier attempt of the key can still complete or has completed |
| PodController.StartedOnceSucceedsOnce | pkg/kubernetes/pods_controller.go:113-134 | with one start at most for a key no command succeeds twice |
| PodController.RunnersAreRequeues | pkg/kubernetes/pods_controller.go:90-154 | in every interleaving the runners started for a key and its failed lookups, since it was last forgotten, are as many as its requeues and the runner being waited for |
| PodController.AtMostSixRunners | pkg/kubernetes/pods_controller.go:113-189 | at most six runners are started for a key between two times that it is forgotten |
| PodWorker.Controller.Begin | pkg/kubernetes/pods_controller.go:96-134 | sendNotify up to its select: the error of the lookup, nothing to do, or a runner |
| PodWorker.Controller.Expire | pkg/kubernetes/pods_controller.go:136-139 | the timer ends the wait, and the runner goes on |
| PodWorker.Controller.Finish | pkg/kubernetes/pods_controller.go:140-153 | the result is received, and the status is written for it |
| PodWorker.Controller.SendNotify | pkg/kubernetes/pods_controller.go:96-160 | error, status write, commands of the attempt and results that came in, for every lookup, timer and answer; the steps are those of the machine |
| PodWorker.ResultsExactly | pkg/kubernetes/pods_controller.go:116-141 | the results of the attempt when the runner or the timer comes first |
| PodWorker.Controller.ProcessNextItem | pkg/kubernetes/pods_controller.go:78-94 | the same with the retry: history, re-added key and counters after processing one key |
| PodWorker.RunSteps | pkg/kubernetes/pods_controller.go:78-221 | over any interleaving the fields and the queue are those of the machine and of its history, and the balance of runners and requeues holds |
| PodController.SucceededOnlyAfterAll | pkg/kubernetes/pods_controller.go:140-146 | in every interleaving PodSucceeded is written only if every command of that attempt succeeded |
| PodController.FailedOnlyAfterFirstFailure | pkg/kubernetes/pods_controller.go:147-152 | PodFailed is written only if a command failed, all before it succeeded and none after it was sent |
| PodController.NothingOnTimeout | pkg/kubernetes/pods_controller.go:136-139 | nothing is ever written for an attempt that timed out |
| PodController.OneWriteWhenReceived | pkg/kubernetes/pods_controller.go:136-153 | an attempt has exactly one write if its result was received, and none otherwise |
| PodController.OnlyTimedOutRunnersLinger | pkg/kubernetes/pods_controller.go:113-139 | the worker has turned away from a runner that is still at work if and only if its attempt has timed out |
| PodController.CommandCanRunTwice | pkg/kubernetes/pods_controller.go:136-139 | a run in which the command of one pod succeeds twice after a timeout |
| PodController.CommandCanRunTwiceInTime | pkg/kubernetes/pods_controller.go:140-146 | a run in which it does without a timeout |

## Left out

- The insides of AES and MD5: any keyed permutation and any function; nothing is claimed about secrecy.
- JSON, PNG and PPM coding, gzip, SQLite, sockets, HTTP and the other I/O: what they deliver is a parameter. An encoded image is the image; encoding an empty image fails.
- The image of a map is taken as 8-bit RGBA with its corner at (0, 0), as the PPM decoder, which is not part of this model, delivers it.
- The machine width of image sides, and running out of memory on large pictures.
- float32 rounding: positions in map files are exact reals, and the positions of the log are any function of the two numbers. NaN, which is unequal to itself, is excluded.
- CloudMessages.CloudMessage.Read: a body of partial blocks stops the program in the block mode; here it is an error of its own, so that reading is total.
- CloudMessages.PadSlice: how much spare room a new slice gets when append grows it is not modelled; it gets none.
- CloudReceiver.RunEvents: errors of the socket itself, and when the keep-alive loop takes a hello reply that is handed over.
- Retrieval.Rockrobo.Start: `retrieve` blocks in the middle, so it is a method for each stretch between blocking points instead of one method; the queue of outgoing requests is one step.
- The readiness of a local connection and the choice of its outgoing queue (pkg/rockrobo/local_connection.go:222-260).
- KeepAlive.RunLegal: waiting for a ready device and the sleeps between attempts; the clock and the random choice are parameters of a turn.
- Whether a waiting call is ever answered: there is no timeout, and nothing is claimed.
- Cleanings.ListCleanings: what a stream that breaks off has put into its record by then; the listing fails and the records are not returned.
- SlamLog.Watcher.Watch: following a file that grows or is replaced; the lines are a sequence.
- LatestPositionsMap and the choice of the newest map file (pkg/navmap/navmap.go:248-292, 375-407): a translation and a maximum.
- StatusCache.Kubernetes.TryUpdateVacuumStatus: other writers of the object.
- PodQueue.Work: the delays of the rate limiter and the deduplication of waiting keys in the queue library.
- PodWorker.Controller.ProcessNextItem: more than one worker; the program starts one.
- Node status, the kubelet server, cleanings as Kubernetes objects, generated clients, commands and metrics.
