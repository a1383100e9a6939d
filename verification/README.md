# torquests: a verified model of its protocol engine

torquests is a Tor client library. This project models the parts of it where correctness depends on more than one
function at a time, and proves properties of the model for every input, every run and every interleaving:

- **Onion circuits.** A client stamps each relay cell with the running digest of its last hop and wraps it in every
  hop's keystream; replies are peeled hop by hop until one hop recognizes them. `RelayCells`, `RelayCryptos`, `Onions`
  and `Circuits` follow the code, and `CircuitLaws` says field by field what sending and receiving do; `OnionLanes`,
  `OnionSteps` and `OnionRuns` put the client and its relays on FIFO links and prove that both ends of every hop stay in
  step while the circuit grows and traffic interleaves. Standard: tor-spec, "Relay cells" and "Routing relay cells".
- **Flow control.** `FlowControl` has the three counters of a circuit; `CircuitFlow` runs them with any number of sender
  threads against any peer, and against an honest one; `FlowRefinement` proves that every run of a circuit is one of
  those runs. `Streams` and `StreamFlow` do the same for chunked sending and byte-driven credit; `StreamBytes` and
  `StreamArrivals` follow the bytes of many streams end to end, both ways. Standard: tor-spec, "Circuit-level flow
  control" and "Stream-level flow control", and Tor proposal 289.
- **The HSDir ring.** `HsDirRing` has the sort-and-walk loop and a declarative reading of the ring; `HsDirTheorems`
  proves that the one refines the other, and that the ring is stable. Standard: rend-spec-v3, "WHERE-HSDESC".
- **Ownership and teardown.** `Channels`, `Registries`, `Teardown`, `ClientPool` and `TunnelRegistry`: every
  lock-protected section is one step, and threads interleave between them.
- **Directory logic.** `Quorum` and `KeyCerts` (consensus signatures and the certificates behind them), `Relays`,
  `Guards`, `PathSelect` and `Paths` (guards and paths). Standard: dir-spec.
- **Codecs and parsers.** `Framing`, `CountedLists`, `Netdoc`, `NetdocLaws`, `Microdescriptors` and
  `MicrodescriptorFields`.

`Bytes`, `Sequences`, `FiniteSets` and `Texts` hold what several of these share.

Objects that the code updates in place are classes here, and their loops are loops. Each method is proved against a
function of its inputs or of the old state, and the state machines take those same functions as their steps; what a
reader relies on is then proved about the functions and the runs. A run is a list of states joined by enabled events,
so a lemma about `states[i]` is a statement about every reachable state.

Hypotheses that the theorems name, because they are not properties of the code:

- Hashes, keystreams, RSA recovery, the two HSDir index functions and the consensus parser are function-typed parameters.
  A hash context is the bytes it has absorbed, a cipher context a position in a keystream.
- `OnionRuns.NoFalseRecognition`: on no step does a hop take a cell meant for another hop for its own, that is, the
  32-bit digest does not collide. It is part of `OnionRuns.Run` and nowhere assumed otherwise.
- `Teardown` lets a circuit be created under an id that no earlier circuit of the channel had. `Channels.IdsDoNotRepeat`
  shows when the allocator gives this, and `Channels.FullTurnRepeats` that the bound is exact.
- `Paths.Directory` stores microdescriptors under their own digest, so a digest names one document. What the mirrors
  answer, what arrives for a stream and what happens to a sender while it waits are parameters, so that each outcome is
  stated exactly.

Where a promise has a condition, the condition is exact:

- Withholding fetched key certificates never gets a consensus accepted (`Quorum.TruncationNeverHelps`), because every
  key that is kept loads (`KeyCerts.FetchedKeysLoad`) and the list keeps its length. Withholding must not exchange keys:
  `Quorum.ExchangedKeyHelps` gives, for any authority list and any certificates that hold another key for one authority,
  a document that the exchange gets accepted. A served list that certifies two keys for one authority makes a cut such
  an exchange, since the later certificate is the one kept and no expiry is looked at; `KeyCerts.CutsAgreeIff` shows
  that nothing else does, `KeyCerts.LosingCertificatesNeverHelps` and `KeyCerts.LosingTheLaterKeyHelps` draw both
  conclusions, and `KeyCerts.ReissuedKeyExample` is the smallest case.
- A packed cell is read back exactly when both sides use one width of circuit id, which is what `read_cell` asks of its
  callers: `Framing.ReadBackIffSameWidth`.
- An item whose first word is `opt` is read as what follows it: `Netdoc.LeadingOptIsDropped`. So `opt` is the one keyword
  that the print and parse round trips exclude.

To verify everything: `dafny verify dfyconfig.toml`.

## Model

| member | source | states |
|---|---|---|
| RelayCells.NewCell | src/torquests/_proto/relay.py:44-57 | construction keeps every field, and pads a cell whose data fits to exactly the payload, four zero bytes first |
| RelayCells.WireLayout | src/torquests/_proto/relay.py:59-72 | where each field stands in the 509 bytes, and in which order |
| RelayCells.ParseWire | src/torquests/_proto/relay.py:59-104 | parsing a packed cell gives back that cell, padding included |
| RelayCells.WireParse | src/torquests/_proto/relay.py:59-104 | parsing accepts exactly the bodies whose declared length fits, and packing the result gives the same 509 bytes |
| RelayCells.ZeroedWireIsDigestInput | src/torquests/_proto/relay.py:73-78 | what a sender feeds the digest is what a receiver recomputes by zeroing the field in the bytes it got |
| RelayCells.SendmeRoundTrip | src/torquests/_proto/relay.py:189-214 | an acknowledgement body packs exactly for 20-byte digests, reads back whatever follows it, and only 20-byte digests are read |
| RelayCells.SendmeFormat | src/torquests/_proto/relay.py:189-214 | a body is read as an acknowledgement if and only if it says version 1 and length 20 and is long enough, and the digest is then its bytes 3 to 23 |
| RelayCryptos.CryptCancels | src/torquests/_proto/relay_crypto.py:55-62 | the two ends of a keystream undo each other when they stand at the same position |
| Bytes.XorRecovers | src/torquests/_proto/relay_crypto.py:55-62 | XORing the result of XOR with one operand gives back the other |
| Bytes.XorIsBitwise | src/torquests/_proto/relay_crypto.py:55-62 | bit k of an XOR is set exactly if bit k of one operand is |
| RelayCryptos.CryptBytes | src/torquests/_proto/relay_crypto.py:55-62 | byte i of a body is XORed with the keystream byte at the position plus i |
| RelayCryptos.CryptAppend | src/torquests/_proto/relay_crypto.py:55-62 | encrypting two bodies one after the other is encrypting their concatenation: the keystream is not started again |
| RelayCryptos.OneKeystream | src/torquests/_proto/relay_crypto.py:55-62 | so for any number of cells: cut up in any way, a direction uses one continuous keystream |
| RelayCryptos.StampedIsRecognized | src/torquests/_proto/relay_crypto.py:66-110 | a stamped cell is recognized, unchanged, by an end that has absorbed the same bytes |
| RelayCryptos.RecognizedWasStamped | src/torquests/_proto/relay_crypto.py:92-110 | conversely, a recognized body is bit for bit what stamping its own fields with that history produces |
| RelayCryptos.DigestCoversHistory | src/torquests/_proto/relay_crypto.py:66-110 | the digest field of a stamped cell is the first four bytes of the hash of everything absorbed before and this cell with the field zeroed, and a body is recognized only if its own field is that |
| RelayCryptos.RelayCrypto.Create | src/torquests/_proto/relay_crypto.py:29-41 | refuses short key material, and cuts seeds and keystreams in the order Df, Db, Kf, Kb |
| RelayCryptos.RelayCrypto.StampForward | src/torquests/_proto/relay_crypto.py:66-69 | stamps with the digest that includes the cell, and commits it; a cell that does not pack leaves the digest alone |
| RelayCryptos.RelayCrypto.StampBackward | src/torquests/_proto/relay_crypto.py:71-74 | the same in the other role |
| RelayCryptos.RelayCrypto.ApplyForwardCipher | src/torquests/_proto/relay_crypto.py:55-58 | byte by byte, what was XORed on is the keystream from the current position on, which moves by the length of the body |
| RelayCryptos.RelayCrypto.ApplyBackwardCipher | src/torquests/_proto/relay_crypto.py:60-62 | the same in the other direction |
| RelayCryptos.RelayCrypto.Recognize | src/torquests/_proto/relay_crypto.py:92-110 | probes a copy of the running digest and commits it exactly when the cell is recognized, touching only its own direction |
| RelayCryptos.RelayCrypto.RecognizeForward | src/torquests/_proto/relay_crypto.py:84-86 | recognition with the forward digest; the backward one is untouched |
| RelayCryptos.RelayCrypto.RecognizeBackward | src/torquests/_proto/relay_crypto.py:88-90 | recognition with the backward digest; the forward one is untouched |
| Onions.LayersPeel | src/torquests/_net/circuit.py:228-229 | removing one hop's layer leaves the layers of the hops behind it |
| Onions.StampThenWrap | src/torquests/_net/circuit.py:217-229 | stamping before wrapping changes no layer: the body on the wire is the stamped cell under every hop's keystream as it stood before |
| Onions.PeelFindsOrigin | src/torquests/_net/circuit.py:245-251 | peeling a cell from hop t, with no earlier hop claiming it, stops at hop t with the cell as it was stamped |
| Onions.PeelRoutes | src/torquests/_net/circuit.py:245-253 | the same from the outermost layer, with every context advanced exactly as the far ends advanced theirs |
| Circuits.Circuit.constructor | src/torquests/_net/circuit.py:96-123 | an open circuit: full windows, nothing expected, nothing registered |
| Circuits.Circuit.SendRelay | src/torquests/_net/circuit.py:212-231 | stamps for the last hop, notes a DATA cell's digest, wraps and sends; contexts move as the client side of a run moves them, also when the channel refuses; refused on a destroyed circuit with nothing changed |
| Circuits.Circuit.StampLast | src/torquests/_net/circuit.py:219-226 | the digest noted for a DATA cell is the one its own stamping left |
| Circuits.Circuit.Wrap | src/torquests/_net/circuit.py:227-229 | the loop applies every hop's layer once, last hop first |
| Circuits.Circuit.Unwrap | src/torquests/_net/circuit.py:245-253 | the loop peels hop by hop to the first hop that recognizes the body |
| Circuits.Circuit.HandleRelay | src/torquests/_net/circuit.py:245-276 | a received body is peeled, and then does to registry, window, tracker, delivered count, wire and handlers exactly what routing its message from the hop that recognized it does; an unrecognized one tears the circuit down, a malformed one changes only its hop |
| Circuits.Circuit.RouteRelay | src/torquests/_net/circuit.py:255-276 | first match of builder, flow control, control waiter, stream; every DATA cell not taken by a waiter counts, its stream alive or not, and the hundredth is acknowledged with its origin's digest |
| Circuits.Circuit.RouteOther | src/torquests/_net/circuit.py:262-276 | the same for the cells that are neither a build reply nor a circuit acknowledgement |
| Circuits.Circuit.AnswerStream | src/torquests/_net/circuit.py:273-276 | the stream, if registered, is given the message |
| Circuits.Circuit.AnswerControl | src/torquests/_net/circuit.py:262-266 | a control waiter is popped and answered at most once |
| Circuits.Circuit.FireBuild | src/torquests/_net/circuit.py:307-311 | a build reply reaches the armed builder once |
| Circuits.Circuit.CountDelivered | src/torquests/_net/circuit.py:267-272 | one acknowledgement per hundred DATA cells |
| Circuits.Circuit.HandleCircuitSendme | src/torquests/_net/circuit.py:278-294 | only the oldest expected digest credits the window, by 100; a malformed or wrong one tears the circuit down |
| Circuits.Circuit.EmitCircuitSendme | src/torquests/_net/circuit.py:296-300 | sends the first 20 bytes of the origin hop's backward digest; a failed send is dropped |
| Circuits.AckCell | src/torquests/_net/circuit.py:296-300 | the acknowledgement cell is well formed and reads back as the first 20 bytes of the digest it was made from |
| Circuits.Circuit.NextStreamId | src/torquests/_net/circuit.py:186-189 | ids run round 1..65535 |
| Circuits.StreamIdsDistinct | src/torquests/_net/circuit.py:186-189 | any 65535 consecutive stream ids are distinct, and the next one repeats the first |
| Circuits.Circuit.RegisterStream | src/torquests/_net/circuit.py:191-195 | registers, replacing what was there, unless the circuit is destroyed |
| Circuits.Circuit.ArmRelay | src/torquests/_net/circuit.py:170-182 | the same for a control waiter |
| Circuits.Circuit.UnregisterStream | src/torquests/_net/circuit.py:197-202 | forgets the stream, and says whether an idle single-request circuit should now close |
| Circuits.Circuit.TearDown | src/torquests/_net/circuit.py:318-335 | the first teardown takes every registration to notify and closes the window; later ones take nothing |
| CircuitLaws.SendingMoves | src/torquests/_net/circuit.py:212-231 | a destroyed circuit sends nothing; otherwise the last hop absorbs the cell, every keystream moves by 509, the marking is the one asked for, and every hundredth counted cell is remembered by its own digest |
| CircuitLaws.OnlyGenuineCredits | src/torquests/_net/circuit.py:278-294 | a circuit SENDME adds exactly 100 units if it is well formed and names the oldest expected digest; any other adds nothing and destroys the circuit and its window |
| CircuitLaws.ReceivedReaches | src/torquests/_net/circuit.py:255-276 | who is given any other message: the builder, a control waiter or the stream of its id, the first two once, and nobody else is touched |
| CircuitLaws.EveryHundredth | src/torquests/_net/circuit.py:267-272 | in any run of DATA cells the 100th, 200th and so on are acknowledged, and no other |
| OnionSteps.ClientSendsOk | src/torquests/_net/circuit.py:212-231 | sending keeps the invariant that every hop's two ends are one pipe apart |
| OnionSteps.RelayReceivesOk | src/torquests/_proto/relay_crypto.py:84-110 | so does a relay keeping or passing on a forward cell |
| OnionSteps.RelaySendsOk | src/torquests/_proto/relay_crypto.py:66-74 | so does a relay originating a backward cell |
| OnionSteps.RelayPassesOk | src/torquests/_proto/relay_crypto.py:55-62 | so does a relay adding its layer to a cell from behind it |
| OnionSteps.ClientReceivesOk | src/torquests/_net/circuit.py:245-253 | so does the client peeling a backward cell |
| OnionSteps.RelayJoinsOk | src/torquests/_net/circuit.py:125-146 | so does a relay learning its keys |
| OnionSteps.ClientJoinsOk | src/torquests/_net/circuit.py:135-154 | so does the client learning them |
| OnionRuns.Synchrony | src/torquests/_net/circuit.py:212-253 | in every reachable state keystream positions and digests agree at both ends of every hop once cells in flight are counted, and what each end has recognized is a prefix of what the other sent |
| OnionRuns.QuietMeansEqual | src/torquests/_net/circuit.py:212-253 | with nothing in flight both ends hold equal contexts and everything sent has been recognized |
| OnionRuns.RecognizedExactlyAtTarget | src/torquests/_proto/relay_crypto.py:92-110 | a relay recognizes a forward cell if and only if it is its target, with the command, stream id and data it was sent with |
| OnionRuns.RoutedExactlyToOrigin | src/torquests/_net/circuit.py:245-253 | the client recognizes every backward cell exactly at its origin hop, unchanged |
| OnionRuns.HistoryIsInert | src/torquests/_net/circuit.py:212-253 | the history a packet carries in the model decides nothing: states that differ only there take the same steps |
| FlowControl.PackageWindow.Consume | src/torquests/_net/flowcontrol.py:27-35 | one pass of the waiting loop: a closed window fails, an empty one waits, otherwise one unit is taken |
| FlowControl.PackageWindow.Refill | src/torquests/_net/flowcontrol.py:37-40 | credits one increment |
| FlowControl.PackageWindow.Close | src/torquests/_net/flowcontrol.py:42-45 | closes, keeping the value |
| FlowControl.DeliverCounter.NoteReceived | src/torquests/_net/flowcontrol.py:62-69 | counts, and falls due at the increment |
| FlowControl.DueEveryIncrement | src/torquests/_net/flowcontrol.py:62-69 | after n cells exactly n / increment acknowledgements have fallen due |
| FlowControl.SendmeTracker.NoteSent | src/torquests/_net/flowcontrol.py:97-103 | remembers the digest of every boundary cell, oldest first |
| FlowControl.SendmeTracker.Verify | src/torquests/_net/flowcontrol.py:105-115 | an acknowledgement consumes the oldest expectation, and is right only if it matches it |
| CircuitFlow.WindowConserved | src/torquests/_net/flowcontrol.py:27-115 | against any peer, acknowledgements after a rejected one included: no unit of the window is created, none lost while the circuit lives, the window stays in 0..1000, at most 1000 cells are unacknowledged, and a sender that must wait is waiting for exactly ten acknowledgements |
| CircuitFlow.CreditIsEarned | src/torquests/_net/circuit.py:278-294 | in every run, before and after a teardown, the k-th acknowledgement compared is credited if and only if it names the 100k-th DATA cell sent by the first 20 bytes of its digest |
| CircuitFlow.AllComparedWereAccepted | src/torquests/_net/flowcontrol.py:105-115 | until one is refused, the acknowledgements compared are the ones credited, so k counts those |
| CircuitFlow.HundredForEachCredit | src/torquests/_net/flowcontrol.py:97-115 | a hundred DATA cells were sent for every acknowledgement ever credited |
| CircuitFlow.HonestAcksAccepted | src/torquests/_net/circuit.py:206-231 | in every interleaving of DATA, other cells and acknowledgements, every SENDME of an honest last hop verifies |
| CircuitFlow.NeverDeadlocked | src/torquests/_net/flowcontrol.py:27-40 | with the window empty and nobody mid-send, an honest peer owes ten acknowledgements and one of them can move |
| FlowRefinement.OpLeads | src/torquests/_net/circuit.py:206-335 | whatever is done to a circuit, its window, tracker and teardown move by moves of the flow-control protocol |
| FlowRefinement.CircuitPlaysFlow | src/torquests/_net/circuit.py:206-335 | every run of a circuit is a run of the protocol, with the digests of its own DATA cells |
| FlowRefinement.CircuitWindow | src/torquests/_net/circuit.py:206-294 | so the window of a circuit stays within 0..1000 against any peer, and while the circuit lives every unit is in it, with a sender, or unanswered |
| FlowRefinement.CircuitCredit | src/torquests/_net/circuit.py:278-294 | and a circuit SENDME is credited if and only if it names the last DATA cell of the next full hundred not yet answered for |
| Streams.ChunksFlatten | src/torquests/_net/stream.py:96-104 | the chunks concatenate to the data; each holds 1..498 bytes and only the last may be short |
| Streams.Stream.Send | src/torquests/_net/stream.py:96-104 | hands over the chunks in order, each for one unit of the window; it stops exactly where the window is closed, has no unit or the circuit is gone, and says which |
| Streams.Stream.Recv | src/torquests/_net/stream.py:106-129 | returns the front of the buffer, and sends one SENDME for every 24900 bytes consumed, carrying the rest over |
| Streams.SliceEnd | src/torquests/_net/stream.py:113-116 | how many bytes a read takes: at most the bound, all if fewer are buffered, and counted from the end for a negative bound |
| Streams.Stream.Open | src/torquests/_net/stream.py:72-94 | registers, sends BEGIN and waits: which outcome follows from which messages is exact, and an opening that fails in any way leaves no registration |
| Streams.Stream.Close | src/torquests/_net/stream.py:135-150 | ends the stream once: an END unless the peer ended it first, and no registration afterwards |
| Streams.Stream.HandleRelay | src/torquests/_net/stream.py:154-169 | only DATA touches the buffer, only SENDME the window |
| Streams.Stream.OnCircuitClosed | src/torquests/_net/stream.py:171-176 | fails the stream and closes its window |
| StreamFlow.RecvIsItsSteps | src/torquests/_net/stream.py:106-129 | the steps a reader takes in the protocol, one after the other, are what the recv loop is proved to do |
| StreamFlow.BufferBounded | src/torquests/_net/stream.py:106-129 | an honest peer is never over-credited: 50 cells arrived per SENDME, and at most 249000 bytes are ever buffered or in flight |
| StreamFlow.DownloadFaithful | src/torquests/_net/stream.py:106-169 | what recv returned, then the buffer, is what arrived, and with what is in flight all that was sent |
| StreamFlow.DrainedMeansOpen | src/torquests/_net/stream.py:53-56 | with full cells and a drained buffer the peer's window is at least 451 |
| StreamBytes.RunFaithful | src/torquests/_net/stream.py:96-104 | for any interleaving of streams, ids used again or not, the payloads stamped for a stream and those left to send are what it was given |
| StreamBytes.BytesEndToEnd | src/torquests/_net/stream.py:96-104 | the payloads a relay has recognized for a stream, while the id was its own, are a prefix of the bytes given to send, all of them once the sends are done and everything stamped has been recognized |
| StreamArrivals.ArrivesAsRouted | src/torquests/_net/circuit.py:255-276 | a message goes to the one whom the circuit routes it to, and to nobody else |
| StreamArrivals.RunFaithful | src/torquests/_net/circuit.py:262-276 | for any streams registering, reading and ending in any order, what a stream has is the DATA that arrived under its id while it was registered |
| StreamArrivals.ArrivesEndToEnd | src/torquests/_net/stream.py:106-169 | what recv returned to a stream, then its buffer, is exactly the DATA that the hop sent under its id in that time |
| HsDirRing.Walk | src/torquests/_onion/hsdir.py:140-158 | one replica's wrapping walk takes the first spread not-yet-chosen relays of one lap from the first index at or after the target |
| HsDirRing.ResponsibleHsdirs | src/torquests/_onion/hsdir.py:109-160 | the nested loops compute the replica-by-replica selection |
| HsDirTheorems.LapByDistance | src/torquests/_onion/hsdir.py:140-158 | a lap meets every relay once, in clockwise order from the target |
| HsDirTheorems.WalkRefinesRing | src/torquests/_onion/hsdir.py:130-160 | the walk selects exactly the relays with, for some replica, fewer than spread still-free relays nearer clockwise |
| HsDirTheorems.SelectionSize | src/torquests/_onion/hsdir.py:109-160 | no relay twice, and min(relays, replicas * spread) of them |
| HsDirTheorems.InputOrderIrrelevant | src/torquests/_onion/hsdir.py:130-135 | the result, order included, does not depend on the order of the input |
| HsDirTheorems.SmallerSpreadContained | src/torquests/_onion/hsdir.py:109-160 | a smaller spread selects a subset of a larger one, over any number of replicas with skipping |
| HsDirTheorems.FetchWithinStore | src/torquests/_onion/hsdir.py:109-160 | so a client fetching with 3 asks only relays a service storing with 4 uploaded to |
| HsDirTheorems.OneRelayDisplacesOne | src/torquests/_onion/hsdir.py:109-160 | one relay more displaces at most one member, and only by being chosen itself |
| HsDirTheorems.NewRelayDisplacesOne | src/torquests/_onion/hsdir.py:109-160 | the same of the lists the walk returns |
| Channels.Channel.NewCircuitId | src/torquests/_net/channel.py:71-79 | the first unregistered id after the counter, top bit set, whenever fewer than 2^31 - 1 are in use; fails exactly when every id tried is in use |
| Channels.Channel.Register | src/torquests/_net/channel.py:81-87 | refuses a closing channel and a taken id |
| Channels.Channel.Unregister | src/torquests/_net/channel.py:89-91 | forgets the id |
| Channels.Channel.TakeSinks | src/torquests/_net/channel.py:125-131 | the shutdown takes every circuit and closes registration in one step |
| Channels.TriedCount | src/torquests/_net/channel.py:71-79 | one turn of the wrapping counter tries that many distinct ids |
| Channels.IdsDoNotRepeat | src/torquests/_net/channel.py:71-79 | allocations that advance the counter by fewer than 2^31 positions in all never repeat, registered or not |
| Channels.FullTurnRepeats | src/torquests/_net/channel.py:71-79 | the bound is exact: a full turn repeats |
| Teardown.ToldAtMostOnce | src/torquests/_net/circuit.py:191-202 | no registration is told twice, nor while it is still held, nor after it was removed |
| Teardown.ShutDownTellsAll | src/torquests/_net/channel.py:125-144 | once the receiver has shut down every registration not removed was told exactly once, unless a teardown in progress is about to tell it, and no circuit holds any |
| Teardown.RefusedAfterShutDown | src/torquests/_net/circuit.py:162-195 | and in any continuation no registration is accepted again |
| ClientPool.TorClient.FirstLook | src/torquests/_client/torclient.py:376-395 | refuses on a closed client, prunes dead circuits, reuses a live entry or asks for a build |
| ClientPool.TorClient.SecondLook | src/torquests/_client/torclient.py:396-418 | publishes the built resource unless the client closed or a live one was published meanwhile |
| ClientPool.ReuseIsOwn | src/torquests/_client/torclient.py:385-395 | in every run, what a look hands out is live and was built for the very key asked for; a build is asked for exactly when the client is open and no live resource is pooled under that key |
| ClientPool.PublishIsOwn | src/torquests/_client/torclient.py:400-418 | in every run, what publishing hands out was built for the key of the thread and is pooled under it; a live one already pooled there wins |
| ClientPool.TorClient.TakeAll | src/torquests/_client/torclient.py:455-461 | takes everything pooled |
| ClientPool.TorClient.Shut | src/torquests/_client/torclient.py:463-475 | closes once, taking everything pooled |
| ClientPool.NothingLeaks | src/torquests/_client/torclient.py:376-494 | under any interleaving every live resource is pooled under its key or held by a thread that will publish or close it |
| ClientPool.OneLivePerKey | src/torquests/_client/torclient.py:390-418 | with no operation in progress at most one live resource per key, the pooled one |
| ClientPool.ClosedMeansDestroyed | src/torquests/_client/torclient.py:463-494 | once closed and every operation finished, nothing ever built is alive |
| ClientPool.ClosedForever | src/torquests/_client/torclient.py:463-475 | a closed client pools nothing again |
| TunnelRegistry.LiveDirectory.InstallDirTunnel | src/torquests/_client/bootstrap.py:190-202 | appends, and the newest is active |
| TunnelRegistry.LiveDirectory.RestoreDirTunnel | src/torquests/_client/bootstrap.py:204-217 | drops the first occurrence wherever it is, and the newest left is active, or none |
| TunnelRegistry.ActiveIsNewest | src/torquests/_client/bootstrap.py:190-217 | for any clients installing and closing in any order, a tunnel is active if and only if it was installed, not dropped, and everything installed after it was dropped |
| TunnelRegistry.NoDeadActiveTunnel | src/torquests/_client/torclient.py:463-482 | with no close between its locked section and its registry call, there is an active tunnel if and only if an open client has one installed, and it is such a client's |
| TunnelRegistry.ClosedTunnelStaysOut | src/torquests/_client/torclient.py:208-215 | a dropped tunnel is never active again |
| Quorum.RegionEndsAtFirstMarker | src/torquests/_dir/consensus.py:92-97 | the signed region does not depend on anything after the first signature keyword |
| Quorum.VerifyConsensus | src/torquests/_dir/consensus.py:100-155 | the signature loop reaches the verdict of an order-free count of the authorities that validly signed, with every error case |
| Quorum.AcceptedIff | src/torquests/_dir/consensus.py:100-155 | a document is accepted if and only if it parses, is live, uses no key that does not load, and more than half as many authorities as the list has entries signed it: with a signature that recovers, under their own key, to the digest of the text up to its first signature keyword |
| Quorum.MoreThanHalfSigned | src/torquests/_dir/consensus.py:131-155 | in an accepted document more than half of the entries of the list belong to authorities with such a signature |
| Quorum.RejectionMeans | src/torquests/_dir/consensus.py:112-155 | each fault is given only for its own cause |
| Quorum.AuthoritiesWithKeys | src/torquests/_client/bootstrap.py:100-120 | every authority is kept, keyed where a certificate was fetched |
| Quorum.QuorumIntersection | src/torquests/_dir/consensus.py:131-155 | any two documents accepted against one authority list share an authority that validly signed both |
| Quorum.SignatureOrderIrrelevant | src/torquests/_dir/consensus.py:131-155 | repeating or permuting signatures changes neither outcome nor fault |
| Quorum.TruncationNeverHelps | src/torquests/_client/bootstrap.py:100-120 | losing fetched certificates never gets a document accepted: the verdict with fewer, if acceptance, is the verdict with all |
| Quorum.AcceptedWithAllIff | src/torquests/_dir/consensus.py:131-155 | for any certificates whatever, a document accepted with fewer is accepted with all if and only if no signature of it names an authority whose fetched key does not load |
| Quorum.ExchangedKeyHelps | src/torquests/_client/bootstrap.py:532-542 | losing must not be exchanging: wherever a majority is certified and one authority has another key, some document is accepted that had too few signatures |
| KeyCerts.ParseKeyCertificates | src/torquests/_dir/keycerts.py:82-102 | the loop keeps exactly the certificates that verify, in order, and skips malformed ones |
| KeyCerts.FetchedKeysLoad | src/torquests/_dir/keycerts.py:49-75 | a key is kept if and only if it loads and a certificate for it is signed by an identity key with the fingerprint claimed; so every key kept loads |
| KeyCerts.CutsAgreeIff | src/torquests/_client/bootstrap.py:532 | cutting the served list short never exchanges a kept key if and only if it has one key for each identity |
| KeyCerts.LosingCertificatesNeverHelps | src/torquests/_client/bootstrap.py:531-554 | with one key each, losing any served certificates never gets a document accepted |
| KeyCerts.LosingTheLaterKeyHelps | src/torquests/_client/bootstrap.py:531-554 | and with two keys a cut that keeps the other one gets some document accepted, through the whole parse |
| KeyCerts.ReissuedKeyExample | src/torquests/_client/bootstrap.py:531-554 | one authority with an older and a newer certificate, cut before the newer: rejected before, accepted after |
| Quorum.GivingUpEarlyLosesNothing | src/torquests/_client/bootstrap.py:533-540 | without certificates for a majority no document could have been accepted |
| Relays.WeightedChoice | src/torquests/_dir/pathselect.py:101-130 | a draw fails exactly when there is no candidate or one of them cannot be weighed, and otherwise yields a candidate |
| Relays.WeightKeyLetters | src/torquests/_dir/pathselect.py:50-70 | which published factor a relay is weighed by, letter by letter |
| Relays.DrawFailsMeans | src/torquests/_dir/pathselect.py:77-130 | a draw fails only for want of candidates or at a candidate whose factor is missing or scaled by zero, the first of them deciding |
| Guards.GuardManager.Create | src/torquests/_dir/guards.py:37-47 | refuses a sample size below 1 |
| Guards.GuardManager.Mark | src/torquests/_dir/guards.py:66-67 | every entry is listed exactly if the consensus lists it with all guard flags |
| Guards.GuardManager.Update | src/torquests/_dir/guards.py:49-77 | the old sample stays a prefix, nobody is sampled twice, additions are eligible and only made while short; it fails only while short and at an eligible relay, not yet sampled, that cannot be weighed |
| Guards.GuardManager.PrimaryGuards | src/torquests/_dir/guards.py:79-91 | the first listed entries that resolve, up to the sample size |
| Guards.SampleOnlyGrows | src/torquests/_dir/guards.py:49-77 | over any sequence of consensuses each sample is a prefix of every later one, without repetition |
| Guards.PrimaryAreFirstEligible | src/torquests/_dir/guards.py:79-91 | asked about the consensus it was refreshed with, the manager names the first size eligible sampled relays in sample order |
| Guards.PrimaryIff | src/torquests/_dir/guards.py:79-91 | a sampled relay is primary if and only if it is eligible and fewer than size eligible ones precede it, and their number is its place |
| Guards.ReturningGuardRegainsItsPlace | src/torquests/_dir/guards.py:49-91 | a primary guard is primary again at any later consensus that lists it, unless one sampled before it came back |
| PathSelect.PathSelector.Pick | src/torquests/_dir/pathselect.py:196-210 | a draw from exactly the relays with the flags and no conflict; fails exactly when that cannot be drawn from |
| PathSelect.PathSelector.SelectGuard | src/torquests/_dir/pathselect.py:218-234 | the first usable preferred guard, or else a draw among all usable ones |
| PathSelect.PathSelector.SelectMiddle | src/torquests/_dir/pathselect.py:236-238 | a draw among the relays usable as middle |
| PathSelect.ConflictsMeans | src/torquests/_dir/pathselect.py:155-179 | two relays conflict if and only if they share a fingerprint or the first two fields of their address, or one declares the other in its family |
| PathSelect.UsableInOrder | src/torquests/_dir/pathselect.py:196-210 | the usable relays of a list are picked out in list order |
| Paths.Directory.SelectExit | src/torquests/_client/bootstrap.py:292-308 | a draw from exactly the exits whose fetched policy allows the port; fails for a missing document that cannot be had, for no such exit, or as the draw does |
| Paths.Directory.Draw | src/torquests/_client/bootstrap.py:346-385 | whatever the random source, a drawn path is guard, middle and last, no two sharing identity, /16 or declared family, the guard with all guard flags and the first usable primary one |
| Paths.DrawnMeans | src/torquests/_client/bootstrap.py:346-385 | what a draw guarantees, said of the consensus entries: the flags of each position, the port, and pairwise no fingerprint, address prefix or declared family in common |
| Paths.Directory.InConflict | src/torquests/_client/bootstrap.py:315-322 | the nested loops find a declared family between two hops if and only if there is one |
| Paths.FamilyMeans | src/torquests/_client/bootstrap.py:310-322 | relays are in family if and only if the fetched document of one names the fingerprint of another |
| Paths.Directory.SelectFamilyDisjoint | src/torquests/_client/bootstrap.py:324-344 | at most eight draws, each of them a path, all but the last rejected for family, and the last returned regardless after eight; it fails exactly when a mirror does, or when a draw for the goal can get stuck for the reason given |
| Paths.Directory.Path | src/torquests/_client/bootstrap.py:346-434 | what is handed out describes such a path, each hop with its own address, identity and the keys of its own microdescriptor; three hops pairwise apart, family-free unless eight draws were made, and a cause for every failure |
| Paths.Directory.Describe | src/torquests/_client/bootstrap.py:278-290 | the onion key and Ed25519 identity are those of the microdescriptor that the entry names; fails exactly when there is none or it has no usable identity |
| Paths.Directory.Fetch | src/torquests/_client/bootstrap.py:257-276 | asks only if something is missing, keeps what is known and adds what arrives |
| Paths.VerdictIsFinal | src/torquests/_client/bootstrap.py:310-344 | once every hop's microdescriptor is known, later documents do not change whether the path has a family conflict |
| Netdoc.Items | src/torquests/_dir/parsers.py:53-87 | the loops yield the items of the grammar, and after them its error |
| Netdoc.PrintThenParse | src/torquests/_dir/parsers.py:53-87 | reading the printed lines of any well-formed items, with blank lines anywhere, gives back the items in order |
| Netdoc.TextRoundTrip | src/torquests/_dir/parsers.py:53-87 | the same at the level of text split at newlines |
| Netdoc.LeadingOptIsDropped | src/torquests/_dir/parsers.py:65-67 | a leading opt is dropped and the next word is the keyword |
| Netdoc.YieldedAreReadable | src/torquests/_dir/parsers.py:63-87 | every item yielded from any lines has a keyword of the grammar and whitespace-free arguments |
| NetdocLaws.AcceptedIffWritten | src/torquests/_dir/parsers.py:53-87 | a document is accepted if and only if it is written out from items and blank lines, whatever the spacing, and it then says what they mean |
| NetdocLaws.FaultIsThere | src/torquests/_dir/parsers.py:53-87 | an error means that the lines before are written out from the items yielded, and that the next ones start no item, for the reason given |
| NetdocLaws.KeywordMeans | src/torquests/_dir/parsers.py:37 | a keyword is ASCII letters, digits and dashes, and does not start with a dash |
| Microdescriptors.CutBatch | src/torquests/_dir/parsers.py:352-365 | the offset loop cuts the text as the cutting function says, with both errors |
| Microdescriptors.StartsAreLines | src/torquests/_dir/parsers.py:354-358 | the offsets found are exactly those where a line reads onion-key, in order |
| Microdescriptors.ChunksAreEntries | src/torquests/_dir/parsers.py:352-365 | the chunks concatenate to the text from its first onion-key line, only whitespace is left out, and each holds exactly one such line, at its start |
| Microdescriptors.ChunksUndoConcat | src/torquests/_dir/parsers.py:352-365 | cutting undoes writing entries one after the other, so no other cut has that property |
| MicrodescriptorFields.ParseExitPolicy | src/torquests/_dir/parsers.py:330-342 | the loop reads every range of the port list, and fails at the first that is malformed |
| MicrodescriptorFields.RangesAreInOrder | src/torquests/_dir/parsers.py:330-342 | an accepted policy has one range for each part, within 1..65535 and not empty |
| MicrodescriptorFields.PortRangeMeans | src/torquests/_dir/parsers.py:334-341 | a part is one port, or two ends around its first dash, within 1..65535 and in order |
| MicrodescriptorFields.PolicyMeans | src/torquests/_dir/models.py:33-36 | an accepting policy allows exactly the ports its list names, a rejecting one exactly the others |
| MicrodescriptorFields.SplitJoined | src/torquests/_dir/parsers.py:335 | splitting at a separator finds the parts that were joined with it |
| MicrodescriptorFields.ParseMicrodescriptor | src/torquests/_dir/parsers.py:298-327 | the item loop reads the fields, a malformed field before a later breach of the grammar, under the digest of the whole chunk |
| MicrodescriptorFields.LastOneCounts | src/torquests/_dir/parsers.py:304-318 | each field is what the last item of its kind says, and every item of a kind is well formed |
| MicrodescriptorFields.ParseMicrodescriptors | src/torquests/_dir/parsers.py:345-365 | cuts the batch and reads every chunk in order, failing at the first that fails |
| MicrodescriptorFields.DigestsCoverTheText | src/torquests/_dir/parsers.py:345-365 | the digests of an accepted batch are taken over consecutive stretches that make up the whole text from its first onion-key line |
| MicrodescriptorFields.BatchRoundTrip | src/torquests/_dir/parsers.py:298-365 | microdescriptors printed one after the other are read back as what each says alone, in order, and refused only for one that would be refused alone |
| Framing.ReadCell | src/torquests/_proto/cells.py:52-67 | pulls exactly one cell off the stream and leaves the rest |
| Framing.ReadPayload | src/torquests/_proto/cells.py:62-66 | what follows the header: a length and that many bytes, or 509; nothing more is asked for a length of zero |
| Framing.PackedLayout | src/torquests/_proto/cells.py:41-50 | a packed cell byte by byte: the width and value of the circuit id, the command, and a counted payload exactly for VERSIONS and commands from 128 on, else 509 bytes padded with zeros; packing fails exactly where a field has no room |
| Framing.ReadLayout | src/torquests/_proto/cells.py:52-67 | a cell is read exactly when all of it is there, and is what its bytes say |
| Framing.ReadAfterPack | src/torquests/_proto/cells.py:41-67 | whatever follows, reading takes exactly the packed cell, its fixed payload padded with zeros to 509 |
| Framing.PackAfterRead | src/torquests/_proto/cells.py:41-67 | packing a cell that was read gives back the bytes it was read from |
| Framing.ReadBackIffSameWidth | src/torquests/_proto/cells.py:41-67 | a packed cell is read back if and only if it is no VERSIONS cell or the link version is below 4 |
| Framing.ReadAllOfPackAll | src/torquests/_proto/cells.py:41-67 | repeated reading of concatenated cells returns them in order and uses every byte |
| CountedLists.CertsToRaw | src/torquests/_proto/cells.py:125-129 | the loop builds the encoded list, or raises for a count, type or length that does not fit |
| CountedLists.PackedLayout | src/torquests/_proto/cells.py:125-129 | a packed list byte by byte: the count, then kind, length and data of each entry where the one before ends |
| CountedLists.CertsFromRaw | src/torquests/_proto/cells.py:131-149 | the offset loop decodes the announced entries, with each truncation error |
| CountedLists.ParseBlock | src/torquests/_proto/linkspec.py:83-99 | the same for link specifiers |
| CountedLists.ListRoundTrip | src/torquests/_proto/linkspec.py:76-99 | decoding an encoded list gives it back and leaves what follows, for both widths of length |
| CountedLists.PackAfterParse | src/torquests/_proto/cells.py:125-149 | encoding a decoded list gives back a prefix of the bytes it was decoded from, up to what was ignored |

## Left out

- Cryptography (AES, SHA-1, SHA-256, SHA3, RSA, Curve25519, Ed25519, base32, base64): parameters, as said above.
- The ntor and onion-service handshakes: a hop's keys appear at the relay and then at the client; EXTEND2 and EXTENDED2 travel as ordinary cells.
- Blocking and timeouts: a wait is one look that says "wait", and a timeout a step that gives up.
- HTTP, TLS, sockets, the command line, the SOCKS server, caches on disk, DNS: input and output around the modelled engine.
- Onion addresses and descriptors, and consensus fields other than validity and signatures: decoding without a harder property. `Quorum` takes the parsed consensus from a parameter, and `KeyCerts` what its regular expressions find.
- NETINFO, VERSIONS, CREATE2 and CREATED2 bodies, and `Channel._dispatch`: fixed layouts and a dictionary lookup.
- `LiveDirectory.set_dir_tunnel`: it bypasses the tunnel registry. `path_ending_at`: its last hop comes from a descriptor and is not compared with the others.
- Circuits isolated to one request: they are built and closed outside the pool; `UnregisterStream` says when one should close.
- CircuitFlow.HonestAcksAccepted: the acknowledged DATA runs between the client and the last hop, on a circuit that is already built; the code always replies to the last hop.
- CircuitFlow.WindowConserved: equality is claimed while the circuit lives and no acknowledgement was rejected; afterwards only the inequality holds.
- StreamFlow.DrainedMeansOpen: only for full cells, because credit counts bytes and the window counts cells; stream acknowledgements carry no digest, so the peer is honest throughout `StreamFlow`.
- StreamBytes.BytesEndToEnd: a stream sends no more once its id is given to another, 65535 allocations later (`Circuits.StreamIdsDistinct`).
- StreamArrivals.ArrivesEndToEnd: DATA comes from one hop, since a circuit does not look at the origin of a cell for a stream; no control waiter is armed for DATA.
- Streams.Stream.Open: no other thread closes the stream before its opening has returned.
- Streams.Stream.Send: another thread closing the stream while it runs appears as the closing of its window, not as a change of the closed flag.
- Teardown.ShutDownTellsAll: the reason a registration is told (the error value) is not modelled.
- TunnelRegistry.NoDeadActiveTunnel: a client installs at most one tunnel, as bootstrap does; whether the tunnel's circuit has died of itself is not tracked.
- Quorum.TruncationNeverHelps: an authority that loses its certificate must have no key of its own to fall back to, as in the built-in list.
- KeyCerts.ParseKeyCertificates: takes the text already split at its certificate marker.
- Quorum.QuorumIntersection: the authority list is the same for both documents, and may name an identity twice.
- Relays.WeightedChoice: probabilities are left out; floating-point weights decide only which candidate is drawn, and every candidate may be.
- Guards.PrimaryAreFirstEligible: that each returned relay carries the flags needs distinct fingerprints in the consensus.
- Paths.Directory.Path: microdescriptors are fetched in one request instead of batches and worker threads, and a mirror may answer with anything.
- Paths.Directory.Draw: declared families known to the selector are those resolved into the consensus entries; those fetched later are what the redraw loop looks at. `$HEXID` spelling is already normalized.
- HsDirTheorems.WalkRefinesRing: identities at distinct ring positions, which a hash gives except by collision.
- Netdoc.TextRoundTrip: an item is printed with single spaces and its object's lines as given.
- MicrodescriptorFields.BatchRoundTrip: base64, integers and SHA-256 are parameters, so keys and ports are not printed.
