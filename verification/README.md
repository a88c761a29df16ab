# printcap, modelled and proved

printcap is a print-job capture server: it plays a printer on every protocol it can (raw, LPD, IPP, SMB with spoolss), answers
SNMP and mDNS like one, reassembles print jobs from captured traffic, and forwards what it captured. Almost all of its wire
formats and several small protocols are written by hand. This project models that logic in Dafny and proves what it is for.

`dafny verify dfyconfig.toml` checks everything, within Dafny's default limits. Each subsystem has a specification on values, the
code in its own imperative form proved equal to it (classes, loops and buffers where the source has them), and the laws:

- **TCP reassembly** (`FlowSpec`, `ReassemblySafety`, `ReassemblyOrder`, `ReassemblyLoss`, `Reassembler`). For segments of one
  stream in any order, with overlap, repetition and wrap-around, what has been assembled is after every segment exactly the
  stream up to the next expected octet and the cap. For the pieces of a partition the state is a function of the set that
  arrived. For segments cut and repeated in any way nothing that arrived is lost exactly while every segment meets a guard on the
  state it finds; a waiting stretch replaced by a shorter one, or overlapped by the one before it, does not, and is lost without
  a sign. A SYN in mid-flow and a SYN with data have their exact conditions. Every flow is live or emitted once.
- **Durable retry queue** (`RetryQueue`, `RetryQueueSafety`, `RetryQueueBound`, `SpoolStore`). A protocol over a directory in
  which the process may crash between any two filesystem calls: payloads survive, metadata never lacks its payload, failed sends
  are bounded by max_attempts plus one per crash, successful ones by one plus one per crash, and both bounds are attained. The
  store and its worker, call by call, are runs of that protocol.
- **DCERPC and spoolss** (`Ndr`, `Spoolss`, `Dcerpc`, `SpoolCapture`, `SpoolSession`). However calls are cut into fragments, and
  whatever is bound, called or sent besides, a session captures exactly its documents, and memory stays bounded.
- **SNMP** (`Ber`, `SnmpAgent`, `SnmpBulk`, `Grid`, `SnmpWire`, `Snmpv3`). BER round trips with exact conditions, OID order, binary
  search, the walk as the part of the MIB above its start, GetBulk as chained GetNext, and the MAC stamped into an encoded
  message. GetBulk answers row after row; when that is what section 4.2.3 of RFC 3416 permits has its exact condition.
- **LPR and LPD** (`Lpr`, `Lpd`, `LprLpd`, `LprSystem`). The server as an octet machine that the handler refines; client and
  server as two processes over byte channels with a time limit each: no deadlock, bounded runs, what is saved for every moment
  the deadline may strike, and exactly one delivered job when it does not. An empty document is reported as failed and saved as
  one octet.
- **SMB** (`SmbFrame`, `SmbSign`, `SmbNegotiate`, `SmbAuth`, `SmbTree`, `SmbCapture`, `SmbConn`, `SmbTranscript`, `SmbServer`,
  `SmbPrinting`). The two NEGOTIATE parsers agree with each other and with what the client reads; until first authentication the
  preauth hash is the client's fold over the exchanges, and the keys follow from it, and afterwards exactly while signing
  changes no challenge; handles do not interfere; what is printed to the pipe or the print share is captured whole.
- **IPP and chunked HTTP** (`Ipp`, `Carve`, `Interception`), **DNS** (`Dns`, `Mdns`), **capture files** (`Pcap`), **live ring** (`Live`).
  Round trips, and prefix laws that hold for every input, malformed or not; and a print job recovered from the packets of its
  connection.

Where the code and its own words disagree, the model follows the code:

- `dnsmsg.go:67-69` says that backward pointers make the offset strictly decrease. They do not (a label followed by a pointer to
  it is read for ever); the step counter is what ends the loop. `Dns.BackwardPointersCanLoop` has the four octets.
- `pcapread.go:29` and `live.go:65-67` promise more than is done: reading stops as "truncated" also when the file holds exactly
  the maximum, and records cut off by a limit are not counted as dropped.
- `smb_crypto.go:14-15` says that encryption is off when CCM was negotiated; the connection driver never looks at the cipher.
- `smb_session.go:274-277` and `smb_session.go:303-307` say that the legs fold messages into the hash; the driver does.
- `smb_tree.go:102-105` and `smb_tree.go:178-180` mention only the pipe share; the print share is accepted as well.
- `smb.go:170-172` says that SESSION_SETUP responses are never encrypted; one that repeats authentication is, when its request
  was.
- `smb.go:146-149` says that the response is folded as it goes over the wire; in a session that signs it is signed after that
  (`SmbConn.ReauthenticationFoldsOtherBytes`).
- `smb_frame.go:132-134` speaks of 16 MiB messages; the reader takes 1 MiB.

## Model

| member | source | states |
|---|---|---|
| ReassemblySafety.SeqAfterIsOffsetOrder | reassembly.go:66-66 | within 2^31 octets the wrap-around comparison is the order of positions in the stream, in both directions |
| ReassemblySafety.AppendTracks | reassembly.go:137-151 | appending the next octets of the stream keeps "buf is the first maxFlow octets of what was sequenced" and the exactness of overflow |
| ReassemblySafety.DrainTracks | reassembly.go:155-164 | draining keeps the same, never goes back, and leaves nothing waiting under the next expected number |
| ReassemblySafety.IntegrateTracks | reassembly.go:107-133 | integrating any stretch of the stream, early, late, overlapping or repeated, keeps buf exact and sets overflow exactly for a cut or a refusal |
| ReassemblySafety.RunTracks | reassembly.go:66-164 | safety over every run (section 3.4 of RFC 9293): any order, overlap, duplication and wrap; after each segment buf is exactly the stream from the base to next, up to maxFlow, and overflow is exact |
| ReassemblySafety.LateSynExact | reassembly.go:87-90 | a SYN in mid-flow keeps the buffer a stretch of the stream if and only if nothing has been stored yet |
| ReassemblySafety.SynWithDataExact | reassembly.go:87-97 | a SYN that carries data gives the stream if and only if every stored octet equals the one before it: the first octet is lost |
| ReassemblySafety.CapIsAView | reassembly.go:107-164 | for every run of segments, whatever they carry: the cap hides the end of what was sequenced and changes nothing else, and overflow is set exactly when more than the cap was sequenced or a future segment was refused |
| ReassemblySafety.RunIsBounded | reassembly.go:64-148 | whatever arrives, at most 2048 segments wait and at most maxFlow octets are stored |
| ReassemblyOrder.KeyOrder | reassembly.go:66-66 | the sequence numbers of the pieces of a partition are distinct and ordered on the wire as in the stream |
| ReassemblyOrder.AcceptPiece | reassembly.go:107-164 | one more piece, new or repeated, early or late, leaves the state that depends only on which pieces have arrived |
| ReassemblyOrder.RunIsCanonical | reassembly.go:69-164 | after any arrival order with any duplicates the whole flow state is a function of the set of pieces that arrived |
| ReassemblyOrder.OrderIsIrrelevant | reassembly.go:69-164 | two arrival orders of the same pieces end in equal flow states |
| ReassemblyOrder.NextNeverWaits | reassembly.go:155-164 | the next expected number is never a pending key |
| ReassemblyOrder.AllArrivedIsComplete | reassembly.go:107-164 | once every piece from the base on has arrived buf is the stream up to the cap, nothing waits, and overflow says whether the cap bit |
| ReassemblyLoss.StepAgrees | reassembly.go:107-164 | one data segment, from any state that tracks the stream: all that was held and all it brings is held afterwards if and only if it meets a guard on the state it finds: refused, it brings nothing that does not wait already; replacing a waiting stretch by a shorter one, it drops nothing that does not wait elsewhere; advancing, it leaves nothing behind that only stretches starting before the new next position have |
| ReassemblyLoss.NothingIsLost | reassembly.go:69-164 | over every run of carried segments, in any order, cut and repeated in any way, with or without SYN, under any cap: at every point all octets that arrived are assembled or still wait where they can be taken up, if and only if every segment meets that guard in the state it finds |
| ReassemblyLoss.HeldIsComplete | reassembly.go:69-164 | when every octet from the base on has arrived: the stream is assembled to its end (and buf is all of it up to the cap, with overflow exact) if and only if nothing of what arrived is lost at the end |
| ReassemblyLoss.KeptIsComplete | reassembly.go:69-164 | so behind a SYN, with every octet arrived and the guard met at every step, buf is the stream up to the cap |
| ReassemblyLoss.InOrderKeeps | reassembly.go:107-164 | if no segment overtakes, the guard is met however retransmissions are cut, and nothing ever waits |
| ReassemblyLoss.PiecesKeep | reassembly.go:107-164 | the pieces of one partition, in any order and any number of times, meet it if there is room |
| ReassemblyLoss.ShorterResendLoses | reassembly.go:111-121 | an input that fails: a waiting stretch replaced by a shorter one from the same position; what the longer one brought beyond is gone, nothing waits and overflow is not set |
| ReassemblyLoss.OverlapExact | reassembly.go:107-164 | another one: a waiting stretch that overlaps the one that closes the gap before it is stranded in the queue, unless they meet exactly or it brings nothing new |
| Reassembler.StreamReassembler.AppendInOrder | reassembly.go:137-151 | in place: the flow object goes to the specified flow |
| Reassembler.StreamReassembler.DrainPending | reassembly.go:155-164 | in place: the loop over the pending map reaches the specified flow |
| Reassembler.StreamReassembler.Integrate | reassembly.go:107-133 | in place: the three branches reach the specified flow |
| Reassembler.StreamReassembler.Complete | reassembly.go:167-176 | emits the flow of a key once and removes it; every flow ever created stays either live or emitted once |
| Reassembler.StreamReassembler.SweepIdle | reassembly.go:180-192 | removes and emits exactly the idle flows and touches no other |
| Reassembler.StreamReassembler.Flush | reassembly.go:196-203 | leaves no live flow; every flow ever created has been emitted exactly once |
| Reassembler.StreamReassembler.Consume | reassembly.go:69-103 | one segment reaches exactly the flow of its key, creating it if need be; FIN, RST and idleness emit; conservation of flows holds throughout |
| Reassembler.OwnedFlowIsExact | reassembly.go:69-203 | every flow the table ever owned, live or emitted, holds exactly its stretch of its sender's stream, and overflow is exact |
| Reassembler.OwnedFlowIsCapped | reassembly.go:69-203 | the same for every flow the table ever owned, whatever it was fed |
| Interception.PrintConnectionIsCarved | carve.go:63-92 | end to end: the segments of a print connection in any order, cut and repeated in any way under which each meets the guard of ReassemblyLoss.NothingIsLost, carve to the whole document once every octet has arrived, under any chunking of the HTTP body |
| Interception.PrintConnectionInPieces | carve.go:63-92 | in particular the pieces of one partition, in any order and each any number of times, if there is room for what waits |
| RetryQueueSafety.StepKeeps | fwd_spool.go:54-113 | every step of the queue, a crash between any two filesystem calls included, keeps the invariant of every item |
| RetryQueueSafety.RunKeeps | forward.go:84-323 | the invariant holds at every point of every run from an empty queue |
| RetryQueueSafety.MetadataHasPayload | fwd_spool.go:51-69 | at every point of every run an active metadata file has its payload beside it and is whole |
| RetryQueueSafety.StoredPayloadSurvives | fwd_spool.go:54-113 | after put has succeeded the payload is on disk, in the queue or in dead/, until a send succeeds; it is given up only after max_attempts failures or past its deadline |
| RetryQueueSafety.SendsAreBounded | forward.go:243-323 | with k crashes an item sees at most max_attempts + k failed and 1 + k successful sends |
| RetryQueueSafety.RestartRecovers | forward.go:84-101 | a restart resumes every stored item that is neither delivered nor given up and whose target is configured, with the payload that was stored |
| RetryQueueSafety.SendsWhatWasStored | forward.go:265-323 | every send carries the payload that put stored, and none is made before it is due |
| RetryQueueSafety.WorkersTerminate | forward.go:265-323 | every step of a worker lowers a measure of attempts left and phase, whatever the sends return |
| RetryQueueBound.LedgerIsExact | forward.go:265-323 | after any run the history holds exactly the failed and successful sends among its steps, and its crashes |
| RetryQueueBound.SendsOfARunAreBounded | forward.go:243-323 | among the steps of any run with k crashes an item sees at most max_attempts + k failed and 1 + k successful sends |
| RetryQueueBound.BoundIsAttained | forward.go:84-101 | for every limit and every k there is a run from the empty queue with k crashes and exactly max_attempts + k failed sends of one item |
| RetryQueueBound.RepeatsAreAttained | forward.go:84-101 | and for every k one with k crashes and exactly 1 + k successful sends of one item |
| SpoolStore.Store.WriteFileAtomic | fwd_spool.go:164-190 | the target is replaced whole by the last of three calls |
| SpoolStore.Store.Put | fwd_spool.go:54-69 | payload first, metadata second, with every directory passed through |
| SpoolStore.Store.Update | fwd_spool.go:72-82 | rewrites the metadata in one atomic write |
| SpoolStore.Store.RemoveItem | fwd_spool.go:85-95 | metadata first, payload second, and a missing file is no error |
| SpoolStore.Store.DeadLetter | fwd_spool.go:99-113 | both files move to dead/, metadata first |
| SpoolStore.Store.Load | fwd_spool.go:117-155 | returns the metadata of every item with a readable metadata file and a payload, and of no other |
| SpoolStore.Store.Retry | forward.go:289-323 | the loop of the worker: what it does is a run of the protocol of this item's Wake, Send, Expire, Quit and file steps, and the directories it passes through are those of that run |
| SpoolStore.Store.RetryLoopPersisted | forward.go:265-323 | from any state of the queue in which the item has a worker about to start: what the worker does is an enabled run of the protocol, of its own steps only, and the directories it passes through are those after the run's file steps, in order; at most the attempts left are made, and the item ends delivered, in dead/ for one of three reasons, or left with its attempts recorded |
| SpoolStore.PutRuns | fwd_spool.go:54-69 | put is a run of the protocol: Enqueue and six file steps, through the directories that Put passes through |
| SpoolStore.WriteReached | fwd_spool.go:164-190 | the three calls of an atomic write are the next three file steps of a worker about to write |
| SpoolStore.EndReached | fwd_spool.go:85-113 | the two calls that end an item are the file steps of a worker that removes or buries it |
| SpoolStore.EveryDirectoryHoldsThePayload | fwd_spool.go:54-113 | every directory that such a run passes through, so whatever a crash between two calls leaves, holds the payload of a stored item that has not been delivered |
| Ndr.StringRoundTrip | spoolss.go:98-135 | an NDR string is read back with its code units, and the cursor stands right behind its padding |
| Ndr.Reader.NdrString | spoolss.go:98-135 | the moving cursor reads what the specification reads at its position, with the same failures |
| Ndr.Reader.Take | spoolss.go:76-83 | a read past the end fails and leaves the cursor where it was |
| Ndr.Reader.Align | spoolss.go:86-92 | the cursor goes to the aligned offset, or to the end when that is missing |
| Spoolss.Dispatcher.Call | spoolss.go:142-211 | one opnum takes the print-job state machine to the specified state and answer, faults included |
| Spoolss.StartDocName | spoolss.go:218-267 | the walk over the deferred pointers finds the document name the specification finds |
| Spoolss.WriteData | spoolss.go:273-297 | the data of WritePrinter, clipped by cbBuf when it is present and smaller |
| Dcerpc.Backend.Request | dcerpc.go:146-204 | the fields of the reassembly go to the specified state, with the specified response or fault |
| Dcerpc.Backend.Write | dcerpc.go:83-98 | one written PDU takes the pipe to the specified state and answer |
| SpoolCapture.HeaderRoundTrip | dcerpc.go:102-119 | a built PDU parses to its type, flags, call id and body |
| SpoolCapture.CallArrives | dcerpc.go:146-204 | a call of at most 4 MiB cut into fragments in any way is dispatched once, on its last fragment, with its whole stub, whatever was pending before |
| SpoolCapture.OrphansAreIgnored | dcerpc.go:173-178 | fragments without a first one change nothing |
| SpoolCapture.OversizeCallIsDropped | dcerpc.go:179-184 | a call of more than 4 MiB never reaches the dispatcher and leaves the reassembly idle |
| SpoolCapture.SessionIsItsCalls | dcerpc.go:83-204 | after a session the print-job state is that of its calls, however each was cut |
| SpoolCapture.AppendCappedIsFirstBytes | limits.go:59-70 | appending under the cap to the first cap octets gives the first cap octets of the whole |
| SpoolCapture.BracketCapturesOneJob | spoolss.go:142-211 | StartDoc, other calls, EndDoc: exactly one job, with the name of StartDoc and the first cap octets of what WritePrinter carried |
| SpoolCapture.FragmentedDocumentIsCaptured | dcerpc.go:146-204 | end to end: any fragmentation of such a bracket adds exactly that job |
| SpoolCapture.WriteRoundTrip | spoolss.go:273-297 | a WritePrinter stub gives its data: cut down to cbBuf when that is there in full and smaller than the array, whole when it is absent or larger, whatever follows |
| SpoolCapture.StartDocRoundTrip | spoolss.go:218-267 | a well-formed StartDoc stub gives its document name, whichever of its pointers are null (that to the structure, and those to the name, the file and the datatype), and whatever follows it |
| SpoolCapture.ResponseMatchesCall | dcerpc.go:281-290 | a response parses as a PDU under the call id of its request |
| SpoolCapture.MemoryIsBounded | dcerpc.go:166-184 | the reassembly buffer never exceeds 4 MiB when no PDU exceeds 1 MiB |
| SpoolSession.OnlyRequestsCount | dcerpc.go:83-98 | BINDs and PDUs of other types, anywhere, even inside a fragmented call, do not touch reassembly or print job |
| SpoolSession.SessionCapturesItsDocuments | spoolss.go:142-211 | from any state and for any calls: the jobs captured are the documents of the session, in order, read off the calls alone |
| SpoolSession.ConnectionCapturesItsDocuments | dcerpc.go:83-204 | the same from the wire, for any PDUs whose requests are calls cut into fragments in any way |
| SpoolSession.OneDocument | spoolss.go:142-211 | a client's session of OpenPrinter, one bracket and ClosePrinter, among other calls, has exactly the one document |
| Ber.TlvRoundTrip | snmp.go:371-416 | reading an encoded element, wherever it stands, gives its tag, its content and its exact end (section 8.1.3 of X.690) |
| Ber.EncodeLength | snmp.go:377-387 | the loop builds the specified length octets |
| Ber.ParseElement | snmp.go:389-416 | the reader agrees with the specified one on every input, malformed or not |
| Ber.IntRoundTrip | snmp.go:418-474 | every 64-bit integer is read back, and its encoding has no redundant leading octet (section 8.3.2 of X.690) |
| Ber.EncodeInt | snmp.go:418-435 | the loop that drops sign octets gives the specified content |
| Ber.ParseInt | snmp.go:462-474 | the decoding loop wraps as 64-bit arithmetic does |
| Ber.EncodeArc | snmp.go:487-500 | the loops over digits and continuation bits give the specified base-128 octets, none for a negative arc |
| Ber.ArcRoundTrip | snmp.go:487-500 | a base-128 arc is decoded to itself, and what follows it is untouched |
| Ber.OidRoundTrip | snmp.go:476-516 | an OID is decoded to itself if and only if it has two arcs, none is negative, the second is below 40 and the first octet holds both (section 8.19 of X.690) |
| Ber.ParseOid | snmp.go:502-516 | the decoding loop agrees with the specified one on every input |
| Snmpv3.MessageRoundTrip | snmpv3.go:344-478 | a built message parses to itself, with the position of its authentication parameters, if and only if its payload is encrypted or is one element that is not tagged OCTET STRING (section 6 of RFC 3412) |
| Snmpv3.UsmRoundTrip | snmpv3.go:442-478 | the security parameters are read back, with the exact place of the authentication field |
| Snmpv3.StampIsRebuild | snmpv3.go:218-279 | writing another MAC of the same length into the encoded message is the message rebuilt with that MAC |
| Snmpv3.SignedMessageVerifies | snmpv3.go:158-178 | stamping changes no other parsed field, and verifyAuth accepts under the same key if and only if the stamp is the MAC of the zeroed message (section 6.3 of RFC 3414) |
| Snmpv3.Assemble | snmpv3.go:218-279 | in place on the encoded octets: the assembled response is the rebuilt message, parses, and verifies |
| Snmpv3.ClearAuth | snmpv3.go:158-168 | exactly the authentication octets are zeroed in a copy |
| Snmpv3.ScopedRoundTrip | snmpv3.go:182-207 | the inner PDU is served unchanged and the answer is scoped to the context that asked |
| SnmpAgent.CompareIsAntisymmetric | snmp.go:530-546 | compareOID is antisymmetric, and 0 exactly on equal OIDs |
| SnmpAgent.CompareIsTransitive | snmp.go:530-546 | compareOID is transitive: with antisymmetry, a total order |
| SnmpAgent.CompareOid | snmp.go:530-546 | the loop computes that order |
| SnmpAgent.BuiltMibIsSorted | snmp.go:51-103 | the MIB as built is strictly increasing, which the binary searches rely on |
| SnmpAgent.Search | snmp.go:340-356 | binary search finds the boundary between entries below and at or above the OID |
| SnmpAgent.FindExact | snmp.go:340-346 | an entry is found if and only if it is in the MIB |
| SnmpAgent.FindNext | snmp.go:350-356 | the least entry above the OID, if there is one |
| SnmpAgent.WalkIsAllAbove | snmp.go:266-276 | chained GetNext yields exactly the entries above the start, each once, in increasing order, and ends |
| SnmpAgent.WalkedEntries | snmp.go:266-276 | an entry is walked if and only if it is above the start |
| SnmpAgent.BulkRowIsChainedGetNext | snmp.go:277-301 | every varbind of a repetition is the GetNext answer to the one before it, cut at max-repetitions or at the first endOfMibView (section 4.2.3 of RFC 3416) |
| SnmpAgent.Repeat | snmp.go:290-300 | the repetition loop gives the specified row |
| SnmpAgent.ServeGet | snmp.go:249-265 | v1 and v2 Get: values or the error of the first missing OID, with its index |
| SnmpAgent.ServeGetNext | snmp.go:266-276 | v1 and v2 GetNext: the answers in order, or noSuchName at the first OID past the end (section 4.2.2 of RFC 3416) |
| SnmpAgent.ServeGetBulk | snmp.go:277-301 | non-repeaters once each, the others as rows, both counts clamped |
| SnmpBulk.RowsAt | snmp.go:290-300 | where the code puts the j-th successor of the i-th repeater: row after row |
| SnmpBulk.RepetitionsAt | snmp.go:290-300 | where section 4.2.3 of RFC 3416 has it: repetition after repetition, with endOfMibView repeated under the last name |
| SnmpBulk.BulkIsRowAfterRow | snmp.go:277-301 | for every MIB and every request: the answer is a list that section 4.2.3 of RFC 3416 permits, with its padding and its early end, if and only if there is at most one repeater, or no row has more than one varbind, or all rows have one length m, the number of repeaters is a power of m, and the i-th starts as many entries behind the first as the digits of i to base m add up to |
| SnmpWire.ReadOids | snmp.go:213-229 | the loop over the variable bindings collects the specified OIDs on every input |
| SnmpWire.VarbindsRoundTrip | snmp.go:358-367 | the agent recovers the OIDs of an encoded list and the manager its varbinds |
| SnmpWire.RequestRoundTrip | snmp.go:195-229 | the agent reads of an encoded request its id, its two numbers and its OIDs |
| SnmpWire.ResponseRoundTrip | snmp.go:306-316 | the manager reads of a response the id, the error fields and the varbinds |
| SnmpWire.ServePdu | snmp.go:195-316 | octets in, octets out, in every version: an unreadable or unknown PDU is not answered, any other with the results of Get, GetNext or GetBulk for the OIDs read |
| SnmpWire.WalkStep | snmp.go:195-316 | one GetNext through the wire formats, in either version, is one step of the walk or its end |
| SnmpWire.WalkOverWire | snmp.go:195-316 | a whole walk over encoded PDUs, under any request ids and in either version: the manager decodes the entries above its start, each once, in increasing order, and stops |
| Lpd.ParseControlFile | lpd.go:209-228 | the loop over lines gives the specified job fields |
| Lpd.FeedSplits | lpd.go:30-132 | feeding octets in two parts is feeding them at once: the server does not depend on how input is cut |
| Lpd.ControlWhole | lpd.go:78-87 | a control-file sub-command with its line, file and terminator, or whatever of it arrives before the end, in terms of what the reader returns |
| Lpd.DataWhole | lpd.go:88-110 | the same for a data file: taken whole, clipped at the cap and saved, or cut off by the end of the input |
| Lpd.Conn.ReadLine | lpd.go:187-193 | through the first newline, or to the end |
| Lpd.Conn.ReadChunk | lpd.go:164-181 | count octets but no more than the cap; everything for no count; and whether the cap clipped |
| Lpd.HandleLpd | lpd.go:30-132 | the handler saves, for every input whatever, what the octet machine saves, and gives at least the machine's answers, in order |
| Lpd.AtMostOneJob | lpd.go:50-132 | whatever a client sends, one conversation saves at most one job, and none before it is over |
| Lpr.Link.Send | fwd_lpr.go:14-56 | nil exactly after five acknowledgements; on any other answer exactly the segments up to the refused one have been written |
| Lpr.Link.SendFile | fwd_lpr.go:58-72 | header, acknowledgement, body and terminator, acknowledgement |
| LprLpd.CountRead | lpd.go:196-204 | the count of a header line is read back whatever name follows it |
| LprLpd.ControlRead | lpd.go:209-228 | the server reads from the client's control file its host, user and job name, but for CRs at their ends |
| LprLpd.CrFree | lpd.go:214-214 | a name is kept if and only if it does not end in CR |
| LprLpd.SegmentWorks | fwd_lpr.go:14-72 | after each segment the server is where the next one expects it, and it answers with one acknowledgement at the last octet and with nothing before |
| LprLpd.OversizeControlIsLost | lpd.go:78-87 | a control file beyond 1 MiB ends the conversation in its own text if and only if the octet behind the one taken for its terminator is no sub-command; then nothing is saved, whatever follows |
| LprLpd.OversizeDataIsClipped | lpd.go:92-106 | a document beyond the cap: exactly its first cap octets are saved, under the names sent |
| LprLpd.EmptyDocument | lpd.go:88-110 | an empty document, announced with count 0, is read to the end of the input: the terminator is taken as data, and answered only when a cap of one octet ends it |
| LprLpd.ServerSaves | lpd.go:50-132 | for documents and control files of any size: nothing is saved if the control file is beyond the limit (and ends the conversation there), else exactly one job with the document up to the cap and the names sent; an empty document becomes the one octet that was to end it |
| LprSystem.AnswerMeansAll | fwd_lpr.go:74-83 | an answer is under way if and only if the server has taken the whole segment, for every segment that is answered |
| LprSystem.StepKeeps | fwd_lpr.go:14-83 | every write, read, answer and close, and either end's time limit, in any order, keeps the two-process invariant; send fails by the deadline only |
| LprSystem.StepProgresses | lpd.go:69-114 | every step lowers a measure fixed at the start |
| LprSystem.NoDeadlock | fwd_lpr.go:14-83 | until both sides are done some step can be taken, and one that is no time limit unless they wait for each other after an empty document |
| LprSystem.CutBeforeDocument | lpd.go:50-132 | a conversation that breaks off anywhere before the document saves nothing |
| LprSystem.CutInDocument | lpd.go:88-131 | one that breaks off inside the document saves exactly what has arrived of it, if anything |
| LprSystem.EveryOutcome | fwd_lpr.go:14-83 | every run, whenever the client's deadline strikes, is bounded and never stuck; when it is over, nil means the whole document was saved, and an error means exactly the octets that had arrived were, or nothing |
| LprSystem.Delivery | fwd_lpr.go:14-83 | when the deadline leaves everything that can happen the time to happen: exactly one job with the whole document and the names sent is saved, and send returns nil if and only if the document is not empty, or the cap is one octet, or the server's time limit ran out first (sections 5.2, 6.2 and 6.3 of RFC 1179) |
| LprSystem.EmptyDocumentFails | fwd_lpr.go:28-29 | an empty document: unless the server's time limit comes first every complete run ends with send failed, and the terminator saved as a job of one octet unless the deadline came before it was read |
| SmbFrame.HeaderRoundTrip | smb_frame.go:67-107 | an encoded header parses to itself in front of any body |
| SmbFrame.PatchedHeader | smb.go:191-222 | the rewrite sets message id, credits, response flag and session id and keeps every other field and the body |
| SmbFrame.PatchResponseHeader | smb.go:191-222 | in place on the response buffer: exactly that rewrite, and nothing on a short buffer |
| SmbFrame.FrameRoundTrip | smb_frame.go:114-154 | a written frame is read back, with the stream left behind it, if and only if it is within the reader's 1 MiB |
| SmbSign.SignedVerifies | smb_crypto.go:31-67 | a signed message verifies under the same key and differs from the unsigned one in the flag and the signature only |
| SmbNegotiate.HighestMutual | smb_negotiate.go:189-199 | the choice is the highest dialect both sides support; none if and only if there is none |
| SmbNegotiate.OrderIsIrrelevant | smb_negotiate.go:189-199 | neither order nor repetition in the offer matters |
| SmbNegotiate.Select | smb_negotiate.go:189-199 | the two loops find that choice |
| SmbNegotiate.ParseRequestContexts | smb_negotiate.go:204-266 | for every list, well formed or not: GCM if any context offers it, else CCM if any does, else GCM; and the last preauth context |
| SmbNegotiate.ContextsRoundTrip | smb_negotiate.go:296-307 | the walk both parsers make finds exactly the appended contexts, in order, on their 8-octet boundaries |
| SmbNegotiate.OfferIsHeard | smb_negotiate.go:204-266 | a request whose offset and count fields describe its list is heard as it was meant |
| SmbNegotiate.HandleNegotiate | smb_negotiate.go:86-145 | accepts exactly the requests that have parameters, and answers with them |
| SmbNegotiate.HandleNegotiateResult | smb_negotiate.go:151-185 | accepts the same requests and returns the same parameters |
| SmbNegotiate.AcceptedIsHighest | smb_negotiate.go:86-185 | accepted if and only if well formed with a supported dialect on offer; the dialect is then the highest mutual one |
| SmbNegotiate.NegotiatedContexts | smb_negotiate.go:365-419 | for every response: the last hash and cipher of its list, found if and only if both are there |
| SmbNegotiate.ResponseAgrees | smb_negotiate.go:314-419 | the client reads the chosen dialect, and exactly for 3.1.1 SHA-512 and the cipher the server itself goes on with (section 2.2.4 of [MS-SMB2]) |
| SmbAuth.TokenIsFound | smb_session.go:134-140 | an NTLM token is found inside whatever wraps it, if its signature does not occur earlier |
| SmbAuth.LegOutcome | smb_session.go:246-365 | the response carries the returned status; a successful leg has its keys from the hash it was given; a failed one changes nothing but the challenge |
| SmbConn.ClientHashNext | smb_session.go:121-126 | how one more exchange, as the client wrote and reads it, moves the hash the client computes |
| SmbConn.NegotiateKeeps | smb.go:71-153 | a new session's hash covers the NEGOTIATE exchange as it was sent |
| SmbConn.SetUpKeeps | smb.go:81-161 | a SESSION_SETUP keeps the hash equal to the client's, or authenticates with keys from the client's hash with this request included |
| SmbConn.TranscriptInvariant | smb.go:24-183 | after any frames whatever: until first authentication the hash is the client's fold of the exchanges and the session owns no tree, file or job; the keys it then gets follow from the session key and that fold (sections 3.3.5.4 and 3.3.5.5 of [MS-SMB2]) |
| SmbConn.TreeCommandsNeedAuthentication | smb.go:91-130 | before authentication a command on trees or files ends the connection and changes nothing |
| SmbConn.ReauthenticationFoldsOtherBytes | smb.go:154-166 | an input beyond the limit of the law: a further unsigned first leg in a signing session, encrypted or not, folds a response that is not the one the client reads |
| SmbTranscript.BareIsRead | smb.go:162-166 | what the client reads is the response that was folded if and only if signing does not change it: it is not to be signed, or its MAC is the empty signature it carries under the flag already; its status is the same in any case |
| SmbTranscript.StepAgrees | smb.go:147-178 | from any state, encrypted or not: one frame keeps what the server folds equal to what the client folds if and only if it is no first leg, or one whose challenge signing does not change |
| SmbTranscript.AgreementIsHearing | smb.go:24-183 | over whole runs, before and after authentication: both fold the same messages at every point if and only if every first leg meets that condition in the state it finds |
| SmbTranscript.HashLaw | smb.go:24-183 | in such runs a session's hash is at any time the client's, and every success, the first or a later one, gives it the keys of that hash with the request included |
| SmbServer.SmbSession.FinishGuestSession | smb_session.go:353-365 | in place: a guest session with the zero key, never signing |
| SmbServer.SmbSession.HandleLeg1 | smb_session.go:278-301 | in place: only the challenge changes |
| SmbServer.SmbSession.HandleLeg2 | smb_session.go:308-349 | in place: verified user, guest or refusal, as specified |
| SmbServer.SmbSession.HandleSessionSetup | smb_session.go:246-272 | in place: the branch that the token in the request selects |
| SmbServer.SmbSession.HandleTreeConnect | smb_tree.go:106-176 | in place on trees, print trees and the id counter |
| SmbServer.SmbSession.HandleCreate | smb_tree.go:181-250 | in place on the handles |
| SmbServer.SmbSession.HandleWrite | smb_tree.go:267-320 | in place on the written handle |
| SmbServer.SmbSession.HandleRead | smb_tree.go:326-373 | in place on the read handle |
| SmbServer.SmbSession.HandleClose | smb_tree.go:378-422 | in place: the handle goes, a written spool file becomes a job |
| SmbServer.SmbSession.HandleTreeDisconnect | smb_tree.go:445-457 | in place: the tree and its print mark go |
| SmbServer.SmbConnection.HandleFrame | smb.go:36-182 | one turn of the connection loop is one step of the connection machine, for every frame |
| SmbServer.SmbConnection.HandleNext | smb.go:24-183 | the object's invariant: it is where the run of the connection machine over all frames handled so far leads |
| SmbServer.ConnectionFollowsTranscript | smb.go:24-183 | whatever frames the object has handled: until first authentication its session's hash is the client's fold of the exchanges, and it owns no tree, file or job |
| SmbServer.ConnectionKeysBound | smb.go:81-161 | the frame that authenticates its session gives it the keys of the session key and that fold |
| SmbTree.HandleIsItsUses | smb_tree.go:254-373 | an open handle is what its own writes and reads make of it: nothing done to other handles, trees or sessions touches it |
| SmbTree.StepAgrees | smb_tree.go:106-176 | one request keeps "spool files can be opened exactly on the connected trees of the print share" if and only if it is not a connection to the pipe share whose id marks a print tree |
| SmbTree.PrintTreesAreShares | smb_tree.go:131-157 | over whole runs, whatever ids wrap: that holds at every point if and only if every connection meets the guard in the state it finds |
| SmbTree.FewConnectsKeepMarks | smb_tree.go:140-157 | fewer than 2^32 connections always meet it |
| SmbTree.WrappedIdKeepsPrinting | smb_tree.go:140-157 | the input that fails: after the wrap a pipe tree that takes over a print tree's id is a print tree still |
| SmbCapture.SpoolFileCaptured | smb_tree.go:181-422 | create on a print tree, writes among anything else, close: one job with the name and the first cap octets of the writes, none if nothing was written |
| SmbCapture.OnWriteIgnoresJobs | dcerpc.go:83-98 | what a pipe has captured does not influence what it does next |
| SmbCapture.PipeUses | smb_tree.go:267-373 | a pipe goes where the PDUs written lead, hands over the jobs of that run, and its reads return the answers in order and without loss |
| SmbCapture.RunAddsJobs | smb_tree.go:267-422 | the jobs a run captures are those of its steps, in order |
| SmbCapture.JobsThroughHandle | smb_tree.go:267-422 | the jobs that come through one handle are those its own uses hand over |
| SmbCapture.DocumentsThroughPipe | smb_tree.go:267-373 | for any pipe, bound or not, with anything pending and read at any time: the jobs it hands over are the documents of the calls written to it, however fragmented and with BINDs and other PDUs in between |
| SmbCapture.DocumentsOverSmb | smb_tree.go:181-422 | end to end, after any run of a session and in any further one: the jobs that come through a pipe are the documents of the calls written to it, in order, and the session's jobs are those of its steps |
| SmbCapture.DocumentOverSmb | smb_tree.go:181-422 | a print client's whole session, with BIND, OpenPrinter, one bracket, ClosePrinter and closing the pipe, among any other traffic: exactly the one document, with its name and its first cap octets |
| SmbPrinting.FramesAreEvents | smb.go:36-182 | in an authenticated session, for frames that start no other one and keep its user: trees, files and jobs go where the requests in the frames lead |
| SmbPrinting.DocumentsOverFrames | smb.go:24-183 | from frames to documents: after any frames whatever, and for any such further ones that leave a pipe open: the jobs that come through it are the documents of the calls written to it, in order, and the session's jobs are those of its steps |
| SmbPrinting.ServerCapturesDocuments | smb.go:24-183 | the same of the connection object and the frames it has handled |
| Ipp.ParseIpp | ipp.go:142-187 | the index loop finds the specified attributes and document on every input |
| Ipp.EnvelopeRoundTrip | ipp.go:142-187 | a well-formed message gives its document whole, and the attributes it was given |
| Ipp.NoteAllIsFirst | ipp.go:174-183 | of every name the first value counts, and a name is present if and only if it was given |
| Ipp.WriteStrSet | ipp.go:333-341 | the loop writes a named first value and nameless further ones |
| Ipp.SetReadsAsFirst | ipp.go:299-341 | a set written so is read as its first member |
| Ipp.TruncatedDocument | ipp.go:142-187 | for every input: of a message cut off anywhere a beginning of the document is found |
| Carve.DechunkBody | carve.go:142-172 | the decoding loop gives the specified octets on every input |
| Carve.DechunkRoundTrip | carve.go:142-172 | any chunking of a body decodes to the body, whatever extensions and trailers it has (section 7.1 of RFC 9112) |
| Carve.DechunkOfPrefix | carve.go:142-172 | for every input: a stream cut off anywhere decodes to a beginning of what the whole decodes to |
| Carve.TruncatedBodyIsPrefix | carve.go:142-172 | a truncated chunked body decodes to a beginning of the body |
| Carve.SizeLineRead | carve.go:149-157 | a hexadecimal size line, with or without extension, is read back for every size up to 2^63 - 1 |
| Carve.PlainChunkIsValid | carve.go:142-172 | the chunks that clients write, with or without extension, meet the conditions of the round trip |
| Carve.HasChunked | carve.go:125-137 | the loop over the header lines finds a chunked transfer coding if and only if a line says so |
| Carve.Unwrap | carve.go:99-122 | the specified unwrapping, on every input |
| Carve.DocumentIsRecovered | carve.go:99-122 | for a POST without inner blank line the document of a well-formed message comes out whole with its format, chunked in any way or not (section 3.1 of RFC 8010) |
| Carve.BrokenCaptureIsPrefix | carve.go:99-122 | of a request, chunked or not, whose capture breaks off anywhere, in the headers, a size line, a chunk, the attributes or the document, only a beginning of the document is carved, and nothing if and only if none of it has arrived |
| Dns.ParseName | dnsmsg.go:41-86 | ends on every input and pointer layout, agrees with the step-bounded walk, and its next offset is in bounds |
| Dns.NameRoundTrip | dnsmsg.go:24-86 | a dotted name of non-empty labels travels if and only if it has at most 127 labels of at most 63 octets |
| Dns.EncodedNameRead | dnsmsg.go:24-86 | longer labels come back cut to 63 octets, and 128 labels or more do not come back at all |
| Dns.CompressedNameRead | dnsmsg.go:62-80 | labels and a pointer to an earlier name read as both together, and end behind the pointer (section 4.1.4 of RFC 1035) |
| Dns.BackwardPointersCanLoop | dnsmsg.go:48-79 | pointers that lead backwards do not end every walk: only the step limit does |
| Dns.WalkEndsUnlessItLoops | dnsmsg.go:48-79 | the exact condition, for every message: a walk ends by itself, within as many steps as the message has octets, if and only if it does not come back to an offset |
| Dns.LongerInput | dnsmsg.go:41-86 | octets behind what was read do not change it |
| Dns.WriteName | dnsmsg.go:24-38 | the encoding loop gives the specified octets |
| Mdns.MessageRoundTrip | mdns.go:385-421 | a message gives back its questions and, of every record, name, type, TTL and data |
| Mdns.BuildResponse | dnsmsg.go:170-179 | the building loop gives the specified message |
| Mdns.ReadKnownAnswers | mdns.go:385-421 | the two loops give the specified known answers on every input |
| Mdns.ParseQuestions | dnsmsg.go:140-166 | all questions, or nothing |
| Mdns.IsKnown | mdns.go:423-432 | the loop finds a record that the querier knows if and only if there is one of its name and type with at least half its TTL |
| Mdns.TruncatedKnowsLess | mdns.go:382-421 | for every input: a cut-off query yields a beginning of its known answers |
| Mdns.TruncationSuppressesLess | mdns.go:423-432 | so suppression does less on it, never more |
| Mdns.OwnAnswersAreKnown | mdns.go:423-432 | every record of a response is known to whoever heard the response |
| Mdns.UniqueInstance | mdns.go:93-103 | terminates; the base if it is free, else the first free numbered name |
| Live.LiveTap.Record | live.go:49-63 | the ring stays the last max records of the history since reset |
| Live.LiveTap.Reset | live.go:40-46 | an empty ring, history and count |
| Live.LiveTap.SinceCursor | live.go:68-91 | a poll of the ring is the poll of the whole history |
| Live.LiveTap.AtOrdinal | live.go:96-104 | a look-up in the ring is the look-up in the history, for what is still retained |
| Live.PollIsSuffix | live.go:68-104 | a poll returns a suffix of the history, from the cursor on, and each record under the ordinal at which it can be looked up |
| Live.PollConserves | live.go:68-91 | returned and dropped make up what lies behind the cursor if and only if the limit does not bite |
| Live.LimitLosesSilently | live.go:68-91 | over any run of recordings and polls from the start, with any limits: everything recorded was returned or reported missing if and only if every poll had room for what it found; what a limit cuts off is lost without notice |
| Live.StaleCursorSkips | live.go:40-91 | a cursor kept across a reset: the first records since, up to that cursor, are neither returned nor counted, so nothing is lost without notice if and only if the cursor was 0 or nothing has come yet |
| Live.ChainedPolls | live.go:68-91 | over any run of recordings and polls, with any limits and a ring of any size: every record is returned once, counted as dropped once, or cut off once by a limit |
| Live.NothingMissed | live.go:68-91 | over such a run the poller ends up with every record, in order and under its ordinal, if and only if no limit bit and no more was ever recorded between two polls than the ring holds |
| Pcap.PcapWriter.WritePacket | pcapfile.go:87-112 | the file stays header and frames in order, the counters stay theirs; nothing after close |
| Pcap.ReadPcap | pcapread.go:35-91 | the record loop gives the first max frames of the file, for all four byte-order and resolution variants |
| Pcap.FileRead | pcapread.go:43-90 | a written file reads as its frames in order, cut to the snap length and to microseconds, up to the first stored empty or beyond 1 MiB |
| Pcap.FileRoundTrip | pcapfile.go:61-112 | all frames come back if and only if each was stored with 1 to 2^20 octets |
| Pcap.TruncationIsPrefix | pcapread.go:62-90 | for every file: any truncation behind the header reads as a beginning of the whole |

## Left out

- Sockets, listeners, HTTP handlers, TLS, timers and goroutine scheduling: replaced by octets, frames, steps and nondeterministic results.
- Hashes, MACs, ciphers, the key derivation function, NTLM verification and random values: parameters, with the length facts the code relies on; file ids are assumed not to repeat while in use.
- Regular expressions, PJL metadata, XML/SOAP and MTOM: the work is done in libraries; PJL enters the LPD model as a parameter.
- Windows services, firewall, ARP and live-capture backends, the dashboard, EBCDIC tables, configuration checks, CSV export and display filters: only easy members to gain.
- buildIPPResponse beyond its attribute encoders, and the mDNS record sets per service: fixed lists.
- Reassembler.StreamReassembler.Consume: the emit callback is the list of emitted flows; a reassembler without a callback, which drops flows silently, is not modelled; times are integers.
- Retry queue: process crashes only, since the code does no fsync; every filesystem call either happens or the process has crashed before it; ids are fresh; JSON is taken to be faithful; the in-memory retry that is used without a store is not modelled.
- SpoolStore.Store.WriteFileAtomic: the branches for a failing filesystem call are not modelled, for the same reason; Chmod and Close are part of the write.
- Dcerpc.Backend.Write: a backend without a dispatcher and the UUID comparison of bind are not modelled, and the lengths that Go takes as int are bounded to 2^28.
- Names on the NDR and SMB layers are UTF-16 code units; their conversion to Go strings is not modelled.
- SnmpAgent.ServeGet: the values of the MIB are those at query time; logging and the per-source rules of handleSNMP, and community strings, are not modelled.
- SnmpAgent.ServeGetNext: a version 1 request past the end keeps the varbinds gathered so far, as the code does; clients ignore them.
- Snmpv3.Assemble: the offset that the code recovers from slice capacities is modelled as the exact position; parsing is modelled on values, privacy is a parameter, and discovery reports, time windows and level checks are left out as one-branch claims.
- Lpd.HandleLpd: the source-port policy is not modelled; white space is ASCII; the answers given after the client has closed its side may be more than the machine's.
- LprSystem.Delivery: names fit one line each, the control file 1 MiB and the document the cap; what the server saves beyond these sizes is LprLpd.ServerSaves. TCP resets are not modelled, and the server's time limit only where both ends wait for each other: it is 60 seconds for every read, while the client's deadline covers the whole conversation.
- LprLpd.ServerSaves: for a control file beyond 1 MiB in which the server finds a sub-command (an octet 1, 2 or 3) behind the one it takes for the terminator, what the rest of the text makes it save is not described; names of printable text never do that (LprLpd.TextNamesEnd).
- SmbServer.SmbSession.HandleWrite: handles are values in the map; in the source they are objects that only the map refers to.
- SmbServer.SmbConnection.HandleFrame: a response shorter than a header, which no handler makes, is not modelled; share and pipe names are compared by parameters.
- SmbNegotiate.BuildNegotiateResponse: the padding loop in front of the contexts is left out: the fixed part already ends on a boundary.
- Carve.HasChunked: header names are compared in ASCII; Unicode case folding and white space are not modelled.
- Interception.PrintConnectionIsCarved: the job record around the document, with its PJL metadata, is not modelled.
- Mdns.MessageRoundTrip: resource data is opaque; the SRV, TXT and address encoders are left out.
- SmbTranscript.HashLaw: a client is taken to decrypt what was encrypted for it, so that it reads the signed response; the cipher itself is a parameter.
- SmbPrinting.DocumentsOverFrames: the frames between which the documents are followed do not authenticate the session again for another user.
- SnmpBulk.BulkIsRowAfterRow: the counts are those that the code has clamped to 256 and 1024; a limit on the size of the answer, for which the RFC also permits fewer varbinds, is not looked at.
- Live.LiveTap.Record: the record count is unbounded; the source's wraps at 2^64. The mutex is left out: each method is one step.
- Pcap.PcapWriter.WritePacket: buffering, flushing and write errors are not modelled: the file is the octets written.
