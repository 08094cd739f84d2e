# Live TLS migration: a verified model

The repository moves a live TLS connection between processes. A gateway or a
worker *peeks* at the next encrypted record without consuming it, reads from the
request line which function owns the request, and hands the descriptor together
with the exported TLS state to that owner. This project models that protocol and
the byte-level code it stands on, and proves what it keeps in every run.

`dafny verify dfyconfig.toml` checks everything.

## How it is organised

| files | what they hold |
|---|---|
| `Bytes` | byte strings and the C string primitives |
| `Nonce`, `HkdfLabel` | the record nonce (section 5.3 of RFC 8446) and the HkdfLabel encoding (section 7.1) |
| `Records`, `PeekLibrary` | records, the consuming read, the peek, serialise and restore; first as functions, then as the library's in-place code |
| `Owner` | the request-line parser and the growing peek |
| `Session`, `SessionMachine` | the four-state epoll session: a step function, and the object with its buffers and loops proved to take those steps |
| `Stream`, `Migration`, `MigrationRuns`, `MigrationTheorems` | client, network, gateway and workers as a transition system, its invariant, and what holds in every run |
| `Progress`, `Example` | the lists of requests that can be served at all, and that every fair run without faults serves them; concrete connections |
| `Wakeups` | the events a session is registered for, the same runs with sessions turned only when `epoll_wait` reports them, and the two ways in which a client's half-close goes wrong |
| `MachineRuns` | a call of `session_advance` on the object is a run of the transition system |
| `Reference`, `Blocking` | the sequential loop the epoll machine refines, and the blocking worker against that loop |
| `Handoff`, `Descriptors` | reassembly of a handoff, and the worker's descriptor tables |
| `HotPotato` | the consume-and-carry variant, against one sequential server |
| `Chunked`, `ChunkedSession` | the chunked-body decoder (section 7.1 of RFC 9112) on a whole stream and piece by piece |
| `MemTransport` | the in-memory transport queues |
| `Sni` | the ClientHello parser (section 4.1.2 of RFC 8446, section 3 of RFC 6066) |

## What the environment may do

Everything the environment decides is a parameter that every theorem quantifies
over: how bytes arrive, how much a read or a write takes, when a call blocks or
fails, when an export fails, which descriptor number is free, and when a process
gives up. The assumptions are these.

- AEAD is a pair seal/open in which opening inverts sealing and keeps the length
  (`Records.Sound`); `Records.NullCipherSound` shows that the assumption can be met.
- A channel uses AES-256-GCM or ChaCha20-Poly1305. The AES code always takes a
  32-byte key (`libtlspeek/lib/tlspeek_crypto.c:67`) while the key callback
  derives 16 bytes for a 32-byte secret (`libtlspeek/lib/tlspeek.c:124-127`), so
  AES-128 sessions cannot be peeked.
- In `Migration.Good` the client sends non-empty, unpadded application-data
  records, has one request outstanding, ends header lines with CRLF, and declares
  the length of its body. No request carries the single-owner hint, which skips the owner
  check (`benchmarks/micro/micro-bench-max-throughput/proto_worker/bench2_proto_worker.c:809-811`).
  Without one request at a time the property would be false: bytes behind the
  current body are dropped at 540-553 of that file.
- Header number parsing and response text are functions given to the model (`Session.Http`).
- The blocking worker reads the first request of a message at once only when the gateway has stamped
  it (`top1_set`, `benchmarks/micro/micro-bench-forward-tcp-vs-migration/proto_worker/bench2_proto_worker.c:414`),
  and peeks at it first otherwise; `Blocking.ProcessSession` covers both.
- In `Wakeups` a blocked read asks to read and a blocked write to write, a read that has decrypted text to hand out
  does not block, and a socket is writable when a write would not block. `Wakeups.InterestExact` says exactly where the first of these matters.
- A read into a buffer with no room left fails, as `wolfSSL_read` does when it is asked for nothing.
- A wolfSSL session is its keys, both counters, decrypted text not yet read and a
  partial record; export and import copy it.

## Where the code falls short of a simple property

- `tls_read_peek` strips exactly one byte. `Records.PeekIsPrefixOfRead` gives the
  exact condition under which a peek is a prefix of the read: the record is unpadded,
  or the peek asks for no more than its content; `Records.PaddedPeek` says what it returns on every padded record.
- `tlspeek_serialize` takes the peek fields from the context, whose record number nothing
  advances after `tlspeek_init`, and the blob from the session. The serial is coherent exactly
  when the session has opened no record (`Records.SerialAfterReads`, with an input in `Records.ReadBreaksSerial`).
- The HkdfLabel bytes decode back exactly when every length fits its field (`HkdfLabel.RoundTrip`),
  and stay within their buffer exactly when label and context take at most 590 bytes (`HkdfLabel.Build`).
- The blocking worker peeks as soon as one byte of a request is there, and closes when its first record is
  not complete or its header block is over 65536 bytes; it has no limit on the body, where the epoll worker has one.
  `Blocking.ServeDiffers` says exactly when its outcome is still the loop's, and
  `Example.EarlyWakeUpLoses` is an input on which it is not. The epoll worker waits for the whole record.
- `parse_sni` copies a name without knowing the size of its caller's buffer. `Sni.ParseSniInto` gives the
  exact condition for staying within it, and `Sni.LongNameFound` a hello that does not meet it.
- `handoff_recv_nb` returns without closing what came with truncated or malformed control data.
  `Descriptors.ExactlyOneOwner` holds with that: such descriptors, and only such, have no owner.
  `Descriptors.Worker.EventLoop` says exactly when and how many are lost, and `Descriptors.LostDescriptor` is a run that loses one.
- A client that closes its side while its response waits to be written is cut off: registered for writing, the session is
  reported with `EPOLLRDHUP` alone, and the event loop closes it. `Wakeups.WokenRunsExactly` says that this is the only way for a fair run without
  faults to lose an answer, `Wakeups.PatientClientServed` that a client which waits for its answers gets them, and
  `Wakeups.HastyClientLoses` that every list of requests can lose its last one like this (`Example.TalkCanBeCut` is an input).
- A client that closes its side in the middle of a record keeps a session in the peek state for ever: `tls_record_ready` goes on
  answering 0. `Wakeups.CutShort` gives the condition on the bytes, `Wakeups.CutShortStays` the consequence, and
  `Wakeups.OneByteStays` an input.
- A chunk size of 2^64 - 1, which the size lines `ffffffffffffffff` and `-1` both
  give, is accepted without data. `Chunked.HugeChunkAccepted` is an input, and
  `Chunked.TotalIsData` says that the reported size is the data passed over exactly
  when no size line has that value.
- In the Hot Potato programs neither the gateway nor a worker that hands back
  closes its own copy of the descriptor after a successful send. `HotPotato.Serve` and
  `HotPotato.PlayIsSequential` give the number of copies left open in every run: none exactly when nothing was sent, so that a connection whose
  first send succeeds is never closed, even when the message is lost on the way. The comment at `faad_optimization-Romero_New/gateway.c:196-197`
  is true of the return path only.
- `request_no` in a response counts within one worker's turn with the connection and starts
  again at 1 after every migration (`Migration.RunPosition`).

## Model

| member | source | states |
|---|---|---|
| `Nonce.ComputeNonce` | libtlspeek/lib/tlspeek_crypto.c:30-51 | the in-place loop writes the IV with the 64-bit big-endian counter xored into its last eight bytes, stated bit by bit; the first four bytes are the IV's |
| `Nonce.NonceBits` | libtlspeek/lib/tlspeek_crypto.c:30-44 | the same of the nonce itself: a bit differs from the IV's exactly where the counter has a one |
| `Nonce.BitsDecide` | libtlspeek/lib/tlspeek_crypto.c:40-43 | a byte is determined by its bits, so that statement determines the nonce |
| `Nonce.FirstNonce` | libtlspeek/lib/tlspeek_crypto.c:36-43 | record number 0 uses the IV itself |
| `Nonce.NonceExample` | libtlspeek/lib/tlspeek_crypto.c:36-43 | record number 258 under two IVs, byte for byte |
| `Nonce.NonceRoundTrip` | libtlspeek/lib/tlspeek_crypto.c:30-44 | the counter can be read back from IV and nonce, for every 64-bit counter |
| `Nonce.NonceInjective` | libtlspeek/lib/tlspeek_crypto.c:30-44 | two record numbers under one IV never share a nonce |
| `HkdfLabel.EncodedSize` | libtlspeek/lib/tlspeek_crypto.c:151-192 | the encoded label fits the 600-byte buffer |
| `HkdfLabel.RoundTrip` | libtlspeek/lib/tlspeek_crypto.c:151-192 | the encoding decodes to the same length, label and context, exactly when they fit their fields |
| `HkdfLabel.Fields` | libtlspeek/lib/tlspeek_crypto.c:162-192 | the encoding field by field: length, label length, "tls13 ", label, context length, context |
| `HkdfLabel.KeyAndIvInfo` | libtlspeek/lib/tlspeek.c:53-70 | the info strings for a key and an IV, byte for byte |
| `HkdfLabel.DistinctInfo` | libtlspeek/lib/tlspeek_crypto.c:151-192 | distinct derivations have distinct info strings |
| `HkdfLabel.Build` | libtlspeek/lib/tlspeek_crypto.c:162-192 | the cursor code writes the encoding and nothing else; what lies behind the 600-byte buffer is left alone when label and context take at most 590 bytes, and overwritten with the rest of the encoding when they take more |
| `Records.SealShape` | libtlspeek/lib/tlspeek.c:213-254 | a sealed record has the header the peek reads and opens to what was sealed |
| `Records.SerialAfterReads` | libtlspeek/lib/tlspeek_serial.c:37-60 | after `tlspeek_init` and any reads on the session, a serial's peek fields match the session in its blob exactly when none of the reads opened a record |
| `Records.ReadBreaksSerial` | libtlspeek/lib/tlspeek.c:154-175 | a session that has read one record, as an input on which they do not match |
| `Records.ReadyIsComplete` | benchmarks/micro/micro-bench-max-throughput/proto_worker/bench2_proto_worker.c:506-527 | a record is ready exactly when its length is at most 16656 and all of it is there, there is reason to close exactly at the end of the stream and for a longer one, and the peek rejects no ready record as short or incomplete |
| `Records.PeekOnWire` | libtlspeek/lib/tlspeek.c:188-331 | the peek on the bytes of the wire: exactly when it succeeds, which cipher opens which bytes with which additional data, and what it returns |
| `Records.RecordOnWire` | libtlspeek/lib/tlspeek.c:213-254 | a client's record byte by byte: type 23, version 3.3, length, and the sealed text with its type |
| `Records.SerialMagic` | libtlspeek/lib/tlspeek_serial.c:37-106 | a serial carries the magic number "TLSP", and one without it is refused |
| `Records.PeekOpened` | libtlspeek/lib/tlspeek.c:188-331 | a successful peek is the first bytes of the inner plaintext of the first record, under the context's counter, less one byte |
| `Records.PeekIsPrefixOfRead` | libtlspeek/lib/tlspeek.c:179-331 | after serialise, transfer and restore, the far side opens the record that was peeked, and the peek is a prefix of its text exactly when the record is unpadded or the peek is short enough |
| `Records.PeekOfRecord` | libtlspeek/lib/tlspeek.c:179-331 | on a plain record with the serial's counter the peek succeeds with the text's beginning |
| `Records.PaddedPeek` | libtlspeek/lib/tlspeek.c:305-331 | on every padded record a peek longer than its text returns the content type and padding behind the text, while the read returns the text |
| `PeekLibrary.TlsReadPeek` | libtlspeek/lib/tlspeek.c:179-331 | the buffer code computes that peek for every byte string, in bounds, and changes nothing but the caller's buffer |
| `PeekLibrary.PeekContext.Init` | libtlspeek/lib/tlspeek.c:154-175 | fails without keys; otherwise numbers records from zero and keeps the keys; the descriptor is taken in either case |
| `PeekLibrary.PeekContext.RestoreFrom` | libtlspeek/lib/tlspeek_serial.c:87-106 | refuses a bad magic or descriptor and otherwise takes exactly the serial's peek fields |
| `PeekLibrary.PeekContext.Free` | libtlspeek/lib/tlspeek.c:335-345 | both keys and both IVs are zero afterwards, and no peek succeeds through the context |
| `Owner.ParseOwnerComplete` | benchmarks/micro/micro-bench-max-throughput/proto_worker/bench2_proto_worker.c:205-229 | every request line "VERB /function/NAME... REST" yields NAME, if it fits; a slash, a question mark or a space ends it |
| `Owner.OwnerOfRequest` | benchmarks/micro/micro-bench-max-throughput/proto_worker/bench2_proto_worker.c:205-229 | the same on the bytes of a request, whatever follows the line |
| `Owner.NoOwner` | benchmarks/micro/micro-bench-max-throughput/proto_worker/bench2_proto_worker.c:205-229 | a line that is not of that form yields none |
| `Owner.ParseOwnerSound` | benchmarks/micro/micro-bench-max-throughput/proto_worker/bench2_proto_worker.c:205-229 | a name is returned only for a line of that form, is not empty and contains none of the three bytes, and the line is the part before the first LF |
| `Owner.ParseOwnerStable` | benchmarks/micro/micro-bench-max-throughput/proto_worker/bench2_proto_worker.c:205-229 | a name found in a prefix is the name found in every extension |
| `Owner.ParseRequestOwner` | benchmarks/micro/micro-bench-max-throughput/proto_worker/bench2_proto_worker.c:205-229 | the cursor code answers as the parser and writes a terminated name, or leaves the output alone |
| `Owner.PeekOwnerFromKernel` | benchmarks/micro/micro-bench-max-throughput/proto_worker/bench2_proto_worker.c:231-261 | the doubling peek answers exactly as one peek of the whole limit |
| `Session.FindSubFirst` | benchmarks/micro/micro-bench-max-throughput/proto_worker/bench2_proto_worker.c:59-67 | the first occurrence is found, and none only when there is none |
| `Session.HeaderEndOfPrefix` | benchmarks/micro/micro-bench-max-throughput/proto_worker/bench2_proto_worker.c:720-728 | a CRLF header block is recognised with its last byte, never before, and at the same place after |
| `Session.HeaderEndBytes` | benchmarks/micro/micro-bench-max-throughput/proto_worker/bench2_proto_worker.c:720-728 | the header block ends exactly behind the first CR LF CR LF or, without one, behind the first LF LF |
| `Session.BodySizes` | benchmarks/micro/micro-bench-max-throughput/proto_worker/bench2_proto_worker.c:730-743 | bodies of up to 1 MiB are read and longer ones refused; what is in the buffer counts, clamped |
| `Session.ResponseSizes` | benchmarks/micro/micro-bench-max-throughput/proto_worker/bench2_proto_worker.c:664-718 | responses of 1 to 767 bytes are written, any other closes |
| `Session.ReadSizes` | benchmarks/micro/micro-bench-max-throughput/proto_worker/bench2_proto_worker.c:626-643 | header reads stop at 1 MiB and take at most 8192 bytes each, and that many if they are there |
| `Session.AcceptIs` | benchmarks/micro/micro-bench-max-throughput/proto_worker/bench2_proto_worker.c:572-624 | a session starts in the header state with 64 KiB and request number 1 |
| `Session.AfterResponse` | benchmarks/micro/micro-bench-max-throughput/proto_worker/bench2_proto_worker.c:791-814 | after a response: close, or export, count on, forget the request, and peek next, or read next for a single owner |
| `Session.GrowBound` | benchmarks/micro/micro-bench-max-throughput/proto_worker/bench2_proto_worker.c:438-451 | a session's capacity always grows to a doubling of 64 KiB of at most 2 MiB |
| `Session.AdvanceBounded` | benchmarks/micro/micro-bench-max-throughput/proto_worker/bench2_proto_worker.c:626-851 | no input and no environment takes length, capacity, body or response cursors out of bounds |
| `SessionMachine.AgainDescends` | benchmarks/micro/micro-bench-max-throughput/proto_worker/bench2_proto_worker.c:816-851 | each further turn of `session_advance` has consumed input, left a peek, or written |
| `SessionMachine.Advances` | benchmarks/micro/micro-bench-max-throughput/proto_worker/bench2_proto_worker.c:816-851 | `session_advance` returns, within bounds, for every sequence of environment decisions |
| `SessionMachine.Enlarged` | benchmarks/micro/micro-bench-max-throughput/proto_worker/bench2_proto_worker.c:438-451 | growth doubles until it fits, keeps the contents, and on failure leaves the old buffer |
| `SessionMachine.WorkerSession.constructor` | benchmarks/micro/micro-bench-max-throughput/proto_worker/bench2_proto_worker.c:572-624 | a new session is the restored one, in the header state, before any peek |
| `SessionMachine.WorkerSession.ResetRequest` | benchmarks/micro/micro-bench-max-throughput/proto_worker/bench2_proto_worker.c:540-553 | a reset forgets the request and keeps session, serial and buffer |
| `SessionMachine.WorkerSession.TlsReadBuffer` | benchmarks/micro/micro-bench-max-throughput/proto_worker/bench2_proto_worker.c:626-643 | the read appends what the session hands out, or ends the step as the header state does |
| `SessionMachine.WorkerSession.ParseHeaderBlock` | benchmarks/micro/micro-bench-max-throughput/proto_worker/bench2_proto_worker.c:720-743 | header size, clamped body count and flags, or a refusal of a body over 1 MiB |
| `SessionMachine.WorkerSession.BuildResp` | benchmarks/micro/micro-bench-max-throughput/proto_worker/bench2_proto_worker.c:664-718 | the response is this function's text for this request, and one that does not fit is refused |
| `SessionMachine.WorkerSession.HeaderTurn` | benchmarks/micro/micro-bench-max-throughput/proto_worker/bench2_proto_worker.c:826-836 | the header state takes exactly one step of the machine |
| `SessionMachine.WorkerSession.BodyTurn` | benchmarks/micro/micro-bench-max-throughput/proto_worker/bench2_proto_worker.c:645-662 | the drain loop takes the machine's body steps up to the response |
| `SessionMachine.WorkerSession.PeekTurn` | benchmarks/micro/micro-bench-max-throughput/proto_worker/bench2_proto_worker.c:773-789 | ready, peek, and serve or hand back by the name, without touching the socket |
| `SessionMachine.WorkerSession.FlushTurn` | benchmarks/micro/micro-bench-max-throughput/proto_worker/bench2_proto_worker.c:791-814 | the records written are the machine's, for every partial write, and the export follows the last one |
| `SessionMachine.WorkerSession.AdvanceSession` | benchmarks/micro/micro-bench-max-throughput/proto_worker/bench2_proto_worker.c:816-851 | one call is the machine's steps up to the first that returns: same session, socket, records and result |
| `MachineRuns.AdvanceIsRun` | benchmarks/micro/micro-bench-max-throughput/proto_worker/bench2_proto_worker.c:816-851 | a call made in any state of the system is that many turns of the system |
| `MachineRuns.AdvanceKeepsInv` | benchmarks/micro/micro-bench-max-throughput/proto_worker/bench2_proto_worker.c:816-851 | a call made under the system's invariant ends under it |
| `Stream.ReadInStep` | benchmarks/micro/micro-bench-max-throughput/proto_worker/bench2_proto_worker.c:626-662 | a read in step with the client returns the next part of its text, blocks only for missing bytes, and fails only by fault |
| `Stream.ReadyRecord` | benchmarks/micro/micro-bench-max-throughput/proto_worker/bench2_proto_worker.c:506-527 | at a boundary a ready record is the client's next one, whole |
| `MigrationRuns.PeekNamesOwner` | benchmarks/micro/micro-bench-max-throughput/proto_worker/bench2_proto_worker.c:773-789 | at a record boundary a peek that finds a name finds the owner of the outstanding request |
| `MigrationRuns.RouteInv` | benchmarks/micro/micro-bench-max-throughput/proto_gateway/bench2gw/bench2gw.c:368-410 | the gateway's first dispatch sends the connection to the owner of request 1 with a state to resume from |
| `MigrationRuns.ReceiveInv` | benchmarks/micro/micro-bench-max-throughput/proto_worker/bench2_proto_worker.c:572-624 | a received session stands before the first byte of its own request |
| `MigrationRuns.TurnInv` | benchmarks/micro/micro-bench-max-throughput/proto_worker/bench2_proto_worker.c:626-851 | every step of every session keeps the system's invariant |
| `MigrationRuns.RunInv` | benchmarks/micro/micro-bench-max-throughput/proto_worker/bench2_proto_worker.c:745-851 | so does every run |
| `MigrationTheorems.ResponsesAnswerRequests` | benchmarks/micro/micro-bench-max-throughput/proto_worker/bench2_proto_worker.c:745-851 | in every run the responses answer a prefix of the requests, in order, each once, each by the worker its path names |
| `MigrationTheorems.BytesAreResponses` | benchmarks/micro/micro-bench-max-throughput/proto_worker/bench2_proto_worker.c:791-814 | the bytes on the connection are those responses and at most the beginning of the next |
| `MigrationTheorems.PeekStateIsAligned` | benchmarks/micro/micro-bench-max-throughput/proto_worker/bench2_proto_worker.c:288-326 | in the peek state the socket is at a record boundary, nothing is pending, and the serial's counter is the number of client records consumed by all workers |
| `MigrationTheorems.ServerNoncesDistinct` | benchmarks/micro/micro-bench-max-throughput/proto_worker/bench2_proto_worker.c:791-814 | across migrations the response records are numbered without gap or repeat and no two share a nonce |
| `MigrationTheorems.RelaysAreOwnerChanges` | benchmarks/micro/micro-bench-max-throughput/proto_worker/bench2_proto_worker.c:745-789 | the hand-backs are the adjacent owner changes: no request is handed back twice |
| `MigrationTheorems.SessionsAreBounded` | benchmarks/micro/micro-bench-max-throughput/proto_worker/bench2_proto_worker.c:438-451 | in every reachable session the buffered length is at most 1 MiB + 8191 and below the capacity, the capacity at most 2 MiB, the body at most 1 MiB, the response below 768 |
| `Progress.EventAdvances` | benchmarks/micro/micro-bench-max-throughput/proto_worker/bench2_proto_worker.c:816-851 | without faults no event takes a connection back, and every event of the kind it waits for brings it closer to its end |
| `Progress.FairRunsServeAll` | benchmarks/micro/micro-bench-max-throughput/proto_worker/bench2_proto_worker.c:745-851 | every run without faults in which each kind of event keeps coming answers every request of a servable list; `Wakeups` derives the turns of a session from its registration |
| `Progress.ServedWereServable` | benchmarks/micro/micro-bench-max-throughput/proto_worker/bench2_proto_worker.c:745-851 | a list that any run, with faults or without, has answered completely was servable |
| `Progress.ServableExactly` | benchmarks/micro/micro-bench-max-throughput/proto_worker/bench2_proto_worker.c:745-851 | every fair run without faults answers all requests if and only if they are servable and their header blocks are at most 1 MiB; whatever any run has answered completely was servable |
| `Wakeups.InterestExact` | benchmarks/micro/micro-bench-max-throughput/proto_worker/bench2_proto_worker.c:529-538 | after every step the registration is what the session waits for, exactly as long as a blocked call asks for that |
| `Wakeups.AlwaysRegistered` | benchmarks/micro/micro-bench-max-throughput/proto_worker/bench2_proto_worker.c:791-814 | in every state of every run, with faults or without, the registration is what the session waits for: writing exactly while a response is unsent |
| `Wakeups.NeededFires` | benchmarks/micro/micro-bench-max-throughput/proto_worker/bench2_proto_worker.c:402-418 | a waiting session whose turn the connection needs is reported by `epoll_wait` |
| `Wakeups.WatchAdvances` | benchmarks/micro/micro-bench-max-throughput/proto_worker/bench2_proto_worker.c:1061-1066 | with sessions turned only when reported, every event without fault that is waited for still brings the connection closer to its end, unless it cuts the session off |
| `Wakeups.WokenRunsExactly` | benchmarks/micro/micro-bench-max-throughput/proto_worker/bench2_proto_worker.c:1016-1076 | a fair run of that kind answers every request of a servable list if and only if no session is ever reported with the end of the client's side alone |
| `Wakeups.WokenIsRun` | benchmarks/micro/micro-bench-max-throughput/proto_worker/bench2_proto_worker.c:1061-1066 | every run of that kind is a run of the system |
| `Wakeups.CutLoses` | benchmarks/micro/micro-bench-max-throughput/proto_worker/bench2_proto_worker.c:1068-1075 | a session closed on that report had a request to answer, and the answer is lost |
| `Wakeups.PatientClientServed` | benchmarks/micro/micro-bench-max-throughput/proto_worker/bench2_proto_worker.c:1068-1075 | a client that closes its side only after its last answer has all of them |
| `Wakeups.HastyClientLoses` | benchmarks/micro/micro-bench-max-throughput/proto_worker/bench2_proto_worker.c:1068-1075 | every servable list has a fair schedule without faults that never gives the last answer |
| `Wakeups.PeekWaits` | benchmarks/micro/micro-bench-max-throughput/proto_worker/bench2_proto_worker.c:773-778 | the peek state returns with nothing changed exactly as long as no record is ready and there is no reason to close |
| `Wakeups.CutShort` | benchmarks/micro/micro-bench-max-throughput/proto_worker/bench2_proto_worker.c:506-527 | after the end of the client's side that is exactly a record cut short |
| `Wakeups.CutShortStays` | benchmarks/micro/micro-bench-max-throughput/proto_worker/bench2_proto_worker.c:506-527 | then every call of `session_advance` returns to wait with nothing changed, and the socket stays readable |
| `Wakeups.OneByteStays` | benchmarks/micro/micro-bench-max-throughput/proto_worker/bench2_proto_worker.c:519-519 | one byte of a record is such an input |
| `Example.TalkIsServable` | benchmarks/micro/micro-bench-max-throughput/proto_worker/bench2_proto_worker.c:745-851 | two requests to two functions meet every assumption of the run theorems |
| `Example.TalkIsServed` | benchmarks/micro/micro-bench-max-throughput/proto_worker/bench2_proto_worker.c:745-789 | both are answered in some run, and then with exactly one hand-back |
| `Example.TalkCanBeCut` | benchmarks/micro/micro-bench-max-throughput/proto_worker/bench2_proto_worker.c:1068-1075 | and a fair schedule without faults under which the second is never answered |
| `Example.EarlyWakeUpLoses` | benchmarks/micro/micro-bench-forward-tcp-vs-migration/proto_worker/bench2_proto_worker.c:478-502 | an input: woken by the first byte of the second request, the worker closes where the loop answers both |
| `Reference.EpollRefinesLoop` | benchmarks/micro/micro-bench-max-throughput/proto_worker/bench2_proto_worker.c:626-851 | under every fault-free schedule the epoll session serves and ends as the sequential loop |
| `Reference.FreshSessionIsLoop` | benchmarks/micro/micro-bench-max-throughput/proto_worker/bench2_proto_worker.c:607-616 | from reception on, it is the loop started at the received request, numbered 1 |
| `Blocking.Link.Read` | benchmarks/micro/micro-bench-forward-tcp-vs-migration/proto_worker/bench2_proto_worker.c:430-439 | a blocking read returns the next part of the request, however its bytes arrive, or fails when a call fails |
| `Blocking.ReadHeader` | benchmarks/micro/micro-bench-forward-tcp-vs-migration/proto_worker/bench2_proto_worker.c:551-565 | the header loop ends with the request's header block in the buffer exactly when that fits the buffer and no call fails |
| `Blocking.DrainBody` | benchmarks/micro/micro-bench-forward-tcp-vs-migration/proto_worker/bench2_proto_worker.c:570-584 | the body loop ends with the request read to its last byte, exactly when no call fails |
| `Blocking.WriteAll` | benchmarks/micro/micro-bench-forward-tcp-vs-migration/proto_worker/bench2_proto_worker.c:224-238 | the records written carry the response, or a beginning of it when a write fails |
| `Blocking.Wait` | benchmarks/micro/micro-bench-forward-tcp-vs-migration/proto_worker/bench2_proto_worker.c:240-277 | the wait returns as soon as there is a byte, with whatever has arrived by then, or fails |
| `Blocking.PeekNext` | benchmarks/micro/micro-bench-forward-tcp-vs-migration/proto_worker/bench2_proto_worker.c:478-502 | the peek after the wait says what the request's first record says, or nothing when that record is not complete |
| `Blocking.ProcessSession` | benchmarks/micro/micro-bench-forward-tcp-vs-migration/proto_worker/bench2_proto_worker.c:381-613 | what the blocking worker serves and how it ends, for every arrival of bytes and every failing call, with and without the gateway's stamp: a failing call closes after a beginning of what it would have served; what it hands on is again what a worker can receive, at the first request not served |
| `Blocking.ServeDiffers` | benchmarks/micro/micro-bench-forward-tcp-vs-migration/proto_worker/bench2_proto_worker.c:408-601 | that is what the sequential loop does, up to the first request where they part: where the worker stops (early wake-up, header block too long) it closes, and where the loop refuses a long body the worker reads on; the outcomes are still equal exactly under the condition given for that request |
| `Blocking.WholeRecordsAreLoop` | benchmarks/micro/micro-bench-forward-tcp-vs-migration/proto_worker/bench2_proto_worker.c:408-601 | it is what the loop does when the first record of every later request is there at its wake-up |
| `Blocking.EitherWorkerCanReceive` | benchmarks/micro/micro-bench-forward-tcp-vs-migration/proto_worker/bench2_proto_worker.c:388-406 | in every run a descriptor under way meets what the blocking worker asks for |
| `Blocking.EarlyPeekFails` | benchmarks/micro/micro-bench-forward-tcp-vs-migration/proto_worker/bench2_proto_worker.c:184-204 | a peek at an incomplete record fails, which is why the epoll worker waits for the whole record |
| `Handoff.Reassembly` | benchmarks/micro/micro-bench-max-throughput/proto_worker/bench2_proto_worker.c:453-504 | for every split the reader finishes with the completing message, holds the bytes sent and the first descriptor, and closed the others |
| `Handoff.HandoffCompletes` | benchmarks/micro/micro-bench-max-throughput/proto_worker/bench2_proto_worker.c:453-504 | success exactly when all 24784 bytes and a descriptor have arrived |
| `Handoff.ReceiveCases` | benchmarks/micro/micro-bench-max-throughput/proto_worker/bench2_proto_worker.c:474-504 | what each kind of message does to a handoff in progress; the end of the stream, an error and refused control data fail it |
| `Handoff.StreamEnds` | benchmarks/micro/micro-bench-max-throughput/proto_worker/bench2_proto_worker.c:479-491 | a stream that ends or fails before the payload is complete fails the handoff, after any pieces |
| `Handoff.HandoffConn.RecvNb` | benchmarks/micro/micro-bench-max-throughput/proto_worker/bench2_proto_worker.c:453-504 | the in-place reader takes that step for every message, refused control data included, and never writes past the payload |
| `Descriptors.Worker.CloseFd` | benchmarks/micro/micro-bench-max-throughput/proto_worker/bench2_proto_worker.c:555-570 | only an open, unregistered descriptor is ever closed, and the ledger of received connections is kept |
| `Descriptors.Worker.HandoffClose` | benchmarks/micro/micro-bench-max-throughput/proto_worker/bench2_proto_worker.c:853-865 | connection and kept descriptor leave table, epoll set and process together |
| `Descriptors.Worker.SessionClose` | benchmarks/micro/micro-bench-max-throughput/proto_worker/bench2_proto_worker.c:555-570 | the session's descriptor leaves table and epoll set and is closed once |
| `Descriptors.Worker.SessionNew` | benchmarks/micro/micro-bench-max-throughput/proto_worker/bench2_proto_worker.c:572-624 | the table owns the descriptor, or on each failure it is closed |
| `Descriptors.Worker.RegisterClientFd` | benchmarks/micro/micro-bench-max-throughput/proto_worker/bench2_proto_worker.c:867-884 | a payload with the magic and version bytes, with no failing call, becomes a registered session; every other path closes the descriptor |
| `Descriptors.GenuineBytes` | benchmarks/micro/micro-bench-max-throughput/proto_worker/bench2_proto_worker.c:867-874 | a payload is genuine exactly when it starts with the eight bytes of magic and version |
| `Descriptors.Worker.SendFd` | libtlspeek/common/sendfd.c:25-77 | the sender's copy is closed exactly when it was sent |
| `Descriptors.Worker.RelayToGateway` | benchmarks/micro/micro-bench-max-throughput/proto_worker/bench2_proto_worker.c:330-341 | the descriptor is closed once on every path and the relay socket does not stay open |
| `Descriptors.Worker.SessionRelay` | benchmarks/micro/micro-bench-max-throughput/proto_worker/bench2_proto_worker.c:745-771 | the session gives up its descriptor; handed back or not, this process's copy is closed exactly once |
| `Descriptors.Worker.HandoffRecv` | benchmarks/micro/micro-bench-max-throughput/proto_worker/bench2_proto_worker.c:453-504 | a surplus descriptor is closed and never replaces the first; descriptors that come with refused control data are lost, and only those |
| `Descriptors.LossCases` | benchmarks/micro/micro-bench-max-throughput/proto_worker/bench2_proto_worker.c:474-496 | which messages bring descriptors and which lose them |
| `Descriptors.Worker.HandleHandoffFd` | benchmarks/micro/micro-bench-max-throughput/proto_worker/bench2_proto_worker.c:886-905 | incomplete handoffs stay, complete ones become sessions if admitted, failed ones are gone |
| `Descriptors.Worker.AcceptOne` | benchmarks/micro/micro-bench-max-throughput/proto_worker/bench2_proto_worker.c:907-933 | an accepted connection is registered and in the table, or closed |
| `Descriptors.Worker.HandleListenFd` | benchmarks/micro/micro-bench-max-throughput/proto_worker/bench2_proto_worker.c:907-933 | the loop keeps every handoff in progress and adds exactly one empty one for every connection accepted without failure, under the free number the system gave it |
| `Descriptors.Worker.HandleEvent` | benchmarks/micro/micro-bench-max-throughput/proto_worker/bench2_proto_worker.c:1025-1076 | what an event does to the tables, the epoll set and the ledger: which events close a session, which leave it as it is and which hand it back; handoffs and the listener likewise; the stray-close branch is dead |
| `Descriptors.Worker.HandleBatch` | benchmarks/micro/micro-bench-max-throughput/proto_worker/bench2_proto_worker.c:1025-1076 | each entry is still registered when its turn comes, all are handled in order, each as the layout before it requires, and the descriptors lost are exactly those the batch brings with refused control data to the handoffs in progress at its start |
| `Descriptors.Worker.EventLoop` | benchmarks/micro/micro-bench-max-throughput/proto_worker/bench2_proto_worker.c:1016-1076 | every report is handled batch after batch and the descriptor invariant holds throughout; how many descriptors are lost, and that some are exactly when some batch brings refused control data to a handoff in progress when it begins |
| `Descriptors.ExactlyOneOwner` | benchmarks/micro/micro-bench-max-throughput/proto_worker/bench2_proto_worker.c:394-400 | each connection received is closed exactly once and no longer open, or open once, with one owner unless it is lost, and one is lost exactly when the count of lost ones is not zero; the epoll set minus the listener is the disjoint union of the tables |
| `Descriptors.LostDescriptor` | benchmarks/micro/micro-bench-max-throughput/proto_worker/bench2_proto_worker.c:483-491 | a run of the worker in which one descriptor is received, never closed and owned by nothing |
| `HotPotato.ParseComplete` | faad_optimization-Romero_New/gateway.c:16-61 | every request line of the service's form gives its route and operands |
| `HotPotato.Operands` | faad_optimization-Romero_New/gateway.c:53-58 | the operands of "a=X&b=Y" are the numbers at X and Y |
| `HotPotato.MissingOperand` | faad_optimization-Romero_New/gateway.c:53-58 | an operand that is not in the query is zero |
| `HotPotato.NoQuery` | faad_optimization-Romero_New/gateway.c:30-58 | a request without a query asks with two zeros |
| `HotPotato.QuestionParsed` | faad_optimization-Romero_New/gateway.c:16-61 | "VERB /sum?a=X&b=Y" and "/product" byte for byte: route and operands |
| `HotPotato.FirstBytesDecide` | faad_optimization-Romero_New/gateway.c:17-19 | nothing behind the first 255 bytes matters to the parser |
| `HotPotato.Message.ParseRequest` | faad_optimization-Romero_New/gateway.c:16-61 | fills in route and operands of the request in the buffer, or changes nothing |
| `HotPotato.Message.ReadRequest` | faad_optimization-Romero_New/worker_sum.c:125-132 | what is parsed afterwards is what was read, nothing of an earlier request |
| `HotPotato.InitialRoute` | faad_optimization-Romero_New/gateway.c:153-180 | the first request is consumed and carried with the session exactly when it parses and the message arrives; without a send the connection is closed, and a message lost on the way leaves the gateway's copy open |
| `HotPotato.ReturnPath` | faad_optimization-Romero_New/gateway.c:182-205 | the carried request parses again to the same route and operands, is carried on if the message arrives, and the gateway's copy is closed in every case |
| `HotPotato.Work` | faad_optimization-Romero_New/worker_sum.c:101-161 | what has happened and what is owed are together what they were; the worker stops at the first request for the other route, whether or not it can hand back |
| `HotPotato.Round` | faad_optimization-Romero_New/worker_product.c:78-115 | one worker's turn and the gateway's forwarding keep the account of replies, sends and open copies |
| `HotPotato.Serve` | faad_optimization-Romero_New/gateway.c:150-206 | whatever becomes of the messages the replies are a beginning of the sequential server's, each the sum or product its request asks for, on consecutively numbered records, and all of them exactly when the messages needed arrive; then sends are one plus twice the route changes; and in every case the copies left open are none without a send and one plus half the sends otherwise |
| `HotPotato.PlayIsSequential` | faad_optimization-Romero_New/worker_sum.c:101-161 | the same of the account itself, from any point of the connection |
| `HotPotato.SequentialAnswersEach` | faad_optimization-Romero_New/worker_sum.c:112-137 | on parsable requests that server answers each one, adding for "/sum" and multiplying for "/product", and the route changes are the adjacent ones |
| `HotPotato.ReplyIs` | faad_optimization-Romero_New/worker_sum.c:115-120 | its reply to such a request is the text for the sum of the two operands, or for their product (worker_product.c:88) |
| `HotPotato.SequentialIsRight` | faad_optimization-Romero_New/worker_product.c:86-93 | so is every reply in every beginning of its replies |
| `HotPotato.OneReadEach` | faad_optimization-Romero_New/worker_sum.c:125-126 | requests that fit one record and one read are read one by one |
| `HotPotato.TwoReads` | faad_optimization-Romero_New/worker_sum.c:126-126 | a record of 8192 bytes takes two reads |
| `Chunked.LineEndStable` | benchmarks/micro/micro-bench-max-throughput/vanilla_function/bench2_vanilla_fn.c:151-165 | a line that has arrived is the same line in the whole stream |
| `Chunked.SizeLineRead` | benchmarks/micro/micro-bench-max-throughput/vanilla_function/bench2_vanilla_fn.c:351-364 | a well-formed size line, with or without extension, is read as its number; `StrtoulReads` says which |
| `Chunked.StrtoulReads` | benchmarks/micro/micro-bench-max-throughput/vanilla_function/bench2_vanilla_fn.c:361-367 | every 64-bit number written in base 16, in either case, with space, sign and "0x" before and other text behind, is read back, and a larger one is refused |
| `Chunked.LongLineRefused` | benchmarks/micro/micro-bench-max-throughput/vanilla_function/bench2_vanilla_fn.c:351-357 | a size line of 64 bytes or more is refused |
| `Chunked.WrittenIsDecoded` | benchmarks/micro/micro-bench-max-throughput/vanilla_function/bench2_vanilla_fn.c:337-410 | what a client writes, sizes in base 16 and CRLF, is decoded with the number of its data bytes and the cursor right behind it |
| `Chunked.DecodeEncoded` | benchmarks/micro/micro-bench-max-throughput/vanilla_function/bench2_vanilla_fn.c:337-410 | every well-formed body decodes to the sum of its chunk sizes with the cursor right behind it |
| `Chunked.TotalIs` | benchmarks/micro/micro-bench-max-throughput/vanilla_function/bench2_vanilla_fn.c:384-390 | for every accepted stream the reported size is the data, less one, in 64 bits, for each chunk of size 2^64 - 1 |
| `Chunked.TotalIsData` | benchmarks/micro/micro-bench-max-throughput/vanilla_function/bench2_vanilla_fn.c:384-390 | reported size and data agree exactly when no size line has that value |
| `Chunked.HugeChunkAccepted` | benchmarks/micro/micro-bench-max-throughput/vanilla_function/bench2_vanilla_fn.c:361-390 | an input on which they differ |
| `ChunkedSession.VanillaSession.RecvMore` | benchmarks/micro/micro-bench-max-throughput/vanilla_function/bench2_vanilla_fn.c:292-308 | bytes move from the network to the buffer's end without loss; 0 at the end of the stream, -1 for an error on it or a buffer that cannot grow |
| `ChunkedSession.VanillaSession.LineEndIn` | benchmarks/micro/micro-bench-max-throughput/vanilla_function/bench2_vanilla_fn.c:151-165 | the first line end among the bytes received, with its length |
| `ChunkedSession.VanillaSession.FinishChunked` | benchmarks/micro/micro-bench-max-throughput/vanilla_function/bench2_vanilla_fn.c:337-410 | for every way of receiving the stream the outcome is that of the whole stream, or a failure because a call for memory failed or the stream is too long for any buffer, and the cursor stays within what was received |
| `ChunkedSession.WellFormedDecodes` | benchmarks/micro/micro-bench-max-throughput/vanilla_function/bench2_vanilla_fn.c:337-410 | so every well-formed body succeeds under every split |
| `MemTransport.PopCountIs` | benchmarks/micro/micro-bench-tls-decryption-cost/bench_tls_decrypt_memio.c:177-188 | what the casts make of a request: the smaller of asked and there; everything for a negative one |
| `MemTransport.ReservedIs` | benchmarks/micro/micro-bench-tls-decryption-cost/bench_tls_decrypt_memio.c:136-161 | an empty queue starts with 4096 bytes and a full one doubles |
| `MemTransport.MemQueue.Reserve` | benchmarks/micro/micro-bench-tls-decryption-cost/bench_tls_decrypt_memio.c:136-161 | growth ends, does not overflow, keeps the contents, and on failure changes nothing |
| `MemTransport.MemQueue.Push` | benchmarks/micro/micro-bench-tls-decryption-cost/bench_tls_decrypt_memio.c:163-175 | all of it appended, or nothing changed |
| `MemTransport.MemQueue.Pop` | benchmarks/micro/micro-bench-tls-decryption-cost/bench_tls_decrypt_memio.c:177-195 | the front goes out and the rest stays in order |
| `MemTransport.Transport.SendCb` | benchmarks/micro/micro-bench-tls-decryption-cost/bench_tls_decrypt_memio.c:197-209 | the bytes enter the sender's own direction, all or none; all of them when memory is granted |
| `MemTransport.Transport.RecvCb` | benchmarks/micro/micro-bench-tls-decryption-cost/bench_tls_decrypt_memio.c:211-228 | the oldest bytes of the other side: the smaller of asked and there, everything for a negative request; try again exactly when there are none |
| `MemTransport.Transport.Interleave` | benchmarks/micro/micro-bench-tls-decryption-cost/bench_tls_decrypt_memio.c:197-228 | over every interleaving received followed by queued is sent, in each direction; while memory is granted and the queues are below 2 GiB the state is that of two plain queues |
| `Sni.ParseSniInto` | Performance_old/gateway.c:18-52 | on every byte string the cursor code answers as the parser with all reads in bounds; it writes the name and a terminator and nothing else, so it stays within the caller's buffer exactly when there is no name or the name is shorter than the buffer |
| `Sni.NameIsFound` | Performance_old/gateway.c:18-52 | every hello with a host name gives it, after any other extensions and for every truncation behind the name |
| `Sni.NoNameNoneFound` | Performance_old/gateway.c:34-51 | a hello without a server name gives none |
| `Sni.ExtensionCases` | Performance_old/gateway.c:36-51 | what the loop does at an extension, on its bytes, in all four cases |
| `Sni.NoHelloNoName` | Performance_old/gateway.c:19-20 | anything but a handshake record of at least 43 bytes gives none |
| `Sni.LongNameFound` | Performance_old/gateway.c:107-117 | a hello of 186 bytes whose name does not fit the caller's 128 |

## Left out

- wolfSSL and wolfCrypt: handshake, certificates, real AEAD and HKDF; replaced by the abstract pair and session state above.
- Sockets, `fork`, threads, signals, environment variables, logging, timing counters and the scripts.
- Header number parsing (`strtoll`), the connection and hint tokens, floating-point rounding and `snprintf` texts: parameters of the model.
- Requests with the single-owner hint are not part of the run theorems; `Session` and `SessionMachine` do model the hint.
- The gateway's fallback in Go for an empty name, and its relay threads: an empty name is dropped, and a relay delivers to the target named in the message or drops the connection.
- The key-log callback `tlspeek_keylog_cb`, `hex_decode`, the router and handler of `libtlspeek`, and the other gateway and worker programs, which repeat these steps.
- `ioctl(FIONREAD)` failing in `tls_record_ready` is the same as a record that is not yet complete.
- Progress.ServableExactly: for a header block over 1 MiB it does not say which single runs answer it; it is read or refused depending on how the bytes arrive.
- `recvfd_with_state` as a separate member: its steps are those of `Handoff.Receive` for a payload that arrives in one piece.
- Descriptors.Worker.EventLoop: descriptor tables are maps and sets and a session's result is one of the environment's decisions, since every result is allowed there; `SessionMachine` says which one it is.
- HotPotato.ReturnPath: a `recvmsg` that brings only part of the message; one that fails or brings no descriptor is modelled.
- HotPotato.Work: the results of `wolfSSL_tls_import` and `wolfSSL_write`, which the worker ignores, are always success; a partial `recvmsg` as above.
- ChunkedSession.VanillaSession.FinishChunked: a stream is shorter than 2^64 bytes.
- MemTransport.MemQueue.Push: an object is at most PTRDIFF_MAX bytes, the limit of `malloc`.
