# A verified model of a small BitTorrent client's peer protocol core

This project models the core of a Go BitTorrent client in Dafny and proves
properties of the model. The client fetches the pieces of a torrent from peers
over the peer wire protocol (BEP 3). The core covered here is:

- **Bitfield**: the peer's bit vector of held pieces. Piece `i` is bit
  `7 - i % 8` of byte `i / 8`, most significant bit first. The model covers
  asking whether a piece is held and marking it held in place.
- **Message**: the length-prefixed message frame. It is a 4-byte big-endian
  length, one id byte, and a payload. Length 0 is a keep-alive. The model
  covers encoding a frame and decoding one from a byte stream, where a short
  stream is an error.
- **Handshake**: the handshake's wire image. It is the protocol-string length,
  the protocol string, 8 reserved bytes, the info-hash and the peer id.
- **Peers**: the tracker's compact peer list (BEP 23). Each peer is 6 bytes: an
  IPv4 address and a big-endian port.
- **Download**: the state machine that fetches one piece from one peer. While
  unchoked, it sends block requests of at most `MaxBlockSize` (16384) bytes
  until its backlog counter reaches `MaxBacklog` (5). The counter is requests
  written minus `piece` messages accepted. It reacts to `choke`, `unchoke`,
  `have` and `piece` messages until the piece is complete.
- **Worker**: what a download worker does with each piece it takes from the
  shared work queue, in one pass of its loop:
  - put the piece back when the peer lacks it;
  - otherwise download it;
  - put it back and stop when the download fails;
  - put it back when its integrity check fails;
  - otherwise announce it with `have` and publish it as a result.

The connection object (`client.Client`) belongs to a package that is not part
of this model, so `PeerClient.Client` stands in for it:

- Everything the connection will deliver is a script fixed in advance: the
  incoming messages (`inbox`) and whether each write succeeds (`writes`). Every
  theorem therefore holds for every possible peer behaviour.
- An exhausted script stands for the 30-second deadline expiring, which Go
  reports as a read or write error.
- The parsers `ParseHave` and `ParsePiece` are not part of this model either.
  What they return arrives with each message as a `Parsed` record.
- The SHA-1 integrity check is a function parameter `intact` of the worker.

Go's fixed-size integers are `nat` with explicit bounds:

- `TwoTo32` bounds the `uint32` frame length.
- `Port` and `Uint16` bound the port.
- `byte` is `0..255`.
- A bitfield byte, which only bit operations touch, is a `bv8`.

`byte(len(pstr))` in the handshake keeps only the low 8 bits, written
`% 256`.

The source has two copies of the download code, one in `p2p/p2p.go` and one
in `main.go`, and they are identical. The table cites the `p2p/p2p.go` copy.

## Model

| member | source | states |
|---|---|---|
| Base.BE32 | main.go:175 | The big-endian image of any `uint32` is 4 bytes and decodes back to the number. |
| Base.Uint32 | main.go:187 | `binary.BigEndian.Uint32` of 4 bytes is a number below `2^32`. |
| Base.Uint16 | main.go:153 | `binary.BigEndian.Uint16` of 2 bytes is a number below `2^16`. Its high byte is the first byte and its low byte the second. |
| Base.BE32OfUint32 | main.go:187 | Any 4 bytes are the big-endian image of the number they decode to, so decoding loses nothing. |
| Base.CopyInto | main.go:162-165 | Go's `copy` into a slice from offset `at` writes `min(len(src), len(dst) - at)` bytes. The count is returned. Nothing outside the written range changes. |
| Base.PutUint32 | main.go:175 | Writes the 4-byte big-endian image of `n` and leaves the rest of the buffer unchanged. |
| Bitfield.SetPiece | main.go:220-224 | ORs the piece's bit into byte `index / 8` in place. The new contents are `WithPiece` of the old. |
| Bitfield.HasPiece | main.go:212-217 | For an index inside the vector, `HasPiece(i)` holds exactly when byte `i / 8` has bit `Mask(i % 8)`, the bit `1 << (7 - i % 8)`, set. |
| Bitfield.SetThenHas | main.go:212-224 | After setting piece `i`, `HasPiece(j)` holds exactly when `j == i` or piece `j` was already held. |
| Bitfield.SamePiece | main.go:214-215 | Two piece indices are equal exactly when their byte index and bit offset are both equal. |
| Bitfield.SetIdempotent | main.go:220-224 | Setting a piece twice gives the same bit vector as setting it once. |
| Bitfield.SetPresentUnchanged | main.go:212-224 | Setting a piece the vector already holds leaves the vector unchanged. |
| Bitfield.WithPiece | main.go:220-224 | Setting a piece keeps the length and changes no byte other than `index / 8`. It ORs `Mask(index % 8)`, the bit `1 << (7 - index % 8)`, into that byte. |
| Bitfield.MaskSelects | main.go:216-223 | Shifting byte `x` right by `7 - offset` and testing the low bit is the same as testing `x & Mask(offset)`. ORing in `1 << (7 - offset)` is the same as ORing in `Mask(offset)`. |
| Bitfield.MsbFirst | main.go:212-224 | Worked cases: piece 0 is bit `0x80` of byte 0, piece 7 is `0x01`, piece 8 is in byte 1, and setting piece 9 of `[0, 0]` gives `[0, 0x40]`. |
| Bitfield.SetBitHas | main.go:216-223 | At the byte level, after ORing in bit `i`, bit `j` reads set exactly when `j == i` or it was set before. |
| Bitfield.SetBitIdempotent | main.go:223 | ORing a bit in twice is the same as once, and ORing in a bit that is already set changes nothing. |
| Bitfield.HasPieceBounded | main.go:212-217 | Corrected `HasPiece`. A piece beyond the vector reads as absent instead of panicking. It reports held only for indices inside the vector. |
| Bitfield.WithPieceBounded | main.go:220-224 | Corrected `SetPiece` value. Setting a piece beyond the vector is ignored. The length is kept. |
| Bitfield.SetPieceBounded | main.go:220-224 | Corrected `SetPiece` in place. The new contents are `WithPieceBounded` of the old. |
| Bitfield.BoundedSetThenHas | main.go:212-224 | With the corrected forms, after setting `i` piece `j` is held exactly when it was already held, or when `j == i` and `i` lies inside the vector. No piece is ever lost. |
| Message.Serialize | main.go:169-179 | A nil message encodes as 4 zero bytes. Any other message encodes as the big-endian length `len(payload) + 1`, then the id, then the payload (`Frame`). |
| Message.Frame | main.go:169-179 | Reference definition of a message's wire bytes: 4 for the keep-alive, `len(payload) + 5` otherwise. `FrameLayout` gives the fields, `Serialize` computes it, and `ReadFrame` and `ReadIsFramed` prove `Read` its inverse. |
| Message.Read | main.go:181-206 | On success the decoder consumes at least the 4 length bytes and no more than the input holds. |
| Message.FrameLayout | main.go:169-179 | The frame of a message has length `len(payload) + 5`. Its first 4 bytes are the big-endian `len(payload) + 1`, byte 4 is the id, and the rest is the payload. A keep-alive is `[0, 0, 0, 0]`. |
| Message.ReadFrame | main.go:169-206 | Round trip: reading the frame of any message, followed by any further bytes, returns that message and consumes exactly its frame. |
| Message.ReadIsFramed | main.go:181-206 | Reverse round trip: whenever reading succeeds, the consumed bytes are exactly the frame of the decoded message. |
| Message.ReadShort | main.go:181-198 | Every proper prefix of a frame fails to decode. It fails with `EOF` when it ends at a read boundary (0 bytes, or exactly the length prefix) and with `ErrUnexpectedEOF` otherwise. |
| Handshake.Serialize | main.go:158-167 | The buffer is the length byte `len(pstr) % 256`, the protocol string, 8 zero bytes, the info-hash and the peer id (`Layout`). |
| Handshake.Layout | main.go:158-167 | Reference definition of the handshake image, `len(pstr) + 49` bytes long. `LayoutOffsets` places each field, `Serialize` computes it, and `FieldsOfLayout` reads it back. |
| Handshake.Append | main.go:161-165 | One `curr += copy(buf[curr:], src)` on a buffer whose first `curr` bytes are written and whose rest is zero. It appends `src` after them and moves the cursor by `len(src)`. |
| Handshake.LayoutOffsets | main.go:158-167 | Each handshake field sits at its fixed offset in a buffer of `len(pstr) + 49` bytes. |
| Handshake.FieldsOfLayout | main.go:158-167 | A handshake whose protocol string is under 256 bytes can be read back from its image. A longer one cannot, because its length byte wrapped. |
| Peers.Unmarshal | main.go:142-156 | Fails exactly when the length is not a multiple of 6. Otherwise it returns `len / 6` peers, where peer `i` has IP bytes `6i..6i+4` and the big-endian port in bytes `6i+4..6i+6`. |
| Peers.Entry | main.go:150-154 | Entry `i` has a 4-byte address. Re-encoding its address and big-endian port gives back bytes `6i..6i+6` of the list. |
| Peers.Entries | main.go:142-156 | Reference definition of a well-formed compact list's peers: one per 6 bytes, `len / 6` in all, each an `Entry`. `Unmarshal` computes it, and `EntriesOfCompact` and `CompactOfEntries` prove it inverse to `Compact`. |
| Peers.EntriesOfCompact | main.go:142-156 | Decoding the compact encoding of any IPv4 peer list gives the list back. |
| Peers.CompactOfEntries | main.go:142-156 | Every well-formed compact list is the encoding of what it decodes to, so decoding loses no byte. |
| Peers.EntriesCons | main.go:150-154 | The first entry is decoded from the first 6 bytes, and the rest from the remaining bytes. |
| Peers.TwoPeers | main.go:142-156 | Worked case: two entries with port `0x1AE1` decode to two peers on port 6881. |
| Download.BlockSize | p2p/p2p.go:33-37 | The next block is non-empty, at most 16384 bytes, and stays inside the piece. It is a full block unless it ends the piece. |
| Download.TilesAppend | p2p/p2p.go:32-45 | Two tilings of the piece that meet at an offset join into one tiling of the combined range. |
| Download.TilesOnward | p2p/p2p.go:32-45 | The requests sent before one run of the request loop tile the piece from 0 up to some offset. Those sent during the run tile it onward from there. Together they tile it from 0 up to the new `requested`. |
| Download.TilesShape | p2p/p2p.go:32-45 | In a tiling every request names the piece, asks for 1 to 16384 bytes inside the tiled range, and ends where the next begins. |
| Download.TilesCover | p2p/p2p.go:32-45 | Every byte of the tiled range is asked for by exactly one request. |
| Download.Ordered | p2p/p2p.go:32-45 | In a tiling a later request never starts before an earlier one ends. |
| Download.Written | p2p/p2p.go:115 | Copying a block into the buffer at offset `begin` keeps the buffer's size. Every offset the block covers holds the block's byte, and every other offset keeps its byte. |
| Download.ReadMessageAsWritten | p2p/p2p.go:104-120 | As written, `readMessage` panics exactly on a failed read, on a keep-alive, and on a `have` beyond the bitfield. When it does not panic, the buffer and the bitfield keep their sizes. |
| Download.HandleDelivery | p2p/p2p.go:104-120 | Corrected `readMessage`. It fails exactly on a failed read or on a `have` or `piece` that the parser rejected. The error is `ConnectionError`, `MalformedHave` or `MalformedPiece` respectively. On success the buffer and the bitfield keep their sizes. |
| Download.HandleDeliveryKeeps | p2p/p2p.go:104-120 | An accepted delivery only adds pieces to the bitfield and never raises the backlog. |
| Download.HandleDeliveryEffect | p2p/p2p.go:104-120 | Corrected `readMessage`. `unchoke` clears and `choke` sets the choke flag. `have` adds exactly its piece. `piece` copies its block, adds the parsed count to `downloaded` and lowers `backlog` by one. Every other message and a keep-alive change nothing. No piece is lost and no size changes. |
| Download.NilMessagePanicsAsWritten | p2p/p2p.go:105-106 | As written, a keep-alive or a failed read panics. Corrected, a keep-alive changes nothing and a failed read is a connection error. |
| Download.ParseErrorIgnoredAsWritten | p2p/p2p.go:111-117 | As written, a rejected `piece` still counts as answered. Corrected, a parser error ends the attempt. |
| Download.DistantHavePanicsAsWritten | p2p/p2p.go:111-113 | As written, a `have` for a piece beyond the bitfield panics. Corrected, it is ignored. |
| Download.CorrectionIsConservative | p2p/p2p.go:104-120 | On every parsed message outside those cases, the corrected and as-written versions reach the same state. |
| Download.PiecesGainedTrans | p2p/p2p.go:29-52 | Held pieces are never lost across successive messages. |
| Download.SendRequests | p2p/p2p.go:32-45 | The request loop as a function of the session and the write script. `requested` only grows and never passes the piece length, and the read script is untouched. |
| Download.Fill | p2p/p2p.go:31-46 | The same for the whole `if !Choked` block. While choked it does nothing. |
| Download.Issue | p2p/p2p.go:39-44 | Reference definition of one successful request write: `requested` grows by one block of at most 16384 bytes and stays inside the piece, the backlog rises by one and nothing else of the state changes, one scripted write is used up, the reads are untouched, and `Request(index, requested, size)` is appended to what was sent. `SendRequestsStep` and `SendRequestsFrame` build on it. |
| Download.TilesSpan | p2p/p2p.go:32-45 | A tiling covers at most one full block (16384 bytes) per request. |
| Download.UnsolicitedPiecesWidenPipeline | p2p/p2p.go:32-45 | The backlog counter is not the number of unanswered requests. From a counter of -3, which three accepted `piece` messages nobody asked for leave behind, one run of the request loop with eight good writes sends eight requests and stops at a counter of 5. |
| Download.SendRequestsStep | p2p/p2p.go:32-45 | One iteration of the request loop. A successful write issues the next request and goes on. A failed or missing write stops the loop with `false`. |
| Download.SendRequestsFrame | p2p/p2p.go:32-45 | The loop only appends to what was sent, and the new requests tile the piece onward from the old `requested`. The state changes only in the backlog, which rises by the number of requests sent. A backlog of at most 5 stays at most 5. |
| Download.SendRequestsWrites | p2p/p2p.go:39-44 | Every write behind a sent request succeeded. A `true` return leaves the rest of the write script untouched, and the loop then stopped on a full pipeline or a fully requested piece. |
| Download.SendRequestsStop | p2p/p2p.go:39-42 | A `false` return means the next write failed and was consumed, or the write script ran out. |
| Download.RequestsMeaning | p2p/p2p.go:32-45 | After the request loop the backlog has risen by exactly the number of requests sent. Those requests tile the piece from the old to the new `requested`. Every write consumed succeeded, except that `false` means the last one failed or the script ran out. The backlog stays at most 5. `true` means the pipeline is full or the piece fully requested. |
| Download.FillWrites | p2p/p2p.go:31-46 | The block consumes a prefix of the write script. All of it succeeded on `true`. On `false` the script ran out or the last write consumed failed. |
| Download.AttemptRound | p2p/p2p.go:29-51 | One pass of the outer loop. A failed write ends the attempt with `WriteFailed` and an exhausted read script with `ConnectionError`. A rejected delivery ends it with its error. An accepted one continues from the state it leads to. |
| Download.Attempt | p2p/p2p.go:17-54 | Reference definition of `attemptDownloadPiece` on a session: `requested` only grows and never passes the piece length. `AttemptRound`, `AttemptScripts`, `AttemptReplay`, `AttemptOutcome` and `AttemptWrites` prove what it does, and `AttemptDownloadPiece` computes it. |
| Download.Begin | p2p/p2p.go:18-22 | Reference definition of the session an attempt starts from: a buffer of the piece's length, `downloaded`, `backlog` and `requested` at 0, and the connection's state and scripts as they are. `AttemptDownloadPiece` starts `Attempt` from it. |
| Download.ReplayUnpaced | p2p/p2p.go:104-120 | The backlog never affects what a sequence of deliveries does to the rest of the state. |
| Download.AttemptScripts | p2p/p2p.go:17-55 | An attempt consumes a prefix of the read script and of the write script, and only appends to what was sent. |
| Download.AttemptReplay | p2p/p2p.go:29-52 | Apart from the backlog, the state an attempt ends in is the replay, one `readMessage` at a time, of exactly the deliveries it took. |
| Download.AttemptOutcome | p2p/p2p.go:29-54 | An attempt succeeds only with `downloaded >= length`, and it then returns the buffer. A failure other than a failed write means the read script ran out (`ConnectionError`) or the last delivery taken was rejected with that error. In every case each earlier delivery was accepted. |
| Download.AttemptWrites | p2p/p2p.go:39-42 | Every write an attempt consumed succeeded, unless it failed with `WriteFailed`. In that case the last write consumed failed or the write script ran out. |
| Download.PieceProgress.constructor | p2p/p2p.go:18-22 | A new attempt has a zero buffer of the piece's length and all counters at 0. |
| Download.PieceProgress.RequestBlocks | p2p/p2p.go:31-45 | The loop computes `SendRequests` of the state before it, so `RequestsMeaning` applies. The backlog rises by exactly the number of requests sent. Every write used succeeded, except that `false` means the last write failed or the script ran out. `true` means the backlog is full or the piece fully requested. `requested` stays within `[0, length]`, `backlog` stays at most 5, and the requests sent so far tile the piece from 0 up to `requested`. None goes out while choked. |
| Download.PieceProgress.ReadMessage | p2p/p2p.go:104-120 | Reads one delivery and changes the choke flag, bitfield, buffer and counters exactly as `HandleDelivery` says, which is `ReadStep` of the session. On an error nothing changes. No held piece is lost and the backlog never rises. |
| Download.ReadStep | p2p/p2p.go:104-120 | Reference definition of one `readMessage` on a session: it consumes exactly one delivery, and none left is a `ConnectionError`. It writes nothing and leaves `requested` alone, and a rejected delivery leaves the state as it was. `HandleDeliveryEffect` gives the change an accepted one makes. |
| Download.RoundStep | p2p/p2p.go:29-51 | One pass of the outer loop is the request block followed by one `readMessage` (`ReadStep`). The attempt then ends with the pass's error in the state the pass left, or goes on from that state. |
| Download.PieceProgress.Round | p2p/p2p.go:29-51 | One pass of the outer loop on the live objects. It is one step of `Attempt`: the attempt from the old state equals the attempt from the new one, or ends here with `err`. A pass that goes on has consumed a delivery. It keeps the request counters within bounds and the requests tiling the piece, sends nothing while choked, never rewrites what was sent before and loses no held piece. |
| Download.AttemptDownloadPiece | p2p/p2p.go:17-55 | The requests of an attempt tile the piece from offset 0 without overlap, and the backlog counter never exceeds 5. None is sent while the peer chokes us, and no held piece is lost. On success the result is the piece buffer of `length` bytes, with `downloaded >= length`. The result and the final state are `Attempt` of the starting session, so `AttemptOutcome`, `AttemptReplay` and `AttemptWrites` apply: the buffer is the replay of the deliveries taken, and a failure is a failed or missing write, an exhausted read script, or a rejected delivery. |
| PeerClient.Client.Read | p2p/p2p.go:105 | Takes the next scripted delivery. An exhausted script is a read error. |
| PeerClient.Client.Write | p2p/p2p.go:39-42 | A write succeeds as scripted, and exactly successful writes are recorded. |
| PeerClient.Client.SendRequest | p2p/p2p.go:39 | Writes a request, and counts it if it went out while choked. |
| PeerClient.Client.SendHave | p2p/p2p.go:90 | Writes a `have` message. |
| Worker.Requeue | p2p/p2p.go:71 | Putting the front item back keeps the queue's length and contents. |
| Worker.IndicesAppend | p2p/p2p.go:69-92 | The piece indices of a concatenated queue are those of the two parts. |
| Worker.ResultIndicesAppend | p2p/p2p.go:91 | The piece indices of concatenated results are those of the two parts. |
| Worker.RequeueConserves | p2p/p2p.go:71 | Putting a piece back keeps the multiset of queued piece indices. |
| Worker.PublishConserves | p2p/p2p.go:90-91 | Publishing the front item moves its index from the queue to the results. |
| Worker.Fetch | p2p/p2p.go:75-91 | Download, check and announce, decided by `Attempted`: the attempt at the piece from the connection as it was (`Opening`). The worker exits exactly when the attempt fails. A completed or corrupt buffer is the attempt's buffer, of the piece's length. It is completed exactly when it passes the integrity check and corrupt exactly when it fails it. The connection (inbox, choke flag, bitfield, write script, sent messages) is left as the attempt left it (`Announced`), except that a completed piece, and only a completed one, is followed by one `have` write. That write uses up the next scripted write and is recorded when it succeeds; its error is ignored, as in Go. No held piece is lost. |
| Worker.WorkerStep | p2p/p2p.go:69-92 | The piece is unavailable exactly when the peer's bitfield lacks it, and then the connection and its bitfield are unchanged. Every outcome other than completion puts the piece back at the tail without publishing. Completion publishes exactly one result: the piece's index and a buffer of its length that passes the check. The pass is one `Pass` from the old stage to the new one, with `Attempted` over the old connection as its run: it `Moves` the queue, and it `Worked`, so for a piece the peer holds `Settled` decides the outcome by the run, makes the published result the run's buffer, and gives the new connection by `Announced`. A `have` was written exactly when `HaveWritten` holds of the run's final session. No piece is created or dropped across queue and results. |
| Worker.Rotate | p2p/p2p.go:69-73 | Taking and putting back `k` items keeps the queue's contents. |
| Worker.RotateSplit | p2p/p2p.go:69-73 | After `k <= len` put-backs, the first `k` items have moved to the end in order. |
| Worker.RotateAll | p2p/p2p.go:69-73 | One put-back per item restores the queue. |
| Worker.Advance | p2p/p2p.go:71-91 | A completed piece leaves the queue. Any other pass puts the item it took back at the tail, behind the rest of the queue in order. |
| Worker.TraceExtend | p2p/p2p.go:69-92 | One more `Pass` extends the trace of passes by its stage, run and outcome, and the count of completed pieces grows by one exactly when the pass completed its piece. |
| Worker.WalkExtend | p2p/p2p.go:69-92 | One more move of the queue extends the walk of moves. |
| Worker.RecordWorked | p2p/p2p.go:69-92 | Every pass `k` of a record `Worked` from `stages[k]` to `stages[k + 1]` through `runs[k]`: no held piece lost, and for a held piece the run is `Attempted` over the connection it found and `Settled` gives the outcome, the results and the new connection. |
| Worker.TracePass | p2p/p2p.go:69-92 | Every pass `k` of a trace is a `Pass` from `stages[k]` to `stages[k + 1]` through `runs[k]`: it `Moves` the queue by its outcome and it `Worked`. |
| Worker.NoneCompleted | p2p/p2p.go:69-92 | When every pass found its piece unavailable, no piece was counted as completed. |
| Worker.NoneHeldStep | p2p/p2p.go:69-73 | One pass from a rotation of a queue none of whose pieces the peer holds, after passes that all found their piece unavailable, finds its piece unavailable too. It leaves the connection and the results as they were and rotates the queue once more. |
| Worker.NoneHeldRotates | p2p/p2p.go:69-73 | Along the passes from a queue none of whose pieces the peer holds, every pass finds its piece unavailable and leaves the connection and the results alone, and the queue only rotates. |
| Worker.Turn | p2p/p2p.go:69-92 | One pass of the worker loop, added to the trace of the passes before it with its attempt as the run (`Logged`). The pool and the connection are then the last stage of the longer trace, the results grew by one exactly when the pass completed its piece, and no piece is created or dropped. |
| Worker.RunWorker | p2p/p2p.go:69-92 | `outcomes` records how each pass ended. Every pass but the last continued, and the worker exited exactly when the last pass was a failed download. It stops before `turns` passes only on that exit or on an empty queue. `stages` records the queue, the connection (inbox, choke flag, bitfield, write script, sent messages) and the results before each pass, from the initial ones to the final ones, and `runs` the attempt of each pass (`Trace`, read pass by pass through `TracePass`). Pass `k` took the front of its queue and found it unavailable exactly when the bitfield lacks it, and then changed nothing but the queue. Otherwise its run is `Attempted` over the connection of `stages[k]`: the run decides the outcome, a completed pass appends exactly the piece's index and the run's buffer to the results and every other pass leaves them, and the next connection is the run's final session followed, after completion only, by the `have` write. Every pass left the queue `Advance`d by its outcome and lost no held piece. The results only grow, by one per completed pass. Over all passes no piece is created or dropped. When the peer holds none of the queued pieces, the worker only rotates the queue, publishes nothing and leaves the connection as it was. |

## Left out

- Sockets, the 30-second deadline (`SetDeadline`) and blocking reads are not modelled. The connection is the scripted `PeerClient.Client`, and an exhausted script stands for the deadline.
- Goroutines and channels are not modelled. The work queue and the results channel are sequences in `Worker.Pool` under one worker, so concurrent workers sharing the queue are out of scope. The Go loop blocks on an empty queue; `Worker.RunWorker` stops there instead.
- `client.New`, the handshake exchange, `SendUnchoke` and `SendInterested` (p2p/p2p.go:57-67) are not modelled. They live in a client package that is not part of this model, and only the sending side of the handshake (`Handshake.Serialize`) is in the source.
- `message.ParseHave` and `message.ParsePiece` are not modelled. Their package is not part of this model, so their results arrive with each message as a `PeerClient.Parsed` record.
- `checkIntegrity` and SHA-1 are not modelled. Integrity is the worker's `intact` parameter.
- `Open`, `toTorrentFile`, `buildTrackerURL` and `main` (main.go:111-140, 291-293) are not modelled. They are bencode and URL handling outside the peer protocol core, and `toTorrentFile`'s body is elided in the source.
- The `torrentfile` package is not part of this model.
- Logging is not modelled.
- `Message.Serialize`: requires the payload to be at most `2^32 - 6` bytes. Beyond that, Go's `uint32(len(payload) + 1)` wraps and the buffer size with it, and that is not modelled.
- `Message.Read` decodes from an in-memory byte sequence rather than an `io.Reader`. A partial read of either field is reported as `io.ReadFull` reports it (`EOF` when nothing was read, otherwise `ErrUnexpectedEOF`).
- The Go code does not compile as it stands: its `client`, `message`, `peers` and `time` packages and its `Torrent`, `pieceWork` and `pieceResult` types are not shown or imported, and several `err` variables are unused. The model gives them the evident meaning.
- `Download.AttemptDownloadPiece` uses the corrected `readMessage`, `Download.PieceProgress.ReadMessage`. The as-written behaviour appears only in `Download.ReadMessageAsWritten` and the findings below.
- `Worker.WorkerStep` checks the bitfield with the corrected `Bitfield.HasPieceBounded`, so a piece beyond a short bitfield counts as unavailable instead of panicking.
- The body of the outer loop of `attemptDownloadPiece` is the method `Download.PieceProgress.Round`, which Go writes inline. `Download.PieceProgress.RequestBlocks` leaves its loop through the flag `ok` where Go returns the write error from inside the loop, and `Round` turns that flag into `WriteFailed`. The result and the state are the same.
- `Download.AttemptDownloadPiece`: bounds the backlog counter by 5, not the number of unanswered requests. Go decrements the counter for every accepted `piece` (p2p/p2p.go:117), solicited or not, so after unsolicited blocks more than 5 requests can be in flight at once (`Download.UnsolicitedPiecesWidenPipeline`). Whether that is intended is not evident from the source, so the model keeps Go's counter.
- `Download.AttemptDownloadPiece`: does not promise termination for an everlasting peer. The loop is bounded by the finite script, which stands for the deadline.

## Findings

| source | as written | input that shows it | evidently intended | confidence | as-written member | corrected member |
|---|---|---|---|---|---|---|
| p2p/p2p.go:105-106 | `msg.ID` is read before `err` or a nil `msg` is checked | a keep-alive (`Read` returns `nil, nil`) or a failed read (`nil, err`) | a keep-alive is skipped and a read error ends the attempt | high, not executed | Download.NilMessagePanicsAsWritten | Download.HandleDeliveryEffect |
| p2p/p2p.go:111-117 | the errors of `ParseHave` and `ParsePiece` are assigned and never checked | a `piece` message the parser rejects: `backlog` is still decremented | a parser error ends the attempt | high, not executed | Download.ParseErrorIgnoredAsWritten | Download.HandleDeliveryEffect |
| main.go:212-224 | `bf[byteIndex]` is indexed without a bounds check | `have` with index 800 from a peer whose bitfield has 10 bytes | a piece beyond the bitfield reads as absent and setting it is ignored | medium, not executed | Download.DistantHavePanicsAsWritten | Bitfield.BoundedSetThenHas |
