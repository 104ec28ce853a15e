# GoFD verification

A Dafny model of the peer-to-peer core of GoFD, a file distributor: a server
dispatches a set of files to a chain of agents, and every agent downloads from a
node before it in the chain.

| file | what it models |
|---|---|
| Pieces.dfy | how files are cut into pieces and blocks; a piece that is being downloaded |
| Protocol.dfy, SessionProperties.dfy | what a session does with one message, as a relation, and what every message of every peer keeps |
| Answers.dfy | what a session asks, serves and stores for each message, said of its state alone |
| Session.dfy | the session itself: an event loop with peers, active pieces and stored content, proved to take the steps of the relation |
| Bitset.dfy, Wire.dfy | the bitset of a peer over its bytes; the messages over theirs |
| Swarm.dfy, SwarmSafety.dfy, SwarmTermination.dfy | a chain of sessions joined by first-in first-out queues: consistency, absence of stalls, termination |
| Node.dfy | session objects as the nodes of the chain: what they do with raw messages is the steps of the chain |
| LinkChain.dfy | how the chain is built and which nodes an agent dials |
| FileStore.dfy | several files read and written as one |
| Boxes.dfy, RamCache.dfy, Eviction.dfy | the write-back cache with a box for each piece and a bit for each byte |
| CacheDiscipline.dfy, CachedStore.dfy, CacheRuns.dfy | the cache over the files against a plain sequence of bytes |
| EvictionOrder.dfy | which boxes go over whole runs of one cache |
| CachedSession.dfy | the pieces that a session holds in a store with a cache, under arbitrary peers |
| CacheBudget.dfy | sharing the memory between caches |
| FlowControl.dfy | the rate limiter |
| Hashing.dfy | hashing all pieces by a pool of workers |
| Bytes.dfy | windows and splices of byte strings |

`dafny verify dfyconfig.toml` checks everything.

## Parameters and assumptions

- The block length, the piece length, the longest accepted block and the hash are
  parameters. The swarm results assume that the block length divides the piece
  length; server/taskmgnt.go:170 and p2p/meta.go:128-140 see to that, and
  `Pieces.RequestsFitIff` says exactly when it is needed. Files are not all empty.
- The hash is injective only where equal content is claimed.
- `rand.Intn`, the order of map iteration, the clock, the result of a connection
  attempt and the failure of a file are arbitrary. The clock never goes back.
- A swarm run has no failure of a file or a connection, and queues are unbounded.
  The single session is modelled under arbitrary messages and failing files.
- A cache and its files agree with a plain sequence of bytes after any write. Trimming,
  writing back and committing can break that, and exactly when they do is proved for one
  box (`Evictions.EvictIff`, `DropIff`, `MarkIff`), for one step and for whole runs
  (`CacheRuns.RunsAgreeIff`), in which files may fail at any time. If no write meets a
  committed box, as p2p/session.go:404-408 sees to, and boxes are marked when they are
  filled, only writing back evicted boxes matters (`RunsRefineIff`). Writing one block per
  piece, as configured, leaves no gap, so only a failing file does (`RunsByPieceIff`).
  `CacheDiscipline.GapLosesByte`, `LostChunkLosesByte` and `MarkHidesByte` show inputs
  where a step is harmful.

## Where the code differs from what it says

- A failed dial is fatal. p2p/session.go:238 closes the connection that
  `net.DialTimeout` did not make, before it counts the failure, and nothing in the
  repository recovers from that. So no dead node is ever skipped, and the limit of
  ten failures at p2p/session.go:222 is never met. `LinkChains.SurvivesIff` and
  `DeadNodeIsFatal` state this.
- The one read of `connectToPeer` has no deadline (p2p/session.go:256), so a node that
  takes the connection and stays silent blocks the event loop of the session for good.
  Only a node that hangs up is tried again (`LinkChains.HangupIsRetried`).
- `writeAt` holds the lock that `trimCommitted` takes again (p2p/cache.go:210, 273), so
  in the program a write returns exactly when the resident boxes after it are at most the
  capacity. The contract of `RamCaches.RAMCache.WriteAt` shows that it trims nothing then;
  otherwise it, and what builds on it, describes what the trimming would do.
- A block of zeros in the short last piece can pass `decodePiece` and lie behind the
  last block of that piece; recording it indexes out of range (p2p/session.go:487).
  `SessionProperties.CrashesIff` gives the exact condition. It needs pieces of more than
  one block: with the piece length of server/taskmgnt.go:170 and the block length of
  p2p/piece.go:12, both 256 MiB, it cannot happen (`OneBlockIsSafe`).
- A block that is shorter than was asked for is recorded as a whole one
  (p2p/session.go:475, 489). With matching bytes on disk its piece is verified, and
  with a cache committing the piece hides these bytes (`CachedSessions.ShortBlockHides`,
  `ShortBlockIsTaken`). The piece reads back right exactly when the buffer of its box had
  the bytes on disk wherever nothing was written, or once its box is dropped.
- A verified piece counts as held even if `Commit` failed, because that only logs the
  error (p2p/session.go:506-508, p2p/file.go:166-172), and an error while evicted data is
  written back is ignored (p2p/file.go:157). Such a piece is lost for the session's peers
  when its box is evicted with a gap that is not on disk, or with bytes that do not reach
  the files, and only then (`CachedSessions.FailedCommitLoses`, `VerifiedReadsBackIff`).
- A rejected bitfield leaves `p.have` nil (p2p/session.go:382); a later message of
  that peer that was already queued would be fatal. This is part of the same condition.
- `trimCommitted` removes box 0 before it looks at the usage, so it may drop one
  box that could stay (p2p/cache.go:274-281).
- `TaskSession.Init` tests the file store before it exists (p2p/session.go:699), so a
  session runs without cache; the cache is modelled with the store through `SetCache`.

## Model

| member | source | states |
|---|---|---|
| SwarmTermination.EveryRunFinishes | p2p/session.go:360-424 | every failure-free run of an honest chain, for any schedule and any choices, is finite: it comes to a state where no step is left and nothing changes any more, and there every node holds all pieces and exactly the source files |
| SwarmTermination.RunFinishes | p2p/session.go:360-424 | the same from any consistent state, by a lexicographic measure |
| SwarmTermination.NextDrops | p2p/session.go:360-424 | every step lowers (connections to make, blocks missing, announcements under way, requests and replies for stored blocks, requests without reply) |
| SwarmTermination.CanStep | p2p/session.go:360-424 | no deadlock: as long as some node is incomplete, some step is possible |
| SwarmTermination.RunExists | p2p/session.go:360-424 | from any state there is a run that takes a step whenever it can |
| SwarmTermination.ChainStarts | p2p/session.go:112-161 | a server with the source and agents with anything on their disks, each holding what it found good there or nothing, are a chain to start from |
| SwarmSafety.RunOk | p2p/session.go:360-424 | the consistency of the chain (what is known of a peer is true, what is not known is announced or already held, nobody who wants a known piece is idle) holds in every state of every run |
| SwarmSafety.NextKeeps | p2p/session.go:360-424 | the consistency is kept by every step; no step refuses a message, closes a peer, crashes or finds a bad piece |
| SwarmSafety.AgentKeeps | p2p/session.go:377-379 | an agent that hears from upstream stays consistent with it and, if it wants a known piece, has a request or a reply under way |
| SwarmSafety.UpstreamKeeps | p2p/session.go:426-471 | no request between honest nodes is refused, and the reply carries the source bytes |
| SwarmSafety.NeighbourKeeps | p2p/session.go:529-536 | a finished piece is announced on every other link, or known there |
| SwarmSafety.NoStall | p2p/session.go:596-627 | an agent that lacks a piece its upstream node is known to have has a REQUEST or PIECE in flight |
| SwarmSafety.QuiescentIsDone | p2p/session.go:360-424 | when every agent is complete or connected and all queues are empty, every node holds exactly the source |
| SwarmSafety.InitOk | p2p/session.go:112-161 | an honest chain starts consistent |
| SwarmSafety.BlockIsStored | p2p/session.go:410-417 | an honest block passes the checks and changes exactly the bytes of its own block to those of the source |
| SwarmSafety.ReplyIsBlock | p2p/session.go:455-471 | the reply to a request for a held piece is the block of the source |
| SwarmSafety.FullPieceIsGood | p2p/piece.go:110-144 | a piece whose blocks were all stored from honest data has the right digest |
| SwarmSafety.VerifiedIsGenuine | p2p/piece.go:35-60 | without collisions, what is found good on disk is the source |
| Nodes.TakeFromUp | p2p/session.go:360-424 | a session object that is an agent of the chain, given the bytes of the oldest message from its upstream node, takes exactly a step of the chain and is its node afterwards: what it sends on every connection is what the step puts there |
| Nodes.TakeFromDown | p2p/session.go:360-424 | the same for a message from an agent that connected to it |
| Nodes.Connect | p2p/session.go:266-276 | a new connection of the object is a dial of the chain, with the bitfield on its way |
| Nodes.TakeConnection | p2p/session.go:279-308 | and at the other end it is an accept of the chain |
| Nodes.OthersAfterUp | p2p/session.go:360-424 | every other object stays its node of the chain; for the one that sent the message it is handled now |
| Nodes.OthersAfterDown | p2p/session.go:360-424 | the same for a message from an agent |
| Nodes.OthersAfterDial | p2p/session.go:266-276 | a dial concerns no other node |
| Nodes.OthersAfterAccept | p2p/session.go:279-308 | an accept concerns no node but the one that accepts, not even the agent that dialled |
| Nodes.AnnouncedAt | p2p/session.go:529-536 | an announcement of the chain puts one HAVE on a connection of the node if the other end is not known to have the piece, and nothing otherwise |
| SessionProperties.RunKeeps | p2p/session.go:360-424 | over any run under arbitrary peers held pieces stay held, verified and untouched, and the files are deployed at most once, exactly when the session becomes complete |
| SessionProperties.HandlesKeepsAccounts | p2p/session.go:474-539 | every message of every peer keeps the accounting: active and held pieces disjoint, no active piece complete, counts at least -1, goodPieces the number of held pieces |
| SessionProperties.HandlesKeepsStored | p2p/session.go:474-539 | over a whole message of any peer, a block that is stored (count -1) stays so while its piece is active; only the message that makes a piece bad gives its blocks up |
| SessionProperties.HandlesKeepsVerified | p2p/session.go:404-418 | every message keeps the digests of all held pieces right and the bytes of the pieces held before unchanged |
| SessionProperties.CompleteIsSource | p2p/piece.go:129-144 | with an injective hash a complete session holds the source files |
| SessionProperties.CompleteWhenCounted | p2p/session.go:507-520 | goodPieces equals totalPieces exactly when all bits are set |
| SessionProperties.WriteStaysInPiece | p2p/session.go:410-414 | a write that passed the range check does not touch the bytes of another piece |
| SessionProperties.WorkConserved | p2p/session.go:596-639 | asking a peer sends exactly one request, for a block not stored of a missing piece it has, if there is such a piece, and none otherwise |
| Answers.FirstRequest | p2p/session.go:596-627 | of several requests to a peer the first is for a block of a piece that it has and that is missing here; the count of that block goes up by one and nothing else changes, and the other requests follow |
| Answers.UntouchedFirst | p2p/session.go:597-604 | if a started piece that the peer has holds a block nobody was asked for, such a block is asked for, the first of its piece, and no piece is started |
| Answers.NewPieceNext | p2p/session.go:607-626 | if there is none, and the peer has a piece that is neither held nor started, one such piece is started with its first block |
| Answers.LeastAskedLast | p2p/session.go:608-617 | only if there is neither is a block asked for again: the first of the least requested ones of its piece that are not stored |
| Answers.RequestSpan | p2p/session.go:642-655 | a request covers exactly the bytes of the files that belong to its block |
| Answers.ForgetUndoesAsking | p2p/session.go:339-344 | forgetting a request restores the state before it, up to a piece that was started for it |
| Answers.HaveAnswer | p2p/session.go:364-379 | a HAVE in range adds the piece to what is known of the peer; an upstream peer with a missing piece gets exactly five requests, any other none |
| Answers.BitfieldAnswer | p2p/session.go:380-388 | a bitfield replaces what is known of the peer; an upstream peer with a missing piece gets exactly one request, any other none |
| Answers.RequestAnswer | p2p/session.go:426-471 | a request is answered if and only if it is for bytes of a held piece that can be read, and then byte by byte with what is stored, and zeros past the end |
| Answers.BlockNotStored | p2p/session.go:541-569 | a block out of range or too long stores nothing and costs the connection; one of a held piece stores nothing either and does not |
| Answers.BlockAnswer | p2p/session.go:404-539 | a block of a started piece is written where it belongs, counted, and never asked for again; with the last missing one the piece is held and announced if it has its digest, and the peer is closed otherwise |
| Answers.UnstartedBlock | p2p/session.go:481-485 | a block of a piece that is neither held nor started is written and nothing is noted of it |
| Answers.FailedWriteAnswer | p2p/session.go:410-414 | a failing write costs the connection and leaves exactly what was written before the failure |
| Answers.TailAnswer | p2p/file.go:207-216 | so does a byte other than zero behind the end of the files |
| SessionProperties.RequestedKeeps | p2p/session.go:596-639 | asking keeps the accounting and changes nothing but counts of blocks that are not stored |
| SessionProperties.CanHandle | p2p/session.go:360-424 | every message has a reaction in every state |
| SessionProperties.ForgetKeeps | p2p/session.go:339-344 | forgetting a request keeps the accounting |
| SessionProperties.CrashesIff | p2p/session.go:541-569 | a message kills the session, whatever the files do, if and only if it needs the bitset of a peer whose bitfield was rejected, or is a block of zeros behind the last block of the last piece, which is started |
| SessionProperties.OwnPieceIsSafe | p2p/session.go:550-561 | a block that starts inside its own piece, or is not of the last piece, never kills the session |
| SessionProperties.OneBlockIsSafe | p2p/session.go:550-561 | with pieces of one block, as configured, no block is ever fatal |
| SessionProperties.ShortPieceCrash | p2p/session.go:487-487 | a concrete block of the short last piece that passes the checks and is fatal |
| Sessions.Session.GeneralMessage | p2p/session.go:360-424 | handling one raw message takes exactly one step of the protocol relation, whatever the bytes; the peer gets exactly what the step says, and every other peer that is not known to have a newly held piece gets one HAVE; all held pieces stay verified and untouched |
| Sessions.Session.Dispatch | p2p/session.go:360-424 | the same, by the kind of the message |
| Sessions.Session.HaveMessage | p2p/session.go:364-379 | a HAVE of the wrong length or out of range closes the peer; another one is learned and followed by five requests to an upstream peer |
| Sessions.Session.BitfieldMessage | p2p/session.go:380-388 | a rejected bitfield leaves the peer without a bitset; an accepted one replaces it and is followed by one request to an upstream peer |
| Sessions.Session.RequestMessage | p2p/session.go:389-395 | a request for a piece not held or out of the piece is refused, any other is answered with the stored bytes |
| Sessions.Session.PieceMessage | p2p/session.go:396-418 | a block is refused, ignored, or written and recorded; then the next block is requested |
| Sessions.Session.StoreAndRequest | p2p/session.go:410-418 | the write, the record and the next request in this order, with the failure of each |
| Sessions.Session.RecordBlock | p2p/session.go:474-539 | the block is noted, a full piece is checked, and a good one is accepted and announced to exactly the peers that are not known to have it |
| Sessions.Session.CheckAndAccept | p2p/session.go:495-520 | a full piece is accepted exactly when its digest is right; the last one starts the deployment |
| Sessions.Session.Announce | p2p/session.go:529-536 | every peer that is not known to have the piece gets one HAVE, no other peer gets anything |
| Sessions.Session.RequestBlock | p2p/session.go:596-627 | for any random start and any map order exactly one request goes out if the peer has a missing piece, none otherwise, and EOF is never returned; which block it is for is stated by `Answers` |
| Sessions.Session.RequestBlock2 | p2p/session.go:629-639 | one request for the chosen block, or EOF when there is nothing to choose |
| Sessions.Session.RequestBlockImp | p2p/session.go:642-655 | the request names the block and clips its length only at the end of the last piece |
| Sessions.Session.ChoosePiece | p2p/session.go:572-580 | finds a piece that the peer has and that is neither held nor started, if there is one, for any random start |
| Sessions.Session.CheckRange | p2p/session.go:582-593 | the same in one range of indices |
| Sessions.Session.RemoveRequest | p2p/session.go:339-344 | one request less is counted for the block, unless it is stored or not requested |
| Sessions.Session.RemoveRequests | p2p/session.go:326-336 | every outstanding request of the peer is forgotten once, in any order |
| Sessions.OneKeyForgotten | p2p/session.go:326-344 | one outstanding request lowers the count of its own block by one, if that is positive, and no other count |
| Sessions.Session.ClosePeer | p2p/session.go:319-323 | the peer is gone and its requests are forgotten |
| Sessions.Session.AddPeer | p2p/session.go:290-308 | the new peer is told the held pieces and nothing is known of it |
| Sessions.Session.Client | p2p/session.go:129-161 | a client starts with the pieces found good on disk |
| Sessions.Session.Server | p2p/session.go:112-127 | the server starts with every piece, all with the right digest |
| Sessions.Session.CheckPiece | p2p/piece.go:110-144 | a piece is good exactly when it can be read and has its digest |
| Sessions.CheckPieces | p2p/piece.go:35-60 | the set and the number of good pieces |
| SessionProperties.GoodPiecesAre | p2p/piece.go:35-60 | a piece is good exactly when the bytes at its place have its digest |
| Pieces.PiecesTileFile | p2p/piece.go:23-32 | all pieces but the last have full length, the last is not empty, and together they have the total size |
| Pieces.PieceSpan | p2p/piece.go:23-32 | a byte lies in the span of a piece exactly when that is its piece |
| Pieces.BlockSpan | p2p/session.go:642-655 | the requested blocks of all pieces tile the files: a byte is in the span of a request exactly when that is its block |
| Pieces.RequestFits | p2p/session.go:642-655 | a requested block is not empty and inside its piece |
| Pieces.RequestsFitIff | p2p/session.go:642-655 | all requests stay inside their pieces if and only if the block length divides the piece length or there is one piece |
| Pieces.ActivePiece.constructor | p2p/piece.go:153-156 | a started piece has a zero count for each of its blocks |
| Pieces.ActivePiece.ChooseBlockToDownload | p2p/piece.go:158-186 | the first untouched block, or in the endgame the first least requested one that is not stored; its count goes up |
| Pieces.ActivePiece.RecordBlock | p2p/piece.go:188-192 | the count of the block becomes -1 and the old one is returned |
| Pieces.ActivePiece.IsComplete | p2p/piece.go:194-201 | true exactly when every block is stored |
| Bitsets.NewBitsetFromBytes | p2p/bitset.go:28-38 | rejects exactly data of the wrong length or with a spare bit set; otherwise the set is that of the data |
| Bitsets.RoundTrip | p2p/bitset.go:28-38 | the bytes of a bitset read back as the same set |
| Bitsets.SameSetSameBytes | p2p/bitset.go:17-38 | two byte strings with clear spare bits and the same set are the same |
| Bitsets.SpareBits | p2p/bitset.go:28-38 | the mask test of the last byte finds exactly the spare bits |
| Bitsets.SetAt | p2p/bitset.go:41-44 | setting a bit adds its index to the set and keeps spare bits clear |
| Bitsets.ClearAt | p2p/bitset.go:47-50 | clearing a bit removes its index and keeps spare bits clear |
| Bitsets.Bitset.Set | p2p/bitset.go:41-44 | adds an index in place |
| Bitsets.Bitset.Clear | p2p/bitset.go:47-50 | removes an index in place |
| Bitsets.Bitset.IsSet | p2p/bitset.go:53-56 | true exactly for the elements |
| Bitsets.Bitset.FindNextSet | p2p/bitset.go:84-91 | the least element from an index on, or -1 if there is none |
| Bitsets.Bitset.FindNextClear | p2p/bitset.go:95-102 | the least index from an index on that is not an element, or -1 if there is none |
| Wire.PrintThenParse | p2p/peer.go:150-180 | every message that is sent is decoded as what it was |
| Wire.ParseThenPrint | p2p/session.go:360-424 | no other bytes are understood: what is decoded is the print of what it says |
| Wire.HaveBytes | p2p/peer.go:159-165 | HAVE: the tag 0 and the piece, highest byte first |
| Wire.BitfieldBytes | p2p/bitset.go:41-57 | BITFIELD: the tag 1 and one bit for each piece, the high bit of the first byte for piece 0 |
| Wire.RequestBytes | p2p/peer.go:168-180 | REQUEST: the tag 2, the piece, the offset and the length, in this order |
| Wire.PieceBytesAre | p2p/session.go:455-471 | PIECE: the tag 3, the piece, the offset and the data, in this order |
| Wire.DigitsRoundTrip | p2p/utils.go:25-31 | big-endian numbers of any length are read back |
| Wire.Uint32RoundTrip | p2p/utils.go:25-31 | a 32-bit number is read back from its four bytes |
| Wire.PutUint32 | p2p/utils.go:25-27 | four bytes of the buffer become the number, the others stay |
| Wire.SendHave | p2p/peer.go:159-165 | fills a buffer with the HAVE message |
| Wire.SendBitfield | p2p/peer.go:150-156 | fills a buffer with the BITFIELD message |
| Wire.SendRequest | p2p/peer.go:168-173 | fills a buffer with the REQUEST message |
| Sessions.Peer.SendRequest | p2p/peer.go:174-179 | the request is sent and its key is kept as outstanding |
| Wire.KeyRoundTrip | p2p/session.go:328-331 | piece and offset are recovered from the key of an outstanding request |
| FileStores.FileStore.constructor | p2p/file.go:51-77 | the offset table of any files, empty ones included |
| FileStores.FileStore.Find | p2p/file.go:84-99 | the last file that starts at or before the offset |
| FileStores.FileStore.RawReadAt | p2p/file.go:121-149 | without an error, the slice of the concatenation padded with zeros; with one, a prefix of it |
| FileStores.FileStore.RawWriteAt | p2p/file.go:178-212 | splices the bytes into the concatenation and keeps all lengths; rejects exactly a nonzero tail past the end; a failing file leaves a prefix written |
| FileStores.PartOf | p2p/file.go:51-77 | each file is the slice of the concatenation at its offset |
| FileStores.ReplacePart | p2p/file.go:178-212 | changing one file without changing its length is a splice of the concatenation |
| RamCaches.RAMCache.ReadAt | p2p/cache.go:153-206 | fills exactly the cached positions and returns non-empty, disjoint, increasing ranges that cover exactly the others; two ranges that touch are one, unless the second starts a partly written box |
| RamCaches.RAMCache.ReadAbsent | p2p/cache.go:162-176 | a missing box extends the last range when that ends here, and adds one otherwise |
| RamCaches.RAMCache.ReadPartial | p2p/cache.go:179-201 | the set bytes are copied and the gaps become ranges |
| RamCaches.RAMCache.WriteAt | p2p/cache.go:209-240 | the written bytes are cached, all others as before, and exactly the boxes that the write reaches get the time of the write; then, were the lock free for the trimming, the usage is the smaller of the capacity and the number of boxes resident after writing, and nothing is trimmed when these fit |
| Boxes.TouchesIff | p2p/cache.go:215-235 | a write reaches a box if and only if one of its bytes falls into it |
| EvictionOrder.OldestGo | p2p/cache.go:286-336 | over every run of writes, commits and rebalancings, a box that a write evicts was last written no later than any box that stays resident, unless the clock stood still between the two writes |
| RamCaches.RAMCache.Trim | p2p/cache.go:286-336 | committed boxes first, in index order, then the oldest others, one chunk each with all its set bytes; from above the capacity exactly down to it; no evicted box is younger than one that stays |
| RamCaches.RAMCache.TrimCommitted | p2p/cache.go:271-283 | only committed boxes are dropped, in index order, until the capacity is met and never below it; within the capacity at most box 0 goes without need |
| RamCaches.RAMCache.ChunkOf | p2p/cache.go:307-332 | all of a full box, or the part from the first to the last set byte |
| RamCaches.RAMCache.OldestFirst | p2p/cache.go:295-303 | all resident boxes, once each, sorted by write time |
| RamCaches.RAMCache.MarkCommitted | p2p/cache.go:243-251 | a resident box becomes full and committed, an absent one stays absent |
| RamCaches.RAMCache.RemoveBox | p2p/cache.go:253-259 | the box is empty and the usage one less |
| RamCaches.RAMCache.constructor | p2p/cache.go:60-79 | no box is resident |
| Boxes.PutStep | p2p/cache.go:215-235 | writing the part of a buffer that falls into one box extends the written prefix by it, position by position |
| Evictions.ChunkHasAllSet | p2p/cache.go:307-332 | every set byte of an evicted box is in its chunk |
| Evictions.EvictIff | p2p/cache.go:307-333 | writing back any part of the chunk of a box and dropping the box is invisible if and only if the unset bytes that were written, and the set bytes that were not, are those on disk |
| Evictions.DropIff | p2p/cache.go:253-259 | dropping a box is invisible if and only if its set bytes are on disk |
| Evictions.MarkIff | p2p/cache.go:243-251 | marking a box is invisible if and only if its unset bytes are those on disk |
| Evictions.TrimIff | p2p/cache.go:271-336 | a whole trim with its write-back, of which any parts may fail, is invisible to every reader if and only if the dropped boxes are on disk and writing back each evicted one is harmless |
| CacheDiscipline.WriteAgrees | p2p/cache.go:209-235 | any write, with any gaps and into any box, keeps readers in agreement with the plain bytes |
| CacheDiscipline.WriteOnDiskIff | p2p/cache.go:209-235 | a write leaves the committed boxes equal to the files if and only if what it puts into them is there already |
| CacheDiscipline.TrimAgreesIff | p2p/cache.go:271-336 | a trim with its write-back, of which any parts may fail, keeps the agreement if and only if the dropped boxes are on disk and writing back each evicted one is harmless |
| CacheDiscipline.NoFailureIff | p2p/file.go:154-158 | when no file fails, writing back is harmless if and only if every gap of an evicted box holds the bytes on disk |
| CacheDiscipline.WriteAndTrimIff | p2p/file.go:152-163 | a write with the trimming and write-back that it causes keeps the agreement if and only if these are harmless |
| CacheDiscipline.TrimOnDisk | p2p/cache.go:271-336 | a trim leaves the committed boxes that stay equal to the files |
| CacheDiscipline.MarkAgreesIff | p2p/cache.go:243-251 | marking a box keeps the agreement if and only if the unset bytes of its buffer are those on disk |
| CacheDiscipline.MarkOnDisk | p2p/cache.go:243-251 | and, when its piece was written to the files, the marked box equals them under the same condition |
| CacheDiscipline.WholeMisses | p2p/session.go:404-408 | a write into a piece that is not committed meets no committed box |
| CacheDiscipline.WholeHarmlessIff | p2p/cache.go:307-332 | boxes that hold whole pieces have no gaps, so writing back any of them does harm if and only if one of its bytes neither reaches the files nor is there already |
| CacheDiscipline.WholeMarked | p2p/session.go:506-506 | a box that holds its whole piece may be marked |
| CacheDiscipline.GapLosesByte | p2p/cache.go:307-332 | a concrete box with a gap whose eviction overwrites a byte of the files |
| CacheDiscipline.LostChunkLosesByte | p2p/file.go:154-158 | a concrete full box that is lost when its chunk does not reach the files |
| CacheDiscipline.MarkHidesByte | p2p/cache.go:243-251 | a concrete box that hides a byte of the files after being marked |
| CacheRuns.RunsAgreeIff | p2p/file.go:102-175 | over every run of any writes, with the trimming that they cause, commits and trims, where any commit and any write-back may fail, readers see exactly the plain bytes with the same writes in every state if and only if every step was harmless |
| CacheRuns.RunsRefineIff | p2p/file.go:102-175 | over every run whose writes miss the committed boxes and whose commits mark filled boxes, they do if and only if no box was evicted with a gap that is not on disk or with a set byte that did not reach the files |
| CacheRuns.RunsByPieceIff | p2p/file.go:102-175 | over every run of whole-piece writes they do if and only if no set byte of an evicted box was kept from the files by a failure |
| CacheRuns.RunsRefine | p2p/file.go:102-175 | so they do over every run of whole-piece writes in which no write-back fails; commits may |
| CacheRuns.EmptyIsGood | p2p/file.go:80-82 | an empty cache is a start for such a run |
| CachedStores.CachedStore.constructor | p2p/file.go:80-82 | a store with an empty cache agrees with its files |
| CachedStores.CachedStore.ReadAt | p2p/file.go:102-118 | without an error a read returns the view of any cache, gaps included, and the plain bytes when the store is in agreement; what is cached is right even when a file fails |
| CachedStores.CachedStore.WriteAt | p2p/file.go:152-163 | a write fills the cache, trims only when the boxes are too many, and writes back what leaves it; later reads see it if and only if this was harmless; whatever fails, only bytes of trimmed boxes are wrong; whole-piece writes are seen if and only if nothing is lost |
| CachedStores.CachedStore.Commit | p2p/file.go:166-175 | the piece is on disk and marked, or nothing is marked; reads are not affected if and only if marking hides no byte |
| CachedStores.CachedStore.Rebalanced | p2p/cache.go:265-283 | a new capacity with its trimming is invisible if and only if the dropped boxes are on disk, which committed boxes stay |
| CachedSessions.VerifiedReadsBackIff | p2p/session.go:404-508 | in every run of a session over a cached store, under arbitrary peers and failing files, a verified piece has its digest in a later state if and only if: when it was committed, the unset bytes of its buffer were those on disk before the commit or its box was empty in some state after the one that the commit left; when its commit failed, every eviction of its box since was harmless |
| CachedSessions.VerifiedIff | p2p/session.go:404-508 | in every state of such a run the verified pieces are those of the start and those accepted since |
| CachedSessions.FoundReadsBack | p2p/session.go:129-161 | a piece found good on disk at the start reads back with its digest in every state |
| CachedSessions.FullPieceReadsBack | p2p/session.go:496-508 | so does, from then on, a piece that was committed after all its bytes were sent |
| CachedSessions.LooseStepIff | p2p/session.go:506-508 | a step leaves a piece whose commit failed as readers see it if and only if it does not evict its box, or writes it back without harm |
| CachedSessions.StepOnStore | p2p/session.go:404-508 | each step of the session is one of the store from the content that readers see, and they see that content with the block afterwards if and only if the step is harmless to the store |
| CachedSessions.StartIsSafe | p2p/session.go:129-161 | an empty cache over files in which some pieces were found good is a start for such a run |
| CachedSessions.RunIsSafe | p2p/session.go:404-418 | in every state a committed piece is right in the files: no block of any peer, eviction or failed write-back touches it there |
| CachedSessions.AcceptedIff | p2p/session.go:496-508 | a piece that was verified and committed hides nothing if and only if the unset bytes of its buffer were those on disk before |
| CachedSessions.ClearStays | p2p/cache.go:243-283 | a committed piece that hides nothing stays so, and another one becomes so exactly when its box is dropped |
| CachedSessions.ShortBlockHides | p2p/session.go:474-508 | from an empty box, a concrete short block after which its piece is verified, and reads back wrong once it is committed |
| CachedSessions.ShortBlockIsTaken | p2p/session.go:474-489 | the session takes that block for the whole one that it asked for, and announces the piece |
| CachedSessions.FailedCommitLoses | p2p/session.go:506-508 | a concrete piece that is verified, whose commit fails, and that reads back wrong after the next piece took its place in the cache |
| CacheBudgets.BudgetHolds | p2p/cache.go:84-104 | all capacities together stay within the budget, plus one piece for each cache that was raised from zero, and leave less than one piece for each cache of it unused |
| CacheBudgets.CapFits | p2p/cache.go:98-101 | one capacity is the greatest that fits its share, and one if none does |
| CacheBudgets.OnlyOneFits | p2p/cache.go:98-101 | no other capacity is the greatest that fits |
| CacheBudgets.RAMCacheProvider.SharesAreFair | p2p/cache.go:84-98 | the shares are in proportion to the weights and add up to the whole budget |
| CacheBudgets.RAMCacheProvider.Rebalance | p2p/cache.go:84-111 | every cache gets the greatest capacity that fits its share, and at least one; together they stay within the budget plus one piece for each cache raised from zero, and leave less than one piece for each cache unused; they are trimmed if asked |
| FlowControl.Monitor.RateBound | flowctrl/flowctrl.go:176-254 | as long as no sample exceeds its allowance, bytes times sample time is at most the allowance times the elapsed time plus one sample |
| FlowControl.RunWithinRate | flowctrl/flowctrl.go:176-254 | over a whole transfer, for any nondecreasing clock, no byte is lost and the bytes times the sample time stay below the allowance times the elapsed time plus one sample |
| FlowControl.CountedWithin | flowctrl/flowctrl.go:221-254 | counting bytes that fit the allowance keeps the bound, whether or not a sample ends |
| FlowControl.Monitor.Update | flowctrl/flowctrl.go:221-246 | bytes are conserved; a sample ends exactly when it has lasted long enough, and no sample over its allowance arises from one within it |
| FlowControl.Monitor.Sampled | flowctrl/flowctrl.go:230-242 | the peak is the highest rate; the moving average lies between its old value and the sample, never above the peak |
| FlowControl.Monitor.Reset | flowctrl/flowctrl.go:249-254 | the sample is added to the total |
| FlowControl.Monitor.WaitNextSample | flowctrl/flowctrl.go:259-275 | returns, after a sample has ended, without losing bytes |
| FlowControl.Monitor.Limit | flowctrl/flowctrl.go:176-205 | as much of what is wanted as fits what is left of the allowance, and no less; at least one byte when blocking; unlimited without a rate or after the end |
| FlowControl.Monitor.Done | flowctrl/flowctrl.go:92-102 | returns all bytes, within the rate bound, and ends the transfer |
| FlowControl.Monitor.constructor | flowctrl/flowctrl.go:48-64 | the sample time is rounded to the clock, with its default |
| FlowControl.ClockRoundIsNearest | flowctrl/utils.go:31-33 | rounding to the clock rate is to the nearest multiple, and positive exactly from half a tick on |
| FlowControl.SampleLimitIsNearest | flowctrl/flowctrl.go:182-186 | the allowance of a sample is off by at most half a byte, and one byte if the rate is lower than half a byte per sample |
| FlowControl.SampleFits | flowctrl/flowctrl.go:249-254 | a sample within its allowance keeps the bound |
| FlowControl.MovingAverage | flowctrl/flowctrl.go:235-242 | a weight between zero and one gives a value between both |
| FlowControl.Writer.Write | flowctrl/io.go:96-109 | writes the bytes in order; a blocking writer never reports the limit and fills a sample with every write but the first and the last; without a limit there is one write; counts what it wrote; keeps the bound |
| FlowControl.Reader.Read | flowctrl/io.go:44-50 | takes bytes from the front of the source, asks for all that fits without a limit, counts them and keeps the bound |
| Hashing.EveryScheduleAgrees | p2p/piece.go:65-108 | every schedule of any positive number of workers ends with the sequential sums |
| Hashing.NextKeeps | p2p/piece.go:65-108 | every piece handed out is at a worker, in the result channel or filed with its right sum |
| Hashing.CanStep | p2p/piece.go:65-108 | no deadlock before all results are collected, with a result channel of three |
| Hashing.NextDrops | p2p/piece.go:65-108 | every step makes progress |
| Hashing.CollectedIsSequential | p2p/piece.go:89-94 | when all are collected, every sum is in its place |
| Hashing.CountAgrees | p2p/piece.go:73-82 | rounding up gives the number of pieces and the length of the last one that countPieces gives |
| Hashing.PoolFindsGoodPieces | p2p/piece.go:35-60 | a finished pool finds exactly the pieces with the right digest |
| LinkChains.CreateLinkChain | server/taskmgnt.go:97-116 | the server first, then the agents in progress in the order given |
| LinkChains.ChosenMembers | server/taskmgnt.go:107-112 | exactly the agents in progress are chosen |
| LinkChains.ChosenKeepsOrder | server/taskmgnt.go:106-113 | neither order nor distinctness is lost |
| LinkChains.ChainIsDistinct | server/taskmgnt.go:97-116 | the addresses of the chain differ |
| LinkChains.Uplink.FindSelf | p2p/session.go:199-209 | an agent starts with the node just before its own last position in the chain |
| LinkChains.Uplink.TryNewPeer | p2p/session.go:219-268 | the address that is dialled is in range; a failed dial kills the process, and what any other attempt does to the position |
| LinkChains.Uplink.Start | p2p/session.go:199-212 | an agent of a chain of distinct addresses first dials the node just before itself |
| LinkChains.SurvivesIff | p2p/session.go:219-268 | attempts are survived if and only if no dial among them failed; then the target has moved up by the number of refused headers, down to the server |
| LinkChains.DeadNodeIsFatal | p2p/session.go:235-242 | one failed dial is fatal for an agent at any position |
| LinkChains.HangupIsRetried | p2p/session.go:254-263 | a node that closes every connection without answering is tried again each time, and none before it |
| LinkChains.DialsUpstream | p2p/session.go:219-268 | over any survived attempts an agent dials only nodes before itself and never goes back |
| LinkChains.ConnectIsStep | p2p/session.go:199-268 | an agent that starts from its own position connects, after any survived attempts, to a node before it: a step of the swarm that keeps it consistent |
| LinkChains.WalkEnds | p2p/session.go:219-268 | in every consistent state the walk along the connections strictly descends the chain and ends at a node without one |
| LinkChains.RunStaysApart | p2p/session.go:181-216 | a node without an upstream connection is as it was at the start, and one complete at the start never connects |
| LinkChains.PathsEnd | p2p/session.go:181-268 | in every state of every run the walk from any node ends at a node complete at the start, as the server is, or at an agent that has yet to connect and can |
| LinkChains.PathsOfTheEnd | p2p/session.go:181-268 | when nothing is left to do, the nodes without an upstream connection are exactly those complete at the start |

## Left out

- Goroutine scheduling around locks: cache methods are atomic.
- Sessions.Session.WriteAt: the session keeps the concatenation of its files in one field; FileStores.FileStore.RawWriteAt is proved to behave exactly as that write.
- The session keeps bitsets as sets of indices; that the bytes of a bitset denote such a set is proved separately, and aliasing of one bitset object by several peers is not modelled.
- Messages that a session sends are kept as values, not as buffers; the buffers are built in Wire.dfy. Byte framing, keep-alives and back-pressure of channels are not modelled.
- Sessions.Session.GeneralMessage: the write of a block goes to the files without a cache, because that is how the program runs; a session over the store with a cache is modelled by its effects on verified pieces in CachedSession.dfy.
- Timeouts of requests and peers by the wall clock. Forgetting one request is modelled, when it happens is not.
- Sessions.Session.ClosePeer: reconnecting after an error is only modelled as an attempt of LinkChains.Uplink.TryNewPeer.
- LinkChains.Uplink.TryNewPeer: the outcome of a connection attempt is a parameter.
- FlowControl.Monitor.Limit: one goroutine uses the monitor, so nobody ends the transfer while it sleeps; 64-bit overflow and floating point rounding are not modelled, arithmetic is over integers and reals.
- FlowControl.Monitor.Sampled: the weight of the moving average is any number between zero and one instead of an exponential.
- CacheBudgets.BudgetHolds: the square roots are arbitrary positive weights, and the arithmetic is exact.
- RamCaches.RAMCache.WriteAt: write times are those of a clock that never goes back, by any steps; sorting by them leaves the order of equal times open.
- RamCaches.RAMCache.ReadAt and FileStores.FileStore.RawReadAt: ranges are positions in the caller's buffer, as in the program; chunks that leave the cache are values.
- Hashing: errors of reading are ignored by the feeder, so the bytes of each piece are whatever was read.
- Status, progress and percentages of a transfer; `SetREMA`.
- HTTP handlers, configuration, TLS, deployment and reports, the meta information of files, logging.
