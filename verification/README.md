# Transmission: models of its stateful cores, with proofs

This project models seven parts of the Transmission BitTorrent engine and proves what each
is for. Each part has a fast, stateful form, taken over as a class or as an in-place
algorithm, and a simple form that says what it means: a flat byte array, a list of messages,
a set, a log. The methods are proved to do what the simple form does, over every run.

| part | files | simple form |
|---|---|---|
| write-back block cache on multi-file storage | `Storage`, `Overlay`, `PtrArray`, `CacheRuns`, `CacheAccess`, `FlushedRuns`, `BlockCache` | one flat byte array per torrent |
| peer wire messages | `WireMessages`, `WireReader`, `WireRefusals`, `PeerMsgs` | a list of messages, encoded one after another |
| block-request scheduler | `RequestTable`, `PieceList`, `PieceOrder`, `PieceRebuild`, `SwarmTables`, `RequestOutput`, `NextRequests`, `Swarm`, `ExactCounts` | a sorted table, counts over it, a sorted piece list |
| bandwidth | `RateWindow`, `BandwidthTree` | a log of all bytes used |
| UDP tracker client (BEP 15) | `UdpMessages`, `UdpStates`, `UdpAnswers`, `UdpRuns`, `UdpTracker` | a pure step function over events |
| bitfield and completion counts | `Bits`, `Bitfield`, `Completion` | a set of numbers, sums over it |
| UTF conversion and IP blocklist | `Utf`, `UtfConvert`, `Blocklist` | scalar values; a union of ranges |

`Geometry` (how a torrent is cut into files, pieces and blocks) and `Search` (binary search
and sorting) serve all of them.

## How the model relates to the program

- Classes keep the program's fields; arrays that the program reallocates (`items`,
  `pieces`, `setme`, `transfers`, buffers converted into) are arrays or sequence fields that
  the methods reassign. Peers, trackers' requests and bandwidth nodes are numbered where the
  program has pointers; 0 is the null peer.
- Clocks, random salts and transaction ids, the pieces that become complete, the peers of a
  swarm and the measured speeds are parameters, so every statement holds for all of them.
- Callbacks are recorded in order as data (`published`, `finished`, `cancels`, `sent`).
- `qsort` is any sorting that yields a sorted permutation; `bsearch` finds some match.
- 32-bit arithmetic is written out where it shows: the piece-message length, the tracker
  and bandwidth counters, the clock arithmetic of the rate window.
- Bytes are arithmetic values, except in the bitfield, where they are 8-bit vectors and the
  masks and shifts are the program's. `trueBitCount` and `trailingBytesForUTF8` are the
  functions those tables tabulate, and `(ch | mark) & mask` is written as a remainder.
- The clamp factors 0.8 and 0.9 are exact fractions; for 32-bit byte counts and speeds the
  floating-point expressions give the same values.

Where the code parts from its documentation or its evident purpose, it is followed, and the
exact condition is proved:

- `EmptyPieceIsLost`: a piece message with no data is not read as a message; it leaves the
  reader expecting another header. A piece message is read if and only if it carries data
  (`PieceIsReadIffNonempty`).
- `StaleRunHidesDone`, `TieIsUndecided`: `tr_cacheFlushDone` stops at the first run that is
  neither complete nor spanning pieces, so a block that waited long enough keeps a complete
  one in the cache, and on a tie the outcome is up to `qsort`. Whatever order `qsort` gives,
  all flagged runs are flushed if and only if each of them strictly outranks every run that is
  not flagged (`FlushDoneExactly`); that is so while the length plus age/32 of the others
  stays below 4096 (`RanksSeparate`).
- `ReadIsRightExactly`, `WriteIsShownExactly`: the cache looks a block up by its number and
  forgets where in the block the address points. A read gets what was last written, whatever
  is cached, if and only if it begins a block and stays in it; a write of a block's length
  shows where it was meant if and only if it begins a block. Peers may ask for and send
  other addresses.
- `StrayIsAccepted`, `LegalIsRfc`: after the lead byte F4 the second byte is not checked from
  below; a character is accepted if and only if RFC 3629 allows it or it is such a stray, and
  text is well-formed if and only if it is accepted to its end and holds no stray
  (`AcceptedExactly`).
- `DishonouredLimitIsIgnored`: a node that does not honour its parent's limits is not held to
  the parent's budget. A budget is safe from all that is below it, whatever else is limited,
  if and only if every node below honours its parent up to it (`HonourIsExact`), and in one
  state a node is safe from another if and only if some limited node that the other honours
  has no more left (`GuardIsExact`).
- `StrayRemovalExactly`, `RebuildExactly`: the request counts of the piece list can fall short
  of the requests outstanding. A reject of something that was not asked for takes one away
  from a piece that counts any, and a piece that left the list and comes back starts at zero;
  each is an if and only if.

## Model

| member | source | states |
|---|---|---|
| Search.LowerBound | src/utils.c:1103-1135 | on an ordered list, the first position not before the key, and whether an equal element is there; on any list, some position |
| Geometry.BlockPieceIsRange | src/torrent.c:2540-2550 | a block's piece is p exactly when the block lies in the inclusive range the program gives for p |
| Geometry.PieceRange | src/torrent.c:2540-2550 | the ends of a piece's block range in whole blocks, the last piece ending with the torrent |
| Geometry.BlockOfIsFlat | src/torrent.c:2455-2467 | the block of (piece, offset) is the block of the flat offset piece*pieceSize+offset |
| Geometry.AddressFalls | src/torrent.c:2455-2467 | the block of an address is the one whose bytes it lies among |
| Geometry.FileRange | src/torrent.c:2518-2537 | for a file that is not empty, the inclusive block range the program gives is exactly the blocks that share a byte with it |
| Storage.Disk.ReadOrWriteBytes | src/inout.c:41-150 | one file: exactly the bytes [fileOffset, +n) are copied one way or the other, a failing file changes nothing |
| Storage.FindFileLocation | src/inout.c:168-192 | the file found is nonempty at that place and its offset plus the file offset is the flat offset |
| Storage.Disk.ReadOrWritePiece | src/inout.c:196-234 | across any file boundaries and empty files, reads or writes exactly the flat range [piece*pieceSize+offset, +buflen), all else unchanged |
| Storage.FileWriteIsFlat | src/inout.c:214-231 | writing inside one file is writing that range of the concatenation of all files |
| PtrArrays.PtrArray.Insert | src/ptrarray.c:54-70 | the new contents are the old ones with the element at the given place, or at the end |
| PtrArrays.PtrArray.Erase | src/ptrarray.c:84-96 | the new contents are the old ones without [begin, end) |
| PtrArrays.PtrArray.LowerBound | src/ptrarray.c:103-158 | on an ordered array, the lower bound of the key and whether it is an exact match |
| PtrArrays.PtrArray.InsertSorted | src/ptrarray.c:190-203 | inserting at the lower bound |
| PtrArrays.PtrArray.FindSorted | src/ptrarray.c:206-213 | a matching element if there is one |
| Overlays.FlushKeepsOverlay | src/cache.c:167-197 | writing a run to disk and dropping it from the cache leaves every byte a reader sees as it was |
| Overlays.WriteUpdatesOverlay | src/cache.c:325-358 | storing a block is, to readers, a write of its byte range |
| CacheRuns.ReRankedDrops | src/cache.c:408-429 | run lists that differ only in their ranks name the same blocks, so raising ranks before flushing changes nothing |
| CacheRuns.PendingStep | src/cache.c:199-217 | erasing one run and renumbering those behind it keeps every remaining run naming the blocks it named at the start |
| CacheRuns.StoreUpdatesView | src/cache.c:325-358 | inserting or replacing one block changes the view of its torrent in that range alone |
| CacheRuns.CachedHit | src/cache.c:361-377 | a cached block's data is what the view holds there |
| CacheRuns.CachedMiss | src/cache.c:361-377 | where no block is cached the view is the disk |
| BlockCache.Cache.GetBlockRun | src/cache.c:81-112 | the run from a position is contiguous, cannot be longer to the right, and is described truly |
| BlockCache.Cache.CalcRuns | src/cache.c:135-165 | the runs partition all cache positions, each is maximal at both ends, ranked in descending order |
| BlockCache.Cache.FlushContiguous | src/cache.c:168-197 | the run leaves the cache and readers see no difference |
| BlockCache.Cache.FlushRuns | src/cache.c:200-217 | the first n runs' blocks, as named when computed, are exactly those gone; the rest stay sorted and unique; readers see no difference |
| BlockCache.Cache.CacheTrim | src/cache.c:220-240 | over the limit, the leading runs go until more than a quarter of the limit has gone and not one run further; within it, nothing happens |
| CacheRuns.FlagIsOneBit | src/cache.c:148-153 | setting a flag in a rank sets that bit and leaves the digits above and below it |
| CacheRuns.TruncatesTowardZero | src/cache.c:140-143 | the age is divided as C divides |
| CacheRuns.LongerOutranks | src/cache.c:135-160 | of two runs without flags the longer of one age, or the one 32 seconds staler of one length, is flushed first |
| BlockCache.Cache.SetLimit | src/cache.c:253-264 | the new limit in blocks; readers see no difference; the cache is within it, or more than a quarter of it went |
| BlockCache.Cache.WriteBlock | src/cache.c:325-358 | the view changes as a flat write would, and the block limit holds after |
| BlockCache.Cache.ReadBlock | src/cache.c:361-377 | at any address of the torrent, the cached block's leading bytes or else the disk's; within one block from its start, what the flat array holds; changes nothing |
| BlockCache.Cache.FlushDone | src/cache.c:408-429 | of the ranked runs the leading flagged ones go, and all flagged ones when they outrank the others; readers see no difference |
| BlockCache.Cache.FlushFile | src/cache.c:432-457 | no cached block is left that holds a byte of the file; of the rest only blocks that continue a run holding one are gone, and none before the file; an empty file flushes what runs on from the block its place lies in |
| CacheAccess.FileIsFlushed | src/cache.c:432-457 | flushing the block numbers of a file's range flushes its bytes, told byte by byte |
| BlockCache.Cache.FlushTorrent | src/cache.c:460-477 | exactly the torrent's blocks are gone |
| BlockCache.Perform | src/cache.c:325-477 | any one call, its writes whole blocks and its reads within one, acts on readers as it does on flat arrays, and a fixed limit stays kept |
| BlockCache.PerformAll | src/cache.c:167-477 | any run of such writes and reads, flushes, trims and limit changes reads what flat arrays give; with the limit unchanged the cache stays within it |
| FlushedRuns.FlushDoneExactly | src/cache.c:408-429 | every order the sort may give flushes all blocks of complete and piece-spanning runs, if and only if each such maximal run strictly outranks every other |
| FlushedRuns.FlushDoneReachesAll | src/cache.c:408-429 | if every flagged run outranks every other, exactly the flagged runs are flushed and no block of one is left |
| FlushedRuns.FlushDoneMisses | src/cache.c:408-429 | if some other run outranks a flagged one, that flagged run is missed |
| FlushedRuns.EveryRunListed | src/cache.c:135-165 | a run list names every maximal run of the cache |
| FlushedRuns.StaleRunHidesDone | src/cache.c:408-429 | a concrete well-formed cache whose one complete block is left because an old block outranks it |
| FlushedRuns.TieIsUndecided | src/cache.c:408-429 | a concrete cache in which one sorted order flushes the complete block and another leaves it |
| CacheAccess.WithinBlockIsRight | src/cache.c:361-377 | a read that begins a block and stays in it gets what the view holds |
| CacheAccess.ReadIsRightExactly | src/cache.c:361-377 | a read gets what the view holds, in every cache and on every disk, if and only if it begins a block and stays in it |
| CacheAccess.WrittenIsServed | src/cache.c:325-377 | what was written for any address of a block is served from the block's start on |
| CacheAccess.WriteIsShownExactly | src/cache.c:325-377 | a write of a block's length is seen where a flat array would have it, whatever was cached, if and only if it begins a block |
| FlushedRuns.RanksSeparate | src/cache.c:135-165 | below a length plus age of 4096, flagged runs outrank all others |
| FlushedRuns.FlagsMean | src/cache.c:81-112 | a run is flagged exactly when its last block's piece is complete or is not its first block's |
| WireReader.StepKeepsInv | src/peer-msgs.c:1749-1786 | each call of the reader keeps its phase and buffers in agreement, and consumes input or stops |
| WireReader.StepIgnoresMore | src/peer-msgs.c:1262-1308 | a step that completes does not depend on bytes that come later |
| WireReader.DrainSplits | src/peer-io.c:180-243 | draining a longer buffer is draining the shorter one and going on |
| WireReader.ChunkingIsInvisible | src/peer-io.c:180-243 | however a stream is cut into arrivals, reports, state and leftovers are those of one arrival |
| WireReader.WellFormedIsAccepted | src/peer-msgs.c:1367-1411 | a message well-formed by BEP 3 and BEP 6, said without the reader, passes the reader's length and content checks |
| WireReader.StreamIsRead | src/peer-msgs.c:1477-1685 | any stream of messages well-formed by BEP 3 and BEP 6 is reported message for message |
| WireReader.MessagesSurviveTheWire | src/peer-io.c:180-243 | encoding well-formed messages, cutting the bytes anywhere and reading them gives the messages back |
| WireReader.RequestRoundTrip | src/peer-msgs.c:358-371 | a request's three words are read as they were written |
| WireReader.EmptyPieceIsLost | src/peer-msgs.c:1417-1473 | a piece message of length 9 is not reported and leaves the reader waiting for a header |
| WireReader.PieceIsReadIffNonempty | src/peer-msgs.c:1417-1473 | a piece message is read back if and only if it carries data |
| WireRefusals.FrameIsReadExactly | src/peer-msgs.c:1477-1685 | any message but a piece, of any id and payload, is reported if and only if it is the frame of an admissible message, and as that; otherwise the connection ends, with ERANGE for a piece number too large and EMSGSIZE for all else |
| WireRefusals.PieceIsReadExactly | src/peer-msgs.c:1417-1473 | a piece message with data is reported if and only if the torrent is known, the data lies in it by the program's 32-bit sum, and there is as much as in the block its address lies in; otherwise the connection ends |
| WireRefusals.BlockIsCheckedExactly | src/peer-msgs.c:1700-1710 | which blocks are good, which are of the wrong size and which could not have been asked for |
| WireMessages.LayoutIsStandard | src/peer-msgs.c:341-473 | each message is laid out byte by byte as BEP 3 and BEP 6 have it |
| WireMessages.U32RoundTrip | src/peer-io.c:1191-1198 | four bytes in network order are read as the number written |
| PeerMsgsModule.PeerMsgs.ReadBtLength | src/peer-msgs.c:1263-1281 | takes exactly the functional reader's step for the length |
| PeerMsgsModule.PeerMsgs.ReadBtId | src/peer-msgs.c:1286-1308 | takes exactly the functional reader's step for the id |
| PeerMsgsModule.PeerMsgs.ReadBtMessage | src/peer-msgs.c:1478-1685 | takes exactly the functional reader's step for a message, its length checks included |
| PeerMsgsModule.PeerMsgs.ReadBtPiece | src/peer-msgs.c:1413-1473 | takes exactly the functional reader's step for piece data, the 32-bit length arithmetic included |
| PeerMsgsModule.PeerMsgs.TakeStep | src/peer-msgs.c:1750-1786 | one call of the reader is one step of the functional reader |
| PeerMsgsModule.PeerMsgs.CanReadWrapper | src/peer-io.c:180-243 | the loop ends and leaves the state, reports and buffer of a whole drain |
| PeerMsgsModule.PeerMsgs.SendRequest | src/peer-msgs.c:358-371 | appends the encoding of that request message |
| PeerMsgsModule.PeerMsgs.SendCancel | src/peer-msgs.c:374-387 | appends the encoding of that cancel message |
| PeerMsgsModule.PeerMsgs.SendReject | src/peer-msgs.c:341-355 | appends the encoding of that reject message |
| PeerMsgsModule.PeerMsgs.SendHave | src/peer-msgs.c:401-412 | appends the encoding of that have message |
| PeerMsgsModule.PeerMsgs.SendChoke | src/peer-msgs.c:433-443 | appends the encoding of a choke or unchoke message |
| PeerMsgsModule.PeerMsgs.SendPort | src/peer-msgs.c:390-398 | appends the encoding of that port message |
| PeerMsgsModule.PeerMsgs.SendHaveAll | src/peer-msgs.c:446-458 | appends the encoding of a have-all message |
| PeerMsgsModule.PeerMsgs.SendHaveNone | src/peer-msgs.c:461-473 | appends the encoding of a have-none message |
| RequestTable.InsertKeepsSorted | src/peer-mgr.c:743-783 | inserting at the key's place keeps the table strictly sorted by block and peer |
| RequestTable.InsertKeepsAtMostTwo | src/peer-mgr.c:1382-1394 | adding a request for a block with at most one other keeps every block at two |
| RequestTable.RemoveKeepsTable | src/peer-mgr.c:834-854 | any removal keeps the table strictly sorted with at most two requests per block |
| RequestTable.GroupIsSmall | src/peer-mgr.c:802-823 | the requests for one block are at most two |
| SwarmTables.AddKeepsList | src/peer-mgr.c:1422-1424 | counting an added request at its piece keeps each listed count within the requests outstanding there |
| SwarmTables.AddKeepsPending | src/peer-mgr.c:743-783 | raising the peer's counter keeps every counter equal to the peer's entries |
| SwarmTables.RemoveOwes | src/peer-mgr.c:834-854 | taking an entry out leaves exactly one owed to its peer's counter and to its piece |
| SwarmTables.ListSettles | src/peer-mgr.c:1208-1218 | lowering the count of the entry's piece settles what is owed |
| SwarmTables.SplitOwes | src/peer-mgr.c:1475-1547 | dropping all stale entries leaves just those owed to counters and pieces |
| SwarmModule.Swarm.RequestListAdd | src/peer-mgr.c:743-783 | the entry is inserted in the sorted table and one is added to its peer's counter |
| SwarmModule.Swarm.RequestListLookup | src/peer-mgr.c:786-795 | the entry's position, or less than zero if and only if there is none |
| SwarmModule.Swarm.GetBlockRequestPeers | src/peer-mgr.c:802-823 | the peers of exactly the entries for this block, in order, at most two |
| SwarmModule.Swarm.RequestListRemove | src/peer-mgr.c:834-854 | the entry goes and its peer's counter stays exact; a missing entry changes nothing |
| SwarmModule.Swarm.UpdateEndgame | src/peer-mgr.c:885-914 | off until the bytes requested reach those left; then the requests per active peer when it began |
| SwarmModule.EndgameIsShare | src/peer-mgr.c:885-914 | when the endgame begins, endgame times the sources is at most the requests, which are fewer than one more each would make |
| SwarmModule.ActivePeersCount | src/peer-mgr.c:901-906 | the peers counted are those with requests pending |
| SwarmModule.Swarm.PieceListSort | src/peer-mgr.c:995-1011 | a permutation of the list in which no piece stands behind one that comes before it |
| SwarmModule.Swarm.PieceListRebuild | src/peer-mgr.c:1075-1135 | exactly the wanted incomplete pieces, old entries kept whole, in order; a seed's list is left alone |
| SwarmModule.Swarm.PieceListRemovePiece | src/peer-mgr.c:1138-1157 | that piece's entry alone is gone |
| SwarmModule.Swarm.PieceListResortPiece | src/peer-mgr.c:1160-1205 | a permutation that is in order when the other pieces were |
| SwarmModule.Swarm.PieceListRemoveRequest | src/peer-mgr.c:1208-1218 | the block's piece has one request fewer, unless it had none; a permutation otherwise |
| SwarmModule.Swarm.ShouldAsk | src/peer-mgr.c:1374-1401 | a block is asked for if and only if it is missing and either unasked, or in the endgame asked of one other peer while this one is fast enough |
| SwarmModule.Swarm.AskInPiece | src/peer-mgr.c:1367-1425 | the block loop: what is written, added and counted for one piece, past `got == numwant` too; each block met the tests when its turn came |
| SwarmModule.Swarm.GetNextRequests | src/peer-mgr.c:1322-1463 | the output is at most numwant blocks or disjoint intervals inside pieces, covering exactly the requests added; only its room is written; the list asked from is in order, and whenever a block of a piece was asked for nothing is left to ask for in those before it; each request was justified when its turn came, the fast-peer test with the counts of that moment included; none is missed while there is room; the endgame value is determined; counts credited; list left in order |
| NextRequests.OnePeerEach | src/peer-mgr.c:1384-1386 | outside the endgame a round asks for no block that any peer was asked for |
| ExactCounts.RoundKeepsExact | src/peer-mgr.c:1422-1424 | a round of asking keeps exact counts exact |
| ExactCounts.RejectExactly | src/peer-mgr.c:1615-1619 | removing a request leaves exact counts exact if and only if it was in the table or its piece counts none |
| ExactCounts.StrayRemovalExactly | src/peer-mgr.c:1208-1218 | lowering a piece's count for a request that is not there keeps the counts exact if and only if the piece counts none |
| ExactCounts.RebuildExactly | src/peer-mgr.c:1075-1135 | a rebuilt list is exact if and only if nothing is outstanding in the pieces newly listed |
| SwarmModule.Swarm.RemoveRequestFromTables | src/peer-mgr.c:1615-1619 | exactly that request is gone, its piece counts one fewer unless it counted none, and all tables agree |
| SwarmModule.Swarm.PeerDeclinedAllRequests | src/peer-mgr.c:1624-1637 | exactly that peer's requests are gone and all tables agree |
| SwarmModule.Swarm.CancelAllRequestsForBlock | src/peer-mgr.c:1640-1666 | exactly that block's requests are gone; a cancel goes to each asked peer but the one that sent it |
| SwarmModule.Swarm.RefillUpkeep | src/peer-mgr.c:1475-1547 | exactly the requests 90 seconds old are gone, of peers that take messages and are not sending the block; each is cancelled once; all tables agree |
| PieceList.CompareIsTotal | src/peer-mgr.c:946-982 | the weight comparison is a total preorder |
| PieceOrder.OrderIsExact | src/peer-mgr.c:946-982 | a piece is put before another exactly when less of it is left to ask for, pieces with nothing left coming last; ties go to higher priority, then the rarer, then the smaller salt |
| PieceOrder.InOrderExactly | src/peer-mgr.c:946-982 | a list is in order exactly when no piece stands behind one that comes before it |
| PieceOrder.MissingAndHeld | src/peer-mgr.c:957-961 | what is missing of a piece and what is there make up its blocks |
| PieceList.InsertKeepsOrder | src/peer-mgr.c:1188-1201 | inserting a piece at its lower bound keeps an ordered list ordered |
| PieceList.NeighboursSuffice | src/peer-mgr.c:1168-1174 | if a piece is in order with its neighbours and the rest is in order, so is the whole list |
| PieceList.ResortLeading | src/peer-mgr.c:1431-1459 | with the tail in order, inserting the leading pieces right to left leaves an ordered permutation, whatever their weights became |
| PieceRebuild.Merge | src/peer-mgr.c:1105-1125 | each new entry becomes the old one for its piece, if there is one |
| RequestOutput.BeginInterval | src/peer-mgr.c:1415-1420 | a new interval of one block keeps the intervals disjoint, inside pieces, and exact |
| RequestOutput.ExtendInterval | src/peer-mgr.c:1408-1414 | lengthening the last interval by the next block of its piece keeps them so |
| NextRequests.GroupTells | src/peer-mgr.c:1379-1394 | the number of peers found tells whether a block is unasked or asked of one peer, and whether that is this peer |
| RateWindows.WindowIsAccurate | src/bandwidth.c:33-64 | with ten slots of 200 ms, the total lies between the bytes of the last 1800 ms and those of the last 2000 ms |
| RateWindows.AccurateWhen | src/bandwidth.c:42-42 | it does if and only if the clock has reached 2000 or nothing was used in the last 1800 ms |
| RateWindows.EarlyUseIsMissed | src/bandwidth.c:42-42 | with the cutoff of this line wrapped, a concrete use is not counted, so the clock's lower bound is needed |
| RateWindows.TenIsEnough | src/bandwidth.h:32-39 | the slot ten places before the newest is always past the cutoff, so overwriting it loses nothing |
| RateWindows.WalkSeesAll | src/bandwidth.c:45-58 | stopping at the first old slot misses no recent one |
| RateWindows.UseGrows | src/bandwidth.c:69-72 | a use within 200 ms of the newest slot keeps slots and log in agreement |
| RateWindows.UseBegins | src/bandwidth.c:73-79 | so does a later one in a new slot |
| RateWindows.RateWindow.BytesUsed | src/bandwidth.c:67-83 | the log grows by this use and the ring of slots still stands for it |
| RateWindows.RateWindow.GetSpeed | src/bandwidth.c:33-64 | kept or computed, the answer is that of a fresh sum; from time 2000 on it is bytes per second, between what the last 1800 ms and the last 2000 ms come to |
| RateWindows.SpeedIsRate | src/bandwidth.c:59-59 | the speed is the whole bytes a second that the bytes of two seconds come to |
| BandwidthTrees.ClampFits | src/bandwidth.c:308-348 | the clamp never exceeds what was asked or what any limited node reached through honoured links has left |
| BandwidthTrees.ClampGivesAll | src/bandwidth.c:308-348 | with every speed at most 0.8 of the desired one, it gives all that fits |
| BandwidthTrees.ClampStops | src/bandwidth.c:333-344 | above the desired download speed of a limited node, it and all that honour it get nothing |
| BandwidthTrees.ClampExactly | src/bandwidth.c:308-348 | at a limited node the clamp is what is left, a tenth less above 0.8 of the desired speed, two tenths less above 0.9, nothing above it; and then that of the parent, if it is honoured |
| BandwidthTrees.GuardIsExact | src/bandwidth.c:308-348 | in one state no transfer at b exceeds what a has left, whatever the speeds, if and only if some limited node that b honours has no more left than a |
| BandwidthTrees.HonourIsExact | src/bandwidth.c:343-344 | whatever is limited besides a and whatever is left, no transfer below a exceeds what a has left, if and only if every node below a honours its parent up to a |
| BandwidthTrees.AllAreHonoured | src/bandwidth.c:111-112 | where every node honours its parent, as each new node does, every node is honoured from below |
| BandwidthTrees.DishonouredLimitIsIgnored | src/bandwidth.c:343-344 | a concrete node that does not honour its parent is allowed more than the parent has left |
| BandwidthTrees.BandwidthTree.Used | src/bandwidth.c:377-406 | the node and all its ancestors, and no others, are charged and record the transfer |
| BandwidthTrees.BandwidthTree.AllocateFrom | src/bandwidth.c:162-196 | the node and all below it, and no others, get a new allowance if limited, which is desiredSpeed*period/1000 in whole bytes as long as 32 bits hold it |
| BandwidthTrees.BandwidthTree.MoveBytes | src/bandwidth.c:350-355 | a budget stays exact if and only if the transfer charges it no more piece data than it had left, and so for every limited node honoured from below |
| BandwidthTrees.BandwidthTree.PerformAll | src/bandwidth.c:162-406 | over any run 1000 times what a limited node honoured from below is charged since the last pulse is at most desiredSpeed*period, and bytesLeft is the rest, whatever the other nodes do |
| BandwidthTrees.AllowanceIsShare | src/bandwidth.c:173-178 | an allowance is the whole bytes that the desired speed comes to in the period |
| BandwidthTrees.BandwidthTree.Overcharge | src/bandwidth.c:308-406 | a node below a limited one that honours nothing limited can take the limited one over its allowance |
| UdpMessages.TimeOut | src/announcer-udp.c:626-637 | the list loop fails and removes exactly the late requests |
| UdpMessages.SendUnsent | src/announcer-udp.c:545-559 | the list loop sends each unsent request once and frees those nobody waits for |
| UdpMessages.SentKeys | src/announcer-udp.c:534-576 | sending loses no request and answers none that is waited for |
| UdpStates.StepInvariant | src/announcer-udp.c:465-722 | every event keeps: no DNS request with an address, no live id while connecting, live ids in use, all requests accounted for |
| UdpStates.KeptConserves | src/announcer-udp.c:661-722 | upkeep neither loses nor doubles a request |
| UdpStates.HandledConserves | src/announcer-udp.c:865-942 | nor does handling a message |
| UdpStates.QueriesAreLive | src/announcer-udp.c:534-576 | each datagram sent carries an id received less than 60 seconds before |
| UdpAnswers.MessageAnswers | src/announcer-udp.c:900-936 | a response that is not the connection's ends the first announce sent with its transaction id, or else the first such scrape, with the outcome read from its body, and leaves every other request in its place; a refused connection fails all; what fits nothing changes nothing |
| UdpAnswers.AnnounceIsTold | src/announcer-udp.c:385-418 | an announce is told the fields of the response in network order, or the text of the error |
| UdpAnswers.ScrapeIsTold | src/announcer-udp.c:230-268 | a scrape is told a row of the response for each torrent, unknown past its end, or the text of the error |
| UdpAnswers.LookupFails | src/announcer-udp.c:494-505 | a failed lookup fails every request, scrapes first, each list in order |
| UdpAnswers.UpkeepExactly | src/announcer-udp.c:661-722 | an upkeep keeps an address for its hour, looks one up when requests wait without one, tries one connection at a time, and otherwise sends only queries under a good connection id |
| UdpAnswers.YoungIsKept | src/announcer-udp.c:614-651 | a request at most 60 seconds old is not timed out unless the shutdown deadline has passed or the connection attempt is over 60 seconds old |
| UdpAnswers.OldTimesOut | src/announcer-udp.c:614-651 | with an address and a connection, or one being made, an older request is |
| UdpAnswers.UnsentIsSent | src/announcer-udp.c:534-576 | with a good connection every unsent request that is kept goes out under its own transaction id |
| UdpAnswers.AddressIsGood | src/announcer-udp.c:506-514 | an address found is good for an hour from then |
| UdpAnswers.ShutdownDeadline | src/announcer-udp.c:845-860 | a shutdown gives the tracker three seconds more |
| UdpAnswers.NewcomerWaits | src/announcer-udp.c:945-972 | a new request gets the next number and waits with what was asked |
| UdpAnswers.ResponsesOfLength | src/announcer-udp.c:126-133 | which lengths each kind of response of BEP 15 may have |
| UdpRuns.EveryRun | src/announcer-udp.c:465-972 | the invariant holds after any run of announces, scrapes, DNS answers, messages, upkeeps and shutdowns |
| UdpRuns.ExactlyOnce | src/announcer-udp.c:465-491 | after any run each request is pending or was finished exactly once, its callback called then if it has one |
| UdpRuns.FinishedStays | src/announcer-udp.c:465-491 | what was finished, with its outcome, stays so |
| UdpRuns.SecondUpkeepClears | src/announcer-udp.c:614-722 | after two upkeeps at one time no late request is left |
| UdpRuns.LateIsFinished | src/announcer-udp.c:614-722 | after any run, a request over 60 seconds old is finished by two upkeeps at one time |
| UdpRuns.ConnectionIdIsRead | src/announcer-udp.c:87-92 | a connection id is read in network order |
| UdpRuns.AnnounceIsRead | src/announcer-udp.c:385-418 | an announce response of BEP 15 is read as it was laid out |
| UdpRuns.ScrapeIsRead | src/announcer-udp.c:230-268 | so is a scrape response, torrents it does not cover staying unknown |
| UdpTrackers.Tracker.FailAll | src/announcer-udp.c:466-491 | scrapes then announces all fail with that outcome and none is left |
| UdpTrackers.Tracker.SendReqs | src/announcer-udp.c:534-576 | under the four asserted conditions, everything unsent is sent |
| UdpTrackers.Tracker.OnConnectionResponse | src/announcer-udp.c:579-611 | the state machine's step, the upkeep it ends with included |
| UdpTrackers.Tracker.TimeoutReqs | src/announcer-udp.c:614-651 | a connection attempt over 60 seconds old fails everything; else just the late requests fail |
| UdpTrackers.Tracker.Upkeep | src/announcer-udp.c:661-722 | the state machine's upkeep; its body meets the four asserted conditions wherever it sends |
| UdpTrackers.Tracker.OnDns | src/announcer-udp.c:494-515 | the state machine's step for a DNS answer |
| UdpTrackers.Tracker.AnnounceEvent | src/announcer-udp.c:945-957 | the state machine's step for an announce |
| UdpTrackers.Tracker.ScrapeEvent | src/announcer-udp.c:960-972 | the state machine's step for a scrape |
| UdpTrackers.Tracker.StartShutdown | src/announcer-udp.c:845-860 | the state machine's step for a shutdown: a deadline of three seconds |
| UdpTrackers.Tracker.OfferMessage | src/announcer-udp.c:900-936 | the state machine's step for a message, told also of the request it ends, and whether it was this tracker's |
| UdpTrackers.Announcer.HandleMessage | src/announcer-udp.c:865-942 | the message goes to the first tracker that knows its transaction id, where it ends the request that has it, and to no other; a malformed or unknown one to none |
| Bits.OrAndBit | src/bitfield.c:375-375 | or and and of bytes, bit by bit |
| Bits.RangeMasks | src/bitfield.c:395-398 | what the four range masks keep, for every bit position |
| Bits.OnesOfRange | src/bitfield.c:75-84 | shifting out both ends leaves the ones of the range |
| Bits.CountRange | src/bitfield.c:57-116 | the count of ones in the range, though the array may be shorter |
| Bits.CountArray | src/bitfield.c:45-54 | the count of all ones |
| Bitfields.CountIsSize | src/bitfield.c:57-116 | counting ones is the size of the set of their numbers |
| Bitfields.WithRangeAdds | src/bitfield.c:395-413 | the stores of adding a range add exactly that range |
| Bitfields.WithoutRangeRemoves | src/bitfield.c:446-464 | the stores of removing a range remove exactly that range |
| Bitfields.TrimmedKeeps | src/bitfield.c:336-344 | clearing the excess bits keeps exactly those below the bit count |
| Bitfields.AllTrueIsFull | src/bitfield.c:174-185 | setting all true sets exactly the first n bits |
| Bitfields.Bitfield.HasAllOrNone | src/bitfield.h:87-96 | the two predicates say the set is full, or empty |
| Bitfields.Bitfield.HasIsMember | src/bitfield.c:131-143 | a bit is reported set exactly when it is in the set |
| Bitfields.Bitfield.CountIn | src/bitfield.c:119-128 | the size of the part of the set in a range |
| Bitfields.Bitfield.EnsureBitsAlloced | src/bitfield.c:210-229 | the array grows and holds the same set, spelled out if it was full |
| Bitfields.Bitfield.SetTrueCount | src/bitfield.c:252-260 | the array is freed exactly when the set is full or empty; the set is the same |
| Bitfields.Bitfield.GetRaw | src/bitfield.c:188-207 | the bytes whose ones are the set, of full length |
| Bitfields.Bitfield.SetRaw | src/bitfield.c:325-347 | the set becomes the ones of the bytes below the bit count |
| Bitfields.RawIsUnique | src/bitfield.c:188-207 | there is one byte array of that length for a set |
| Bitfields.CopyRaw | src/bitfield.c:188-347 | getting and setting the bytes copies the set |
| Bitfields.Bitfield.SetFromBitfield | src/bitfield.c:314-322 | the set becomes the source's |
| Bitfields.Bitfield.SetHasAll | src/bitfield.c:303-311 | the set becomes full and the array is freed |
| Bitfields.Bitfield.SetHasNone | src/bitfield.c:292-300 | the set becomes empty and the array is freed |
| Bitfields.Bitfield.Add | src/bitfield.c:371-378 | the set gains that number |
| Bitfields.Bitfield.AddRange | src/bitfield.c:382-416 | the set gains the range, or nothing if it does not fit |
| Bitfields.Bitfield.RemRange | src/bitfield.c:432-467 | the set loses the range, or nothing if it does not fit |
| Completions.HeldIsCount | src/completion.c:38-54 | bytes held are blocks times block size, less what the last block is short of |
| Completions.WantedBlockKeepsDone | src/completion.c:103-117 | a block more of a wanted piece does not change the size when done, which is why it is not marked dirty |
| Completions.DoneIsHeldAndWanted | src/completion.c:199-206 | the size when done is the bytes held and the bytes missing from wanted pieces |
| Completions.DoneIsBetween | src/completion.c:188-189 | the size when done is at least the bytes held and at most the torrent's, as asserted |
| Completions.Completion.BlockInit | src/completion.c:39-54 | the blocks are the given ones and sizeNow is their bytes |
| Completions.Completion.BlockAdd | src/completion.c:103-117 | the block is held, and all counts not marked dirty are still right |
| Completions.Completion.PieceAdd | src/completion.c:93-100 | the piece's blocks are held, and likewise |
| Completions.Completion.PieceRem | src/completion.c:76-90 | the piece's blocks are not held, and likewise |
| Completions.Completion.SetDnd | src/torrent.c:2346-2364 | wanting other pieces leaves no stale count |
| Completions.Completion.HaveValid | src/completion.c:124-143 | kept or computed, the bytes of the complete pieces |
| Completions.Completion.SizeWhenDone | src/completion.c:146-196 | kept or computed, the bytes of wanted pieces and what is held of others |
| Completions.Completion.LeftUntilDone | src/completion.c:199-206 | the sum of the bytes missing from wanted pieces |
| Completions.Completion.MissingBlocksInPiece | src/completion.c:232-244 | how many of the piece's blocks are not held; none if and only if it is complete |
| Completions.Completion.MissingBytesInPiece | src/completion.c:247-274 | the piece's bytes less those held of it |
| Utf.LegalIsRfc | src/ConvertUTF.c:296-319 | a character is legal if and only if RFC 3629 section 4 allows it or it is a stray after F4 |
| Utf.StrayIsAccepted | src/ConvertUTF.c:304-311 | a concrete stray that is accepted |
| Utf.WellFormedIsAccepted | src/ConvertUTF.c:353-395 | every well-formed UTF-8 sequence is accepted to its end |
| Utf.AcceptedIsWellFormed | src/ConvertUTF.c:353-395 | a sequence accepted whole that holds no stray is well-formed |
| Utf.AcceptedExactly | src/ConvertUTF.c:353-395 | a sequence is well-formed if and only if it is accepted whole and holds no stray |
| Utf.AssembleInRange | src/ConvertUTF.c:412-428 | no legal sequence is a surrogate or beyond the last code point |
| Utf.BytesAreRead | src/ConvertUTF.c:256-276 | a scalar value's bytes are read as that value |
| Utf.FoundIsUnits | src/ConvertUTF.c:227-255 | a well-formed UTF-16 character is the units of its scalar value |
| UtfConvert.Resume8 | src/ConvertUTF.c:215-281 | going on after the target was exhausted gives the unbounded output |
| UtfConvert.Resume16 | src/ConvertUTF.c:400-469 | the same for UTF-8 to UTF-16 |
| UtfConvert.AnyStops8 | src/ConvertUTF.c:215-281 | wherever any number of targets end, the pieces make up the unbounded output |
| UtfConvert.AnyStops16 | src/ConvertUTF.c:400-469 | the same for UTF-8 to UTF-16 |
| UtfConvert.RoundTrip | src/ConvertUTF.c:215-469 | well-formed UTF-16 converts to well-formed, valid UTF-8 and back to itself |
| UtfConvert.RoundTripBack | src/ConvertUTF.c:215-469 | well-formed UTF-8 converts to UTF-16 and back to itself |
| UtfConvert.ConvertUTF16toUTF8 | src/ConvertUTF.c:215-281 | result, how far it read and what it wrote are the bounded conversion's; nothing else is written |
| UtfConvert.ConvertUTF8toUTF16 | src/ConvertUTF.c:400-469 | the same; its handling of illegal values beyond isLegalUTF8 never comes up |
| UtfConvert.WriteBytes | src/ConvertUTF.c:270-275 | the fall-through switch writes a character's bytes, back to front, and nothing else |
| UtfConvert.Validate | src/ConvertUTF.c:353-395 | true if and only if the whole text is legal, and how far it is |
| Blocklists.Merge | src/blocklist.c:388-396 | the kept ranges begin in order, keep apart, and cover exactly what the sorted ones did |
| Blocklists.MergedCovers | src/blocklist.c:388-394 | one turn of the merge adds exactly the range's addresses |
| Blocklists.BlocklistFile.SetContent | src/blocklist.c:378-396 | for any content, the rules begin in order and keep apart, with the union of the content; none ends before it begins if none of the content does |
| Blocklists.BlocklistFile.HasAddress | src/blocklist.c:203-227 | yes if and only if enabled and some rule has the IPv4 address |
| Blocklists.Blocks | src/blocklist.c:203-405 | loading ranges and asking says yes if and only if one of those ranges has the address |

## Left out

- BlockCache.Cache.WriteBlock: assumes a whole block written at its start. `clientGotBlock` checks the length and the block number but not the offset, so a peer can bring about another write; `WriteIsShownExactly` says what is shown after one, but the invariants of the cache are not claimed to survive it.
- BlockCache.Cache.ReadBlock: promises the bytes last written only for a read within one block from its start, because the code does no better (`ReadIsRightExactly`).
- BlockCache.Perform: assumes writes of whole blocks and reads within one; src/peer-msgs.c:2032 reads wherever a peer asked.
- BlockCache.PerformAll: the same assumption for every call of the run.
- Cache: blocks outside the torrent; prefetching.
- Cache: I/O failures beyond reporting them. A failed write loses the blocks already taken from the cache, so the view is promised only when no error is reported.
- BlockCache.Cache.SetLimit: does not promise the new limit at once, because one trim frees only what its cutoff asks for.
- BlockCache.Cache.FlushFile: may also flush blocks past the file's end, because the run that began in the file is written whole.
- Storage.Disk.ReadOrWriteBytes: a transfer is whole or fails; short reads and writes that the system reports without an error, and which errno it gives, are not modelled.
- Storage: files are whole on disk from the start; creating, opening and preallocating them is not modelled.
- CacheRuns: ranks are unbounded integers; overflow of the program's int rank is not modelled.
- WireReader: piece messages of length below 9 wrap the length to 32 bits as the program does, but only those with data are claimed to be read; without metadata every piece message is treated as a bad block.
- PeerMsgsModule.PeerMsgs.ReadBtMessage: what the message changes besides being reported (choking flags, the peer's bitfield, the request queue) is not modelled.
- PeerMsgsModule.PeerMsgs.ReadBtPiece: dropping a block nobody asked for, and storing one in the cache, is not modelled.
- WireReader: what a message makes the program do beyond being reported (request queues, choking state, extension payloads) is not modelled.
- SwarmTables: in every state the counts of the piece list are only bounded by the requests outstanding, because rejects and rebuilt lists lower them; `ExactCounts` says when they are equal.
- Swarm: the 16-bit request count of a piece and the 32-bit product of request count and block size are unbounded.
- Swarm: the peer's `have` set, replication counts and priorities are inputs; keeping replication counts exact is not claimed, as the program's own comments say peers can break it.
- SwarmModule.Swarm.GetNextRequests: promises an ordered list when the list was in order on entry or was not marked sorted, because the program changes weights after resorting elsewhere.
- RateWindow: the millisecond clock is taken to be at least 2000, which it always is: src/utils.c:728 counts from 1970.
- RateWindow: byte sums and the speed are cut to 64 and 32 bits as in the program; the accuracy is stated of the sum before that.
- BandwidthTrees.BandwidthTree.AllocateFrom: the peer pool and the priorities gathered on the same walk are not modelled.
- BandwidthTree: distributing a pulse among peers (the random rounds and peer priorities) and reparenting a node are not modelled; speeds are inputs to the clamp.
- UdpTracker: callbacks that call back into the tracker, `tr_tracker_udp_close`, and DNS answers delivered inside the lookup call; the last is the same as an answer that comes next.
- UdpTrackers.Tracker.AnnounceEvent: building the payload and finding the tracker by its URL are not modelled.
- UdpTrackers.Tracker.ScrapeEvent: the same.
- Bitfield: `tr_bitfieldRem`, whose guard looks for an absent bit and so does not clear set ones; bit fields of unknown size with hints; setting from flags.
- Bitfields.Bitfield.SetRaw: only for a bitfield whose bit count is known, not in the unbounded mode.
- Bitfields.Bitfield.Add: only for numbers below the bit count; the program also stores numbers beyond it, for bitfields of unknown size.
- Bitfields.Bitfield.CountIn: makes no claim for a range past the end of a bitfield that is not full, because no caller asks for one.
- Bitfields.Bitfield.SetFromBitfield: only from a source that is full, empty or fully allocated, which the program asserts.
- Completions.Completion.SetDnd: takes any set of unwanted pieces; how unwanted files become unwanted pieces is not modelled.
- Completion: torrents without metadata, percentages, per-file completeness and the piece bitfield.
- UtfConvert: the UTF-32 conversions, and text given by a terminating zero instead of a length.
- Blocklist: parsing the two line formats and mapping the file. Ranges that end before they begin, which the parser does not exclude, are covered and block nothing; the program's debug checks hold when there are none.
- Handshakes, encryption, JSON, metainfo, port forwarding, logging, web seeds, peer selection, choking and the user interfaces: not part of this model.
- Sockets, event loops, threads and locks: the models run one call at a time.
