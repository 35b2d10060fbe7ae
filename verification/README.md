# libdvdnav and libdvdread: a verified model

A Dafny model of the parts of the DVD navigation libraries in which state, order and arithmetic are
hardest to get right, with proofs of what they are for.

| file | of the library | main results |
|---|---|---|
| `Rfc1321.dfy`, `Md5.dfy`, `Bits.dfy` | `md5.c` | any way of handing over a message gives the digest of RFC 1321 |
| `CacheModel.dfy`, `ReadCache.dfy`, `CacheAccounts.dfy`, `CacheRuns.dfy`, `ReadAhead.dfy` | `read_cache.c` | the cache is transparent, held blocks keep their contents, disposal happens once, and reading ahead keeps a stated pace |
| `SkipMap.dfy`, `SkipLookups.dfy`, `SkipJumps.dfy` | `remap.c` | the table covers what was added; exactly when it stays sorted, when lookups find all of it, and when jumps end where a map file promises |
| `PlayerModel.dfy`, `Player.dfy`, `PlayerRuns.dfy`, `PathPlay.dfy`, `SkipPlay.dfy`, `LinearPlay.dfy` | `dvdnav.c`, `navigation.c` | stills, events, resynchronisation, and delivery of every sector once along the VOBUs of the current angle |
| `Searching.dfy`, `TimeSearch.dfy`, `Times.dfy`, `Positions.dfy`, `Chapters.dfy` | `searching.c`, `dvdnav.c` | seeks, times, positions and chapters agree with each other |
| `Highlight.dfy` | `highlight.c` | the button under the mouse |

Code that changes state in place is a class or a loop with invariants (`Md5.Context`,
`ReadCache.Cache`, `SkipMap.Table`, `Player.Handle`, `TimeSearch.Seeker`, `Highlight.Menu`). Each of
its methods is proved equal, state and result, to a function; the lemmas over runs are about those
functions.

What is outside is a parameter. The disc is a function from file and sector to contents. How many
blocks a read delivers, and where the allocator puts a buffer, come with each operation. The
virtual machine answers each call with `Env`: the position it wants, the angle, whether it stopped.

## Where the code does not do what is promised

- `remap_add_node` extends only the one region that the search finds. A region that touches two
  stored ones leaves an overlapping table: `SkipMap.AddKeepsOrder` and `SkipMap.AlwaysSorted` say
  exactly when. The covered set is right in every case, and a single such addition loses no lookup
  (`SkipLookups.OneAdditionLosesNothing`), but a later one can
  (`SkipMap.BridgingAdditionLosesSectors`): all sectors are found exactly when the parts of the
  entries that bisection reaches leave no gap (`SkipLookups.AllFoundIsGapless`,
  `SkipLookups.AddedAreFound`). On such a table a jump can also end inside a skip region
  (`SkipJumps.BridgedJumpLandsInside`) or move a second time (`SkipJumps.BridgedJumpMovesTwice`);
  finite checks of the table say exactly when no jump does (`SkipJumps.LandsAtEndsIff`,
  `SkipJumps.SkipsIff`, `SkipJumps.SettlesIff`, and `SkipJumps.FileIff` for map files).
- The binary branch of `dvdnav_scan_admap` steps back once too often when the bounds cross at the
  upper neighbour of the target. `Searching.TakenIsNearest` says exactly when, by the depths of the
  two neighbours in the bisection; `Searching.StepsBackOnce` is an example. A time search can land
  before its cell for this reason (`TimeSearch.JumpStaysInCell`, `TimeSearch.JumpFallsBeforeCell`).
  On tables of at most twenty slots the bounds can also go below zero
  (`Searching.ScanBinary`, `Searching.SmallTableLeavesRange`).
- In a cell of more than 2^24 sectors beyond one, float rounding can put the sector searched after
  the cell (`TimeSearch.TargetInCell`, `TimeSearch.BigCellOvershoots`).
- A time search divides by zero for time 0 in a first cell without length
  (`TimeSearch.DividesByZero`).
- The duration of a title counts only the first cell of its last chapter
  (`Chapters.DurationIsWhole`, `Chapters.LastCellIsMissing`). For a title without parts the array
  handed out has been freed (`Chapters.DescribeTitleChapters`).
- `md5_process_block` carries at most one into the high word of its counter, so a single call is
  exact below 2^32 bytes, and beyond that only if the true carry is one modulo 2^32
  (`Md5.AdvanceExact`, `Md5.FedExact`, `Md5.LongIncrementMiscounts`). The digest is then that of the message but for
  the length in it (`Md5.DigestOfPieces`, `Md5.LongPieceMiscounts`).
- A cache hit reports success even when the disc read fails or delivers too little; the exact
  condition for the blocks to be there is `CacheRuns.HitServesExactly`, and
  `CacheRuns.FailedReadSucceeds` and `CacheRuns.FailedReadServesOldBlock` are examples.
- The hour products of `dvdnav_convert_time` overflow 32 bits from seven hours on
  (`Times.ProductsFit`, `Times.SevenHoursOverflow`).

## Model

| member | source | states |
|---|---|---|
| Rfc1321.WordBytesRoundTrip | libdvdnav/libdvdread/md5.c:75-86 | the four little-endian bytes of a word read back as the word |
| Rfc1321.BlocksConcat | libdvdnav/libdvdread/md5.c:280-404 | processing a concatenation of whole blocks is processing the parts in sequence |
| Rfc1321.TablePattern | libdvdnav/libdvdread/md5.c:314-397 | the four rounds take the words in the orders j, 5j + 1, 3j + 5 and 7j modulo 16, each with its four shifts in turn |
| Md5.FFIsF | libdvdnav/libdvdread/md5.c:249-250 | the rewritten selector FF is the function F of section 3.4 of RFC 1321 |
| Md5.FGIsG | libdvdnav/libdvdread/md5.c:251 | FG, which reuses FF, is the function G of section 3.4 |
| Md5.RolIsRotateLeft | libdvdnav/libdvdread/md5.h:150-158 | the two shifts of the rol macro make a rotation, one bit at a time, for every distance up to 32 |
| Md5.OpIsOperation | libdvdnav/libdvdread/md5.c:297-305 | one OP with its order of additions is one operation of section 3.4, with the registers rotated instead of moved |
| Md5.OpFF | libdvdnav/libdvdread/md5.c:297-305 | an OP of round 1 takes the registers, in rotated roles, from one state of the standard's run to the next |
| Md5.OpFG | libdvdnav/libdvdread/md5.c:336-343 | the same for round 2 |
| Md5.OpFH | libdvdnav/libdvdread/md5.c:336-343 | the same for round 3 |
| Md5.OpFI | libdvdnav/libdvdread/md5.c:336-343 | the same for round 4 |
| Md5.RoundOne | libdvdnav/libdvdread/md5.c:314-330 | the sixteen unrolled lines, with their constants, reach state 16 of the standard's run |
| Md5.RoundTwo | libdvdnav/libdvdread/md5.c:345-361 | from state 16 to state 32 |
| Md5.RoundThree | libdvdnav/libdvdread/md5.c:363-379 | from state 32 to state 48 |
| Md5.RoundFour | libdvdnav/libdvdread/md5.c:381-397 | from state 48 to state 64 |
| Md5.UnrolledBlock | libdvdnav/libdvdread/md5.c:282-404 | the unrolled body equals the compression of the standard on every block |
| Md5.AllBlocks | libdvdnav/libdvdread/md5.c:282-404 | the loop over a buffer is the standard's chain of blocks |
| Md5.AdvanceExact | libdvdnav/libdvdread/md5.c:276-278 | the split counter adds exactly modulo 2^64 if and only if the increment is below 2^32 or the true carry is one modulo 2^32 |
| Md5.LongIncrementMiscounts | libdvdnav/libdvdread/md5.c:276-278 | an increment of 2^33 from zero is counted as 2^32 |
| Md5.LengthWords | libdvdnav/libdvdread/md5.c:110-113 | the shifted halves of the counter are the length field of section 3.2, the bit length modulo 2^64 |
| Md5.FillbufPads | libdvdnav/libdvdread/md5.c:107-108 | the bytes taken from fillbuf are the padding of section 3.1 |
| Md5.LastBlocks | libdvdnav/libdvdread/md5.c:94-119 | a context that has hashed a prefix and holds the rest yields, with the final blocks, the digest of the whole for the length they claim |
| Md5.HonestDigest | libdvdnav/libdvdread/md5.c:110-113 | a digest that claims the length modulo 2^64 is that of RFC 1321 |
| Md5.FedExact | libdvdnav/libdvdread/md5.c:200-243 | counter and bytes pending grow together by the bytes of a call, modulo 2^64, if and only if the whole blocks after the buffer are less than 2^32 bytes or their carry is one modulo 2^32 |
| Md5.FedCounts | libdvdnav/libdvdread/md5.c:200-243 | a call with less than 2^32 bytes is counted right |
| Md5.ClaimGoesOn | libdvdnav/libdvdread/md5.c:200-243 | a piece keeps the claimed length true modulo 2^64 if and only if it is counted right |
| Md5.ClaimIsTrue | libdvdnav/libdvdread/md5.c:200-243 | after pieces counted right the claimed length is that of the message modulo 2^64 |
| Md5.LongPieceMiscounts | libdvdnav/libdvdread/md5.c:230-235 | for one piece of 2^33 bytes the digest claims 2^32 |
| Md5.Context.constructor | libdvdnav/libdvdread/md5.c:57-68 | a fresh context reflects the empty message |
| Md5.Context.ProcessBlock | libdvdnav/libdvdread/md5.c:258-411 | registers become those after the blocks, the counter advances by the length |
| Md5.Context.ProcessBytes | libdvdnav/libdvdread/md5.c:200-243 | for data of any length the message grows by exactly the data across all boundaries of the 128-byte buffer, at most 64 bytes pending, registers those of the bytes hashed; the counter is the one specified, and an exact one stays exact if and only if the data are counted right |
| Md5.Context.FillBuffer | libdvdnav/libdvdread/md5.c:208-227 | the carry buffer takes a first part of the data and is hashed and counted beyond 64 bytes |
| Md5.Context.HashWhole | libdvdnav/libdvdread/md5.c:230-235 | the whole blocks of the data, of any length, are hashed and counted, and less than a block is left over |
| Md5.Context.Finish | libdvdnav/libdvdread/md5.c:93-119 | the digest of the whole message for the length that the counter claims; the digest of RFC 1321 when the counter is exact |
| Md5.Context.PadBuffer | libdvdnav/libdvdread/md5.c:107-113 | the buffer is completed with padding and length field, in one or two blocks |
| Md5.BufferDigest | libdvdnav/libdvdread/md5.c:181-197 | the digest of one buffer of any length, but for the length it claims; that of RFC 1321 if it is counted right |
| Md5.DigestOfPieces | libdvdnav/libdvdread/md5.c:200-243 | for every message and every split into pieces of any length, empty ones included, the digest of the concatenation but for the length it claims; with pieces that are counted right, as all below 2^32 bytes are, that of RFC 1321 |
| Md5.ReadBlock | libdvdnav/libdvdread/md5.c:147-160 | partial reads, of any sizes, fill a block or reach the end |
| Md5.StreamDigest | libdvdnav/libdvdread/md5.c:124-175 | a stream read in arbitrary pieces has the digest of its contents; a stream error gives status 1 |
| ReadCache.Cache.constructor | libdvdnav/read_cache.c:104-126 | a new cache, its other chunk fields whatever memory held |
| ReadCache.Cache.CacheClear | libdvdnav/read_cache.c:152-162 | every chunk becomes invalid and nothing else changes |
| ReadCache.Cache.CacheFree | libdvdnav/read_cache.c:128-149 | buffers not in use are freed, and all the rest once none is left |
| ReadCache.Cache.FreeCacheBlock | libdvdnav/read_cache.c:331-356 | a return takes one from the chunk that owns the pointer, and tries disposal when closing |
| ReadCache.Cache.PreCacheBlocks | libdvdnav/read_cache.c:165-230 | the three loops choose and retarget a chunk as specified |
| ReadCache.Cache.ReadCacheBlock | libdvdnav/read_cache.c:232-329 | hit or miss, pace, read-ahead and result as specified; what these come to is said by the lemmas of `CacheRuns` and `ReadAhead` |
| CacheRuns.BestFitIsBest | libdvdnav/read_cache.c:176-182 | the first of the smallest chunks that fit and are not in use; none exactly if there is none |
| CacheRuns.LargestIsLargest | libdvdnav/read_cache.c:185-189 | the first of the largest chunks not in use |
| CacheRuns.HitReaches | libdvdnav/read_cache.c:288-312 | whatever the disc delivers, the read-ahead starts where reading stopped and stays in the chunk; if it delivers a block, the sector asked for is reached |
| CacheRuns.HitKeepsContents | libdvdnav/read_cache.c:261-314 | a hit keeps the invariant and every safe block, whatever the disc delivers; a block within reach is delivered right, and safe |
| CacheRuns.ReadKeepsContents | libdvdnav/read_cache.c:232-329 | a read delivers what the disc holds in the open file, or fails when it misses and the disc fails; a hit out of reach is the third case |
| CacheRuns.StepKeeps | libdvdnav/read_cache.c:128-356 | every operation, whatever the disc delivers, keeps the invariant: the books, read_count from -1 to block_count within malloc_size, chunks agree with the disc on what they have read; and every safe block that is held before and after |
| CacheRuns.CacheIsTransparent | libdvdnav/read_cache.c:165-329 | over every run, whatever the disc delivers, each read delivers what a direct read of its sector in the open file would, with read-ahead on or off, but for those that miss and fail and for hits out of reach |
| CacheRuns.GoodDiscIsTransparent | libdvdnav/read_cache.c:165-329 | if disc reads deliver at least a block, all deliveries of a run are the direct ones |
| CacheRuns.HeldBlocksKeep | libdvdnav/read_cache.c:152-312 | a block that was right when handed out keeps its contents until it is returned, through read-ahead, failed reads, reuse, reallocation, clearing and closing |
| CacheRuns.GoodDiscMeets | libdvdnav/read_cache.c:298-312 | a disc read that delivers at least a block puts every hit within reach |
| CacheRuns.NewHolds | libdvdnav/read_cache.c:104-126 | the invariant holds initially, whatever fresh memory held |
| CacheRuns.HitServesExactly | libdvdnav/read_cache.c:296-314 | a hit reports success always; the blocks it hands out are the disc's if and only if they end within what was read before and what the disc now delivers, or memory beyond happens to hold them |
| CacheRuns.UnsuppliedReadIsStale | libdvdnav/read_cache.c:301-314 | a hit out of reach reports success and hands out what memory held |
| CacheRuns.FailedReadSucceeds | libdvdnav/read_cache.c:308-314 | a new cache whose first disc read fails: success, and a block never written |
| CacheRuns.FailedReadServesOldBlock | libdvdnav/read_cache.c:176-182 | a run of a new cache in which a chunk is used again and its disc read fails: success, and the block of the sector before |
| ReadAhead.PaceFollows | libdvdnav/read_cache.c:264-294 | over every run, whatever the disc delivers: a hit out of sequence sets the size of the read-ahead to 4, the k-th hit in sequence after it makes it 4 and the halves of 1 to k, at most 512, and no other operation changes it |
| ReadAhead.HalvesAreSquares | libdvdnav/read_cache.c:288-294 | these halves come to a quarter of the square of k, rounded down |
| ReadAhead.AheadGrows | libdvdnav/read_cache.c:264-294 | the read-ahead never shrinks within a sequence, and is 512 exactly from the 46th hit on |
| ReadAhead.HitReadsAhead | libdvdnav/read_cache.c:288-312 | a hit asks the disc for as many blocks as the pace says or as are left in its chunk, and the chunk has then read what is delivered; a failed read takes one off |
| ReadAhead.AheadIsServed | libdvdnav/read_cache.c:243-312 | after a hit in the current chunk on a disc that delivers all it is asked for, the chunk is read to its end or at least 4 blocks further, and each sector read hits even when the disc fails |
| ReadAhead.PreCachedIsServed | libdvdnav/read_cache.c:165-312 | all blocks announced to pre-caching, read in order, are hits within reach, if each disc read delivers at least one |
| ReadAhead.LookupIs | libdvdnav/read_cache.c:243-259 | a sector hits the current chunk if that serves it, otherwise the highest numbered one that does; none exactly if none does |
| ReadAhead.ChooseIs | libdvdnav/read_cache.c:176-218 | pre-caching takes a large enough chunk not in use, else enlarges one not in use, else fills an empty one, and gives up exactly when all are in use |
| ReadAhead.PreCachedIs | libdvdnav/read_cache.c:176-228 | the chunk chosen becomes current, for the sectors announced, with room for them and none read, a first buffer of at least 500 blocks; the other chunks are as before, and memory too unless a buffer had to be made |
| CacheAccounts.StepKeepsBooks | libdvdnav/read_cache.c:128-356 | every operation, whatever the disc delivers, keeps the books: usage counts equal pointers held, pointers lie in their chunk's buffer, buffers are apart, disposal is pending or done once |
| CacheAccounts.FreedWhenAllReturned | libdvdnav/read_cache.c:331-356 | in every reachable state, failing reads included, usage counts equal the pointers out, chunks in use keep their buffer, and after closing began cache and handle are freed, once, exactly when no pointer is out |
| CacheAccounts.CopiedBlockIsGivenBack | libdvdnav/dvdnav.c:378-391 | read, copy and give back leaves every usage count and the pointers held as they were |
| CacheAccounts.NewBalances | libdvdnav/read_cache.c:104-126 | the books balance initially |
| SkipMap.CoveredSet | libdvdnav/remap.c:110-155 | for every sequence of additions, even of inverted regions, the sectors covered by the table are those of the regions added |
| SkipMap.FindComplete | libdvdnav/remap.c:110-128 | on a sorted table the search finds an overlapping region if and only if there is one |
| SkipMap.AddKeepsOrder | libdvdnav/remap.c:130-155 | an addition leaves the table sorted and disjoint if and only if it touches at most one stored region |
| SkipMap.AlwaysSorted | libdvdnav/remap.c:135-155 | the table is sorted after every addition if and only if none of them bridges two stored regions |
| SkipMap.BridgingAdditionLosesSectors | libdvdnav/remap.c:130-142 | a bridging addition after which a search misses a sector that was added |
| SkipLookups.FindIsReach | libdvdnav/remap.c:110-128 | on any table the search finds an overlapping entry if and only if there is one from which no entry above it in the bisection sends the key away |
| SkipLookups.FindIsWindow | libdvdnav/remap.c:110-128 | on any table of forward regions a sector is found if and only if it lies in the window of some entry: the entry clipped by those above it in the bisection |
| SkipLookups.AllFoundIsGapless | libdvdnav/remap.c:110-155 | every sector that a table covers is found if and only if the windows leave no gap, which is a finite check |
| SkipLookups.AddedAreFound | libdvdnav/remap.c:135-155 | every sector of all regions added is found if and only if the table they make has no gap |
| SkipLookups.OneAdditionLosesNothing | libdvdnav/remap.c:130-155 | an addition to a sorted table, bridging or not, loses no lookup |
| SkipMap.RemapForward | libdvdnav/remap.c:244-269 | on any table a jump never goes back |
| SkipMap.RemapTarget | libdvdnav/remap.c:244-269 | on a sorted table a jump moves to the end of the region it falls in, or not at all, and ends in a region only at its end |
| SkipMap.RemapIdempotent | libdvdnav/remap.c:244-269 | on a sorted table moving a jump twice is moving it once |
| SkipMap.MapFileSkips | libdvdnav/README.MAP:47-49 | with a map in which no region bridges two, a jump into a region of the file is moved to its end or beyond, and lands in no region but at its last sector |
| SkipJumps.FindIsFirst | libdvdnav/remap.c:110-128 | on any table the search returns an entry if and only if that overlaps the key and every entry above it in the bisection sends the key strictly towards it |
| SkipJumps.FindIsOwn | libdvdnav/remap.c:110-128 | on any table of forward regions an entry is found for exactly the sectors of its own part: the entry cut by those above it |
| SkipJumps.RemapByWindow | libdvdnav/remap.c:244-269 | on any table of forward regions a jump into a window moves to the end of an entry it falls in, and any other stays |
| SkipJumps.LandsAtEndsIff | libdvdnav/remap.c:244-269 | on any table of forward regions no jump ends in one of some given regions but at its last sector if and only if two finite checks hold: where a used entry ends those regions end, and all their sectors but the last are found |
| SkipJumps.SkipsIff | libdvdnav/remap.c:244-269 | every jump into one of the regions is moved to its end or beyond if and only if the entries found for it reach as far and all its sectors but the last are found |
| SkipJumps.SettlesIff | libdvdnav/remap.c:244-269 | moving a jump twice is moving it once, for all jumps, if and only if a jump to the end of any used entry stays |
| SkipJumps.FileIff | libdvdnav/README.MAP:47-49 | the first two for the regions of any map file, bridging or not, and the table they make |
| SkipJumps.BridgedJumpLandsInside | libdvdnav/remap.c:130-142 | a bridged table on which a jump ends in the middle of an entry |
| SkipJumps.BridgedJumpMovesTwice | libdvdnav/remap.c:130-155 | a bridged table on which a jump moves a second time |
| SkipMap.Table.FindBlock | libdvdnav/remap.c:110-128 | the loop is the binary search specified |
| SkipMap.Table.AddNode | libdvdnav/remap.c:135-155 | merge, or grow, shift and insert: the table afterwards |
| SkipMap.Table.MakeRoom | libdvdnav/remap.c:148-152 | the entries that follow the new region move up by one |
| SkipMap.Table.RemapBlock | libdvdnav/remap.c:244-269 | the result of the jump specified |
| SkipMap.LoadMap | libdvdnav/remap.c:219-234 | loading regions one by one gives the table of all |
| Player.Handle.GetNextCacheBlock | libdvdnav/dvdnav.c:410-826 | one call is one step of the playback machine; it keeps the handle's invariant and tallies, and delivers a block only with nothing missing since a change of file, and only from the title VOBs of the current title set in the title domain, the menu VOBs of that set in its menu domain, and those of the video manager otherwise |
| Player.Handle.NextEvent | libdvdnav/dvdnav.c:410-826 | the event, by the order of priorities |
| Player.Handle.DoHop | libdvdnav/dvdnav.c:450-497 | a hop, after a seek among angles past the first VOBU |
| Player.Handle.DoChangeVts | libdvdnav/dvdnav.c:527-590 | opens the title VOBs of the new set in the title domain, its menu VOBs in its menu domain and the menu VOBs of the video manager in the other two; the event comes exactly when a file was opened, which it is exactly for a known domain with a file; otherwise an error and none open |
| Player.Handle.DoChangeCell | libdvdnav/dvdnav.c:593-654 | a new cell, with streams and palette to be reported again |
| Player.Handle.DoEndCell | libdvdnav/dvdnav.c:729-755 | wait, still or advance at the end of a cell |
| Player.Handle.DoNextVobu | libdvdnav/dvdnav.c:757-805 | the jump to the next VOBU through the skip map, and its NAV packet |
| Player.Handle.ReadVobu | libdvdnav/dvdnav.c:301-365 | the next VOBU by angle, seamless or not, as specified; `PathPlay.VobuFollows` says what that is in terms of the tables |
| Player.Handle.DoStillSkip | libdvdnav/navigation.c:43-52 | the fields that skipping a still sets; it counts as one permission |
| Player.Handle.DoWaitSkip | libdvdnav/navigation.c:54-59 | the fields that skipping a wait sets; it counts as one permission |
| PlayerRuns.FileAlwaysRight | libdvdnav/dvdnav.c:527-574 | throughout every run the open file is absent, or holds titles exactly in the title domain, and belongs to the current title set in the two domains of a title set and to the video manager in the two others |
| PlayerRuns.VtsOpens | libdvdnav/dvdnav.c:527-590 | a change opens the right file if the domain is known and the file can be opened, and fails with none open otherwise; title set and domain are taken over unless the domain is unknown |
| PlayerRuns.PayloadsTell | libdvdnav/dvdnav.c:499-722 | a highlight tells the new button, a change of title set both old and new set and domain, an audio change the new stream, a still its length |
| PlayerRuns.EventsInTurn | libdvdnav/dvdnav.c:431-825 | every event comes only when all that go before it in priority are settled; a stopped machine reports the stop and nothing else |
| PlayerRuns.FilterReleased | libdvdnav/dvdnav.c:792-794 | the NAV packet left by a command is remembered until the NAV packet with its number comes by, and then, and only then, forgotten |
| PlayerRuns.FailedBlockIsSkipped | libdvdnav/dvdnav.c:814-820 | a block that cannot be read fails the call, and the next call goes on behind it |
| PlayerRuns.FailedSeekIsRetried | libdvdnav/dvdnav.c:459-476 | a seek among angles without a NAV packet where it lands fails and leaves the handle as it was |
| PlayerRuns.StopKeepsPlace | libdvdnav/dvdnav.c:415-438 | after a stop calls fail until the machine starts, and then go on as if there had been no stop |
| PlayerRuns.LeftStaysLeft | libdvdnav/highlight.c:355-384 | a menu left by a button or out of its still stays left through any row of calls until its NAV packet comes by again |
| PlayerRuns.BlocksHaveFiles | libdvdnav/dvdnav.c:807-825 | a block is delivered only with a file open |
| PlayerRuns.AdvanceUsesPermission | libdvdnav/dvdnav.c:734-749 | only an advance uses up the skip flags, and it needs the ones that the still or menu asks for |
| PlayerRuns.StillsAreConserved | libdvdnav/dvdnav.c:734-755 | ends of cells passed by calls in spite of a still, and a pending skip, never exceed the still_skip calls; those passed in spite of a still or menu, and a pending skip, never exceed still_skip and wait_skip calls together |
| PlayerRuns.ControlDrains | libdvdnav/dvdnav.c:450-826 | no call, failed ones included, raises a measure of at most seven, and every control event lowers it, though changes of file and cell arm later events again |
| PlayerRuns.EventsDrain | libdvdnav/dvdnav.c:450-826 | with the virtual machine in place, at most seven control events come in all, in a run of calls of any length from any state |
| PlayerRuns.SevenInARow | libdvdnav/dvdnav.c:450-709 | the bound of seven is reached |
| PlayerRuns.AnsweringAdvances | libdvdnav/dvdnav.c:515-524 | an application that answers waits and stills leaves a cell at its end within four calls |
| PlayerRuns.StillIsReported | libdvdnav/dvdnav.c:710-755 | at the end of a cell with a still come a wait, then, once that is skipped, the still with its length, then, once that is skipped, the advance |
| PlayerRuns.StillIsLeft | libdvdnav/highlight.c:355-407 | after a jump, an activation or a skip the next call reports no still |
| PlayerRuns.Resynchronises | libdvdnav/dvdnav.c:527-825 | in every run, between a change of file and any later block come a cell change, a palette change and a NAV packet, in order |
| PathPlay.VobuFollows | libdvdnav/dvdnav.c:301-365 | what the tables of a NAV packet say for the current angle is taken: a non-seamless address before a seamless one, forward or back by bit 31, the end of the cell by its mark, and the length of the interleaved unit with a seamless one |
| PathPlay.UnitNav | libdvdnav/dvdnav.c:757-805 | the NAV packet that starts a unit is delivered at its sector, with its menu and number taken over and the block register set to the VOBU before it |
| PathPlay.PathPlaysThrough | libdvdnav/dvdnav.c:725-825 | with the units of an angle wherever its addresses lead, n calls deliver exactly the first n sectors of that angle, in its order, with the time of the last NAV packet, and all of them bring the end of the cell |
| PathPlay.PathPlaysTo | libdvdnav/dvdnav.c:593-825 | the same from the change of cell on, at whatever block of the cell the virtual machine lands |
| PathPlay.PathPlays | libdvdnav/dvdnav.c:593-825 | and on to the advance to the next cell |
| PathPlay.SeekPlays | libdvdnav/dvdnav.c:450-497 | a jump is reported as a hop, and playback then delivers the sectors of the current angle from the block landed at |
| PathPlay.HopSkips | libdvdnav/dvdnav.c:455-486 | after a seek among several angles the block register names the unit that follows on the angle, or the one landed at if it is the last |
| PathPlay.WovenPaths | libdvdnav/dvdnav.c:345-362 | a cell of two interleaved angles, one of them laid out backwards, on which the angles deliver disjoint sectors |
| SkipPlay.NavFollowsMap | libdvdnav/dvdnav.c:757-781 | with a skip map, every NAV packet comes from the sector that the map moves the next VOBU to; without one from that VOBU |
| SkipPlay.NavSkipsRegions | libdvdnav/dvdnav.c:757-781 | with a map on which jumps land only at ends, a VOBU played next starts in no region of the current program but at its last sector, and never before the VOBU that came next |
| SkipPlay.FailedNavStaysMoved | libdvdnav/dvdnav.c:757-779 | without a NAV packet there the call fails, and the next VOBU stays the one moved to |
| LinearPlay.CellPlaysThrough | libdvdnav/dvdnav.c:725-825 | on a cell tiled by well-formed VOBUs, which no angle redirects, its sectors are delivered once each, in increasing order, and then the end of the cell is reached |
| LinearPlay.CellPlays | libdvdnav/dvdnav.c:593-825 | the same from the change of cell to the advance to the next |
| LinearPlay.ChainPlays | libdvdnav/dvdnav.c:593-825 | the same for every chain of cells in one file, whatever cell numbers, restart counts and streams the virtual machine gives them |
| LinearPlay.ChainsHaveRoutes | libdvdnav/dvdnav.c:593-595 | the virtual machine's way of entering cells, with the restart count going up each time (play_Cell in vm.c), is such a route through any chain, and there are answers that follow it |
| Searching.ScanLinear | libdvdnav/searching.c:86-102 | on a table of any size: the greatest start not above the target, for a target within the table; an error outside, but for targets above the end-of-cell mark and below the table |
| Searching.ScanBinary | libdvdnav/searching.c:103-123 | on a table of any size: takes the slot specified, or leaves the table exactly when the target is below it or the search steps back from slot 0 |
| Searching.ScanAdmap | libdvdnav/searching.c:54-134 | the map by domain, an error without one, and the search in it |
| Searching.SearchesOpenFile | libdvdnav/searching.c:64-77 | the map searched is that of the file which playback opens for the domain: title or menu, of the title set or the video manager |
| Searching.GuardAtTwenty | libdvdnav/searching.c:86-87 | with more than twenty slots no bound goes below zero, and every target from the first start on is answered |
| Searching.SmallTableLeavesRange | libdvdnav/searching.c:121-122 | a table of two slots that the search leaves |
| Searching.LastProbeIsDeeper | libdvdnav/searching.c:107-119 | of the two slots around a target bisection probes last the deeper one |
| Searching.TakenIsNearest | libdvdnav/searching.c:84-123 | the slot taken is the nearest or the one before; the nearest if and only if the search is linear or bisection does not step back |
| Searching.LowTargetsAreNearest | libdvdnav/searching.c:86-102 | with more than twenty slots, targets up to the start in slot 20 are found exactly |
| Searching.StartsAreFound | libdvdnav/searching.c:92-94 | the start of a VOBU is always found itself |
| Searching.TakenIsMonotone | libdvdnav/searching.c:84-123 | a later target lands earlier if and only if both lie in one VOBU, the first is found and the search for the second steps back |
| Searching.StepsBackOnce | libdvdnav/searching.c:121-122 | a table and target for which the search takes the VOBU before the right one |
| TimeSearch.Seeker.AbsoluteTimeSearch | libdvdnav/searching.c:136-226 | the jump goes to the cell that contains the time, at the VOBU found for the sector interpolated in floating point, whatever its rounding; no jump without such a cell, in a still, or without a chain; in program mode the cell is from the program's first up to the one before the next program's first, and a time beyond the program asks for no jump |
| TimeSearch.SpanIsProgram | libdvdnav/searching.c:166-177 | the cells searched are those of the program by the map, or of the whole chain |
| TimeSearch.CellsHavePrograms | libdvdnav/searching.c:166-177 | every cell is in one program, and in no other |
| TimeSearch.InOneCell | libdvdnav/searching.c:182-199 | a time lies in at most one cell |
| TimeSearch.EveryTimeIsInACell | libdvdnav/searching.c:182-199 | every positive time up to the length lies in some cell |
| TimeSearch.SearchMatchesReport | libdvdnav/dvdnav.c:393-408 | over the chain or a program, a time is searched in a cell if and only if, counted from the start of the chain, it is one reported while that cell plays |
| TimeSearch.TargetInCell | libdvdnav/searching.c:189-194 | under any rounding that keeps the order and the integers up to 2^24, every time in a cell has its interpolated sector in the cell if and only if rounding the cell's size does not enlarge it |
| TimeSearch.TargetIsProportional | libdvdnav/searching.c:189-194 | in a cell up to 2^24 the sector is that proportional to the time, off by at most one sector and the error of the quotient times the cell |
| TimeSearch.SmallFits | libdvdnav/searching.c:189-194 | which it does not up to 2^24 |
| TimeSearch.BigCellOvershoots | libdvdnav/searching.c:189-194 | a cell of 16777220 sectors whose end is searched one sector after its last |
| TimeSearch.TargetGrows | libdvdnav/searching.c:189-194 | within a cell of any size it is monotone in the time |
| TimeSearch.SoughtInCell | libdvdnav/searching.c:189-207 | the sector searched, cut to 32 bits, lies in the cell of the time, if that fits |
| TimeSearch.SoughtFollowsTime | libdvdnav/searching.c:182-199 | with cells laid out in order that fit, the sector searched is monotone in the time, under any such rounding |
| TimeSearch.DividesByZero | libdvdnav/searching.c:190 | the search divides by zero if and only if the time is 0 and the first counted cell takes no time |
| TimeSearch.JumpStaysInCell | libdvdnav/searching.c:207-210 | the jump never passes the end of the cell, and falls before its start if and only if the search steps back in the first VOBU |
| TimeSearch.JumpFallsBeforeCell | libdvdnav/searching.c:207-210 | a cell, a table and a time for which the jump goes two sectors before the cell |
| Times.GetCurrentTime | libdvdnav/dvdnav.c:393-408 | the time elapsed before the cell, one angle counted, and the time in it |
| Times.TicksAreTime | libdvdnav/dvdnav.c:207-230 | the ticks are 90000 to a second of the time told, with 25 or 30 frames to the second |
| Times.ConvertTimeOrders | libdvdnav/dvdnav.c:207-230 | ticks order proper times of one frame rate as their digits do |
| Times.ProductsFit | libdvdnav/dvdnav.c:211-216 | the products stay within 32 bits if and only if the time is below seven hours |
| Times.SevenHoursOverflow | libdvdnav/dvdnav.c:212 | the product of hour 7 is beyond 32 bits |
| Positions.GetPosition | libdvdnav/searching.c:522-588 | an error exactly when not started, stopped, without a chain or out of step in hop, domain, title set or restart count; otherwise position and length as sums over the cells of the chain or the program in 32 bits, or the failed assertion |
| Positions.PositionCountsSectors | libdvdnav/searching.c:555-583 | in linear playback of a chain the reply is one less than the sectors delivered, below the length, and the length is the sectors of the chain, if they fit in 32 bits; the sums are these in any case |
| Positions.PositionInProgram | libdvdnav/searching.c:558-583 | in program mode the reply is one less than the sectors of the program delivered, and the length is the sectors of its cells, from its first up to the one before the next program's first, if they fit in 32 bits |
| Positions.ProgramsAddUp | libdvdnav/searching.c:558-581 | the lengths of all programs add up to that of the chain |
| Chapters.DescribeTitleChapters | libdvdnav/searching.c:718-791 | the entries and the duration, or nothing when a part does not exist; a part without a counted cell keeps 0; without parts the array handed out has been freed |
| Chapters.ChaptersInOrder | libdvdnav/searching.c:754-780 | for consecutive programs of one chain the entries never decrease |
| Chapters.ChaptersAreReported | libdvdnav/searching.c:754-784 | each entry is the time reported on entry to the following program, and the duration is the last entry |
| Chapters.DurationIsWhole | libdvdnav/searching.c:764-781 | the duration is the time of the chain if and only if the cells after the first one of the last program take no counted time |
| Chapters.LastCellIsMissing | libdvdnav/searching.c:764-781 | a title whose duration lacks its last cell |
| Highlight.FindButton | libdvdnav/highlight.c:461-482 | the lowest-numbered button of least distance among those that contain the point; none exactly if none does |
| Highlight.DistanceFits | libdvdnav/highlight.c:461-474 | for ten-bit coordinates no step leaves 32 bits and the distance stays below the initial one |
| Highlight.Menu.MouseSelect | libdvdnav/highlight.c:445-490 | succeeds if and only if a menu that has not been left shows a button at the point, and then the register, if it changes, is 1024 times the best one |
| Highlight.Menu.ButtonSelect | libdvdnav/highlight.c:412-435 | a valid button n is stored as 1024 * n and its report forced; nothing changes otherwise |
| Highlight.SelectionIsReported | libdvdnav/dvdnav.c:499-513 | once 1024 * n is stored and the virtual machine answers with the register shifted by ten, the next call that makes no hop reports button n |

## Left out

- TimeSearch.TargetIsProportional: for cells up to 2^24 sectors, beyond which the size itself is rounded; `TimeSearch.TargetInCell` and `TimeSearch.TargetGrows` are for all.
- Times.ConvertTime: does not wrap the hour products at 32 bits; `Times.ProductsFit` says exactly when they fit.
- Searching.ScanAdmap: takes the slot after the last as readable and in order, as the search probes it; where the code leaves the table its result is undefined and nothing is said of it.
- TimeSearch.Seeker.AbsoluteTimeSearch: takes the difference of the VOBU and the start of the cell as a signed number, times as exact in double, and what the conversion of a quotient by zero makes as a parameter.
- CacheRuns.CacheIsTransparent: hits out of reach of a failing disc read are named, not answered for; `CacheRuns.UnsuppliedReadIsStale` says what they deliver. Reads are of one block, as all callers ask for.
- CacheModel.ChangeFile: every change of file clears the cache; the branch for an unknown domain (dvdnav.c, lines 556-559) closes the file without the clear, after which a block could still be read from the cache, where the player model finds no file.
- SkipMap.RemapTarget: for sorted tables; `SkipJumps.LandsAtEndsIff` is for all.
- SkipMap.RemapIdempotent: for sorted tables; `SkipJumps.SettlesIff` is for all.
- SkipMap.MapFileSkips: for maps in which no region bridges two; `SkipJumps.FileIff` is for all.
- SkipMap.Remap: sectors are integers, so `unsigned long` does not wrap.
- CacheAccounts.FreedWhenAllReturned: the return of a block by `dvdnav_get_next_block` after a failed call, which the code omits, is not part of the runs.
- LinearPlay.ChainPlays: cells in one file, without angles, menus or stills; angles are in `PathPlay`, for one cell at a time, and skip maps in `SkipPlay`, for one jump at a time.
- Rfc1321.TablePattern: the additive constants of the 64 operations are written out from the standard and not derived from the sine.
- Big-endian word order (the SWAP macro) and the alignment of buffers.
- `dvdnav_decode_packet`, `navRead_PCI`, `navRead_DSI` and the parsing of IFO files: decoded packets and tables are given.
- The virtual machine (`vm.c`, `decoder.c`, `vmcmd.c`): its answers are parameters.
- Contents of event structures, among them the times in the cell change event, and the angle channel of a position, which playback never reads.
- `dvdnav_sector_search`: its conversion of the target per cell is a comparison without effect (searching.c, line 312).
- `dvdnav_relative_time_search`: its table indices leave the table, and it can return holding the lock.
- `dvdnav_reset` and `dvdnav_clear` on a started machine, which take a mutex twice.
- `dvdnav_get_position_in_title`, which subtracts two sectors.
- Files and lines of skip maps (`remap_loadmap`, `parseblock`): the regions read are given.
- Failing allocations, and the contents of a buffer after `realloc`, which the cache never relies on.
- Interleaving of threads within a locked function: each function is one step.
- The Haiku media add-on and its patches, `ifo_print.c`, `settings.c` and getters of stream attributes.
