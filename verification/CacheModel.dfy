/** The read-ahead cache of read_cache.c as a state and the operations on it. Addresses count
    2048-byte blocks, and the memory holds the blocks that have been written; malloc's choice of
    address and the number of blocks a disc read delivers are parameters. */
module CacheModel {

  type Block = seq<int>
  type FileId = int
  type Disc = (FileId, int) -> Block

  datatype Option<T> = None | Some(value: T)

  const CHUNKS: nat := 10
  const READ_AHEAD_SIZE_MIN: nat := 4
  const READ_AHEAD_SIZE_MAX: nat := 512
  const LB_LEN: nat := 2048

  /** struct read_cache_chunk_s; no buffer stands for a null cache_buffer. */
  datatype Chunk = Chunk(buffer: Option<int>, start: int, readCount: int, blockCount: int, mallocSize: int,
                         valid: bool, usage: int)

  /** struct read_cache_s with the fields of the handle it uses, and the memory. */
  datatype State = State(chunk: seq<Chunk>, current: int, freeing: bool, size: int, incr: int, last: int,
                         readAhead: bool, file: Option<FileId>, mem: map<int, Block>, frees: nat)

  // ----- memory and disc --------------------------------------------------------------------

  predicate Owns(c: Chunk, p: int) {
    c.buffer.Some? && c.buffer.value <= p < c.buffer.value + c.mallocSize
  }

  function Erase(mem: map<int, Block>, base: int, size: int): map<int, Block> {
    map a | a in mem && !(base <= a < base + size) :: mem[a]
  }

  /** DVDReadBlocks: writes the n blocks that the disc delivers. */
  function ReadBlocks(disc: Disc, mem: map<int, Block>, file: FileId, sector: int, n: int, to: int): map<int, Block>
    decreases n
  {
    if n <= 0 then mem
    else ReadBlocks(disc, mem, file, sector, n - 1, to)[to + n - 1 := disc(file, sector + n - 1)]
  }

  /** What DVDReadBlocks returns when asked for size blocks: an error without a file, otherwise the
      disc's answer, which lies between an error and the size. */
  function Answer(file: Option<FileId>, answer: int, size: int): int {
    if file.None? || answer < 0 then -1 else if answer > size then size else answer
  }

  // ----- choosing a chunk for pre-caching ---------------------------------------------------

  predicate Idle(c: Chunk) {
    c.usage == 0 && c.buffer.Some?
  }

  /** The first loop of dvdnav_pre_cache_blocks after n rounds. */
  function BestFit(chunk: seq<Chunk>, count: nat, n: nat): (use: int)
    requires n <= |chunk|
    ensures -1 <= use < n && (use >= 0 ==> Idle(chunk[use]) && chunk[use].mallocSize >= count)
  {
    if n == 0 then -1
    else
      var use := BestFit(chunk, count, n - 1);
      var c := chunk[n - 1];
      if Idle(c) && c.mallocSize >= count && (use == -1 || chunk[use].mallocSize > c.mallocSize) then n - 1 else use
  }

  /** The second loop after n rounds. */
  function Largest(chunk: seq<Chunk>, n: nat): (use: int)
    requires n <= |chunk|
    ensures -1 <= use < n && (use >= 0 ==> Idle(chunk[use]))
  {
    if n == 0 then -1
    else
      var use := Largest(chunk, n - 1);
      var c := chunk[n - 1];
      if Idle(c) && (use == -1 || chunk[use].mallocSize < c.mallocSize) then n - 1 else use
  }

  /** The third loop from i on. */
  function FirstEmpty(chunk: seq<Chunk>, i: nat): (use: int)
    requires i <= |chunk|
    ensures -1 <= use < |chunk| && (use >= 0 ==> chunk[use].buffer.None?)
    decreases |chunk| - i
  {
    if i == |chunk| then -1 else if chunk[i].buffer.None? then i else FirstEmpty(chunk, i + 1)
  }

  datatype Choice = Fits(i: int) | Realloc(i: int) | Malloc(i: int) | Impossible

  function Choose(chunk: seq<Chunk>, count: nat): Choice {
    var fit := BestFit(chunk, count, |chunk|);
    if fit >= 0 then Fits(fit)
    else
      var largest := Largest(chunk, |chunk|);
      if largest >= 0 then Realloc(largest)
      else
        var empty := FirstEmpty(chunk, 0);
        if empty >= 0 then Malloc(empty) else Impossible
  }

  function FirstMallocSize(count: nat): nat {
    if count > 500 then count else 500
  }

  // ----- the operations ---------------------------------------------------------------------

  function Retarget(s: State, i: int, c: Chunk, sector: int, count: nat): State
    requires 0 <= i < |s.chunk|
  {
    s.(chunk := s.chunk[i := c.(start := sector, blockCount := count, readCount := 0, valid := true)], current := i)
  }

  /** dvdnav_pre_cache_blocks; a new or moved buffer is at the address given. */
  function PreCache(s: State, sector: int, count: nat, address: int): State {
    if !s.readAhead then s
    else
      match Choose(s.chunk, count)
      case Fits(i) => Retarget(s, i, s.chunk[i], sector, count)
      case Realloc(i) =>
        var c := s.chunk[i];
        var mem := Erase(Erase(s.mem, c.buffer.value, c.mallocSize), address, count);
        Retarget(s.(mem := mem), i, c.(buffer := Some(address), mallocSize := count), sector, count)
      case Malloc(i) =>
        var size := FirstMallocSize(count);
        Retarget(s.(mem := Erase(s.mem, address, size)), i,
                 s.chunk[i].(buffer := Some(address), mallocSize := size), sector, count)
      case Impossible => s
  }

  /** The chunk can serve the sectors from here: they lie in it, the first at most one past what
      has been read. */
  predicate Serves(c: Chunk, sector: int, count: nat) {
    c.valid && c.start <= sector <= c.start + c.readCount && sector + count <= c.start + c.blockCount
  }

  /** The loop of dvdnav_read_cache_block after n rounds: the last chunk that serves. */
  function LastServing(chunk: seq<Chunk>, sector: int, count: nat, n: nat): (use: int)
    requires n <= |chunk|
    ensures -1 <= use < n && (use >= 0 ==> Serves(chunk[use], sector, count))
  {
    if n == 0 then -1
    else if Serves(chunk[n - 1], sector, count) then n - 1 else LastServing(chunk, sector, count, n - 1)
  }

  function Lookup(s: State, sector: int, count: nat): (use: int)
    ensures use == -1 || (0 <= use < |s.chunk| && Serves(s.chunk[use], sector, count))
  {
    if !s.readAhead then -1
    else if 0 <= s.current < |s.chunk| && Serves(s.chunk[s.current], sector, count) then s.current
    else LastServing(s.chunk, sector, count, |s.chunk|)
  }

  /** The read-ahead size and increment after a hit on the sector. */
  function Pace(s: State, sector: int): (int, int) {
    var incr := if sector != s.last + 1 then 0 else if s.incr < READ_AHEAD_SIZE_MAX then s.incr + 1 else s.incr;
    var size := if sector != s.last + 1 then READ_AHEAD_SIZE_MIN else s.size;
    (if size + incr / 2 > READ_AHEAD_SIZE_MAX then READ_AHEAD_SIZE_MAX else size + incr / 2, incr)
  }

  /** How many blocks to read into the chunk. */
  function RealSize(c: Chunk, sector: int, ahead: int): int {
    if c.readCount + ahead > c.blockCount then c.blockCount - c.readCount
    else if sector >= c.start + c.readCount + ahead then sector - c.start - c.readCount
    else ahead
  }

  /** The result of dvdnav_read_cache_block: its return value and where *buf points. */
  datatype Got = Got(res: int, at: int)

  function Hit(disc: Disc, s: State, use: nat, sector: int, count: nat, answer: int): (State, Got)
    requires use < |s.chunk| && s.chunk[use].buffer.Some?
  {
    var c := s.chunk[use];
    var (ahead, incr) := Pace(s, sector);
    var size := RealSize(c, sector, ahead);
    var n := if size == 0 then 0 else Answer(s.file, answer, size);
    var mem := if s.file.None? then s.mem
               else ReadBlocks(disc, s.mem, s.file.value, c.start + c.readCount, n, c.buffer.value + c.readCount);
    (s.(chunk := s.chunk[use := c.(usage := c.usage + 1, readCount := c.readCount + n)],
        size := ahead, incr := incr, last := sector, mem := mem),
     Got(LB_LEN * count, c.buffer.value + (sector - c.start)))
  }

  function Miss(disc: Disc, s: State, sector: int, count: nat, buf: int, answer: int): (State, Got) {
    var n := Answer(s.file, answer, count);
    (if s.file.None? then s else s.(mem := ReadBlocks(disc, s.mem, s.file.value, sector, n, buf)), Got(n * LB_LEN, buf))
  }

  /** Valid chunks have a buffer. */
  predicate Backed(chunk: seq<Chunk>) {
    forall i :: 0 <= i < |chunk| && chunk[i].valid ==> chunk[i].buffer.Some?
  }

  /** dvdnav_read_cache_block with *buf == buf. */
  function Read(disc: Disc, s: State, sector: int, count: nat, buf: int, answer: int): (State, Got)
    requires Backed(s.chunk)
  {
    var use := Lookup(s, sector, count);
    if use >= 0 then Hit(disc, s, use, sector, count, answer) else Miss(disc, s, sector, count, buf, answer)
  }

  /** dvdnav_read_cache_clear. */
  function Clear(s: State): State {
    s.(chunk := seq(|s.chunk|, i requires 0 <= i < |s.chunk| => s.chunk[i].(valid := false)))
  }

  /** A change of the open file, with the clear that must go with it. */
  function ChangeFile(s: State, file: Option<FileId>): State {
    Clear(s).(file := file)
  }

  function Freed(c: Chunk): Chunk {
    if Idle(c) then c.(buffer := None) else c
  }

  /** The memory without the buffers of the chunks that are freed. */
  function FreedMemory(mem: map<int, Block>, chunk: seq<Chunk>): map<int, Block> {
    map a | a in mem && (forall i :: 0 <= i < |chunk| ==> !(Idle(chunk[i]) && Owns(chunk[i], a))) :: mem[a]
  }

  /** dvdnav_read_cache_free: the handle and the cache go when no buffer is left. */
  function Free(s: State): State {
    var chunk := seq(|s.chunk|, i requires 0 <= i < |s.chunk| => Freed(s.chunk[i]));
    s.(chunk := chunk, mem := FreedMemory(s.mem, s.chunk), freeing := true,
       frees := s.frees + if forall i :: 0 <= i < |chunk| ==> chunk[i].buffer.None? then 1 else 0)
  }

  function Returned(c: Chunk, p: int): Chunk {
    if Owns(c, p) then c.(usage := c.usage - 1) else c
  }

  function ReturnedAll(chunk: seq<Chunk>, p: int): (r: seq<Chunk>)
    ensures |r| == |chunk| && forall i :: 0 <= i < |r| ==> r[i] == Returned(chunk[i], p)
  {
    seq(|chunk|, i requires 0 <= i < |chunk| => Returned(chunk[i], p))
  }

  /** dvdnav_free_cache_block. */
  function Return(s: State, p: int): State {
    var r := s.(chunk := ReturnedAll(s.chunk, p));
    if s.freeing then Free(r) else r
  }

  /** dvdnav_read_cache_new: chunk fields other than the three set are whatever memory held. */
  function New(raw: seq<Chunk>, readAhead: bool, file: Option<FileId>, mem: map<int, Block>): State {
    State(seq(|raw|, i requires 0 <= i < |raw| => raw[i].(buffer := None, usage := 0, valid := false)),
          0, false, READ_AHEAD_SIZE_MIN, 0, 0, readAhead, file, mem, 0)
  }
}
