/** Runs of the read-ahead cache: what the player gets to see, and how long a block handed out stays
    good. */
module CacheRuns {
  import opened CacheModel
  import opened CacheAccounts

  // ----- the invariant ----------------------------------------------------------------------

  /** The memory at a has what the chunk should have there. */
  ghost predicate Holds(disc: Disc, s: State, c: Chunk, a: int) {
    && c.buffer.Some? && s.file.Some? && a in s.mem
    && s.mem[a] == disc(s.file.value, c.start + (a - c.buffer.value))
  }

  /** The chunk agrees with the disc on the blocks it has read. Failed reads can bring its count down
      to -1; from there on it serves nothing. */
  ghost predicate Agrees(disc: Disc, s: State, c: Chunk) {
    c.valid ==>
      && c.buffer.Some? && s.file.Some? && -1 <= c.readCount <= c.blockCount <= c.mallocSize
      && forall a :: c.buffer.value <= a < c.buffer.value + c.readCount ==> Holds(disc, s, c, a)
  }

  ghost predicate Paced(s: State) {
    READ_AHEAD_SIZE_MIN <= s.size <= READ_AHEAD_SIZE_MAX && 0 <= s.incr <= READ_AHEAD_SIZE_MAX
  }

  ghost predicate Contents(disc: Disc, w: World) {
    && |w.s.chunk| == |w.out| == CHUNKS && Paced(w.s)
    && (!w.s.freeing ==> forall i :: 0 <= i < CHUNKS ==> Agrees(disc, w.s, w.s.chunk[i]))
  }

  ghost predicate Inv(disc: Disc, w: World) {
    Books(w) && Contents(disc, w)
  }

  /** The pointer is held, from chunk i, and the memory there has been written, while the chunk is
      valid with what the disc holds. */
  ghost predicate SafeIn(disc: Disc, w: World, p: int, i: int) {
    && 0 <= i < CHUNKS == |w.out| == |w.s.chunk| && p in w.out[i] && p in w.s.mem
    && (w.s.chunk[i].valid && !w.s.freeing ==> Holds(disc, w.s, w.s.chunk[i], p))
  }

  ghost predicate Safe(disc: Disc, w: World, p: int) {
    exists i :: SafeIn(disc, w, p, i)
  }

  /** Every pointer that is safe and held on both sides stays safe, and its block the same. */
  ghost predicate Kept(disc: Disc, w: World, v: World) {
    forall p :: Safe(disc, w, p) && Outstanding(v, p) ==> p in w.s.mem && Safe(disc, v, p) && Same(w.s, v.s, p)
  }

  /** The memory at a is the same. */
  ghost predicate Same(s: State, t: State, a: int) {
    (a in s.mem <==> a in t.mem) && (a in s.mem ==> s.mem[a] == t.mem[a])
  }

  // ----- disc reads -------------------------------------------------------------------------

  /** What the disc read of a hit on c returns. */
  function Obtained(s: State, c: Chunk, sector: int, answer: int): int {
    var size := RealSize(c, sector, Pace(s, sector).0);
    if size == 0 then 0 else Answer(s.file, answer, size)
  }

  /** How far the chunk has been read, before the hit or with it. */
  function Reach(s: State, c: Chunk, sector: int, answer: int): int {
    var n := Obtained(s, c, sector, answer);
    c.readCount + if n > 0 then n else 0
  }

  /** The chunk had read the sector before the hit, or has with it. */
  predicate Supplied(s: State, c: Chunk, sector: int, answer: int) {
    sector < c.start + Reach(s, c, sector, answer)
  }

  /** The read-ahead starts where reading stopped and stays in the chunk, whatever the disc delivers;
      a failed read takes one block off. If the disc delivers at least a block, the sector asked for
      has been read. */
  lemma HitReaches(s: State, c: Chunk, sector: int, answer: int)
    requires Paced(s) && Serves(c, sector, 1) && c.readCount <= c.blockCount
    ensures 0 <= c.readCount
    ensures var (ahead, incr) := Pace(s, sector);
            READ_AHEAD_SIZE_MIN <= ahead <= READ_AHEAD_SIZE_MAX && 0 <= incr <= READ_AHEAD_SIZE_MAX
    ensures var n := Obtained(s, c, sector, answer);
            -1 <= n && c.readCount + n <= c.blockCount
    ensures s.file.Some? && answer >= 1 ==> Supplied(s, c, sector, answer)
  {
  }

  lemma {:induction false} ReadBlocksAt(disc: Disc, mem: map<int, Block>, file: FileId, sector: int, n: int, to: int,
                                        a: int)
    ensures var r := ReadBlocks(disc, mem, file, sector, n, to);
            if to <= a < to + n then a in r && r[a] == disc(file, sector + (a - to))
            else (a in r <==> a in mem) && (a in mem ==> r[a] == mem[a])
    decreases n
  {
    if n > 0 {
      ReadBlocksAt(disc, mem, file, sector, n - 1, to, a);
    }
  }

  // ----- chunks that a step leaves alone ----------------------------------------------------

  /** Chunk d is c in use by another count, and its memory is the same. */
  ghost predicate Untouched(s: State, t: State, c: Chunk, d: Chunk) {
    && d == c.(usage := d.usage) && t.file == s.file && t.freeing == s.freeing
    && forall a :: Owns(c, a) ==> Same(s, t, a)
  }

  lemma StillAgrees(disc: Disc, s: State, t: State, c: Chunk, d: Chunk)
    requires Agrees(disc, s, c) && Untouched(s, t, c, d)
    ensures Agrees(disc, t, d)
  {
    assert forall a :: Owns(c, a) && Holds(disc, s, c, a) ==> Holds(disc, t, d, a);
    assert c.valid ==> forall a :: c.buffer.value <= a < c.buffer.value + c.readCount ==>
                                     Holds(disc, s, c, a) && Owns(c, a);
  }

  lemma StillSafe(disc: Disc, w: World, v: World, p: int, i: int)
    requires Books(w) && SafeIn(disc, w, p, i) && |v.s.chunk| == |v.out| == CHUNKS && p in v.out[i]
    requires Untouched(w.s, v.s, w.s.chunk[i], v.s.chunk[i])
    ensures Safe(disc, v, p) && p in w.s.mem && Same(w.s, v.s, p)
  {
    assert Accounted(w.s.chunk[i], w.out[i]);
    assert SafeIn(disc, v, p, i);
  }

  /** A pointer held on both sides is held from the chunk it was held from. */
  ghost predicate SameHolders(w: World, v: World) {
    && |w.out| == |v.out| == CHUNKS
    && forall p, i :: 0 <= i < CHUNKS && p in w.out[i] && Outstanding(v, p) ==> p in v.out[i]
  }

  lemma OutOfOneChunk(w: World, p: int, i: nat, j: nat)
    requires Balanced(w) && i < CHUNKS && j < CHUNKS && p in w.out[i] && p in w.out[j]
    ensures i == j
  {
    assert Accounted(w.s.chunk[i], w.out[i]) && Accounted(w.s.chunk[j], w.out[j]);
    assert i < j ==> Apart(w.s.chunk[i], w.s.chunk[j]);
    assert j < i ==> Apart(w.s.chunk[j], w.s.chunk[i]);
  }

  /** The memory changes only in chunk i, or outside all chunks. */
  ghost predicate WritesIn(w: World, t: State, i: int) {
    && 0 <= i < |w.s.chunk| && t.file == w.s.file && t.freeing == w.s.freeing
    && forall a :: Same(w.s, t, a) || Owns(w.s.chunk[i], a) || Unowned(w.s.chunk, a)
  }

  lemma SameWrites(w: World, t: State, u: State, i: int)
    requires WritesIn(w, t, i) && u == t.(chunk := u.chunk, current := u.current)
    ensures WritesIn(w, u, i)
  {
    assert forall a :: Same(w.s, t, a) <==> Same(w.s, u, a);
  }

  lemma OthersUntouched(w: World, t: State, i: nat)
    requires Balanced(w) && i < CHUNKS && WritesIn(w, t, i)
    ensures forall j :: 0 <= j < CHUNKS && j != i ==> Untouched(w.s, t, w.s.chunk[j], w.s.chunk[j])
  {
    hide Same;
    OthersApart(w, i);
  }

  // ----- pre-caching ------------------------------------------------------------------------

  /** Retargeting an idle or empty chunk, in place or to a new region. */
  lemma RetargetKeepsContents(disc: Disc, w: World, i: nat, c: Chunk, mem: map<int, Block>, sector: int, count: nat)
    requires Inv(disc, w) && !w.s.freeing && i < CHUNKS && w.s.file.Some?
    requires w.out[i] == multiset{} && c.buffer.Some? && count <= c.mallocSize
    requires WritesIn(w, w.s.(mem := mem), i)
    ensures var v := w.(s := Retarget(w.s.(mem := mem), i, c, sector, count));
            Contents(disc, v) && Kept(disc, w, v)
  {
    hide Same, Holds;
    var u := Retarget(w.s.(mem := mem), i, c, sector, count);
    var v := w.(s := u);
    SameWrites(w, w.s.(mem := mem), u, i);
    OthersUntouched(w, u, i);
    forall j | 0 <= j < CHUNKS && j != i
      ensures Agrees(disc, u, u.chunk[j])
    {
      StillAgrees(disc, w.s, u, w.s.chunk[j], u.chunk[j]);
    }
    forall p, j | SafeIn(disc, w, p, j)
      ensures Safe(disc, v, p) && p in w.s.mem && Same(w.s, u, p)
    {
      StillSafe(disc, w, v, p, j);
    }
  }

  lemma PreCacheKeepsContents(disc: Disc, w: World, sector: int, count: nat, address: int)
    requires Inv(disc, w) && !w.s.freeing && w.s.file.Some? && Allocatable(w.s, count, address)
    ensures var v := w.(s := PreCache(w.s, sector, count, address));
            Contents(disc, v) && Kept(disc, w, v)
  {
    if w.s.readAhead {
      match Choose(w.s.chunk, count)
      case Fits(i) =>
        IdleHoldsNothing(w.s.chunk[i], w.out[i]);
        RetargetKeepsContents(disc, w, i, w.s.chunk[i], w.s.mem, sector, count);
      case Realloc(i) =>
        var c := w.s.chunk[i];
        IdleHoldsNothing(c, w.out[i]);
        var mem := Erase(Erase(w.s.mem, c.buffer.value, c.mallocSize), address, count);
        RetargetKeepsContents(disc, w, i, c.(buffer := Some(address), mallocSize := count), mem, sector, count);
      case Malloc(i) =>
        var size := FirstMallocSize(count);
        IdleHoldsNothing(w.s.chunk[i], w.out[i]);
        RetargetKeepsContents(disc, w, i, w.s.chunk[i].(buffer := Some(address), mallocSize := size),
                              Erase(w.s.mem, address, size), sector, count);
      case Impossible =>
    }
  }

  // ----- reading ----------------------------------------------------------------------------

  /** A hit writes the blocks it adds to the chunk, with what the disc holds, and nothing else. */
  ghost predicate HitEffect(disc: Disc, s: State, use: nat, sector: int, t: State, got: Got)
    requires use < |s.chunk| == |t.chunk| && s.chunk[use].buffer.Some? && s.file.Some?
  {
    var c, d, base := s.chunk[use], t.chunk[use], s.chunk[use].buffer.value;
    && t == s.(chunk := s.chunk[use := d], size := t.size, incr := t.incr, last := t.last, mem := t.mem)
    && d == c.(usage := c.usage + 1, readCount := d.readCount)
    && -1 <= d.readCount <= c.blockCount && 0 <= c.readCount
    && Paced(t) && got == Got(LB_LEN, base + (sector - c.start))
    && (forall a :: base + c.readCount <= a < base + d.readCount ==> Holds(disc, t, c, a))
    && (forall a :: !(base + c.readCount <= a < base + d.readCount) ==> Same(s, t, a))
  }

  lemma HitHasEffect(disc: Disc, s: State, use: nat, sector: int, answer: int)
    requires use < |s.chunk| && s.chunk[use].buffer.Some? && s.file.Some?
    requires Paced(s) && Serves(s.chunk[use], sector, 1) && s.chunk[use].readCount <= s.chunk[use].blockCount
    ensures var (t, got) := Hit(disc, s, use, sector, 1, answer);
            && |t.chunk| == |s.chunk| && HitEffect(disc, s, use, sector, t, got)
            && t.chunk[use].readCount == s.chunk[use].readCount + Obtained(s, s.chunk[use], sector, answer)
  {
    hide Pace, RealSize, Answer;
    HitReaches(s, s.chunk[use], sector, answer);
    var (t, got) := Hit(disc, s, use, sector, 1, answer);
    var c, d, base := s.chunk[use], t.chunk[use], s.chunk[use].buffer.value;
    forall a
      ensures if base + c.readCount <= a < base + d.readCount then Holds(disc, t, c, a) else Same(s, t, a)
    {
      ReadBlocksAt(disc, s.mem, s.file.value, c.start + c.readCount, d.readCount - c.readCount, base + c.readCount, a);
    }
  }

  /** The chunk that was hit: it agrees with the disc, and what held the right block still does. */
  lemma HitOwnChunk(disc: Disc, s: State, use: nat, sector: int, t: State, got: Got)
    requires use < |s.chunk| == |t.chunk| && s.chunk[use].buffer.Some? && s.file.Some?
    requires Agrees(disc, s, s.chunk[use]) && Serves(s.chunk[use], sector, 1)
    requires HitEffect(disc, s, use, sector, t, got)
    ensures Agrees(disc, t, t.chunk[use])
    ensures forall a :: Holds(disc, s, s.chunk[use], a) ==> Holds(disc, t, t.chunk[use], a) && Same(s, t, a)
    ensures var c, d := s.chunk[use], t.chunk[use];
            sector < c.start + c.readCount || sector < c.start + d.readCount ==> Holds(disc, t, d, got.at)
  {
    var c, d, base := s.chunk[use], t.chunk[use], s.chunk[use].buffer.value;
    forall a
      ensures Holds(disc, s, c, a) || base + c.readCount <= a < base + d.readCount ==> Holds(disc, t, d, a)
      ensures Holds(disc, s, c, a) ==> Same(s, t, a)
    {
      if base + c.readCount <= a < base + d.readCount {
        assert Holds(disc, t, c, a);
      } else {
        assert Same(s, t, a);
      }
    }
    assert forall a :: base <= a < base + c.readCount ==> Holds(disc, s, c, a);
  }

  lemma HitKeepsContents(disc: Disc, w: World, use: nat, sector: int, answer: int)
    requires Inv(disc, w) && !w.s.freeing && use < CHUNKS && Serves(w.s.chunk[use], sector, 1)
    ensures w.s.chunk[use].buffer.Some? && w.s.file.Some?
    ensures var (t, got) := Hit(disc, w.s, use, sector, 1, answer);
            var v := World(t, w.out[use := w.out[use] + multiset{got.at}]);
            && Contents(disc, v) && Kept(disc, w, v) && got.res == LB_LEN
            && (Supplied(w.s, w.s.chunk[use], sector, answer) ==>
                  && Safe(disc, v, got.at)
                  && got.at in t.mem && t.mem[got.at] == disc(w.s.file.value, sector))
  {
    hide Same, Hit, Obtained, HitEffect;
    assert Agrees(disc, w.s, w.s.chunk[use]);
    HitHasEffect(disc, w.s, use, sector, answer);
    var (t, got) := Hit(disc, w.s, use, sector, 1, answer);
    HitOwnChunk(disc, w.s, use, sector, t, got);
    HitSpares(disc, w, use, sector, t, got);
    var v := World(t, w.out[use := w.out[use] + multiset{got.at}]);
    OthersUntouched(w, t, use);
    forall j | 0 <= j < CHUNKS && j != use
      ensures Agrees(disc, t, t.chunk[j])
    {
      StillAgrees(disc, w.s, t, w.s.chunk[j], t.chunk[j]);
    }
    forall p, j | SafeIn(disc, w, p, j)
      ensures Safe(disc, v, p) && p in w.s.mem && Same(w.s, t, p)
    {
      if j == use {
        assert SafeIn(disc, v, p, j);
      } else {
        StillSafe(disc, w, v, p, j);
      }
    }
    if Supplied(w.s, w.s.chunk[use], sector, answer) {
      assert SafeIn(disc, v, got.at, use);
    }
  }

  lemma HitSpares(disc: Disc, w: World, use: nat, sector: int, t: State, got: Got)
    requires Balanced(w) && !w.s.freeing && use < CHUNKS == |t.chunk|
    requires w.s.chunk[use].buffer.Some? && w.s.file.Some? && w.s.chunk[use].valid
    requires HitEffect(disc, w.s, use, sector, t, got)
    ensures WritesIn(w, t, use) && Paced(t) && got.res == LB_LEN
    ensures t.chunk == w.s.chunk[use := t.chunk[use]] && t.chunk[use].valid
    ensures t.chunk[use].start == w.s.chunk[use].start && t.chunk[use].buffer == w.s.chunk[use].buffer
    ensures got.at == w.s.chunk[use].buffer.value + (sector - w.s.chunk[use].start)
  {
    hide Same;
    assert Sound(w.s.chunk[use]);
  }

  /** A miss reads into the reader's own buffer, or fails. */
  lemma MissKeepsContents(disc: Disc, w: World, sector: int, buf: int, answer: int)
    requires Inv(disc, w) && !w.s.freeing && Unowned(w.s.chunk, buf)
    ensures var (t, got) := Miss(disc, w.s, sector, 1, buf, answer);
            var v := w.(s := t);
            && Contents(disc, v) && Kept(disc, w, v)
            && (w.s.file.Some? && answer >= 1 ==>
                  got == Got(LB_LEN, buf) && buf in t.mem && t.mem[buf] == disc(w.s.file.value, sector))
            && (w.s.file.None? || answer < 1 ==> got.res <= 0)
  {
    hide Agrees, SafeIn;
    var (t, got) := Miss(disc, w.s, sector, 1, buf, answer);
    forall a
      ensures a != buf ==> Same(w.s, t, a)
      ensures w.s.file.Some? && answer >= 1 && a == buf ==> a in t.mem && t.mem[a] == disc(w.s.file.value, sector)
    {
      if w.s.file.Some? {
        ReadBlocksAt(disc, w.s.mem, w.s.file.value, sector, Answer(w.s.file, answer, 1), buf, a);
      }
    }
    NothingTouched(disc, w, w.(s := t));
  }

  /** A step that leaves the chunks and their memory alone, but for usage counts and pointers. */
  lemma NothingTouched(disc: Disc, w: World, v: World)
    requires Inv(disc, w) && |v.s.chunk| == |v.out| == CHUNKS && Paced(v.s) && SameHolders(w, v)
    requires forall i :: 0 <= i < CHUNKS ==> Untouched(w.s, v.s, w.s.chunk[i], v.s.chunk[i])
    ensures Contents(disc, v) && Kept(disc, w, v)
  {
    hide Same, Untouched;
    TouchesNoFile(w.s, v.s, w.s.chunk[0], v.s.chunk[0]);
    if !w.s.freeing {
      forall i | 0 <= i < CHUNKS
        ensures Agrees(disc, v.s, v.s.chunk[i])
      {
        StillAgrees(disc, w.s, v.s, w.s.chunk[i], v.s.chunk[i]);
      }
    }
    forall p, i | SafeIn(disc, w, p, i) && Outstanding(v, p)
      ensures Safe(disc, v, p) && p in w.s.mem && Same(w.s, v.s, p)
    {
      StillSafe(disc, w, v, p, i);
    }
  }

  lemma TouchesNoFile(s: State, t: State, c: Chunk, d: Chunk)
    requires Untouched(s, t, c, d)
    ensures t.freeing == s.freeing
  {
  }

  // ----- what a read delivers ---------------------------------------------------------------

  /** What a reader is given: the contents of the block that its pointer points to, on success. */
  ghost function Delivered(disc: Disc, w: World, sector: nat, buf: int, answer: int): Option<Block>
    requires Backed(w.s.chunk)
  {
    var (t, got) := Read(disc, w.s, sector, 1, buf, answer);
    if got.res == LB_LEN && got.at in t.mem then Some(t.mem[got.at]) else None
  }

  ghost function Wanted(disc: Disc, file: Option<FileId>, sector: nat): Option<Block> {
    if file.Some? then Some(disc(file.value, sector)) else None
  }

  /** A read misses, and the disc fails; or it hits, and the disc does not get as far as its block; or
      neither. */
  datatype Outcome = Met | Failed | Unsupplied

  function OutcomeOf(w: World, sector: nat, answer: int): Outcome {
    var use := Lookup(w.s, sector, 1);
    if use < 0 then if answer < 1 then Failed else Met
    else if Supplied(w.s, w.s.chunk[use], sector, answer) then Met
    else Unsupplied
  }

  /** A disc that always delivers meets every read. */
  lemma GoodDiscMeets(disc: Disc, w: World, sector: nat, buf: int, answer: int)
    requires Inv(disc, w) && Allowed(w, Reading(sector, buf, answer)) && answer >= 1
    ensures OutcomeOf(w, sector, answer) == Met
  {
    hide Pace, RealSize, Answer;
    if Lookup(w.s, sector, 1) >= 0 {
      var c := w.s.chunk[Lookup(w.s, sector, 1)];
      assert Agrees(disc, w.s, c);
      HitReaches(w.s, c, sector, answer);
    }
  }

  /** The block of a read that is met is safe in the reader's hands. */
  lemma ReadKeepsContents(disc: Disc, w: World, sector: nat, buf: int, answer: int)
    requires Inv(disc, w) && Allowed(w, Reading(sector, buf, answer))
    ensures |w.s.chunk| == |w.out| == CHUNKS && Backed(w.s.chunk)
    ensures var v := Step(disc, w, Reading(sector, buf, answer));
            && Contents(disc, v) && Kept(disc, w, v)
            && (Lookup(w.s, sector, 1) >= 0 && OutcomeOf(w, sector, answer) == Met ==>
                  Safe(disc, v, Read(disc, w.s, sector, 1, buf, answer).1.at))
    ensures Answers(Delivered(disc, w, sector, buf, answer), Wanted(disc, w.s.file, sector),
                    OutcomeOf(w, sector, answer))
  {
    hide Hit, Miss, Contents, Kept, Safe, Supplied, Balanced;
    BooksBack(w);
    var use := Lookup(w.s, sector, 1);
    if use >= 0 {
      HitKeepsContents(disc, w, use, sector, answer);
    } else {
      MissKeepsContents(disc, w, sector, buf, answer);
    }
  }

  // ----- giving back and disposing ----------------------------------------------------------

  lemma FreeKeepsContents(disc: Disc, w: World)
    requires Balanced(w) && w.s.frees == 0 && Contents(disc, w)
    ensures var v := w.(s := Free(w.s));
            Contents(disc, v) && Kept(disc, w, v)
  {
    FreeKeepsBooks(w);
    var v := w.(s := Free(w.s));
    forall p, i | SafeIn(disc, w, p, i)
      ensures Safe(disc, v, p) && p in w.s.mem && Same(w.s, v.s, p)
    {
      assert SafeIn(disc, v, p, i);
    }
  }

  lemma ReturnKeepsContents(disc: Disc, w: World, p: int)
    requires Inv(disc, w) && (Outstanding(w, p) || Unowned(w.s.chunk, p))
    ensures var v := World(w.s.(chunk := ReturnedAll(w.s.chunk, p)), OutAfter(w, p));
            Contents(disc, v) && Kept(disc, w, v)
  {
    var v := World(w.s.(chunk := ReturnedAll(w.s.chunk, p)), OutAfter(w, p));
    forall q, i | 0 <= i < CHUNKS && q in w.out[i] && Outstanding(v, q)
      ensures q in v.out[i]
    {
      var j :| 0 <= j < CHUNKS && q in v.out[j];
      assert q in w.out[j];
      OutOfOneChunk(w, q, i, j);
    }
    NothingTouched(disc, w, v);
  }

  lemma ClearKeepsContents(disc: Disc, w: World, file: Option<FileId>)
    requires Inv(disc, w) && !w.s.freeing
    ensures var v := w.(s := ChangeFile(w.s, file));
            Contents(disc, v) && Kept(disc, w, v)
  {
    var v := w.(s := ChangeFile(w.s, file));
    forall p, i | SafeIn(disc, w, p, i)
      ensures Safe(disc, v, p)
    {
      assert SafeIn(disc, v, p, i);
    }
  }

  // ----- every step -------------------------------------------------------------------------

  /** Every step keeps the invariant, whatever the disc delivers, and keeps every safe block that is
      held before and after it. */
  lemma StepKeeps(disc: Disc, w: World, op: Op)
    requires Inv(disc, w) && Allowed(w, op)
    ensures |w.s.chunk| == |w.out| == CHUNKS && (op.Reading? ==> Backed(w.s.chunk))
    ensures Inv(disc, Step(disc, w, op)) && Kept(disc, w, Step(disc, w, op))
  {
    hide Contents, Balanced, Hit, Miss, PreCache, Free, Kept, Disposal, Supplied;
    BooksBack(w);
    StepKeepsBooks(disc, w, op);
    match op
    case PreCaching(sector, count, address) => PreCacheKeepsContents(disc, w, sector, count, address);
    case Reading(sector, buf, answer) => ReadKeepsContents(disc, w, sector, buf, answer);
    case Returning(p) =>
      ReturnKeepsContents(disc, w, p);
      if w.s.freeing {
        var u := World(w.s.(chunk := ReturnedAll(w.s.chunk, p)), OutAfter(w, p));
        ReturnKeepsBalance(w, p);
        FreeKeepsContents(disc, u);
        KeptTwice(disc, w, u, Step(disc, w, op));
      }
    case ChangingFile(file) => ClearKeepsContents(disc, w, file);
    case SettingReadAhead(on) => SwitchKeepsContents(disc, w, on);
    case Closing => FreeKeepsContents(disc, w);
  }

  lemma KeptTwice(disc: Disc, w: World, u: World, v: World)
    requires Kept(disc, w, u) && Kept(disc, u, v) && v.out == u.out
    ensures Kept(disc, w, v)
  {
    hide Safe;
    assert forall q :: Outstanding(v, q) ==> Outstanding(u, q);
  }

  lemma SwitchKeepsContents(disc: Disc, w: World, on: bool)
    requires Inv(disc, w)
    ensures var v := w.(s := w.s.(readAhead := on));
            Contents(disc, v) && Kept(disc, w, v)
  {
    NothingTouched(disc, w, w.(s := w.s.(readAhead := on)));
  }

  // ----- runs -------------------------------------------------------------------------------

  /** The blocks that the reads of a run deliver, in order. */
  ghost function Deliveries(disc: Disc, w: World, ops: seq<Op>): seq<Option<Block>>
    requires Books(w) && IsRun(disc, w, ops)
    decreases |ops|
  {
    if |ops| == 0 then []
    else
      StepKeepsBooks(disc, w, ops[0]);
      var rest := Deliveries(disc, Step(disc, w, ops[0]), ops[1..]);
      if ops[0].Reading? then [Delivered(disc, w, ops[0].sector, ops[0].buf, ops[0].answer)] + rest else rest
  }

  /** How they came about. */
  ghost function Outcomes(disc: Disc, w: World, ops: seq<Op>): seq<Outcome>
    requires Books(w) && IsRun(disc, w, ops)
    decreases |ops|
  {
    if |ops| == 0 then []
    else
      StepKeepsBooks(disc, w, ops[0]);
      var rest := Outcomes(disc, Step(disc, w, ops[0]), ops[1..]);
      if ops[0].Reading? then [OutcomeOf(w, ops[0].sector, ops[0].answer)] + rest else rest
  }

  /** What a run asks for: the sectors read, and the files opened in between. */
  datatype Request = Sector(sector: nat) | Open(file: Option<FileId>)

  function Requests(ops: seq<Op>): seq<Request> {
    if |ops| == 0 then []
    else
      match ops[0]
      case Reading(sector, _, _) => [Sector(sector)] + Requests(ops[1..])
      case ChangingFile(file) => [Open(file)] + Requests(ops[1..])
      case _ => Requests(ops[1..])
  }

  /** The same requests met straight from the disc. */
  ghost function Direct(disc: Disc, file: Option<FileId>, requests: seq<Request>): seq<Option<Block>>
    decreases |requests|
  {
    if |requests| == 0 then []
    else
      match requests[0]
      case Sector(sector) => [Wanted(disc, file, sector)] + Direct(disc, file, requests[1..])
      case Open(next) => Direct(disc, next, requests[1..])
  }

  /** Each read that was met delivers the direct block, each that failed nothing. */
  predicate AsDirect(blocks: seq<Option<Block>>, direct: seq<Option<Block>>, outcomes: seq<Outcome>) {
    && |blocks| == |direct| == |outcomes|
    && forall i :: 0 <= i < |blocks| ==> Answers(blocks[i], direct[i], outcomes[i])
  }

  predicate Answers(block: Option<Block>, direct: Option<Block>, outcome: Outcome) {
    match outcome
    case Met => block == direct
    case Failed => block == None
    case Unsupplied => true
  }

  lemma AsDirectFirst(b: Option<Block>, bs: seq<Option<Block>>, d: Option<Block>, ds: seq<Option<Block>>,
                      o: Outcome, os: seq<Outcome>)
    requires AsDirect(bs, ds, os) && Answers(b, d, o)
    ensures AsDirect([b] + bs, [d] + ds, [o] + os)
  {
  }

  /** Over every run, whatever the disc delivers, each read delivers exactly what the disc holds for
      its sector, in the file open at the time, but for reads that miss and fail and for hits whose
      block the disc does not deliver: whatever is cached, read ahead, retargeted, given back or
      cleared, and whether read-ahead is on or off, nobody can tell. */
  lemma {:induction false} CacheIsTransparent(disc: Disc, w: World, ops: seq<Op>)
    requires Inv(disc, w) && IsRun(disc, w, ops)
    ensures AsDirect(Deliveries(disc, w, ops), Direct(disc, w.s.file, Requests(ops)), Outcomes(disc, w, ops))
    decreases |ops|
  {
    hide Contents, Balanced, Disposal, Allowed, Delivered, OutcomeOf, Wanted, AsDirect, Answers;
    if |ops| > 0 {
      var op := ops[0];
      StepKeeps(disc, w, op);
      var v := Step(disc, w, op);
      CacheIsTransparent(disc, v, ops[1..]);
      FileFollows(disc, w, op);
      if op.Reading? {
        ReadKeepsContents(disc, w, op.sector, op.buf, op.answer);
        assert Requests(ops)[1..] == Requests(ops[1..]);
        AsDirectFirst(Delivered(disc, w, op.sector, op.buf, op.answer), Deliveries(disc, v, ops[1..]),
                      Wanted(disc, w.s.file, op.sector), Direct(disc, w.s.file, Requests(ops[1..])),
                      OutcomeOf(w, op.sector, op.answer), Outcomes(disc, v, ops[1..]));
      } else if op.ChangingFile? {
        assert Requests(ops)[1..] == Requests(ops[1..]);
      }
    } else {
      NoReads();
    }
  }

  /** With a disc that always delivers, the deliveries are the direct ones. */
  lemma {:induction false} GoodDiscIsTransparent(disc: Disc, w: World, ops: seq<Op>)
    requires Inv(disc, w) && IsRun(disc, w, ops)
    requires forall i :: 0 <= i < |ops| && ops[i].Reading? ==> ops[i].answer >= 1
    ensures Deliveries(disc, w, ops) == Direct(disc, w.s.file, Requests(ops))
  {
    hide IsRun, Inv, Deliveries, Direct, Outcomes;
    CacheIsTransparent(disc, w, ops);
    AllMet(disc, w, ops);
  }

  lemma {:induction false} AllMet(disc: Disc, w: World, ops: seq<Op>)
    requires Inv(disc, w) && IsRun(disc, w, ops)
    requires forall i :: 0 <= i < |ops| && ops[i].Reading? ==> ops[i].answer >= 1
    ensures forall i :: 0 <= i < |Outcomes(disc, w, ops)| ==> Outcomes(disc, w, ops)[i] == Met
    decreases |ops|
  {
    hide Contents, Balanced, Disposal, Allowed, OutcomeOf, Step;
    if |ops| > 0 {
      var op := ops[0];
      StepKeeps(disc, w, op);
      AllMet(disc, Step(disc, w, op), ops[1..]);
      if op.Reading? {
        GoodDiscMeets(disc, w, op.sector, op.buf, op.answer);
      }
    }
  }

  lemma NoReads()
    ensures AsDirect([], [], [])
  {
  }

  lemma FileFollows(disc: Disc, w: World, op: Op)
    requires Inv(disc, w) && Allowed(w, op)
    ensures |w.s.chunk| == |w.out| == CHUNKS && (op.Reading? ==> Backed(w.s.chunk))
    ensures Step(disc, w, op).s.file == if op.ChangingFile? then op.file else w.s.file
  {
    StepKeeps(disc, w, op);
  }

  /** The pointer is held all the way through the run. */
  ghost predicate HeldThroughout(disc: Disc, w: World, ops: seq<Op>, p: int)
    requires Books(w) && IsRun(disc, w, ops)
    decreases |ops|
  {
    Outstanding(w, p)
    && (|ops| == 0 || (StepKeepsBooks(disc, w, ops[0]); HeldThroughout(disc, Step(disc, w, ops[0]), ops[1..], p)))
  }

  /** A block that was safe when it was handed out keeps its contents until it is given back, whatever
      later reads, failed ones included, do. */
  lemma {:induction false} HeldBlocksKeep(disc: Disc, w: World, ops: seq<Op>, p: int)
    requires Inv(disc, w) && IsRun(disc, w, ops) && HeldThroughout(disc, w, ops, p) && Safe(disc, w, p)
    ensures Safe(disc, After(disc, w, ops), p)
    ensures p in w.s.mem && p in After(disc, w, ops).s.mem && After(disc, w, ops).s.mem[p] == w.s.mem[p]
    decreases |ops|
  {
    hide Allowed, Step, Holds;
    if |ops| > 0 {
      StepKeeps(disc, w, ops[0]);
      var v := Step(disc, w, ops[0]);
      assert Outstanding(v, p) by {
        HeldNext(disc, v, ops[1..], p);
      }
      HeldBlocksKeep(disc, v, ops[1..], p);
    }
  }

  lemma {:induction false} HeldNext(disc: Disc, w: World, ops: seq<Op>, p: int)
    requires Books(w) && IsRun(disc, w, ops) && HeldThroughout(disc, w, ops, p)
    ensures Outstanding(w, p)
  {
  }

  /** The cache as dvdnav_read_cache_new leaves it, whatever the fresh memory held. */
  lemma NewHolds(disc: Disc, raw: seq<Chunk>, readAhead: bool, file: Option<FileId>, mem: map<int, Block>)
    requires |raw| == CHUNKS
    ensures Inv(disc, Start(raw, readAhead, file, mem))
  {
    NewBalances(raw, readAhead, file, mem);
  }

  // ----- which chunk is taken ---------------------------------------------------------------

  predicate Fitting(c: Chunk, count: nat) {
    Idle(c) && c.mallocSize >= count
  }

  /** Pre-caching takes the first of the smallest chunks that are not in use and large enough, and
      reallocates the first of the largest not in use when none is. */
  lemma {:induction false} BestFitIsBest(chunk: seq<Chunk>, count: nat, n: nat)
    requires n <= |chunk|
    ensures var u := BestFit(chunk, count, n);
            && (u == -1 <==> forall i :: 0 <= i < n ==> !Fitting(chunk[i], count))
            && forall i :: u >= 0 && 0 <= i < n && Fitting(chunk[i], count) ==>
                 chunk[u].mallocSize < chunk[i].mallocSize || (chunk[u].mallocSize == chunk[i].mallocSize && u <= i)
  {
    if n > 0 {
      BestFitIsBest(chunk, count, n - 1);
    }
  }

  lemma {:induction false} LargestIsLargest(chunk: seq<Chunk>, n: nat)
    requires n <= |chunk|
    ensures var u := Largest(chunk, n);
            && (u == -1 <==> forall i :: 0 <= i < n ==> !Idle(chunk[i]))
            && forall i :: u >= 0 && 0 <= i < n && Idle(chunk[i]) ==>
                 chunk[u].mallocSize > chunk[i].mallocSize || (chunk[u].mallocSize == chunk[i].mallocSize && u <= i)
  {
    if n > 0 {
      LargestIsLargest(chunk, n - 1);
    }
  }

  // ----- reads that fail --------------------------------------------------------------------

  /** A hit always reports success. Of the blocks it hands out, those within its reach are the
      disc's; from there on they are what memory held before. */
  lemma HitHandsOut(disc: Disc, s: State, use: nat, sector: int, count: nat, answer: int, a: int)
    requires use < |s.chunk| && s.file.Some? && Serves(s.chunk[use], sector, count) && Agrees(disc, s, s.chunk[use])
    ensures var c := s.chunk[use];
            var (t, got) := Hit(disc, s, use, sector, count, answer);
            && got.res == LB_LEN * count && got.at == c.buffer.value + (sector - c.start) && t.file == s.file
            && (c.buffer.value <= a < c.buffer.value + Reach(s, c, sector, answer) ==> Holds(disc, t, c, a))
            && (a >= c.buffer.value + Reach(s, c, sector, answer) ==> Same(s, t, a))
  {
    hide Pace, RealSize, Answer;
    var c, n := s.chunk[use], Obtained(s, s.chunk[use], sector, answer);
    ReadBlocksAt(disc, s.mem, s.file.value, c.start + c.readCount, n, c.buffer.value + c.readCount, a);
    assert c.buffer.value <= a < c.buffer.value + c.readCount ==> Holds(disc, s, c, a);
  }

  lemma AgreesBacks(disc: Disc, s: State, c: Chunk)
    requires Agrees(disc, s, c) && c.valid
    ensures c.buffer.Some?
  {
  }

  /** So the blocks handed out are all the disc's exactly if they end within reach, or those beyond
      happen to be in memory already. */
  lemma HitServesExactly(disc: Disc, s: State, use: nat, sector: int, count: nat, answer: int)
    requires use < |s.chunk| && s.file.Some? && Serves(s.chunk[use], sector, count) && Agrees(disc, s, s.chunk[use])
    ensures var c, reach := s.chunk[use], Reach(s, s.chunk[use], sector, answer);
            var (t, got) := Hit(disc, s, use, sector, count, answer);
            && got.res == LB_LEN * count
            && ((forall a :: got.at <= a < got.at + count ==> Holds(disc, t, c, a)) <==>
                || sector + count <= c.start + reach
                || forall a :: c.buffer.value + reach <= a < got.at + count ==> Holds(disc, s, c, a))
  {
    hide Hit, Reach, Agrees;
    AgreesBacks(disc, s, s.chunk[use]);
    var c, reach := s.chunk[use], Reach(s, s.chunk[use], sector, answer);
    var (t, got) := Hit(disc, s, use, sector, count, answer);
    ReachGrows(s, c, sector, answer);
    HitHandsOut(disc, s, use, sector, count, answer, got.at);
    forall a
      ensures c.buffer.value <= a < c.buffer.value + reach ==> Holds(disc, t, c, a)
      ensures a >= c.buffer.value + reach ==> (Holds(disc, s, c, a) <==> Holds(disc, t, c, a))
    {
      HitHandsOut(disc, s, use, sector, count, answer, a);
    }
  }

  lemma ReachGrows(s: State, c: Chunk, sector: int, answer: int)
    ensures Reach(s, c, sector, answer) >= c.readCount
  {
  }

  /** A hit on a block that the chunk has not read and does not get: the reader is given what memory
      held there, as a success. */
  lemma UnsuppliedReadIsStale(disc: Disc, w: World, sector: nat, buf: int, answer: int)
    requires Inv(disc, w) && Allowed(w, Reading(sector, buf, answer))
    requires OutcomeOf(w, sector, answer) == Unsupplied
    ensures Backed(w.s.chunk)
    ensures var (t, got) := Read(disc, w.s, sector, 1, buf, answer);
            && got.res == LB_LEN
            && Delivered(disc, w, sector, buf, answer) == if got.at in w.s.mem then Some(w.s.mem[got.at]) else None
  {
    hide Hit, Reach, Holds;
    BooksBack(w);
    var use := Lookup(w.s, sector, 1);
    var c := w.s.chunk[use];
    assert Agrees(disc, w.s, c);
    HitHandsOut(disc, w.s, use, sector, 1, answer, c.buffer.value + (sector - c.start));
  }

  // ----- two runs of a new cache ------------------------------------------------------------

  /** Only the first chunk has been used. */
  predicate OneChunk(s: State) {
    && |s.chunk| == CHUNKS && s.readAhead && !s.freeing && s.frees == 0 && s.current == 0 && s.file == Some(1)
    && forall i :: 1 <= i < CHUNKS ==> s.chunk[i].buffer.None? && !s.chunk[i].valid && s.chunk[i].usage == 0
  }

  /** That chunk, with one block of its 500 for a sector. */
  function Used(sector: int, readCount: int, usage: int): Chunk {
    Chunk(Some(0), sector, readCount, 1, 500, true, usage)
  }

  lemma {:induction false} NoBufferFits(chunk: seq<Chunk>, count: nat, n: nat)
    requires n <= |chunk| && NoBuffers(chunk)
    ensures BestFit(chunk, count, n) == -1 && Largest(chunk, n) == -1
  {
    if n > 0 {
      NoBufferFits(chunk, count, n - 1);
    }
  }

  lemma {:induction false} FirstFits(chunk: seq<Chunk>, count: nat, n: nat)
    requires 0 < n <= |chunk| && Fitting(chunk[0], count)
    requires forall i :: 1 <= i < |chunk| ==> chunk[i].buffer.None?
    ensures BestFit(chunk, count, n) == 0
  {
    if n > 1 {
      FirstFits(chunk, count, n - 1);
    } else {
      assert BestFit(chunk, count, 0) == -1;
    }
  }

  /** The first pre-caching takes the first chunk, at the address that malloc gives. */
  lemma FirstPreCache(disc: Disc, raw: seq<Chunk>)
    requires |raw| == CHUNKS
    ensures var w := Start(raw, true, Some(1), map[]);
            var v := Step(disc, w, PreCaching(7, 1, 0));
            && Allowed(w, PreCaching(7, 1, 0)) && OneChunk(v.s) && v.s.chunk[0] == Used(7, 0, 0)
            && v.s.mem == map[] && v.s.last == 0 && v.out == w.out
  {
    var s := New(raw, true, Some(1), map[]);
    NoBufferFits(s.chunk, 1, CHUNKS);
    assert FirstEmpty(s.chunk, 0) == 0;
  }

  /** A read of the chunk's only block, of which the disc delivers all or nothing. */
  lemma ReadUsed(disc: Disc, w: World, sector: nat, answer: int)
    requires OneChunk(w.s) && |w.out| == CHUNKS && w.s.chunk[0] == Used(sector, 0, 0) && sector != w.s.last + 1
    requires answer == 1 || answer == -1
    ensures Backed(w.s.chunk) && Allowed(w, Reading(sector, 600, answer))
    ensures var (t, got) := Read(disc, w.s, sector, 1, 600, answer);
            var v := Step(disc, w, Reading(sector, 600, answer));
            && got == Got(LB_LEN, 0) && v == World(t, w.out[0 := w.out[0] + multiset{0}])
            && t.chunk == w.s.chunk[0 := Used(sector, answer, 1)] && OneChunk(t) && t.last == sector
            && t.mem == if answer == 1 then w.s.mem[0 := disc(1, sector)] else w.s.mem
    ensures OutcomeOf(w, sector, answer) == if answer == 1 then Met else Unsupplied
  {
    var mem := w.s.mem;
    assert ReadBlocks(disc, mem, 1, sector, 1, 0) == ReadBlocks(disc, mem, 1, sector, 0, 0)[0 := disc(1, sector)];
  }

  /** A new cache whose first disc read fails: success, with a block that was never written. */
  lemma FailedReadSucceeds(disc: Disc, raw: seq<Chunk>)
    requires |raw| == CHUNKS
    ensures var w := Start(raw, true, Some(1), map[]);
            var v := Step(disc, w, PreCaching(7, 1, 0));
            && Allowed(w, PreCaching(7, 1, 0)) && Backed(v.s.chunk) && Allowed(v, Reading(7, 600, -1))
            && var (t, got) := Read(disc, v.s, 7, 1, 600, -1);
               got == Got(LB_LEN, 0) && 0 !in t.mem
  {
    hide Allowed, Step, OneChunk, Read;
    FirstPreCache(disc, raw);
    ReadUsed(disc, Step(disc, Start(raw, true, Some(1), map[]), PreCaching(7, 1, 0)), 7, -1);
  }

  /** Giving the only block back, and taking its chunk for another sector. */
  lemma UsedAgain(disc: Disc, w: World, sector: nat)
    requires OneChunk(w.s) && |w.out| == CHUNKS && w.s.chunk[0].buffer == Some(0)
    requires w.s.chunk[0] == Used(w.s.chunk[0].start, 1, 1) && 0 in w.out[0]
    ensures Allowed(w, Returning(0))
    ensures var u := Step(disc, w, Returning(0));
            && |u.s.chunk| == |u.out| == CHUNKS && Allowed(u, PreCaching(sector, 1, 0))
            && var v := Step(disc, u, PreCaching(sector, 1, 0));
               && OneChunk(v.s) && |v.out| == CHUNKS && v.s.chunk[0] == Used(sector, 0, 0)
               && v.s.mem == w.s.mem && v.s.last == w.s.last
  {
    var u := Step(disc, w, Returning(0));
    assert u.s.chunk[0] == Used(w.s.chunk[0].start, 1, 0);
    FirstFits(u.s.chunk, 1, CHUNKS);
  }

  /** The first operation of a run, and the rest. */
  lemma {:induction false} RunFirst(disc: Disc, w: World, op: Op, ops: seq<Op>)
    requires Books(w) && Allowed(w, op)
    ensures |w.s.chunk| == |w.out| == CHUNKS && (op.Reading? ==> Backed(w.s.chunk))
    ensures var v := Step(disc, w, op);
            && Books(v) && (IsRun(disc, w, [op] + ops) <==> IsRun(disc, v, ops))
            && (IsRun(disc, v, ops) ==>
                  && Deliveries(disc, w, [op] + ops)
                     == (if op.Reading? then [Delivered(disc, w, op.sector, op.buf, op.answer)] else [])
                        + Deliveries(disc, v, ops)
                  && Outcomes(disc, w, [op] + ops)
                     == (if op.Reading? then [OutcomeOf(w, op.sector, op.answer)] else []) + Outcomes(disc, v, ops))
  {
    hide Balanced, Disposal, Step, Delivered, OutcomeOf, Unowned, Allocatable;
    BooksBack(w);
    StepKeepsBooks(disc, w, op);
    assert ([op] + ops)[1..] == ops;
  }

  lemma {:induction false} NoRun(disc: Disc, w: World)
    requires Books(w)
    ensures IsRun(disc, w, []) && Deliveries(disc, w, []) == [] && Outcomes(disc, w, []) == []
  {
  }

  /** A new cache in which sector 7 is read and given back, and its chunk used again for sector 80,
      where the disc read fails: success, with the block of sector 7. */
  lemma FailedReadServesOldBlock(disc: Disc, raw: seq<Chunk>)
    requires |raw| == CHUNKS
    ensures var ops := [PreCaching(7, 1, 0), Reading(7, 600, 1), Returning(0), PreCaching(80, 1, 0),
                        Reading(80, 600, -1)];
            var w := Start(raw, true, Some(1), map[]);
            && Books(w) && IsRun(disc, w, ops)
            && Deliveries(disc, w, ops) == [Some(disc(1, 7)), Some(disc(1, 7))]
            && Outcomes(disc, w, ops) == [Met, Unsupplied]
  {
    hide Allowed, Balanced, Disposal, Step, OutcomeOf, IsRun, Deliveries, Outcomes, OneChunk, Read;
    var a, b, c, d, e := PreCaching(7, 1, 0), Reading(7, 600, 1), Returning(0), PreCaching(80, 1, 0),
                         Reading(80, 600, -1);
    var w := Start(raw, true, Some(1), map[]);
    NewBalances(raw, true, Some(1), map[]);
    FirstPreCache(disc, raw);
    RunFirst(disc, w, a, [b, c, d, e]);
    var w1 := Step(disc, w, a);
    ReadUsed(disc, w1, 7, 1);
    RunFirst(disc, w1, b, [c, d, e]);
    var w2 := Step(disc, w1, b);
    UsedAgain(disc, w2, 80);
    RunFirst(disc, w2, c, [d, e]);
    var w3 := Step(disc, w2, c);
    RunFirst(disc, w3, d, [e]);
    var w4 := Step(disc, w3, d);
    ReadUsed(disc, w4, 80, -1);
    RunFirst(disc, w4, e, []);
    NoRun(disc, Step(disc, w4, e));
    assert [a] + [b, c, d, e] == [a, b, c, d, e] && [b] + [c, d, e] == [b, c, d, e] && [c] + [d, e] == [c, d, e];
    assert [d] + [e] == [d, e] && [e] + [] == [e];
  }
}
