/** The accounts of the read-ahead cache: who holds which pointers, which chunk owns which memory,
    and when memory goes; over all runs, whatever the disc delivers. */
module CacheAccounts {
  import opened CacheModel

  /** The cache, and for each chunk the pointers handed out from it and not yet given back. */
  datatype World = World(s: State, out: seq<multiset<int>>)

  datatype Op =
    | PreCaching(sector: nat, count: nat, address: int)
    | Reading(sector: nat, buf: int, answer: int)
    | Returning(p: int)
    | ChangingFile(file: Option<FileId>)
    | SettingReadAhead(on: bool)
    | Closing

  ghost predicate Outstanding(w: World, p: int) {
    exists i :: 0 <= i < |w.out| && p in w.out[i]
  }

  // ----- the invariant ----------------------------------------------------------------------

  /** The usage count is the number of pointers held, and each points into the chunk's buffer. */
  ghost predicate Accounted(c: Chunk, held: multiset<int>) {
    c.usage == |held| && forall p :: p in held ==> Owns(c, p)
  }

  predicate Sound(c: Chunk) {
    c.valid ==> c.buffer.Some? && c.blockCount <= c.mallocSize
  }

  ghost predicate Apart(c: Chunk, d: Chunk) {
    forall p :: !(Owns(c, p) && Owns(d, p))
  }

  predicate NoBuffers(chunk: seq<Chunk>) {
    forall i :: 0 <= i < |chunk| ==> chunk[i].buffer.None?
  }

  /** Once closing has begun, only chunks in use keep a buffer, and cache and handle have been freed,
      once, exactly if there is none. */
  ghost predicate Disposal(s: State) {
    if s.freeing then
      && (forall i :: 0 <= i < |s.chunk| && s.chunk[i].buffer.Some? ==> s.chunk[i].usage > 0)
      && s.frees == if NoBuffers(s.chunk) then 1 else 0
    else s.frees == 0
  }

  ghost predicate Balanced(w: World) {
    && |w.s.chunk| == |w.out| == CHUNKS
    && (forall i :: 0 <= i < CHUNKS ==> Accounted(w.s.chunk[i], w.out[i]))
    && (!w.s.freeing ==> forall i :: 0 <= i < CHUNKS ==> Sound(w.s.chunk[i]))
    && (forall i, j :: 0 <= i < j < CHUNKS ==> Apart(w.s.chunk[i], w.s.chunk[j]))
  }

  ghost predicate Books(w: World) {
    Balanced(w) && Disposal(w.s)
  }

  // ----- steps ------------------------------------------------------------------------------

  /** malloc and realloc give a region that no other chunk's buffer shares. */
  ghost predicate Separate(chunk: seq<Chunk>, i: int, address: int, size: int) {
    forall j, p :: 0 <= j < |chunk| && j != i && address <= p < address + size ==> !Owns(chunk[j], p)
  }

  ghost predicate Allocatable(s: State, count: nat, address: int) {
    match Choose(s.chunk, count)
    case Realloc(i) => Separate(s.chunk, i, address, count)
    case Malloc(i) => Separate(s.chunk, i, address, FirstMallocSize(count))
    case _ => true
  }

  ghost predicate Unowned(chunk: seq<Chunk>, p: int) {
    forall j :: 0 <= j < |chunk| ==> !Owns(chunk[j], p)
  }

  /** What callers and the system provide: nothing follows the final free, and only returns follow
      the start of closing; pre-caching follows the read of a NAV packet, so a file is open; a reader
      passes its own buffer; and a pointer is given back once for each time it was handed out, or is
      foreign. A disc read may deliver anything. */
  ghost predicate Allowed(w: World, op: Op) {
    && w.s.frees == 0
    && (!op.Returning? ==> !w.s.freeing)
    && match op
       case PreCaching(sector, count, address) => w.s.file.Some? && Allocatable(w.s, count, address)
       case Reading(sector, buf, answer) => Unowned(w.s.chunk, buf)
       case Returning(p) => Outstanding(w, p) || Unowned(w.s.chunk, p)
       case _ => true
  }

  function OutAfter(w: World, p: int): seq<multiset<int>>
    requires |w.s.chunk| == |w.out| == CHUNKS
  {
    seq(CHUNKS, i requires 0 <= i < CHUNKS => if Owns(w.s.chunk[i], p) then w.out[i] - multiset{p} else w.out[i])
  }

  ghost function Step(disc: Disc, w: World, op: Op): World
    requires |w.s.chunk| == |w.out| == CHUNKS && (op.Reading? ==> Backed(w.s.chunk))
  {
    match op
    case PreCaching(sector, count, address) => w.(s := PreCache(w.s, sector, count, address))
    case Reading(sector, buf, answer) =>
      var use := Lookup(w.s, sector, 1);
      var (s, got) := Read(disc, w.s, sector, 1, buf, answer);
      World(s, if use >= 0 then w.out[use := w.out[use] + multiset{got.at}] else w.out)
    case Returning(p) => World(Return(w.s, p), OutAfter(w, p))
    case ChangingFile(file) => w.(s := ChangeFile(w.s, file))
    case SettingReadAhead(on) => w.(s := w.s.(readAhead := on))
    case Closing => w.(s := Free(w.s))
  }

  // ----- chunks -----------------------------------------------------------------------------

  lemma SameBuffers(c: Chunk, d: Chunk, c': Chunk, d': Chunk)
    requires Apart(c, d)
    requires c'.buffer == c.buffer && c'.mallocSize == c.mallocSize
    requires d'.buffer == d.buffer && d'.mallocSize == d.mallocSize
    ensures Apart(c', d')
  {
    assert forall p :: (Owns(c', p) <==> Owns(c, p)) && (Owns(d', p) <==> Owns(d, p));
  }

  /** Chunks whose buffers stay put stay apart. */
  lemma StillApart(cs: seq<Chunk>, ds: seq<Chunk>)
    requires |cs| == |ds|
    requires forall i :: 0 <= i < |cs| ==> ds[i].buffer == cs[i].buffer && ds[i].mallocSize == cs[i].mallocSize
    requires forall i, j :: 0 <= i < j < |cs| ==> Apart(cs[i], cs[j])
    ensures forall i, j :: 0 <= i < j < |ds| ==> Apart(ds[i], ds[j])
  {
    forall i, j | 0 <= i < j < |ds|
      ensures Apart(ds[i], ds[j])
    {
      SameBuffers(cs[i], cs[j], ds[i], ds[j]);
    }
  }

  lemma OthersApart(w: World, i: nat)
    requires Balanced(w) && i < CHUNKS
    ensures forall j :: 0 <= j < CHUNKS && j != i ==> Apart(w.s.chunk[i], w.s.chunk[j])
  {
    assert forall j :: 0 <= j < i ==> Apart(w.s.chunk[j], w.s.chunk[i]);
  }

  lemma NoMembers(m: multiset<int>)
    requires forall p :: p !in m
    ensures |m| == 0
  {
    assert forall p :: m[p] == 0;
    assert m + multiset{} == multiset{};
  }

  /** Nobody holds a pointer from a chunk that is not in use, or has no buffer. */
  lemma IdleHoldsNothing(c: Chunk, held: multiset<int>)
    requires Accounted(c, held) && (c.usage == 0 || c.buffer.None?)
    ensures held == multiset{} && c.usage == 0
  {
    if c.buffer.None? {
      NoMembers(held);
    }
  }

  // ----- every step keeps the books ---------------------------------------------------------

  lemma RetargetKeepsBooks(w: World, i: nat, c: Chunk, mem: map<int, Block>, sector: int, count: nat)
    requires Books(w) && !w.s.freeing && i < CHUNKS
    requires w.out[i] == multiset{} && c.usage == 0 && c.buffer.Some? && count <= c.mallocSize
    requires forall j :: 0 <= j < CHUNKS && j != i ==> Apart(c, w.s.chunk[j])
    ensures Books(w.(s := Retarget(w.s.(mem := mem), i, c, sector, count)))
  {
    var t := Retarget(w.s.(mem := mem), i, c, sector, count);
    forall j, k | 0 <= j < k < CHUNKS
      ensures Apart(t.chunk[j], t.chunk[k])
    {
      assert j != i && k != i ==> Apart(w.s.chunk[j], w.s.chunk[k]);
      assert j == i ==> Apart(c, w.s.chunk[k]);
      assert k == i ==> Apart(c, w.s.chunk[j]);
    }
  }

  lemma PreCacheKeepsBooks(w: World, sector: int, count: nat, address: int)
    requires Books(w) && !w.s.freeing && Allocatable(w.s, count, address)
    ensures Books(w.(s := PreCache(w.s, sector, count, address)))
  {
    if w.s.readAhead {
      match Choose(w.s.chunk, count)
      case Fits(i) =>
        OthersApart(w, i);
        IdleHoldsNothing(w.s.chunk[i], w.out[i]);
        RetargetKeepsBooks(w, i, w.s.chunk[i], w.s.mem, sector, count);
      case Realloc(i) =>
        var c := w.s.chunk[i];
        IdleHoldsNothing(c, w.out[i]);
        var mem := Erase(Erase(w.s.mem, c.buffer.value, c.mallocSize), address, count);
        RetargetKeepsBooks(w, i, c.(buffer := Some(address), mallocSize := count), mem, sector, count);
      case Malloc(i) =>
        var size := FirstMallocSize(count);
        IdleHoldsNothing(w.s.chunk[i], w.out[i]);
        RetargetKeepsBooks(w, i, w.s.chunk[i].(buffer := Some(address), mallocSize := size),
                           Erase(w.s.mem, address, size), sector, count);
      case Impossible =>
    }
  }

  lemma HitChunks(disc: Disc, s: State, use: nat, sector: int, answer: int)
    requires use < |s.chunk| && s.chunk[use].buffer.Some?
    ensures var (t, got) := Hit(disc, s, use, sector, 1, answer);
            && got.at == s.chunk[use].buffer.value + (sector - s.chunk[use].start)
            && t.freeing == s.freeing && t.frees == s.frees && |t.chunk| == |s.chunk|
            && (forall i :: 0 <= i < |s.chunk| && i != use ==> t.chunk[i] == s.chunk[i])
            && t.chunk[use] == s.chunk[use].(usage := s.chunk[use].usage + 1, readCount := t.chunk[use].readCount)
  {
    hide Pace, RealSize, Answer;
  }

  /** A hit, whatever the disc delivers, hands out a pointer into the chunk that served. */
  lemma HitKeepsBooks(disc: Disc, w: World, use: nat, sector: int, answer: int)
    requires Books(w) && !w.s.freeing && use < CHUNKS && Serves(w.s.chunk[use], sector, 1)
    ensures var (t, got) := Hit(disc, w.s, use, sector, 1, answer);
            && Owns(w.s.chunk[use], got.at)
            && Books(World(t, w.out[use := w.out[use] + multiset{got.at}]))
  {
    hide Hit, Apart;
    assert Sound(w.s.chunk[use]);
    HitChunks(disc, w.s, use, sector, answer);
    var (t, got) := Hit(disc, w.s, use, sector, 1, answer);
    StillApart(w.s.chunk, t.chunk);
  }

  /** Freeing the buffers of the chunks not in use settles what remains. */
  lemma FreeKeepsBooks(w: World)
    requires Balanced(w) && w.s.frees == 0
    ensures Books(w.(s := Free(w.s)))
    ensures forall i, p :: 0 <= i < CHUNKS && p in w.out[i] && p in w.s.mem ==>
              p in Free(w.s).mem && Free(w.s).mem[p] == w.s.mem[p]
  {
    var t := Free(w.s);
    forall i, p | 0 <= i < CHUNKS && p in w.out[i] && p in w.s.mem
      ensures p in t.mem && t.mem[p] == w.s.mem[p]
    {
      OthersApart(w, i);
      assert forall j :: 0 <= j < CHUNKS && j != i ==> !Owns(w.s.chunk[j], p);
      assert w.s.chunk[i].usage > 0;
    }
    forall i | 0 <= i < CHUNKS
      ensures Accounted(t.chunk[i], w.out[i])
    {
      if Idle(w.s.chunk[i]) {
        IdleHoldsNothing(w.s.chunk[i], w.out[i]);
      }
    }
    forall i, j | 0 <= i < j < CHUNKS
      ensures Apart(t.chunk[i], t.chunk[j])
    {
      assert Apart(w.s.chunk[i], w.s.chunk[j]);
    }
  }

  /** The chunk that a pointer given back belongs to is the one it came from. */
  lemma OwnerHolds(w: World, p: int, i: nat)
    requires Balanced(w) && i < CHUNKS && Owns(w.s.chunk[i], p)
    requires Outstanding(w, p) || Unowned(w.s.chunk, p)
    ensures p in w.out[i]
  {
    OthersApart(w, i);
    var j :| 0 <= j < CHUNKS && p in w.out[j];
    assert Owns(w.s.chunk[j], p);
  }

  lemma ReturnedIsAccounted(c: Chunk, held: multiset<int>, p: int)
    requires Accounted(c, held) && (Owns(c, p) ==> p in held)
    ensures Accounted(Returned(c, p), if Owns(c, p) then held - multiset{p} else held)
  {
  }

  /** Giving a pointer back takes one from the count of the chunk it came from, and of no other. */
  lemma ReturnKeepsBalance(w: World, p: int)
    requires Balanced(w) && (Outstanding(w, p) || Unowned(w.s.chunk, p))
    ensures Balanced(World(w.s.(chunk := ReturnedAll(w.s.chunk, p)), OutAfter(w, p)))
  {
    hide Accounted, Apart;
    var v := World(w.s.(chunk := ReturnedAll(w.s.chunk, p)), OutAfter(w, p));
    forall i | 0 <= i < CHUNKS
      ensures Accounted(v.s.chunk[i], v.out[i])
    {
      if Owns(w.s.chunk[i], p) {
        OwnerHolds(w, p, i);
      }
      ReturnedIsAccounted(w.s.chunk[i], w.out[i], p);
    }
    StillApart(w.s.chunk, v.s.chunk);
  }

  lemma StepKeepsBooks(disc: Disc, w: World, op: Op)
    requires Books(w) && Allowed(w, op)
    ensures Books(Step(disc, w, op))
  {
    hide Balanced, Hit, PreCache, Free;
    BooksBack(w);
    match op
    case PreCaching(sector, count, address) => PreCacheKeepsBooks(w, sector, count, address);
    case Reading(sector, buf, answer) =>
      var use := Lookup(w.s, sector, 1);
      if use >= 0 {
        HitKeepsBooks(disc, w, use, sector, answer);
      } else {
        SameChunks(w, Step(disc, w, op));
      }
    case Returning(p) =>
      ReturnKeepsBalance(w, p);
      if w.s.freeing {
        FreeKeepsBooks(World(w.s.(chunk := ReturnedAll(w.s.chunk, p)), OutAfter(w, p)));
      }
    case ChangingFile(file) => ClearKeepsBalance(w, file);
    case SettingReadAhead(on) => SameChunks(w, Step(disc, w, op));
    case Closing => FreeKeepsBooks(w);
  }

  lemma BooksBack(w: World)
    requires Balanced(w)
    ensures |w.s.chunk| == |w.out| == CHUNKS && (!w.s.freeing ==> Backed(w.s.chunk))
  {
  }

  lemma SameChunks(w: World, v: World)
    requires Balanced(w) && v.s.chunk == w.s.chunk && v.s.freeing == w.s.freeing && v.out == w.out
    ensures Balanced(v)
  {
  }

  lemma ClearKeepsBalance(w: World, file: Option<FileId>)
    requires Balanced(w)
    ensures Balanced(w.(s := ChangeFile(w.s, file)))
  {
    StillApart(w.s.chunk, ChangeFile(w.s, file).chunk);
  }

  // ----- runs -------------------------------------------------------------------------------

  /** A run from w: every step is allowed where it is taken. */
  ghost predicate IsRun(disc: Disc, w: World, ops: seq<Op>)
    requires Books(w)
    decreases |ops|
  {
    |ops| == 0 ||
    (Allowed(w, ops[0]) && (StepKeepsBooks(disc, w, ops[0]); IsRun(disc, Step(disc, w, ops[0]), ops[1..])))
  }

  ghost function After(disc: Disc, w: World, ops: seq<Op>): (v: World)
    requires Books(w) && IsRun(disc, w, ops)
    ensures Books(v)
    decreases |ops|
  {
    if |ops| == 0 then w
    else
      StepKeepsBooks(disc, w, ops[0]);
      After(disc, Step(disc, w, ops[0]), ops[1..])
  }

  /** In every reachable state, however often disc reads have failed, each usage count is the number
      of pointers held from its chunk, a chunk with a pointer out still has its buffer, and once
      closing has begun the cache and the handle have been freed, and just once, exactly if no
      pointer is out. */
  lemma {:induction false} FreedWhenAllReturned(disc: Disc, w: World, ops: seq<Op>)
    requires Books(w) && IsRun(disc, w, ops)
    ensures var v := After(disc, w, ops);
            && (forall i :: 0 <= i < CHUNKS ==> v.s.chunk[i].usage == |v.out[i]|)
            && (forall i, p :: 0 <= i < CHUNKS && p in v.out[i] ==> Owns(v.s.chunk[i], p))
            && (v.s.freeing ==> (v.s.frees == 1 <==> forall p :: !Outstanding(v, p)))
            && (!v.s.freeing ==> v.s.frees == 0) && v.s.frees <= 1
  {
    hide IsRun, After;
    var v := After(disc, w, ops);
    assert forall i :: 0 <= i < CHUNKS ==> Accounted(v.s.chunk[i], v.out[i]);
    if v.s.freeing {
      NobodyHolds(v);
    }
  }

  lemma NobodyHolds(v: World)
    requires Books(v) && v.s.freeing
    ensures v.s.frees == 1 <==> forall p :: !Outstanding(v, p)
  {
    if forall p :: !Outstanding(v, p) {
      forall i | 0 <= i < CHUNKS
        ensures v.s.chunk[i].usage == 0
      {
        assert forall p :: p in v.out[i] ==> Outstanding(v, p);
        NoMembers(v.out[i]);
        assert Accounted(v.s.chunk[i], v.out[i]);
      }
    } else {
      var i, p :| 0 <= i < CHUNKS && p in v.out[i];
      assert Accounted(v.s.chunk[i], v.out[i]);
    }
  }

  /** dvdnav_get_next_block on a hit: it copies the block, which is not in its caller's buffer, and
      gives the pointer back, after which every usage count and the pointers held are as before. */
  lemma CopiedBlockIsGivenBack(disc: Disc, w: World, sector: nat, buf: int, answer: int)
    requires Books(w) && Allowed(w, Reading(sector, buf, answer)) && Lookup(w.s, sector, 1) >= 0
    ensures Backed(w.s.chunk)
    ensures var (s, got) := Read(disc, w.s, sector, 1, buf, answer);
            var v := Step(disc, w, Reading(sector, buf, answer));
            && got.at != buf && Books(v) && Allowed(v, Returning(got.at))
            && var u := Step(disc, v, Returning(got.at));
               u.out == w.out && forall i :: 0 <= i < CHUNKS ==> u.s.chunk[i].usage == w.s.chunk[i].usage
  {
    hide Balanced, Hit, Apart;
    BooksBack(w);
    var use := Lookup(w.s, sector, 1);
    var v := Step(disc, w, Reading(sector, buf, answer));
    var (s, got) := Read(disc, w.s, sector, 1, buf, answer);
    HitKeepsBooks(disc, w, use, sector, answer);
    HitChunks(disc, w.s, use, sector, answer);
    GoesBack(w, v, use, got.at);
  }

  lemma GoesBack(w: World, v: World, use: nat, p: int)
    requires Balanced(w) && Balanced(v) && use < CHUNKS && Owns(w.s.chunk[use], p)
    requires v.out == w.out[use := w.out[use] + multiset{p}]
    requires forall i :: 0 <= i < CHUNKS && i != use ==> v.s.chunk[i] == w.s.chunk[i]
    requires v.s.chunk[use] == w.s.chunk[use].(usage := w.s.chunk[use].usage + 1, readCount := v.s.chunk[use].readCount)
    ensures Outstanding(v, p) && OutAfter(v, p) == w.out
    ensures forall i :: 0 <= i < CHUNKS ==> ReturnedAll(v.s.chunk, p)[i].usage == w.s.chunk[i].usage
  {
    OthersApart(v, use);
    assert p in v.out[use];
    assert w.out[use] + multiset{p} - multiset{p} == w.out[use];
    assert forall j :: 0 <= j < CHUNKS && j != use ==> !Owns(v.s.chunk[j], p);
  }

  /** A new cache, with no pointer out. */
  function Start(raw: seq<Chunk>, readAhead: bool, file: Option<FileId>, mem: map<int, Block>): World {
    World(New(raw, readAhead, file, mem), seq(CHUNKS, _ => multiset{}))
  }

  /** The cache as dvdnav_read_cache_new leaves it, whatever the fresh memory held. */
  lemma NewBalances(raw: seq<Chunk>, readAhead: bool, file: Option<FileId>, mem: map<int, Block>)
    requires |raw| == CHUNKS
    ensures Books(Start(raw, readAhead, file, mem))
  {
  }
}
