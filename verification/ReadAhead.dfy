/** How far the cache reads ahead: the pace over every run, and the hits that it makes. */
module ReadAhead {
  import opened CacheModel
  import opened CacheAccounts
  import opened CacheRuns

  // ----- the pace ---------------------------------------------------------------------------

  /** The sum of the halves of 1 to k, rounded down. */
  function Halves(k: nat): nat {
    if k == 0 then 0 else Halves(k - 1) + k / 2
  }

  /** The blocks to read ahead at a hit that is the k-th in sequence after another: from 4 up to 512. */
  function Ahead(k: nat): nat {
    if Halves(k) > 508 then 512 else 4 + Halves(k)
  }

  /** The growth is the quarter of the square of k. */
  lemma {:induction false} HalvesAreSquares(m: nat)
    ensures Halves(2 * m) == m * m && Halves(2 * m + 1) == m * m + m
  {
    if m > 0 {
      HalvesAreSquares(m - 1);
      assert m * m == (m - 1) * (m - 1) + 2 * m - 1;
      assert Halves(2 * m) == Halves(2 * (m - 1) + 1) + m;
    }
  }

  lemma {:induction false} HalvesGrow(k: nat, n: nat)
    requires k <= n
    ensures Halves(k) <= Halves(n)
  {
    if k < n {
      HalvesGrow(k, n - 1);
    }
  }

  /** Consecutive hits read ahead no less each time, and 512 from the 46th on. */
  lemma AheadGrows(k: nat)
    ensures 4 <= Ahead(k) <= Ahead(k + 1) <= 512
    ensures Ahead(0) == 4 && (Ahead(k) == 512 <==> k >= 46)
  {
    hide Halves;
    HalvesGrow(k, k + 1);
    HalvesAreSquares(0);
    HalvesAreSquares(22);
    HalvesAreSquares(23);
    if k >= 46 {
      HalvesGrow(46, k);
    } else {
      HalvesGrow(k, 45);
    }
  }

  /** The sector of the latest hit, and how many hits before it led up to it in sequence. */
  datatype Streak = Streak(last: int, hits: nat)

  function Next(w: World, op: Op, st: Streak): Streak {
    if op.Reading? && Lookup(w.s, op.sector, 1) >= 0
    then Streak(op.sector, if op.sector == st.last + 1 then st.hits + 1 else 0)
    else st
  }

  /** The streak after a run: only hits change it. */
  ghost function StreakAfter(disc: Disc, w: World, ops: seq<Op>, st: Streak): Streak
    requires Books(w) && IsRun(disc, w, ops)
    decreases |ops|
  {
    if |ops| == 0 then st
    else
      StepKeepsBooks(disc, w, ops[0]);
      StreakAfter(disc, Step(disc, w, ops[0]), ops[1..], Next(w, ops[0], st))
  }

  /** The cache keeps the pace of the streak. */
  predicate InPace(s: State, st: Streak) {
    && s.last == st.last && s.size == Ahead(st.hits)
    && s.incr == if st.hits < READ_AHEAD_SIZE_MAX then st.hits else READ_AHEAD_SIZE_MAX
  }

  /** The pace at the next hit. */
  lemma PaceIs(s: State, st: Streak, sector: int)
    requires InPace(s, st)
    ensures var hits := if sector == st.last + 1 then st.hits + 1 else 0;
            && Pace(s, sector).0 == Ahead(hits)
            && Pace(s, sector).1 == if hits < READ_AHEAD_SIZE_MAX then hits else READ_AHEAD_SIZE_MAX
  {
    AheadGrows(st.hits);
  }

  lemma StepKeepsPace(disc: Disc, w: World, op: Op, st: Streak)
    requires Books(w) && Allowed(w, op) && InPace(w.s, st)
    ensures |w.s.chunk| == |w.out| == CHUNKS && (op.Reading? ==> Backed(w.s.chunk))
    ensures InPace(Step(disc, w, op).s, Next(w, op, st))
  {
    hide Balanced, Pace, RealSize, Answer, Ahead;
    BooksBack(w);
    if op.Reading? {
      PaceIs(w.s, st, op.sector);
    }
  }

  /** Over every run the cache keeps the pace: after a hit out of sequence it reads 4 blocks ahead, and
      at the k-th hit in sequence after that 4 and a quarter of the square of k, up to 512. Misses,
      returns, clears and pre-caching change nothing of it. */
  lemma {:induction false} PaceFollows(disc: Disc, w: World, ops: seq<Op>, st: Streak)
    requires Books(w) && IsRun(disc, w, ops) && InPace(w.s, st)
    ensures InPace(After(disc, w, ops).s, StreakAfter(disc, w, ops, st))
    decreases |ops|
  {
    hide Balanced, Allowed, InPace, Step, Next;
    if |ops| > 0 {
      StepKeepsBooks(disc, w, ops[0]);
      StepKeepsPace(disc, w, ops[0], st);
      PaceFollows(disc, Step(disc, w, ops[0]), ops[1..], Next(w, ops[0], st));
    }
  }

  /** A new cache is in pace as if sector 0 had been hit. */
  lemma NewIsInPace(raw: seq<Chunk>, readAhead: bool, file: Option<FileId>, mem: map<int, Block>)
    ensures InPace(New(raw, readAhead, file, mem), Streak(0, 0))
  {
  }

  // ----- what a hit reads -------------------------------------------------------------------

  function Least(a: int, b: int): int {
    if a < b then a else b
  }

  /** A hit asks the disc for as many blocks as the pace says, or as are left in its chunk, and the
      chunk has then read all that is delivered. Only a failed read takes one off. */
  lemma HitReadsAhead(disc: Disc, w: World, sector: nat, buf: int, answer: int, st: Streak)
    requires Inv(disc, w) && Allowed(w, Reading(sector, buf, answer)) && InPace(w.s, st)
    requires Lookup(w.s, sector, 1) >= 0
    ensures Backed(w.s.chunk)
    ensures var use := Lookup(w.s, sector, 1);
            var c, t := w.s.chunk[use], Read(disc, w.s, sector, 1, buf, answer).0;
            var asked := Least(c.blockCount - c.readCount, Ahead(Next(w, Reading(sector, buf, answer), st).hits));
            && |t.chunk| == CHUNKS && t.chunk[use].blockCount == c.blockCount && t.chunk[use].start == c.start
            && t.chunk[use].readCount
               == if asked == 0 then c.readCount
                  else if answer < 0 then c.readCount - 1
                  else c.readCount + Least(answer, asked)
  {
    hide Balanced, Disposal, Pace, Ahead, Holds;
    var use := Lookup(w.s, sector, 1);
    BooksBack(w);
    assert Agrees(disc, w.s, w.s.chunk[use]);
    PaceIs(w.s, st, sector);
    AheadBounds(Next(w, Reading(sector, buf, answer), st).hits);
  }

  lemma AheadBounds(k: nat)
    ensures 4 <= Ahead(k) <= 512
  {
  }

  /** If the disc delivers all it is asked for, the chunk has then been read to its end, or at least
      four blocks further; and every sector that it has read, if it is the current one, is met from
      now on even by a disc that fails. */
  lemma AheadIsServed(disc: Disc, w: World, sector: nat, buf: int, answer: int, st: Streak, x: nat)
    requires Inv(disc, w) && Allowed(w, Reading(sector, buf, answer)) && InPace(w.s, st)
    requires Lookup(w.s, sector, 1) == w.s.current >= 0 && answer >= READ_AHEAD_SIZE_MAX
    ensures Backed(w.s.chunk) && |w.s.chunk| == |w.out| == CHUNKS
    ensures var v := Step(disc, w, Reading(sector, buf, answer));
            var c, d := w.s.chunk[w.s.current], v.s.chunk[w.s.current];
            && (d.readCount == c.blockCount || d.readCount >= c.readCount + READ_AHEAD_SIZE_MIN)
            && (c.start <= x < c.start + d.readCount ==>
                  Lookup(v.s, x, 1) == w.s.current && forall a :: OutcomeOf(v, x, a) == Met)
  {
    hide Balanced, Disposal, Pace, Ahead, RealSize, Holds;
    HitReadsAhead(disc, w, sector, buf, answer, st);
    AheadBounds(Next(w, Reading(sector, buf, answer), st).hits);
    assert Agrees(disc, w.s, w.s.chunk[w.s.current]);
  }

  // ----- a VOBU -----------------------------------------------------------------------------

  /** Sectors read one after the other, with the disc's answers: all hit the current chunk, which has
      or gets them. */
  ghost predicate AllServed(disc: Disc, s: State, sector: nat, buf: int, answers: seq<int>)
    requires Backed(s.chunk)
    decreases |answers|
  {
    |answers| > 0 ==>
      && Lookup(s, sector, 1) == s.current >= 0 && Supplied(s, s.chunk[s.current], sector, answers[0])
      && var t := Read(disc, s, sector, 1, buf, answers[0]).0;
         Backed(t.chunk) && AllServed(disc, t, sector + 1, buf, answers[1..])
  }

  /** The current chunk has the sector, or it is the next one to be read into it. */
  ghost predicate UpTo(s: State, sector: int) {
    && s.readAhead && s.file.Some? && Paced(s) && 0 <= s.current < |s.chunk|
    && s.chunk[s.current].valid && 0 <= s.chunk[s.current].readCount <= s.chunk[s.current].blockCount
    && s.chunk[s.current].start <= sector <= s.chunk[s.current].start + s.chunk[s.current].readCount
  }

  lemma ServedOne(disc: Disc, s: State, sector: nat, buf: int, answer: int)
    requires Backed(s.chunk) && UpTo(s, sector) && answer >= 1
    requires sector < s.chunk[s.current].start + s.chunk[s.current].blockCount
    ensures Lookup(s, sector, 1) == s.current && Supplied(s, s.chunk[s.current], sector, answer)
    ensures var t := Read(disc, s, sector, 1, buf, answer).0;
            && Backed(t.chunk) && UpTo(t, sector + 1) && t.current == s.current
            && t.chunk[t.current].start == s.chunk[s.current].start
            && t.chunk[t.current].blockCount == s.chunk[s.current].blockCount
  {
    hide Pace, RealSize, Answer;
    HitReaches(s, s.chunk[s.current], sector, answer);
    NothingLost(s, s.chunk[s.current], sector, answer);
  }

  lemma NothingLost(s: State, c: Chunk, sector: int, answer: int)
    requires Paced(s) && s.file.Some? && answer >= 1 && Serves(c, sector, 1) && c.readCount <= c.blockCount
    ensures Obtained(s, c, sector, answer) >= 0
  {
  }

  lemma {:induction false} RowIsServed(disc: Disc, s: State, sector: nat, buf: int, answers: seq<int>)
    requires Backed(s.chunk) && UpTo(s, sector) && forall i :: 0 <= i < |answers| ==> answers[i] >= 1
    requires sector + |answers| <= s.chunk[s.current].start + s.chunk[s.current].blockCount
    ensures AllServed(disc, s, sector, buf, answers)
    decreases |answers|
  {
    hide Read, Lookup, Supplied;
    if |answers| > 0 {
      ServedOne(disc, s, sector, buf, answers[0]);
      RowIsServed(disc, Read(disc, s, sector, 1, buf, answers[0]).0, sector + 1, buf, answers[1..]);
    }
  }

  /** After pre-caching found a chunk, all the blocks it announced, read in order, are hits, if each
      disc read delivers at least one. */
  lemma {:induction false} PreCachedIsServed(disc: Disc, s: State, sector: nat, count: nat, address: int, buf: int,
                                             answers: seq<int>)
    requires Backed(s.chunk) && s.readAhead && s.file.Some? && Paced(s) && !Choose(s.chunk, count).Impossible?
    requires |answers| <= count && forall i :: 0 <= i < |answers| ==> answers[i] >= 1
    ensures Backed(PreCache(s, sector, count, address).chunk)
    ensures AllServed(disc, PreCache(s, sector, count, address), sector, buf, answers)
  {
    hide AllServed;
    RowIsServed(disc, PreCache(s, sector, count, address), sector, buf, answers);
  }

  // ----- which chunk ------------------------------------------------------------------------

  /** A sector is looked up in the current chunk first, and then in the one with the highest number of
      those that serve it. */
  lemma {:induction false} LookupIs(s: State, sector: int, i: int)
    requires s.readAhead && 0 <= s.current < |s.chunk|
    ensures Lookup(s, sector, 1) == i >= 0 <==>
            && 0 <= i < |s.chunk| && Serves(s.chunk[i], sector, 1)
            && (Serves(s.chunk[s.current], sector, 1) ==> i == s.current)
            && (i == s.current || forall k :: i < k < |s.chunk| ==> !Serves(s.chunk[k], sector, 1))
            && (i == s.current ==> Serves(s.chunk[s.current], sector, 1))
  {
    hide Serves;
    LastIs(s.chunk, sector, |s.chunk|);
  }

  /** Without read-ahead there are no hits, and pre-caching does nothing. */
  lemma OffMisses(s: State, sector: int, count: nat, address: int)
    requires !s.readAhead
    ensures Lookup(s, sector, 1) == -1 && PreCache(s, sector, count, address) == s
  {
  }

  lemma {:induction false} LastIs(chunk: seq<Chunk>, sector: int, n: nat)
    requires n <= |chunk|
    ensures forall k :: LastServing(chunk, sector, 1, n) < k < n ==> !Serves(chunk[k], sector, 1)
  {
    hide Serves;
    if n > 0 && !Serves(chunk[n - 1], sector, 1) {
      LastIs(chunk, sector, n - 1);
    }
  }

  /** Pre-caching uses a chunk that is not in use and large enough, if there is one; else it enlarges
      one that is not in use; else it fills an empty one; and it fails if all are in use. */
  lemma ChooseIs(chunk: seq<Chunk>, count: nat)
    ensures Choose(chunk, count).Fits? <==> exists i :: 0 <= i < |chunk| && Fitting(chunk[i], count)
    ensures Choose(chunk, count).Realloc? <==>
            && (forall i :: 0 <= i < |chunk| ==> !Fitting(chunk[i], count))
            && exists i :: 0 <= i < |chunk| && Idle(chunk[i])
    ensures Choose(chunk, count).Malloc? <==>
            && (forall i :: 0 <= i < |chunk| ==> !Idle(chunk[i]))
            && exists i :: 0 <= i < |chunk| && chunk[i].buffer.None?
    ensures Choose(chunk, count).Impossible? <==>
            forall i :: 0 <= i < |chunk| ==> chunk[i].buffer.Some? && !Idle(chunk[i])
  {
    hide Fitting, Idle;
    BestFitIsBest(chunk, count, |chunk|);
    LargestIsLargest(chunk, |chunk|);
    EmptyIsFirst(chunk, 0);
    FittingIsIdle(chunk, count);
  }

  /** Pre-caching makes the chunk chosen the current one, for the sectors announced, with room for them
      and none read yet; a first buffer has 500 blocks or more. The other chunks stay as they are. */
  lemma PreCachedIs(s: State, sector: int, count: nat, address: int, i: nat)
    requires s.readAhead && Choose(s.chunk, count) in {Fits(i), Realloc(i), Malloc(i)}
    ensures i < |s.chunk|
    ensures var t := PreCache(s, sector, count, address);
            && |t.chunk| == |s.chunk| && t.current == i
            && t.chunk[i].valid && t.chunk[i].start == sector && t.chunk[i].blockCount == count
            && t.chunk[i].readCount == 0 && t.chunk[i].buffer.Some? && t.chunk[i].mallocSize >= count
            && (s.chunk[i].buffer.None? ==> t.chunk[i].mallocSize >= 500)
            && (forall k :: 0 <= k < |s.chunk| && k != i ==> t.chunk[k] == s.chunk[k])
            && (forall a :: a in t.mem ==> a in s.mem && t.mem[a] == s.mem[a])
            && (s.chunk[i].buffer.Some? && s.chunk[i].mallocSize >= count ==> t.mem == s.mem)
  {
    BestFitIsBest(s.chunk, count, |s.chunk|);
  }

  lemma FittingIsIdle(chunk: seq<Chunk>, count: nat)
    ensures forall i :: 0 <= i < |chunk| && Fitting(chunk[i], count) ==> Idle(chunk[i])
  {
  }

  lemma {:induction false} EmptyIsFirst(chunk: seq<Chunk>, i: nat)
    requires i <= |chunk|
    ensures var e := FirstEmpty(chunk, i);
            && (e < 0 ==> forall k :: i <= k < |chunk| ==> chunk[k].buffer.Some?)
            && (e >= 0 ==> i <= e && forall k :: i <= k < e ==> chunk[k].buffer.Some?)
    decreases |chunk| - i
  {
    if i < |chunk| && chunk[i].buffer.Some? {
      EmptyIsFirst(chunk, i + 1);
    }
  }
}
