/** read_cache.c in the form it has: ten chunks updated in place. */
module ReadCache {
  import opened CacheModel

  class Cache {
    const disc: Disc
    const chunk: array<Chunk>
    var current: int
    var freeing: bool
    var size: int       // read_ahead_size
    var incr: int       // read_ahead_incr
    var last: int       // last_sector

    // What the cache uses of the handle and of the system.
    var readAhead: bool
    var file: Option<FileId>
    var mem: map<int, Block>
    var frees: nat

    ghost function Now(): State
      reads this, chunk
    {
      State(chunk[..], current, freeing, size, incr, last, readAhead, file, mem, frees)
    }

    /** dvdnav_read_cache_new; raw is what malloc returned. */
    constructor (disc: Disc, raw: seq<Chunk>, readAhead: bool, file: Option<FileId>, mem: map<int, Block>)
      requires |raw| == CHUNKS
      ensures chunk.Length == CHUNKS && fresh(chunk) && this.disc == disc
      ensures Now() == New(raw, readAhead, file, mem)
    {
      this.disc := disc;
      chunk := new Chunk[CHUNKS](i requires 0 <= i < CHUNKS => raw[i]);
      current, freeing, last := 0, false, 0;
      size, incr := READ_AHEAD_SIZE_MIN, 0;
      this.readAhead, this.file, this.mem, frees := readAhead, file, mem, 0;
      new;
      CacheClear();
      for i := 0 to CHUNKS
        invariant forall k :: 0 <= k < i ==> chunk[k] == raw[k].(valid := false, buffer := None, usage := 0)
        invariant forall k :: i <= k < CHUNKS ==> chunk[k] == raw[k].(valid := false)
        invariant Now() == State(chunk[..], 0, false, READ_AHEAD_SIZE_MIN, 0, 0, readAhead, file, mem, 0)
      {
        chunk[i] := chunk[i].(buffer := None, usage := 0);
      }
    }

    /** dvdnav_read_cache_clear. */
    method CacheClear()
      modifies chunk
      ensures Now() == Clear(old(Now()))
    {
      for i := 0 to chunk.Length
        invariant forall k :: 0 <= k < i ==> chunk[k] == old(chunk[k]).(valid := false)
        invariant forall k :: i <= k < chunk.Length ==> chunk[k] == old(chunk[k])
      {
        chunk[i] := chunk[i].(valid := false);
      }
    }

    /** dvdnav_read_cache_free. */
    method CacheFree()
      modifies this`freeing, this`frees, this`mem, chunk
      ensures Now() == Free(old(Now()))
    {
      freeing := true;
      mem := FreedMemory(mem, chunk[..]);
      for i := 0 to chunk.Length
        invariant Now() == old(Now()).(chunk := chunk[..], freeing := true,
                                       mem := FreedMemory(old(mem), old(chunk[..])))
        invariant forall k :: 0 <= k < i ==> chunk[k] == Freed(old(chunk[k]))
        invariant forall k :: i <= k < chunk.Length ==> chunk[k] == old(chunk[k])
      {
        if chunk[i].buffer.Some? && chunk[i].usage == 0 {
          chunk[i] := chunk[i].(buffer := None);
        }
      }
      assert chunk[..] == Free(old(Now())).chunk;
      for i := 0 to chunk.Length
        invariant forall k :: 0 <= k < i ==> chunk[k].buffer.None?
      {
        if chunk[i].buffer.Some? {
          assert Free(old(Now())).chunk[i].buffer.Some?;
          return;
        }
      }
      frees := frees + 1;
    }

    /** dvdnav_free_cache_block. */
    method FreeCacheBlock(buf: int)
      modifies this`freeing, this`frees, this`mem, chunk
      ensures Now() == Return(old(Now()), buf)
    {
      for i := 0 to chunk.Length
        invariant Now() == old(Now()).(chunk := chunk[..])
        invariant forall k :: 0 <= k < i ==> chunk[k] == Returned(old(chunk[k]), buf)
        invariant forall k :: i <= k < chunk.Length ==> chunk[k] == old(chunk[k])
      {
        if chunk[i].buffer.Some? && buf >= chunk[i].buffer.value && buf < chunk[i].buffer.value + chunk[i].mallocSize {
          chunk[i] := chunk[i].(usage := chunk[i].usage - 1);
        }
      }
      assert chunk[..] == ReturnedAll(old(chunk[..]), buf);
      if freeing {
        CacheFree();
      }
    }

    /** The two searches of dvdnav_pre_cache_blocks among the chunks not in use. */
    method FindBestFit(blockCount: nat) returns (use: int)
      ensures use == BestFit(chunk[..], blockCount, chunk.Length)
    {
      use := -1;
      for i := 0 to chunk.Length
        invariant -1 <= use < i && use == BestFit(chunk[..], blockCount, i)
      {
        if chunk[i].usage == 0 && chunk[i].buffer.Some? && chunk[i].mallocSize >= blockCount
           && (use == -1 || chunk[use].mallocSize > chunk[i].mallocSize) {
          use := i;
        }
      }
    }

    method FindLargest() returns (use: int)
      ensures use == Largest(chunk[..], chunk.Length)
    {
      use := -1;
      for i := 0 to chunk.Length
        invariant -1 <= use < i && use == Largest(chunk[..], i)
      {
        if chunk[i].usage == 0 && chunk[i].buffer.Some?
           && (use == -1 || chunk[use].mallocSize < chunk[i].mallocSize) {
          use := i;
        }
      }
    }

    method FindEmpty() returns (use: int)
      ensures use == FirstEmpty(chunk[..], 0)
    {
      use := -1;
      var i := 0;
      while i < chunk.Length
        invariant 0 <= i <= chunk.Length && FirstEmpty(chunk[..], 0) == FirstEmpty(chunk[..], i)
      {
        if chunk[i].buffer.None? {
          return i;
        }
        i := i + 1;
      }
    }

    /** dvdnav_pre_cache_blocks; address is where realloc or malloc puts the buffer. */
    method PreCacheBlocks(sector: int, blockCount: nat, address: int)
      modifies this`current, this`mem, chunk
      ensures Now() == PreCache(old(Now()), sector, blockCount, address)
    {
      if !readAhead {
        return;
      }
      var use := FindBestFit(blockCount);
      if use == -1 {
        use := FindLargest();
        if use >= 0 {
          var c := chunk[use];
          mem := Erase(Erase(mem, c.buffer.value, c.mallocSize), address, blockCount);
          chunk[use] := c.(buffer := Some(address), mallocSize := blockCount);
        } else {
          use := FindEmpty();
          if use >= 0 {
            var first := if blockCount > 500 then blockCount else 500;
            mem := Erase(mem, address, first);
            chunk[use] := chunk[use].(buffer := Some(address), mallocSize := first);
          }
        }
      }
      if use >= 0 {
        chunk[use] := chunk[use].(start := sector, blockCount := blockCount, readCount := 0, valid := true);
        current := use;
      }
    }

    /** DVDReadBlocks into memory. */
    method DVDReadBlocks(offset: int, count: int, to: int, answer: int) returns (n: int)
      modifies this`mem
      ensures n == Answer(file, answer, count)
      ensures mem == if file.None? then old(mem) else ReadBlocks(disc, old(mem), file.value, offset, n, to)
    {
      n := if file.None? || answer < 0 then -1 else if answer > count then count else answer;
      if file.Some? {
        mem := ReadBlocks(disc, mem, file.value, offset, n, to);
      }
    }

    /** The search of dvdnav_read_cache_block. */
    method FindServing(sector: int, blockCount: nat) returns (use: int)
      ensures use == Lookup(Now(), sector, blockCount)
    {
      use := -1;
      if readAhead {
        if 0 <= current < chunk.Length && Serves(chunk[current], sector, blockCount) {
          use := current;
        } else {
          for i := 0 to chunk.Length
            invariant use == LastServing(chunk[..], sector, blockCount, i)
          {
            if Serves(chunk[i], sector, blockCount) {
              use := i;
            }
          }
        }
      }
    }

    /** The first part of a hit: the read-ahead grows while sectors are read in sequence. */
    method KeepPace(sector: int)
      modifies this`size, this`incr, this`last
      ensures (size, incr) == Pace(old(Now()), sector) && last == sector
    {
      if sector == last + 1 {
        if incr < READ_AHEAD_SIZE_MAX {
          incr := incr + 1;
        }
      } else {
        size := READ_AHEAD_SIZE_MIN;
        incr := 0;
      }
      last := sector;
      var half := incr / 2;
      if size + half > READ_AHEAD_SIZE_MAX {
        size := READ_AHEAD_SIZE_MAX;
      } else {
        size := size + half;
      }
    }

    /** The second part of a hit: read ahead into the chunk. */
    method ReadOn(use: nat, sector: int, answer: int)
      requires use < chunk.Length && chunk[use].buffer.Some?
      modifies this`mem, chunk
      ensures var c, s := old(chunk[use]), old(Now());
              var n := if RealSize(c, sector, size) == 0 then 0 else Answer(file, answer, RealSize(c, sector, size));
              && chunk[..] == s.chunk[use := c.(readCount := c.readCount + n)]
              && mem == if file.None? then s.mem
                        else ReadBlocks(disc, s.mem, file.value, c.start + c.readCount, n, c.buffer.value + c.readCount)
    {
      var c := chunk[use];
      var realSize := c.blockCount - c.readCount;
      if c.readCount + size <= c.blockCount {
        realSize := size;
        // At least as far as the sector asked for.
        if sector >= c.start + c.readCount + realSize {
          realSize := sector - c.start - c.readCount;
        }
      }
      if realSize != 0 {
        var n := DVDReadBlocks(c.start + c.readCount, realSize, c.buffer.value + c.readCount, answer);
        chunk[use] := c.(readCount := c.readCount + n);
      }
    }

    /** dvdnav_read_cache_block, with buf for *buf on entry and at for *buf on return. */
    method ReadCacheBlock(sector: int, blockCount: nat, buf: int, answer: int) returns (res: int, at: int)
      requires Backed(chunk[..])
      modifies this`size, this`incr, this`last, this`mem, chunk
      ensures (Now(), Got(res, at)) == Read(disc, old(Now()), sector, blockCount, buf, answer)
    {
      hide Pace, RealSize, Answer, ReadBlocks;
      var use := FindServing(sector, blockCount);
      if use >= 0 {
        KeepPace(sector);
        var c := chunk[use];
        at := c.buffer.value + (sector - c.start);
        chunk[use] := c.(usage := c.usage + 1);
        SameSize(c, c.(usage := c.usage + 1), sector, size);
        ReadOn(use, sector, answer);
        assert chunk[..] == old(chunk[..])[use := chunk[use]];
        res := LB_LEN * blockCount;
      } else {
        var n := DVDReadBlocks(sector, blockCount, buf, answer);
        res, at := n * LB_LEN, buf;
      }
    }
  }

  /** The size of a read does not depend on the usage count. */
  lemma SameSize(c: Chunk, d: Chunk, sector: int, ahead: int)
    requires d == c.(usage := d.usage)
    ensures RealSize(c, sector, ahead) == RealSize(d, sector, ahead)
  {
  }
}
