/** The position within a chain or program, in sectors: dvdnav_get_position of searching.c. */
module Positions {
  import opened Times
  import opened PlayerModel
  import opened Searching
  import opened TimeSearch
  import Play = LinearPlay
  import PlayerRuns
  import PathPlay

  /** The sectors of cells number lo + 1 to n. */
  function Length(cells: seq<Cell>, lo: nat, n: nat): int
    requires lo <= n <= |cells|
    decreases n - lo
  {
    if n == lo then 0 else Length(cells, lo, n - 1) + cells[n - 1].last - cells[n - 1].first + 1
  }

  /** The four fields by which the player sees that it has not caught up with the virtual machine. */
  predicate InStep(cur: Position, next: Position) {
    cur.hop == next.hop && cur.domain == next.domain && cur.vts == next.vts && cur.restart == next.restart
  }

  /** How far into the span a sector of cell number nr lies. */
  function Offset(cells: seq<Cell>, span: Span, nr: int, sector: int): int
    requires span.lo < nr <= span.hi <= |cells|
  {
    Length(cells, span.lo, nr - 1) + sector - cells[nr - 1].first
  }

  function Wrap(x: int): U32 {
    x % 0x1_0000_0000
  }

  lemma WrapAdds(x: int, y: int)
    ensures Wrap(Wrap(x) + y) == Wrap(x + y)
  {
    var q := x / 0x1_0000_0000;
    Turns(x + y, q);
  }

  lemma Turns(x: int, q: int)
    ensures Wrap(x - q * 0x1_0000_0000) == Wrap(x)
  {
  }

  /** Position and length; or the error status; or the failure of the assertion at the end. */
  datatype Reply = At(pos: U32, len: U32) | Error | Aborted

  /** The reply for a sector of cell number nr, in 32 bits. Outside the span the position is left at
      2^32 - 1, which the assertion takes for no position, also where it is one. */
  function PositionIn(cells: seq<Cell>, span: Span, nr: int, sector: int): Reply
    requires span.lo <= |cells| && span.hi <= |cells|
  {
    var len := Wrap(if span.lo <= span.hi then Length(cells, span.lo, span.hi) else 0);
    var pos := if span.lo < nr <= span.hi then Wrap(Offset(cells, span, nr, sector)) else 0xffff_ffff;
    if pos == 0xffff_ffff then Aborted else At(pos, len)
  }

  /** What dvdnav_get_position replies, with the virtual machine at `next`. */
  function ReplyFor(p: Player, pgc: Option<Chain>, stopped: bool, next: Position, pgcBased: bool, program: nat): Reply
    requires pgc.Some? ==> GoodMap(pgc.value) && (!pgcBased ==> 0 < program <= |pgc.value.programMap|)
  {
    if !p.started || pgc.None? || stopped || !InStep(p.cur, next) then Error
    else PositionIn(pgc.value.cells, Spanned(pgc.value, pgcBased, program), next.cell, p.vobu.start + p.vobu.blockN)
  }

  /** dvdnav_get_position, with the cell that the virtual machine is in. */
  method GetPosition(p: Player, pgc: Option<Chain>, stopped: bool, next: Position, pgcBased: bool, program: nat)
    returns (r: Reply)
    requires pgc.Some? ==> GoodMap(pgc.value) && (!pgcBased ==> 0 < program <= |pgc.value.programMap|)
    ensures r == ReplyFor(p, pgc, stopped, next, pgcBased, program)
    ensures r.Error? <==>
            || !p.started || pgc.None? || stopped || p.cur.hop != next.hop || p.cur.domain != next.domain
            || p.cur.vts != next.vts || p.cur.restart != next.restart
  {
    hide Wrap;
    if !p.started || pgc.None? || stopped || !InStep(p.cur, next) {
      return Reply.Error;
    }
    var sector := Wrap(p.vobu.start + p.vobu.blockN);
    var cells, span := pgc.value.cells, Spanned(pgc.value, pgcBased, program);
    var pos: U32, len: U32 := 0xffff_ffff, Wrap(0);
    var nr := span.lo + 1;
    while nr <= span.hi
      invariant span.lo < nr && (nr <= span.hi + 1 || nr == span.lo + 1)
      invariant nr <= span.hi + 1 ==> len == Wrap(Length(cells, span.lo, nr - 1))
      invariant nr > span.hi + 1 ==> len == Wrap(0)
      invariant pos == if span.lo < next.cell < nr && next.cell <= span.hi
                       then Wrap(Offset(cells, span, next.cell, p.vobu.start + p.vobu.blockN))
                       else 0xffff_ffff
    {
      var cell := cells[nr - 1];
      WrapAdds(Length(cells, span.lo, nr - 1), sector - cell.first);
      WrapAdds(p.vobu.start + p.vobu.blockN, Length(cells, span.lo, nr - 1) - cell.first);
      WrapAdds(Length(cells, span.lo, nr - 1), cell.last - cell.first + 1);
      if nr == next.cell {
        pos := Wrap(len + (sector - cell.first));
      }
      len := Wrap(len + (cell.last - cell.first + 1));
      nr := nr + 1;
    }
    r := if pos == 0xffff_ffff then Aborted else At(pos, len);
  }

  // ----- linear playback --------------------------------------------------------------------

  /** The playback cells are the tiled cells of the chain. */
  predicate Same(cells: seq<Cell>, tiled: seq<Play.Cell>) {
    |cells| == |tiled| && forall i :: 0 <= i < |cells| ==>
      cells[i].first == tiled[i].first && cells[i].last == tiled[i].first + Play.CellSize(tiled[i]) - 1
  }

  lemma {:induction false} LengthIsSectors(cells: seq<Cell>, tiled: seq<Play.Cell>, n: nat)
    requires Same(cells, tiled) && n <= |cells|
    ensures Length(cells, 0, n) == |Play.ChainSectors(tiled, n)|
  {
    if n > 0 {
      LengthIsSectors(cells, tiled, n - 1);
    }
  }

  lemma {:induction false} SectorsGrow(tiled: seq<Play.Cell>, m: nat, n: nat)
    requires m <= n <= |tiled|
    ensures |Play.ChainSectors(tiled, m)| <= |Play.ChainSectors(tiled, n)|
  {
    if m < n {
      SectorsGrow(tiled, m, n - 1);
    }
  }

  /** The sectors of the cells from lo on, up to n. */
  lemma {:induction false} LengthSplits(cells: seq<Cell>, tiled: seq<Play.Cell>, lo: nat, n: nat)
    requires Same(cells, tiled) && lo <= n <= |cells|
    ensures Length(cells, lo, n) == |Play.ChainSectors(tiled, n)| - |Play.ChainSectors(tiled, lo)|
    decreases n - lo
  {
    if lo < n {
      LengthSplits(cells, tiled, lo, n - 1);
    }
  }

  /** The sector number k of cell number n + 1 is, by the cells from lo on, as far into them as the
      sectors before it are many. */
  lemma {:induction false} OffsetCounts(cells: seq<Cell>, tiled: seq<Play.Cell>, lo: nat, hi: nat, n: nat, k: nat)
    requires Same(cells, tiled) && lo <= n < hi <= |cells| && 0 < k <= Play.CellSize(tiled[n])
    ensures Length(cells, lo, hi) == |Play.ChainSectors(tiled, hi)| - |Play.ChainSectors(tiled, lo)|
    ensures var offset := Offset(cells, Span(lo, hi), n + 1, cells[n].first + k - 1);
            && offset == |Play.ChainSectors(tiled, n)| - |Play.ChainSectors(tiled, lo)| + k - 1
            && 0 <= offset < Length(cells, lo, hi)
  {
    LengthSplits(cells, tiled, lo, n);
    LengthSplits(cells, tiled, lo, hi);
    SectorsGrow(tiled, n + 1, hi);
    SectorsGrow(tiled, lo, n);
  }

  lemma {:induction false} PositionFits(cells: seq<Cell>, span: Span, n: nat, sector: int, total: int)
    requires span.lo <= n < span.hi <= |cells|
    requires 0 <= Offset(cells, span, n + 1, sector) < Length(cells, span.lo, span.hi) == total
    ensures total < 0x1_0000_0000 ==>
              PositionIn(cells, span, n + 1, sector) == At(Offset(cells, span, n + 1, sector), total)
  {
    hide Length, Offset;
  }

  /** In a chain played linearly from its first sector, with k sectors of the cell with index n
      delivered: the sectors from the cell with index lo on, the cells up to number hi, and the reply
      for the span of these cells. */
  lemma {:induction false} SpanCountsSectors(disc: Disc, p: Player, rows: seq<seq<Env>>, envs: seq<Env>,
                                             places: seq<Position>, file: File, tiled: seq<Play.Cell>,
                                             cells: seq<Cell>, lo: nat, hi: nat, n: nat, k: nat)
    requires lo <= n < hi <= |tiled| && Same(cells, tiled) && p.file == Some(file)
    requires Play.Route(tiled, places)
    requires forall i :: 0 <= i < |tiled| ==> Play.GoodCell(disc, file, tiled[i])
    requires Play.ChainAnswers(disc, file, tiled, places, rows) && PathPlay.Arriving(p, places[0])
    requires Play.Answers(disc, file, tiled[n], places[n], envs)
    requires 0 < k <= Play.CellSize(tiled[n]) && |envs| == 1 + PathPlay.ReportCalls(places[n]) + k
    ensures var calls := Play.Flatten(rows, n) + envs;
            var q, delivered := PlayerRuns.Left(disc, p, calls), PathPlay.Sectors(disc, p, calls);
            var before := |Play.ChainSectors(tiled, lo)|;
            var total := |Play.ChainSectors(tiled, hi)| - before;
            && q.started && InStep(q.cur, places[n])
            && delivered == Play.ChainSectors(tiled, n) + PathPlay.Range(tiled[n].first, k)
            && 0 <= |delivered| - before - 1 < total && Length(cells, lo, hi) == total
            && Offset(cells, Span(lo, hi), n + 1, q.vobu.start + q.vobu.blockN) == |delivered| - before - 1
            && (total < 0x1_0000_0000 ==>
                  PositionIn(cells, Span(lo, hi), n + 1, q.vobu.start + q.vobu.blockN)
                  == At(|delivered| - before - 1, total))
  {
    hide Play.GoodCell, Play.Answers, PathPlay.Arriving, Play.Route, Play.ChainAnswers, PathPlay.Sectors, Play.Flatten,
      Play.ChainSectors, Play.CellSize, PathPlay.ReportCalls, PlayerRuns.Left, PositionIn, Offset, Length,
      PathPlay.Range;
    Play.ChainPlaysTo(disc, p, rows, envs, places, file, tiled, n, k);
    OffsetCounts(cells, tiled, lo, hi, n, k);
    PositionFits(cells, Span(lo, hi), n, cells[n].first + k - 1,
                 |Play.ChainSectors(tiled, hi)| - |Play.ChainSectors(tiled, lo)|);
  }

  /** In chain mode dvdnav_get_position then replies with one less than the number of sectors delivered
      so far, below the length, which is the number of sectors of the whole chain, if that fits in 32
      bits. */
  lemma {:induction false} PositionCountsSectors(disc: Disc, p: Player, rows: seq<seq<Env>>, envs: seq<Env>,
                                                 places: seq<Position>, file: File, tiled: seq<Play.Cell>,
                                                 chain: Chain, program: nat, n: nat, k: nat)
    requires n < |tiled| && GoodMap(chain) && Same(chain.cells, tiled) && p.file == Some(file)
    requires Play.Route(tiled, places) && places[n].cell == n + 1
    requires forall i :: 0 <= i < |tiled| ==> Play.GoodCell(disc, file, tiled[i])
    requires Play.ChainAnswers(disc, file, tiled, places, rows) && PathPlay.Arriving(p, places[0])
    requires Play.Answers(disc, file, tiled[n], places[n], envs)
    requires 0 < k <= Play.CellSize(tiled[n]) && |envs| == 1 + PathPlay.ReportCalls(places[n]) + k
    ensures var calls := Play.Flatten(rows, n) + envs;
            var q, delivered := PlayerRuns.Left(disc, p, calls), PathPlay.Sectors(disc, p, calls);
            var total := |Play.ChainSectors(tiled, |tiled|)|;
            && delivered == Play.ChainSectors(tiled, n) + PathPlay.Range(tiled[n].first, k) && |delivered| <= total
            && (total < 0x1_0000_0000 ==>
                  ReplyFor(q, Some(chain), false, places[n], true, program) == At(|delivered| - 1, total))
  {
    hide Play.GoodCell, Play.Answers, PathPlay.Arriving, Play.Route, Play.ChainAnswers, PathPlay.Sectors, Play.Flatten,
      Play.CellSize, PathPlay.ReportCalls, PlayerRuns.Left, PositionIn, Offset, Length, PathPlay.Range;
    SpanCountsSectors(disc, p, rows, envs, places, file, tiled, chain.cells, 0, |tiled|, n, k);
  }

  /** In program mode, in a cell of the program, it replies with one less than the number of sectors of
      that program delivered so far, below the length, which is the number of its sectors: those from
      its first cell up to the first cell of the next program, or to the end of the chain. */
  lemma {:induction false} PositionInProgram(disc: Disc, p: Player, rows: seq<seq<Env>>, envs: seq<Env>,
                                             places: seq<Position>, file: File, tiled: seq<Play.Cell>,
                                             chain: Chain, program: nat, n: nat, k: nat)
    requires n < |tiled| && IncreasingMap(chain) && Same(chain.cells, tiled) && p.file == Some(file)
    requires InProgram(chain, program, n + 1)
    requires Play.Route(tiled, places) && places[n].cell == n + 1
    requires forall i :: 0 <= i < |tiled| ==> Play.GoodCell(disc, file, tiled[i])
    requires Play.ChainAnswers(disc, file, tiled, places, rows) && PathPlay.Arriving(p, places[0])
    requires Play.Answers(disc, file, tiled[n], places[n], envs)
    requires 0 < k <= Play.CellSize(tiled[n]) && |envs| == 1 + PathPlay.ReportCalls(places[n]) + k
    ensures var calls := Play.Flatten(rows, n) + envs;
            var q, delivered := PlayerRuns.Left(disc, p, calls), PathPlay.Sectors(disc, p, calls);
            var before := |Play.ChainSectors(tiled, FirstOf(chain, program) - 1)|;
            var total := |Play.ChainSectors(tiled, FirstOf(chain, program + 1) - 1)| - before;
            && before < |delivered| <= before + total
            && (total < 0x1_0000_0000 ==>
                  ReplyFor(q, Some(chain), false, places[n], false, program) == At(|delivered| - before - 1, total))
  {
    hide Play.GoodCell, Play.Answers, PathPlay.Arriving, Play.Route, Play.ChainAnswers, PathPlay.Sectors, Play.Flatten,
      Play.ChainSectors, Play.CellSize, PathPlay.ReportCalls, PlayerRuns.Left, PositionIn, Offset, Length,
      PathPlay.Range;
    SpanIsProgram(chain, program, n + 1);
    SpanCountsSectors(disc, p, rows, envs, places, file, tiled, chain.cells,
                      FirstOf(chain, program) - 1, FirstOf(chain, program + 1) - 1, n, k);
  }

  /** The first cell of a program; after the last one, the end of the chain. */
  function FirstOf(c: Chain, program: nat): (n: nat)
    requires GoodMap(c) && 0 < program <= |c.programMap| + 1
    ensures 0 < n <= |c.cells| + 1
  {
    if program <= |c.programMap| then c.programMap[program - 1] else |c.cells| + 1
  }

  /** The lengths of the first m programs. */
  function Lengths(c: Chain, m: nat): int
    requires IncreasingMap(c) && m <= |c.programMap|
  {
    if m == 0 then 0
    else Lengths(c, m - 1) + Length(c.cells, Spanned(c, false, m).lo, SpanEnd(c, m))
  }

  function SpanEnd(c: Chain, m: nat): (n: nat)
    requires IncreasingMap(c) && 0 < m <= |c.programMap|
    ensures Spanned(c, false, m).lo <= n <= |c.cells|
  {
    Spanned(c, false, m).hi
  }

  lemma {:induction false} LengthsJoin(cells: seq<Cell>, lo: nat, m: nat, n: nat)
    requires lo <= m <= n <= |cells|
    ensures Length(cells, lo, n) == Length(cells, lo, m) + Length(cells, m, n)
    decreases n
  {
    if m < n {
      LengthsJoin(cells, lo, m, n - 1);
    }
  }

  /** The lengths of the programs, as replied in program mode, add up to that of the chain. */
  lemma {:induction false} ProgramsAddUp(c: Chain, m: nat)
    requires IncreasingMap(c) && m <= |c.programMap|
    ensures Lengths(c, m) == Length(c.cells, 0, FirstOf(c, m + 1) - 1)
    ensures m == |c.programMap| ==> Lengths(c, m) == Length(c.cells, 0, |c.cells|)
  {
    hide Length;
    if m > 0 {
      ProgramsAddUp(c, m - 1);
      LengthsJoin(c.cells, 0, FirstOf(c, m) - 1, FirstOf(c, m + 1) - 1);
    } else {
      NoLength(c.cells);
    }
  }

  lemma {:induction false} NoLength(cells: seq<Cell>)
    ensures Length(cells, 0, 0) == 0
  {
  }
}
