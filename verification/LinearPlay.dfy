/** Linear playback: on cells tiled by well-formed VOBUs every sector is delivered, once, in order. */
module LinearPlay {
  import opened PlayerModel
  import opened PlayerRuns
  import opened PathPlay

  // ----- the disc ---------------------------------------------------------------------------

  /** No angle of the current title redirects this NAV packet: it has no address for it, or a
      non-seamless one that is zero but for its two flags. */
  predicate NoAngle(nav: Nav, env: Env) {
    || env.angles == 0
    || (if 0 < env.angle <= |nav.nonSeamless| && nav.nonSeamless[env.angle - 1] != 0
        then nav.nonSeamless[env.angle - 1] % 0x4000_0000 == 0
        else !(0 < env.angle <= |nav.seamless|) || nav.seamless[env.angle - 1] == 0)
  }

  /** The NAV packet of a VOBU at s with `length` sectors after it, the last of its cell or not. The
      two flags above the address of the next VOBU may be set or not. */
  predicate WellFormed(nav: Nav, s: int, length: nat, last: bool) {
    nav.lbn == s && nav.end == length && nav.next % 0x4000_0000 == if last then END_OF_CELL else length + 1
  }

  /** From sector s on, the file holds VOBUs of the given lengths, and then the cell ends. */
  ghost predicate Tiled(disc: Disc, file: File, s: nat, lengths: seq<nat>)
    decreases |lengths|
  {
    |lengths| > 0 ==>
      && lengths[0] + 1 < END_OF_CELL
      && disc(file, s).NavPack? && WellFormed(disc(file, s).nav, s, lengths[0], |lengths| == 1)
      && (forall k :: s < k <= s + lengths[0] ==> !disc(file, k).Unreadable?)
      && Tiled(disc, file, s + lengths[0] + 1, lengths[1..])
  }

  function Size(lengths: seq<nat>): nat {
    if |lengths| == 0 then 0 else lengths[0] + 1 + Size(lengths[1..])
  }

  /** The angles of the current title redirect none of the NAV packets. */
  ghost predicate Straight(disc: Disc, file: File, s: nat, lengths: seq<nat>, env: Env)
    decreases |lengths|
  {
    |lengths| > 0 ==>
      && (disc(file, s).NavPack? ==> NoAngle(disc(file, s).nav, env))
      && Straight(disc, file, s + lengths[0] + 1, lengths[1..], env)
  }

  /** No NAV packet shows a menu. */
  ghost predicate Calm(disc: Disc, file: File, s: nat, lengths: seq<nat>)
    decreases |lengths|
  {
    |lengths| > 0 ==>
      && (disc(file, s).NavPack? ==> !disc(file, s).nav.menu)
      && Calm(disc, file, s + lengths[0] + 1, lengths[1..])
  }

  // ----- a path -----------------------------------------------------------------------------

  function UnitsOf(s: nat, lengths: seq<nat>): (units: seq<Unit>)
    ensures |units| == |lengths| && (|lengths| > 0 ==> units[0] == Unit(s, lengths[0]))
    decreases |lengths|
  {
    if |lengths| == 0 then [] else [Unit(s, lengths[0])] + UnitsOf(s + lengths[0] + 1, lengths[1..])
  }

  lemma {:induction false} TiledIsPath(disc: Disc, file: File, s: nat, lengths: seq<nat>, env: Env)
    requires Tiled(disc, file, s, lengths) && Straight(disc, file, s, lengths, env)
    ensures Path(disc, file, env, UnitsOf(s, lengths))
    decreases |lengths|
  {
    if |lengths| > 0 {
      TiledIsPath(disc, file, s + lengths[0] + 1, lengths[1..], env);
      assert UnitsOf(s, lengths)[1..] == UnitsOf(s + lengths[0] + 1, lengths[1..]);
    }
  }

  lemma {:induction false} CalmTiles(disc: Disc, file: File, s: nat, lengths: seq<nat>)
    requires Calm(disc, file, s, lengths)
    ensures CalmPath(disc, file, UnitsOf(s, lengths))
    decreases |lengths|
  {
    if |lengths| > 0 {
      CalmTiles(disc, file, s + lengths[0] + 1, lengths[1..]);
      assert UnitsOf(s, lengths)[1..] == UnitsOf(s + lengths[0] + 1, lengths[1..]);
    }
  }

  lemma {:induction false} TiledSectors(s: nat, lengths: seq<nat>)
    ensures PathSectors(UnitsOf(s, lengths)) == Range(s, Size(lengths))
    decreases |lengths|
  {
    if |lengths| > 0 {
      TiledSectors(s + lengths[0] + 1, lengths[1..]);
      assert UnitsOf(s, lengths)[1..] == UnitsOf(s + lengths[0] + 1, lengths[1..]);
    }
  }

  /** On a tiled cell, as many calls as it has sectors deliver all of them, once each and in
      increasing order, and bring playback to the end of the cell; fewer deliver a first part. */
  lemma {:induction false} CellPlaysThrough(disc: Disc, p: Player, envs: seq<Env>, pos: Position, file: File, s: nat,
                                            lengths: seq<nat>)
    requires Playing(p, pos) && p.file == Some(file) && AtStart(p, s)
    requires |lengths| > 0 && Tiled(disc, file, s, lengths)
    requires forall i :: 0 <= i < |envs| ==> Steady(envs[i], pos) && Straight(disc, file, s, lengths, envs[i])
    requires 0 < |envs| <= Size(lengths)
    ensures var q := Left(disc, p, envs);
            && Playing(q, pos) && q.file == p.file && (Calm(disc, file, s, lengths) ==> !q.menu)
            && AllDelivered(Results(disc, p, envs)) == Range(s, |envs|)
            && q.vobu.start + q.vobu.blockN == s + |envs| - 1
            && (|envs| == Size(lengths) ==> AtCellEnd(q, pos))
  {
    hide Call, Playing, Steady, AtCellEnd, Tiled, Straight, Calm, Path, CalmPath, PathSectors, Left, Results;
    var units := UnitsOf(s, lengths);
    TiledSectors(s, lengths);
    forall i | 0 <= i < |envs|
      ensures Path(disc, file, envs[i], units)
    {
      TiledIsPath(disc, file, s, lengths, envs[i]);
    }
    PathPlaysThrough(disc, p, envs, pos, file, units);
    if Calm(disc, file, s, lengths) {
      CalmTiles(disc, file, s, lengths);
    }
  }

  // ----- a chain of cells -------------------------------------------------------------------

  datatype Cell = Cell(first: nat, lengths: seq<nat>)

  function CellSize(c: Cell): nat {
    Size(c.lengths)
  }

  /** The virtual machine goes from a to b, another place of the same file, without a hop. */
  predicate MovesOn(a: Position, b: Position) {
    && a.hop == b.hop && a.button == b.button && a.vts == b.vts && a.domain == b.domain
    && (a.cell != b.cell || a.restart != b.restart || a.start != b.start)
  }

  /** Where the virtual machine is while each of the cells plays. The cell's number, its restart
      count and the streams are whatever the machine makes them. */
  predicate Route(cells: seq<Cell>, places: seq<Position>) {
    && |places| == |cells|
    && (forall i :: 0 <= i < |cells| ==> places[i].start == cells[i].first)
    && forall i :: 0 < i < |cells| ==> MovesOn(places[i - 1], places[i])
  }

  ghost predicate GoodCell(disc: Disc, file: File, c: Cell) {
    |c.lengths| > 0 && Tiled(disc, file, c.first, c.lengths) && Calm(disc, file, c.first, c.lengths)
  }

  /** The answers of the virtual machine while a cell plays: its place, no still, no angle, and at
      first the first block. */
  ghost predicate Answers(disc: Disc, file: File, c: Cell, pos: Position, envs: seq<Env>) {
    && (|envs| > 0 ==> envs[0].pos.block == 0)
    && forall i :: 0 <= i < |envs| ==>
         Steady(envs[i], pos) && envs[i].pos.still == 0 && Straight(disc, file, c.first, c.lengths, envs[i])
  }

  /** The calls that a cell takes: the change of cell, the reports, the sectors and the end. */
  function CallsFor(c: Cell, pos: Position): nat {
    1 + ReportCalls(pos) + CellSize(c) + 1
  }

  /** A cell that playback arrives at, played as far as the sector number k of it. */
  lemma {:induction false} CellPlaysTo(disc: Disc, p: Player, envs: seq<Env>, pos: Position, file: File, c: Cell,
                                       k: nat)
    requires Arriving(p, pos) && pos.start == c.first && p.file == Some(file) && GoodCell(disc, file, c)
    requires Answers(disc, file, c, pos, envs) && 0 < k <= CellSize(c) && |envs| == 1 + ReportCalls(pos) + k
    ensures var q := Left(disc, p, envs);
            && Sectors(disc, p, envs) == Range(c.first, k)
            && q.vobu.start + q.vobu.blockN == c.first + k - 1
            && Playing(q, pos) && q.file == p.file && !q.menu
            && (k == CellSize(c) ==> AtCellEnd(q, pos))
  {
    hide Call, Playing, Arriving, Steady, AtCellEnd, Tiled, Calm, Straight, Path, CalmPath, PathSectors;
    CellIsPath(disc, file, c, pos, envs);
    PathPlaysTo(disc, p, envs, pos, file, UnitsOf(c.first, c.lengths), k);
  }

  lemma {:induction false} CellIsPath(disc: Disc, file: File, c: Cell, pos: Position, envs: seq<Env>)
    requires GoodCell(disc, file, c) && Answers(disc, file, c, pos, envs) && pos.start == c.first
    ensures var units := UnitsOf(c.first, c.lengths);
            && |units| > 0 && PathAnswers(disc, file, units, pos, envs) && CalmPath(disc, file, units)
            && PathSectors(units) == Range(c.first, CellSize(c))
  {
    hide Steady, Tiled, Calm, Straight, Path, CalmPath, PathSectors;
    TiledSectors(c.first, c.lengths);
    CalmTiles(disc, file, c.first, c.lengths);
    forall i | 0 <= i < |envs|
      ensures Path(disc, file, envs[i], UnitsOf(c.first, c.lengths))
    {
      TiledIsPath(disc, file, c.first, c.lengths, envs[i]);
    }
  }

  /** The whole of a cell, and on to the next. */
  lemma {:induction false} CellPlays(disc: Disc, p: Player, envs: seq<Env>, pos: Position, file: File, c: Cell)
    requires Arriving(p, pos) && pos.start == c.first && p.file == Some(file) && GoodCell(disc, file, c)
    requires Answers(disc, file, c, pos, envs) && |envs| == CallsFor(c, pos)
    ensures Sectors(disc, p, envs) == Range(c.first, CellSize(c))
    ensures var q := Left(disc, p, envs);
            && q.file == p.file && !q.syncWait && q.cur.still == 0 && Settled(q, pos)
            && Results(disc, p, envs)[|envs| - 1].advance
  {
    hide Call, Arriving, Steady, Tiled, Calm, Straight, Path, CalmPath, PathSectors, Settled;
    CellIsPath(disc, file, c, pos, envs);
    PathPlays(disc, p, envs, pos, file, UnitsOf(c.first, c.lengths));
  }

  /** All sectors of the first n cells, in order. */
  function ChainSectors(cells: seq<Cell>, n: nat): seq<int>
    requires n <= |cells|
  {
    if n == 0 then [] else ChainSectors(cells, n - 1) + Range(cells[n - 1].first, CellSize(cells[n - 1]))
  }

  function Flatten(rows: seq<seq<Env>>, n: nat): seq<Env>
    requires n <= |rows|
  {
    if n == 0 then [] else Flatten(rows, n - 1) + rows[n - 1]
  }

  ghost predicate ChainAnswers(disc: Disc, file: File, cells: seq<Cell>, places: seq<Position>, rows: seq<seq<Env>>)
    requires |places| == |cells|
  {
    |rows| == |cells| && forall i :: 0 <= i < |cells| ==>
      Answers(disc, file, cells[i], places[i], rows[i]) && |rows[i]| == CallsFor(cells[i], places[i])
  }

  /** The player plays a whole chain of tiled cells: every sector of every cell is delivered, once,
      cell by cell in increasing order. */
  lemma {:induction false} ChainPlays(disc: Disc, p: Player, rows: seq<seq<Env>>, places: seq<Position>, file: File,
                                      cells: seq<Cell>, n: nat)
    requires n <= |cells| && p.file == Some(file) && Route(cells, places)
    requires ChainAnswers(disc, file, cells, places, rows)
    requires forall i :: 0 <= i < |cells| ==> GoodCell(disc, file, cells[i])
    requires |cells| > 0 ==> Arriving(p, places[0])
    ensures Sectors(disc, p, Flatten(rows, n)) == ChainSectors(cells, n)
    ensures Left(disc, p, Flatten(rows, n)).file == p.file
    ensures n < |cells| ==> Arriving(Left(disc, p, Flatten(rows, n)), places[n])
  {
    hide Call, GoodCell, Answers;
    if n > 0 {
      ChainPlays(disc, p, rows, places, file, cells, n - 1);
      var a, b := Flatten(rows, n - 1), rows[n - 1];
      SectorsConcat(disc, p, a, b);
      CallsConcat(disc, p, a, b);
      CellPlays(disc, Left(disc, p, a), b, places[n - 1], file, cells[n - 1]);
    }
  }

  /** A chain played as far as the sector number k of the cell with index n. */
  lemma {:induction false} ChainPlaysTo(disc: Disc, p: Player, rows: seq<seq<Env>>, envs: seq<Env>,
                                        places: seq<Position>, file: File, cells: seq<Cell>, n: nat, k: nat)
    requires n < |cells| && p.file == Some(file) && Route(cells, places)
    requires forall i :: 0 <= i < |cells| ==> GoodCell(disc, file, cells[i])
    requires ChainAnswers(disc, file, cells, places, rows) && Arriving(p, places[0])
    requires Answers(disc, file, cells[n], places[n], envs)
    requires 0 < k <= CellSize(cells[n]) && |envs| == 1 + ReportCalls(places[n]) + k
    ensures var calls := Flatten(rows, n) + envs;
            var q := Left(disc, p, calls);
            && Playing(q, places[n])
            && Sectors(disc, p, calls) == ChainSectors(cells, n) + Range(cells[n].first, k)
            && q.vobu.start + q.vobu.blockN == cells[n].first + k - 1
  {
    hide Call, GoodCell, Answers, Arriving, Playing, Sectors, Range, ChainSectors, Flatten, Left, ReportCalls, CellSize;
    var a := Flatten(rows, n);
    ChainPlays(disc, p, rows, places, file, cells, n);
    SectorsConcat(disc, p, a, envs);
    CallsConcat(disc, p, a, envs);
    CellPlaysTo(disc, Left(disc, p, a), envs, places[n], file, cells[n], k);
  }

  // ----- what the virtual machine does ------------------------------------------------------

  /** Entering one cell after another, as play_Cell does: each time the restart count goes up. */
  function Entered(base: Position, cells: seq<Cell>): (places: seq<Position>)
    ensures |places| == |cells|
  {
    seq(|cells|, i requires 0 <= i < |cells| =>
          base.(cell := i + 1, restart := base.restart + i, start := cells[i].first))
  }

  function Answering(pos: Position, n: nat): seq<Env> {
    seq(n, _ => Env(true, false, pos.(block := 0, still := 0), 0, 1, true, None, 1, 1))
  }

  lemma {:induction false} NoAnglesIsStraight(disc: Disc, file: File, s: nat, lengths: seq<nat>, env: Env)
    requires env.angles == 0
    ensures Straight(disc, file, s, lengths, env)
    decreases |lengths|
  {
    if |lengths| > 0 {
      NoAnglesIsStraight(disc, file, s + lengths[0] + 1, lengths[1..], env);
    }
  }

  /** Every chain has such a route, with the restart count going up from cell to cell, and answers
      that follow it. */
  lemma ChainsHaveRoutes(disc: Disc, file: File, cells: seq<Cell>, base: Position) returns (rows: seq<seq<Env>>)
    ensures Route(cells, Entered(base, cells)) && ChainAnswers(disc, file, cells, Entered(base, cells), rows)
  {
    hide Straight;
    var places := Entered(base, cells);
    rows := seq(|cells|, i requires 0 <= i < |cells| => Answering(places[i], CallsFor(cells[i], places[i])));
    forall i, k | 0 <= i < |cells| && 0 <= k < |rows[i]|
      ensures Straight(disc, file, cells[i].first, cells[i].lengths, rows[i][k])
    {
      NoAnglesIsStraight(disc, file, cells[i].first, cells[i].lengths, rows[i][k]);
    }
  }
}
