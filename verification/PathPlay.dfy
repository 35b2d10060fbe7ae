/** Playback along the VOBUs that an angle's addresses lead to: what is delivered, and in which order. */
module PathPlay {
  import opened PlayerModel
  import opened PlayerRuns

  // ----- the disc ---------------------------------------------------------------------------

  /** A NAV packet and the sectors after it that are played before the next one. */
  datatype Unit = Unit(start: nat, length: nat)

  /** An address of 30 bits, forward from s, leads there; all of them set is the end of the cell. */
  predicate LeadsOn(address: nat, s: int, next: Option<nat>) {
    var low := address % 0x4000_0000;
    next == if low == END_OF_CELL then None else Some(s + low)
  }

  /** The same with its direction in bit 31. */
  predicate LeadsEitherWay(address: nat, s: int, next: Option<nat>) {
    if address / 0x8000_0000 % 2 == 0 then LeadsOn(address, s, next)
    else next.Some? && next.value == s - address % 0x4000_0000
  }

  /** What the tables of the NAV packet say for the current angle: the unit at it, and where the next
      one is, or that the cell ends. A non-seamless address comes first, and without an address the
      next VOBU is used; a seamless one replaces it, and then the unit is the whole interleaved one. */
  predicate Leads(nav: Nav, env: Env, u: Unit, next: Option<nat>) {
    && nav.lbn == u.start
    && if env.angles != 0 && 0 < env.angle <= |nav.nonSeamless| && nav.nonSeamless[env.angle - 1] != 0 then
         && nav.end == u.length
         && var jump := nav.nonSeamless[env.angle - 1];
            if jump % 0x4000_0000 == 0 then LeadsOn(nav.next, u.start, next) else LeadsEitherWay(jump, u.start, next)
       else if env.angles != 0 && 0 < env.angle <= |nav.seamless| && nav.seamless[env.angle - 1] != 0 then
         nav.ilvuEnd == u.length && LeadsEitherWay(nav.seamless[env.angle - 1], u.start, next)
       else
         nav.end == u.length && LeadsOn(nav.next, u.start, next)
  }

  /** The units of the current angle, wherever they lie in the file: each leads to the next, and the
      last to the end of the cell. */
  ghost predicate Path(disc: Disc, file: File, env: Env, units: seq<Unit>)
    decreases |units|
  {
    |units| > 0 ==>
      && disc(file, units[0].start).NavPack?
      && Leads(disc(file, units[0].start).nav, env, units[0], if |units| == 1 then None else Some(units[1].start))
      && (forall k :: units[0].start < k <= units[0].start + units[0].length ==> !disc(file, k).Unreadable?)
      && Path(disc, file, env, units[1..])
  }

  /** No NAV packet shows a menu. */
  ghost predicate CalmPath(disc: Disc, file: File, units: seq<Unit>)
    decreases |units|
  {
    |units| > 0 ==>
      && (disc(file, units[0].start).NavPack? ==> !disc(file, units[0].start).nav.menu)
      && CalmPath(disc, file, units[1..])
  }

  function Range(from: int, n: nat): (r: seq<int>)
    ensures |r| == n && forall i :: 0 <= i < n ==> r[i] == from + i
    decreases n
  {
    if n == 0 then [] else [from] + Range(from + 1, n - 1)
  }

  /** The sectors of the units, in order. */
  function PathSectors(units: seq<Unit>): seq<int> {
    if |units| == 0 then [] else Range(units[0].start, units[0].length + 1) + PathSectors(units[1..])
  }

  /** The time in the cell that the NAV packet before the sector number k of the units tells. */
  ghost function TimeAt(disc: Disc, file: File, units: seq<Unit>, k: nat): int
    decreases |units|
  {
    if |units| == 0 || !disc(file, units[0].start).NavPack? then 0
    else if k <= units[0].length then disc(file, units[0].start).nav.elapsed
    else TimeAt(disc, file, units[1..], k - units[0].length - 1)
  }

  // ----- the player -------------------------------------------------------------------------

  /** Playback with nothing to report, no wait and no still. */
  predicate Playing(p: Player, pos: Position) {
    Settled(p, pos) && !p.syncWait && p.cur.still == 0
  }

  /** The virtual machine stays at the place, running, without a skip map. */
  predicate Steady(env: Env, pos: Position) {
    Place(env, pos) && !env.stopped && env.skipMap.None?
  }

  function Delivered(r: Result): seq<int> {
    if r.event.None? then []
    else match r.event.value
      case NavPacket(sector) => [sector]
      case BlockOk(sector) => [sector]
      case _ => []
  }

  /** The sectors delivered by a row of results. */
  function AllDelivered(rs: seq<Result>): seq<int> {
    if |rs| == 0 then [] else Delivered(rs[0]) + AllDelivered(rs[1..])
  }

  /** Aimed at sector s: nothing from there on has been delivered. */
  predicate AtStart(p: Player, s: int) {
    p.vobu == Vobu(s, 0, 0, 0)
  }

  /** In the first of the units, with j of the sectors after its NAV packet delivered. */
  ghost predicate InUnit(disc: Disc, file: File, p: Player, units: seq<Unit>, j: nat) {
    && |units| > 0 && j <= units[0].length
    && p.vobu.start == units[0].start && p.vobu.length == units[0].length && p.vobu.blockN == j
    && (if |units| == 1 then p.vobu.next == END_OF_CELL
        else p.vobu.next != END_OF_CELL && p.vobu.start + p.vobu.next == units[1].start)
    && disc(file, units[0].start).NavPack? && p.cellTime == disc(file, units[0].start).nav.elapsed
  }

  lemma {:induction false} UnitBlock(disc: Disc, p: Player, env: Env, pos: Position, file: File, units: seq<Unit>,
                                     j: nat)
    requires Playing(p, pos) && Steady(env, pos) && p.file == Some(file)
    requires Path(disc, file, env, units) && InUnit(disc, file, p, units, j) && j < units[0].length
    ensures var (q, r) := Call(disc, p, env);
            && Playing(q, pos) && q.file == p.file && q.menu == p.menu
            && InUnit(disc, file, q, units, j + 1) && Delivered(r) == [units[0].start + j + 1]
  {
    hide Hop, ChangeVts, ChangeCell, NextVobu, EndCell;
  }

  /** What dvdnav_get_vobu makes of the NAV packet is what its tables say. */
  lemma {:induction false} VobuFollows(nav: Nav, env: Env, u: Unit, next: Option<nat>)
    requires Leads(nav, env, u, next)
    ensures var (start, length, after) := GetVobu(nav, env.angles, env.angle);
            && start == u.start && length == u.length
            && if next.None? then after == END_OF_CELL else after != END_OF_CELL && start + after == next.value
  {
  }

  /** The NAV packet of the first unit. The block register gets the start of the unit before it. */
  lemma {:induction false} UnitNav(disc: Disc, p: Player, env: Env, pos: Position, file: File, units: seq<Unit>)
    requires Playing(p, pos) && Steady(env, pos) && p.file == Some(file)
    requires |units| > 0 && Path(disc, file, env, units)
    requires p.vobu.start + p.vobu.next == units[0].start && p.vobu.next != END_OF_CELL
    requires p.vobu.blockN >= p.vobu.length
    ensures var (q, r) := Call(disc, p, env);
            && Playing(q, pos) && q.file == p.file && (CalmPath(disc, file, units) ==> !q.menu)
            && InUnit(disc, file, q, units, 0)
            && q.menu == disc(file, units[0].start).nav.menu && q.navLbn == disc(file, units[0].start).nav.pciLbn
            && r == Result(Some(NavPacket(units[0].start)), false, Some(p.vobu.start - pos.start))
  {
    hide Hop, ChangeVts, ChangeCell, NextBlock, EndCell, GetVobu, Leads;
    VobuFollows(disc(file, units[0].start).nav, env, units[0], if |units| == 1 then None else Some(units[1].start));
  }

  lemma {:induction false} OneCallFirst(disc: Disc, p: Player, envs: seq<Env>)
    requires |envs| > 0
    ensures var (q, r) := Call(disc, p, envs[0]);
            && Left(disc, p, envs) == Left(disc, q, envs[1..])
            && AllDelivered(Results(disc, p, envs)) == Delivered(r) + AllDelivered(Results(disc, q, envs[1..]))
  {
    hide Call, Delivered;
    var (q, r) := Call(disc, p, envs[0]);
    var rs := Results(disc, p, envs);
    assert rs[0] == r && rs[1..] == Results(disc, q, envs[1..]);
  }

  lemma {:induction false} EndOfPath(disc: Disc, file: File, p: Player, pos: Position, units: seq<Unit>, j: nat)
    requires Playing(p, pos) && InUnit(disc, file, p, units, j) && |PathSectors(units)| == j + 1
    ensures AtCellEnd(p, pos)
  {
    SectorsSplit(units);
    if |units| > 1 {
      SectorsSplit(units[1..]);
    }
  }

  lemma {:induction false} SectorsSplit(units: seq<Unit>)
    requires |units| > 0
    ensures |PathSectors(units)| == units[0].length + 1 + |PathSectors(units[1..])|
    ensures forall i :: 0 <= i <= units[0].length ==> PathSectors(units)[i] == units[0].start + i
    ensures forall i :: 0 <= i < |PathSectors(units[1..])| ==>
              PathSectors(units)[units[0].length + 1 + i] == PathSectors(units[1..])[i]
  {
  }

  /** From the middle of a unit on, any number of calls up to the end of the cell delivers that many
      sectors, the next ones of the path. */
  lemma {:induction false} PathPlaysOn(disc: Disc, p: Player, envs: seq<Env>, pos: Position, file: File,
                                       units: seq<Unit>, j: nat)
    requires Playing(p, pos) && p.file == Some(file) && InUnit(disc, file, p, units, j)
    requires forall i :: 0 <= i < |envs| ==> Steady(envs[i], pos) && Path(disc, file, envs[i], units)
    requires j + |envs| < |PathSectors(units)|
    ensures var q, n := Left(disc, p, envs), |envs|;
            && Playing(q, pos) && q.file == p.file && (CalmPath(disc, file, units) && !p.menu ==> !q.menu)
            && AllDelivered(Results(disc, p, envs)) == PathSectors(units)[j + 1..j + 1 + n]
            && q.vobu.start + q.vobu.blockN == PathSectors(units)[j + n]
            && q.cellTime == TimeAt(disc, file, units, j + n)
            && (j + n + 1 == |PathSectors(units)| ==> AtCellEnd(q, pos))
    decreases |envs|
  {
    hide Call, Playing, Steady, AtCellEnd, Delivered, PathSectors, Path, CalmPath, InUnit, TimeAt;
    UnitFacts(disc, file, p, units, j);
    SectorsSplit(units);
    if |envs| == 0 {
      if j + 1 == |PathSectors(units)| {
        EndOfPath(disc, file, p, pos, units, j);
      }
    } else {
      OneCallFirst(disc, p, envs);
      var (q, r) := Call(disc, p, envs[0]);
      if j < units[0].length {
        UnitBlock(disc, p, envs[0], pos, file, units, j);
        PathPlaysOn(disc, q, envs[1..], pos, file, units, j + 1);
      } else {
        NoneAfterLast(units);
        SectorsSplit(units[1..]);
        forall i | 0 <= i < |envs|
          ensures Path(disc, file, envs[i], units[1..])
        {
          PathGoesOn(disc, file, envs[i], units);
        }
        UnitNav(disc, p, envs[0], pos, file, units[1..]);
        OneDelivered(Call(disc, p, envs[0]).1, units[1].start);
        PathPlaysOn(disc, q, envs[1..], pos, file, units[1..], 0);
        Shifts(PathSectors(units), PathSectors(units[1..]), units[0].length + 1, |envs|);
      }
    }
  }

  lemma {:induction false} UnitFacts(disc: Disc, file: File, p: Player, units: seq<Unit>, j: nat)
    requires InUnit(disc, file, p, units, j)
    ensures |units| > 0 && j <= units[0].length && p.vobu.start + p.vobu.blockN == units[0].start + j
    ensures p.cellTime == TimeAt(disc, file, units, j)
    ensures forall k: nat :: k > units[0].length ==>
              TimeAt(disc, file, units, k) == TimeAt(disc, file, units[1..], k - units[0].length - 1)
    ensures |units| > 1 ==> p.vobu.start + p.vobu.next == units[1].start && p.vobu.next != END_OF_CELL
    ensures j == units[0].length ==> p.vobu.blockN >= p.vobu.length
    ensures CalmPath(disc, file, units) ==> CalmPath(disc, file, units[1..])
  {
  }

  lemma {:induction false} PathGoesOn(disc: Disc, file: File, env: Env, units: seq<Unit>)
    requires |units| > 0 && Path(disc, file, env, units)
    ensures Path(disc, file, env, units[1..])
  {
  }

  lemma Shifts(whole: seq<int>, rest: seq<int>, m: nat, n: nat)
    requires |whole| == m + |rest| && 0 < n <= |rest|
    requires forall i :: 0 <= i < |rest| ==> whole[m + i] == rest[i]
    ensures whole[m..m + n] == [rest[0]] + rest[1..n]
  {
  }

  lemma {:induction false} NoneAfterLast(units: seq<Unit>)
    ensures |units| == 1 ==> PathSectors(units[1..]) == []
  {
  }

  lemma OneDelivered(r: Result, s: int)
    requires r.event == Some(NavPacket(s))
    ensures Delivered(r) == [s]
  {
  }

  /** As many calls as the path has sectors deliver all of them, once each and in its order, and bring
      playback to the end of the cell; fewer deliver a first part. */
  lemma {:induction false} PathPlaysThrough(disc: Disc, p: Player, envs: seq<Env>, pos: Position, file: File,
                                            units: seq<Unit>)
    requires Playing(p, pos) && p.file == Some(file) && |units| > 0 && AtStart(p, units[0].start)
    requires forall i :: 0 <= i < |envs| ==> Steady(envs[i], pos) && Path(disc, file, envs[i], units)
    requires 0 < |envs| <= |PathSectors(units)|
    ensures var q, n := Left(disc, p, envs), |envs|;
            && Playing(q, pos) && q.file == p.file && (CalmPath(disc, file, units) ==> !q.menu)
            && AllDelivered(Results(disc, p, envs)) == PathSectors(units)[..n]
            && q.vobu.start + q.vobu.blockN == PathSectors(units)[n - 1]
            && q.cellTime == TimeAt(disc, file, units, n - 1)
            && (n == |PathSectors(units)| ==> AtCellEnd(q, pos))
  {
    hide Call, Playing, Steady, AtCellEnd, Path, CalmPath, Left, Results, AllDelivered, Delivered, PathSectors, InUnit;
    OneCallFirst(disc, p, envs);
    var (q, r) := Call(disc, p, envs[0]);
    UnitNav(disc, p, envs[0], pos, file, units);
    OneDelivered(r, units[0].start);
    SectorsSplit(units);
    PathPlaysOn(disc, q, envs[1..], pos, file, units, 0);
  }

  // ----- rows of calls ----------------------------------------------------------------------

  lemma {:induction false} CallsConcat(disc: Disc, p: Player, a: seq<Env>, b: seq<Env>)
    ensures Left(disc, p, a + b) == Left(disc, Left(disc, p, a), b)
    ensures Results(disc, p, a + b) == Results(disc, p, a) + Results(disc, Left(disc, p, a), b)
    decreases |a|
  {
    hide Call;
    if |a| == 0 {
      assert a + b == b;
    } else {
      assert (a + b)[1..] == a[1..] + b;
      CallsConcat(disc, Call(disc, p, a[0]).0, a[1..], b);
    }
  }

  lemma {:induction false} DeliveredConcat(a: seq<Result>, b: seq<Result>)
    ensures AllDelivered(a + b) == AllDelivered(a) + AllDelivered(b)
  {
    hide Delivered;
    if |a| == 0 {
      assert a + b == b;
    } else {
      assert (a + b)[1..] == a[1..] + b;
      DeliveredConcat(a[1..], b);
    }
  }

  lemma OneResult(r: Result)
    ensures AllDelivered([r]) == Delivered(r)
  {
    assert [r][1..] == [];
  }

  /** The sectors delivered by a row of calls. */
  function Sectors(disc: Disc, p: Player, envs: seq<Env>): seq<int> {
    AllDelivered(Results(disc, p, envs))
  }

  lemma {:induction false} SectorsConcat(disc: Disc, p: Player, a: seq<Env>, b: seq<Env>)
    ensures Sectors(disc, p, a + b) == Sectors(disc, p, a) + Sectors(disc, Left(disc, p, a), b)
  {
    CallsConcat(disc, p, a, b);
    DeliveredConcat(Results(disc, p, a), Results(disc, Left(disc, p, a), b));
  }

  // ----- from one cell to the next ----------------------------------------------------------

  /** Only the palette and the streams are still to be reported. */
  predicate Opening(p: Player, pos: Position) {
    && p.started && p.cur.hop == pos.hop && p.cur.button == pos.button
    && p.cur.vts == pos.vts && p.cur.domain == pos.domain
    && p.cur.cell == pos.cell && p.cur.restart == pos.restart && p.cur.start == pos.start
    && !p.syncWait && p.cur.still == 0
  }

  function ToReport(p: Player, pos: Position): nat {
    One(p.clutChanged) + One(p.cur.spu != pos.spu) + One(p.cur.audio != pos.audio)
  }

  lemma OpeningCall(disc: Disc, p: Player, env: Env, pos: Position)
    requires Opening(p, pos) && Steady(env, pos) && ToReport(p, pos) > 0
    ensures var (q, r) := Call(disc, p, env);
            && Opening(q, pos) && ToReport(q, pos) == ToReport(p, pos) - 1 && Delivered(r) == []
            && q.vobu == p.vobu && q.cellTime == p.cellTime && q.file == p.file && q.menu == p.menu
  {
    hide Hop, ChangeVts, ChangeCell, NextVobu, NextBlock, EndCell;
  }

  lemma Opened(p: Player, pos: Position)
    requires Opening(p, pos) && ToReport(p, pos) == 0
    ensures Playing(p, pos)
  {
  }

  lemma {:induction false} OpensUp(disc: Disc, p: Player, envs: seq<Env>, pos: Position)
    requires Opening(p, pos) && |envs| == ToReport(p, pos) && forall i :: 0 <= i < |envs| ==> Steady(envs[i], pos)
    ensures var q := Left(disc, p, envs);
            && Playing(q, pos) && q.vobu == p.vobu && q.cellTime == p.cellTime && q.file == p.file && q.menu == p.menu
            && Sectors(disc, p, envs) == []
    decreases |envs|
  {
    hide Call, ToReport, Steady, Opening;
    if |envs| == 0 {
      Opened(p, pos);
    } else {
      OpeningCall(disc, p, envs[0], pos);
      var (q, r) := Call(disc, p, envs[0]);
      var rs := Results(disc, p, envs);
      assert rs[0] == r && rs[1..] == Results(disc, q, envs[1..]);
      OpensUp(disc, q, envs[1..], pos);
    }
  }

  /** The virtual machine has moved on to another cell of the same file. */
  predicate Arriving(p: Player, pos: Position) {
    && p.started && p.cur.hop == pos.hop && p.cur.button == pos.button
    && p.cur.vts == pos.vts && p.cur.domain == pos.domain
    && (p.cur.cell != pos.cell || p.cur.restart != pos.restart || p.cur.start != pos.start)
    && !p.syncWait && p.cur.still == 0
  }

  function ReportCalls(pos: Position): nat {
    1 + One(pos.spu != -1) + One(pos.audio != -1)
  }

  lemma ArrivalCall(disc: Disc, p: Player, env: Env, pos: Position)
    requires Arriving(p, pos) && Steady(env, pos)
    ensures var (q, r) := Call(disc, p, env);
            && Opening(q, pos) && ToReport(q, pos) == ReportCalls(pos) && Delivered(r) == []
            && AtStart(q, pos.start + env.pos.block) && q.cellTime == 0 && q.file == p.file && q.menu == p.menu
  {
    hide Hop, ChangeVts, NextVobu, NextBlock, EndCell;
  }

  lemma EndCall(disc: Disc, p: Player, env: Env, pos: Position)
    requires Playing(p, pos) && AtCellEnd(p, pos) && Steady(env, pos) && env.pos.still == 0 && !p.menu
    ensures var (q, r) := Call(disc, p, env);
            q == p.(skipStill := false, syncWaitSkip := false) && r == Result(Some(Nop), true, None)
  {
    hide Hop, ChangeVts, ChangeCell, NextVobu, NextBlock;
  }

  // ----- a cell -----------------------------------------------------------------------------

  /** The answers of the virtual machine while a cell plays: its place, no still, the current angle on
      the path, and at first the block at which the path starts. */
  ghost predicate PathAnswers(disc: Disc, file: File, units: seq<Unit>, pos: Position, envs: seq<Env>) {
    && (|envs| > 0 && |units| > 0 ==> pos.start + envs[0].pos.block == units[0].start)
    && forall i :: 0 <= i < |envs| ==>
         Steady(envs[i], pos) && envs[i].pos.still == 0 && Path(disc, file, envs[i], units)
  }

  /** A cell that playback arrives at, at its start or inside it, played as far as the sector number k
      of the path from there. */
  lemma {:induction false} PathPlaysTo(disc: Disc, p: Player, envs: seq<Env>, pos: Position, file: File,
                                       units: seq<Unit>, k: nat)
    requires Arriving(p, pos) && p.file == Some(file) && |units| > 0 && CalmPath(disc, file, units)
    requires PathAnswers(disc, file, units, pos, envs)
    requires 0 < k <= |PathSectors(units)| && |envs| == 1 + ReportCalls(pos) + k
    ensures var q := Left(disc, p, envs);
            && Sectors(disc, p, envs) == PathSectors(units)[..k]
            && q.vobu.start + q.vobu.blockN == PathSectors(units)[k - 1]
            && q.cellTime == TimeAt(disc, file, units, k - 1)
            && Playing(q, pos) && q.file == p.file && !q.menu
            && (k == |PathSectors(units)| ==> AtCellEnd(q, pos))
  {
    hide Call, Playing, Opening, Arriving, Steady, AtCellEnd, Path, CalmPath, ToReport, PathSectors, AtStart;
    var n := ReportCalls(pos);
    var a, b, d := envs[..1], envs[1..1 + n], envs[1 + n..];
    assert envs == a + (b + d);
    SectorsConcat(disc, p, a, b + d);
    CallsConcat(disc, p, a, b + d);
    ArrivalCall(disc, p, a[0], pos);
    var q := Call(disc, p, a[0]).0;
    assert Left(disc, p, a) == q by {
      assert Left(disc, q, a[1..]) == q;
    }
    assert Sectors(disc, p, a) == [] by {
      assert Results(disc, p, a) == [Call(disc, p, a[0]).1];
    }
    SectorsConcat(disc, q, b, d);
    CallsConcat(disc, q, b, d);
    OpensUp(disc, q, b, pos);
    StillAtStart(q, Left(disc, q, b), units[0].start);
    PathPlaysThrough(disc, Left(disc, q, b), d, pos, file, units);
  }

  lemma StillAtStart(p: Player, q: Player, s: int)
    requires AtStart(p, s) && q.vobu == p.vobu
    ensures AtStart(q, s)
  {
  }

  /** The whole of the path, and on to the next cell. */
  lemma {:induction false} PathPlays(disc: Disc, p: Player, envs: seq<Env>, pos: Position, file: File,
                                     units: seq<Unit>)
    requires Arriving(p, pos) && p.file == Some(file) && |units| > 0 && CalmPath(disc, file, units)
    requires PathAnswers(disc, file, units, pos, envs)
    requires |envs| == 1 + ReportCalls(pos) + |PathSectors(units)| + 1
    ensures Sectors(disc, p, envs) == PathSectors(units)
    ensures var q := Left(disc, p, envs);
            && q.file == p.file && !q.syncWait && q.cur.still == 0 && Settled(q, pos)
            && Results(disc, p, envs)[|envs| - 1].advance
  {
    hide Call, Arriving, Path, CalmPath, PathSectors;
    var n := |envs| - 1;
    var a, b := envs[..n], envs[n..];
    assert envs == a + b;
    SectorsSplit(units);
    PathPlaysTo(disc, p, a, pos, file, units, |PathSectors(units)|);
    SectorsConcat(disc, p, a, b);
    CallsConcat(disc, p, a, b);
    var q := Left(disc, p, a);
    EndCall(disc, q, b[0], pos);
    var (t, r) := Call(disc, q, b[0]);
    assert Left(disc, q, b) == t by {
      assert Left(disc, t, b[1..]) == t;
    }
    assert Results(disc, q, b) == [r];
    OneResult(r);
  }

  // ----- seeking ----------------------------------------------------------------------------

  /** The virtual machine has jumped to another place of the same file. */
  predicate Seeking(p: Player, pos: Position) {
    && p.started && p.cur.hop != pos.hop && p.cur.button == pos.button
    && p.cur.vts == pos.vts && p.cur.domain == pos.domain
    && (p.cur.cell != pos.cell || p.cur.restart != pos.restart || p.cur.start != pos.start) && p.cur.still == 0
  }

  lemma {:induction false} HopCall(disc: Disc, p: Player, env: Env, pos: Position, file: File, units: seq<Unit>)
    requires Seeking(p, pos) && Steady(env, pos) && p.file == Some(file) && |units| > 0
    requires pos.start + env.pos.block == units[0].start && Path(disc, file, env, units)
    ensures var (q, r) := Call(disc, p, env);
            Arriving(q, pos) && q.file == p.file && r.event == Some(HopChannel) && Delivered(r) == []
  {
    hide ChangeVts, ChangeCell, NextVobu, NextBlock, EndCell, GetVobu, Leads;
  }

  /** A jump into a cell, with a wait or without, is reported as a hop, and then playback goes on from
      the block that the virtual machine names, along the path of the current angle. */
  lemma {:induction false} SeekPlays(disc: Disc, p: Player, env: Env, envs: seq<Env>, pos: Position, file: File,
                                     units: seq<Unit>, k: nat)
    requires Seeking(p, pos) && p.file == Some(file) && |units| > 0 && CalmPath(disc, file, units)
    requires PathAnswers(disc, file, units, pos, [env] + envs)
    requires PathAnswers(disc, file, units, pos, envs)
    requires 0 < k <= |PathSectors(units)| && |envs| == 1 + ReportCalls(pos) + k
    ensures Results(disc, p, [env] + envs)[0].event == Some(HopChannel)
    ensures Sectors(disc, p, [env] + envs) == PathSectors(units)[..k]
  {
    hide Call, Arriving, Seeking, Steady, Path, CalmPath, PathSectors, ReportCalls, Delivered;
    var row := [env] + envs;
    assert row[0] == env && row[1..] == envs;
    HopCall(disc, p, env, pos, file, units);
    OneCallFirst(disc, p, row);
    PathPlaysTo(disc, Call(disc, p, env).0, envs, pos, file, units, k);
  }

  /** After a seek among several angles the block register names the unit that follows on the angle,
      or the one landed at when it is the last. */
  lemma {:induction false} HopSkips(disc: Disc, p: Player, env: Env, pos: Position, file: File, u: Unit,
                                    next: Option<nat>)
    requires p.started && Steady(env, pos) && p.file == Some(file)
    requires pos.hop - p.cur.hop >= HOP_SEEK && env.angles > 1 && pos.start + env.pos.block == u.start
    requires disc(file, u.start).NavPack? && Leads(disc(file, u.start).nav, env, u, next)
    ensures var (q, r) := Call(disc, p, env);
            && r == Result(Some(HopChannel), false, Some((if next.Some? then next.value else u.start) - pos.start))
            && q.menu == disc(file, u.start).nav.menu && q.navLbn == disc(file, u.start).nav.pciLbn
  {
    hide ChangeVts, ChangeCell, NextVobu, NextBlock, EndCell, GetVobu, Leads;
    VobuFollows(disc(file, u.start).nav, env, u, next);
  }

  // ----- two angles -------------------------------------------------------------------------

  function WovenNav(s: int, first: nat, second: nat): Nav {
    Nav(s, s, 99, 2, [0, 0], [first, second], 1, false, 0)
  }

  /** Four interleaved units of two sectors, at 0 and 4 for the first angle, at 6 and then 2 for the
      second. */
  function Woven(file: File, s: int): Sector {
    match s
    case 0 => NavPack(WovenNav(0, 4, 6))
    case 2 => NavPack(WovenNav(2, 2, END_OF_CELL))
    case 4 => NavPack(WovenNav(4, END_OF_CELL, 2))
    case 6 => NavPack(WovenNav(6, 0x8000_0002, 0x8000_0004))
    case _ => Plain
  }

  lemma {:induction false} TwoUnits(disc: Disc, file: File, env: Env, u: Unit, v: Unit)
    requires disc(file, u.start).NavPack? && Leads(disc(file, u.start).nav, env, u, Some(v.start))
    requires disc(file, v.start).NavPack? && Leads(disc(file, v.start).nav, env, v, None)
    requires forall k :: u.start < k <= u.start + u.length ==> !disc(file, k).Unreadable?
    requires forall k :: v.start < k <= v.start + v.length ==> !disc(file, k).Unreadable?
    ensures Path(disc, file, env, [u, v])
    ensures PathSectors([u, v]) == Range(u.start, u.length + 1) + Range(v.start, v.length + 1)
  {
    hide Leads, Range;
    assert [u, v][1..] == [v] && [v][1..] == [];
    assert Path(disc, file, env, [v]);
    assert PathSectors([v]) == Range(v.start, v.length + 1);
  }

  lemma WovenLeads(env: Env)
    requires env.angles == 2
    ensures env.angle == 1 ==> Leads(WovenNav(0, 4, 6), env, Unit(0, 1), Some(4))
    ensures env.angle == 1 ==> Leads(WovenNav(4, END_OF_CELL, 2), env, Unit(4, 1), None)
    ensures env.angle == 2 ==> Leads(WovenNav(6, 0x8000_0002, 0x8000_0004), env, Unit(6, 1), Some(2))
    ensures env.angle == 2 ==> Leads(WovenNav(2, 2, END_OF_CELL), env, Unit(2, 1), None)
  {
  }

  lemma {:induction false} TwoSectors(s: int)
    ensures Range(s, 2) == [s, s + 1]
  {
    assert Range(s + 1, 1) == [s + 1];
  }

  /** Both angles have their path, the second one backwards. */
  lemma {:induction false} WovenPaths(file: File, env: Env)
    requires env.angles == 2
    ensures env.angle == 1 ==>
              var units := [Unit(0, 1), Unit(4, 1)];
              Path(Woven, file, env, units) && PathSectors(units) == [0, 1, 4, 5]
    ensures env.angle == 2 ==>
              var units := [Unit(6, 1), Unit(2, 1)];
              Path(Woven, file, env, units) && PathSectors(units) == [6, 7, 2, 3]
  {
    hide Path, PathSectors, Leads, WovenNav, Range;
    WovenLeads(env);
    TwoSectors(0);
    TwoSectors(2);
    TwoSectors(4);
    TwoSectors(6);
    if env.angle == 1 {
      TwoUnits(Woven, file, env, Unit(0, 1), Unit(4, 1));
    } else if env.angle == 2 {
      TwoUnits(Woven, file, env, Unit(6, 1), Unit(2, 1));
    }
  }
}
