/** Playback as dvdnav_get_next_cache_block drives it: one call is one step, which compares the
    current position with the one the virtual machine wants and reports the first difference, or
    else delivers the next sector. The virtual machine and the disc are parameters. */
module PlayerModel {
  import SkipMap

  datatype Option<T> = None | Some(value: T)

  const END_OF_CELL: int := 0x3fff_ffff
  const HOP_SEEK: int := 0x1000

  // domain_t.
  const FP_DOMAIN: int := 1
  const VTS_DOMAIN: int := 2
  const VMGM_DOMAIN: int := 4
  const VTSM_DOMAIN: int := 8

  /** vm_position_t, without the angle channel, which playback never looks at. */
  datatype Position = Position(button: int, vts: int, domain: int, spu: int, audio: int, hop: int, cell: int,
                               restart: int, start: int, still: int, block: int)

  /** dvdnav_vobu_t: where the VOBU starts, and relative to that its last sector, the sector
      delivered last and the next VOBU. */
  datatype Vobu = Vobu(start: int, length: int, blockN: int, next: int)

  /** What playback uses of a decoded NAV packet (its PCI and DSI). */
  datatype Nav = Nav(lbn: int, pciLbn: int, end: nat, next: nat, nonSeamless: seq<nat>, seamless: seq<nat>,
                     ilvuEnd: int, menu: bool, elapsed: int)

  datatype Sector = Unreadable | Plain | NavPack(nav: Nav)

  /** A VOB file: the title VOBs or the menu VOBs of a title set, with 0 for the manager's menus. */
  datatype File = File(vts: int, menu: bool)

  type Disc = (File, int) -> Sector

  /** The fields of dvdnav_t that playback uses. */
  datatype Player = Player(cur: Position, vobu: Vobu, file: Option<File>, menu: bool, navLbn: int, lastCmdNav: int,
                           skipStill: bool, syncWait: bool, syncWaitSkip: bool, clutChanged: bool, started: bool,
                           cellTime: int)

  /** What the virtual machine and the system answer during one call. */
  datatype Env = Env(starts: bool, stopped: bool, pos: Position, angles: int, angle: int, opens: bool,
                     skipMap: Option<seq<SkipMap.Region>>, title: int, program: int)

  datatype Event =
    | Stop
    | HopChannel
    | Highlight(button: int)
    | Wait
    | VtsChange(oldVts: int, oldDomain: int, newVts: int, newDomain: int)
    | CellChange
    | ClutChange
    | SpuChange
    | AudioChange(logical: int)
    | StillFrame(length: int)
    | Nop
    | NavPacket(sector: int)
    | BlockOk(sector: int)

  /** The result of a call: an error or an event; whether vm_get_next_cell was called; and the value
      stored in the block register of the virtual machine, if any. */
  datatype Result = Result(event: Option<Event>, advance: bool, block: Option<int>)

  function Error(): Result { Result(None, false, None) }

  function Report(e: Event): Result { Result(Some(e), false, None) }

  // ----- pieces -----------------------------------------------------------------------------

  /** What a read of one sector finds; without a file it fails. */
  function Fetch(disc: Disc, file: Option<File>, sector: int): Sector {
    if file.None? || sector < 0 then Unreadable else disc(file.value, sector)
  }

  function Entry(s: seq<nat>, angle: int): nat {
    if 1 <= angle <= |s| then s[angle - 1] else 0
  }

  /** A relative address with its direction in bit 31. */
  function Signed(next: nat): int {
    if next / 0x8000_0000 % 2 == 1 then -(next % 0x4000_0000) else next % 0x4000_0000
  }

  /** dvdnav_get_vobu. */
  function GetVobu(nav: Nav, angles: int, angle: int): (int, int, int) {
    var next := nav.next % 0x4000_0000;
    if angles == 0 then (nav.lbn, nav.end, next)
    else
      var n, s := Entry(nav.nonSeamless, angle), Entry(nav.seamless, angle);
      if n != 0 then (nav.lbn, nav.end, if n % 0x4000_0000 != 0 then Signed(n) else next)
      else if s != 0 then (nav.lbn, nav.ilvuEnd, Signed(s))
      else (nav.lbn, nav.end, next)
  }

  /** The file that holds the VOBs of a domain; no file for an unknown domain. */
  function FileFor(vts: int, domain: int): Option<File> {
    if domain == FP_DOMAIN || domain == VMGM_DOMAIN then Some(File(0, true))
    else if domain == VTSM_DOMAIN then Some(File(vts, true))
    else if domain == VTS_DOMAIN then Some(File(vts, false))
    else None
  }

  /** The target of the next jump after the skip map, as an offset from the VOBU. */
  function Remapped(p: Player, env: Env): int {
    if env.skipMap.Some? && p.vobu.start + p.vobu.next >= 0
    then SkipMap.Remap(env.skipMap.value, env.pos.domain, env.title, env.program, p.vobu.start, p.vobu.next)
    else p.vobu.next
  }

  // ----- one call ---------------------------------------------------------------------------

  predicate Hopped(p: Player, env: Env) {
    p.cur.hop != env.pos.hop
  }

  predicate FileChanged(p: Player, env: Env) {
    p.cur.vts != env.pos.vts || p.cur.domain != env.pos.domain
  }

  predicate CellChanged(p: Player, env: Env) {
    p.cur.cell != env.pos.cell || p.cur.restart != env.pos.restart || p.cur.start != env.pos.start
  }

  function Aimed(p: Player, env: Env): Vobu {
    Vobu(env.pos.start + env.pos.block, 0, 0, 0)
  }

  function Hop(disc: Disc, p: Player, env: Env): (Player, Result) {
    var landed := p.(cur := p.cur.(hop := env.pos.hop), vobu := Aimed(p, env), syncWait := false);
    if env.pos.hop - p.cur.hop >= HOP_SEEK && env.angles > 1 then
      match Fetch(disc, p.file, env.pos.start + env.pos.block)
      case NavPack(nav) =>
        var (start, _, next) := GetVobu(nav, env.angles, env.angle);
        var skipped := if next != END_OF_CELL then start + next else start;
        (landed.(menu := nav.menu, navLbn := nav.pciLbn),
         Result(Some(HopChannel), false, Some(skipped - env.pos.start)))
      case _ => (p, Error())
    else (landed, Report(HopChannel))
  }

  function ChangeVts(p: Player, env: Env): (Player, Result) {
    var file := FileFor(env.pos.vts, env.pos.domain);
    if file.None? then (p.(file := None), Error())
    else
      var moved := p.(cur := p.cur.(vts := env.pos.vts, domain := env.pos.domain));
      if !env.opens then (moved.(file := None), Error())
      else
        (moved.(cur := moved.cur.(cell := -1, spu := -1, audio := -1), file := file, clutChanged := true),
         Report(VtsChange(p.cur.vts, p.cur.domain, env.pos.vts, env.pos.domain)))
  }

  function ChangeCell(p: Player, env: Env): (Player, Result) {
    (p.(cur := p.cur.(cell := env.pos.cell, restart := env.pos.restart, start := env.pos.start,
                      block := env.pos.block, spu := -1, audio := -1),
        vobu := Aimed(p, env), clutChanged := true, cellTime := 0),
     Report(CellChange))
  }

  function EndCell(p: Player, env: Env): (Player, Result) {
    var q := p.(cur := p.cur.(still := env.pos.still));
    if (env.pos.still != 0 || p.menu) && !p.syncWaitSkip then (q.(syncWait := true), Report(Nop))
    else if env.pos.still == 0 || p.skipStill then
      (q.(cur := q.cur.(still := 0), skipStill := false, syncWaitSkip := false), Result(Some(Nop), true, None))
    else (q, Report(Nop))
  }

  function NextVobu(disc: Disc, p: Player, env: Env): (Player, Result) {
    var next := Remapped(p, env);
    var q := p.(vobu := p.vobu.(next := next));
    match Fetch(disc, p.file, p.vobu.start + next)
    case NavPack(nav) =>
      var (start, length, after) := GetVobu(nav, env.angles, env.angle);
      (q.(vobu := Vobu(start, length, 0, after), menu := nav.menu, navLbn := nav.pciLbn,
          lastCmdNav := if p.lastCmdNav == nav.pciLbn then END_OF_CELL else p.lastCmdNav, cellTime := nav.elapsed),
       Result(Some(NavPacket(p.vobu.start + next)), false, Some(p.vobu.start - p.cur.start)))
    case _ => (q, Error())
  }

  function NextBlock(disc: Disc, p: Player): (Player, Result) {
    if p.file.None? then (p, Error())
    else
      var q := p.(vobu := p.vobu.(blockN := p.vobu.blockN + 1));
      if Fetch(disc, p.file, q.vobu.start + q.vobu.blockN).Unreadable? then (q, Error())
      else (q, Report(BlockOk(q.vobu.start + q.vobu.blockN)))
  }

  /** A call on a started machine that is not stopped. */
  function Running(disc: Disc, p: Player, env: Env): (Player, Result) {
    if Hopped(p, env) then Hop(disc, p, env)
    else if p.cur.button != env.pos.button then
      (p.(cur := p.cur.(button := env.pos.button)), Report(Highlight(env.pos.button)))
    else if p.syncWait then (p, Report(Wait))
    else if FileChanged(p, env) then ChangeVts(p, env)
    else if CellChanged(p, env) then ChangeCell(p, env)
    else if p.clutChanged then (p.(clutChanged := false), Report(ClutChange))
    else if p.cur.spu != env.pos.spu then (p.(cur := p.cur.(spu := env.pos.spu)), Report(SpuChange))
    else if p.cur.audio != env.pos.audio then
      (p.(cur := p.cur.(audio := env.pos.audio)), Report(AudioChange(env.pos.audio)))
    else if p.cur.still != 0 then (p, Report(StillFrame(p.cur.still)))
    else if p.vobu.blockN < p.vobu.length then NextBlock(disc, p)
    else if p.vobu.next == END_OF_CELL then EndCell(p, env)
    else NextVobu(disc, p, env)
  }

  /** dvdnav_get_next_cache_block. */
  function Call(disc: Disc, p: Player, env: Env): (Player, Result) {
    if !p.started && !env.starts then (p, Error())
    else if env.stopped then (p.(started := false), Report(Stop))
    else Running(disc, p.(started := true), env)
  }

  // ----- what the application does in between -----------------------------------------------

  /** dvdnav_still_skip, dvdnav_wait_skip, dvdnav_button_select, the jumps of searching.c and
      navigation.c, dvdnav_button_activate_cmd, dvdnav_button_activate when the command jumps, and
      the same in a still without buttons. What they change in the virtual machine shows in the
      next position. */
  datatype AppOp = StillSkip | WaitSkip | SelectButton | Jump | ActivateCommand | ActivateButton | LeaveStill

  function Apply(p: Player, op: AppOp): Player {
    match op
    case StillSkip => p.(cur := p.cur.(still := 0), skipStill := true, syncWait := false, syncWaitSkip := true)
    case WaitSkip => p.(syncWait := false, syncWaitSkip := true)
    case SelectButton => p.(cur := p.cur.(button := -1))
    case Jump => p.(cur := p.cur.(still := 0), cellTime := 0)
    case ActivateCommand => p.(cur := p.cur.(still := 0), syncWait := false)
    case ActivateButton => p.(cur := p.cur.(still := 0), lastCmdNav := p.navLbn)
    case LeaveStill => p.(cur := p.cur.(still := 0), syncWait := false, lastCmdNav := p.navLbn)
  }

  /** A handle after dvdnav_open: no file, everything zero. */
  const OPENED: Player :=
    Player(Position(0, 0, 0, 0, 0, 0, 0, 0, 0, 0, 0), Vobu(0, 0, 0, 0), None, false, 0, END_OF_CELL,
           false, false, false, false, false, 0)
}
