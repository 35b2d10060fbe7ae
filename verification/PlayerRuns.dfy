/** What holds over every run of playback: any calls of dvdnav_get_next_cache_block, with any answers
    of the virtual machine and the disc, and any of the application's operations in between. */
module PlayerRuns {
  import opened PlayerModel

  datatype Action = Calling(env: Env) | Doing(op: AppOp)

  function Act(disc: Disc, p: Player, a: Action): Player {
    match a
    case Calling(env) => Call(disc, p, env).0
    case Doing(op) => Apply(p, op)
  }

  function ActAll(disc: Disc, p: Player, acts: seq<Action>): Player {
    if |acts| == 0 then p else Act(disc, ActAll(disc, p, acts[..|acts| - 1]), acts[|acts| - 1])
  }

  // ----- what a call can change -------------------------------------------------------------

  lemma HopFacts(disc: Disc, p: Player, env: Env)
    ensures var (q, r) := Hop(disc, p, env);
            && !r.advance
            && if r.event.None? then q == p
               else
                 && r.event == Some(HopChannel)
                 && q == p.(cur := p.cur.(hop := env.pos.hop), vobu := Aimed(p, env), syncWait := false,
                            menu := q.menu, navLbn := q.navLbn)
  {
    hide GetVobu, Fetch;
  }

  lemma NextVobuFacts(disc: Disc, p: Player, env: Env)
    ensures var (q, r) := NextVobu(disc, p, env);
            && !r.advance
            && q == p.(vobu := q.vobu, menu := q.menu, navLbn := q.navLbn, lastCmdNav := q.lastCmdNav,
                       cellTime := q.cellTime)
            && if r.event.None? then q.vobu == p.vobu.(next := q.vobu.next) else r.event.value.NavPacket?
  {
    hide GetVobu, Fetch, Remapped;
  }

  lemma NextBlockFacts(disc: Disc, p: Player)
    ensures var (q, r) := NextBlock(disc, p);
            && !r.advance && q == p.(vobu := q.vobu)
            && (r.event.Some? ==> r.event.value.BlockOk?)
  {
    hide Fetch;
  }

  lemma EndCellFacts(p: Player, env: Env)
    ensures var (q, r) := EndCell(p, env);
            && r.event == Some(Nop)
            && q == p.(cur := p.cur.(still := q.cur.still), skipStill := q.skipStill, syncWait := q.syncWait,
                       syncWaitSkip := q.syncWaitSkip)
  {
  }

  lemma ApplyFacts(p: Player, op: AppOp)
    ensures var q := Apply(p, op);
            && q.cur == p.cur.(still := q.cur.still, button := q.cur.button)
            && q == p.(cur := q.cur, skipStill := q.skipStill, syncWait := q.syncWait, syncWaitSkip := q.syncWaitSkip,
                       lastCmdNav := q.lastCmdNav, cellTime := q.cellTime)
            && q.skipStill == (p.skipStill || op.StillSkip?)
            && q.syncWaitSkip == (p.syncWaitSkip || op.StillSkip? || op.WaitSkip?)
  {
    match op
    case StillSkip =>
    case WaitSkip =>
    case SelectButton =>
    case Jump =>
    case ActivateCommand =>
    case ActivateButton =>
    case LeaveStill =>
  }

  /** A call starts the machine or fails; stops it; or goes on as Running says. */
  lemma CallFacts(disc: Disc, p: Player, env: Env)
    ensures var (q, r) := Call(disc, p, env);
            || (r.event.None? && q == p && !r.advance)
            || (r.event == Some(Stop) && q == p.(started := false) && !r.advance)
            || (q, r) == Running(disc, p.(started := true), env)
  {
    hide Running;
  }

  // ----- the file that is open --------------------------------------------------------------

  /** The open file, if any, has the title VOBs exactly in the title domain; and it is the manager's
      in its own two domains, and that of the current title set in the other two. */
  predicate RightFile(p: Player) {
    p.file.Some? ==>
      && (p.file.value.menu <==> p.cur.domain != VTS_DOMAIN)
      && (p.cur.domain == FP_DOMAIN || p.cur.domain == VMGM_DOMAIN ==> p.file.value.vts == 0)
      && (p.cur.domain == VTSM_DOMAIN || p.cur.domain == VTS_DOMAIN ==> p.file.value.vts == p.cur.vts)
  }

  lemma RightFileMeans(p: Player)
    ensures p.file.None? || p.file == FileFor(p.cur.vts, p.cur.domain) ==> RightFile(p)
    ensures RightFile(p) && p.file.Some? && p.cur.domain in {FP_DOMAIN, VMGM_DOMAIN, VTSM_DOMAIN, VTS_DOMAIN} ==>
              p.file == FileFor(p.cur.vts, p.cur.domain)
  {
  }

  lemma VtsKeepsFile(s: Player, env: Env)
    ensures RightFile(ChangeVts(s, env).0)
  {
    hide FileFor, RightFile;
    RightFileMeans(ChangeVts(s, env).0);
  }

  lemma CallKeepsFile(disc: Disc, p: Player, env: Env)
    requires RightFile(p)
    ensures RightFile(Call(disc, p, env).0)
  {
    hide Hop, ChangeVts, NextVobu, NextBlock, Call;
    CallFacts(disc, p, env);
    var s := p.(started := true);
    if Hopped(s, env) {
      HopFacts(disc, s, env);
    } else if s.cur.button != env.pos.button || s.syncWait {
    } else if FileChanged(s, env) {
      VtsKeepsFile(s, env);
    } else if CellChanged(s, env) {
    } else if s.vobu.blockN < s.vobu.length {
      NextBlockFacts(disc, s);
    } else {
      NextVobuFacts(disc, s, env);
    }
  }

  /** A change to a known domain opens a file, if it can be opened, or fails; an unknown domain leaves
      none open. */
  lemma VtsOpens(s: Player, env: Env)
    ensures var (q, r) := ChangeVts(s, env);
            var known := env.pos.domain in {FP_DOMAIN, VMGM_DOMAIN, VTSM_DOMAIN, VTS_DOMAIN};
            && RightFile(q) && (q.file.Some? <==> known && env.opens) && (r.event.Some? <==> q.file.Some?)
            && (known ==> q.cur.vts == env.pos.vts && q.cur.domain == env.pos.domain)
            && (!known ==> q.cur == s.cur)
  {
    VtsKeepsFile(s, env);
  }

  predicate IsBlock(r: Result) {
    r.event.Some? && r.event.value.BlockOk?
  }

  /** A block is delivered from an open file, which the call leaves open. */
  lemma BlocksHaveFiles(disc: Disc, p: Player, env: Env)
    ensures var (q, r) := Call(disc, p, env);
            IsBlock(r) ==> q.file.Some?
  {
    hide Hop, ChangeVts, ChangeCell, EndCell, NextVobu, NextBlock, Call;
    CallFacts(disc, p, env);
    var s := p.(started := true);
    HopFacts(disc, s, env);
    NextVobuFacts(disc, s, env);
    EndCellFacts(s, env);
    OnlyReports(s, env);
    NextBlockHasFile(disc, s);
  }

  lemma OnlyReports(s: Player, env: Env)
    ensures !IsBlock(ChangeVts(s, env).1) && !IsBlock(ChangeCell(s, env).1)
  {
    hide FileFor;
  }

  lemma NextBlockHasFile(disc: Disc, s: Player)
    ensures IsBlock(NextBlock(disc, s).1) ==> NextBlock(disc, s).0.file.Some?
  {
    hide Fetch;
  }

  lemma ActKeepsFile(disc: Disc, p: Player, a: Action)
    requires RightFile(p)
    ensures RightFile(Act(disc, p, a))
  {
    hide Call, Apply, FileFor;
    if a.Calling? {
      CallKeepsFile(disc, p, a.env);
    } else {
      ApplyFacts(p, a.op);
    }
  }

  /** Throughout every run, the open file is absent or the one for the current title set and domain. */
  lemma {:induction false} FileAlwaysRight(disc: Disc, p: Player, acts: seq<Action>)
    requires RightFile(p)
    ensures RightFile(ActAll(disc, p, acts))
  {
    hide Act, RightFile;
    if |acts| > 0 {
      var n := |acts| - 1;
      FileAlwaysRight(disc, p, acts[..n]);
      ActKeepsFile(disc, ActAll(disc, p, acts[..n]), acts[n]);
    }
  }

  // ----- what events tell -------------------------------------------------------------------

  /** What an event tells of the handle before and after: the button, title set and domain that were
      and are current, the audio stream, and the length of the still that is on. */
  predicate Tells(e: Option<Event>, p: Player, q: Player, env: Env) {
    e.Some? ==>
      match e.value
      case Highlight(button) => button == q.cur.button == env.pos.button != p.cur.button
      case VtsChange(oldVts, oldDomain, newVts, newDomain) =>
        && oldVts == p.cur.vts && oldDomain == p.cur.domain && newVts == q.cur.vts && newDomain == q.cur.domain
        && (oldVts != newVts || oldDomain != newDomain)
      case AudioChange(logical) => logical == q.cur.audio != p.cur.audio
      case StillFrame(length) => length == q.cur.still == p.cur.still != 0
      case _ => true
  }

  predicate Plainly(e: Option<Event>) {
    e.Some? ==> !e.value.Highlight? && !e.value.VtsChange? && !e.value.AudioChange? && !e.value.StillFrame?
  }

  lemma PayloadsTell(disc: Disc, p: Player, env: Env)
    ensures var (q, r) := Call(disc, p, env);
            Tells(r.event, p, q, env)
  {
    hide Hop, ChangeVts, ChangeCell, NextVobu, NextBlock, EndCell, Call, Tells;
    CallFacts(disc, p, env);
    var s := p.(started := true);
    var (q, r) := Call(disc, p, env);
    OthersTell(disc, s, env);
    PlainlyTells(r.event, p, q, env);
    if FileChanged(s, env) {
      VtsTells(s, env);
      TellsStarted(r.event, p, q, env);
    }
    FlagsTell(p, q, env, r.event);
  }

  lemma OthersTell(disc: Disc, s: Player, env: Env)
    ensures Plainly(Hop(disc, s, env).1.event) && Plainly(ChangeCell(s, env).1.event)
    ensures Plainly(NextVobu(disc, s, env).1.event) && Plainly(NextBlock(disc, s).1.event)
    ensures Plainly(EndCell(s, env).1.event)
  {
    hide GetVobu, Fetch, Remapped;
  }

  lemma PlainlyTells(e: Option<Event>, p: Player, q: Player, env: Env)
    ensures Plainly(e) ==> Tells(e, p, q, env)
  {
  }

  lemma VtsTells(s: Player, env: Env)
    requires FileChanged(s, env)
    ensures Tells(ChangeVts(s, env).1.event, s, ChangeVts(s, env).0, env)
  {
    hide FileFor;
  }

  lemma TellsStarted(e: Option<Event>, p: Player, q: Player, env: Env)
    ensures Tells(e, p.(started := true), q, env) ==> Tells(e, p, q, env)
  {
  }

  lemma FlagsTell(p: Player, q: Player, env: Env, e: Option<Event>)
    ensures e == Some(Event.Highlight(env.pos.button)) && p.cur.button != env.pos.button == q.cur.button ==>
              Tells(e, p, q, env)
    ensures e == Some(AudioChange(env.pos.audio)) && p.cur.audio != env.pos.audio == q.cur.audio ==>
              Tells(e, p, q, env)
    ensures e == Some(StillFrame(p.cur.still)) && q.cur == p.cur && p.cur.still != 0 ==> Tells(e, p, q, env)
  {
  }

  predicate HopAndButtonSettled(p: Player, env: Env) {
    p.cur.hop == env.pos.hop && p.cur.button == env.pos.button
  }

  predicate CellSettled(p: Player, env: Env) {
    && HopAndButtonSettled(p, env) && !p.syncWait && p.cur.vts == env.pos.vts && p.cur.domain == env.pos.domain
    && p.cur.cell == env.pos.cell && p.cur.restart == env.pos.restart && p.cur.start == env.pos.start
  }

  /** An event comes only when there is nothing to report that goes before it. */
  predicate InTurn(e: Option<Event>, p: Player, env: Env) {
    e.Some? ==>
      match e.value
      case Stop => env.stopped
      case HopChannel => p.cur.hop != env.pos.hop
      case Highlight(_) => p.cur.hop == env.pos.hop
      case Wait => HopAndButtonSettled(p, env) && p.syncWait
      case VtsChange(_, _, _, _) => HopAndButtonSettled(p, env) && !p.syncWait
      case CellChange =>
        HopAndButtonSettled(p, env) && !p.syncWait && p.cur.vts == env.pos.vts && p.cur.domain == env.pos.domain
      case ClutChange => CellSettled(p, env) && p.clutChanged
      case SpuChange => CellSettled(p, env) && !p.clutChanged && p.cur.spu != env.pos.spu
      case AudioChange(_) => CellSettled(p, env) && !p.clutChanged && p.cur.spu == env.pos.spu
      case StillFrame(_) =>
        CellSettled(p, env) && !p.clutChanged && p.cur.spu == env.pos.spu && p.cur.audio == env.pos.audio
      case _ =>
        && CellSettled(p, env) && !p.clutChanged && p.cur.spu == env.pos.spu && p.cur.audio == env.pos.audio
        && p.cur.still == 0
  }

  lemma EventsInTurn(disc: Disc, p: Player, env: Env)
    ensures InTurn(Call(disc, p, env).1.event, p, env)
    ensures env.stopped && (p.started || env.starts) ==> Call(disc, p, env).1.event == Some(Stop)
  {
    hide Hop, ChangeVts, ChangeCell, NextVobu, NextBlock, EndCell;
    EventKinds(disc, p.(started := true), env);
  }

  /** Which events the branches report. */
  lemma EventKinds(disc: Disc, s: Player, env: Env)
    ensures var e := Hop(disc, s, env).1.event; e.None? || e == Some(HopChannel)
    ensures var e := ChangeVts(s, env).1.event; e.None? || e.value.VtsChange?
    ensures ChangeCell(s, env).1.event == Some(CellChange) && EndCell(s, env).1.event == Some(Nop)
    ensures var e := NextVobu(disc, s, env).1.event; e.None? || e.value.NavPacket?
    ensures var e := NextBlock(disc, s).1.event; e.None? || e.value.BlockOk?
  {
    hide GetVobu, Fetch, Remapped, FileFor;
  }

  /** A block that cannot be read is an error, and the next call goes on to the sector after it. */
  lemma FailedBlockIsSkipped(disc: Disc, p: Player, env: Env)
    requires p.started && !env.stopped && CellSettled(p, env) && !p.clutChanged
    requires p.cur.spu == env.pos.spu && p.cur.audio == env.pos.audio && p.cur.still == 0
    requires p.vobu.blockN < p.vobu.length && p.file.Some? && p.vobu.start + p.vobu.blockN + 1 >= 0
    requires disc(p.file.value, p.vobu.start + p.vobu.blockN + 1).Unreadable?
    ensures Call(disc, p, env) == (p.(vobu := p.vobu.(blockN := p.vobu.blockN + 1)), Error())
  {
    hide Hop, ChangeVts, ChangeCell, NextVobu, EndCell;
  }

  /** A seek among angles that finds no NAV packet fails and changes nothing, so the next call seeks again. */
  lemma FailedSeekIsRetried(disc: Disc, p: Player, env: Env)
    requires p.started && !env.stopped && env.pos.hop - p.cur.hop >= HOP_SEEK && env.angles > 1
    requires p.file.None? || env.pos.start + env.pos.block < 0
             || !disc(p.file.value, env.pos.start + env.pos.block).NavPack?
    ensures Call(disc, p, env) == (p, Error())
  {
    hide ChangeVts, ChangeCell, NextVobu, NextBlock, EndCell, GetVobu;
  }

  /** A stop keeps the place: once the machine starts again, calls go on as if there had been none, and
      until then they fail. */
  lemma StopKeepsPlace(disc: Disc, p: Player, stop: Env, env: Env)
    requires p.started && stop.stopped
    ensures var (q, r) := Call(disc, p, stop);
            && r.event == Some(Stop)
            && Call(disc, q, env) == if env.starts then Call(disc, p, env) else (q, Error())
  {
    hide Running;
    assert p.(started := false).(started := true) == p;
  }

  /** The NAV packet last left by a command stays the same until a NAV packet with its sector comes by:
      then, and only then, it is forgotten. */
  lemma FilterReleased(disc: Disc, p: Player, env: Env)
    ensures var (q, r) := Call(disc, p, env);
            Filters(r, p, q)
  {
    hide Hop, ChangeVts, ChangeCell, NextVobu, NextBlock, EndCell, Call;
    CallFacts(disc, p, env);
    OthersFilter(disc, p.(started := true), env);
  }

  predicate Filters(r: Result, p: Player, q: Player) {
    q.lastCmdNav
    == if r.event.Some? && r.event.value.NavPacket? && q.navLbn == p.lastCmdNav then END_OF_CELL else p.lastCmdNav
  }

  /** No NAV packet with this sector comes by in a row of calls. */
  predicate NotAgain(disc: Disc, p: Player, envs: seq<Env>, lbn: int)
    decreases |envs|
  {
    |envs| > 0 ==>
      var (q, r) := Call(disc, p, envs[0]);
      && (r.event.Some? && r.event.value.NavPacket? ==> q.navLbn != lbn)
      && NotAgain(disc, q, envs[1..], lbn)
  }

  /** A menu left by a button stays left, for selection and activation, until its NAV packet comes by again. */
  lemma {:induction false} LeftStaysLeft(disc: Disc, p: Player, op: AppOp, envs: seq<Env>, env: Env)
    requires op.ActivateButton? || op.LeaveStill?
    requires NotAgain(disc, Apply(p, op), envs, p.navLbn)
    ensures var q := Left(disc, Apply(p, op), envs);
            var (t, r) := Call(disc, q, env);
            && q.lastCmdNav == p.navLbn
            && (r.event.Some? && r.event.value.NavPacket? && t.navLbn == p.navLbn ==> t.lastCmdNav == END_OF_CELL)
  {
    hide Call;
    var s := Apply(p, op);
    assert s.lastCmdNav == p.navLbn;
    FilterKept(disc, s, envs, p.navLbn);
    FilterReleased(disc, Left(disc, s, envs), env);
  }

  lemma {:induction false} FilterKept(disc: Disc, p: Player, envs: seq<Env>, lbn: int)
    requires p.lastCmdNav == lbn && NotAgain(disc, p, envs, lbn)
    ensures Left(disc, p, envs).lastCmdNav == lbn
    decreases |envs|
  {
    hide Call;
    if |envs| > 0 {
      FilterReleased(disc, p, envs[0]);
      FilterKept(disc, Call(disc, p, envs[0]).0, envs[1..], lbn);
    }
  }

  lemma OthersFilter(disc: Disc, s: Player, env: Env)
    ensures Filters(Hop(disc, s, env).1, s, Hop(disc, s, env).0)
    ensures Filters(ChangeVts(s, env).1, s, ChangeVts(s, env).0)
    ensures Filters(ChangeCell(s, env).1, s, ChangeCell(s, env).0)
    ensures Filters(NextVobu(disc, s, env).1, s, NextVobu(disc, s, env).0)
    ensures Filters(NextBlock(disc, s).1, s, NextBlock(disc, s).0)
    ensures Filters(EndCell(s, env).1, s, EndCell(s, env).0)
  {
    hide NextVobu, NextBlock, EndCell, GetVobu, Fetch, FileFor;
    VobusFilter(disc, s, env);
  }

  lemma VobusFilter(disc: Disc, s: Player, env: Env)
    ensures Filters(NextVobu(disc, s, env).1, s, NextVobu(disc, s, env).0)
    ensures Filters(NextBlock(disc, s).1, s, NextBlock(disc, s).0)
    ensures Filters(EndCell(s, env).1, s, EndCell(s, env).0)
  {
    hide GetVobu, Fetch, Remapped;
  }

  // ----- stills and waits -------------------------------------------------------------------

  /** Whether an action moves past a cell whose still is not zero, or past one that has a still or
      a highlighted menu. */
  predicate PastStill(disc: Disc, p: Player, a: Action) {
    a.Calling? && Call(disc, p, a.env).1.advance && a.env.pos.still != 0
  }

  predicate PastStillOrMenu(disc: Disc, p: Player, a: Action) {
    a.Calling? && Call(disc, p, a.env).1.advance && (a.env.pos.still != 0 || p.menu)
  }

  function One(b: bool): nat { if b then 1 else 0 }

  function PassedStills(disc: Disc, p: Player, acts: seq<Action>): nat {
    if |acts| == 0 then 0
    else
      var n := |acts| - 1;
      PassedStills(disc, p, acts[..n]) + One(PastStill(disc, ActAll(disc, p, acts[..n]), acts[n]))
  }

  function PassedStillsOrMenus(disc: Disc, p: Player, acts: seq<Action>): nat {
    if |acts| == 0 then 0
    else
      var n := |acts| - 1;
      PassedStillsOrMenus(disc, p, acts[..n]) + One(PastStillOrMenu(disc, ActAll(disc, p, acts[..n]), acts[n]))
  }

  function Count(acts: seq<Action>, op: AppOp): nat {
    if |acts| == 0 then 0
    else Count(acts[..|acts| - 1], op) + One(acts[|acts| - 1] == Doing(op))
  }

  /** Only the end of a cell advances, and it uses up the permissions it needs. */
  lemma AdvanceUsesPermission(disc: Disc, p: Player, env: Env)
    ensures var (q, r) := Call(disc, p, env);
            if r.advance then
              && !q.skipStill && !q.syncWaitSkip
              && (env.pos.still != 0 ==> p.skipStill) && (env.pos.still != 0 || p.menu ==> p.syncWaitSkip)
            else q.skipStill == p.skipStill && q.syncWaitSkip == p.syncWaitSkip
  {
    hide Hop, NextVobu, NextBlock, FileFor, Call;
    CallFacts(disc, p, env);
    var s := p.(started := true);
    if Hopped(s, env) {
      HopFacts(disc, s, env);
    } else if s.cur.button != env.pos.button || s.syncWait {
    } else if FileChanged(s, env) {
    } else if CellChanged(s, env) {
    } else if s.vobu.blockN < s.vobu.length {
      NextBlockFacts(disc, s);
    } else {
      NextVobuFacts(disc, s, env);
    }
  }

  lemma ActUsesPermission(disc: Disc, p: Player, a: Action)
    ensures One(PastStill(disc, p, a)) + One(Act(disc, p, a).skipStill)
         <= One(p.skipStill) + One(a == Doing(StillSkip))
    ensures One(PastStillOrMenu(disc, p, a)) + One(Act(disc, p, a).syncWaitSkip)
         <= One(p.syncWaitSkip) + One(a == Doing(StillSkip)) + One(a == Doing(WaitSkip))
  {
    hide Call, Apply;
    if a.Calling? {
      AdvanceUsesPermission(disc, p, a.env);
    } else {
      ApplyFacts(p, a.op);
    }
  }

  /** No call moves on past a cell with a still, at its end, without a still_skip call of its own,
      nor past one with a still or menu without a still_skip or wait_skip call of its own. */
  lemma {:induction false} StillsAreConserved(disc: Disc, p: Player, acts: seq<Action>)
    requires !p.skipStill && !p.syncWaitSkip
    ensures var q := ActAll(disc, p, acts);
            && PassedStills(disc, p, acts) + One(q.skipStill) <= Count(acts, StillSkip)
            && PassedStillsOrMenus(disc, p, acts) + One(q.syncWaitSkip)
               <= Count(acts, StillSkip) + Count(acts, WaitSkip)
  {
    hide Act, PastStill, PastStillOrMenu;
    if |acts| > 0 {
      var n := |acts| - 1;
      StillsAreConserved(disc, p, acts[..n]);
      ActUsesPermission(disc, ActAll(disc, p, acts[..n]), acts[n]);
    }
  }

  // ----- draining events --------------------------------------------------------------------

  /** Nothing to report before playback goes on, apart from waits and stills. */
  predicate Settled(p: Player, pos: Position) {
    && p.started && p.cur.hop == pos.hop && p.cur.button == pos.button
    && p.cur.vts == pos.vts && p.cur.domain == pos.domain
    && p.cur.cell == pos.cell && p.cur.restart == pos.restart && p.cur.start == pos.start
    && p.cur.spu == pos.spu && p.cur.audio == pos.audio && !p.clutChanged
  }

  predicate IsControl(e: Event) {
    e.HopChannel? || e.Highlight? || e.VtsChange? || e.CellChange? || e.ClutChange? || e.SpuChange? || e.AudioChange?
  }

  /** The virtual machine stays at a place: all that is compared is fixed. */
  predicate Place(env: Env, pos: Position) {
    && env.pos.button == pos.button && env.pos.vts == pos.vts && env.pos.domain == pos.domain
    && env.pos.spu == pos.spu && env.pos.audio == pos.audio && env.pos.hop == pos.hop
    && env.pos.cell == pos.cell && env.pos.restart == pos.restart && env.pos.start == pos.start
  }

  /** How many control events can still come: a change of file forces a change of cell, and that
      forces the palette and both streams to be reported. */
  function Pending(p: Player, pos: Position): nat {
    var cell := p.cur.cell != pos.cell || p.cur.restart != pos.restart || p.cur.start != pos.start;
    var vts := p.cur.vts != pos.vts || p.cur.domain != pos.domain;
    One(p.cur.hop != pos.hop) + One(p.cur.button != pos.button)
    + if vts then 5 else if cell then 4
      else One(p.clutChanged) + One(p.cur.spu != pos.spu) + One(p.cur.audio != pos.audio)
  }

  predicate Reports(r: Result) {
    r.event.Some? && IsControl(r.event.value)
  }

  /** No call, whatever it returns, adds a control event to those that can still come, and each that
      comes takes one off. */
  lemma ControlDrains(disc: Disc, p: Player, env: Env, pos: Position)
    requires Place(env, pos) && pos.cell != -1
    ensures var (q, r) := Call(disc, p, env);
            Pending(q, pos) + One(Reports(r)) <= Pending(p, pos) <= 7
  {
    hide Hop, NextVobu, NextBlock, EndCell, FileFor, Call, Pending, Hopped, FileChanged, CellChanged;
    CallFacts(disc, p, env);
    PendingSees(p, p.(started := true), pos);
    PendingSees(p, p.(started := false), pos);
    var s := p.(started := true);
    RunningDrains(disc, s, env, pos);
  }

  lemma PendingSees(p: Player, q: Player, pos: Position)
    requires q.cur == p.cur.(still := q.cur.still) && q.clutChanged == p.clutChanged
    ensures Pending(q, pos) == Pending(p, pos) <= 7
  {
  }

  lemma HopDrains(disc: Disc, s: Player, env: Env, pos: Position)
    requires Hopped(s, env) && Place(env, pos)
    ensures var (q, r) := Hop(disc, s, env);
            Pending(q, pos) + One(Reports(r)) <= Pending(s, pos)
  {
    hide Hop;
    HopFacts(disc, s, env);
  }

  lemma VtsDrains(s: Player, env: Env, pos: Position)
    requires FileChanged(s, env) && Place(env, pos) && pos.cell != -1
    ensures var (q, r) := ChangeVts(s, env);
            Pending(q, pos) + One(Reports(r)) <= Pending(s, pos)
  {
    hide FileFor;
  }

  lemma CellDrains(s: Player, env: Env, pos: Position)
    requires !FileChanged(s, env) && CellChanged(s, env) && Place(env, pos)
    ensures var (q, r) := ChangeCell(s, env);
            Pending(q, pos) + One(Reports(r)) <= Pending(s, pos)
  {
  }

  lemma ButtonDrains(s: Player, e: Event, pos: Position)
    requires s.cur.button != pos.button
    ensures Pending(s.(cur := s.cur.(button := pos.button)), pos) + One(Reports(Report(e))) <= Pending(s, pos)
  {
  }

  lemma ClutDrains(s: Player, e: Event, pos: Position)
    requires AtPlace(s, pos) && s.clutChanged
    ensures Pending(s.(clutChanged := false), pos) + One(Reports(Report(e))) <= Pending(s, pos)
  {
  }

  lemma SpuDrains(s: Player, e: Event, pos: Position)
    requires AtPlace(s, pos) && s.cur.spu != pos.spu
    ensures Pending(s.(cur := s.cur.(spu := pos.spu)), pos) + One(Reports(Report(e))) <= Pending(s, pos)
  {
  }

  lemma AudioDrains(s: Player, e: Event, pos: Position)
    requires AtPlace(s, pos) && s.cur.audio != pos.audio
    ensures Pending(s.(cur := s.cur.(audio := pos.audio)), pos) + One(Reports(Report(e))) <= Pending(s, pos)
  {
  }

  predicate AtPlace(s: Player, pos: Position) {
    s.cur.vts == pos.vts && s.cur.domain == pos.domain && s.cur.cell == pos.cell && s.cur.restart == pos.restart
    && s.cur.start == pos.start
  }

  lemma RunningDrains(disc: Disc, s: Player, env: Env, pos: Position)
    requires Place(env, pos) && pos.cell != -1
    ensures var (q, r) := Running(disc, s, env);
            Pending(q, pos) + One(Reports(r)) <= Pending(s, pos)
  {
    hide Hop, ChangeVts, ChangeCell, NextVobu, NextBlock, EndCell, FileFor, Pending, One;
    var (q, r) := Running(disc, s, env);
    if Hopped(s, env) {
      HopDrains(disc, s, env, pos);
    } else if s.cur.button != env.pos.button {
      ButtonDrains(s, r.event.value, pos);
    } else if s.syncWait {
      NothingDrains(s, q, r, pos);
    } else if FileChanged(s, env) {
      VtsDrains(s, env, pos);
    } else if CellChanged(s, env) {
      CellDrains(s, env, pos);
    } else if s.clutChanged {
      ClutDrains(s, r.event.value, pos);
    } else if s.cur.spu != env.pos.spu {
      SpuDrains(s, r.event.value, pos);
    } else if s.cur.audio != env.pos.audio {
      AudioDrains(s, r.event.value, pos);
    } else {
      NextVobuFacts(disc, s, env);
      NextBlockFacts(disc, s);
      EndCellFacts(s, env);
      NothingDrains(s, q, r, pos);
    }
  }

  lemma NothingDrains(s: Player, q: Player, r: Result, pos: Position)
    requires q.cur == s.cur.(still := q.cur.still) && q.clutChanged == s.clutChanged && !Reports(r)
    ensures Pending(q, pos) + One(Reports(r)) <= Pending(s, pos)
  {
    hide Reports;
  }

  /** The results of consecutive calls. */
  function Results(disc: Disc, p: Player, envs: seq<Env>): (rs: seq<Result>)
    ensures |rs| == |envs|
    decreases |envs|
  {
    if |envs| == 0 then []
    else
      var (q, r) := Call(disc, p, envs[0]);
      [r] + Results(disc, q, envs[1..])
  }

  function Left(disc: Disc, p: Player, envs: seq<Env>): Player
    decreases |envs|
  {
    if |envs| == 0 then p else Left(disc, Call(disc, p, envs[0]).0, envs[1..])
  }

  function Controls(rs: seq<Result>): nat {
    if |rs| == 0 then 0 else One(Reports(rs[0])) + Controls(rs[1..])
  }

  predicate AllControl(rs: seq<Result>) {
    forall i :: 0 <= i < |rs| ==> Reports(rs[i])
  }

  lemma {:induction false} CountAll(rs: seq<Result>)
    requires AllControl(rs)
    ensures Controls(rs) == |rs|
  {
    if |rs| > 0 {
      CountAll(rs[1..]);
    }
  }

  lemma {:induction false} ControlRun(disc: Disc, p: Player, envs: seq<Env>, pos: Position)
    requires pos.cell != -1 && forall i :: 0 <= i < |envs| ==> Place(envs[i], pos)
    ensures Controls(Results(disc, p, envs)) <= Pending(p, pos) <= 7
    decreases |envs|
  {
    hide Call, Pending, Place, Reports;
    if |envs| > 0 {
      var (q, r) := Call(disc, p, envs[0]);
      var rs := Results(disc, p, envs);
      assert rs[0] == r && rs[1..] == Results(disc, q, envs[1..]);
      ControlDrains(disc, p, envs[0], pos);
      ControlRun(disc, q, envs[1..], pos);
    } else {
      PendingSees(p, p, pos);
    }
  }

  /** From any state, with the virtual machine staying where it is, at most seven control events
      come in all, however many calls are made and whatever else they return; so among any eight
      calls one returns something else. */
  lemma {:induction false} EventsDrain(disc: Disc, p: Player, envs: seq<Env>, pos: Position)
    requires pos.cell != -1 && forall i :: 0 <= i < |envs| ==> Place(envs[i], pos)
    ensures Controls(Results(disc, p, envs)) <= 7
    ensures |envs| == 8 ==> exists i :: 0 <= i < 8 && !Reports(Results(disc, p, envs)[i])
  {
    ControlRun(disc, p, envs, pos);
    if AllControl(Results(disc, p, envs)) {
      CountAll(Results(disc, p, envs));
    }
  }

  /** Seven do come: a hop with a new button, title set, palette and streams. */
  lemma SevenInARow(disc: Disc)
    ensures var pos := Position(1, 1, VTS_DOMAIN, 1, 1, 1, 1, 0, 0, 0, 0);
            var env := Env(true, false, pos, 1, 1, true, None, 1, 1);
            AllControl(Results(disc, OPENED, [env, env, env, env, env, env, env]))
  {
    var pos := Position(1, 1, VTS_DOMAIN, 1, 1, 1, 1, 0, 0, 0, 0);
    var env := Env(true, false, pos, 1, 1, true, None, 1, 1);
    var p1 := OPENED.(started := true, cur := OPENED.cur.(hop := 1));
    assert Call(disc, OPENED, env) == (p1, Report(HopChannel));
    var p2 := p1.(cur := p1.cur.(button := 1));
    assert Call(disc, p1, env) == (p2, Report(Highlight(1)));
    var p3 := p2.(cur := p2.cur.(vts := 1, domain := VTS_DOMAIN, cell := -1, spu := -1, audio := -1),
                  file := Some(File(1, false)), clutChanged := true);
    assert Call(disc, p2, env) == (p3, Report(VtsChange(0, 0, 1, VTS_DOMAIN)));
    FourAfterVts(disc, p3, env);
    var envs := [env, env, env, env, env, env, env];
    assert envs[3..] == [env, env, env, env];
    assert envs[2..][1..] == envs[3..] && envs[1..][1..] == envs[2..];
    var rs := Results(disc, OPENED, envs);
    assert rs == [Report(HopChannel)] + Results(disc, p1, envs[1..]);
    assert rs[1..] == [Report(Highlight(1))] + Results(disc, p2, envs[2..]);
    assert rs[2..] == [Report(VtsChange(0, 0, 1, VTS_DOMAIN))] + Results(disc, p3, envs[3..]);
    assert rs == [Report(HopChannel), Report(Highlight(1)), Report(VtsChange(0, 0, 1, VTS_DOMAIN))]
                 + Results(disc, p3, envs[3..]);
  }

  lemma {:induction false} FourAfterVts(disc: Disc, p: Player, env: Env)
    requires p.started && !env.stopped && !p.syncWait && p.clutChanged
    requires p.cur == env.pos.(cell := -1, spu := -1, audio := -1, still := p.cur.still, block := p.cur.block)
    requires env.pos.cell != -1 && env.pos.spu != -1 && env.pos.audio != -1
    ensures AllControl(Results(disc, p, [env, env, env, env]))
  {
    var p4 := ChangeCell(p, env).0;
    assert Call(disc, p, env) == (p4, Report(CellChange));
    var p5 := p4.(clutChanged := false);
    assert Call(disc, p4, env) == (p5, Report(ClutChange));
    var p6 := p5.(cur := p5.cur.(spu := env.pos.spu));
    assert Call(disc, p5, env) == (p6, Report(SpuChange));
    assert Call(disc, p6, env).1 == Report(AudioChange(env.pos.audio));
    var envs := [env, env, env, env];
    assert envs[3..][1..] == [] && envs[2..][1..] == envs[3..] && envs[1..][1..] == envs[2..];
    assert Results(disc, p6, envs[3..]) == [Report(AudioChange(env.pos.audio))];
    assert Results(disc, p5, envs[2..]) == [Report(SpuChange)] + Results(disc, p6, envs[3..]);
    assert Results(disc, p4, envs[1..]) == [Report(ClutChange)] + Results(disc, p5, envs[2..]);
    assert Results(disc, p, envs) == [Report(CellChange)] + Results(disc, p4, envs[1..]);
  }

  // ----- an application that answers --------------------------------------------------------

  /** One call, after which the application answers a wait with wait_skip and a still with
      still_skip. */
  function Answered(disc: Disc, p: Player, env: Env): Player {
    var (q, r) := Call(disc, p, env);
    if r.event == Some(Wait) then Apply(q, WaitSkip)
    else if r.event.Some? && r.event.value.StillFrame? then Apply(q, StillSkip)
    else q
  }

  predicate AdvancesWithin(disc: Disc, p: Player, env: Env, n: nat)
    decreases n
  {
    n > 0 && (Call(disc, p, env).1.advance || AdvancesWithin(disc, Answered(disc, p, env), env, n - 1))
  }

  /** At the end of a cell with nothing else to report. */
  predicate AtCellEnd(p: Player, pos: Position) {
    Settled(p, pos) && p.vobu.blockN >= p.vobu.length && p.vobu.next == END_OF_CELL
  }

  /** The calls until the cell is left. */
  function CallsToGo(p: Player, still: bool): nat {
    if p.syncWait then 1 + AfterWait(p, still, true) else AfterWait(p, still, p.syncWaitSkip)
  }

  function AfterWait(p: Player, still: bool, skip: bool): nat {
    if p.cur.still != 0 then 2
    else if (still || p.menu) && !skip then if still then 4 else 3
    else if still && !p.skipStill then 3
    else 1
  }

  lemma AnswerBringsCloser(disc: Disc, p: Player, env: Env)
    requires AtCellEnd(p, env.pos) && !env.stopped
    ensures !Call(disc, p, env).1.advance ==>
              && AtCellEnd(Answered(disc, p, env), env.pos)
              && CallsToGo(Answered(disc, p, env), env.pos.still != 0) < CallsToGo(p, env.pos.still != 0)
    ensures CallsToGo(p, env.pos.still != 0) <= 4
  {
    hide Hop, ChangeVts, ChangeCell, NextVobu, NextBlock;
  }

  lemma {:induction false} AdvancesInTime(disc: Disc, p: Player, env: Env)
    requires AtCellEnd(p, env.pos) && !env.stopped
    ensures AdvancesWithin(disc, p, env, CallsToGo(p, env.pos.still != 0))
    decreases CallsToGo(p, env.pos.still != 0)
  {
    hide Call, Answered;
    AnswerBringsCloser(disc, p, env);
    if !Call(disc, p, env).1.advance {
      AdvancesInTime(disc, Answered(disc, p, env), env);
      AdvancesLater(disc, Answered(disc, p, env), env, CallsToGo(Answered(disc, p, env), env.pos.still != 0),
                    CallsToGo(p, env.pos.still != 0) - 1);
    }
  }

  lemma {:induction false} AdvancesLater(disc: Disc, p: Player, env: Env, m: nat, n: nat)
    requires AdvancesWithin(disc, p, env, m) && m <= n
    ensures AdvancesWithin(disc, p, env, n)
    decreases m
  {
    hide Call, Answered;
    if !Call(disc, p, env).1.advance {
      AdvancesLater(disc, Answered(disc, p, env), env, m - 1, n - 1);
    }
  }

  /** An application that answers waits and stills leaves a cell at its end in at most four calls. */
  lemma {:induction false} AnsweringAdvances(disc: Disc, p: Player, env: Env)
    requires AtCellEnd(p, env.pos) && !env.stopped
    ensures AdvancesWithin(disc, p, env, 4)
  {
    hide Call, Answered;
    AnswerBringsCloser(disc, p, env);
    AdvancesInTime(disc, p, env);
    AdvancesLater(disc, p, env, CallsToGo(p, env.pos.still != 0), 4);
  }

  /** At the end of a cell with a still of the virtual machine the application is first asked to wait,
      then told of the still and its length, and let go on when it has skipped both. */
  lemma StillIsReported(disc: Disc, p: Player, env: Env)
    requires AtCellEnd(p, env.pos) && !env.stopped && env.pos.still != 0
    requires p.cur.still == 0 && !p.syncWait && !p.syncWaitSkip
    ensures var (a, first) := Call(disc, p, env);
            var (b, second) := Call(disc, a, env);
            var (c, third) := Call(disc, Apply(b, WaitSkip), env);
            var (d, last) := Call(disc, Apply(c, StillSkip), env);
            && first == Report(Nop) && second == Report(Wait) && third == Report(StillFrame(env.pos.still))
            && last == Result(Some(Nop), true, None) && d == p.(skipStill := false)
  {
    hide Hop, ChangeVts, ChangeCell, NextVobu, NextBlock;
  }

  /** A jump, an activation or a skip of the still ends it: the next call does not report one. */
  lemma StillIsLeft(disc: Disc, p: Player, op: AppOp, env: Env)
    requires !op.WaitSkip? && !op.SelectButton?
    ensures var r := Call(disc, Apply(p, op), env).1;
            r.event.Some? ==> !r.event.value.StillFrame?
  {
    hide Call;
    PayloadsTell(disc, Apply(p, op), env);
  }

  // ----- resynchronisation ------------------------------------------------------------------

  /** The results of a run's actions; the application's operations have none. */
  function Trace(disc: Disc, p: Player, acts: seq<Action>): (t: seq<Option<Event>>)
    ensures |t| == |acts|
  {
    if |acts| == 0 then []
    else
      var n := |acts| - 1;
      Trace(disc, p, acts[..n]) + [Shown(disc, ActAll(disc, p, acts[..n]), acts[n])]
  }

  function Shown(disc: Disc, p: Player, a: Action): Option<Event> {
    match a
    case Calling(env) => Call(disc, p, env).1.event
    case Doing(_) => None
  }

  /** How far a trace has got after the latest change of file: 3 when nothing of cell, palette and
      NAV packet has been seen since, 0 when all three have, in this order. */
  function Missing(t: seq<Option<Event>>): nat {
    if |t| == 0 then 0 else Seen(Missing(t[..|t| - 1]), t[|t| - 1])
  }

  function Seen(missing: nat, e: Option<Event>): nat {
    if e.None? then missing
    else if e.value.VtsChange? then 3
    else if e.value.CellChange? && missing == 3 then 2
    else if e.value.ClutChange? && missing == 2 then 1
    else if e.value.NavPacket? && missing == 1 then 0
    else missing
  }

  /** What the handle looks like while something is missing. */
  predicate Waits(p: Player, missing: nat) {
    && missing <= 3
    && (missing == 3 ==> p.cur.cell == -1)
    && (missing == 2 ==> p.clutChanged)
    && (missing == 1 || missing == 2 ==> p.vobu.blockN >= p.vobu.length)
  }

  predicate Moved(p: Player, env: Env) {
    Hopped(p, env) || p.cur.button != env.pos.button || p.syncWait || FileChanged(p, env) || CellChanged(p, env)
  }

  lemma MovingKeepsWaiting(disc: Disc, s: Player, env: Env, missing: nat)
    requires Waits(s, missing) && Moved(s, env)
    ensures var (q, r) := Running(disc, s, env);
            Waits(q, Seen(missing, r.event)) && (r.event.Some? ==> !r.event.value.BlockOk?)
  {
    hide Hop, NextVobu, NextBlock, EndCell, FileFor;
    if Hopped(s, env) {
      HopFacts(disc, s, env);
    }
  }

  lemma StayingKeepsWaiting(disc: Disc, s: Player, env: Env, missing: nat)
    requires Waits(s, missing) && !Moved(s, env) && env.pos.cell != -1
    ensures var (q, r) := Running(disc, s, env);
            Waits(q, Seen(missing, r.event)) && (r.event.Some? && r.event.value.BlockOk? ==> missing == 0)
  {
    hide Hop, ChangeVts, ChangeCell, NextVobu, NextBlock, EndCell;
    if s.vobu.blockN < s.vobu.length {
      assert missing == 0;
      NextBlockFacts(disc, s);
      var (q, r) := Running(disc, s, env);
      assert Seen(missing, r.event) == 0;
    } else {
      EndCellFacts(s, env);
      NextVobuFacts(disc, s, env);
    }
  }

  lemma CallKeepsWaiting(disc: Disc, p: Player, env: Env, missing: nat)
    requires Waits(p, missing) && env.pos.cell != -1
    ensures var (q, r) := Call(disc, p, env);
            Waits(q, Seen(missing, r.event)) && (r.event.Some? && r.event.value.BlockOk? ==> missing == 0)
  {
    hide Running, Call;
    CallFacts(disc, p, env);
    var s := p.(started := true);
    if Moved(s, env) {
      MovingKeepsWaiting(disc, s, env, missing);
    } else {
      StayingKeepsWaiting(disc, s, env, missing);
    }
  }

  lemma ActKeepsWaiting(disc: Disc, p: Player, a: Action, missing: nat)
    requires Waits(p, missing) && (a.Calling? ==> a.env.pos.cell != -1)
    ensures Waits(Act(disc, p, a), Seen(missing, Shown(disc, p, a)))
    ensures Shown(disc, p, a).Some? && Shown(disc, p, a).value.BlockOk? ==> missing == 0
  {
    hide Call, Apply;
    if a.Calling? {
      CallKeepsWaiting(disc, p, a.env, missing);
    } else {
      ApplyFacts(p, a.op);
    }
  }

  predicate CellsKnown(acts: seq<Action>) {
    forall i :: 0 <= i < |acts| && acts[i].Calling? ==> acts[i].env.pos.cell != -1
  }

  lemma {:induction false} RunWaits(disc: Disc, acts: seq<Action>)
    requires CellsKnown(acts)
    ensures Waits(ActAll(disc, OPENED, acts), Missing(Trace(disc, OPENED, acts)))
    ensures |acts| > 0 ==> var e := Trace(disc, OPENED, acts)[|acts| - 1];
              e.Some? && e.value.BlockOk? ==> Missing(Trace(disc, OPENED, acts[..|acts| - 1])) == 0
  {
    hide Act, Waits, Seen, Shown;
    if |acts| > 0 {
      var n := |acts| - 1;
      var t := Trace(disc, OPENED, acts);
      RunWaits(disc, acts[..n]);
      assert t[..n] == Trace(disc, OPENED, acts[..n]);
      ActKeepsWaiting(disc, ActAll(disc, OPENED, acts[..n]), acts[n], Missing(t[..n]));
    } else {
      OpenedWaits();
    }
  }

  lemma OpenedWaits()
    ensures Waits(OPENED, 0)
  {
  }

  /** When nothing is missing after a change of file, the three events are there, in order. */
  ghost predicate InOrder(t: seq<Option<Event>>, i: nat) {
    exists a, b, c :: i < a < b < c < |t| && At(t, a, CellChange) && At(t, b, ClutChange) && IsNav(t, c)
  }

  predicate At(t: seq<Option<Event>>, i: nat, e: Event) {
    i < |t| && t[i] == Some(e)
  }

  predicate IsNav(t: seq<Option<Event>>, i: nat) {
    i < |t| && t[i].Some? && t[i].value.NavPacket?
  }

  ghost predicate Half(t: seq<Option<Event>>, i: nat) {
    exists a, b :: i < a < b < |t| && At(t, a, CellChange) && At(t, b, ClutChange)
  }

  ghost predicate Third(t: seq<Option<Event>>, i: nat) {
    exists a :: i < a < |t| && At(t, a, CellChange)
  }

  /** From a change of file at i on, what is no longer missing has been seen. */
  lemma {:induction false} MissingMeans(t: seq<Option<Event>>, i: nat)
    requires i < |t| && t[i].Some? && t[i].value.VtsChange?
    ensures Missing(t) <= 3
    ensures Missing(t) <= 2 ==> Third(t, i)
    ensures Missing(t) <= 1 ==> Half(t, i)
    ensures Missing(t) == 0 ==> InOrder(t, i)
  {
    var n := |t| - 1;
    if i < n {
      var u := t[..n];
      MissingMeans(u, i);
      assert forall k :: 0 <= k < n ==> u[k] == t[k];
      if Third(u, i) {
        var a :| i < a < n && At(u, a, CellChange);
        assert At(t, a, CellChange);
        assert t[n] == Some(ClutChange) ==> At(t, n, ClutChange);
      }
      if Half(u, i) {
        var a, b :| i < a < b < n && At(u, a, CellChange) && At(u, b, ClutChange);
        assert At(t, a, CellChange) && At(t, b, ClutChange);
        assert t[n].Some? && t[n].value.NavPacket? ==> IsNav(t, n);
      }
      if InOrder(u, i) {
        var a, b, c :| i < a < b < c < n && At(u, a, CellChange) && At(u, b, ClutChange) && IsNav(u, c);
        assert At(t, a, CellChange) && At(t, b, ClutChange) && IsNav(t, c);
      }
      assert t[n] == Some(CellChange) ==> At(t, n, CellChange);
    }
  }

  /** In every run from dvdnav_open on, between a change of file and any block delivered after it
      there are a change of cell, a change of palette and a NAV packet, in this order. */
  lemma {:induction false} Resynchronises(disc: Disc, acts: seq<Action>, i: nat, j: nat)
    requires CellsKnown(acts) && i < j < |acts|
    requires var t := Trace(disc, OPENED, acts);
             t[i].Some? && t[i].value.VtsChange? && t[j].Some? && t[j].value.BlockOk?
    ensures InOrder(Trace(disc, OPENED, acts)[..j], i)
  {
    hide Missing, Waits, Act, Shown, InOrder, Half, Third, Trace;
    TracePrefix(disc, OPENED, acts, j + 1);
    TracePrefix(disc, OPENED, acts, j);
    RunWaits(disc, acts[..j + 1]);
    assert acts[..j + 1][..j] == acts[..j];
    var t := Trace(disc, OPENED, acts[..j]);
    MissingMeans(t, i);
  }

  lemma {:induction false} TracePrefix(disc: Disc, p: Player, acts: seq<Action>, n: nat)
    requires n <= |acts|
    ensures Trace(disc, p, acts[..n]) == Trace(disc, p, acts)[..n]
  {
    if n < |acts| {
      var m := |acts| - 1;
      TracePrefix(disc, p, acts[..m], n);
      assert acts[..m][..n] == acts[..n];
    } else {
      assert acts[..n] == acts;
    }
  }
}
