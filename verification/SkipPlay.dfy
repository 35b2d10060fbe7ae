/** Playback with a skip map: where the jumps from VOBU to VOBU end. */
module SkipPlay {
  import opened PlayerModel
  import opened PlayerRuns
  import SkipMap
  import SkipJumps

  /** The program that the virtual machine is in, as the map names it. */
  function ProgramOf(env: Env): SkipMap.Region {
    SkipMap.Region(env.pos.domain, env.title, env.program, 0, 0)
  }

  /** A NAV packet comes from the sector that the map moves the next VOBU to; without a map, from the
      next VOBU itself. */
  lemma NavFollowsMap(disc: Disc, p: Player, env: Env, sector: int)
    requires Call(disc, p, env).1.event == Some(NavPacket(sector)) && p.vobu.start + p.vobu.next >= 0
    ensures sector == if env.skipMap.Some?
                      then SkipJumps.Target(env.skipMap.value, ProgramOf(env), p.vobu.start + p.vobu.next)
                      else p.vobu.start + p.vobu.next
  {
    hide Hop, ChangeVts, NextVobu, NextBlock, Call;
    CallFacts(disc, p, env);
    var s := p.(started := true);
    HopFacts(disc, s, env);
    NextBlockFacts(disc, s);
    OnlyReports(s, env);
    NavSector(disc, s, env);
    VtsReports(s, env);
  }

  lemma VtsReports(s: Player, env: Env)
    ensures var e := ChangeVts(s, env).1.event;
            e.Some? ==> e.value.VtsChange?
  {
    hide FileFor;
  }

  lemma NavSector(disc: Disc, p: Player, env: Env)
    requires p.vobu.start + p.vobu.next >= 0
    ensures var e := NextVobu(disc, p, env).1.event;
            e.Some? ==>
              e == Some(NavPacket(if env.skipMap.Some?
                                  then SkipJumps.Target(env.skipMap.value, ProgramOf(env), p.vobu.start + p.vobu.next)
                                  else p.vobu.start + p.vobu.next))
  {
    hide GetVobu, Fetch;
    if env.skipMap.Some? {
      SkipJumps.RemapIsTarget(env.skipMap.value, env.pos.domain, env.title, env.program, p.vobu.start, p.vobu.next);
    }
  }

  /** So with a map on which jumps land only at ends, playback enters a region of it at most in its
      last sector when it goes on to another VOBU; and never before the VOBU that came next. */
  lemma {:induction false} NavSkipsRegions(disc: Disc, p: Player, env: Env, sector: int,
                                           regions: seq<SkipMap.Region>, k: nat)
    requires env.skipMap == Some(SkipMap.AddAll(regions)) && k < |regions|
    requires SkipJumps.LandsAtEnds(SkipMap.AddAll(regions), regions)
    requires Call(disc, p, env).1.event == Some(NavPacket(sector)) && p.vobu.start + p.vobu.next >= 0
    ensures sector >= p.vobu.start + p.vobu.next
    ensures SkipMap.In(regions[k], ProgramOf(env), sector) ==> sector == regions[k].end
  {
    hide Call, SkipMap.AddAll, SkipJumps.Target, SkipMap.In;
    NavFollowsMap(disc, p, env, sector);
    var t := SkipMap.AddAll(regions);
    SkipMap.RemapForward(t, env.pos.domain, env.title, env.program, p.vobu.start, p.vobu.next);
    SkipJumps.RemapIsTarget(t, env.pos.domain, env.title, env.program, p.vobu.start, p.vobu.next);
  }

  /** When there is no NAV packet where the map moves the next VOBU to, the call fails, and the next VOBU
      is from then on the one moved to. */
  lemma FailedNavStaysMoved(disc: Disc, p: Player, env: Env, x: nat)
    requires p.started && !env.stopped && CellSettled(p, env) && !p.clutChanged
    requires p.cur.spu == env.pos.spu && p.cur.audio == env.pos.audio && p.cur.still == 0
    requires p.vobu.blockN >= p.vobu.length && p.vobu.next != END_OF_CELL && p.vobu.start + p.vobu.next == x
    requires env.skipMap.Some? && p.file.Some?
    requires !disc(p.file.value, SkipJumps.Target(env.skipMap.value, ProgramOf(env), x)).NavPack?
    ensures var target := SkipJumps.Target(env.skipMap.value, ProgramOf(env), x);
            Call(disc, p, env) == (p.(vobu := p.vobu.(next := target - p.vobu.start)), Error())
  {
    hide Hop, ChangeVts, ChangeCell, NextBlock, EndCell, GetVobu;
    SkipJumps.RemapIsTarget(env.skipMap.value, env.pos.domain, env.title, env.program, p.vobu.start, p.vobu.next);
  }
}
