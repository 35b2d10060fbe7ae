/** dvdnav.c and navigation.c in the form they have: a handle whose fields each call updates. */
module Player {
  import SkipMap
  import opened PlayerModel
  import opened PlayerRuns

  /** What has happened to a handle since it was opened: the calls that skip a still or a wait, the
      ends of cells passed in spite of a still, or of a still or menu, how much of cell, palette and
      NAV packet is missing since the latest change of file, and whether the virtual machine has
      always named a cell. */
  datatype Tally = Tally(stillSkips: nat, waitSkips: nat, passedStills: nat, passedAny: nat, missing: nat, named: bool)

  class Handle {
    const disc: Disc
    var cur: Position              // position_current
    var vobu: Vobu
    var file: Option<File>
    var menu: bool                 // pci.hli.hl_gi.hli_ss
    var navLbn: int                // pci.pci_gi.nv_pck_lbn
    var lastCmdNav: int
    var skipStill: bool
    var syncWait: bool
    var syncWaitSkip: bool
    var clutChanged: bool
    var started: bool
    var cellTime: int
    ghost var tally: Tally

    function Now(): PlayerModel.Player
      reads this
    {
      PlayerModel.Player(cur, vobu, file, menu, navLbn, lastCmdNav, skipStill, syncWait, syncWaitSkip, clutChanged,
                         started, cellTime)
    }

    /** The open file is the right one or none; no still, and no still or menu, was passed without a
        call of its own; and what is missing shows in the fields. */
    ghost predicate Valid()
      reads this
    {
      && RightFile(Now())
      && tally.passedStills + One(skipStill) <= tally.stillSkips
      && tally.passedAny + One(syncWaitSkip) <= tally.stillSkips + tally.waitSkips
      && (tally.named ==> Waits(Now(), tally.missing))
    }

    /** dvdnav_open, which ends with dvdnav_clear. */
    constructor (disc: Disc)
      ensures Valid() && Now() == OPENED && this.disc == disc && tally == Tally(0, 0, 0, 0, 0, true)
    {
      this.disc := disc;
      tally := Tally(0, 0, 0, 0, 0, true);
      cur, vobu := Position(0, 0, 0, 0, 0, 0, 0, 0, 0, 0, 0), Vobu(0, 0, 0, 0);
      file, menu, navLbn, lastCmdNav := None, false, 0, END_OF_CELL;
      skipStill, syncWait, syncWaitSkip, clutChanged, started := false, false, false, false, false;
      cellTime := 0;
    }

    // ----- navigation.c ---------------------------------------------------------------------

    /** dvdnav_still_skip. */
    method DoStillSkip()
      requires Valid()
      modifies this
      ensures Valid() && Now() == Apply(old(Now()), StillSkip)
      ensures tally == old(tally).(stillSkips := old(tally).stillSkips + 1)
    {
      cur := cur.(still := 0);
      skipStill := true;
      syncWait := false;
      syncWaitSkip := true;
      tally := tally.(stillSkips := tally.stillSkips + 1);
    }

    /** dvdnav_wait_skip. */
    method DoWaitSkip()
      requires Valid()
      modifies this
      ensures Valid() && Now() == Apply(old(Now()), WaitSkip)
      ensures tally == old(tally).(waitSkips := old(tally).waitSkips + 1)
    {
      syncWait := false;
      syncWaitSkip := true;
      tally := tally.(waitSkips := tally.waitSkips + 1);
    }

    // ----- dvdnav.c -------------------------------------------------------------------------

    /** dvdnav_get_vobu. */
    method ReadVobu(nav: Nav, angles: int, angle: int)
      modifies this`vobu
      ensures var (start, length, next) := GetVobu(nav, angles, angle);
              vobu == old(vobu).(start := start, length := length, next := next)
    {
      vobu := vobu.(start := nav.lbn, length := nav.end);
      vobu := vobu.(next := nav.next % 0x4000_0000);
      if angles != 0 {
        var next := Entry(nav.nonSeamless, angle);
        if next != 0 {
          if next % 0x4000_0000 != 0 {
            vobu := vobu.(next := Signed(next));
          }
        } else {
          next := Entry(nav.seamless, angle);
          if next != 0 {
            vobu := vobu.(length := nav.ilvuEnd);
            vobu := vobu.(next := Signed(next));
          }
        }
      }
    }

    /** dvdnav_get_next_cache_block. A block comes only when nothing is missing since the latest change
        of file, and from the file for the current title set and domain. */
    method GetNextCacheBlock(env: Env) returns (r: Result)
      requires Valid()
      modifies this
      ensures Valid() && (Now(), r) == Call(disc, old(Now()), env)
      ensures tally == old(tally).(passedStills := old(tally).passedStills + One(r.advance && env.pos.still != 0),
                                   passedAny := old(tally).passedAny
                                                + One(r.advance && (env.pos.still != 0 || old(menu))),
                                   missing := Seen(old(tally).missing, r.event),
                                   named := old(tally).named && env.pos.cell != -1)
      ensures IsBlock(r) ==>
                && file.Some? && (file.value.menu <==> cur.domain != VTS_DOMAIN)
                && (cur.domain == FP_DOMAIN || cur.domain == VMGM_DOMAIN ==> file.value.vts == 0)
                && (cur.domain == VTSM_DOMAIN || cur.domain == VTS_DOMAIN ==> file.value.vts == cur.vts)
                && (tally.named ==> old(tally).missing == 0)
    {
      hide Call, Waits, FileFor;
      ghost var was, menuWas, known := Now(), menu, tally.named && env.pos.cell != -1;
      r := NextEvent(env);
      CallKeepsFile(disc, was, env);
      AdvanceUsesPermission(disc, was, env);
      if known {
        CallKeepsWaiting(disc, was, env, tally.missing);
      }
      BlocksHaveFiles(disc, was, env);
      tally := tally.(passedStills := tally.passedStills + One(r.advance && env.pos.still != 0),
                      passedAny := tally.passedAny + One(r.advance && (env.pos.still != 0 || menuWas)),
                      missing := Seen(tally.missing, r.event), named := known);
    }

    /** Its body. */
    method NextEvent(env: Env) returns (r: Result)
      modifies this
      ensures (Now(), r) == Call(disc, old(Now()), env) && tally == old(tally)
    {
      hide Hop, ChangeVts, ChangeCell, EndCell, NextVobu, NextBlock;
      if !started {
        if !env.starts {
          return Error();
        }
        started := true;
      }
      if env.stopped {
        started := false;
        return Report(Stop);
      }
      if cur.hop != env.pos.hop {
        r := DoHop(env);
        return;
      }
      if cur.button != env.pos.button {
        cur := cur.(button := env.pos.button);
        return Report(Highlight(env.pos.button));
      }
      if syncWait {
        return Report(Wait);
      }
      if cur.vts != env.pos.vts || cur.domain != env.pos.domain {
        r := DoChangeVts(env);
        return;
      }
      if cur.cell != env.pos.cell || cur.restart != env.pos.restart || cur.start != env.pos.start {
        r := DoChangeCell(env);
        return;
      }
      if clutChanged {
        clutChanged := false;
        return Report(ClutChange);
      }
      if cur.spu != env.pos.spu {
        cur := cur.(spu := env.pos.spu);
        return Report(SpuChange);
      }
      if cur.audio != env.pos.audio {
        cur := cur.(audio := env.pos.audio);
        return Report(AudioChange(env.pos.audio));
      }
      if cur.still != 0 {
        return Report(StillFrame(cur.still));
      }
      if vobu.blockN >= vobu.length {
        if vobu.next == END_OF_CELL {
          r := DoEndCell(env);
          return;
        }
        r := DoNextVobu(env);
        return;
      }
      r := DoNextBlock();
    }

    /** The hop branch. */
    method DoHop(env: Env) returns (r: Result)
      modifies this
      ensures (Now(), r) == Hop(disc, old(Now()), env) && tally == old(tally)
    {
      hide GetVobu, Fetch;
      var block: Option<int> := None;
      if env.pos.hop - cur.hop >= HOP_SEEK {
        if env.angles > 1 {
          // The seek may have landed on another angle.
          var found := Fetch(disc, file, env.pos.start + env.pos.block);
          if !found.NavPack? {
            return Error();
          }
          menu, navLbn := found.nav.menu, found.nav.pciLbn;
          ReadVobu(found.nav, env.angles, env.angle);
          if vobu.next != END_OF_CELL {
            vobu := vobu.(start := vobu.start + vobu.next);
            vobu := vobu.(next := 0);
          }
          block := Some(vobu.start - env.pos.start);
        }
      }
      cur := cur.(hop := env.pos.hop);
      vobu := vobu.(start := env.pos.start + env.pos.block);
      vobu := vobu.(next := 0);
      vobu := vobu.(length := 0);
      vobu := vobu.(blockN := 0);
      syncWait := false;
      r := Result(Some(HopChannel), false, block);
    }

    /** The branch that opens another VOB. */
    method DoChangeVts(env: Env) returns (r: Result)
      modifies this
      ensures (Now(), r) == ChangeVts(old(Now()), env) && tally == old(tally)
      ensures RightFile(Now()) && (file.Some? <==> r.event.Some?)
      ensures file.Some? <==> env.pos.domain in {FP_DOMAIN, VMGM_DOMAIN, VTSM_DOMAIN, VTS_DOMAIN} && env.opens
    {
      file := None;
      var oldVts, oldDomain := cur.vts, cur.domain;
      var menuVobs, vtsN;
      if env.pos.domain == FP_DOMAIN || env.pos.domain == VMGM_DOMAIN {
        menuVobs, vtsN := true, 0;
      } else if env.pos.domain == VTSM_DOMAIN {
        menuVobs, vtsN := true, env.pos.vts;
      } else if env.pos.domain == VTS_DOMAIN {
        menuVobs, vtsN := false, env.pos.vts;
      } else {
        return Error();
      }
      cur := cur.(vts := env.pos.vts);
      cur := cur.(domain := env.pos.domain);
      file := if env.opens then Some(File(vtsN, menuVobs)) else None;
      if file.None? {
        return Error();
      }
      clutChanged := true;
      cur := cur.(cell := -1);
      cur := cur.(spu := -1);
      cur := cur.(audio := -1);
      r := Report(VtsChange(oldVts, oldDomain, env.pos.vts, env.pos.domain));
    }

    /** The branch for another cell. */
    method DoChangeCell(env: Env) returns (r: Result)
      modifies this
      ensures (Now(), r) == ChangeCell(old(Now()), env) && tally == old(tally)
    {
      cellTime := 0;
      cur := cur.(cell := env.pos.cell);
      cur := cur.(restart := env.pos.restart);
      cur := cur.(start := env.pos.start);
      cur := cur.(block := env.pos.block);
      vobu := vobu.(start := env.pos.start + env.pos.block);
      vobu := vobu.(next := 0);
      vobu := vobu.(length := 0);
      vobu := vobu.(blockN := 0);
      clutChanged := true;
      cur := cur.(spu := -1);
      cur := cur.(audio := -1);
      r := Report(CellChange);
    }

    /** The end of a cell. */
    method DoEndCell(env: Env) returns (r: Result)
      modifies this
      ensures (Now(), r) == EndCell(old(Now()), env) && tally == old(tally)
    {
      var advance := false;
      cur := cur.(still := env.pos.still);
      if (cur.still != 0 || menu) && !syncWaitSkip {
        syncWait := true;
      } else {
        if cur.still == 0 || skipStill {
          advance := true;
          cur := cur.(still := 0);
          skipStill := false;
          syncWaitSkip := false;
        }
      }
      r := Result(Some(Nop), advance, None);
    }

    /** The start of a VOBU. */
    method DoNextVobu(env: Env) returns (r: Result)
      modifies this
      ensures (Now(), r) == NextVobu(disc, old(Now()), env) && tally == old(tally)
    {
      hide GetVobu, Fetch, SkipMap.Remap;
      if env.skipMap.Some? && vobu.start + vobu.next >= 0 {
        vobu := vobu.(next := SkipMap.Remap(env.skipMap.value, env.pos.domain, env.title, env.program,
                                                   vobu.start, vobu.next));
      }
      var sector := vobu.start + vobu.next;
      var found := Fetch(disc, file, sector);
      if !found.NavPack? {
        return Error();
      }
      menu, navLbn := found.nav.menu, found.nav.pciLbn;
      var blockN := vobu.start - cur.start;
      ReadVobu(found.nav, env.angles, env.angle);
      vobu := vobu.(blockN := 0);
      if lastCmdNav == navLbn {
        lastCmdNav := END_OF_CELL;
      }
      cellTime := found.nav.elapsed;
      r := Result(Some(NavPacket(sector)), false, Some(blockN));
    }

    /** A sector inside a VOBU. */
    method DoNextBlock() returns (r: Result)
      modifies this
      ensures (Now(), r) == NextBlock(disc, old(Now())) && tally == old(tally)
    {
      if file.None? {
        return Error();
      }
      vobu := vobu.(blockN := vobu.blockN + 1);
      var sector := vobu.start + vobu.blockN;
      if Fetch(disc, file, sector).Unreadable? {
        return Error();
      }
      r := Report(BlockOk(sector));
    }
  }
}
