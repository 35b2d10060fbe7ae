/** The search of a VOBU address map: dvdnav_scan_admap of searching.c. */
module Searching {
  import opened PlayerModel

  type U32 = x: int | 0 <= x < 0x1_0000_0000

  /** vobu_adadmapt. The search may probe the slot one past the last, which is taken to be readable
      and to continue the order: `slots` includes it. `beyond` is what memory holds in the place of
      slot 20 when the table is shorter. */
  datatype Admap = Admap(lastByte: U32, slots: seq<U32>, beyond: U32)

  predicate Increasing(s: seq<U32>) {
    forall i, j :: 0 <= i < j < |s| ==> s[i] < s[j]
  }

  predicate WellFormed(m: Admap) {
    m.lastByte % 4 == 3 && |m.slots| == m.lastByte / 4 + 1 && Increasing(m.slots)
  }

  function Slot20(m: Admap): U32 {
    if |m.slots| > 20 then m.slots[20] else m.beyond
  }

  /** The search is linear, from the first slot on. */
  predicate Linear(m: Admap, target: U32) {
    m.lastByte > 20 && Slot20(m) >= target
  }

  /** The slot with the greatest start not above the target. */
  function Nearest(s: seq<U32>, target: U32): (g: nat)
    requires |s| > 0 && Increasing(s) && s[0] <= target
    ensures g < |s| && s[g] <= target && forall k :: g < k < |s| ==> target < s[k]
  {
    if s[|s| - 1] <= target then |s| - 1 else Nearest(s[..|s| - 1], target)
  }

  lemma {:induction false} NearestIs(s: seq<U32>, target: U32, g: nat)
    requires |s| > 0 && Increasing(s) && s[0] <= target
    requires g < |s| && s[g] <= target && (g + 1 < |s| ==> target < s[g + 1])
    ensures Nearest(s, target) == g
  {
    assert g <= Nearest(s, target);
  }

  /** How many slots bisection of the slots from first to last probes to reach slot k. */
  function Depth(first: nat, last: nat, k: nat): nat
    requires first <= k <= last
    decreases last - first
  {
    var mid := (first + last) / 2;
    if k == mid then 1 else if k < mid then 1 + Depth(first, mid - 1, k) else 1 + Depth(mid + 1, last, k)
  }

  /** Slot g is nearest to the target but not equal to it, and bisection reaches the slot after it
      later: there the bounds cross, and the search steps back once too often. */
  predicate StepsBack(s: seq<U32>, target: U32)
    requires |s| > 0 && Increasing(s) && s[0] <= target
  {
    var g := Nearest(s, target);
    s[g] < target && g + 1 < |s| && Depth(0, |s| - 1, g) < Depth(0, |s| - 1, g + 1)
  }

  /** The slot that a search takes; before the first when it steps back from that one. */
  function Taken(m: Admap, target: U32): (h: int)
    requires WellFormed(m) && m.slots[0] <= target
    ensures -1 <= h < |m.slots| && (h >= 0 ==> m.slots[h] <= target)
  {
    var g := Nearest(m.slots, target);
    if !Linear(m, target) && StepsBack(m.slots, target) then g - 1 else g
  }

  /** The slot that bisection probes last, for a target between slot g and the next. */
  function LastProbe(first: nat, last: nat, g: int): nat
    requires first <= last
    decreases last - first
  {
    var mid := (first + last) / 2;
    if mid <= g then (if mid < last then LastProbe(mid + 1, last, g) else mid)
    else if first < mid then LastProbe(first, mid - 1, g) else mid
  }

  /** Of the two slots around the target, bisection probes last the deeper one. */
  lemma {:induction false} LastProbeIsDeeper(first: nat, last: nat, g: int)
    requires first - 1 <= g <= last && first <= last
    ensures first <= g < last ==> LastProbe(first, last, g)
                                  == if Depth(first, last, g) < Depth(first, last, g + 1) then g + 1 else g
    ensures g == first - 1 ==> LastProbe(first, last, g) == first
    ensures g == last ==> LastProbe(first, last, g) == last
    decreases last - first
  {
    var mid := (first + last) / 2;
    if mid <= g {
      if mid < last {
        LastProbeIsDeeper(mid + 1, last, g);
      }
    } else if first < mid {
      LastProbeIsDeeper(first, mid - 1, g);
    }
  }

  /** The linear branch. */
  method ScanLinear(m: Admap, seekto: U32) returns (found: bool, vobu: U32)
    requires WellFormed(m)
    ensures found <==> m.slots[0] <= seekto <= m.slots[|m.slots| - 1] || END_OF_CELL < seekto < m.slots[0]
    ensures found && m.slots[0] <= seekto ==> vobu == m.slots[Nearest(m.slots, seekto)]
    ensures found && m.slots[0] > seekto ==> vobu == END_OF_CELL
  {
    var address: U32 := 0;
    var s := m.slots;
    vobu := END_OF_CELL;
    found := false;
    while !found && address * 4 < m.lastByte
      invariant address <= |s|
      invariant !found ==> vobu == if address == 0 then END_OF_CELL else s[address - 1]
      invariant !found && s[0] <= seekto ==> forall k :: 0 <= k < address ==> s[k] < seekto
      invariant !found && s[0] > seekto && address > 0 ==> END_OF_CELL >= seekto
      invariant found && s[0] <= seekto ==> seekto <= s[|s| - 1] && vobu == s[Nearest(s, seekto)]
      invariant found && s[0] > seekto ==> END_OF_CELL < seekto && vobu == END_OF_CELL
      decreases !found, |s| - address
    {
      var next := s[address];
      if next == seekto {
        vobu := next;
        found := true;
        NearestIs(s, seekto, address);
      } else if vobu < seekto && next > seekto {
        found := true;
        if address > 0 && s[0] <= seekto {
          NearestIs(s, seekto, address - 1);
        }
      } else {
        vobu := next;
      }
      address := address + 1;
    }
  }

  /** A probe below the target or above it tells of all slots on its side. */
  lemma ProbeTells(s: seq<U32>, target: U32, mid: nat)
    requires Increasing(s) && mid < |s|
    ensures s[mid] < target ==> forall k :: 0 <= k <= mid ==> s[k] < target
    ensures target < s[mid] ==> forall k :: mid <= k < |s| ==> target < s[k]
  {
  }

  /** The bounds narrow towards the last probe. */
  lemma Narrows(s: seq<U32>, target: U32, first: nat, last: nat)
    requires |s| > 0 && Increasing(s) && s[0] <= target && first <= last < |s|
    ensures var mid, g := (first + last) / 2, Nearest(s, target);
            && (s[mid] < target ==>
                  LastProbe(first, last, g) == if mid < last then LastProbe(mid + 1, last, g) else mid)
            && (target < s[mid] ==>
                  LastProbe(first, last, g) == if first < mid then LastProbe(first, mid - 1, g) else mid)
  {
  }

  /** When the bounds have crossed at a target that is the start of no VOBU. */
  lemma {:induction false} Crossed(s: seq<U32>, target: U32, first: nat, last: nat, address: nat)
    requires Increasing(s) && last < |s| && s[0] <= target && first == last + 1
    requires forall k :: 0 <= k < first ==> s[k] < target
    requires forall k :: last < k < |s| ==> target < s[k]
    requires address == LastProbe(0, |s| - 1, Nearest(s, target))
    ensures Nearest(s, target) == last && address < |s|
    ensures if s[address] > target then StepsBack(s, target) else address == last && !StepsBack(s, target)
  {
    hide Depth, LastProbe;
    NearestIs(s, target, last);
    LastProbeIsDeeper(0, |s| - 1, last);
  }

  /** What a search comes to; out of range when a bound goes below zero and the next slot read lies
      outside the table, so that the code's result is undefined. */
  datatype Scan = Found(vobu: U32) | NotFound | OutOfRange

  /** The binary branch. */
  method ScanBinary(m: Admap, seekto: U32) returns (r: Scan)
    requires WellFormed(m) && !Linear(m, seekto)
    ensures r == if m.slots[0] > seekto || Taken(m, seekto) < 0 then OutOfRange else Found(m.slots[Taken(m, seekto)])
  {
    hide Depth, LastProbe, StepsBack, Linear, Increasing, Nearest;
    var first: U32, last: U32 := 0, m.lastByte / 4;
    var address: U32, next: U32 := 0, 0;
    var s := m.slots;
    var vobu: U32 := END_OF_CELL;
    ghost var g := if s[0] <= seekto then Nearest(s, seekto) else 0;
    while first <= last
      invariant last < |s| && first <= last + 1 && address < |s|
      invariant forall k :: 0 <= k < first ==> s[k] < seekto
      invariant forall k :: last < k < |s| ==> seekto < s[k]
      invariant first <= last && s[0] <= seekto ==> LastProbe(0, |s| - 1, g) == LastProbe(first, last, g)
      invariant first > last ==> next == s[address] == vobu && next != seekto
      invariant first > last && s[0] <= seekto ==> address == LastProbe(0, |s| - 1, g)
    {
      address := (first + last) / 2;
      ProbeTells(s, seekto, address);
      if s[0] <= seekto {
        Narrows(s, seekto, first, last);
      }
      next := s[address];
      vobu := next;
      if seekto > next {
        first := address + 1;
      } else if seekto < next {
        if address == 0 {
          return OutOfRange;
        }
        last := address - 1;
      } else {
        break;
      }
    }
    if next == seekto {
      StartIsNearest(s, address);
    } else {
      Crossed(s, seekto, first, last, address);
    }
    if next > seekto {
      if last == 0 {
        return OutOfRange;
      }
      vobu := s[last - 1];
    }
    r := Found(vobu);
  }

  lemma {:induction false} StartIsNearest(s: seq<U32>, k: nat)
    requires k < |s| && Increasing(s)
    ensures s[0] <= s[k] && Nearest(s, s[k]) == k && !StepsBack(s, s[k])
  {
    hide Depth;
    NearestIs(s, s[k], k);
  }

  // ----- both branches ----------------------------------------------------------------------

  /** The address maps of the menus of the disc, and of the menus and titles of the title set. */
  datatype Maps = Maps(vmgMenu: Option<Admap>, vtsMenu: Option<Admap>, vtsTitle: Option<Admap>)

  function MapFor(maps: Maps, domain: int): Option<Admap> {
    if domain == FP_DOMAIN || domain == VMGM_DOMAIN then maps.vmgMenu
    else if domain == VTSM_DOMAIN then maps.vtsMenu
    else if domain == VTS_DOMAIN then maps.vtsTitle
    else None
  }

  /** The map of a file: the title VOBs', or those of the menus of the manager or the title set. */
  function MapOf(maps: Maps, file: File): Option<Admap> {
    if !file.menu then maps.vtsTitle else if file.vts == 0 then maps.vmgMenu else maps.vtsMenu
  }

  /** A search looks into the map of the file that playback has open in the domain. */
  lemma SearchesOpenFile(maps: Maps, vts: int, domain: int)
    requires vts > 0
    ensures MapFor(maps, domain)
         == if FileFor(vts, domain).Some? then MapOf(maps, FileFor(vts, domain).value) else None
  {
  }

  predicate AllWellFormed(maps: Maps) {
    && (maps.vmgMenu.Some? ==> WellFormed(maps.vmgMenu.value))
    && (maps.vtsMenu.Some? ==> WellFormed(maps.vtsMenu.value))
    && (maps.vtsTitle.Some? ==> WellFormed(maps.vtsTitle.value))
  }

  /** What a search comes to in the map of a domain. The linear branch fails outside the table,
      unless the target is above the mark for the end of a cell and below the table: then it finds
      that mark. */
  function Scanned(maps: Maps, domain: int, seekto: U32): Scan
    requires AllWellFormed(maps)
  {
    var admap := MapFor(maps, domain);
    if admap.None? then NotFound
    else
      var m := admap.value;
      var s := m.slots;
      if !Linear(m, seekto) then
        if s[0] > seekto || Taken(m, seekto) < 0 then OutOfRange else Found(s[Taken(m, seekto)])
      else if s[0] <= seekto <= s[|s| - 1] then Found(s[Taken(m, seekto)])
      else if END_OF_CELL < seekto < s[0] then Found(END_OF_CELL)
      else NotFound
  }

  /** dvdnav_scan_admap; NotFound stands for its error status. */
  method ScanAdmap(maps: Maps, domain: int, seekto: U32) returns (r: Scan)
    requires AllWellFormed(maps)
    ensures r == Scanned(maps, domain, seekto)
  {
    var admap: Option<Admap> := MapFor(maps, domain);
    if admap.None? {
      return NotFound;
    }
    var m := admap.value;
    if m.lastByte > 20 && Slot20(m) >= seekto {
      var found, vobu := ScanLinear(m, seekto);
      r := if found then Found(vobu) else NotFound;
    } else {
      r := ScanBinary(m, seekto);
    }
  }

  /** In a table with more than twenty slots no bound goes below zero: the guard at slot 20 leaves the
      low targets to the linear branch. The search then finds a start for every target from the first
      start on. */
  lemma GuardAtTwenty(maps: Maps, domain: int, seekto: U32)
    requires AllWellFormed(maps) && MapFor(maps, domain).Some? && |MapFor(maps, domain).value.slots| > 20
    ensures var m := MapFor(maps, domain).value;
            if m.slots[0] <= seekto
            then Taken(m, seekto) >= 0 && Scanned(maps, domain, seekto) == Found(m.slots[Taken(m, seekto)])
            else Scanned(maps, domain, seekto) == if seekto <= END_OF_CELL then NotFound else Found(END_OF_CELL)
  {
    hide Depth;
    var m := MapFor(maps, domain).value;
    assert !Linear(m, seekto) ==> m.slots[0] <= m.slots[20] < seekto && Nearest(m.slots, seekto) >= 20;
  }

  /** With fewer slots it can: in a table of two, between which the target lies. */
  lemma SmallTableLeavesRange()
    ensures var m := Admap(7, [10, 20], 0);
            WellFormed(m) && !Linear(m, 15) && Taken(m, 15) == -1
  {
    hide Depth;
    NearestIs([10, 20], 15, 0);
    Deeper(0, 1, 0);
    Deeper(0, 1, 1);
  }

  /** A search lands on the greatest start not above the target, or on the one just before it; the
      latter exactly when it is binary and bisection steps back. */
  lemma {:induction false} TakenIsNearest(m: Admap, target: U32)
    requires WellFormed(m) && m.slots[0] <= target
    ensures var s, g, h := m.slots, Nearest(m.slots, target), Taken(m, target);
            && g - 1 <= h <= g
            && (forall k :: 0 <= k < |s| && s[k] <= target ==> s[k] <= s[g])
            && (h == g <==> Linear(m, target) || !StepsBack(s, target))
  {
    hide Depth;
  }

  /** With more than twenty slots, a target up to the start in slot 20 is always found exactly. */
  lemma {:induction false} LowTargetsAreNearest(m: Admap, target: U32)
    requires WellFormed(m) && |m.slots| > 20 && m.slots[0] <= target <= m.slots[20]
    ensures Taken(m, target) == Nearest(m.slots, target)
  {
  }

  /** A target that is the start of a VOBU is always found itself. */
  lemma StartsAreFound(m: Admap, k: nat)
    requires WellFormed(m) && k < |m.slots|
    ensures m.slots[0] <= m.slots[k] && Taken(m, m.slots[k]) == k
  {
    hide Depth;
    StartIsNearest(m.slots, k);
  }

  /** A later target never lands earlier, but for one case: within one VOBU, the search for the first
      target finds it, and the one for the second steps back. */
  lemma {:induction false} TakenIsMonotone(m: Admap, t: U32, u: U32)
    requires WellFormed(m) && m.slots[0] <= t <= u
    ensures Taken(m, t) <= Taken(m, u) <==>
            !(&& Nearest(m.slots, t) == Nearest(m.slots, u)
              && (t == m.slots[Nearest(m.slots, t)] || Linear(m, t))
              && !Linear(m, u) && StepsBack(m.slots, u))
  {
    hide Depth;
    assert Nearest(m.slots, t) <= Nearest(m.slots, u);
  }

  function Evens(n: nat): (s: seq<U32>)
    requires n < 1000
    ensures |s| == n && Increasing(s) && forall k :: 0 <= k < n ==> s[k] == 2 * k
  {
    if n == 0 then [] else Evens(n - 1) + [2 * (n - 1)]
  }

  /** Slots 0, 2, ..., 48. */
  function EvenMap(): (m: Admap)
    ensures WellFormed(m) && m.slots == Evens(25)
  {
    Admap(99, Evens(25), 0)
  }

  /** Target 43: the VOBU at 42 contains it, the search takes the one at 40. */
  lemma StepsBackOnce()
    ensures var m := EvenMap();
            Nearest(m.slots, 43) == 21 && Taken(m, 43) == 20 && !Linear(m, 43) && StepsBack(m.slots, 43)
  {
    hide Evens, Depth;
    var s := EvenMap().slots;
    assert s[0] == 0 && s[20] == 40 && s[21] == 42 && s[22] == 44;
    NearestIs(s, 43, 21);
    DepthsAt21();
  }

  lemma DepthsAt21()
    ensures Depth(0, 24, 21) < Depth(0, 24, 22)
  {
    hide Depth;
    Deeper(0, 24, 21);
    Deeper(0, 24, 22);
    Deeper(13, 24, 21);
    Deeper(13, 24, 22);
    Deeper(19, 24, 21);
    Deeper(19, 24, 22);
  }

  lemma Deeper(first: nat, last: nat, k: nat)
    requires first <= k <= last
    ensures var mid := (first + last) / 2;
            Depth(first, last, k) == if k == mid then 1
                                     else if k < mid then 1 + Depth(first, mid - 1, k) else 1 + Depth(mid + 1, last, k)
    ensures var mid := (first + last) / 2;
            k > mid ==> Depth(mid + 1, last, k) > 0
  {
  }
}
