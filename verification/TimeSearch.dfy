/** Searches by time within a chain of cells: dvdnav_absolute_time_search of searching.c. */
module TimeSearch {
  import opened Times
  import opened PlayerModel
  import opened Searching

  /** pgc_t: its cells, and the first cell of each of its programs, counted from 1. */
  datatype Chain = Chain(cells: seq<Cell>, programMap: seq<nat>)

  predicate GoodMap(c: Chain) {
    forall i :: 0 <= i < |c.programMap| ==> 0 < c.programMap[i] <= |c.cells|
  }

  /** The cells searched: number lo + 1 to hi. */
  datatype Span = Span(lo: nat, hi: nat)

  /** The whole chain, or the current program. */
  function Spanned(c: Chain, pgcBased: bool, program: nat): (s: Span)
    requires GoodMap(c) && (!pgcBased ==> 0 < program <= |c.programMap|)
    ensures s.lo <= |c.cells| && s.hi <= |c.cells|
  {
    if pgcBased then Span(0, |c.cells|)
    else Span(c.programMap[program - 1] - 1,
              if program < |c.programMap| then c.programMap[program] - 1 else |c.cells|)
  }

  predicate IncreasingMap(c: Chain) {
    && GoodMap(c) && |c.programMap| > 0 && c.programMap[0] == 1
    && forall i, j :: 0 <= i < j < |c.programMap| ==> c.programMap[i] < c.programMap[j]
  }

  /** The program with the last first cell that is not after cell number n. */
  predicate InProgram(c: Chain, program: nat, n: nat) {
    && 0 < program <= |c.programMap| && c.programMap[program - 1] <= n <= |c.cells|
    && forall i :: program <= i < |c.programMap| ==> n < c.programMap[i]
  }

  /** In program mode the span is the cells of the current program, otherwise all of the chain. */
  lemma SpanIsProgram(c: Chain, program: nat, n: nat)
    requires IncreasingMap(c) && 0 < program <= |c.programMap|
    ensures var s := Spanned(c, false, program); s.lo < n <= s.hi <==> InProgram(c, program, n)
    ensures var s := Spanned(c, true, program); s.lo < n <= s.hi <==> 0 < n <= |c.cells|
  {
  }

  /** Every cell is in one program. */
  lemma {:induction false} CellsHavePrograms(c: Chain, n: nat, m: nat) returns (program: nat)
    requires IncreasingMap(c) && 0 < n <= |c.cells| && 0 < m <= |c.programMap|
    requires forall i :: m <= i < |c.programMap| ==> n < c.programMap[i]
    ensures InProgram(c, program, n) && forall q: nat :: InProgram(c, q, n) ==> q == program
  {
    if c.programMap[m - 1] <= n {
      program := m;
    } else {
      program := CellsHavePrograms(c, n, m - 1);
    }
  }

  // ----- the cell of a time -----------------------------------------------------------------

  /** The time counted after the first lo cells, up to the end of cell number n. */
  function Since(cells: seq<Cell>, lo: nat, n: nat): (r: int)
    requires lo <= n <= |cells|
    ensures r >= 0
  {
    ElapsedGrows(cells, lo, n);
    Elapsed(cells, n) - Elapsed(cells, lo)
  }

  /** No counted cell between number lo + 1 and n. */
  predicate NoneCounted(cells: seq<Cell>, lo: nat, n: nat)
    requires n <= |cells|
  {
    forall k :: lo <= k < n ==> cells[k].otherAngle
  }

  /** The time, from the start of the span, lies in cell number n: after the cells before it, or at
      the very start, and not after its end. */
  predicate InCell(cells: seq<Cell>, lo: nat, n: nat, time: int) {
    && lo < n <= |cells| && !cells[n - 1].otherAngle
    && time <= Since(cells, lo, n)
    && (Since(cells, lo, n - 1) < time || (time == 0 && NoneCounted(cells, lo, n - 1)))
  }

  lemma {:induction false} NoTimeUncounted(cells: seq<Cell>, lo: nat, n: nat)
    requires lo <= n <= |cells| && NoneCounted(cells, lo, n)
    ensures Since(cells, lo, n) == 0
  {
    hide ConvertTime;
    if lo < n {
      NoTimeUncounted(cells, lo, n - 1);
    }
  }

  /** A time lies in at most one cell. */
  lemma InOneCell(cells: seq<Cell>, lo: nat, m: nat, n: nat, time: int)
    requires InCell(cells, lo, m, time) && InCell(cells, lo, n, time)
    ensures m == n
  {
    hide Elapsed;
    if m < n {
      ElapsedGrows(cells, m, n - 1);
    } else if n < m {
      ElapsedGrows(cells, n, m - 1);
    }
  }

  /** A later time lies in no earlier cell. */
  lemma CellsFollowTime(cells: seq<Cell>, lo: nat, m: nat, n: nat, t: int, u: int)
    requires InCell(cells, lo, m, t) && InCell(cells, lo, n, u) && 0 <= t <= u
    ensures m <= n
  {
    hide Elapsed;
    if n < m {
      ElapsedGrows(cells, n, m - 1);
    }
  }

  lemma InCellBounds(cells: seq<Cell>, lo: nat, n: nat, time: int)
    requires InCell(cells, lo, n, time)
    ensures 0 <= time - Since(cells, lo, n - 1) <= Ticks(cells[n - 1])
  {
    hide ConvertTime;
    if time == 0 && NoneCounted(cells, lo, n - 1) {
      NoTimeUncounted(cells, lo, n - 1);
    }
  }

  // ----- the sector of a time ---------------------------------------------------------------

  /** How floating-point numbers round the quotient of two times, and a sector count or a product
      with one. */
  datatype Rounding = Rounding(quotient: real -> real, product: real -> real)

  /** Rounding keeps the order and fixes the integers that a float holds: those up to 2^24. */
  ghost predicate Rounds(rd: real -> real) {
    && (forall x, y :: x <= y ==> rd(x) <= rd(y))
    && forall x: real :: 0.0 <= x <= 16777216.0 && x == x.Floor as real ==> rd(x) == x
  }

  ghost predicate IsFloat(fl: Rounding) {
    Rounds(fl.quotient) && Rounds(fl.product)
  }

  function Ratio(x: int, ticks: int): real
    requires ticks > 0
  {
    x as real / ticks as real
  }

  function Share(a: real, d: real): real {
    a * d
  }

  /** The sector of a cell by proportion, x of its ticks from its start. */
  function Target(fl: Rounding, c: Cell, x: int): int
    requires Ticks(c) > 0
  {
    c.first + fl.product(Share(fl.quotient(Ratio(x, Ticks(c))), fl.product((c.last - c.first) as real))).Floor
  }

  lemma RatioGrows(x: int, y: int, ticks: int)
    requires x <= y && 0 < ticks
    ensures Ratio(x, ticks) <= Ratio(y, ticks)
    ensures 0 <= x ==> 0.0 <= Ratio(x, ticks)
    ensures y <= ticks ==> Ratio(y, ticks) <= 1.0
  {
    var p, q, t := Ratio(x, ticks), Ratio(y, ticks), ticks as real;
    RatioOf(x, ticks);
    RatioOf(y, ticks);
    if p > q {
      ShareIsStrict(q, p, t);
    }
    if p < 0.0 {
      ShareIsStrict(p, 0.0, t);
    }
    if q > 1.0 {
      ShareIsStrict(1.0, q, t);
    }
  }

  lemma RatioOf(x: int, ticks: int)
    requires 0 < ticks
    ensures Share(Ratio(x, ticks), ticks as real) == x as real
  {
  }

  lemma ShareIsStrict(a: real, b: real, d: real)
    requires a < b && 0.0 < d
    ensures Share(a, d) < Share(b, d)
    ensures Share(0.0, d) == 0.0 && Share(1.0, d) == d
  {
    assert (b - a) * d > 0.0;
  }

  lemma ShareGrows(a: real, b: real, d: real)
    requires 0.0 <= a <= b && 0.0 <= d
    ensures 0.0 <= Share(a, d) <= Share(b, d)
    ensures Share(1.0, d) == d
  {
  }

  lemma FixesEnds(rd: real -> real, d: int)
    requires Rounds(rd) && 0 <= d
    ensures rd(0.0) == 0.0 && rd(1.0) == 1.0 && 0.0 <= rd(d as real)
    ensures d <= 0x100_0000 ==> rd(d as real) == d as real
  {
    assert rd(0.0) <= rd(d as real);
    assert (d as real).Floor == d;
  }

  /** Rounding the sectors of the cell after its first one, twice, does not make them more. */
  predicate Fits(fl: Rounding, c: Cell) {
    fl.product(fl.product((c.last - c.first) as real)).Floor <= c.last - c.first
  }

  /** A cell of at most 2^24 sectors more than one fits, which is 32 GiB. */
  lemma SmallFits(fl: Rounding, c: Cell)
    requires IsFloat(fl) && 0 <= c.last - c.first <= 0x100_0000
    ensures Fits(fl, c)
  {
    hide Rounds;
    FixesEnds(fl.product, c.last - c.first);
  }

  /** The sector of a time in the cell lies between its first sector and that of its end. */
  lemma TargetBounds(fl: Rounding, c: Cell, x: int)
    requires IsFloat(fl) && 0 <= x <= Ticks(c) && 0 < Ticks(c) && c.first <= c.last
    ensures c.first <= Target(fl, c, x) <= Target(fl, c, Ticks(c))
    ensures Target(fl, c, Ticks(c)) == c.first + fl.product(fl.product((c.last - c.first) as real)).Floor
  {
    hide ConvertTime, Rounds, Ratio, Share;
    TargetGrows(fl, c, 0, x);
    TargetGrows(fl, c, x, Ticks(c));
    RatioEnds(Ticks(c));
    FixesEnds(fl.quotient, 0);
    FixesEnds(fl.product, c.last - c.first);
    var e := fl.product((c.last - c.first) as real);
    ShareGrows(0.0, 1.0, e);
    ShareOfNone(e);
  }

  lemma RatioEnds(ticks: int)
    requires 0 < ticks
    ensures Ratio(0, ticks) == 0.0 && Ratio(ticks, ticks) == 1.0
  {
  }

  lemma ShareOfNone(d: real)
    ensures Share(0.0, d) == 0.0
  {
  }

  /** Every time in the cell has its sector in the cell exactly if the cell fits. */
  lemma TargetInCell(fl: Rounding, c: Cell)
    requires IsFloat(fl) && 0 < Ticks(c) && c.first <= c.last
    ensures (forall x :: 0 <= x <= Ticks(c) ==> c.first <= Target(fl, c, x) <= c.last) <==> Fits(fl, c)
  {
    hide Ticks, Target, IsFloat;
    forall x | 0 <= x <= Ticks(c)
      ensures c.first <= Target(fl, c, x) <= Target(fl, c, Ticks(c))
    {
      TargetBounds(fl, c, x);
    }
    TargetBounds(fl, c, Ticks(c));
  }

  lemma FloorIsNear(rd: real -> real, y: real)
    requires Rounds(rd) && 0.0 <= y <= 16777216.0
    ensures y.Floor <= rd(y).Floor <= y.Floor + 1 && y - 1.0 <= rd(y).Floor as real <= y + 1.0
  {
    var f := y.Floor;
    assert rd(f as real) == f as real <= rd(y);
    if y != f as real {
      assert rd(y) <= rd((f + 1) as real) == (f + 1) as real;
    }
  }

  lemma ShareIs(x: int, d: int, ticks: int)
    requires 0 < ticks
    ensures Share(Ratio(x, ticks), d as real) == x as real * d as real / ticks as real
  {
  }

  lemma ShareIsProduct(a: real, d: real)
    ensures Share(a, d) == a * d
  {
  }

  lemma ShareErrs(a: real, b: real, d: real, e: real)
    requires -e <= a - b <= e && 0.0 <= d
    ensures -Share(e, d) <= Share(a, d) - Share(b, d) <= Share(e, d)
  {
    assert (a - b + e) * d >= 0.0 && (e - (a - b)) * d >= 0.0;
  }

  lemma TargetIsNear(fl: Rounding, c: Cell, x: int, e: real)
    requires IsFloat(fl) && 0 <= x <= Ticks(c) && 0 < Ticks(c) && 0 <= c.last - c.first <= 0x100_0000
    requires -e <= fl.quotient(Ratio(x, Ticks(c))) - Ratio(x, Ticks(c)) <= e
    ensures var d := (c.last - c.first) as real;
            var exact, slack := Share(Ratio(x, Ticks(c)), d), 1.0 + Share(e, d);
            exact - slack <= (Target(fl, c, x) - c.first) as real <= exact + slack
  {
    hide Ticks, Ratio, Share, Rounds;
    var d := c.last - c.first;
    var r := Ratio(x, Ticks(c));
    RatioGrows(0, x, Ticks(c));
    RatioGrows(x, Ticks(c), Ticks(c));
    FixesEnds(fl.product, d);
    FixesEnds(fl.quotient, 0);
    Grows(fl.quotient, 0.0, r);
    Grows(fl.quotient, r, 1.0);
    ShareErrs(fl.quotient(r), r, d as real, e);
    ShareGrows(fl.quotient(r), 1.0, d as real);
    FloorIsNear(fl.product, Share(fl.quotient(r), d as real));
  }

  /** The offset is x ticks' share of d sectors, but for one sector and e times d. */
  predicate Near(offset: int, x: int, d: int, ticks: int, e: real)
    requires 0 < ticks
  {
    var exact, slack := x as real * d as real / ticks as real, 1.0 + e * d as real;
    exact - slack <= offset as real <= exact + slack
  }

  lemma SharesAreNear(offset: int, x: int, d: int, ticks: int, e: real)
    requires 0 < ticks
    requires var exact, slack := Share(Ratio(x, ticks), d as real), 1.0 + Share(e, d as real);
             exact - slack <= offset as real <= exact + slack
    ensures Near(offset, x, d, ticks, e)
  {
    hide Share, Ratio;
    ShareIs(x, d, ticks);
    ShareIsProduct(e, d as real);
  }

  /** The sector is the proportional one: with an error e in the quotient it is off by at most one
      sector and e times the cell, in a cell up to 2^24. */
  lemma TargetIsProportional(fl: Rounding, c: Cell, x: int, e: real)
    requires IsFloat(fl) && 0 <= x <= Ticks(c) && 0 < Ticks(c) && 0 <= c.last - c.first <= 0x100_0000
    requires -e <= fl.quotient(x as real / Ticks(c) as real) - x as real / Ticks(c) as real <= e
    ensures Near(Target(fl, c, x) - c.first, x, c.last - c.first, Ticks(c), e)
  {
    hide Ticks, Target, IsFloat, Share, Near;
    TargetIsNear(fl, c, x, e);
    SharesAreNear(Target(fl, c, x) - c.first, x, c.last - c.first, Ticks(c), e);
  }

  /** To the nearest even integer from 2^24 on, halves up: as a float has it up to 2^25. */
  function Nearest2(x: real): real {
    if x <= 16777216.0 then x else ((x + 1.0) / 2.0).Floor as real * 2.0
  }

  lemma Nearest2Rounds()
    ensures Rounds(x => Nearest2(x))
  {
    forall x: real, y: real | x <= y
      ensures Nearest2(x) <= Nearest2(y)
    {
      if y > 16777216.0 {
        assert ((y + 1.0) / 2.0).Floor >= 8388608;
        assert x > 16777216.0 ==> ((x + 1.0) / 2.0).Floor <= ((y + 1.0) / 2.0).Floor;
      }
    }
  }

  /** A cell too big to fit: its end is searched one sector after its last. */
  lemma BigCellOvershoots(c: Cell)
    requires c.first == 0 && c.last == 16777219 && Ticks(c) > 0
    ensures var fl := Rounding(x => Nearest2(x), x => Nearest2(x));
            IsFloat(fl) && Target(fl, c, Ticks(c)) == 16777220
  {
    hide Ticks, Target, Rounds;
    var fl := Rounding(x => Nearest2(x), x => Nearest2(x));
    Nearest2Rounds();
    TargetBounds(fl, c, Ticks(c));
    assert Nearest2(16777219.0) == 16777220.0 && Nearest2(16777220.0) == 16777220.0;
  }

  lemma Grows(rd: real -> real, x: real, y: real)
    requires Rounds(rd) && x <= y
    ensures rd(x) <= rd(y) && rd(x).Floor <= rd(y).Floor
  {
  }

  /** Within a cell the target is monotone in the time, whatever the size of the cell. */
  lemma TargetGrows(fl: Rounding, c: Cell, x: int, y: int)
    requires IsFloat(fl) && 0 <= x <= y && 0 < Ticks(c) && c.first <= c.last
    ensures Target(fl, c, x) <= Target(fl, c, y)
  {
    hide ConvertTime, Rounds, Ratio, Share;
    var d := c.last - c.first;
    RatioGrows(0, x, Ticks(c));
    RatioGrows(x, y, Ticks(c));
    var r, t := Ratio(x, Ticks(c)), Ratio(y, Ticks(c));
    FixesEnds(fl.quotient, 0);
    Grows(fl.quotient, 0.0, r);
    Grows(fl.quotient, r, t);
    FixesEnds(fl.product, d);
    var e := fl.product(d as real);
    ShareGrows(fl.quotient(r), fl.quotient(t), e);
    Grows(fl.product, Share(fl.quotient(r), e), Share(fl.quotient(t), e));
  }

  /** The cells lie on the disc, in sectors of 32 bits. */
  predicate OnDisc(cells: seq<Cell>) {
    forall i :: 0 <= i < |cells| ==> 0 <= cells[i].first <= cells[i].last < 0x1_0000_0000
  }

  /** The counted cells lie on the disc one after another. */
  predicate LaidOut(cells: seq<Cell>) {
    forall i, j :: 0 <= i < j < |cells| && !cells[i].otherAngle && !cells[j].otherAngle ==>
      cells[i].last < cells[j].first
  }

  /** The sector searched for a time in cell number n, cut to 32 bits; `nan` is what the conversion
      of a quotient by zero makes. */
  function Sought(fl: Rounding, nan: nat, cells: seq<Cell>, lo: nat, n: nat, time: int, toCell: bool): (r: U32)
    requires InCell(cells, lo, n, time)
  {
    var c := cells[n - 1];
    (if toCell then c.first
     else if Ticks(c) == 0 then c.first + nan
     else Target(fl, c, time - Since(cells, lo, n - 1))) % 0x1_0000_0000
  }

  /** The sector searched lies in the cell of the time. */
  lemma SoughtInCell(fl: Rounding, nan: nat, cells: seq<Cell>, lo: nat, n: nat, time: int, toCell: bool)
    requires IsFloat(fl) && OnDisc(cells) && InCell(cells, lo, n, time)
    requires toCell || (Ticks(cells[n - 1]) > 0 && Fits(fl, cells[n - 1]))
    ensures cells[n - 1].first <= Sought(fl, nan, cells, lo, n, time, toCell) <= cells[n - 1].last
    ensures Sought(fl, nan, cells, lo, n, time, toCell)
            == if toCell then cells[n - 1].first else Target(fl, cells[n - 1], time - Since(cells, lo, n - 1))
  {
    hide Elapsed, ConvertTime, Target;
    if !toCell {
      InCellBounds(cells, lo, n, time);
      TargetInCell(fl, cells[n - 1]);
    }
  }

  /** With cells laid out in order, the sector searched is monotone in the requested time. */
  lemma SoughtFollowsTime(fl: Rounding, nan: nat, cells: seq<Cell>, lo: nat, m: nat, n: nat, t: int, u: int,
                          toCell: bool)
    requires IsFloat(fl) && OnDisc(cells) && LaidOut(cells)
    requires InCell(cells, lo, m, t) && InCell(cells, lo, n, u) && 0 <= t <= u
    requires toCell || (Ticks(cells[m - 1]) > 0 && Fits(fl, cells[m - 1]))
    requires toCell || (Ticks(cells[n - 1]) > 0 && Fits(fl, cells[n - 1]))
    ensures Sought(fl, nan, cells, lo, m, t, toCell) <= Sought(fl, nan, cells, lo, n, u, toCell)
  {
    hide Elapsed, Ticks, Target, Since, Sought, IsFloat;
    CellsFollowTime(cells, lo, m, n, t, u);
    SoughtInCell(fl, nan, cells, lo, m, t, toCell);
    SoughtInCell(fl, nan, cells, lo, n, u, toCell);
    if m == n && !toCell {
      InCellBounds(cells, lo, n, t);
      TargetGrows(fl, cells[n - 1], t - Since(cells, lo, n - 1), u - Since(cells, lo, n - 1));
    }
  }

  // ----- time reports -----------------------------------------------------------------------

  /** What dvdnav_get_current_time reports in cell number n after `within` ticks of it. */
  function Reported(cells: seq<Cell>, n: nat, within: int): int
    requires 0 < n <= |cells|
  {
    Elapsed(cells, n - 1) + within
  }

  /** The search agrees with the report, which counts from the start of the chain: a positive time
      lies in cell n of the span exactly when n is a counted cell and that time after the span's start
      is one that is reported in the cell after its start. */
  lemma {:induction false} SearchMatchesReport(cells: seq<Cell>, lo: nat, n: nat, time: int)
    requires time > 0 && lo < n <= |cells|
    ensures InCell(cells, lo, n, time) <==>
            && !cells[n - 1].otherAngle
            && exists within :: 0 < within <= Ticks(cells[n - 1])
                                && Elapsed(cells, lo) + time == Reported(cells, n, within)
  {
    hide ConvertTime;
    if InCell(cells, lo, n, time) {
      var within := Elapsed(cells, lo) + time - Elapsed(cells, n - 1);
      assert Elapsed(cells, lo) + time == Reported(cells, n, within);
    }
  }

  /** Every positive time up to the length of the chain lies in some cell. */
  lemma {:induction false} EveryTimeIsInACell(cells: seq<Cell>, lo: nat, hi: nat, time: int) returns (n: nat)
    requires lo <= hi <= |cells| && 0 < time <= Since(cells, lo, hi)
    ensures n <= hi && InCell(cells, lo, n, time)
  {
    hide ConvertTime;
    if Since(cells, lo, hi - 1) < time {
      n := hi;
    } else {
      n := EveryTimeIsInACell(cells, lo, hi - 1, time);
    }
  }

  /** The number of the first counted cell of the span; 0 if there is none. */
  function FirstCounted(cells: seq<Cell>, lo: nat, hi: nat): (n: nat)
    requires lo <= hi <= |cells|
    ensures n == 0 ==> NoneCounted(cells, lo, hi)
    ensures n > 0 ==> lo < n <= hi && !cells[n - 1].otherAngle && NoneCounted(cells, lo, n - 1)
    decreases hi - lo
  {
    if lo == hi then 0 else if !cells[lo].otherAngle then lo + 1 else FirstCounted(cells, lo + 1, hi)
  }

  /** The search divides by zero exactly for time 0, when the first counted cell takes no time. */
  lemma {:induction false} DividesByZero(cells: seq<Cell>, lo: nat, hi: nat, time: nat)
    requires lo <= hi <= |cells|
    ensures (exists n: nat :: n <= hi && InCell(cells, lo, n, time) && Ticks(cells[n - 1]) == 0) <==>
            var n := FirstCounted(cells, lo, hi);
            time == 0 && n > 0 && Ticks(cells[n - 1]) == 0
  {
    hide ConvertTime;
    if n: nat :| n <= hi && InCell(cells, lo, n, time) && Ticks(cells[n - 1]) == 0 {
      assert time == 0 && NoneCounted(cells, lo, n - 1);
    }
    var n := FirstCounted(cells, lo, hi);
    if time == 0 && n > 0 {
      assert InCell(cells, lo, n, time);
    }
  }

  // ----- the search -------------------------------------------------------------------------

  /** A call of vm_jump_cell_block. */
  datatype JumpTo = JumpTo(cell: nat, block: int)

  /** The jump to cell number n that the result of the scan asks for, if any. */
  function JumpFor(cells: seq<Cell>, n: nat, scan: Scan): Option<JumpTo>
    requires 0 < n <= |cells|
  {
    match scan
    case Found(vobu) => Some(JumpTo(n, vobu - cells[n - 1].first))
    case _ => None
  }

  /** The fields of the player that searches read and change. */
  class Seeker {
    var still: int
    var cellTime: int
    var hop: int
    var pgcBased: bool
    const maps: Maps

    constructor (maps: Maps)
      ensures still == 0 && cellTime == 0 && hop == 0 && !pgcBased && this.maps == maps
    {
      still, cellTime, hop, pgcBased := 0, 0, 0, false;
      this.maps := maps;
    }

    /** dvdnav_absolute_time_search: `jumps` is whether the virtual machine can jump, and `asked` the
        jump asked of it. Where the scan leaves its table, nothing is said of what is asked. */
    method AbsoluteTimeSearch(pgc: Option<Chain>, program: nat, domain: int, time: nat, toCell: bool, jumps: bool,
                              fl: Rounding, nan: nat)
      returns (ok: bool, asked: Option<JumpTo>)
      requires AllWellFormed(maps)
      requires pgc.Some? ==>
                 GoodMap(pgc.value) && OnDisc(pgc.value.cells) && (!pgcBased ==> 0 < program <= |pgc.value.programMap|)
      modifies this
      ensures still == old(still) && pgcBased == old(pgcBased)
      ensures cellTime == if still != 0 || pgc.None? then old(cellTime) else 0
      ensures hop == old(hop) + if ok then HOP_SEEK else 0
      ensures ok <==> asked.Some? && jumps
      ensures still != 0 || pgc.None? ==> asked == None
      ensures still == 0 && pgc.Some? ==>
                var cells, span := pgc.value.cells, Spanned(pgc.value, pgcBased, program);
                && (forall n: nat :: n <= span.hi && InCell(cells, span.lo, n, time) ==>
                      var scan := Scanned(maps, domain, Sought(fl, nan, cells, span.lo, n, time, toCell));
                      scan != OutOfRange ==> asked == JumpFor(cells, n, scan))
                && (asked.Some? ==> asked.value.cell <= span.hi && InCell(cells, span.lo, asked.value.cell, time))
      ensures asked.Some? && !pgcBased ==>
                && pgc.value.programMap[program - 1] <= asked.value.cell
                && (program < |pgc.value.programMap| ==> asked.value.cell < pgc.value.programMap[program])
      ensures pgc.Some? && !pgcBased && program < |pgc.value.programMap|
              && Elapsed(pgc.value.cells, pgc.value.programMap[program] - 1)
                 < Elapsed(pgc.value.cells, pgc.value.programMap[program - 1] - 1) + time ==>
                asked == None
    {
      hide Elapsed, ConvertTime, Ticks, Target, Scanned, WellFormed, GoodMap, AllWellFormed;
      ok, asked := false, None;
      if still != 0 || pgc.None? {
        return;
      }
      var cells, span := pgc.value.cells, Spanned(pgc.value, pgcBased, program);
      cellTime := 0;
      var target: int, length: int, before: int := time, 0, 0;
      var found, nr := false, span.lo + 1;
      while nr <= span.hi && !found
        invariant still == old(still) == 0 && pgcBased == old(pgcBased) && cellTime == 0 && hop == old(hop)
        invariant span.lo < nr && (nr <= span.hi + 1 || nr == span.lo + 1)
        invariant !found ==> target == time && length == before
        invariant !found ==> forall n: nat :: n < nr ==> !InCell(cells, span.lo, n, time)
        invariant !found && nr <= span.hi + 1 ==> length == Since(cells, span.lo, nr - 1)
        invariant !found ==> length < time || (time == 0 && nr <= |cells| + 1 && NoneCounted(cells, span.lo, nr - 1))
        invariant found ==> nr <= span.hi && InCell(cells, span.lo, nr, time)
        invariant found ==> target % 0x1_0000_0000 == Sought(fl, nan, cells, span.lo, nr, time, toCell)
        decreases !found, span.hi + 1 - nr
      {
        var cell := cells[nr - 1];
        Next(cells, span.lo, nr);
        if cell.otherAngle {
          nr := nr + 1;
          continue;
        }
        var cellLength := Ticks(cell);
        length := length + cellLength;
        if target <= length {
          var offset := if cellLength == 0 then nan else Target(fl, cell, target - before) - cell.first;
          target := cell.first;
          if !toCell {
            target := target + offset;
          }
          found := true;
        } else {
          before := length;
          nr := nr + 1;
        }
      }
      if found {
        var scan := ScanAdmap(maps, domain, target % 0x1_0000_0000);
        if scan.Found? {
          asked := Some(JumpTo(nr, scan.vobu - cells[nr - 1].first));
          if jumps {
            hop := hop + HOP_SEEK;
            ok := true;
          }
        }
      }
      forall n: nat | n <= span.hi && InCell(cells, span.lo, n, time)
        ensures found && n == nr
      {
        InOneCell(cells, span.lo, nr, n, time);
      }
      if asked.Some? {
        ElapsedGrows(cells, asked.value.cell, span.hi);
      }
    }
  }

  lemma Next(cells: seq<Cell>, lo: nat, n: nat)
    requires lo < n <= |cells|
    ensures Since(cells, lo, n) == Since(cells, lo, n - 1) + if cells[n - 1].otherAngle then 0 else Ticks(cells[n - 1])
  {
    hide ConvertTime;
  }

  /** When the cell starts with a VOBU, a jump to the cell goes to its start. A jump into the cell
      never passes its end, and it falls short of its start exactly when the target lies in the first
      VOBU and the search steps back from it. */
  lemma {:induction false} JumpStaysInCell(maps: Maps, domain: int, cells: seq<Cell>, n: nat, sought: U32, k: nat)
    requires AllWellFormed(maps) && 0 < n <= |cells| && cells[n - 1].first <= sought <= cells[n - 1].last
    requires MapFor(maps, domain).Some?
    requires k < |MapFor(maps, domain).value.slots| && MapFor(maps, domain).value.slots[k] == cells[n - 1].first
    ensures JumpFor(cells, n, Scanned(maps, domain, cells[n - 1].first)) == Some(JumpTo(n, 0))
    ensures var m := MapFor(maps, domain).value;
            var scan := Scanned(maps, domain, sought);
            var jump := JumpFor(cells, n, scan);
            && m.slots[0] <= sought
            && (|m.slots| > 20 ==> jump.Some?)
            && (jump.Some? ==>
                  && jump.value.cell == n && jump.value.block <= cells[n - 1].last - cells[n - 1].first
                  && (0 <= jump.value.block <==>
                      !(Nearest(m.slots, sought) == k && !Linear(m, sought) && StepsBack(m.slots, sought))))
  {
    hide Depth;
    var m := MapFor(maps, domain).value;
    StartsAreFound(m, k);
    if |m.slots| > 20 {
      GuardAtTwenty(maps, domain, sought);
    }
    assert k <= Nearest(m.slots, sought);
  }

  /** A cell of a second at sectors 42 to 49, searched for 1/7 of it, so for sector 43, which lies in
      its first VOBU: the jump goes to sector 40, two before the cell. */
  lemma JumpFallsBeforeCell(c: Cell)
    requires c.first == 42 && c.last == 49 && Ticks(c) == 90000 && !c.otherAngle
    ensures var maps, exact := Maps(None, None, Some(EvenMap())), Rounding(x => x, x => x);
            && InCell([c], 0, 1, 12858) && Sought(exact, 0, [c], 0, 1, 12858, false) == 43
            && JumpFor([c], 1, Scanned(maps, VTS_DOMAIN, 43)) == Some(JumpTo(1, -2))
  {
    hide Depth, Target, Elapsed, Ticks, Evens;
    OneCell(c);
    StepsBackOnce();
    SeventhOfSecond(c);
  }

  lemma OneCell(c: Cell)
    requires !c.otherAngle
    ensures Elapsed([c], 0) == 0 && Elapsed([c], 1) == Ticks(c)
  {
    hide ConvertTime;
  }

  lemma SeventhOfSecond(c: Cell)
    requires Ticks(c) == 90000 && c.first == 42 && c.last == 49
    ensures Target(Rounding(x => x, x => x), c, 12858) == 43
  {
    hide Ticks;
    assert 1.0 <= Share(Ratio(12858, 90000), 7.0) < 2.0;
  }

  /** There is such a cell. */
  lemma SecondTakesASecond()
    ensures Ticks(Cell(42, 49, DvdTime(0, 0, 1, 0), false)) == 90000
  {
  }
}
