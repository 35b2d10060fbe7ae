/** The times at which the chapters of a title end: dvdnav_describe_title_chapters of searching.c. */
module Chapters {
  import opened Times
  import opened TimeSearch

  /** ptt_info_t: a chain of the title set and a program of it, both counted from 1. */
  datatype Part = Part(chain: nat, program: nat)

  /** The part names a chain; whether the chain has the program is checked below. */
  predicate Named(chains: seq<Chain>, part: Part) {
    0 < part.chain <= |chains| && part.program > 0
  }

  /** The first cell of a part, and the last one counted for it. That is the cell before the next
      program, but never less than the first: for the last program it is the first cell alone. */
  function FirstCell(c: Chain, program: nat): nat
    requires 0 < program <= |c.programMap|
  {
    c.programMap[program - 1]
  }

  function LastCell(c: Chain, program: nat): nat
    requires 0 < program <= |c.programMap| && GoodMap(c)
  {
    if program < |c.programMap| && c.programMap[program] > c.programMap[program - 1]
    then c.programMap[program] - 1
    else c.programMap[program - 1]
  }

  predicate Exists(chains: seq<Chain>, part: Part)
    requires Named(chains, part)
  {
    part.program <= |chains[part.chain - 1].programMap|
  }

  /** The first n parts exist, and the chains have proper maps. */
  predicate AllExist(chains: seq<Chain>, parts: seq<Part>, n: nat)
    requires n <= |parts|
  {
    && (forall i :: 0 <= i < |chains| ==> GoodMap(chains[i]))
    && forall i :: 0 <= i < n ==> Named(chains, parts[i]) && Exists(chains, parts[i])
  }

  /** The cells counted for a part, as a span. */
  function Counted(chains: seq<Chain>, part: Part): (s: Span)
    requires Named(chains, part) && Exists(chains, part) && GoodMap(chains[part.chain - 1])
    ensures s.lo < s.hi <= |chains[part.chain - 1].cells|
  {
    var c := chains[part.chain - 1];
    Span(FirstCell(c, part.program) - 1, LastCell(c, part.program))
  }

  /** The running time after the first n parts. */
  function Running(chains: seq<Chain>, parts: seq<Part>, n: nat): int
    requires n <= |parts| && AllExist(chains, parts, n)
  {
    if n == 0 then 0
    else
      var s := Counted(chains, parts[n - 1]);
      Running(chains, parts, n - 1) + Since(chains[parts[n - 1].chain - 1].cells, s.lo, s.hi)
  }

  /** Some cell of the part is counted. */
  predicate Timed(chains: seq<Chain>, part: Part)
    requires Named(chains, part) && Exists(chains, part) && GoodMap(chains[part.chain - 1])
  {
    var s := Counted(chains, part);
    !NoneCounted(chains[part.chain - 1].cells, s.lo, s.hi)
  }

  /** The entry of part i + 1. */
  function Listed(chains: seq<Chain>, parts: seq<Part>, i: nat): int
    requires i < |parts| && AllExist(chains, parts, i + 1)
  {
    if Timed(chains, parts[i]) then Running(chains, parts, i + 1) else 0
  }

  /** The cells of one part, from number `nr` on: the entry follows the running time. */
  method AddCells(cells: seq<Cell>, nr: nat, end: nat, tmp: array<int>, i: nat, before: int) returns (length: int)
    requires 0 < nr <= |cells| && end <= |cells| && i < tmp.Length && tmp[i] == 0
    modifies tmp
    ensures var last := if nr < end then end - 1 else nr;
            && length == before + Since(cells, nr - 1, last)
            && tmp[..] == old(tmp[..])[i := if NoneCounted(cells, nr - 1, last) then 0 else length]
  {
    hide Elapsed, ConvertTime;
    length := before;
    var n, first := nr, true;
    while first || n < end
      invariant nr <= n && n <= |cells| + 1 && (nr < end ==> n <= end) && (nr >= end ==> n <= nr + 1)
      invariant first <==> n == nr
      invariant length == before + Since(cells, nr - 1, n - 1)
      invariant tmp[..] == old(tmp[..])[i := if NoneCounted(cells, nr - 1, n - 1) then 0 else length]
      decreases |cells| + 1 - n
    {
      first := false;
      Next(cells, nr - 1, n);
      var cell := cells[n - 1];
      if !cell.otherAngle {
        tmp[i] := length + Ticks(cell);
        length := tmp[i];
      }
      n := n + 1;
    }
  }

  lemma {:induction false} NothingRuns(chains: seq<Chain>, parts: seq<Part>)
    requires AllExist(chains, parts, 0)
    ensures Running(chains, parts, 0) == 0
  {
  }

  lemma PartAdds(chains: seq<Chain>, parts: seq<Part>, i: nat)
    requires i < |parts| && AllExist(chains, parts, i + 1)
    ensures var c, program := chains[parts[i].chain - 1], parts[i].program;
            var nr := c.programMap[program - 1];
            var end := if program < |c.programMap| then c.programMap[program] else 0;
            var last := if nr < end then end - 1 else nr;
            && AllExist(chains, parts, i)
            && 0 < nr <= |c.cells| && end <= |c.cells|
            && Running(chains, parts, i + 1) == Running(chains, parts, i) + Since(c.cells, nr - 1, last)
            && Listed(chains, parts, i)
               == if NoneCounted(c.cells, nr - 1, last) then 0 else Running(chains, parts, i + 1)
  {
    hide Since, NoneCounted;
  }

  /** dvdnav_describe_title_chapters, for a title whose part table has been read. The entry of a part
      of which no cell is counted stays 0. On failure there are no times. `freed` tells that the array
      has been freed: also when there are no parts, so that the caller is handed a dangling pointer. */
  method DescribeTitleChapters(chains: seq<Chain>, parts: seq<Part>)
    returns (count: nat, times: array?<int>, duration: int, freed: bool)
    requires forall i :: 0 <= i < |chains| ==> GoodMap(chains[i])
    requires forall i :: 0 <= i < |parts| ==> Named(chains, parts[i])
    ensures !AllExist(chains, parts, |parts|) ==> count == 0 && times == null && duration == 0 && freed
    ensures AllExist(chains, parts, |parts|) ==>
              && times != null && count == times.Length == |parts| && duration == Running(chains, parts, |parts|)
              && (forall i :: 0 <= i < |parts| ==> times[i] == Listed(chains, parts, i))
              && (freed <==> |parts| == 0)
  {
    hide Since, NoneCounted, Running, Listed;
    NothingRuns(chains, parts);
    count, times, duration, freed := 0, null, 0, false;
    var tmp := new int[|parts|](_ => 0);
    var length := 0;
    var i := 0;
    var wrong := false;
    while i < |parts|
      invariant 0 <= i <= |parts| && AllExist(chains, parts, i)
      invariant forall k :: i <= k < |parts| ==> tmp[k] == 0
      invariant length == Running(chains, parts, i)
      invariant forall k :: 0 <= k < i ==> tmp[k] == Listed(chains, parts, k)
      invariant !wrong && times == null && duration == 0 && count == 0
    {
      var pgc := chains[parts[i].chain - 1];
      if parts[i].program > |pgc.programMap| {
        wrong := true;
        break;
      }
      var nr := pgc.programMap[parts[i].program - 1];
      var end := if parts[i].program < |pgc.programMap| then pgc.programMap[parts[i].program] else 0;
      PartAdds(chains, parts, i);
      length := AddCells(pgc.cells, nr, end, tmp, i, length);
      i := i + 1;
    }
    if !wrong {
      duration, count, times := length, |parts|, tmp;
    }
    if count == 0 {
      freed := true;
    }
  }

  // ----- a title whose parts are the programs of one chain ----------------------------------

  /** The parts 1 to n are the first n programs of the chain, the program map increases from the
      first cell on, and each program starts with a counted cell. */
  predicate Consecutive(chains: seq<Chain>, chain: nat, parts: seq<Part>) {
    && (forall i :: 0 <= i < |chains| ==> GoodMap(chains[i]))
    && 0 < chain <= |chains| && 0 < |parts| <= |chains[chain - 1].programMap|
    && (forall i :: 0 <= i < |parts| ==> parts[i] == Part(chain, i + 1))
    && var c := chains[chain - 1];
       && c.programMap[0] == 1
       && (forall i, j :: 0 <= i < j < |c.programMap| ==> c.programMap[i] < c.programMap[j])
       && forall i :: 0 <= i < |c.programMap| ==> !c.cells[c.programMap[i] - 1].otherAngle
  }

  /** The cells counted for a program end where the next program starts. */
  lemma ProgramsFollow(chains: seq<Chain>, chain: nat, parts: seq<Part>, n: nat)
    requires Consecutive(chains, chain, parts) && 0 < n <= |parts|
    ensures AllExist(chains, parts, |parts|) && 0 < chain <= |chains| && parts[n - 1] == Part(chain, n)
    ensures var c := chains[chain - 1];
            && 0 < n <= |c.programMap| && Counted(chains, parts[n - 1]) == Span(FirstCell(c, n) - 1, LastCell(c, n))
            && FirstCell(c, 1) == 1
            && (n < |c.programMap| ==> LastCell(c, n) == FirstCell(c, n + 1) - 1)
  {
  }

  /** The entries of consecutive programs are times elapsed since the start of the chain. */
  lemma {:induction false} RunningIsElapsed(chains: seq<Chain>, chain: nat, parts: seq<Part>, n: nat)
    requires Consecutive(chains, chain, parts) && 0 < n <= |parts|
    ensures AllExist(chains, parts, |parts|) && 0 < chain <= |chains| && n <= |chains[chain - 1].programMap|
    ensures var c := chains[chain - 1];
            Running(chains, parts, n) == Elapsed(c.cells, LastCell(c, n))
  {
    hide Elapsed, ConvertTime, LastCell, FirstCell, Consecutive, Counted;
    ProgramsFollow(chains, chain, parts, n);
    if n > 1 {
      ProgramsFollow(chains, chain, parts, n - 1);
      RunningIsElapsed(chains, chain, parts, n - 1);
    } else {
      NothingElapsed(chains[chain - 1].cells);
    }
  }

  lemma {:induction false} NothingElapsed(cells: seq<Cell>)
    ensures Elapsed(cells, 0) == 0
  {
  }

  /** When a title's parts are consecutive programs, every part has its entry and the entries never
      decrease. */
  lemma {:induction false} ChaptersInOrder(chains: seq<Chain>, chain: nat, parts: seq<Part>, i: nat, j: nat)
    requires Consecutive(chains, chain, parts) && i <= j < |parts|
    ensures AllExist(chains, parts, |parts|)
    ensures Listed(chains, parts, i) == Running(chains, parts, i + 1)
    ensures Listed(chains, parts, i) <= Listed(chains, parts, j)
  {
    hide Running, Since;
    EachIsTimed(chains, chain, parts, i);
    EachIsTimed(chains, chain, parts, j);
    RunningGrows(chains, parts, i + 1, j + 1);
  }

  lemma EachIsTimed(chains: seq<Chain>, chain: nat, parts: seq<Part>, i: nat)
    requires Consecutive(chains, chain, parts) && i < |parts|
    ensures AllExist(chains, parts, |parts|) && Timed(chains, parts[i])
  {
    assert !chains[chain - 1].cells[Counted(chains, parts[i]).lo].otherAngle;
  }

  /** An entry is what dvdnav_get_current_time reports on entry to the program that follows, and the
      duration is the last entry. */
  lemma {:induction false} ChaptersAreReported(chains: seq<Chain>, chain: nat, parts: seq<Part>, i: nat)
    requires Consecutive(chains, chain, parts) && i < |parts|
    ensures AllExist(chains, parts, |parts|)
    ensures var c := chains[chain - 1];
            i + 1 < |c.programMap| ==> Listed(chains, parts, i) == Reported(c.cells, FirstCell(c, i + 2), 0)
    ensures Listed(chains, parts, |parts| - 1) == Running(chains, parts, |parts|)
  {
    hide Elapsed, Running, Since, LastCell, FirstCell;
    ProgramsFollow(chains, chain, parts, i + 1);
    EachIsTimed(chains, chain, parts, i);
    EachIsTimed(chains, chain, parts, |parts| - 1);
    RunningIsElapsed(chains, chain, parts, i + 1);
  }

  lemma {:induction false} RunningGrows(chains: seq<Chain>, parts: seq<Part>, i: nat, j: nat)
    requires i <= j <= |parts| && AllExist(chains, parts, |parts|)
    ensures Running(chains, parts, i) <= Running(chains, parts, j)
    decreases j
  {
    hide Since;
    if i < j {
      RunningGrows(chains, parts, i, j - 1);
    }
  }

  /** When the parts are all programs of the chain, the last part counts its first cell only: the
      duration is the time of the whole chain exactly when the cells after that one take no counted
      time. */
  lemma {:induction false} DurationIsWhole(chains: seq<Chain>, chain: nat, parts: seq<Part>)
    requires Consecutive(chains, chain, parts) && |parts| == |chains[chain - 1].programMap|
    ensures AllExist(chains, parts, |parts|)
    ensures var c := chains[chain - 1];
            && Running(chains, parts, |parts|) <= Elapsed(c.cells, |c.cells|)
            && (Running(chains, parts, |parts|) == Elapsed(c.cells, |c.cells|) <==>
                forall k :: FirstCell(c, |parts|) <= k < |c.cells| && !c.cells[k].otherAngle ==> Ticks(c.cells[k]) == 0)
  {
    hide Elapsed, ConvertTime, Ticks;
    var c := chains[chain - 1];
    RunningIsElapsed(chains, chain, parts, |parts|);
    NoMoreTime(c.cells, FirstCell(c, |parts|), |c.cells|);
  }

  lemma {:induction false} NoMoreTime(cells: seq<Cell>, m: nat, n: nat)
    requires m <= n <= |cells|
    ensures Elapsed(cells, m) <= Elapsed(cells, n)
    ensures Elapsed(cells, m) == Elapsed(cells, n) <==>
            forall k :: m <= k < n && !cells[k].otherAngle ==> Ticks(cells[k]) == 0
  {
    hide ConvertTime;
    if m < n {
      NoMoreTime(cells, m, n - 1);
    }
  }

  /** Four cells of a second in three programs, the last program with two of them: the time of the
      very last cell is missing from the duration. */
  lemma LastCellIsMissing()
    ensures var cells := seq(4, i => Cell(100 * i, 100 * i + 99, DvdTime(0, 0, 1, 0), false));
            var chains, parts := [Chain(cells, [1, 2, 3])], [Part(1, 1), Part(1, 2), Part(1, 3)];
            && Consecutive(chains, 1, parts)
            && Running(chains, parts, 3) == 270000 && Elapsed(cells, 4) == 360000
  {
    hide Elapsed;
    var cells := seq(4, i => Cell(100 * i, 100 * i + 99, DvdTime(0, 0, 1, 0), false));
    RunningIsElapsed([Chain(cells, [1, 2, 3])], 1, [Part(1, 1), Part(1, 2), Part(1, 3)], 3);
    SecondsElapse(cells, 3);
    SecondsElapse(cells, 4);
  }

  lemma {:induction false} SecondsElapse(cells: seq<Cell>, n: nat)
    requires n <= |cells|
    requires forall k :: 0 <= k < |cells| ==> cells[k].time == DvdTime(0, 0, 1, 0) && !cells[k].otherAngle
    ensures Elapsed(cells, n) == 90000 * n
  {
    if n > 0 {
      SecondsElapse(cells, n - 1);
    }
  }
}
