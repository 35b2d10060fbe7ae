/** Times in ticks of 1/90000 s: binary-coded playback times, and the time elapsed in a chain. */
module Times {

  type Byte = x: int | 0 <= x < 256

  /** dvd_time_t: two decimal digits to a byte; the top bit of the frame byte tells 30 frames a
      second from 25. */
  datatype DvdTime = DvdTime(hour: Byte, minute: Byte, second: Byte, frame: Byte)

  /** dvdnav_convert_time. */
  function ConvertTime(t: DvdTime): int {
    var frames := t.frame / 16 % 4 * 10 + t.frame % 16;
    t.hour / 16 * 10 * 60 * 60 * 90000 + t.hour % 16 * 60 * 60 * 90000
    + t.minute / 16 * 10 * 60 * 90000 + t.minute % 16 * 60 * 90000
    + t.second / 16 * 10 * 90000 + t.second % 16 * 90000
    + if t.frame / 128 == 1 then frames * 3000 else frames * 3600
  }

  predicate Decimal(b: int) { b / 16 < 10 && b % 16 < 10 }

  function Digits(b: int): int { b / 16 * 10 + b % 16 }

  /** A proper time: decimal digits, less than sixty minutes and seconds, and fewer frames than the
      rate. */
  predicate Proper(t: DvdTime) {
    && Decimal(t.hour) && Decimal(t.minute) && Digits(t.minute) < 60 && Decimal(t.second) && Digits(t.second) < 60
    && t.frame % 16 < 10 && Digits(t.frame % 64) < if t.frame / 128 == 1 then 30 else 25
  }

  /** Proper times of one rate are ordered in ticks as they are in hours, minutes, seconds and
      frames, so equal ticks mean equal times. */
  lemma ConvertTimeOrders(t: DvdTime, u: DvdTime)
    requires Proper(t) && Proper(u) && t.frame / 128 == u.frame / 128
    ensures ConvertTime(t) < ConvertTime(u) <==>
            || Digits(t.hour) < Digits(u.hour)
            || (t.hour == u.hour && Digits(t.minute) < Digits(u.minute))
            || (t.hour == u.hour && t.minute == u.minute && Digits(t.second) < Digits(u.second))
            || (t.hour == u.hour && t.minute == u.minute && t.second == u.second
                && Digits(t.frame % 64) < Digits(u.frame % 64))
  {
    hide ConvertTime;
    SameDigits(t.hour, u.hour);
    SameDigits(t.minute, u.minute);
    SameDigits(t.second, u.second);
    TicksInDigits(t);
    TicksInDigits(u);
  }

  lemma SameDigits(b: Byte, c: Byte)
    requires Decimal(b) && Decimal(c)
    ensures Digits(b) == Digits(c) <==> b == c
  {
  }

  lemma TicksInDigits(t: DvdTime)
    ensures ConvertTime(t) == 324000000 * Digits(t.hour) + 5400000 * Digits(t.minute) + 90000 * Digits(t.second)
                              + if t.frame / 128 == 1 then Digits(t.frame % 64) * 3000 else Digits(t.frame % 64) * 3600
  {
    FrameDigits(t.frame);
  }

  /** Ticks are the time: a rate of frames to the second, sixty seconds to the minute and sixty minutes
      to the hour, 90000 ticks to the second. */
  lemma TicksAreTime(t: DvdTime)
    ensures var rate := if t.frame / 128 == 1 then 30 else 25;
            var seconds := (Digits(t.hour) * 60 + Digits(t.minute)) * 60 + Digits(t.second);
            rate * ConvertTime(t) == 90000 * (rate * seconds + Digits(t.frame % 64))
  {
    hide ConvertTime;
    TicksInDigits(t);
  }

  lemma FrameDigits(b: Byte)
    ensures b / 16 % 4 * 10 + b % 16 == Digits(b % 64)
  {
    var q, r := b / 64, b % 64;
    assert b / 16 == 4 * q + r / 16 && b % 16 == r % 16;
  }

  /** The products are formed in 32-bit int before they are widened: those of the hour stay in range
      exactly below seven hours, the others always do. */
  lemma ProductsFit(t: DvdTime)
    ensures t.hour / 16 * 10 * 60 * 60 * 90000 < 0x8000_0000 && t.hour % 16 * 60 * 60 * 90000 < 0x8000_0000
            <==> t.hour < 7
    ensures t.minute / 16 * 10 * 60 * 90000 < 0x8000_0000 && t.minute % 16 * 60 * 90000 < 0x8000_0000
    ensures t.second / 16 * 10 * 90000 < 0x8000_0000 && t.second % 16 * 90000 < 0x8000_0000
  {
  }

  /** Seven hours are too long: their product is 2268000000. */
  lemma SevenHoursOverflow(t: DvdTime)
    requires t.hour == 7
    ensures t.hour % 16 * 60 * 60 * 90000 == 2268000000 > 0x7fff_ffff
  {
  }

  /** cell_playback_t: its sectors, its time, and whether it is a cell of an angle block other than
      the first. */
  datatype Cell = Cell(first: int, last: int, time: DvdTime, otherAngle: bool)

  function Ticks(c: Cell): (r: int)
    ensures r >= 0
  {
    ConvertTime(c.time)
  }

  /** The time that the first n cells take, counting one angle. */
  function Elapsed(cells: seq<Cell>, n: nat): (r: int)
    requires n <= |cells|
    ensures r >= 0
  {
    if n == 0 then 0 else Elapsed(cells, n - 1) + if cells[n - 1].otherAngle then 0 else Ticks(cells[n - 1])
  }

  lemma {:induction false} ElapsedGrows(cells: seq<Cell>, m: nat, n: nat)
    requires m <= n <= |cells|
    ensures Elapsed(cells, m) <= Elapsed(cells, n)
  {
    hide ConvertTime;
    if m < n {
      ElapsedGrows(cells, m, n - 1);
    }
  }

  /** dvdnav_get_current_time in cell number cellN. */
  method GetCurrentTime(cells: seq<Cell>, cellN: nat, cellTime: int) returns (tm: int)
    requires 0 < cellN <= |cells|
    ensures tm == Elapsed(cells, cellN - 1) + cellTime
  {
    hide ConvertTime;
    tm := 0;
    var i := 0;
    while i < cellN - 1
      invariant 0 <= i <= cellN - 1 && tm == Elapsed(cells, i)
    {
      if !cells[i].otherAngle {
        tm := tm + Ticks(cells[i]);
      }
      i := i + 1;
    }
    tm := tm + cellTime;
  }
}
