/** The incremental MD5 context of md5.c, proved against RFC 1321. */
module Md5 {
  import opened Bits
  import opened Rfc1321

  // ----- the operators and macros -----------------------------------------------------------

  /** x << n on 32 bits: n times, double and drop the top bit. */
  function ShiftLeft(x: Word, n: nat): Word
    decreases n
  {
    if n == 0 then x else ShiftLeft(if x < 0x8000_0000 then 2 * x else 2 * x - TWO32, n - 1)
  }

  /** x >> n. */
  function ShiftRight(x: Word, n: nat): Word
    decreases n
  {
    if n == 0 then x else ShiftRight(x / 2, n - 1)
  }

  /** The rol macro of md5.h. */
  function Rol(x: Word, n: nat): Word
    requires n <= 32
  {
    OrWord(ShiftLeft(x, n), ShiftRight(x, 32 - n))
  }

  // The selectors; the first two are rewritten forms of F and G.
  function FF(b: Word, c: Word, d: Word): Word { XorWord(d, AndWord(b, XorWord(c, d))) }
  function FG(b: Word, c: Word, d: Word): Word { FF(d, b, c) }
  function FH(b: Word, c: Word, d: Word): Word { XorWord(XorWord(b, c), d) }
  function FI(b: Word, c: Word, d: Word): Word { XorWord(c, OrWord(b, NotWord(d))) }

  function Selector(i: nat, b: Word, c: Word, d: Word): Word
    requires i < 64
  {
    if i < 16 then FF(b, c, d) else if i < 32 then FG(b, c, d) else if i < 48 then FH(b, c, d) else FI(b, c, d)
  }

  /** The OP macro: the new value of its first register. */
  function Op(f: Word, a: Word, b: Word, word: Word, s: nat, t: Word): Word
    requires s <= 32
  {
    Plus(Rol(Plus(a, Plus(Plus(f, word), t)), s), b)
  }

  // ----- the macros compute what the standard says ------------------------------------------

  lemma FFIsF(b: Word, c: Word, d: Word)
    ensures FF(b, c, d) == F(b, c, d)
  {
    WordWidth();
    XorSelects(32, b, c, d);
  }

  lemma FGIsG(b: Word, c: Word, d: Word)
    ensures FG(b, c, d) == G(b, c, d)
  {
    FFIsF(d, b, c);
    WordWidth();
    AndCommutes(32, d, b);
    AndCommutes(32, NotWord(d), c);
  }

  lemma SelectorIsAuxiliary(i: nat, b: Word, c: Word, d: Word)
    requires i < 64
    ensures Selector(i, b, c, d) == Auxiliary(i, b, c, d)
  {
    if i < 16 {
      FFIsF(b, c, d);
    } else if i < 32 {
      FGIsG(b, c, d);
    }
  }

  /** A word with the n high bits u and the low bits v. */
  ghost predicate Split(x: Word, n: nat, u: nat, v: nat) {
    n <= 32 && u < Pow2(n) && v < Pow2(32 - n) && x == u * Pow2(32 - n) + v
  }

  /** Taking the top bit off: it is the top one of the n high bits. */
  lemma {:induction false} TopBit(x: Word, n: nat, u: nat, v: nat)
    requires 0 < n && Split(x, n, u, v)
    ensures x >= 0x8000_0000 ==> u >= Pow2(n - 1)
    ensures x >= 0x8000_0000 ==> Split(2 * x - TWO32 + 1, n - 1, u - Pow2(n - 1), 2 * v + 1)
    ensures x >= 0x8000_0000 ==> Split(2 * x - TWO32, n - 1, u - Pow2(n - 1), 2 * v)
    ensures x < 0x8000_0000 ==> Split(2 * x, n - 1, u, 2 * v)
  {
    Pow2Sum(n - 1, 32 - n);
    WordWidth();
    TopBitParts(x, Pow2(32 - n), Pow2(n - 1), u, v);
  }

  lemma NothingHigh(x: Word, u: nat, v: nat)
    requires Split(x, 0, u, v)
    ensures u == 0 && x == v
  {
  }

  lemma TopBitParts(x: nat, p: nat, h: nat, u: nat, v: nat)
    requires h * p == 0x8000_0000 && u < 2 * h && v < p && x == u * p + v
    ensures x >= 0x8000_0000 <==> u >= h
    ensures u >= h ==> 2 * x - TWO32 == (u - h) * (2 * p) + 2 * v
    ensures u < h ==> 2 * x == u * (2 * p) + 2 * v
  {
    if u >= h {
      Ordered(h, u, p);
      Distribute(u - h, h, p);
      Twice(u - h, p);
    } else {
      Ordered(u + 1, h, p);
      Distribute(u, 1, p);
      Twice(u, p);
    }
  }

  lemma {:induction false} RotateLeftValue(x: Word, n: nat, u: nat, v: nat)
    requires Split(x, n, u, v)
    ensures RotateLeft(x, n) == v * Pow2(n) + u
    decreases n
  {
    hide Split;
    if n == 0 {
      NothingHigh(x, u, v);
    } else {
      TopBit(x, n, u, v);
      TopComesBack(u, v, Pow2(n - 1));
      if x < 0x8000_0000 {
        RotateLeftValue(2 * x, n - 1, u, 2 * v);
      } else {
        RotateLeftValue(2 * x - TWO32 + 1, n - 1, u - Pow2(n - 1), 2 * v + 1);
      }
    }
  }

  lemma TopComesBack(u: nat, v: nat, h: nat)
    ensures 2 * v * h + u == v * (2 * h) + u == (2 * v + 1) * h + (u - h)
  {
    Twice(v, h);
    Distribute(2 * v, 1, h);
  }

  lemma {:induction false} ShiftLeftValue(x: Word, n: nat, u: nat, v: nat)
    requires Split(x, n, u, v)
    ensures ShiftLeft(x, n) == v * Pow2(n)
    decreases n
  {
    hide Split;
    if n == 0 {
      NothingHigh(x, u, v);
    } else {
      TopBit(x, n, u, v);
      Twice(v, Pow2(n - 1));
      if x < 0x8000_0000 {
        ShiftLeftValue(2 * x, n - 1, u, 2 * v);
      } else {
        ShiftLeftValue(2 * x - TWO32, n - 1, u - Pow2(n - 1), 2 * v);
      }
    }
  }

  lemma {:induction false} ShiftRightValue(x: Word, n: nat, u: nat, v: nat)
    requires x == u * Pow2(n) + v && v < Pow2(n)
    ensures ShiftRight(x, n) == u
    decreases n
  {
    if n > 0 {
      Twice(u, Pow2(n - 1));
      ShiftRightValue(x / 2, n - 1, u, v / 2);
    }
  }

  lemma SplitExists(x: Word, n: nat) returns (u: nat, v: nat)
    requires n <= 32
    ensures Split(x, n, u, v)
  {
    Pow2Sum(n, 32 - n);
    WordWidth();
    u, v := Divide(x, Pow2(32 - n), Pow2(n));
  }

  lemma Divide(x: nat, p: nat, t: nat) returns (u: nat, v: nat)
    requires p > 0 && x < t * p
    ensures x == u * p + v && u < t && v < p
  {
    u, v := x / p, x % p;
    if u >= t {
      Ordered(t, u, p);
    }
  }

  /** The macro's two shifts and | are a rotation. */
  lemma {:induction false} RolIsRotateLeft(x: Word, n: nat)
    requires n <= 32
    ensures Rol(x, n) == RotateLeft(x, n)
  {
    var u, v := SplitExists(x, n);
    RotateLeftValue(x, n, u, v);
    ShiftLeftValue(x, n, u, v);
    ShiftRightValue(x, 32 - n, u, v);
    WordWidth();
    OrDisjoint(32, n, v, u);
  }

  lemma PlusAssociates(x: Word, y: Word, z: Word)
    ensures Plus(Plus(x, y), z) == Plus(x, Plus(y, z))
  {
  }

  lemma OpReordered(f: Word, a: Word, b: Word, word: Word, s: nat, t: Word)
    requires s <= 32
    ensures Op(f, a, b, word, s, t) == Mixed(a, b, f, word, s, t)
  {
    PlusAssociates(a, Plus(f, word), t);
    PlusAssociates(a, f, word);
    RolIsRotateLeft(Plus(Plus(Plus(a, f), word), t), s);
  }

  /** The OP macro computes the register that RFC 1321's operation i stores. */
  lemma OpIsOperation(i: nat, x: seq<Word>, s: State)
    requires i < 64 && |x| == 16
    ensures Operation(i, x, s)
         == State(s.d, Op(Selector(i, s.b, s.c, s.d), s.a, s.b, x[Table(i).k], Table(i).s, Table(i).t), s.b, s.c)
  {
    SelectorIsAuxiliary(i, s.b, s.c, s.d);
    OpReordered(Auxiliary(i, s.b, s.c, s.d), s.a, s.b, x[Table(i).k], Table(i).s, Table(i).t);
  }

  // ----- the unrolled block -----------------------------------------------------------------

  /** The values run(0), run(1), ... are the registers before the first operation on the block x,
      after it, and so on. */
  ghost predicate IsRun(run: nat -> State, x: seq<Word>)
    requires |x| == 16
  {
    forall j: nat {:trigger Operation(j, x, run(j))} :: j < 64 ==> run(j + 1) == Operation(j, x, run(j))
  }

  /** OP with FF: the new value of the register a, in operation i. */
  method OpFF(ghost i: nat, ghost x: seq<Word>, ghost run: nat -> State, a: Word, b: Word, c: Word, d: Word,
               word: Word, s: nat, t: Word)
    returns (r: Word)
    requires |x| == 16 && IsRun(run, x)
    requires 0 <= i < 16 && State(a, b, c, d) == run(i)
    requires word == x[Table(i).k] && s == Table(i).s && t == Table(i).t
    ensures State(d, r, b, c) == run(i + 1)
  {
    OpIsOperation(i, x, State(a, b, c, d));
    r := Op(FF(b, c, d), a, b, word, s, t);
  }

  /** OP with FG: the new value of the register a, in operation i. */
  method OpFG(ghost i: nat, ghost x: seq<Word>, ghost run: nat -> State, a: Word, b: Word, c: Word, d: Word,
               word: Word, s: nat, t: Word)
    returns (r: Word)
    requires |x| == 16 && IsRun(run, x)
    requires 16 <= i < 32 && State(a, b, c, d) == run(i)
    requires word == x[Table(i).k] && s == Table(i).s && t == Table(i).t
    ensures State(d, r, b, c) == run(i + 1)
  {
    OpIsOperation(i, x, State(a, b, c, d));
    r := Op(FG(b, c, d), a, b, word, s, t);
  }

  /** OP with FH: the new value of the register a, in operation i. */
  method OpFH(ghost i: nat, ghost x: seq<Word>, ghost run: nat -> State, a: Word, b: Word, c: Word, d: Word,
               word: Word, s: nat, t: Word)
    returns (r: Word)
    requires |x| == 16 && IsRun(run, x)
    requires 32 <= i < 48 && State(a, b, c, d) == run(i)
    requires word == x[Table(i).k] && s == Table(i).s && t == Table(i).t
    ensures State(d, r, b, c) == run(i + 1)
  {
    OpIsOperation(i, x, State(a, b, c, d));
    r := Op(FH(b, c, d), a, b, word, s, t);
  }

  /** OP with FI: the new value of the register a, in operation i. */
  method OpFI(ghost i: nat, ghost x: seq<Word>, ghost run: nat -> State, a: Word, b: Word, c: Word, d: Word,
               word: Word, s: nat, t: Word)
    returns (r: Word)
    requires |x| == 16 && IsRun(run, x)
    requires 48 <= i < 64 && State(a, b, c, d) == run(i)
    requires word == x[Table(i).k] && s == Table(i).s && t == Table(i).t
    ensures State(d, r, b, c) == run(i + 1)
  {
    OpIsOperation(i, x, State(a, b, c, d));
    r := Op(FI(b, c, d), a, b, word, s, t);
  }

  method RoundOne(x: seq<Word>, ghost run: nat -> State, s: State) returns (r: State)
    requires |x| == 16 && IsRun(run, x) && s == run(0)
    ensures r == run(16)
  {
    var a, b, c, d := s.a, s.b, s.c, s.d;
    a := OpFF(0, x, run, a, b, c, d, x[0], 7, 0xd76aa478);
    d := OpFF(1, x, run, d, a, b, c, x[1], 12, 0xe8c7b756);
    c := OpFF(2, x, run, c, d, a, b, x[2], 17, 0x242070db);
    b := OpFF(3, x, run, b, c, d, a, x[3], 22, 0xc1bdceee);
    a := OpFF(4, x, run, a, b, c, d, x[4], 7, 0xf57c0faf);
    d := OpFF(5, x, run, d, a, b, c, x[5], 12, 0x4787c62a);
    c := OpFF(6, x, run, c, d, a, b, x[6], 17, 0xa8304613);
    b := OpFF(7, x, run, b, c, d, a, x[7], 22, 0xfd469501);
    a := OpFF(8, x, run, a, b, c, d, x[8], 7, 0x698098d8);
    d := OpFF(9, x, run, d, a, b, c, x[9], 12, 0x8b44f7af);
    c := OpFF(10, x, run, c, d, a, b, x[10], 17, 0xffff5bb1);
    b := OpFF(11, x, run, b, c, d, a, x[11], 22, 0x895cd7be);
    a := OpFF(12, x, run, a, b, c, d, x[12], 7, 0x6b901122);
    d := OpFF(13, x, run, d, a, b, c, x[13], 12, 0xfd987193);
    c := OpFF(14, x, run, c, d, a, b, x[14], 17, 0xa679438e);
    b := OpFF(15, x, run, b, c, d, a, x[15], 22, 0x49b40821);
    r := State(a, b, c, d);
  }

  method RoundTwo(x: seq<Word>, ghost run: nat -> State, s: State) returns (r: State)
    requires |x| == 16 && IsRun(run, x) && s == run(16)
    ensures r == run(32)
  {
    var a, b, c, d := s.a, s.b, s.c, s.d;
    a := OpFG(16, x, run, a, b, c, d, x[1], 5, 0xf61e2562);
    d := OpFG(17, x, run, d, a, b, c, x[6], 9, 0xc040b340);
    c := OpFG(18, x, run, c, d, a, b, x[11], 14, 0x265e5a51);
    b := OpFG(19, x, run, b, c, d, a, x[0], 20, 0xe9b6c7aa);
    a := OpFG(20, x, run, a, b, c, d, x[5], 5, 0xd62f105d);
    d := OpFG(21, x, run, d, a, b, c, x[10], 9, 0x02441453);
    c := OpFG(22, x, run, c, d, a, b, x[15], 14, 0xd8a1e681);
    b := OpFG(23, x, run, b, c, d, a, x[4], 20, 0xe7d3fbc8);
    a := OpFG(24, x, run, a, b, c, d, x[9], 5, 0x21e1cde6);
    d := OpFG(25, x, run, d, a, b, c, x[14], 9, 0xc33707d6);
    c := OpFG(26, x, run, c, d, a, b, x[3], 14, 0xf4d50d87);
    b := OpFG(27, x, run, b, c, d, a, x[8], 20, 0x455a14ed);
    a := OpFG(28, x, run, a, b, c, d, x[13], 5, 0xa9e3e905);
    d := OpFG(29, x, run, d, a, b, c, x[2], 9, 0xfcefa3f8);
    c := OpFG(30, x, run, c, d, a, b, x[7], 14, 0x676f02d9);
    b := OpFG(31, x, run, b, c, d, a, x[12], 20, 0x8d2a4c8a);
    r := State(a, b, c, d);
  }

  method RoundThree(x: seq<Word>, ghost run: nat -> State, s: State) returns (r: State)
    requires |x| == 16 && IsRun(run, x) && s == run(32)
    ensures r == run(48)
  {
    var a, b, c, d := s.a, s.b, s.c, s.d;
    a := OpFH(32, x, run, a, b, c, d, x[5], 4, 0xfffa3942);
    d := OpFH(33, x, run, d, a, b, c, x[8], 11, 0x8771f681);
    c := OpFH(34, x, run, c, d, a, b, x[11], 16, 0x6d9d6122);
    b := OpFH(35, x, run, b, c, d, a, x[14], 23, 0xfde5380c);
    a := OpFH(36, x, run, a, b, c, d, x[1], 4, 0xa4beea44);
    d := OpFH(37, x, run, d, a, b, c, x[4], 11, 0x4bdecfa9);
    c := OpFH(38, x, run, c, d, a, b, x[7], 16, 0xf6bb4b60);
    b := OpFH(39, x, run, b, c, d, a, x[10], 23, 0xbebfbc70);
    a := OpFH(40, x, run, a, b, c, d, x[13], 4, 0x289b7ec6);
    d := OpFH(41, x, run, d, a, b, c, x[0], 11, 0xeaa127fa);
    c := OpFH(42, x, run, c, d, a, b, x[3], 16, 0xd4ef3085);
    b := OpFH(43, x, run, b, c, d, a, x[6], 23, 0x04881d05);
    a := OpFH(44, x, run, a, b, c, d, x[9], 4, 0xd9d4d039);
    d := OpFH(45, x, run, d, a, b, c, x[12], 11, 0xe6db99e5);
    c := OpFH(46, x, run, c, d, a, b, x[15], 16, 0x1fa27cf8);
    b := OpFH(47, x, run, b, c, d, a, x[2], 23, 0xc4ac5665);
    r := State(a, b, c, d);
  }

  method RoundFour(x: seq<Word>, ghost run: nat -> State, s: State) returns (r: State)
    requires |x| == 16 && IsRun(run, x) && s == run(48)
    ensures r == run(64)
  {
    var a, b, c, d := s.a, s.b, s.c, s.d;
    a := OpFI(48, x, run, a, b, c, d, x[0], 6, 0xf4292244);
    d := OpFI(49, x, run, d, a, b, c, x[7], 10, 0x432aff97);
    c := OpFI(50, x, run, c, d, a, b, x[14], 15, 0xab9423a7);
    b := OpFI(51, x, run, b, c, d, a, x[5], 21, 0xfc93a039);
    a := OpFI(52, x, run, a, b, c, d, x[12], 6, 0x655b59c3);
    d := OpFI(53, x, run, d, a, b, c, x[3], 10, 0x8f0ccc92);
    c := OpFI(54, x, run, c, d, a, b, x[10], 15, 0xffeff47d);
    b := OpFI(55, x, run, b, c, d, a, x[1], 21, 0x85845dd1);
    a := OpFI(56, x, run, a, b, c, d, x[8], 6, 0x6fa87e4f);
    d := OpFI(57, x, run, d, a, b, c, x[15], 10, 0xfe2ce6e0);
    c := OpFI(58, x, run, c, d, a, b, x[6], 15, 0xa3014314);
    b := OpFI(59, x, run, b, c, d, a, x[13], 21, 0x4e0811a1);
    a := OpFI(60, x, run, a, b, c, d, x[4], 6, 0xf7537e82);
    d := OpFI(61, x, run, d, a, b, c, x[11], 10, 0xbd3af235);
    c := OpFI(62, x, run, c, d, a, b, x[2], 15, 0x2ad7d2bb);
    b := OpFI(63, x, run, b, c, d, a, x[9], 21, 0xeb86d391);
    r := State(a, b, c, d);
  }

  /** The body of the loop in md5_process_block: all four rounds and the last additions. */
  method UnrolledBlock(block: seq<Byte>, s: State) returns (r: State)
    requires |block| == 64
    ensures r == CompressBlock(block, s)
  {
    var x := BlockWords(block);
    ghost var run: nat -> State := (n: nat) => if n <= 64 then Operations(n, x, s) else s;
    var t := RoundOne(x, run, s);
    t := RoundTwo(x, run, t);
    t := RoundThree(x, run, t);
    t := RoundFour(x, run, t);
    r := Add(t, s);
  }

  // ----- the byte counter -------------------------------------------------------------------

  /** The two counter words after the counting step of md5_process_block and md5_finish_ctx:
      the low word wraps around, and a carry is taken when it ends up below the increment. */
  function Advance(total0: Word, total1: Word, len: nat): (Word, Word) {
    var low := (total0 + len) % TWO32;
    (low, if low < len then Plus(total1, 1) else total1)
  }

  /** The counter's idea of a number of bytes. */
  function Wrapped(n: nat): nat {
    n % TWO64
  }

  function Joined(total0: Word, total1: Word): nat {
    total0 + TWO32 * total1
  }

  /** Because the carry is at most one, the counter is exact for every increment below 2^32, and
      beyond that only when the true carry happens to be one. */
  lemma AdvanceExact(total0: Word, total1: Word, len: nat)
    ensures var (low, high) := Advance(total0, total1, len);
            Joined(low, high) == (Joined(total0, total1) + len) % TWO64
            <==> len < TWO32 || (total0 + len) / TWO32 % TWO32 == 1
  {
    var low, carry := (total0 + len) % TWO32, (total0 + len) / TWO32;
    HighWord(low, total1, carry);
    assert Joined(total0, total1) + len == low + TWO32 * (total1 + carry);
    if len < TWO32 {
      assert carry == if low < len then 1 else 0;
      HighSum(total1, carry);
    } else {
      assert low < len;
      SameHigh(total1, carry);
    }
  }

  /** An increment of 2^33 carries two, of which the counter takes one. */
  lemma LongIncrementMiscounts()
    ensures Advance(0, 0, 0x2_0000_0000) == (0, 1)
    ensures Joined(0, 1) == 0x1_0000_0000
  {
  }

  lemma AdvanceSmall(total0: Word, total1: Word, len: nat, n: nat, m: nat)
    requires len < TWO32 && Wrapped(Joined(total0, total1) + n) == Wrapped(m)
    ensures var (low, high) := Advance(total0, total1, len);
            && Joined(low, high) == Wrapped(Joined(total0, total1) + len)
            && Wrapped(Joined(low, high) + n) == Wrapped(m + len)
  {
    hide Advance;
    AdvanceExact(total0, total1, len);
    var t := Joined(total0, total1);
    CountOn(t + len, n);
    CountOn(t + n, len);
    CountOn(m, len);
    assert t + len + n == t + n + len;
  }

  lemma HighWord(low: Word, high: nat, carry: nat)
    ensures (low + TWO32 * (high + carry)) % TWO64 == low + TWO32 * ((high + carry) % TWO32)
  {
    var q, r := (high + carry) / TWO32, (high + carry) % TWO32;
    Remainder(low + TWO32 * (high + carry), q, low + TWO32 * r);
  }

  lemma Remainder(v: nat, q: nat, r: nat)
    requires r < TWO64 && v == TWO64 * q + r
    ensures v % TWO64 == r
  {
  }

  lemma HighSum(high: Word, carry: nat)
    requires carry <= 1
    ensures (high + carry) % TWO32 == Plus(high, carry)
  {
  }

  /** Two carries give the same high word exactly when they agree modulo 2^32. */
  lemma SameHigh(high: Word, carry: nat)
    ensures (high + carry) % TWO32 == Plus(high, 1) <==> carry % TWO32 == 1
  {
    var q, r := carry / TWO32, carry % TWO32;
    assert high + carry == TWO32 * q + (high + r);
    assert (high + carry) % TWO32 == Plus(high, r);
  }

  lemma CountOn(n: nat, m: nat)
    ensures (n % TWO64 + m) % TWO64 == (n + m) % TWO64
  {
    var q, r := (n % TWO64 + m) / TWO64, (n % TWO64 + m) % TWO64;
    Remainder(n + m, n / TWO64 + q, r);
  }

  // ----- the length field -------------------------------------------------------------------

  /** The two words that md5_finish_ctx stores are the length in bits modulo 2^64. */
  function HighBits(total0: Word, total1: Word): Word {
    OrWord(ShiftLeft(total1, 3), ShiftRight(total0, 29))
  }

  lemma {:induction false} LengthWords(total0: Word, total1: Word, n: nat)
    requires Joined(total0, total1) == Wrapped(n)
    ensures WordBytes(ShiftLeft(total0, 3)) + WordBytes(HighBits(total0, total1)) == LengthField(n)
  {
    hide WordBytes, HighBits;
    var u0, v0 := Divide(total0, 0x2000_0000, 8);
    var u1, v1 := Divide(total1, 0x2000_0000, 8);
    ShiftedByThree(total0, u0, v0);
    HighBitsValue(total0, total1, u0, v0, u1, v1);
    BitLength(n, u0, v0, u1, v1);
  }

  lemma {:induction false} ShiftedByThree(x: Word, u: nat, v: nat)
    requires x == u * 0x2000_0000 + v && u < 8 && v < 0x2000_0000
    ensures ShiftLeft(x, 3) == v * 8 && ShiftRight(x, 29) == u
  {
    WordWidth();
    assert Pow2(29) == 0x2000_0000 by {
      Pow2Sum(3, 29);
    }
    ShiftLeftValue(x, 3, u, v);
    ShiftRightValue(x, 29, u, v);
  }

  lemma HighBitsValue(total0: Word, total1: Word, u0: nat, v0: nat, u1: nat, v1: nat)
    requires total0 == u0 * 0x2000_0000 + v0 && u0 < 8 && v0 < 0x2000_0000
    requires total1 == u1 * 0x2000_0000 + v1 && u1 < 8 && v1 < 0x2000_0000
    ensures HighBits(total0, total1) == 8 * v1 + u0
  {
    ShiftedByThree(total0, u0, v0);
    ShiftedByThree(total1, u1, v1);
    WordWidth();
    OrDisjoint(32, 3, v1, u0);
  }

  lemma BitLength(n: nat, u0: nat, v0: nat, u1: nat, v1: nat)
    requires u0 < 8 && v0 < 0x2000_0000 && u1 < 8 && v1 < 0x2000_0000
    requires n % TWO64 == u0 * 0x2000_0000 + v0 + TWO32 * (u1 * 0x2000_0000 + v1)
    ensures 8 * n % TWO64 % TWO32 == 8 * v0 && 8 * n % TWO64 / TWO32 == 8 * v1 + u0
  {
    var bits := 8 * v0 + TWO32 * (8 * v1 + u0);
    Remainder(8 * n, 8 * (n / TWO64) + u1, bits);
    assert bits % TWO32 == 8 * v0 && bits / TWO32 == 8 * v1 + u0;
  }

  /** The field depends on the length modulo 2^64 only. */
  lemma SameField(m: nat, n: nat)
    requires Wrapped(m) == Wrapped(n)
    ensures LengthField(m) == LengthField(n)
  {
    EightTimes(m);
    EightTimes(n);
  }

  lemma EightTimes(n: nat)
    ensures 8 * n % TWO64 == 8 * (n % TWO64) % TWO64
  {
    var q, r := n / TWO64, n % TWO64;
    var p, t := 8 * r / TWO64, 8 * r % TWO64;
    Remainder(8 * n, 8 * q + p, t);
  }

  // ----- the context ------------------------------------------------------------------------

  /** The registers stand for the whole blocks hashed so far. */
  ghost predicate Reflects(s: State, hashed: seq<Byte>) {
    |hashed| % 64 == 0 && s == Blocks(hashed, INITIAL)
  }

  lemma SumOfBlocks(m: nat, n: nat)
    requires m % 64 == 0
    ensures (m + n) % 64 == n % 64
  {
  }

  lemma {:induction false} ReflectsMore(s: State, hashed: seq<Byte>, data: seq<Byte>)
    requires Reflects(s, hashed) && |data| % 64 == 0
    ensures Reflects(Blocks(data, s), hashed + data)
  {
    hide Blocks;
    SumOfBlocks(|hashed|, |data|);
    BlocksConcat(hashed, data, INITIAL);
  }

  /** The padding of a message of some length, and a length field. */
  function Ending(length: nat, claimed: nat): (r: seq<Byte>)
    ensures (length + |r|) % 64 == 0
  {
    hide Padding, LengthField;
    EightMore(length + |Padding(length)|);
    Padding(length) + LengthField(claimed)
  }

  /** The digest of a message whose length field claims another length. */
  function DigestClaiming(m: seq<Byte>, claimed: nat): (r: seq<Byte>)
    ensures |r| == 16
  {
    var n := |m|;
    Output(Blocks(m + Ending(n, claimed), INITIAL))
  }

  /** Claiming the length modulo 2^64 gives the digest of RFC 1321. */
  lemma HonestDigest(m: seq<Byte>, claimed: nat)
    requires Wrapped(claimed) == Wrapped(|m|)
    ensures DigestClaiming(m, claimed) == Digest(m)
  {
    hide Blocks, Output, Padding, LengthField;
    SameField(claimed, |m|);
    assert Ending(|m|, claimed) == Suffix(|m|);
  }

  /** What md5_finish_ctx hashes last is the rest of the message with its padding and length. */
  lemma {:induction false} LastBlocks(s: State, hashed: seq<Byte>, pending: seq<Byte>, claimed: nat)
    requires Reflects(s, hashed)
    ensures (|hashed| + |pending|) % 64 == |pending| % 64
    ensures var last := pending + Ending(|hashed + pending|, claimed);
            |last| % 64 == 0 && DigestClaiming(hashed + pending, claimed) == Output(Blocks(last, s))
  {
    hide Blocks, Ending, Output;
    var message := hashed + pending;
    var last := pending + Ending(|message|, claimed);
    assert message + Ending(|message|, claimed) == hashed + last;
    SumOfBlocks(|hashed|, |pending|);
    SumOfBlocks(|hashed|, |last|);
    BlocksConcat(hashed, last, INITIAL);
  }

  // ----- counting ---------------------------------------------------------------------------

  /** n & ~63. */
  function WholeBlocks(n: nat): (r: nat)
    ensures r % 64 == 0 && r <= n < r + 64
  {
    n / 64 * 64
  }

  /** Counter and buffer length after md5_process_bytes with n bytes: the whole blocks in the buffer
      are counted, then those that follow. */
  function Fed(total0: Word, total1: Word, buflen: nat, n: nat): (Word, Word, nat)
    requires buflen <= 64
  {
    if buflen == 0 then Stored(total0, total1, n)
    else
      var add := if 128 - buflen > n then n else 128 - buflen;
      var (low, high, left) := Filled(total0, total1, buflen + add);
      if left == 0 then Stored(low, high, n - add) else (low, high, left)
  }

  function Filled(total0: Word, total1: Word, sum: nat): (Word, Word, nat) {
    if sum <= 64 then (total0, total1, sum)
    else
      var (low, high) := Advance(total0, total1, WholeBlocks(sum));
      (low, high, sum - WholeBlocks(sum))
  }

  function Stored(total0: Word, total1: Word, n: nat): (Word, Word, nat) {
    if n <= 64 then (total0, total1, n)
    else
      var (low, high) := Advance(total0, total1, WholeBlocks(n));
      (low, high, n - WholeBlocks(n))
  }

  /** The count of the whole blocks of n bytes is exact: there are none, or less than 2^32 bytes in
      them, or their carry happens to be one. */
  predicate StoredRight(total0: Word, n: nat) {
    n <= 64 || WholeBlocks(n) < TWO32 || (total0 + WholeBlocks(n)) / TWO32 % TWO32 == 1
  }

  /** What follows the buffer is counted right; the buffer always is. */
  predicate FedRight(total0: Word, total1: Word, buflen: nat, n: nat)
    requires buflen <= 64
  {
    if buflen == 0 then StoredRight(total0, n)
    else
      var add := if 128 - buflen > n then n else 128 - buflen;
      var (low, high, left) := Filled(total0, total1, buflen + add);
      left == 0 ==> StoredRight(low, n - add)
  }

  /** A call counts its bytes right, modulo 2^64, exactly in that case. */
  lemma {:induction false} FedExact(total0: Word, total1: Word, buflen: nat, n: nat)
    requires buflen <= 64
    ensures var (low, high, left) := Fed(total0, total1, buflen, n);
            Wrapped(Joined(low, high) + left) == Wrapped(Joined(total0, total1) + buflen + n)
            <==> FedRight(total0, total1, buflen, n)
  {
    hide Advance, Joined, Wrapped, WholeBlocks, Stored, StoredRight;
    if buflen == 0 {
      StoredExact(total0, total1, n);
    } else {
      var add := if 128 - buflen > n then n else 128 - buflen;
      var sum := buflen + add;
      if sum > 64 {
        var whole, t := WholeBlocks(sum), Joined(total0, total1);
        AdvanceSmall(total0, total1, whole, 0, t);
        var (low, high) := Advance(total0, total1, whole);
        if sum == whole {
          StoredExact(low, high, n - add);
          WrappedSum(Joined(low, high), t + whole, n - add);
        } else {
          WrappedSum(Joined(low, high), t + whole, sum - whole);
        }
      }
    }
  }

  lemma {:induction false} StoredExact(total0: Word, total1: Word, n: nat)
    ensures var (low, high, left) := Stored(total0, total1, n);
            Wrapped(Joined(low, high) + left) == Wrapped(Joined(total0, total1) + n) <==> StoredRight(total0, n)
  {
    hide Advance, WholeBlocks;
    if n > 64 {
      var whole, t := WholeBlocks(n), Joined(total0, total1);
      AdvanceExact(total0, total1, whole);
      var (low, high) := Advance(total0, total1, whole);
      WrappedCancels(Joined(low, high), t + whole, n - whole);
      JoinedFits(low, high);
    }
  }

  lemma JoinedFits(low: Word, high: Word)
    ensures Wrapped(Joined(low, high)) == Joined(low, high)
  {
  }

  lemma WrappedCancels(a: nat, b: nat, c: nat)
    ensures Wrapped(a + c) == Wrapped(b + c) <==> Wrapped(a) == Wrapped(b)
  {
    if Wrapped(a) == Wrapped(b) {
      WrappedSum(a, b, c);
    }
    if Wrapped(a + c) == Wrapped(b + c) {
      var d := TWO64 - c % TWO64;
      WrappedSum(a + c, b + c, d);
      Turns(a, c / TWO64 + 1);
      Turns(b, c / TWO64 + 1);
    }
  }

  lemma Turns(a: nat, q: nat)
    ensures Wrapped(a + TWO64 * q) == Wrapped(a)
  {
    Remainder(a + TWO64 * q, a / TWO64 + q, a % TWO64);
  }

  /** Less than 2^32 bytes at a time always are. */
  lemma {:induction false} FedCounts(total0: Word, total1: Word, buflen: nat, n: nat)
    requires buflen <= 64 && n < TWO32
    ensures FedRight(total0, total1, buflen, n)
  {
    hide Advance;
  }

  lemma WrappedSum(a: nat, b: nat, c: nat)
    requires Wrapped(a) == Wrapped(b) || a == Wrapped(b)
    ensures Wrapped(a + c) == Wrapped(b + c)
  {
    CountOn(a, c);
    CountOn(b, c);
  }

  /** The whole blocks at the front of s, and the rest. */
  method TakeWhole(s: seq<Byte>) returns (head: seq<Byte>, tail: seq<Byte>)
    ensures s == head + tail && |head| == WholeBlocks(|s|) && |tail| < 64
    ensures forall m: seq<Byte> :: m + s == m + head + tail
  {
    var whole := WholeBlocks(|s|);
    head, tail := s[..whole], s[whole..];
  }

  method MemCpy(dst: array<Byte>, at: nat, src: seq<Byte>)
    requires at + |src| <= dst.Length
    modifies dst
    ensures dst[..] == old(dst[..at]) + src + old(dst[at + |src|..])
  {
    forall k | 0 <= k < |src| {
      dst[at + k] := src[k];
    }
  }

  /** fillbuf: 0x80 and then zeros. */
  const FILLBUF: seq<Byte> := [0x80] + seq(63, _ => 0)

  /** The bytes copied from fillbuf are the padding of the whole message. */
  lemma FillbufPads(length: nat, bytes: nat, pad: nat)
    requires bytes <= 64 && length % 64 == bytes % 64
    requires pad == if bytes >= 56 then 64 + 56 - bytes else 56 - bytes
    ensures pad <= 64 && FILLBUF[..pad] == Padding(length)
  {
    assert |Padding(length)| == pad;
  }

  /** struct md5_ctx. The ghost field holds the bytes that have gone through md5_process_block. */
  class Context {
    var a: Word
    var b: Word
    var c: Word
    var d: Word
    var total0: Word
    var total1: Word
    var buflen: nat
    const buffer: array<Byte>
    ghost var hashed: seq<Byte>

    ghost function Registers(): State
      reads this
    {
      State(a, b, c, d)
    }

    /** The bytes given so far are those hashed and those still in the buffer. */
    ghost function Message(): seq<Byte>
      reads this, buffer
      requires buflen <= buffer.Length
    {
      hashed + buffer[..buflen]
    }

    ghost predicate Valid()
      reads this, buffer
    {
      buffer.Length == 128 && buflen <= 64 && Reflects(Registers(), hashed)
    }

    /** The counter, with the bytes in the buffer, has the length of the message modulo 2^64. */
    ghost predicate Exact()
      reads this, buffer
      requires buflen <= buffer.Length
    {
      Wrapped(Joined(total0, total1) + buflen) == Wrapped(|Message()|)
    }

    constructor ()
      ensures Valid() && Exact() && Message() == [] && fresh(buffer)
      ensures total0 == total1 == 0 && buflen == 0 && hashed == []
    {
      buffer := new Byte[128];
      new;
      Init();
    }

    /** md5_init_ctx. */
    method Init()
      requires buffer.Length == 128
      modifies this
      ensures Valid() && Exact() && Message() == []
      ensures total0 == total1 == 0 && buflen == 0 && hashed == []
    {
      a, b, c, d := 0x67452301, 0xefcdab89, 0x98badcfe, 0x10325476;
      total0, total1 := 0, 0;
      buflen := 0;
      hashed := [];
    }

    /** md5_process_block: len is a multiple of 64. */
    method ProcessBlock(data: seq<Byte>)
      requires |data| % 64 == 0
      modifies this`a, this`b, this`c, this`d, this`total0, this`total1
      ensures Registers() == Blocks(data, old(Registers()))
      ensures (total0, total1) == Advance(old(total0), old(total1), |data|)
    {
      hide Blocks;
      var s := State(a, b, c, d);
      total0 := (total0 + |data|) % TWO32;
      if total0 < |data| {
        total1 := Plus(total1, 1);
      }
      s := AllBlocks(data, s);
      a, b, c, d := s.a, s.b, s.c, s.d;
    }

    /** A call of md5_process_block on whole blocks, with the record of what has been hashed. */
    method Hash(data: seq<Byte>)
      requires Reflects(Registers(), hashed) && |data| % 64 == 0
      modifies this`a, this`b, this`c, this`d, this`total0, this`total1, this`hashed
      ensures Reflects(Registers(), hashed) && hashed == old(hashed) + data
      ensures (total0, total1) == Advance(old(total0), old(total1), |data|)
    {
      hide Reflects, Blocks, Advance;
      ReflectsMore(Registers(), hashed, data);
      ProcessBlock(data);
      hashed := hashed + data;
    }

    /** md5_process_bytes. */
    method ProcessBytes(data: seq<Byte>)
      requires Valid()
      modifies this, buffer
      ensures Valid() && Message() == old(Message()) + data
      ensures (total0, total1, buflen) == Fed(old(total0), old(total1), old(buflen), |data|)
      ensures old(Exact()) ==> (Exact() <==> FedRight(old(total0), old(total1), old(buflen), |data|))
    {
      hide Reflects, Joined, Wrapped, Advance, WholeBlocks, Stored, Filled, FedRight;
      ghost var t0, t1, bytes, length := total0, total1, buflen, |Message()|;
      var rest := data;
      if buflen != 0 {
        var add := FillBuffer(data);
        rest := rest[add..];
        assert data == data[..add] + rest;
      }
      assert Message() + rest == old(Message()) + data;
      if buflen == 0 {
        assert Message() == hashed;
        StoreRest(rest);
      }
      if Wrapped(Joined(t0, t1) + bytes) == Wrapped(length) {
        FedExact(t0, t1, bytes, |data|);
        WrappedSum(Joined(t0, t1) + bytes, length, |data|);
      }
    }

    /** The end of md5_process_bytes, where the buffer is empty: hash what exceeds a block and
        keep what remains. */
    method StoreRest(data: seq<Byte>)
      requires Valid() && buflen == 0
      modifies this, buffer
      ensures Valid() && Message() == old(hashed) + data
      ensures (total0, total1, buflen) == Stored(old(total0), old(total1), |data|)
    {
      hide Reflects, Advance, WholeBlocks;
      var rest := data;
      if |rest| > 64 {
        rest := HashWhole(rest);
      }
      if |rest| > 0 {
        MemCpy(buffer, 0, rest);
        buflen := |rest|;
      }
      assert buffer[..][..buflen] == rest;
    }

    /** Complete the data already in the buffer, and hash it when it exceeds a block. */
    method FillBuffer(data: seq<Byte>) returns (add: nat)
      requires Valid() && buflen != 0
      modifies this, buffer
      ensures add <= |data| && add == if 128 - old(buflen) > |data| then |data| else 128 - old(buflen)
      ensures Valid() && Message() == old(Message()) + data[..add]
      ensures (total0, total1, buflen) == Filled(old(total0), old(total1), old(buflen) + add)
      ensures buflen == 0 || add == |data|
    {
      hide Reflects, Advance, WholeBlocks;
      var leftOver := buflen;
      add := if 128 - leftOver > |data| then |data| else 128 - leftOver;
      MemCpy(buffer, leftOver, data[..add]);
      buflen := leftOver + add;
      assert buffer[..][..buflen] == old(buffer[..buflen]) + data[..add];
      if leftOver + add > 64 {
        HashBuffer();
      }
    }

    /** Hash the whole blocks in the buffer and move what is left to the front. */
    method HashBuffer()
      requires buffer.Length == 128 && 64 < buflen <= 128
      requires Reflects(Registers(), hashed)
      modifies this, buffer
      ensures Valid() && Message() == old(Message()) && (old(buflen) == 128 ==> buflen == 0)
      ensures (total0, total1) == Advance(old(total0), old(total1), WholeBlocks(old(buflen)))
      ensures buflen == old(buflen) - WholeBlocks(old(buflen))
    {
      hide Reflects, Advance, WholeBlocks;
      var head, tail := TakeWhole(buffer[..buflen]);
      Hash(head);
      MemCpy(buffer, 0, tail);
      buflen := |tail|;
      assert buffer[..][..buflen] == tail;
    }

    /** Hash the whole blocks of data directly. */
    method HashWhole(data: seq<Byte>) returns (rest: seq<Byte>)
      requires Valid() && buflen == 0
      modifies this`a, this`b, this`c, this`d, this`total0, this`total1, this`hashed
      ensures Valid() && hashed + rest == old(hashed) + data && |rest| == |data| - WholeBlocks(|data|)
      ensures (total0, total1) == Advance(old(total0), old(total1), WholeBlocks(|data|))
    {
      hide Reflects, Advance, WholeBlocks;
      var head;
      head, rest := TakeWhole(data);
      Hash(head);
    }

    /** md5_finish_ctx: the length it claims is what the counter has. */
    method Finish() returns (digest: seq<Byte>)
      requires Valid()
      modifies this, buffer
      ensures digest == DigestClaiming(old(Message()), old(Joined(total0, total1) + buflen))
      ensures old(Exact()) ==> digest == Digest(old(Message()))
    {
      hide Reflects, Blocks, Digest, DigestClaiming, Joined, Wrapped, Ending, Output, HighBits;
      var bytes := buflen;
      ghost var message, claimed := Message(), Joined(total0, total1) + buflen;
      LastBlocks(Registers(), hashed, buffer[..bytes], claimed);
      AdvanceSmall(total0, total1, bytes, 0, Joined(total0, total1));
      if Wrapped(claimed) == Wrapped(|message|) {
        HonestDigest(message, claimed);
      }
      total0 := (total0 + bytes) % TWO32;
      if total0 < bytes {
        total1 := Plus(total1, 1);
      }
      LengthWords(total0, total1, claimed);
      var last := PadBuffer(|message|, claimed, WordBytes(ShiftLeft(total0, 3)), WordBytes(HighBits(total0, total1)));
      ProcessBlock(last);
      digest := Read();
    }

    /** md5_read_ctx. */
    method Read() returns (digest: seq<Byte>)
      ensures digest == Output(Registers())
    {
      digest := WordBytes(a) + WordBytes(b) + WordBytes(c) + WordBytes(d);
    }

    /** The part of md5_finish_ctx that completes the buffer. */
    method PadBuffer(ghost length: nat, ghost claimed: nat, low: seq<Byte>, high: seq<Byte>) returns (last: seq<Byte>)
      requires buffer.Length == 128 && buflen <= 64 && length % 64 == buflen % 64
      requires |low| == 4 && |high| == 4 && low + high == LengthField(claimed)
      modifies buffer
      ensures last == old(buffer[..buflen]) + Ending(length, claimed)
    {
      hide Padding, LengthField;
      var bytes := buflen;
      var pad := if bytes >= 56 then 64 + 56 - bytes else 56 - bytes;
      FillbufPads(length, bytes, pad);
      MemCpy(buffer, bytes, FILLBUF[..pad]);
      MemCpy(buffer, bytes + pad, low);
      MemCpy(buffer, bytes + pad + 4, high);
      last := buffer[..bytes + pad + 8];
    }
  }

  /** The loop of md5_process_block over the blocks of its argument. */
  method AllBlocks(data: seq<Byte>, start: State) returns (s: State)
    requires |data| % 64 == 0
    ensures s == Blocks(data, start)
  {
    hide CompressBlock;
    s := start;
    var p := 0;
    while p < |data|
      invariant p <= |data| && p % 64 == 0
      invariant Blocks(data[p..], s) == Blocks(data, start)
    {
      ghost var rest := data[p..];
      var block := data[p..p + 64];
      assert rest[..64] == block && rest[64..] == data[p + 64..];
      s := UnrolledBlock(block, s);
      p := p + 64;
    }
  }

  // ----- whole messages ---------------------------------------------------------------------

  /** md5_buffer. */
  method BufferDigest(data: seq<Byte>) returns (digest: seq<Byte>)
    ensures digest == DigestClaiming(data, Claimed([data]))
    ensures StoredRight(0, |data|) ==> digest == Digest(data)
  {
    hide Reflects, Fed, Joined, Wrapped, Digest, DigestClaiming, StoredRight;
    var ctx := new Context();
    OnePiece(data);
    ctx.ProcessBytes(data);
    assert ctx.Message() == data;
    digest := ctx.Finish();
  }

  function Concatenation(pieces: seq<seq<Byte>>): seq<Byte> {
    if |pieces| == 0 then [] else Concatenation(pieces[..|pieces| - 1]) + pieces[|pieces| - 1]
  }

  /** Counter and buffer length after the pieces. */
  function Counter(pieces: seq<seq<Byte>>): (r: (Word, Word, nat))
    ensures r.2 <= 64
  {
    if |pieces| == 0 then (0, 0, 0)
    else
      var (low, high, left) := Counter(pieces[..|pieces| - 1]);
      Fed(low, high, left, |pieces[|pieces| - 1]|)
  }

  /** The length that the counter makes of the pieces. */
  function Claimed(pieces: seq<seq<Byte>>): nat {
    var (low, high, left) := Counter(pieces);
    Joined(low, high) + left
  }

  lemma OnePiece(data: seq<Byte>)
    ensures Counter([data]) == Fed(0, 0, 0, |data|)
  {
    hide Fed;
    assert [data][..0] == [];
  }

  /** A piece of 2^33 bytes: the counter makes 2^32 of it. */
  lemma LongPieceMiscounts(data: seq<Byte>)
    requires |data| == 0x2_0000_0000
    ensures Claimed([data]) == 0x1_0000_0000
  {
    hide Advance, WholeBlocks;
    OnePiece(data);
    LongIncrementMiscounts();
    assert WholeBlocks(|data|) == |data| by {
      WholeIsWhole(|data|);
    }
  }

  lemma WholeIsWhole(n: nat)
    requires n % 64 == 0
    ensures WholeBlocks(n) == n
  {
  }

  /** Every piece is counted right. */
  predicate AllRight(pieces: seq<seq<Byte>>) {
    var n := |pieces| - 1;
    |pieces| == 0 ||
    (AllRight(pieces[..n]) && var (low, high, left) := Counter(pieces[..n]); FedRight(low, high, left, |pieces[n]|))
  }

  /** A piece keeps the claimed length true, modulo 2^64, exactly if it is counted right. */
  lemma {:induction false} ClaimGoesOn(pieces: seq<seq<Byte>>)
    requires |pieces| > 0
    requires var n := |pieces| - 1;
             Wrapped(Claimed(pieces[..n])) == Wrapped(|Concatenation(pieces[..n])|)
    ensures var n := |pieces| - 1;
            var (low, high, left) := Counter(pieces[..n]);
            Wrapped(Claimed(pieces)) == Wrapped(|Concatenation(pieces)|) <==> FedRight(low, high, left, |pieces[n]|)
  {
    hide Fed, Joined, Wrapped, FedRight;
    var n := |pieces| - 1;
    var (low, high, left) := Counter(pieces[..n]);
    FedExact(low, high, left, |pieces[n]|);
    WrappedSum(Claimed(pieces[..n]), |Concatenation(pieces[..n])|, |pieces[n]|);
  }

  /** So the claimed length is that of the message when all pieces are counted right. */
  lemma {:induction false} ClaimIsTrue(pieces: seq<seq<Byte>>)
    requires AllRight(pieces)
    ensures Wrapped(Claimed(pieces)) == Wrapped(|Concatenation(pieces)|)
  {
    hide Fed, Joined, Wrapped, FedRight;
    if |pieces| > 0 {
      ClaimIsTrue(pieces[..|pieces| - 1]);
      ClaimGoesOn(pieces);
    } else {
      NothingCounted();
    }
  }

  /** Pieces of less than 2^32 bytes are. */
  lemma {:induction false} ShortIsRight(pieces: seq<seq<Byte>>)
    requires forall k :: 0 <= k < |pieces| ==> |pieces[k]| < TWO32
    ensures AllRight(pieces)
  {
    hide FedRight, Fed;
    if |pieces| > 0 {
      var n := |pieces| - 1;
      ShortIsRight(pieces[..n]);
      var (low, high, left) := Counter(pieces[..n]);
      FedCounts(low, high, left, |pieces[n]|);
    }
  }

  lemma NothingCounted()
    ensures Joined(0, 0) == 0
  {
  }

  /** A message handed over in any pieces, empty and long ones included, has the digest that
      RFC 1321 gives the whole, but for the length it claims, which is what the counter makes of the
      pieces. */
  method DigestOfPieces(pieces: seq<seq<Byte>>) returns (digest: seq<Byte>)
    ensures digest == DigestClaiming(Concatenation(pieces), Claimed(pieces))
    ensures AllRight(pieces) ==> digest == Digest(Concatenation(pieces))
    ensures (forall k :: 0 <= k < |pieces| ==> |pieces[k]| < TWO32) ==> digest == Digest(Concatenation(pieces))
  {
    hide Reflects, Fed, Joined, Wrapped, Digest, DigestClaiming, AllRight, FedRight;
    var ctx := new Context();
    for k := 0 to |pieces|
      invariant ctx.Valid() && fresh(ctx) && fresh(ctx.buffer)
      invariant ctx.Message() == Concatenation(pieces[..k])
      invariant (ctx.total0, ctx.total1, ctx.buflen) == Counter(pieces[..k])
    {
      assert pieces[..k + 1][..k] == pieces[..k];
      ctx.ProcessBytes(pieces[k]);
    }
    assert pieces[..|pieces|] == pieces;
    digest := ctx.Finish();
    if forall k :: 0 <= k < |pieces| ==> |pieces[k]| < TWO32 {
      ShortIsRight(pieces);
    }
    if AllRight(pieces) {
      ClaimIsTrue(pieces);
      HonestDigest(Concatenation(pieces), Claimed(pieces));
    }
  }

  /** A FILE: fread may return fewer bytes than asked for, and returns none at the end of what can
      be read, where ferror tells a broken file from a finished one. */
  class Stream {
    const data: seq<Byte>
    const broken: bool
    var pos: nat

    method FRead(limit: nat) returns (r: seq<Byte>)
      requires pos <= |data|
      modifies this
      ensures |r| <= limit && pos == old(pos) + |r| <= |data| && r == data[old(pos)..pos]
      ensures r == [] <==> limit == 0 || old(pos) == |data|
    {
      var n := 0;
      if limit > 0 && pos < |data| {
        n :| 1 <= n <= limit && n <= |data| - pos;
      }
      r := data[pos..pos + n];
      pos := pos + n;
    }
  }

  const BLOCKSIZE: nat := 4096

  /** What has been read from a stream so far. */
  ghost function SoFar(stream: Stream): seq<Byte>
    reads stream
    requires stream.pos <= |stream.data|
  {
    stream.data[..stream.pos]
  }

  /** The inner loop of md5_stream: read until the block is full or nothing more comes. */
  method ReadBlock(stream: Stream) returns (block: seq<Byte>, last: bool)
    requires stream.pos <= |stream.data|
    modifies stream
    ensures old(stream.pos) <= stream.pos <= |stream.data| && SoFar(stream) == old(SoFar(stream)) + block
    ensures if last then SoFar(stream) == stream.data && |block| < BLOCKSIZE else |block| == BLOCKSIZE
    ensures stream.pos == old(stream.pos) + |block|
  {
    block := stream.FRead(BLOCKSIZE);
    last := block == [];
    while |block| < BLOCKSIZE && !last
      invariant old(stream.pos) <= stream.pos <= |stream.data| && SoFar(stream) == old(SoFar(stream)) + block
      invariant |block| <= BLOCKSIZE && (last ==> SoFar(stream) == stream.data && |block| < BLOCKSIZE)
      decreases !last, BLOCKSIZE - |block|
    {
      var r := stream.FRead(BLOCKSIZE - |block|);
      block := block + r;
      last := r == [];
    }
  }

  /** The outer loop of md5_stream: full blocks go to md5_process_block. */
  method HashFullBlocks(ctx: Context, stream: Stream) returns (block: seq<Byte>)
    requires ctx.Valid() && ctx.Exact() && ctx.buflen == 0 && ctx.hashed == [] && stream.pos == 0
    modifies ctx, stream
    ensures ctx.Valid() && ctx.Exact() && ctx.buflen == 0 && |block| < BLOCKSIZE && ctx.hashed + block == stream.data
  {
    hide Reflects, Joined, Wrapped, Advance;
    var last;
    block, last := ReadBlock(stream);
    while !last
      invariant ctx.Valid() && ctx.Exact() && ctx.buflen == 0
      invariant |block| <= stream.pos <= |stream.data| && ctx.hashed + block == SoFar(stream)
      invariant if last then SoFar(stream) == stream.data && |block| < BLOCKSIZE else |block| == BLOCKSIZE
      decreases |stream.data| - stream.pos + |block|
    {
      assert ctx.Message() == ctx.hashed;
      AdvanceSmall(ctx.total0, ctx.total1, BLOCKSIZE, 0, |ctx.hashed|);
      ctx.Hash(block);
      assert ctx.Message() == ctx.hashed;
      block, last := ReadBlock(stream);
    }
  }

  /** md5_stream. */
  method StreamDigest(stream: Stream) returns (status: int, digest: seq<Byte>)
    requires stream.pos == 0
    modifies stream
    ensures status == if stream.broken then 1 else 0
    ensures status == 0 ==> digest == Digest(stream.data)
  {
    hide Reflects, Joined, Wrapped, Digest, DigestClaiming, Fed;
    var ctx := new Context();
    var block := HashFullBlocks(ctx, stream);
    if stream.broken {
      return 1, [];
    }
    assert ctx.Message() == ctx.hashed;
    if |block| > 0 {
      ctx.ProcessBytes(block);
    }
    status := 0;
    digest := ctx.Finish();
  }
}
