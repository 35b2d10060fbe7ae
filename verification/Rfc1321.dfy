/** The MD5 message-digest algorithm as RFC 1321 states it: padding (section 3.1), length (3.2),
    initial registers (3.3), the sixty-four operations on a block (3.4) and the output (3.5).
    A word is a number below 2^32 and a byte a number below 256. */
module Rfc1321 {
  import opened Bits

  const TWO32: int := 0x1_0000_0000
  const TWO64: int := 0x1_0000_0000_0000_0000

  type Word = x: int | 0 <= x < TWO32
  type Byte = x: int | 0 <= x < 256

  datatype State = State(a: Word, b: Word, c: Word, d: Word)

  // Section 3.3.
  const INITIAL: State := State(0x67452301, 0xefcdab89, 0x98badcfe, 0x10325476)

  lemma WordWidth()
    ensures Pow2(32) == TWO32
  {
    assert Pow2(8) == 0x100;
    Pow2Sum(8, 8);
    Pow2Sum(16, 16);
  }

  // The operators of section 2 on words.
  function AndWord(x: Word, y: Word): Word { WordWidth(); And(32, x, y) }
  function OrWord(x: Word, y: Word): Word { WordWidth(); Or(32, x, y) }
  function XorWord(x: Word, y: Word): Word { WordWidth(); Xor(32, x, y) }
  function NotWord(x: Word): Word { WordWidth(); Not(32, x) }

  /** Addition modulo 2^32. */
  function Plus(x: Word, y: Word): Word {
    if x + y < TWO32 then x + y else x + y - TWO32
  }

  /** The word x rotated left by s bit positions, one position at a time: each time the top bit
      comes back in at the low end. */
  function RotateLeft(x: Word, s: nat): Word
    decreases s
  {
    if s == 0 then x else RotateLeft(if x < 0x8000_0000 then 2 * x else 2 * x - TWO32 + 1, s - 1)
  }

  // Section 3.4: the auxiliary functions.
  function F(x: Word, y: Word, z: Word): Word { OrWord(AndWord(x, y), AndWord(NotWord(x), z)) }
  function G(x: Word, y: Word, z: Word): Word { OrWord(AndWord(x, z), AndWord(y, NotWord(z))) }
  function H(x: Word, y: Word, z: Word): Word { XorWord(XorWord(x, y), z) }
  function I(x: Word, y: Word, z: Word): Word { XorWord(y, OrWord(x, NotWord(z))) }

  function Auxiliary(i: nat, x: Word, y: Word, z: Word): Word
    requires i < 64
  {
    if i < 16 then F(x, y, z) else if i < 32 then G(x, y, z) else if i < 48 then H(x, y, z) else I(x, y, z)
  }

  /** What operation i uses: the word X[k], the shift s and the constant T[i + 1], which is the
      integer part of 4294967296 * |sin(i + 1)|. */
  datatype Entry = Entry(k: nat, s: nat, t: Word)

  function Table(i: nat): (e: Entry)
    requires i < 64
    ensures e.k < 16 && 0 < e.s < 32
  {
    if i < 16 then TableOne(i) else if i < 32 then TableTwo(i - 16)
    else if i < 48 then TableThree(i - 32) else TableFour(i - 48)
  }

  function TableOne(j: nat): (e: Entry)
    requires j < 16
    ensures e.k < 16 && 0 < e.s < 32
  {
    match j
    case 0 => Entry(0, 7, 0xd76aa478)
    case 1 => Entry(1, 12, 0xe8c7b756)
    case 2 => Entry(2, 17, 0x242070db)
    case 3 => Entry(3, 22, 0xc1bdceee)
    case 4 => Entry(4, 7, 0xf57c0faf)
    case 5 => Entry(5, 12, 0x4787c62a)
    case 6 => Entry(6, 17, 0xa8304613)
    case 7 => Entry(7, 22, 0xfd469501)
    case 8 => Entry(8, 7, 0x698098d8)
    case 9 => Entry(9, 12, 0x8b44f7af)
    case 10 => Entry(10, 17, 0xffff5bb1)
    case 11 => Entry(11, 22, 0x895cd7be)
    case 12 => Entry(12, 7, 0x6b901122)
    case 13 => Entry(13, 12, 0xfd987193)
    case 14 => Entry(14, 17, 0xa679438e)
    case _ => Entry(15, 22, 0x49b40821)
  }

  function TableTwo(j: nat): (e: Entry)
    requires j < 16
    ensures e.k < 16 && 0 < e.s < 32
  {
    match j
    case 0 => Entry(1, 5, 0xf61e2562)
    case 1 => Entry(6, 9, 0xc040b340)
    case 2 => Entry(11, 14, 0x265e5a51)
    case 3 => Entry(0, 20, 0xe9b6c7aa)
    case 4 => Entry(5, 5, 0xd62f105d)
    case 5 => Entry(10, 9, 0x02441453)
    case 6 => Entry(15, 14, 0xd8a1e681)
    case 7 => Entry(4, 20, 0xe7d3fbc8)
    case 8 => Entry(9, 5, 0x21e1cde6)
    case 9 => Entry(14, 9, 0xc33707d6)
    case 10 => Entry(3, 14, 0xf4d50d87)
    case 11 => Entry(8, 20, 0x455a14ed)
    case 12 => Entry(13, 5, 0xa9e3e905)
    case 13 => Entry(2, 9, 0xfcefa3f8)
    case 14 => Entry(7, 14, 0x676f02d9)
    case _ => Entry(12, 20, 0x8d2a4c8a)
  }

  function TableThree(j: nat): (e: Entry)
    requires j < 16
    ensures e.k < 16 && 0 < e.s < 32
  {
    match j
    case 0 => Entry(5, 4, 0xfffa3942)
    case 1 => Entry(8, 11, 0x8771f681)
    case 2 => Entry(11, 16, 0x6d9d6122)
    case 3 => Entry(14, 23, 0xfde5380c)
    case 4 => Entry(1, 4, 0xa4beea44)
    case 5 => Entry(4, 11, 0x4bdecfa9)
    case 6 => Entry(7, 16, 0xf6bb4b60)
    case 7 => Entry(10, 23, 0xbebfbc70)
    case 8 => Entry(13, 4, 0x289b7ec6)
    case 9 => Entry(0, 11, 0xeaa127fa)
    case 10 => Entry(3, 16, 0xd4ef3085)
    case 11 => Entry(6, 23, 0x04881d05)
    case 12 => Entry(9, 4, 0xd9d4d039)
    case 13 => Entry(12, 11, 0xe6db99e5)
    case 14 => Entry(15, 16, 0x1fa27cf8)
    case _ => Entry(2, 23, 0xc4ac5665)
  }

  function TableFour(j: nat): (e: Entry)
    requires j < 16
    ensures e.k < 16 && 0 < e.s < 32
  {
    match j
    case 0 => Entry(0, 6, 0xf4292244)
    case 1 => Entry(7, 10, 0x432aff97)
    case 2 => Entry(14, 15, 0xab9423a7)
    case 3 => Entry(5, 21, 0xfc93a039)
    case 4 => Entry(12, 6, 0x655b59c3)
    case 5 => Entry(3, 10, 0x8f0ccc92)
    case 6 => Entry(10, 15, 0xffeff47d)
    case 7 => Entry(1, 21, 0x85845dd1)
    case 8 => Entry(8, 6, 0x6fa87e4f)
    case 9 => Entry(15, 10, 0xfe2ce6e0)
    case 10 => Entry(6, 15, 0xa3014314)
    case 11 => Entry(13, 21, 0x4e0811a1)
    case 12 => Entry(4, 6, 0xf7537e82)
    case 13 => Entry(11, 10, 0xbd3af235)
    case 14 => Entry(2, 15, 0x2ad7d2bb)
    case _ => Entry(9, 21, 0xeb86d391)
  }

  function Shift(round: nat, j: nat): nat
    requires round < 4
  {
    [[7, 12, 17, 22], [5, 9, 14, 20], [4, 11, 16, 23], [6, 10, 15, 21]][round][j % 4]
  }

  /** The words of the four rounds are taken in the orders j, 5j + 1, 3j + 5 and 7j modulo 16, so each
      once a round, and each round has four shifts, in turn. */
  lemma TablePattern(round: nat, j: nat)
    requires round < 4 && j < 16
    ensures var e := Table(16 * round + j);
            && e.s == Shift(round, j)
            && e.k == (if round == 0 then j else if round == 1 then 5 * j + 1 else if round == 2 then 3 * j + 5
                       else 7 * j) % 16
  {
    hide TableOne, TableTwo, TableThree, TableFour;
    PatternOne(j);
    PatternTwo(j);
    PatternThree(j);
    PatternFour(j);
  }

  lemma PatternOne(j: nat)
    requires j < 16
    ensures TableOne(j).k == j && TableOne(j).s == [7, 12, 17, 22][j % 4]
  {
  }

  lemma PatternTwo(j: nat)
    requires j < 16
    ensures TableTwo(j).k == (5 * j + 1) % 16 && TableTwo(j).s == [5, 9, 14, 20][j % 4]
  {
  }

  lemma PatternThree(j: nat)
    requires j < 16
    ensures TableThree(j).k == (3 * j + 5) % 16 && TableThree(j).s == [4, 11, 16, 23][j % 4]
  {
  }

  lemma PatternFour(j: nat)
    requires j < 16
    ensures TableFour(j).k == 7 * j % 16 && TableFour(j).s == [6, 10, 15, 21][j % 4]
  {
  }

  /** The value b + ((a + f + X[k] + T[i]) <<< s) of section 3.4. */
  function Mixed(a: Word, b: Word, f: Word, word: Word, s: nat, t: Word): Word {
    Plus(b, RotateLeft(Plus(Plus(Plus(a, f), word), t), s))
  }

  /** Operation i. The four registers change roles after every operation, so the result is
      stored as the new second register and the others move on by one. */
  function Operation(i: nat, x: seq<Word>, s: State): State
    requires i < 64 && |x| == 16
  {
    State(s.d, Mixed(s.a, s.b, Auxiliary(i, s.b, s.c, s.d), x[Table(i).k], Table(i).s, Table(i).t), s.b, s.c)
  }

  /** The first n operations on the block x. */
  function Operations(n: nat, x: seq<Word>, s: State): State
    requires n <= 64 && |x| == 16
  {
    if n == 0 then s else Operation(n - 1, x, Operations(n - 1, x, s))
  }

  function Add(s: State, t: State): State {
    State(Plus(s.a, t.a), Plus(s.b, t.b), Plus(s.c, t.c), Plus(s.d, t.d))
  }

  function Compress(x: seq<Word>, s: State): State
    requires |x| == 16
  {
    Add(Operations(64, x, s), s)
  }

  /** Section 2: the low-order byte of a word comes first. */
  function WordAt(m: seq<Byte>, p: nat): Word
    requires p + 4 <= |m|
  {
    m[p] as int + 0x100 * m[p + 1] as int + 0x1_0000 * m[p + 2] as int + 0x100_0000 * m[p + 3] as int
  }

  function WordBytes(w: Word): (r: seq<Byte>)
    ensures |r| == 4
  {
    [w % 0x100, w / 0x100 % 0x100, w / 0x1_0000 % 0x100, w / 0x100_0000]
  }

  lemma WordBytesRoundTrip(w: Word)
    ensures WordAt(WordBytes(w), 0) == w
  {
    assert w / 0x100_0000 == w / 0x1_0000 / 0x100 && w / 0x1_0000 == w / 0x100 / 0x100;
  }

  function BlockWords(m: seq<Byte>): (x: seq<Word>)
    requires |m| == 64
    ensures |x| == 16
  {
    seq(16, k requires 0 <= k < 16 => WordAt(m, 4 * k))
  }

  function CompressBlock(m: seq<Byte>, s: State): State
    requires |m| == 64
  {
    Compress(BlockWords(m), s)
  }

  /** Processes every 64-byte block of m in turn. */
  function Blocks(m: seq<Byte>, s: State): State
    requires |m| % 64 == 0
    decreases |m|
  {
    if |m| == 0 then s else Blocks(m[64..], CompressBlock(m[..64], s))
  }

  /** Section 3.1: one to sixty-four bytes, the first of them 0x80, up to 56 modulo 64. */
  function Padding(length: nat): (r: seq<Byte>)
    ensures (length + |r|) % 64 == 56
    ensures 1 <= |r| <= 64
    ensures r[0] == 0x80 && forall k :: 1 <= k < |r| ==> r[k] == 0
  {
    [0x80] + seq((119 - length % 64) % 64, _ => 0)
  }

  /** Section 3.2: the length in bits modulo 2^64, as two words with the low-order word first. */
  function LengthField(length: nat): (r: seq<Byte>)
    ensures |r| == 8
  {
    var bits := 8 * length % TWO64;
    WordBytes(bits % TWO32) + WordBytes(bits / TWO32)
  }

  function Suffix(length: nat): (r: seq<Byte>)
    ensures (length + |r|) % 64 == 0
  {
    hide Padding, LengthField;
    EightMore(length + |Padding(length)|);
    Padding(length) + LengthField(length)
  }

  lemma EightMore(n: nat)
    requires n % 64 == 56
    ensures (n + 8) % 64 == 0
  {
  }

  /** The message, its padding and its length. */
  function Padded(m: seq<Byte>): (r: seq<Byte>)
    ensures |r| % 64 == 0
  {
    var n := |m|;
    m + Suffix(n)
  }

  /** Section 3.5: the registers, low-order byte of the first one first. */
  function Output(s: State): (r: seq<Byte>)
    ensures |r| == 16
  {
    WordBytes(s.a) + WordBytes(s.b) + WordBytes(s.c) + WordBytes(s.d)
  }

  function Digest(m: seq<Byte>): (r: seq<Byte>)
    ensures |r| == 16
  {
    Output(Blocks(Padded(m), INITIAL))
  }

  /** Processing a concatenation of blocks equals processing the parts in sequence. */
  lemma {:induction false} BlocksConcat(m: seq<Byte>, n: seq<Byte>, s: State)
    requires |m| % 64 == 0 && |n| % 64 == 0
    ensures Blocks(m + n, s) == Blocks(n, Blocks(m, s))
    decreases |m|
  {
    hide CompressBlock;
    if |m| == 0 {
      assert m + n == n;
    } else {
      assert (m + n)[64..] == m[64..] + n && (m + n)[..64] == m[..64];
      BlocksConcat(m[64..], n, CompressBlock(m[..64], s));
    }
  }
}
