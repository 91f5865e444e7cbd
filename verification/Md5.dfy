/**
 MD5 as md5.c implements it, against RFC 1321: the unrolled block function equals the
 table-driven one of section 3.4, and a context fed in pieces of any size ends with the
 digest of the concatenation, padded as sections 3.1 and 3.2 prescribe.
 */
module Md5 {
  import opened Memory

  /** md5_word_t */
  datatype Word = W(bits: bv32)

  type Byte = bv8

  datatype Regs = Regs(a: Word, b: Word, c: Word, d: Word)

  // ----- RFC 1321, section 3.4 -----

  function F(x: Word, y: Word, z: Word): Word { W((x.bits & y.bits) | (!x.bits & z.bits)) }
  function G(x: Word, y: Word, z: Word): Word { W((x.bits & z.bits) | (y.bits & !z.bits)) }
  function H(x: Word, y: Word, z: Word): Word { W(x.bits ^ y.bits ^ z.bits) }
  function I(x: Word, y: Word, z: Word): Word { W(y.bits ^ (x.bits | !z.bits)) }

  /** The sum modulo 2^32. */
  function Sum(x: bv32, y: bv32): bv32 { x + y }

  function Plus(x: Word, y: Word): Word { W(Sum(x.bits, y.bits)) }

  function RotateLeft(x: bv32, n: nat): bv32
    requires n <= 32
  {
    (x << n) | (x >> (32 - n))
  }

  /** b + ((a + f + x + t) <<< n) */
  function Set(a: Word, f: Word, x: Word, t: Word, n: nat, b: Word): Word
    requires n <= 32
  {
    W(RotateLeft(a.bits + f.bits + x.bits + t.bits, n) + b.bits)
  }

  /** F is a choice: y where x is one, z where it is zero. */
  lemma Chooses(x: Word, y: Word, z: Word)
    ensures F(x, y, z).bits & x.bits == y.bits & x.bits
    ensures F(x, y, z).bits & !x.bits == z.bits & !x.bits
  {
  }

  /** G is the choice by z. */
  lemma ChoosesByLast(x: Word, y: Word, z: Word)
    ensures G(x, y, z).bits & z.bits == x.bits & z.bits
    ensures G(x, y, z).bits & !z.bits == y.bits & !z.bits
  {
  }

  /** H is the parity of the three. */
  lemma Parity(x: Word, y: Word, z: Word)
    ensures H(x, y, z).bits ^ z.bits == x.bits ^ y.bits
  {
  }

  /** I turns y over except where x is zero and z is one. */
  lemma TurnsOver(x: Word, y: Word, z: Word)
    ensures I(x, y, z).bits & (z.bits & !x.bits) == y.bits & (z.bits & !x.bits)
    ensures I(x, y, z).bits & (x.bits | !z.bits) == !y.bits & (x.bits | !z.bits)
  {
  }

  /** Sums are modulo 2^32. */
  lemma SumWraps(x: bv32, y: bv32)
    ensures Sum(x, y) as bv64 == (x as bv64 + y as bv64) & 0xffff_ffff
  {
  }

  /** Rotation to the left: low bits move up and high bits come in below. */
  lemma Rotates(x: bv32, n: nat)
    requires 0 < n < 32
    ensures x >> (32 - n) == 0 ==> RotateLeft(x, n) == x << n
    ensures x << n == 0 ==> RotateLeft(x, n) == x >> (32 - n)
  {
  }

  /** Which word of the block step `i` adds. */
  function WordIndex(i: nat): nat {
    if i < 16 then i else if i < 32 then (5 * i + 1) % 16 else if i < 48 then (3 * i + 5) % 16 else (7 * i) % 16
  }

  function Shift(i: nat): (s: nat)
    ensures s <= 32
  {
    var r := i % 4;
    if i < 16 then 7 + 5 * r
    else if i < 32 then if r == 0 then 5 else if r == 1 then 9 else if r == 2 then 14 else 20
    else if i < 48 then if r == 0 then 4 else if r == 1 then 11 else if r == 2 then 16 else 23
    else if r == 0 then 6 else if r == 1 then 10 else if r == 2 then 15 else 21
  }

  /** The integer part of 4294967296 times abs(sin(i + 1)). */
  function Sine(i: nat): Word {
    if i < 16 then Sine1(i) else if i < 32 then Sine2(i) else if i < 48 then Sine3(i) else Sine4(i)
  }

  function Sine1(i: nat): Word {
    match i
    case 0 => W(0xd76aa478) case 1 => W(0xe8c7b756) case 2 => W(0x242070db) case 3 => W(0xc1bdceee)
    case 4 => W(0xf57c0faf) case 5 => W(0x4787c62a) case 6 => W(0xa8304613) case 7 => W(0xfd469501)
    case 8 => W(0x698098d8) case 9 => W(0x8b44f7af) case 10 => W(0xffff5bb1) case 11 => W(0x895cd7be)
    case 12 => W(0x6b901122) case 13 => W(0xfd987193) case 14 => W(0xa679438e) case 15 => W(0x49b40821)
    case _ => W(0)
  }

  function Sine2(i: nat): Word {
    match i
    case 16 => W(0xf61e2562) case 17 => W(0xc040b340) case 18 => W(0x265e5a51) case 19 => W(0xe9b6c7aa)
    case 20 => W(0xd62f105d) case 21 => W(0x02441453) case 22 => W(0xd8a1e681) case 23 => W(0xe7d3fbc8)
    case 24 => W(0x21e1cde6) case 25 => W(0xc33707d6) case 26 => W(0xf4d50d87) case 27 => W(0x455a14ed)
    case 28 => W(0xa9e3e905) case 29 => W(0xfcefa3f8) case 30 => W(0x676f02d9) case 31 => W(0x8d2a4c8a)
    case _ => W(0)
  }

  function Sine3(i: nat): Word {
    match i
    case 32 => W(0xfffa3942) case 33 => W(0x8771f681) case 34 => W(0x6d9d6122) case 35 => W(0xfde5380c)
    case 36 => W(0xa4beea44) case 37 => W(0x4bdecfa9) case 38 => W(0xf6bb4b60) case 39 => W(0xbebfbc70)
    case 40 => W(0x289b7ec6) case 41 => W(0xeaa127fa) case 42 => W(0xd4ef3085) case 43 => W(0x04881d05)
    case 44 => W(0xd9d4d039) case 45 => W(0xe6db99e5) case 46 => W(0x1fa27cf8) case 47 => W(0xc4ac5665)
    case _ => W(0)
  }

  function Sine4(i: nat): Word {
    match i
    case 48 => W(0xf4292244) case 49 => W(0x432aff97) case 50 => W(0xab9423a7) case 51 => W(0xfc93a039)
    case 52 => W(0x655b59c3) case 53 => W(0x8f0ccc92) case 54 => W(0xffeff47d) case 55 => W(0x85845dd1)
    case 56 => W(0x6fa87e4f) case 57 => W(0xfe2ce6e0) case 58 => W(0xa3014314) case 59 => W(0x4e0811a1)
    case 60 => W(0xf7537e82) case 61 => W(0xbd3af235) case 62 => W(0x2ad7d2bb) case 63 => W(0xeb86d391)
    case _ => W(0)
  }

  function Mix(i: nat, x: Word, y: Word, z: Word): Word {
    if i < 16 then F(x, y, z) else if i < 32 then G(x, y, z) else if i < 48 then H(x, y, z) else I(x, y, z)
  }

  /** One operation; the registers change roles for the next. */
  function Step(i: nat, r: Regs, x: seq<Word>): Regs
    requires i < 64 && |x| == 16
  {
    Regs(r.d, Set(r.a, Mix(i, r.b, r.c, r.d), x[WordIndex(i)], Sine(i), Shift(i), r.b), r.b, r.c)
  }

  /** Operations `i` up to but not including `j`. */
  function Steps(i: nat, j: nat, r: Regs, x: seq<Word>): Regs
    requires i <= j <= 64 && |x| == 16
  {
    if i == j then r else Step(j - 1, Steps(i, j - 1, r, x), x)
  }

  function Assemble(b0: Byte, b1: Byte, b2: Byte, b3: Byte): bv32 {
    (b0 as bv32) + ((b1 as bv32) << 8) + ((b2 as bv32) << 16) + ((b3 as bv32) << 24)
  }

  /** The little-endian word at index `i`, assembled as the byte-swapping path does. */
  function WordAt(block: seq<Byte>, i: nat): Word
    requires 4 * i + 4 <= |block|
  {
    W(Assemble(block[4 * i], block[4 * i + 1], block[4 * i + 2], block[4 * i + 3]))
  }

  function Words(block: seq<Byte>): (x: seq<Word>)
    requires |block| == 64
    ensures |x| == 16
  {
    seq(16, i requires 0 <= i < 16 => WordAt(block, i))
  }

  function Block(r: Regs, block: seq<Byte>): Regs
    requires |block| == 64
  {
    var s := Steps(0, 64, r, Words(block));
    Regs(Plus(r.a, s.a), Plus(r.b, s.b), Plus(r.c, s.c), Plus(r.d, s.d))
  }

  // ----- md5_process -----

  const T_MASK: bv32 := 0xffffffff

  lemma Next(i: nat, j: nat, r: Regs, x: seq<Word>)
    requires i <= j < 64 && |x| == 16
    ensures var s := Steps(i, j, r, x);
            Steps(i, j + 1, r, x) == Regs(s.d, Set(s.a, Mix(j, s.b, s.c, s.d), x[WordIndex(j)], Sine(j), Shift(j), s.b), s.b, s.c)
    ensures Steps(i, i, r, x) == r
  {
  }

  lemma Table1()
    ensures WordIndex(0) == 0 && Shift(0) == 7 && Sine(0) == W(0xd76aa478)
    ensures WordIndex(1) == 1 && Shift(1) == 12 && Sine(1) == W(0xe8c7b756)
    ensures WordIndex(2) == 2 && Shift(2) == 17 && Sine(2) == W(0x242070db)
    ensures WordIndex(3) == 3 && Shift(3) == 22 && Sine(3) == W(0xc1bdceee)
    ensures WordIndex(4) == 4 && Shift(4) == 7 && Sine(4) == W(0xf57c0faf)
    ensures WordIndex(5) == 5 && Shift(5) == 12 && Sine(5) == W(0x4787c62a)
    ensures WordIndex(6) == 6 && Shift(6) == 17 && Sine(6) == W(0xa8304613)
    ensures WordIndex(7) == 7 && Shift(7) == 22 && Sine(7) == W(0xfd469501)
    ensures WordIndex(8) == 8 && Shift(8) == 7 && Sine(8) == W(0x698098d8)
    ensures WordIndex(9) == 9 && Shift(9) == 12 && Sine(9) == W(0x8b44f7af)
    ensures WordIndex(10) == 10 && Shift(10) == 17 && Sine(10) == W(0xffff5bb1)
    ensures WordIndex(11) == 11 && Shift(11) == 22 && Sine(11) == W(0x895cd7be)
    ensures WordIndex(12) == 12 && Shift(12) == 7 && Sine(12) == W(0x6b901122)
    ensures WordIndex(13) == 13 && Shift(13) == 12 && Sine(13) == W(0xfd987193)
    ensures WordIndex(14) == 14 && Shift(14) == 17 && Sine(14) == W(0xa679438e)
    ensures WordIndex(15) == 15 && Shift(15) == 22 && Sine(15) == W(0x49b40821)
  {
  }

  method Round1(r: Regs, x: seq<Word>) returns (s: Regs)
    requires |x| == 16
    ensures s == Steps(0, 16, r, x)
  {
    hide Steps, Step, Set, F, G, H, I, WordIndex, Shift, Sine;
    Table1();
    var a, b, c, d := r.a, r.b, r.c, r.d;
    a := Set(a, F(b, c, d), x[0], W(T_MASK ^ 0x28955b87), 7, b); Next(0, 0, r, x);
    d := Set(d, F(a, b, c), x[1], W(T_MASK ^ 0x173848a9), 12, a); Next(0, 1, r, x);
    c := Set(c, F(d, a, b), x[2], W(0x242070db), 17, d); Next(0, 2, r, x);
    b := Set(b, F(c, d, a), x[3], W(T_MASK ^ 0x3e423111), 22, c); Next(0, 3, r, x);
    a := Set(a, F(b, c, d), x[4], W(T_MASK ^ 0x0a83f050), 7, b); Next(0, 4, r, x);
    d := Set(d, F(a, b, c), x[5], W(0x4787c62a), 12, a); Next(0, 5, r, x);
    c := Set(c, F(d, a, b), x[6], W(T_MASK ^ 0x57cfb9ec), 17, d); Next(0, 6, r, x);
    b := Set(b, F(c, d, a), x[7], W(T_MASK ^ 0x02b96afe), 22, c); Next(0, 7, r, x);
    a := Set(a, F(b, c, d), x[8], W(0x698098d8), 7, b); Next(0, 8, r, x);
    d := Set(d, F(a, b, c), x[9], W(T_MASK ^ 0x74bb0850), 12, a); Next(0, 9, r, x);
    c := Set(c, F(d, a, b), x[10], W(T_MASK ^ 0x0000a44e), 17, d); Next(0, 10, r, x);
    b := Set(b, F(c, d, a), x[11], W(T_MASK ^ 0x76a32841), 22, c); Next(0, 11, r, x);
    a := Set(a, F(b, c, d), x[12], W(0x6b901122), 7, b); Next(0, 12, r, x);
    d := Set(d, F(a, b, c), x[13], W(T_MASK ^ 0x02678e6c), 12, a); Next(0, 13, r, x);
    c := Set(c, F(d, a, b), x[14], W(T_MASK ^ 0x5986bc71), 17, d); Next(0, 14, r, x);
    b := Set(b, F(c, d, a), x[15], W(0x49b40821), 22, c); Next(0, 15, r, x);
    s := Regs(a, b, c, d);
  }

  lemma Table2()
    ensures WordIndex(16) == 1 && Shift(16) == 5 && Sine(16) == W(0xf61e2562)
    ensures WordIndex(17) == 6 && Shift(17) == 9 && Sine(17) == W(0xc040b340)
    ensures WordIndex(18) == 11 && Shift(18) == 14 && Sine(18) == W(0x265e5a51)
    ensures WordIndex(19) == 0 && Shift(19) == 20 && Sine(19) == W(0xe9b6c7aa)
    ensures WordIndex(20) == 5 && Shift(20) == 5 && Sine(20) == W(0xd62f105d)
    ensures WordIndex(21) == 10 && Shift(21) == 9 && Sine(21) == W(0x02441453)
    ensures WordIndex(22) == 15 && Shift(22) == 14 && Sine(22) == W(0xd8a1e681)
    ensures WordIndex(23) == 4 && Shift(23) == 20 && Sine(23) == W(0xe7d3fbc8)
    ensures WordIndex(24) == 9 && Shift(24) == 5 && Sine(24) == W(0x21e1cde6)
    ensures WordIndex(25) == 14 && Shift(25) == 9 && Sine(25) == W(0xc33707d6)
    ensures WordIndex(26) == 3 && Shift(26) == 14 && Sine(26) == W(0xf4d50d87)
    ensures WordIndex(27) == 8 && Shift(27) == 20 && Sine(27) == W(0x455a14ed)
    ensures WordIndex(28) == 13 && Shift(28) == 5 && Sine(28) == W(0xa9e3e905)
    ensures WordIndex(29) == 2 && Shift(29) == 9 && Sine(29) == W(0xfcefa3f8)
    ensures WordIndex(30) == 7 && Shift(30) == 14 && Sine(30) == W(0x676f02d9)
    ensures WordIndex(31) == 12 && Shift(31) == 20 && Sine(31) == W(0x8d2a4c8a)
  {
  }

  method Round2(r: Regs, x: seq<Word>) returns (s: Regs)
    requires |x| == 16
    ensures s == Steps(16, 32, r, x)
  {
    hide Steps, Step, Set, F, G, H, I, WordIndex, Shift, Sine;
    Table2();
    var a, b, c, d := r.a, r.b, r.c, r.d;
    a := Set(a, G(b, c, d), x[1], W(T_MASK ^ 0x09e1da9d), 5, b); Next(16, 16, r, x);
    d := Set(d, G(a, b, c), x[6], W(T_MASK ^ 0x3fbf4cbf), 9, a); Next(16, 17, r, x);
    c := Set(c, G(d, a, b), x[11], W(0x265e5a51), 14, d); Next(16, 18, r, x);
    b := Set(b, G(c, d, a), x[0], W(T_MASK ^ 0x16493855), 20, c); Next(16, 19, r, x);
    a := Set(a, G(b, c, d), x[5], W(T_MASK ^ 0x29d0efa2), 5, b); Next(16, 20, r, x);
    d := Set(d, G(a, b, c), x[10], W(0x02441453), 9, a); Next(16, 21, r, x);
    c := Set(c, G(d, a, b), x[15], W(T_MASK ^ 0x275e197e), 14, d); Next(16, 22, r, x);
    b := Set(b, G(c, d, a), x[4], W(T_MASK ^ 0x182c0437), 20, c); Next(16, 23, r, x);
    a := Set(a, G(b, c, d), x[9], W(0x21e1cde6), 5, b); Next(16, 24, r, x);
    d := Set(d, G(a, b, c), x[14], W(T_MASK ^ 0x3cc8f829), 9, a); Next(16, 25, r, x);
    c := Set(c, G(d, a, b), x[3], W(T_MASK ^ 0x0b2af278), 14, d); Next(16, 26, r, x);
    b := Set(b, G(c, d, a), x[8], W(0x455a14ed), 20, c); Next(16, 27, r, x);
    a := Set(a, G(b, c, d), x[13], W(T_MASK ^ 0x561c16fa), 5, b); Next(16, 28, r, x);
    d := Set(d, G(a, b, c), x[2], W(T_MASK ^ 0x03105c07), 9, a); Next(16, 29, r, x);
    c := Set(c, G(d, a, b), x[7], W(0x676f02d9), 14, d); Next(16, 30, r, x);
    b := Set(b, G(c, d, a), x[12], W(T_MASK ^ 0x72d5b375), 20, c); Next(16, 31, r, x);
    s := Regs(a, b, c, d);
  }

  lemma Table3()
    ensures WordIndex(32) == 5 && Shift(32) == 4 && Sine(32) == W(0xfffa3942)
    ensures WordIndex(33) == 8 && Shift(33) == 11 && Sine(33) == W(0x8771f681)
    ensures WordIndex(34) == 11 && Shift(34) == 16 && Sine(34) == W(0x6d9d6122)
    ensures WordIndex(35) == 14 && Shift(35) == 23 && Sine(35) == W(0xfde5380c)
    ensures WordIndex(36) == 1 && Shift(36) == 4 && Sine(36) == W(0xa4beea44)
    ensures WordIndex(37) == 4 && Shift(37) == 11 && Sine(37) == W(0x4bdecfa9)
    ensures WordIndex(38) == 7 && Shift(38) == 16 && Sine(38) == W(0xf6bb4b60)
    ensures WordIndex(39) == 10 && Shift(39) == 23 && Sine(39) == W(0xbebfbc70)
    ensures WordIndex(40) == 13 && Shift(40) == 4 && Sine(40) == W(0x289b7ec6)
    ensures WordIndex(41) == 0 && Shift(41) == 11 && Sine(41) == W(0xeaa127fa)
    ensures WordIndex(42) == 3 && Shift(42) == 16 && Sine(42) == W(0xd4ef3085)
    ensures WordIndex(43) == 6 && Shift(43) == 23 && Sine(43) == W(0x04881d05)
    ensures WordIndex(44) == 9 && Shift(44) == 4 && Sine(44) == W(0xd9d4d039)
    ensures WordIndex(45) == 12 && Shift(45) == 11 && Sine(45) == W(0xe6db99e5)
    ensures WordIndex(46) == 15 && Shift(46) == 16 && Sine(46) == W(0x1fa27cf8)
    ensures WordIndex(47) == 2 && Shift(47) == 23 && Sine(47) == W(0xc4ac5665)
  {
  }

  method Round3(r: Regs, x: seq<Word>) returns (s: Regs)
    requires |x| == 16
    ensures s == Steps(32, 48, r, x)
  {
    hide Steps, Step, Set, F, G, H, I, WordIndex, Shift, Sine;
    Table3();
    var a, b, c, d := r.a, r.b, r.c, r.d;
    a := Set(a, H(b, c, d), x[5], W(T_MASK ^ 0x0005c6bd), 4, b); Next(32, 32, r, x);
    d := Set(d, H(a, b, c), x[8], W(T_MASK ^ 0x788e097e), 11, a); Next(32, 33, r, x);
    c := Set(c, H(d, a, b), x[11], W(0x6d9d6122), 16, d); Next(32, 34, r, x);
    b := Set(b, H(c, d, a), x[14], W(T_MASK ^ 0x021ac7f3), 23, c); Next(32, 35, r, x);
    a := Set(a, H(b, c, d), x[1], W(T_MASK ^ 0x5b4115bb), 4, b); Next(32, 36, r, x);
    d := Set(d, H(a, b, c), x[4], W(0x4bdecfa9), 11, a); Next(32, 37, r, x);
    c := Set(c, H(d, a, b), x[7], W(T_MASK ^ 0x0944b49f), 16, d); Next(32, 38, r, x);
    b := Set(b, H(c, d, a), x[10], W(T_MASK ^ 0x4140438f), 23, c); Next(32, 39, r, x);
    a := Set(a, H(b, c, d), x[13], W(0x289b7ec6), 4, b); Next(32, 40, r, x);
    d := Set(d, H(a, b, c), x[0], W(T_MASK ^ 0x155ed805), 11, a); Next(32, 41, r, x);
    c := Set(c, H(d, a, b), x[3], W(T_MASK ^ 0x2b10cf7a), 16, d); Next(32, 42, r, x);
    b := Set(b, H(c, d, a), x[6], W(0x04881d05), 23, c); Next(32, 43, r, x);
    a := Set(a, H(b, c, d), x[9], W(T_MASK ^ 0x262b2fc6), 4, b); Next(32, 44, r, x);
    d := Set(d, H(a, b, c), x[12], W(T_MASK ^ 0x1924661a), 11, a); Next(32, 45, r, x);
    c := Set(c, H(d, a, b), x[15], W(0x1fa27cf8), 16, d); Next(32, 46, r, x);
    b := Set(b, H(c, d, a), x[2], W(T_MASK ^ 0x3b53a99a), 23, c); Next(32, 47, r, x);
    s := Regs(a, b, c, d);
  }

  lemma Table4()
    ensures WordIndex(48) == 0 && Shift(48) == 6 && Sine(48) == W(0xf4292244)
    ensures WordIndex(49) == 7 && Shift(49) == 10 && Sine(49) == W(0x432aff97)
    ensures WordIndex(50) == 14 && Shift(50) == 15 && Sine(50) == W(0xab9423a7)
    ensures WordIndex(51) == 5 && Shift(51) == 21 && Sine(51) == W(0xfc93a039)
    ensures WordIndex(52) == 12 && Shift(52) == 6 && Sine(52) == W(0x655b59c3)
    ensures WordIndex(53) == 3 && Shift(53) == 10 && Sine(53) == W(0x8f0ccc92)
    ensures WordIndex(54) == 10 && Shift(54) == 15 && Sine(54) == W(0xffeff47d)
    ensures WordIndex(55) == 1 && Shift(55) == 21 && Sine(55) == W(0x85845dd1)
    ensures WordIndex(56) == 8 && Shift(56) == 6 && Sine(56) == W(0x6fa87e4f)
    ensures WordIndex(57) == 15 && Shift(57) == 10 && Sine(57) == W(0xfe2ce6e0)
    ensures WordIndex(58) == 6 && Shift(58) == 15 && Sine(58) == W(0xa3014314)
    ensures WordIndex(59) == 13 && Shift(59) == 21 && Sine(59) == W(0x4e0811a1)
    ensures WordIndex(60) == 4 && Shift(60) == 6 && Sine(60) == W(0xf7537e82)
    ensures WordIndex(61) == 11 && Shift(61) == 10 && Sine(61) == W(0xbd3af235)
    ensures WordIndex(62) == 2 && Shift(62) == 15 && Sine(62) == W(0x2ad7d2bb)
    ensures WordIndex(63) == 9 && Shift(63) == 21 && Sine(63) == W(0xeb86d391)
  {
  }

  method Round4(r: Regs, x: seq<Word>) returns (s: Regs)
    requires |x| == 16
    ensures s == Steps(48, 64, r, x)
  {
    hide Steps, Step, Set, F, G, H, I, WordIndex, Shift, Sine;
    Table4();
    var a, b, c, d := r.a, r.b, r.c, r.d;
    a := Set(a, I(b, c, d), x[0], W(T_MASK ^ 0x0bd6ddbb), 6, b); Next(48, 48, r, x);
    d := Set(d, I(a, b, c), x[7], W(0x432aff97), 10, a); Next(48, 49, r, x);
    c := Set(c, I(d, a, b), x[14], W(T_MASK ^ 0x546bdc58), 15, d); Next(48, 50, r, x);
    b := Set(b, I(c, d, a), x[5], W(T_MASK ^ 0x036c5fc6), 21, c); Next(48, 51, r, x);
    a := Set(a, I(b, c, d), x[12], W(0x655b59c3), 6, b); Next(48, 52, r, x);
    d := Set(d, I(a, b, c), x[3], W(T_MASK ^ 0x70f3336d), 10, a); Next(48, 53, r, x);
    c := Set(c, I(d, a, b), x[10], W(T_MASK ^ 0x00100b82), 15, d); Next(48, 54, r, x);
    b := Set(b, I(c, d, a), x[1], W(T_MASK ^ 0x7a7ba22e), 21, c); Next(48, 55, r, x);
    a := Set(a, I(b, c, d), x[8], W(0x6fa87e4f), 6, b); Next(48, 56, r, x);
    d := Set(d, I(a, b, c), x[15], W(T_MASK ^ 0x01d3191f), 10, a); Next(48, 57, r, x);
    c := Set(c, I(d, a, b), x[6], W(T_MASK ^ 0x5cfebceb), 15, d); Next(48, 58, r, x);
    b := Set(b, I(c, d, a), x[13], W(0x4e0811a1), 21, c); Next(48, 59, r, x);
    a := Set(a, I(b, c, d), x[4], W(T_MASK ^ 0x08ac817d), 6, b); Next(48, 60, r, x);
    d := Set(d, I(a, b, c), x[11], W(T_MASK ^ 0x42c50dca), 10, a); Next(48, 61, r, x);
    c := Set(c, I(d, a, b), x[2], W(0x2ad7d2bb), 15, d); Next(48, 62, r, x);
    b := Set(b, I(c, d, a), x[9], W(T_MASK ^ 0x14792c6e), 21, c); Next(48, 63, r, x);
    s := Regs(a, b, c, d);
  }

  lemma {:induction false} StepsJoin(i: nat, j: nat, k: nat, r: Regs, x: seq<Word>)
    requires i <= j <= k <= 64 && |x| == 16
    ensures Steps(i, k, r, x) == Steps(j, k, Steps(i, j, r, x), x)
    decreases k - j
  {
    if j < k {
      StepsJoin(i, j, k - 1, r, x);
    }
  }

  /** The bytes of a word in memory order on a little-endian machine. */
  function Byte0(w: bv32): Byte { (w & 0xff) as Byte }
  function Byte1(w: bv32): Byte { ((w >> 8) & 0xff) as Byte }
  function Byte2(w: bv32): Byte { ((w >> 16) & 0xff) as Byte }
  function Byte3(w: bv32): Byte { (w >> 24) as Byte }

  function ByteOf(w: Word, j: nat): Byte
    requires j < 4
  {
    if j == 0 then Byte0(w.bits) else if j == 1 then Byte1(w.bits) else if j == 2 then Byte2(w.bits) else Byte3(w.bits)
  }

  lemma Assembled(b0: Byte, b1: Byte, b2: Byte, b3: Byte, w: bv32)
    ensures w == Assemble(b0, b1, b2, b3) <==>
            Byte0(w) == b0 && Byte1(w) == b1 && Byte2(w) == b2 && Byte3(w) == b3
  {
  }

  /** The assembled word is the one a little-endian load of the same four bytes gives:
      it has those bytes in memory order, and no other word has. */
  lemma WordView(block: seq<Byte>, i: nat, w: Word)
    requires 4 * i + 4 <= |block|
    ensures w == WordAt(block, i) <==> forall j | 0 <= j < 4 :: ByteOf(w, j) == block[4 * i + j]
  {
    hide Assemble, Byte0, Byte1, Byte2, Byte3;
    Assembled(block[4 * i], block[4 * i + 1], block[4 * i + 2], block[4 * i + 3], w.bits);
    if forall j | 0 <= j < 4 :: ByteOf(w, j) == block[4 * i + j] {
      assert ByteOf(w, 0) == block[4 * i + 0] && ByteOf(w, 1) == block[4 * i + 1];
      assert ByteOf(w, 2) == block[4 * i + 2] && ByteOf(w, 3) == block[4 * i + 3];
    }
  }

  /** md5_process on the byte-swapping path: load sixteen words, then four unrolled rounds. */
  method Process(r: Regs, data: seq<Byte>) returns (s: Regs)
    requires |data| == 64
    ensures s == Block(r, data)
  {
    hide Steps, WordAt, Plus;
    var x: seq<Word> := [];
    for i := 0 to 16
      invariant x == Words(data)[..i]
    {
      x := x + [WordAt(data, i)];
    }
    assert x == Words(data);
    var r1 := Round1(r, x);
    var r2 := Round2(r1, x);
    var r3 := Round3(r2, x);
    var r4 := Round4(r3, x);
    StepsJoin(0, 16, 32, r, x);
    StepsJoin(0, 32, 48, r, x);
    StepsJoin(0, 48, 64, r, x);
    s := Regs(Plus(r.a, r4.a), Plus(r.b, r4.b), Plus(r.c, r4.c), Plus(r.d, r4.d));
  }

  // ----- RFC 1321, sections 3.1 to 3.5 -----

  const INIT := Regs(W(0x67452301), W(0xefcdab89), W(0x98badcfe), W(0x10325476))

  const TWO32 := 0x1_0000_0000
  const TWO64 := 0x1_0000_0000_0000_0000

  function Absorb(r: Regs, s: seq<Byte>): Regs
    requires |s| % 64 == 0
    decreases |s|
  {
    if s == [] then r else Absorb(Block(r, s[..64]), s[64..])
  }

  /** How many zero bytes follow the 0x80 so that eight more bytes complete a block. */
  function Zeros(n: nat): (z: nat)
    ensures z < 64 && (n + 1 + z) % 64 == 56
  {
    (55 - n) % 64
  }

  /** n >> 8 * j */
  function Shr8(n: nat, j: nat): nat {
    if j == 0 then n else Shr8(n / 0x100, j - 1)
  }

  function ByteOfNat(n: nat, j: nat): Byte
    requires j < 8
  {
    (Shr8(n, j) % 0x100) as Byte
  }

  /** Eight bytes, low-order first. */
  function Length64(n: nat): (s: seq<Byte>)
    ensures |s| == 8
  {
    seq(8, j requires 0 <= j < 8 => ByteOfNat(n, j))
  }

  function Padded(msg: seq<Byte>): (s: seq<Byte>)
    ensures |s| % 64 == 0
  {
    msg + [0x80] + seq(Zeros(|msg|), _ => 0) + Length64(8 * |msg| % TWO64)
  }

  function Digest(r: Regs): (d: seq<Byte>)
    ensures |d| == 16
  {
    seq(16, i requires 0 <= i < 16 =>
      ByteOf(if i < 4 then r.a else if i < 8 then r.b else if i < 12 then r.c else r.d, i % 4))
  }

  /** The initial words are 01 23 .. ef, fe dc .. 10 in memory, and the digest is a, b, c, d in memory
      order, as sections 3.3 and 3.5 say. */
  lemma InitialBytes()
    ensures Digest(INIT) == [0x01, 0x23, 0x45, 0x67, 0x89, 0xab, 0xcd, 0xef, 0xfe, 0xdc, 0xba, 0x98, 0x76, 0x54, 0x32, 0x10]
  {
  }

  lemma DigestOrder(r: Regs, j: nat)
    requires j < 4
    ensures Digest(r)[j] == ByteOf(r.a, j) && Digest(r)[4 + j] == ByteOf(r.b, j)
    ensures Digest(r)[8 + j] == ByteOf(r.c, j) && Digest(r)[12 + j] == ByteOf(r.d, j)
  {
  }

  function MD5(msg: seq<Byte>): (d: seq<Byte>)
    ensures |d| == 16
  {
    Digest(Absorb(INIT, Padded(msg)))
  }

  lemma {:induction false} AbsorbJoin(r: Regs, s: seq<Byte>, t: seq<Byte>)
    requires |s| % 64 == 0 && |t| % 64 == 0
    ensures Absorb(r, s + t) == Absorb(Absorb(r, s), t)
    decreases |s|
  {
    hide Block;
    if s == [] {
      assert s + t == t;
    } else {
      assert (s + t)[..64] == s[..64] && (s + t)[64..] == s[64..] + t;
      AbsorbJoin(Block(r, s[..64]), s[64..], t);
    }
  }

  lemma AbsorbOne(r: Regs, s: seq<Byte>)
    requires |s| == 64
    ensures Absorb(r, s) == Block(r, s)
  {
    hide Block;
    assert s[..64] == s && s[64..] == [];
    assert Absorb(Block(r, s), []) == Block(r, s);
  }

  // ----- md5_state_t -----

  /** The part of a message that fills whole blocks, and the rest. */
  function Whole(msg: seq<Byte>): (s: seq<Byte>)
    ensures |s| % 64 == 0
  {
    msg[..|msg| - |msg| % 64]
  }

  function Partial(msg: seq<Byte>): (s: seq<Byte>)
    ensures |s| == |msg| % 64
  {
    msg[|msg| - |msg| % 64..]
  }

  /** The two-word counter after `n` more bytes, as md5_append computes it. */
  function Count(lo: nat, hi: nat, n: nat): (nat, nat) {
    var nbits := n * 8 % TWO32;
    var lo' := (lo + nbits) % TWO32;
    (lo', (hi + n / 0x2000_0000 + if lo' < nbits then 1 else 0) % TWO32)
  }

  ghost predicate Counts(lo: nat, hi: nat, len: nat) {
    lo < TWO32 && hi < TWO32 && lo + TWO32 * hi == 8 * len % TWO64
  }

  lemma SplitBits(n: nat)
    ensures 8 * n == TWO32 * (n / 0x2000_0000) + n * 8 % TWO32
  {
  }

  lemma Carry(lo: nat, nbits: nat)
    requires lo < TWO32 && nbits < TWO32
    ensures var s := (lo + nbits) % TWO32; lo + nbits == s + TWO32 * (if s < nbits then 1 else 0)
  {
  }

  lemma Wrap(hi: nat)
    ensures hi == TWO32 * (hi / TWO32) + hi % TWO32
  {
  }

  lemma CountAdds(lo: nat, hi: nat, len: nat, n: nat)
    requires Counts(lo, hi, len)
    ensures Counts(Count(lo, hi, n).0, Count(lo, hi, n).1, len + n)
  {
    var nbits, q := n * 8 % TWO32, n / 0x2000_0000;
    var (lo', hi') := Count(lo, hi, n);
    var carry := if lo' < nbits then 1 else 0;
    SplitBits(n);
    Carry(lo, nbits);
    Wrap(hi + q + carry);
    var k, m := 8 * len / TWO64, (hi + q + carry) / TWO32;
    calc {
      8 * (len + n);
      TWO64 * k + (lo + TWO32 * hi) + (TWO32 * q + nbits);
      TWO64 * k + lo' + TWO32 * (hi + q + carry);
      TWO64 * (k + m) + (lo' + TWO32 * hi');
    }
    Remainder(8 * (len + n), k + m, lo' + TWO32 * hi');
  }

  lemma WrapTwice(x: nat)
    ensures (x % TWO32 + 1) % TWO32 == (x + 1) % TWO32
  {
  }

  lemma Remainder(x: nat, k: nat, r: nat)
    requires x == TWO64 * k + r && r < TWO64
    ensures x % TWO64 == r
  {
  }

  lemma CountOffset(lo: nat, hi: nat, len: nat)
    requires Counts(lo, hi, len)
    ensures lo / 8 % 64 == len % 64
  {
    var k := 8 * len / TWO64;
    var blocks := 0x80_0000_0000_0000 * k + 0x80_0000 * hi;
    assert 8 * len == TWO64 * k + TWO32 * hi + lo;
    assert lo / 8 == len - 64 * blocks;
    SameOffset(len, lo / 8, blocks);
  }

  lemma SameOffset(len: nat, m: nat, blocks: nat)
    requires len == m + 64 * blocks
    ensures len % 64 == m % 64
  {
  }

  function Shl8(n: nat, j: nat): nat {
    if j == 0 then n else 0x100 * Shl8(n, j - 1)
  }

  lemma {:induction false} ShiftedOut(lo: nat, m: nat, j: nat)
    ensures Shr8(lo + 0x100 * Shl8(m, j), j) % 0x100 == Shr8(lo, j) % 0x100
  {
    if j > 0 {
      assert (lo + 0x100 * Shl8(m, j)) / 0x100 == lo / 0x100 + 0x100 * Shl8(m, j - 1);
      ShiftedOut(lo / 0x100, m, j - 1);
    }
  }

  lemma {:induction false} ShiftTwice(n: nat, i: nat, j: nat)
    ensures Shr8(n, i + j) == Shr8(Shr8(n, i), j)
  {
    if i > 0 {
      ShiftTwice(n / 0x100, i - 1, j);
    }
  }

  lemma HighWord(lo: nat, hi: nat)
    requires lo < TWO32
    ensures Shr8(lo + TWO32 * hi, 4) == hi
  {
    var n := lo + TWO32 * hi;
    assert n / 0x100 == lo / 0x100 + 0x100_0000 * hi;
    assert n / 0x100 / 0x100 == lo / 0x100 / 0x100 + 0x1_0000 * hi;
    assert n / 0x100 / 0x100 / 0x100 == lo / 0x100 / 0x100 / 0x100 + 0x100 * hi;
    var n2 := n / 0x100 / 0x100;
    assert Shr8(n, 4) == Shr8(n / 0x100, 3) == Shr8(n2, 2) == Shr8(n2 / 0x100, 1) == Shr8(n2 / 0x100 / 0x100, 0);
  }

  lemma LowByte(lo: nat, hi: nat, j: nat)
    requires j < 4
    ensures Shr8(lo + TWO32 * hi, j) % 0x100 == Shr8(lo, j) % 0x100
  {
    hide Shr8;
    assert Shl8(hi, 1) == 0x100 * hi && Shl8(hi, 2) == 0x1_0000 * hi && Shl8(hi, 3) == 0x100_0000 * hi;
    ShlTwice(hi, 3 - j, j);
    ShiftedOut(lo, Shl8(hi, 3 - j), j);
  }

  lemma HighByte(lo: nat, hi: nat, j: nat)
    requires lo < TWO32
    ensures Shr8(lo + TWO32 * hi, 4 + j) == Shr8(hi, j)
  {
    HighWord(lo, hi);
    ShiftTwice(lo + TWO32 * hi, 4, j);
  }

  lemma CountBytes(lo: nat, hi: nat, len: nat, j: nat)
    requires Counts(lo, hi, len) && j < 8
    ensures ByteOfNat(8 * len % TWO64, j) == ByteOfNat(if j < 4 then lo else hi, j % 4)
  {
    hide Shr8;
    if j < 4 {
      LowByte(lo, hi, j);
    } else {
      HighByte(lo, hi, j - 4);
    }
  }

  lemma {:induction false} ShlTwice(n: nat, i: nat, j: nat)
    ensures Shl8(Shl8(n, i), j) == Shl8(n, i + j)
  {
    if j > 0 {
      ShlTwice(n, i, j - 1);
    }
  }

  class State {
    var count0: nat
    var count1: nat
    var regs: Regs
    var buf: array<Byte>
    ghost var msg: seq<Byte>

    ghost predicate Valid()
      reads this, buf
    {
      && buf.Length == 64
      && Counts(count0, count1, |msg|)
      && regs == Absorb(INIT, Whole(msg))
      && buf[..|msg| % 64] == Partial(msg)
    }

    /** md5_init */
    constructor ()
      ensures Valid() && fresh(buf) && msg == []
    {
      count0, count1 := 0, 0;
      regs := Regs(W(0x67452301), W(T_MASK ^ 0x10325476), W(T_MASK ^ 0x67452301), W(0x10325476));
      buf := new Byte[64](_ => 0);
      msg := [];
    }

    method Bump(nbytes: nat)
      requires Counts(count0, count1, |msg|)
      modifies this`count0, this`count1
      ensures Counts(count0, count1, |msg| + nbytes)
    {
      CountAdds(count0, count1, |msg|, nbytes);
      WrapTwice(count1 + nbytes / 0x2000_0000);
      var nbits := nbytes * 8 % TWO32;
      count1 := (count1 + nbytes / 0x2000_0000) % TWO32;
      count0 := (count0 + nbits) % TWO32;
      if count0 < nbits {
        count1 := (count1 + 1) % TWO32;
      }
    }

    /** md5_append; the C code adds offset and nbytes as ints. */
    method Append(data: seq<Byte>)
      requires Valid() && |msg| % 64 + |data| < 0x8000_0000
      modifies this, buf
      ensures Valid() && buf == old(buf)
      ensures msg == old(msg) + data
    {
      hide Absorb, Block, Count, Counts, Whole, Partial;
      var nbytes := |data|;
      var offset := count0 / 8 % 64;
      CountOffset(count0, count1, |msg|);
      if nbytes == 0 {
        assert msg + data == msg;
        return;
      }
      Bump(nbytes);
      ghost var before := msg;
      msg := msg + data;
      var p := 0;
      if offset != 0 {
        var copy := if offset + nbytes > 64 then 64 - offset else nbytes;
        Memcpy(buf, offset, data[..copy]);
        assert buf[..offset + copy] == Partial(before) + data[..copy];
        if offset + copy < 64 {
          SplitStay(before, data);
          assert data[..copy] == data;
          return;
        }
        p := copy;
        regs := Process(regs, buf[..]);
        BlockAbsorbed(before, data[..copy]);
        assert buf[..] == buf[..64];
      } else {
        SplitEmpty(before);
        assert before + data[..0] == before;
      }
      regs, p := Blocks(regs, before, data, p);
      if p < nbytes {
        Memcpy(buf, 0, data[p..]);
      }
      SplitAt(before, data, p);
    }

    /** md5_finish */
    method Finish() returns (digest: seq<Byte>)
      requires Valid()
      modifies this, buf
      ensures digest == MD5(old(msg))
      ensures msg == Padded(old(msg))
    {
      hide Absorb, Zeros, Counts, Partial, Length64, Digest;
      CountOffset(count0, count1, |msg|);
      PadLength(count0, |msg|);
      var data := LengthBytes(count0, count1, |msg|);
      var pad: seq<Byte> := [0x80] + seq(63, _ => 0);
      var n := (55 - count0 / 8) % 64 + 1;
      Append(pad[..n]);
      Append(data);
      assert pad[..n] == [0x80] + seq(Zeros(|old(msg)|), _ => 0);
      assert msg == Padded(old(msg)) && Whole(msg) == msg;
      digest := DigestBytes(regs);
    }
  }

  /** The length in bits as eight bytes, taken from the two counter words. */
  method LengthBytes(lo: nat, hi: nat, ghost len: nat) returns (data: seq<Byte>)
    requires Counts(lo, hi, len)
    ensures data == Length64(8 * len % TWO64)
  {
    hide ByteOfNat, Counts;
    data := [];
    for i := 0 to 8
      invariant data == Length64(8 * len % TWO64)[..i]
    {
      CountBytes(lo, hi, len, i);
      data := data + [ByteOfNat(if i / 4 == 0 then lo else hi, i % 4)];
    }
  }

  method DigestBytes(r: Regs) returns (digest: seq<Byte>)
    ensures digest == Digest(r)
  {
    hide ByteOf;
    digest := [];
    for i := 0 to 16
      invariant digest == Digest(r)[..i]
    {
      var w := if i / 4 == 0 then r.a else if i / 4 == 1 then r.b else if i / 4 == 2 then r.c else r.d;
      digest := digest + [ByteOf(w, i % 4)];
    }
  }

  lemma PadLength(lo: nat, len: nat)
    requires lo / 8 % 64 == len % 64
    ensures (55 - lo / 8) % 64 == Zeros(len)
  {
    var a, b := lo / 8 / 64, len / 64;
    assert 55 - lo / 8 == (55 - len) + 64 * (b - a);
  }

  function Flatten(pieces: seq<seq<Byte>>): seq<Byte> {
    if pieces == [] then [] else Flatten(pieces[..|pieces| - 1]) + pieces[|pieces| - 1]
  }

  /** However a message is cut into appends, the digest is that of the whole. */
  method DigestOf(pieces: seq<seq<Byte>>) returns (digest: seq<Byte>)
    requires forall i | 0 <= i < |pieces| :: |pieces[i]| < 0x7fff_ffc1
    ensures digest == MD5(Flatten(pieces))
  {
    hide Absorb, MD5;
    var ctx := new State();
    for i := 0 to |pieces|
      invariant ctx.Valid() && fresh(ctx) && fresh(ctx.buf) && ctx.msg == Flatten(pieces[..i])
    {
      assert pieces[..i + 1][..i] == pieces[..i];
      ctx.Append(pieces[i]);
    }
    assert pieces[..|pieces|] == pieces;
    digest := ctx.Finish();
  }

  lemma SplitStay(before: seq<Byte>, data: seq<Byte>)
    requires |before| % 64 + |data| < 64
    ensures Whole(before + data) == Whole(before) && Partial(before + data) == Partial(before) + data
  {
    assert |before + data| % 64 == |before| % 64 + |data|;
  }

  lemma SplitEmpty(before: seq<Byte>)
    requires |before| % 64 == 0
    ensures Whole(before) == before && Partial(before) == []
  {
  }

  lemma SplitAt(before: seq<Byte>, data: seq<Byte>, p: nat)
    requires p <= |data| < p + 64 && |before + data[..p]| % 64 == 0
    ensures Whole(before + data) == before + data[..p] && Partial(before + data) == data[p..]
    ensures |before + data| % 64 == |data| - p
  {
    assert |before + data| % 64 == |data| - p;
    assert before + data == before + data[..p] + data[p..];
  }

  /** The loop over full blocks. */
  method Blocks(r0: Regs, ghost before: seq<Byte>, data: seq<Byte>, p0: nat) returns (r: Regs, p: nat)
    requires p0 <= |data| && |before + data[..p0]| % 64 == 0 && r0 == Absorb(INIT, before + data[..p0])
    ensures p <= |data| < p + 64 && |before + data[..p]| % 64 == 0
    ensures r == Absorb(INIT, before + data[..p])
  {
    hide Absorb, Block;
    r, p := r0, p0;
    while |data| - p >= 64
      invariant p <= |data| && |before + data[..p]| % 64 == 0
      invariant r == Absorb(INIT, before + data[..p])
    {
      r := Process(r, data[p..p + 64]);
      NextBlock(before + data[..p], data[p..p + 64]);
      assert before + data[..p] + data[p..p + 64] == before + data[..p + 64];
      p := p + 64;
    }
  }

  lemma NextBlock(s: seq<Byte>, b: seq<Byte>)
    requires |s| % 64 == 0 && |b| == 64
    ensures |s + b| % 64 == 0
    ensures Absorb(INIT, s + b) == Block(Absorb(INIT, s), b)
  {
    hide Absorb, Block;
    AbsorbJoin(INIT, s, b);
    AbsorbOne(Absorb(INIT, s), b);
  }

  /** Completing the pending partial block absorbs exactly one more block. */
  lemma BlockAbsorbed(before: seq<Byte>, fill: seq<Byte>)
    requires |before| % 64 + |fill| == 64
    ensures |before + fill| % 64 == 0
    ensures Absorb(INIT, before + fill) == Block(Absorb(INIT, Whole(before)), Partial(before) + fill)
  {
    hide Block, Absorb;
    assert before == Whole(before) + Partial(before);
    assert before + fill == Whole(before) + (Partial(before) + fill);
    NextBlock(Whole(before), Partial(before) + fill);
  }
}
