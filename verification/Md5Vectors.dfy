/**
 The digest of "abc", from the test suite in section A.5 of RFC 1321, worked out step by step: what
 the four auxiliary functions, the rotation, the sums, the initial words, the padding and the byte
 order of the digest amount to together.
 */
module Md5Vectors {
  import opened Md5

  const ABC: seq<Byte> := [0x61, 0x62, 0x63]

  /** The one padded block, as words. */
  const X: seq<Word> := [W(0x80636261)] + seq(13, _ => W(0)) + [W(24), W(0)]

  // ----- Round 1 -----

  lemma Facts1A()
    ensures Set(W(0x67452301), F(W(0xefcdab89), W(0x98badcfe), W(0x10325476)), W(0x80636261), W(0xd76aa478), 7, W(0xefcdab89)) == W(0xd6d117b4)
    ensures Set(W(0x10325476), F(W(0xd6d117b4), W(0xefcdab89), W(0x98badcfe)), W(0), W(0xe8c7b756), 12, W(0xd6d117b4)) == W(0x344a8432)
    ensures Set(W(0x98badcfe), F(W(0x344a8432), W(0xd6d117b4), W(0xefcdab89)), W(0), W(0x242070db), 17, W(0x344a8432)) == W(0x2f6fbd72)
    ensures Set(W(0xefcdab89), F(W(0x2f6fbd72), W(0x344a8432), W(0xd6d117b4)), W(0), W(0xc1bdceee), 22, W(0x2f6fbd72)) == W(0x7ad956f2)
    ensures Set(W(0xd6d117b4), F(W(0x7ad956f2), W(0x2f6fbd72), W(0x344a8432)), W(0), W(0xf57c0faf), 7, W(0x7ad956f2)) == W(0xc73741ef)
    ensures Set(W(0x344a8432), F(W(0xc73741ef), W(0x7ad956f2), W(0x2f6fbd72)), W(0), W(0x4787c62a), 12, W(0xc73741ef)) == W(0x8bac3051)
    ensures Set(W(0x2f6fbd72), F(W(0x8bac3051), W(0xc73741ef), W(0x7ad956f2)), W(0), W(0xa8304613), 17, W(0x8bac3051)) == W(0x207dc67b)
    ensures Set(W(0x7ad956f2), F(W(0x207dc67b), W(0x8bac3051), W(0xc73741ef)), W(0), W(0xfd469501), 22, W(0x207dc67b)) == W(0x928d99f6)
  {
  }

  lemma Facts1B()
    ensures Set(W(0xc73741ef), F(W(0x928d99f6), W(0x207dc67b), W(0x8bac3051)), W(0), W(0x698098d8), 7, W(0x928d99f6)) == W(0x854b3712)
    ensures Set(W(0x8bac3051), F(W(0x854b3712), W(0x928d99f6), W(0x207dc67b)), W(0), W(0x8b44f7af), 12, W(0x854b3712)) == W(0x74e2f284)
    ensures Set(W(0x207dc67b), F(W(0x74e2f284), W(0x854b3712), W(0x928d99f6)), W(0), W(0xffff5bb1), 17, W(0x74e2f284)) == W(0x3020401c)
    ensures Set(W(0x928d99f6), F(W(0x3020401c), W(0x74e2f284), W(0x854b3712)), W(0), W(0x895cd7be), 22, W(0x3020401c)) == W(0x5ed49596)
    ensures Set(W(0x854b3712), F(W(0x5ed49596), W(0x3020401c), W(0x74e2f284)), W(0), W(0x6b901122), 7, W(0x5ed49596)) == W(0xdda9b9a6)
    ensures Set(W(0x74e2f284), F(W(0xdda9b9a6), W(0x5ed49596), W(0x3020401c)), W(0), W(0xfd987193), 12, W(0xdda9b9a6)) == W(0xa1051895)
    ensures Set(W(0x3020401c), F(W(0xa1051895), W(0xdda9b9a6), W(0x5ed49596)), W(24), W(0xa679438e), 17, W(0xa1051895)) == W(0xe396856b)
    ensures Set(W(0x5ed49596), F(W(0xe396856b), W(0xa1051895), W(0xdda9b9a6)), W(0), W(0x49b40821), 22, W(0xe396856b)) == W(0x72aff2e0)
  {
  }

  lemma Trace1()
    ensures Steps(0, 16, Regs(W(0x67452301), W(0xefcdab89), W(0x98badcfe), W(0x10325476)), X)
         == Regs(W(0xdda9b9a6), W(0x72aff2e0), W(0xe396856b), W(0xa1051895))
  {
    hide Steps, Step, Set, F, G, H, I, WordIndex, Shift, Sine;
    Table1();
    Facts1A();
    Facts1B();
    var r := Regs(W(0x67452301), W(0xefcdab89), W(0x98badcfe), W(0x10325476));
    Next(0, 0, r, X); Next(0, 1, r, X); Next(0, 2, r, X); Next(0, 3, r, X);
    Next(0, 4, r, X); Next(0, 5, r, X); Next(0, 6, r, X); Next(0, 7, r, X);
    Next(0, 8, r, X); Next(0, 9, r, X); Next(0, 10, r, X); Next(0, 11, r, X);
    Next(0, 12, r, X); Next(0, 13, r, X); Next(0, 14, r, X); Next(0, 15, r, X);
  }

  // ----- Round 2 -----

  lemma Facts2A()
    ensures Set(W(0xdda9b9a6), G(W(0x72aff2e0), W(0xe396856b), W(0xa1051895)), W(0), W(0xf61e2562), 5, W(0x72aff2e0)) == W(0x3e9e9126)
    ensures Set(W(0xa1051895), G(W(0x3e9e9126), W(0x72aff2e0), W(0xe396856b)), W(0), W(0xc040b340), 9, W(0x3e9e9126)) == W(0x4a1d804e)
    ensures Set(W(0xe396856b), G(W(0x4a1d804e), W(0x3e9e9126), W(0x72aff2e0)), W(0), W(0x265e5a51), 14, W(0x4a1d804e)) == W(0xe25e1652)
    ensures Set(W(0x72aff2e0), G(W(0xe25e1652), W(0x4a1d804e), W(0x3e9e9126)), W(0x80636261), W(0xe9b6c7aa), 20, W(0xe25e1652)) == W(0xb5b204e4)
    ensures Set(W(0x3e9e9126), G(W(0xb5b204e4), W(0xe25e1652), W(0x4a1d804e)), W(0), W(0xd62f105d), 5, W(0xb5b204e4)) == W(0x59a8ffda)
    ensures Set(W(0x4a1d804e), G(W(0x59a8ffda), W(0xb5b204e4), W(0xe25e1652)), W(0), W(0x02441453), 9, W(0x59a8ffda)) == W(0x6d002f1e)
    ensures Set(W(0xe25e1652), G(W(0x6d002f1e), W(0x59a8ffda), W(0xb5b204e4)), W(0), W(0xd8a1e681), 14, W(0x6d002f1e)) == W(0xabfc7920)
    ensures Set(W(0xb5b204e4), G(W(0xabfc7920), W(0x6d002f1e), W(0x59a8ffda)), W(0), W(0xe7d3fbc8), 20, W(0xabfc7920)) == W(0x47092c07)
  {
  }

  lemma Facts2B()
    ensures Set(W(0x59a8ffda), G(W(0x47092c07), W(0xabfc7920), W(0x6d002f1e)), W(0), W(0x21e1cde6), 5, W(0x47092c07)) == W(0xb7f268cf)
    ensures Set(W(0x6d002f1e), G(W(0xb7f268cf), W(0x47092c07), W(0xabfc7920)), W(24), W(0xc33707d6), 9, W(0xb7f268cf)) == W(0x09388eff)
    ensures Set(W(0xabfc7920), G(W(0x09388eff), W(0xb7f268cf), W(0x47092c07)), W(0), W(0xf4d50d87), 14, W(0x09388eff)) == W(0xfe1623b1)
    ensures Set(W(0x47092c07), G(W(0xfe1623b1), W(0x09388eff), W(0xb7f268cf)), W(0), W(0x455a14ed), 20, W(0xfe1623b1)) == W(0x786acb8f)
    ensures Set(W(0xb7f268cf), G(W(0x786acb8f), W(0xfe1623b1), W(0x09388eff)), W(0), W(0xa9e3e905), 5, W(0x786acb8f)) == W(0x790a77fb)
    ensures Set(W(0x09388eff), G(W(0x790a77fb), W(0x786acb8f), W(0xfe1623b1)), W(0), W(0xfcefa3f8), 9, W(0x790a77fb)) == W(0x9f47e4f8)
    ensures Set(W(0xfe1623b1), G(W(0x9f47e4f8), W(0x790a77fb), W(0x786acb8f)), W(0), W(0x676f02d9), 14, W(0x9f47e4f8)) == W(0xa62884aa)
    ensures Set(W(0x786acb8f), G(W(0xa62884aa), W(0x9f47e4f8), W(0x790a77fb)), W(0), W(0x8d2a4c8a), 20, W(0xa62884aa)) == W(0x726342d3)
  {
  }

  lemma Trace2()
    ensures Steps(16, 32, Regs(W(0xdda9b9a6), W(0x72aff2e0), W(0xe396856b), W(0xa1051895)), X)
         == Regs(W(0x790a77fb), W(0x726342d3), W(0xa62884aa), W(0x9f47e4f8))
  {
    hide Steps, Step, Set, F, G, H, I, WordIndex, Shift, Sine;
    Table2();
    Facts2A();
    Facts2B();
    var r := Regs(W(0xdda9b9a6), W(0x72aff2e0), W(0xe396856b), W(0xa1051895));
    Next(16, 16, r, X); Next(16, 17, r, X); Next(16, 18, r, X); Next(16, 19, r, X);
    Next(16, 20, r, X); Next(16, 21, r, X); Next(16, 22, r, X); Next(16, 23, r, X);
    Next(16, 24, r, X); Next(16, 25, r, X); Next(16, 26, r, X); Next(16, 27, r, X);
    Next(16, 28, r, X); Next(16, 29, r, X); Next(16, 30, r, X); Next(16, 31, r, X);
  }

  // ----- Round 3 -----

  lemma Facts3A()
    ensures Set(W(0x790a77fb), H(W(0x726342d3), W(0xa62884aa), W(0x9f47e4f8)), W(0), W(0xfffa3942), 4, W(0x726342d3)) == W(0xb3707ebf)
    ensures Set(W(0x9f47e4f8), H(W(0xb3707ebf), W(0x726342d3), W(0xa62884aa)), W(0), W(0x8771f681), 11, W(0xb3707ebf)) == W(0x60127b2e)
    ensures Set(W(0xa62884aa), H(W(0x60127b2e), W(0xb3707ebf), W(0x726342d3)), W(0), W(0x6d9d6122), 16, W(0x60127b2e)) == W(0x8d212ff5)
    ensures Set(W(0x726342d3), H(W(0x8d212ff5), W(0x60127b2e), W(0xb3707ebf)), W(24), W(0xfde5380c), 23, W(0x8d212ff5)) == W(0x3b0875c7)
    ensures Set(W(0xb3707ebf), H(W(0x3b0875c7), W(0x8d212ff5), W(0x60127b2e)), W(0), W(0xa4beea44), 4, W(0x3b0875c7)) == W(0x21b117b9)
    ensures Set(W(0x60127b2e), H(W(0x21b117b9), W(0x3b0875c7), W(0x8d212ff5)), W(0), W(0x4bdecfa9), 11, W(0x21b117b9)) == W(0x6e7429d5)
    ensures Set(W(0x8d212ff5), H(W(0x6e7429d5), W(0x21b117b9), W(0x3b0875c7)), W(0), W(0xf6bb4b60), 16, W(0x6e7429d5)) == W(0x3575227e)
    ensures Set(W(0x3b0875c7), H(W(0x3575227e), W(0x6e7429d5), W(0x21b117b9)), W(0), W(0xbebfbc70), 23, W(0x3575227e)) == W(0x5a2f5ea5)
  {
  }

  lemma Facts3B()
    ensures Set(W(0x21b117b9), H(W(0x5a2f5ea5), W(0x3575227e), W(0x6e7429d5)), W(0), W(0x289b7ec6), 4, W(0x5a2f5ea5)) == W(0x11de1779)
    ensures Set(W(0x6e7429d5), H(W(0x11de1779), W(0x5a2f5ea5), W(0x3575227e)), W(0x80636261), W(0xeaa127fa), 11, W(0x11de1779)) == W(0xfadcaa38)
    ensures Set(W(0x3575227e), H(W(0xfadcaa38), W(0x11de1779), W(0x5a2f5ea5)), W(0), W(0xd4ef3085), 16, W(0xfadcaa38)) == W(0x31c465ca)
    ensures Set(W(0x5a2f5ea5), H(W(0x31c465ca), W(0xfadcaa38), W(0x11de1779)), W(0), W(0x04881d05), 23, W(0x31c465ca)) == W(0x4c6124f4)
    ensures Set(W(0x11de1779), H(W(0x4c6124f4), W(0x31c465ca), W(0xfadcaa38)), W(0), W(0xd9d4d039), 4, W(0x4c6124f4)) == W(0x7f2e507b)
    ensures Set(W(0xfadcaa38), H(W(0x7f2e507b), W(0x4c6124f4), W(0x31c465ca)), W(0), W(0xe6db99e5), 11, W(0x7f2e507b)) == W(0x99d9679d)
    ensures Set(W(0x31c465ca), H(W(0x99d9679d), W(0x7f2e507b), W(0x4c6124f4)), W(0), W(0x1fa27cf8), 16, W(0x99d9679d)) == W(0x8fae6399)
    ensures Set(W(0x4c6124f4), H(W(0x8fae6399), W(0x99d9679d), W(0x7f2e507b)), W(0), W(0xc4ac5665), 23, W(0x8fae6399)) == W(0x7beb9700)
  {
  }

  lemma Trace3()
    ensures Steps(32, 48, Regs(W(0x790a77fb), W(0x726342d3), W(0xa62884aa), W(0x9f47e4f8)), X)
         == Regs(W(0x7f2e507b), W(0x7beb9700), W(0x8fae6399), W(0x99d9679d))
  {
    hide Steps, Step, Set, F, G, H, I, WordIndex, Shift, Sine;
    Table3();
    Facts3A();
    Facts3B();
    var r := Regs(W(0x790a77fb), W(0x726342d3), W(0xa62884aa), W(0x9f47e4f8));
    Next(32, 32, r, X); Next(32, 33, r, X); Next(32, 34, r, X); Next(32, 35, r, X);
    Next(32, 36, r, X); Next(32, 37, r, X); Next(32, 38, r, X); Next(32, 39, r, X);
    Next(32, 40, r, X); Next(32, 41, r, X); Next(32, 42, r, X); Next(32, 43, r, X);
    Next(32, 44, r, X); Next(32, 45, r, X); Next(32, 46, r, X); Next(32, 47, r, X);
  }

  // ----- Round 4 -----

  lemma Facts4A()
    ensures Set(W(0x7f2e507b), I(W(0x7beb9700), W(0x8fae6399), W(0x99d9679d)), W(0x80636261), W(0xf4292244), 6, W(0x7beb9700)) == W(0x7b201df8)
    ensures Set(W(0x99d9679d), I(W(0x7b201df8), W(0x7beb9700), W(0x8fae6399)), W(0), W(0x432aff97), 10, W(0x7b201df8)) == W(0xf4e8e96e)
    ensures Set(W(0x8fae6399), I(W(0xf4e8e96e), W(0x7b201df8), W(0x7beb9700)), W(24), W(0xab9423a7), 15, W(0xf4e8e96e)) == W(0xb298cefd)
    ensures Set(W(0x7beb9700), I(W(0xb298cefd), W(0xf4e8e96e), W(0x7b201df8)), W(0), W(0xfc93a039), 21, W(0xb298cefd)) == W(0x8bf025c4)
    ensures Set(W(0x7b201df8), I(W(0x8bf025c4), W(0xb298cefd), W(0xf4e8e96e)), W(0), W(0x655b59c3), 6, W(0x8bf025c4)) == W(0x06cc5e8a)
    ensures Set(W(0xf4e8e96e), I(W(0x06cc5e8a), W(0x8bf025c4), W(0xb298cefd)), W(0), W(0x8f0ccc92), 10, W(0x06cc5e8a)) == W(0x5b0d97aa)
    ensures Set(W(0xb298cefd), I(W(0x5b0d97aa), W(0x06cc5e8a), W(0x8bf025c4)), W(0), W(0xffeff47d), 15, W(0x5b0d97aa)) == W(0x7d632dd0)
    ensures Set(W(0x8bf025c4), I(W(0x7d632dd0), W(0x5b0d97aa), W(0x06cc5e8a)), W(0), W(0x85845dd1), 21, W(0x7d632dd0)) == W(0x3bfa2c27)
  {
  }

  lemma Facts4B()
    ensures Set(W(0x06cc5e8a), I(W(0x3bfa2c27), W(0x7d632dd0), W(0x5b0d97aa)), W(0), W(0x6fa87e4f), 6, W(0x3bfa2c27)) == W(0x7f81cc35)
    ensures Set(W(0x5b0d97aa), I(W(0x7f81cc35), W(0x3bfa2c27), W(0x7d632dd0)), W(0), W(0xfe2ce6e0), 10, W(0x7f81cc35)) == W(0x094454ab)
    ensures Set(W(0x7d632dd0), I(W(0x094454ab), W(0x7f81cc35), W(0x3bfa2c27)), W(0), W(0xa3014314), 15, W(0x094454ab)) == W(0x4f9dbe3f)
    ensures Set(W(0x3bfa2c27), I(W(0x4f9dbe3f), W(0x094454ab), W(0x7f81cc35)), W(0), W(0x4e0811a1), 21, W(0x4f9dbe3f)) == W(0x7327d604)
    ensures Set(W(0x7f81cc35), I(W(0x7327d604), W(0x4f9dbe3f), W(0x094454ab)), W(0), W(0xf7537e82), 6, W(0x7327d604)) == W(0x310ade8f)
    ensures Set(W(0x094454ab), I(W(0x310ade8f), W(0x7327d604), W(0x4f9dbe3f)), W(0), W(0xbd3af235), 10, W(0x310ade8f)) == W(0x624d8cb2)
    ensures Set(W(0x4f9dbe3f), I(W(0x624d8cb2), W(0x310ade8f), W(0x7327d604)), W(0), W(0x2ad7d2bb), 15, W(0x624d8cb2)) == W(0xe484b9d8)
    ensures Set(W(0x7327d604), I(W(0xe484b9d8), W(0x624d8cb2), W(0x310ade8f)), W(0), W(0xeb86d391), 21, W(0xe484b9d8)) == W(0xc08226b3)
  {
  }

  lemma Trace4()
    ensures Steps(48, 64, Regs(W(0x7f2e507b), W(0x7beb9700), W(0x8fae6399), W(0x99d9679d)), X)
         == Regs(W(0x310ade8f), W(0xc08226b3), W(0xe484b9d8), W(0x624d8cb2))
  {
    hide Steps, Step, Set, F, G, H, I, WordIndex, Shift, Sine;
    Table4();
    Facts4A();
    Facts4B();
    var r := Regs(W(0x7f2e507b), W(0x7beb9700), W(0x8fae6399), W(0x99d9679d));
    Next(48, 48, r, X); Next(48, 49, r, X); Next(48, 50, r, X); Next(48, 51, r, X);
    Next(48, 52, r, X); Next(48, 53, r, X); Next(48, 54, r, X); Next(48, 55, r, X);
    Next(48, 56, r, X); Next(48, 57, r, X); Next(48, 58, r, X); Next(48, 59, r, X);
    Next(48, 60, r, X); Next(48, 61, r, X); Next(48, 62, r, X); Next(48, 63, r, X);
  }

  lemma {:induction false} NothingLeft(j: nat)
    ensures Shr8(0, j) == 0
  {
    if j > 0 {
      NothingLeft(j - 1);
    }
  }

  lemma BytesOfAbc()
    ensures var p := Padded(ABC);
            && |p| == 64 && p[0] == 0x61 && p[1] == 0x62 && p[2] == 0x63 && p[3] == 0x80 && p[56] == 24
            && forall i | 4 <= i < 64 && i != 56 :: p[i] == 0
  {
    hide ByteOfNat;
    forall j | 0 <= j < 8 ensures ByteOfNat(24, j) == if j == 0 then 24 else 0 {
      BytesOf24(j);
    }
    assert Padded(ABC) == ABC + [0x80] + seq(52, _ => 0) + Length64(24);
  }

  lemma BytesOf24(j: nat)
    requires j < 8
    ensures ByteOfNat(24, j) == if j == 0 then 24 else 0
  {
    if j > 0 {
      NothingLeft(j - 1);
    }
  }

  lemma SmallWords()
    ensures Assemble(0x61, 0x62, 0x63, 0x80) == 0x80636261 && Assemble(0, 0, 0, 0) == 0 && Assemble(24, 0, 0, 0) == 24
  {
  }

  lemma BlockOfAbc()
    ensures |Padded(ABC)| == 64 && Words(Padded(ABC)) == X
  {
    hide Padded, Assemble;
    BytesOfAbc();
    SmallWords();
    forall i | 0 <= i < 16 ensures Words(Padded(ABC))[i] == X[i] {
    }
  }

  /** MD5 ("abc") = 900150983cd24fb0d6963f7d28e17f72 */
  lemma DigestOfAbc()
    ensures MD5(ABC) == [0x90, 0x01, 0x50, 0x98, 0x3c, 0xd2, 0x4f, 0xb0, 0xd6, 0x96, 0x3f, 0x7d, 0x28, 0xe1, 0x7f, 0x72]
  {
    hide Steps, Set, Words, Padded;
    BlockOfAbc();
    Trace1();
    Trace2();
    Trace3();
    Trace4();
    StepsJoin(0, 16, 32, INIT, X);
    StepsJoin(0, 32, 48, INIT, X);
    StepsJoin(0, 48, 64, INIT, X);
    AbsorbOne(INIT, Padded(ABC));
  }
}
