/**
 The MD5 compression function (src/md5.c, body and its macros) and the transform of
 RFC 1321 section 3.4 that it implements.

 The source unrolls the 64 steps, renames the four registers from step to step instead of
 moving their contents, and computes F, G and every other H in an algebraically different
 form.  The RFC's transform below is one step function driven by tables, with the registers
 rotated after each step.

 A 32-bit word is an integer below 2^32: sums are reduced explicitly, and the bitwise
 functions go through bv32.
 */
module Md5Transform {

  type Byte = x: int | 0 <= x < 0x100

  type Word = x: int | 0 <= x < 0x1_0000_0000

  datatype Regs = Regs(a: Word, b: Word, c: Word, d: Word)

  // ---------- RFC 1321, section 3.4 ----------

  function RfcF(x: Word, y: Word, z: Word): Word {
    var (p, q, r) := (x as bv32, y as bv32, z as bv32);
    ((p & q) | (!p & r)) as int
  }

  function RfcG(x: Word, y: Word, z: Word): Word {
    var (p, q, r) := (x as bv32, y as bv32, z as bv32);
    ((p & r) | (q & !r)) as int
  }

  function RfcH(x: Word, y: Word, z: Word): Word {
    var (p, q, r) := (x as bv32, y as bv32, z as bv32);
    (p ^ q ^ r) as int
  }

  function RfcI(x: Word, y: Word, z: Word): Word {
    var (p, q, r) := (x as bv32, y as bv32, z as bv32);
    (q ^ (p | !r)) as int
  }

  /** The auxiliary function of the round that step i belongs to. */
  function Mix(i: nat, x: Word, y: Word, z: Word): Word {
    if i < 16 then RfcF(x, y, z)
    else if i < 32 then RfcG(x, y, z)
    else if i < 48 then RfcH(x, y, z)
    else RfcI(x, y, z)
  }

  /** The message word read by step i. */
  function WordIndex(i: nat): (k: nat)
    ensures k < 16
  {
    if i < 16 then i
    else if i < 32 then (5 * i + 1) % 16
    else if i < 48 then (3 * i + 5) % 16
    else 7 * i % 16
  }

  /** The rotation of step i: four amounts per round, used in turn. */
  function Amount(i: nat): (s: nat)
    ensures 0 < s < 32
  {
    var j := i % 4;
    if i < 16 then (if j == 0 then 7 else if j == 1 then 12 else if j == 2 then 17 else 22)
    else if i < 32 then (if j == 0 then 5 else if j == 1 then 9 else if j == 2 then 14 else 20)
    else if i < 48 then (if j == 0 then 4 else if j == 1 then 11 else if j == 2 then 16 else 23)
    else (if j == 0 then 6 else if j == 1 then 10 else if j == 2 then 15 else 21)
  }

  /** The sine table T of the RFC; T[i+1] there is Sine(i) here. */
  function Sine(i: nat): Word {
    match i
    case 0 => 0xd76aa478 case 1 => 0xe8c7b756 case 2 => 0x242070db case 3 => 0xc1bdceee
    case 4 => 0xf57c0faf case 5 => 0x4787c62a case 6 => 0xa8304613 case 7 => 0xfd469501
    case 8 => 0x698098d8 case 9 => 0x8b44f7af case 10 => 0xffff5bb1 case 11 => 0x895cd7be
    case 12 => 0x6b901122 case 13 => 0xfd987193 case 14 => 0xa679438e case 15 => 0x49b40821
    case 16 => 0xf61e2562 case 17 => 0xc040b340 case 18 => 0x265e5a51 case 19 => 0xe9b6c7aa
    case 20 => 0xd62f105d case 21 => 0x02441453 case 22 => 0xd8a1e681 case 23 => 0xe7d3fbc8
    case 24 => 0x21e1cde6 case 25 => 0xc33707d6 case 26 => 0xf4d50d87 case 27 => 0x455a14ed
    case 28 => 0xa9e3e905 case 29 => 0xfcefa3f8 case 30 => 0x676f02d9 case 31 => 0x8d2a4c8a
    case 32 => 0xfffa3942 case 33 => 0x8771f681 case 34 => 0x6d9d6122 case 35 => 0xfde5380c
    case 36 => 0xa4beea44 case 37 => 0x4bdecfa9 case 38 => 0xf6bb4b60 case 39 => 0xbebfbc70
    case 40 => 0x289b7ec6 case 41 => 0xeaa127fa case 42 => 0xd4ef3085 case 43 => 0x04881d05
    case 44 => 0xd9d4d039 case 45 => 0xe6db99e5 case 46 => 0x1fa27cf8 case 47 => 0xc4ac5665
    case 48 => 0xf4292244 case 49 => 0x432aff97 case 50 => 0xab9423a7 case 51 => 0xfc93a039
    case 52 => 0x655b59c3 case 53 => 0x8f0ccc92 case 54 => 0xffeff47d case 55 => 0x85845dd1
    case 56 => 0x6fa87e4f case 57 => 0xfe2ce6e0 case 58 => 0xa3014314 case 59 => 0x4e0811a1
    case 60 => 0xf7537e82 case 61 => 0xbd3af235 case 62 => 0x2ad7d2bb case _ => 0xeb86d391
  }

  function RotateLeft(x: Word, s: nat): Word
    requires 0 < s < 32
  {
    var p := x as bv32;
    ((p << s) | (p >> (32 - s))) as int
  }

  /** b + ((a + f + X[k] + T[i]) <<< s), with f the value of the auxiliary function. */
  function RfcUpdate(f: Word, a: Word, b: Word, x: Word, t: Word, s: nat): Word
    requires 0 < s < 32
  {
    (b + RotateLeft((a + f + x + t) % 0x1_0000_0000, s)) % 0x1_0000_0000
  }

  /** One step: a is updated, then the registers move one place. */
  function RfcStep(i: nat, r: Regs, x: seq<Word>): Regs
    requires |x| == 16
  {
    var a := RfcUpdate(Mix(i, r.b, r.c, r.d), r.a, r.b, x[WordIndex(i)], Sine(i), Amount(i));
    Regs(r.d, a, r.b, r.c)
  }

  /** The registers after the steps from..to. */
  function RfcSteps(from: nat, to: nat, r: Regs, x: seq<Word>): Regs
    requires from <= to && |x| == 16
  {
    if from == to then r else RfcStep(to - 1, RfcSteps(from, to - 1, r, x), x)
  }

  lemma {:induction false} StepsCompose(from: nat, mid: nat, to: nat, r: Regs, x: seq<Word>)
    requires from <= mid <= to && |x| == 16
    ensures RfcSteps(mid, to, RfcSteps(from, mid, r, x), x) == RfcSteps(from, to, r, x)
  {
    hide RfcStep;
    if mid < to {
      StepsCompose(from, mid, to - 1, r, x);
    }
  }

  function AddRegs(r: Regs, s: Regs): Regs {
    Regs((r.a + s.a) % 0x1_0000_0000, (r.b + s.b) % 0x1_0000_0000,
         (r.c + s.c) % 0x1_0000_0000, (r.d + s.d) % 0x1_0000_0000)
  }

  /** Four bytes as a word, low-order byte first (RFC 1321, section 2). */
  function LittleEndian(block: seq<Byte>, n: nat): Word
    requires 4 * n + 3 < |block|
  {
    var low: int, second: int := block[4 * n], block[4 * n + 1];
    var third: int, high: int := block[4 * n + 2], block[4 * n + 3];
    low + 0x100 * second + 0x1_0000 * third + 0x100_0000 * high
  }

  function Words(block: seq<Byte>): (x: seq<Word>)
    requires |block| == 64
  {
    seq(16, n requires 0 <= n < 16 => LittleEndian(block, n))
  }

  function RfcTransform(r: Regs, block: seq<Byte>): Regs
    requires |block| == 64
  {
    AddRegs(r, RfcSteps(0, 64, r, Words(block)))
  }

  /** The transform applied to each 64-byte block in turn. */
  function Fold(r: Regs, data: seq<Byte>): Regs
    requires |data| % 64 == 0
  {
    if |data| == 0 then r
    else RfcTransform(Fold(r, data[..|data| - 64]), data[|data| - 64..])
  }

  lemma FoldGrows(r: Regs, s: seq<Byte>, block: seq<Byte>)
    requires |s| % 64 == 0 && |block| == 64
    ensures |s + block| % 64 == 0
    ensures Fold(r, s + block) == RfcTransform(Fold(r, s), block)
  {
    hide RfcTransform;
    assert (s + block)[..|s|] == s && (s + block)[|s|..] == block;
  }

  /** Transforming some blocks and then some more is transforming them all. */
  lemma {:induction false} FoldComposes(r: Regs, s: seq<Byte>, t: seq<Byte>)
    requires |s| % 64 == 0 && |t| % 64 == 0
    ensures |s + t| % 64 == 0 && Fold(Fold(r, s), t) == Fold(r, s + t)
    decreases |t|
  {
    hide RfcTransform, Fold;
    if |t| == 0 {
      assert s + t == s && t == [];
      FoldNothing(Fold(r, s));
    } else {
      var front, last := t[..|t| - 64], t[|t| - 64..];
      assert t == front + last && s + t == (s + front) + last;
      FoldComposes(r, s, front);
      FoldGrows(Fold(r, s), front, last);
      FoldGrows(r, s + front, last);
    }
  }

  lemma FoldNothing(r: Regs)
    ensures Fold(r, []) == r
  {}

  // ---------- The macros of the source ----------

  function F(x: Word, y: Word, z: Word): Word {
    var (p, q, r) := (x as bv32, y as bv32, z as bv32);
    (r ^ (p & (q ^ r))) as int
  }

  function G(x: Word, y: Word, z: Word): Word {
    var (p, q, r) := (x as bv32, y as bv32, z as bv32);
    (q ^ (r & (p ^ q))) as int
  }

  function H(x: Word, y: Word, z: Word): Word {
    var (p, q, r) := (x as bv32, y as bv32, z as bv32);
    ((p ^ q) ^ r) as int
  }

  function H2(x: Word, y: Word, z: Word): Word {
    var (p, q, r) := (x as bv32, y as bv32, z as bv32);
    (p ^ (q ^ r)) as int
  }

  function I(x: Word, y: Word, z: Word): Word {
    var (p, q, r) := (x as bv32, y as bv32, z as bv32);
    (q ^ (p | !r)) as int
  }

  /** STEP, with the value of f(b,c,d) passed in: the value left in a. */
  function Step(f: Word, a: Word, b: Word, x: Word, t: Word, s: nat): Word
    requires 0 < s < 32
  {
    (RotateMasked((a + (f + x + t)) % 0x1_0000_0000, s) + b) % 0x1_0000_0000
  }

  function RotateMasked(x: Word, s: nat): Word
    requires 0 < s < 32
  {
    var p := x as bv32;
    ((p << s) | ((p & 0xffffffff) >> (32 - s))) as int
  }

  lemma FIsRfc(x: Word, y: Word, z: Word)
    ensures F(x, y, z) == RfcF(x, y, z)
  {
    Choose(x as bv32, y as bv32, z as bv32);
  }

  lemma Choose(x: bv32, y: bv32, z: bv32)
    ensures z ^ (x & (y ^ z)) == (x & y) | (!x & z)
  {}

  lemma GIsRfc(x: Word, y: Word, z: Word)
    ensures G(x, y, z) == RfcG(x, y, z)
  {
    ChooseByThird(x as bv32, y as bv32, z as bv32);
  }

  lemma ChooseByThird(x: bv32, y: bv32, z: bv32)
    ensures y ^ (z & (x ^ y)) == (x & z) | (y & !z)
  {}

  lemma H2IsRfc(x: Word, y: Word, z: Word)
    ensures H2(x, y, z) == RfcH(x, y, z)
  {
    XorAssociates(x as bv32, y as bv32, z as bv32);
  }

  lemma XorAssociates(x: bv32, y: bv32, z: bv32)
    ensures x ^ (y ^ z) == (x ^ y) ^ z
  {}

  lemma StepIsRfc(f: Word, a: Word, b: Word, x: Word, t: Word, s: nat)
    requires 0 < s < 32
    ensures Step(f, a, b, x, t, s) == RfcUpdate(f, a, b, x, t, s)
  {
    hide RotateMasked, RotateLeft;
    RotateMaskedIsRotate((a + f + x + t) % 0x1_0000_0000, s);
  }

  lemma RotateMaskedIsRotate(x: Word, s: nat)
    requires 0 < s < 32
    ensures RotateMasked(x, s) == RotateLeft(x, s)
  {
    MaskIsIdentity(x as bv32);
  }

  lemma MaskIsIdentity(x: bv32)
    ensures x & 0xffffffff == x
  {}

  // ---------- The unrolled rounds ----------

  /** The macro that the source names in step i. */
  function Macro(i: nat, x: Word, y: Word, z: Word): Word {
    if i < 16 then F(x, y, z)
    else if i < 32 then G(x, y, z)
    else if i < 48 then (if i % 2 == 0 then H(x, y, z) else H2(x, y, z))
    else I(x, y, z)
  }

  lemma MacroIsMix(i: nat, x: Word, y: Word, z: Word)
    ensures Macro(i, x, y, z) == Mix(i, x, y, z)
  {
    hide F, G, H2, RfcF, RfcG;
    FIsRfc(x, y, z);
    GIsRfc(x, y, z);
    H2IsRfc(x, y, z);
  }

  /** Four unrolled steps with the registers renamed are four steps of the RFC. */
  lemma Row(i: nat, from: nat, r: Regs, x: seq<Word>, was: Regs, next: Regs)
    requires from <= i && i % 4 == 0 && |x| == 16
    requires RfcSteps(from, i, r, x) == was
    requires next.a == Step(Macro(i, was.b, was.c, was.d), was.a, was.b, x[WordIndex(i)], Sine(i), Amount(i))
    requires next.d == Step(Macro(i + 1, next.a, was.b, was.c), was.d, next.a, x[WordIndex(i + 1)], Sine(i + 1),
                Amount(i + 1))
    requires next.c == Step(Macro(i + 2, next.d, next.a, was.b), was.c, next.d, x[WordIndex(i + 2)], Sine(i + 2),
                Amount(i + 2))
    requires next.b == Step(Macro(i + 3, next.c, next.d, next.a), was.b, next.c, x[WordIndex(i + 3)], Sine(i + 3),
                Amount(i + 3))
    ensures RfcSteps(from, i + 4, r, x) == next
  {
    hide Step, RfcUpdate, Mix, Sine, WordIndex, Amount, RfcSteps, Macro;
    OneStep(i, from, r, x);
    OneStep(i + 1, from, r, x);
    OneStep(i + 2, from, r, x);
    OneStep(i + 3, from, r, x);
  }

  lemma OneStep(i: nat, from: nat, r: Regs, x: seq<Word>)
    requires from <= i && |x| == 16
    ensures var s := RfcSteps(from, i, r, x);
            RfcSteps(from, i + 1, r, x) ==
              Regs(s.d, Step(Macro(i, s.b, s.c, s.d), s.a, s.b, x[WordIndex(i)], Sine(i), Amount(i)), s.b, s.c)
  {
    hide Step, RfcUpdate, Mix, Macro, Sine, WordIndex, Amount;
    var s := RfcSteps(from, i, r, x);
    MacroIsMix(i, s.b, s.c, s.d);
    StepIsRfc(Mix(i, s.b, s.c, s.d), s.a, s.b, x[WordIndex(i)], Sine(i), Amount(i));
  }

  method Round1(r: Regs, x: seq<Word>) returns (r': Regs)
    requires |x| == 16
    ensures r' == RfcSteps(0, 16, r, x)
  {
    hide Step, RfcUpdate, Mix, F, G, H, H2, I;
    var a, b, c, d := r.a, r.b, r.c, r.d;
    ghost var last := r;
    a := Step(F(b, c, d), a, b, x[0], 0xd76aa478, 7);
    d := Step(F(a, b, c), d, a, x[1], 0xe8c7b756, 12);
    c := Step(F(d, a, b), c, d, x[2], 0x242070db, 17);
    b := Step(F(c, d, a), b, c, x[3], 0xc1bdceee, 22);
    Row(0, 0, r, x, last, Regs(a, b, c, d));
    last := Regs(a, b, c, d);
    a := Step(F(b, c, d), a, b, x[4], 0xf57c0faf, 7);
    d := Step(F(a, b, c), d, a, x[5], 0x4787c62a, 12);
    c := Step(F(d, a, b), c, d, x[6], 0xa8304613, 17);
    b := Step(F(c, d, a), b, c, x[7], 0xfd469501, 22);
    Row(4, 0, r, x, last, Regs(a, b, c, d));
    last := Regs(a, b, c, d);
    a := Step(F(b, c, d), a, b, x[8], 0x698098d8, 7);
    d := Step(F(a, b, c), d, a, x[9], 0x8b44f7af, 12);
    c := Step(F(d, a, b), c, d, x[10], 0xffff5bb1, 17);
    b := Step(F(c, d, a), b, c, x[11], 0x895cd7be, 22);
    Row(8, 0, r, x, last, Regs(a, b, c, d));
    last := Regs(a, b, c, d);
    a := Step(F(b, c, d), a, b, x[12], 0x6b901122, 7);
    d := Step(F(a, b, c), d, a, x[13], 0xfd987193, 12);
    c := Step(F(d, a, b), c, d, x[14], 0xa679438e, 17);
    b := Step(F(c, d, a), b, c, x[15], 0x49b40821, 22);
    Row(12, 0, r, x, last, Regs(a, b, c, d));
    r' := Regs(a, b, c, d);
  }

  method Round2(r: Regs, x: seq<Word>) returns (r': Regs)
    requires |x| == 16
    ensures r' == RfcSteps(16, 32, r, x)
  {
    hide Step, RfcUpdate, Mix, F, G, H, H2, I;
    var a, b, c, d := r.a, r.b, r.c, r.d;
    ghost var last := r;
    a := Step(G(b, c, d), a, b, x[1], 0xf61e2562, 5);
    d := Step(G(a, b, c), d, a, x[6], 0xc040b340, 9);
    c := Step(G(d, a, b), c, d, x[11], 0x265e5a51, 14);
    b := Step(G(c, d, a), b, c, x[0], 0xe9b6c7aa, 20);
    Row(16, 16, r, x, last, Regs(a, b, c, d));
    last := Regs(a, b, c, d);
    a := Step(G(b, c, d), a, b, x[5], 0xd62f105d, 5);
    d := Step(G(a, b, c), d, a, x[10], 0x02441453, 9);
    c := Step(G(d, a, b), c, d, x[15], 0xd8a1e681, 14);
    b := Step(G(c, d, a), b, c, x[4], 0xe7d3fbc8, 20);
    Row(20, 16, r, x, last, Regs(a, b, c, d));
    last := Regs(a, b, c, d);
    a := Step(G(b, c, d), a, b, x[9], 0x21e1cde6, 5);
    d := Step(G(a, b, c), d, a, x[14], 0xc33707d6, 9);
    c := Step(G(d, a, b), c, d, x[3], 0xf4d50d87, 14);
    b := Step(G(c, d, a), b, c, x[8], 0x455a14ed, 20);
    Row(24, 16, r, x, last, Regs(a, b, c, d));
    last := Regs(a, b, c, d);
    a := Step(G(b, c, d), a, b, x[13], 0xa9e3e905, 5);
    d := Step(G(a, b, c), d, a, x[2], 0xfcefa3f8, 9);
    c := Step(G(d, a, b), c, d, x[7], 0x676f02d9, 14);
    b := Step(G(c, d, a), b, c, x[12], 0x8d2a4c8a, 20);
    Row(28, 16, r, x, last, Regs(a, b, c, d));
    r' := Regs(a, b, c, d);
  }

  method Round3(r: Regs, x: seq<Word>) returns (r': Regs)
    requires |x| == 16
    ensures r' == RfcSteps(32, 48, r, x)
  {
    hide Step, RfcUpdate, Mix, F, G, H, H2, I;
    var a, b, c, d := r.a, r.b, r.c, r.d;
    ghost var last := r;
    a := Step(H(b, c, d), a, b, x[5], 0xfffa3942, 4);
    d := Step(H2(a, b, c), d, a, x[8], 0x8771f681, 11);
    c := Step(H(d, a, b), c, d, x[11], 0x6d9d6122, 16);
    b := Step(H2(c, d, a), b, c, x[14], 0xfde5380c, 23);
    Row(32, 32, r, x, last, Regs(a, b, c, d));
    last := Regs(a, b, c, d);
    a := Step(H(b, c, d), a, b, x[1], 0xa4beea44, 4);
    d := Step(H2(a, b, c), d, a, x[4], 0x4bdecfa9, 11);
    c := Step(H(d, a, b), c, d, x[7], 0xf6bb4b60, 16);
    b := Step(H2(c, d, a), b, c, x[10], 0xbebfbc70, 23);
    Row(36, 32, r, x, last, Regs(a, b, c, d));
    last := Regs(a, b, c, d);
    a := Step(H(b, c, d), a, b, x[13], 0x289b7ec6, 4);
    d := Step(H2(a, b, c), d, a, x[0], 0xeaa127fa, 11);
    c := Step(H(d, a, b), c, d, x[3], 0xd4ef3085, 16);
    b := Step(H2(c, d, a), b, c, x[6], 0x04881d05, 23);
    Row(40, 32, r, x, last, Regs(a, b, c, d));
    last := Regs(a, b, c, d);
    a := Step(H(b, c, d), a, b, x[9], 0xd9d4d039, 4);
    d := Step(H2(a, b, c), d, a, x[12], 0xe6db99e5, 11);
    c := Step(H(d, a, b), c, d, x[15], 0x1fa27cf8, 16);
    b := Step(H2(c, d, a), b, c, x[2], 0xc4ac5665, 23);
    Row(44, 32, r, x, last, Regs(a, b, c, d));
    r' := Regs(a, b, c, d);
  }

  method Round4(r: Regs, x: seq<Word>) returns (r': Regs)
    requires |x| == 16
    ensures r' == RfcSteps(48, 64, r, x)
  {
    hide Step, RfcUpdate, Mix, F, G, H, H2, I;
    var a, b, c, d := r.a, r.b, r.c, r.d;
    ghost var last := r;
    a := Step(I(b, c, d), a, b, x[0], 0xf4292244, 6);
    d := Step(I(a, b, c), d, a, x[7], 0x432aff97, 10);
    c := Step(I(d, a, b), c, d, x[14], 0xab9423a7, 15);
    b := Step(I(c, d, a), b, c, x[5], 0xfc93a039, 21);
    Row(48, 48, r, x, last, Regs(a, b, c, d));
    last := Regs(a, b, c, d);
    a := Step(I(b, c, d), a, b, x[12], 0x655b59c3, 6);
    d := Step(I(a, b, c), d, a, x[3], 0x8f0ccc92, 10);
    c := Step(I(d, a, b), c, d, x[10], 0xffeff47d, 15);
    b := Step(I(c, d, a), b, c, x[1], 0x85845dd1, 21);
    Row(52, 48, r, x, last, Regs(a, b, c, d));
    last := Regs(a, b, c, d);
    a := Step(I(b, c, d), a, b, x[8], 0x6fa87e4f, 6);
    d := Step(I(a, b, c), d, a, x[15], 0xfe2ce6e0, 10);
    c := Step(I(d, a, b), c, d, x[6], 0xa3014314, 15);
    b := Step(I(c, d, a), b, c, x[13], 0x4e0811a1, 21);
    Row(56, 48, r, x, last, Regs(a, b, c, d));
    last := Regs(a, b, c, d);
    a := Step(I(b, c, d), a, b, x[4], 0xf7537e82, 6);
    d := Step(I(a, b, c), d, a, x[11], 0xbd3af235, 10);
    c := Step(I(d, a, b), c, d, x[2], 0x2ad7d2bb, 15);
    b := Step(I(c, d, a), b, c, x[9], 0xeb86d391, 21);
    Row(60, 48, r, x, last, Regs(a, b, c, d));
    r' := Regs(a, b, c, d);
  }
}
