/** What the emitted code computes, on the byte-level machine of `Machine`.

    Each lemma runs the code a specification function of `Assembler` selects
    and states the register contents it leaves, lane by lane. */
module Lanes {
  import opened Outcome
  import opened Locations
  import opened Machine
  import opened History
  import opened Assembler

  /* ---------------------------------------------------------------------
     Running short code sequences
     --------------------------------------------------------------------- */

  lemma RunCons(m: Machine, i: Instr, rest: seq<Instr>)
    requires Valid(m) && Step(m, i).Some?
    ensures Run(m, [i] + rest) == Run(Step(m, i).value, rest)
  {
    assert ([i] + rest)[1..] == rest;
  }

  lemma RunOne(m: Machine, i: Instr)
    requires Valid(m)
    ensures Run(m, [i]) == Step(m, i)
  {
    assert [i][1..] == [];
  }

  /* ---------------------------------------------------------------------
     Byte facts
     --------------------------------------------------------------------- */

  lemma XorSelf(x: Bytes)
    ensures Xor(x, x) == Zeros(|x|)
  {
    assert forall j :: 0 <= j < |x| ==> Xor(x, x)[j] == 0;
  }

  lemma AndOnes(x: Bytes)
    ensures And(x, Ones(|x|)) == x
  {
    assert forall j :: 0 <= j < |x| ==> And(x, Ones(|x|))[j] == x[j];
  }

  /** Comparing a register with itself sets every lane. */
  lemma {:induction false} CmpEqSelf(x: Bytes, size: nat, n: nat)
    requires n * size <= |x|
    ensures MapLanes(CmpEq, x, x, size, n) == Ones(n * size)
  {
    if n > 0 {
      MulStep(n - 1, n, size);
      CmpEqSelf(x, size, n - 1);
      assert (n - 1) * size + size == n * size;
      assert MapLanes(CmpEq, x, x, size, n) == Ones((n - 1) * size) + Ones(size);
    }
  }

  /* ---------------------------------------------------------------------
     Guards
     --------------------------------------------------------------------- */

  /** `PXOR t, t` zeroes the scratch register. */
  lemma ScratchZero(m: Machine)
    requires Valid(m)
    ensures Step(m, Op(PXOR, XmmScratch, XmmScratch)) == Some(SetXmm(m, 15, Zeros(16)))
  {
    XorSelf(m.xmm[15]);
  }

  /** `PCMPEQQ t, t` fills the scratch register with ones. */
  lemma ScratchOnes(m: Machine)
    requires Valid(m)
    ensures Step(m, Op(PCMPEQQ, XmmScratch, XmmScratch)) == Some(SetXmm(m, 15, Ones(16)))
  {
    CmpEqSelf(m.xmm[15], 8, 2);
  }

  /** A register whose bytes from `used` on are replaced by 0xFF. */
  function Blended(a: Bytes, used: nat): (b: Bytes)
    requires |a| == 16
    ensures |b| == 16
  {
    seq(16, j requires 0 <= j < 16 => if j < used then a[j] else 0xFF)
  }

  lemma BlendedFull(a: Bytes)
    requires |a| == 16
    ensures Blended(a, 16) == a
  {
  }

  /** The bytes of a vector of `used` bytes that the word-granular blend
      keeps: all of them when `used` is even, all but the last otherwise. */
  function WordBytes(used: nat): (w: nat)
    ensures w <= used && (used % 2 == 0 ==> w == used)
  {
    used / 2 * 2
  }

  /** The blend of `_guard_vector_true` fills the bytes past the whole
      16-bit words of the vector with ones. */
  lemma BlendStep(m: Machine, n: nat, used: nat)
    requires Valid(m) && n < 15 && used <= 16 && m.xmm[15] == Ones(16)
    ensures Step(m, OpImm(PBLENDW, Reg(n, true), XmmScratch, BlendMask(used * 8) as int))
            == Some(SetXmm(m, n, Blended(m.xmm[n], WordBytes(used))))
  {
    var mask := BlendMask(used * 8);
    assert (mask as int) as bv8 == mask;
    var r := seq(16, j requires 0 <= j < 16 => if Bit(mask, j / 2) then m.xmm[15][j] else m.xmm[n][j]);
    assert XmmImmResult(PBLENDW, m.xmm[n], m.xmm[15], mask) == Some(r);
    BlendedBySelect(m.xmm[n], m.xmm[15], used);
    assert ExtractWidth(PBLENDW) == 0 && InsertWidth(PBLENDW) == 0;
    assert StepOpImm(m, PBLENDW, Reg(n, true), XmmScratch, mask as int) == Some(SetXmm(m, n, r));
  }

  /** Selecting the words past `used` bytes from a register of ones. */
  lemma BlendedBySelect(a: Bytes, t: Bytes, used: nat)
    requires |a| == 16 && t == Ones(16) && used <= 16
    ensures var mask := BlendMask(used * 8);
            seq(16, j requires 0 <= j < 16 => if Bit(mask, j / 2) then t[j] else a[j]) == Blended(a, WordBytes(used))
  {
    var mask := BlendMask(used * 8);
    var r := seq(16, j requires 0 <= j < 16 => if Bit(mask, j / 2) then t[j] else a[j]);
    forall j | 0 <= j < 16
      ensures r[j] == Blended(a, WordBytes(used))[j]
    {
      assert Bit(mask, j / 2) <==> used * 8 / 16 <= j / 2;
      assert used * 8 / 16 == used / 2;
    }
  }

  /** `PCMPEQ` against the zeroed scratch register marks the zero lanes. */
  lemma CompareZeroStep(m: Machine, n: nat, size: int)
    requires Valid(m) && n < 15 && size in {1, 2, 4, 8} && m.xmm[15] == Zeros(16)
    ensures 16 / size * size <= 16
    ensures Step(m, Op(PCMPEQ(size), Reg(n, true), XmmScratch))
            == Some(SetXmm(m, n, MapLanes(CmpEq, m.xmm[n], Zeros(16), size, 16 / size)))
  {
    assert XmmResult(PCMPEQ(size), m.xmm[n], m.xmm[15]) == Packed(CmpEq, m.xmm[n], Zeros(16), size);
    StepXmm(m, PCMPEQ(size), n, 15);
    if size == 1 {
      assert Packed(CmpEq, m.xmm[n], Zeros(16), size) == Some(MapLanes(CmpEq, m.xmm[n], Zeros(16), 1, 16));
    } else if size == 2 {
      assert Packed(CmpEq, m.xmm[n], Zeros(16), size) == Some(MapLanes(CmpEq, m.xmm[n], Zeros(16), 2, 8));
    } else if size == 4 {
      assert Packed(CmpEq, m.xmm[n], Zeros(16), size) == Some(MapLanes(CmpEq, m.xmm[n], Zeros(16), 4, 4));
    } else {
      assert Packed(CmpEq, m.xmm[n], Zeros(16), size) == Some(MapLanes(CmpEq, m.xmm[n], Zeros(16), 8, 2));
    }
  }

  /** `PTEST r, t` with a scratch register of ones sets ZF exactly when `r` is zero. */
  lemma TestOnesStep(m: Machine, n: nat)
    requires Valid(m) && n < 15 && m.xmm[15] == Ones(16)
    ensures Step(m, Op(PTEST, Reg(n, true), XmmScratch)).Some?
    ensures Step(m, Op(PTEST, Reg(n, true), XmmScratch)).value.zf == AllZero(m.xmm[n])
  {
    AndOnes(m.xmm[n]);
  }

  /** The lanes past the vector are non-zero after the blend; the others are
      the vector's own. */
  lemma {:induction false} BlendedLanes(a: Bytes, size: nat, count: nat)
    requires |a| == 16 && size in {1, 2, 4, 8} && count * size <= 16
    ensures 16 / size * size <= 16
    ensures (forall k :: 0 <= k < 16 / size ==>
               (MulStep(k, 16 / size, size); Get(Blended(a, count * size), size, k) != Get(Zeros(16), size, k)))
            <==>
            (forall k :: 0 <= k < count ==> (MulStep(k, count, size); Get(a, size, k) != Zeros(size)))
  {
    var n := 16 / size;
    assert n * size == 16;
    if count > n {
      MulStep(n, count, size);
      assert false;
    }
    ZeroLanes(size, n);
    BlendedKept(a, size, count);
    BlendedFilled(a, size, count, n);
  }

  lemma ZeroLanes(size: nat, n: nat)
    requires n * size == 16
    ensures forall k :: 0 <= k < n ==> (MulStep(k, n, size); Get(Zeros(16), size, k) == Zeros(size))
  {
    forall k | 0 <= k < n
      ensures (MulStep(k, n, size); Get(Zeros(16), size, k) == Zeros(size))
    {
      MulStep(k, n, size);
    }
  }

  lemma BlendedKept(a: Bytes, size: nat, count: nat)
    requires |a| == 16 && count * size <= 16
    ensures forall k :: 0 <= k < count ==>
              (MulStep(k, count, size); Get(Blended(a, count * size), size, k) == Get(a, size, k))
  {
    forall k | 0 <= k < count
      ensures (MulStep(k, count, size); Get(Blended(a, count * size), size, k) == Get(a, size, k))
    {
      MulStep(k, count, size);
    }
  }

  lemma BlendedFilled(a: Bytes, size: nat, count: nat, n: nat)
    requires |a| == 16 && size > 0 && n * size == 16 && count <= n
    ensures forall k :: count <= k < n ==>
              (MulStep(k, n, size); Get(Blended(a, count * size), size, k) != Zeros(size))
  {
    forall k | count <= k < n
      ensures (MulStep(k, n, size); Get(Blended(a, count * size), size, k) != Zeros(size))
    {
      if count < k { MulStep(count, k, size); }
      MulStep(k, n, size);
      assert Get(Blended(a, count * size), size, k)[0] == 0xFF;
    }
  }

  /** The code of `_guard_vector_true` up to the comparison: the scratch
      register ends zeroed and the vector register blended. */
  function GuardPrefix(arg: Box, loc: Loc): seq<Instr>
    requires arg.BoxVector?
  {
    [Op(PXOR, XmmScratch, XmmScratch)]
    + (if FullyPacked(arg, VectorRegisterSize) then []
       else [Op(PCMPEQQ, XmmScratch, XmmScratch),
             OpImm(PBLENDW, AsReg(loc, true), XmmScratch, BlendMask(arg.itemCount * arg.itemSize * 8) as int),
             Op(PXOR, XmmScratch, XmmScratch)])
  }

  lemma GuardPrefixRun(m: Machine, arg: Box, n: nat)
    requires Valid(m) && n < 15
    requires arg.BoxVector? && arg.itemCount * arg.itemSize <= 16
    ensures Run(m, GuardPrefix(arg, Reg(n, true)))
            == Some(SetXmm(SetXmm(m, n, Blended(m.xmm[n], WordBytes(arg.itemCount * arg.itemSize))), 15, Zeros(16)))
  {
    var used := arg.itemCount * arg.itemSize;
    assert FullyPacked(arg, VectorRegisterSize) <==> used == 16 by {
      assert arg.itemSize * arg.itemCount == used;
    }
    assert GuardPrefix(arg, Reg(n, true)) == [Op(PXOR, XmmScratch, XmmScratch)] + BlendCode(n, used);
    BlendCodeRun(m, n, used);
  }

  /** The part of `GuardPrefix` after zeroing the scratch register, for a
      vector of `used` bytes. */
  function BlendCode(n: nat, used: nat): seq<Instr>
  {
    if used == 16 then []
    else [Op(PCMPEQQ, XmmScratch, XmmScratch),
          OpImm(PBLENDW, Reg(n, true), XmmScratch, BlendMask(used * 8) as int),
          Op(PXOR, XmmScratch, XmmScratch)]
  }

  lemma BlendCodeRun(m: Machine, n: nat, used: nat)
    requires Valid(m) && n < 15 && used <= 16
    ensures Run(m, [Op(PXOR, XmmScratch, XmmScratch)] + BlendCode(n, used))
            == Some(SetXmm(SetXmm(m, n, Blended(m.xmm[n], WordBytes(used))), 15, Zeros(16)))
  {
    var first := Op(PXOR, XmmScratch, XmmScratch);
    ScratchZero(m);
    RunCons(m, first, BlendCode(n, used));
    assert ([first] + BlendCode(n, used))[0] == first && ([first] + BlendCode(n, used))[1..] == BlendCode(n, used);
    if used == 16 {
      FullBlendState(m, n);
    } else {
      PartBlendState(m, n, used);
    }
  }

  /** A full vector is not blended: zeroing the scratch register is all. */
  lemma FullBlendState(m: Machine, n: nat)
    requires Valid(m) && n < 15
    ensures Run(SetXmm(m, 15, Zeros(16)), []) == Some(SetXmm(SetXmm(m, n, Blended(m.xmm[n], 16)), 15, Zeros(16)))
  {
    BlendedFull(m.xmm[n]);
    assert m.xmm[n := m.xmm[n]] == m.xmm;
  }

  lemma PartBlendState(m: Machine, n: nat, used: nat)
    requires Valid(m) && n < 15 && used < 16
    ensures Run(SetXmm(m, 15, Zeros(16)), BlendCode(n, used))
            == Some(SetXmm(SetXmm(m, n, Blended(m.xmm[n], WordBytes(used))), 15, Zeros(16)))
  {
    var m1 := SetXmm(m, 15, Zeros(16));
    assert m1.xmm[n] == m.xmm[n];
    GuardBlendRun(m1, n, used);
    ScratchSetTwice(m, n, Blended(m.xmm[n], WordBytes(used)), Zeros(16), Zeros(16));
  }

  /** Setting the scratch register before and after setting register `n`
      is setting it once, after. */
  lemma ScratchSetTwice(m: Machine, n: nat, b: Bytes, y: Bytes, z: Bytes)
    requires Valid(m) && n < 15 && |b| == 16 && |y| == 16 && |z| == 16
    ensures SetXmm(SetXmm(SetXmm(m, 15, y), n, b), 15, z) == SetXmm(SetXmm(m, n, b), 15, z)
  {
    assert m.xmm[15 := y][n := b][15 := z] == m.xmm[n := b][15 := z];
  }

  /** The blend of a vector that does not fill its register, which leaves
      the scratch register zeroed again. */
  lemma GuardBlendRun(m: Machine, n: nat, used: nat)
    requires Valid(m) && n < 15 && used <= 16
    ensures Run(m, [Op(PCMPEQQ, XmmScratch, XmmScratch),
                    OpImm(PBLENDW, Reg(n, true), XmmScratch, BlendMask(used * 8) as int),
                    Op(PXOR, XmmScratch, XmmScratch)])
            == Some(SetXmm(SetXmm(m, n, Blended(m.xmm[n], WordBytes(used))), 15, Zeros(16)))
  {
    var code := [Op(PCMPEQQ, XmmScratch, XmmScratch),
                 OpImm(PBLENDW, Reg(n, true), XmmScratch, BlendMask(used * 8) as int),
                 Op(PXOR, XmmScratch, XmmScratch)];
    ScratchOnes(m);
    var m2 := SetXmm(m, 15, Ones(16));
    assert m2.xmm[n] == m.xmm[n];
    BlendStep(m2, n, used);
    var m3 := SetXmm(m2, n, Blended(m.xmm[n], WordBytes(used)));
    ScratchZero(m3);
    ScratchSetTwice(m, n, Blended(m.xmm[n], WordBytes(used)), Ones(16), Zeros(16));
    RunCons(m, code[0], code[1..]);
    RunCons(m2, code[1], code[2..]);
    RunOne(m3, code[2]);
  }

  /** The comparison and the test: ZF is set exactly when no lane of the
      register is zero.  The register is left holding the comparison mask
      and the scratch register all ones. */
  lemma GuardTailRun(m: Machine, n: nat, size: int)
    requires Valid(m) && n < 15 && size in {1, 2, 4, 8} && m.xmm[15] == Zeros(16)
    ensures 16 / size * size <= 16
    ensures var tail := [Op(PCMPEQ(size), Reg(n, true), XmmScratch), Op(PCMPEQQ, XmmScratch, XmmScratch),
                         Op(PTEST, Reg(n, true), XmmScratch)];
            var c := MapLanes(CmpEq, m.xmm[n], Zeros(16), size, 16 / size);
            && Run(m, tail).Some?
            && Run(m, tail).value.zf == AllZero(c)
            && Run(m, tail).value.xmm == SetXmm(SetXmm(m, n, c), 15, Ones(16)).xmm
            && Run(m, tail).value.gpr == m.gpr
  {
    CompareZeroStep(m, n, size);
    TestAfterStep(m, n, Op(PCMPEQ(size), Reg(n, true), XmmScratch), MapLanes(CmpEq, m.xmm[n], Zeros(16), size, 16 / size));
  }

  /** An instruction that sets register `n` to `c`, followed by filling the
      scratch register with ones and testing: ZF says whether `c` is zero. */
  lemma TestAfterStep(m: Machine, n: nat, i0: Instr, c: Bytes)
    requires Valid(m) && n < 15 && |c| == 16 && Step(m, i0) == Some(SetXmm(m, n, c))
    ensures var tail := [i0, Op(PCMPEQQ, XmmScratch, XmmScratch), Op(PTEST, Reg(n, true), XmmScratch)];
            && Run(m, tail).Some? && Run(m, tail).value.zf == AllZero(c)
            && Run(m, tail).value.xmm == SetXmm(SetXmm(m, n, c), 15, Ones(16)).xmm
            && Run(m, tail).value.gpr == m.gpr
  {
    var i1, i2 := Op(PCMPEQQ, XmmScratch, XmmScratch), Op(PTEST, Reg(n, true), XmmScratch);
    var m5 := SetXmm(m, n, c);
    ScratchOnes(m5);
    var m6 := SetXmm(m5, 15, Ones(16));
    assert m6.xmm[n] == c;
    TestOnesStep(m6, n);
    RunOne(m6, i2);
    RunCons(m5, i1, [i2]);
    assert [i1] + [i2] == [i1, i2];
    RunCons(m, i0, [i1, i2]);
    assert [i0] + [i1, i2] == [i0, i1, i2];
  }

  /** Every general register and every xmm register but `n` and the scratch
      register are as they were. */
  predicate GuardFrame(m: Machine, m': Machine, n: nat)
  {
    && Valid(m) && Valid(m')
    && m'.gpr == m.gpr
    && forall j :: 0 <= j < 16 && j != n && j != 15 ==> m'.xmm[j] == m.xmm[j]
  }

  /** `_guard_vector_true` as emitted, for any vector that fits the register:
      ZF is set exactly when no lane of the register is zero once the bytes
      past the vector's whole 16-bit words are filled with ones.  The tested
      register is overwritten with the comparison mask, the scratch register
      is left all ones, and nothing else changes. */
  lemma GuardVectorTrueRun(m: Machine, arg: Box, n: nat)
    requires Valid(m) && n < 15
    requires arg.BoxVector? && arg.itemSize in {1, 2, 4, 8} && arg.itemCount * arg.itemSize <= 16
    ensures 16 / arg.itemSize * arg.itemSize <= 16
    ensures var b := Blended(m.xmm[n], WordBytes(arg.itemCount * arg.itemSize));
            var c := MapLanes(CmpEq, b, Zeros(16), arg.itemSize, 16 / arg.itemSize);
            var r := Run(m, GuardCode(arg, Reg(n, true)));
            && r.Some? && GuardFrame(m, r.value, n)
            && r.value.xmm[n] == c && r.value.xmm[15] == Ones(16)
            && r.value.zf == AllZero(c)
  {
    var size, count := arg.itemSize, arg.itemCount;
    var loc := Reg(n, true);
    var b := Blended(m.xmm[n], WordBytes(count * size));
    var tail := GuardTail(size, n);
    GuardCodeSplit(arg, n);
    GuardPrefixRun(m, arg, n);
    var m4 := SetXmm(SetXmm(m, n, b), 15, Zeros(16));
    assert m4.xmm[n] == b;
    GuardTailRun(m4, n, size);
    RunAppend(m, GuardPrefix(arg, loc), tail);
    var c := MapLanes(CmpEq, b, Zeros(16), size, 16 / size);
    GuardStateFrame(m, n, b, c, Run(m4, tail).value);
  }

  /** The comparison, the refill of the scratch register and the test. */
  function GuardTail(size: int, n: nat): seq<Instr>
  {
    [Op(PCMPEQ(size), Reg(n, true), XmmScratch), Op(PCMPEQQ, XmmScratch, XmmScratch), Op(PTEST, Reg(n, true), XmmScratch)]
  }

  lemma GuardCodeSplit(arg: Box, n: nat)
    requires arg.BoxVector?
    ensures GuardCode(arg, Reg(n, true)) == GuardPrefix(arg, Reg(n, true)) + GuardTail(arg.itemSize, n)
  {
  }

  /** Register `n` set to `b`, the scratch register zeroed, `n` set to `c`
      and the scratch register filled with ones changes only those two. */
  lemma GuardStateFrame(m: Machine, n: nat, b: Bytes, c: Bytes, r: Machine)
    requires Valid(m) && Valid(r) && n < 15 && |b| == 16 && |c| == 16
    requires r.xmm == SetXmm(SetXmm(SetXmm(SetXmm(m, n, b), 15, Zeros(16)), n, c), 15, Ones(16)).xmm
    requires r.gpr == m.gpr
    ensures GuardFrame(m, r, n) && r.xmm[n] == c && r.xmm[15] == Ones(16)
  {
  }

  /** `_guard_vector_true` passes (ZF is set) exactly when no item of the
      vector is zero.  The vector register is any xmm register but the
      scratch one, and the vector covers a whole number of 16-bit words.
      The tested register is overwritten with the comparison mask (all ones
      in the lanes that were zero), the scratch register is left all ones,
      and no other register changes. */
  lemma GuardVectorTrueSound(m: Machine, arg: Box, n: nat)
    requires Valid(m) && n < 15
    requires arg.BoxVector? && arg.itemSize in {1, 2, 4, 8} && arg.itemCount * arg.itemSize <= 16
    requires (arg.itemCount * arg.itemSize) % 2 == 0
    ensures 16 / arg.itemSize * arg.itemSize <= 16
    ensures var r := Run(m, GuardCode(arg, Reg(n, true)));
            && r.Some? && GuardFrame(m, r.value, n)
            && r.value.xmm[n] == MapLanes(CmpEq, Blended(m.xmm[n], arg.itemCount * arg.itemSize), Zeros(16),
                                          arg.itemSize, 16 / arg.itemSize)
            && r.value.xmm[15] == Ones(16)
    ensures Run(m, GuardCode(arg, Reg(n, true))).value.zf <==>
            forall k :: 0 <= k < arg.itemCount ==>
              (MulStep(k, arg.itemCount, arg.itemSize); Get(m.xmm[n], arg.itemSize, k) != Zeros(arg.itemSize))
  {
    var size, count := arg.itemSize, arg.itemCount;
    var b := Blended(m.xmm[n], count * size);
    GuardVectorTrueRun(m, arg, n);
    CmpEqAllZero(b, Zeros(16), size, 16 / size);
    BlendedLanes(m.xmm[n], size, count);
  }

  /** With three one-byte items the blend mask starts at the second word, so
      the third item is overwritten with ones: a vector whose third item is
      zero passes the guard. */
  lemma GuardOddByteCount(m: Machine)
    requires Valid(m) && m.xmm[0] == [1, 1, 0] + Zeros(13)
    ensures Get(m.xmm[0], 1, 2) == Zeros(1)
    ensures var r := Run(m, GuardCode(BoxVector(0, INT, 1, 3, Plain), Reg(0, true)));
            r.Some? && r.value.zf
  {
    GuardVectorTrueRun(m, BoxVector(0, INT, 1, 3, Plain), 0);
    assert WordBytes(3) == 2;
    FirstWordKept(m.xmm[0]);
  }

  /** A register whose first two bytes are non-zero has no zero byte once
      the bytes from the second word on are filled with ones. */
  lemma FirstWordKept(a: Bytes)
    requires |a| == 16 && a[0] != 0 && a[1] != 0
    ensures AllZero(MapLanes(CmpEq, Blended(a, 2), Zeros(16), 1, 16))
  {
    var b := Blended(a, 2);
    CmpEqAllZero(b, Zeros(16), 1, 16);
    forall k | 0 <= k < 16
      ensures Get(b, 1, k) != Get(Zeros(16), 1, k)
    {
      assert Get(b, 1, k)[0] == b[k] != 0;
    }
  }

  /** The code of `GuardCodeCorrected` up to the comparison. */
  function CorrectedPrefix(arg: Box, n: nat): seq<Instr>
    requires arg.BoxVector?
  {
    var used := arg.itemCount * arg.itemSize;
    [Op(PXOR, XmmScratch, XmmScratch)]
    + (if FullyPacked(arg, VectorRegisterSize) then []
       else [Op(PCMPEQQ, XmmScratch, XmmScratch),
             OpImm(PBLENDW, Reg(n, true), XmmScratch, BlendMask((used + used % 2) * 8) as int),
             Op(PXOR, XmmScratch, XmmScratch)]
            + (if used % 2 == 1 then [Mov(Immed(255), Scratch), OpImm(PINSRB, Reg(n, true), Scratch, used)] else []))
  }

  lemma CorrectedCodeSplit(arg: Box, n: nat)
    requires arg.BoxVector?
    ensures GuardCodeCorrected(arg, Reg(n, true)) == CorrectedPrefix(arg, n) + GuardTail(arg.itemSize, n)
  {
  }

  /** After the blend: register `n` holds the vector with ones past its
      `used` bytes, the scratch register is zeroed, the other xmm registers
      are as they were and no general register but the scratch one changed. */
  predicate BlendDone(m: Machine, m': Machine, n: nat, used: nat)
    requires Valid(m) && n < 16
  {
    && Valid(m')
    && m'.xmm[n] == Blended(m.xmm[n], used) && m'.xmm[15] == Zeros(16)
    && (forall j :: 0 <= j < 16 && j != n && j != 15 ==> m'.xmm[j] == m.xmm[j])
    && (forall j :: 0 <= j < 16 && j != 11 ==> m'.gpr[j] == m.gpr[j])
  }

  /** The corrected blend fills exactly the bytes past the vector, for an
      even or an odd number of bytes. */
  lemma CorrectedPrefixRun(m: Machine, arg: Box, n: nat)
    requires Valid(m) && n < 15
    requires arg.BoxVector? && arg.itemCount * arg.itemSize <= 16
    ensures Run(m, CorrectedPrefix(arg, n)).Some?
    ensures BlendDone(m, Run(m, CorrectedPrefix(arg, n)).value, n, arg.itemCount * arg.itemSize)
  {
    var used := arg.itemCount * arg.itemSize;
    if used % 2 == 0 {
      assert CorrectedPrefix(arg, n) == GuardPrefix(arg, Reg(n, true));
      GuardPrefixRun(m, arg, n);
    } else {
      assert !FullyPacked(arg, VectorRegisterSize) by {
        assert arg.itemSize * arg.itemCount == used;
      }
      OddPrefixRun(m, n, used);
      assert CorrectedPrefix(arg, n) == OddPrefix(n, used);
    }
  }

  function OddPrefix(n: nat, used: nat): seq<Instr>
  {
    [Op(PXOR, XmmScratch, XmmScratch)]
    + ([Op(PCMPEQQ, XmmScratch, XmmScratch),
        OpImm(PBLENDW, Reg(n, true), XmmScratch, BlendMask((used + 1) * 8) as int),
        Op(PXOR, XmmScratch, XmmScratch)]
       + [Mov(Immed(255), Scratch), OpImm(PINSRB, Reg(n, true), Scratch, used)])
  }

  lemma OddPrefixRun(m: Machine, n: nat, used: nat)
    requires Valid(m) && n < 15 && used < 16 && used % 2 == 1
    ensures Run(m, OddPrefix(n, used)).Some? && BlendDone(m, Run(m, OddPrefix(n, used)).value, n, used)
  {
    var first := Op(PXOR, XmmScratch, XmmScratch);
    var blend := [Op(PCMPEQQ, XmmScratch, XmmScratch),
                  OpImm(PBLENDW, Reg(n, true), XmmScratch, BlendMask((used + 1) * 8) as int),
                  Op(PXOR, XmmScratch, XmmScratch)];
    var fill := [Mov(Immed(255), Scratch), OpImm(PINSRB, Reg(n, true), Scratch, used)];
    ScratchZero(m);
    var m1 := SetXmm(m, 15, Zeros(16));
    RunCons(m, first, blend + fill);
    var s1 := OddBlendRun(m1, n, used, blend, fill);
    OddFillRun(s1, n, used);
    OddBlendDone(m, s1, Run(s1, fill).value, n, used);
  }

  /** The blend of the corrected code, up to the word after the vector. */
  lemma OddBlendRun(m1: Machine, n: nat, used: nat, blend: seq<Instr>, fill: seq<Instr>) returns (s1: Machine)
    requires Valid(m1) && n < 15 && used < 16
    requires blend == [Op(PCMPEQQ, XmmScratch, XmmScratch),
                       OpImm(PBLENDW, Reg(n, true), XmmScratch, BlendMask((used + 1) * 8) as int),
                       Op(PXOR, XmmScratch, XmmScratch)]
    ensures Valid(s1) && Run(m1, blend + fill) == Run(s1, fill)
    ensures s1 == SetXmm(SetXmm(m1, n, Blended(m1.xmm[n], WordBytes(used + 1))), 15, Zeros(16))
  {
    GuardBlendRun(m1, n, used + 1);
    s1 := SetXmm(SetXmm(m1, n, Blended(m1.xmm[n], WordBytes(used + 1))), 15, Zeros(16));
    RunAppend(m1, blend, fill);
  }

  /** The state after the zeroing, the blend and the fill of the corrected code. */
  lemma OddBlendDone(m: Machine, s1: Machine, s2: Machine, n: nat, used: nat)
    requires Valid(m) && n < 15 && used < 16 && used % 2 == 1
    requires s1 == SetXmm(SetXmm(SetXmm(m, 15, Zeros(16)), n, Blended(m.xmm[n], WordBytes(used + 1))), 15, Zeros(16))
    requires Valid(s2) && s2.xmm == s1.xmm[n := Put(s1.xmm[n], 1, used, [0xFF])]
    requires forall j :: 0 <= j < 16 && j != 11 ==> s2.gpr[j] == s1.gpr[j]
    ensures BlendDone(m, s2, n, used)
  {
    assert WordBytes(used + 1) == used + 1;
    assert s1.xmm[n] == Blended(m.xmm[n], used + 1);
    BlendedFillLast(m.xmm[n], used);
  }

  /** Setting byte `used` to 0xFF after filling from `used + 1` on is filling
      from `used` on. */
  lemma BlendedFillLast(a: Bytes, used: nat)
    requires |a| == 16 && used < 16
    ensures Put(Blended(a, used + 1), 1, used, [0xFF]) == Blended(a, used)
  {
    var p := Put(Blended(a, used + 1), 1, used, [0xFF]);
    forall j | 0 <= j < 16
      ensures p[j] == Blended(a, used)[j]
    {
      if j < used {
        assert p[j] == Blended(a, used + 1)[j];
      } else if j > used {
        assert p[j] == Blended(a, used + 1)[j];
      }
    }
  }

  /** `MOV r11, 255` and `PINSRB x, r11, used` set byte `used` of `x` to 0xFF. */
  lemma OddFillRun(m: Machine, n: nat, used: nat)
    requires Valid(m) && n < 15 && used < 16
    ensures var r := Run(m, [Mov(Immed(255), Scratch), OpImm(PINSRB, Reg(n, true), Scratch, used)]);
            && r.Some? && r.value.xmm == m.xmm[n := Put(m.xmm[n], 1, used, [0xFF])]
            && (forall j :: 0 <= j < 16 && j != 11 ==> r.value.gpr[j] == m.gpr[j])
  {
    var mv := Mov(Immed(255), Scratch);
    var ins := OpImm(PINSRB, Reg(n, true), Scratch, used);
    Pow256Eight();
    SmallMod(255, Pow256(8));
    var g := FromNat(255, 8);
    assert g[..1] == [ByteOf(255)];
    assert ByteOf(255) == 0xFF;
    var m1 := SetGpr(m, 11, g);
    assert Step(m, mv) == Some(m1);
    InsertStep(m1, n, 11, used, 1);
    RunCons(m, mv, [ins]);
    RunOne(m1, ins);
  }

  lemma Pow256Eight()
    ensures Pow256(8) == 0x1_0000_0000_0000_0000
  {
    assert Pow256(2) == 0x1_0000;
    assert Pow256(4) == 0x1_0000_0000;
    assert Pow256(6) == 0x1_0000_0000_0000;
  }

  /** The corrected guard passes exactly when no item of the vector is zero,
      for every number of items that fits the register; it writes the tested
      register, the xmm scratch register and the general scratch register
      and nothing else. */
  lemma GuardCorrectedSound(m: Machine, arg: Box, n: nat)
    requires Valid(m) && n < 15
    requires arg.BoxVector? && arg.itemSize in {1, 2, 4, 8} && arg.itemCount * arg.itemSize <= 16
    ensures var r := Run(m, GuardCodeCorrected(arg, Reg(n, true)));
            && r.Some?
            && (forall j :: 0 <= j < 16 && j != n && j != 15 ==> r.value.xmm[j] == m.xmm[j])
            && (forall j :: 0 <= j < 16 && j != 11 ==> r.value.gpr[j] == m.gpr[j])
    ensures Run(m, GuardCodeCorrected(arg, Reg(n, true))).value.zf <==>
            forall k :: 0 <= k < arg.itemCount ==>
              (MulStep(k, arg.itemCount, arg.itemSize); Get(m.xmm[n], arg.itemSize, k) != Zeros(arg.itemSize))
  {
    var size, count := arg.itemSize, arg.itemCount;
    var pre := CorrectedPrefix(arg, n);
    var tail := GuardTail(size, n);
    CorrectedCodeSplit(arg, n);
    CorrectedPrefixRun(m, arg, n);
    var m4 := Run(m, pre).value;
    GuardTailRun(m4, n, size);
    RunAppend(m, pre, tail);
    var b := Blended(m.xmm[n], count * size);
    CmpEqAllZero(b, Zeros(16), size, 16 / size);
    BlendedLanes(m.xmm[n], size, count);
  }

  /* ---------------------------------------------------------------------
     Machine-state frames
     --------------------------------------------------------------------- */

  /** `m'` differs from `m` at most in xmm register `x` and general register `g`. */
  predicate OnlyWrites(m: Machine, m': Machine, x: nat, g: nat)
  {
    && Valid(m) && Valid(m')
    && (forall j :: 0 <= j < 16 && j != x ==> m'.xmm[j] == m.xmm[j])
    && (forall j :: 0 <= j < 16 && j != g ==> m'.gpr[j] == m.gpr[j])
  }

  lemma OnlyWritesTrans(m: Machine, m1: Machine, m2: Machine, x: nat, g: nat)
    requires OnlyWrites(m, m1, x, g) && OnlyWrites(m1, m2, x, g)
    ensures OnlyWrites(m, m2, x, g)
  {
  }

  /** The number of lanes of width `size` in an xmm register. */
  function LaneCount(size: int): (n: nat)
    requires size in {1, 2, 4, 8}
    ensures n * size == 16
  {
    if size == 1 then 16 else if size == 2 then 8 else if size == 4 then 4 else 2
  }

  /* ---------------------------------------------------------------------
     Packing integer lanes
     --------------------------------------------------------------------- */

  /** `PEXTRB/W/D/Q g, x, k` zero-extends lane `k` of `x` into `g`. */
  lemma ExtractStep(m: Machine, g: nat, x: nat, k: nat, size: int)
    requires Valid(m) && g < 16 && x < 16 && size in {1, 2, 4, 8} && k < LaneCount(size)
    ensures k * size + size <= 16
    ensures Step(m, OpImm(ExtractFor(size), Reg(g, false), Reg(x, true), k))
            == Some(SetGpr(m, g, Get(m.xmm[x], size, k) + Zeros(8 - size)))
  {
    MulStep(k, LaneCount(size), size);
    assert ExtractWidth(ExtractFor(size)) == size;
    DivModUnique(k, LaneCount(size), 0, k);
  }

  /** `PINSRB/W/D/Q x, g, k` puts the low bytes of `g` into lane `k` of `x`. */
  lemma InsertStep(m: Machine, x: nat, g: nat, k: nat, size: int)
    requires Valid(m) && g < 16 && x < 16 && size in {1, 2, 4, 8} && k < LaneCount(size)
    ensures k * size + size <= 16
    ensures Step(m, OpImm(InsertFor(size), Reg(x, true), Reg(g, false), k))
            == Some(SetXmm(m, x, Put(m.xmm[x], size, k, m.gpr[g][..size])))
  {
    MulStep(k, LaneCount(size), size);
    assert ExtractWidth(InsertFor(size)) == 0 && InsertWidth(InsertFor(size)) == size;
    DivModUnique(k, LaneCount(size), 0, k);
  }

  /** The extract/insert pair of `genop_vec_int_pack` copies one lane between
      xmm registers through the general scratch register. */
  lemma LaneCopyXmmRun(m: Machine, res: nat, src: nat, si: nat, ri: nat, size: int)
    requires Valid(m) && res < 16 && src < 16 && size in {1, 2, 4, 8}
    requires si < LaneCount(size) && ri < LaneCount(size)
    ensures si * size + size <= 16 && ri * size + size <= 16
    ensures Run(m, LaneCopy(Reg(res, true), Reg(src, true), si, ri, size))
            == Some(SetXmm(SetGpr(m, 11, Get(m.xmm[src], size, si) + Zeros(8 - size)),
                           res, Put(m.xmm[res], size, ri, Get(m.xmm[src], size, si))))
  {
    var v := Get(m.xmm[src], size, si);
    var m1 := SetGpr(m, 11, v + Zeros(8 - size));
    var code := LaneCopy(Reg(res, true), Reg(src, true), si, ri, size);
    assert code == [OpImm(ExtractFor(size), Scratch, Reg(src, true), si), OpImm(InsertFor(size), Reg(res, true), Scratch, ri)];
    ExtractStep(m, 11, src, si, size);
    InsertStep(m1, res, 11, ri, size);
    assert m1.gpr[11][..size] == v;
    RunCons(m, code[0], code[1..]);
    RunOne(m1, code[1]);
  }

  /** Lanes `ri` .. `ri + k - 1` of `out` are lanes `si` .. of `a`, and its
      other lanes are those of `r`. */
  predicate LanesCopied(out: Bytes, r: Bytes, a: Bytes, size: int, si: nat, ri: nat, k: nat)
    requires size in {1, 2, 4, 8} && |out| == 16 && |r| == 16 && |a| == 16
    requires si + k <= LaneCount(size) && ri + k <= LaneCount(size)
  {
    forall l {:trigger Get(out, size, l)} :: 0 <= l < LaneCount(size) ==>
      (MulStep(l, LaneCount(size), size);
       Get(out, size, l)
       == if ri <= l < ri + k then (MulStep(si + (l - ri), LaneCount(size), size); Get(a, size, si + (l - ri)))
          else Get(r, size, l))
  }

  lemma NothingCopied(r: Bytes, a: Bytes, size: int, si: nat, ri: nat)
    requires size in {1, 2, 4, 8} && |r| == 16 && |a| == 16
    requires si <= LaneCount(size) && ri <= LaneCount(size)
    ensures LanesCopied(r, r, a, size, si, ri, 0)
  {
  }

  /** One lane copied in front of `k - 1` more. */
  lemma LanesCopiedStep(out: Bytes, r: Bytes, a: Bytes, a1: Bytes, within: bool, size: int, si: nat, ri: nat, k: nat)
    requires size in {1, 2, 4, 8} && |out| == 16 && |r| == 16 && |a| == 16
    requires 0 < k && si + k <= LaneCount(size) && ri + k <= LaneCount(size)
    requires ri * size + size <= 16 && si * size + size <= 16
    requires if within then a == r && ri <= si && a1 == Put(r, size, ri, Get(a, size, si)) else a1 == a
    requires |a1| == 16
    requires LanesCopied(out, Put(r, size, ri, Get(a, size, si)), a1, size, si + 1, ri + 1, k - 1)
    ensures LanesCopied(out, r, a, size, si, ri, k)
  {
    forall l | 0 <= l < LaneCount(size)
      ensures (MulStep(l, LaneCount(size), size);
               Get(out, size, l)
               == if ri <= l < ri + k then (MulStep(si + (l - ri), LaneCount(size), size); Get(a, size, si + (l - ri)))
                  else Get(r, size, l))
    {
      LaneCopiedAt(out, r, a, a1, within, size, si, ri, k, l);
    }
  }

  lemma LaneCopiedAt(out: Bytes, r: Bytes, a: Bytes, a1: Bytes, within: bool, size: int, si: nat, ri: nat, k: nat, l: nat)
    requires size in {1, 2, 4, 8} && |out| == 16 && |r| == 16 && |a| == 16
    requires 0 < k && si + k <= LaneCount(size) && ri + k <= LaneCount(size)
    requires ri * size + size <= 16 && si * size + size <= 16
    requires if within then a == r && ri <= si && a1 == Put(r, size, ri, Get(a, size, si)) else a1 == a
    requires |a1| == 16
    requires LanesCopied(out, Put(r, size, ri, Get(a, size, si)), a1, size, si + 1, ri + 1, k - 1)
    requires l < LaneCount(size)
    ensures (MulStep(l, LaneCount(size), size);
             Get(out, size, l)
             == if ri <= l < ri + k then (MulStep(si + (l - ri), LaneCount(size), size); Get(a, size, si + (l - ri)))
                else Get(r, size, l))
  {
    var n := LaneCount(size);
    var v := Get(a, size, si);
    MulStep(l, n, size);
    if ri + 1 <= l < ri + k {
      var sl := si + 1 + (l - (ri + 1));
      MulStep(sl, n, size);
      assert Get(out, size, l) == Get(a1, size, sl);
      if within {
        GetPutOther(r, size, ri, sl, v);
      }
    } else if l == ri {
      assert Get(out, size, l) == Get(Put(r, size, ri, v), size, l);
      GetPutSame(r, size, ri, v);
    } else {
      assert Get(out, size, l) == Get(Put(r, size, ri, v), size, l);
      GetPutOther(r, size, ri, l, v);
    }
  }

  /** The result register after the pack loop copies from a separate register `a`. */
  function PackedFrom(r: Bytes, a: Bytes, size: int, si: nat, ri: nat, k: nat): (out: Bytes)
    requires size in {1, 2, 4, 8} && |r| == 16 && |a| == 16
    requires si + k <= LaneCount(size) && ri + k <= LaneCount(size)
    ensures |out| == 16
    decreases k
  {
    if k == 0 then r
    else
      MulStep(si, LaneCount(size), size);
      MulStep(ri, LaneCount(size), size);
      PackedFrom(Put(r, size, ri, Get(a, size, si)), a, size, si + 1, ri + 1, k - 1)
  }

  /** The register after the pack loop copies within it. */
  function PackedWithin(r: Bytes, size: int, si: nat, ri: nat, k: nat): (out: Bytes)
    requires size in {1, 2, 4, 8} && |r| == 16
    requires si + k <= LaneCount(size) && ri + k <= LaneCount(size)
    ensures |out| == 16
    decreases k
  {
    if k == 0 then r
    else
      MulStep(si, LaneCount(size), size);
      MulStep(ri, LaneCount(size), size);
      PackedWithin(Put(r, size, ri, Get(r, size, si)), size, si + 1, ri + 1, k - 1)
  }

  lemma {:induction false} PackedFromLanes(r: Bytes, a: Bytes, size: int, si: nat, ri: nat, k: nat)
    requires size in {1, 2, 4, 8} && |r| == 16 && |a| == 16
    requires si + k <= LaneCount(size) && ri + k <= LaneCount(size)
    ensures LanesCopied(PackedFrom(r, a, size, si, ri, k), r, a, size, si, ri, k)
    decreases k
  {
    if k == 0 {
      NothingCopied(r, a, size, si, ri);
    } else {
      MulStep(si, LaneCount(size), size);
      MulStep(ri, LaneCount(size), size);
      var r1 := Put(r, size, ri, Get(a, size, si));
      PackedFromLanes(r1, a, size, si + 1, ri + 1, k - 1);
      FromStep(PackedFrom(r1, a, size, si + 1, ri + 1, k - 1), r, r1, a, size, si, ri, k);
    }
  }

  /** Copying lane `si` of `a` to lane `ri` in front of the rest of a copy between registers. */
  lemma FromStep(out: Bytes, r: Bytes, r1: Bytes, a: Bytes, size: int, si: nat, ri: nat, k: nat)
    requires size in {1, 2, 4, 8} && |out| == 16 && |r| == 16 && |a| == 16
    requires 0 < k && si + k <= LaneCount(size) && ri + k <= LaneCount(size)
    requires ri * size + size <= 16 && si * size + size <= 16
    requires r1 == Put(r, size, ri, Get(a, size, si))
    requires LanesCopied(out, r1, a, size, si + 1, ri + 1, k - 1)
    ensures LanesCopied(out, r, a, size, si, ri, k)
  {
    LanesCopiedStep(out, r, a, a, false, size, si, ri, k);
  }

  lemma {:induction false} PackedWithinLanes(r: Bytes, size: int, si: nat, ri: nat, k: nat)
    requires size in {1, 2, 4, 8} && |r| == 16
    requires si + k <= LaneCount(size) && ri + k <= LaneCount(size) && ri <= si
    ensures LanesCopied(PackedWithin(r, size, si, ri, k), r, r, size, si, ri, k)
    decreases k
  {
    if k == 0 {
      NothingCopied(r, r, size, si, ri);
    } else {
      MulStep(si, LaneCount(size), size);
      MulStep(ri, LaneCount(size), size);
      var r1 := Put(r, size, ri, Get(r, size, si));
      PackedWithinLanes(r1, size, si + 1, ri + 1, k - 1);
      WithinStep(PackedWithin(r1, size, si + 1, ri + 1, k - 1), r, r1, size, si, ri, k);
    }
  }

  /** Copying lane `si` to lane `ri` in front of the rest of a copy within one register. */
  lemma WithinStep(out: Bytes, r: Bytes, r1: Bytes, size: int, si: nat, ri: nat, k: nat)
    requires size in {1, 2, 4, 8} && |out| == 16 && |r| == 16
    requires 0 < k && si + k <= LaneCount(size) && ri + k <= LaneCount(size) && ri <= si
    requires ri * size + size <= 16 && si * size + size <= 16
    requires r1 == Put(r, size, ri, Get(r, size, si))
    requires LanesCopied(out, r1, r1, size, si + 1, ri + 1, k - 1)
    ensures LanesCopied(out, r, r, size, si, ri, k)
  {
    LanesCopiedStep(out, r, r, r1, true, size, si, ri, k);
  }

  /** The machine after one copy of the pack loop, lane `si` of `src` to lane `ri` of `res`. */
  function CopyState(m: Machine, res: nat, src: nat, si: nat, ri: nat, size: int): (m': Machine)
    requires Valid(m) && res < 16 && src < 16 && size in {1, 2, 4, 8}
    requires si < LaneCount(size) && ri < LaneCount(size)
    ensures Valid(m')
  {
    MulStep(si, LaneCount(size), size);
    MulStep(ri, LaneCount(size), size);
    var v := Get(m.xmm[src], size, si);
    SetXmm(SetGpr(m, 11, v + Zeros(8 - size)), res, Put(m.xmm[res], size, ri, v))
  }

  /** The machine after the pack loop copies `k` lanes between xmm registers. */
  function PackState(m: Machine, res: nat, src: nat, si: nat, ri: nat, k: nat, size: int): (m': Machine)
    requires Valid(m) && res < 16 && src < 16 && size in {1, 2, 4, 8}
    requires si + k <= LaneCount(size) && ri + k <= LaneCount(size)
    ensures Valid(m')
    decreases k
  {
    if k == 0 then m
    else PackState(CopyState(m, res, src, si, ri, size), res, src, si + 1, ri + 1, k - 1, size)
  }

  /** The first copy of the pack loop. */
  lemma PackFirstRun(m: Machine, res: nat, src: nat, si: nat, ri: nat, k: nat, size: int)
    requires Valid(m) && res < 16 && src < 16 && size in {1, 2, 4, 8}
    requires 0 < k && si + k <= LaneCount(size) && ri + k <= LaneCount(size)
    ensures si * size + size <= 16 && ri * size + size <= 16
    ensures Run(m, PackLoop(Reg(res, true), Reg(src, true), si, ri, k, size))
            == Run(CopyState(m, res, src, si, ri, size), PackLoop(Reg(res, true), Reg(src, true), si + 1, ri + 1, k - 1, size))
  {
    var resL, srcL := Reg(res, true), Reg(src, true);
    LaneCopyXmmRun(m, res, src, si, ri, size);
    var rest := PackLoop(resL, srcL, si + 1, ri + 1, k - 1, size);
    assert PackLoop(resL, srcL, si, ri, k, size) == LaneCopy(resL, srcL, si, ri, size) + rest;
    RunAppend(m, LaneCopy(resL, srcL, si, ri, size), rest);
  }

  lemma PackLoopEmpty(m: Machine, res: nat, src: nat, si: nat, ri: nat, size: int)
    requires Valid(m) && res < 16 && src < 16 && size in {1, 2, 4, 8}
    requires si <= LaneCount(size) && ri <= LaneCount(size)
    ensures Run(m, PackLoop(Reg(res, true), Reg(src, true), si, ri, 0, size)) == Some(PackState(m, res, src, si, ri, 0, size))
  {
    var code := PackLoop(Reg(res, true), Reg(src, true), si, ri, 0, size);
    assert code == [];
  }

  lemma PackLoopStep(m: Machine, res: nat, src: nat, si: nat, ri: nat, k: nat, size: int)
    requires Valid(m) && res < 16 && src < 16 && size in {1, 2, 4, 8}
    requires 0 < k && si + k <= LaneCount(size) && ri + k <= LaneCount(size)
    ensures Run(m, PackLoop(Reg(res, true), Reg(src, true), si, ri, k, size)) == Some(PackState(m, res, src, si, ri, k, size))
    decreases k, 0
  {
    PackLoopRun(CopyState(m, res, src, si, ri, size), res, src, si + 1, ri + 1, k - 1, size);
    PackFirstRun(m, res, src, si, ri, k, size);
  }

  lemma {:induction false} PackLoopRun(m: Machine, res: nat, src: nat, si: nat, ri: nat, k: nat, size: int)
    requires Valid(m) && res < 16 && src < 16 && size in {1, 2, 4, 8}
    requires si + k <= LaneCount(size) && ri + k <= LaneCount(size)
    ensures Run(m, PackLoop(Reg(res, true), Reg(src, true), si, ri, k, size)) == Some(PackState(m, res, src, si, ri, k, size))
    decreases k, 1
  {
    if k == 0 {
      PackLoopEmpty(m, res, src, si, ri, size);
    } else {
      PackLoopStep(m, res, src, si, ri, k, size);
    }
  }

  lemma {:induction false} PackStateFrame(m: Machine, res: nat, src: nat, si: nat, ri: nat, k: nat, size: int)
    requires Valid(m) && res < 16 && src < 16 && size in {1, 2, 4, 8}
    requires si + k <= LaneCount(size) && ri + k <= LaneCount(size)
    ensures OnlyWrites(m, PackState(m, res, src, si, ri, k, size), res, 11)
    decreases k
  {
    if k > 0 {
      var m1 := CopyState(m, res, src, si, ri, size);
      PackStateFrame(m1, res, src, si + 1, ri + 1, k - 1, size);
      OnlyWritesTrans(m, m1, PackState(m1, res, src, si + 1, ri + 1, k - 1, size), res, 11);
    }
  }

  lemma {:induction false} PackStateResult(m: Machine, res: nat, src: nat, si: nat, ri: nat, k: nat, size: int)
    requires Valid(m) && res < 16 && src < 16 && size in {1, 2, 4, 8}
    requires si + k <= LaneCount(size) && ri + k <= LaneCount(size)
    ensures PackState(m, res, src, si, ri, k, size).xmm[res]
            == if res == src then PackedWithin(m.xmm[res], size, si, ri, k)
               else PackedFrom(m.xmm[res], m.xmm[src], size, si, ri, k)
    decreases k, 1
  {
    if k > 0 {
      PackStateResultStep(m, res, src, si, ri, k, size);
    }
  }

  lemma PackStateResultStep(m: Machine, res: nat, src: nat, si: nat, ri: nat, k: nat, size: int)
    requires Valid(m) && res < 16 && src < 16 && size in {1, 2, 4, 8}
    requires 0 < k && si + k <= LaneCount(size) && ri + k <= LaneCount(size)
    ensures PackState(m, res, src, si, ri, k, size).xmm[res]
            == if res == src then PackedWithin(m.xmm[res], size, si, ri, k)
               else PackedFrom(m.xmm[res], m.xmm[src], size, si, ri, k)
    decreases k, 0
  {
    MulStep(si, LaneCount(size), size);
    MulStep(ri, LaneCount(size), size);
    var m1 := CopyState(m, res, src, si, ri, size);
    var v := Get(m.xmm[src], size, si);
    assert m1.xmm[res] == Put(m.xmm[res], size, ri, v);
    assert PackState(m, res, src, si, ri, k, size) == PackState(m1, res, src, si + 1, ri + 1, k - 1, size);
    PackStateResult(m1, res, src, si + 1, ri + 1, k - 1, size);
    if res == src {
      assert PackedWithin(m.xmm[res], size, si, ri, k) == PackedWithin(m1.xmm[res], size, si + 1, ri + 1, k - 1);
    } else {
      assert m1.xmm[src] == m.xmm[src];
      assert PackedFrom(m.xmm[res], m.xmm[src], size, si, ri, k) == PackedFrom(m1.xmm[res], m.xmm[src], size, si + 1, ri + 1, k - 1);
    }
  }

  /** `genop_vec_int_pack` between xmm registers: the `k` lanes from `si` on
      of the source land in the lanes from `ri` on of the result, every other
      lane of the result is kept, and only the result and the general
      scratch register change.  Source and result are different registers,
      or the same one with the copy running downwards (`ri <= si`), as in an
      unpack in place. */
  lemma IntPackXmmSound(m: Machine, res: nat, src: nat, si: nat, ri: nat, k: nat, size: int)
    requires Valid(m) && res < 16 && src < 16 && size in {1, 2, 4, 8}
    requires si + k <= LaneCount(size) && ri + k <= LaneCount(size)
    requires res != src || ri <= si
    ensures var r := Run(m, PackLoop(Reg(res, true), Reg(src, true), si, ri, k, size));
            && r.Some? && OnlyWrites(m, r.value, res, 11)
            && LanesCopied(r.value.xmm[res], m.xmm[res], m.xmm[src], size, si, ri, k)
  {
    PackLoopRun(m, res, src, si, ri, k, size);
    PackStateFrame(m, res, src, si, ri, k, size);
    PackStateResult(m, res, src, si, ri, k, size);
    if res == src {
      PackedWithinLanes(m.xmm[res], size, si, ri, k);
    } else {
      PackedFromLanes(m.xmm[res], m.xmm[src], size, si, ri, k);
    }
  }
  /** `genop_vec_int_pack` of one item from a general register into an xmm
      register: item `ri` of the result becomes the low `size` bytes of the
      general register, every other item is kept, and nothing else changes. */
  lemma IntPackFromGprSound(m: Machine, res: nat, g: nat, si: int, ri: nat, size: int)
    requires Valid(m) && res < 16 && g < 16 && size in {1, 2, 4, 8} && ri < LaneCount(size)
    ensures ri * size + size <= 16
    ensures var r := Run(m, PackLoop(Reg(res, true), Reg(g, false), si, ri, 1, size));
            && r.Some? && OnlyWrites(m, r.value, res, 16)
            && r.value.xmm[res] == Put(m.xmm[res], size, ri, m.gpr[g][..size])
            && Get(r.value.xmm[res], size, ri) == m.gpr[g][..size]
            && forall l {:trigger Get(m.xmm[res], size, l)} :: 0 <= l < LaneCount(size) && l != ri ==>
                 (MulStep(l, LaneCount(size), size);
                  Get(r.value.xmm[res], size, l) == Get(m.xmm[res], size, l))
  {
    var code := PackLoop(Reg(res, true), Reg(g, false), si, ri, 1, size);
    assert code == [OpImm(InsertFor(size), Reg(res, true), Reg(g, false), ri)];
    InsertStep(m, res, g, ri, size);
    RunOne(m, code[0]);
    var out := Put(m.xmm[res], size, ri, m.gpr[g][..size]);
    GetPutSame(m.xmm[res], size, ri, m.gpr[g][..size]);
    forall l | 0 <= l < LaneCount(size) && l != ri
      ensures l * size + size <= 16 && Get(out, size, l) == Get(m.xmm[res], size, l)
    {
      MulStep(l, LaneCount(size), size);
      GetPutOther(m.xmm[res], size, ri, l, m.gpr[g][..size]);
    }
  }

  /** `genop_vec_int_pack` of one item from an xmm register into a general
      register: the register holds item `si`, zero-extended to eight bytes,
      and nothing else changes. */
  lemma IntUnpackToGprSound(m: Machine, g: nat, src: nat, si: nat, ri: int, size: int)
    requires Valid(m) && g < 16 && src < 16 && size in {1, 2, 4, 8} && si < LaneCount(size)
    ensures si * size + size <= 16
    ensures var r := Run(m, PackLoop(Reg(g, false), Reg(src, true), si, ri, 1, size));
            && r.Some? && OnlyWrites(m, r.value, 16, g)
            && r.value.gpr[g] == Get(m.xmm[src], size, si) + Zeros(8 - size)
  {
    var code := PackLoop(Reg(g, false), Reg(src, true), si, ri, 1, size);
    assert code == [OpImm(ExtractFor(size), Reg(g, false), Reg(src, true), si)];
    ExtractStep(m, g, src, si, size);
    RunOne(m, code[0]);
  }

  /** Two 16-byte registers whose items of one width all agree are equal. */
  lemma LanesEqual(x: Bytes, y: Bytes, size: int)
    requires |x| == 16 && |y| == 16 && size in {1, 2, 4, 8}
    requires forall l {:trigger Get(x, size, l)} :: 0 <= l < LaneCount(size) ==>
               (MulStep(l, LaneCount(size), size); Get(x, size, l) == Get(y, size, l))
    ensures x == y
  {
    forall j | 0 <= j < 16
      ensures x[j] == y[j]
    {
      var l := j / size;
      assert l * size <= j < l * size + size && l < LaneCount(size);
      MulStep(l, LaneCount(size), size);
      assert Get(x, size, l)[j - l * size] == x[j];
      assert Get(y, size, l)[j - l * size] == y[j];
    }
  }

  /** Copying items `si ..` of `a` to items `ri ..` and then back to where
      they came from gives `a` again. */
  lemma CopiedBack(a: Bytes, b: Bytes, b1: Bytes, a2: Bytes, size: int, si: nat, ri: nat, k: nat)
    requires size in {1, 2, 4, 8} && |a| == 16 && |b| == 16 && |b1| == 16 && |a2| == 16
    requires si + k <= LaneCount(size) && ri + k <= LaneCount(size)
    requires LanesCopied(b1, b, a, size, si, ri, k) && LanesCopied(a2, a, b1, size, ri, si, k)
    ensures a2 == a
  {
    forall l | 0 <= l < LaneCount(size)
      ensures l * size + size <= 16 && Get(a2, size, l) == Get(a, size, l)
    {
      MulStep(l, LaneCount(size), size);
      if si <= l < si + k {
        var l' := ri + (l - si);
        MulStep(l', LaneCount(size), size);
        assert Get(a2, size, l) == Get(b1, size, l');
        assert Get(b1, size, l') == Get(a, size, l);
      } else {
        assert Get(a2, size, l) == Get(a, size, l);
      }
    }
    LanesEqual(a2, a, size);
  }

  /** Packing `k` items of `s` into `d` and unpacking them back into `s` at
      the items they came from leaves `s` as it was and `d` with the packed
      items; only the general scratch register changes besides. */
  lemma PackUnpackRoundTrip(m: Machine, d: nat, s: nat, si: nat, ri: nat, k: nat, size: int)
    requires Valid(m) && d < 16 && s < 16 && d != s && size in {1, 2, 4, 8}
    requires si + k <= LaneCount(size) && ri + k <= LaneCount(size)
    ensures var pack := PackLoop(Reg(d, true), Reg(s, true), si, ri, k, size);
            var unpack := PackLoop(Reg(s, true), Reg(d, true), ri, si, k, size);
            var r := Run(m, pack + unpack);
            && r.Some? && OnlyWrites(m, r.value, d, 11)
            && r.value.xmm[s] == m.xmm[s]
            && LanesCopied(r.value.xmm[d], m.xmm[d], m.xmm[s], size, si, ri, k)
  {
    var pack := PackLoop(Reg(d, true), Reg(s, true), si, ri, k, size);
    var unpack := PackLoop(Reg(s, true), Reg(d, true), ri, si, k, size);
    IntPackXmmSound(m, d, s, si, ri, k, size);
    var m1 := Run(m, pack).value;
    IntPackXmmSound(m1, s, d, ri, si, k, size);
    var m2 := Run(m1, unpack).value;
    RunAppend(m, pack, unpack);
    CopiedBack(m.xmm[s], m.xmm[d], m1.xmm[d], m2.xmm[s], size, si, ri, k);
  }
}
