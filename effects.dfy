/** What the rest of the vector emitter's code does on the abstract machine:
    packed integer arithmetic, the item-size conversions, broadcasting a
    scalar, moving doubles and singles between registers and the integer
    reduction at a guard exit. */
module Effects {
  import opened Outcome
  import opened Locations
  import opened Machine
  import opened History
  import opened Assembler
  import opened Lanes

  /** `m'` differs from `m` at most in xmm register `x`. */
  predicate XmmOnly(m: Machine, m': Machine, x: nat)
  {
    && Valid(m) && Valid(m')
    && (forall j :: 0 <= j < 16 && j != x ==> m'.xmm[j] == m.xmm[j])
    && m'.gpr == m.gpr
  }

  /* ---------------------------------------------------------------------
     Packed integer arithmetic
     --------------------------------------------------------------------- */

  /** The unsigned value of one lane of a packed add, subtract or low
      multiply: the mathematical result modulo the lane's range. */
  function LaneValue(op: LaneOp, x: nat, y: nat, size: nat): (v: nat)
    requires op != CmpEq
    ensures v < Pow256(size)
    ensures op == Add && x < Pow256(size) && y < Pow256(size) ==> v == x + y || v + Pow256(size) == x + y
    ensures op == Sub && x < Pow256(size) && y < Pow256(size) ==> v == x - y || v == x - y + Pow256(size)
  {
    var p := Pow256(size);
    match op
    case Add =>
      if x + y < p then SmallMod(x + y, p); (x + y) % p
      else if x + y < 2 * p then DivModUnique(x + y, p, 1, x + y - p); (x + y) % p
      else (x + y) % p
    case Sub =>
      if x >= y && x - y < p then SmallMod(x - y, p); (x - y) % p
      else if x < y && y - x <= p then DivModUnique(x - y, p, -1, x - y + p); (x - y) % p
      else (x - y) % p
    case MulLow => (x * y) % p
  }

  /** Every lane of `out` is `op` of the same lanes of `a` and `b`. */
  predicate LanesAre(out: Bytes, op: LaneOp, a: Bytes, b: Bytes, size: int)
    requires op != CmpEq && size in {1, 2, 4, 8} && |out| == 16 && |a| == 16 && |b| == 16
  {
    forall k {:trigger Get(out, size, k)} :: 0 <= k < LaneCount(size) ==>
      (MulStep(k, LaneCount(size), size);
       ToNat(Get(out, size, k)) == LaneValue(op, ToNat(Get(a, size, k)), ToNat(Get(b, size, k)), size))
  }

  lemma LaneResultValue(op: LaneOp, x: Bytes, y: Bytes)
    requires |x| == |y| && op != CmpEq
    ensures ToNat(LaneResult(op, x, y)) == LaneValue(op, ToNat(x), ToNat(y), |x|)
  {
    match op
    case Add => AddLane(x, y);
    case Sub => SubLane(x, y);
    case MulLow => MulLane(x, y);
  }

  lemma AddLane(x: Bytes, y: Bytes)
    requires |x| == |y|
    ensures ToNat(LaneResult(Add, x, y)) == (ToNat(x) + ToNat(y)) % Pow256(|x|)
  {
    var n := ToNat(x) + ToNat(y);
    assert LaneResult(Add, x, y) == FromNat(n, |x|);
    ToNatFromNat(n, |x|);
  }

  lemma SubLane(x: Bytes, y: Bytes)
    requires |x| == |y|
    ensures ToNat(LaneResult(Sub, x, y)) == (ToNat(x) - ToNat(y)) % Pow256(|x|)
  {
    var p := Pow256(|x|);
    var n := (ToNat(x) - ToNat(y)) % p;
    ToNatFromNat(n, |x|);
    DivModUnique(n, p, 0, n);
  }

  lemma MulLane(x: Bytes, y: Bytes)
    requires |x| == |y|
    ensures ToNat(LaneResult(MulLow, x, y)) == (ToNat(x) * ToNat(y)) % Pow256(|x|)
  {
    ToNatFromNat(ToNat(x) * ToNat(y), |x|);
  }

  lemma PackedIsMapLanes(op: LaneOp, a: Bytes, b: Bytes, size: int)
    requires |a| == 16 && |b| == 16 && size in {1, 2, 4, 8}
    ensures Packed(op, a, b, size) == Some(MapLanes(op, a, b, size, LaneCount(size)))
  {
  }

  lemma PackedLanes(op: LaneOp, a: Bytes, b: Bytes, size: int)
    requires |a| == 16 && |b| == 16 && size in {1, 2, 4, 8} && op != CmpEq
    ensures Packed(op, a, b, size).Some?
    ensures LanesAre(Packed(op, a, b, size).value, op, a, b, size)
  {
    var n := LaneCount(size);
    PackedIsMapLanes(op, a, b, size);
    var out := MapLanes(op, a, b, size, n);
    forall k | 0 <= k < n
      ensures (MulStep(k, n, size);
               ToNat(Get(out, size, k)) == LaneValue(op, ToNat(Get(a, size, k)), ToNat(Get(b, size, k)), size))
    {
      MulStep(k, n, size);
      GetMapLanes(op, a, b, size, n, k);
      LaneResultValue(op, Get(a, size, k), Get(b, size, k));
    }
  }

  /** A packed operation between xmm registers replaces the destination. */
  lemma PackedRun(m: Machine, d: nat, s: nat, mn: Mnemonic, op: LaneOp, size: int)
    requires Valid(m) && d < 16 && s < 16 && size in {1, 2, 4, 8} && op != CmpEq && mn != PTEST
    requires XmmResult(mn, m.xmm[d], m.xmm[s]) == Packed(op, m.xmm[d], m.xmm[s], size)
    ensures var r := Run(m, [Op(mn, Reg(d, true), Reg(s, true))]);
            && r.Some? && XmmOnly(m, r.value, d)
            && LanesAre(r.value.xmm[d], op, m.xmm[d], m.xmm[s], size)
  {
    PackedLanes(op, m.xmm[d], m.xmm[s], size);
    var v := Packed(op, m.xmm[d], m.xmm[s], size).value;
    assert Step(m, Op(mn, Reg(d, true), Reg(s, true))) == Some(SetXmm(m, d, v));
    RunOne(m, Op(mn, Reg(d, true), Reg(s, true)));
  }

  /** `genop_vec_int_add`: every lane of the result is the sum of the two
      operands' lanes, wrapped to the lane's width; only the result
      register changes. */
  lemma IntAddSound(m: Machine, d: nat, s: nat, size: int)
    requires Valid(m) && d < 16 && s < 16 && size in {1, 2, 4, 8}
    ensures var r := Run(m, IntAddCode(Reg(d, true), Reg(s, true), size));
            && r.Some? && XmmOnly(m, r.value, d)
            && LanesAre(r.value.xmm[d], Add, m.xmm[d], m.xmm[s], size)
  {
    var mn := if size == 1 then PADDB else if size == 2 then PADDW else if size == 4 then PADDD else PADDQ;
    assert IntAddCode(Reg(d, true), Reg(s, true), size) == [Op(mn, Reg(d, true), Reg(s, true))];
    PackedRun(m, d, s, mn, Add, size);
  }

  /** `genop_vec_int_sub`: lane-wise difference modulo the lane's range. */
  lemma IntSubSound(m: Machine, d: nat, s: nat, size: int)
    requires Valid(m) && d < 16 && s < 16 && size in {1, 2, 4, 8}
    ensures var r := Run(m, IntSubCode(Reg(d, true), Reg(s, true), size));
            && r.Some? && XmmOnly(m, r.value, d)
            && LanesAre(r.value.xmm[d], Sub, m.xmm[d], m.xmm[s], size)
  {
    var mn := if size == 1 then PSUBB else if size == 2 then PSUBW else if size == 4 then PSUBD else PSUBQ;
    assert IntSubCode(Reg(d, true), Reg(s, true), size) == [Op(mn, Reg(d, true), Reg(s, true))];
    PackedRun(m, d, s, mn, Sub, size);
  }

  /** `genop_vec_int_mul` for the two sizes it implements: the low half of
      every lane's product. */
  lemma IntMulSound(m: Machine, d: nat, s: nat, size: int)
    requires Valid(m) && d < 16 && s < 16 && size in {2, 4}
    ensures IntMulCode(Reg(d, true), Reg(s, true), size).Emitted?
    ensures var r := Run(m, IntMulCode(Reg(d, true), Reg(s, true), size).code);
            && r.Some? && XmmOnly(m, r.value, d)
            && LanesAre(r.value.xmm[d], MulLow, m.xmm[d], m.xmm[s], size)
  {
    var mn := if size == 2 then PMULLW else PMULLD;
    assert IntMulCode(Reg(d, true), Reg(s, true), size).code == [Op(mn, Reg(d, true), Reg(s, true))];
    PackedRun(m, d, s, mn, MulLow, size);
  }

  /** `genop_vec_int_and`, `_or` and `_xor`: the result register becomes the
      bytewise combination of itself with the source; nothing else changes. */
  lemma IntLogicSound(m: Machine, d: nat, s: nat)
    requires Valid(m) && d < 16 && s < 16
    ensures var r := Run(m, [Op(PAND, Reg(d, true), Reg(s, true))]);
            r.Some? && XmmOnly(m, r.value, d) && forall j :: 0 <= j < 16 ==> r.value.xmm[d][j] == m.xmm[d][j] & m.xmm[s][j]
    ensures var r := Run(m, [Op(POR, Reg(d, true), Reg(s, true))]);
            r.Some? && XmmOnly(m, r.value, d) && forall j :: 0 <= j < 16 ==> r.value.xmm[d][j] == m.xmm[d][j] | m.xmm[s][j]
    ensures var r := Run(m, [Op(PXOR, Reg(d, true), Reg(s, true))]);
            r.Some? && XmmOnly(m, r.value, d) && forall j :: 0 <= j < 16 ==> r.value.xmm[d][j] == m.xmm[d][j] ^ m.xmm[s][j]
  {
    RunOne(m, Op(PAND, Reg(d, true), Reg(s, true)));
    RunOne(m, Op(POR, Reg(d, true), Reg(s, true)));
    RunOne(m, Op(PXOR, Reg(d, true), Reg(s, true)));
  }

  /* ---------------------------------------------------------------------
     Item-size conversion
     --------------------------------------------------------------------- */

  /** Writing one lane leaves bytes outside it as they were, whatever the
      lane widths of the write and the read. */
  lemma GetPutApart(r: Bytes, size: nat, k: nat, v: Bytes, size': nat, k': nat)
    requires k * size + size <= |r| && |v| == size && k' * size' + size' <= |r|
    requires k' * size' + size' <= k * size || k * size + size <= k' * size'
    ensures Get(Put(r, size, k, v), size', k') == Get(r, size', k')
  {
  }

  /** An extract into the scratch register followed by an insert from it. */
  lemma TransferRun(m: Machine, s: nat, sk: nat, ssize: int, d: nat, dk: nat, dsize: int)
    requires Valid(m) && s < 16 && d < 16 && ssize in {1, 2, 4, 8} && dsize in {1, 2, 4, 8}
    requires sk < LaneCount(ssize) && dk < LaneCount(dsize)
    ensures sk * ssize + ssize <= 16 && dk * dsize + dsize <= 16
    ensures var v := Get(m.xmm[s], ssize, sk) + Zeros(8 - ssize);
            Run(m, [OpImm(ExtractFor(ssize), Scratch, Reg(s, true), sk), OpImm(InsertFor(dsize), Reg(d, true), Scratch, dk)])
            == Some(SetXmm(SetGpr(m, 11, v), d, Put(m.xmm[d], dsize, dk, v[..dsize])))
  {
    var v := Get(m.xmm[s], ssize, sk) + Zeros(8 - ssize);
    var m1 := SetGpr(m, 11, v);
    var code := [OpImm(ExtractFor(ssize), Scratch, Reg(s, true), sk), OpImm(InsertFor(dsize), Reg(d, true), Scratch, dk)];
    ExtractStep(m, 11, s, sk, ssize);
    InsertStep(m1, d, 11, dk, dsize);
    RunCons(m, code[0], code[1..]);
    RunOne(m1, code[1]);
  }

  /** `genop_vec_int_signext` from 4- to 8-byte items: items 0 and 1 become
      the two 8-byte items, with zeros in their upper halves (the upper half
      is not filled with the sign).  It works in place, which is how the
      register allocator calls it. */
  lemma SignExtWidenSound(m: Machine, s: nat, d: nat)
    requires Valid(m) && s < 16 && d < 16
    ensures SignExtCode(Reg(s, true), 4, 8, Reg(d, true)).Emitted?
    ensures var r := Run(m, SignExtCode(Reg(s, true), 4, 8, Reg(d, true)).code);
            && r.Some? && OnlyWrites(m, r.value, d, 11)
            && Get(r.value.xmm[d], 8, 0) == Get(m.xmm[s], 4, 0) + Zeros(4)
            && Get(r.value.xmm[d], 8, 1) == Get(m.xmm[s], 4, 1) + Zeros(4)
  {
    var first := [OpImm(PEXTRD, Scratch, Reg(s, true), 1), OpImm(PINSRQ, Reg(d, true), Scratch, 1)];
    var second := [OpImm(PEXTRD, Scratch, Reg(s, true), 0), OpImm(PINSRQ, Reg(d, true), Scratch, 0)];
    assert SignExtCode(Reg(s, true), 4, 8, Reg(d, true)).code == first + second;
    var v1 := Get(m.xmm[s], 4, 1) + Zeros(4);
    TransferRun(m, s, 1, 4, d, 1, 8);
    assert v1[..8] == v1;
    var m1 := SetXmm(SetGpr(m, 11, v1), d, Put(m.xmm[d], 8, 1, v1));
    GetPutApart(m.xmm[d], 8, 1, v1, 4, 0);
    assert Get(m1.xmm[s], 4, 0) == Get(m.xmm[s], 4, 0);
    var v0 := Get(m.xmm[s], 4, 0) + Zeros(4);
    TransferRun(m1, s, 0, 4, d, 0, 8);
    assert v0[..8] == v0;
    var out := Put(m1.xmm[d], 8, 0, v0);
    RunAppend(m, first, second);
    GetPutSame(m1.xmm[d], 8, 0, v0);
    GetPutOther(m1.xmm[d], 8, 0, 1, v0);
    GetPutSame(m.xmm[d], 8, 1, v1);
  }

  /** `genop_vec_int_signext` from 8- to 4-byte items: items 0 and 1 keep the
      low four bytes of the two 8-byte items, and items 2 and 3 of the
      result are left as they were. */
  lemma SignExtNarrowSound(m: Machine, s: nat, d: nat)
    requires Valid(m) && s < 16 && d < 16
    ensures SignExtCode(Reg(s, true), 8, 4, Reg(d, true)).Emitted?
    ensures var r := Run(m, SignExtCode(Reg(s, true), 8, 4, Reg(d, true)).code);
            && r.Some? && OnlyWrites(m, r.value, d, 11)
            && Get(r.value.xmm[d], 4, 0) == Get(m.xmm[s], 8, 0)[..4]
            && Get(r.value.xmm[d], 4, 1) == Get(m.xmm[s], 8, 1)[..4]
            && Get(r.value.xmm[d], 4, 2) == Get(m.xmm[d], 4, 2)
            && Get(r.value.xmm[d], 4, 3) == Get(m.xmm[d], 4, 3)
  {
    var first := [OpImm(PEXTRQ, Scratch, Reg(s, true), 0), OpImm(PINSRD, Reg(d, true), Scratch, 0)];
    var second := [OpImm(PEXTRQ, Scratch, Reg(s, true), 1), OpImm(PINSRD, Reg(d, true), Scratch, 1)];
    assert SignExtCode(Reg(s, true), 8, 4, Reg(d, true)).code == first + second;
    var v0 := Get(m.xmm[s], 8, 0) + Zeros(0);
    TransferRun(m, s, 0, 8, d, 0, 4);
    var m1 := SetXmm(SetGpr(m, 11, v0), d, Put(m.xmm[d], 4, 0, v0[..4]));
    GetPutApart(m.xmm[d], 4, 0, v0[..4], 8, 1);
    assert Get(m1.xmm[s], 8, 1) == Get(m.xmm[s], 8, 1);
    var v1 := Get(m.xmm[s], 8, 1) + Zeros(0);
    TransferRun(m1, s, 1, 8, d, 1, 4);
    RunAppend(m, first, second);
    var mid := m1.xmm[d];
    GetPutSame(mid, 4, 1, v1[..4]);
    GetPutOther(mid, 4, 1, 0, v1[..4]);
    GetPutSame(m.xmm[d], 4, 0, v0[..4]);
    GetPutOther(mid, 4, 1, 2, v1[..4]);
    GetPutOther(m.xmm[d], 4, 0, 2, v0[..4]);
    GetPutOther(mid, 4, 1, 3, v1[..4]);
    GetPutOther(m.xmm[d], 4, 0, 3, v0[..4]);
    assert Get(m.xmm[s], 8, 0) + Zeros(0) == Get(m.xmm[s], 8, 0);
    assert Get(m.xmm[s], 8, 1) + Zeros(0) == Get(m.xmm[s], 8, 1);
  }

  /** Widening and then narrowing in the same register gives back the two
      4-byte items that were widened. */
  lemma SignExtRoundTrip(m: Machine, s: nat, d: nat)
    requires Valid(m) && s < 16 && d < 16
    ensures var widen := SignExtCode(Reg(s, true), 4, 8, Reg(d, true)).code;
            var narrow := SignExtCode(Reg(d, true), 8, 4, Reg(d, true)).code;
            var r := Run(m, widen + narrow);
            && r.Some? && OnlyWrites(m, r.value, d, 11)
            && Get(r.value.xmm[d], 4, 0) == Get(m.xmm[s], 4, 0)
            && Get(r.value.xmm[d], 4, 1) == Get(m.xmm[s], 4, 1)
  {
    var widen := SignExtCode(Reg(s, true), 4, 8, Reg(d, true)).code;
    var narrow := SignExtCode(Reg(d, true), 8, 4, Reg(d, true)).code;
    SignExtWidenSound(m, s, d);
    var m1 := Run(m, widen).value;
    SignExtNarrowSound(m1, d, d);
    RunAppend(m, widen, narrow);
    OnlyWritesTrans(m, m1, Run(m1, narrow).value, d, 11);
    LowHalf(Get(m.xmm[s], 4, 0));
    LowHalf(Get(m.xmm[s], 4, 1));
  }

  lemma LowHalf(x: Bytes)
    requires |x| == 4
    ensures (x + Zeros(4))[..4] == x
  {
  }

  /** `ToNat` of a concatenation: the second part counts `256^|x|` times. */
  lemma {:induction false} ToNatAppend(x: Bytes, y: Bytes)
    ensures ToNat(x + y) == ToNat(x) + Pow256(|x|) * ToNat(y)
  {
    if |x| > 0 {
      var a, t, p := ToNat(x[1..]), ToNat(y), Pow256(|x| - 1);
      assert (x + y)[0] == x[0] && (x + y)[1..] == x[1..] + y;
      ToNatAppend(x[1..], y);
      calc {
        ToNat(x + y);
        ByteVal(x[0]) + 256 * (a + p * t);
        { MulAssoc(256, p, t); }
        ByteVal(x[0]) + 256 * a + (256 * p) * t;
      }
    } else {
      assert x + y == y;
    }
  }

  lemma MulAssoc(a: int, b: int, c: int)
    ensures a * (b * c) == (a * b) * c
  {
  }

  lemma {:induction false} ToNatOnes(n: nat)
    ensures ToNat(Ones(n)) + 1 == Pow256(n)
  {
    if n > 0 {
      assert Ones(n)[1..] == Ones(n - 1);
      ToNatOnes(n - 1);
    }
  }

  lemma {:induction false} ToNatZeros(n: nat)
    ensures ToNat(Zeros(n)) == 0
  {
    if n > 0 {
      assert Zeros(n)[1..] == Zeros(n - 1);
      ToNatZeros(n - 1);
    }
  }

  /** Sign extension keeps the two's complement value. */
  lemma SignExtendValue(x: Bytes)
    requires |x| == 4
    ensures Signed(SignExtend4(x)) == Signed(x)
  {
    var hi := if Negative(x) then Ones(4) else Zeros(4);
    ToNatAppend(x, hi);
    ToNatOnes(4);
    ToNatZeros(4);
    Pow256Eight();
    assert Pow256(4) == 0x1_0000_0000;
    assert SignExtend4(x)[7] == hi[3];
  }

  /** As emitted, the 4-to-8 conversion fills the upper half with zeros: an
      item of all ones, which is -1, becomes 2^32 - 1 instead of -1. */
  lemma SignExtWidenZeroExtends(m: Machine, s: nat, d: nat)
    requires Valid(m) && s < 16 && d < 16 && Get(m.xmm[s], 4, 0) == Ones(4)
    ensures Signed(Get(m.xmm[s], 4, 0)) == -1
    ensures var r := Run(m, SignExtCode(Reg(s, true), 4, 8, Reg(d, true)).code);
            r.Some? && Signed(Get(r.value.xmm[d], 8, 0)) == 0xFFFF_FFFF
  {
    SignExtWidenSound(m, s, d);
    OnesZeroExtended();
  }

  /** All ones is -1 in four bytes, and 2^32 - 1 once zeros are appended. */
  lemma OnesZeroExtended()
    ensures Signed(Ones(4)) == -1
    ensures Signed(Ones(4) + Zeros(4)) == 0xFFFF_FFFF
  {
    ToNatOnes(4);
    ToNatZeros(4);
    ToNatAppend(Ones(4), Zeros(4));
    assert Pow256(4) == 0x1_0000_0000;
    assert (Ones(4) + Zeros(4))[7] == 0;
    assert Ones(4)[3] & 0x80 != 0;
  }

  /** The corrected 4-to-8 conversion: items 0 and 1 become the two 8-byte
      items with the same two's complement values, keeping their low four
      bytes; only the result register changes. */
  lemma SignExtCorrectedSound(m: Machine, s: nat, d: nat)
    requires Valid(m) && s < 16 && d < 16
    ensures SignExtCodeCorrected(Reg(s, true), 4, 8, Reg(d, true)).Emitted?
    ensures var r := Run(m, SignExtCodeCorrected(Reg(s, true), 4, 8, Reg(d, true)).code);
            && r.Some? && XmmOnly(m, r.value, d)
            && Signed(Get(r.value.xmm[d], 8, 0)) == Signed(Get(m.xmm[s], 4, 0))
            && Signed(Get(r.value.xmm[d], 8, 1)) == Signed(Get(m.xmm[s], 4, 1))
            && Get(r.value.xmm[d], 8, 0)[..4] == Get(m.xmm[s], 4, 0)
            && Get(r.value.xmm[d], 8, 1)[..4] == Get(m.xmm[s], 4, 1)
  {
    StepXmm(m, PMOVSXDQ, d, s);
    RunOne(m, Op(PMOVSXDQ, Reg(d, true), Reg(s, true)));
    WidenedPair(Get(m.xmm[s], 4, 0), Get(m.xmm[s], 4, 1));
  }

  /** The two 8-byte items of two sign-extended 4-byte items. */
  lemma WidenedPair(x0: Bytes, x1: Bytes)
    requires |x0| == 4 && |x1| == 4
    ensures var v := SignExtend4(x0) + SignExtend4(x1);
            && |v| == 16
            && Signed(Get(v, 8, 0)) == Signed(x0) && Signed(Get(v, 8, 1)) == Signed(x1)
            && Get(v, 8, 0)[..4] == x0 && Get(v, 8, 1)[..4] == x1
  {
    var a, b := SignExtend4(x0), SignExtend4(x1);
    assert Get(a + b, 8, 0) == a;
    assert Get(a + b, 8, 1) == b;
    SignExtendValue(x0);
    SignExtendValue(x1);
  }

  /** With the corrected widening, widening and then narrowing in the same
      register also gives back the two 4-byte items. */
  lemma SignExtCorrectedRoundTrip(m: Machine, s: nat, d: nat)
    requires Valid(m) && s < 16 && d < 16
    ensures var widen := SignExtCodeCorrected(Reg(s, true), 4, 8, Reg(d, true)).code;
            var narrow := SignExtCodeCorrected(Reg(d, true), 8, 4, Reg(d, true)).code;
            var r := Run(m, widen + narrow);
            && r.Some? && OnlyWrites(m, r.value, d, 11)
            && Get(r.value.xmm[d], 4, 0) == Get(m.xmm[s], 4, 0)
            && Get(r.value.xmm[d], 4, 1) == Get(m.xmm[s], 4, 1)
  {
    var widen := SignExtCodeCorrected(Reg(s, true), 4, 8, Reg(d, true)).code;
    var narrow := SignExtCodeCorrected(Reg(d, true), 8, 4, Reg(d, true)).code;
    SignExtCorrectedSound(m, s, d);
    var m1 := Run(m, widen).value;
    SignExtNarrowSound(m1, d, d);
    RunAppend(m, widen, narrow);
    OnlyWritesTrans(m, m1, Run(m1, narrow).value, d, 11);
  }

  /* ---------------------------------------------------------------------
     Broadcasting a scalar
     --------------------------------------------------------------------- */

  /** `n` copies of `v` side by side. */
  function Repeat(v: Bytes, n: nat): (r: Bytes)
    ensures |r| == n * |v|
  {
    if n == 0 then [] else v + Repeat(v, n - 1)
  }

  /** Every lane of `Repeat(v, n)` is `v`. */
  lemma {:induction false} RepeatLanes(v: Bytes, n: nat, k: nat)
    requires k < n
    ensures k * |v| + |v| <= n * |v|
    ensures Get(Repeat(v, n), |v|, k) == v
  {
    MulStep(k, n, |v|);
    var rest := Repeat(v, n - 1);
    assert Repeat(v, n) == v + rest;
    if k > 0 {
      RepeatLanes(v, n - 1, k - 1);
      assert (k - 1) * |v| + |v| == k * |v|;
      assert Get(rest, |v|, k - 1) == v;
    }
  }

  /** The scalar `genop_vec_int_expand` broadcasts: an integer register, or an
      immediate as the 64-bit two's-complement word it is moved into. */
  function ExpandedScalar(m: Machine, src: Loc): (v: Bytes)
    requires Valid(m) && ((IsGpr(src) && src.num < 16) || src.Immed?)
    ensures |v| == 8
    ensures src.Immed? ==> ToNat(v) == src.value % Pow256(8)
  {
    if src.Immed? then
      var n := src.value % Pow256(8);
      ToNatFromNat(n, 8);
      SmallMod(n, Pow256(8));
      FromNat(n, 8)
    else m.gpr[src.num]
  }

  /** `genop_vec_int_expand` for items of 2, 4 and 8 bytes: every item of the
      result is the low `size` bytes of the scalar, and besides the result
      only the scratch register may change. */
  lemma IntExpandSound(m: Machine, src: Loc, size: int, d: nat)
    requires Valid(m) && d < 16 && size in {2, 4, 8}
    requires (IsGpr(src) && src.num < 16) || src.Immed?
    ensures IntExpandCode(src, size, Reg(d, true)).Emitted?
    ensures var r := Run(m, IntExpandCode(src, size, Reg(d, true)).code);
            && r.Some? && OnlyWrites(m, r.value, d, 11)
            && r.value.xmm[d] == Repeat(ExpandedScalar(m, src)[..size], LaneCount(size))
  {
    var v := ExpandedScalar(m, src);
    var pre := if src.Immed? then [Mov(src, Scratch)] else [];
    var m0 := if src.Immed? then SetGpr(m, 11, v) else m;
    var g := if src.Immed? then 11 else src.num;
    assert Run(m, pre) == Some(m0) && m0.gpr[g] == v;
    var body := CodeOf(IntExpandCode(src, size, Reg(d, true)))[|pre|..];
    assert CodeOf(IntExpandCode(src, size, Reg(d, true))) == pre + body;
    RunAppend(m, pre, body);
    if size == 2 {
      IntExpandWords(m0, g, d);
    } else if size == 4 {
      IntExpandDoubles(m0, g, d);
    } else {
      IntExpandQuads(m0, g, d);
    }
  }

  lemma Repeat2(w: Bytes)
    ensures Repeat(w, 2) == w + w
  {
    assert Repeat(w, 1) == w + [] == w;
  }

  lemma Repeat4(w: Bytes)
    ensures Repeat(w, 4) == w + w + w + w
  {
    Repeat2(w);
    assert Repeat(w, 3) == w + (w + w);
    assert Repeat(w, 4) == w + (w + (w + w));
  }

  lemma Repeat8(w: Bytes)
    ensures Repeat(w, 8) == w + w + w + w + w + w + w + w
  {
    Repeat4(w);
    var four := w + w + w + w;
    assert Repeat(w, 5) == w + four;
    assert Repeat(w, 6) == w + (w + four);
    assert Repeat(w, 7) == w + (w + (w + four));
    assert Repeat(w, 8) == w + (w + (w + (w + four)));
  }

  lemma IntExpandWords(m: Machine, g: nat, d: nat)
    requires Valid(m) && g < 16 && d < 16
    ensures var r := Run(m, [OpImm(PINSRW, Reg(d, true), Reg(g, false), 0), OpImm(PINSRW, Reg(d, true), Reg(g, false), 4),
                             OpImm(PSHUFLW, Reg(d, true), Reg(d, true), 0), OpImm(PSHUFHW, Reg(d, true), Reg(d, true), 0)]);
            && r == Some(SetXmm(m, d, Repeat(m.gpr[g][..2], 8)))
  {
    var w := m.gpr[g][..2];
    var first := [OpImm(PINSRW, Reg(d, true), Reg(g, false), 0), OpImm(PINSRW, Reg(d, true), Reg(g, false), 4)];
    var second := [OpImm(PSHUFLW, Reg(d, true), Reg(d, true), 0), OpImm(PSHUFHW, Reg(d, true), Reg(d, true), 0)];
    var x0 := WordsInserted(m, g, d);
    WordsShuffled(SetXmm(m, d, x0), d, w);
    RunAppend(m, first, second);
    assert first + second == [first[0], first[1], second[0], second[1]];
    SetXmmTwice(m, d, x0, Repeat(w, 8));
  }

  /** The two word inserts put the scalar in words 0 and 4. */
  lemma WordsInserted(m: Machine, g: nat, d: nat) returns (x0: Bytes)
    requires Valid(m) && g < 16 && d < 16
    ensures |x0| == 16 && Get(x0, 2, 0) == m.gpr[g][..2] && Get(x0, 2, 4) == m.gpr[g][..2]
    ensures Run(m, [OpImm(PINSRW, Reg(d, true), Reg(g, false), 0), OpImm(PINSRW, Reg(d, true), Reg(g, false), 4)])
            == Some(SetXmm(m, d, x0))
  {
    var w := m.gpr[g][..2];
    var i0 := OpImm(PINSRW, Reg(d, true), Reg(g, false), 0);
    var i1 := OpImm(PINSRW, Reg(d, true), Reg(g, false), 4);
    InsertStep(m, d, g, 0, 2);
    var m1 := SetXmm(m, d, Put(m.xmm[d], 2, 0, w));
    InsertStep(m1, d, g, 4, 2);
    x0 := Put(m1.xmm[d], 2, 4, w);
    GetPutOther(m1.xmm[d], 2, 4, 0, w);
    GetPutSame(m.xmm[d], 2, 0, w);
    GetPutSame(m1.xmm[d], 2, 4, w);
    RunCons(m, i0, [i1]);
    RunOne(m1, i1);
    SetXmmTwice(m, d, Put(m.xmm[d], 2, 0, w), x0);
  }

  /** The low and high word shuffles copy word 0 over the low half and word 4
      over the high half. */
  lemma WordsShuffled(m: Machine, d: nat, w: Bytes)
    requires Valid(m) && d < 16 && Get(m.xmm[d], 2, 0) == w && Get(m.xmm[d], 2, 4) == w
    ensures Run(m, [OpImm(PSHUFLW, Reg(d, true), Reg(d, true), 0), OpImm(PSHUFHW, Reg(d, true), Reg(d, true), 0)])
            == Some(SetXmm(m, d, Repeat(w, 8)))
  {
    var x0 := m.xmm[d];
    var i2 := OpImm(PSHUFLW, Reg(d, true), Reg(d, true), 0);
    var i3 := OpImm(PSHUFHW, Reg(d, true), Reg(d, true), 0);
    var lo := w + w + w + w + x0[8..];
    ShuffleLowStep(m, d, w);
    var m3 := SetXmm(m, d, lo);
    assert Get(lo, 2, 4) == Get(x0, 2, 4);
    var x1 := lo[..8] + w + w + w + w;
    ShuffleHighStep(m3, d, w);
    Repeat8(w);
    assert x1 == Repeat(w, 8);
    RunCons(m, i2, [i3]);
    RunOne(m3, i3);
    SetXmmTwice(m, d, lo, x1);
  }

  /** `PSHUFLW d, d, 0` copies word 0 over the low half. */
  lemma ShuffleLowStep(m: Machine, d: nat, w: Bytes)
    requires Valid(m) && d < 16 && Get(m.xmm[d], 2, 0) == w
    ensures Step(m, OpImm(PSHUFLW, Reg(d, true), Reg(d, true), 0)) == Some(SetXmm(m, d, w + w + w + w + m.xmm[d][8..]))
  {
    assert Field2(0, 0) == 0 && Field2(0, 2) == 0 && Field2(0, 4) == 0 && Field2(0, 6) == 0;
    StepImm(m, PSHUFLW, Reg(d, true), Reg(d, true), 0);
  }

  /** `PSHUFHW d, d, 0` copies word 4 over the high half. */
  lemma ShuffleHighStep(m: Machine, d: nat, w: Bytes)
    requires Valid(m) && d < 16 && Get(m.xmm[d], 2, 4) == w
    ensures Step(m, OpImm(PSHUFHW, Reg(d, true), Reg(d, true), 0)) == Some(SetXmm(m, d, m.xmm[d][..8] + w + w + w + w))
  {
    assert Field2(0, 0) == 0 && Field2(0, 2) == 0 && Field2(0, 4) == 0 && Field2(0, 6) == 0;
    StepImm(m, PSHUFHW, Reg(d, true), Reg(d, true), 0);
  }

  lemma IntExpandDoubles(m: Machine, g: nat, d: nat)
    requires Valid(m) && g < 16 && d < 16
    ensures var r := Run(m, [OpImm(PINSRD, Reg(d, true), Reg(g, false), 0), OpImm(PSHUFD, Reg(d, true), Reg(d, true), 0)]);
            && r == Some(SetXmm(m, d, Repeat(m.gpr[g][..4], 4)))
  {
    var w := m.gpr[g][..4];
    var i0 := OpImm(PINSRD, Reg(d, true), Reg(g, false), 0);
    var i1 := OpImm(PSHUFD, Reg(d, true), Reg(d, true), 0);
    InsertStep(m, d, g, 0, 4);
    var x0 := Put(m.xmm[d], 4, 0, w);
    var m1 := SetXmm(m, d, x0);
    GetPutSame(m.xmm[d], 4, 0, w);
    assert Field2(0, 0) == 0 && Field2(0, 2) == 0 && Field2(0, 4) == 0 && Field2(0, 6) == 0;
    StepImm(m1, PSHUFD, Reg(d, true), Reg(d, true), 0);
    assert Step(m1, i1) == Some(SetXmm(m1, d, w + w + w + w));
    Repeat4(w);
    RunCons(m, i0, [i1]);
    RunOne(m1, i1);
    SetXmmTwice(m, d, x0, w + w + w + w);
  }

  lemma IntExpandQuads(m: Machine, g: nat, d: nat)
    requires Valid(m) && g < 16 && d < 16
    ensures var r := Run(m, [OpImm(PINSRQ, Reg(d, true), Reg(g, false), 0), OpImm(PINSRQ, Reg(d, true), Reg(g, false), 1)]);
            && r == Some(SetXmm(m, d, Repeat(m.gpr[g][..8], 2)))
  {
    var w := m.gpr[g][..8];
    var i0 := OpImm(PINSRQ, Reg(d, true), Reg(g, false), 0);
    var i1 := OpImm(PINSRQ, Reg(d, true), Reg(g, false), 1);
    InsertStep(m, d, g, 0, 8);
    var x0 := Put(m.xmm[d], 8, 0, w);
    var m1 := SetXmm(m, d, x0);
    InsertStep(m1, d, g, 1, 8);
    var x1 := Put(x0, 8, 1, w);
    GetPutSame(m.xmm[d], 8, 0, w);
    assert x1 == Get(x0, 8, 0) + w;
    Repeat2(w);
    RunCons(m, i0, [i1]);
    RunOne(m1, i1);
    SetXmmTwice(m, d, x0, x1);
  }

  /** `genop_vec_float_expand` from a register: doubles are duplicated with
      `MOVDDUP`; singles with `SHUFPS`, which broadcasts item 0 only because
      the register allocator gives the result the source's register. */
  lemma FloatExpandSound(m: Machine, s: nat, size: int)
    requires Valid(m) && s < 16 && size in {4, 8}
    ensures FloatExpandCode(Reg(s, true), size, Reg(s, true)).Emitted?
    ensures var r := Run(m, FloatExpandCode(Reg(s, true), size, Reg(s, true)).code);
            && r.Some? && XmmOnly(m, r.value, s)
            && r.value.xmm[s] == Repeat(Get(m.xmm[s], size, 0), LaneCount(size))
  {
    var x := m.xmm[s];
    var i := FloatExpandCode(Reg(s, true), size, Reg(s, true)).code[0];
    assert FloatExpandCode(Reg(s, true), size, Reg(s, true)).code == [i];
    if size == 4 {
      assert i == OpImm(SHUFPS, Reg(s, true), Reg(s, true), 0);
      SinglesBroadcast(m, s);
    } else {
      assert i == Op(MOVDDUP, Reg(s, true), Reg(s, true));
      StepXmm(m, MOVDDUP, s, s);
      Repeat2(Get(x, 8, 0));
    }
    RunOne(m, i);
  }

  lemma SinglesBroadcast(m: Machine, s: nat)
    requires Valid(m) && s < 16
    ensures Step(m, OpImm(SHUFPS, Reg(s, true), Reg(s, true), 0)) == Some(SetXmm(m, s, Repeat(Get(m.xmm[s], 4, 0), 4)))
  {
    StepImm(m, SHUFPS, Reg(s, true), Reg(s, true), 0);
    assert Field2(0, 0) == 0 && Field2(0, 2) == 0 && Field2(0, 4) == 0 && Field2(0, 6) == 0;
    Repeat4(Get(m.xmm[s], 4, 0));
  }

  /** With a result register other than the source, the singles broadcast
      would fill the low two items from the result's own item 0 and the high
      two from the source's item 0: `SHUFPS` takes its low pair from the
      destination.  The resolver never produces this case, since it hands
      the result's own register over as the source. */
  lemma FloatExpandSinglesApart(m: Machine, s: nat, d: nat)
    requires Valid(m) && s < 16 && d < 16 && s != d
    ensures var r := Run(m, CodeOf(FloatExpandCode(Reg(s, true), 4, Reg(d, true))));
            && r.Some?
            && r.value.xmm[d] == Get(m.xmm[d], 4, 0) + Get(m.xmm[d], 4, 0) + Get(m.xmm[s], 4, 0) + Get(m.xmm[s], 4, 0)
  {
    assert Field2(0, 0) == 0 && Field2(0, 2) == 0 && Field2(0, 4) == 0 && Field2(0, 6) == 0;
  }

  /* ---------------------------------------------------------------------
     Moving doubles and singles
     --------------------------------------------------------------------- */

  /** `genop_vec_float_pack` for 8-byte floats between xmm registers: double
      `srcidx` of the source lands in double `residx` of the result and the
      other double of the result is kept, except when a register's double 1
      is moved into its own double 0 (see `FloatPack8InPlaceSwap`). */
  lemma FloatPack8Sound(m: Machine, d: nat, s: nat, residx: int, srcidx: int)
    requires Valid(m) && d < 16 && s < 16 && residx in {0, 1} && srcidx in {0, 1}
    requires d != s || !(srcidx == 1 && residx == 0)
    ensures FloatPack8(Reg(d, true), Reg(s, true), residx, srcidx).Emitted?
    ensures DoubleMoved(m, Run(m, FloatPack8(Reg(d, true), Reg(s, true), residx, srcidx).code), d, s, residx, srcidx)
  {
    var code := FloatPack8(Reg(d, true), Reg(s, true), residx, srcidx).code;
    if srcidx == 0 && residx == 0 {
      assert code == [Op(MOVSD, Reg(d, true), Reg(s, true))];
      LowToLow(m, d, s);
    } else if srcidx == 0 {
      assert code == [Op(UNPCKLPD, Reg(d, true), Reg(s, true))];
      LowToHigh(m, d, s);
    } else if residx == 0 {
      assert code == [Op(UNPCKHPD, Reg(d, true), Reg(s, true)), OpImm(SHUFPD, Reg(d, true), Reg(d, true), 1)];
      HighToLow(m, d, s);
    } else if d != s {
      assert code == [OpImm(SHUFPD, Reg(d, true), Reg(d, true), 1), Op(UNPCKHPD, Reg(d, true), Reg(s, true))];
      HighToHigh(m, d, s);
    } else {
      assert code == [];
    }
  }

  /** Double `srcidx` of register `s` is now double `residx` of register `d`,
      the other double of `d` is kept, and no other register changed. */
  predicate DoubleMoved(m: Machine, r: Option<Machine>, d: nat, s: nat, residx: int, srcidx: int)
    requires Valid(m) && d < 16 && s < 16 && residx in {0, 1} && srcidx in {0, 1}
  {
    && r.Some? && XmmOnly(m, r.value, d)
    && Get(r.value.xmm[d], 8, residx) == Get(m.xmm[s], 8, srcidx)
    && Get(r.value.xmm[d], 8, 1 - residx) == Get(m.xmm[d], 8, 1 - residx)
  }

  lemma LowToLow(m: Machine, d: nat, s: nat)
    requires Valid(m) && d < 16 && s < 16
    ensures DoubleMoved(m, Run(m, [Op(MOVSD, Reg(d, true), Reg(s, true))]), d, s, 0, 0)
  {
    var a, b := m.xmm[d], m.xmm[s];
    RunOne(m, Op(MOVSD, Reg(d, true), Reg(s, true)));
    GetPutSame(a, 8, 0, Get(b, 8, 0));
    GetPutOther(a, 8, 0, 1, Get(b, 8, 0));
  }

  lemma LowToHigh(m: Machine, d: nat, s: nat)
    requires Valid(m) && d < 16 && s < 16
    ensures DoubleMoved(m, Run(m, [Op(UNPCKLPD, Reg(d, true), Reg(s, true))]), d, s, 1, 0)
  {
    RunOne(m, Op(UNPCKLPD, Reg(d, true), Reg(s, true)));
  }

  /** `SHUFPD r, r, 1` swaps the two doubles of `r`. */
  lemma SwapStep(m: Machine, d: nat)
    requires Valid(m) && d < 16
    ensures Step(m, OpImm(SHUFPD, Reg(d, true), Reg(d, true), 1)) == Some(SetXmm(m, d, Get(m.xmm[d], 8, 1) + Get(m.xmm[d], 8, 0)))
  {
    StepImm(m, SHUFPD, Reg(d, true), Reg(d, true), 1);
    assert Bit(1, 0) && !Bit(1, 1);
  }

  /** `UNPCKHPD d, s` makes `d` the high doubles of `d` and `s`. */
  lemma UnpackHighStep(m: Machine, d: nat, s: nat)
    requires Valid(m) && d < 16 && s < 16
    ensures Step(m, Op(UNPCKHPD, Reg(d, true), Reg(s, true))) == Some(SetXmm(m, d, Get(m.xmm[d], 8, 1) + Get(m.xmm[s], 8, 1)))
  {
    assert XmmResult(UNPCKHPD, m.xmm[d], m.xmm[s]) == Some(Get(m.xmm[d], 8, 1) + Get(m.xmm[s], 8, 1));
    StepXmm(m, UNPCKHPD, d, s);
  }

  /** Register `d` set to the doubles `lo` and `hi`. */
  lemma DoublesSet(m: Machine, d: nat, lo: Bytes, hi: Bytes)
    requires Valid(m) && d < 16 && |lo| == 8 && |hi| == 8
    ensures var r := SetXmm(m, d, lo + hi);
            && XmmOnly(m, r, d) && Get(r.xmm[d], 8, 0) == lo && Get(r.xmm[d], 8, 1) == hi
  {
    GetAppendLeft(lo, hi, 8, 0);
    GetAppendRight(lo, hi, 8, 1);
  }

  lemma HighToLow(m: Machine, d: nat, s: nat)
    requires Valid(m) && d < 16 && s < 16
    ensures DoubleMoved(m, Run(m, [Op(UNPCKHPD, Reg(d, true), Reg(s, true)), OpImm(SHUFPD, Reg(d, true), Reg(d, true), 1)]), d, s, 0, 1)
  {
    HighToLowRun(m, d, s);
    DoublesSet(m, d, Get(m.xmm[s], 8, 1), Get(m.xmm[d], 8, 1));
  }

  lemma HighToLowRun(m: Machine, d: nat, s: nat)
    requires Valid(m) && d < 16 && s < 16
    ensures Run(m, [Op(UNPCKHPD, Reg(d, true), Reg(s, true)), OpImm(SHUFPD, Reg(d, true), Reg(d, true), 1)])
            == Some(SetXmm(m, d, Get(m.xmm[s], 8, 1) + Get(m.xmm[d], 8, 1)))
  {
    var i0, i1 := Op(UNPCKHPD, Reg(d, true), Reg(s, true)), OpImm(SHUFPD, Reg(d, true), Reg(d, true), 1);
    var u := Get(m.xmm[d], 8, 1) + Get(m.xmm[s], 8, 1);
    var m1 := SetXmm(m, d, u);
    UnpackHighStep(m, d, s);
    SwapStep(m1, d);
    DoublesSet(m, d, Get(m.xmm[d], 8, 1), Get(m.xmm[s], 8, 1));
    assert Get(u, 8, 1) + Get(u, 8, 0) == Get(m.xmm[s], 8, 1) + Get(m.xmm[d], 8, 1);
    RunCons(m, i0, [i1]);
    RunOne(m1, i1);
    assert m1.xmm[d := Get(u, 8, 1) + Get(u, 8, 0)] == m.xmm[d := Get(u, 8, 1) + Get(u, 8, 0)];
  }

  lemma HighToHigh(m: Machine, d: nat, s: nat)
    requires Valid(m) && d < 16 && s < 16 && d != s
    ensures DoubleMoved(m, Run(m, [OpImm(SHUFPD, Reg(d, true), Reg(d, true), 1), Op(UNPCKHPD, Reg(d, true), Reg(s, true))]), d, s, 1, 1)
  {
    HighToHighRun(m, d, s);
    DoublesSet(m, d, Get(m.xmm[d], 8, 0), Get(m.xmm[s], 8, 1));
  }

  lemma HighToHighRun(m: Machine, d: nat, s: nat)
    requires Valid(m) && d < 16 && s < 16 && d != s
    ensures Run(m, [OpImm(SHUFPD, Reg(d, true), Reg(d, true), 1), Op(UNPCKHPD, Reg(d, true), Reg(s, true))])
            == Some(SetXmm(m, d, Get(m.xmm[d], 8, 0) + Get(m.xmm[s], 8, 1)))
  {
    var i0, i1 := OpImm(SHUFPD, Reg(d, true), Reg(d, true), 1), Op(UNPCKHPD, Reg(d, true), Reg(s, true));
    var u := Get(m.xmm[d], 8, 1) + Get(m.xmm[d], 8, 0);
    var m1 := SetXmm(m, d, u);
    SwapStep(m, d);
    UnpackHighStep(m1, d, s);
    DoublesSet(m, d, Get(m.xmm[d], 8, 1), Get(m.xmm[d], 8, 0));
    assert m1.xmm[s] == m.xmm[s];
    var w := Get(u, 8, 1) + Get(m.xmm[s], 8, 1);
    RunCons(m, i0, [i1]);
    RunOne(m1, i1);
    assert m1.xmm[d := w] == m.xmm[d := w];
  }

  /** Moving double 1 of a register into its own double 0 swaps the two
      doubles: double 1 of the result is the old double 0, not the old
      double 1. */
  lemma FloatPack8InPlaceSwap(m: Machine, d: nat)
    requires Valid(m) && d < 16
    ensures FloatPack8(Reg(d, true), Reg(d, true), 0, 1).Emitted?
    ensures var r := Run(m, FloatPack8(Reg(d, true), Reg(d, true), 0, 1).code);
            && r.Some? && XmmOnly(m, r.value, d)
            && Get(r.value.xmm[d], 8, 0) == Get(m.xmm[d], 8, 1)
            && Get(r.value.xmm[d], 8, 1) == Get(m.xmm[d], 8, 0)
  {
    assert FloatPack8(Reg(d, true), Reg(d, true), 0, 1).code == [OpImm(SHUFPD, Reg(d, true), Reg(d, true), 1)];
    SwapStep(m, d);
    RunOne(m, OpImm(SHUFPD, Reg(d, true), Reg(d, true), 1));
  }

  /** One `INSERTPS` of the single-float loop between xmm registers. */
  lemma InsertpsStep(m: Machine, d: nat, s: nat, si: nat, ri: nat)
    requires Valid(m) && d < 16 && s < 16 && si < 4 && ri < 4
    ensures Step(m, OpImm(INSERTPS, Reg(d, true), Reg(s, true), InsertpsSelect(si, ri)))
            == Some(SetXmm(m, d, Put(m.xmm[d], 4, ri, Get(m.xmm[s], 4, si))))
  {
    var imm := InsertpsSelect(si, ri);
    InsertpsResult(m, d, s, imm, si, ri);
    StepImm(m, INSERTPS, Reg(d, true), Reg(s, true), imm);
  }

  lemma InsertpsResult(m: Machine, d: nat, s: nat, imm: int, si: nat, ri: nat)
    requires Valid(m) && d < 16 && s < 16 && si < 4 && ri < 4 && 0 <= imm < 256
    requires var sel := imm as bv8; Field2(sel, 6) == si && Field2(sel, 4) == ri
    requires var sel := imm as bv8; !Bit(sel, 0) && !Bit(sel, 1) && !Bit(sel, 2) && !Bit(sel, 3)
    ensures StepOpImm(m, INSERTPS, Reg(d, true), Reg(s, true), imm) == Some(SetXmm(m, d, Put(m.xmm[d], 4, ri, Get(m.xmm[s], 4, si))))
  {
    var sel := imm as bv8;
    var a, b := m.xmm[d], m.xmm[s];
    var inserted := Put(a, 4, ri, Get(b, 4, si));
    forall j | 0 <= j < 16
      ensures (if Bit(sel, j / 4) then 0 else inserted[j]) == inserted[j]
    {
      var q := j / 4;
      assert q < 4;
    }
    assert seq(16, j requires 0 <= j < 16 => if Bit(sel, j / 4) then 0 else inserted[j]) == inserted;
    assert XmmImmResult(INSERTPS, a, b, sel) == Some(inserted);
  }

  /** The result register after the single-float loop: `PackedWithin` when it
      copies within one register, `PackedFrom` otherwise. */
  function SinglesMoved(r: Bytes, a: Bytes, same: bool, si: nat, ri: nat, k: nat): (out: Bytes)
    requires |r| == 16 && |a| == 16 && si + k <= 4 && ri + k <= 4
    ensures |out| == 16
  {
    if same then PackedWithin(r, 4, si, ri, k) else PackedFrom(r, a, 4, si, ri, k)
  }

  lemma {:induction false} FloatPack4Run(m: Machine, d: nat, s: nat, si: nat, ri: nat, k: nat, count: int)
    requires Valid(m) && d < 16 && s < 16 && si + k <= 4 && ri + k <= 4
    ensures FloatPack4Loop(Reg(d, true), Reg(s, true), si, ri, k, count).Emitted?
    ensures Run(m, FloatPack4Loop(Reg(d, true), Reg(s, true), si, ri, k, count).code)
            == Some(SetXmm(m, d, SinglesMoved(m.xmm[d], m.xmm[s], d == s, si, ri, k)))
    decreases k, 1
  {
    if k == 0 {
      assert SetXmm(m, d, m.xmm[d]) == m;
    } else {
      FloatPack4RunStep(m, d, s, si, ri, k, count);
    }
  }

  lemma FloatPack4RunStep(m: Machine, d: nat, s: nat, si: nat, ri: nat, k: nat, count: int)
    requires Valid(m) && d < 16 && s < 16 && 0 < k && si + k <= 4 && ri + k <= 4
    ensures FloatPack4Loop(Reg(d, true), Reg(s, true), si, ri, k, count).Emitted?
    ensures Run(m, FloatPack4Loop(Reg(d, true), Reg(s, true), si, ri, k, count).code)
            == Some(SetXmm(m, d, SinglesMoved(m.xmm[d], m.xmm[s], d == s, si, ri, k)))
    decreases k, 0
  {
    var m1 := SingleState(m, d, s, si, ri);
    FloatPack4Run(m1, d, s, si + 1, ri + 1, k - 1, count);
    FloatPack4First(m, d, s, si, ri, k, count);
    SingleStateMoved(m, d, s, si, ri, k);
  }

  /** The machine after one `INSERTPS` of the single-float loop. */
  function SingleState(m: Machine, d: nat, s: nat, si: nat, ri: nat): (m': Machine)
    requires Valid(m) && d < 16 && s < 16 && si < 4 && ri < 4
    ensures Valid(m')
  {
    SetXmm(m, d, Put(m.xmm[d], 4, ri, Get(m.xmm[s], 4, si)))
  }

  /** The first `INSERTPS` of the single-float loop. */
  lemma FloatPack4First(m: Machine, d: nat, s: nat, si: nat, ri: nat, k: nat, count: int)
    requires Valid(m) && d < 16 && s < 16 && 0 < k && si + k <= 4 && ri + k <= 4
    requires FloatPack4Loop(Reg(d, true), Reg(s, true), si + 1, ri + 1, k - 1, count).Emitted?
    ensures FloatPack4Loop(Reg(d, true), Reg(s, true), si, ri, k, count).Emitted?
    ensures Run(m, FloatPack4Loop(Reg(d, true), Reg(s, true), si, ri, k, count).code)
            == Run(SingleState(m, d, s, si, ri), FloatPack4Loop(Reg(d, true), Reg(s, true), si + 1, ri + 1, k - 1, count).code)
  {
    var i := OpImm(INSERTPS, Reg(d, true), Reg(s, true), InsertpsSelect(si, ri));
    InsertpsStep(m, d, s, si, ri);
    FloatPack4Unfold(d, s, si, ri, k, count);
    RunCons(m, i, FloatPack4Loop(Reg(d, true), Reg(s, true), si + 1, ri + 1, k - 1, count).code);
  }

  lemma SingleStateMoved(m: Machine, d: nat, s: nat, si: nat, ri: nat, k: nat)
    requires Valid(m) && d < 16 && s < 16 && 0 < k && si + k <= 4 && ri + k <= 4
    ensures var m1 := SingleState(m, d, s, si, ri);
            SetXmm(m1, d, SinglesMoved(m1.xmm[d], m1.xmm[s], d == s, si + 1, ri + 1, k - 1))
            == SetXmm(m, d, SinglesMoved(m.xmm[d], m.xmm[s], d == s, si, ri, k))
  {
    var m1 := SingleState(m, d, s, si, ri);
    var r1 := m1.xmm[d];
    var out := SinglesMoved(m.xmm[d], m.xmm[s], d == s, si, ri, k);
    SinglesMovedStep(m.xmm[d], m.xmm[s], d == s, si, ri, k);
    assert m1.xmm[s] == if d == s then r1 else m.xmm[s];
    assert m1.xmm[d := out] == m.xmm[d := out];
  }

  lemma FloatPack4Unfold(d: nat, s: nat, si: nat, ri: nat, k: nat, count: int)
    requires 0 < k
    ensures FloatPack4Loop(Reg(d, true), Reg(s, true), si + 1, ri + 1, k - 1, count).Emitted? ==>
            FloatPack4Loop(Reg(d, true), Reg(s, true), si, ri, k, count)
            == Emitted([OpImm(INSERTPS, Reg(d, true), Reg(s, true), InsertpsSelect(si, ri))]
                       + FloatPack4Loop(Reg(d, true), Reg(s, true), si + 1, ri + 1, k - 1, count).code)
  {
  }

  /** One single moved in front of `k - 1` more. */
  lemma SinglesMovedStep(r: Bytes, a: Bytes, same: bool, si: nat, ri: nat, k: nat)
    requires |r| == 16 && |a| == 16 && 0 < k && si + k <= 4 && ri + k <= 4
    requires same ==> a == r
    ensures si * 4 + 4 <= 16 && ri * 4 + 4 <= 16
    ensures var r1 := Put(r, 4, ri, Get(a, 4, si));
            SinglesMoved(r, a, same, si, ri, k) == SinglesMoved(r1, if same then r1 else a, same, si + 1, ri + 1, k - 1)
  {
  }

  /** `genop_vec_float_pack` for 4-byte floats between xmm registers: the
      `k` singles from `si` on land in the singles from `ri` on of the
      result, every other single of the result is kept, and nothing else
      changes (no scratch register is used). */
  lemma FloatPack4Sound(m: Machine, d: nat, s: nat, si: nat, ri: nat, k: nat)
    requires Valid(m) && d < 16 && s < 16 && si + k <= 4 && ri + k <= 4
    requires d != s || ri <= si
    ensures FloatPackCode(Reg(d, true), Reg(s, true), ri, si, k, 4).Emitted?
    ensures var r := Run(m, FloatPackCode(Reg(d, true), Reg(s, true), ri, si, k, 4).code);
            && r.Some? && XmmOnly(m, r.value, d)
            && LanesCopied(r.value.xmm[d], m.xmm[d], m.xmm[s], 4, si, ri, k)
  {
    FloatPack4Run(m, d, s, si, ri, k, k);
    if d == s {
      PackedWithinLanes(m.xmm[d], 4, si, ri, k);
    } else {
      PackedFromLanes(m.xmm[d], m.xmm[s], 4, si, ri, k);
    }
  }

  /** `genop_vec_float_unpack` of one single into a general register: the
      register holds the single, zero-extended. */
  lemma FloatUnpackToGpr(m: Machine, g: nat, s: nat, si: nat, ri: int)
    requires Valid(m) && g < 16 && s < 16 && si < 4
    ensures FloatPackCode(Reg(g, false), Reg(s, true), ri, si, 1, 4).Emitted?
    ensures var r := Run(m, FloatPackCode(Reg(g, false), Reg(s, true), ri, si, 1, 4).code);
            && r.Some? && OnlyWrites(m, r.value, 16, g)
            && r.value.gpr[g] == Get(m.xmm[s], 4, si) + Zeros(4)
  {
    var i := OpImm(PEXTRD, Reg(g, false), Reg(s, true), si);
    assert FloatPackCode(Reg(g, false), Reg(s, true), ri, si, 1, 4).code == [i];
    DivModUnique(si, 4, 0, si);
    StepImm(m, PEXTRD, Reg(g, false), Reg(s, true), si);
    assert Step(m, i) == Some(SetGpr(m, g, Get(m.xmm[s], 4, si) + Zeros(4)));
    RunOne(m, i);
  }

  /** `genop_vec_float_pack` of a single from a general register (only one
      item, from index 0): it goes through the xmm scratch register into
      single `ri` of the result; the other singles are kept and no general
      register changes. */
  lemma FloatPackFromGpr(m: Machine, d: nat, g: nat, ri: nat)
    requires Valid(m) && d < 16 && d != 15 && g < 16 && ri < 4
    ensures FloatPackCode(Reg(d, true), Reg(g, false), ri, 0, 1, 4).Emitted?
    ensures var r := Run(m, FloatPackCode(Reg(d, true), Reg(g, false), ri, 0, 1, 4).code);
            && r.Some? && r.value.gpr == m.gpr
            && (forall j :: 0 <= j < 16 && j != d && j != 15 ==> r.value.xmm[j] == m.xmm[j])
            && r.value.xmm[d] == Put(m.xmm[d], 4, ri, m.gpr[g][..4])
  {
    var mv := Mov(Reg(g, false), XmmScratch);
    var i := OpImm(INSERTPS, Reg(d, true), XmmScratch, InsertpsSelect(0, ri));
    assert FloatPackCode(Reg(d, true), Reg(g, false), ri, 0, 1, 4).code == [mv, i];
    var m1 := SetXmm(m, 15, m.gpr[g] + Zeros(8));
    assert Step(m, mv) == Some(m1);
    InsertpsStep(m1, d, 15, 0, ri);
    assert Get(m1.xmm[15], 4, 0) == m.gpr[g][..4];
    RunCons(m, mv, [i]);
    RunOne(m1, i);
  }

  /* ---------------------------------------------------------------------
     Integer reduction at a guard exit
     --------------------------------------------------------------------- */

  /** The sum of the two 64-bit lanes of `x`, wrapped to 64 bits: the
      exact sum, or the exact sum less 2^64 when it carries out. */
  function LaneSum(x: Bytes): (v: nat)
    requires |x| == 16
    ensures v < Pow256(8)
    ensures var sum := ToNat(Get(x, 8, 0)) + ToNat(Get(x, 8, 1));
            v == sum || v + Pow256(8) == sum
  {
    ToNatBound(Get(x, 8, 0));
    ToNatBound(Get(x, 8, 1));
    LaneValue(Add, ToNat(Get(x, 8, 0)), ToNat(Get(x, 8, 1)), 8)
  }

  /** A string of `n` bytes is a number below 256^n. */
  lemma {:induction false} ToNatBound(s: Bytes)
    ensures ToNat(s) < Pow256(|s|)
  {
    if |s| > 0 {
      ToNatBound(s[1..]);
    }
  }

  /** `_accum_reduce_sum` for an integer accumulator: the target register
      receives the sum of the accumulator's two 64-bit lanes, wrapped to 64
      bits; only the target and the scratch register change.  The target must
      not be the scratch register, which the register allocator never hands
      out. */

  lemma ReduceSumIntSound(m: Machine, a: nat, t: nat)
    requires Valid(m) && a < 16 && t < 16 && t != 11
    ensures ReduceSumCode(INT, Reg(a, true), Reg(t, false)).Emitted?
    ensures var r := Run(m, ReduceSumCode(INT, Reg(a, true), Reg(t, false)).code);
            && r.Some? && r.value.xmm == m.xmm && r.value.gpr[11] == Get(m.xmm[a], 8, 1)
            && (forall j :: 0 <= j < 16 && j != t && j != 11 ==> r.value.gpr[j] == m.gpr[j])
            && ToNat(r.value.gpr[t]) == LaneSum(m.xmm[a])
  {
    var code := ReduceSumCode(INT, Reg(a, true), Reg(t, false)).code;
    assert code == [OpImm(PEXTRQ, Reg(t, false), Reg(a, true), 0), OpImm(PEXTRQ, Scratch, Reg(a, true), 1),
                    Op(ADD, Reg(t, false), Scratch)];
    ReduceSumIntRun(m, a, t);
  }

  /** The extractions and the addition of the integer reduction. */
  lemma ReduceSumIntRun(m: Machine, a: nat, t: nat)
    requires Valid(m) && a < 16 && t < 16 && t != 11
    ensures var r := Run(m, [OpImm(PEXTRQ, Reg(t, false), Reg(a, true), 0), OpImm(PEXTRQ, Scratch, Reg(a, true), 1),
                             Op(ADD, Reg(t, false), Scratch)]);
            && r.Some? && r.value.xmm == m.xmm && r.value.gpr[11] == Get(m.xmm[a], 8, 1)
            && (forall j :: 0 <= j < 16 && j != t && j != 11 ==> r.value.gpr[j] == m.gpr[j])
            && ToNat(r.value.gpr[t]) == LaneSum(m.xmm[a])
  {
    var i0 := OpImm(PEXTRQ, Reg(t, false), Reg(a, true), 0);
    var i1 := OpImm(PEXTRQ, Scratch, Reg(a, true), 1);
    var i2 := Op(ADD, Reg(t, false), Scratch);
    var m2 := LanesExtracted(m, a, t);
    var m3 := AddStep(m2, t, 11);
    SumOfLanes(m.xmm[a], m2.gpr[t], m2.gpr[11], m3.gpr[t]);
    RunOne(m2, i2);
    RunAppend(m, [i0, i1], [i2]);
    assert [i0, i1] + [i2] == [i0, i1, i2];
  }

  lemma SumOfLanes(x: Bytes, lo: Bytes, hi: Bytes, sum: Bytes)
    requires |x| == 16 && lo == Get(x, 8, 0) && hi == Get(x, 8, 1)
    requires ToNat(sum) == (ToNat(lo) + ToNat(hi)) % Pow256(8)
    ensures ToNat(sum) == LaneSum(x)
  {
  }

  /** The two `PEXTRQ` of the integer reduction: lane 0 into the target,
      lane 1 into the scratch register. */
  lemma LanesExtracted(m: Machine, a: nat, t: nat) returns (m2: Machine)
    requires Valid(m) && a < 16 && t < 16 && t != 11
    ensures Valid(m2)
    ensures Run(m, [OpImm(PEXTRQ, Reg(t, false), Reg(a, true), 0), OpImm(PEXTRQ, Scratch, Reg(a, true), 1)]) == Some(m2)
    ensures m2.xmm == m.xmm && m2.gpr[t] == Get(m.xmm[a], 8, 0) && m2.gpr[11] == Get(m.xmm[a], 8, 1)
    ensures forall j :: 0 <= j < 16 && j != t && j != 11 ==> m2.gpr[j] == m.gpr[j]
  {
    var i0 := OpImm(PEXTRQ, Reg(t, false), Reg(a, true), 0);
    var i1 := OpImm(PEXTRQ, Scratch, Reg(a, true), 1);
    var lo, hi := Get(m.xmm[a], 8, 0), Get(m.xmm[a], 8, 1);
    assert lo + Zeros(0) == lo && hi + Zeros(0) == hi;
    ExtractStep(m, t, a, 0, 8);
    var m1 := SetGpr(m, t, lo);
    ExtractStep(m1, 11, a, 1, 8);
    m2 := SetGpr(m1, 11, hi);
    RunCons(m, i0, [i1]);
    RunOne(m1, i1);
  }

  /** `ADD t, g` on general registers: `t` receives the sum wrapped to 64 bits. */
  lemma AddStep(m: Machine, t: nat, g: nat) returns (m': Machine)
    requires Valid(m) && t < 16 && g < 16
    ensures Step(m, Op(ADD, Reg(t, false), Reg(g, false))) == Some(m')
    ensures Valid(m') && m'.xmm == m.xmm && (forall j :: 0 <= j < 16 && j != t ==> m'.gpr[j] == m.gpr[j])
    ensures ToNat(m'.gpr[t]) == (ToNat(m.gpr[t]) + ToNat(m.gpr[g])) % Pow256(8)
  {
    var sum := ToNat(m.gpr[t]) + ToNat(m.gpr[g]);
    var v := FromNat(sum, 8);
    m' := SetGpr(m, t, v).(zf := AllZero(v), cf := sum >= Pow256(8));
    assert StepOp(m, ADD, Reg(t, false), Reg(g, false)) == Some(m');
    assert m'.gpr[t] == v;
    ToNatFromNat(sum, 8);
  }
}
