/** An abstract x86-64 machine, just large enough to give a meaning to the
    integer and lane-moving SSE instructions the vector emitter chooses.

    A machine has sixteen 16-byte xmm registers, sixteen 8-byte general
    registers and the two flags `PTEST` sets.  Bytes are numbered from the
    least significant one, so lane `k` of width `size` is bytes
    `k*size .. k*size+size` and integers are little-endian.  Floating-point
    arithmetic, conversions and memory operands have no meaning here:
    `Step` answers `None` for them. */
module Machine {
  import opened Outcome
  import opened Locations

  type Bytes = seq<bv8>

  /* ---------------------------------------------------------------------
     Bytes, lanes and little-endian numbers
     --------------------------------------------------------------------- */

  function Zeros(n: nat): (z: Bytes)
    ensures |z| == n && forall j :: 0 <= j < n ==> z[j] == 0
  {
    seq(n, _ => 0)
  }

  function Ones(n: nat): (z: Bytes)
    ensures |z| == n && forall j :: 0 <= j < n ==> z[j] == 0xFF
  {
    seq(n, _ => 0xFF)
  }

  predicate AllZero(s: Bytes)
  {
    forall j :: 0 <= j < |s| ==> s[j] == 0
  }

  /** Lane `k` of width `size`. */
  function Get(r: Bytes, size: nat, k: nat): (v: Bytes)
    requires k * size + size <= |r|
    ensures |v| == size
  {
    r[k * size .. k * size + size]
  }

  /** `r` with lane `k` of width `size` replaced by `v`. */
  function Put(r: Bytes, size: nat, k: nat, v: Bytes): (r': Bytes)
    requires k * size + size <= |r| && |v| == size
    ensures |r'| == |r|
  {
    r[..k * size] + v + r[k * size + size..]
  }

  function Pow256(n: nat): (p: nat)
    ensures p >= 1
  {
    if n == 0 then 1 else 256 * Pow256(n - 1)
  }

  /** The unsigned value of a byte: the sum of the powers of two of its set
      bits.  Written bit by bit, so that the value of a byte and the byte of
      a value are related by linear arithmetic alone. */
  function ByteVal(b: bv8): (v: nat)
    ensures v < 256
  {
    (if b & 0x80 != 0 then 128 else 0) + (if b & 0x40 != 0 then 64 else 0) + (if b & 0x20 != 0 then 32 else 0)
    + (if b & 0x10 != 0 then 16 else 0) + (if b & 8 != 0 then 8 else 0) + (if b & 4 != 0 then 4 else 0)
    + (if b & 2 != 0 then 2 else 0) + (if b & 1 != 0 then 1 else 0)
  }

  /** The byte whose unsigned value is `v`, its bits taken from the top down. */
  function ByteOf(v: nat): (b: bv8)
    requires v < 256
    ensures ByteVal(b) == v
  {
    var b7 := v >= 128;
    var v6 := if b7 then v - 128 else v;
    var b6 := v6 >= 64;
    var v5 := if b6 then v6 - 64 else v6;
    var b5 := v5 >= 32;
    var v4 := if b5 then v5 - 32 else v5;
    var b4 := v4 >= 16;
    var v3 := if b4 then v4 - 16 else v4;
    var b3 := v3 >= 8;
    var v2 := if b3 then v3 - 8 else v3;
    var b2 := v2 >= 4;
    var v1 := if b2 then v2 - 4 else v2;
    var b1 := v1 >= 2;
    var v0 := if b1 then v1 - 2 else v1;
    (if b7 then 0x80 else 0) | (if b6 then 0x40 else 0) | (if b5 then 0x20 else 0) | (if b4 then 0x10 else 0)
    | (if b3 then 8 else 0) | (if b2 then 4 else 0) | (if b1 then 2 else 0) | (if v0 == 1 then 1 else 0)
  }

  /** The unsigned value of a little-endian byte string. */
  function ToNat(s: Bytes): nat
  {
    if |s| == 0 then 0 else ByteVal(s[0]) + 256 * ToNat(s[1..])
  }

  /** The `len` low bytes of `n`, little-endian. */
  function FromNat(n: nat, len: nat): (s: Bytes)
    ensures |s| == len
  {
    if len == 0 then [] else [ByteOf(n % 256)] + FromNat(n / 256, len - 1)
  }

  /** Whether the sign bit (the top bit of the last byte) is set. */
  predicate Negative(s: Bytes)
    requires |s| > 0
  {
    s[|s| - 1] & 0x80 != 0
  }

  /** The two's complement value of a little-endian byte string. */
  function Signed(s: Bytes): int
    requires |s| > 0
  {
    ToNat(s) - (if Negative(s) then Pow256(|s|) else 0)
  }

  /** Four bytes widened to eight with copies of the sign bit. */
  function SignExtend4(x: Bytes): (r: Bytes)
    requires |x| == 4
    ensures |r| == 8 && r[..4] == x
  {
    x + (if Negative(x) then Ones(4) else Zeros(4))
  }

  /** Bytewise binary operations on equally long strings. */
  function Xor(a: Bytes, b: Bytes): (r: Bytes)
    requires |a| == |b|
    ensures |r| == |a|
  {
    seq(|a|, j requires 0 <= j < |a| => a[j] ^ b[j])
  }

  function And(a: Bytes, b: Bytes): (r: Bytes)
    requires |a| == |b|
    ensures |r| == |a|
  {
    seq(|a|, j requires 0 <= j < |a| => a[j] & b[j])
  }

  function AndNot(a: Bytes, b: Bytes): (r: Bytes)
    requires |a| == |b|
    ensures |r| == |a|
  {
    seq(|a|, j requires 0 <= j < |a| => !a[j] & b[j])
  }

  function Or(a: Bytes, b: Bytes): (r: Bytes)
    requires |a| == |b|
    ensures |r| == |a|
  {
    seq(|a|, j requires 0 <= j < |a| => a[j] | b[j])
  }

  /** The per-lane integer operations of the packed instructions. */
  datatype LaneOp = CmpEq | Add | Sub | MulLow

  function LaneResult(op: LaneOp, x: Bytes, y: Bytes): (v: Bytes)
    requires |x| == |y|
    ensures |v| == |x|
  {
    match op
    case CmpEq => if x == y then Ones(|x|) else Zeros(|x|)
    case Add => FromNat(ToNat(x) + ToNat(y), |x|)
    case Sub => FromNat((ToNat(x) - ToNat(y)) % Pow256(|x|), |x|)
    case MulLow => FromNat(ToNat(x) * ToNat(y), |x|)
  }

  /** The first `n` lanes of width `size` of `op` applied lane by lane. */
  function MapLanes(op: LaneOp, a: Bytes, b: Bytes, size: nat, n: nat): (r: Bytes)
    requires |a| == |b| && n * size <= |a|
    ensures |r| == n * size
  {
    if n == 0 then []
    else
      assert (n - 1) * size + size == n * size;
      MapLanes(op, a, b, size, n - 1) + LaneResult(op, Get(a, size, n - 1), Get(b, size, n - 1))
  }

  /** The packed form of `op` on a whole register, for the lane widths the
      instruction set has. */
  function Packed(op: LaneOp, a: Bytes, b: Bytes, size: int): (r: Option<Bytes>)
    requires |a| == 16 && |b| == 16
    ensures r.Some? ==> |r.value| == 16
  {
    if size == 1 then Some(MapLanes(op, a, b, 1, 16))
    else if size == 2 then Some(MapLanes(op, a, b, 2, 8))
    else if size == 4 then Some(MapLanes(op, a, b, 4, 4))
    else if size == 8 then Some(MapLanes(op, a, b, 8, 2))
    else None
  }

  /** Bit `i` of an immediate. */
  predicate Bit(x: bv8, i: nat)
    requires i < 8
  {
    (x >> i) & 1 == 1
  }

  /** The two-bit field of an immediate starting at bit `i`. */
  function Field2(x: bv8, i: nat): (f: nat)
    requires i < 7
    ensures f < 4
  {
    ((x >> i) & 3) as nat
  }

  /* ---------------------------------------------------------------------
     Instructions
     --------------------------------------------------------------------- */

  datatype Mnemonic =
    // integer and logical
    | PXOR | PAND | POR | PCMPEQQ | PCMPEQ(size: int) | PTEST | PBLENDW
    | PADDB | PADDW | PADDD | PADDQ | PSUBB | PSUBW | PSUBD | PSUBQ | PMULLW | PMULLD
    | ADD
    // lane extraction and insertion
    | PEXTRB | PEXTRW | PEXTRD | PEXTRQ | PINSRB | PINSRW | PINSRD | PINSRQ
    // shuffles and lane moves
    | MOVSD | UNPCKLPD | UNPCKHPD | SHUFPD | SHUFPS | INSERTPS | MOVDDUP
    | PSHUFB | PSHUFD | PSHUFLW | PSHUFHW
    // sign extension of two doublewords to quadwords
    | PMOVSXDQ
    // whole-register moves
    | MOVDQA | MOVDQU | MOVUPS | MOVUPD | MOVAPD
    // floating point (no meaning in this model)
    | ADDPS | ADDPD | SUBPS | SUBPD | MULPS | MULPD | DIVPS | DIVPD | MULSD | HADDPD
    | ANDPS | ANDPD | XORPS | XORPD
    | CVTPD2PS | CVTPD2DQ | CVTDQ2PD | CVTPS2PD

  datatype Instr =
    | Op(m: Mnemonic, dst: Loc, src: Loc)                // two-operand form on locations
    | OpImm(m: Mnemonic, dst: Loc, src: Loc, imm: int)   // the `_xxi`, `_rxi`, `_xri` forms
    | Mov(src: Loc, dst: Loc)                            // the assembler's generic `mov`

  /** A register number passed to a `_rxi`/`_xri`/`_xxi` form, read in the
      register class the form fixes; any other location stays as it is and
      has no meaning there. */
  function AsReg(l: Loc, xmm: bool): (r: Loc)
    ensures l.Reg? ==> r == Reg(l.num, xmm)
  {
    if l.Reg? then Reg(l.num, xmm) else l
  }

  /** The lane width of each extract and insert instruction. */
  function ExtractWidth(m: Mnemonic): nat
  {
    match m
    case PEXTRB => 1
    case PEXTRW => 2
    case PEXTRD => 4
    case PEXTRQ => 8
    case _ => 0
  }

  function InsertWidth(m: Mnemonic): nat
  {
    match m
    case PINSRB => 1
    case PINSRW => 2
    case PINSRD => 4
    case PINSRQ => 8
    case _ => 0
  }

  /* ---------------------------------------------------------------------
     The machine and one step of it
     --------------------------------------------------------------------- */

  datatype Machine = Machine(xmm: seq<Bytes>, gpr: seq<Bytes>, zf: bool, cf: bool)

  predicate Valid(m: Machine)
  {
    && |m.xmm| == 16 && |m.gpr| == 16
    && (forall i :: 0 <= i < 16 ==> |m.xmm[i]| == 16)
    && (forall i :: 0 <= i < 16 ==> |m.gpr[i]| == 8)
  }

  predicate XmmReg(l: Loc) { l.Reg? && l.isXmm && l.num < 16 }
  predicate GprReg(l: Loc) { l.Reg? && !l.isXmm && l.num < 16 }

  function SetXmm(m: Machine, n: nat, v: Bytes): (r: Machine)
    requires Valid(m) && n < 16 && |v| == 16
    ensures Valid(r)
  {
    m.(xmm := m.xmm[n := v])
  }

  /** Writing a register twice keeps the second value. */
  lemma SetXmmTwice(m: Machine, n: nat, a: Bytes, b: Bytes)
    requires Valid(m) && n < 16 && |a| == 16 && |b| == 16
    ensures SetXmm(SetXmm(m, n, a), n, b) == SetXmm(m, n, b)
  {
    assert m.xmm[n := a][n := b] == m.xmm[n := b];
  }

  function SetGpr(m: Machine, n: nat, v: Bytes): (r: Machine)
    requires Valid(m) && n < 16 && |v| == 8
    ensures Valid(r)
  {
    m.(gpr := m.gpr[n := v])
  }

  /** The new destination of a two-operand xmm instruction. */
  function XmmResult(mn: Mnemonic, a: Bytes, b: Bytes): (r: Option<Bytes>)
    requires |a| == 16 && |b| == 16
    ensures r.Some? ==> |r.value| == 16
  {
    match mn
    case PXOR => Some(Xor(a, b))
    case PAND => Some(And(a, b))
    case POR => Some(Or(a, b))
    case PCMPEQQ => Packed(CmpEq, a, b, 8)
    case PCMPEQ(size) => Packed(CmpEq, a, b, size)
    case PADDB => Packed(Add, a, b, 1)
    case PADDW => Packed(Add, a, b, 2)
    case PADDD => Packed(Add, a, b, 4)
    case PADDQ => Packed(Add, a, b, 8)
    case PSUBB => Packed(Sub, a, b, 1)
    case PSUBW => Packed(Sub, a, b, 2)
    case PSUBD => Packed(Sub, a, b, 4)
    case PSUBQ => Packed(Sub, a, b, 8)
    case PMULLW => Packed(MulLow, a, b, 2)
    case PMULLD => Packed(MulLow, a, b, 4)
    case MOVSD => Some(Put(a, 8, 0, Get(b, 8, 0)))
    case UNPCKLPD => Some(Get(a, 8, 0) + Get(b, 8, 0))
    case UNPCKHPD => Some(Get(a, 8, 1) + Get(b, 8, 1))
    case MOVDDUP => Some(Get(b, 8, 0) + Get(b, 8, 0))
    case PMOVSXDQ => Some(SignExtend4(Get(b, 4, 0)) + SignExtend4(Get(b, 4, 1)))
    case MOVDQA => Some(b)
    case MOVDQU => Some(b)
    case MOVUPS => Some(b)
    case MOVUPD => Some(b)
    case MOVAPD => Some(b)
    case _ => None
  }

  /** The new destination of an xmm instruction with an immediate. */
  function XmmImmResult(mn: Mnemonic, a: Bytes, b: Bytes, imm: bv8): (r: Option<Bytes>)
    requires |a| == 16 && |b| == 16
    ensures r.Some? ==> |r.value| == 16
  {
    match mn
    case PBLENDW => Some(seq(16, j requires 0 <= j < 16 => if Bit(imm, j / 2) then b[j] else a[j]))
    case SHUFPD => Some(Get(a, 8, if Bit(imm, 0) then 1 else 0) + Get(b, 8, if Bit(imm, 1) then 1 else 0))
    case SHUFPS =>
      Some(Get(a, 4, Field2(imm, 0)) + Get(a, 4, Field2(imm, 2)) + Get(b, 4, Field2(imm, 4)) + Get(b, 4, Field2(imm, 6)))
    case PSHUFD =>
      Some(Get(b, 4, Field2(imm, 0)) + Get(b, 4, Field2(imm, 2)) + Get(b, 4, Field2(imm, 4)) + Get(b, 4, Field2(imm, 6)))
    case PSHUFLW =>
      Some(Get(b, 2, Field2(imm, 0)) + Get(b, 2, Field2(imm, 2)) + Get(b, 2, Field2(imm, 4)) + Get(b, 2, Field2(imm, 6))
           + b[8..])
    case PSHUFHW =>
      Some(b[..8] + Get(b, 2, 4 + Field2(imm, 0)) + Get(b, 2, 4 + Field2(imm, 2)) + Get(b, 2, 4 + Field2(imm, 4))
           + Get(b, 2, 4 + Field2(imm, 6)))
    case INSERTPS =>
      var inserted := Put(a, 4, Field2(imm, 4), Get(b, 4, Field2(imm, 6)));
      Some(seq(16, j requires 0 <= j < 16 => if Bit(imm, j / 4) then 0 else inserted[j]))
    case _ => None
  }

  function StepOp(m: Machine, mn: Mnemonic, d: Loc, s: Loc): (r: Option<Machine>)
    requires Valid(m)
    ensures r.Some? ==> Valid(r.value)
  {
    if XmmReg(d) && XmmReg(s) then
      var a := m.xmm[d.num];
      var b := m.xmm[s.num];
      if mn == PTEST then Some(m.(zf := AllZero(And(a, b)), cf := AllZero(AndNot(a, b))))
      else
        match XmmResult(mn, a, b)
        case None => None
        case Some(v) => Some(SetXmm(m, d.num, v))
    else if GprReg(d) && GprReg(s) && mn == ADD then
      var sum := ToNat(m.gpr[d.num]) + ToNat(m.gpr[s.num]);
      var v := FromNat(sum, 8);
      Some(SetGpr(m, d.num, v).(zf := AllZero(v), cf := sum >= Pow256(8)))
    else None
  }

  function StepOpImm(m: Machine, mn: Mnemonic, d: Loc, s: Loc, imm: int): (r: Option<Machine>)
    requires Valid(m) && 0 <= imm < 256
    ensures r.Some? ==> Valid(r.value)
  {
    var ew := ExtractWidth(mn);
    var iw := InsertWidth(mn);
    if ew > 0 then
      // the lane index is the immediate's low bits; the general register is zero-extended
      if GprReg(d) && XmmReg(s) then
        var k := imm % (16 / ew);
        assert k * ew + ew <= 16;
        Some(SetGpr(m, d.num, Get(m.xmm[s.num], ew, k) + Zeros(8 - ew)))
      else None
    else if iw > 0 then
      if XmmReg(d) && GprReg(s) then
        var k := imm % (16 / iw);
        assert k * iw + iw <= 16;
        Some(SetXmm(m, d.num, Put(m.xmm[d.num], iw, k, m.gpr[s.num][..iw])))
      else None
    else if XmmReg(d) && XmmReg(s) then
      match XmmImmResult(mn, m.xmm[d.num], m.xmm[s.num], imm as bv8)
      case None => None
      case Some(v) => Some(SetXmm(m, d.num, v))
    else None
  }

  /** The assembler's generic `mov` between registers, or of an immediate
      into a general register (two's complement, 64 bits).  A general
      register moved into an xmm register fills its low eight bytes and
      clears the rest, as `MOVQ` does. */
  function StepMov(m: Machine, s: Loc, d: Loc): (r: Option<Machine>)
    requires Valid(m)
    ensures r.Some? ==> Valid(r.value)
  {
    if XmmReg(s) && XmmReg(d) then Some(SetXmm(m, d.num, m.xmm[s.num]))
    else if GprReg(s) && GprReg(d) then Some(SetGpr(m, d.num, m.gpr[s.num]))
    else if s.Immed? && GprReg(d) then Some(SetGpr(m, d.num, FromNat(s.value % Pow256(8), 8)))
    else if GprReg(s) && XmmReg(d) then Some(SetXmm(m, d.num, m.gpr[s.num] + Zeros(8)))
    else None
  }

  /** One instruction; `None` when the model gives it no meaning (floating
      point, memory operands, an immediate that does not fit a byte, operands
      of the wrong register class). */
  function Step(m: Machine, i: Instr): (r: Option<Machine>)
    requires Valid(m)
    ensures r.Some? ==> Valid(r.value)
  {
    match i
    case Op(mn, d, s) => StepOp(m, mn, d, s)
    case OpImm(mn, d, s, imm) => if 0 <= imm < 256 then StepOpImm(m, mn, d, s, imm) else None
    case Mov(s, d) => StepMov(m, s, d)
  }

  /** A sequence of instructions, stopping at the first one without meaning. */
  function Run(m: Machine, code: seq<Instr>): (r: Option<Machine>)
    requires Valid(m)
    ensures r.Some? ==> Valid(r.value)
    decreases |code|
  {
    if |code| == 0 then Some(m)
    else
      match Step(m, code[0])
      case None => None
      case Some(m1) => Run(m1, code[1..])
  }

  /* ---------------------------------------------------------------------
     Facts about lanes, numbers and runs
     --------------------------------------------------------------------- */

  lemma {:induction false} MulMono(x: nat, size: nat)
    requires x >= 1
    ensures x * size >= size
    decreases x
  {
    if x > 1 {
      MulMono(x - 1, size);
      assert x * size == (x - 1) * size + size;
    }
  }

  lemma {:induction false} MulStep(a: nat, b: nat, size: nat)
    requires a < b
    ensures a * size + size <= b * size
    decreases b
  {
    assert b * size == (b - 1) * size + size;
    if a < b - 1 {
      MulStep(a, b - 1, size);
    }
  }

  /** An instruction with an immediate that fits a byte steps by `StepOpImm`. */
  lemma StepImm(m: Machine, mn: Mnemonic, d: Loc, s: Loc, imm: int)
    requires Valid(m) && 0 <= imm < 256
    ensures Step(m, OpImm(mn, d, s, imm)) == StepOpImm(m, mn, d, s, imm)
  {
  }

  /** A two-register xmm instruction other than `PTEST` replaces its destination. */
  lemma StepXmm(m: Machine, mn: Mnemonic, d: nat, s: nat)
    requires Valid(m) && d < 16 && s < 16 && mn != PTEST && XmmResult(mn, m.xmm[d], m.xmm[s]).Some?
    ensures Step(m, Op(mn, Reg(d, true), Reg(s, true))) == Some(SetXmm(m, d, XmmResult(mn, m.xmm[d], m.xmm[s]).value))
  {
  }

  lemma GetPutSame(r: Bytes, size: nat, k: nat, v: Bytes)
    requires k * size + size <= |r| && |v| == size
    ensures Get(Put(r, size, k, v), size, k) == v
  {
    var p := Put(r, size, k, v);
    assert p == r[..k * size] + v + r[k * size + size..];
    assert p[k * size .. k * size + size] == v;
  }

  lemma GetPutOther(r: Bytes, size: nat, k: nat, k': nat, v: Bytes)
    requires k * size + size <= |r| && k' * size + size <= |r| && |v| == size && k != k'
    ensures Get(Put(r, size, k, v), size, k') == Get(r, size, k')
  {
    var p := Put(r, size, k, v);
    if k' < k {
      MulStep(k', k, size);
    } else {
      MulStep(k, k', size);
    }
    forall j | 0 <= j < size
      ensures Get(p, size, k')[j] == Get(r, size, k')[j]
    {
    }
  }

  /** Division with remainder has one answer. */
  lemma DivModUnique(n: int, d: int, q: int, x: int)
    requires d > 0 && n == d * q + x && 0 <= x < d
    ensures n / d == q && n % d == x
  {
    var t := q - n / d;
    assert d * t == n % d - x;
    if t >= 1 {
      MulMono(t, d);
    }
  }

  /** A number below the modulus is its own remainder. */
  lemma SmallMod(n: nat, p: nat)
    requires n < p
    ensures n % p == n
  {
    DivModUnique(n, p, 0, n);
  }

  /** Taking a number modulo `256 * p` keeps its low byte and takes the rest modulo `p`. */
  lemma ModByteThen(n: nat, p: nat)
    requires p >= 1
    ensures n % (256 * p) == n % 256 + 256 * ((n / 256) % p)
  {
    var q := n / 256;
    assert q == p * (q / p) + q % p;
    assert n == 256 * q + n % 256;
    assert n == (256 * p) * (q / p) + (256 * (q % p) + n % 256);
    assert 256 * (q % p) + n % 256 < 256 * p by {
      assert q % p <= p - 1;
      assert 256 * (q % p) <= 256 * (p - 1);
    }
    DivModUnique(n, 256 * p, q / p, 256 * (q % p) + n % 256);
  }

  lemma {:induction false} ToNatFromNat(n: nat, len: nat)
    ensures ToNat(FromNat(n, len)) == n % Pow256(len)
  {
    if len > 0 {
      var s := FromNat(n, len);
      var rest := FromNat(n / 256, len - 1);
      var low := ByteOf(n % 256);
      assert s == [low] + rest;
      assert s[0] == low && s[1..] == rest;
      ToNatFromNat(n / 256, len - 1);
      assert ToNat(s) == ByteVal(low) + 256 * ToNat(rest);
      ModByteThen(n, Pow256(len - 1));
    }
  }

  lemma GetAppendLeft(x: Bytes, y: Bytes, size: nat, k: nat)
    requires k * size + size <= |x|
    ensures Get(x + y, size, k) == Get(x, size, k)
  {
  }

  lemma GetAppendRight(x: Bytes, y: Bytes, size: nat, k: nat)
    requires k * size == |x| && |y| == size
    ensures Get(x + y, size, k) == y
  {
  }

  lemma {:induction false} GetMapLanes(op: LaneOp, a: Bytes, b: Bytes, size: nat, n: nat, k: nat)
    requires |a| == |b| && n * size <= |a| && k < n
    ensures k * size + size <= n * size
    ensures Get(MapLanes(op, a, b, size, n), size, k) == LaneResult(op, Get(a, size, k), Get(b, size, k))
    decreases n, 1
  {
    MulStep(k, n, size);
    if k < n - 1 {
      GetMapLanesPrefix(op, a, b, size, n, k);
    } else {
      MapLanesLast(op, a, b, size, n);
      GetAppendRight(MapLanes(op, a, b, size, n - 1), LaneResult(op, Get(a, size, n - 1), Get(b, size, n - 1)), size, k);
    }
  }

  /** A lane before the last one comes from the lanes mapped before. */
  lemma GetMapLanesPrefix(op: LaneOp, a: Bytes, b: Bytes, size: nat, n: nat, k: nat)
    requires |a| == |b| && n * size <= |a| && k < n - 1
    ensures k * size + size <= (n - 1) * size
    ensures Get(MapLanes(op, a, b, size, n), size, k) == LaneResult(op, Get(a, size, k), Get(b, size, k))
    decreases n, 0
  {
    MulStep(k, n - 1, size);
    MapLanesLast(op, a, b, size, n);
    GetMapLanes(op, a, b, size, n - 1, k);
    GetAppendLeft(MapLanes(op, a, b, size, n - 1), LaneResult(op, Get(a, size, n - 1), Get(b, size, n - 1)), size, k);
  }

  lemma MapLanesLast(op: LaneOp, a: Bytes, b: Bytes, size: nat, n: nat)
    requires |a| == |b| && n * size <= |a| && n > 0
    ensures (n - 1) * size + size == n * size
    ensures MapLanes(op, a, b, size, n)
            == MapLanes(op, a, b, size, n - 1) + LaneResult(op, Get(a, size, n - 1), Get(b, size, n - 1))
  {
  }

  lemma AllZeroAppend(x: Bytes, y: Bytes)
    ensures AllZero(x + y) <==> AllZero(x) && AllZero(y)
  {
    if AllZero(x + y) {
      forall j | 0 <= j < |x| ensures x[j] == 0 { assert (x + y)[j] == x[j]; }
      forall j | 0 <= j < |y| ensures y[j] == 0 { assert (x + y)[|x| + j] == y[j]; }
    }
  }

  /** A packed comparison finds no equal lane exactly when its result is all zero. */
  lemma {:induction false} CmpEqAllZero(a: Bytes, b: Bytes, size: nat, n: nat)
    requires |a| == |b| && n * size <= |a| && size > 0
    ensures AllZero(MapLanes(CmpEq, a, b, size, n)) <==>
            forall k :: 0 <= k < n ==> (MulStep(k, n, size); Get(a, size, k) != Get(b, size, k))
  {
    if n > 0 {
      var prefix := MapLanes(CmpEq, a, b, size, n - 1);
      assert (n - 1) * size + size == n * size;
      var last := LaneResult(CmpEq, Get(a, size, n - 1), Get(b, size, n - 1));
      assert MapLanes(CmpEq, a, b, size, n) == prefix + last;
      CmpEqAllZero(a, b, size, n - 1);
      AllZeroAppend(prefix, last);
      assert AllZero(last) <==> Get(a, size, n - 1) != Get(b, size, n - 1) by {
        if Get(a, size, n - 1) == Get(b, size, n - 1) { assert last[0] == 0xFF; }
      }
    }
  }

  lemma {:induction false} RunAppend(m: Machine, c1: seq<Instr>, c2: seq<Instr>)
    requires Valid(m)
    ensures Run(m, c1 + c2) == if Run(m, c1).None? then None else Run(Run(m, c1).value, c2)
    decreases |c1|
  {
    if |c1| > 0 {
      assert (c1 + c2)[0] == c1[0];
      assert (c1 + c2)[1..] == c1[1..] + c2;
      match Step(m, c1[0])
      case None =>
      case Some(m1) => RunAppend(m1, c1[1..], c2);
    } else {
      assert c1 + c2 == c2;
    }
  }
}
