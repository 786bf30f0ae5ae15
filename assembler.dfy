/** The vector instruction selector of the x86-64 JIT backend.

    Every `genop_*` turns the locations the resolver chose into SSE
    instructions appended to the machine-code buffer `mc`.  The choice of
    instructions for each operation is given by a specification function
    (`...Code`); the methods of `VectorAssembler` follow the backend's own
    branches and loops and are proved to append exactly that code.  A
    `genop_*` that raises (`not_implemented` or a failed assertion) leaves in
    the buffer what it emitted before raising, which `Emission` records. */
module Assembler {
  import opened Outcome
  import opened Locations
  import opened Machine
  import opened History
  import opened Allocator

  /** `cpu.vector_register_size` */
  const VectorRegisterSize: nat := 16

  /** The code a `genop_*` leaves in the buffer: all of it, or what it had
      emitted when it raised. */
  datatype Emission = Emitted(code: seq<Instr>) | Raised(partial: seq<Instr>, error: Error)

  function CodeOf(e: Emission): seq<Instr>
  {
    if e.Emitted? then e.code else e.partial
  }

  function StatusOf(e: Emission): Status
  {
    if e.Emitted? then Done else Failed(e.error)
  }

  /** `code` emitted before whatever `e` emits. */
  function Prepend(code: seq<Instr>, e: Emission): (r: Emission)
    ensures CodeOf(r) == code + CodeOf(e) && StatusOf(r) == StatusOf(e)
  {
    match e
    case Emitted(c) => Emitted(code + c)
    case Raised(p, err) => Raised(code + p, err)
  }

  lemma AppendAssoc(a: seq<Instr>, b: seq<Instr>, c: seq<Instr>)
    ensures a + (b + c) == (a + b) + c
  {
  }

  lemma PrependTwice(a: seq<Instr>, b: seq<Instr>, e: Emission)
    ensures Prepend(a, Prepend(b, e)) == Prepend(a + b, e)
  {
    match e
    case Emitted(c) => assert a + (b + c) == (a + b) + c;
    case Raised(p, err) => assert a + (b + p) == (a + b) + p;
  }

  /* ---------------------------------------------------------------------
     Guards
     --------------------------------------------------------------------- */

  /** `x` with bit `index` set. */
  function SetBit(x: bv8, index: nat): bv8
    requires index < 8
  {
    x | (1 << index)
  }

  lemma BitOfOr(x: bv8, y: bv8, i: nat)
    requires i < 8
    ensures Bit(x | y, i) <==> Bit(x, i) || Bit(y, i)
  {
    if i == 0 {} else if i == 1 {} else if i == 2 {} else if i == 3 {}
    else if i == 4 {} else if i == 5 {} else if i == 6 {} else {}
  }

  lemma BitOfShift(index: nat, i: nat)
    requires index < 8 && i < 8
    ensures Bit(1 << index, i) <==> i == index
  {
    if index == 0 {} else if index == 1 {} else if index == 2 {} else if index == 3 {}
    else if index == 4 {} else if index == 5 {} else if index == 6 {} else {}
  }

  lemma SetBitBits(x: bv8, index: nat)
    requires index < 8
    ensures forall i :: 0 <= i < 8 ==> (Bit(SetBit(x, index), i) <==> Bit(x, i) || i == index)
  {
    forall i | 0 <= i < 8
      ensures Bit(SetBit(x, index), i) <==> Bit(x, i) || i == index
    {
      BitOfOr(x, 1 << index, i);
      BitOfShift(index, i);
    }
  }

  lemma ZeroBits()
    ensures forall i :: 0 <= i < 8 ==> !Bit(0, i)
  {
    forall i | 0 <= i < 8
      ensures !Bit(0, i)
    {
      if i == 0 {} else if i == 1 {} else if i == 2 {} else if i == 3 {}
      else if i == 4 {} else if i == 5 {} else if i == 6 {} else {}
    }
  }

  /** The mask with bits `index` .. 7 set. */
  function MaskFrom(index: nat): (select: bv8)
    ensures forall i :: 0 <= i < 8 ==> (Bit(select, i) <==> index <= i)
    decreases 8 - index
  {
    if index >= 8 then
      ZeroBits();
      0
    else
      SetBitBits(MaskFrom(index + 1), index);
      SetBit(MaskFrom(index + 1), index)
  }

  /** The `PBLENDW` word mask of a vector using `bitsUsed` bits of the
      register: one bit per 16-bit word, set for every word from the one
      `bitsUsed` falls in upwards. */
  function BlendMask(bitsUsed: nat): (select: bv8)
    ensures forall i :: 0 <= i < 8 ==> (Bit(select, i) <==> bitsUsed / 16 <= i)
  {
    MaskFrom(bitsUsed / 16)
  }

  lemma BitsDetermine(x: bv8, y: bv8)
    requires forall i :: 0 <= i < 8 ==> (Bit(x, i) <==> Bit(y, i))
    ensures x == y
  {
    assert Bit(x, 0) == Bit(y, 0) && Bit(x, 1) == Bit(y, 1) && Bit(x, 2) == Bit(y, 2) && Bit(x, 3) == Bit(y, 3);
    assert Bit(x, 4) == Bit(y, 4) && Bit(x, 5) == Bit(y, 5) && Bit(x, 6) == Bit(y, 6) && Bit(x, 7) == Bit(y, 7);
  }

  /** The loop of `_guard_vector_true` that builds the blend mask. */
  method BlendSelect(bitsUsed: nat) returns (select: bv8)
    ensures select == BlendMask(bitsUsed)
  {
    select := 0;
    ZeroBits();
    var index := bitsUsed / 16;
    while index < 8
      invariant bitsUsed / 16 <= index
      invariant bitsUsed / 16 < 8 ==> index <= 8
      invariant forall i :: 0 <= i < 8 ==> (Bit(select, i) <==> bitsUsed / 16 <= i < index)
    {
      SetBitBits(select, index);
      select := SetBit(select, index);
      index := index + 1;
    }
    BitsDetermine(select, BlendMask(bitsUsed));
  }

  /** The code of `_guard_vector_true` for the vector `arg` held in `loc`:
      zero the scratch register; when the vector does not fill the register,
      blend ones into its unused words and zero the scratch again; then
      compare each item with zero, fill the scratch with ones and test. */
  function GuardCode(arg: Box, loc: Loc): (code: seq<Instr>)
    requires arg.BoxVector?
    ensures |code| >= 4 && code[0] == Op(PXOR, XmmScratch, XmmScratch)
    ensures code[|code| - 3..] ==
            [Op(PCMPEQ(arg.itemSize), loc, XmmScratch), Op(PCMPEQQ, XmmScratch, XmmScratch), Op(PTEST, loc, XmmScratch)]
    ensures FullyPacked(arg, VectorRegisterSize) ==> |code| == 4
    ensures !FullyPacked(arg, VectorRegisterSize) ==>
              && |code| == 7
              && code[1..4] == [Op(PCMPEQQ, XmmScratch, XmmScratch),
                                OpImm(PBLENDW, AsReg(loc, true), XmmScratch, BlendMask(arg.itemCount * arg.itemSize * 8) as int),
                                Op(PXOR, XmmScratch, XmmScratch)]
  {
    var temp := XmmScratch;
    [Op(PXOR, temp, temp)]
    + (if FullyPacked(arg, VectorRegisterSize) then []
       else [Op(PCMPEQQ, temp, temp),
             OpImm(PBLENDW, AsReg(loc, true), temp, BlendMask(arg.itemCount * arg.itemSize * 8) as int),
             Op(PXOR, temp, temp)])
    + [Op(PCMPEQ(arg.itemSize), loc, temp), Op(PCMPEQQ, temp, temp), Op(PTEST, loc, temp)]
  }

  /** `_guard_vector_true` with the blend corrected for a vector of an odd
      number of bytes: the blend starts at the first word past the vector,
      and the one byte after the vector inside its last word is set to 0xFF
      through the general scratch register.  For an even number of bytes it
      is the code as emitted. */
  function GuardCodeCorrected(arg: Box, loc: Loc): (code: seq<Instr>)
    requires arg.BoxVector?
    ensures (arg.itemCount * arg.itemSize) % 2 == 0 ==> code == GuardCode(arg, loc)
  {
    var temp := XmmScratch;
    var used := arg.itemCount * arg.itemSize;
    [Op(PXOR, temp, temp)]
    + (if FullyPacked(arg, VectorRegisterSize) then []
       else [Op(PCMPEQQ, temp, temp),
             OpImm(PBLENDW, AsReg(loc, true), temp, BlendMask((used + used % 2) * 8) as int),
             Op(PXOR, temp, temp)]
            + (if used % 2 == 1 then [Mov(Immed(255), Scratch), OpImm(PINSRB, AsReg(loc, true), Scratch, used)] else []))
    + [Op(PCMPEQ(arg.itemSize), loc, temp), Op(PCMPEQQ, temp, temp), Op(PTEST, loc, temp)]
  }

  /* ---------------------------------------------------------------------
     Accumulators at guard exits
     --------------------------------------------------------------------- */

  /** `_accum_reduce_sum`: float pairs are added horizontally, integer
      lanes 0 and 1 are extracted and added; other types are not implemented. */
  function ReduceSumCode(argType: ValueType, accumloc: Loc, targetloc: Loc): (e: Emission)
    ensures e.Emitted? <==> argType == FLOAT || argType == INT
    ensures e.Raised? ==> e.partial == [] && e.error == NotImplemented
  {
    if argType == FLOAT then
      Emitted([Op(HADDPD, accumloc, accumloc)] + (if accumloc != targetloc then [Mov(accumloc, targetloc)] else []))
    else if argType == INT then
      Emitted([OpImm(PEXTRQ, AsReg(targetloc, false), AsReg(accumloc, true), 0),
               OpImm(PEXTRQ, Scratch, AsReg(accumloc, true), 1),
               Op(ADD, targetloc, Scratch)])
    else Raised([], NotImplemented)
  }

  /** `_accum_reduce_mul`: swap the two doubles into the scratch register and
      multiply them into the accumulator. */
  function ReduceMulCode(accumloc: Loc, targetloc: Loc): seq<Instr>
  {
    [Mov(accumloc, XmmScratch),
     OpImm(SHUFPD, XmmScratch, XmmScratch, 1),
     Op(MULSD, accumloc, XmmScratch)]
    + (if accumloc != targetloc then [Mov(accumloc, targetloc)] else [])
  }

  /** The scalar a guard exit reduces a fail argument into: the argument
      itself, or the scalar variable of an accumulator box. */
  function ReducedArg(arg: Option<Box>): Option<Box>
  {
    match arg
    case Some(BoxVector(_, _, _, _, Accumulator(s))) => s
    case _ => arg
  }

  predicate ChainFits(ns: seq<AccumInfo>, nLocs: nat, nArgs: nat)
  {
    forall i :: 0 <= i < |ns| ==> ns[i].position < nLocs && ns[i].position < nArgs
  }

  /** The state `_accum_update_at_exit` leaves: the fail locations, the code,
      the requests made to the register allocator and how it ended. */
  datatype ExitState = ExitState(locs: seq<Loc>, code: seq<Instr>, calls: seq<Request>, status: Status)

  /** `_accum_update_at_exit` over the remaining chain `ns`, starting from the
      fail locations `locs` and the allocator history `calls`. */
  function AccumExit(locs: seq<Loc>, args: seq<Option<Box>>, ns: seq<AccumInfo>, alloc: Alloc, calls: seq<Request>)
    : (r: ExitState)
    requires ChainFits(ns, |locs|, |args|)
    ensures |r.locs| == |locs|
    ensures |calls| <= |r.calls| && r.calls[..|calls|] == calls
    ensures r.status == Done ==> |r.calls| == |calls| + 2 * |ns|
    decreases |ns|
  {
    if ns == [] then ExitState(locs, [], calls, Done)
    else
      var pos := ns[0].position;
      var loc := locs[pos];
      if !loc.Reg? then ExitState(locs, [], calls, Failed(AssertionError))
      else
        match ReducedArg(args[pos])
        case None => ExitState(locs, [], calls, Failed(AssertionError))
        case Some(arg) =>
          var tgtloc := alloc(calls, ForceAllocate(arg));
          var calls1 := calls + [ForceAllocate(arg)];
          var e := if ns[0].operation == "+" then ReduceSumCode(TypeOf(arg), loc, tgtloc)
                   else if ns[0].operation == "*" then Emitted(ReduceMulCode(loc, tgtloc))
                   else Raised([], NotImplemented);
          if e.Raised? then ExitState(locs, e.partial, calls1, Failed(e.error))
          else
            assert ChainFits(ns[1..], |locs|, |args|);
            var rest := AccumExit(locs[pos := tgtloc], args, ns[1..], alloc, calls1 + [PossiblyFree(arg)]);
            ExitState(rest.locs, e.code + rest.code, rest.calls, rest.status)
  }

  /** One node of the chain reduced without error: the code for the node
      comes first and the walk goes on with the node's fail location
      replaced and `arg` given back to the allocator. */
  lemma AccumExitStep(locs: seq<Loc>, args: seq<Option<Box>>, ns: seq<AccumInfo>, alloc: Alloc, calls: seq<Request>,
                      arg: Box, emitted: seq<Instr>)
    requires ChainFits(ns, |locs|, |args|) && ns != []
    requires locs[ns[0].position].Reg? && ReducedArg(args[ns[0].position]) == Some(arg)
    requires var loc, tgtloc := locs[ns[0].position], alloc(calls, ForceAllocate(arg));
             || (ns[0].operation == "+" && ReduceSumCode(TypeOf(arg), loc, tgtloc) == Emitted(emitted))
             || (ns[0].operation == "*" && ReduceMulCode(loc, tgtloc) == emitted)
    ensures ChainFits(ns[1..], |locs|, |args|)
    ensures var pos := ns[0].position;
            var rest := AccumExit(locs[pos := alloc(calls, ForceAllocate(arg))], args, ns[1..], alloc,
                                  calls + [ForceAllocate(arg)] + [PossiblyFree(arg)]);
            AccumExit(locs, args, ns, alloc, calls) == ExitState(rest.locs, emitted + rest.code, rest.calls, rest.status)
  {
  }

  /* ---------------------------------------------------------------------
     Loads and stores
     --------------------------------------------------------------------- */

  /** `_vec_load`: integer vectors by `MOVDQA` when aligned and `MOVDQU`
      otherwise, float vectors by `MOVUPS` (4-byte items) or `MOVUPD`
      (8-byte items); nothing for other float sizes. */
  function LoadCode(resloc: Loc, src: Loc, integer: bool, itemsize: int, aligned: bool): seq<Instr>
  {
    if integer then [Op(if aligned then MOVDQA else MOVDQU, resloc, src)]
    else if itemsize == 4 then [Op(MOVUPS, resloc, src)]
    else if itemsize == 8 then [Op(MOVUPD, resloc, src)]
    else []
  }

  /** `_vec_store`: the same choice, with the memory operand as destination. */
  function StoreCode(dest: Loc, value: Loc, integer: bool, itemsize: int, aligned: bool): seq<Instr>
  {
    if integer then [Op(if aligned then MOVDQA else MOVDQU, dest, value)]
    else if itemsize == 4 then [Op(MOVUPS, dest, value)]
    else if itemsize == 8 then [Op(MOVUPD, dest, value)]
    else []
  }

  /* ---------------------------------------------------------------------
     Arithmetic
     --------------------------------------------------------------------- */

  function IntAddCode(loc0: Loc, loc1: Loc, size: int): seq<Instr>
  {
    if size == 1 then [Op(PADDB, loc0, loc1)]
    else if size == 2 then [Op(PADDW, loc0, loc1)]
    else if size == 4 then [Op(PADDD, loc0, loc1)]
    else if size == 8 then [Op(PADDQ, loc0, loc1)]
    else []
  }

  function IntSubCode(loc0: Loc, loc1: Loc, size: int): seq<Instr>
  {
    if size == 1 then [Op(PSUBB, loc0, loc1)]
    else if size == 2 then [Op(PSUBW, loc0, loc1)]
    else if size == 4 then [Op(PSUBD, loc0, loc1)]
    else if size == 8 then [Op(PSUBQ, loc0, loc1)]
    else []
  }

  /** There is no packed multiplication of 8- or 64-bit items. */
  function IntMulCode(loc0: Loc, loc1: Loc, itemsize: int): (e: Emission)
    ensures e.Emitted? <==> itemsize == 2 || itemsize == 4
    ensures e.Raised? ==> e.partial == [] && e.error == NotImplemented
  {
    if itemsize == 2 then Emitted([Op(PMULLW, loc0, loc1)])
    else if itemsize == 4 then Emitted([Op(PMULLD, loc0, loc1)])
    else Raised([], NotImplemented)
  }

  /** The three operations the float arithmetic template is instantiated for,
      and true division, which has its own `genop`. */
  datatype FloatArith = FAdd | FMul | FSub | FTrueDiv

  /** The packed-single (`...PS`) and packed-double (`...PD`) instruction of
      each float operation. */
  function PackedFloatMnemonic(op: FloatArith, single: bool): Mnemonic
  {
    match op
    case FAdd => if single then ADDPS else ADDPD
    case FMul => if single then MULPS else MULPD
    case FSub => if single then SUBPS else SUBPD
    case FTrueDiv => if single then DIVPS else DIVPD
  }

  function FloatArithCode(op: FloatArith, loc0: Loc, loc1: Loc, itemsize: int): seq<Instr>
  {
    if itemsize == 4 then [Op(PackedFloatMnemonic(op, true), loc0, loc1)]
    else if itemsize == 8 then [Op(PackedFloatMnemonic(op, false), loc0, loc1)]
    else []
  }

  /** `abs` clears and `neg` flips the sign bits with a constant mask. */
  function FloatAbsCode(src: Loc, size: int): seq<Instr>
  {
    if size == 4 then [Op(ANDPS, src, Heap(SingleFloatConstAbs))]
    else if size == 8 then [Op(ANDPD, src, Heap(FloatConstAbs))]
    else []
  }

  function FloatNegCode(src: Loc, size: int): seq<Instr>
  {
    if size == 4 then [Op(XORPS, src, Heap(SingleFloatConstNeg))]
    else if size == 8 then [Op(XORPD, src, Heap(FloatConstNeg))]
    else []
  }

  /* ---------------------------------------------------------------------
     Conversions, expansion, packing
     --------------------------------------------------------------------- */

  /** `genop_vec_int_signext`: only 4 -> 8 and 8 -> 4 byte items are
      implemented, each by moving items 0 and 1 through the scratch register. */
  function SignExtCode(srcloc: Loc, size: int, tosize: int, resloc: Loc): (e: Emission)
    ensures e.Emitted? <==> size == tosize || (size == 4 && tosize == 8) || (size == 8 && tosize == 4)
    ensures e.Raised? ==> e.partial == [] && e.error == NotImplemented
  {
    var src := AsReg(srcloc, true);
    var res := AsReg(resloc, true);
    if size == tosize then Emitted([])
    else if size == 4 && tosize == 8 then
      Emitted([OpImm(PEXTRD, Scratch, src, 1), OpImm(PINSRQ, res, Scratch, 1),
               OpImm(PEXTRD, Scratch, src, 0), OpImm(PINSRQ, res, Scratch, 0)])
    else if size == 8 && tosize == 4 then
      Emitted([OpImm(PEXTRQ, Scratch, src, 0), OpImm(PINSRD, res, Scratch, 0),
               OpImm(PEXTRQ, Scratch, src, 1), OpImm(PINSRD, res, Scratch, 1)])
    else Raised([], NotImplemented)
  }

  /** `genop_vec_int_signext` with the 4-to-8 conversion corrected to a sign
      extension: a single `PMOVSXDQ`.  Every other pair of sizes is as
      emitted. */
  function SignExtCodeCorrected(srcloc: Loc, size: int, tosize: int, resloc: Loc): (e: Emission)
    ensures e.Emitted? <==> SignExtCode(srcloc, size, tosize, resloc).Emitted?
    ensures !(size == 4 && tosize == 8) ==> e == SignExtCode(srcloc, size, tosize, resloc)
  {
    if size == 4 && tosize == 8 then Emitted([Op(PMOVSXDQ, AsReg(resloc, true), AsReg(srcloc, true))])
    else SignExtCode(srcloc, size, tosize, resloc)
  }

  /** `genop_vec_float_expand`: a constant is already a 16-byte aligned
      vector of copies; a register is broadcast in place. */
  function FloatExpandCode(srcloc: Loc, size: int, resloc: Loc): (e: Emission)
    ensures e.Raised? <==> !srcloc.ConstFloat? && size != 4 && size != 8
    ensures e.Raised? ==> e.partial == [] && e.error == AssertionError
  {
    if srcloc.ConstFloat? then Emitted([Op(MOVAPD, resloc, srcloc)])
    else if size == 4 then Emitted([OpImm(SHUFPS, AsReg(resloc, true), AsReg(srcloc, true), 0)])
    else if size == 8 then Emitted([Op(MOVDDUP, resloc, srcloc)])
    else Raised([], AssertionError)
  }

  /** `genop_vec_int_expand`: a source that is not a register is first moved
      into the scratch register; the value is inserted and then copied to
      every item. */
  function IntExpandCode(srcloc: Loc, size: int, resloc: Loc): (e: Emission)
    ensures !srcloc.Reg? ==> |CodeOf(e)| >= 1 && CodeOf(e)[0] == Mov(srcloc, Scratch)
    ensures e.Raised? <==> (srcloc.Reg? && srcloc.isXmm) || size !in {1, 2, 4, 8}
    ensures e.Raised? ==> e.error == AssertionError
  {
    var pre := if !srcloc.Reg? then [Mov(srcloc, Scratch)] else [];
    var src := if !srcloc.Reg? then Scratch else srcloc;
    if src.isXmm then Raised(pre, AssertionError)
    else
      var r := AsReg(resloc, true);
      var g := AsReg(src, false);
      if size == 1 then Emitted(pre + [OpImm(PINSRB, r, g, 0), Op(PSHUFB, resloc, Heap(ExpandByteMask))])
      else if size == 2 then
        Emitted(pre + [OpImm(PINSRW, r, g, 0), OpImm(PINSRW, r, g, 4), OpImm(PSHUFLW, r, r, 0), OpImm(PSHUFHW, r, r, 0)])
      else if size == 4 then Emitted(pre + [OpImm(PINSRD, r, g, 0), OpImm(PSHUFD, r, r, 0)])
      else if size == 8 then Emitted(pre + [OpImm(PINSRQ, r, g, 0), OpImm(PINSRQ, r, g, 1)])
      else Raised(pre, AssertionError)
  }

  /** The extract and insert instructions for items of `size` bytes. */
  function ExtractFor(size: int): Mnemonic
    requires size in {1, 2, 4, 8}
  {
    if size == 1 then PEXTRB else if size == 2 then PEXTRW else if size == 4 then PEXTRD else PEXTRQ
  }

  function InsertFor(size: int): Mnemonic
    requires size in {1, 2, 4, 8}
  {
    if size == 1 then PINSRB else if size == 2 then PINSRW else if size == 4 then PINSRD else PINSRQ
  }

  /** One item copy of `genop_vec_int_pack`: xmm to xmm through the scratch
      register, a general register into an xmm item, or an xmm item into a
      general register. */
  function LaneCopy(res: Loc, src: Loc, si: int, ri: int, size: int): seq<Instr>
    requires res.Reg? && src.Reg?
  {
    if size !in {1, 2, 4, 8} then []
    else if res.isXmm && src.isXmm then
      [OpImm(ExtractFor(size), Scratch, AsReg(src, true), si), OpImm(InsertFor(size), AsReg(res, true), Scratch, ri)]
    else if res.isXmm then [OpImm(InsertFor(size), AsReg(res, true), AsReg(src, false), ri)]
    else [OpImm(ExtractFor(size), AsReg(res, false), AsReg(src, true), si)]
  }

  /** The copies of items `si`, `si+1`, ... into items `ri`, `ri+1`, ..., `k` of them. */
  function PackLoop(res: Loc, src: Loc, si: int, ri: int, k: int, size: int): seq<Instr>
    requires res.Reg? && src.Reg?
    decreases k
  {
    if k <= 0 then [] else LaneCopy(res, src, si, ri, size) + PackLoop(res, src, si + 1, ri + 1, k - 1, size)
  }

  function IntPackCode(res: Loc, src: Loc, residx: int, srcidx: int, count: int, size: int): (e: Emission)
    ensures e.Raised? <==> !res.Reg? || !src.Reg?
    ensures e.Raised? ==> e.partial == [] && e.error == AssertionError
  {
    if !res.Reg? || !src.Reg? then Raised([], AssertionError)
    else Emitted(PackLoop(res, src, srcidx, residx, count, size))
  }

  /** The `INSERTPS` immediate that copies single `si` of the source into
      single `ri` of the result: its source field (bits 6-7) is `si % 4`,
      its destination field (bits 4-5) is `ri % 4` and its zero mask
      (bits 0-3) clears no single. */
  function InsertpsSelect(si: int, ri: int): (select: int)
    ensures 0 <= select < 256
    ensures Field2(select as bv8, 6) == si % 4 && Field2(select as bv8, 4) == ri % 4
    ensures !Bit(select as bv8, 0) && !Bit(select as bv8, 1) && !Bit(select as bv8, 2) && !Bit(select as bv8, 3)
  {
    InsertpsFields(si % 4, ri % 4);
    (si % 4) * 64 + (ri % 4) * 16
  }

  lemma InsertpsFields(a: int, b: int)
    requires 0 <= a < 4 && 0 <= b < 4
    ensures var s := a * 64 + b * 16;
            && 0 <= s < 256 && Field2(s as bv8, 6) == a && Field2(s as bv8, 4) == b
            && !Bit(s as bv8, 0) && !Bit(s as bv8, 1) && !Bit(s as bv8, 2) && !Bit(s as bv8, 3)
  {
    if a == 0 { if b == 0 {} else if b == 1 {} else if b == 2 {} else {} }
    else if a == 1 { if b == 0 {} else if b == 1 {} else if b == 2 {} else {} }
    else if a == 2 { if b == 0 {} else if b == 1 {} else if b == 2 {} else {} }
    else { if b == 0 {} else if b == 1 {} else if b == 2 {} else {} }
  }

  /** One item of the loop of `genop_vec_float_pack` for 4-byte floats:
      single `si` of the source into single `ri` of the result.  A general
      register source is moved into the xmm scratch register first, which
      the source allows only for a single item at index 0. */
  function FloatPack4Step(res: Loc, src: Loc, si: int, ri: int, count: int): (e: Emission)
    requires res.Reg? && src.Reg?
    ensures e.Raised? <==> res.isXmm && !src.isXmm && (count != 1 || si != 0)
    ensures e.Raised? ==> e.partial == [] && e.error == AssertionError
  {
    if res.isXmm then
      if !src.isXmm then
        if count != 1 || si != 0 then Raised([], AssertionError)
        else Emitted([Mov(src, XmmScratch), OpImm(INSERTPS, AsReg(res, true), XmmScratch, InsertpsSelect(si, ri))])
      else Emitted([OpImm(INSERTPS, AsReg(res, true), AsReg(src, true), InsertpsSelect(si, ri))])
    else Emitted([OpImm(PEXTRD, AsReg(res, false), AsReg(src, true), si)])
  }

  /** The loop of `genop_vec_float_pack` for 4-byte floats. */
  function FloatPack4Loop(res: Loc, src: Loc, si: int, ri: int, k: int, count: int): Emission
    requires res.Reg? && src.Reg?
    decreases k
  {
    if k <= 0 then Emitted([])
    else
      var step := FloatPack4Step(res, src, si, ri, count);
      if step.Raised? then step
      else Prepend(step.code, FloatPack4Loop(res, src, si + 1, ri + 1, k - 1, count))
  }

  /** `genop_vec_float_pack` for 8-byte floats: one move per (source,
      result) index pair; nothing when the source is not an xmm register. */
  function FloatPack8(res: Loc, src: Loc, residx: int, srcidx: int): Emission
    requires res.Reg? && src.Reg?
  {
    var r := AsReg(res, true);
    if !res.isXmm then Raised([], AssertionError)
    else if !src.isXmm then Emitted([])
    else if srcidx == 0 then
      if residx == 0 then Emitted([Op(MOVSD, res, src)])
      else if residx != 1 then Raised([], AssertionError)
      else Emitted([Op(UNPCKLPD, res, src)])
    else if srcidx != 1 then Raised([], AssertionError)
    else if residx == 0 then
      Emitted((if res != src then [Op(UNPCKHPD, res, src)] else []) + [OpImm(SHUFPD, r, r, 1)])
    else if residx != 1 then Raised([], AssertionError)
    else if res != src then Emitted([OpImm(SHUFPD, r, r, 1), Op(UNPCKHPD, res, src)])
    else Emitted([])
  }

  function FloatPackCode(res: Loc, src: Loc, residx: int, srcidx: int, count: int, size: int): (e: Emission)
    ensures !res.Reg? || !src.Reg? ==> e == Raised([], AssertionError)
    ensures size != 4 && size != 8 && res.Reg? && src.Reg? ==> e == Emitted([])
  {
    if !res.Reg? || !src.Reg? then Raised([], AssertionError)
    else if size == 4 then FloatPack4Loop(res, src, srcidx, residx, count, count)
    else if size == 8 then FloatPack8(res, src, residx, srcidx)
    else Emitted([])
  }

  /** The four vector conversions, one instruction each. */
  datatype Cast = FloatToSingleFloat | FloatToInt | IntToFloat | SingleFloatToFloat

  function CastMnemonic(c: Cast): Mnemonic
  {
    match c
    case FloatToSingleFloat => CVTPD2PS
    case FloatToInt => CVTPD2DQ
    case IntToFloat => CVTDQ2PD
    case SingleFloatToFloat => CVTPS2PD
  }

  /* ---------------------------------------------------------------------
     The emitter
     --------------------------------------------------------------------- */

  class VectorAssembler {
    /** The machine-code buffer, as the instructions appended so far. */
    var mc: seq<Instr>

    constructor ()
      ensures mc == []
    {
      mc := [];
    }

    /** `_guard_vector_true` */
    method GuardVectorTrue(arg: Box, loc: Loc) returns (st: Status)
      modifies this
      ensures !arg.BoxVector? ==> st == Failed(AssertionError) && mc == old(mc)
      ensures arg.BoxVector? ==> st == Done && mc == old(mc) + GuardCode(arg, loc)
    {
      if !arg.BoxVector? {
        return Failed(AssertionError);
      }
      var size := arg.itemSize;
      var temp := XmmScratch;
      mc := mc + [Op(PXOR, temp, temp)];
      if !FullyPacked(arg, VectorRegisterSize) {
        mc := mc + [Op(PCMPEQQ, temp, temp)];
        var select := BlendSelect(arg.itemCount * arg.itemSize * 8);
        mc := mc + [OpImm(PBLENDW, AsReg(loc, true), AsReg(temp, true), select as int)];
        mc := mc + [Op(PXOR, temp, temp)];
      }
      mc := mc + [Op(PCMPEQ(size), loc, temp)];
      mc := mc + [Op(PCMPEQQ, temp, temp)];
      mc := mc + [Op(PTEST, loc, temp)];
      return Done;
    }

    /** `_accum_reduce_sum` */
    method AccumReduceSum(arg: Box, accumloc: Loc, targetloc: Loc) returns (st: Status)
      modifies this
      ensures mc == old(mc) + CodeOf(ReduceSumCode(TypeOf(arg), accumloc, targetloc))
      ensures st == StatusOf(ReduceSumCode(TypeOf(arg), accumloc, targetloc))
    {
      if TypeOf(arg) == FLOAT {
        mc := mc + [Op(HADDPD, accumloc, accumloc)];
        if accumloc != targetloc {
          mc := mc + [Mov(accumloc, targetloc)];
        }
        return Done;
      } else if TypeOf(arg) == INT {
        var scratchloc := Scratch;
        mc := mc + [OpImm(PEXTRQ, AsReg(targetloc, false), AsReg(accumloc, true), 0)];
        mc := mc + [OpImm(PEXTRQ, AsReg(scratchloc, false), AsReg(accumloc, true), 1)];
        mc := mc + [Op(ADD, targetloc, scratchloc)];
        return Done;
      }
      return Failed(NotImplemented);
    }

    /** `_accum_reduce_mul` */
    method AccumReduceMul(arg: Box, accumloc: Loc, targetloc: Loc)
      modifies this
      ensures mc == old(mc) + ReduceMulCode(accumloc, targetloc)
    {
      var scratchloc := XmmScratch;
      mc := mc + [Mov(accumloc, scratchloc)];
      mc := mc + [OpImm(SHUFPD, AsReg(scratchloc, true), AsReg(scratchloc, true), 1)];
      mc := mc + [Op(MULSD, accumloc, scratchloc)];
      if accumloc != targetloc {
        mc := mc + [Mov(accumloc, targetloc)];
      }
    }

    /** `_accum_update_at_exit`: walk the guard's accumulator chain, reduce
      each accumulator into a freshly allocated register and make that the
      fail location.  `calls0` is the allocator's history before the walk and
      `calls` after it. */
    method AccumUpdateAtExit(failLocs: array<Loc>, failArgs: seq<Option<Box>>, accum: Option<AccumInfo>,
                             alloc: Alloc, calls0: seq<Request>)
      returns (st: Status, calls: seq<Request>)
      requires ChainFits(Nodes(accum), failLocs.Length, |failArgs|)
      modifies this, failLocs
      ensures var r := AccumExit(old(failLocs[..]), failArgs, Nodes(accum), alloc, calls0);
              && failLocs[..] == r.locs && mc == old(mc) + r.code
              && calls == r.calls && st == r.status
    {
      var accumInfo := accum;
      calls := calls0;
      while accumInfo.Some?
        invariant ChainFits(Nodes(accumInfo), failLocs.Length, |failArgs|)
        invariant var whole := AccumExit(old(failLocs[..]), failArgs, Nodes(accum), alloc, calls0);
                  var rest := AccumExit(failLocs[..], failArgs, Nodes(accumInfo), alloc, calls);
                  && whole.locs == rest.locs && whole.calls == rest.calls && whole.status == rest.status
                  && old(mc) + whole.code == mc + rest.code
        decreases |Nodes(accumInfo)|
      {
        var node := accumInfo.value;
        ghost var ns := Nodes(accumInfo);
        assert ns[0] == node && ns[1..] == Nodes(node.prev);
        ghost var locs := failLocs[..];
        ghost var calls1 := calls;
        ghost var mc1 := mc;
        var pos := node.position;
        var loc := failLocs[pos];
        if !loc.Reg? {
          return Failed(AssertionError), calls;
        }
        var arg := failArgs[pos];
        if arg.Some? && arg.value.BoxVector? && arg.value.accum.Accumulator? {
          arg := arg.value.accum.scalarVar;
        }
        assert arg == ReducedArg(failArgs[pos]);
        if arg.None? {
          return Failed(AssertionError), calls;
        }
        var tgtloc := alloc(calls, ForceAllocate(arg.value));
        calls := calls + [ForceAllocate(arg.value)];
        ghost var emitted: seq<Instr>;
        if node.operation == "+" {
          var reduced := AccumReduceSum(arg.value, loc, tgtloc);
          if reduced.Failed? {
            return reduced, calls;
          }
          emitted := ReduceSumCode(TypeOf(arg.value), loc, tgtloc).code;
        } else if node.operation == "*" {
          AccumReduceMul(arg.value, loc, tgtloc);
          emitted := ReduceMulCode(loc, tgtloc);
        } else {
          return Failed(NotImplemented), calls;
        }
        failLocs[pos] := tgtloc;
        assert failLocs[..] == locs[pos := tgtloc];
        calls := calls + [PossiblyFree(arg.value)];
        accumInfo := node.prev;
        AccumExitStep(locs, failArgs, ns, alloc, calls1, arg.value, emitted);
        ghost var next := AccumExit(failLocs[..], failArgs, Nodes(accumInfo), alloc, calls);
        AppendAssoc(mc1, emitted, next.code);
      }
      st := Done;
    }

    /** `genop_vec_getarrayitem_raw`: the index is scaled by the item size. */
    method GetArrayItemRaw(baseLoc: Loc, ofsLoc: Loc, size: int, ofs: int, integer: int, aligned: int, resloc: Loc)
      returns (st: Status)
      modifies this
      ensures GetScale(size).Fail? ==> st == Failed(AssertionError) && mc == old(mc)
      ensures GetScale(size).Ok? ==>
                st == Done &&
                mc == old(mc) + LoadCode(resloc, AddrAdd(baseLoc, ofsLoc, ofs, GetScale(size).value), integer != 0, size, aligned != 0)
    {
      var scale := GetScale(size);
      if scale.Fail? {
        return Failed(AssertionError);
      }
      var srcAddr := AddrAdd(baseLoc, ofsLoc, ofs, scale.value);
      VecLoad(resloc, srcAddr, integer != 0, size, aligned != 0);
      return Done;
    }

    /** `genop_vec_raw_load`: the index is a byte offset. */
    method RawLoad(baseLoc: Loc, ofsLoc: Loc, size: int, ofs: int, integer: int, aligned: int, resloc: Loc)
      modifies this
      ensures mc == old(mc) + LoadCode(resloc, AddrAdd(baseLoc, ofsLoc, ofs, 0), integer != 0, size, aligned != 0)
    {
      var srcAddr := AddrAdd(baseLoc, ofsLoc, ofs, 0);
      VecLoad(resloc, srcAddr, integer != 0, size, aligned != 0);
    }

    /** `_vec_load` */
    method VecLoad(resloc: Loc, srcAddr: Loc, integer: bool, itemsize: int, aligned: bool)
      modifies this
      ensures mc == old(mc) + LoadCode(resloc, srcAddr, integer, itemsize, aligned)
    {
      if integer {
        if aligned {
          mc := mc + [Op(MOVDQA, resloc, srcAddr)];
        } else {
          mc := mc + [Op(MOVDQU, resloc, srcAddr)];
        }
      } else {
        if itemsize == 4 {
          mc := mc + [Op(MOVUPS, resloc, srcAddr)];
        } else if itemsize == 8 {
          mc := mc + [Op(MOVUPD, resloc, srcAddr)];
        }
      }
    }

    /** `genop_discard_vec_setarrayitem_raw`: the index is scaled by the item size. */
    method SetArrayItemRaw(baseLoc: Loc, ofsLoc: Loc, valueLoc: Loc, size: int, baseofs: int, integer: int, aligned: int)
      returns (st: Status)
      modifies this
      ensures GetScale(size).Fail? ==> st == Failed(AssertionError) && mc == old(mc)
      ensures GetScale(size).Ok? ==>
                st == Done &&
                mc == old(mc) + StoreCode(AddrAdd(baseLoc, ofsLoc, baseofs, GetScale(size).value), valueLoc, integer != 0, size, aligned != 0)
    {
      var scale := GetScale(size);
      if scale.Fail? {
        return Failed(AssertionError);
      }
      var destLoc := AddrAdd(baseLoc, ofsLoc, baseofs, scale.value);
      VecStore(destLoc, valueLoc, integer != 0, size, aligned != 0);
      return Done;
    }

    /** `genop_discard_vec_raw_store`: the index is a byte offset. */
    method RawStore(baseLoc: Loc, ofsLoc: Loc, valueLoc: Loc, size: int, baseofs: int, integer: int, aligned: int)
      modifies this
      ensures mc == old(mc) + StoreCode(AddrAdd(baseLoc, ofsLoc, baseofs, 0), valueLoc, integer != 0, size, aligned != 0)
    {
      var destLoc := AddrAdd(baseLoc, ofsLoc, baseofs, 0);
      VecStore(destLoc, valueLoc, integer != 0, size, aligned != 0);
    }

    /** `_vec_store` */
    method VecStore(destLoc: Loc, valueLoc: Loc, integer: bool, itemsize: int, aligned: bool)
      modifies this
      ensures mc == old(mc) + StoreCode(destLoc, valueLoc, integer, itemsize, aligned)
    {
      if integer {
        if aligned {
          mc := mc + [Op(MOVDQA, destLoc, valueLoc)];
        } else {
          mc := mc + [Op(MOVDQU, destLoc, valueLoc)];
        }
      } else {
        if itemsize == 4 {
          mc := mc + [Op(MOVUPS, destLoc, valueLoc)];
        } else if itemsize == 8 {
          mc := mc + [Op(MOVUPD, destLoc, valueLoc)];
        }
      }
    }

    /** `genop_vec_int_mul` */
    method IntMul(loc0: Loc, loc1: Loc, itemsize: int) returns (st: Status)
      modifies this
      ensures mc == old(mc) + CodeOf(IntMulCode(loc0, loc1, itemsize))
      ensures st == StatusOf(IntMulCode(loc0, loc1, itemsize))
    {
      if itemsize == 2 {
        mc := mc + [Op(PMULLW, loc0, loc1)];
      } else if itemsize == 4 {
        mc := mc + [Op(PMULLD, loc0, loc1)];
      } else {
        return Failed(NotImplemented);
      }
      return Done;
    }

    /** `genop_vec_int_add` */
    method IntAdd(loc0: Loc, loc1: Loc, size: int)
      modifies this
      ensures mc == old(mc) + IntAddCode(loc0, loc1, size)
    {
      if size == 1 {
        mc := mc + [Op(PADDB, loc0, loc1)];
      } else if size == 2 {
        mc := mc + [Op(PADDW, loc0, loc1)];
      } else if size == 4 {
        mc := mc + [Op(PADDD, loc0, loc1)];
      } else if size == 8 {
        mc := mc + [Op(PADDQ, loc0, loc1)];
      }
    }

    /** `genop_vec_int_sub` */
    method IntSub(loc0: Loc, loc1: Loc, size: int)
      modifies this
      ensures mc == old(mc) + IntSubCode(loc0, loc1, size)
    {
      if size == 1 {
        mc := mc + [Op(PSUBB, loc0, loc1)];
      } else if size == 2 {
        mc := mc + [Op(PSUBW, loc0, loc1)];
      } else if size == 4 {
        mc := mc + [Op(PSUBD, loc0, loc1)];
      } else if size == 8 {
        mc := mc + [Op(PSUBQ, loc0, loc1)];
      }
    }

    /** `genop_vec_int_and`, `_or`, `_xor`: the result register is combined
      with the first argument location. */
    method IntAnd(source: Loc, resloc: Loc)
      modifies this
      ensures mc == old(mc) + [Op(PAND, resloc, source)]
    {
      mc := mc + [Op(PAND, resloc, source)];
    }

    method IntOr(source: Loc, resloc: Loc)
      modifies this
      ensures mc == old(mc) + [Op(POR, resloc, source)]
    {
      mc := mc + [Op(POR, resloc, source)];
    }

    method IntXor(source: Loc, resloc: Loc)
      modifies this
      ensures mc == old(mc) + [Op(PXOR, resloc, source)]
    {
      mc := mc + [Op(PXOR, resloc, source)];
    }

    /** `genop_vec_float_add`, `_mul`, `_sub`: the one template the backend
      instantiates for the three operations. */
    method FloatArithOp(op: FloatArith, loc0: Loc, loc1: Loc, itemsize: int)
      requires op != FTrueDiv
      modifies this
      ensures mc == old(mc) + FloatArithCode(op, loc0, loc1, itemsize)
    {
      if itemsize == 4 {
        mc := mc + [Op(PackedFloatMnemonic(op, true), loc0, loc1)];
      } else if itemsize == 8 {
        mc := mc + [Op(PackedFloatMnemonic(op, false), loc0, loc1)];
      }
    }

    /** `genop_vec_float_truediv` */
    method FloatTrueDiv(loc0: Loc, loc1: Loc, size: int)
      modifies this
      ensures mc == old(mc) + FloatArithCode(FTrueDiv, loc0, loc1, size)
    {
      if size == 4 {
        mc := mc + [Op(DIVPS, loc0, loc1)];
      } else if size == 8 {
        mc := mc + [Op(DIVPD, loc0, loc1)];
      }
    }

    /** `genop_vec_float_abs` */
    method FloatAbs(src: Loc, size: int)
      modifies this
      ensures mc == old(mc) + FloatAbsCode(src, size)
    {
      if size == 4 {
        mc := mc + [Op(ANDPS, src, Heap(SingleFloatConstAbs))];
      } else if size == 8 {
        mc := mc + [Op(ANDPD, src, Heap(FloatConstAbs))];
      }
    }

    /** `genop_vec_float_neg` */
    method FloatNeg(src: Loc, size: int)
      modifies this
      ensures mc == old(mc) + FloatNegCode(src, size)
    {
      if size == 4 {
        mc := mc + [Op(XORPS, src, Heap(SingleFloatConstNeg))];
      } else if size == 8 {
        mc := mc + [Op(XORPD, src, Heap(FloatConstNeg))];
      }
    }

    /** `genop_vec_int_signext` */
    method IntSignExt(srcloc: Loc, size: int, tosize: int, resloc: Loc) returns (st: Status)
      modifies this
      ensures mc == old(mc) + CodeOf(SignExtCode(srcloc, size, tosize, resloc))
      ensures st == StatusOf(SignExtCode(srcloc, size, tosize, resloc))
    {
      if size == tosize {
        return Done;
      }
      var scratch := Scratch;
      if size == 4 && tosize == 8 {
        mc := mc + [OpImm(PEXTRD, scratch, AsReg(srcloc, true), 1)];
        mc := mc + [OpImm(PINSRQ, AsReg(resloc, true), scratch, 1)];
        mc := mc + [OpImm(PEXTRD, scratch, AsReg(srcloc, true), 0)];
        mc := mc + [OpImm(PINSRQ, AsReg(resloc, true), scratch, 0)];
      } else if size == 8 && tosize == 4 {
        mc := mc + [OpImm(PEXTRQ, scratch, AsReg(srcloc, true), 0)];
        mc := mc + [OpImm(PINSRD, AsReg(resloc, true), scratch, 0)];
        mc := mc + [OpImm(PEXTRQ, scratch, AsReg(srcloc, true), 1)];
        mc := mc + [OpImm(PINSRD, AsReg(resloc, true), scratch, 1)];
      } else {
        return Failed(NotImplemented);
      }
      return Done;
    }

    /** `genop_vec_float_expand` */
    method FloatExpand(srcloc: Loc, size: int, resloc: Loc) returns (st: Status)
      modifies this
      ensures mc == old(mc) + CodeOf(FloatExpandCode(srcloc, size, resloc))
      ensures st == StatusOf(FloatExpandCode(srcloc, size, resloc))
    {
      if srcloc.ConstFloat? {
        mc := mc + [Op(MOVAPD, resloc, srcloc)];
      } else if size == 4 {
        mc := mc + [OpImm(SHUFPS, AsReg(resloc, true), AsReg(srcloc, true), 0)];
      } else if size == 8 {
        mc := mc + [Op(MOVDDUP, resloc, srcloc)];
      } else {
        return Failed(AssertionError);
      }
      return Done;
    }

    /** `genop_vec_int_expand` */
    method IntExpand(srcloc: Loc, size: int, resloc: Loc) returns (st: Status)
      modifies this
      ensures mc == old(mc) + CodeOf(IntExpandCode(srcloc, size, resloc))
      ensures st == StatusOf(IntExpandCode(srcloc, size, resloc))
    {
      var src := srcloc;
      if !src.Reg? {
        mc := mc + [Mov(src, Scratch)];
        src := Scratch;
      }
      if src.isXmm {
        return Failed(AssertionError);
      }
      var r := AsReg(resloc, true);
      var g := AsReg(src, false);
      if size == 1 {
        mc := mc + [OpImm(PINSRB, r, g, 0)];
        mc := mc + [Op(PSHUFB, resloc, Heap(ExpandByteMask))];
      } else if size == 2 {
        mc := mc + [OpImm(PINSRW, r, g, 0)];
        mc := mc + [OpImm(PINSRW, r, g, 4)];
        mc := mc + [OpImm(PSHUFLW, r, r, 0)];
        mc := mc + [OpImm(PSHUFHW, r, r, 0)];
      } else if size == 4 {
        mc := mc + [OpImm(PINSRD, r, g, 0)];
        mc := mc + [OpImm(PSHUFD, r, r, 0)];
      } else if size == 8 {
        mc := mc + [OpImm(PINSRQ, r, g, 0)];
        mc := mc + [OpImm(PINSRQ, r, g, 1)];
      } else {
        return Failed(AssertionError);
      }
      return Done;
    }

    /** `genop_vec_int_pack`, which is also `genop_vec_int_unpack`: copy
      `count` items of `size` bytes from item `srcidx` of the source on into
      item `residx` of the result on. */
    method IntPack(resultloc: Loc, sourceloc: Loc, residx: int, srcidx: int, count: int, size: int)
      returns (st: Status)
      modifies this
      ensures mc == old(mc) + CodeOf(IntPackCode(resultloc, sourceloc, residx, srcidx, count, size))
      ensures st == StatusOf(IntPackCode(resultloc, sourceloc, residx, srcidx, count, size))
    {
      if !resultloc.Reg? || !sourceloc.Reg? {
        return Failed(AssertionError);
      }
      var si := srcidx;
      var ri := residx;
      var k := count;
      while k > 0
        invariant mc + PackLoop(resultloc, sourceloc, si, ri, k, size)
                  == old(mc) + PackLoop(resultloc, sourceloc, srcidx, residx, count, size)
      {
        mc := mc + LaneCopy(resultloc, sourceloc, si, ri, size);
        si := si + 1;
        ri := ri + 1;
        k := k - 1;
      }
      return Done;
    }

    /** `genop_vec_float_pack`, which is also `genop_vec_float_unpack`. */
    method FloatPack(resloc: Loc, srcloc: Loc, residx: int, srcidx: int, count: int, size: int)
      returns (st: Status)
      modifies this
      ensures mc == old(mc) + CodeOf(FloatPackCode(resloc, srcloc, residx, srcidx, count, size))
      ensures st == StatusOf(FloatPackCode(resloc, srcloc, residx, srcidx, count, size))
    {
      if !resloc.Reg? || !srcloc.Reg? {
        return Failed(AssertionError);
      }
      if size == 4 {
        st := FloatPackSingles(resloc, srcloc, residx, srcidx, count);
      } else if size == 8 {
        st := FloatPackDoubles(resloc, srcloc, residx, srcidx);
      } else {
        st := Done;
      }
    }

    /** The 4-byte branch of `genop_vec_float_pack`: one `INSERTPS` (or
        `PEXTRD` into a general register) per item. */
    method FloatPackSingles(resloc: Loc, srcloc: Loc, residx: int, srcidx: int, count: int)
      returns (st: Status)
      requires resloc.Reg? && srcloc.Reg?
      modifies this
      ensures mc == old(mc) + CodeOf(FloatPack4Loop(resloc, srcloc, srcidx, residx, count, count))
      ensures st == StatusOf(FloatPack4Loop(resloc, srcloc, srcidx, residx, count, count))
    {
      var si := srcidx;
      var ri := residx;
      var k := count;
      while k > 0
        invariant Prepend(mc, FloatPack4Loop(resloc, srcloc, si, ri, k, count))
                  == Prepend(old(mc), FloatPack4Loop(resloc, srcloc, srcidx, residx, count, count))
      {
        ghost var before := mc;
        st := FloatPackSingle(resloc, srcloc, si, ri, count);
        if st.Failed? {
          return;
        }
        PrependTwice(before, CodeOf(FloatPack4Step(resloc, srcloc, si, ri, count)),
                     FloatPack4Loop(resloc, srcloc, si + 1, ri + 1, k - 1, count));
        si := si + 1;
        ri := ri + 1;
        k := k - 1;
      }
      return Done;
    }

    /** One pass of the loop of `FloatPackSingles`. */
    method FloatPackSingle(resloc: Loc, srcloc: Loc, si: int, ri: int, count: int) returns (st: Status)
      requires resloc.Reg? && srcloc.Reg?
      modifies this
      ensures mc == old(mc) + CodeOf(FloatPack4Step(resloc, srcloc, si, ri, count))
      ensures st == StatusOf(FloatPack4Step(resloc, srcloc, si, ri, count))
    {
      var src := AsReg(srcloc, true);
      if resloc.isXmm {
        if !srcloc.isXmm {
          if count != 1 || si != 0 {
            return Failed(AssertionError);
          }
          mc := mc + [Mov(srcloc, XmmScratch)];
          src := XmmScratch;
        }
        mc := mc + [OpImm(INSERTPS, AsReg(resloc, true), src, InsertpsSelect(si, ri))];
      } else {
        mc := mc + [OpImm(PEXTRD, AsReg(resloc, false), src, si)];
      }
      return Done;
    }

    /** The 8-byte branch of `genop_vec_float_pack`: a fixed move for each
        pair of indices. */
    method FloatPackDoubles(resloc: Loc, srcloc: Loc, residx: int, srcidx: int)
      returns (st: Status)
      requires resloc.Reg? && srcloc.Reg?
      modifies this
      ensures mc == old(mc) + CodeOf(FloatPack8(resloc, srcloc, residx, srcidx))
      ensures st == StatusOf(FloatPack8(resloc, srcloc, residx, srcidx))
    {
      if !resloc.isXmm {
        return Failed(AssertionError);
      }
      var r := AsReg(resloc, true);
      if srcloc.isXmm {
        if srcidx == 0 {
          if residx == 0 {
            mc := mc + [Op(MOVSD, resloc, srcloc)];
          } else {
            if residx != 1 {
              return Failed(AssertionError);
            }
            mc := mc + [Op(UNPCKLPD, resloc, srcloc)];
          }
        } else {
          if srcidx != 1 {
            return Failed(AssertionError);
          }
          if residx == 0 {
            if resloc != srcloc {
              mc := mc + [Op(UNPCKHPD, resloc, srcloc)];
            }
            mc := mc + [OpImm(SHUFPD, r, r, 1)];
          } else {
            if residx != 1 {
              return Failed(AssertionError);
            }
            if resloc != srcloc {
              mc := mc + [OpImm(SHUFPD, r, r, 1)];
              mc := mc + [Op(UNPCKHPD, resloc, srcloc)];
            }
          }
        }
      }
      return Done;
    }

    /** `genop_vec_cast_float_to_singlefloat`, `_float_to_int`,
      `_int_to_float` and `_singlefloat_to_float`. */
    method CastOp(c: Cast, resloc: Loc, src: Loc)
      modifies this
      ensures mc == old(mc) + [Op(CastMnemonic(c), resloc, src)]
    {
      mc := mc + [Op(CastMnemonic(c), resloc, src)];
    }
  }
}
