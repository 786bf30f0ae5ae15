/** The register-allocation side of the vector backend: each `consider_*`
    asks the generic allocator for locations, in a fixed order, and hands
    the chosen locations to the emitter (`perform`, or `perform_discard`
    for operations without a result).

    The allocator is the function `alloc` of the request history (see
    `Allocator`).  For each `consider_*` a specification function
    (`...Outcome`) gives the requests, the action handed to the emitter and
    how it ends; the methods of `VectorRegalloc` follow the source's steps
    and are proved to produce exactly that outcome. */
module Regalloc {
  import opened Outcome
  import opened Locations
  import opened Machine
  import opened History
  import opened Allocator
  import opened Assembler
  import opened Lanes
  import opened Effects

  /** What a `consider_*` hands to the emitter. */
  datatype Action =
    | Perform(op: ResOp, arglocs: seq<Loc>, resloc: Loc)   // perform(op, arglocs, resloc)
    | PerformDiscard(op: ResOp, arglocs: seq<Loc>)         // perform_discard(op, arglocs)

  /** The allocator's history afterwards, the action handed to the emitter
      (if any) and how the `consider_*` ended. */
  datatype Considered = Considered(log: seq<Request>, action: Option<Action>, status: Status)

  /** The boxes a request is about. */
  function Subjects(r: Request): seq<Box>
  {
    match r
    case RmInReg(b) => [b]
    case InReg(b) => [b]
    case ForceAllocate(b) => [b]
    case XmmForceResult(res, arg) => [res, arg]
    case XmmForceAllocate(b) => [b]
    case XmmExpandFloat(_, c) => [c]
    case RmConvertToImm(c) => [c]
    case PossiblyFree(b) => [b]
  }

  /** `b` is an argument or the result of `op`. */
  predicate OfOp(op: ResOp, b: Box)
  {
    b in op.args || op.result == Some(b)
  }

  /** `after` continues the history `before` with requests about the boxes of
      `op` only. */
  predicate Extends(before: seq<Request>, after: seq<Request>, op: ResOp)
  {
    && |before| <= |after| && after[..|before|] == before
    && forall i, j :: |before| <= i < |after| && 0 <= j < |Subjects(after[i])| ==> OfOp(op, Subjects(after[i])[j])
  }

  /** The outcome's action is handed over exactly when it ends well, for `op`;
      a failure is a failed assertion. */
  predicate WellFormed(o: Considered, op: ResOp)
  {
    && (o.status == Done <==> o.action.Some?)
    && (o.action.Some? ==> o.action.value.op == op)
    && (o.status.Failed? ==> o.status.error == AssertionError)
  }

  /** The actions an outcome adds to those performed. */
  function ActionsOf(o: Considered): seq<Action>
  {
    if o.action.Some? then [o.action.value] else []
  }

  /** `imm(flag)` */
  function Flag(b: bool): int
  {
    if b then 1 else 0
  }

  /** The descriptor the array accesses accept: an `ArrayDescr` of neither
      pointers nor structs. */
  predicate Accessible(descr: Option<ArrayDescr>)
  {
    descr.Some? && !descr.value.isArrayOfPointers && !descr.value.isArrayOfStructs
  }

  /** The items of the array are integers: it is neither an array of floats
      nor of concrete type `FLOAT`. */
  predicate IntegerItems(d: ArrayDescr)
  {
    !(d.isArrayOfFloats || d.concreteType == FLOAT)
  }

  /* ---------------------------------------------------------------------
     Loads and stores
     --------------------------------------------------------------------- */

  /** `consider_vec_getarrayitem_raw` (and `consider_vec_raw_load`): base and
      index in general registers, a register for the result, and the item
      size, offset, integer flag and an aligned flag that is always false. */
  function LoadOutcome(alloc: Alloc, log: seq<Request>, op: ResOp): (o: Considered)
    requires |op.args| >= 2 && op.result.Some?
    ensures Extends(log, o.log, op) && WellFormed(o, op)
    ensures o.status == Done <==> Accessible(op.descr)
    ensures o.status.Failed? ==> o.log == log
    ensures o.status == Done ==>
              var a := o.action.value;
              var d := op.descr.value;
              && a.Perform? && |a.arglocs| == 6
              && a.arglocs[2..] == [Immed(d.itemSize), Immed(d.baseOfs), Immed(Flag(IntegerItems(d))), Immed(0)]
              && o.log == log + [RmInReg(op.args[0]), RmInReg(op.args[1]), ForceAllocate(op.result.value)]
              && a.arglocs[0] == alloc(log, RmInReg(op.args[0]))
              && a.arglocs[1] == alloc(o.log[..|log| + 1], RmInReg(op.args[1]))
              && a.resloc == alloc(o.log[..|log| + 2], ForceAllocate(op.result.value))
  {
    if !Accessible(op.descr) then Considered(log, None, Failed(AssertionError))
    else
      var d := op.descr.value;
      var r0, r1, r2 := RmInReg(op.args[0]), RmInReg(op.args[1]), ForceAllocate(op.result.value);
      var baseLoc := alloc(log, r0);
      var ofsLoc := alloc(log + [r0], r1);
      var resultLoc := alloc(log + [r0] + [r1], r2);
      var log' := log + [r0] + [r1] + [r2];
      assert log'[..|log| + 2] == log + [r0] + [r1];
      assert log'[..|log| + 1] == log + [r0];
      Considered(log', Some(Perform(op, [baseLoc, ofsLoc, Immed(d.itemSize), Immed(d.baseOfs), Immed(Flag(IntegerItems(d))), Immed(0)],
                                 resultLoc)), Done)
  }

  /** `consider_vec_setarrayitem_raw` (and `consider_vec_raw_store`): base,
      value and index are requested in that order, but handed over as base,
      index, value. */
  function StoreOutcome(alloc: Alloc, log: seq<Request>, op: ResOp): (o: Considered)
    requires |op.args| >= 3
    ensures Extends(log, o.log, op) && WellFormed(o, op)
    ensures o.status == Done <==> Accessible(op.descr)
    ensures o.status.Failed? ==> o.log == log
    ensures o.status == Done ==>
              var a := o.action.value;
              var d := op.descr.value;
              && a.PerformDiscard? && |a.arglocs| == 7
              && a.arglocs[3..] == [Immed(d.itemSize), Immed(d.baseOfs), Immed(Flag(IntegerItems(d))), Immed(0)]
              && o.log == log + [RmInReg(op.args[0]), InReg(op.args[2]), RmInReg(op.args[1])]
              && a.arglocs[0] == alloc(log, RmInReg(op.args[0]))
              && a.arglocs[1] == alloc(o.log[..|log| + 2], RmInReg(op.args[1]))
              && a.arglocs[2] == alloc(o.log[..|log| + 1], InReg(op.args[2]))
  {
    if !Accessible(op.descr) then Considered(log, None, Failed(AssertionError))
    else
      var d := op.descr.value;
      var r0, r1, r2 := RmInReg(op.args[0]), InReg(op.args[2]), RmInReg(op.args[1]);
      var baseLoc := alloc(log, r0);
      var valueLoc := alloc(log + [r0], r1);
      var ofsLoc := alloc(log + [r0] + [r1], r2);
      var log' := log + [r0] + [r1] + [r2];
      assert log'[..|log| + 2] == log + [r0] + [r1];
      assert log'[..|log| + 1] == log + [r0];
      Considered(log', Some(PerformDiscard(op, [baseLoc, ofsLoc, valueLoc, Immed(d.itemSize), Immed(d.baseOfs),
                                             Immed(Flag(IntegerItems(d))), Immed(0)])), Done)
  }

  /** The resolver never claims alignment, so a vector load of an array the
      resolver accepted is `MOVDQU` for integers and `MOVUPS` or `MOVUPD` for
      floats, whether the index is scaled or not. */
  lemma ResolvedLoadUnaligned(alloc: Alloc, log: seq<Request>, op: ResOp, scale: nat)
    requires |op.args| >= 2 && op.result.Some?
    requires LoadOutcome(alloc, log, op).status == Done
    ensures var a := LoadOutcome(alloc, log, op).action.value;
            var d := op.descr.value;
            var addr := AddrAdd(a.arglocs[0], a.arglocs[1], a.arglocs[3].value, scale);
            var code := LoadCode(a.resloc, addr, a.arglocs[4].value != 0, a.arglocs[2].value, a.arglocs[5].value != 0);
            && (IntegerItems(d) ==> code == [Op(MOVDQU, a.resloc, addr)])
            && (!IntegerItems(d) && d.itemSize == 4 ==> code == [Op(MOVUPS, a.resloc, addr)])
            && (!IntegerItems(d) && d.itemSize == 8 ==> code == [Op(MOVUPD, a.resloc, addr)])
  {
  }

  /** The same for stores. */
  lemma ResolvedStoreUnaligned(alloc: Alloc, log: seq<Request>, op: ResOp, scale: nat)
    requires |op.args| >= 3
    requires StoreOutcome(alloc, log, op).status == Done
    ensures var a := StoreOutcome(alloc, log, op).action.value;
            var d := op.descr.value;
            var addr := AddrAdd(a.arglocs[0], a.arglocs[1], a.arglocs[4].value, scale);
            var code := StoreCode(addr, a.arglocs[2], a.arglocs[5].value != 0, a.arglocs[3].value, a.arglocs[6].value != 0);
            && (IntegerItems(d) ==> code == [Op(MOVDQU, addr, a.arglocs[2])])
            && (!IntegerItems(d) && d.itemSize == 4 ==> code == [Op(MOVUPS, addr, a.arglocs[2])])
            && (!IntegerItems(d) && d.itemSize == 8 ==> code == [Op(MOVUPD, addr, a.arglocs[2])])
  {
  }

  /* ---------------------------------------------------------------------
     Arithmetic and logic
     --------------------------------------------------------------------- */

  /** `consider_vec_arith` (the integer and float add, sub, mul and float
      truediv): the result takes over the register of the left operand, which
      is also the first operand handed over, with the item size of that
      operand. */
  function ArithOutcome(alloc: Alloc, log: seq<Request>, op: ResOp): (o: Considered)
    requires |op.args| >= 2 && op.result.Some?
    ensures Extends(log, o.log, op) && WellFormed(o, op)
    ensures o.status == Done <==> op.args[0].BoxVector?
    ensures o.status.Failed? ==> o.log == log
    ensures o.status == Done ==>
              var a := o.action.value;
              && a.Perform? && |a.arglocs| == 3
              && a.arglocs[0] == a.resloc && a.arglocs[2] == Immed(op.args[0].itemSize)
              && o.log == log + [InReg(op.args[1]), XmmForceResult(op.result.value, op.args[0])]
              && a.arglocs[1] == alloc(log, InReg(op.args[1]))
              && a.resloc == alloc(log + [InReg(op.args[1])], XmmForceResult(op.result.value, op.args[0]))
  {
    if !op.args[0].BoxVector? then Considered(log, None, Failed(AssertionError))
    else
      var r0, r1 := InReg(op.args[1]), XmmForceResult(op.result.value, op.args[0]);
      var loc1 := alloc(log, r0);
      var loc0 := alloc(log + [r0], r1);
      Considered(log + [r0] + [r1], Some(Perform(op, [loc0, loc1, Immed(op.args[0].itemSize)], loc0)), Done)
  }

  /** Because the result takes over the left operand's register and that
      register is the first operand handed over, the emitter's in-place
      `PADD` leaves in the result's register the lane sums of the two
      operands. */
  lemma ResolvedIntAddSound(alloc: Alloc, log: seq<Request>, op: ResOp, m: Machine, d: nat, s: nat)
    requires |op.args| >= 2 && op.result.Some?
    requires ArithOutcome(alloc, log, op).status == Done
    requires var a := ArithOutcome(alloc, log, op).action.value; a.resloc == Reg(d, true) && a.arglocs[1] == Reg(s, true)
    requires Valid(m) && d < 16 && s < 16 && op.args[0].itemSize in {1, 2, 4, 8}
    ensures var a := ArithOutcome(alloc, log, op).action.value;
            var size := op.args[0].itemSize;
            var r := Run(m, IntAddCode(a.arglocs[0], a.arglocs[1], a.arglocs[2].value));
            && r.Some? && XmmOnly(m, r.value, d)
            && LanesAre(r.value.xmm[d], Add, m.xmm[d], m.xmm[s], size)
  {
    IntAddSound(m, d, s, op.args[0].itemSize);
  }

  /** `consider_vec_arith_unary` (float neg and abs): the result takes over
      the operand's register. */
  function UnaryOutcome(alloc: Alloc, log: seq<Request>, op: ResOp): (o: Considered)
    requires |op.args| >= 1 && op.result.Some?
    ensures Extends(log, o.log, op) && WellFormed(o, op)
    ensures o.status == Done <==> op.args[0].BoxVector?
    ensures o.status.Failed? ==> o.log == log
    ensures o.status == Done ==>
              var a := o.action.value;
              && a.Perform? && a.arglocs == [a.resloc, Immed(op.args[0].itemSize)]
              && o.log == log + [XmmForceResult(op.result.value, op.args[0])]
              && a.resloc == alloc(log, XmmForceResult(op.result.value, op.args[0]))
  {
    if !op.args[0].BoxVector? then Considered(log, None, Failed(AssertionError))
    else
      var r0 := XmmForceResult(op.result.value, op.args[0]);
      var res := alloc(log, r0);
      Considered(log + [r0], Some(Perform(op, [res, Immed(op.args[0].itemSize)], res)), Done)
  }

  /** `consider_vec_logic` (float eq, int and/or/xor): only the source is
      handed over as an operand; the result, which took over the left
      operand's register, is both read and written by the emitter. */
  function LogicOutcome(alloc: Alloc, log: seq<Request>, op: ResOp): (o: Considered)
    requires |op.args| >= 2 && op.result.Some?
    ensures Extends(log, o.log, op) && WellFormed(o, op)
    ensures o.status == Done <==> op.args[0].BoxVector?
    ensures o.status.Failed? ==> o.log == log
    ensures o.status == Done ==>
              var a := o.action.value;
              && a.Perform? && |a.arglocs| == 2 && a.arglocs[1] == Immed(op.args[0].itemSize)
              && o.log == log + [InReg(op.args[1]), XmmForceResult(op.result.value, op.args[0])]
              && a.arglocs[0] == alloc(log, InReg(op.args[1]))
              && a.resloc == alloc(log + [InReg(op.args[1])], XmmForceResult(op.result.value, op.args[0]))
  {
    if !op.args[0].BoxVector? then Considered(log, None, Failed(AssertionError))
    else
      var r0, r1 := InReg(op.args[1]), XmmForceResult(op.result.value, op.args[0]);
      var source := alloc(log, r0);
      var result := alloc(log + [r0], r1);
      Considered(log + [r0] + [r1], Some(Perform(op, [source, Immed(op.args[0].itemSize)], result)), Done)
  }

  /* ---------------------------------------------------------------------
     Packing, unpacking, expansion, sign extension, casts
     --------------------------------------------------------------------- */

  /** `consider_vec_int_pack` (and float pack), for `res = pack(res, src,
      index, count)`: lanes from lane 0 of the source go to lane `index` of
      the result, which keeps the register of the vector packed into. */
  function PackOutcome(alloc: Alloc, log: seq<Request>, op: ResOp): (o: Considered)
    requires |op.args| >= 4 && op.result.Some?
    ensures Extends(log, o.log, op) && WellFormed(o, op)
    ensures o.status == Done <==> op.args[2].ConstInt? && op.args[3].ConstInt? && op.result.value.BoxVector?
    ensures !(op.args[2].ConstInt? && op.args[3].ConstInt?) ==> o.log == log
    ensures op.args[2].ConstInt? && op.args[3].ConstInt? ==>
              o.log == log + [InReg(op.args[1]), XmmForceResult(op.result.value, op.args[0])]
    ensures o.status == Done ==>
              var a := o.action.value;
              && a.Perform? && |a.arglocs| == 6 && a.arglocs[0] == a.resloc
              && a.arglocs[2..] == [Immed(op.args[2].value), Immed(0), Immed(op.args[3].value), Immed(op.result.value.itemSize)]
              && a.arglocs[1] == alloc(log, InReg(op.args[1]))
              && a.resloc == alloc(log + [InReg(op.args[1])], XmmForceResult(op.result.value, op.args[0]))
  {
    if !(op.args[2].ConstInt? && op.args[3].ConstInt?) then Considered(log, None, Failed(AssertionError))
    else
      var r0, r1 := InReg(op.args[1]), XmmForceResult(op.result.value, op.args[0]);
      var srcloc := alloc(log, r0);
      var resloc := alloc(log + [r0], r1);
      var log' := log + [r0] + [r1];
      if !op.result.value.BoxVector? then Considered(log', None, Failed(AssertionError))
      else
        Considered(log', Some(Perform(op, [resloc, srcloc, Immed(op.args[2].value), Immed(0), Immed(op.args[3].value),
                                        Immed(op.result.value.itemSize)], resloc)), Done)
  }

  /** With both vectors in xmm registers, the code the emitter makes of the
      handed-over locations copies lanes `0 .. count` of the source into
      lanes `index ..` of the result and changes nothing else but the
      scratch register. */
  lemma ResolvedIntPackSound(alloc: Alloc, log: seq<Request>, op: ResOp, m: Machine, d: nat, s: nat)
    requires |op.args| >= 4 && op.result.Some?
    requires PackOutcome(alloc, log, op).status == Done
    requires var a := PackOutcome(alloc, log, op).action.value; a.resloc == Reg(d, true) && a.arglocs[1] == Reg(s, true)
    requires Valid(m) && d < 16 && s < 16 && op.result.value.itemSize in {1, 2, 4, 8}
    requires 0 <= op.args[2].value && 0 <= op.args[3].value
    requires op.args[2].value + op.args[3].value <= LaneCount(op.result.value.itemSize)
    requires d != s || op.args[2].value == 0
    ensures var a := PackOutcome(alloc, log, op).action.value;
            var e := IntPackCode(a.arglocs[0], a.arglocs[1], a.arglocs[2].value, a.arglocs[3].value, a.arglocs[4].value,
                                 a.arglocs[5].value);
            var r := Run(m, e.code);
            && e.Emitted? && r.Some? && OnlyWrites(m, r.value, d, 11)
            && LanesCopied(r.value.xmm[d], m.xmm[d], m.xmm[s], op.result.value.itemSize, 0, op.args[2].value, op.args[3].value)
  {
    IntPackXmmSound(m, d, s, 0, op.args[2].value, op.args[3].value, op.result.value.itemSize);
  }

  /** With the vector packed into in an xmm register and a single item in a
      general register, the emitted code puts the low bytes of that
      register into item `index` of the result, keeps the other items and
      changes nothing else. */
  lemma ResolvedIntPackScalarSound(alloc: Alloc, log: seq<Request>, op: ResOp, m: Machine, d: nat, g: nat)
    requires |op.args| >= 4 && op.result.Some?
    requires PackOutcome(alloc, log, op).status == Done
    requires var a := PackOutcome(alloc, log, op).action.value; a.resloc == Reg(d, true) && a.arglocs[1] == Reg(g, false)
    requires Valid(m) && d < 16 && g < 16 && op.result.value.itemSize in {1, 2, 4, 8}
    requires 0 <= op.args[2].value < LaneCount(op.result.value.itemSize) && op.args[3].value == 1
    ensures var a := PackOutcome(alloc, log, op).action.value;
            var size, index := op.result.value.itemSize, op.args[2].value;
            var e := IntPackCode(a.arglocs[0], a.arglocs[1], a.arglocs[2].value, a.arglocs[3].value, a.arglocs[4].value,
                                 a.arglocs[5].value);
            var r := Run(m, e.code);
            && e.Emitted? && r.Some? && OnlyWrites(m, r.value, d, 16) && index * size + size <= 16
            && r.value.xmm[d] == Put(m.xmm[d], size, index, m.gpr[g][..size])
  {
    IntPackFromGprSound(m, d, g, 0, op.args[2].value, op.result.value.itemSize);
  }

  /** `consider_vec_int_unpack` (and float unpack), for `res = unpack(src,
      index, count)`: lanes from lane `index` of the source go to lane 0 of
      the result.  A vector result takes over the source's register and
      gives the item size; a scalar result gets a register of its own and
      the source vector gives the item size. */
  function UnpackOutcome(alloc: Alloc, log: seq<Request>, op: ResOp): (o: Considered)
    requires |op.args| >= 3 && op.result.Some?
    ensures Extends(log, o.log, op) && WellFormed(o, op)
    ensures o.status == Done <==>
              op.args[1].ConstInt? && op.args[2].ConstInt? && (op.result.value.BoxVector? || op.args[0].BoxVector?)
    ensures !(op.args[1].ConstInt? && op.args[2].ConstInt?) ==> o.log == log
    ensures op.args[1].ConstInt? && op.args[2].ConstInt? ==>
              o.log == log + [InReg(op.args[0]), if op.result.value.BoxVector? then XmmForceResult(op.result.value, op.args[0])
                                                 else ForceAllocate(op.result.value)]
    ensures o.status == Done ==>
              var a := o.action.value;
              var size := if op.result.value.BoxVector? then op.result.value.itemSize else op.args[0].itemSize;
              && a.Perform? && |a.arglocs| == 6 && a.arglocs[0] == a.resloc
              && a.arglocs[2..] == [Immed(0), Immed(op.args[1].value), Immed(op.args[2].value), Immed(size)]
              && a.arglocs[1] == alloc(log, InReg(op.args[0]))
              && a.resloc == alloc(log + [InReg(op.args[0])],
                                   if op.result.value.BoxVector? then XmmForceResult(op.result.value, op.args[0])
                                   else ForceAllocate(op.result.value))
  {
    if !(op.args[1].ConstInt? && op.args[2].ConstInt?) then Considered(log, None, Failed(AssertionError))
    else
      var r0 := InReg(op.args[0]);
      var srcloc := alloc(log, r0);
      var r1 := if op.result.value.BoxVector? then XmmForceResult(op.result.value, op.args[0])
                else ForceAllocate(op.result.value);
      var resloc := alloc(log + [r0], r1);
      var log' := log + [r0] + [r1];
      if !op.result.value.BoxVector? && !op.args[0].BoxVector? then Considered(log', None, Failed(AssertionError))
      else
        var size := if op.result.value.BoxVector? then op.result.value.itemSize else op.args[0].itemSize;
        Considered(log', Some(Perform(op, [resloc, srcloc, Immed(0), Immed(op.args[1].value), Immed(op.args[2].value),
                                        Immed(size)], resloc)), Done)
  }

  /** With both vectors in xmm registers, the code the emitter makes of the
      handed-over locations copies lanes `index .. index + count` of the
      source into lanes `0 ..` of the result and changes nothing else but
      the scratch register; this holds also when the result took over the
      source's register, since the copy runs downwards. */
  lemma ResolvedIntUnpackSound(alloc: Alloc, log: seq<Request>, op: ResOp, m: Machine, d: nat, s: nat)
    requires |op.args| >= 3 && op.result.Some? && op.result.value.BoxVector?
    requires UnpackOutcome(alloc, log, op).status == Done
    requires var a := UnpackOutcome(alloc, log, op).action.value; a.resloc == Reg(d, true) && a.arglocs[1] == Reg(s, true)
    requires Valid(m) && d < 16 && s < 16 && op.result.value.itemSize in {1, 2, 4, 8}
    requires 0 <= op.args[1].value && 0 <= op.args[2].value
    requires op.args[1].value + op.args[2].value <= LaneCount(op.result.value.itemSize)
    ensures var a := UnpackOutcome(alloc, log, op).action.value;
            var e := IntPackCode(a.arglocs[0], a.arglocs[1], a.arglocs[2].value, a.arglocs[3].value, a.arglocs[4].value,
                                 a.arglocs[5].value);
            var r := Run(m, e.code);
            && e.Emitted? && r.Some? && OnlyWrites(m, r.value, d, 11)
            && LanesCopied(r.value.xmm[d], m.xmm[d], m.xmm[s], op.result.value.itemSize, op.args[1].value, 0, op.args[2].value)
  {
    IntPackXmmSound(m, d, s, op.args[1].value, 0, op.args[2].value, op.result.value.itemSize);
  }

  /** Unpacking one item to a scalar in a general register: the register
      holds item `index` of the source vector, zero-extended to eight bytes,
      and nothing else changes. */
  lemma ResolvedIntUnpackScalarSound(alloc: Alloc, log: seq<Request>, op: ResOp, m: Machine, g: nat, s: nat)
    requires |op.args| >= 3 && op.result.Some? && !op.result.value.BoxVector?
    requires UnpackOutcome(alloc, log, op).status == Done
    requires var a := UnpackOutcome(alloc, log, op).action.value; a.resloc == Reg(g, false) && a.arglocs[1] == Reg(s, true)
    requires Valid(m) && g < 16 && s < 16 && op.args[0].itemSize in {1, 2, 4, 8}
    requires 0 <= op.args[1].value < LaneCount(op.args[0].itemSize) && op.args[2].value == 1
    ensures var a := UnpackOutcome(alloc, log, op).action.value;
            var size, index := op.args[0].itemSize, op.args[1].value;
            var e := IntPackCode(a.arglocs[0], a.arglocs[1], a.arglocs[2].value, a.arglocs[3].value, a.arglocs[4].value,
                                 a.arglocs[5].value);
            var r := Run(m, e.code);
            && e.Emitted? && r.Some? && OnlyWrites(m, r.value, 16, g) && index * size + size <= 16
            && r.value.gpr[g] == Get(m.xmm[s], size, index) + Zeros(8 - size)
  {
    IntUnpackToGprSound(m, g, s, op.args[1].value, 0, op.args[0].itemSize);
  }

  /** `consider_vec_float_expand`: a constant is expanded into a constant of
      copies for a fresh register; a variable is expanded in place, so the
      source handed over is the result's own register. */
  function FloatExpandOutcome(alloc: Alloc, log: seq<Request>, op: ResOp): (o: Considered)
    requires |op.args| >= 1 && op.result.Some?
    ensures Extends(log, o.log, op) && WellFormed(o, op)
    ensures o.status == Done <==> op.result.value.BoxVector?
    ensures o.status.Failed? ==> o.log == log
    ensures o.status == Done ==>
              var a := o.action.value;
              var result := op.result.value;
              && a.Perform? && |a.arglocs| == 2 && a.arglocs[1] == Immed(result.itemSize)
              && (IsConst(op.args[0]) ==>
                    && o.log == log + [XmmForceAllocate(result), XmmExpandFloat(result.itemSize, op.args[0])]
                    && a.resloc == alloc(log, XmmForceAllocate(result))
                    && a.arglocs[0] == alloc(log + [XmmForceAllocate(result)], XmmExpandFloat(result.itemSize, op.args[0])))
              && (!IsConst(op.args[0]) ==>
                    && o.log == log + [XmmForceResult(result, op.args[0])]
                    && a.arglocs[0] == a.resloc == alloc(log, XmmForceResult(result, op.args[0])))
  {
    var result := op.result.value;
    if !result.BoxVector? then Considered(log, None, Failed(AssertionError))
    else if IsConst(op.args[0]) then
      var r0, r1 := XmmForceAllocate(result), XmmExpandFloat(result.itemSize, op.args[0]);
      var resloc := alloc(log, r0);
      var srcloc := alloc(log + [r0], r1);
      Considered(log + [r0] + [r1], Some(Perform(op, [srcloc, Immed(result.itemSize)], resloc)), Done)
    else
      var r0 := XmmForceResult(result, op.args[0]);
      var resloc := alloc(log, r0);
      Considered(log + [r0], Some(Perform(op, [resloc, Immed(result.itemSize)], resloc)), Done)
  }

  /** A variable is expanded in its own register: every lane of the result
      register becomes a copy of lane 0 of the value that was there. */
  lemma ResolvedFloatExpandSound(alloc: Alloc, log: seq<Request>, op: ResOp, m: Machine, d: nat)
    requires |op.args| >= 1 && op.result.Some? && !IsConst(op.args[0])
    requires FloatExpandOutcome(alloc, log, op).status == Done
    requires FloatExpandOutcome(alloc, log, op).action.value.resloc == Reg(d, true)
    requires Valid(m) && d < 16 && op.result.value.itemSize in {4, 8}
    ensures var a := FloatExpandOutcome(alloc, log, op).action.value;
            var size := op.result.value.itemSize;
            var e := FloatExpandCode(a.arglocs[0], a.arglocs[1].value, a.resloc);
            var r := Run(m, e.code);
            && e.Emitted? && r.Some? && XmmOnly(m, r.value, d)
            && r.value.xmm[d] == Repeat(Get(m.xmm[d], size, 0), LaneCount(size))
  {
    FloatExpandSound(m, d, op.result.value.itemSize);
  }

  /** `consider_vec_int_expand`: a constant becomes an immediate, a variable
      is placed in a register; the result gets a fresh xmm register. */
  function IntExpandOutcome(alloc: Alloc, log: seq<Request>, op: ResOp): (o: Considered)
    requires |op.args| >= 1 && op.result.Some?
    ensures Extends(log, o.log, op) && WellFormed(o, op)
    ensures o.status == Done <==> op.result.value.BoxVector?
    ensures var first := if IsConst(op.args[0]) then RmConvertToImm(op.args[0]) else InReg(op.args[0]);
            o.log == log + [first, XmmForceAllocate(op.result.value)]
    ensures o.status == Done ==>
              var a := o.action.value;
              var first := if IsConst(op.args[0]) then RmConvertToImm(op.args[0]) else InReg(op.args[0]);
              && a.Perform? && |a.arglocs| == 2 && a.arglocs[1] == Immed(op.result.value.itemSize)
              && a.arglocs[0] == alloc(log, first)
              && a.resloc == alloc(log + [first], XmmForceAllocate(op.result.value))
  {
    var r0 := if IsConst(op.args[0]) then RmConvertToImm(op.args[0]) else InReg(op.args[0]);
    var r1 := XmmForceAllocate(op.result.value);
    var srcloc := alloc(log, r0);
    var resloc := alloc(log + [r0], r1);
    var log' := log + [r0] + [r1];
    if !op.result.value.BoxVector? then Considered(log', None, Failed(AssertionError))
    else Considered(log', Some(Perform(op, [srcloc, Immed(op.result.value.itemSize)], resloc)), Done)
  }

  /** `consider_vec_int_signext`: the result takes over the operand's
      register and is converted in place from the operand's item size to its
      own. */
  function SignExtOutcome(alloc: Alloc, log: seq<Request>, op: ResOp): (o: Considered)
    requires |op.args| >= 1 && op.result.Some?
    ensures Extends(log, o.log, op) && WellFormed(o, op)
    ensures o.status == Done <==> op.args[0].BoxVector? && op.result.value.BoxVector?
    ensures o.log == log + [XmmForceResult(op.result.value, op.args[0])]
    ensures o.status == Done ==>
              var a := o.action.value;
              && a.Perform? && a.arglocs == [a.resloc, Immed(op.args[0].itemSize), Immed(op.result.value.itemSize)]
              && a.resloc == alloc(log, XmmForceResult(op.result.value, op.args[0]))
  {
    var r0 := XmmForceResult(op.result.value, op.args[0]);
    var resloc := alloc(log, r0);
    if !(op.args[0].BoxVector? && op.result.value.BoxVector?) then Considered(log + [r0], None, Failed(AssertionError))
    else
      Considered(log + [r0], Some(Perform(op, [resloc, Immed(op.args[0].itemSize), Immed(op.result.value.itemSize)], resloc)),
              Done)
  }

  /** `consider_vec_cast_float_to_int` (and the other three casts): the
      operand in a register, the result in the operand's register. */
  function CastOutcome(alloc: Alloc, log: seq<Request>, op: ResOp): (o: Considered)
    requires |op.args| >= 1 && op.result.Some?
    ensures Extends(log, o.log, op) && WellFormed(o, op) && o.status == Done
    ensures o.log == log + [InReg(op.args[0]), XmmForceResult(op.result.value, op.args[0])]
    ensures var a := o.action.value;
            && a.Perform? && a.arglocs == [alloc(log, InReg(op.args[0]))]
            && a.resloc == alloc(log + [InReg(op.args[0])], XmmForceResult(op.result.value, op.args[0]))
  {
    var r0, r1 := InReg(op.args[0]), XmmForceResult(op.result.value, op.args[0]);
    var srcloc := alloc(log, r0);
    var resloc := alloc(log + [r0], r1);
    Considered(log + [r0] + [r1], Some(Perform(op, [srcloc], resloc)), Done)
  }

  /* ---------------------------------------------------------------------
     The resolver
     --------------------------------------------------------------------- */

  class VectorRegalloc {
    /** The generic allocator's answers. */
    const alloc: Alloc
    /** The requests made to the allocator so far. */
    var log: seq<Request>
    /** The actions handed to the emitter so far. */
    var performed: seq<Action>

    constructor (alloc: Alloc, log: seq<Request>)
      ensures this.alloc == alloc && this.log == log && performed == []
    {
      this.alloc := alloc;
      this.log := log;
      performed := [];
    }

    /** One request to the allocator. */
    method Ask(r: Request) returns (loc: Loc)
      modifies this
      ensures loc == alloc(old(log), r)
      ensures log == old(log) + [r] && performed == old(performed)
    {
      loc := alloc(log, r);
      log := log + [r];
    }

    /** `consider_vec_getarrayitem_raw`, also `consider_vec_raw_load` */
    method ConsiderGetArrayItemRaw(op: ResOp) returns (st: Status)
      requires |op.args| >= 2 && op.result.Some?
      modifies this
      ensures var o := LoadOutcome(alloc, old(log), op);
              log == o.log && performed == old(performed) + ActionsOf(o) && st == o.status
    {
      if !Accessible(op.descr) {
        return Failed(AssertionError);
      }
      var descr := op.descr.value;
      var integer := !(descr.isArrayOfFloats || descr.concreteType == FLOAT);
      var baseLoc := Ask(RmInReg(op.args[0]));
      var ofsLoc := Ask(RmInReg(op.args[1]));
      var resultLoc := Ask(ForceAllocate(op.result.value));
      performed := performed + [Perform(op, [baseLoc, ofsLoc, Immed(descr.itemSize), Immed(descr.baseOfs),
                                             Immed(Flag(integer)), Immed(0)], resultLoc)];
      return Done;
    }

    /** `consider_vec_setarrayitem_raw`, also `consider_vec_raw_store` */
    method ConsiderSetArrayItemRaw(op: ResOp) returns (st: Status)
      requires |op.args| >= 3
      modifies this
      ensures var o := StoreOutcome(alloc, old(log), op);
              log == o.log && performed == old(performed) + ActionsOf(o) && st == o.status
    {
      if !Accessible(op.descr) {
        return Failed(AssertionError);
      }
      var descr := op.descr.value;
      var baseLoc := Ask(RmInReg(op.args[0]));
      var valueLoc := Ask(InReg(op.args[2]));
      var ofsLoc := Ask(RmInReg(op.args[1]));
      var integer := !(descr.isArrayOfFloats || descr.concreteType == FLOAT);
      performed := performed + [PerformDiscard(op, [baseLoc, ofsLoc, valueLoc, Immed(descr.itemSize), Immed(descr.baseOfs),
                                                    Immed(Flag(integer)), Immed(0)])];
      return Done;
    }

    /** `consider_vec_arith` */
    method ConsiderArith(op: ResOp) returns (st: Status)
      requires |op.args| >= 2 && op.result.Some?
      modifies this
      ensures var o := ArithOutcome(alloc, old(log), op);
              log == o.log && performed == old(performed) + ActionsOf(o) && st == o.status
    {
      var lhs := op.args[0];
      if !lhs.BoxVector? {
        return Failed(AssertionError);
      }
      var size := lhs.itemSize;
      var loc1 := Ask(InReg(op.args[1]));
      var loc0 := Ask(XmmForceResult(op.result.value, op.args[0]));
      performed := performed + [Perform(op, [loc0, loc1, Immed(size)], loc0)];
      return Done;
    }

    /** `consider_vec_arith_unary` */
    method ConsiderArithUnary(op: ResOp) returns (st: Status)
      requires |op.args| >= 1 && op.result.Some?
      modifies this
      ensures var o := UnaryOutcome(alloc, old(log), op);
              log == o.log && performed == old(performed) + ActionsOf(o) && st == o.status
    {
      var lhs := op.args[0];
      if !lhs.BoxVector? {
        return Failed(AssertionError);
      }
      var size := lhs.itemSize;
      var res := Ask(XmmForceResult(op.result.value, op.args[0]));
      performed := performed + [Perform(op, [res, Immed(size)], res)];
      return Done;
    }

    /** `consider_vec_logic` */
    method ConsiderLogic(op: ResOp) returns (st: Status)
      requires |op.args| >= 2 && op.result.Some?
      modifies this
      ensures var o := LogicOutcome(alloc, old(log), op);
              log == o.log && performed == old(performed) + ActionsOf(o) && st == o.status
    {
      var lhs := op.args[0];
      if !lhs.BoxVector? {
        return Failed(AssertionError);
      }
      var size := lhs.itemSize;
      var source := Ask(InReg(op.args[1]));
      var result := Ask(XmmForceResult(op.result.value, op.args[0]));
      performed := performed + [Perform(op, [source, Immed(size)], result)];
      return Done;
    }

    /** `consider_vec_int_pack`, also `consider_vec_float_pack` */
    method ConsiderIntPack(op: ResOp) returns (st: Status)
      requires |op.args| >= 4 && op.result.Some?
      modifies this
      ensures var o := PackOutcome(alloc, old(log), op);
              log == o.log && performed == old(performed) + ActionsOf(o) && st == o.status
    {
      var index, count := op.args[2], op.args[3];
      if !index.ConstInt? || !count.ConstInt? {
        return Failed(AssertionError);
      }
      var srcloc := Ask(InReg(op.args[1]));
      var resloc := Ask(XmmForceResult(op.result.value, op.args[0]));
      var residx := index.value;
      var srcidx := 0;
      if !op.result.value.BoxVector? {
        return Failed(AssertionError);
      }
      var size := op.result.value.itemSize;
      performed := performed + [Perform(op, [resloc, srcloc, Immed(residx), Immed(srcidx), Immed(count.value), Immed(size)],
                                        resloc)];
      return Done;
    }

    /** `consider_vec_int_unpack`, also `consider_vec_float_unpack` */
    method ConsiderIntUnpack(op: ResOp) returns (st: Status)
      requires |op.args| >= 3 && op.result.Some?
      modifies this
      ensures var o := UnpackOutcome(alloc, old(log), op);
              log == o.log && performed == old(performed) + ActionsOf(o) && st == o.status
    {
      var index, count := op.args[1], op.args[2];
      if !index.ConstInt? || !count.ConstInt? {
        return Failed(AssertionError);
      }
      var srcloc := Ask(InReg(op.args[0]));
      var resloc: Loc;
      var size: nat;
      if op.result.value.BoxVector? {
        resloc := Ask(XmmForceResult(op.result.value, op.args[0]));
        size := op.result.value.itemSize;
      } else {
        resloc := Ask(ForceAllocate(op.result.value));
        var arg := op.args[0];
        if !arg.BoxVector? {
          return Failed(AssertionError);
        }
        size := arg.itemSize;
      }
      var residx := 0;
      performed := performed + [Perform(op, [resloc, srcloc, Immed(residx), Immed(index.value), Immed(count.value), Immed(size)],
                                        resloc)];
      return Done;
    }

    /** `consider_vec_float_expand` */
    method ConsiderFloatExpand(op: ResOp) returns (st: Status)
      requires |op.args| >= 1 && op.result.Some?
      modifies this
      ensures var o := FloatExpandOutcome(alloc, old(log), op);
              log == o.log && performed == old(performed) + ActionsOf(o) && st == o.status
    {
      var result := op.result.value;
      if !result.BoxVector? {
        return Failed(AssertionError);
      }
      var arg := op.args[0];
      var resloc: Loc;
      var srcloc: Loc;
      if IsConst(arg) {
        resloc := Ask(XmmForceAllocate(result));
        srcloc := Ask(XmmExpandFloat(result.itemSize, arg));
      } else {
        resloc := Ask(XmmForceResult(result, arg));
        srcloc := resloc;
      }
      var size := result.itemSize;
      performed := performed + [Perform(op, [srcloc, Immed(size)], resloc)];
      return Done;
    }

    /** `consider_vec_int_expand` */
    method ConsiderIntExpand(op: ResOp) returns (st: Status)
      requires |op.args| >= 1 && op.result.Some?
      modifies this
      ensures var o := IntExpandOutcome(alloc, old(log), op);
              log == o.log && performed == old(performed) + ActionsOf(o) && st == o.status
    {
      var arg := op.args[0];
      var srcloc: Loc;
      if IsConst(arg) {
        srcloc := Ask(RmConvertToImm(arg));
      } else {
        srcloc := Ask(InReg(arg));
      }
      var resloc := Ask(XmmForceAllocate(op.result.value));
      if !op.result.value.BoxVector? {
        return Failed(AssertionError);
      }
      var size := op.result.value.itemSize;
      performed := performed + [Perform(op, [srcloc, Immed(size)], resloc)];
      return Done;
    }

    /** `consider_vec_int_signext` */
    method ConsiderIntSignExt(op: ResOp) returns (st: Status)
      requires |op.args| >= 1 && op.result.Some?
      modifies this
      ensures var o := SignExtOutcome(alloc, old(log), op);
              log == o.log && performed == old(performed) + ActionsOf(o) && st == o.status
    {
      var resloc := Ask(XmmForceResult(op.result.value, op.args[0]));
      var sizearg := op.args[0];
      var result := op.result.value;
      if !sizearg.BoxVector? || !result.BoxVector? {
        return Failed(AssertionError);
      }
      var size := sizearg.itemSize;
      var tosize := result.itemSize;
      performed := performed + [Perform(op, [resloc, Immed(size), Immed(tosize)], resloc)];
      return Done;
    }

    /** `consider_vec_box`: only a register for the new vector variable;
      nothing is emitted. */
    method ConsiderVecBox(op: ResOp)
      requires op.result.Some?
      modifies this
      ensures log == old(log) + [XmmForceAllocate(op.result.value)] && performed == old(performed)
      ensures Extends(old(log), log, op)
    {
      var _ := Ask(XmmForceAllocate(op.result.value));
    }

    /** `consider_guard_early_exit`: nothing at all. */
    method ConsiderGuardEarlyExit(op: ResOp)
      modifies this
      ensures log == old(log) && performed == old(performed)
    {
    }

    /** `consider_vec_cast_float_to_int`, also the casts between int and
      float and between single and double floats */
    method ConsiderCast(op: ResOp) returns (st: Status)
      requires |op.args| >= 1 && op.result.Some?
      modifies this
      ensures var o := CastOutcome(alloc, old(log), op);
              log == o.log && performed == old(performed) + ActionsOf(o) && st == o.status
    {
      var srcloc := Ask(InReg(op.args[0]));
      var resloc := Ask(XmmForceResult(op.result.value, op.args[0]));
      performed := performed + [Perform(op, [srcloc], resloc)];
      return Done;
    }
  }
}
