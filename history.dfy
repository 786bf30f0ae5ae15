/** The parts of the JIT's trace representation the vector backend reads:
    boxes (the values of a trace), array descriptors, resoperations and the
    chain of accumulators a guard carries. */
module History {
  import opened Outcome

  /** The `type` of a box. */
  datatype ValueType = INT | REF | FLOAT | VECTOR

  /** Whether a vector box is an accumulator (`BoxVectorAccum`) and, if so,
      the scalar variable it accumulates into (which may be missing). */
  datatype Accum = Plain | Accumulator(scalarVar: Option<Box>)

  datatype Box =
    | BoxInt(id: nat)
    | BoxFloat(id: nat)
    | BoxPtr(id: nat)
    | BoxVector(id: nat, itemType: ValueType, itemSize: nat, itemCount: nat, accum: Accum)
    | ConstInt(value: int)
    | ConstFloat(bits: int)
    | ConstPtr(address: int)

  /** `box.type` */
  function TypeOf(b: Box): ValueType
  {
    match b
    case BoxInt(_) => INT
    case ConstInt(_) => INT
    case BoxFloat(_) => FLOAT
    case ConstFloat(_) => FLOAT
    case BoxPtr(_) => REF
    case ConstPtr(_) => REF
    case BoxVector(_, _, _, _, _) => VECTOR
  }

  /** `isinstance(box, Const)` */
  predicate IsConst(b: Box)
  {
    b.ConstInt? || b.ConstFloat? || b.ConstPtr?
  }

  /** `vector.fully_packed(register_size)`: the items fill the register. */
  predicate FullyPacked(b: Box, registerSize: nat)
    requires b.BoxVector?
  {
    b.itemSize * b.itemCount == registerSize
  }

  /** The fields of an `ArrayDescr` the vector operations read;
      `itemSize` and `baseOfs` are what `unpack_arraydescr` returns. */
  datatype ArrayDescr = ArrayDescr(
    itemSize: nat,
    baseOfs: int,
    isArrayOfPointers: bool,
    isArrayOfStructs: bool,
    isArrayOfFloats: bool,
    concreteType: ValueType)

  /** A resoperation: its arguments, its result box (none for stores) and,
      for array accesses, its descriptor (`None` when it is not an
      `ArrayDescr`). */
  datatype ResOp = ResOp(args: seq<Box>, result: Option<Box>, descr: Option<ArrayDescr>)

  /** One node of a guard's `rd_accum_list`: the position of the accumulated
      value among the fail arguments, its operator and the node before. */
  datatype AccumInfo = AccumInfo(position: nat, operation: string, prev: Option<AccumInfo>)

  /** The nodes of an accumulator chain, in the order `prev` links them. */
  function Nodes(accum: Option<AccumInfo>): (ns: seq<AccumInfo>)
    ensures accum.None? <==> ns == []
  {
    match accum
    case None => []
    case Some(node) => [node] + Nodes(node.prev)
  }
}
