/** Where an operand or result of an x86 vector instruction lives. */
module Locations {
  import opened Outcome

  /** The process-wide constants the emitter addresses through `heap(...)`. */
  datatype HeapConst =
    | SingleFloatConstAbs   // 4-byte lanes with the sign bit cleared
    | FloatConstAbs         // 8-byte lanes with the sign bit cleared
    | SingleFloatConstNeg   // 4-byte lanes with only the sign bit set
    | FloatConstNeg         // 8-byte lanes with only the sign bit set
    | ExpandByteMask        // the byte shuffle that copies byte 0 to every byte

  datatype Loc =
    | Reg(num: nat, isXmm: bool)                       // RegLoc: a general or an xmm register
    | Frame(position: int)                             // FrameLoc: a stack slot
    | Immed(value: int)                                // ImmedLoc: an immediate
    | ConstFloat(address: int)                         // ConstFloatLoc: a 16-byte aligned constant
    | Heap(constant: HeapConst)                        // heap(addr): a constant in memory
    | Address(base: Loc, index: Loc, scale: nat, offset: int)  // AddressLoc: base + (index << scale) + offset

  /** X86_64_SCRATCH_REG (r11), never handed out by the allocator. */
  const Scratch := Reg(11, false)
  /** X86_64_XMM_SCRATCH_REG (xmm15), never handed out by the allocator. */
  const XmmScratch := Reg(15, true)

  predicate IsXmm(l: Loc) { l.Reg? && l.isXmm }
  predicate IsGpr(l: Loc) { l.Reg? && !l.isXmm }

  /** `addr_add`: the address `base + (index << scale) + offset`. */
  function AddrAdd(base: Loc, index: Loc, offset: int, scale: nat): (a: Loc)
    ensures a.Address? && a.base == base && a.index == index
    ensures a.offset == offset && a.scale == scale
  {
    Address(base, index, scale, offset)
  }

  function Pow2(n: nat): nat
  {
    if n == 0 then 1 else 2 * Pow2(n - 1)
  }

  /** `get_scale`: the shift that turns an index into a byte offset for items
      of `size` bytes; only the sizes of machine words have one. */
  function GetScale(size: int): (r: Result<nat>)
    ensures r.Ok? <==> size in {1, 2, 4, 8}
    ensures r.Ok? ==> Pow2(r.value) == size
    ensures r.Fail? ==> r.error == AssertionError
  {
    if size == 1 then Ok(0)
    else if size == 2 then Ok(1)
    else if size == 4 then Ok(2)
    else if size == 8 then Ok(3)
    else Fail(AssertionError)
  }
}
