# Vector instruction selection of the PyPy x86 JIT, and the STM dictionary

This project models two cores of PyPy in Dafny.

**The x86 vector backend of the RPython JIT.** The emitter is
`VectorAssemblerMixin` and the resolver is `VectorRegallocMixin`. The
emitter turns vector resoperations into SSE instructions. The resolver
decides, for each operation, which registers the allocator is asked for and
which locations are handed to the emitter.

- The emitter is the class `Assembler.VectorAssembler`. Its field `mc` holds
  the instructions emitted so far. Every `genop_*` is a method that appends
  to `mc`, and each is proved to append exactly what a code-selection
  function computes (`GuardCode`, `IntPackCode`, `FloatPackCode`, ...).
- The failure paths are modelled as outcomes. `not_implemented` becomes
  `Failed(NotImplemented)` and a failed `assert` becomes
  `Failed(AssertionError)`. Code that was already emitted stays emitted.
- The meaning of the emitted code is given by an abstract machine
  (`Machine`). It has sixteen 16-byte xmm registers, sixteen 8-byte general
  registers and the ZF/CF flags. It gives each integer, lane-moving,
  shuffle, blend and test instruction the emitter uses its effect on bytes.
  The lemmas in `Lanes` and `Effects` run the selected code on that machine
  and prove what it computes. Examples:
  - `_guard_vector_true` passes exactly when no item is zero, for vectors
    of whole 16-bit words (see "## Findings" for the others);
  - `vec_int_add` adds lane by lane modulo the lane width;
  - `vec_int_pack` copies lanes `index .. index+count` and nothing else;
  - the 64-bit integer reduction at a guard exit sums the two lanes.
- `_accum_update_at_exit` walks the accumulator chain of a guard. It is
  modelled twice:
  - the specification function `Assembler.AccumExit`, over a sequence of
    fail locations;
  - a method that updates an `array` of fail locations in place.
  `Accum` proves what a completed walk has done to the fail locations and
  to the allocator.
- The resolver is the class `Regalloc.VectorRegalloc`. Its field `log` is
  the sequence of requests made to the register allocator. Its field
  `performed` holds the actions handed to the emitter (`perform` /
  `perform_discard`). The generic allocator is a function `alloc` from the
  request history to the location it answers. Each `consider_*` is proved
  against a specification function (`...Outcome`). That function fixes:
  - the requests, in order;
  - the arguments handed over;
  - the assertion failures.
  Lemmas connect resolver and emitter. For example, the register the
  resolver gives the result of `vec_int_add` is the one the emitter's
  in-place `PADD` writes the sums to.

**The transactional dictionary `pypystm.stmdict`.** It is a hashtable from a
hash value to a bucket. A bucket is a flat array `[k0, v0, k1, v1, ...]`.

- `StmDict.Dict` keeps the table as `h: map<int, array<T>>`. A missing entry
  is a `null` bucket.
- The user-visible methods are modelled as methods of `StmDict.Dict`:
  getitem, setitem, delitem, contains, get, setdefault, the length and the
  key, value and item lists.
- `find_equal_item`, `_run_next_iterations` and `ll_arraycopy` are methods
  over `array`s.
- Every method is proved against the ghost view `Buckets()`, a
  `map<int, seq<T>>`. The lemmas show that every operation keeps the bucket
  invariant:
  - whole pairs;
  - every key hashing to its bucket;
  - no key equal to an earlier one.
- The object space's `hash_w` and `eq_w` are the parameters `hash` and `eq`
  of the dictionary.

## Model

| member | source | states |
|---|---|---|
| Locations.AddrAdd | rpython/jit/backend/x86/vector_ext.py:13-15 | The address operand has exactly the given base, index, scale and offset. |
| Locations.GetScale | rpython/jit/backend/x86/vector_ext.py:101-107 | A scale exists exactly for item sizes 1, 2, 4 and 8. It is the shift with `2^scale == size`. Any other size is an assertion failure. |
| Assembler.MaskFrom | rpython/jit/backend/x86/vector_ext.py:33-35 | The mask built from `index` upward has bit `i` set exactly when `index <= i`. |
| Assembler.BlendMask | rpython/jit/backend/x86/vector_ext.py:30-35 | The `PBLENDW` select has bit `i` set exactly for the 16-bit words at and past the first word not covered by the vector's bits. |
| Assembler.BlendSelect | rpython/jit/backend/x86/vector_ext.py:30-35 | The loop that ORs bits into `select` ends with `BlendMask(bits_used)`. |
| Assembler.GuardCode | rpython/jit/backend/x86/vector_ext.py:20-42 | The guard code starts by zeroing the scratch register. It always ends with compare-to-zero, fill-with-ones and `PTEST`. A fully packed vector gets exactly those four instructions. Any other vector gets seven, with fill-with-ones, the `PBLENDW` of `BlendMask(count * size * 8)` and a re-zeroing of the scratch register in between. |
| Assembler.VectorAssembler.GuardVectorTrue | rpython/jit/backend/x86/vector_ext.py:20-42 | If the argument is not a vector, the result is an assertion failure and nothing is emitted. Otherwise exactly `GuardCode` is appended. |
| Lanes.GuardVectorTrueSound | rpython/jit/backend/x86/vector_ext.py:20-42 | For a vector of a whole number of 16-bit words, the guard code runs on any machine and sets ZF exactly when no item of the vector is zero. This covers both fully packed vectors and partly filled ones, which are blended with ones. The vector's register then holds the compare-to-zero mask of the blended vector, and the scratch register holds all ones. No other register changes. |
| Lanes.GuardVectorTrueRun | rpython/jit/backend/x86/vector_ext.py:20-42 | For any item count and size, the code as emitted sets ZF exactly when the compare-to-zero mask of the vector, blended with ones from the first word not wholly covered by the vector, is all zero. Only the vector's register and the scratch register change. |
| Lanes.GuardOddByteCount | rpython/jit/backend/x86/vector_ext.py:30-36 | A partly packed vector of three 1-byte items whose last item is zero passes the guard as emitted: the blend covers the zero item's whole word. |
| Assembler.GuardCodeCorrected | rpython/jit/backend/x86/vector_ext.py:20-42 | For a whole number of 16-bit words the corrected code is the emitted code. For an odd byte count it blends from the next word and then writes `0xFF` into the one byte of that word past the vector. |
| Lanes.GuardCorrectedSound | rpython/jit/backend/x86/vector_ext.py:20-42 | For any item count and size, the corrected guard sets ZF exactly when no item of the vector is zero. Only the vector's register, the scratch register and the general scratch register change. |
| Assembler.ReduceSumCode | rpython/jit/backend/x86/vector_ext.py:82-99 | Code exists exactly for FLOAT and INT arguments. Any other type is `not_implemented` before anything is emitted. |
| Assembler.VectorAssembler.AccumReduceSum | rpython/jit/backend/x86/vector_ext.py:82-99 | Appends the reduction code for the argument's type and reports its outcome. |
| Assembler.VectorAssembler.AccumReduceMul | rpython/jit/backend/x86/vector_ext.py:73-80 | Appends the swap-and-multiply reduction. The move to the target is only emitted when it differs from the accumulator. |
| Effects.ReduceSumIntSound | rpython/jit/backend/x86/vector_ext.py:92-97 | The integer reduction leaves in the target register the sum of the two 64-bit lanes, modulo 2^64. It changes no xmm register and no general register other than the target and the scratch register. |
| Effects.LaneSum | rpython/jit/backend/x86/vector_ext.py:92-97 | The sum of the two 64-bit lanes, wrapped to 64 bits, is below 2^64. It is the mathematical sum, or that sum minus 2^64. |
| Assembler.AccumExit | rpython/jit/backend/x86/vector_ext.py:47-71 | Walking the accumulator chain never changes the number of fail locations. The requests made before the walk stay in place at the front. A completed walk makes exactly two requests per node. |
| Assembler.AccumExitStep | rpython/jit/backend/x86/vector_ext.py:52-71 | One reducible node emits its reduction, then continues the walk with its fail location replaced by the allocated register and its scalar freed. |
| Assembler.VectorAssembler.AccumUpdateAtExit | rpython/jit/backend/x86/vector_ext.py:47-71 | After the loop over the chain, the fail-location array, the code, the allocator requests and the status are those of `AccumExit`. |
| Accum.AccumExitStop | rpython/jit/backend/x86/vector_ext.py:54-68 | At a node the walk cannot reduce, no fail location changes. A fail location that is not a register, or a node without a scalar, is an assertion failure with no request made. Otherwise the node's scalar is force-allocated and the walk fails with `not_implemented` (an operator other than `+` and `*`, or a `+` over a scalar that is neither float nor integer). |
| Accum.AccumExitGo | rpython/jit/backend/x86/vector_ext.py:60-71 | At a node it can reduce, the walk continues with that node's fail location set to the allocated register. The requests are force-allocate, then possibly-free. |
| Accum.AccumExitKeeps | rpython/jit/backend/x86/vector_ext.py:47-71 | A fail location that no node names is never changed. |
| Accum.AccumExitStatus | rpython/jit/backend/x86/vector_ext.py:47-71 | The walk ends done, with a failed assertion or with `not_implemented`, and in no other way. |
| Accum.Requests | rpython/jit/backend/x86/vector_ext.py:60-70 | A completed walk makes two requests per node: for node `j`, request `2j` force-allocates the node's scalar and request `2j+1` possibly frees it. |
| Accum.AccumExitDone | rpython/jit/backend/x86/vector_ext.py:52-71 | A completed walk met only `+` and `*` nodes and found a scalar for every node. Its requests are exactly `Requests`, one force-allocate and one possibly-free per node, in chain order. |
| Accum.AccumExitTargets | rpython/jit/backend/x86/vector_ext.py:60-69 | After a completed walk over distinct positions, each node's fail location is the register the allocator answered for that node's scalar, given all earlier requests. |
| Assembler.VectorAssembler.GetArrayItemRaw | rpython/jit/backend/x86/vector_ext.py:101-107 | Loads from `base + (index << scale) + ofs`, with the scale of the item size. An item size without a scale is an assertion failure and emits nothing. |
| Assembler.VectorAssembler.RawLoad | rpython/jit/backend/x86/vector_ext.py:109-113 | Loads from `base + index + ofs`, unscaled. |
| Assembler.VectorAssembler.VecLoad | rpython/jit/backend/x86/vector_ext.py:115-125 | Appends the integer (aligned or unaligned) or float (single or double) load for its arguments. Nothing is appended for other float sizes. |
| Assembler.VectorAssembler.SetArrayItemRaw | rpython/jit/backend/x86/vector_ext.py:127-133 | Stores to the scaled address. An item size without a scale is an assertion failure. |
| Assembler.VectorAssembler.RawStore | rpython/jit/backend/x86/vector_ext.py:135-139 | Stores to the unscaled address. |
| Assembler.VectorAssembler.VecStore | rpython/jit/backend/x86/vector_ext.py:141-151 | Appends the store chosen like the load. |
| Regalloc.ResolvedLoadUnaligned | rpython/jit/backend/x86/vector_ext.py:434-447 | A load the resolver accepted is always emitted unaligned: `MOVDQU` for integers, `MOVUPS`/`MOVUPD` for 4- and 8-byte floats. |
| Regalloc.ResolvedStoreUnaligned | rpython/jit/backend/x86/vector_ext.py:451-465 | The same for stores. |
| Assembler.IntMulCode | rpython/jit/backend/x86/vector_ext.py:153-165 | Code exists exactly for item sizes 2 and 4. Other sizes are `not_implemented` with nothing emitted. |
| Assembler.VectorAssembler.IntMul | rpython/jit/backend/x86/vector_ext.py:153-165 | Appends `IntMulCode` and reports its outcome. |
| Effects.IntMulSound | rpython/jit/backend/x86/vector_ext.py:153-159 | For sizes 2 and 4, every lane of the result is the low half of the product of the operands' lanes. Only the result register changes. |
| Assembler.VectorAssembler.IntAdd | rpython/jit/backend/x86/vector_ext.py:167-177 | Appends the packed add of the item size. |
| Effects.IntAddSound | rpython/jit/backend/x86/vector_ext.py:167-177 | For every item size, each lane of the result is the sum of the operands' lanes modulo the lane width. Only the result register changes. |
| Assembler.VectorAssembler.IntSub | rpython/jit/backend/x86/vector_ext.py:179-189 | Appends the packed subtract of the item size. |
| Effects.IntSubSound | rpython/jit/backend/x86/vector_ext.py:179-189 | Each lane of the result is the difference of the operands' lanes modulo the lane width. Only the result register changes. |
| Effects.LaneValue | rpython/jit/backend/x86/vector_ext.py:167-189 | The value of one lane after add, sub or multiply always fits the lane. For lane values in range, an add is the sum or the sum minus the lane range, and a subtract is the difference or the difference plus the lane range. |
| Effects.LaneResultValue | rpython/jit/backend/x86/vector_ext.py:167-189 | The bytes an instruction writes to a lane encode `LaneValue` of the operands' lane values. |
| Assembler.VectorAssembler.IntAnd | rpython/jit/backend/x86/vector_ext.py:191-192 | Appends `PAND result, source`. |
| Assembler.VectorAssembler.IntOr | rpython/jit/backend/x86/vector_ext.py:194-195 | Appends `POR result, source`. |
| Assembler.VectorAssembler.IntXor | rpython/jit/backend/x86/vector_ext.py:197-198 | Appends `PXOR result, source`. |
| Effects.IntLogicSound | rpython/jit/backend/x86/vector_ext.py:191-198 | Each byte of the result register becomes the and, or or xor of its old byte with the source's byte. Nothing else changes. |
| Assembler.VectorAssembler.FloatArithOp | rpython/jit/backend/x86/vector_ext.py:200-215 | Appends the single (`..PS`) or double (`..PD`) form of add, mul or sub for sizes 4 and 8. Other sizes append nothing. |
| Assembler.VectorAssembler.FloatTrueDiv | rpython/jit/backend/x86/vector_ext.py:217-223 | Appends `DIVPS` or `DIVPD`. |
| Assembler.VectorAssembler.FloatAbs | rpython/jit/backend/x86/vector_ext.py:225-231 | Appends the and with the abs-mask constant of the size. |
| Assembler.VectorAssembler.FloatNeg | rpython/jit/backend/x86/vector_ext.py:233-239 | Appends the xor with the sign-mask constant of the size. |
| Assembler.SignExtCode | rpython/jit/backend/x86/vector_ext.py:241-267 | Code exists exactly for equal sizes (which emit nothing), for 4 to 8 and for 8 to 4. Every other conversion is `not_implemented` with nothing emitted. |
| Assembler.VectorAssembler.IntSignExt | rpython/jit/backend/x86/vector_ext.py:241-267 | Appends `SignExtCode` and reports its outcome. |
| Effects.SignExtWidenSound | rpython/jit/backend/x86/vector_ext.py:247-252 | The two low 32-bit lanes of the source become the two 64-bit lanes of the result, with four zero bytes on top. Only the result and the scratch register change. |
| Effects.SignExtNarrowSound | rpython/jit/backend/x86/vector_ext.py:253-259 | The low halves of the two 64-bit lanes become 32-bit lanes 0 and 1 of the result. Lanes 2 and 3 are kept. Only the result and the scratch register change. |
| Effects.SignExtRoundTrip | rpython/jit/backend/x86/vector_ext.py:247-259 | Widening lanes 0 and 1 into a register and narrowing that register in place gives back the two original 32-bit lanes. Only that register and the scratch register change. |
| Effects.SignExtWidenZeroExtends | rpython/jit/backend/x86/vector_ext.py:247-252 | A 32-bit lane of all ones, which is -1, is widened by the emitted code to the 64-bit value 2^32 - 1. |
| Assembler.SignExtCodeCorrected | rpython/jit/backend/x86/vector_ext.py:241-267 | The corrected conversion emits code exactly where the emitted one does, and the same code for every pair of sizes except 4 to 8. |
| Effects.SignExtendValue | rpython/jit/backend/x86/vector_ext.py:247-252 | Extending four bytes with copies of the sign bit keeps the two's complement value. |
| Effects.SignExtCorrectedSound | rpython/jit/backend/x86/vector_ext.py:247-252 | The corrected 4-to-8 conversion gives 64-bit lanes 0 and 1 the two's complement values of the source's 32-bit lanes 0 and 1, with the same low four bytes. Only the result register changes. |
| Effects.SignExtCorrectedRoundTrip | rpython/jit/backend/x86/vector_ext.py:247-259 | With the corrected widening, widening and then narrowing in place also gives back the two original 32-bit lanes. |
| Assembler.FloatExpandCode | rpython/jit/backend/x86/vector_ext.py:269-283 | A non-constant source of a size other than 4 or 8 is an assertion failure with nothing emitted. All other cases emit code. |
| Assembler.VectorAssembler.FloatExpand | rpython/jit/backend/x86/vector_ext.py:269-283 | Appends `FloatExpandCode` and reports its outcome. |
| Effects.FloatExpandSound | rpython/jit/backend/x86/vector_ext.py:275-281 | Expanding a register in place fills every lane with a copy of lane 0. Only that register changes. |
| Effects.FloatExpandSinglesApart | rpython/jit/backend/x86/vector_ext.py:275-279 | With distinct source and result registers, the singles broadcast leaves items 0 and 1 equal to the result's old item 0, and items 2 and 3 equal to the source's item 0. So the code broadcasts only when source and result are the same register. |
| Regalloc.ResolvedFloatExpandSound | rpython/jit/backend/x86/vector_ext.py:557-570 | With the resolver's locations, every lane of the result register becomes lane 0 of the variable. |
| Assembler.IntExpandCode | rpython/jit/backend/x86/vector_ext.py:285-307 | A source that is not a register is first moved to the scratch register. An xmm source, or a size other than 1, 2, 4 or 8, is an assertion failure. |
| Assembler.VectorAssembler.IntExpand | rpython/jit/backend/x86/vector_ext.py:285-307 | Appends `IntExpandCode` and reports its outcome. |
| Effects.ExpandedScalar | rpython/jit/backend/x86/vector_ext.py:285-289 | The 8-byte scalar being expanded is an immediate modulo 2^64, or the general register's value. |
| Effects.IntExpandSound | rpython/jit/backend/x86/vector_ext.py:285-305 | For sizes 2, 4 and 8, the result register becomes the low `size` bytes of the scalar repeated in every lane. Only the result and the scratch register change. |
| Assembler.IntPackCode | rpython/jit/backend/x86/vector_ext.py:309-361 | A result or source that is not a register is an assertion failure with nothing emitted. Otherwise the loop's code is emitted. |
| Assembler.VectorAssembler.IntPack | rpython/jit/backend/x86/vector_ext.py:309-361 | Appends `IntPackCode` and reports its outcome. This is also `genop_vec_int_unpack`. |
| Lanes.IntPackXmmSound | rpython/jit/backend/x86/vector_ext.py:321-359 | Between xmm registers, lanes `si .. si+k` of the source land in lanes `ri .. ri+k` of the result. Every other lane is kept, and only the result and the scratch register change. This holds for copies within one register too, when lanes move down. |
| Lanes.PackedFromLanes | rpython/jit/backend/x86/vector_ext.py:321-359 | Copying lane by lane from another register puts exactly the requested lanes in place. |
| Lanes.PackedWithinLanes | rpython/jit/backend/x86/vector_ext.py:321-359 | Copying lane by lane within one register puts exactly the requested lanes in place when lanes move down. |
| Lanes.IntPackFromGprSound | rpython/jit/backend/x86/vector_ext.py:328-329 | Packing one item from a general register puts its low `size` bytes into lane `ri` of the result. Every other lane is kept, and no other register changes. |
| Lanes.IntUnpackToGprSound | rpython/jit/backend/x86/vector_ext.py:330-331 | Unpacking one item into a general register leaves there lane `si`, zero-extended to eight bytes. No other register changes. |
| Lanes.CopiedBack | rpython/jit/backend/x86/vector_ext.py:321-361 | Copying lanes to another place and then back to where they came from restores the original register. |
| Lanes.PackUnpackRoundTrip | rpython/jit/backend/x86/vector_ext.py:309-361 | Packing `k` lanes of one register into another and unpacking them back leaves the first register as it was and the packed lanes in the second. Only the second register and the scratch register change. |
| Regalloc.ResolvedIntPackSound | rpython/jit/backend/x86/vector_ext.py:514-529 | With the resolver's locations (source lane 0, result lane `index`), the emitted loop copies `count` lanes of the source into the result at `index`. |
| Regalloc.ResolvedIntPackScalarSound | rpython/jit/backend/x86/vector_ext.py:514-529 | With a scalar in a general register, packing one item puts the register's low bytes into lane `index` of the result. No other register changes. |
| Assembler.InsertpsSelect | rpython/jit/backend/x86/vector_ext.py:384 | The `INSERTPS` immediate fits a byte. It selects source lane `si mod 4` and target lane `ri mod 4`, and its zero mask clears no lane. |
| Assembler.FloatPack4Step | rpython/jit/backend/x86/vector_ext.py:376-387 | One step fails exactly when packing a general register into an xmm register with a count other than 1 or a source index other than 0. |
| Assembler.FloatPackCode | rpython/jit/backend/x86/vector_ext.py:363-417 | Non-register operands are an assertion failure with nothing emitted. Sizes other than 4 and 8 emit nothing. |
| Assembler.VectorAssembler.FloatPack | rpython/jit/backend/x86/vector_ext.py:363-417 | Appends `FloatPackCode` and reports its outcome. This is also `genop_vec_float_unpack`. |
| Assembler.VectorAssembler.FloatPackSingles | rpython/jit/backend/x86/vector_ext.py:371-390 | The `while k > 0` loop over 4-byte lanes appends the code and status of the specification `FloatPack4Loop`. |
| Assembler.VectorAssembler.FloatPackSingle | rpython/jit/backend/x86/vector_ext.py:376-387 | One loop iteration appends `FloatPack4Step`. |
| Assembler.VectorAssembler.FloatPackDoubles | rpython/jit/backend/x86/vector_ext.py:391-415 | The 8-byte case appends the specification `FloatPack8` and reports its outcome. |
| Effects.FloatPack4Sound | rpython/jit/backend/x86/vector_ext.py:371-390 | Between xmm registers, single lanes `si .. si+k` of the source land in lanes `ri .. ri+k` of the result. The other lanes are kept and only the result register changes. |
| Effects.FloatUnpackToGpr | rpython/jit/backend/x86/vector_ext.py:386-387 | Unpacking a single into a general register leaves there that lane, zero-extended. No xmm register changes. |
| Effects.FloatPackFromGpr | rpython/jit/backend/x86/vector_ext.py:378-385 | Packing from a general register puts its low 4 bytes into lane `ri` of the result. It changes only the result and the xmm scratch register. |
| Effects.FloatPack8Sound | rpython/jit/backend/x86/vector_ext.py:391-415 | For every source and result lane (except a move from lane 1 to lane 0 within one register), the source lane lands in the result lane and the other result lane is kept. |
| Effects.FloatPack8InPlaceSwap | rpython/jit/backend/x86/vector_ext.py:404-408 | Moving lane 1 to lane 0 within one register swaps its two doubles. |
| Assembler.VectorAssembler.CastOp | rpython/jit/backend/x86/vector_ext.py:419-429 | Appends the one conversion instruction of the cast. |
| Regalloc.LoadOutcome | rpython/jit/backend/x86/vector_ext.py:434-449 | Succeeds exactly for array descriptors of neither pointers nor structs. It requests base, index and result registers in that order. It hands over the base and index registers it was answered, then size, offset, the integer flag and a false aligned flag, with the result register answered last. On failure nothing is requested. |
| Regalloc.VectorRegalloc.ConsiderGetArrayItemRaw | rpython/jit/backend/x86/vector_ext.py:434-449 | The requests, the action performed and the status are those of `LoadOutcome`. |
| Regalloc.StoreOutcome | rpython/jit/backend/x86/vector_ext.py:451-467 | Like loads, but requests base, value, index in that order and hands over the registers answered as base, index, value, with nothing performed on failure. |
| Regalloc.VectorRegalloc.ConsiderSetArrayItemRaw | rpython/jit/backend/x86/vector_ext.py:451-467 | Follows `StoreOutcome`. |
| Regalloc.ArithOutcome | rpython/jit/backend/x86/vector_ext.py:469-485 | Fails exactly when the left operand is not a vector. The result takes over the left operand's register, which is also the first operand handed over. |
| Regalloc.VectorRegalloc.ConsiderArith | rpython/jit/backend/x86/vector_ext.py:469-485 | Follows `ArithOutcome`. |
| Regalloc.ResolvedIntAddSound | rpython/jit/backend/x86/vector_ext.py:469-476 | With the resolver's locations, the emitter's in-place add leaves the lane sums in the result's register. |
| Regalloc.UnaryOutcome | rpython/jit/backend/x86/vector_ext.py:487-497 | Fails exactly for a non-vector operand. The result takes over the operand's register. |
| Regalloc.VectorRegalloc.ConsiderArithUnary | rpython/jit/backend/x86/vector_ext.py:487-497 | Follows `UnaryOutcome`. |
| Regalloc.LogicOutcome | rpython/jit/backend/x86/vector_ext.py:499-512 | Fails exactly for a non-vector left operand. Only the source is handed over. The result takes over the left operand's register. |
| Regalloc.VectorRegalloc.ConsiderLogic | rpython/jit/backend/x86/vector_ext.py:499-512 | Follows `LogicOutcome`. |
| Regalloc.PackOutcome | rpython/jit/backend/x86/vector_ext.py:514-531 | Fails exactly when index or count is not a constant (nothing requested) or the result is not a vector. Source lane 0 goes to result lane `index`, and the result keeps the register of the vector packed into. |
| Regalloc.VectorRegalloc.ConsiderIntPack | rpython/jit/backend/x86/vector_ext.py:514-531 | Follows `PackOutcome`. |
| Regalloc.UnpackOutcome | rpython/jit/backend/x86/vector_ext.py:533-555 | Fails exactly for non-constant index or count, or when neither the result nor the source is a vector. With constant index and count it always requests the source's register and then the result's (taking over the source's register for a vector result, a fresh register for a scalar), whether it then succeeds or not. Source lane `index` goes to result lane 0. The item size comes from the result when it is a vector, otherwise from the source. |
| Regalloc.VectorRegalloc.ConsiderIntUnpack | rpython/jit/backend/x86/vector_ext.py:533-555 | Follows `UnpackOutcome`. |
| Regalloc.ResolvedIntUnpackSound | rpython/jit/backend/x86/vector_ext.py:533-555 | With the resolver's locations (source lane `index`, result lane 0), the emitted loop copies `count` lanes of the source into the result from lane 0, also when the result took over the source's register. |
| Regalloc.ResolvedIntUnpackScalarSound | rpython/jit/backend/x86/vector_ext.py:533-555 | Unpacking one item to a scalar leaves in the scalar's general register lane `index` of the vector, zero-extended. No other register changes. |
| Regalloc.FloatExpandOutcome | rpython/jit/backend/x86/vector_ext.py:557-570 | Fails exactly for a non-vector result. A constant gets a fresh register and an expanded constant. A variable is expanded in its own register, which is both source and result. |
| Regalloc.VectorRegalloc.ConsiderFloatExpand | rpython/jit/backend/x86/vector_ext.py:557-570 | Follows `FloatExpandOutcome`. |
| Regalloc.IntExpandOutcome | rpython/jit/backend/x86/vector_ext.py:572-582 | A constant becomes an immediate and a variable a register, before the fresh result register is requested. It fails exactly for a non-vector result, after both requests. |
| Regalloc.VectorRegalloc.ConsiderIntExpand | rpython/jit/backend/x86/vector_ext.py:572-582 | Follows `IntExpandOutcome`. |
| Regalloc.SignExtOutcome | rpython/jit/backend/x86/vector_ext.py:584-593 | The result takes over the operand's register. It fails, after that request, exactly when the operand or the result is not a vector. |
| Regalloc.VectorRegalloc.ConsiderIntSignExt | rpython/jit/backend/x86/vector_ext.py:584-593 | Follows `SignExtOutcome`. |
| Regalloc.VectorRegalloc.ConsiderVecBox | rpython/jit/backend/x86/vector_ext.py:595-597 | Requests one register for the new vector and hands nothing to the emitter. |
| Regalloc.VectorRegalloc.ConsiderGuardEarlyExit | rpython/jit/backend/x86/vector_ext.py:599-600 | Requests and performs nothing. |
| Regalloc.CastOutcome | rpython/jit/backend/x86/vector_ext.py:602-610 | Always succeeds. The operand is placed in a register and the result takes over the operand's register. |
| Regalloc.VectorRegalloc.ConsiderCast | rpython/jit/backend/x86/vector_ext.py:602-610 | Follows `CastOutcome`. |
| StmDict.FindEqualItem | pypy/module/pypystm/stmdict.py:19-25 | Answers the first even slot whose key equals the one looked for, or -1. |
| StmDict.RunNextIterations | pypy/module/pypystm/stmdict.py:27-37 | The loop from slot 2 answers the first matching even slot from 2 on, or -1 at the end. |
| StmDict.FindFromCharacterised | pypy/module/pypystm/stmdict.py:19-37 | The search answers -1 exactly when no even slot matches. Otherwise it answers the smallest matching even slot. |
| StmDict.FindFromIgnoresValues | pypy/module/pypystm/stmdict.py:19-37 | Value slots are never compared, so buckets with the same keys give the same answer. |
| StmDict.KeyIndexInRange | pypy/module/pypystm/stmdict.py:57-59 | A key found in a bucket of whole pairs has its value slot inside the array. |
| StmDict.ArrayCopy | pypy/module/pypystm/stmdict.py:39-44 | The destination range receives the source range. The rest of the destination is unchanged. |
| StmDict.Dict.GetItem | pypy/module/pypystm/stmdict.py:52-60 | Answers the value stored with an equal key in the key's bucket. A missing bucket or key raises `KeyError`. |
| StmDict.Dict.SetItem | pypy/module/pypystm/stmdict.py:62-80 | The key's bucket becomes `BucketSet` of the old one, or a new one-pair bucket. On an existing key the table of arrays is unchanged and the value is overwritten in place. The bucket invariant is kept. |
| StmDict.BucketSetShape | pypy/module/pypystm/stmdict.py:66-79 | Setting an existing key changes only its value slot. Setting a new key appends the pair after the old contents. |
| StmDict.BucketSetThenLookup | pypy/module/pypystm/stmdict.py:62-80 | After `d[key] = value` the key looks up `value`. |
| StmDict.BucketSetKeepsOthers | pypy/module/pypystm/stmdict.py:62-80 | After `d[key] = value` every key not equal to `key` looks up what it did before. |
| StmDict.BucketSetGood | pypy/module/pypystm/stmdict.py:62-80 | Setting a key keeps the bucket invariant. |
| StmDict.Dict.AppendPair | pypy/module/pypystm/stmdict.py:72-80 | A new key is appended in a fresh array of `L + 2` slots holding the old pairs. |
| StmDict.Dict.DelItem | pypy/module/pypystm/stmdict.py:82-99 | A missing key raises `KeyError` and changes nothing. A found key's pair is removed. The last pair's removal drops the bucket. |
| StmDict.Dict.RemovePair | pypy/module/pypystm/stmdict.py:90-97 | The bucket becomes the slots before the pair followed by the slots after it, or disappears when it held one pair. |
| StmDict.BucketRemoveGood | pypy/module/pypystm/stmdict.py:90-96 | Removing a pair keeps the other slots in order and keeps the bucket invariant. |
| StmDict.Dict.Contains | pypy/module/pypystm/stmdict.py:101-107 | True exactly when the key's bucket holds an equal key, that is, exactly when a lookup would succeed. |
| StmDict.Dict.Get | pypy/module/pypystm/stmdict.py:109-118 | The stored value, or the default when the key is missing. |
| StmDict.Dict.SetDefault | pypy/module/pypystm/stmdict.py:120-139 | A present key answers its value and changes nothing. A missing key gets the default appended to its bucket, and the default is answered. |
| StmDict.Dict.GetLength | pypy/module/pypystm/stmdict.py:141-151 | Half the total bucket length. This is the number of keys `keys()` lists. |
| StmDict.Dict.GetKeysValues | pypy/module/pypystm/stmdict.py:153-168 | The key (offset 0) or value (offset 1) slots of every bucket, buckets in listing order. |
| StmDict.Dict.GetItems | pypy/module/pypystm/stmdict.py:170-186 | The (key, value) pairs of every bucket, buckets in listing order. |
| StmDict.GatherCounts | pypy/module/pypystm/stmdict.py:141-186 | `len`, `keys()` and `values()` agree in length, and `items()` pairs the key list with the value list slot by slot. |

## Left out

- Transactional behaviour of `rstm.create_hashtable` (conflicts, retries, the hashtable's own storage) is not modelled. The hashtable is a map from hash to bucket array, and `list()` is a parameter `listing`: every non-empty bucket once, in some order. `freelist` has no effect on the model.
- The `len_w`, `iter_w`, `keys_w`, `values_w` and `items_w` wrappers only wrap `get_length`, `get_keys_values_w` and `get_items_w` into application-level objects. They are not modelled.
- `W_STMDict___new__` and the type definition are not modelled.
- `hash_w` and `eq_w` are pure functions of the dictionary. An `eq_w` that raises or mutates is not modelled.
- StmDict.BucketSetThenLookup: holds for keys equal to themselves (`eq(key, key)`). Python allows objects, such as NaN floats, that are not.
- Floating point arithmetic has no semantics on the abstract machine. The float add, mul, sub, truediv, abs, neg, the float reductions and the casts are modelled as the instructions they emit, without a statement of the numbers they compute.
- Memory operands (`AddressLoc`, `heap(...)` constants, `ConstFloatLoc`) have no semantics on the machine. Loads, stores, the abs/neg masks and the constant float expand are modelled as emitted instructions only.
- `vec_int_expand` of size 1 uses `PSHUFB` with the byte-mask constant in memory, so it has no effect on the machine. Effects.IntExpandSound covers sizes 2, 4 and 8.
- Instruction encoding (`mc.*` byte output, `_xxi`/`_rxi`/`_xri` forms) is not modelled. `mc` is the sequence of instructions.
- `rpython/jit/backend/x86/vector_ext.py` neither imports nor defines `not_implemented`, `get_scale` or `heap`. As written, the paths that call them (lines 67, 99, 104, 130, 165, 229-239, 267 and 294) would raise `NameError`. The model gives the names the meaning they have elsewhere in the backend: an outcome `NotImplemented`, the scale of sizes 1, 2, 4 and 8, and a memory operand.
- `rpython/jit/metainterp/history.py` is not part of this model. `BoxVector.getsize()` is the item size, and `fully_packed(16)` means item size times item count is 16.
- The identity tests `accumloc is not targetloc` and `resloc != srcloc` are modelled as inequality of locations.
- The register allocator's internals are a function `alloc` of the request history. The `forbidden_vars` argument (`args`, `fail_args`) passed with each request is not modelled.
- The dispatch from `perform` to the `genop_*` methods is not modelled. The resolver lemmas apply the emitter's code functions to the handed-over locations directly.
- Effects.ReduceSumIntSound: requires the target register not to be the scratch register `r11`.
- Effects.FloatExpandSound: covers the variable case with source and result in the same register, which is how the resolver always calls it.
- Effects.FloatPack4Sound: requires `ri <= si` when source and result are the same register. The lane-by-lane copy is then not overwritten before it is read.
- Lanes.IntPackXmmSound: requires `ri <= si` when source and result are the same register, for the same reason.
- Effects.FloatPack8Sound: excludes moving lane 1 to lane 0 within one register. The code then swaps the two doubles, as Effects.FloatPack8InPlaceSwap states. The resolver only reaches this case for an unpack of lane 1, whose result needs only lane 0.
- Regalloc.ResolvedLoadUnaligned: follows from the definitions without a separate proof.
- Regalloc.ResolvedStoreUnaligned: follows from the definitions without a separate proof.
- Accum.AccumExitStop: follows from the definition of `AccumExit` without a separate proof.
- Lanes.IntPackFromGprSound: states a single item (`count == 1`), the case the resolver produces for a scalar. With a larger count the loop inserts the same register into every lane of the range; that is not stated.
- Lanes.IntUnpackToGprSound: states a single item (`count == 1`). With a larger count each extract overwrites the general register, and only the last one survives; that is not stated.
- Regalloc.ResolvedIntPackScalarSound: states `count == 1` only, for the same reason.
- Regalloc.ResolvedIntUnpackScalarSound: states `count == 1` only, for the same reason.
- The 8-byte float pack from a general register emits nothing, as the source does. Assembler.FloatPackCode states this through the code functions only.

## Findings

| source | as written | input that shows it | evidently intended | confidence | as-written member | corrected member |
|---|---|---|---|---|---|---|
| rpython/jit/backend/x86/vector_ext.py:30-36 | The `PBLENDW` select starts at word `bits_used // 16`, rounding down, so for an odd byte count the word holding the vector's last byte is blended with ones. | A vector of three 1-byte items `[1, 1, 0]`: byte 2 lies in word 1, which is blended, so the zero item is hidden and the guard passes. | Fill with ones exactly the bytes past the vector, so that the guard passes exactly when no item is zero. | not executed | Lanes.GuardOddByteCount | Lanes.GuardCorrectedSound |
| rpython/jit/backend/x86/vector_ext.py:247-252 | The 4-to-8 `vec_int_signext` moves each 32-bit lane through `PEXTRD` into a 32-bit register, which clears the upper half, so the lane is zero-extended. | A 32-bit lane `0xFFFFFFFF` (-1) becomes the 64-bit lane `0x00000000FFFFFFFF` (4294967295). | A sign extension, such as `PMOVSXDQ`, keeping each lane's signed value. | not executed | Effects.SignExtWidenZeroExtends | Effects.SignExtCorrectedSound |

The emitter's methods (`GuardVectorTrue`, `IntSignExt`) append the code as
written, so that `mc` stays faithful to the emitter. The corrected code
functions `Assembler.GuardCodeCorrected` and `Assembler.SignExtCodeCorrected`
are defined beside them. The lemmas about the guard's and the conversion's
intended meaning are proved for the corrected code.
