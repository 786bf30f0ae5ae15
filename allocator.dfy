/** The interface of the generic register allocator the vector backend calls
    into.  The allocator itself is not part of this model: it is a
    deterministic function that answers every request with a location and
    may depend on every request made to it before. */
module Allocator {
  import opened Locations
  import opened History

  datatype Request =
    | RmInReg(box: Box)                      // rm.make_sure_var_in_reg
    | InReg(box: Box)                        // make_sure_var_in_reg (rm or xrm by the box's type)
    | ForceAllocate(box: Box)                // force_allocate_reg (rm or xrm by the box's type)
    | XmmForceResult(result: Box, arg: Box)  // xrm.force_result_in_reg: the result takes arg's register
    | XmmForceAllocate(box: Box)             // xrm.force_allocate_reg
    | XmmExpandFloat(size: nat, constant: Box)  // xrm.expand_float: a 16-byte constant of copies
    | RmConvertToImm(constant: Box)           // rm.convert_to_imm
    | PossiblyFree(box: Box)                 // possibly_free_var

  /** The answer to a request, given the requests made before it. */
  type Alloc = (seq<Request>, Request) -> Loc
}
