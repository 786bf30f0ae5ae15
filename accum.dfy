/** What `_accum_update_at_exit` achieves over a whole accumulator chain:
    which fail locations it replaces and with what, which requests it makes
    to the register allocator, and how it can end. */
module Accum {
  import opened Outcome
  import opened Locations
  import opened History
  import opened Allocator
  import opened Assembler

  /** The first node of the chain is reduced without error: its fail
      location is a register, it has a scalar to reduce into, and its
      operator (and, for `+`, the scalar's type) is one the emitter handles. */
  predicate Continues(locs: seq<Loc>, args: seq<Option<Box>>, n: AccumInfo)
    requires n.position < |locs| && n.position < |args|
  {
    && locs[n.position].Reg?
    && ReducedArg(args[n.position]).Some?
    && (n.operation == "*"
        || (n.operation == "+" && TypeOf(ReducedArg(args[n.position]).value) in {FLOAT, INT}))
  }

  /** The walk stops at a node it cannot reduce, with the fail locations
      as they were.  A fail location that is not a register or a missing
      scalar is a failed assertion, before any request; an unknown operator,
      or a `+` over a scalar that is neither a float nor an integer, is not
      implemented, after the node's target register was requested. */
  lemma AccumExitStop(locs: seq<Loc>, args: seq<Option<Box>>, ns: seq<AccumInfo>, alloc: Alloc, calls: seq<Request>)
    requires ChainFits(ns, |locs|, |args|) && ns != []
    requires !Continues(locs, args, ns[0])
    ensures var r := AccumExit(locs, args, ns, alloc, calls);
            var pos := ns[0].position;
            && r.locs == locs
            && if !locs[pos].Reg? || ReducedArg(args[pos]).None? then
                 r.status == Failed(AssertionError) && r.calls == calls
               else
                 r.status == Failed(NotImplemented) && r.calls == calls + [ForceAllocate(ReducedArg(args[pos]).value)]
  {
  }

  /** The walk goes on past a node it can reduce, with that node's fail
      location replaced by the register allocated for its scalar, and the
      scalar given back to the allocator. */
  lemma AccumExitGo(locs: seq<Loc>, args: seq<Option<Box>>, ns: seq<AccumInfo>, alloc: Alloc, calls: seq<Request>)
    requires ChainFits(ns, |locs|, |args|) && ns != []
    requires Continues(locs, args, ns[0])
    ensures ChainFits(ns[1..], |locs|, |args|)
    ensures var pos := ns[0].position;
            var arg := ReducedArg(args[pos]).value;
            var rest := AccumExit(locs[pos := alloc(calls, ForceAllocate(arg))], args, ns[1..], alloc,
                                  calls + [ForceAllocate(arg), PossiblyFree(arg)]);
            var r := AccumExit(locs, args, ns, alloc, calls);
            r.locs == rest.locs && r.calls == rest.calls && r.status == rest.status
  {
    var pos := ns[0].position;
    var arg := ReducedArg(args[pos]).value;
    var loc, tgt := locs[pos], alloc(calls, ForceAllocate(arg));
    assert calls + [ForceAllocate(arg)] + [PossiblyFree(arg)] == calls + [ForceAllocate(arg), PossiblyFree(arg)];
    if ns[0].operation == "+" {
      AccumExitStep(locs, args, ns, alloc, calls, arg, ReduceSumCode(TypeOf(arg), loc, tgt).code);
    } else {
      AccumExitStep(locs, args, ns, alloc, calls, arg, ReduceMulCode(loc, tgt));
    }
  }

  /** A fail location no node of the chain names is left as it was. */
  lemma {:induction false} AccumExitKeeps(locs: seq<Loc>, args: seq<Option<Box>>, ns: seq<AccumInfo>, alloc: Alloc,
                                          calls: seq<Request>, p: nat)
    requires ChainFits(ns, |locs|, |args|) && p < |locs|
    requires forall i :: 0 <= i < |ns| ==> ns[i].position != p
    ensures AccumExit(locs, args, ns, alloc, calls).locs[p] == locs[p]
    decreases |ns|
  {
    if ns != [] {
      if Continues(locs, args, ns[0]) {
        var pos := ns[0].position;
        var arg := ReducedArg(args[pos]).value;
        AccumExitGo(locs, args, ns, alloc, calls);
        AccumExitKeeps(locs[pos := alloc(calls, ForceAllocate(arg))], args, ns[1..], alloc,
                       calls + [ForceAllocate(arg), PossiblyFree(arg)], p);
      } else {
        AccumExitStop(locs, args, ns, alloc, calls);
      }
    }
  }

  /** The walk ends in one of three ways: done, a failed assertion or an
      operation that is not implemented. */
  lemma {:induction false} AccumExitStatus(locs: seq<Loc>, args: seq<Option<Box>>, ns: seq<AccumInfo>, alloc: Alloc,
                                           calls: seq<Request>)
    requires ChainFits(ns, |locs|, |args|)
    ensures var st := AccumExit(locs, args, ns, alloc, calls).status;
            st == Done || st == Failed(AssertionError) || st == Failed(NotImplemented)
    decreases |ns|
  {
    if ns != [] {
      if Continues(locs, args, ns[0]) {
        var pos := ns[0].position;
        var arg := ReducedArg(args[pos]).value;
        AccumExitGo(locs, args, ns, alloc, calls);
        AccumExitStatus(locs[pos := alloc(calls, ForceAllocate(arg))], args, ns[1..], alloc,
                        calls + [ForceAllocate(arg), PossiblyFree(arg)]);
      } else {
        AccumExitStop(locs, args, ns, alloc, calls);
      }
    }
  }

  /** Every node of the chain has a scalar to reduce into. */
  predicate AllReduced(args: seq<Option<Box>>, ns: seq<AccumInfo>)
  {
    forall i :: 0 <= i < |ns| ==> ns[i].position < |args| && ReducedArg(args[ns[i].position]).Some?
  }

  /** The requests a completed walk makes: for each node in turn, a register
      for its scalar and then the scalar given back. */
  function Requests(args: seq<Option<Box>>, ns: seq<AccumInfo>): (rs: seq<Request>)
    requires AllReduced(args, ns)
    ensures |rs| == 2 * |ns|
    ensures forall j :: 0 <= j < |ns| ==>
              && rs[2 * j] == ForceAllocate(ReducedArg(args[ns[j].position]).value)
              && rs[2 * j + 1] == PossiblyFree(ReducedArg(args[ns[j].position]).value)
  {
    if ns == [] then []
    else
      var arg := ReducedArg(args[ns[0].position]).value;
      var rest := Requests(args, ns[1..]);
      assert forall j :: 0 < j < |ns| ==> ns[j] == ns[1..][j - 1];
      [ForceAllocate(arg), PossiblyFree(arg)] + rest
  }

  /** Every node of the chain uses `+` or `*`. */
  predicate KnownOperations(ns: seq<AccumInfo>)
  {
    forall i :: 0 <= i < |ns| ==> ns[i].operation == "+" || ns[i].operation == "*"
  }

  /** A walk that completes used only the operators `+` and `*`, found a
      scalar for every node, and made exactly the requests `Requests` lists. */
  lemma {:induction false} AccumExitDone(locs: seq<Loc>, args: seq<Option<Box>>, ns: seq<AccumInfo>, alloc: Alloc,
                                         calls: seq<Request>)
    requires ChainFits(ns, |locs|, |args|)
    requires AccumExit(locs, args, ns, alloc, calls).status == Done
    ensures KnownOperations(ns)
    ensures AllReduced(args, ns)
    ensures AccumExit(locs, args, ns, alloc, calls).calls == calls + Requests(args, ns)
    decreases |ns|
  {
    if ns != [] {
      if Continues(locs, args, ns[0]) {
        AccumExitDoneStep(locs, args, ns, alloc, calls);
      } else {
        AccumExitStop(locs, args, ns, alloc, calls);
        assert false;
      }
    }
  }

  lemma AccumExitDoneStep(locs: seq<Loc>, args: seq<Option<Box>>, ns: seq<AccumInfo>, alloc: Alloc,
                          calls: seq<Request>)
    requires ChainFits(ns, |locs|, |args|) && ns != [] && Continues(locs, args, ns[0])
    requires AccumExit(locs, args, ns, alloc, calls).status == Done
    ensures KnownOperations(ns)
    ensures AllReduced(args, ns)
    ensures AccumExit(locs, args, ns, alloc, calls).calls == calls + Requests(args, ns)
    decreases |ns|, 0
  {
    var pos := ns[0].position;
    var arg := ReducedArg(args[pos]).value;
    var head := [ForceAllocate(arg), PossiblyFree(arg)];
    AccumExitGo(locs, args, ns, alloc, calls);
    AccumExitDone(locs[pos := alloc(calls, ForceAllocate(arg))], args, ns[1..], alloc, calls + head);
    ChainCons(args, ns);
    var rest := Requests(args, ns[1..]);
    assert calls + head + rest == calls + (head + rest);
  }

  /** The chain facts of a node and the rest of the chain make those of the
      whole chain. */
  lemma ChainCons(args: seq<Option<Box>>, ns: seq<AccumInfo>)
    requires ns != [] && ns[0].position < |args| && ReducedArg(args[ns[0].position]).Some?
    requires ns[0].operation == "+" || ns[0].operation == "*"
    requires KnownOperations(ns[1..]) && AllReduced(args, ns[1..])
    ensures KnownOperations(ns) && AllReduced(args, ns)
    ensures Requests(args, ns)
            == [ForceAllocate(ReducedArg(args[ns[0].position]).value), PossiblyFree(ReducedArg(args[ns[0].position]).value)]
               + Requests(args, ns[1..])
  {
    forall i | 0 < i < |ns|
      ensures ns[i].operation == "+" || ns[i].operation == "*"
      ensures ns[i].position < |args| && ReducedArg(args[ns[i].position]).Some?
    {
      assert ns[i] == ns[1..][i - 1];
    }
  }

  /** No position occurs twice in the chain. */
  predicate DistinctPositions(ns: seq<AccumInfo>)
  {
    forall i, j :: 0 <= i < j < |ns| ==> ns[i].position != ns[j].position
  }

  /** After a completed walk over a chain without repeated positions, the
      fail location of each node is the register the allocator answered for
      that node's scalar, given every request made before it. */
  lemma {:induction false} AccumExitTargets(locs: seq<Loc>, args: seq<Option<Box>>, ns: seq<AccumInfo>, alloc: Alloc,
                                            calls: seq<Request>, j: nat)
    requires ChainFits(ns, |locs|, |args|) && DistinctPositions(ns) && j < |ns|
    requires AccumExit(locs, args, ns, alloc, calls).status == Done
    ensures AllReduced(args, ns)
    ensures AccumExit(locs, args, ns, alloc, calls).locs[ns[j].position]
            == alloc(calls + Requests(args, ns[..j]), ForceAllocate(ReducedArg(args[ns[j].position]).value))
    decreases |ns|
  {
    AccumExitDone(locs, args, ns, alloc, calls);
    if Continues(locs, args, ns[0]) {
      AccumExitTargetsStep(locs, args, ns, alloc, calls, j);
    } else {
      AccumExitStop(locs, args, ns, alloc, calls);
      assert false;
    }
  }

  lemma AccumExitTargetsStep(locs: seq<Loc>, args: seq<Option<Box>>, ns: seq<AccumInfo>, alloc: Alloc,
                             calls: seq<Request>, j: nat)
    requires ChainFits(ns, |locs|, |args|) && DistinctPositions(ns) && j < |ns| && Continues(locs, args, ns[0])
    requires AccumExit(locs, args, ns, alloc, calls).status == Done
    requires AllReduced(args, ns)
    ensures AccumExit(locs, args, ns, alloc, calls).locs[ns[j].position]
            == alloc(calls + Requests(args, ns[..j]), ForceAllocate(ReducedArg(args[ns[j].position]).value))
    decreases |ns|, 0
  {
    var pos := ns[0].position;
    var arg := ReducedArg(args[pos]).value;
    var head := [ForceAllocate(arg), PossiblyFree(arg)];
    var locs1 := locs[pos := alloc(calls, ForceAllocate(arg))];
    AccumExitGo(locs, args, ns, alloc, calls);
    DistinctTail(ns);
    var rest := AccumExit(locs1, args, ns[1..], alloc, calls + head);
    if j == 0 {
      AccumExitKeeps(locs1, args, ns[1..], alloc, calls + head, pos);
      RequestsNone(args, ns, calls);
    } else {
      AccumExitTargets(locs1, args, ns[1..], alloc, calls + head, j - 1);
      TargetLater(args, ns, j, rest.locs, alloc, calls);
    }
  }

  /** The fail location the rest of the walk gives node `j` is the one the
      whole walk promises it. */
  lemma TargetLater(args: seq<Option<Box>>, ns: seq<AccumInfo>, j: nat, locs: seq<Loc>, alloc: Alloc, calls: seq<Request>)
    requires AllReduced(args, ns) && 0 < j < |ns| && ns[j].position < |locs|
    requires AllReduced(args, ns[1..][..j - 1])
    requires var arg := ReducedArg(args[ns[0].position]).value;
             locs[ns[1..][j - 1].position]
             == alloc(calls + [ForceAllocate(arg), PossiblyFree(arg)] + Requests(args, ns[1..][..j - 1]),
                      ForceAllocate(ReducedArg(args[ns[1..][j - 1].position]).value))
    ensures AllReduced(args, ns[..j])
    ensures locs[ns[j].position]
            == alloc(calls + Requests(args, ns[..j]), ForceAllocate(ReducedArg(args[ns[j].position]).value))
  {
    assert ns[1..][j - 1] == ns[j];
    RequestsPrefix(args, ns, j);
    var arg := ReducedArg(args[ns[0].position]).value;
    var head := [ForceAllocate(arg), PossiblyFree(arg)];
    var before := Requests(args, ns[1..][..j - 1]);
    assert calls + head + before == calls + (head + before);
  }

  /** No request is made before the first node. */
  lemma RequestsNone(args: seq<Option<Box>>, ns: seq<AccumInfo>, calls: seq<Request>)
    ensures AllReduced(args, ns[..0]) && calls + Requests(args, ns[..0]) == calls
  {
    assert ns[..0] == [];
  }

  /** Dropping the first node keeps the positions distinct, and none of the
      remaining nodes names the first node's position. */
  lemma DistinctTail(ns: seq<AccumInfo>)
    requires ns != [] && DistinctPositions(ns)
    ensures DistinctPositions(ns[1..])
    ensures forall i :: 0 <= i < |ns[1..]| ==> ns[1..][i].position != ns[0].position
  {
    forall i, k | 0 <= i < k < |ns[1..]|
      ensures ns[1..][i].position != ns[1..][k].position
    {
      assert ns[1..][i] == ns[i + 1] && ns[1..][k] == ns[k + 1];
    }
    forall i | 0 <= i < |ns[1..]|
      ensures ns[1..][i].position != ns[0].position
    {
      assert ns[1..][i] == ns[i + 1];
    }
  }

  /** The requests made before node `j` are those of the first node followed
      by those the rest of the chain makes before its own node `j - 1`. */
  lemma RequestsPrefix(args: seq<Option<Box>>, ns: seq<AccumInfo>, j: nat)
    requires AllReduced(args, ns) && 0 < j <= |ns|
    ensures AllReduced(args, ns[..j]) && AllReduced(args, ns[1..][..j - 1])
    ensures Requests(args, ns[..j])
            == [ForceAllocate(ReducedArg(args[ns[0].position]).value), PossiblyFree(ReducedArg(args[ns[0].position]).value)]
               + Requests(args, ns[1..][..j - 1])
  {
    assert ns[..j][1..] == ns[1..][..j - 1];
    assert ns[..j][0] == ns[0];
  }
}
