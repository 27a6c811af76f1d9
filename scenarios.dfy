/**
 * Client programs built from the handle operations, each checking one
 * behaviour the header promises from end to end: what observers see after
 * the owner deletes or resets, how copies, moves and aliases share a block,
 * and the copy self-assignment of the code as written against the intended
 * one.
 */
module Scenarios {
  import opened Outcomes
  import opened Paths
  import opened Handles

  /** The address of a heap object to be owned. */
  const Obj: Addr := Loc(0, [])

  /**
   * Deleting the owner invalidates every observer of its object: an observer
   * taken from the owner and a copy of it both get null afterwards, and
   * dereferencing throws runtime_error.  The deleter receives the owned
   * object, and an observer taken from the owner afterwards is null.
   */
  method DeletingTheOwnerInvalidatesObservers() returns (before: Addr, deleted: Addr, after: Addr, copyAfter: Addr, deref: Result<Addr>, late: Addr)
    ensures before == Obj && deleted == Obj && after == Null && copyAfter == Null && deref == Err(RuntimeError)
    ensures late == Null
  {
    var owner := new NotifyingUniquePtr(Obj);
    var p := new PtrToUnique.FromOwner(owner);
    var q := new PtrToUnique.Copy(p);
    before := q.Get();
    deleted := owner.Delete();
    after := p.Get();
    copyAfter := q.Get();
    deref := q.Deref();
    var r := new PtrToUnique.FromOwner(owner);
    late := r.Get();
  }

  /**
   * The block outlives its owner while observed and is freed by the last
   * detach: deleting the owner leaves it allocated (one observer is still
   * attached), and that observer's next get() finds the block invalid,
   * detaches and frees it.  The freeing rests on the signed last-detach
   * test; with the unsigned comparison the block would stay allocated.
   */
  method LastDetachFreesTheBlock() returns (got: Addr, ghost freedByDelete: bool, ghost freedAtEnd: bool)
    ensures got == Null && !freedByDelete && freedAtEnd
  {
    var owner := new NotifyingUniquePtr(Obj);
    var p := new PtrToUnique.FromOwner(owner);
    ghost var b := p.cbx.pCB;
    var deleted := owner.Delete();
    freedByDelete := b.freed;
    got := p.Get();
    freedAtEnd := b.freed;
  }

  /**
   * reset_all_ptrs invalidates the existing observers but keeps the object;
   * an observer taken afterwards attaches to a new block and is valid.
   */
  method ResetKeepsTheObject() returns (stale: Addr, retaken: Addr)
    ensures stale == Null && retaken == Obj
  {
    var owner := new NotifyingUniquePtr(Obj);
    var p := new PtrToUnique.FromOwner(owner);
    owner.ResetAllPtrs();
    stale := p.Get();
    var r := new PtrToUnique.FromOwner(owner);
    retaken := r.Get();
  }

  /** A null owner yields an observer that is unattached and null. */
  method NullOwnerYieldsNullObserver() returns (valid: bool, got: Addr)
    ensures !valid && got == Null
  {
    var owner := new NotifyingUniquePtr(Null);
    var p := new PtrToUnique.FromOwner(owner);
    valid := p.IsValid();
    got := p.Get();
  }

  /** Moving an observer hands the watched object over and leaves the source null. */
  method MoveLeavesTheSourceNull() returns (source: Addr, target: Addr)
    ensures source == Null && target == Obj
  {
    var owner := new NotifyingUniquePtr(Obj);
    var p := new PtrToUnique.FromOwner(owner);
    var q := new PtrToUnique.Move(p);
    source := p.Get();
    target := q.Get();
  }

  /**
   * Aliases into an array of 5: index 2 selects element 2 and attaches to
   * the owner's block, so it dies with the owner; index 7 throws out_of_range.
   */
  method AliasIntoAnArray() returns (inRange: Addr, outOfRange: bool, afterDelete: Addr)
    ensures inRange == Loc(0, [Elem(2)]) && outOfRange && afterDelete == Null
  {
    var shape := ArrayOf(5, Scalar);
    var owner := new NotifyingUniquePtr(Obj);
    var bad := PtrToUnique.AliasOfOwner(owner, shape, [Index(7)]);
    outOfRange := bad.Err? && bad.error == OutOfRange;
    var a := PtrToUnique.AliasOfOwner(owner, shape, [Index(2)]);
    inRange := a.value.Get();
    var deleted := owner.Delete();
    afterDelete := a.value.Get();
  }

  /**
   * The copy assignment as written: assigning a valid observer to itself
   * releases it before it reads itself, so it ends null.
   */
  method SelfCopyAssignmentAsWritten() returns (before: Addr, after: Addr)
    ensures before == Obj && after == Null
  {
    var owner := new NotifyingUniquePtr(Obj);
    var p := new PtrToUnique.FromOwner(owner);
    before := p.Get();
    p.AssignCopy(p);
    after := p.Get();
  }

  /** The guarded copy assignment: assigning an observer to itself keeps what it watches. */
  method SelfCopyAssignmentGuarded() returns (before: Addr, after: Addr)
    ensures before == Obj && after == Obj
  {
    var owner := new NotifyingUniquePtr(Obj);
    var p := new PtrToUnique.FromOwner(owner);
    before := p.Get();
    p.AssignCopyGuarded(p);
    after := p.Get();
  }

  /**
   * A dynamic_ptr_cast whose type test fails still attaches: the result
   * reports valid while get() returns null.
   */
  method FailedCastStillAttaches() returns (valid: bool, got: Addr)
    ensures valid && got == Null
  {
    var owner := new NotifyingUniquePtr(Obj);
    var p := new PtrToUnique.FromOwner(owner);
    var c := p.DynamicPtrCast(a => Null);
    valid := c.IsValid();
    got := c.Get();
  }
}
