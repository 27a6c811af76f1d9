/**
 * The two handles: the owner (a notifying_unique_ptr, that is a unique_ptr
 * whose deleter is notify_ptrs) and the observer (ptr_to_unique).  Every
 * operation is written as the sequence of connection operations the header
 * performs, and its contract says which block each connection ends up on
 * and what happened to the blocks involved.
 */
module Handles {
  import opened Outcomes
  import opened Protocol
  import opened Paths
  import opened Blocks

  /**
   * A notifying_unique_ptr: the pointer the unique_ptr holds (what its get()
   * returns) and the connection kept inside its notify_ptrs deleter.
   */
  class NotifyingUniquePtr {
    var held: Addr
    const cbx: Cbx

    ghost predicate Valid()
      reads this, cbx, cbx.Repr()
    {
      cbx.isOwner && cbx.Valid()
    }

    /** A unique_ptr holding `held`, with a notify_ptrs deleter that has no block yet. */
    constructor (held: Addr)
      ensures Valid() && fresh(cbx) && cbx.pCB == null
      ensures this.held == held
    {
      this.held := held;
      cbx := new Cbx(true);
    }

    /**
     * The owner gives up its object (unique_ptr::reset() or the destructor):
     * the unique_ptr stops holding the pointer and calls its deleter, once,
     * only for a non-null pointer.  The deleter, notify_ptrs::operator(),
     * invalidates the block and forgets it, then hands the pointer to the
     * inner deleter, returned here as `deleted`.  Every observer attached to
     * the block stays well formed and will find it dead.
     */
    method Delete() returns (deleted: Addr)
      requires Valid() && held != Null
      modifies this, cbx, cbx.pCB
      ensures Valid() && cbx.pCB == null && held == Null && deleted == old(held)
      ensures old(cbx.pCB) != null ==> Invalidated(old(cbx.pCB))
      ensures old(cbx.pCB) != null ==>
                forall c | c in old(cbx.pCB).holders :: c.Valid() && c.pCB == old(cbx.pCB) && !c.pCB.GetValid()
    {
      deleted := held;
      held := Null;        // unique_ptr::reset stores the new (null) pointer first
      cbx.MarkInvalid();   // notify_ptrs::operator()
      // inner_deleter(deleted)
    }

    /** reset_all_ptrs: invalidate the block without deleting the object. */
    method ResetAllPtrs()
      requires Valid()
      modifies cbx, cbx.pCB
      ensures Valid() && cbx.pCB == null
      ensures old(cbx.pCB) != null ==> Invalidated(old(cbx.pCB))
      ensures old(cbx.pCB) != null ==>
                forall c | c in old(cbx.pCB).holders :: c.Valid() && c.pCB == old(cbx.pCB) && !c.pCB.GetValid()
    {
      cbx.MarkInvalid();
    }
  }

  /** ptr_to_unique: a cached address and a connection that guards it. */
  class PtrToUnique {
    var addr: Addr     // m_pT
    const cbx: Cbx

    ghost predicate Valid()
      reads this, cbx, cbx.Repr()
    {
      !cbx.isOwner && cbx.Valid()
    }

    /** Attached to a block that is still valid. */
    ghost predicate Live()
      reads this, cbx, cbx.pCB
    {
      cbx.pCB != null && cbx.pCB.GetValid()
    }

    /** The default constructor and construction from nullptr: unattached. */
    constructor Empty()
      ensures Valid() && fresh(cbx) && cbx.pCB == null && addr == Null
    {
      addr := Null;
      cbx := new Cbx(false);
    }

    /** The destructor: release the attachment. */
    method Destroy()
      requires Valid()
      modifies cbx, cbx.pCB
      ensures Valid() && cbx.pCB == null
      ensures old(cbx.pCB) != null ==> DetachedFrom(old(cbx.pCB), cbx)
    {
      cbx.Release();
    }

    /** operator=(nullptr): release the attachment. */
    method AssignNull()
      requires Valid()
      modifies cbx, cbx.pCB
      ensures Valid() && cbx.pCB == null
      ensures old(cbx.pCB) != null ==> DetachedFrom(old(cbx.pCB), cbx)
    {
      cbx.Release();
    }

    /** point_to(ptr_to_unique): attach and copy the address only if src's block is valid. */
    method PointTo(src: PtrToUnique)
      requires Valid() && src.Valid() && cbx.pCB == null
      modifies this, cbx, src.cbx.pCB
      ensures Valid() && src.Valid() && src.cbx.pCB == old(src.cbx.pCB)
      ensures cbx.pCB == (if old(src.Live()) then src.cbx.pCB else null)
      ensures addr == (if old(src.Live()) then old(src.addr) else old(addr))
      ensures old(src.Live()) ==> AttachedTo(src.cbx.pCB, cbx)
      ensures !old(src.Live()) && src.cbx.pCB != null ==> Untouched(src.cbx.pCB)
    {
      var adopted := cbx.AdoptBlockIfValid(src.cbx);
      if adopted {
        addr := src.addr;
      }
    }

    /** The copy and converting copy constructors. */
    constructor Copy(src: PtrToUnique)
      requires src.Valid()
      modifies src.cbx.pCB
      ensures Valid() && fresh(cbx) && src.Valid() && src.cbx.pCB == old(src.cbx.pCB)
      ensures cbx.pCB == (if old(src.Live()) then src.cbx.pCB else null)
      ensures addr == (if old(src.Live()) then old(src.addr) else Null)
      ensures old(src.Live()) ==> AttachedTo(src.cbx.pCB, cbx)
      ensures !old(src.Live()) && src.cbx.pCB != null ==> Untouched(src.cbx.pCB)
    {
      addr := Null;
      cbx := new Cbx(false);
      new;
      PointTo(src);
    }

    /**
     * The copy and converting copy assignments: release, then point_to.  When
     * src is this observer, the release empties src first, so the observer
     * ends unattached.
     */
    method AssignCopy(src: PtrToUnique)
      requires Valid() && src.Valid()
      modifies this, cbx, cbx.pCB, src.cbx.pCB
      ensures Valid() && src.Valid()
      ensures cbx.pCB == (if src.cbx != cbx && old(src.Live()) then old(src.cbx.pCB) else null)
      ensures cbx.pCB != null ==> addr == old(src.addr)
      ensures src.cbx != cbx ==> src.cbx.pCB == old(src.cbx.pCB)
      ensures var b0, b := old(cbx.pCB), old(src.cbx.pCB);
              && (b0 != null && (b0 != b || cbx.pCB == null) ==> DetachedFrom(b0, cbx))
              && (b0 != null && b0 == b && cbx.pCB != null ==> Untouched(b0))
              && (b != null && b != b0 && cbx.pCB != null ==> AttachedTo(b, cbx))
              && (b != null && b != b0 && cbx.pCB == null ==> Untouched(b))
    {
      ghost var b0, b := cbx.pCB, src.cbx.pCB;
      cbx.Release();
      label released:
      // Releasing this observer's block leaves src's connection, and a
      // different block of src's, as they were.
      assert src.cbx != cbx ==> src.cbx.pCB == b;
      assert b != null && b != b0 ==> unchanged(b);
      PointTo(src);
      // point_to touches only src's block.
      assert b0 != null && b0 != b ==> unchanged@released(b0);
    }

    /**
     * The copy assignment as evidently intended: assigning an observer to
     * itself leaves it as it is; otherwise release, then point_to.  (Each
     * observer has its own connection, so src.cbx == cbx means src is this.)
     */
    method AssignCopyGuarded(src: PtrToUnique)
      requires Valid() && src.Valid()
      modifies this, cbx, cbx.pCB, src.cbx.pCB
      ensures Valid() && src.Valid()
      ensures src.cbx == cbx ==> cbx.pCB == old(cbx.pCB) && addr == old(addr) && unchanged(cbx) &&
                                 (cbx.pCB != null ==> Untouched(cbx.pCB))
      ensures src.cbx != cbx ==>
                && cbx.pCB == (if old(src.Live()) then old(src.cbx.pCB) else null)
                && (cbx.pCB != null ==> addr == old(src.addr))
                && src.cbx.pCB == old(src.cbx.pCB)
      ensures var b0, b := old(cbx.pCB), old(src.cbx.pCB);
              && (b0 != null && (b0 != b || cbx.pCB == null) ==> DetachedFrom(b0, cbx))
              && (b0 != null && b0 == b && cbx.pCB != null ==> Untouched(b0))
              && (b != null && b != b0 && cbx.pCB != null ==> AttachedTo(b, cbx))
              && (b != null && b != b0 && cbx.pCB == null ==> Untouched(b))
    {
      if src.cbx != cbx {
        AssignCopy(src);
      }
    }

    /** accept_move: take over src's attachment and address; the counts do not change. */
    method AcceptMove(src: PtrToUnique)
      requires Valid() && src.Valid() && cbx.pCB == null
      modifies this, cbx, src.cbx, src.cbx.pCB
      ensures Valid() && src.Valid()
      ensures cbx.pCB == old(src.cbx.pCB) && (src.cbx != cbx ==> src.cbx.pCB == null)
      ensures addr == old(src.addr)
      ensures cbx.pCB != null ==> HandedOver(cbx.pCB, src.cbx, cbx)
    {
      cbx.StealBlock(src.cbx);
      addr := src.addr;
    }

    /** The move and converting move constructors. */
    constructor Move(src: PtrToUnique)
      requires src.Valid()
      modifies src.cbx, src.cbx.pCB
      ensures Valid() && fresh(cbx) && src.Valid()
      ensures cbx.pCB == old(src.cbx.pCB) && src.cbx.pCB == null
      ensures addr == old(src.addr)
      ensures cbx.pCB != null ==> HandedOver(cbx.pCB, src.cbx, cbx)
    {
      addr := Null;
      cbx := new Cbx(false);
      new;
      AcceptMove(src);
    }

    /** The move and converting move assignments: release, then accept_move. */
    method AssignMove(src: PtrToUnique)
      requires Valid() && src.Valid()
      modifies this, cbx, cbx.pCB, src.cbx, src.cbx.pCB
      ensures Valid() && src.Valid() && src.cbx.pCB == null
      ensures cbx.pCB == (if src.cbx != cbx then old(src.cbx.pCB) else null)
      ensures addr == old(src.addr)
      ensures var b0, b := old(cbx.pCB), old(src.cbx.pCB);
              && (b0 != null && (b0 != b || src.cbx == cbx) ==> DetachedFrom(b0, cbx))
              && (b0 != null && b0 == b && src.cbx != cbx ==> DetachedFrom(b0, src.cbx))
              && (b != null && b != b0 ==> HandedOver(b, src.cbx, cbx))
    {
      cbx.Release();
      AcceptMove(src);
    }

    /**
     * point_to(notifying_unique_ptr): copy the owner's pointer; if it is not
     * null, make the owner's block if needed and attach to it.
     */
    method PointToOwner(owner: NotifyingUniquePtr)
      requires Valid() && owner.Valid() && cbx.pCB == null
      modifies this, cbx, owner.cbx, owner.cbx.pCB
      ensures Valid() && owner.Valid() && addr == owner.held
      ensures owner.held == Null ==> cbx.pCB == null && unchanged(owner.cbx) && (owner.cbx.pCB != null ==> unchanged(owner.cbx.pCB))
      ensures owner.held != Null ==> cbx.pCB != null && cbx.pCB == owner.cbx.pCB
      ensures owner.held != Null && old(owner.cbx.pCB) != null ==>
                cbx.pCB == old(owner.cbx.pCB) && AttachedTo(cbx.pCB, cbx)
      ensures owner.held != Null && old(owner.cbx.pCB) == null ==>
                fresh(cbx.pCB) && cbx.pCB.Valid() && cbx.pCB.holders == {cbx} &&
                Protocol.Step(Alive(NewBlock(1)), Op.AddWeak) == Some(cbx.pCB.Life())
    {
      addr := owner.held;
      if addr != Null {
        cbx.AssureAndAdoptOwnerBlock(owner.cbx, 1);
      }
    }

    /** Construction from a notifying_unique_ptr (of this type or a derived one). */
    constructor FromOwner(owner: NotifyingUniquePtr)
      requires owner.Valid()
      modifies owner.cbx, owner.cbx.pCB
      ensures Valid() && fresh(cbx) && owner.Valid() && addr == owner.held
      ensures owner.held == Null ==> cbx.pCB == null && owner.cbx.pCB == old(owner.cbx.pCB)
      ensures owner.held != Null ==> cbx.pCB != null && cbx.pCB == owner.cbx.pCB
      ensures owner.held != Null && old(owner.cbx.pCB) != null ==>
                cbx.pCB == old(owner.cbx.pCB) && AttachedTo(cbx.pCB, cbx)
      ensures owner.held != Null && old(owner.cbx.pCB) == null ==>
                fresh(cbx.pCB) && cbx.pCB.Valid() && cbx.pCB.holders == {cbx} &&
                Protocol.Step(Alive(NewBlock(1)), Op.AddWeak) == Some(cbx.pCB.Life())
    {
      addr := Null;
      cbx := new Cbx(false);
      new;
      PointToOwner(owner);
    }

    /** Assignment from a notifying_unique_ptr: release, then point_to. */
    method AssignOwner(owner: NotifyingUniquePtr)
      requires Valid() && owner.Valid()
      modifies this, cbx, cbx.pCB, owner.cbx, owner.cbx.pCB
      ensures Valid() && owner.Valid() && addr == owner.held
      ensures owner.held == Null ==> cbx.pCB == null
      ensures owner.held != Null ==> cbx.pCB != null && cbx.pCB == owner.cbx.pCB
      ensures var b0, ob := old(cbx.pCB), old(owner.cbx.pCB);
              && (b0 != null && (b0 != ob || owner.held == Null) ==> DetachedFrom(b0, cbx))
              && (b0 != null && b0 == ob && owner.held != Null ==> Untouched(b0))
              && (ob != null && ob != b0 && owner.held != Null ==> cbx.pCB == ob && AttachedTo(ob, cbx))
              && (ob == null && owner.held != Null ==>
                    fresh(cbx.pCB) && cbx.pCB.holders == {cbx} &&
                    Protocol.Step(Alive(NewBlock(1)), Op.AddWeak) == Some(cbx.pCB.Life()))
    {
      ghost var b0 := cbx.pCB;
      cbx.Release();
      // A block other than the owner's cannot name the owner as its live owner.
      assert b0 != null && b0 != owner.cbx.pCB ==> b0.freed || b0.owner != owner.cbx || !b0.GetValid();
      PointToOwner(owner);
    }

    /** operator bool: check_valid, which detaches from a block it finds dead. */
    method IsValid() returns (b: bool)
      requires Valid()
      modifies cbx, cbx.pCB
      ensures Valid()
      ensures b == old(Live())
      ensures CheckedValid(cbx, old(cbx.pCB))
    {
      b := cbx.CheckValid();
    }

    /** get(), operator-> and checked_pointer: the cached address while valid, else null; never throws. */
    method Get() returns (p: Addr)
      requires Valid()
      modifies cbx, cbx.pCB
      ensures Valid()
      ensures p == (if old(Live()) then addr else Null)
      ensures CheckedValid(cbx, old(cbx.pCB))
    {
      var ok := cbx.CheckValid();
      p := if ok then addr else Null;
    }

    /** operator*: the watched object while valid; runtime_error otherwise. */
    method Deref() returns (r: Result<Addr>)
      requires Valid()
      modifies cbx, cbx.pCB
      ensures Valid()
      ensures r == (if old(Live()) then Ok(addr) else Err(RuntimeError))
      ensures CheckedValid(cbx, old(cbx.pCB))
    {
      var ok := cbx.CheckValid();
      if ok {
        r := Ok(addr);
      } else {
        r := Err(RuntimeError);
      }
    }

    /**
     * dynamic_ptr_cast: the result holds the cast address, null when the
     * run-time type test fails, and attaches to this observer's block
     * whether or not the cast succeeded or the block is still valid.
     */
    method DynamicPtrCast(cast: Addr -> Addr) returns (r: PtrToUnique)
      requires Valid()
      modifies cbx.pCB
      ensures Valid() && r.Valid() && fresh(r) && fresh(r.cbx)
      ensures r.addr == cast(addr)
      ensures cbx.pCB == old(cbx.pCB) && r.cbx.pCB == cbx.pCB
      ensures cbx.pCB != null ==> AttachedTo(cbx.pCB, r.cbx)
    {
      r := new PtrToUnique.Empty();
      r.addr := cast(addr);
      r.cbx.AdoptBlock(cbx);
    }

    /**
     * The private constructor from an observer and an address inside its
     * object: share the observer's block whatever its state (adopt_block,
     * not adopt_block_if_valid) and take the given address.
     */
    constructor SharingBlock(src: PtrToUnique, target: Addr)
      requires src.Valid()
      modifies src.cbx.pCB
      ensures Valid() && fresh(cbx) && src.Valid() && src.cbx.pCB == old(src.cbx.pCB)
      ensures cbx.pCB == src.cbx.pCB && addr == target
      ensures cbx.pCB != null ==> AttachedTo(cbx.pCB, cbx)
    {
      addr := target;
      cbx := new Cbx(false);
      new;
      cbx.AdoptBlock(src.cbx);
    }

    /**
     * The private constructor from a connection that is going out of scope:
     * steal its attachment and take the given address.
     */
    constructor FromConnection(src: Cbx, target: Addr)
      requires src.Valid() && !src.isOwner
      modifies src, src.pCB
      ensures Valid() && fresh(cbx) && src.Valid()
      ensures cbx.pCB == old(src.pCB) && src.pCB == null && addr == target
      ensures cbx.pCB != null ==> HandedOver(cbx.pCB, src, cbx)
    {
      addr := target;
      cbx := new Cbx(false);
      new;
      cbx.StealBlock(src);
    }

    /**
     * The aliasing constructor from a ptr_to_unique: get() on the root (which
     * detaches it if its block is dead), resolve the path (out_of_range stops
     * here), then attach to the root's block, never a new one, and point at
     * the sub-object.
     */
    static method AliasOf(src: PtrToUnique, shape: Shape, ps: seq<Inward>) returns (r: Result<PtrToUnique>)
      requires src.Valid() && Typed(shape, ps)
      modifies src.cbx, src.cbx.pCB
      ensures src.Valid()
      ensures r.Err? <==> ReadOffsets(shape, ps).Err?
      ensures r.Err? ==> r.error == OutOfRange && CheckedValid(src.cbx, old(src.cbx.pCB))
      ensures r.Ok? ==>
                && fresh(r.value) && fresh(r.value.cbx) && r.value.Valid()
                && r.value.addr == Offset(if old(src.Live()) then old(src.addr) else Null, ReadOffsets(shape, ps).value)
                && r.value.cbx.pCB == (if old(src.Live()) then old(src.cbx.pCB) else null)
                && src.cbx.pCB == r.value.cbx.pCB
                && (old(src.Live()) ==> AttachedTo(src.cbx.pCB, r.value.cbx))
                && (!old(src.Live()) && old(src.cbx.pCB) != null ==> DetachedFrom(old(src.cbx.pCB), src.cbx))
    {
      var root := src.Get();
      var offsets := ReadOffsets(shape, ps);
      PathFailsOnlyOutOfRange(shape, ps);
      if offsets.Err? {
        r := Err(offsets.error);
      } else {
        var alias := new PtrToUnique.SharingBlock(src, Offset(root, offsets.value));
        r := Ok(alias);
      }
    }

    /**
     * The aliasing constructor from a notifying_unique_ptr: resolve the path
     * (out_of_range stops here, with nothing changed), then, if the owner
     * holds an object, make its block if needed and attach to it.
     */
    static method AliasOfOwner(owner: NotifyingUniquePtr, shape: Shape, ps: seq<Inward>) returns (r: Result<PtrToUnique>)
      requires owner.Valid() && Typed(shape, ps)
      modifies owner.cbx, owner.cbx.pCB
      ensures owner.Valid()
      ensures r.Err? <==> ReadOffsets(shape, ps).Err?
      ensures r.Err? ==> r.error == OutOfRange && owner.cbx.pCB == old(owner.cbx.pCB) &&
                         (owner.cbx.pCB != null ==> Untouched(owner.cbx.pCB))
      ensures r.Ok? ==>
                && fresh(r.value) && fresh(r.value.cbx) && r.value.Valid()
                && r.value.addr == Offset(owner.held, ReadOffsets(shape, ps).value)
                && (owner.held == Null ==>
                      r.value.cbx.pCB == null && owner.cbx.pCB == old(owner.cbx.pCB) &&
                      (owner.cbx.pCB != null ==> Untouched(owner.cbx.pCB)))
                && (owner.held != Null ==> r.value.cbx.pCB != null && r.value.cbx.pCB == owner.cbx.pCB)
                && (owner.held != Null && old(owner.cbx.pCB) != null ==>
                      r.value.cbx.pCB == old(owner.cbx.pCB) && AttachedTo(r.value.cbx.pCB, r.value.cbx))
                && (owner.held != Null && old(owner.cbx.pCB) == null ==>
                      fresh(r.value.cbx.pCB) && r.value.cbx.pCB.holders == {r.value.cbx} &&
                      Protocol.Step(Alive(NewBlock(1)), Op.AddWeak) == Some(r.value.cbx.pCB.Life()))
    {
      var offsets := ReadOffsets(shape, ps);
      PathFailsOnlyOutOfRange(shape, ps);
      if offsets.Err? {
        r := Err(offsets.error);
      } else {
        var alias := new PtrToUnique.Empty();
        alias.addr := Offset(owner.held, offsets.value);
        if alias.addr != Null {
          alias.cbx.AssureAndAdoptOwnerBlock(owner.cbx, 1);
        }
        r := Ok(alias);
      }
    }
  }

  /**
   * point_into(ptr_to_unique, args...): resolves the path once to learn the
   * sub-object's type, then builds the alias with the aliasing constructor,
   * which calls get() and resolves the path again.
   */
  method PointInto(src: PtrToUnique, shape: Shape, ps: seq<Inward>) returns (r: Result<PtrToUnique>)
    requires src.Valid() && Typed(shape, ps)
    modifies src.cbx, src.cbx.pCB
    ensures src.Valid()
    ensures r.Err? <==> ReadOffsets(shape, ps).Err?
    ensures r.Err? ==> r.error == OutOfRange && CheckedValid(src.cbx, old(src.cbx.pCB))
    ensures r.Ok? ==>
              && fresh(r.value) && fresh(r.value.cbx) && r.value.Valid()
              && r.value.addr == Offset(if old(src.Live()) then old(src.addr) else Null, ReadOffsets(shape, ps).value)
              && r.value.cbx.pCB == (if old(src.Live()) then old(src.cbx.pCB) else null)
              && src.cbx.pCB == r.value.cbx.pCB
              && (old(src.Live()) ==> AttachedTo(src.cbx.pCB, r.value.cbx))
              && (!old(src.Live()) && old(src.cbx.pCB) != null ==> DetachedFrom(old(src.cbx.pCB), src.cbx))
  {
    var _ := src.Get();
    if ReadOffsets(shape, ps).Err? {
      r := Err(OutOfRange);
    } else {
      r := PtrToUnique.AliasOf(src, shape, ps);
    }
  }

  /** point_into(notifying_unique_ptr, args...): the aliasing constructor from the owner. */
  method PointIntoOwner(owner: NotifyingUniquePtr, shape: Shape, ps: seq<Inward>) returns (r: Result<PtrToUnique>)
    requires owner.Valid() && Typed(shape, ps)
    modifies owner.cbx, owner.cbx.pCB
    ensures owner.Valid()
    ensures r.Err? <==> ReadOffsets(shape, ps).Err?
    ensures r.Err? ==> r.error == OutOfRange && owner.cbx.pCB == old(owner.cbx.pCB) &&
                       (owner.cbx.pCB != null ==> Untouched(owner.cbx.pCB))
    ensures r.Ok? ==>
              && fresh(r.value) && fresh(r.value.cbx) && r.value.Valid()
              && r.value.addr == Offset(owner.held, ReadOffsets(shape, ps).value)
              && (owner.held == Null ==>
                    r.value.cbx.pCB == null && owner.cbx.pCB == old(owner.cbx.pCB) &&
                    (owner.cbx.pCB != null ==> Untouched(owner.cbx.pCB)))
              && (owner.held != Null ==> r.value.cbx.pCB != null && r.value.cbx.pCB == owner.cbx.pCB)
              && (owner.held != Null && old(owner.cbx.pCB) != null ==>
                    r.value.cbx.pCB == old(owner.cbx.pCB) && AttachedTo(r.value.cbx.pCB, r.value.cbx))
              && (owner.held != Null && old(owner.cbx.pCB) == null ==>
                    fresh(r.value.cbx.pCB) && r.value.cbx.pCB.holders == {r.value.cbx} &&
                    Protocol.Step(Alive(NewBlock(1)), Op.AddWeak) == Some(r.value.cbx.pCB.Life()))
  {
    if ReadOffsets(shape, ps).Err? {
      r := Err(OutOfRange);
    } else {
      r := PtrToUnique.AliasOfOwner(owner, shape, ps);
    }
  }
}
