/**
 * The control block and its connection (_ptr_to_unique_cbx) as heap
 * objects.  Every change a method makes to a block is tied to a transition
 * of Protocol.Step, so the lemmas of module Protocol apply to it.
 *
 * Ghost bookkeeping: `freed` records that `delete this` has run; `holders`
 * is the set of observer connections a block counts in m_reference_count;
 * `owner` is the owner's connection (inside notify_ptrs) the block was made
 * for, which does not count as an observer.
 */
module Blocks {
  import opened Outcomes
  import opened Protocol

  class ControlBlock {
    var refCount: nat          // m_reference_count
    var validCount: int        // m_valid_count: the array size, or Invalid
    ghost var freed: bool
    ghost var holders: set<Cbx>
    ghost const owner: Cbx

    ghost function Life(): Life
      reads this
    {
      if freed then Freed else Alive(Counts(refCount, validCount))
    }

    /**
     * The block's invariant: the reference count is the number of attached
     * observer connections, each of which points here; a freed block has no
     * observer; an allocated block is coherent, and while valid its owner
     * still points to it.
     */
    ghost predicate Valid()
      reads this, holders, owner
    {
      && refCount == |holders|
      && owner.isOwner
      && (forall c | c in holders :: c.pCB == this && !c.isOwner)
      && (freed ==> holders == {})
      && (!freed ==> Coherent(Counts(refCount, validCount)))
      && (!freed && validCount != Invalid ==> owner.pCB == this)
    }

    /** control_block(count): no observer yet, valid with the given array count. */
    constructor (count: nat, ghost owner: Cbx)
      requires count <= MaxInt && owner.isOwner
      ensures Life() == Alive(NewBlock(count))
      ensures holders == {} && this.owner == owner
    {
      refCount, validCount := 0, count;
      freed, holders := false, {};
      this.owner := owner;
    }

    /** _is_valid / get_valid. */
    function GetValid(): (b: bool)
      reads this
      ensures b <==> IsValid(Counts(refCount, validCount))
    {
      validCount > Invalid
    }

    /** mark_invalid: self-destruct when unobserved, otherwise mark dead. */
    method MarkInvalid()
      requires !freed
      modifies this
      ensures Step(old(Life()), Op.MarkInvalid) == Some(Life())
      ensures refCount == old(refCount) && holders == old(holders)
    {
      if 0 == refCount {
        freed := true;  // delete this
      } else {
        validCount := Invalid;  // _invalidate
      }
    }

    /** add_weak: one more observer, the connection c. */
    method AddWeak(ghost c: Cbx)
      requires !freed
      modifies this
      ensures Step(old(Life()), Op.AddWeak) == Some(Life())
      ensures refCount == old(refCount) + 1 && holders == old(holders) + {c}
    {
      refCount := refCount + 1;
      holders := holders + {c};
    }

    /** _dec_weak_can_delete, under the intended signed reading of its test. */
    method DecWeakCanDelete() returns (canDelete: bool)
      requires !freed && refCount > 0
      modifies this`refCount
      ensures refCount == old(refCount) - 1
      ensures canDelete == Protocol.DecWeakCanDelete(old(refCount), validCount)
    {
      refCount := refCount - 1;
      canDelete := refCount + validCount < 0;
    }

    /** release_weak: the connection c detaches; self-destruct if nothing is left. */
    method ReleaseWeak(ghost c: Cbx)
      requires !freed && refCount > 0
      modifies this
      ensures Step(old(Life()), Op.ReleaseWeak) == Some(Life())
      ensures refCount == old(refCount) - 1 && holders == old(holders) - {c}
    {
      var canDelete := DecWeakCanDelete();
      if canDelete {
        freed := true;  // delete this
      }
      holders := holders - {c};
    }
  }

  /** The block b did not change. */
  twostate predicate Untouched(b: ControlBlock)
    reads b
  {
    b.Life() == old(b.Life()) && b.holders == old(b.holders)
  }

  /** The connection c attached to the block b. */
  twostate predicate AttachedTo(b: ControlBlock, new c: Cbx)
    reads b, b.holders, b.owner
  {
    b.Valid() && b.holders == old(b.holders) + {c} && Step(old(b.Life()), Op.AddWeak) == Some(b.Life())
  }

  /** The connection c detached from the block b. */
  twostate predicate DetachedFrom(b: ControlBlock, c: Cbx)
    reads b, b.holders, b.owner
  {
    b.Valid() && b.holders == old(b.holders) - {c} && Step(old(b.Life()), Op.ReleaseWeak) == Some(b.Life())
  }

  /** The attachment of the connection from to the block b passed to the connection to. */
  twostate predicate HandedOver(b: ControlBlock, from: Cbx, new to: Cbx)
    reads b, b.holders, b.owner
  {
    b.Valid() && b.Life() == old(b.Life()) && b.holders == old(b.holders) - {from} + {to}
  }

  /**
   * What check_valid did to the connection c, which pointed to b: nothing if
   * b was valid; otherwise c detached from b and is null.
   */
  twostate predicate CheckedValid(c: Cbx, b: ControlBlock?)
    reads c, b, if b == null then {} else b.holders + {b.owner}
  {
    if b != null && old(b.GetValid()) then c.pCB == b && Untouched(b)
    else c.pCB == null && (b != null ==> DetachedFrom(b, c))
  }

  /** The block b was marked invalid by its owner. */
  twostate predicate Invalidated(b: ControlBlock)
    reads b, b.holders, b.owner
  {
    b.Valid() && b.holders == old(b.holders) && Step(old(b.Life()), Op.MarkInvalid) == Some(b.Life())
  }

  /**
   * _ptr_to_unique_cbx: a nullable pointer to a control block.  An observer's
   * connection is counted by the block it points to; an owner's connection
   * (isOwner) is not, and points only to a valid block it owns.
   */
  class Cbx {
    var pCB: ControlBlock?
    ghost const isOwner: bool

    constructor (ghost isOwner: bool)
      ensures pCB == null && this.isOwner == isOwner
    {
      pCB := null;
      this.isOwner := isOwner;
    }

    ghost function Repr(): set<object>
      reads this, pCB
    {
      if pCB == null then {this} else {this, pCB, pCB.owner} + pCB.holders
    }

    ghost predicate Valid()
      reads Repr()
    {
      pCB != null ==>
        && pCB.Valid() && !pCB.freed
        && if isOwner then pCB.owner == this && pCB.GetValid() else this in pCB.holders
    }

    /** array_count: the block's array size while it is valid, else 0. */
    function ArrayCount(): (n: nat)
      reads this, pCB
      ensures pCB == null ==> n == 0
      ensures pCB != null ==> n == Protocol.ArrayCount(Counts(pCB.refCount, pCB.validCount))
    {
      if pCB == null || pCB.validCount < 0 then 0 else pCB.validCount
    }

    /** quick_release: detach from a block found dead. */
    method QuickRelease() returns (b: bool)
      requires Valid() && !isOwner && pCB != null
      modifies this, pCB
      ensures Valid() && pCB == null && !b
      ensures DetachedFrom(old(pCB), this)
    {
      pCB.ReleaseWeak(this);
      pCB := null;
      b := false;
    }

    /**
     * check_valid: true when attached to a valid block; on discovering a dead
     * block, the connection detaches from it at once.
     */
    method CheckValid() returns (b: bool)
      requires Valid() && !isOwner
      modifies this, pCB
      ensures Valid()
      ensures b <==> old(pCB) != null && old(pCB.GetValid())
      ensures CheckedValid(this, old(pCB))
    {
      if pCB != null {
        if pCB.GetValid() {
          b := true;
        } else {
          b := QuickRelease();
        }
      } else {
        b := false;
      }
    }

    /** release: detach if attached; a no-op otherwise. */
    method Release()
      requires Valid() && !isOwner
      modifies this, pCB
      ensures Valid() && pCB == null
      ensures old(pCB) != null ==> DetachedFrom(old(pCB), this)
      ensures old(pCB) == null ==> unchanged(this)
    {
      if pCB != null {
        pCB.ReleaseWeak(this);
        pCB := null;
      }
    }

    /** adopt_block_if_valid: attach to src's block only if it is valid. */
    method AdoptBlockIfValid(src: Cbx) returns (adopted: bool)
      requires Valid() && !isOwner && pCB == null
      requires src.Valid() && !src.isOwner
      modifies this, src.pCB
      ensures Valid() && src.Valid() && src.pCB == old(src.pCB)
      ensures adopted <==> src.pCB != null && old(src.pCB.GetValid())
      ensures adopted ==> pCB == src.pCB && AttachedTo(src.pCB, this)
      ensures !adopted ==> pCB == null && (src.pCB != null ==> Untouched(src.pCB))
    {
      if src.pCB != null && src.pCB.GetValid() {
        src.pCB.AddWeak(this);
        pCB := src.pCB;
        adopted := true;
      } else {
        adopted := false;
      }
    }

    /** adopt_block: attach to src's block whatever its state. */
    method AdoptBlock(src: Cbx)
      requires Valid() && !isOwner && pCB == null
      requires src.Valid() && !src.isOwner
      modifies this, src.pCB
      ensures Valid() && src.Valid() && src.pCB == old(src.pCB)
      ensures pCB == src.pCB
      ensures pCB != null ==> AttachedTo(pCB, this)
    {
      if src.pCB != null {
        src.pCB.AddWeak(this);
        pCB := src.pCB;
      }
    }

    /** steal_block: take over src's attachment; the block's counts do not change. */
    method StealBlock(src: Cbx)
      requires Valid() && !isOwner && pCB == null
      requires src.Valid() && !src.isOwner
      modifies this, src, src.pCB
      ensures Valid() && src.Valid()
      ensures pCB == old(src.pCB) && (src != this ==> src.pCB == null)
      ensures pCB != null ==> HandedOver(pCB, src, this)
    {
      pCB := src.pCB;
      src.pCB := null;
      if pCB != null {
        pCB.holders := pCB.holders - {src} + {this};
      }
    }

    /**
     * assure_and_adopt_owner_block: make the owner's block if it has none yet,
     * then attach to it.
     */
    method AssureAndAdoptOwnerBlock(src: Cbx, arrayCount: nat)
      requires Valid() && !isOwner && pCB == null
      requires src.Valid() && src.isOwner
      requires arrayCount <= MaxInt
      modifies this, src, src.pCB
      ensures Valid() && src.Valid()
      ensures pCB != null && pCB == src.pCB
      ensures old(src.pCB) != null ==> pCB == old(src.pCB) && AttachedTo(pCB, this)
      ensures old(src.pCB) == null ==>
                fresh(pCB) && pCB.Valid() && pCB.owner == src && pCB.holders == {this} &&
                Step(Alive(NewBlock(arrayCount)), Op.AddWeak) == Some(pCB.Life())
    {
      if src.pCB == null {
        src.pCB := new ControlBlock(arrayCount, src);
      }
      src.pCB.AddWeak(this);
      pCB := src.pCB;
    }

    /** mark_invalid on the owner's connection: invalidate the block and forget it. */
    method MarkInvalid()
      requires Valid() && isOwner
      modifies this, pCB
      ensures Valid() && pCB == null
      ensures old(pCB) != null ==> Invalidated(old(pCB))
    {
      if pCB != null {
        pCB.MarkInvalid();
        pCB := null;
      }
    }

    /** set_owner_block: invalidate any current block and start a new one with the given array count. */
    method SetOwnerBlock(arrayCount: nat)
      requires Valid() && isOwner && arrayCount <= MaxInt
      modifies this, pCB
      ensures Valid() && pCB != null && fresh(pCB)
      ensures pCB.Life() == Alive(NewBlock(arrayCount)) && pCB.holders == {} && pCB.owner == this
      ensures ArrayCount() == arrayCount
      ensures old(pCB) != null ==> Invalidated(old(pCB))
    {
      if pCB != null {
        pCB.MarkInvalid();
      }
      pCB := new ControlBlock(arrayCount, this);
    }
  }
}
