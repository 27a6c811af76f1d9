/**
 * The control block of ptr_to_unique as a value: its two counters and the
 * transitions its three mutating operations make.  The heap classes in
 * module Blocks are tied to these transitions; the lemmas here say what any
 * sequence of transitions does.
 */
module Protocol {
  import opened Outcomes

  /** The value of m_valid_count once the watched object is dead. */
  const Invalid: int := -1
  /** The largest C++ int: a block's array count must fit in m_valid_count. */
  const MaxInt: int := 0x7fff_ffff
  /** Modulus of C++ unsigned int arithmetic. */
  const UIntModulus: int := 0x1_0000_0000

  /** m_reference_count (attached observers) and m_valid_count (array size, or Invalid). */
  datatype Counts = Counts(refs: nat, valid: int)

  /** A control block is either allocated with some counts, or has run `delete this`. */
  datatype Life = Alive(counts: Counts) | Freed

  /** The operations that change a control block. */
  datatype Op = AddWeak | ReleaseWeak | MarkInvalid

  /** _is_valid: alive while the valid count is above Invalid, so an array count of 0 is alive. */
  predicate IsValid(c: Counts): (b: bool) {
    c.valid > Invalid
  }

  /** The counts of a block made by control_block(count). */
  function NewBlock(count: nat): (c: Counts)
    requires count <= MaxInt
    ensures IsValid(c) && c.refs == 0 && ArrayCount(c) == count
  {
    Counts(0, count)
  }

  /** array_count on an attached connection: the array size while valid, else 0. */
  function ArrayCount(c: Counts): (n: nat)
    ensures n == c.valid <==> IsValid(c)
    ensures !IsValid(c) ==> n == 0
  {
    if c.valid < 0 then 0 else c.valid
  }

  /**
   * _dec_weak_can_delete under its intended signed reading: after one observer
   * detaches, no observer is left and the object is dead.
   */
  predicate DecWeakCanDelete(refs: nat, valid: int): (b: bool)
    ensures refs > 0 && valid >= Invalid ==> (b <==> refs == 1 && valid == Invalid)
  {
    refs - 1 + valid < 0
  }

  /** C++ conversion of an int to unsigned int. */
  function ToUInt(x: int): (u: nat) {
    x % UIntModulus
  }

  /**
   * _dec_weak_can_delete as written: `--m_reference_count + m_valid_count < 0`
   * converts m_valid_count to unsigned int, so the sum is unsigned.
   */
  predicate DecWeakCanDeleteAsWritten(refs: nat, valid: int): (b: bool) {
    (ToUInt(refs - 1) + ToUInt(valid)) % UIntModulus < 0
  }

  /**
   * What one operation does to a block.  None means the operation is outside
   * the protocol: any use of a freed block, or a detach nobody attached for.
   */
  function Step(l: Life, op: Op): (r: Option<Life>)
    ensures r.Some? <==> l.Alive? && (op == ReleaseWeak ==> l.counts.refs > 0)
    ensures r == Some(Freed) ==> op != AddWeak
  {
    match l
    case Freed => None
    case Alive(c) =>
      match op
      case AddWeak => Some(Alive(Counts(c.refs + 1, c.valid)))
      case ReleaseWeak =>
        if c.refs == 0 then None
        else if DecWeakCanDelete(c.refs, c.valid) then Some(Freed)
        else Some(Alive(Counts(c.refs - 1, c.valid)))
      case MarkInvalid =>
        if c.refs == 0 then Some(Freed) else Some(Alive(Counts(c.refs, Invalid)))
  }

  /** Apply a sequence of operations left to right. */
  function Run(l: Life, ops: seq<Op>): (r: Option<Life>)
    ensures r.Some? && r.value.Alive? ==> l.Alive?
    decreases |ops|
  {
    if ops == [] then Some(l)
    else match Step(l, ops[0])
      case None => None
      case Some(l') => Run(l', ops[1..])
  }

  /** Number of occurrences of op in ops. */
  function Count(ops: seq<Op>, op: Op): (n: nat)
    decreases |ops|
  {
    if ops == [] then 0 else (if ops[0] == op then 1 else 0) + Count(ops[1..], op)
  }

  /**
   * The state invariant of an allocated block: the valid count is a size or
   * Invalid, and a dead block still has an observer (otherwise it would have
   * been freed).
   */
  predicate Coherent(c: Counts): (b: bool) {
    c.valid >= Invalid && (c.valid == Invalid ==> c.refs > 0)
  }

  /** Every operation keeps a block coherent, and a dead block never becomes valid again. */
  lemma StepKeepsCoherent(c: Counts, op: Op)
    requires Coherent(c)
    ensures Step(Alive(c), op).Some? && Step(Alive(c), op).value.Alive? ==>
              Coherent(Step(Alive(c), op).value.counts)
    ensures Step(Alive(c), op).Some? && Step(Alive(c), op).value.Alive? && !IsValid(c) ==>
              !IsValid(Step(Alive(c), op).value.counts)
  {
  }

  /** mark_invalid frees at once when unobserved, and otherwise leaves a dead, still allocated block. */
  lemma MarkInvalidOutcome(c: Counts)
    requires Coherent(c)
    ensures c.refs == 0 <==> Step(Alive(c), MarkInvalid) == Some(Freed)
    ensures c.refs > 0 ==> Step(Alive(c), MarkInvalid) == Some(Alive(Counts(c.refs, Invalid)))
  {
  }

  /**
   * release_weak frees the block exactly when the last observer detaches
   * from a dead block; never while the block is valid.
   */
  lemma ReleaseWeakOutcome(c: Counts)
    requires Coherent(c) && c.refs > 0
    ensures Step(Alive(c), ReleaseWeak) == Some(Freed) <==> c.valid == Invalid && c.refs == 1
    ensures IsValid(c) ==> Step(Alive(c), ReleaseWeak) == Some(Alive(Counts(c.refs - 1, c.valid)))
  {
  }

  /** Nothing can be done to a freed block: it cannot be freed a second time. */
  lemma FreedIsFinal(ops: seq<Op>)
    requires ops != []
    ensures Run(Freed, ops) == None
  {
  }

  lemma {:induction false} CountAppend(a: seq<Op>, b: seq<Op>, op: Op)
    ensures Count(a + b, op) == Count(a, op) + Count(b, op)
    decreases |a|
  {
    if a == [] {
      assert a + b == b;
    } else {
      assert (a + b)[1..] == a[1..] + b;
      CountAppend(a[1..], b, op);
    }
  }

  lemma {:induction false} CountZeroNotIn(ops: seq<Op>, op: Op)
    ensures Count(ops, op) == 0 <==> op !in ops
    decreases |ops|
  {
    if ops != [] {
      CountZeroNotIn(ops[1..], op);
      assert ops == [ops[0]] + ops[1..];
    }
  }

  /** Running a concatenation runs its parts one after the other. */
  lemma {:induction false} RunAppend(l: Life, a: seq<Op>, b: seq<Op>)
    ensures Run(l, a + b) == (match Run(l, a) case None => None case Some(m) => Run(m, b))
    decreases |a|
  {
    if a == [] {
      assert a + b == b;
    } else {
      assert (a + b)[0] == a[0];
      assert (a + b)[1..] == a[1..] + b;
      match Step(l, a[0]) {
        case None =>
        case Some(l') => RunAppend(l', a[1..], b);
      }
    }
  }

  /**
   * Any run from a coherent block: if it ends allocated, the block is
   * coherent, its count is the balance of attaches and detaches, and it is
   * dead exactly when it was dead already or was marked invalid; if it ends
   * freed, the block was dead and balanced.
   */
  lemma {:induction false} RunFrom(c: Counts, ops: seq<Op>)
    requires Coherent(c)
    ensures Run(Alive(c), ops) == Some(Freed) ==>
              (!IsValid(c) || MarkInvalid in ops) &&
              c.refs + Count(ops, AddWeak) == Count(ops, ReleaseWeak)
    ensures Run(Alive(c), ops).Some? && Run(Alive(c), ops).value.Alive? ==>
              var d := Run(Alive(c), ops).value.counts;
              Coherent(d) &&
              d.refs + Count(ops, ReleaseWeak) == c.refs + Count(ops, AddWeak) &&
              d.valid == (if MarkInvalid in ops then Invalid else c.valid)
    decreases |ops|
  {
    if ops != [] {
      var rest := ops[1..];
      assert ops == [ops[0]] + rest;
      CountAppend([ops[0]], rest, AddWeak);
      CountAppend([ops[0]], rest, ReleaseWeak);
      match Step(Alive(c), ops[0]) {
        case None =>
        case Some(l') =>
          StepKeepsCoherent(c, ops[0]);
          match l' {
            case Freed =>
              if rest != [] {
                FreedIsFinal(rest);
              }
            case Alive(c') =>
              RunFrom(c', rest);
          }
      }
    }
  }

  /**
   * For every sequence of operations the protocol allows on a new block: the
   * block ends freed exactly when it was marked invalid and every attach was
   * matched by a detach; while allocated its count is that balance and it is
   * valid exactly when it was never marked invalid.
   */
  lemma FreedExactlyWhenDeadAndUnobserved(count: nat, ops: seq<Op>)
    requires count <= MaxInt
    requires Run(Alive(NewBlock(count)), ops).Some?
    ensures Run(Alive(NewBlock(count)), ops) == Some(Freed) <==>
              MarkInvalid in ops && Count(ops, AddWeak) == Count(ops, ReleaseWeak)
    ensures Run(Alive(NewBlock(count)), ops).value.Alive? ==>
              var d := Run(Alive(NewBlock(count)), ops).value.counts;
              d.refs == Count(ops, AddWeak) - Count(ops, ReleaseWeak) &&
              (IsValid(d) <==> MarkInvalid !in ops) &&
              ArrayCount(d) == (if MarkInvalid in ops then 0 else count)
  {
    RunFrom(NewBlock(count), ops);
  }

  /**
   * The block is freed exactly once: in a run that ends freed, every strict
   * prefix leaves it allocated, so the freeing step is the last one.
   */
  lemma {:induction false} FreedOnlyAtTheEnd(l: Life, ops: seq<Op>, k: nat)
    requires Run(l, ops) == Some(Freed)
    requires k < |ops|
    ensures Run(l, ops[..k]).Some? && Run(l, ops[..k]).value.Alive?
  {
    assert ops == ops[..k] + ops[k..];
    RunAppend(l, ops[..k], ops[k..]);
    if Run(l, ops[..k]) == Some(Freed) {
      FreedIsFinal(ops[k..]);
    }
  }

  /** The unsigned test as written is false for every pair of counts. */
  lemma AsWrittenNeverDeletes(refs: nat, valid: int)
    ensures !DecWeakCanDeleteAsWritten(refs, valid)
  {
  }

  /**
   * Counterexample to the test as written: the last observer of a dead block
   * detaches and the block is not freed, leaving an unobserved dead block
   * that nothing will ever free.  The intended test frees it.
   */
  lemma AsWrittenLastDetachLeaks()
    ensures Coherent(Counts(1, Invalid))
    ensures !DecWeakCanDeleteAsWritten(1, Invalid)
    ensures !Coherent(Counts(0, Invalid))
    ensures DecWeakCanDelete(1, Invalid)
    ensures Run(Alive(NewBlock(1)), [AddWeak, MarkInvalid, ReleaseWeak]) == Some(Freed)
  {
  }
}
