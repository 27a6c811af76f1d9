/**
 * Alias path resolution (inwards_offsets): a left-to-right list of steps
 * that selects a sub-object inside the owned object.  The compiler knows
 * the static type of every object on the path, including the bound N of
 * every array, so resolution works on Shapes; objects themselves are Values
 * of some Shape.
 */
module Paths {
  import opened Outcomes

  /** The static type of an object: a scalar, an array T[N] or std::array<T, N>, or a class. */
  datatype Shape = Scalar | ArrayOf(n: nat, elem: Shape) | RecordOf(fields: seq<Shape>)

  /** An object of some Shape. */
  datatype Value = Leaf(x: int) | Elems(elems: seq<Value>) | Fields(fields: seq<Value>)

  /** One argument of read_offsets. */
  datatype Inward =
    | Index(i: nat)             // a size_t index, checked at run time
    | ConstIndex(k: nat)        // a std::integral_constant index, checked at compile time
    | Member(f: nat)            // a pointer to member, naming field f
    | Tuple(steps: seq<Inward>)   // a std::tuple of steps, read by tuple_reader

  /** A selection a resolved path makes. */
  datatype Sel = Elem(i: nat) | Field(f: nat)

  /** A raw address: null, or a sub-object of the allocation `obj`. */
  datatype Addr = Null | Loc(obj: nat, at: seq<Sel>)

  function StepSize(st: Inward): (n: nat) {
    match st
    case Tuple(ps) => 1 + PathSize(ps)
    case _ => 1
  }

  function PathSize(ps: seq<Inward>): (n: nat)
    decreases ps
  {
    if ps == [] then 0 else StepSize(ps[0]) + PathSize(ps[1..])
  }

  /** Whether v is an object of static type s. */
  predicate HasShape(v: Value, s: Shape): (b: bool) {
    match s
    case Scalar => v.Leaf?
    case ArrayOf(n, e) => v.Elems? && |v.elems| == n && forall i | 0 <= i < n :: HasShape(v.elems[i], e)
    case RecordOf(fs) => v.Fields? && |v.fields| == |fs| && forall f | 0 <= f < |fs| :: HasShape(v.fields[f], fs[f])
  }

  /**
   * The static type of the object one step selects; None when the program
   * does not compile: an index into a non-array, a constant index not
   * below N, an unknown member, an empty tuple.
   */
  function StepType(s: Shape, st: Inward): (r: Option<Shape>)
    decreases StepSize(st), 0
  {
    match st
    case Index(_) => if s.ArrayOf? then Some(s.elem) else None
    case ConstIndex(k) => if s.ArrayOf? && k < s.n then Some(s.elem) else None
    case Member(f) => if s.RecordOf? && f < |s.fields| then Some(s.fields[f]) else None
    case Tuple(ps) => if ps == [] then None else PathType(s, ps)
  }

  /** The static type at the end of a path of at least one step (read_offsets takes one or more). */
  function PathType(s: Shape, ps: seq<Inward>): (r: Option<Shape>)
    requires ps != []
    decreases PathSize(ps), 1
  {
    assert PathSize(ps) == StepSize(ps[0]) + PathSize(ps[1..]);
    match StepType(s, ps[0])
    case None => None
    case Some(t) => if |ps| == 1 then Some(t) else PathType(t, ps[1..])
  }

  /** A path the compiler accepts. */
  predicate Typed(s: Shape, ps: seq<Inward>): (b: bool) {
    ps != [] && PathType(s, ps).Some?
  }

  /** do_offset: the selections one step makes, or out_of_range for a bad run-time index. */
  function DoOffset(s: Shape, st: Inward): (r: Result<seq<Sel>>)
    requires StepType(s, st).Some?
    ensures st.Index? ==> (r.Err? <==> st.i >= s.n)
    ensures st.ConstIndex? || st.Member? ==> r.Ok?
    ensures r.Ok? ==> |r.value| >= 1
    decreases StepSize(st), 0
  {
    match st
    case Index(i) => if i < s.n then Ok([Elem(i)]) else Err(OutOfRange)
    case ConstIndex(k) => Ok([Elem(k)])
    case Member(f) => Ok([Field(f)])
    case Tuple(ps) => ReadOffsets(s, ps)
  }

  /** read_offsets: apply the steps left to right, each to the object the previous one selected. */
  function ReadOffsets(s: Shape, ps: seq<Inward>): (r: Result<seq<Sel>>)
    requires Typed(s, ps)
    ensures r.Ok? ==> |r.value| >= |ps|
    decreases PathSize(ps), 1
  {
    assert PathSize(ps) == StepSize(ps[0]) + PathSize(ps[1..]);
    var t := StepType(s, ps[0]).value;
    match DoOffset(s, ps[0])
    case Err(e) => Err(e)
    case Ok(first) =>
      if |ps| == 1 then Ok(first)
      else match ReadOffsets(t, ps[1..])
        case Err(e) => Err(e)
        case Ok(more) => Ok(first + more)
  }

  /** The static type of the sub-object that a list of selections reaches. */
  function TypeAt(s: Shape, sels: seq<Sel>): (r: Option<Shape>)
    decreases |sels|
  {
    if sels == [] then Some(s)
    else match sels[0]
      case Elem(i) => if s.ArrayOf? && i < s.n then TypeAt(s.elem, sels[1..]) else None
      case Field(f) => if s.RecordOf? && f < |s.fields| then TypeAt(s.fields[f], sels[1..]) else None
  }

  /** The sub-object that a list of selections reaches. */
  function ValueAt(v: Value, sels: seq<Sel>): (r: Option<Value>)
    decreases |sels|
  {
    if sels == [] then Some(v)
    else match sels[0]
      case Elem(i) => if v.Elems? && i < |v.elems| then ValueAt(v.elems[i], sels[1..]) else None
      case Field(f) => if v.Fields? && f < |v.fields| then ValueAt(v.fields[f], sels[1..]) else None
  }

  /** The address of a sub-object of the object at a. */
  function Offset(a: Addr, sels: seq<Sel>): (r: Addr)
    ensures r == Null <==> a == Null
    ensures r.Loc? ==> r.obj == a.obj && a.at <= r.at && |r.at| == |a.at| + |sels|
  {
    match a
    case Null => Null
    case Loc(o, at) => Loc(o, at + sels)
  }

  /** A path with no run-time index steps: only constant indices, members and tuples of those. */
  predicate NoRuntimeIndex(ps: seq<Inward>): (b: bool)
    decreases PathSize(ps), 1
  {
    forall k | 0 <= k < |ps| :: StepHasNoRuntimeIndex(ps, k)
  }

  predicate StepHasNoRuntimeIndex(ps: seq<Inward>, k: nat): (b: bool)
    requires k < |ps|
    decreases PathSize(ps), 0
  {
    PathSizeAt(ps, k);
    match ps[k]
    case Index(_) => false
    case Tuple(inner) => NoRuntimeIndex(inner)
    case _ => true
  }

  lemma {:induction false} PathSizeAt(ps: seq<Inward>, k: nat)
    requires k < |ps|
    ensures StepSize(ps[k]) <= PathSize(ps)
    decreases |ps|
  {
    if k > 0 {
      PathSizeAt(ps[1..], k - 1);
    }
  }

  lemma {:induction false} TypeAtAppend(s: Shape, a: seq<Sel>, b: seq<Sel>)
    ensures TypeAt(s, a + b) == (match TypeAt(s, a) case None => None case Some(t) => TypeAt(t, b))
    decreases |a|
  {
    if a == [] {
      assert a + b == b;
    } else {
      assert (a + b)[0] == a[0] && (a + b)[1..] == a[1..] + b;
      match a[0] {
        case Elem(i) => if s.ArrayOf? && i < s.n { TypeAtAppend(s.elem, a[1..], b); }
        case Field(f) => if s.RecordOf? && f < |s.fields| { TypeAtAppend(s.fields[f], a[1..], b); }
      }
    }
  }

  /** The selections a step resolves to lead to an object of the step's static type. */
  lemma {:induction false} StepResolvesToItsType(s: Shape, st: Inward)
    requires StepType(s, st).Some? && DoOffset(s, st).Ok?
    ensures TypeAt(s, DoOffset(s, st).value) == StepType(s, st)
    decreases StepSize(st), 0
  {
    match st {
      case Index(i) => assert [Elem(i)][1..] == [];
      case ConstIndex(k) => assert [Elem(k)][1..] == [];
      case Member(f) => assert [Field(f)][1..] == [];
      case Tuple(ps) => PathResolvesToItsType(s, ps);
    }
  }

  /** The selections a path resolves to lead to an object of the path's static type. */
  lemma {:induction false} PathResolvesToItsType(s: Shape, ps: seq<Inward>)
    requires Typed(s, ps) && ReadOffsets(s, ps).Ok?
    ensures TypeAt(s, ReadOffsets(s, ps).value) == PathType(s, ps)
    decreases PathSize(ps), 1
  {
    assert PathSize(ps) == StepSize(ps[0]) + PathSize(ps[1..]);
    var t := StepType(s, ps[0]).value;
    StepResolvesToItsType(s, ps[0]);
    var first := DoOffset(s, ps[0]).value;
    if |ps| > 1 {
      PathResolvesToItsType(t, ps[1..]);
      TypeAtAppend(s, first, ReadOffsets(t, ps[1..]).value);
    }
  }

  /** Selections that are well typed for s reach an object of that type in every object of shape s. */
  lemma {:induction false} TypedSelectionExists(v: Value, s: Shape, sels: seq<Sel>)
    requires HasShape(v, s) && TypeAt(s, sels).Some?
    ensures ValueAt(v, sels).Some? && HasShape(ValueAt(v, sels).value, TypeAt(s, sels).value)
    decreases |sels|
  {
    if sels != [] {
      match sels[0] {
        case Elem(i) => TypedSelectionExists(v.elems[i], s.elem, sels[1..]);
        case Field(f) => TypedSelectionExists(v.fields[f], s.fields[f], sels[1..]);
      }
    }
  }

  /**
   * Soundness of read_offsets: a path that resolves selects an existing
   * sub-object of every object of the root's type, and that sub-object has
   * the type the compiler deduced for the path.
   */
  lemma ResolvedPathSelectsSubObject(v: Value, s: Shape, ps: seq<Inward>)
    requires HasShape(v, s) && Typed(s, ps) && ReadOffsets(s, ps).Ok?
    ensures ValueAt(v, ReadOffsets(s, ps).value).Some?
    ensures HasShape(ValueAt(v, ReadOffsets(s, ps).value).value, PathType(s, ps).value)
  {
    PathResolvesToItsType(s, ps);
    TypedSelectionExists(v, s, ReadOffsets(s, ps).value);
  }

  /** An integer index step throws out_of_range exactly when the index is not below N, and otherwise selects that element. */
  lemma IndexStep(v: Value, n: nat, e: Shape, i: nat)
    requires HasShape(v, ArrayOf(n, e))
    ensures ReadOffsets(ArrayOf(n, e), [Index(i)]) == Err(OutOfRange) <==> i >= n
    ensures i < n ==> ReadOffsets(ArrayOf(n, e), [Index(i)]) == Ok([Elem(i)]) &&
                      ValueAt(v, [Elem(i)]) == Some(v.elems[i])
  {
  }

  /** Composing paths composes their static types. */
  lemma {:induction false} PathTypeAppend(s: Shape, p: seq<Inward>, q: seq<Inward>)
    requires p != [] && q != []
    ensures PathType(s, p + q) == (match PathType(s, p) case None => None case Some(t) => PathType(t, q))
    decreases |p|
  {
    assert (p + q)[0] == p[0];
    if |p| == 1 {
      assert (p + q)[1..] == q;
    } else {
      assert (p + q)[1..] == p[1..] + q;
      match StepType(s, p[0]) {
        case None =>
        case Some(t) => PathTypeAppend(t, p[1..], q);
      }
    }
  }

  /**
   * Steps apply left to right: resolving p + q resolves p, then resolves q
   * from the sub-object p selected, and concatenates the selections; the
   * first out-of-range index wins.
   */
  lemma {:induction false} ReadOffsetsAppend(s: Shape, p: seq<Inward>, q: seq<Inward>)
    requires p != [] && q != [] && Typed(s, p + q)
    ensures Typed(s, p) && Typed(PathType(s, p).value, q)
    ensures ReadOffsets(s, p + q) ==
              match ReadOffsets(s, p)
              case Err(e) => Err(e)
              case Ok(a) =>
                match ReadOffsets(PathType(s, p).value, q)
                case Err(e) => Err(e)
                case Ok(b) => Ok(a + b)
    decreases |p|
  {
    PathTypeAppend(s, p, q);
    assert (p + q)[0] == p[0];
    var t := StepType(s, p[0]).value;
    if |p| == 1 {
      assert (p + q)[1..] == q;
    } else {
      assert (p + q)[1..] == p[1..] + q;
      ReadOffsetsAppend(t, p[1..], q);
      match DoOffset(s, p[0]) {
        case Err(_) =>
        case Ok(first) =>
          match ReadOffsets(t, p[1..]) {
            case Err(_) =>
            case Ok(mid) =>
              match ReadOffsets(PathType(s, p).value, q) {
                case Err(_) =>
                case Ok(b) => assert first + (mid + b) == (first + mid) + b;
              }
          }
      }
    }
  }

  /** A tuple step is the same as its steps spliced into the path (tuple_reader). */
  lemma TupleSplices(s: Shape, inner: seq<Inward>, rest: seq<Inward>)
    requires inner != [] && Typed(s, inner + rest)
    ensures Typed(s, [Tuple(inner)] + rest)
    ensures ReadOffsets(s, [Tuple(inner)] + rest) == ReadOffsets(s, inner + rest)
  {
    if rest == [] {
      assert inner + rest == inner;
    } else {
      ReadOffsetsAppend(s, inner, rest);
      PathTypeAppend(s, [Tuple(inner)], rest);
      ReadOffsetsAppend(s, [Tuple(inner)], rest);
    }
  }

  /** The only failure of one step is out_of_range. */
  lemma {:induction false} StepFailsOnlyOutOfRange(s: Shape, st: Inward)
    requires StepType(s, st).Some?
    ensures DoOffset(s, st).Err? ==> DoOffset(s, st).error == OutOfRange
    decreases StepSize(st), 0
  {
    if st.Tuple? {
      PathFailsOnlyOutOfRange(s, st.steps);
    }
  }

  /** The only exception read_offsets throws is out_of_range. */
  lemma {:induction false} PathFailsOnlyOutOfRange(s: Shape, ps: seq<Inward>)
    requires Typed(s, ps)
    ensures ReadOffsets(s, ps).Err? ==> ReadOffsets(s, ps).error == OutOfRange
    decreases PathSize(ps), 1
  {
    assert PathSize(ps) == StepSize(ps[0]) + PathSize(ps[1..]);
    StepFailsOnlyOutOfRange(s, ps[0]);
    if |ps| > 1 && DoOffset(s, ps[0]).Ok? {
      PathFailsOnlyOutOfRange(StepType(s, ps[0]).value, ps[1..]);
    }
  }

  /** A step without run-time indices cannot fail: constant indices are checked by the compiler. */
  lemma {:induction false} StepWithoutRuntimeIndexResolves(s: Shape, ps: seq<Inward>, k: nat)
    requires k < |ps| && StepHasNoRuntimeIndex(ps, k) && StepType(s, ps[k]).Some?
    ensures DoOffset(s, ps[k]).Ok?
    decreases PathSize(ps), 0
  {
    PathSizeAt(ps, k);
    match ps[k] {
      case Tuple(inner) => PathWithoutRuntimeIndexResolves(s, inner);
      case _ =>
    }
  }

  /** A typed path without run-time indices never throws out_of_range. */
  lemma {:induction false} PathWithoutRuntimeIndexResolves(s: Shape, ps: seq<Inward>)
    requires Typed(s, ps) && NoRuntimeIndex(ps)
    ensures ReadOffsets(s, ps).Ok?
    decreases PathSize(ps), 1
  {
    assert PathSize(ps) == StepSize(ps[0]) + PathSize(ps[1..]);
    StepWithoutRuntimeIndexResolves(s, ps, 0);
    if |ps| > 1 {
      var t := StepType(s, ps[0]).value;
      forall k | 0 <= k < |ps[1..]| ensures StepHasNoRuntimeIndex(ps[1..], k) {
        assert StepHasNoRuntimeIndex(ps, k + 1);
      }
      PathWithoutRuntimeIndexResolves(t, ps[1..]);
    }
  }
}
