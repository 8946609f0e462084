/** Sub-vector references: views onto a base vector that compose, and assignment through them. */
module VecRef {
  import Subscript

  /** The storage a chain of references ends in. */
  class Vector<T> {
    var elems: seq<T>

    constructor (e: seq<T>)
      ensures elems == e
    {
      elems := e;
    }
  }

  /** A value is storage, a view selecting one-based positions of another value, or a plain
      reference to another value. */
  datatype Value<T> = Base(vec: Vector<T>) | Sub(val: Value<T>, indices: seq<int>) | Ref(target: Value<T>)

  function Root<T>(v: Value<T>): Vector<T> {
    match v
    case Base(vec) => vec
    case Sub(val, _) => Root(val)
    case Ref(target) => Root(target)
  }

  /** Length of a value whose storage holds `n` elements. */
  function Length<T>(v: Value<T>, n: nat): nat {
    match v
    case Base(_) => n
    case Sub(_, indices) => |indices|
    case Ref(target) => Length(target, n)
  }

  /** Every view in the chain selects existing positions. */
  ghost predicate Valid<T>(v: Value<T>, n: nat) {
    match v
    case Base(_) => true
    case Sub(val, indices) => Valid(val, n) && Subscript.Within(indices, Length(val, n))
    case Ref(target) => Valid(target, n)
  }

  /** The elements read by following the chain one link at a time. */
  ghost function Elements<T>(v: Value<T>, base: seq<T>): (s: seq<T>)
    requires Valid(v, |base|)
    ensures |s| == Length(v, |base|)
  {
    match v
    case Base(vec) => base
    case Sub(val, indices) =>
      var e := Elements(val, base);
      seq(|indices|, i requires 0 <= i < |indices| => e[indices[i] - 1])
    case Ref(target) => Elements(target, base)
  }

  /** Base position that position `i` of a value stands for. */
  ghost function Position<T>(v: Value<T>, i: int, n: nat): (p: int)
    requires Valid(v, n) && 1 <= i <= Length(v, n)
    ensures 1 <= p <= n
  {
    match v
    case Base(_) => i
    case Sub(val, indices) => Position(val, indices[i - 1], n)
    case Ref(target) => Position(target, i, n)
  }

  /** Flattening is faithful: the base position holds the element the chain reads. */
  lemma {:induction false} PositionReads<T>(v: Value<T>, i: int, base: seq<T>)
    requires Valid(v, |base|) && 1 <= i <= Length(v, |base|)
    ensures Elements(v, base)[i - 1] == base[Position(v, i, |base|) - 1]
  {
    match v
    case Base(_) =>
    case Sub(val, indices) =>
      assert Elements(v, base)[i - 1] == Elements(val, base)[indices[i - 1] - 1];
      PositionReads(val, indices[i - 1], base);
    case Ref(target) => PositionReads(target, i, base);
  }

  ghost predicate Translated<T>(v: Value<T>, was: seq<int>, now: seq<int>, n: nat) {
    && Valid(v, n) && |was| == |now| && Subscript.Within(was, Length(v, n))
    && forall i :: 0 <= i < |was| ==> now[i] == Position(v, was[i], n)
  }

  /** Rewrites the indices in place until they address the storage itself. */
  method FindIndices<T>(v: Value<T>, a: array<int>, ghost n: nat) returns (root: Value<T>)
    requires Valid(v, n) && Subscript.Within(a[..], Length(v, n))
    modifies a
    ensures root == Base(Root(v))
    ensures Translated(v, old(a[..]), a[..], n)
    decreases v
  {
    ghost var was := a[..];
    match v {
      case Base(_) => root := v;
      case Ref(target) => root := FindIndices(target, a, n);
      case Sub(val, indices) =>
        for i := 0 to a.Length
          invariant forall k :: 0 <= k < i ==> a[k] == indices[was[k] - 1]
          invariant forall k :: i <= k < a.Length ==> a[k] == was[k]
        {
          a[i] := indices[a[i] - 1];
        }
        root := FindIndices(val, a, n);
    }
  }

  /** Builds a view: whatever the chain below, the new view sits directly on the storage. */
  method MakeView<T>(v: Value<T>, indices: seq<int>, ghost n: nat) returns (r: Value<T>)
    requires Valid(v, n) && Subscript.Within(indices, Length(v, n))
    ensures r.Sub? && r.val == Base(Root(v)) && Valid(r, n)
    ensures Translated(v, indices, r.indices, n)
  {
    var a := new int[|indices|](i requires 0 <= i < |indices| => indices[i]);
    assert a[..] == indices;
    var root := FindIndices(v, a, n);
    r := Sub(root, a[..]);
  }

  /** A flattened view reads the same elements as the chain it replaced. */
  lemma {:induction false} ViewReadsChain<T>(v: Value<T>, indices: seq<int>, r: Value<T>, base: seq<T>)
    requires Valid(Sub(v, indices), |base|)
    requires r.Sub? && r.val == Base(Root(v)) && Valid(r, |base|)
    requires Translated(v, indices, r.indices, |base|)
    ensures Elements(r, base) == Elements(Sub(v, indices), base)
  {
    hide Position;
    forall i | 0 <= i < |indices| ensures Elements(r, base)[i] == Elements(Sub(v, indices), base)[i] {
      PositionReads(v, indices[i], base);
    }
  }

  /** Highest one-based index, or zero. */
  method IndexUpdate(indices: seq<int>) returns (max: nat)
    ensures forall i :: 0 <= i < |indices| ==> indices[i] <= max
    ensures max == 0 || max in indices
  {
    max := 0;
    for i := 0 to |indices|
      invariant forall k :: 0 <= k < i ==> indices[k] <= max
      invariant max == 0 || max in indices
    {
      if indices[i] >= 1 && indices[i] > max { max := indices[i]; }
    }
  }

  // ----- assignment -----

  /** Storing `rhs` at the given positions, one after the other. */
  ghost function Stored<T>(base: seq<T>, at: seq<int>, rhs: seq<T>): (s: seq<T>)
    requires Subscript.Within(at, |base|) && |at| <= |rhs|
    ensures |s| == |base|
  {
    if at == [] then base
    else
      var n := |at| - 1;
      Stored(base, at[..n], rhs)[at[n] - 1 := rhs[n]]
  }

  ghost predicate LastAt(at: seq<int>, i: int, p: int) {
    0 <= i < |at| && at[i] == p && forall k :: i < k < |at| ==> at[k] != p
  }

  /** Positions outside the list keep their element... */
  lemma {:induction false} StoredElsewhere<T>(base: seq<T>, at: seq<int>, rhs: seq<T>, p: int)
    requires Subscript.Within(at, |base|) && |at| <= |rhs| && 1 <= p <= |base| && p !in at
    ensures Stored(base, at, rhs)[p - 1] == base[p - 1]
  {
    if at != [] {
      StoredElsewhere(base, at[..|at| - 1], rhs, p);
    }
  }

  /** ... and a listed one holds the element of its last occurrence. */
  lemma {:induction false} StoredAt<T>(base: seq<T>, at: seq<int>, rhs: seq<T>, p: int, i: int)
    requires Subscript.Within(at, |base|) && |at| <= |rhs| && LastAt(at, i, p)
    ensures 1 <= p <= |base| && Stored(base, at, rhs)[p - 1] == rhs[i]
  {
    var n := |at| - 1;
    if i < n {
      StoredAt(base, at[..n], rhs, p, i);
    }
  }

  /** Repeated positions are harmless exactly when they receive equal elements. */
  ghost predicate Consistent<T>(at: seq<int>, rhs: seq<T>)
    requires |at| == |rhs|
  {
    forall i, j :: 0 <= i < j < |at| && at[i] == at[j] ==> rhs[i] == rhs[j]
  }

  lemma {:induction false} LastOccurrence(at: seq<int>, i: nat) returns (j: nat)
    requires i < |at|
    ensures i <= j && LastAt(at, j, at[i])
    decreases |at| - i
  {
    if k :| i < k < |at| && at[k] == at[i] {
      j := LastOccurrence(at, k);
    } else {
      j := i;
    }
  }

  /** Reading back what was stored gives the right-hand side exactly when no repeated position
      was given two different elements; in particular whenever the positions are repeat-free. */
  lemma {:induction false} ReadBack<T>(base: seq<T>, at: seq<int>, rhs: seq<T>)
    requires Subscript.Within(at, |base|) && |at| == |rhs|
    ensures (forall i :: 0 <= i < |at| ==> Stored(base, at, rhs)[at[i] - 1] == rhs[i]) <==> Consistent(at, rhs)
  {
    hide Stored;
    forall i | 0 <= i < |at| && Consistent(at, rhs) ensures Stored(base, at, rhs)[at[i] - 1] == rhs[i] {
      var j := LastOccurrence(at, i);
      StoredAt(base, at, rhs, at[i], j);
    }
  }

  /** The values that exist: views are always built directly on storage (`MakeView`). */
  predicate Flat<T>(v: Value<T>) {
    match v
    case Base(_) => true
    case Sub(val, _) => val.Base?
    case Ref(target) => Flat(target)
  }

  predicate Growable<T>(v: Value<T>) {
    match v
    case Base(_) => true
    case Sub(_, _) => false
    case Ref(target) => Growable(target)
  }

  /** Zero-filled extension of `base` to at least `max` elements. */
  function Grown<T>(base: seq<T>, max: nat, zero: T): (g: seq<T>)
    ensures base <= g && |g| == (if max > |base| then max else |base|)
    ensures forall i :: |base| <= i < |g| ==> g[i] == zero
  {
    if max > |base| then base + seq(max - |base|, _ => zero) else base
  }

  ghost function Positions<T>(v: Value<T>, indices: seq<int>, n: nat): (at: seq<int>)
    requires Valid(v, n) && Subscript.Within(indices, Length(v, n))
    ensures Translated(v, indices, at, n) && Subscript.Within(at, n)
  {
    seq(|indices|, i requires 0 <= i < |indices| => Position(v, indices[i], n))
  }

  /** The element loop. Each store goes through the pointer to `into`: the storage itself, unless
      a view still has a pointer from an earlier use and the storage has been replaced since.
      `ok` unless a store is beyond the end of that earlier storage. */
  method StoreLoop<T>(v: Value<T>, into: Vector<T>, indices: seq<int>, rhs: seq<T>)
    returns (ok: bool, ghost at: seq<int>)
    requires Flat(v) && !v.Ref? && |indices| <= |rhs| && (v.Base? ==> into == Root(v))
    requires Valid(v, |Root(v).elems|) && Subscript.Within(indices, Length(v, |Root(v).elems|))
    modifies into
    ensures Translated(v, indices, at, old(|Root(v).elems|)) && Subscript.Within(at, old(|Root(v).elems|))
    ensures ok <==> Subscript.Within(at, old(|into.elems|))
    ensures ok ==> into.elems == Stored(old(into.elems), at, rhs)
  {
    ghost var base, n := into.elems, |Root(v).elems|;
    at := Positions(v, indices, n);
    for i := 0 to |indices|
      invariant |into.elems| == |base| && Subscript.Within(at[..i], |base|)
      invariant into.elems == Stored(base, at[..i], rhs)
    {
      var off := if v.Base? then indices[i] else v.indices[indices[i] - 1];
      assert off == at[i] by {
        if v.Sub? { assert Position(v, indices[i], n) == Position(v.val, off, n) == off; }
      }
      if off > |into.elems| { return false, at; }
      into.elems := into.elems[off - 1 := rhs[i]];
      assert at[..i + 1][..i] == at[..i];
    }
    assert at[..|at|] == at;
    ok := true;
  }

  datatype Outcome = Done | BadIndex | CannotGrow | Undefined

  /** `v[indices] := rhs`. Storage grows with zeros to reach the highest index; a view cannot
      grow, and nothing is stored when an index is below one. A view stores into the storage
      that its pointer is to. */
  method AssignArrayElements<T>(v: Value<T>, into: Vector<T>, indices: seq<int>, rhs: seq<T>, zero: T)
    returns (r: Outcome, ghost max: nat, ghost at: seq<int>)
    requires Flat(v) && |indices| <= |rhs| && Valid(v, |Root(v).elems|) && (Growable(v) ==> into == Root(v))
    modifies Root(v), into
    ensures r == BadIndex <==> exists i :: 0 <= i < |indices| && indices[i] < 1
    ensures r == CannotGrow <==>
              (forall i :: 0 <= i < |indices| ==> indices[i] >= 1) && !Growable(v)
              && !Subscript.Within(indices, Length(v, old(|Root(v).elems|)))
    ensures r == BadIndex || r == CannotGrow ==> into.elems == old(into.elems)
    ensures into != Root(v) || r == BadIndex || r == CannotGrow ==> Root(v).elems == old(Root(v).elems)
    ensures r == Undefined ==> into != Root(v) && !Subscript.Within(at, old(|into.elems|))
    ensures r == Done && into == Root(v) ==> var g := Grown(old(Root(v).elems), max, zero);
              && (max == 0 || max in indices) && (!Growable(v) ==> g == old(Root(v).elems))
              && Translated(v, indices, at, |g|) && Subscript.Within(at, |g|)
              && Root(v).elems == Stored(g, at, rhs)
    ensures r == Done && into != Root(v) ==>
              && Translated(v, indices, at, |Root(v).elems|) && Subscript.Within(at, old(|into.elems|))
              && into.elems == Stored(old(into.elems), at, rhs)
    decreases v
  {
    if v.Ref? {
      r, max, at := AssignArrayElements(v.target, into, indices, rhs, zero);
      return;
    }
    max, at := 0, [];
    for i := 0 to |indices|
      invariant forall k :: 0 <= k < i ==> indices[k] >= 1
    {
      if indices[i] < 1 { return BadIndex, 0, []; }
    }
    var top := IndexUpdate(indices);
    if top > Length(v, |Root(v).elems|) {
      if v.Sub? { return CannotGrow, 0, []; }
      v.vec.elems := Grown(v.vec.elems, top, zero);
    }
    max := if v.Sub? then 0 else top;
    var ok;
    ok, at := StoreLoop(v, into, indices, rhs);
    r := if ok then Done else Undefined;
  }

  /** The storage after an assignment; it has the stores when they go to the storage itself. */
  ghost function Assigned<T>(base: seq<T>, at: seq<int>, rhs: seq<T>, reached: bool): (s: seq<T>)
    requires Subscript.Within(at, |base|) && |at| <= |rhs|
    ensures |s| == |base|
  {
    if reached then Stored(base, at, rhs) else base
  }

  /** Assignment through a value changes no base element but those it selects. Reading it back
      gives the right-hand side exactly when the stores reach the storage and repeated positions
      agree, or they do not reach it and the elements were there before. */
  lemma {:induction false} AssignmentIsExact<T>(v: Value<T>, indices: seq<int>, at: seq<int>, rhs: seq<T>, base: seq<T>,
                                                reached: bool)
    requires Translated(v, indices, at, |base|) && Subscript.Within(at, |base|) && |indices| == |rhs|
    ensures forall p :: 1 <= p <= |base| && p !in at ==> Assigned(base, at, rhs, reached)[p - 1] == base[p - 1]
    ensures (forall i :: 0 <= i < |indices| ==> Elements(v, Assigned(base, at, rhs, reached))[indices[i] - 1] == rhs[i])
            <==> if reached then Consistent(at, rhs) else forall i :: 0 <= i < |at| ==> base[at[i] - 1] == rhs[i]
  {
    var s := Assigned(base, at, rhs, reached);
    forall p | 1 <= p <= |base| && p !in at ensures s[p - 1] == base[p - 1] {
      StoredElsewhere(base, at, rhs, p);
    }
    hide Stored, Elements, Position;
    forall i | 0 <= i < |indices| ensures Elements(v, s)[indices[i] - 1] == s[at[i] - 1] {
      PositionReads(v, indices[i], s);
    }
    ReadBack(base, at, rhs);
  }

  /** An n-dimensional sub-reference of any value, however it refers to its storage, reads
      exactly the elements that the n-dimensional subscript copies out of that value, whatever
      the subscripts. */
  lemma {:induction false} SubReferenceReadsSubscript<T>(v: Value<T>, base: seq<T>, shape: seq<nat>,
                                                         args: seq<Subscript.Arg>,
                                                         l: Subscript.Located, copy: Subscript.Result<T>,
                                                         m: Subscript.Located, view: Subscript.Result<int>, r: Value<T>)
    requires Valid(v, |base|)
    requires Subscript.Locates(Length(v, |base|), shape, args, l) && Subscript.Answers(Elements(v, base), l, copy)
    requires Subscript.Locates(Length(v, |base|), shape, args, m)
    requires Subscript.Refers(Length(v, |base|), shape, m, view) && view.Ok?
    requires r.Sub? && r.val == Base(Root(v)) && Valid(r, |base|)
    requires Translated(v, view.values, r.indices, |base|)
    ensures copy.Ok? && Elements(r, base) == copy.values
  {
    hide Subscript.Locates, Subscript.Answers, Subscript.Refers, Position, Elements, Root;
    Subscript.RefersWithin(Length(v, |base|), shape, m, view);
    Subscript.ViewAgreesWithCopy(Elements(v, base), shape, args, l, copy, m, view);
    ViewReadsChain(v, view.values, r, base);
    SubElements(v, view.values, base);
    hide Translated, Valid, Subscript.Within;
  }

  lemma {:induction false} SubElements<T>(v: Value<T>, indices: seq<int>, base: seq<T>)
    requires Valid(Sub(v, indices), |base|)
    ensures |Elements(Sub(v, indices), base)| == |indices|
    ensures forall i :: 0 <= i < |indices| ==> Elements(Sub(v, indices), base)[i] == Elements(v, base)[indices[i] - 1]
  {
  }
}
