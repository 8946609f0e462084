/** Self-nulling weak pointers: an object lists the pointers aimed at it and clears them when it
    goes away. */
module WeakPtr {

  ghost predicate NoRepeats<T>(s: seq<T>) {
    forall i, j :: 0 <= i < j < |s| ==> s[i] != s[j]
  }

  /** The list without its first occurrence of `x`. */
  function Without<T(==)>(s: seq<T>, x: T): seq<T> {
    if s == [] then [] else if s[0] == x then s[1..] else [s[0]] + Without(s[1..], x)
  }

  lemma {:induction false} WithoutNone<T>(s: seq<T>, x: T)
    requires x !in s
    ensures Without(s, x) == s
  {
    if s != [] { WithoutNone(s[1..], x); }
  }

  lemma {:induction false} WithoutOne<T>(s: seq<T>, x: T)
    requires NoRepeats(s)
    ensures NoRepeats(Without(s, x)) && forall y :: y in Without(s, x) <==> y in s && y != x
  {
    if s != [] {
      assert s == [s[0]] + s[1..];
      if s[0] == x {
        assert x !in s[1..];
      } else {
        WithoutOne(s[1..], x);
        var w := Without(s[1..], x);
        assert s[0] !in w;
        assert forall y :: y in [s[0]] + w <==> y == s[0] || y in w;
      }
    }
  }

  /** Adding a listed pointer again and then removing one occurrence lists it once. */
  lemma {:induction false} WithoutAppended<T>(s: seq<T>, x: T)
    requires NoRepeats(s)
    ensures NoRepeats(Without(s + [x], x)) && x !in Without(s, x)
    ensures x in s ==> forall y :: y in Without(s + [x], x) <==> y in s
  {
    WithoutOne(s, x);
    if x in s {
      AppendPast(s, x);
      var w := Without(s, x);
      assert forall y :: y in w + [x] <==> y in w || y == x;
    } else {
      WithoutNone(s, x);
      LastOnly(s, x);
    }
  }

  lemma {:induction false} AppendPast<T>(s: seq<T>, x: T)
    requires x in s
    ensures Without(s + [x], x) == Without(s, x) + [x]
  {
    assert (s + [x])[0] == s[0] && (s + [x])[1..] == s[1..] + [x];
    if s[0] != x { AppendPast(s[1..], x); }
  }

  lemma {:induction false} LastOnly<T>(s: seq<T>, x: T)
    requires x !in s
    ensures Without(s + [x], x) == s
  {
    if s != [] {
      assert (s + [x])[0] == s[0] && (s + [x])[1..] == s[1..] + [x];
      LastOnly(s[1..], x);
    } else {
      assert s + [x] == [x];
    }
  }

  class Obj {
    var ptrs: seq<Ptr>
    var refCount: nat

    constructor ()
      ensures ptrs == [] && refCount == 1
    {
      ptrs, refCount := [], 1;
    }

    predicate Live()
      reads this
    {
      refCount > 0
    }

    method AddPointer(p: Ptr)
      modifies this`ptrs
      ensures ptrs == old(ptrs) + [p]
    {
      ptrs := ptrs + [p];
    }

    /** Forgets the first occurrence of the pointer. */
    method PointerGone(p: Ptr)
      modifies this`ptrs
      ensures ptrs == Without(old(ptrs), p)
    {
      var i := 0;
      while i < |ptrs| && ptrs[i] != p
        invariant 0 <= i <= |ptrs|
        invariant Without(ptrs, p) == ptrs[..i] + Without(ptrs[i..], p)
      {
        assert ptrs[i..][1..] == ptrs[i + 1..];
        assert ptrs[..i] + ([ptrs[i]] + Without(ptrs[i + 1..], p)) == ptrs[..i + 1] + Without(ptrs[i + 1..], p);
        i := i + 1;
      }
      if i < |ptrs| {
        assert ptrs[i..][1..] == ptrs[i + 1..];
        ptrs := ptrs[..i] + ptrs[i + 1..];
      } else {
        assert ptrs[..i] + [] == ptrs;
      }
    }
  }

  class Ptr {
    var obj: Obj?
    var live: bool

    constructor ()
      ensures obj == null && live
    {
      obj, live := null, true;
    }
  }

  /** The list of object `x` after pointer `p` moved from `was` to `o`: first added to the new
      target, then removed from the old one. */
  ghost function Moved(list: seq<Ptr>, x: Obj, p: Ptr, was: Obj?, o: Obj?): seq<Ptr> {
    var added := if x == o then list + [p] else list;
    if x == was then Without(added, p) else added
  }

  lemma {:induction false} MovedLists(list: seq<Ptr>, x: Obj, p: Ptr, was: Obj?, o: Obj?)
    requires NoRepeats(list) && (p in list <==> x == was)
    ensures NoRepeats(Moved(list, x, p, was, o))
    ensures forall q :: q in Moved(list, x, p, was, o) <==> if q == p then x == o else q in list
  {
    WithoutOne(list, p);
    WithoutAppended(list, p);
    hide Without;
    assert forall q :: q in list + [p] <==> q in list || q == p;
  }

  /** All pointers and objects ever made. */
  class World {
    var ptrs: seq<Ptr>
    var objs: seq<Obj>

    constructor ()
      ensures Valid() && ptrs == [] && objs == []
    {
      ptrs, objs := [], [];
    }

    /** A pointer in use is null, or targets a live object that lists it. */
    ghost predicate PtrOk(p: Ptr)
      reads this, p, objs
    {
      p.live && p.obj != null ==> p.obj in objs && p.obj.Live() && p in p.obj.ptrs
    }

    /** A live object lists, once each, pointers in use that target it. */
    ghost predicate ObjOk(o: Obj)
      reads this, o, ptrs
    {
      o.Live() ==> NoRepeats(o.ptrs) && forall q :: q in o.ptrs ==> q in ptrs && q.live && q.obj == o
    }

    /** No pointer dangles, each is listed exactly once, and nothing else is listed. */
    ghost predicate Valid()
      reads this, ptrs, objs
    {
      (forall p :: p in ptrs ==> PtrOk(p)) && (forall o :: o in objs ==> ObjOk(o))
    }

    method NewObj() returns (o: Obj)
      requires Valid()
      modifies this`objs
      ensures Valid() && fresh(o) && objs == old(objs) + [o] && o.refCount == 1 && o.ptrs == []
    {
      o := new Obj();
      objs := objs + [o];
    }

    /** Construction from an object, from null, or from another pointer's target. */
    method NewPtr(o: Obj?) returns (p: Ptr)
      requires Valid() && (o != null ==> o in objs && o.Live())
      modifies this`ptrs, objs`ptrs
      ensures Valid() && fresh(p) && ptrs == old(ptrs) + [p] && p.obj == o && p.live
      ensures forall x :: x in objs && x != o ==> x.ptrs == old(x.ptrs)
      ensures o != null ==> o.ptrs == old(o.ptrs) + [p]
    {
      p := new Ptr();
      p.obj := o;
      ghost var list := if o == null then [] else o.ptrs;
      assert o != null ==> NoRepeats(list + [p]) by { if o != null { assert ObjOk(o); } }
      hide NoRepeats;
      if o != null { o.AddPointer(p); }
      ptrs := ptrs + [p];
      forall x | x in objs && x.Live() ensures ObjOk(x) {
        assert old(ObjOk(x));
      }
    }

    /** Assignment; the new target may be the old one, or null. */
    method Assign(p: Ptr, o: Obj?)
      requires Valid() && p in ptrs && p.live && (o != null ==> o in objs && o.Live())
      modifies p`obj, objs`ptrs
      ensures Valid() && p.obj == o
      ensures forall x :: x in objs ==> x.ptrs == Moved(old(x.ptrs), x, p, old(p.obj), o)
    {
      hide NoRepeats, Without;
      var was := p.obj;
      assert PtrOk(p);
      p.obj := o;
      if o != null { o.AddPointer(p); }
      if was != null { was.PointerGone(p); }
      assert forall x :: x in objs ==> x.ptrs == Moved(old(x.ptrs), x, p, was, o);
      hide Moved;
      forall x | x in objs && x.Live() ensures ObjOk(x) {
        assert old(ObjOk(x)) && old(PtrOk(p));
        MovedLists(old(x.ptrs), x, p, was, o);
      }
      forall q | q in ptrs && q.live && q.obj != null ensures PtrOk(q) {
        var x := q.obj;
        assert old(PtrOk(q)) && old(PtrOk(p)) && old(ObjOk(x));
        MovedLists(old(x.ptrs), x, p, was, o);
      }
    }

    /** Destruction of a pointer. */
    method DestroyPtr(p: Ptr)
      requires Valid() && p in ptrs && p.live
      modifies p`live, objs`ptrs
      ensures Valid() && !p.live
      ensures forall x :: x in objs ==> x.ptrs == if x == p.obj then Without(old(x.ptrs), p) else old(x.ptrs)
    {
      assert PtrOk(p);
      if p.obj != null { p.obj.PointerGone(p); }
      p.live := false;
      hide NoRepeats, Without;
      forall x | x in objs && x.Live() ensures ObjOk(x) {
        assert old(ObjOk(x)) && old(PtrOk(p));
        WithoutOne(old(x.ptrs), p);
        if x != p.obj { assert p !in x.ptrs; }
      }
      forall q | q in ptrs && q.live && q.obj != null ensures PtrOk(q) {
        var x := q.obj;
        assert old(PtrOk(q)) && old(ObjOk(x));
        WithoutOne(old(x.ptrs), p);
      }
    }

    method Ref(o: Obj)
      requires Valid() && o in objs && o.Live()
      modifies o`refCount
      ensures Valid() && o.refCount == old(o.refCount) + 1
    {
      o.refCount := o.refCount + 1;
    }

    /** Drops one reference; the last one destroys the object, which clears the pointers it
        lists. */
    method Unref(o: Obj)
      requires Valid() && o in objs && o.Live()
      modifies o`refCount, ptrs`obj
      ensures Valid() && o.refCount == old(o.refCount) - 1
      ensures forall p :: p in ptrs && p.live ==>
                p.obj == if old(p.obj) == o && !o.Live() then null else old(p.obj)
    {
      assert ObjOk(o);
      o.refCount := o.refCount - 1;
      if o.refCount == 0 {
        assert forall q :: q in o.ptrs ==> q in ptrs;
        for i := 0 to |o.ptrs|
          invariant o.refCount == 0 && o.ptrs == old(o.ptrs)
          invariant forall p :: p in ptrs ==> p.obj == if p in o.ptrs[..i] then null else old(p.obj)
        {
          assert o.ptrs[..i + 1] == o.ptrs[..i] + [o.ptrs[i]];
          assert o.ptrs[i] in o.ptrs;
          o.ptrs[i].obj := null;
        }
        assert o.ptrs[..|o.ptrs|] == o.ptrs;
      }
    }

    /** `unref()` on a pointer: it stops being listed and becomes null, and its target loses a
        reference. */
    method UnrefPtr(p: Ptr)
      requires Valid() && p in ptrs && p.live
      modifies ptrs`obj, objs`ptrs, objs`refCount
      ensures Valid() && p.obj == null
      ensures forall q :: q in ptrs && q.live ==>
                var was := old(q.obj);
                q.obj == if q == p || (was != null && was == old(p.obj) && !was.Live()) then null else was
      ensures forall x :: x in objs ==> x.refCount == if x == old(p.obj) then old(x.refCount) - 1 else old(x.refCount)
    {
      if p.obj != null {
        assert PtrOk(p);
        var o := p.obj;
        Assign(p, null);
        Unref(o);
      }
    }

    /** The pointers and counts are as the reference says. */
    ghost predicate Agrees(s: State)
      reads this, ptrs, objs
    {
      && |s.ptrs| == |ptrs| && |s.counts| == |objs| && NoRepeats(ptrs) && NoRepeats(objs)
      && (forall o :: 0 <= o < |objs| ==> objs[o].refCount == s.counts[o])
      && (forall i :: 0 <= i < |ptrs| ==> Shows(ptrs[i], s.ptrs[i]))
    }

    ghost predicate Shows(p: Ptr, w: Weak)
      reads this, p
    {
      match w
      case Gone => !p.live
      case Null => p.live && p.obj == null
      case To(o) => p.live && o < |objs| && p.obj == objs[o]
    }

    /** Creations. */
    method DoMake(op: Op, ghost s: State)
      requires Valid() && Agrees(s) && (op.MakeObj? || op.MakeNull? || op.MakePtr? || op.CopyPtr?)
      modifies this, ptrs, objs
      ensures Valid() && Agrees(Next(s, op)) && old(ptrs) <= ptrs && old(objs) <= objs
      ensures forall k :: |old(ptrs)| <= k < |ptrs| ==> fresh(ptrs[k])
      ensures forall k :: |old(objs)| <= k < |objs| ==> fresh(objs[k])
    {
      hide Valid;
      match op {
        case MakeObj => var _ := NewObj();
        case MakeNull => var _ := NewPtr(null);
        case MakePtr(o) => if o < |objs| && objs[o].Live() { var _ := NewPtr(objs[o]); }
        case CopyPtr(i) =>
          if i < |ptrs| && ptrs[i].live {
            Target(ptrs[i]);
            var _ := NewPtr(ptrs[i].obj);
          }
      }
    }

    lemma {:induction false} Begins()
      requires ptrs == [] && objs == []
      ensures Agrees(State([], []))
    {
    }

    lemma {:induction false} Target(p: Ptr)
      requires Valid() && p in ptrs && p.live
      ensures p.obj != null ==> p.obj in objs && p.obj.Live()
    {
      assert PtrOk(p);
    }

    /** Aims pointer `i` at an object or at none. */
    method MoveTo(i: nat, o: Obj?, ghost w: Weak, ghost s: State)
      requires Valid() && Agrees(s) && i < |ptrs| && ptrs[i].live && (o != null ==> o in objs && o.Live())
      requires (w.Null? && o == null) || (w.To? && w.o < |objs| && o == objs[w.o])
      modifies ptrs, objs
      ensures Valid() && Agrees(s.(ptrs := s.ptrs[i := w]))
    {
      hide Valid, Moved;
      Assign(ptrs[i], o);
    }

    method KillAt(i: nat, ghost s: State)
      requires Valid() && Agrees(s) && i < |ptrs| && ptrs[i].live
      modifies ptrs, objs
      ensures Valid() && Agrees(s.(ptrs := s.ptrs[i := Gone]))
    {
      hide Valid, Without;
      DestroyPtr(ptrs[i]);
    }

    /** Changes to one pointer. */
    method DoMove(op: Op, ghost s: State)
      requires Valid() && Agrees(s) && (op.SetObj? || op.SetNull? || op.SetPtr? || op.KillPtr?)
      modifies ptrs, objs
      ensures Valid() && Agrees(Next(s, op))
    {
      hide Valid, NoRepeats;
      match op {
        case SetObj(i, o) =>
          if i < |ptrs| && ptrs[i].live && o < |objs| && objs[o].Live() { MoveTo(i, objs[o], To(o), s); }
        case SetNull(i) => if i < |ptrs| && ptrs[i].live { MoveTo(i, null, Null, s); }
        case SetPtr(i, j) =>
          if i < |ptrs| && ptrs[i].live && j < |ptrs| && ptrs[j].live {
            Target(ptrs[j]);
            MoveTo(i, ptrs[j].obj, s.ptrs[j], s);
          }
        case KillPtr(i) => if i < |ptrs| && ptrs[i].live { KillAt(i, s); }
      }
    }

    method DropAt(o: nat, ghost s: State)
      requires Valid() && Agrees(s) && o < |objs| && objs[o].Live()
      modifies ptrs, objs
      ensures Valid() && Agrees(Dropped(s, o))
    {
      hide Valid;
      Unref(objs[o]);
    }

    /** Drops the reference held through pointer `i`. */
    method UnrefAt(i: nat, ghost s: State)
      requires Valid() && Agrees(s) && i < |ptrs| && ptrs[i].live
      modifies ptrs, objs
      ensures Valid() && Agrees(Next(s, UnrefThrough(i)))
    {
      Target(ptrs[i]);
      assert forall k :: 0 <= k < |ptrs| && k != i ==> ptrs[k] != ptrs[i];
      ghost var next := Next(s, UnrefThrough(i));
      hide Valid;
      UnrefPtr(ptrs[i]);
      forall k | 0 <= k < |ptrs| ensures Shows(ptrs[k], next.ptrs[k]) {
        assert old(Shows(ptrs[k], s.ptrs[k]));
      }
      hide Shows;
    }

    /** Changes to reference counts. */
    method DoCount(op: Op, ghost s: State)
      requires Valid() && Agrees(s) && (op.AddRef? || op.DropRef? || op.UnrefThrough?)
      modifies ptrs, objs
      ensures Valid() && Agrees(Next(s, op))
    {
      hide Valid, Dropped;
      match op {
        case AddRef(o) => if o < |objs| && objs[o].Live() { Ref(objs[o]); }
        case DropRef(o) => if o < |objs| && objs[o].Live() { DropAt(o, s); }
        case UnrefThrough(i) => if i < |ptrs| && ptrs[i].live { UnrefAt(i, s); }
      }
    }

    /** One operation of a client; it may name only objects and pointers that exist. */
    method Do(op: Op, ghost s: State)
      requires Valid() && Agrees(s)
      modifies this, ptrs, objs
      ensures Valid() && Agrees(Next(s, op)) && old(ptrs) <= ptrs && old(objs) <= objs
      ensures forall k :: |old(ptrs)| <= k < |ptrs| ==> fresh(ptrs[k])
      ensures forall k :: |old(objs)| <= k < |objs| ==> fresh(objs[k])
    {
      hide Valid, Agrees, Next;
      if op.MakeObj? || op.MakeNull? || op.MakePtr? || op.CopyPtr? {
        DoMake(op, s);
      } else if op.SetObj? || op.SetNull? || op.SetPtr? || op.KillPtr? {
        DoMove(op, s);
      } else {
        DoCount(op, s);
      }
    }
  }

  datatype Op =
    | MakeObj | MakeNull | MakePtr(o: nat) | CopyPtr(i: nat)
    | SetObj(i: nat, o: nat) | SetNull(i: nat) | SetPtr(i: nat, j: nat)
    | KillPtr(i: nat) | AddRef(o: nat) | DropRef(o: nat) | UnrefThrough(i: nat)

  // ----- reference: pointers that know their object by number -----

  datatype Weak = Gone | Null | To(o: nat)

  datatype State = State(ptrs: seq<Weak>, counts: seq<nat>)

  /** The object loses a reference; without any left, every pointer at it becomes null. */
  ghost function Dropped(s: State, o: nat): State
    requires o < |s.counts| && s.counts[o] > 0
  {
    var ptrs := if s.counts[o] > 1 then s.ptrs
                else seq(|s.ptrs|, i requires 0 <= i < |s.ptrs| => if s.ptrs[i] == To(o) then Null else s.ptrs[i]);
    State(ptrs, s.counts[o := s.counts[o] - 1])
  }

  ghost predicate Usable(s: State, i: nat) {
    i < |s.ptrs| && s.ptrs[i] != Gone
  }

  ghost predicate Alive(s: State, o: nat) {
    o < |s.counts| && s.counts[o] > 0
  }

  /** Operations on what does not exist any more are not performed. */
  ghost function Next(s: State, op: Op): State {
    match op
    case MakeObj => s.(counts := s.counts + [1])
    case MakeNull => s.(ptrs := s.ptrs + [Null])
    case MakePtr(o) => if Alive(s, o) then s.(ptrs := s.ptrs + [To(o)]) else s
    case CopyPtr(i) => if Usable(s, i) then s.(ptrs := s.ptrs + [s.ptrs[i]]) else s
    case SetObj(i, o) => if Usable(s, i) && Alive(s, o) then s.(ptrs := s.ptrs[i := To(o)]) else s
    case SetNull(i) => if Usable(s, i) then s.(ptrs := s.ptrs[i := Null]) else s
    case SetPtr(i, j) => if Usable(s, i) && Usable(s, j) then s.(ptrs := s.ptrs[i := s.ptrs[j]]) else s
    case KillPtr(i) => if Usable(s, i) then s.(ptrs := s.ptrs[i := Gone]) else s
    case AddRef(o) => if Alive(s, o) then s.(counts := s.counts[o := s.counts[o] + 1]) else s
    case DropRef(o) => if Alive(s, o) then Dropped(s, o) else s
    case UnrefThrough(i) =>
      if Usable(s, i) && s.ptrs[i].To? && Alive(s, s.ptrs[i].o) then
        Dropped(s.(ptrs := s.ptrs[i := Null]), s.ptrs[i].o)
      else s
  }

  ghost function After(s: State, ops: seq<Op>): State
    decreases |ops|
  {
    if ops == [] then s else Next(After(s, ops[..|ops| - 1]), ops[|ops| - 1])
  }

  /** Pointers target only objects that live. */
  ghost predicate Aimed(s: State) {
    forall i :: 0 <= i < |s.ptrs| && s.ptrs[i].To? ==> Alive(s, s.ptrs[i].o)
  }

  lemma {:induction false} NextAimed(s: State, op: Op)
    requires Aimed(s)
    ensures Aimed(Next(s, op))
  {
  }

  lemma {:induction false} RunAimed(ops: seq<Op>)
    ensures Aimed(After(State([], []), ops))
    decreases |ops|
  {
    if ops != [] {
      RunAimed(ops[..|ops| - 1]);
      NextAimed(After(State([], []), ops[..|ops| - 1]), ops[|ops| - 1]);
      hide Next;
    }
  }

  /** The operation is one on pointer `i` itself. */
  ghost predicate On(op: Op, i: nat) {
    (op.SetObj? || op.SetNull? || op.SetPtr? || op.KillPtr? || op.UnrefThrough?) && op.i == i
  }

  /** Self-nulling: whatever else happens, a pointer keeps its target as long as that lives, and is
      null from the moment it does not. */
  lemma {:induction false} SelfNulling(s: State, op: Op, i: nat)
    requires Aimed(s) && i < |s.ptrs| && !On(op, i)
    ensures i < |Next(s, op).ptrs|
    ensures Next(s, op).ptrs[i] ==
              if s.ptrs[i].To? && !Alive(Next(s, op), s.ptrs[i].o) then Null else s.ptrs[i]
  {
  }

  /** What an operation on a pointer makes of it. */
  lemma {:induction false} SetMeans(s: State, i: nat, j: nat, o: nat)
    requires Usable(s, i) && Usable(s, j) && Alive(s, o)
    ensures Next(s, SetObj(i, o)).ptrs[i] == To(o) && Next(s, SetPtr(i, j)).ptrs[i] == s.ptrs[j]
    ensures Next(s, SetNull(i)).ptrs[i] == Null && Next(s, KillPtr(i)).ptrs[i] == Gone
    ensures s.ptrs[i].To? && Alive(s, s.ptrs[i].o) ==>
              && Next(s, UnrefThrough(i)).ptrs[i] == Null
              && Next(s, UnrefThrough(i)).counts[s.ptrs[i].o] == s.counts[s.ptrs[i].o] - 1
    ensures Next(s, DropRef(o)).counts[o] == s.counts[o] - 1 && Next(s, AddRef(o)).counts[o] == s.counts[o] + 1
  {
  }

  /** After any sequence of operations no pointer dangles, every pointer has the target the
      reference gives it, and every object its count. */
  method Run(ops: seq<Op>) returns (w: World)
    ensures w.Valid() && w.Agrees(After(State([], []), ops))
  {
    w := new World();
    ghost var s := State([], []);
    hide World.Valid, World.Agrees, Next;
    assert w.Agrees(After(s, ops[..0])) by { w.Begins(); }
    for i := 0 to |ops|
      invariant w.Valid() && fresh(w) && w.Agrees(After(s, ops[..i]))
      invariant forall k :: 0 <= k < |w.ptrs| ==> fresh(w.ptrs[k])
      invariant forall k :: 0 <= k < |w.objs| ==> fresh(w.objs[k])
    {
      assert ops[..i + 1][..i] == ops[..i];
      w.Do(ops[i], After(s, ops[..i]));
    }
    assert ops[..|ops|] == ops;
  }
}
