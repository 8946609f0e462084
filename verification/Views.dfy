/** Assignment through a sub-vector reference. The reference asks its base for modifiable storage
    once and keeps the pointer; the base may meanwhile share, copy or move its storage. */
module Views {
  import opened Common
  import opened Kernels

  /** A store through a reference: done; dropped with a report, the base being too short; or
      through a pointer to storage that is gone. */
  datatype Outcome = Done | Dropped | Undefined

  class SubVector {
    const base: Kernel
    const indices: seq<nat>
    var cached: Option<Kept>

    constructor (b: Kernel, ix: seq<nat>)
      ensures base == b && indices == ix && cached == None
    {
      base, indices, cached := b, ix, None;
    }

    /** A kept pointer is used again as long as the base has the kind it was taken for. */
    predicate Keeps()
      requires base.block != null
      reads this, base, base.block
    {
      cached.Some? && cached.value.kind == base.block.kind
    }

    /** A store reaches the base and nothing else: no pointer is kept, or the kept one is to the
        storage that the base now has, and has to itself. */
    predicate Sharp()
      requires base.block != null
      reads this, base, base.block
    {
      Keeps() ==>
        && cached.value.block == base.block && cached.value.moves == base.block.moves
        && base.block.refCount == 1
    }

    predicate Reaches()
      reads this, base, base.block
    {
      base.block != null && Sharp()
    }

    /** The kept pointer is to storage that the base has to itself. */
    ghost predicate Firm()
      reads this, base, base.block
    {
      cached.Some? && base.Sole() && cached.value.block == base.block && cached.value.moves == base.block.moves
    }

    /** The pointer to store through: the kept one, or a new one to storage that the base then
        has to itself. Nothing that can be read changes. */
    method Pointer(ghost all: set<Kernel>) returns (p: Kept)
      requires base in all && Counted(all) && base.Ok() && base.isArray
      modifies this`cached, base`block, base.block
      ensures Counted(all) && base.Ok() && base.isArray && cached == Some(p) && p.kind == base.block.kind
      ensures base.block == old(base.block) || fresh(base.block)
      ensures base.Contents() == old(base.Contents()) && Same(all, old(Reading(all)))
      ensures old(Keeps()) ==> p == old(cached).value && base.block == old(base.block)
      ensures old(Keeps()) ==>
                base.block.refCount == old(base.block.refCount) && base.block.moves == old(base.block.moves)
      ensures !old(Keeps()) ==> p == Kept(base.block.kind, base.block, base.block.moves) && base.Sole()
      ensures old(base.Sole()) ==>
                base.Sole() && base.block == old(base.block) && base.block.moves == old(base.block.moves)
    {
      if Keeps() {
        p := cached.value;
      } else {
        ghost var before := Reading(all);
        hide Counted;
        var _ := base.ModArray(all);
        p := Kept(base.block.kind, base.block, base.block.moves);
        cached := Some(p);
        assert Same(all, before);
      }
    }

    /** `r[i] := x`. The base, and nothing else, has the element stored whenever the reference is
        sharp; in general every kernel that holds the kept block does. */
    method Store(i: nat, x: Cell, ghost all: set<Kernel>) returns (o: Outcome)
      requires base in all && Counted(all) && base.Ok() && base.isArray && i < |indices| && indices[i] >= 1
      modifies this`cached, base`block, base.block, (if cached.Some? then {cached.value.block} else {})`values
      ensures Counted(all) && base.Ok() && base.isArray && cached.Some?
      ensures base.block == old(base.block) || fresh(base.block)
      ensures Effect(o, all, base, cached.value, old(Reading(all)), indices[i] - 1, x)
      ensures cached.value.kind == base.block.kind && (o == Dropped <==> indices[i] > |old(base.Contents()).data|)
      ensures o == Undefined ==> !old(Sharp())
      ensures old(Sharp()) <==> Firm()
      ensures old(base.Sole()) ==>
                base.Sole() && base.block == old(base.block) && base.block.moves == old(base.block.moves)
      ensures !old(Keeps()) ==> base.Sole() && cached.value == Kept(base.block.kind, base.block, base.block.moves)
      ensures old(Sharp()) || base.block == old(base.block)
      ensures old(Keeps()) ==> cached == old(cached) && base.block == old(base.block)
    {
      hide Counted, Effect, Same, Reading;
      ghost var before := Reading(all);
      assert Sharp() && Keeps() ==> base.Sole() by { if base.block.refCount == 1 { SoleOne(all, base); } }
      var p := Pointer(all);
      o := Poke(p, indices[i] - 1, x, base, all, before);
    }

    /** A copy of the reference reads through the same pointer: what it has is what every kernel
        with the kept block has, the base among them when the reference is sharp. */
    method Copy(ghost all: set<Kernel>) returns (o: Outcome, vec: seq<Cell>)
      requires base in all && Counted(all) && base.Ok() && base.isArray
      requires forall i :: 0 <= i < |indices| ==> indices[i] >= 1
      modifies this`cached, base`block, base.block
      ensures Counted(all) && Same(all, old(Reading(all))) && cached.Some?
      ensures o == Done ==>
                forall k :: k in all && k.block == cached.value.block ==> Selected(vec, indices, k.Contents())
      ensures o == Dropped ==> exists i :: 0 <= i < |indices| && indices[i] > |base.Contents().data|
      ensures o == Undefined ==> !old(Sharp())
      ensures old(Sharp()) ==> cached.value.block == base.block
    {
      hide Counted, Same, Reading, Peeked, Selected;
      var p := Pointer(all);
      o, vec := Peek(p, indices, base.block.length);
      if o == Done { PeekedSelected(all, p, indices, vec); }
    }
  }

  ghost predicate Peeked(p: Kept, indices: seq<nat>, vec: seq<Cell>)
    reads p.block
  {
    && |vec| <= |indices|
    && forall k :: 0 <= k < |vec| ==> 1 <= indices[k] <= |p.block.values| && vec[k] == p.block.values[indices[k] - 1]
  }

  lemma {:induction false} PeekedSelected(all: set<Kernel>, p: Kept, indices: seq<nat>, vec: seq<Cell>)
    requires Counted(all) && Peeked(p, indices, vec) && |vec| == |indices|
    ensures forall k :: k in all && k.block == p.block ==> Selected(vec, indices, k.Contents())
  {
  }

  /** Reads through a pointer, up to the first index that the base is too short for. */
  method Peek(p: Kept, indices: seq<nat>, length: nat) returns (o: Outcome, vec: seq<Cell>)
    requires forall i :: 0 <= i < |indices| ==> indices[i] >= 1
    ensures o == Done ==> |vec| == |indices|
    ensures Peeked(p, indices, vec)
    ensures o == Dropped <==> |vec| < |indices| && indices[|vec|] > length
    ensures o == Undefined ==> |vec| < |indices| && indices[|vec|] <= length && !Stands(p, indices[|vec|] - 1)
  {
    vec := [];
    for i := 0 to |indices|
      invariant |vec| == i
      invariant forall k :: 0 <= k < i ==> indices[k] <= |p.block.values| && vec[k] == p.block.values[indices[k] - 1]
    {
      if indices[i] > length { return Dropped, vec; }
      if !Stands(p, indices[i] - 1) { return Undefined, vec; }
      vec := vec + [p.block.values[indices[i] - 1]];
    }
    o := Done;
  }

  predicate TooShort(c: Content, at: nat) {
    c.Elements? ==> at >= |c.data|
  }

  /** What a store meant for `base` leaves: nothing new when the base is too short, otherwise the
      element wherever the block is held. */
  ghost predicate Effect(o: Outcome, all: set<Kernel>, base: Kernel, p: Kept, before: map<Kernel, Content>, at: nat,
                         x: Cell)
    requires Counted(all)
    reads all, p.block, set k | k in all && k.block != null :: k.block
  {
    && base in before && (o == Dropped <==> TooShort(before[base], at))
    && (o != Done ==> Same(all, before)) && (o == Undefined ==> !Stands(p, at))
    && (o == Done ==> Stands(p, at) && Spread(all, p.block, before, at, x))
  }

  /** `vec` is what `k` has at the given positions, as far as it has them. */
  ghost predicate Selected(vec: seq<Cell>, indices: seq<nat>, c: Content) {
    && |vec| == |indices| && c.Elements?
    && forall i :: 0 <= i < |vec| && 1 <= indices[i] <= |c.data| ==> vec[i] == c.data[indices[i] - 1]
  }

  /** Stores through a pointer, when the base is long enough and the pointer still stands. */
  method Poke(p: Kept, at: nat, x: Cell, base: Kernel, ghost all: set<Kernel>, ghost before: map<Kernel, Content>)
    returns (o: Outcome)
    requires Counted(all) && base in all && base.block != null && base.block.Live() && Same(all, before)
    modifies p.block`values
    ensures Counted(all) && base.block.Live() && Effect(o, all, base, p, before, at, x)
    ensures o == Undefined ==> !old(Stands(p, at)) && at < base.block.length
    ensures o == Dropped <==> at >= base.block.length
  {
    assert base in before && base.Contents() == before[base];
    hide Counted, Same, Spread;
    if at >= base.block.length { return Dropped; }
    if !Stands(p, at) { return Undefined; }
    StoreKept(p, at, x, all, before);
    return Done;
  }

  lemma {:induction false} SoleOne(all: set<Kernel>, k: Kernel)
    requires Counted(all) && k in all && k.block != null && k.block.refCount == 1
    ensures k.Sole()
  {
    Singleton(k.block.holders, k);
  }

  // ----- any run -----

  /** What is known of a reference's kept pointer: there is none; it is to storage that the base
      has to itself; or the base's storage may have been shared, replaced or moved since. */
  datatype Mark = Unused | Steady | Loose

  datatype Ref = Ref(base: nat, indices: seq<nat>, mark: Mark)

  datatype State = State(contents: seq<Content>, refs: seq<Ref>)

  datatype Op = OnKernels(op: Kernels.Op) | Refer(base: nat, indices: seq<nat>) | Assign(ref: nat, i: nat, x: Cell)

  /** `where` has the element stored. */
  function PokeAll(s: seq<Content>, where: set<nat>, at: nat, x: Cell): (t: seq<Content>)
    ensures |t| == |s| && forall k :: 0 <= k < |s| ==> t[k] == if k in where then Poked(s[k], at, x) else s[k]
  {
    seq(|s|, k requires 0 <= k < |s| => if k in where then Poked(s[k], at, x) else s[k])
  }

  /** References are made to arrays that exist, with indices of at least one. */
  predicate Refers(s: State, base: nat, indices: seq<nat>) {
    base < |s.contents| && s.contents[base].Elements? && forall i :: 0 <= i < |indices| ==> indices[i] >= 1
  }

  /** The reference and its element exist, and its base is an array. */
  predicate Stores(s: State, ref: nat, i: nat) {
    ref < |s.refs| && i < |s.refs[ref].indices| && Refers(s, s.refs[ref].base, s.refs[ref].indices)
  }

  function Loosened(refs: seq<Ref>, op: Kernels.Op): (t: seq<Ref>)
    ensures |t| == |refs|
    ensures forall v :: 0 <= v < |refs| ==> t[v].base == refs[v].base && t[v].indices == refs[v].indices
    ensures forall v :: 0 <= v < |refs| ==>
              t[v].mark == if refs[v].mark == Steady && Touches(op, refs[v].base) then Loose else refs[v].mark
  {
    seq(|refs|, v requires 0 <= v < |refs| =>
          if refs[v].mark == Steady && Touches(op, refs[v].base) then refs[v].(mark := Loose) else refs[v])
  }

  /** An assignment through reference `v` that reaches the kernels in `where`. */
  function Assigned(s: State, v: nat, i: nat, x: Cell, where: set<nat>): State
    requires Stores(s, v, i)
  {
    var r := s.refs[v];
    var at := r.indices[i] - 1;
    State(if TooShort(s.contents[r.base], at) then s.contents else PokeAll(s.contents, where, at, x),
          s.refs[v := r.(mark := if where == {r.base} then Steady else Loose)])
  }

  /** One operation; what cannot be performed is skipped, and values are not destroyed. */
  function After(s: State, op: Op, where: set<nat>): State {
    match op
    case OnKernels(k) => if k.Destroy? then s else State(PrivateStep(s.contents, k), Loosened(s.refs, k))
    case Refer(b, ix) => if Refers(s, b, ix) then s.(refs := s.refs + [Ref(b, ix, Unused)]) else s
    case Assign(v, i, x) => if Stores(s, v, i) then Assigned(s, v, i, x, where) else s
  }

  ghost predicate Alike(s: seq<Content>, where: set<nat>) {
    && (forall k :: k in where ==> k < |s|)
    && forall k, l :: k in where && l in where && k < |s| && l < |s| ==> s[k] == s[l]
  }

  /** Where an operation may store: in the base and nowhere else, unless the pointer is loose;
      then in kernels that read alike. */
  ghost predicate Lands(s: State, op: Op, where: set<nat>) {
    if op.Assign? && Stores(s, op.ref, op.i) then
      && (s.refs[op.ref].mark != Loose ==> where == {s.refs[op.ref].base})
      && Alike(s.contents, where)
    else where == {}
  }

  function Replay(ops: seq<Op>, wheres: seq<set<nat>>): State
    requires |wheres| <= |ops|
    decreases |wheres|
  {
    var n := |wheres| - 1;
    if n < 0 then State([], []) else After(Replay(ops, wheres[..n]), ops[n], wheres[n])
  }

  ghost predicate AllLand(ops: seq<Op>, wheres: seq<set<nat>>)
    requires |wheres| <= |ops|
  {
    forall n :: 0 <= n < |wheres| ==> Lands(Replay(ops, wheres[..n]), ops[n], wheres[n])
  }

  /** Where an assignment through a reference is meant to store. */
  function Meant(s: State, op: Op): set<nat> {
    if op.Assign? && Stores(s, op.ref, op.i) then {s.refs[op.ref].base} else {}
  }

  /** The run in which every assignment changes its base. */
  function Ideal(ops: seq<Op>): State
    decreases |ops|
  {
    var n := |ops| - 1;
    if n < 0 then State([], []) else var s := Ideal(ops[..n]); After(s, ops[n], Meant(s, ops[n]))
  }

  predicate Slips(s: State, op: Op) {
    op.Assign? && Stores(s, op.ref, op.i) && s.refs[op.ref].mark == Loose
  }

  /** No reference is used again after its base was shared, replaced or resized. */
  ghost predicate Calm(ops: seq<Op>) {
    forall n :: 0 <= n < |ops| ==> !Slips(Ideal(ops[..n]), ops[n])
  }

  /** What an assignment is meant to do: the element of the base at the reference's index changes,
      if the base has it, and nothing else. */
  lemma {:induction false} AssignMeans(s: State, v: nat, i: nat, x: Cell)
    requires Stores(s, v, i)
    ensures var b := s.refs[v].base;
            var at, c := s.refs[v].indices[i] - 1, s.contents[b];
            After(s, Op.Assign(v, i, x), Meant(s, Op.Assign(v, i, x))).contents ==
            if at < |c.data| then s.contents[b := Elements(c.kind, c.data[at := x])] else s.contents
  {
  }

  /** What a calm run may do to the base of a used reference, and to all other values anything:
      elements are written, a boolean becomes an integer, new values are made. */
  lemma {:induction false} Untouched(op: Kernels.Op, j: nat)
    ensures op.Make? || op.Write? || op.BoolToInt? ==> !Touches(op, j)
    ensures (op.SetType? || op.SetArray? || op.Grow? || op.Duplicate?) && op.i != j ==> !Touches(op, j)
    ensures op.Assign? && op.i != j && op.from != j ==> !Touches(op, j)
  {
  }

  /** A store is right precisely when it lands in the base alone, or the base is too short for
      it, or nothing is new wherever it lands. */
  lemma {:induction false} StoreExact(s: State, v: nat, i: nat, x: Cell, where: set<nat>)
    requires Stores(s, v, i) && Lands(s, Op.Assign(v, i, x), where)
    ensures var b := s.refs[v].base; var at := s.refs[v].indices[i] - 1;
            Assigned(s, v, i, x, where).contents == Assigned(s, v, i, x, {b}).contents <==>
            where == {b} || TooShort(s.contents[b], at) || NothingNew(s.contents, where + {b}, at, x)
  {
    var b, at := s.refs[v].base, s.refs[v].indices[i] - 1;
    var t, u := PokeAll(s.contents, where, at, x), PokeAll(s.contents, {b}, at, x);
    if t == u && where != {b} {
      forall k | k in where + {b} ensures Poked(s.contents[k], at, x) == s.contents[k] {
        if k == b && b in where {
          var l :| l in where && l != b;
          assert t[l] == u[l] && s.contents[l] == s.contents[b];
        } else {
          assert t[k] == u[k];
        }
      }
    }
  }

  ghost predicate NothingNew(s: seq<Content>, where: set<nat>, at: nat, x: Cell) {
    forall k :: k in where ==> k < |s| && Poked(s[k], at, x) == s[k]
  }

  lemma {:induction false} LandsAsMeant(s: State, op: Op, where: set<nat>)
    requires Lands(s, op, where) && !Slips(s, op)
    ensures where == Meant(s, op)
  {
  }

  /** In a calm run every assignment lands where it is meant to. */
  lemma {:induction false} CalmIsIdeal(ops: seq<Op>, wheres: seq<set<nat>>)
    requires |wheres| <= |ops| && AllLand(ops, wheres) && Calm(ops)
    ensures Replay(ops, wheres) == Ideal(ops[..|wheres|])
    decreases |wheres|
  {
    hide After, Lands, Meant, Slips;
    var n := |wheres| - 1;
    if n >= 0 {
      assert forall m :: 0 <= m < n ==> wheres[..n][..m] == wheres[..m];
      CalmIsIdeal(ops, wheres[..n]);
      assert ops[..n + 1][..n] == ops[..n];
      assert !Slips(Ideal(ops[..n]), ops[n]) && Lands(Ideal(ops[..n]), ops[n], wheres[n]);
      LandsAsMeant(Ideal(ops[..n]), ops[n], wheres[n]);
    }
  }

  ghost function BlocksOf(ks: seq<Kernel>): (bs: set<Block>)
    reads ks
    ensures forall k :: k in ks && k.block != null ==> k.block in bs
  {
    set k | k in ks && k.block != null :: k.block
  }

  ghost predicate TiedOne(ks: seq<Kernel>, r: SubVector, ref: Ref, blocks: set<Block>)
    reads r, r.base, r.base.block
  {
    && ref.base < |ks| && r.base == ks[ref.base] && r.indices == ref.indices
    && (r.cached.Some? ==> r.cached.value.block in blocks && ref.mark != Unused)
    && (ref.mark == Steady ==> r.Firm())
  }

  /** The references are as the state says. */
  ghost predicate Tied(ks: seq<Kernel>, rs: seq<SubVector>, refs: seq<Ref>, blocks: set<Block>)
    reads rs, set r | r in rs :: r.base, set r | r in rs && r.base.block != null :: r.base.block
  {
    && |rs| == |refs| && (forall u, v :: 0 <= u < v < |rs| ==> rs[u] != rs[v])
    && forall v :: 0 <= v < |rs| ==> TiedOne(ks, rs[v], refs[v], blocks)
  }

  method KernelStep(ks: seq<Kernel>, op: Kernels.Op, ghost rs: seq<SubVector>, ghost refs: seq<Ref>,
                    ghost blocks: set<Block>)
    returns (r: seq<Kernel>)
    requires Good(ks) && Within(ks, blocks) && Tied(ks, rs, refs, blocks) && !op.Destroy?
    modifies ks, blocks
    ensures Good(r) && View(r) == PrivateStep(old(View(ks)), op)
    ensures forall k :: k in r ==> (k in ks || fresh(k)) && (k.block == null || k.block in blocks || fresh(k.block))
    ensures Tied(r, rs, Loosened(refs, op), blocks + BlocksOf(r))
  {
    hide Good, View, PrivateStep, Touches;
    r := Step(ks, op, blocks);
  }

  /** The kernels that a kept pointer reaches. */
  function Reached(ks: seq<Kernel>, p: Kept): (where: set<nat>)
    reads ks, p.block
    ensures forall k :: k in where <==>
              0 <= k < |ks| && ks[k].block == p.block && !p.block.freed && p.block.moves == p.moves
  {
    set k: nat | k < |ks| && ks[k].block == p.block && !p.block.freed && p.block.moves == p.moves
  }

  /** Kernels that read as `s` read as `t` after a store meant for `j`. */
  ghost predicate Landed(o: Outcome, s: seq<Content>, t: seq<Content>, where: set<nat>, j: nat, at: nat, x: Cell) {
    && j < |s| && t == (if o == Done then PokeAll(s, where, at, x) else s)
    && (o == Dropped <==> TooShort(s[j], at))
  }

  lemma {:induction false} SpreadNumbered(ks: seq<Kernel>, b: Block, s: seq<Content>, before: map<Kernel, Content>,
                                          where: set<nat>, at: nat, x: Cell)
    requires Good(ks) && Numbered(ks, s, before) && Spread(All(ks), b, before, at, x)
    requires forall k :: 0 <= k < |ks| ==> (k in where <==> ks[k].block == b)
    ensures View(ks) == PokeAll(s, where, at, x)
  {
    assert forall k :: 0 <= k < |ks| ==> ks[k] in All(ks);
  }

  lemma {:induction false} SameNumbered(ks: seq<Kernel>, s: seq<Content>, before: map<Kernel, Content>)
    requires Good(ks) && Numbered(ks, s, before) && Same(All(ks), before)
    ensures View(ks) == s
  {
    assert forall k :: 0 <= k < |ks| ==> ks[k] in All(ks);
  }

  /** A pointer that is firm, and no other, reaches the base alone. */
  lemma {:induction false} FirmReached(ks: seq<Kernel>, j: nat, r: SubVector)
    requires Good(ks) && j < |ks| && r.base == ks[j] && r.base.block != null && r.cached.Some?
    ensures r.Firm() <==> Reached(ks, r.cached.value) == {j}
  {
    if r.Firm() {
      forall k | 0 <= k < |ks| && k != j ensures ks[k].block != ks[j].block {
        SoleApart(ks, k, j);
      }
    }
    if Reached(ks, r.cached.value) == {j} {
      assert j in Reached(ks, r.cached.value);
      forall h | h in r.base.block.holders ensures h == r.base {
        assert h in All(ks) && r.base in All(ks);
        var k :| 0 <= k < |ks| && ks[k] == h;
        assert k in Reached(ks, r.cached.value);
      }
      assert r.base in All(ks);
    }
  }

  lemma {:induction false} EffectNumbered(ks: seq<Kernel>, p: Kept, o: Outcome, s: seq<Content>,
                                          before: map<Kernel, Content>, where: set<nat>, j: nat, at: nat, x: Cell)
    requires Good(ks) && j < |ks| && Numbered(ks, s, before) && Effect(o, All(ks), ks[j], p, before, at, x)
    requires where == Reached(ks, p)
    ensures Landed(o, s, View(ks), where, j, at, x)
  {
    hide Good, Same, Spread;
    if o == Done {
      SpreadNumbered(ks, p.block, s, before, where, at, x);
    } else {
      SameNumbered(ks, s, before);
    }
  }

  ghost function BlocksAt(ks: seq<Kernel>): (bs: seq<Block?>)
    reads ks
    ensures |bs| == |ks| && forall k :: 0 <= k < |ks| ==> bs[k] == ks[k].block
  {
    seq(|ks|, k requires 0 <= k < |ks| reads ks => ks[k].block)
  }

  /** Kernels with the same block read alike. */
  ghost predicate AlikeByBlock(s: seq<Content>, bs: seq<Block?>) {
    |s| == |bs| && forall k, l :: 0 <= k < |s| && 0 <= l < |s| && bs[k] == bs[l] ==> s[k] == s[l]
  }

  lemma {:induction false} ReadAlike(ks: seq<Kernel>)
    requires Good(ks)
    ensures AlikeByBlock(View(ks), BlocksAt(ks))
  {
  }

  lemma {:induction false} ReachedAlike(ks: seq<Kernel>, p: Kept, s: seq<Content>, bs: seq<Block?>, j: nat)
    requires |s| == |ks| && j < |ks| && AlikeByBlock(s, bs)
    requires Reached(ks, p) == {j} || BlocksAt(ks) == bs
    ensures Alike(s, Reached(ks, p))
  {
  }

  method StoreGood(ks: seq<Kernel>, r: SubVector, ghost j: nat, i: nat, ghost at: nat, x: Cell) returns (o: Outcome)
    requires Good(ks) && j < |ks| && r.base == ks[j] && r.base.isArray && i < |r.indices| && r.indices[i] == at + 1
    modifies r`cached, r.base`block, r.base.block, (if r.cached.Some? then {r.cached.value.block} else {})`values
    ensures Good(ks) && r.cached.Some? && r.base.block != null
    ensures r.base.block == old(r.base.block) || fresh(r.base.block)
    ensures r.cached == old(r.cached) || r.cached.value.block == r.base.block
    ensures (old(r.Sharp()) <==> r.Firm()) && (r.Firm() ==> o != Undefined)
    ensures r.Firm() || r.base.block == old(r.base.block)
    ensures old(r.base.Sole()) ==>
              r.base.Sole() && r.base.block == old(r.base.block) && r.base.block.moves == old(r.base.block.moves)
    ensures Effect(o, All(ks), r.base, r.cached.value, old(Reading(All(ks))), at, x)
  {
    hide Effect, Good, Reading, All, SubVector.Sharp, SubVector.Firm;
    GoodParts(ks);
    ghost var all := All(ks);
    o := r.Store(i, x, all);
    GoodAgain(ks);
  }

  method StoreOn(ks: seq<Kernel>, r: SubVector, ghost j: nat, i: nat, ghost at: nat, x: Cell) returns (o: Outcome)
    requires Good(ks) && j < |ks| && r.base == ks[j] && r.base.isArray && i < |r.indices| && r.indices[i] == at + 1
    modifies r`cached, r.base`block, r.base.block, (if r.cached.Some? then {r.cached.value.block} else {})`values
    ensures Good(ks) && r.cached.Some? && r.base.block != null
    ensures r.base.block == old(r.base.block) || fresh(r.base.block)
    ensures r.cached == old(r.cached) || r.cached.value.block == r.base.block
    ensures (old(r.Sharp()) <==> r.Firm()) && (r.Firm() ==> o != Undefined)
    ensures r.Firm() || r.base.block == old(r.base.block)
    ensures old(r.base.Sole()) ==>
              r.base.Sole() && r.base.block == old(r.base.block) && r.base.block.moves == old(r.base.block.moves)
    ensures Landed(o, old(View(ks)), View(ks), Reached(ks, r.cached.value), j, at, x)
  {
    hide Effect, Good, View, Reading, Numbered, Landed, All, SubVector.Sharp, SubVector.Firm;
    GoodParts(ks);
    ghost var before, was := Reading(All(ks)), View(ks);
    ReadingNumbered(ks);
    o := StoreGood(ks, r, j, i, at, x);
    EffectNumbered(ks, r.cached.value, o, was, before, Reached(ks, r.cached.value), j, at, x);
  }

  /** What a store that reaches `where` leaves. */
  ghost predicate Told(o: Outcome, s: seq<Content>, t: seq<Content>, where: set<nat>, j: nat, at: nat, x: Cell) {
    Alike(s, where) && Landed(o, s, t, where, j, at, x)
  }

  /** The same, with what it leaves of the other kernels. */
  method StoreSteady(ks: seq<Kernel>, r: SubVector, ghost j: nat, i: nat, ghost at: nat, x: Cell)
    returns (o: Outcome, where: set<nat>)
    requires Good(ks) && j < |ks| && r.base == ks[j] && r.base.isArray && i < |r.indices| && r.indices[i] == at + 1
    modifies r`cached, r.base`block, r.base.block, (if r.cached.Some? then {r.cached.value.block} else {})`values
    ensures Good(ks) && r.cached.Some? && r.base.block != null
    ensures r.base.block == old(r.base.block) || fresh(r.base.block)
    ensures r.cached == old(r.cached) || r.cached.value.block == r.base.block
    ensures (old(r.Sharp()) <==> r.Firm()) && (r.Firm() <==> where == {j}) && (r.Firm() ==> o != Undefined)
    ensures Told(o, old(View(ks)), View(ks), where, j, at, x)
    ensures forall k :: 0 <= k < |ks| && old(ks[k].Sole()) ==>
              ks[k].Sole() && ks[k].block == old(ks[k].block) && ks[k].block.moves == old(ks[k].block.moves)
  {
    hide Good, View, Landed, Alike, AlikeByBlock, SubVector.Sharp, SubVector.Firm;
    ghost var was, bs := View(ks), BlocksAt(ks);
    ReadAlike(ks);
    SolesApart(ks);
    o := StoreOn(ks, r, j, i, at, x);
    where := Reached(ks, r.cached.value);
    FirmReached(ks, j, r);
    ReachedAlike(ks, r.cached.value, was, bs, j);
  }

  lemma {:induction false} OkAt(ks: seq<Kernel>, j: nat)
    requires Good(ks) && j < |ks|
    ensures ks[j].Ok() && ks[j].Contents() == View(ks)[j]
  {
  }

  lemma {:induction false} TiedSharp(ks: seq<Kernel>, r: SubVector, ref: Ref, blocks: set<Block>)
    requires TiedOne(ks, r, ref, blocks) && r.base.block != null && ref.mark != Loose
    requires r.base.block.Live()
    ensures r.Sharp()
  {
  }

  ghost function Marked(refs: seq<Ref>, v: nat, steady: bool): seq<Ref>
    requires v < |refs|
  {
    refs[v := refs[v].(mark := if steady then Steady else Loose)]
  }

  lemma {:induction false} LandsInState(o: Outcome, s: State, v: nat, i: nat, x: Cell, where: set<nat>, t: seq<Content>)
    requires Stores(s, v, i)
    requires s.refs[v].mark != Loose ==> where == {s.refs[v].base}
    requires Told(o, s.contents, t, where, s.refs[v].base, s.refs[v].indices[i] - 1, x)
    ensures Lands(s, Op.Assign(v, i, x), where) && (o == Undefined ==> t == s.contents)
    ensures o != Undefined ==> Assigned(s, v, i, x, where) == State(t, Marked(s.refs, v, where == {s.refs[v].base}))
  {
  }

  /** The same, with what it leaves of the other references. */
  method StoreTied(ks: seq<Kernel>, rs: seq<SubVector>, ghost refs: seq<Ref>, v: nat, i: nat, ghost at: nat, x: Cell,
                   ghost blocks: set<Block>) returns (o: Outcome, where: set<nat>)
    requires Good(ks) && Within(ks, blocks) && Tied(ks, rs, refs, blocks) && v < |refs|
    requires ks[refs[v].base].isArray && i < |refs[v].indices| && refs[v].indices[i] == at + 1
    modifies ks, blocks, rs
    ensures Good(ks)
    ensures forall k :: k in ks ==> k.block == null || k.block in blocks || fresh(k.block)
    ensures refs[v].mark != Loose ==> where == {refs[v].base}
    ensures old(rs[v].Reaches()) <==> where == {refs[v].base}
    ensures o == Undefined ==> where != {refs[v].base}
    ensures Told(o, old(View(ks)), View(ks), where, refs[v].base, at, x)
    ensures Tied(ks, rs, Marked(refs, v, where == {refs[v].base}), blocks + BlocksOf(ks))
  {
    hide Good, View, Told, SubVector.Sharp, Reached, Alike, Landed;
    ghost var j := refs[v].base;
    assert TiedOne(ks, rs[v], refs[v], blocks);
    OkAt(ks, j);
    if refs[v].mark != Loose { TiedSharp(ks, rs[v], refs[v], blocks); }
    o, where := StoreSteady(ks, rs[v], j, i, at, x);
    ghost var wider := blocks + BlocksOf(ks);
    forall u | 0 <= u < |rs| && u != v ensures TiedOne(ks, rs[u], refs[u], wider) {
      assert rs[u] != rs[v];
    }
  }

  method StoreStep(ks: seq<Kernel>, rs: seq<SubVector>, ghost s: State, v: nat, i: nat, x: Cell,
                   ghost blocks: set<Block>)
    returns (o: Outcome, where: set<nat>, ghost t: State)
    requires Good(ks) && Within(ks, blocks) && Tied(ks, rs, s.refs, blocks) && View(ks) == s.contents && Stores(s, v, i)
    modifies ks, blocks, rs
    ensures Good(ks) && View(ks) == t.contents && Tied(ks, rs, t.refs, blocks + BlocksOf(ks))
    ensures forall k :: k in ks ==> k.block == null || k.block in blocks || fresh(k.block)
    ensures old(rs[v].Reaches()) <==> where == {s.refs[v].base}
    ensures if o == Undefined then s.refs[v].mark == Loose && t.contents == s.contents
            else Lands(s, Op.Assign(v, i, x), where) && t == Assigned(s, v, i, x, where)
  {
    hide Good, View, Told, Lands, Assigned, Tied, TiedOne, Marked, BlocksOf;
    ghost var j, at := s.refs[v].base, s.refs[v].indices[i] - 1;
    OkAt(ks, j);
    o, where := StoreTied(ks, rs, s.refs, v, i, at, x, blocks);
    t := State(View(ks), Marked(s.refs, v, where == {j}));
    LandsInState(o, s, v, i, x, where, t.contents);
  }

  /** Kernels and references are as the state says. */
  ghost predicate Realises(ks: seq<Kernel>, rs: seq<SubVector>, s: State, blocks: set<Block>)
    reads ks, rs, set k | k in All(ks) && k.block != null :: k.block
    reads set r | r in rs :: r.base, set r | r in rs && r.base.block != null :: r.base.block
  {
    Good(ks) && View(ks) == s.contents && Within(ks, blocks) && Tied(ks, rs, s.refs, blocks)
  }

  /** `r[i] := x` in any heap that a run leads to. The store is right exactly when, before it, the
      reference keeps no pointer or one to storage that its base has to itself, or the base is
      too short for it, or nothing is new wherever it lands. */
  method AssignThrough(ks: seq<Kernel>, rs: seq<SubVector>, ghost s: State, v: nat, i: nat, x: Cell,
                       ghost blocks: set<Block>)
    returns (o: Outcome, where: set<nat>, ghost t: State)
    requires Realises(ks, rs, s, blocks) && Stores(s, v, i)
    modifies ks, blocks, rs
    ensures Realises(ks, rs, t, blocks + BlocksOf(ks))
    ensures forall k :: k in ks ==> k.block == null || k.block in blocks || fresh(k.block)
    ensures old(v < |rs| && rs[v].Reaches()) <==> where == {s.refs[v].base}
    ensures if o == Undefined then s.refs[v].mark == Loose && t.contents == s.contents
            else Lands(s, Op.Assign(v, i, x), where) && t == Assigned(s, v, i, x, where)
    ensures o != Undefined ==>
              var b, at := s.refs[v].base, s.refs[v].indices[i] - 1;
              View(ks) == Assigned(s, v, i, x, {b}).contents <==>
                || old(v < |rs| && rs[v].Reaches()) || TooShort(s.contents[b], at)
                || NothingNew(s.contents, where + {b}, at, x)
  {
    hide Good, View, Within, Lands, Assigned, TooShort, NothingNew, SubVector.Reaches;
    o, where, t := StoreStep(ks, rs, s, v, i, x, blocks);
    if o != Undefined { StoreExact(s, v, i, x, where); }
    WithinMore(ks, blocks);
  }

  lemma {:induction false} WithinMore(ks: seq<Kernel>, blocks: set<Block>)
    ensures Within(ks, blocks + BlocksOf(ks))
  {
  }

  method ReferStep(ks: seq<Kernel>, rs: seq<SubVector>, ghost s: State, base: nat, indices: seq<nat>,
                   ghost blocks: set<Block>)
    returns (r: seq<SubVector>)
    requires Realises(ks, rs, s, blocks) && base < |ks|
    ensures Realises(ks, r, s.(refs := s.refs + [Ref(base, indices, Unused)]), blocks)
    ensures forall v :: v in r ==> v in rs || fresh(v)
  {
    hide Counted;
    var v := new SubVector(ks[base], indices);
    r := rs + [v];
    assert forall u :: 0 <= u < |rs| ==> r[u] == rs[u] && rs[u] in rs;
    forall u | 0 <= u < |rs| ensures TiedOne(ks, rs[u], s.refs[u], blocks) {
    }
  }

  lemma {:induction false} CanRefer(ks: seq<Kernel>, rs: seq<SubVector>, s: State, base: nat, indices: seq<nat>,
                                    blocks: set<Block>)
    requires Realises(ks, rs, s, blocks)
    ensures Refers(s, base, indices) <==>
            base < |ks| && ks[base].block != null && forall i :: 0 <= i < |indices| ==> indices[i] >= 1
  {
    hide Within, Tied;
    if base < |ks| { OkAt(ks, base); }
  }

  lemma {:induction false} CanStore(ks: seq<Kernel>, rs: seq<SubVector>, s: State, v: nat, i: nat, blocks: set<Block>)
    requires Realises(ks, rs, s, blocks)
    ensures Stores(s, v, i) <==>
            && v < |rs| && i < |rs[v].indices| && rs[v].base.block != null
            && forall n :: 0 <= n < |rs[v].indices| ==> rs[v].indices[n] >= 1
  {
    assert |rs| == |s.refs|;
    if v < |rs| {
      assert TiedOne(ks, rs[v], s.refs[v], blocks);
      CanRefer(ks, rs, s, s.refs[v].base, s.refs[v].indices, blocks);
    }
  }

  /** One operation on kernels and references; not `ok` when it stores through a pointer to
      storage that is gone, which takes a loose reference. */
  method PerformOp(ks: seq<Kernel>, rs: seq<SubVector>, ghost s: State, op: Op, ghost blocks: set<Block>)
    returns (ks': seq<Kernel>, rs': seq<SubVector>, ok: bool, where: set<nat>, ghost t: State)
    requires Realises(ks, rs, s, blocks)
    modifies ks, blocks, rs
    ensures Realises(ks', rs', t, blocks + BlocksOf(ks'))
    ensures forall k :: k in ks' ==> (k in ks || fresh(k)) && (k.block == null || k.block in blocks || fresh(k.block))
    ensures forall r :: r in rs' ==> r in rs || fresh(r)
    ensures if ok then Lands(s, op, where) && t == After(s, op, where) else Slips(s, op) && t.contents == s.contents
  {
    ks', rs', ok, where, t := ks, rs, true, {}, s;
    match op
    case OnKernels(k) =>
      if !k.Destroy? {
        ks' := KernelStep(ks, k, rs, s.refs, blocks);
        t := After(s, op, {});
      }
    case Refer(base, indices) =>
      CanRefer(ks, rs, s, base, indices, blocks);
      if base < |ks| && ks[base].block != null && forall i :: 0 <= i < |indices| ==> indices[i] >= 1 {
        rs' := ReferStep(ks, rs, s, base, indices, blocks);
        t := After(s, op, {});
      }
    case Assign(v, i, x) =>
      CanStore(ks, rs, s, v, i, blocks);
      if v < |rs| && i < |rs[v].indices| && rs[v].base.block != null
         && forall n :: 0 <= n < |rs[v].indices| ==> rs[v].indices[n] >= 1 {
        var o;
        o, where, t := AssignThrough(ks, rs, s, v, i, x, blocks);
        ok := o != Undefined;
      }
  }

  lemma {:induction false} Start(ops: seq<Op>)
    ensures Realises([], [], State([], []), {}) && AllLand(ops, []) && Replay(ops, []) == State([], [])
  {
  }

  lemma {:induction false} ReplayMore(ops: seq<Op>, wheres: seq<set<nat>>, where: set<nat>)
    requires |wheres| < |ops| && AllLand(ops, wheres) && Lands(Replay(ops, wheres), ops[|wheres|], where)
    ensures AllLand(ops, wheres + [where])
    ensures Replay(ops, wheres + [where]) == After(Replay(ops, wheres), ops[|wheres|], where)
  {
    var more := wheres + [where];
    assert forall n :: 0 <= n <= |wheres| ==> more[..n] == wheres[..n];
    assert wheres[..|wheres|] == wheres;
  }

  lemma {:induction false} CalmGoesOn(ops: seq<Op>, wheres: seq<set<nat>>)
    requires |wheres| <= |ops| && AllLand(ops, wheres) && Calm(ops)
    requires |wheres| < |ops| ==> Slips(Replay(ops, wheres), ops[|wheres|])
    ensures |wheres| == |ops| && Replay(ops, wheres) == Ideal(ops)
  {
    hide AllLand, Slips, Ideal, Replay;
    CalmIsIdeal(ops, wheres);
    assert ops[..|ops|] == ops;
  }

  /** Any run of operations on kernels and of assignments through references to them. Each
      assignment reaches the kernels told in `wheres`: its base alone when the reference is used
      for the first time, or again with nothing done to the base that shares, replaces or
      resizes its storage. A run without other uses reads as if every assignment changed its
      base; any other run goes on up to a store to storage that is gone. */
  method RunViews(ops: seq<Op>) returns (out: seq<Content>, wheres: seq<set<nat>>)
    ensures |wheres| <= |ops| && AllLand(ops, wheres) && out == Replay(ops, wheres).contents
    ensures |wheres| < |ops| ==> Slips(Replay(ops, wheres), ops[|wheres|])
    ensures Calm(ops) ==> |wheres| == |ops| && out == Ideal(ops).contents
  {
    var ks: seq<Kernel>, rs: seq<SubVector> := [], [];
    ghost var blocks: set<Block>, s := {}, State([], []);
    wheres := [];
    var ok := true;
    hide Realises, After, Lands, Slips, Replay, AllLand, Calm, Ideal;
    Start(ops);
    while ok && |wheres| < |ops|
      invariant |wheres| <= |ops| && AllLand(ops, wheres)
      invariant Realises(ks, rs, s, blocks) && s.contents == Replay(ops, wheres).contents
      invariant ok ==> s == Replay(ops, wheres)
      invariant !ok ==> |wheres| < |ops| && Slips(Replay(ops, wheres), ops[|wheres|])
      invariant (forall k :: k in ks ==> fresh(k)) && forall r :: r in rs ==> fresh(r)
      invariant forall b :: b in blocks ==> fresh(b)
      decreases ok, |ops| - |wheres|
    {
      assert (forall k :: 0 <= k < |ks| ==> ks[k] in ks) && forall v :: 0 <= v < |rs| ==> rs[v] in rs;
      var where;
      ks, rs, ok, where, s := PerformOp(ks, rs, s, ops[|wheres|], blocks);
      blocks := blocks + BlocksOf(ks);
      if ok {
        ReplayMore(ops, wheres, where);
        wheres := wheres + [where];
      }
    }
    out := ReadState(ks, rs, s, blocks);
    if Calm(ops) { CalmGoesOn(ops, wheres); }
  }

  method ReadState(ks: seq<Kernel>, ghost rs: seq<SubVector>, ghost s: State, ghost blocks: set<Block>)
    returns (out: seq<Content>)
    requires Realises(ks, rs, s, blocks)
    ensures out == s.contents
  {
    out := ReadAll(ks);
  }

  /** `z := x` and `x[n] := a`: the pointer that a reference to `x` keeps is then to the storage
      of `z`. */
  method ShareThenWrite(r: SubVector, z: Kernel, n: nat, a: Cell, ghost all: set<Kernel>)
    requires Counted(all) && r.base in all && z in all && z != r.base && r.base.Ok() && z.Ok() && r.Firm() && r.Keeps()
    modifies z, z.block, r.base`block, r.base.block
    ensures Counted(all) && r.base.Ok() && r.base.isArray && z.Ok() && r.Keeps()
    ensures r.base.block != r.cached.value.block == z.block
    ensures r.cached.value.moves == z.block.moves && fresh(r.base.block)
    ensures r.base.Contents() == Poked(old(r.base.Contents()), n, a) && z.Contents() == old(r.base.Contents())
  {
    z.Assign(r.base, all);
    r.base.Write(n, a, all);
  }

  /** A store through a pointer to the storage of another kernel. */
  lemma {:induction false} Astray(o: Outcome, all: set<Kernel>, base: Kernel, z: Kernel, p: Kept,
                                  before: map<Kernel, Content>, at: nat, x: Cell)
    requires Counted(all) && base in all && z in all && Effect(o, all, base, p, before, at, x)
    requires z.block == p.block && p.moves == p.block.moves && base.block != p.block
    requires base in before && z in before && !TooShort(before[base], at) && !TooShort(before[z], at)
    ensures base.Contents() == before[base] && z.Contents() == Poked(before[z], at, x)
  {
  }

  method StoreAstray(r: SubVector, z: Kernel, i: nat, x: Cell, ghost all: set<Kernel>)
    requires Counted(all) && r.base in all && z in all && r.base.Ok() && r.base.isArray && z.Ok() && r.Keeps()
    requires r.base.block != r.cached.value.block == z.block && r.cached.value.moves == z.block.moves
    requires i < |r.indices| && r.indices[i] >= 1
    requires r.indices[i] <= |r.base.Contents().data| && r.indices[i] <= |z.Contents().data|
    modifies r`cached, r.base`block, r.base.block, z.block
    ensures Counted(all) && r.base.Ok() && z.Ok()
    ensures r.base.Contents() == old(r.base.Contents()) && z.Contents() == Poked(old(z.Contents()), r.indices[i] - 1, x)
  {
    hide Effect;
    ghost var before := Reading(all);
    var o := r.Store(i, x, all);
    Astray(o, all, r.base, z, r.cached.value, before, r.indices[i] - 1, x);
  }

  /** The first store through a reference reaches its base. */
  lemma {:induction false} Aimed(o: Outcome, all: set<Kernel>, base: Kernel, p: Kept, before: map<Kernel, Content>,
                                 at: nat, x: Cell)
    requires Counted(all) && base in all && Effect(o, all, base, p, before, at, x)
    requires base.block == p.block && p.moves == p.block.moves
    requires base in before && !TooShort(before[base], at)
    ensures base.Contents() == Poked(before[base], at, x)
  {
  }

  method StoreFirst(r: SubVector, i: nat, x: Cell, ghost all: set<Kernel>)
    requires Counted(all) && r.base in all && r.base.Ok() && r.base.isArray && r.cached == None
    requires i < |r.indices| && 1 <= r.indices[i] <= |r.base.Contents().data|
    modifies r`cached, r.base`block, r.base.block
    ensures Counted(all) && r.base.Ok() && r.base.isArray && r.Firm() && r.Keeps()
    ensures r.base.block == old(r.base.block) || fresh(r.base.block)
    ensures r.base.Contents() == Poked(old(r.base.Contents()), r.indices[i] - 1, x)
  {
    hide Effect;
    ghost var before := Reading(all);
    var o := r.Store(i, x, all);
    Aimed(o, all, r.base, r.cached.value, before, r.indices[i] - 1, x);
  }

  /** A reference in use, another value for the storage of its base, and a write to the base:
      whatever is then stored through the reference goes to that other value. */
  method StaleStore(r: SubVector, z: Kernel, n: nat, a: Cell, i: nat, x: Cell, ghost all: set<Kernel>)
    requires Counted(all) && r.base in all && z in all && z != r.base && r.base.Ok() && z.Ok() && r.Firm() && r.Keeps()
    requires i < |r.indices| && 1 <= r.indices[i] <= |r.base.Contents().data|
    modifies r`cached, z, z.block, r.base`block, r.base.block
    ensures Counted(all) && r.base.Ok() && z.Ok()
    ensures r.base.Contents() == Poked(old(r.base.Contents()), n, a)
    ensures z.Contents() == Poked(old(r.base.Contents()), r.indices[i] - 1, x)
  {
    hide Counted;
    ShareThenWrite(r, z, n, a, all);
    StoreAstray(r, z, i, x, all);
  }

  /** `x := [1, 2, 3]; r := ref x[1:2]; r[1] := 10; z := x; x[1] := 5; r[1] := 20` leaves `x`
      without the last store, which `z` has. */
  method StaleExample() returns (x: Content, z: Content)
    ensures x == Elements(INT, [5, 2, 3]) && z == Elements(INT, [20, 2, 3])
  {
    hide Counted;
    var kx, kz, r := OneReference(INT, [1, 2, 3], [1, 2]);
    ghost var all := {kx, kz};
    StoreFirst(r, 0, 10, all);
    StaleStore(r, kz, 0, 5, 0, 20, all);
    return kx.Contents(), kz.Contents();
  }

  method OneReference(kind: Kind, vec: seq<Cell>, indices: seq<nat>) returns (x: Kernel, z: Kernel, r: SubVector)
    ensures fresh(x) && fresh(z) && fresh(r) && x != z && r.base == x && r.indices == indices && r.cached == None
    ensures Counted({x, z}) && x.Ok() && z.Ok() && x.isArray && fresh(x.block) && z.block == null
    ensures x.Contents() == Elements(kind, vec)
  {
    x := new Kernel();
    z := new Kernel();
    x.SetArray(kind, vec, true, {x, z});
    r := new SubVector(x, indices);
  }
}
