/** Value kernels: arrays shared between values until one of them is written. */
module Kernels {
  import opened Common

  datatype Kind = ERROR | BOOL | INT | Other(code: nat)

  /** One element's storage; zeroed storage holds 0. */
  type Cell = int

  /** What a kernel reads as. */
  datatype Content = Nothing | Elements(kind: Kind, data: seq<Cell>)

  /** `n` cells beginning with `data`, cut or padded with zeros. */
  function Resized(data: seq<Cell>, n: nat): (r: seq<Cell>)
    ensures |r| == n && forall i :: 0 <= i < n ==> r[i] == if i < |data| then data[i] else 0
  {
    if n <= |data| then data[..n] else data + Repeat<Cell>(0, n - |data|)
  }

  /** Storage whose contents are not determined. */
  method Allocate(n: nat) returns (cells: seq<Cell>)
    ensures |cells| == n
  {
    var a := new Cell[n];
    cells := a[..];
  }

  class Block {
    var kind: Kind
    var length: nat
    var refCount: nat
    var values: seq<Cell>
    var moves: nat
    var freed: bool
    ghost var holders: set<Kernel>

    constructor (ghost k: Kernel)
      ensures kind == ERROR && length == 0 && refCount == 1 && values == [] && holders == {k} && !freed && moves == 0
    {
      kind, length, refCount, values, moves, freed, holders := ERROR, 0, 1, [], 0, false, {k};
    }

    ghost predicate Live()
      reads this
    {
      !freed && refCount == |holders| > 0 && length <= |values|
    }

    function Data(): seq<Cell>
      requires length <= |values|
      reads this
    {
      values[..length]
    }

    /** Storage is kept when shrinking, reused when it suffices and extended otherwise, which
        may move it; new elements are zeroed on request. */
    method Grow(len: nat, zero: bool)
      requires Live()
      modifies this`length, this`values, this`moves
      ensures Live() && length == len && moves >= old(moves)
      ensures moves == old(moves) <==> len <= old(|values|) && (old(values) != [] || len < old(length))
      ensures zero ==> Data() == Resized(old(Data()), len)
      ensures forall i :: 0 <= i < len && i < old(length) ==> Data()[i] == old(Data())[i]
    {
      var alen := if len > 0 then len else 1;
      if len > 0 && len == length { return; }
      if len >= length {
        if values == [] {
          values := Allocate(alen);
          moves := moves + 1;
        } else if len > |values| {
          var more := Allocate(len - |values|);
          values := values + more;
          moves := moves + 1;
        }
        if zero || len == 0 {
          values := values[..length] + Repeat<Cell>(0, alen - length) + values[alen..];
        }
      }
      length := len;
    }

    method SetStorage(vec: seq<Cell>)
      requires Live()
      modifies this`length, this`values, this`moves
      ensures Live() && Data() == vec && moves > old(moves)
    {
      values, length, moves := vec, |vec|, moves + 1;
    }

    method Clear()
      modifies this`kind, this`length, this`refCount
      ensures kind == ERROR && length == 0 && refCount == 1
    {
      kind, length, refCount := ERROR, 0, 1;
    }

    /** Copies the elements in `vec` to the front of the storage. */
    method CopyIn(vec: seq<Cell>)
      requires Live() && |vec| <= length
      modifies this`values
      ensures Live() && Data() == vec + old(Data())[|vec|..]
    {
      values := vec + values[|vec|..];
    }

    /** Clears the elements from `from` on. */
    method ZeroFrom(from: nat)
      requires Live() && from <= length
      modifies this`values
      ensures Live() && Data() == old(Data())[..from] + Repeat<Cell>(0, length - from)
    {
      values := values[..from] + Repeat<Cell>(0, length - from) + values[length..];
    }
  }

  /** Every block held by a kernel of `all` is live, and its holders are the kernels of `all`
      that point to it. */
  ghost predicate Counted(all: set<Kernel>)
    reads all, set k | k in all && k.block != null :: k.block
  {
    forall k :: k in all && k.block != null ==>
      && k.block.Live() && k.block.holders <= all
      && forall h :: h in all ==> (h in k.block.holders <==> h.block == k.block)
  }

  class Kernel {
    var isArray: bool
    var block: Block?

    constructor ()
      ensures !isArray && block == null
    {
      isArray, block := false, null;
    }

    function Contents(): Content
      reads this, block
      requires block != null ==> block.length <= |block.values|
    {
      if block == null then Nothing else Elements(block.kind, block.Data())
    }

    ghost predicate Ok()
      reads this, block
    {
      (isArray <==> block != null) && (block != null ==> block.Live())
    }

    /** This kernel alone holds its block. */
    ghost predicate Sole()
      reads this, block
    {
      block != null && block.Live() && block.holders == {this}
    }

    /** Gives up this kernel's share. The block goes when nobody else holds it; without `del`
        the kernel is left with an empty block of its own. */
    method UnrefArray(del: bool, ghost all: set<Kernel>)
      requires this in all && Counted(all) && block != null
      modifies this`block, block
      ensures Counted(all) && (if del then block == null else Sole() && block.length == 0)
      ensures block == null || block == old(block) || fresh(block)
      ensures old(block.refCount) == 1 && del ==> old(block).freed
      ensures old(block.refCount) > 1 ==> var was := old(block);
                && was != block && was.Live() && was.kind == old(block.kind)
                && was.length == old(block.length) && was.values == old(block.values) && was.moves == old(block.moves)
      ensures OthersKeep(all, this, old(Reading(all)))
    {
      if block.refCount == 1 {
        UnrefLast(del, all);
      } else {
        UnrefShared(all);
        if !del { Supply(all, old(Reading(all))); }
      }
    }

    /** The last share: the block is freed, or emptied for reuse. */
    method UnrefLast(del: bool, ghost all: set<Kernel>)
      requires this in all && Counted(all) && block != null && block.refCount == 1
      modifies this`block, block
      ensures Counted(all) && block == if del then null else old(block)
      ensures if del then old(block).freed else Sole() && block.length == 0
      ensures OthersKeep(all, this, old(Reading(all)))
    {
      Singleton(block.holders, this);
      if del {
        block.refCount := 0;
        block.freed := true;
        block := null;
      } else {
        block.Clear();
      }
    }

    /** One share of several: the block stays as it is for the others. */
    method UnrefShared(ghost all: set<Kernel>)
      requires this in all && Counted(all) && block != null && block.refCount > 1
      modifies this`block, block`refCount, block`holders
      ensures Counted(all) && block == null && old(block).Live()
      ensures OthersKeep(all, this, old(Reading(all)))
    {
      block.refCount := block.refCount - 1;
      block.holders := block.holders - {this};
      block := null;
    }

    method Retype(kind: Kind, ghost all: set<Kernel>, ghost before: map<Kernel, Content>)
      requires this in all && Counted(all) && Sole() && OthersKeep(all, this, before)
      modifies block`kind
      ensures Counted(all) && Sole() && block.kind == kind && OthersKeep(all, this, before)
    {
      block.kind := kind;
    }

    /** Leaves the kernel with an empty block of its own. */
    method Reset(del: bool, ghost all: set<Kernel>)
      requires this in all && Counted(all) && Ok()
      modifies this, block
      ensures Counted(all) && isArray && Sole() && block.length == 0
      ensures block == old(block) || fresh(block)
      ensures OthersKeep(all, this, old(Reading(all)))
    {
      if isArray { UnrefArray(del, all); }
      isArray := true;
      if block == null { Supply(all, old(Reading(all))); }
    }

    method Supply(ghost all: set<Kernel>, ghost before: map<Kernel, Content>)
      requires this in all && Counted(all) && block == null && OthersKeep(all, this, before)
      modifies this`block
      ensures Counted(all) && Sole() && block.length == 0 && fresh(block) && OthersKeep(all, this, before)
    {
      block := new Block(this);
    }

    /** Fills a block of this kernel's own; no other kernel notices. */
    method Load(vec: seq<Cell>, copy: bool, ghost all: set<Kernel>, ghost before: map<Kernel, Content>)
      requires this in all && Counted(all) && Sole() && OthersKeep(all, this, before)
      modifies block`length, block`values, block`moves
      ensures Counted(all) && Sole() && block.Data() == vec && OthersKeep(all, this, before)
    {
      if copy {
        block.Grow(|vec|, false);
        block.CopyIn(vec);
      } else {
        block.SetStorage(vec);
      }
    }

    /** The same with zeros, in a block that is empty. */
    method Blank(len: nat, ghost all: set<Kernel>, ghost before: map<Kernel, Content>)
      requires this in all && Counted(all) && Sole() && block.length == 0 && OthersKeep(all, this, before)
      modifies block`length, block`values, block`moves
      ensures Counted(all) && Sole() && block.Data() == Repeat<Cell>(0, len) && OthersKeep(all, this, before)
    {
      block.Grow(len, true);
    }

    method SetType(kind: Kind, len: nat, ghost all: set<Kernel>)
      requires this in all && Counted(all) && Ok()
      modifies this, block
      ensures Counted(all) && Ok() && isArray
      ensures block == old(block) || fresh(block)
      ensures Contents() == Elements(kind, Repeat<Cell>(0, len)) && OthersKeep(all, this, old(Reading(all)))
    {
      hide Counted, OthersKeep, Reading;
      Reset(!isArray, all);
      Retype(kind, all, old(Reading(all)));
      Blank(len, all, old(Reading(all)));
    }

    /** Sets kind and elements; `copy` tells whether the caller keeps `vec` or hands it over. */
    method SetArray(kind: Kind, vec: seq<Cell>, copy: bool, ghost all: set<Kernel>)
      requires this in all && Counted(all) && Ok()
      modifies this, block
      ensures Counted(all) && Ok() && isArray
      ensures block == old(block) || fresh(block)
      ensures Contents() == Elements(kind, vec) && OthersKeep(all, this, old(Reading(all)))
    {
      hide Counted, OthersKeep, Reading;
      Reset(!(isArray && copy), all);
      Retype(kind, all, old(Reading(all)));
      Load(vec, copy, all, old(Reading(all)));
    }

    /** Assignment from another kernel shares its block. */
    method Assign(v: Kernel, ghost all: set<Kernel>)
      requires this in all && v in all && v != this && Counted(all)
      requires Ok() && v.Ok()
      modifies this, block, v.block
      ensures Counted(all) && Ok() && block == v.block == old(v.block)
      ensures block != null ==> block.moves == old(v.block.moves)
      ensures Contents() == old(v.Contents()) && OthersKeep(all, this, old(Reading(all)))
    {
      if isArray { UnrefArray(true, all); }
      isArray := v.isArray;
      Share(v.block, all);
    }

    /** One more kernel for the block. */
    method Share(b: Block?, ghost all: set<Kernel>)
      requires this in all && Counted(all) && block == null
      requires b != null ==> exists k :: k in all && k.block == b
      modifies this`block, b
      ensures Counted(all) && block == b && OthersKeep(all, this, old(Reading(all)))
      ensures b != null ==> b.kind == old(b.kind) && b.length == old(b.length) && b.values == old(b.values)
      ensures b != null ==> b.moves == old(b.moves)
    {
      block := b;
      if b != null {
        b.refCount := b.refCount + 1;
        b.holders := b.holders + {this};
      }
    }

    /** Makes the block this kernel's own, copying it when it is shared. */
    method ModArray(ghost all: set<Kernel>) returns (ok: bool)
      requires this in all && Counted(all) && Ok()
      modifies this`block, block
      ensures Counted(all) && Ok() && ok == isArray && (ok ==> Sole())
      ensures block == old(block) || fresh(block)
      ensures old(Sole()) ==> block == old(block)
      ensures old(block) != null ==> old(block).moves == old(block.moves)
      ensures Contents() == old(Contents()) && OthersKeep(all, this, old(Reading(all)))
    {
      if !isArray || block == null || block.refCount < 1 { return false; }
      if block.refCount == 1 {
        Singleton(block.holders, this);
        return true;
      }
      Unshare(block.length, block.length, all);
      return true;
    }

    /** Replaces a shared block by this kernel's own copy of its first `n` elements, with room
        for `len`. */
    method Unshare(len: nat, n: nat, ghost all: set<Kernel>)
      requires this in all && Counted(all) && block != null && block.refCount > 1 && n <= block.length && n <= len
      modifies this`block, block
      ensures Counted(all) && Sole() && fresh(block) && block.kind == old(block.kind) && block.length == len
      ensures old(block).moves == old(block.moves)
      ensures block.Data()[..n] == old(block.Data())[..n] && OthersKeep(all, this, old(Reading(all)))
    {
      hide Counted, OthersKeep, Reading;
      var k := block;
      UnrefArray(false, all);
      Fill(k.kind, len, k.values[..n], all, old(Reading(all)));
    }

    /** Kind, length and first elements for a block of this kernel's own. */
    method Fill(kind: Kind, len: nat, vec: seq<Cell>, ghost all: set<Kernel>, ghost before: map<Kernel, Content>)
      requires this in all && Counted(all) && Sole() && OthersKeep(all, this, before) && |vec| <= len
      modifies block`kind, block`length, block`values, block`moves
      ensures Counted(all) && Sole() && OthersKeep(all, this, before)
      ensures block.kind == kind && block.length == len && block.Data()[..|vec|] == vec
    {
      block.kind := kind;
      block.Grow(len, false);
      block.CopyIn(vec);
    }

    method Grow(len: nat, ghost all: set<Kernel>)
      requires this in all && Counted(all) && Ok()
      modifies this`block, block
      ensures Counted(all) && Ok()
      ensures block == old(block) || fresh(block)
      ensures Contents() == (var c := old(Contents()); if c.Nothing? then c else c.(data := Resized(c.data, len)))
      ensures OthersKeep(all, this, old(Reading(all)))
    {
      if !isArray || block == null || len == block.length || block.refCount < 1 { return; }
      if block.refCount == 1 {
        Singleton(block.holders, this);
        block.Grow(len, true);
      } else {
        var minlen := if len > block.length then block.length else len;
        Unshare(len, minlen, all);
        if len > minlen { block.ZeroFrom(minlen); }
      }
    }

    method BoolToInt(ghost all: set<Kernel>)
      requires this in all && Counted(all) && Ok()
      modifies this`block, block
      ensures Counted(all) && Ok()
      ensures block == old(block) || fresh(block)
      ensures old(Sole()) ==> Sole() && block == old(block)
      ensures old(block) != null ==> old(block).moves == old(block.moves)
      ensures Contents() == (var c := old(Contents()); if c.Elements? && c.kind == BOOL then c.(kind := INT) else c)
      ensures OthersKeep(all, this, old(Reading(all)))
    {
      if block == null || block.kind != BOOL { return; }
      hide Counted, OthersKeep, Reading;
      var _ := ModArray(all);
      Retype(INT, all, old(Reading(all)));
    }

    /** An element stored through the pointer that ModArray hands out. */
    method Write(i: nat, x: Cell, ghost all: set<Kernel>)
      requires this in all && Counted(all) && Ok()
      modifies this`block, block
      ensures Counted(all) && Ok()
      ensures block == old(block) || fresh(block)
      ensures old(Sole()) ==> Sole() && block == old(block)
      ensures isArray ==> Sole()
      ensures old(block) != null ==> old(block).moves == old(block.moves)
      ensures var c := old(Contents());
              Contents() == if c.Elements? && i < |c.data| then c.(data := c.data[i := x]) else c
      ensures OthersKeep(all, this, old(Reading(all)))
    {
      hide Counted, OthersKeep, Reading;
      var ok := ModArray(all);
      if ok && i < block.length { Put(i, x, all, old(Reading(all))); }
    }

    /** The destructor: what remains is counted without this kernel. */
    method Destroy(ghost all: set<Kernel>)
      requires this in all && Counted(all) && Ok()
      modifies this, block
      ensures Counted(all - {this}) && block == null
      ensures OthersKeep(all - {this}, this, old(Reading(all)))
    {
      if isArray { UnrefArray(true, all); }
    }

    /** Replaces the elements without asking who else holds the block: the other holders
        notice, unless there are none or nothing changes. */
    method Replace(vec: seq<Cell>, ghost all: set<Kernel>)
      requires this in all && Counted(all) && block != null
      modifies block`length, block`values, block`moves
      ensures Counted(all) && Contents() == Elements(old(block.kind), vec)
      ensures OthersKeep(all, this, old(Reading(all))) <==> block.refCount == 1 || vec == old(block.Data())
    {
      if block.refCount == 1 {
        Singleton(block.holders, this);
      } else {
        ghost var h := OtherMember(block.holders, this);
        assert h in all && h.block == block;
      }
      block.SetStorage(vec);
    }

    method Put(i: nat, x: Cell, ghost all: set<Kernel>, ghost before: map<Kernel, Content>)
      requires this in all && Counted(all) && Sole() && OthersKeep(all, this, before) && i < block.length
      modifies block`values
      ensures Counted(all) && Sole() && block.Data() == old(block.Data())[i := x] && OthersKeep(all, this, before)
    {
      block.values := block.values[i := x];
    }
  }

  /** A pointer to a block's storage, kept from an earlier ModArray, with the kind of elements it
      was taken for. */
  datatype Kept = Kept(kind: Kind, block: Block, moves: nat)

  /** The storage is where it was, and has this cell. */
  predicate Stands(p: Kept, i: nat)
    reads p.block
  {
    !p.block.freed && p.block.moves == p.moves && i < |p.block.values|
  }

  /** The content with one element stored. */
  function Poked(c: Content, i: nat, x: Cell): Content {
    if c.Elements? && i < |c.data| then c.(data := c.data[i := x]) else c
  }

  /** Every kernel reads as in `before`. */
  ghost predicate Same(all: set<Kernel>, before: map<Kernel, Content>)
    requires Counted(all)
    reads all, set k | k in all && k.block != null :: k.block
  {
    forall k :: k in all ==> k in before && k.Contents() == before[k]
  }

  /** Every kernel that holds the block has the element stored, and every other reads as before. */
  ghost predicate Spread(all: set<Kernel>, b: Block, before: map<Kernel, Content>, at: nat, x: Cell)
    requires Counted(all)
    reads all, set k | k in all && k.block != null :: k.block
  {
    forall k :: k in all ==> k in before && k.Contents() == if k.block == b then Poked(before[k], at, x) else before[k]
  }

  /** A store through a kept pointer: every kernel that holds the block notices, and no other. */
  method StoreKept(p: Kept, i: nat, x: Cell, ghost all: set<Kernel>, ghost before: map<Kernel, Content>)
    requires Counted(all) && Stands(p, i) && Same(all, before)
    modifies p.block`values
    ensures Counted(all) && |p.block.values| == old(|p.block.values|) && Spread(all, p.block, before, i, x)
  {
    p.block.values := p.block.values[i := x];
  }

  lemma {:induction false} Singleton<T>(s: set<T>, x: T)
    requires |s| == 1 && x in s
    ensures s == {x}
  {
    assert |s - {x}| == 0;
  }

  ghost function OtherMember<T>(s: set<T>, x: T): (y: T)
    requires |s| > 1 && x in s
    ensures y in s && y != x
  {
    assert |s - {x}| > 0;
    var y :| y in s - {x};
    y
  }

  ghost function Reading(all: set<Kernel>): map<Kernel, Content>
    requires Counted(all)
    reads all, set k | k in all && k.block != null :: k.block
  {
    map k | k in all :: k.Contents()
  }

  /** Every kernel but `k` reads as in `before`. */
  ghost predicate OthersKeep(all: set<Kernel>, k: Kernel, before: map<Kernel, Content>)
    requires Counted(all)
    reads all, set k | k in all && k.block != null :: k.block
  {
    forall h :: h in all && h != k ==> h in before && h.Contents() == before[h]
  }

  /** A block's count is the number of kernels that hold it. */
  lemma {:induction false} CountIsHolders(all: set<Kernel>, k: Kernel)
    requires Counted(all) && k in all && k.block != null
    ensures k.block.refCount == |set h | h in all && h.block == k.block| && !k.block.freed
  {
    assert k.block.holders == set h | h in all && h.block == k.block;
  }

  // ----- any number of kernels, any run -----

  datatype Op =
    | Make
    | Duplicate(i: nat)
    | Assign(i: nat, from: nat)
    | SetType(i: nat, kind: Kind, len: nat)
    | SetArray(i: nat, kind: Kind, vec: seq<Cell>, copy: bool)
    | Grow(i: nat, len: nat)
    | BoolToInt(i: nat)
    | Write(i: nat, at: nat, x: Cell)
    | Destroy(i: nat)

  /** The same operation on values that own their elements. */
  function Private(c: Content, op: Op): Content {
    match op
    case SetType(_, kind, len) => Elements(kind, Repeat<Cell>(0, len))
    case SetArray(_, kind, vec, _) => Elements(kind, vec)
    case Grow(_, len) => if c.Nothing? then c else c.(data := Resized(c.data, len))
    case BoolToInt(_) => if c.Elements? && c.kind == BOOL then c.(kind := INT) else c
    case Write(_, at, x) => if c.Elements? && at < |c.data| then c.(data := c.data[at := x]) else c
    case _ => c
  }

  /** Operations on kernels that do not exist, and self-assignment, are not performed. */
  function PrivateStep(s: seq<Content>, op: Op): seq<Content> {
    match op
    case Make => s + [Nothing]
    case Duplicate(i) => if i < |s| then s + [s[i]] else s
    case Assign(i, from) => if i < |s| && from < |s| && i != from then s[i := s[from]] else s
    case Destroy(i) => if i < |s| then Omit(s, i) else s
    case _ => if op.i < |s| then s[op.i := Private(s[op.i], op)] else s
  }

  /** What the operations on several values mean. */
  lemma {:induction false} PrivateMeans(s: seq<Content>, i: nat, from: nat)
    requires i < |s| && from < |s|
    ensures PrivateStep(s, Make) == s + [Nothing] && PrivateStep(s, Duplicate(i)) == s + [s[i]]
    ensures var t := PrivateStep(s, Assign(i, from));
            |t| == |s| && t[i] == s[from] && forall k :: 0 <= k < |s| && k != i ==> t[k] == s[k]
    ensures PrivateStep(s, Destroy(i)) == s[..i] + s[i + 1..]
  {
  }

  function PrivateRun(s: seq<Content>, ops: seq<Op>): seq<Content>
    decreases |ops|
  {
    if ops == [] then s else PrivateStep(PrivateRun(s, ops[..|ops| - 1]), ops[|ops| - 1])
  }

  ghost function All(ks: seq<Kernel>): set<Kernel> {
    set i | 0 <= i < |ks| :: ks[i]
  }

  ghost predicate Distinct(ks: seq<Kernel>) {
    forall i, j :: 0 <= i < j < |ks| ==> ks[i] != ks[j]
  }

  lemma {:induction false} AllMore(ks: seq<Kernel>, k: Kernel)
    ensures All(ks + [k]) == All(ks) + {k}
  {
    var r := ks + [k];
    assert forall i :: 0 <= i < |ks| ==> r[i] == ks[i];
    assert r[|ks|] == k;
  }

  lemma {:induction false} AllLess(ks: seq<Kernel>, i: nat)
    requires i < |ks| && Distinct(ks)
    ensures All(Omit(ks, i)) == All(ks) - {ks[i]} && Distinct(Omit(ks, i))
  {
    var r := Omit(ks, i);
    forall k | k in All(ks) - {ks[i]} ensures k in All(r) {
      var j :| 0 <= j < |ks| && ks[j] == k;
      assert r[if j < i then j else j - 1] == k;
    }
    forall k | k in All(r) ensures k in All(ks) - {ks[i]} {
      var j :| 0 <= j < |r| && r[j] == k;
      assert ks[if j < i then j else j + 1] == k;
    }
  }

  ghost predicate Good(ks: seq<Kernel>)
    reads ks, set k | k in All(ks) && k.block != null :: k.block
  {
    Distinct(ks) && Counted(All(ks)) && forall i :: 0 <= i < |ks| ==> ks[i].Ok()
  }

  ghost function View(ks: seq<Kernel>): (s: seq<Content>)
    requires Good(ks)
    reads ks, set k | k in All(ks) && k.block != null :: k.block
    ensures |s| == |ks| && forall i :: 0 <= i < |s| ==> ks[i].Ok() && s[i] == ks[i].Contents()
  {
    seq(|ks|, i requires 0 <= i < |ks| && Good(ks)
                reads ks, set k | k in All(ks) && k.block != null :: k.block => ks[i].Contents())
  }

  /** What kernels read by number is what they read. */
  ghost predicate Numbered(ks: seq<Kernel>, s: seq<Content>, before: map<Kernel, Content>) {
    |s| == |ks| && forall k :: 0 <= k < |ks| ==> ks[k] in before && before[ks[k]] == s[k]
  }

  lemma {:induction false} ReadingNumbered(ks: seq<Kernel>)
    requires Good(ks)
    ensures Numbered(ks, View(ks), Reading(All(ks)))
  {
    assert forall k :: 0 <= k < |ks| ==> ks[k] in All(ks);
  }

  lemma {:induction false} GoodParts(ks: seq<Kernel>)
    requires Good(ks)
    ensures Distinct(ks) && Counted(All(ks))
    ensures forall k :: 0 <= k < |ks| ==> ks[k] in All(ks) && ks[k].Ok() && (ks[k].isArray <==> ks[k].block != null)
  {
    assert forall k :: 0 <= k < |ks| ==> ks[k] in All(ks);
  }

  lemma {:induction false} GoodAgain(ks: seq<Kernel>)
    requires Distinct(ks) && Counted(All(ks))
    requires forall k :: 0 <= k < |ks| ==> (ks[k].isArray <==> ks[k].block != null)
    ensures Good(ks)
  {
    assert forall k :: 0 <= k < |ks| ==> ks[k] in All(ks);
  }

  lemma {:induction false} OneChanged(ks: seq<Kernel>, i: nat, s: seq<Content>, before: map<Kernel, Content>)
    requires Good(ks) && i < |ks| && Numbered(ks, s, before) && OthersKeep(All(ks), ks[i], before)
    ensures ks[i].Ok() && View(ks) == s[i := ks[i].Contents()]
  {
    assert forall k :: 0 <= k < |ks| ==> ks[k] in All(ks);
  }

  lemma {:induction false} SoleApart(ks: seq<Kernel>, i: nat, j: nat)
    requires Good(ks) && i < |ks| && j < |ks| && i != j && ks[j].Sole()
    ensures ks[i].block != ks[j].block
  {
    assert ks[i] in All(ks) && ks[j] in All(ks) && ks[i] != ks[j];
  }

  lemma {:induction false} SolesApart(ks: seq<Kernel>)
    requires Good(ks)
    ensures Distinct(ks)
    ensures forall i, j :: 0 <= i < |ks| && 0 <= j < |ks| && i != j && ks[j].Sole() ==> ks[i].block != ks[j].block
  {
    forall i, j | 0 <= i < |ks| && 0 <= j < |ks| && i != j && ks[j].Sole() ensures ks[i].block != ks[j].block {
      SoleApart(ks, i, j);
    }
  }

  /** The operation may share, replace or move the storage of kernel `j`. */
  predicate Touches(op: Op, j: nat) {
    match op
    case Make => false
    case Assign(i, from) => i == j || from == j
    case Destroy(_) => true
    case BoolToInt(_) => false
    case Write(_, _, _) => false
    case _ => op.i == j
  }

  /** The operations that change one kernel and share nothing. */
  method StepOne(ks: seq<Kernel>, op: Op)
    requires Good(ks) && (op.SetType? || op.SetArray? || op.Grow? || op.BoolToInt? || op.Write?) && op.i < |ks|
    modifies ks[op.i], ks[op.i].block
    ensures Good(ks) && View(ks) == old(View(ks))[op.i := Private(old(View(ks))[op.i], op)]
    ensures ks[op.i].block == old(ks[op.i].block) || fresh(ks[op.i].block)
    ensures old(ks[op.i].Sole()) && !Touches(op, op.i) ==>
              var k := ks[op.i]; k.Sole() && k.block == old(k.block) && k.block.moves == old(k.block.moves)
  {
    hide Good, View, Reading, Numbered, OthersKeep, Private, All;
    GoodParts(ks);
    ReadingNumbered(ks);
    ghost var all, s, before := All(ks), View(ks), Reading(All(ks));
    var k := ks[op.i];
    Perform(k, op, all);
    GoodAgain(ks);
    OneChanged(ks, op.i, s, before);
  }

  method StepAssign(ks: seq<Kernel>, i: nat, from: nat)
    requires Good(ks) && i < |ks| && from < |ks| && i != from
    modifies ks[i], ks[i].block, ks[from].block
    ensures Good(ks) && View(ks) == old(View(ks))[i := old(View(ks))[from]]
    ensures ks[i].block == ks[from].block
  {
    ghost var all := All(ks);
    ks[i].Assign(ks[from], all);
  }

  /** A new kernel holds nothing and disturbs nobody. */
  method StepMake(ks: seq<Kernel>) returns (r: seq<Kernel>)
    requires Good(ks)
    ensures Good(r) && View(r) == View(ks) + [Nothing]
    ensures |r| == |ks| + 1 && (forall j :: 0 <= j < |ks| ==> r[j] == ks[j]) && fresh(r[|ks|]) && r[|ks|].block == null
    ensures forall k :: k in r ==> k in ks || k == r[|ks|]
  {
    var k := new Kernel();
    r := ks + [k];
    AllMore(ks, k);
  }

  method StepDuplicate(ks: seq<Kernel>, i: nat) returns (r: seq<Kernel>)
    requires Good(ks) && i < |ks|
    modifies ks[i].block
    ensures Good(r) && View(r) == old(View(ks)) + [old(View(ks))[i]]
    ensures |r| == |ks| + 1 && (forall j :: 0 <= j < |ks| ==> r[j] == ks[j])
    ensures fresh(r[|ks|]) && r[|ks|].block == ks[i].block
    ensures forall k :: k in r ==> k in ks || k == r[|ks|]
  {
    r := StepMake(ks);
    assert r[i] == ks[i];
    StepAssign(r, |ks|, i);
  }

  method StepDestroy(ks: seq<Kernel>, i: nat) returns (r: seq<Kernel>)
    requires Good(ks) && i < |ks|
    modifies ks[i], ks[i].block
    ensures Good(r) && View(r) == Omit(old(View(ks)), i)
    ensures forall k :: k in r ==> k in ks && k != ks[i]
  {
    ghost var all := All(ks);
    assert forall j :: 0 <= j < |ks| ==> ks[j] in all;
    r := Omit(ks, i);
    AllLess(ks, i);
    ks[i].Destroy(all);
    hide All, Counted, Omit;
    assert Good(r);
  }

  method Perform(k: Kernel, op: Op, ghost all: set<Kernel>)
    requires k in all && Counted(all) && k.Ok()
    requires (op.SetType? || op.SetArray? || op.Grow? || op.BoolToInt? || op.Write?)
    modifies k, k.block
    ensures Counted(all) && k.Ok() && k.Contents() == Private(old(k.Contents()), op)
    ensures k.block == old(k.block) || fresh(k.block)
    ensures OthersKeep(all, k, old(Reading(all)))
    ensures old(k.Sole()) && !Touches(op, op.i) ==>
              k.Sole() && k.block == old(k.block) && k.block.moves == old(k.block.moves)
  {
    hide Counted, OthersKeep, Reading;
    match op
    case SetType(_, kind, len) => k.SetType(kind, len, all);
    case SetArray(_, kind, vec, copy) => k.SetArray(kind, vec, copy, all);
    case Grow(_, len) => k.Grow(len, all);
    case BoolToInt(_) => k.BoolToInt(all);
    case Write(_, at, x) => k.Write(at, x, all);
  }

  ghost predicate Within(ks: seq<Kernel>, blocks: set<Block>)
    reads ks
  {
    forall k :: k in ks && k.block != null ==> k.block in blocks
  }

  /** The operations that share, create or destroy. */
  method StepMany(ks: seq<Kernel>, op: Op, ghost blocks: set<Block>) returns (r: seq<Kernel>)
    requires Good(ks) && Within(ks, blocks) && (op.Make? || op.Duplicate? || op.Assign? || op.Destroy?)
    modifies ks, blocks
    ensures Good(r) && View(r) == PrivateStep(old(View(ks)), op)
    ensures forall k :: k in r ==> (k in ks || fresh(k)) && (k.block == null || k.block in blocks || fresh(k.block))
    ensures !op.Destroy? ==> |ks| <= |r| && forall j :: 0 <= j < |ks| ==> r[j] == ks[j]
    ensures forall j :: 0 <= j < |ks| && old(ks[j].Sole()) && !Touches(op, j) ==>
              ks[j].Sole() && ks[j].block == old(ks[j].block) && ks[j].block.moves == old(ks[j].block.moves)
  {
    hide Good, View, Omit;
    SolesApart(ks);
    r := ks;
    match op
    case Make => r := StepMake(ks);
    case Duplicate(i) => if i < |ks| { r := StepDuplicate(ks, i); }
    case Assign(i, from) => if i < |ks| && from < |ks| && i != from { StepAssign(ks, i, from); }
    case Destroy(i) => if i < |ks| { r := StepDestroy(ks, i); }
  }

  method Step(ks: seq<Kernel>, op: Op, ghost blocks: set<Block>) returns (r: seq<Kernel>)
    requires Good(ks) && Within(ks, blocks)
    modifies ks, blocks
    ensures Good(r) && View(r) == PrivateStep(old(View(ks)), op)
    ensures forall k :: k in r ==> (k in ks || fresh(k)) && (k.block == null || k.block in blocks || fresh(k.block))
    ensures !op.Destroy? ==> |ks| <= |r| && forall j :: 0 <= j < |ks| ==> r[j] == ks[j]
    ensures forall j :: 0 <= j < |ks| && old(ks[j].Sole()) && !Touches(op, j) ==>
              ks[j].Sole() && ks[j].block == old(ks[j].block) && ks[j].block.moves == old(ks[j].block.moves)
  {
    hide Good, View, Private, Omit;
    SolesApart(ks);
    r := ks;
    if op.Make? || op.Duplicate? || op.Assign? || op.Destroy? {
      r := StepMany(ks, op, blocks);
    } else if op.i < |ks| {
      StepOne(ks, op);
    }
  }

  /** Sharing is invisible: after any run every kernel reads as if it had always owned its
      elements. */
  method RunOps(ops: seq<Op>) returns (out: seq<Content>)
    ensures out == PrivateRun([], ops)
  {
    var ks: seq<Kernel> := [];
    ghost var blocks: set<Block> := {};
    assert View(ks) == [];
    hide Good, View, PrivateStep;
    for n := 0 to |ops|
      invariant Good(ks) && View(ks) == PrivateRun([], ops[..n])
      invariant Within(ks, blocks) && (forall k :: k in ks ==> fresh(k)) && forall b :: b in blocks ==> fresh(b)
    {
      assert ops[..n + 1][..n] == ops[..n];
      assert forall i :: 0 <= i < |ks| ==> ks[i] in ks;
      ks := Step(ks, ops[n], blocks);
      blocks := set k | k in ks && k.block != null :: k.block;
    }
    assert ops[..|ops|] == ops;
    out := ReadAll(ks);
  }

  method ReadAll(ks: seq<Kernel>) returns (out: seq<Content>)
    requires Good(ks)
    ensures out == View(ks)
  {
    out := [];
    for i := 0 to |ks|
      invariant out == View(ks)[..i]
    {
      out := out + [ks[i].Contents()];
    }
  }
}
