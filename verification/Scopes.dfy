/** Lexical addressing: names are resolved at parse time to a scope offset and a frame offset
    that must, in every run, lead to the frame of the scope that binds the name. */
module Scopes {
  import opened Frames

  datatype ScopeType = LocalScope | FuncScope | GlobalScope

  /** A resolved variable: which table to use, where its frame lies relative to the innermost
      function frame, and its slot in that frame. */
  datatype Var = Var(scope: ScopeType, soffset: int, offset: nat)

  datatype Scope = Scope(kind: ScopeType, vars: map<string, Var>)

  /** Innermost scope among the first `n` that is not a block, by position. */
  function LastGlobal(scopes: seq<Scope>, n: nat): (g: nat)
    requires 0 < n <= |scopes|
    ensures g < n && (g == 0 || scopes[g].kind != LocalScope)
    ensures forall i :: g < i < n ==> scopes[i].kind == LocalScope
  {
    if n == 1 || scopes[n - 1].kind != LocalScope then n - 1 else LastGlobal(scopes, n - 1)
  }

  /** Positions of the scopes that are not blocks. */
  ghost function GlobalsOf(scopes: seq<Scope>): seq<nat> {
    if scopes == [] then []
    else
      var n := |scopes| - 1;
      GlobalsOf(scopes[..n]) + (if scopes[n].kind != LocalScope then [n] else [])
  }

  /** Scope offset stored with a name that scope `k` itself binds. */
  function Direct(scopes: seq<Scope>, k: nat): int
    requires k < |scopes|
  {
    if scopes[k].kind != LocalScope then 0
    else
      var g := LastGlobal(scopes, k + 1);
      if g > 0 then k - g else k - 1
  }

  /** An entry of scope `k`: a variable of that scope, or a note that the name is global. */
  ghost predicate EntryOk(scopes: seq<Scope>, k: nat, v: Var)
    requires k < |scopes|
  {
    if v.scope == GlobalScope && k > 0 then v.soffset < 0 && v.offset < |scopes[0].vars|
    else v.scope == scopes[k].kind && (k > 0 ==> v.soffset == Direct(scopes, k)) && v.offset < |scopes[k].vars|
  }

  predicate IsOwn(v: Var, k: nat) {
    v.scope != GlobalScope || k == 0
  }

  /** Every entry is right, and no two variables of a scope share a slot. */
  ghost predicate ScopeOk(scopes: seq<Scope>, k: nat)
    requires k < |scopes|
  {
    var vars := scopes[k].vars;
    && (forall id :: id in vars ==> EntryOk(scopes, k, vars[id]))
    && (forall a, b :: a in vars && b in vars && a != b && IsOwn(vars[a], k) && IsOwn(vars[b], k) ==>
          vars[a].offset != vars[b].offset)
  }

  ghost predicate Wellformed(scopes: seq<Scope>) {
    && scopes != [] && scopes[0].kind == GlobalScope
    && (forall i :: 0 < i < |scopes| ==> scopes[i].kind != GlobalScope)
    && (forall k :: 0 <= k < |scopes| ==> ScopeOk(scopes, k))
  }

  /** Innermost scope that knows the name, or -1. */
  function Nearest(scopes: seq<Scope>, id: string, n: nat): (k: int)
    requires n <= |scopes|
    ensures -1 <= k < n
    ensures k >= 0 ==> id in scopes[k].vars
    ensures forall i :: k < i < n ==> id !in scopes[i].vars
  {
    if n == 0 then -1 else if id in scopes[n - 1].vars then n - 1 else Nearest(scopes, id, n - 1)
  }

  /** What a use of a known name resolves to. */
  function Resolve(scopes: seq<Scope>, id: string): Var
    requires scopes != [] && Nearest(scopes, id, |scopes|) >= 0
  {
    var k := Nearest(scopes, id, |scopes|);
    var e := scopes[k].vars[id];
    if k == |scopes| - 1 || scopes[k].kind == GlobalScope then e
    else Var(if e.soffset < 0 && e.scope == GlobalScope then GlobalScope else LocalScope,
             k - LastGlobal(scopes, |scopes|) + e.soffset, e.offset)
  }

  /** A use is global exactly when the nearest scope that knows the name is the global one or
      notes it as global, from however deep; the slot is the one recorded there, and one of the
      global frame. */
  lemma {:induction false} GlobalNames(scopes: seq<Scope>, id: string)
    requires Wellformed(scopes) && Nearest(scopes, id, |scopes|) >= 0
    ensures var k := Nearest(scopes, id, |scopes|);
            var e, v := scopes[k].vars[id], Resolve(scopes, id);
            && (v.scope == GlobalScope <==> k == 0 || e.scope == GlobalScope) && v.offset == e.offset
            && (v.scope == GlobalScope ==> v.offset < |scopes[0].vars|)
  {
    var k := Nearest(scopes, id, |scopes|);
    assert ScopeOk(scopes, k) && EntryOk(scopes, k, scopes[k].vars[id]);
    hide Nearest, ScopeOk, LastGlobal;
  }

  // ----- the parser's scope table -----

  lemma {:induction false} GlobalsLast(scopes: seq<Scope>)
    requires scopes != [] && scopes[0].kind == GlobalScope
    ensures var g := GlobalsOf(scopes); g != [] && g[|g| - 1] == LastGlobal(scopes, |scopes|)
  {
    var n := |scopes| - 1;
    if scopes[n].kind == LocalScope {
      GlobalsLast(scopes[..n]);
      PrefixLastGlobal(scopes, n);
    }
  }

  lemma {:induction false} PrefixLastGlobal(scopes: seq<Scope>, n: nat)
    requires 0 < n <= |scopes|
    ensures LastGlobal(scopes[..n], n) == LastGlobal(scopes, n)
  {
    SameKinds(scopes[..n], scopes, n);
  }

  /** Only the kinds of scopes matter for offsets. */
  lemma {:induction false} SameKinds(s: seq<Scope>, t: seq<Scope>, n: nat)
    requires 0 < n <= |s| && n <= |t| && forall i :: 0 <= i < n ==> s[i].kind == t[i].kind
    ensures LastGlobal(s, n) == LastGlobal(t, n)
    ensures Direct(s, n - 1) == Direct(t, n - 1)
  {
    if n > 1 && s[n - 1].kind == LocalScope {
      SameKinds(s, t, n - 1);
    }
  }

  lemma {:induction false} PushKeeps(s: seq<Scope>, kind: ScopeType)
    requires Wellformed(s) && kind != GlobalScope
    ensures Wellformed(s + [Scope(kind, map[])])
    ensures GlobalsOf(s + [Scope(kind, map[])]) == GlobalsOf(s) + (if kind != LocalScope then [|s|] else [])
  {
    var t := s + [Scope(kind, map[])];
    assert t[..|s|] == s;
    hide GlobalsOf;
    forall k | 0 <= k < |t| ensures ScopeOk(t, k) {
      if k < |s| {
        assert ScopeOk(s, k);
        SameKinds(s, t, k + 1);
      }
    }
  }

  lemma {:induction false} PopKeeps(s: seq<Scope>)
    requires Wellformed(s) && |s| > 1
    ensures Wellformed(s[..|s| - 1])
    ensures GlobalsOf(s) == GlobalsOf(s[..|s| - 1]) + (if s[|s| - 1].kind != LocalScope then [|s| - 1] else [])
  {
    var t := s[..|s| - 1];
    hide GlobalsOf;
    forall k | 0 <= k < |t| ensures ScopeOk(t, k) {
      assert ScopeOk(s, k);
      SameKinds(s, t, k + 1);
    }
  }

  lemma {:induction false} GlobalsBound(s: seq<Scope>)
    ensures forall i :: 0 <= i < |GlobalsOf(s)| ==> GlobalsOf(s)[i] < |s|
  {
    if s != [] { GlobalsBound(s[..|s| - 1]); }
  }

  lemma {:induction false} GlobalsSameKinds(s: seq<Scope>, t: seq<Scope>)
    requires |s| == |t| && forall i :: 0 <= i < |s| ==> s[i].kind == t[i].kind
    ensures GlobalsOf(s) == GlobalsOf(t)
  {
    if s != [] { GlobalsSameKinds(s[..|s| - 1], t[..|t| - 1]); }
  }

  /** `s` with a name set in scope `t`. */
  function Installed(s: seq<Scope>, t: nat, id: string, v: Var): seq<Scope>
    requires t < |s|
  {
    s[t := Scope(s[t].kind, s[t].vars[id := v])]
  }

  ghost predicate Installable(s: seq<Scope>, t: nat, id: string, v: Var) {
    && t < |s| && (IsOwn(v, t) ==> id !in s[t].vars)
    && if IsOwn(v, t) then v.scope == s[t].kind && (t > 0 ==> v.soffset == Direct(s, t)) && v.offset == |s[t].vars|
       else v.soffset < 0 && v.offset < |s[0].vars|
  }

  lemma {:induction false} InstallGrows(s: seq<Scope>, t: nat, id: string, v: Var)
    requires t < |s|
    ensures |Installed(s, t, id, v)[t].vars| == |s[t].vars| + if id in s[t].vars then 0 else 1
  {
    assert Installed(s, t, id, v)[t].vars.Keys == s[t].vars.Keys + {id};
    if id in s[t].vars { assert s[t].vars.Keys + {id} == s[t].vars.Keys; }
  }

  /** A variable installed over another of the same name gets a slot outside the frame. */
  lemma {:induction false} ReinstallBreaks(s: seq<Scope>, t: nat, id: string, v: Var)
    requires t < |s| && id in s[t].vars && IsOwn(v, t) && v.offset == |s[t].vars|
    ensures !Wellformed(Installed(s, t, id, v))
  {
    var r := Installed(s, t, id, v);
    InstallGrows(s, t, id, v);
    assert !EntryOk(r, t, r[t].vars[id]);
    assert !ScopeOk(r, t);
  }

  lemma {:induction false} InstallScopeOk(s: seq<Scope>, t: nat, id: string, v: Var)
    requires Installable(s, t, id, v) && ScopeOk(s, t)
    ensures ScopeOk(Installed(s, t, id, v), t)
  {
    var r := Installed(s, t, id, v);
    InstallGrows(s, t, id, v);
    SameKinds(s, r, t + 1);
    hide Direct;
    forall a | a in r[t].vars ensures EntryOk(r, t, r[t].vars[a]) {
      if a != id { assert EntryOk(s, t, s[t].vars[a]); }
    }
  }

  lemma {:induction false} InstallKeeps(s: seq<Scope>, t: nat, id: string, v: Var)
    requires Wellformed(s) && Installable(s, t, id, v)
    ensures Wellformed(Installed(s, t, id, v)) && GlobalsOf(Installed(s, t, id, v)) == GlobalsOf(s)
  {
    var r := Installed(s, t, id, v);
    GlobalsSameKinds(s, r);
    InstallGrows(s, t, id, v);
    InstallScopeOk(s, t, id, v);
    hide GlobalsOf, Direct;
    forall k | 0 <= k < |r| ensures ScopeOk(r, k) {
      assert ScopeOk(s, k);
      SameKinds(s, r, k + 1);
      if k != t {
        forall a | a in r[k].vars ensures EntryOk(r, k, r[k].vars[a]) {
          assert EntryOk(s, k, s[k].vars[a]);
        }
      }
    }
  }

  datatype Where = InLocal | InFunc | InGlobal | InAny

  class Resolver {
    var scopes: seq<Scope>
    var globals: seq<nat>
    var globalFrame: nat

    ghost predicate Valid()
      reads this
    {
      Wellformed(scopes) && globals == GlobalsOf(scopes) && globalFrame == |scopes[0].vars|
    }

    constructor ()
      ensures Valid() && scopes == [Scope(GlobalScope, map[])]
    {
      scopes, globals, globalFrame := [Scope(GlobalScope, map[])], [0], 0;
    }

    method PushScope(kind: ScopeType)
      requires Valid() && kind != GlobalScope
      modifies this
      ensures Valid() && scopes == old(scopes) + [Scope(kind, map[])]
    {
      PushKeeps(scopes, kind);
      hide Wellformed, GlobalsOf;
      scopes := scopes + [Scope(kind, map[])];
      if kind != LocalScope { globals := globals + [|scopes| - 1]; }
    }

    /** Ends a scope; its frame will have one slot for each name it holds. */
    method PopScope() returns (frameSize: nat)
      requires Valid() && |scopes| > 1
      modifies this
      ensures Valid() && scopes == old(scopes)[..|old(scopes)| - 1]
      ensures frameSize == |old(scopes)[|old(scopes)| - 1].vars|
    {
      var top := |scopes| - 1;
      frameSize := |scopes[top].vars|;
      PopKeeps(scopes);
      GlobalsBound(scopes[..top]);
      hide Wellformed, GlobalsOf;
      var kind := scopes[top].kind;
      ghost var o := GlobalsOf(scopes[..top]);
      scopes := scopes[..top];
      if kind != LocalScope {
        globals := RemoveFirst(globals, top);
        LastRemoved(o, top, globals);
      }
    }

    /** Gives a name a slot in the innermost scope, the innermost function or the global scope.
        The table stays right exactly when the name is new there. */
    method InstallVar(id: string, place: Where) returns (v: Var)
      requires Valid() && place != InAny
      modifies this
      ensures scopes == Installed(old(scopes), Target(old(scopes), place), id, v) && v == Own(old(scopes), place)
      ensures Valid() <==> id !in old(scopes)[Target(old(scopes), place)].vars
    {
      GlobalsLast(scopes);
      var g := globals[|globals| - 1];
      var index, soffset := 0, 0;
      match place {
        case InLocal =>
          index := |scopes| - 1;
          soffset := if scopes[g].kind != GlobalScope then index - g else index - 1;
        case InFunc => index := g;
        case _ =>
      }
      v := Var(scopes[index].kind, soffset, |scopes[index].vars|);
      hide GlobalsOf, ScopeOk, EntryOk;
      assert index == Target(scopes, place) && v == Own(scopes, place);
      hide Own, LastGlobal;
      Install(index, id, v);
    }

    method Install(index: nat, id: string, v: Var)
      requires Valid() && index < |scopes| && v.scope == scopes[index].kind && v.offset == |scopes[index].vars|
      requires index > 0 ==> v.soffset == Direct(scopes, index)
      modifies this
      ensures scopes == Installed(old(scopes), index, id, v)
      ensures Valid() <==> id !in old(scopes)[index].vars
    {
      assert v.scope == GlobalScope <==> index == 0;
      InstallGrows(scopes, index, id, v);
      if id in scopes[index].vars {
        ReinstallBreaks(scopes, index, id, v);
      } else {
        InstallKeeps(scopes, index, id, v);
      }
      hide Wellformed, GlobalsOf, Direct;
      scopes := Installed(scopes, index, id, v);
      if v.scope == GlobalScope { globalFrame := globalFrame + 1; }
    }

    /** Notes in the innermost scope that the name stands for a global variable, whatever it
        stood for there before. */
    method InstallGlobalRef(id: string, offset: nat) returns (v: Var)
      requires Valid() && |scopes| > 1 && offset < |scopes[0].vars|
      modifies this
      ensures Valid() && scopes == Installed(old(scopes), |old(scopes)| - 1, id, v)
      ensures v.scope == GlobalScope && v.offset == offset
    {
      var index := |scopes| - 1;
      v := Var(GlobalScope, -index, offset);
      InstallKeeps(scopes, index, id, v);
      hide Wellformed, GlobalsOf;
      scopes := Installed(scopes, index, id, v);
    }

    /** Resolves a use of a name; an unknown one becomes a new global. */
    method LookupAny(id: string) returns (v: Var)
      requires Valid()
      modifies this
      ensures Valid()
      ensures var k := Nearest(old(scopes), id, |old(scopes)|);
              if k >= 0 then scopes == old(scopes) && v == Resolve(scopes, id)
              else scopes == Installed(old(scopes), 0, id, v) && v == Own(old(scopes), InGlobal)
    {
      GlobalsLast(scopes);
      var goff, off := globals[|globals| - 1], |scopes| - 1;
      var cnt := off;
      while cnt >= 0 && id !in scopes[cnt].vars
        invariant -1 <= cnt <= off && Nearest(scopes, id, |scopes|) == Nearest(scopes, id, cnt + 1)
      {
        cnt := cnt - 1;
      }
      if cnt < 0 {
        v := InstallVar(id, InGlobal);
        return;
      }
      var e := scopes[cnt].vars[id];
      if off != cnt && scopes[cnt].kind != GlobalScope {
        v := Var(if e.soffset < 0 && e.scope == GlobalScope then GlobalScope else LocalScope,
                 cnt - goff + e.soffset, e.offset);
      } else {
        v := e;
      }
    }

    /** Resolves the target of an assignment: a name of the enclosing function or of a block in
        it, else a new variable of the function. */
    method LookupLocal(id: string) returns (v: Var)
      requires Valid()
      modifies this
      ensures Valid()
      ensures var s := old(scopes); var k := Nearest(s, id, |s|); var g := LastGlobal(s, |s|);
              if k >= g then scopes == s && v == s[k].vars[id]
              else scopes == Installed(s, g, id, v) && v == Own(s, InFunc)
    {
      var cnt := |scopes| - 1;
      while id !in scopes[cnt].vars && scopes[cnt].kind == LocalScope && cnt > 0
        invariant 0 <= cnt < |scopes| && LastGlobal(scopes, |scopes|) == LastGlobal(scopes, cnt + 1)
        invariant Nearest(scopes, id, |scopes|) == Nearest(scopes, id, cnt + 1)
      {
        cnt := cnt - 1;
      }
      if id in scopes[cnt].vars {
        v := scopes[cnt].vars[id];
      } else {
        v := InstallVar(id, InFunc);
      }
    }
  }

  /** The scope a name is installed in. */
  function Target(scopes: seq<Scope>, place: Where): nat
    requires scopes != []
  {
    match place
    case InLocal => |scopes| - 1
    case InFunc => LastGlobal(scopes, |scopes|)
    case _ => 0
  }

  /** The variable a name becomes when it is installed. */
  function Own(scopes: seq<Scope>, place: Where): Var
    requires scopes != []
  {
    var k := Target(scopes, place);
    Var(scopes[k].kind, if k == 0 && place == InLocal then -1 else Direct(scopes, k), |scopes[k].vars|)
  }
}
