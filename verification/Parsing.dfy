/** The scope tables that parsing leaves at each lookup are complete for the frames that the
    program's scopes will have when it runs. */
module Parsing {
  import opened Frames
  import opened Scopes
  import opened Lexical

  /** What the parser does to the scope table. */
  datatype Act =
    | Open(kind: ScopeType)
    | Close
    | Use(id: string)
    | Assign(id: string)
    | Declare(id: string)

  /** A lookup: the table it left, and the numbers of the scopes then open, the global one not
      counted. */
  datatype Lookup = Lookup(scopes: seq<Scope>, open: seq<nat>, id: string, v: Var)

  /** The chain of frames that run under a lookup: sizes are those with which the scopes close. */
  ghost function ChainOf(l: Lookup, size: seq<nat>): (c: seq<Sig>)
    requires |l.open| + 1 == |l.scopes| && forall i :: 0 <= i < |l.open| ==> l.open[i] < |size|
    ensures |c| == |l.open|
  {
    seq(|l.open|, i requires 0 <= i < |l.open| =>
      Sig(if l.scopes[i + 1].kind == FuncScope then Func else Local, size[l.open[i]]))
  }

  /** The lookup's table is right, and completes that chain. */
  ghost predicate Settled(l: Lookup, size: seq<nat>) {
    && Wellformed(l.scopes) && |l.open| + 1 == |l.scopes|
    && forall i :: 0 <= i < |l.open| ==> l.open[i] < |size| && |l.scopes[i + 1].vars| <= size[l.open[i]]
  }

  lemma {:induction false} SettledCompletes(l: Lookup, size: seq<nat>)
    requires Settled(l, size)
    ensures Completes(ChainOf(l, size), l.scopes)
  {
    hide ScopeOk;
  }

  /** Scopes only gain names while they are open. */
  ghost predicate Grown(was: seq<nat>, now: seq<nat>) {
    |was| <= |now| && forall n :: 0 <= n < |was| ==> was[n] <= now[n]
  }

  lemma {:induction false} SettledGrown(l: Lookup, was: seq<nat>, now: seq<nat>)
    requires Settled(l, was) && Grown(was, now)
    ensures Settled(l, now)
  {
    hide Wellformed;
  }

  /** What is known while parsing: `size` counts the names of every scope opened so far, and
      `open` lists those still open. */
  ghost predicate Counts(scopes: seq<Scope>, open: seq<nat>, size: seq<nat>) {
    && |open| + 1 == |scopes| && (forall i :: 0 <= i < |open| ==> open[i] < |size|)
    && (forall i, j :: 0 <= i < j < |open| ==> open[i] != open[j])
    && (forall i :: 0 <= i < |open| ==> size[open[i]] == |scopes[i + 1].vars|)
  }

  /** The counts when scope `t` has got names: the global scope, number 0, is not counted. */
  ghost function Recounted(scopes: seq<Scope>, t: nat, open: seq<nat>, size: seq<nat>): seq<nat>
    requires |open| + 1 == |scopes| && t < |scopes| && forall i :: 0 <= i < |open| ==> open[i] < |size|
  {
    if t == 0 then size else size[open[t - 1] := |scopes[t].vars|]
  }

  lemma {:induction false} InstallCounts(s: seq<Scope>, t: nat, id: string, v: Var, open: seq<nat>, size: seq<nat>)
    requires Counts(s, open, size) && t < |s|
    ensures var r := Installed(s, t, id, v);
            && Counts(r, open, Recounted(r, t, open, size)) && Grown(size, Recounted(r, t, open, size))
            && (forall n :: 0 <= n < |size| && n !in open ==> Recounted(r, t, open, size)[n] == size[n])
  {
    InstallGrows(s, t, id, v);
    if t > 0 { assert open[t - 1] in open; }
  }

  /** The counts `next` follow `size`: open scopes may have got names. */
  ghost predicate Follows(scopes: seq<Scope>, open: seq<nat>, size: seq<nat>, next: seq<nat>) {
    && Counts(scopes, open, next) && Grown(size, next) && |next| == |size|
    && forall n :: 0 <= n < |size| && n !in open ==> next[n] == size[n]
  }

  lemma {:induction false} Counted(s: seq<Scope>, t: nat, id: string, v: Var, open: seq<nat>, size: seq<nat>)
    returns (next: seq<nat>)
    requires Counts(s, open, size) && t < |s|
    ensures Follows(Installed(s, t, id, v), open, size, next)
  {
    InstallCounts(s, t, id, v, open, size);
    next := Recounted(Installed(s, t, id, v), t, open, size);
  }

  lemma {:induction false} Unchanged(s: seq<Scope>, open: seq<nat>, size: seq<nat>)
    requires Counts(s, open, size)
    ensures Follows(s, open, size, size)
  {
  }

  predicate LooksUp(act: Act) {
    act.Use? || act.Assign? || act.Declare?
  }

  /** The answer to a lookup: what a use or the target of an assignment resolves to in the table
      as the lookup left it, in which a declared name is bound by the innermost scope. */
  predicate Answers(act: Act, l: Lookup) {
    && LooksUp(act) && l.id == act.id && l.scopes != []
    && var s := l.scopes;
       var k := Nearest(s, act.id, |s|);
       match act
       case Use(id) => k >= 0 && l.v == Resolve(s, id)
       case Assign(id) => LastGlobal(s, |s|) <= k && l.v == Written(s, id)
       case _ => act.id in s[|s| - 1].vars && l.v == s[|s| - 1].vars[act.id]
  }

  /** The log answers the lookups in order. */
  ghost predicate Logged(acts: seq<Act>, log: seq<Lookup>)
    decreases |acts|
  {
    var n, m := |acts| - 1, |log| - 1;
    if n < 0 then log == []
    else if LooksUp(acts[n]) then m >= 0 && Answers(acts[n], log[m]) && Logged(acts[..n], log[..m])
    else Logged(acts[..n], log)
  }

  lemma {:induction false} LoggedMore(acts: seq<Act>, n: nat, was: seq<Lookup>, log: seq<Lookup>)
    requires n < |acts| && Logged(acts[..n], was)
    requires if LooksUp(acts[n]) then log != [] && log[..|log| - 1] == was && Answers(acts[n], log[|log| - 1])
             else log == was
    ensures Logged(acts[..n + 1], log)
  {
    assert acts[..n + 1][..n] == acts[..n];
  }

  method UseName(q: Resolver, id: string, open: seq<nat>, ghost size: seq<nat>)
    returns (v: Var, ghost next: seq<nat>)
    requires q.Valid() && Counts(q.scopes, open, size)
    modifies q
    ensures q.Valid() && Follows(q.scopes, open, size, next)
    ensures Nearest(q.scopes, id, |q.scopes|) >= 0 && v == Resolve(q.scopes, id)
  {
    hide Counts, Follows;
    ghost var s := q.scopes;
    v := q.LookupAny(id);
    if q.scopes == s {
      Unchanged(s, open, size);
      next := size;
    } else {
      next := Counted(s, 0, id, v, open, size);
    }
  }

  method AssignName(q: Resolver, id: string, open: seq<nat>, ghost size: seq<nat>)
    returns (v: Var, ghost next: seq<nat>)
    requires q.Valid() && Counts(q.scopes, open, size)
    modifies q
    ensures q.Valid() && Follows(q.scopes, open, size, next)
    ensures LastGlobal(q.scopes, |q.scopes|) <= Nearest(q.scopes, id, |q.scopes|) && v == Written(q.scopes, id)
  {
    hide Counts, Follows;
    ghost var s := q.scopes;
    TargetBound(s, id);
    v := q.LookupLocal(id);
    if q.scopes == s {
      Unchanged(s, open, size);
      next := size;
    } else {
      next := Counted(s, LastGlobal(s, |s|), id, v, open, size);
    }
  }

  method DeclareName(q: Resolver, id: string, open: seq<nat>, ghost size: seq<nat>)
    returns (v: Var, ghost next: seq<nat>)
    requires q.Valid() && Counts(q.scopes, open, size)
    modifies q
    ensures q.Valid() && Follows(q.scopes, open, size, next) && q.scopes != []
    ensures var top := q.scopes[|q.scopes| - 1].vars; id in top && v == top[id]
  {
    hide Counts, Follows;
    ghost var s := q.scopes;
    var top := q.scopes[|q.scopes| - 1];
    if id in top.vars {
      v := top.vars[id];
      Unchanged(s, open, size);
      next := size;
    } else {
      v := q.InstallVar(id, InLocal);
      next := Counted(s, |s| - 1, id, v, open, size);
    }
  }

  /** A lookup of any kind: at most one scope gets one more name. */
  method LookUp(q: Resolver, act: Act, open: seq<nat>, ghost size: seq<nat>) returns (l: Lookup, ghost next: seq<nat>)
    requires q.Valid() && LooksUp(act) && Counts(q.scopes, open, size)
    modifies q
    ensures q.Valid() && Follows(q.scopes, open, size, next)
    ensures l.scopes == q.scopes && l.open == open && Answers(act, l)
  {
    hide Counts, Follows, Wellformed, Nearest, Resolve, Written, LastGlobal;
    var v;
    match act {
      case Use(id) => v, next := UseName(q, id, open, size);
      case Assign(id) => v, next := AssignName(q, id, open, size);
      case Declare(id) => v, next := DeclareName(q, id, open, size);
    }
    l := Lookup(q.scopes, open, act.id, v);
  }

  /** The parser's state: what it knows of the scopes, what it has recorded of closed ones, and
      the lookups made. */
  ghost predicate Parsed(scopes: seq<Scope>, open: seq<nat>, size: seq<nat>, count: seq<nat>, log: seq<Lookup>) {
    && Counts(scopes, open, count) && |size| == |count|
    && (forall n :: 0 <= n < |size| && n !in open ==> size[n] == count[n])
    && (forall l :: l in log ==> Settled(l, count))
  }

  lemma {:induction false} OpenKeeps(s: seq<Scope>, kind: ScopeType, open: seq<nat>, size: seq<nat>, count: seq<nat>,
                                     log: seq<Lookup>)
    requires Parsed(s, open, size, count, log)
    ensures Parsed(s + [Scope(kind, map[])], open + [|size|], size + [0], count + [0], log)
  {
    var t, o, c := s + [Scope(kind, map[])], open + [|size|], count + [0];
    assert forall n :: n in open ==> n in o;
    assert forall i :: 0 <= i < |open| ==> o[i] == open[i] && t[i + 1] == s[i + 1];
    assert o[|open|] in o;
    hide Settled;
    forall l | l in log ensures Settled(l, c) { SettledGrown(l, count, c); }
  }

  lemma {:induction false} CloseKeeps(s: seq<Scope>, open: seq<nat>, size: seq<nat>, count: seq<nat>, log: seq<Lookup>)
    requires Parsed(s, open, size, count, log) && open != []
    ensures var n := |open| - 1;
            && open[n] < |size| && |s| == n + 2
            && Parsed(s[..n + 1], open[..n], size[open[n] := |s[n + 1].vars|], count, log)
  {
    var n := |open| - 1;
    hide Settled;
    forall m | m in open && m != open[n] ensures m in open[..n] {
      var i :| 0 <= i < |open| && open[i] == m;
      assert open[..n][i] == m;
    }
  }

  lemma {:induction false} LookupKeeps(s: seq<Scope>, r: seq<Scope>, open: seq<nat>, size: seq<nat>, count: seq<nat>,
                                       next: seq<nat>, log: seq<Lookup>, l: Lookup)
    requires Parsed(s, open, size, count, log) && Follows(r, open, count, next)
    requires Wellformed(r) && l.scopes == r && l.open == open
    ensures Parsed(r, open, size, next, log + [l])
  {
    hide Wellformed;
    assert Settled(l, next);
    hide Settled;
    forall m | m in log ensures Settled(m, next) { SettledGrown(m, count, next); }
  }

  /** One step of the parser; ill-formed ones are not performed. */
  method ParseOne(q: Resolver, act: Act, open: seq<nat>, size: seq<nat>, ghost count: seq<nat>, log: seq<Lookup>)
    returns (open': seq<nat>, size': seq<nat>, ghost count': seq<nat>, log': seq<Lookup>)
    requires q.Valid() && Parsed(q.scopes, open, size, count, log)
    modifies q
    ensures q.Valid() && Parsed(q.scopes, open', size', count', log')
    ensures if LooksUp(act) then log' != [] && log'[..|log'| - 1] == log && Answers(act, log'[|log'| - 1])
            else log' == log
  {
    open', size', count', log' := open, size, count, log;
    hide Resolver.Valid, Parsed, Answers;
    match act {
      case Open(kind) =>
        if kind != GlobalScope {
          OpenKeeps(q.scopes, kind, open, size, count, log);
          q.PushScope(kind);
          open', size', count' := open + [|size|], size + [0], count + [0];
        }
      case Close =>
        if open != [] {
          CloseKeeps(q.scopes, open, size, count, log);
          var n := q.PopScope();
          open', size' := open[..|open| - 1], size[open[|open| - 1] := n];
        }
      case _ =>
        assert Counts(q.scopes, open, count) by { ParsedCounts(q.scopes, open, size, count, log); }
        ghost var s := q.scopes;
        var l;
        l, count' := LookUp(q, act, open, count);
        ValidTable(q);
        LookupKeeps(s, q.scopes, open, size, count, count', log, l);
        log' := log + [l];
    }
  }

  lemma {:induction false} ParsedCounts(s: seq<Scope>, open: seq<nat>, size: seq<nat>, count: seq<nat>,
                                        log: seq<Lookup>)
    requires Parsed(s, open, size, count, log)
    ensures Counts(s, open, count)
  {
  }

  lemma {:induction false} ValidTable(q: Resolver)
    requires q.Valid()
    ensures Wellformed(q.scopes)
  {
  }

  /** A whole parse: when every scope has been closed, the table of every lookup is right and
      completes the chain of frames that runs under it. */
  method Parse(acts: seq<Act>) returns (log: seq<Lookup>, size: seq<nat>)
    ensures Logged(acts, log)
    ensures forall l :: l in log ==> Settled(l, size) && Completes(ChainOf(l, size), l.scopes)
  {
    var q := new Resolver();
    var open: seq<nat> := [];
    ghost var count: seq<nat> := [];
    log, size := [], [];
    assert Parsed(q.scopes, open, size, count, log);
    hide Resolver.Valid, Parsed;
    for n := 0 to |acts|
      invariant q.Valid() && Parsed(q.scopes, open, size, count, log) && fresh(q) && Logged(acts[..n], log)
    {
      ghost var was := log;
      open, size, count, log := ParseOne(q, acts[n], open, size, count, log);
      LoggedMore(acts, n, was, log);
    }
    assert acts[..|acts|] == acts;
    open, size, count, log := CloseAll(q, open, size, count, log);
    ParsedDone(q.scopes, size, count, log);
    forall l | l in log ensures Completes(ChainOf(l, size), l.scopes) { SettledCompletes(l, size); }
  }

  method CloseAll(q: Resolver, o: seq<nat>, s: seq<nat>, ghost c: seq<nat>, g: seq<Lookup>)
    returns (open: seq<nat>, size: seq<nat>, ghost count: seq<nat>, log: seq<Lookup>)
    requires q.Valid() && Parsed(q.scopes, o, s, c, g)
    modifies q
    ensures q.Valid() && Parsed(q.scopes, open, size, count, log) && open == [] && log == g
  {
    open, size, count, log := o, s, c, g;
    hide Resolver.Valid, Parsed;
    while open != []
      invariant q.Valid() && Parsed(q.scopes, open, size, count, log) && log == g
      decreases |open|
    {
      CloseKeeps(q.scopes, open, size, count, log);
      var n := q.PopScope();
      size := size[open[|open| - 1] := n];
      open := open[..|open| - 1];
    }
  }

  lemma {:induction false} ParsedDone(s: seq<Scope>, size: seq<nat>, count: seq<nat>, log: seq<Lookup>)
    requires Parsed(s, [], size, count, log)
    ensures forall l :: l in log ==> Settled(l, size)
  {
    hide Settled;
    assert size == count;
  }

  /** Lexical addressing from the parser to every run: a use, an assignment or a declaration whose
      lookup the parser made, in a run where its scopes have the frames they closed with, reaches
      the frame of the function that binds the name, and a slot inside it. */
  lemma {:induction false} ParsedAddressing(acts: seq<Frames.Act>, i: nat, act: Act, l: Lookup, size: seq<nat>, k: nat)
    requires Settled(l, size) && Answers(act, l) && ScopedAll(acts, [], []) && i < |Run(acts, [], World([], 0, [])).log|
    requires Run(acts, [], World([], 0, [])).log[i].chain == ChainOf(l, size)
    requires 0 < k == Nearest(l.scopes, l.id, |l.scopes|) && l.scopes[k].kind == FuncScope
    requires l.scopes[k].vars[l.id].scope != GlobalScope
    ensures var seen := Run(acts, [], World([], 0, [])).log[i];
            && Reaches(seen.env, seen.chain, l.v, k)
            && var f := seen.env[FrameOf(seen.env, seen.chain, k)];
               f.Live? && f.f.kind == Func && l.v.offset < f.f.size
  {
    SettledCompletes(l, size);
    LexicalAddressing(acts, i, l.scopes, l.id, k);
    hide Run, Wellformed, Completes, Reaches;
  }
}
