/** Lexical addressing is correct: offsets computed while parsing lead, in every run, to the
    frame of the scope that binds the name. */
module Lexical {
  import opened Frames
  import opened Scopes

  // ----- runs that follow the program text -----

  /** The frame of a scope: a block without variables has none. */
  ghost predicate SlotFits(s: Slot, sig: Sig) {
    if sig == Sig(Local, 0) then s == Null else s.Live? && s.f.kind == sig.kind && s.f.size == sig.size
  }

  /** The frame list ends with one frame for each scope of the text; below them there may be
      frames of callers. */
  ghost predicate Fits(env: seq<Slot>, chain: seq<Sig>) {
    |chain| <= |env| && forall i :: 0 <= i < |chain| ==> SlotFits(env[|env| - |chain| + i], chain[i])
  }

  /** The static scopes of each captured value, after the actions. */
  ghost function FlowAll(acts: seq<Act>, chain: seq<Sig>, k: seq<seq<Sig>>): seq<seq<Sig>>
    decreases acts, 1
  {
    if acts == [] then k else FlowAll(acts[1..], chain, Flow(acts[0], chain, k))
  }

  ghost function Flow(a: Act, chain: seq<Sig>, k: seq<seq<Sig>>): seq<seq<Sig>>
    decreases a, 0
  {
    match a
    case Use(_) => k
    case Capture => k + [chain]
    case Call(fn, size, body) => FlowAll(body, Home(k, fn) + [Sig(Func, size)], k)
    case Block(size, body) => FlowAll(body, chain + [Sig(Local, size)], k)
    case Notify(fn, body) => FlowAll(body, Home(k, fn), k)
    case Include(body) => FlowAll(body, [], k)
  }

  ghost function Home(k: seq<seq<Sig>>, fn: nat): seq<Sig> {
    if fn < |k| then k[fn] else []
  }

  /** Bodies run under the scopes they were written in: a call under those of the function's
      definition, a `whenever` body under those of the statement. */
  ghost predicate ScopedAll(acts: seq<Act>, chain: seq<Sig>, k: seq<seq<Sig>>)
    decreases acts, 1
  {
    acts == [] || (Scoped(acts[0], chain, k) && ScopedAll(acts[1..], chain, Flow(acts[0], chain, k)))
  }

  ghost predicate Scoped(a: Act, chain: seq<Sig>, k: seq<seq<Sig>>)
    decreases a, 0
  {
    match a
    case Use(c) => c == chain
    case Capture => true
    case Call(fn, size, body) => fn < |k| && ScopedAll(body, k[fn] + [Sig(Func, size)], k)
    case Block(size, body) => ScopedAll(body, chain + [Sig(Local, size)], k)
    case Notify(fn, body) => fn < |k| && ScopedAll(body, k[fn], k)
    case Include(body) => ScopedAll(body, [], k)
  }

  ghost predicate CapsFit(caps: seq<Captured>, k: seq<seq<Sig>>) {
    && |caps| == |k|
    && forall i :: 0 <= i < |k| ==>
         if caps[i] == Nothing then k[i] == [] else caps[i].Env? && Fits(caps[i].env, k[i])
  }

  ghost predicate LogFits(log: seq<Seen>) {
    forall i :: 0 <= i < |log| ==> Fits(log[i].env, log[i].chain)
  }

  lemma {:induction false} FitsMore(env: seq<Slot>, chain: seq<Sig>, s: Slot, sig: Sig)
    requires Fits(env, chain) && SlotFits(s, sig)
    ensures Fits(env + [s], chain + [sig])
  {
    var e, c := env + [s], chain + [sig];
    forall i | 0 <= i < |c| ensures SlotFits(e[|e| - |c| + i], c[i]) {
      if i < |chain| { assert c[i] == chain[i] && e[|e| - |c| + i] == env[|env| - |chain| + i]; }
    }
  }

  /** In every run that follows the program text, every access happens under frames that
      match its static scopes. */
  lemma {:induction false} RunFits(acts: seq<Act>, chain: seq<Sig>, k: seq<seq<Sig>>, env: seq<Slot>, w: World)
    requires ScopedAll(acts, chain, k) && Fits(env, chain) && CapsFit(w.caps, k) && LogFits(w.log)
    ensures LogFits(Run(acts, env, w).log) && CapsFit(Run(acts, env, w).caps, FlowAll(acts, chain, k))
    decreases acts, 1
  {
    if acts != [] {
      StepFits(acts[0], chain, k, env, w);
      RunFits(acts[1..], chain, Flow(acts[0], chain, k), env, Step(acts[0], env, w));
    }
  }

  lemma {:induction false} StepFits(a: Act, chain: seq<Sig>, k: seq<seq<Sig>>, env: seq<Slot>, w: World)
    requires Scoped(a, chain, k) && Fits(env, chain) && CapsFit(w.caps, k) && LogFits(w.log)
    ensures LogFits(Step(a, env, w).log) && CapsFit(Step(a, env, w).caps, Flow(a, chain, k))
    decreases a, 0
  {
    match a {
      case Use(c) =>
      case Capture =>
      case Call(fn, size, body) =>
        var f := Live(Frame(w.next, Func, size));
        FitsMore(Enter(w, fn, env), k[fn], f, Sig(Func, size));
        hide Fits, CapsFit, LogFits;
        RunFits(body, k[fn] + [Sig(Func, size)], k, Enter(w, fn, env) + [f], w.(next := w.next + 1));
      case Block(size, body) =>
        FitsMore(env, chain, BlockSlot(w, size), Sig(Local, size));
        hide Fits, CapsFit, LogFits;
        RunFits(body, chain + [Sig(Local, size)], k, env + [BlockSlot(w, size)], w.(next := w.next + 1));
      case Notify(fn, body) =>
        RunFits(body, k[fn], k, Enter(w, fn, env), w);
      case Include(body) =>
        RunFits(body, [], k, [], w);
    }
  }

  // ----- from offsets to frames -----

  /** The scope table, once parsing has ended, as the run sees it. */
  ghost predicate Completes(chain: seq<Sig>, scopes: seq<Scope>) {
    && |chain| + 1 == |scopes|
    && forall i :: 0 <= i < |chain| ==>
         (chain[i].kind == Func <==> scopes[i + 1].kind == FuncScope) && |scopes[i + 1].vars| <= chain[i].size
  }

  lemma {:induction false} OffsetsLast(env: seq<Slot>)
    ensures var o := OffsetsOf(env);
            if o == [] then forall i :: 0 <= i < |env| ==> !IsFunc(env[i])
            else forall i :: o[|o| - 1] < i < |env| ==> !IsFunc(env[i])
  {
    if env != [] {
      var n := |env| - 1;
      OffsetsLast(env[..n]);
      assert forall i :: 0 <= i < n ==> env[..n][i] == env[i];
    }
  }

  /** Inside a function, offsets count from the frame of the innermost function scope. Outside
      every function they count from below the scopes, or from the bottom. */
  lemma {:induction false} InnermostFunction(env: seq<Slot>, chain: seq<Sig>, scopes: seq<Scope>)
    requires Fits(env, chain) && Wellformed(scopes) && Completes(chain, scopes)
    ensures var g, below := LastGlobal(scopes, |scopes|), |env| - |chain|;
            if g > 0 then Base(env) == below + g - 1 else Base(env) < below || Base(env) == 0
  {
    var o, g, c := OffsetsOf(env), LastGlobal(scopes, |scopes|), |env| - |chain|;
    OffsetsLast(env);
    hide OffsetsOf, LastGlobal;
    if g > 0 { FrameKind(env, chain, scopes, g - 1); }
    if o != [] && o[|o| - 1] >= c { FrameKind(env, chain, scopes, o[|o| - 1] - c); }
  }

  lemma {:induction false} FrameKind(env: seq<Slot>, chain: seq<Sig>, scopes: seq<Scope>, i: nat)
    requires Fits(env, chain) && Completes(chain, scopes) && i < |chain|
    ensures IsFunc(env[|env| - |chain| + i]) <==> scopes[i + 1].kind == FuncScope
  {
    assert SlotFits(env[|env| - |chain| + i], chain[i]);
  }

  /** The frame of scope `k`. */
  ghost function FrameOf(env: seq<Slot>, chain: seq<Sig>, k: nat): int {
    |env| - |chain| + k - 1
  }

  ghost predicate Reaches(env: seq<Slot>, chain: seq<Sig>, v: Var, k: nat) {
    var r := Reached(env, if v.scope == FuncScope then Func else Local, v.soffset);
    r.At? && r.index == FrameOf(env, chain, k)
  }

  /** Where a use inside a function can reach scope `k`: the innermost scope, a function scope,
      or the outermost block. */
  ghost predicate Addressable(scopes: seq<Scope>, k: nat)
    requires k < |scopes|
  {
    k == |scopes| - 1 || scopes[k].kind == FuncScope || (k == 1 && LastGlobal(scopes, |scopes|) > 0)
  }

  /** Where a use can reach scope `k` under given frames. Outside every function the frames of
      callers below matter: the innermost block is found exactly when there are none, and an
      enclosing one only by the accident that they are as many as it is deep. */
  ghost predicate Findable(env: seq<Slot>, chain: seq<Sig>, scopes: seq<Scope>, k: nat)
    requires k < |scopes|
  {
    var below := |env| - |chain|;
    if LastGlobal(scopes, |scopes|) > 0 then Addressable(scopes, k)
    else if k == |scopes| - 1 then below == 0
    else Base(env) + k == below
  }

  /** What a resolved name's offset is, by where it is bound. */
  lemma {:induction false} OffsetOf(scopes: seq<Scope>, id: string, k: nat)
    requires Wellformed(scopes) && 0 < k == Nearest(scopes, id, |scopes|) && scopes[k].vars[id].scope != GlobalScope
    ensures var v, g, top := Resolve(scopes, id), LastGlobal(scopes, |scopes|), |scopes| - 1;
            && v.scope != GlobalScope && v.offset < |scopes[k].vars|
            && (v.scope == FuncScope <==> k == top && scopes[k].kind == FuncScope)
            && v.soffset == Direct(scopes, k) + if k == top then 0 else k - g
  {
    assert ScopeOk(scopes, k) && EntryOk(scopes, k, scopes[k].vars[id]);
    hide ScopeOk, LastGlobal, Direct;
  }

  /** Frame arithmetic: the offset designates scope `k`'s frame exactly when `k` is findable. */
  lemma {:induction false} DesignatesExactly(env: seq<Slot>, chain: seq<Sig>, scopes: seq<Scope>, k: nat, v: Var)
    requires 0 < k < |scopes| == |chain| + 1 && |chain| <= |env| && scopes[0].kind == GlobalScope
    requires forall i :: 0 < i < |scopes| ==> scopes[i].kind != GlobalScope
    requires var g, below := LastGlobal(scopes, |scopes|), |env| - |chain|;
             if g > 0 then Base(env) == below + g - 1 else Base(env) < below || Base(env) == 0
    requires v.scope == FuncScope <==> k == |scopes| - 1 && scopes[k].kind == FuncScope
    requires v.soffset == Direct(scopes, k) + if k == |scopes| - 1 then 0 else k - LastGlobal(scopes, |scopes|)
    ensures Base(env) + (if v.scope == FuncScope then 0 else v.soffset) == FrameOf(env, chain, k) <==>
            Findable(env, chain, scopes, k)
  {
    hide Base;
    var g := LastGlobal(scopes, |scopes|);
    var h := LastGlobal(scopes, k + 1);
    assert h <= k && (k == |scopes| - 1 ==> h == g) && (g == 0 ==> h == 0);
    assert scopes[k].kind == FuncScope ==> g >= k;
    assert g > k ==> scopes[g].kind != LocalScope;
    hide LastGlobal;
  }

  /** Under any frames that end with one for each enclosing scope, resolving a name leads to the
      frame of the scope that binds it exactly when that scope is findable; always, then, when
      it is a function scope. */
  lemma {:induction false} AddressExact(env: seq<Slot>, chain: seq<Sig>, scopes: seq<Scope>, id: string, k: nat)
    requires Fits(env, chain) && Wellformed(scopes) && Completes(chain, scopes)
    requires 0 < k == Nearest(scopes, id, |scopes|) && scopes[k].vars[id].scope != GlobalScope
    ensures Resolve(scopes, id).scope != GlobalScope
    ensures Reaches(env, chain, Resolve(scopes, id), k) <==> Findable(env, chain, scopes, k)
    ensures scopes[k].kind == FuncScope ==> Findable(env, chain, scopes, k)
    ensures var f := env[FrameOf(env, chain, k)]; f.Live? && Resolve(scopes, id).offset < f.f.size
  {
    InnermostFunction(env, chain, scopes);
    OffsetOf(scopes, id, k);
    DesignatesExactly(env, chain, scopes, k, Resolve(scopes, id));
    assert SlotFits(env[|env| - |chain| + (k - 1)], chain[k - 1]);
    assert scopes[k].kind == FuncScope ==> LastGlobal(scopes, |scopes|) >= k;
    hide OffsetsOf, Fits, Wellformed, Completes, Resolve, Findable, LastGlobal, Direct;
  }

  /** In every run that follows the program text, every access to a local name reaches, through
      the offsets computed while parsing, the frame of the activation that binds it exactly when
      the binding scope is findable under the frames then in force. */
  lemma {:induction false} AccessExact(acts: seq<Act>, i: nat, scopes: seq<Scope>, id: string, k: nat)
    requires ScopedAll(acts, [], []) && i < |Run(acts, [], World([], 0, [])).log|
    requires Wellformed(scopes) && Completes(Run(acts, [], World([], 0, [])).log[i].chain, scopes)
    requires 0 < k == Nearest(scopes, id, |scopes|) && scopes[k].vars[id].scope != GlobalScope
    ensures var seen := Run(acts, [], World([], 0, [])).log[i];
            && Fits(seen.env, seen.chain)
            && (Reaches(seen.env, seen.chain, Resolve(scopes, id), k) <==> Findable(seen.env, seen.chain, scopes, k))
  {
    var seen := Run(acts, [], World([], 0, [])).log[i];
    RunFits(acts, [], [], [], World([], 0, []));
    hide Fits;
    AddressExact(seen.env, seen.chain, scopes, id, k);
  }

  // ----- targets of assignments -----

  /** What the target of an assignment resolves to when the name is bound in the enclosing
      function or in a block in it. */
  function Written(scopes: seq<Scope>, id: string): Var
    requires scopes != [] && Nearest(scopes, id, |scopes|) >= 0
  {
    scopes[Nearest(scopes, id, |scopes|)].vars[id]
  }

  /** Looking a target up leaves a table in which the name is bound there, and yields what it
      resolves to. */
  lemma {:induction false} TargetBound(s: seq<Scope>, id: string)
    requires Wellformed(s)
    ensures var k, g := Nearest(s, id, |s|), LastGlobal(s, |s|);
            var v := if k >= g then s[k].vars[id] else Own(s, InFunc);
            var t := if k >= g then s else Installed(s, g, id, v);
            && LastGlobal(t, |t|) == g <= Nearest(t, id, |t|) && Written(t, id) == v
  {
    var g := LastGlobal(s, |s|);
    if Nearest(s, id, |s|) < g {
      var t := Installed(s, g, id, Own(s, InFunc));
      SameKinds(s, t, |s|);
      hide LastGlobal, Own;
      assert forall i :: g < i < |t| ==> id !in t[i].vars;
      assert id in t[g].vars;
      hide Nearest;
    }
  }

  /** A target's offset leads to the frame of the scope that binds it exactly when it lies in a
      function or no caller's frames lie below. */
  lemma {:induction false} TargetExact(env: seq<Slot>, chain: seq<Sig>, scopes: seq<Scope>, id: string, k: nat)
    requires Fits(env, chain) && Wellformed(scopes) && Completes(chain, scopes)
    requires 0 < k == Nearest(scopes, id, |scopes|) && k >= LastGlobal(scopes, |scopes|)
    requires Written(scopes, id).scope != GlobalScope
    ensures Reaches(env, chain, Written(scopes, id), k) <==> LastGlobal(scopes, |scopes|) > 0 || |env| == |chain|
    ensures var f := env[FrameOf(env, chain, k)]; f.Live? && Written(scopes, id).offset < f.f.size
  {
    hide OffsetsOf, Fits, Wellformed, LastGlobal, Base, Nearest;
    InnermostFunction(env, chain, scopes);
    TargetEntry(scopes, id, k);
    FrameAt(env, chain, scopes, k);
    Innermost(scopes, k);
    assert scopes[k].kind != LocalScope ==> k == LastGlobal(scopes, |scopes|);
  }

  lemma {:induction false} TargetEntry(scopes: seq<Scope>, id: string, k: nat)
    requires Wellformed(scopes) && k < |scopes| && id in scopes[k].vars
    ensures EntryOk(scopes, k, scopes[k].vars[id])
    ensures forall i :: 0 < i < |scopes| ==> scopes[i].kind != GlobalScope
  {
    assert ScopeOk(scopes, k);
  }

  /** The frame of scope `k` is there, unless the scope holds no name. */
  lemma {:induction false} FrameAt(env: seq<Slot>, chain: seq<Sig>, scopes: seq<Scope>, k: nat)
    requires Fits(env, chain) && Completes(chain, scopes) && 0 < k < |scopes| && |scopes[k].vars| > 0
    ensures 0 <= FrameOf(env, chain, k) < |env|
    ensures var f := env[FrameOf(env, chain, k)]; f.Live? && |scopes[k].vars| <= f.f.size
  {
    assert SlotFits(env[|env| - |chain| + (k - 1)], chain[k - 1]);
  }

  lemma {:induction false} Innermost(scopes: seq<Scope>, k: nat)
    requires k < |scopes| && k >= LastGlobal(scopes, |scopes|)
    ensures LastGlobal(scopes, k + 1) == LastGlobal(scopes, |scopes|)
  {
    var g, h := LastGlobal(scopes, |scopes|), LastGlobal(scopes, k + 1);
    hide LastGlobal;
    assert h == 0 || scopes[h].kind != LocalScope;
    assert g == 0 || scopes[g].kind != LocalScope;
  }

  /** Where offsets point, whether or not there is a frame. */
  ghost function Pointed(env: seq<Slot>, v: Var): int {
    Base(env) + if v.scope == FuncScope then 0 else v.soffset
  }

  /** Reading and assigning the same name from the same place designate the same frame exactly
      when the name is bound in the innermost scope or in the function itself; the slot is the
      same in any case. */
  lemma {:induction false} ReadWriteAgree(env: seq<Slot>, scopes: seq<Scope>, id: string, k: nat)
    requires Wellformed(scopes) && 0 < k == Nearest(scopes, id, |scopes|) && k >= LastGlobal(scopes, |scopes|)
    requires Written(scopes, id).scope != GlobalScope
    ensures Resolve(scopes, id).offset == Written(scopes, id).offset
    ensures Pointed(env, Resolve(scopes, id)) == Pointed(env, Written(scopes, id)) <==>
              k == |scopes| - 1 || k == LastGlobal(scopes, |scopes|)
  {
    OffsetOf(scopes, id, k);
    assert ScopeOk(scopes, k) && EntryOk(scopes, k, scopes[k].vars[id]);
    Innermost(scopes, k);
    hide Base, LastGlobal, ScopeOk, Wellformed;
  }

  /** In every run that follows the program text: every assignment to a name of the enclosing
      function or of a block in it reaches the frame that binds it, exactly when it is inside a
      function or no caller's frames lie below; always, then, inside a function. */
  lemma {:induction false} AssignmentExact(acts: seq<Act>, i: nat, scopes: seq<Scope>, id: string, k: nat)
    requires ScopedAll(acts, [], []) && i < |Run(acts, [], World([], 0, [])).log|
    requires Wellformed(scopes) && Completes(Run(acts, [], World([], 0, [])).log[i].chain, scopes)
    requires 0 < k == Nearest(scopes, id, |scopes|) && k >= LastGlobal(scopes, |scopes|)
    requires Written(scopes, id).scope != GlobalScope
    ensures var seen, v := Run(acts, [], World([], 0, [])).log[i], Written(scopes, id);
            && Fits(seen.env, seen.chain)
            && (Reaches(seen.env, seen.chain, v, k) <==>
                LastGlobal(scopes, |scopes|) > 0 || |seen.env| == |seen.chain|)
            && var f := seen.env[FrameOf(seen.env, seen.chain, k)]; f.Live? && v.offset < f.f.size
  {
    var seen := Run(acts, [], World([], 0, [])).log[i];
    RunFits(acts, [], [], [], World([], 0, []));
    hide Fits;
    TargetExact(seen.env, seen.chain, scopes, id, k);
    hide Reaches, Written;
  }

  /** Lexical addressing: in every run that follows the program text, every use of a name bound
      in a function scope reaches, through the offsets computed while parsing, the frame of that
      function's activation and a slot inside it; and so does every assignment to it that is not
      inside a further function. */
  lemma {:induction false} LexicalAddressing(acts: seq<Act>, i: nat, scopes: seq<Scope>, id: string, k: nat)
    requires ScopedAll(acts, [], []) && i < |Run(acts, [], World([], 0, [])).log|
    requires Wellformed(scopes) && Completes(Run(acts, [], World([], 0, [])).log[i].chain, scopes)
    requires 0 < k == Nearest(scopes, id, |scopes|) && scopes[k].kind == FuncScope
    requires scopes[k].vars[id].scope != GlobalScope
    ensures var seen, v := Run(acts, [], World([], 0, [])).log[i], Resolve(scopes, id);
            && Reaches(seen.env, seen.chain, v, k)
            && (k >= LastGlobal(scopes, |scopes|) ==> Reaches(seen.env, seen.chain, Written(scopes, id), k))
            && v.offset == Written(scopes, id).offset
            && var f := seen.env[FrameOf(seen.env, seen.chain, k)];
               f.Live? && f.f.kind == Func && v.offset < f.f.size
  {
    var seen := Run(acts, [], World([], 0, [])).log[i];
    RunFits(acts, [], [], [], World([], 0, []));
    AddressExact(seen.env, seen.chain, scopes, id, k);
    if k >= LastGlobal(scopes, |scopes|) { TargetExact(seen.env, seen.chain, scopes, id, k); }
    assert SlotFits(seen.env[|seen.env| - |seen.chain| + (k - 1)], seen.chain[k - 1]);
    hide Findable, Reaches;
  }

  ghost function NestedBlocks(): seq<Scope> {
    [Scope(GlobalScope, map[]), Scope(FuncScope, map[]), Scope(LocalScope, map["x" := Var(LocalScope, 1, 0)]),
     Scope(LocalScope, map[])]
  }

  /** A variable of a block is missed from a block nested in it: inside a function, under any
      frames, the name resolves one frame too high. */
  lemma {:induction false} BlockVariableMissed(env: seq<Slot>, chain: seq<Sig>)
    requires Fits(env, chain) && Completes(chain, NestedBlocks())
    ensures var scopes := NestedBlocks();
            && Wellformed(scopes) && Nearest(scopes, "x", 4) == 2
            && Resolve(scopes, "x").soffset == 2 && !Reaches(env, chain, Resolve(scopes, "x"), 2)
  {
    var scopes := NestedBlocks();
    assert LastGlobal(scopes, 4) == LastGlobal(scopes, 3) == LastGlobal(scopes, 2) == 1;
    forall k | 0 <= k < 4 ensures ScopeOk(scopes, k) {}
    assert Nearest(scopes, "x", 4) == Nearest(scopes, "x", 3) == 2;
    AddressExact(env, chain, scopes, "x", 2);
  }

  /** From the same place an assignment to that variable does reach its block's frame, so that it
      is not seen by the read. */
  lemma {:induction false} BlockVariableSplit(env: seq<Slot>, chain: seq<Sig>)
    requires Fits(env, chain) && Completes(chain, NestedBlocks())
    ensures var scopes := NestedBlocks();
            && Nearest(scopes, "x", 4) == 2 && Reaches(env, chain, Written(scopes, "x"), 2)
            && !Reaches(env, chain, Resolve(scopes, "x"), 2)
  {
    var scopes := NestedBlocks();
    BlockVariableMissed(env, chain);
    assert LastGlobal(scopes, 4) == LastGlobal(scopes, 3) == LastGlobal(scopes, 2) == 1;
    hide Wellformed, Fits, Completes;
    TargetExact(env, chain, scopes, "x", 2);
  }

  /** A function is called, and while it is active a `whenever` written at the outermost level
      is run; its block uses its own variable. */
  ghost function OuterWhenever(): seq<Act> {
    [Capture, Capture, Call(0, 1, [Notify(1, [Block(1, [Use([Sig(Local, 1)])])])])]
  }

  ghost function OuterScopes(): seq<Scope> {
    [Scope(GlobalScope, map[]), Scope(LocalScope, map["x" := Var(LocalScope, 0, 0)])]
  }

  lemma {:induction false} Single(a: Act, env: seq<Slot>, w: World, chain: seq<Sig>, k: seq<seq<Sig>>)
    ensures Run([a], env, w) == Step(a, env, w) && (ScopedAll([a], chain, k) <==> Scoped(a, chain, k))
    ensures FlowAll([a], chain, k) == Flow(a, chain, k)
  {
    assert [a][1..] == [];
    hide Step, Scoped, Flow;
  }

  /** The body of the `whenever`, under the frame of the active function. */
  lemma {:induction false} OuterWheneverBody(w: World, k: seq<seq<Sig>>)
    requires w.caps == [Nothing, Nothing] && k == [[], []] && w.next == 1
    ensures var body := [Notify(1, [Block(1, [Use([Sig(Local, 1)])])])];
            var f := Live(Frame(0, Func, 1));
            && Run(body, [f], w).log == w.log + [Seen([f, Live(Frame(1, Local, 1))], [Sig(Local, 1)])]
            && ScopedAll(body, [Sig(Func, 1)], k)
  {
    var use, f, b := Use([Sig(Local, 1)]), Live(Frame(0, Func, 1)), Live(Frame(1, Local, 1));
    assert [f] + [b] == [f, b] && [] + [Sig(Local, 1)] == [Sig(Local, 1)];
    Single(use, [f, b], w.(next := 2), [Sig(Local, 1)], k);
    Single(Block(1, [use]), [f], w, [], k);
    Single(Notify(1, [Block(1, [use])]), [f], w, [Sig(Func, 1)], k);
  }

  lemma {:induction false} OuterWheneverRun()
    ensures ScopedAll(OuterWhenever(), [], [])
    ensures Run(OuterWhenever(), [], World([], 0, [])).log ==
            [Seen([Live(Frame(0, Func, 1)), Live(Frame(1, Local, 1))], [Sig(Local, 1)])]
  {
    var w := World([Nothing, Nothing], 0, []);
    var call := Call(0, 1, [Notify(1, [Block(1, [Use([Sig(Local, 1)])])])]);
    var f := Live(Frame(0, Func, 1));
    OuterWheneverBody(w.(next := 1), [[], []]);
    Single(call, [], w, [], [[], []]);
    assert [] + [f] == [f] && [] + [Sig(Func, 1)] == [Sig(Func, 1)];
    assert OuterWhenever()[1..] == [Capture, call] && [Capture, call][1..] == [call];
    assert Capturing([]) == Nothing && [Nothing] + [Nothing] == [Nothing, Nothing];
    assert Run([Capture, call], [], World([Nothing], 0, [])) == Run([call], [], w);
    var none: seq<seq<Sig>> := [[]];
    assert none + none == [[], []];
    assert ScopedAll([Capture, call], [], none);
  }

  /** The block's variable is missed in that run, though it is bound in the innermost scope: its
      offset is taken from the frame of the active function. */
  lemma {:induction false} OuterWheneverMissed()
    ensures ScopedAll(OuterWhenever(), [], []) && |Run(OuterWhenever(), [], World([], 0, [])).log| == 1
    ensures var seen, scopes := Run(OuterWhenever(), [], World([], 0, [])).log[0], OuterScopes();
            && Wellformed(scopes) && Completes(seen.chain, scopes) && Nearest(scopes, "x", 2) == 1
            && !Findable(seen.env, seen.chain, scopes, 1) && !Reaches(seen.env, seen.chain, Resolve(scopes, "x"), 1)
  {
    OuterWheneverRun();
    var scopes := OuterScopes();
    assert LastGlobal(scopes, 2) == LastGlobal(scopes, 1) == 0;
    forall k | 0 <= k < 2 ensures ScopeOk(scopes, k) {}
    hide Run, ScopedAll;
    AccessExact(OuterWhenever(), 0, scopes, "x", 1);
  }
}
