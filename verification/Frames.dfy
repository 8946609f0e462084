/** The interpreter's run-time frame stacks: functions and `whenever` bodies capture the frames
    in force where they are defined, and are later run on the captured stack itself or, when
    that is in use, on a clipped copy. */
module Frames {

  datatype Kind = Local | Func

  /** A frame; `id` stands for its address. */
  datatype Frame = Frame(id: nat, kind: Kind, size: nat)

  /** Entry of a frame list: a block without variables pushes a null frame. */
  datatype Slot = Null | Live(f: Frame)

  predicate IsFunc(s: Slot) {
    s.Live? && s.f.kind == Func
  }

  /** Positions of the function frames, in order. */
  function OffsetsOf(frames: seq<Slot>): (o: seq<nat>)
    ensures forall i :: 0 <= i < |o| ==> o[i] < |frames| && IsFunc(frames[o[i]])
  {
    if frames == [] then []
    else
      var n := |frames| - 1;
      OffsetsOf(frames[..n]) + (if IsFunc(frames[n]) then [n] else [])
  }

  // ----- reference: an environment-passing interpreter -----

  /** One scope of the program text: its kind and the size of its frame. */
  datatype Sig = Sig(kind: Kind, size: nat)

  /** One action of a run. A run is a tree: calls, blocks and notifications contain the actions
      performed until they return. `Use` marks a variable access under the given static scopes;
      `Capture` the creation of a function value or `whenever`; `fn` counts captures. */
  datatype Act =
    | Use(chain: seq<Sig>)
    | Capture
    | Call(fn: nat, size: nat, body: seq<Act>)
    | Block(size: nat, body: seq<Act>)
    | Notify(fn: nat, body: seq<Act>)
    | Include(body: seq<Act>)

  /** What an access saw. */
  datatype Seen = Seen(env: seq<Slot>, chain: seq<Sig>)

  datatype Captured = Nothing | Env(env: seq<Slot>)

  datatype World = World(caps: seq<Captured>, next: nat, log: seq<Seen>)

  function Capturing(env: seq<Slot>): Captured {
    if env == [] then Nothing else Env(env)
  }

  /** The environment a captured value runs in; without captured frames it runs in the
      caller's. */
  function Enter(w: World, fn: nat, env: seq<Slot>): seq<Slot> {
    if fn < |w.caps| && w.caps[fn].Env? then w.caps[fn].env else env
  }

  function BlockSlot(w: World, size: nat): Slot {
    if size == 0 then Null else Live(Frame(w.next, Local, size))
  }

  ghost function Run(acts: seq<Act>, env: seq<Slot>, w: World): World
    decreases acts, 1
  {
    if acts == [] then w else Run(acts[1..], env, Step(acts[0], env, w))
  }

  ghost function Step(a: Act, env: seq<Slot>, w: World): World
    decreases a, 0
  {
    match a
    case Use(chain) => w.(log := w.log + [Seen(env, chain)])
    case Capture => w.(caps := w.caps + [Capturing(env)])
    case Call(fn, size, body) =>
      Run(body, Enter(w, fn, env) + [Live(Frame(w.next, Func, size))], w.(next := w.next + 1))
    case Block(size, body) => Run(body, env + [BlockSlot(w, size)], w.(next := w.next + 1))
    case Notify(fn, body) => Run(body, Enter(w, fn, env), w)
    case Include(body) => Run(body, [], w)
  }

  // ----- frames of one's own -----

  /** Live slots at different positions hold different frames. */
  ghost predicate Separate(env: seq<Slot>) {
    forall i, j :: 0 <= i < j < |env| && env[i].Live? && env[j].Live? ==> env[i].f.id != env[j].f.id
  }

  ghost predicate Holds(env: seq<Slot>, id: nat) {
    exists i :: 0 <= i < |env| && env[i].Live? && env[i].f.id == id
  }

  /** All frames of the list are separate and have been made. */
  ghost predicate Made(env: seq<Slot>, next: nat) {
    Separate(env) && forall i :: 0 <= i < |env| && env[i].Live? ==> env[i].f.id < next
  }

  /** In everything captured and everything seen. */
  ghost predicate AllMade(w: World) {
    && (forall i :: 0 <= i < |w.caps| && w.caps[i].Env? ==> Made(w.caps[i].env, w.next))
    && forall i :: 0 <= i < |w.log| ==> Made(w.log[i].env, w.next)
  }

  lemma {:induction false} MadeMore(env: seq<Slot>, next: nat, s: Slot)
    requires Made(env, next) && (s.Live? ==> s.f.id == next)
    ensures Made(env + [s], next + 1)
  {
  }

  lemma {:induction false} NoneMade(next: nat)
    ensures Made([], next)
  {
  }

  lemma {:induction false} MadeLater(w: World, next: nat)
    requires AllMade(w) && w.next <= next
    ensures AllMade(w.(next := next))
  {
  }

  /** In every run, every environment that is seen or captured holds different frames at
      different positions, however often functions and blocks are entered again. */
  lemma {:induction false} RunSeparate(acts: seq<Act>, env: seq<Slot>, w: World)
    requires AllMade(w) && Made(env, w.next)
    ensures AllMade(Run(acts, env, w)) && w.next <= Run(acts, env, w).next
    decreases acts, 1
  {
    if acts != [] {
      StepSeparate(acts[0], env, w);
      hide AllMade;
      RunSeparate(acts[1..], env, Step(acts[0], env, w));
    }
  }

  lemma {:induction false} StepSeparate(a: Act, env: seq<Slot>, w: World)
    requires AllMade(w) && Made(env, w.next)
    ensures AllMade(Step(a, env, w)) && w.next <= Step(a, env, w).next && Made(env, Step(a, env, w).next)
    decreases a, 0
  {
    hide Separate;
    match a {
      case Use(_) =>
      case Capture =>
      case Call(fn, size, body) =>
        MadeMore(Enter(w, fn, env), w.next, Live(Frame(w.next, Func, size)));
        MadeLater(w, w.next + 1);
        RunSeparate(body, Enter(w, fn, env) + [Live(Frame(w.next, Func, size))], w.(next := w.next + 1));
      case Block(size, body) =>
        MadeMore(env, w.next, BlockSlot(w, size));
        MadeLater(w, w.next + 1);
        RunSeparate(body, env + [BlockSlot(w, size)], w.(next := w.next + 1));
      case Notify(fn, body) => RunSeparate(body, Enter(w, fn, env), w);
      case Include(body) =>
        NoneMade(w.next);
        RunSeparate(body, [], w);
    }
  }

  /** A frame that nothing in force, captured or seen so far holds. */
  ghost predicate Unused(f: Frame, env: seq<Slot>, w: World) {
    && !Holds(env, f.id) && (forall i :: 0 <= i < |w.caps| && w.caps[i].Env? ==> !Holds(w.caps[i].env, f.id))
    && forall i :: 0 <= i < |w.log| ==> !Holds(w.log[i].env, f.id)
  }

  lemma {:induction false} NextUnused(f: Frame, env: seq<Slot>, w: World)
    requires AllMade(w) && Made(env, w.next) && f.id >= w.next
    ensures Unused(f, env, w)
  {
    hide Separate;
  }

  /** An activation: the body of a call or of a block with variables runs with one frame more, of
      the right kind and size, that nothing in force, captured or seen so far holds, in a world
      from which that frame counts as made. */
  lemma {:induction false} ActivationIsNew(a: Act, env: seq<Slot>, w: World) returns (f: Frame, begun: World)
    requires AllMade(w) && Made(env, w.next) && (a.Call? || (a.Block? && a.size > 0))
    ensures Unused(f, env, w) && f.size == a.size && f.kind == (if a.Call? then Func else Local)
    ensures begun.caps == w.caps && begun.log == w.log && begun.next > f.id && AllMade(begun)
    ensures var below := if a.Call? then Enter(w, a.fn, env) else env;
            Made(below + [Live(f)], begun.next) && Step(a, env, w) == Run(a.body, below + [Live(f)], begun)
  {
    f := Frame(w.next, if a.Call? then Func else Local, a.size);
    begun := w.(next := w.next + 1);
    NextUnused(f, env, w);
    MadeLater(w, w.next + 1);
    MadeMore(if a.Call? then Enter(w, a.fn, env) else env, w.next, Live(f));
    hide Separate, Unused;
  }

  lemma {:induction false} RunExtends(acts: seq<Act>, env: seq<Slot>, w: World)
    ensures w.caps <= Run(acts, env, w).caps && w.log <= Run(acts, env, w).log
    decreases acts, 1
  {
    if acts != [] {
      StepExtends(acts[0], env, w);
      RunExtends(acts[1..], env, Step(acts[0], env, w));
    }
  }

  lemma {:induction false} StepExtends(a: Act, env: seq<Slot>, w: World)
    ensures w.caps <= Step(a, env, w).caps && w.log <= Step(a, env, w).log
    decreases a, 0
  {
    match a {
      case Use(_) =>
      case Capture =>
      case Call(fn, size, body) =>
        RunExtends(body, Enter(w, fn, env) + [Live(Frame(w.next, Func, size))], w.(next := w.next + 1));
      case Block(size, body) => RunExtends(body, env + [BlockSlot(w, size)], w.(next := w.next + 1));
      case Notify(fn, body) => RunExtends(body, Enter(w, fn, env), w);
      case Include(body) => RunExtends(body, [], w);
    }
  }

  lemma {:induction false} OneUse(chain: seq<Sig>, env: seq<Slot>, w: World)
    ensures Run([Use(chain)], env, w) == w.(log := w.log + [Seen(env, chain)])
  {
    assert [Use(chain)][1..] == [];
  }

  /** Closures: whatever is run between the definition and the call, and wherever the call is
      made, a use in a function's body sees the frames in force at the definition and then the
      call's own; in a `whenever` body it sees those of the statement. Only where there were none
      are they the caller's. */
  lemma {:induction false} ClosureRemembers(env: seq<Slot>, w: World, mid: seq<Act>, during: seq<Slot>,
                                            caller: seq<Slot>, size: nat, chain: seq<Sig>)
    ensures var later := Run(mid, during, Step(Capture, env, w));
            var home := if env == [] then caller else env;
            && Step(Call(|w.caps|, size, [Use(chain)]), caller, later).log ==
                 later.log + [Seen(home + [Live(Frame(later.next, Func, size))], chain)]
            && Step(Notify(|w.caps|, [Use(chain)]), caller, later).log == later.log + [Seen(home, chain)]
  {
    var made := Step(Capture, env, w);
    var later := Run(mid, during, made);
    RunExtends(mid, during, made);
    assert later.caps[|w.caps|] == made.caps[|w.caps|];
    var home := if env == [] then caller else env;
    assert Enter(later, |w.caps|, caller) == home;
    OneUse(chain, home, later);
    OneUse(chain, home + [Live(Frame(later.next, Func, size))], later.(next := later.next + 1));
    hide Run;
  }

  /** An included file sees no frames, and a block those in force and its own. */
  lemma {:induction false} BodiesSee(env: seq<Slot>, w: World, size: nat, chain: seq<Sig>)
    ensures Step(Include([Use(chain)]), env, w).log == w.log + [Seen([], chain)]
    ensures Step(Block(size, [Use(chain)]), env, w).log ==
              w.log + [Seen(env + [if size == 0 then Null else Live(Frame(w.next, Local, size))], chain)]
  {
    OneUse(chain, [], w);
    OneUse(chain, env + [BlockSlot(w, size)], w.(next := w.next + 1));
    hide Run;
  }

  // ----- reading a variable's frame -----

  datatype Reach = Error | At(index: nat)

  /** Where offsets are counted from: the innermost function frame, or the bottom. */
  ghost function Base(env: seq<Slot>): nat {
    var o := OffsetsOf(env);
    if o == [] then 0 else o[|o| - 1]
  }

  /** The frame that a scope offset designates: relative to the innermost function frame, or to
      the bottom of the list when there is none. */
  ghost function Reached(env: seq<Slot>, kind: Kind, soffset: int): Reach {
    var index := Base(env) + (if kind == Local then soffset else 0);
    if 0 <= index < |env| && env[index].Live? then At(index) else Error
  }

  // ----- the machine -----

  class StackType {
    var frames: seq<Slot>
    const flen: nat
    var offsets: seq<nat>
    const olen: nat
    const origin: StackType?

    constructor ()
      ensures frames == [] && offsets == [] && flen == 0 && olen == 0 && origin == null
    {
      frames, offsets, flen, olen, origin := [], [], 0, 0, null;
    }

    /** Copies another stack: all of it, or only what it held when it was made. */
    constructor Copy(other: StackType, clip: bool, spot: bool)
      requires other.flen <= |other.frames| && other.olen <= |other.offsets|
      ensures frames == if clip then other.frames[..other.flen] else other.frames
      ensures offsets == if clip then other.offsets[..other.olen] else other.offsets
      ensures flen == |frames| && olen == |offsets|
      ensures origin == if spot then other else null
    {
      var n := if clip then other.flen else |other.frames|;
      frames, flen := other.frames[..n], n;
      var m := if clip then other.olen else |other.offsets|;
      offsets, olen := other.offsets[..m], m;
      origin := if spot then other else null;
    }

    ghost predicate Valid()
      reads this
    {
      && flen <= |frames| && offsets == OffsetsOf(frames)
      && olen <= |offsets| && offsets[..olen] == OffsetsOf(frames[..flen])
    }

    method Append(s: Slot)
      requires Valid()
      modifies this
      ensures Valid() && frames == old(frames) + [s] && frames[..flen] == old(frames[..flen])
    {
      OffsetsSnoc(frames, s);
      hide OffsetsOf;
      frames := frames + [s];
      if IsFunc(s) { offsets := offsets + [|frames| - 1]; }
      assert frames[..flen] == old(frames)[..flen];
    }

    method RemoveLast() returns (s: Slot)
      requires Valid() && flen < |frames|
      modifies this
      ensures Valid() && old(frames) == frames + [s] && frames[..flen] == old(frames[..flen])
    {
      var n := |frames| - 1;
      s := frames[n];
      assert frames == frames[..n] + [s];
      OffsetsSnoc(frames[..n], s);
      OffsetsPrefix(frames[..n], flen);
      hide OffsetsOf;
      frames := frames[..n];
      if IsFunc(s) {
        ghost var o := OffsetsOf(frames);
        offsets := RemoveFirst(offsets, n);
        LastRemoved(o, n, offsets);
      }
      assert frames[..flen] == old(frames)[..flen];
    }
  }

  /** Removes the first occurrence of `x`. */
  method RemoveFirst(s: seq<nat>, x: nat) returns (r: seq<nat>)
    ensures x !in s ==> r == s
    ensures x in s ==> exists i :: 0 <= i < |s| && s[i] == x && x !in s[..i] && r == s[..i] + s[i + 1..]
  {
    for i := 0 to |s|
      invariant x !in s[..i]
    {
      if s[i] == x { return s[..i] + s[i + 1..]; }
    }
    return s;
  }

  lemma {:induction false} OffsetsSnoc(frames: seq<Slot>, s: Slot)
    ensures OffsetsOf(frames + [s]) == OffsetsOf(frames) + (if IsFunc(s) then [|frames|] else [])
    ensures |frames| !in OffsetsOf(frames)
  {
    assert (frames + [s])[..|frames|] == frames;
  }

  class Sequencer {
    var stack: seq<StackType>
    var closures: seq<StackType?>
    var next: nat
    var log: seq<Seen>
    var fatal: bool
    ghost var caps: seq<Captured>
    ghost var repr: set<StackType>

    ghost predicate Valid()
      reads this, repr
    {
      && stack != [] && (forall i :: 0 <= i < |stack| ==> stack[i] in repr)
      && (forall s :: s in repr ==> s.Valid())
      && |closures| == |caps|
      && (forall i :: 0 <= i < |caps| ==>
            if closures[i] == null then caps[i] == Nothing
            else closures[i] in repr && closures[i].origin == null
                 && caps[i] == Env(closures[i].frames[..closures[i].flen]))
    }

    ghost function Abs(): World
      reads this
    {
      World(caps, next, log)
    }

    function Top(): StackType
      requires stack != []
      reads this
    {
      stack[|stack| - 1]
    }

    constructor ()
      ensures Valid() && !fatal && fresh(repr)
      ensures Abs() == World([], 0, []) && Top().frames == []
    {
      var st := new StackType();
      stack, closures, next, log, fatal, caps, repr := [st], [], 0, [], false, [], {st};
    }

    method PushFrame(s: Slot)
      requires Valid()
      modifies Top()
      ensures Valid() && Top().frames == old(Top().frames) + [s]
    {
      hide StackType.Valid;
      Top().Append(s);
    }

    method PopFrame() returns (s: Slot)
      requires Valid() && Top().flen < |Top().frames|
      modifies Top()
      ensures Valid() && old(Top().frames) == Top().frames + [s]
    {
      hide StackType.Valid;
      s := Top().RemoveLast();
    }

    /** Runs on the captured stack itself unless it is in use, then on a clipped copy. */
    method PushFrames(st: StackType)
      requires Valid() && st in repr && st.origin == null
      modifies this`stack, this`repr
      ensures Valid() && stack[..|stack| - 1] == old(stack)
      ensures Top().frames == st.frames[..st.flen] && Top().flen == |Top().frames|
      ensures Top() == st || (fresh(Top()) && Top().origin == st)
      ensures repr == old(repr) + {Top()}
    {
      if st.flen != |st.frames| {
        var ns := Clipped(st);
        hide StackType.Valid;
        stack := stack + [ns];
        repr := repr + {ns};
      } else {
        stack := stack + [st];
        assert st.frames == st.frames[..st.flen];
      }
    }

    /** A copy of what a stack held when it was made. */
    method Clipped(st: StackType) returns (ns: StackType)
      requires st.Valid()
      ensures fresh(ns) && ns.Valid() && ns.origin == st && ns.frames == st.frames[..st.flen] && ns.flen == |ns.frames|
    {
      ns := new StackType.Copy(st, true, true);
      assert ns.frames[..ns.flen] == ns.frames && ns.offsets[..ns.olen] == ns.offsets;
    }

    method PopFrames() returns (r: StackType)
      requires Valid() && |stack| > 1
      modifies this`stack
      ensures Valid() && stack == old(stack)[..|old(stack)| - 1]
      ensures r == if old(Top()).origin != null then old(Top()).origin else old(Top())
    {
      var ns := Top();
      stack := stack[..|stack| - 1];
      r := if ns.origin != null then ns.origin else ns;
    }

    /** Captures the frames in force. */
    method LocalFrames() returns (st: StackType?)
      requires Valid()
      modifies this`repr
      ensures st == null <==> Top().frames == []
      ensures st != null ==> fresh(st) && st.Valid() && st.origin == null
      ensures st != null ==> st.frames == Top().frames && st.flen == |st.frames|
      ensures repr == if st == null then old(repr) else old(repr) + {st}
    {
      if |Top().frames| == 0 { return null; }
      st := new StackType.Copy(Top(), false, false);
      assert st.frames[..st.flen] == st.frames && st.offsets[..st.olen] == st.offsets;
      repr := repr + {st};
    }

    /** Finds the frame for an offset pair; the null-frame and range checks are fatal errors. */
    method FrameElement(kind: Kind, soffset: int) returns (r: Reach)
      requires Valid()
      ensures r == Reached(Top().frames, kind, soffset)
      ensures r.At? ==> r.index < |Top().frames| && Top().frames[r.index].Live?
      ensures r.Error? ==> var at := Base(Top().frames) + (if kind == Local then soffset else 0);
                at < 0 || at >= |Top().frames| || Top().frames[at].Null?
    {
      var t := Top();
      assert t.Valid();
      var g := |t.offsets| - 1;
      var index := if kind == Local then soffset else 0;
      if g >= 0 { index := index + t.offsets[g]; }
      if index < 0 || index >= |t.frames| || t.frames[index].Null? { return Error; }
      return At(index);
    }

    /** A variable access. */
    method Access(chain: seq<Sig>)
      requires Valid()
      modifies this`log
      ensures Valid() && Abs() == Step(Use(chain), Top().frames, old(Abs()))
    {
      log := log + [Seen(Top().frames, chain)];
    }

    method MakeClosure()
      requires Valid()
      modifies this`closures, this`caps, this`repr
      ensures Valid() && Abs() == Step(Capture, Top().frames, old(Abs()))
      ensures old(repr) <= repr && fresh(repr - old(repr))
    {
      hide OffsetsOf;
      var st := LocalFrames();
      closures := closures + [st];
      caps := caps + [Capturing(Top().frames)];
      if st != null { assert st.frames == st.frames[..st.flen]; }
    }

    lemma {:induction false} TopFacts()
      requires Valid()
      ensures stack != [] && Top() in repr && Top().flen <= |Top().frames|
    {
    }

    /** The address of a new frame. */
    method NewFrame(kind: Kind, size: nat) returns (f: Frame)
      requires Valid()
      modifies this`next
      ensures Valid() && next == old(next) + 1 && f == Frame(old(next), kind, size)
    {
      f := Frame(next, kind, size);
      next := next + 1;
    }

    /** Runs the actions. Whatever they call, re-enter or capture, the stacks end as they began,
        no inconsistency is reported, and every access sees the frames that passing
        environments around would give. */
    method Exec(acts: seq<Act>)
      requires Valid() && !fatal
      modifies this, repr
      ensures Valid() && !fatal && stack == old(stack)
      ensures old(repr) <= repr && fresh(repr - old(repr))
      ensures forall s :: s in old(repr) ==> s.frames == old(s.frames)
      ensures Abs() == Run(acts, old(Top().frames), old(Abs()))
      decreases acts, 1
    {
      if acts != [] {
        TopFacts();
        hide Sequencer.Valid, StackType.Valid;
        ExecOne(acts[0]);
        label mid:
        TopFacts();
        Exec(acts[1..]);
        assert forall s :: s in old(repr) ==> s in old@mid(repr);
      }
    }

    method ExecOne(a: Act)
      requires Valid() && !fatal
      modifies this, repr
      ensures Valid() && !fatal && stack == old(stack)
      ensures old(repr) <= repr && fresh(repr - old(repr))
      ensures forall s :: s in old(repr) ==> s.frames == old(s.frames)
      ensures Abs() == Step(a, old(Top().frames), old(Abs()))
      decreases a, 0
    {
      hide Sequencer.Valid, StackType.Valid, Run, Step;
      TopFacts();
      match a {
        case Use(chain) => Access(chain);
        case Capture => MakeClosure();
        case Block(size, body) => ExecBlock(size, body);
        case Call(fn, size, body) => ExecCall(fn, size, body);
        case Notify(fn, body) => ExecNotify(fn, body);
        case Include(body) => ExecInclude(body);
      }
    }

    /** The interpreter's consistency checks: a mismatch is fatal. */
    method Check(ok: bool)
      requires Valid()
      modifies this`fatal
      ensures Valid() && fatal == (old(fatal) || !ok)
    {
      if !ok { fatal := true; }
    }

    /** Runs `body` with one more frame. */
    method ExecWith(slot: Slot, body: seq<Act>)
      requires Valid() && !fatal
      modifies this, repr
      ensures Valid() && !fatal && stack == old(stack)
      ensures old(repr) <= repr && fresh(repr - old(repr))
      ensures forall s :: s in old(repr) ==> s.frames == old(s.frames)
      ensures Abs() == Run(body, old(Top().frames) + [slot], old(Abs()))
      decreases body, 2
    {
      TopFacts();
      hide Sequencer.Valid, StackType.Valid, Run;
      ghost var env := Top().frames;
      PushFrame(slot);
      Exec(body);
      Unwind(slot, env);
    }

    /** Takes off the frame that was pushed, and checks that it is that one. */
    method Unwind(slot: Slot, ghost env: seq<Slot>)
      requires Valid() && !fatal && Top().frames == env + [slot] && Top().flen <= |env|
      modifies this`fatal, Top()
      ensures Valid() && !fatal && Top().frames == env
    {
      ghost var t := Top();
      hide Sequencer.Valid, StackType.Valid;
      var popped := PopFrame();
      assert (env + [slot])[|env|] == slot && (t.frames + [popped])[|env|] == popped;
      assert t.frames == (env + [slot])[..|env|] == env;
      Check(popped == slot);
    }

    /** A statement block. */
    method ExecBlock(size: nat, body: seq<Act>)
      requires Valid() && !fatal
      modifies this, repr
      ensures Valid() && !fatal && stack == old(stack)
      ensures old(repr) <= repr && fresh(repr - old(repr))
      ensures forall s :: s in old(repr) ==> s.frames == old(s.frames)
      ensures Abs() == Step(Block(size, body), old(Top().frames), old(Abs()))
      decreases body, 3
    {
      TopFacts();
      hide Sequencer.Valid, StackType.Valid, Run;
      var f := NewFrame(Local, size);
      ExecWith(if size == 0 then Null else Live(f), body);
    }

    /** A function call: onto the function's captured stack when it has one, else onto the
        caller's. */
    method ExecCall(fn: nat, size: nat, body: seq<Act>)
      requires Valid() && !fatal
      modifies this, repr
      ensures Valid() && !fatal && stack == old(stack)
      ensures old(repr) <= repr && fresh(repr - old(repr))
      ensures forall s :: s in old(repr) ==> s.frames == old(s.frames)
      ensures Abs() == Step(Call(fn, size, body), old(Top().frames), old(Abs()))
      decreases body, 6
    {
      hide Sequencer.Valid, StackType.Valid, Run;
      TopFacts();
      if fn < |closures| && closures[fn] != null {
        ClosureFacts(fn);
        var st := closures[fn];
        var f := NewFrame(Func, size);
        ExecOn(st, [Live(f)], body);
      } else {
        NoClosure(fn);
        var f := NewFrame(Func, size);
        ExecWith(Live(f), body);
      }
    }

    /** A `whenever` body run for an event. */
    method ExecNotify(fn: nat, body: seq<Act>)
      requires Valid() && !fatal
      modifies this, repr
      ensures Valid() && !fatal && stack == old(stack)
      ensures old(repr) <= repr && fresh(repr - old(repr))
      ensures forall s :: s in old(repr) ==> s.frames == old(s.frames)
      ensures Abs() == Step(Notify(fn, body), old(Top().frames), old(Abs()))
      decreases body, 6
    {
      hide Sequencer.Valid, StackType.Valid, Run;
      TopFacts();
      if fn < |closures| && closures[fn] != null {
        ClosureFacts(fn);
        ghost var e := closures[fn].frames[..closures[fn].flen];
        assert e + [] == e;
        ExecOn(closures[fn], [], body);
      } else {
        NoClosure(fn);
        Exec(body);
      }
    }

    /** Runs `body` on a captured stack, above it at most one new frame. */
    method ExecOn(st: StackType, own: seq<Slot>, body: seq<Act>)
      requires Valid() && !fatal && st in repr && st.origin == null && st.flen <= |st.frames| && |own| <= 1
      modifies this, repr
      ensures Valid() && !fatal && stack == old(stack)
      ensures old(repr) <= repr && fresh(repr - old(repr))
      ensures forall s :: s in old(repr) ==> s.frames == old(s.frames)
      ensures Abs() == Run(body, old(st.frames)[..st.flen] + own, old(Abs()))
      decreases body, 5
    {
      TopFacts();
      hide Sequencer.Valid, StackType.Valid, Run;
      PushFrames(st);
      ExecPushed(st, own, body);
    }

    /** Runs `body` on the stack pushed last, and takes it off again. */
    method ExecPushed(st: StackType, own: seq<Slot>, body: seq<Act>)
      requires Valid() && !fatal && |own| <= 1 && |stack| > 1
      requires st == if Top().origin != null then Top().origin else Top()
      modifies this, repr
      ensures Valid() && !fatal && stack == old(stack)[..|old(stack)| - 1]
      ensures old(repr) <= repr && fresh(repr - old(repr))
      ensures forall s :: s in old(repr) ==> s.frames == old(s.frames)
      ensures Abs() == Run(body, old(Top().frames) + own, old(Abs()))
      decreases body, 4
    {
      TopFacts();
      hide Sequencer.Valid, StackType.Valid, Run;
      ExecOwn(own, body);
      var back := PopFrames();
      Check(back == st);
    }

    method ExecOwn(own: seq<Slot>, body: seq<Act>)
      requires Valid() && !fatal && |own| <= 1
      modifies this, repr
      ensures Valid() && !fatal && stack == old(stack)
      ensures old(repr) <= repr && fresh(repr - old(repr))
      ensures forall s :: s in old(repr) ==> s.frames == old(s.frames)
      ensures Abs() == Run(body, old(Top().frames) + own, old(Abs()))
      decreases body, 3
    {
      TopFacts();
      hide Sequencer.Valid, StackType.Valid, Run;
      if own == [] {
        assert Top().frames + own == Top().frames;
        Exec(body);
      } else {
        assert own == [own[0]];
        ExecWith(own[0], body);
      }
    }

    lemma {:induction false} ClosureFacts(fn: nat)
      requires Valid() && fn < |closures| && closures[fn] != null
      ensures var st := closures[fn]; st in repr && st.origin == null && st.flen <= |st.frames|
      ensures Enter(Abs(), fn, Top().frames) == closures[fn].frames[..closures[fn].flen]
    {
    }

    lemma {:induction false} NoClosure(fn: nat)
      requires Valid() && !(fn < |closures| && closures[fn] != null)
      ensures Enter(Abs(), fn, Top().frames) == Top().frames
    {
    }

    /** An included file runs on an empty stack of its own. */
    method ExecInclude(body: seq<Act>)
      requires Valid() && !fatal
      modifies this, repr
      ensures Valid() && !fatal && stack == old(stack)
      ensures old(repr) <= repr && fresh(repr - old(repr))
      ensures forall s :: s in old(repr) ==> s.frames == old(s.frames)
      ensures Abs() == Step(Include(body), old(Top().frames), old(Abs()))
      decreases body, 6
    {
      TopFacts();
      hide Sequencer.Valid, StackType.Valid, Run;
      var st := NewStack();
      assert st.frames[..st.flen] + [] == [];
      ExecOn(st, [], body);
    }

    method NewStack() returns (st: StackType)
      requires Valid()
      modifies this`repr
      ensures Valid() && fresh(st) && repr == old(repr) + {st}
      ensures st.frames == [] && st.flen == 0 && st.origin == null
    {
      st := new StackType();
      repr := repr + {st};
    }
  }

  /** A whole run, from start-up. */
  method RunProgram(acts: seq<Act>) returns (log: seq<Seen>, consistent: bool)
    ensures consistent && log == Run(acts, [], World([], 0, [])).log
    ensures forall i :: 0 <= i < |log| ==> Separate(log[i].env)
  {
    RunSeparate(acts, [], World([], 0, []));
    var q := new Sequencer();
    q.Exec(acts);
    log, consistent := q.log, !q.fatal;
  }

  lemma {:induction false} LastRemoved(o: seq<nat>, n: nat, r: seq<nat>)
    requires n !in o
    requires exists i :: 0 <= i < |o + [n]| && (o + [n])[i] == n && n !in (o + [n])[..i]
               && r == (o + [n])[..i] + (o + [n])[i + 1..]
    ensures r == o
  {
    var p := o + [n];
    var i :| 0 <= i < |p| && p[i] == n && n !in p[..i] && r == p[..i] + p[i + 1..];
    assert i == |o| by {
      assert forall k :: 0 <= k < |o| ==> p[k] == o[k] && o[k] in o;
    }
    assert p[..i] == o && p[i + 1..] == [];
  }

  /** The function positions of a prefix are a prefix of the function positions. */
  lemma {:induction false} OffsetsPrefix(frames: seq<Slot>, n: nat)
    requires n <= |frames|
    ensures var o, p := OffsetsOf(frames), OffsetsOf(frames[..n]); |p| <= |o| && o[..|p|] == p
  {
    if n == |frames| {
      assert frames[..n] == frames;
    } else {
      var m := |frames| - 1;
      OffsetsPrefix(frames[..m], n);
      assert frames[..m][..n] == frames[..n];
    }
  }
}
