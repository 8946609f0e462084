/** The stack of notifications in use, from which $value, $name and $agent are read. */
module Notes {
  import opened Common

  datatype Kind = WHENEVER | AWAIT | STICKY | UNKNOWN

  datatype Note = Note(kind: Kind, id: nat)

  /** A call of a user function puts a null marker on the stack. */
  type Stack = seq<Option<Note>>

  datatype Act =
    | Push(note: Note)
    | Pop
    | Call(body: seq<Act>)

  predicate Fleeting(n: Note) {
    n.kind == AWAIT || n.kind == STICKY
  }

  // ----- the reference: each call has its own notes -----

  ghost function Lift(top: seq<Note>): (s: Stack)
    ensures |s| == |top| && forall i :: 0 <= i < |s| ==> s[i] == Some(top[i])
  {
    seq(|top|, i requires 0 <= i < |top| => Some(top[i]))
  }

  ghost function Stickies(top: seq<Note>): seq<Note>
    decreases |top|
  {
    if top == [] then [] else
      var n := |top| - 1;
      Stickies(top[..n]) + (if top[n].kind == STICKY then [top[n]] else [])
  }

  /** Without the await and sticky notes on top. */
  ghost function Bare(top: seq<Note>): seq<Note>
    decreases |top|
  {
    if top == [] || !Fleeting(top[|top| - 1]) then top else Bare(top[..|top| - 1])
  }

  ghost function Pushed(top: seq<Note>, n: Note): seq<Note> {
    (if Fleeting(n) then Bare(top) else top) + [n]
  }

  /** Without the last note of a whenever and what is above it, except sticky notes. */
  ghost function Popped(top: seq<Note>): seq<Note>
    decreases |top|
  {
    if top == [] then [] else
      var n := |top| - 1;
      if top[n].kind == WHENEVER then top[..n]
      else Popped(top[..n]) + (if top[n].kind == STICKY then [top[n]] else [])
  }

  /** The notes of the current call after some actions. A call made meanwhile leaves its
      sticky notes and nothing else. */
  ghost function Own(acts: seq<Act>, top: seq<Note>): seq<Note>
    decreases acts
  {
    if acts == [] then top else
      var next := match acts[0]
        case Push(n) => Pushed(top, n)
        case Pop => Popped(top)
        case Call(body) => top + Stickies(Own(body, []));
      Own(acts[1..], next)
  }

  // ----- what the reference does, in terms of the notes -----

  ghost predicate AllAbove(top: seq<Note>, m: nat) {
    forall i :: m <= i < |top| ==> top[i].kind == AWAIT || top[i].kind == STICKY
  }

  ghost predicate EndsAt(top: seq<Note>, m: nat) {
    m <= |top| && (m > 0 ==> top[m - 1].kind != AWAIT && top[m - 1].kind != STICKY)
  }

  /** What is left under an await or sticky note is what is left of all the await and sticky
      notes on top, and nothing more. */
  lemma {:induction false} BareExact(top: seq<Note>) returns (m: nat)
    ensures EndsAt(top, m) && AllAbove(top, m) && Bare(top) == top[..m]
    decreases |top|
  {
    var n := |top| - 1;
    if top == [] || !Fleeting(top[n]) {
      m := |top|;
      assert top[..m] == top;
    } else {
      m := BareExact(top[..n]);
      assert top[..n][..m] == top[..m];
      assert forall i :: m <= i < n ==> top[i] == top[..n][i];
    }
  }

  /** A note goes on top: of everything, or, an await or sticky one, of what is below the await
      and sticky notes on top. */
  lemma {:induction false} PushedExact(top: seq<Note>, n: Note) returns (m: nat)
    ensures m <= |top| && Pushed(top, n) == top[..m] + [n]
    ensures if n.kind == AWAIT || n.kind == STICKY then EndsAt(top, m) && AllAbove(top, m) else m == |top|
  {
    if Fleeting(n) {
      m := BareExact(top);
    } else {
      m := |top|;
      assert top[..m] == top;
    }
  }

  /** The sticky notes, in order. */
  lemma {:induction false} StickiesExact(a: seq<Note>, b: seq<Note>, n: Note)
    ensures Stickies(a + b) == Stickies(a) + Stickies(b)
    ensures Stickies([n]) == if n.kind == STICKY then [n] else []
    decreases |b|
  {
    assert [n][..0] == [];
    if b == [] {
      assert a + b == a;
    } else {
      var m := |b| - 1;
      StickiesExact(a, b[..m], n);
      assert (a + b)[..|a| + m] == a + b[..m] && (a + b)[|a| + m] == b[m];
    }
  }

  /** From the last note of a whenever on, only the sticky notes stay; below it everything does.
      Without such a note the sticky ones are all that stays. */
  lemma {:induction false} PoppedExact(below: seq<Note>, w: Note, above: seq<Note>)
    requires w.kind == WHENEVER && forall i :: 0 <= i < |above| ==> above[i].kind != WHENEVER
    ensures Popped(below + [w] + above) == below + Stickies(above) && Popped(above) == Stickies(above)
    decreases |above|
  {
    var top := below + [w] + above;
    if above == [] {
      assert top[..|top| - 1] == below && below + [] == below;
    } else {
      var n := |above| - 1;
      PoppedExact(below, w, above[..n]);
      assert top[..|top| - 1] == below + [w] + above[..n] && top[|top| - 1] == above[n];
      PoppedLast(top);
      PoppedLast(above);
      StickiesLast(above);
      hide Popped, Stickies;
    }
  }

  lemma {:induction false} PoppedLast(top: seq<Note>)
    requires top != [] && top[|top| - 1].kind != WHENEVER
    ensures var n := |top| - 1; Popped(top) == Popped(top[..n]) + if top[n].kind == STICKY then [top[n]] else []
  {
  }

  lemma {:induction false} StickiesLast(top: seq<Note>)
    requires top != []
    ensures var n := |top| - 1; Stickies(top) == Stickies(top[..n]) + if top[n].kind == STICKY then [top[n]] else []
  {
  }

  // ----- the code -----

  class Sequencer {
    var notes: Stack

    constructor ()
      ensures notes == []
    {
      notes := [];
    }

    method PushNote(n: Option<Note>, ghost base: Stack, ghost top: seq<Note>)
      requires notes == base + Lift(top) && (base == [] || base[|base| - 1] == None)
      modifies this
      ensures notes == if n.None? then old(notes) + [None] else base + Lift(Pushed(top, n.value))
    {
      if n.Some? && Fleeting(n.value) {
        ghost var t := top;
        while notes != [] && notes[|notes| - 1].Some? && Fleeting(notes[|notes| - 1].value)
          invariant notes == base + Lift(t) && Bare(t) == Bare(top)
          decreases |notes|
        {
          assert t != [];
          notes := notes[..|notes| - 1];
          t := t[..|t| - 1];
        }
        assert t == Bare(top);
      }
      notes := notes + [n];
    }

    /** Puts saved sticky notes, collected from the top, back in their order. */
    method Restore(sticky: seq<Option<Note>>)
      modifies this
      ensures notes == old(notes) + Backwards(sticky)
    {
      for j := |sticky| downto 0
        invariant notes == old(notes) + Backwards(sticky[j..])
      {
        assert sticky[j..][1..] == sticky[j + 1..];
        BackwardsFirst(sticky[j..]);
        notes := notes + [sticky[j]];
      }
      assert sticky[0..] == sticky;
    }

    /** Ends a call: everything down to the marker goes, the marker too; sticky notes stay. */
    method PopCall(ghost base: Stack, ghost top: seq<Note>)
      requires notes == base + Lift(top) && (base == [] || base[|base| - 1] == None)
      modifies this
      ensures notes == (if base == [] then [] else base[..|base| - 1]) + Lift(Stickies(top))
    {
      var sticky: seq<Option<Note>> := [];
      ghost var t := top;
      while notes != []
        invariant notes == base + Lift(t) && Lift(Stickies(top)) == Lift(Stickies(t)) + Backwards(sticky)
        decreases |notes|
      {
        var n := notes[|notes| - 1];
        notes := notes[..|notes| - 1];
        if n.None? { break; }
        StickiesUnlifted(t, sticky);
        if n.value.kind == STICKY { sticky := sticky + [n]; }
        t := t[..|t| - 1];
      }
      Restore(sticky);
    }

    /** Ends a whenever: its note goes, with what is above it, but never the marker; sticky
        notes stay. */
    method PopWhenever(ghost base: Stack, ghost top: seq<Note>)
      requires notes == base + Lift(top) && (base == [] || base[|base| - 1] == None)
      modifies this
      ensures notes == base + Lift(Popped(top))
    {
      var sticky: seq<Option<Note>> := [];
      ghost var t := top;
      hide Backwards, Lift;
      while notes != [] && notes[|notes| - 1].Some?
        invariant notes == base + Lift(t) && Lift(Popped(top)) == Lift(Popped(t)) + Backwards(sticky)
        decreases |notes|
      {
        var n := notes[|notes| - 1];
        notes := notes[..|notes| - 1];
        if n.value.kind == WHENEVER {
          assert Popped(t) == t[..|t| - 1];
          break;
        }
        PoppedUnlifted(t, sticky);
        if n.value.kind == STICKY { sticky := sticky + [n]; }
        t := t[..|t| - 1];
      }
      assert notes == base + Lift(Popped(t));
      Restore(sticky);
    }

    method PopNote(doingFunc: bool, ghost base: Stack, ghost top: seq<Note>)
      requires notes == base + Lift(top) && (base == [] || base[|base| - 1] == None)
      modifies this
      ensures notes == if !doingFunc then base + Lift(Popped(top))
                       else (if base == [] then [] else base[..|base| - 1]) + Lift(Stickies(top))
    {
      if doingFunc {
        PopCall(base, top);
      } else {
        PopWhenever(base, top);
      }
    }

    /** Runs a program. Nothing at or below the innermost marker changes, and above it stand
        the current call's own notes. */
    method Exec(acts: seq<Act>, ghost base: Stack, ghost top: seq<Note>)
      requires notes == base + Lift(top) && (base == [] || base[|base| - 1] == None)
      modifies this
      ensures notes == base + Lift(Own(acts, top))
      decreases acts, 0
    {
      hide Lift, Pushed, Popped, Stickies;
      ghost var t := top;
      for i := 0 to |acts|
        invariant notes == base + Lift(t) && Own(acts[i..], t) == Own(acts, top)
      {
        assert acts[i..][0] == acts[i] && acts[i..][1..] == acts[i + 1..];
        match acts[i] {
          case Push(n) =>
            PushNote(Some(n), base, t);
            t := Pushed(t, n);
          case Pop =>
            PopNote(false, base, t);
            t := Popped(t);
          case Call(body) =>
            CallFunction(body, base, t);
            t := t + Stickies(Own(body, []));
        }
      }
    }

    /** A call: marker, body, and back down to the marker. What was there is there again, with
        the sticky notes the body left. */
    method CallFunction(body: seq<Act>, ghost base: Stack, ghost top: seq<Note>)
      requires notes == base + Lift(top) && (base == [] || base[|base| - 1] == None)
      modifies this
      ensures notes == old(notes) + Lift(Stickies(Own(body, []))) == base + Lift(top + Stickies(Own(body, [])))
      decreases body, 1
    {
      hide Pushed, Popped, Stickies, Own, Lift;
      ghost var before, sticky := notes, Stickies(Own(body, []));
      PushNote(None, base, top);
      ghost var marked := notes;
      Unmark(before, marked);
      LiftOver(base, top, sticky);
      Exec(body, marked, []);
      PopNote(true, marked, Own(body, []));
    }
  }

  lemma {:induction false} Unmark(before: Stack, marked: Stack)
    requires marked == before + [None]
    ensures marked != [] && marked[|marked| - 1] == None
    ensures marked[..|marked| - 1] == before && marked == marked + Lift([])
  {
  }

  lemma {:induction false} LiftOver(base: Stack, top: seq<Note>, more: seq<Note>)
    ensures base + Lift(top) + Lift(more) == base + Lift(top + more)
  {
    LiftAppend(top, more);
    hide Lift;
  }

  ghost function Backwards<T>(s: seq<T>): (r: seq<T>)
    ensures |r| == |s| && forall i :: 0 <= i < |s| ==> r[i] == s[|s| - 1 - i]
  {
    seq(|s|, i requires 0 <= i < |s| => s[|s| - 1 - i])
  }

  lemma {:induction false} BackwardsFirst<T>(s: seq<T>)
    requires s != []
    ensures Backwards(s) == Backwards(s[1..]) + [s[0]]
  {
  }

  lemma {:induction false} BackwardsLast<T>(s: seq<T>, x: T)
    ensures Backwards(s + [x]) == [x] + Backwards(s)
  {
  }

  lemma {:induction false} LiftAppend(a: seq<Note>, b: seq<Note>)
    ensures Lift(a + b) == Lift(a) + Lift(b)
  {
  }

  lemma {:induction false} StickiesUnlifted(t: seq<Note>, sticky: seq<Option<Note>>)
    requires t != []
    ensures var n := |t| - 1;
            Lift(Stickies(t)) + Backwards(sticky) ==
            Lift(Stickies(t[..n])) + Backwards(sticky + if t[n].kind == STICKY then [Some(t[n])] else [])
  {
    var n := |t| - 1;
    if t[n].kind == STICKY {
      LiftAppend(Stickies(t[..n]), [t[n]]);
      BackwardsLast(sticky, Some(t[n]));
      assert Lift([t[n]]) == [Some(t[n])];
    } else {
      assert Stickies(t) == Stickies(t[..n]);
      assert sticky + [] == sticky;
    }
  }

  lemma {:induction false} PoppedUnlifted(t: seq<Note>, sticky: seq<Option<Note>>)
    requires t != [] && t[|t| - 1].kind != WHENEVER
    ensures var n := |t| - 1;
            Lift(Popped(t)) + Backwards(sticky) ==
            Lift(Popped(t[..n])) + Backwards(sticky + if t[n].kind == STICKY then [Some(t[n])] else [])
  {
    var n := |t| - 1;
    if t[n].kind == STICKY {
      LiftAppend(Popped(t[..n]), [t[n]]);
      BackwardsLast(sticky, Some(t[n]));
      assert Lift([t[n]]) == [Some(t[n])];
    } else {
      assert Popped(t) == Popped(t[..n]);
      assert sticky + [] == sticky;
    }
  }

  /** A whole run, calls nested as they like: the stack holds no marker at the end, only the
      notes the reference says. */
  method Run(acts: seq<Act>) returns (notes: Stack)
    ensures notes == Lift(Own(acts, []))
  {
    var q := new Sequencer();
    q.Exec(acts, [], []);
    notes := q.notes;
  }

  // ----- what survives, and in which order -----

  /** `a` is `b` with some elements left out. */
  ghost predicate Sub(a: seq<Note>, b: seq<Note>)
    decreases |b|
  {
    a == [] || (b != [] && (Sub(a, b[..|b| - 1]) || (a[|a| - 1] == b[|b| - 1] && Sub(a[..|a| - 1], b[..|b| - 1]))))
  }

  lemma {:induction false} SubSelf(a: seq<Note>)
    ensures Sub(a, a)
    decreases |a|
  {
    if a != [] { SubSelf(a[..|a| - 1]); }
  }

  lemma {:induction false} SubTransitive(a: seq<Note>, b: seq<Note>, c: seq<Note>)
    requires Sub(a, b) && Sub(b, c)
    ensures Sub(a, c)
    decreases |c|
  {
    if a != [] {
      var b0, c0 := b[..|b| - 1], c[..|c| - 1];
      if Sub(b, c0) {
        SubTransitive(a, b, c0);
      } else if Sub(a, b0) {
        SubTransitive(a, b0, c0);
      } else {
        SubTransitive(a[..|a| - 1], b0, c0);
      }
    }
  }

  lemma {:induction false} SubAppend(a: seq<Note>, b: seq<Note>, c: seq<Note>, d: seq<Note>)
    requires Sub(a, b) && Sub(c, d)
    ensures Sub(a + c, b + d)
    decreases |d|
  {
    if d == [] {
      assert a + c == a && b + d == b;
    } else {
      var d0 := d[..|d| - 1];
      assert (b + d)[..|b + d| - 1] == b + d0;
      if Sub(c, d0) {
        SubAppend(a, b, c, d0);
      } else {
        SubAppend(a, b, c[..|c| - 1], d0);
        assert (a + c)[..|a + c| - 1] == a + c[..|c| - 1];
      }
    }
  }

  lemma {:induction false} SubMore(a: seq<Note>, b: seq<Note>, n: Note)
    requires Sub(a, b)
    ensures Sub(a, b + [n]) && Sub(a + [n], b + [n])
  {
    assert (b + [n])[..|b + [n]| - 1] == b && (a + [n])[..|a + [n]| - 1] == a;
  }

  lemma {:induction false} StickiesSub(top: seq<Note>)
    ensures Sub(Stickies(top), top)
    decreases |top|
  {
    if top != [] {
      var n := |top| - 1;
      StickiesSub(top[..n]);
      SubMore(Stickies(top[..n]), top[..n], top[n]);
      assert top == top[..n] + [top[n]];
      assert top[n].kind != STICKY ==> Stickies(top) == Stickies(top[..n]);
    }
  }

  lemma {:induction false} BareSub(top: seq<Note>)
    ensures Sub(Bare(top), top)
    decreases |top|
  {
    if top == [] || !Fleeting(top[|top| - 1]) { SubSelf(top); } else { BareSub(top[..|top| - 1]); }
  }

  lemma {:induction false} PoppedSub(top: seq<Note>)
    ensures Sub(Popped(top), top)
    decreases |top|
  {
    if top != [] {
      var n := |top| - 1;
      if top[n].kind == WHENEVER {
        SubSelf(top[..n]);
      } else {
        PoppedSub(top[..n]);
        SubMore(Popped(top[..n]), top[..n], top[n]);
        assert top == top[..n] + [top[n]];
        assert top[n].kind != STICKY ==> Popped(top) == Popped(top[..n]);
      }
    }
  }

  /** The notes a program pushes, in order, its calls' included. */
  ghost function Issued(acts: seq<Act>): seq<Note>
    decreases acts
  {
    if acts == [] then [] else
      (match acts[0]
       case Push(n) => [n]
       case Pop => []
       case Call(body) => Issued(body))
      + Issued(acts[1..])
  }

  /** The surviving notes are in the order in which they were pushed, after those that were
      there, and none is there twice. */
  lemma {:induction false} OwnInOrder(acts: seq<Act>, top: seq<Note>)
    ensures Sub(Own(acts, top), top + Issued(acts))
    decreases acts, 1
  {
    if acts == [] {
      SubSelf(top);
      assert Own(acts, top) == top && top + Issued(acts) == top;
    } else {
      hide Sub, Own, Issued;
      var next, first := StepInOrder(acts, top);
      OwnInOrder(acts[1..], next);
      SubCompose(Own(acts, top), next, top, first, Issued(acts[1..]));
    }
  }

  lemma {:induction false} SubCompose(own: seq<Note>, next: seq<Note>, top: seq<Note>, first: seq<Note>,
                                      rest: seq<Note>)
    requires Sub(own, next + rest) && Sub(next, top + first)
    ensures Sub(own, top + (first + rest))
  {
    hide Sub;
    SubSelf(rest);
    SubAppend(next, top + first, rest, rest);
    assert top + first + rest == top + (first + rest);
    SubTransitive(own, next + rest, top + (first + rest));
  }

  lemma {:induction false} StepInOrder(acts: seq<Act>, top: seq<Note>) returns (next: seq<Note>, first: seq<Note>)
    requires acts != []
    ensures Own(acts, top) == Own(acts[1..], next)
    ensures Issued(acts) == first + Issued(acts[1..]) && Sub(next, top + first)
    decreases acts, 0
  {
    hide Sub, Popped, Stickies, Bare;
    match acts[0]
    case Push(n) =>
      next, first := Pushed(top, n), [n];
      BareSub(top);
      SubSelf(top);
      SubSelf([n]);
      SubAppend(if Fleeting(n) then Bare(top) else top, top, [n], [n]);
    case Pop =>
      next, first := Popped(top), [];
      PoppedSub(top);
      assert top + [] == top;
    case Call(body) =>
      var own := Own(body, []);
      next, first := top + Stickies(own), Issued(body);
      OwnInOrder(body, []);
      assert [] + Issued(body) == Issued(body);
      StickiesSub(own);
      SubTransitive(Stickies(own), own, Issued(body));
      SubSelf(top);
      SubAppend(top, top, Stickies(own), Issued(body));
  }
}
