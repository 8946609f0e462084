/** Outstanding awaits, and what an arriving event does to them. */
module Awaits {
  import opened Common

  type AgentId = nat
  type Stmt = nat
  type Name = string

  /** Interest in every event of an agent is kept under this name. */
  const INTERESTED_IN_ALL: Name := "*"

  datatype Event<V> = Event(agent: AgentId, name: Name, value: V)

  /** An await statement lists, by event name, the agents it names; an await for a reply has
      one agent and one name. */
  datatype Await<V> =
    | ForStmt(stmt: Stmt, except: Option<Stmt>, only: bool, dict: map<Name, set<AgentId>>, filled: Option<Event<V>>)
    | ForReply(agent: AgentId, reply: Name, filled: Option<Event<V>>)

  /** The statements registered for each agent and name, in order of registration. */
  type Interests = map<(AgentId, Name), seq<Stmt>>

  // ----- interest -----

  function Listed(interests: Interests, a: AgentId, n: Name): seq<Stmt> {
    if (a, n) in interests then interests[(a, n)] else []
  }

  /** 1 when a statement is registered for the event's name, 2 when only for all events of
      the agent, otherwise 0. */
  function HasRegisteredInterest(interests: Interests, a: AgentId, s: Stmt, n: Name): (r: nat)
    ensures r == 1 <==> s in Listed(interests, a, n)
    ensures r == 2 <==> s !in Listed(interests, a, n) && s in Listed(interests, a, INTERESTED_IN_ALL)
    ensures r <= 2
  {
    if s in Listed(interests, a, n) then 1
    else if s in Listed(interests, a, INTERESTED_IN_ALL) then 2
    else 0
  }

  function RegisterInterest(interests: Interests, a: AgentId, n: Name, s: Stmt): Interests {
    interests[(a, n) := Listed(interests, a, n) + [s]]
  }

  function FindStmt(list: seq<Stmt>, s: Stmt): (i: nat)
    ensures i <= |list| && (i < |list| ==> list[i] == s) && (i == |list| ==> s !in list)
  {
    if list == [] || list[0] == s then 0 else 1 + FindStmt(list[1..], s)
  }

  /** Takes back one registration; a name left without any is dropped. */
  function UnRegisterInterest(interests: Interests, a: AgentId, n: Name, s: Stmt): Interests {
    if (a, n) !in interests then interests else
      var list, i := interests[(a, n)], FindStmt(interests[(a, n)], s);
      var left := if i < |list| then list[..i] + list[i + 1..] else list;
      if left == [] then interests - {(a, n)} else interests[(a, n) := left]
  }

  lemma {:induction false} FirstStmt(list: seq<Stmt>, s: Stmt, i: nat)
    requires i < |list| && list[i] == s && forall k :: 0 <= k < i ==> list[k] != s
    ensures FindStmt(list, s) == i
  {
    if i > 0 { FirstStmt(list[1..], s, i - 1); }
  }

  lemma {:induction false} OneLess(list: seq<Stmt>, s: Stmt)
    ensures var i := FindStmt(list, s);
            i < |list| ==> multiset(list[..i] + list[i + 1..]) == multiset(list) - multiset{s}
  {
    var i := FindStmt(list, s);
    hide FindStmt;
    if i < |list| { assert list == list[..i] + [list[i]] + list[i + 1..]; }
  }

  /** A registration counts once more; nothing else changes. */
  lemma {:induction false} RegistrationCounts(interests: Interests, a: AgentId, n: Name, s: Stmt, b: AgentId, m: Name)
    ensures multiset(Listed(RegisterInterest(interests, a, n, s), b, m)) ==
            multiset(Listed(interests, b, m)) + if (a, n) == (b, m) then multiset{s} else multiset{}
  {
  }

  /** Taken back, it counts once less if it was there; nothing else changes. */
  lemma {:induction false} UnRegistrationCounts(interests: Interests, a: AgentId, n: Name, s: Stmt, b: AgentId, m: Name)
    ensures multiset(Listed(UnRegisterInterest(interests, a, n, s), b, m)) ==
            multiset(Listed(interests, b, m)) - if (a, n) == (b, m) then multiset{s} else multiset{}
  {
    UnListed(interests, a, n, s, b, m);
    var list := Listed(interests, b, m);
    OneLess(list, s);
    hide FindStmt, Listed, UnRegisterInterest;
    if FindStmt(list, s) == |list| { assert multiset(list) - multiset{s} == multiset(list); }
    assert multiset(list) - multiset{} == multiset(list);
  }

  lemma {:induction false} UnListed(interests: Interests, a: AgentId, n: Name, s: Stmt, b: AgentId, m: Name)
    ensures var list, i := Listed(interests, b, m), FindStmt(Listed(interests, b, m), s);
            Listed(UnRegisterInterest(interests, a, n, s), b, m) ==
            if (a, n) == (b, m) && i < |list| then list[..i] + list[i + 1..] else list
  {
    hide FindStmt;
  }

  // ----- filling -----

  ghost predicate IsReply<V>(aw: Await<V>, e: Event<V>) {
    aw.ForReply? && aw.agent == e.agent && aw.reply == e.name
  }

  /** A reply to a request, or an event an await statement has registered for. An event that
      arrives over a task's connection reaches a statement with interest in all of the agent's
      events even if the statement does not name it. */
  ghost predicate Accepts<V>(aw: Await<V>, e: Event<V>, interests: Interests, fromTask: bool) {
    if aw.ForReply? then IsReply(aw, e)
    else
      var r := HasRegisteredInterest(interests, e.agent, aw.stmt, e.name);
      r > 0 && ((fromTask && r > 1) || (e.name in aw.dict && e.agent in aw.dict[e.name]))
  }

  ghost predicate Takes<V>(aw: Await<V>, e: Event<V>, interests: Interests, fromTask: bool) {
    aw.filled.None? && Accepts(aw, e, interests, fromTask)
  }

  /** The statement is registered for the event, by name or for all events of its agent. */
  ghost predicate Registered<V>(interests: Interests, s: Stmt, e: Event<V>) {
    s in Listed(interests, e.agent, e.name) || s in Listed(interests, e.agent, INTERESTED_IN_ALL)
  }

  ghost predicate Names<V>(aw: Await<V>, e: Event<V>) {
    aw.ForStmt? && e.name in aw.dict && e.agent in aw.dict[e.name]
  }

  /** The awaits that an event can fill, in terms of registrations: unfilled, and awaiting that
      reply; or registered for the event and naming it; or, when it comes over a task's
      connection, registered for all events and not for this name. */
  ghost predicate Wants<V>(aw: Await<V>, e: Event<V>, interests: Interests, fromTask: bool) {
    && aw.filled.None?
    && match aw
       case ForReply(agent, reply, _) => agent == e.agent && reply == e.name
       case ForStmt(s, _, _, _, _) =>
         && Registered(interests, s, e)
         && (Names(aw, e) || (fromTask && s !in Listed(interests, e.agent, e.name)))
  }

  lemma {:induction false} TakesWhatItWants<V>(aw: Await<V>, e: Event<V>, interests: Interests, fromTask: bool)
    ensures Takes(aw, e, interests, fromTask) <==> Wants(aw, e, interests, fromTask)
  {
    hide Listed;
  }

  /** Await `x` is the first that wants the event. */
  ghost predicate First<V>(awaits: seq<Await<V>>, e: Event<V>, interests: Interests, fromTask: bool, x: nat) {
    && x < |awaits| && Wants(awaits[x], e, interests, fromTask)
    && forall k :: 0 <= k < x ==> !Wants(awaits[k], e, interests, fromTask)
  }

  ghost predicate Unwanted<V>(awaits: seq<Await<V>>, e: Event<V>, interests: Interests, fromTask: bool) {
    forall k :: 0 <= k < |awaits| ==> !Wants(awaits[k], e, interests, fromTask)
  }

  /** The innermost await is for this reply, filled or not. */
  ghost predicate AtReply<V>(awaits: seq<Await<V>>, e: Event<V>) {
    awaits != [] && var top := awaits[|awaits| - 1]; top.ForReply? && top.agent == e.agent && top.reply == e.name
  }

  ghost predicate AtStmt<V>(awaits: seq<Await<V>>) {
    awaits != [] && awaits[|awaits| - 1].ForStmt?
  }

  /** What becomes of an event, in terms of registrations. Exactly one of three: it is a reply; it
      is ignored; or it is dispatched. It is a reply when the first await that wants it is for a
      reply, or none wants it and the innermost is for this reply. It is ignored when no await
      wants it, the innermost is an `only` statement, and neither that statement nor its
      `except` is registered for it. It finishes the innermost await when no await wants it and
      that one is for it. */
  ghost predicate Told<V>(awaits: seq<Await<V>>, e: Event<V>, interests: Interests, fromTask: bool, o: Outcome) {
    var top := |awaits| - 1;
    var unwanted := Unwanted(awaits, e, interests, fromTask);
    && (o.dispatched <==> !o.reply && !o.ignored) && !(o.reply && o.ignored)
    && (o.reply <==> || (exists x: nat :: First(awaits, e, interests, fromTask, x) && awaits[x].ForReply?)
                     || (unwanted && AtReply(awaits, e)))
    && (o.ignored <==>
          && unwanted && AtStmt(awaits) && awaits[top].only && !Registered(interests, awaits[top].stmt, e)
          && (awaits[top].except.Some? ==> !Registered(interests, awaits[top].except.value, e)))
    && (o.finished <==>
          unwanted && (AtReply(awaits, e) || (AtStmt(awaits) && Registered(interests, awaits[top].stmt, e))))
  }

  method SetValue<V>(aw: Await<V>, e: Event<V>, force: bool) returns (ok: bool, r: Await<V>)
    ensures ok == (aw.filled.None? && (force || aw.ForReply? || (e.name in aw.dict && e.agent in aw.dict[e.name])))
    ensures r == if ok then aw.(filled := Some(e)) else aw
  {
    if aw.filled.Some? { return false, aw; }
    if !force && aw.ForStmt? && (e.name !in aw.dict || e.agent !in aw.dict[e.name]) { return false, aw; }
    return true, aw.(filled := Some(e));
  }

  /** The state after an arrival: the first await in list order that is unfilled and accepts
      the event is filled with it, and nothing else changes. */
  ghost predicate FillsFirst<V>(before: seq<Await<V>>, after: seq<Await<V>>, e: Event<V>, interests: Interests,
                                fromTask: bool) {
    && |after| == |before|
    && forall i :: 0 <= i < |before| ==>
         after[i] == if Takes(before[i], e, interests, fromTask)
                        && (forall k :: 0 <= k < i ==> !Takes(before[k], e, interests, fromTask))
                     then before[i].(filled := Some(e)) else before[i]
  }

  ghost function FirstTaker<V>(awaits: seq<Await<V>>, e: Event<V>, interests: Interests, fromTask: bool): (x: nat)
    ensures x <= |awaits| && (x < |awaits| ==> Takes(awaits[x], e, interests, fromTask))
    ensures forall k :: 0 <= k < x ==> !Takes(awaits[k], e, interests, fromTask)
  {
    if awaits == [] || Takes(awaits[0], e, interests, fromTask) then 0
    else 1 + FirstTaker(awaits[1..], e, interests, fromTask)
  }

  /** What becomes of an event. */
  datatype Outcome = Outcome(reply: bool, finished: bool, ignored: bool, dispatched: bool)

  class Sequencer<V> {
    var awaits: seq<Await<V>>
    var interests: Interests

    constructor ()
      ensures awaits == [] && interests == map[]
    {
      awaits, interests := [], map[];
    }

    method Register(a: AgentId, n: Name, s: Stmt)
      modifies this`interests
      ensures interests == RegisterInterest(old(interests), a, n, s)
    {
      var list := if (a, n) in interests then interests[(a, n)] else [];
      interests := interests[(a, n) := list + [s]];
    }

    method UnRegister(a: AgentId, n: Name, s: Stmt)
      modifies this`interests
      ensures interests == UnRegisterInterest(old(interests), a, n, s)
    {
      if (a, n) !in interests { return; }
      var list := interests[(a, n)];
      hide FindStmt;
      for i := 0 to |list|
        invariant forall k :: 0 <= k < i ==> list[k] != s
      {
        if list[i] == s {
          assert i == FindStmt(list, s) by { FirstStmt(list, s, i); }
          list := list[..i] + list[i + 1..];
          break;
        }
      }
      if list == [] {
        interests := interests - {(a, n)};
      } else {
        interests := interests[(a, n) := list];
      }
    }

    method PushAwait(aw: Await<V>)
      requires aw.filled.None?
      modifies this`awaits
      ensures awaits == old(awaits) + [aw]
    {
      awaits := awaits + [aw];
    }

    method PopAwait() returns (aw: Await<V>)
      requires awaits != []
      modifies this`awaits
      ensures old(awaits) == awaits + [aw]
    {
      aw := awaits[|awaits| - 1];
      awaits := awaits[..|awaits| - 1];
    }

    /** Looks through the awaits for the first one the event fills. */
    method LookAhead(e: Event<V>, fromTask: bool) returns (found: bool, reply: bool)
      modifies this`awaits
      ensures var x := FirstTaker(old(awaits), e, interests, fromTask);
              && found == (x < |old(awaits)|) && reply == (found && IsReply(old(awaits)[x], e))
              && awaits == if found then old(awaits)[x := old(awaits)[x].(filled := Some(e))] else old(awaits)
    {
      hide HasRegisteredInterest, FirstTaker;
      found, reply := false, false;
      for x := 0 to |awaits|
        invariant awaits == old(awaits) && !found && !reply
        invariant forall k :: 0 <= k < x ==> !Takes(awaits[k], e, interests, fromTask)
      {
        var aw := awaits[x];
        if aw.ForReply? {
          if aw.agent == e.agent && aw.reply == e.name {
            found, aw := SetValue(aw, e, false);
            reply := found;
          }
        } else {
          var kind := HasRegisteredInterest(interests, e.agent, aw.stmt, e.name);
          if kind > 0 {
            found, aw := SetValue(aw, e, fromTask && kind > 1);
          }
        }
        if found {
          assert Takes(awaits[x], e, interests, fromTask);
          awaits := awaits[x := aw];
          return;
        }
      }
    }

    /** An event arrives. When no await takes it, the innermost await may still be finished by
        it, or, waiting for nothing else, ignore it. */
    method NewEvent(e: Event<V>, fromTask: bool) returns (o: Outcome)
      modifies this`awaits
      ensures awaits == Arrived(old(awaits), e, interests, fromTask)
      ensures o == OutcomeOf(old(awaits), e, interests, fromTask)
      ensures Told(old(awaits), e, interests, fromTask, o)
    {
      OutcomeExact(awaits, e, interests, fromTask);
      var reply, finished, ignored := false, false, false;
      ghost var before := awaits;
      hide FirstTaker, HasRegisteredInterest, Told, Takes;
      if awaits != [] {
        var found;
        found, reply := LookAhead(e, fromTask);
        if !found {
          var top := awaits[|awaits| - 1];
          if top.ForReply? && top.agent == e.agent && top.reply == e.name {
            reply, finished := true, true;
          } else if top.ForStmt? {
            finished := HasRegisteredInterest(interests, e.agent, top.stmt, e.name) > 0;
            var excepted := top.except.Some? && HasRegisteredInterest(interests, e.agent, top.except.value, e.name) > 0;
            if !finished && top.only && !excepted { ignored := true; }
          }
        }
      }
      var dispatched := !reply && !ignored && (awaits == [] || awaits[|awaits| - 1].ForStmt? || !finished);
      o := Outcome(reply, finished, ignored, dispatched);
    }

    /** Fills the innermost await that is concerned, if it is not filled yet. */
    method CheckAwait(e: Event<V>, task: Option<AgentId>)
      modifies this`awaits
      ensures awaits == Checked(old(awaits), e, task, interests)
    {
      hide HasRegisteredInterest, LastConcerned;
      var i := |awaits|;
      while i > 0
        invariant 0 <= i <= |awaits| && awaits == old(awaits)
        invariant forall k :: i <= k < |awaits| ==> !Concerned(awaits[k], e, task, interests)
      {
        i := i - 1;
        var aw := awaits[i];
        if (aw.ForStmt? && HasRegisteredInterest(interests, e.agent, aw.stmt, e.name) > 0)
           || (aw.ForReply? && task == Some(aw.agent) && aw.reply == e.name) {
          assert Concerned(awaits[i], e, task, interests);
          var ok, r := SetValue(aw, e, true);
          awaits := awaits[i := r];
          return;
        }
      }
    }
  }

  ghost function Arrived<V>(awaits: seq<Await<V>>, e: Event<V>, interests: Interests, fromTask: bool): seq<Await<V>> {
    var x := FirstTaker(awaits, e, interests, fromTask);
    if x < |awaits| then awaits[x := awaits[x].(filled := Some(e))] else awaits
  }

  /** An event that fills an await is a reply or is dispatched; one that fills none finishes
      the innermost await if that accepts it, and is withheld as a reply, as ignored, or not
      at all. */
  ghost function OutcomeOf<V>(awaits: seq<Await<V>>, e: Event<V>, interests: Interests, fromTask: bool): Outcome {
    if awaits == [] then Outcome(false, false, false, true) else
      var x, top := FirstTaker(awaits, e, interests, fromTask), awaits[|awaits| - 1];
      if x < |awaits| then Outcome(IsReply(awaits[x], e), false, false, !IsReply(awaits[x], e))
      else if top.ForReply? then Outcome(IsReply(top, e), IsReply(top, e), false, !IsReply(top, e))
      else
        var finished := HasRegisteredInterest(interests, e.agent, top.stmt, e.name) > 0;
        var excepted := top.except.Some? && HasRegisteredInterest(interests, e.agent, top.except.value, e.name) > 0;
        var ignored := !finished && top.only && !excepted;
        Outcome(false, finished, ignored, !ignored)
  }

  lemma {:induction false} OutcomeExact<V>(awaits: seq<Await<V>>, e: Event<V>, interests: Interests, fromTask: bool)
    ensures Told(awaits, e, interests, fromTask, OutcomeOf(awaits, e, interests, fromTask))
  {
    forall k | 0 <= k < |awaits|
      ensures Takes(awaits[k], e, interests, fromTask) <==> Wants(awaits[k], e, interests, fromTask)
    {
      TakesWhatItWants(awaits[k], e, interests, fromTask);
    }
    hide Takes, Wants, Listed;
    var x := FirstTaker(awaits, e, interests, fromTask);
    hide FirstTaker;
    if x < |awaits| {
      assert First(awaits, e, interests, fromTask, x);
      assert IsReply(awaits[x], e) <==> awaits[x].ForReply? by { IsReplyExact(awaits[x], e, interests, fromTask); }
      forall y: nat | First(awaits, e, interests, fromTask, y) ensures y == x {}
    }
  }

  lemma {:induction false} IsReplyExact<V>(aw: Await<V>, e: Event<V>, interests: Interests, fromTask: bool)
    requires Wants(aw, e, interests, fromTask)
    ensures IsReply(aw, e) <==> aw.ForReply?
  {
  }

  ghost predicate Concerned<V>(aw: Await<V>, e: Event<V>, task: Option<AgentId>, interests: Interests) {
    if aw.ForStmt? then HasRegisteredInterest(interests, e.agent, aw.stmt, e.name) > 0
    else task == Some(aw.agent) && aw.reply == e.name
  }

  /** The innermost await concerned, counted from the front; 0 is none. */
  ghost function LastConcerned<V>(awaits: seq<Await<V>>, e: Event<V>, task: Option<AgentId>,
                                  interests: Interests): (n: nat)
    ensures n <= |awaits| && (n > 0 ==> Concerned(awaits[n - 1], e, task, interests))
    ensures forall k :: n <= k < |awaits| ==> !Concerned(awaits[k], e, task, interests)
    decreases |awaits|
  {
    var n := |awaits| - 1;
    if awaits == [] then 0
    else if Concerned(awaits[n], e, task, interests) then |awaits|
    else LastConcerned(awaits[..n], e, task, interests)
  }

  ghost function Checked<V>(awaits: seq<Await<V>>, e: Event<V>, task: Option<AgentId>,
                            interests: Interests): seq<Await<V>> {
    var n := LastConcerned(awaits, e, task, interests);
    if n > 0 && awaits[n - 1].filled.None? then awaits[n - 1 := awaits[n - 1].(filled := Some(e))] else awaits
  }

  /** At most one await is filled, the first that is unfilled and accepts the event. */
  lemma {:induction false} ArrivalFillsFirst<V>(awaits: seq<Await<V>>, e: Event<V>, interests: Interests,
                                                fromTask: bool)
    ensures FillsFirst(awaits, Arrived(awaits, e, interests, fromTask), e, interests, fromTask)
  {
    hide FirstTaker, Takes;
    var x := FirstTaker(awaits, e, interests, fromTask);
    forall i | 0 <= i < |awaits|
      ensures i == x <==> && Takes(awaits[i], e, interests, fromTask)
                          && (forall k :: 0 <= k < i ==> !Takes(awaits[k], e, interests, fromTask))
    {
      if x < i { assert Takes(awaits[x], e, interests, fromTask); }
    }
  }

  /** A check fills the innermost await that is concerned, if that is unfilled, and nothing else. */
  lemma {:induction false} CheckFillsInnermost<V>(awaits: seq<Await<V>>, e: Event<V>, task: Option<AgentId>,
                                                  interests: Interests)
    ensures var after := Checked(awaits, e, task, interests);
            && |after| == |awaits|
            && forall i :: 0 <= i < |awaits| ==>
                 after[i] == if Regards(awaits[i], e, task, interests) && awaits[i].filled.None?
                                && (forall k :: i < k < |awaits| ==> !Regards(awaits[k], e, task, interests))
                             then awaits[i].(filled := Some(e)) else awaits[i]
  {
    forall k | 0 <= k < |awaits|
      ensures Concerned(awaits[k], e, task, interests) <==> Regards(awaits[k], e, task, interests)
    {
    }
    hide Concerned, Regards, LastConcerned;
    var n := LastConcerned(awaits, e, task, interests);
    forall i | 0 <= i < |awaits|
      ensures i + 1 == n <==> && Concerned(awaits[i], e, task, interests)
                              && (forall k :: i < k < |awaits| ==> !Concerned(awaits[k], e, task, interests))
    {
      if i + 1 < n { assert Concerned(awaits[n - 1], e, task, interests); }
    }
  }

  /** The await is concerned, in terms of registrations. */
  ghost predicate Regards<V>(aw: Await<V>, e: Event<V>, task: Option<AgentId>, interests: Interests) {
    match aw
    case ForStmt(s, _, _, _, _) => Registered(interests, s, e)
    case ForReply(agent, reply, _) => task == Some(agent) && reply == e.name
  }

  // ----- whole runs -----

  datatype Op<V> =
    | Push(await: Await<V>)
    | Pop
    | Arrive(event: Event<V>, fromTask: bool)
    | Check(event: Event<V>, task: Option<AgentId>)
    | Register(agent: AgentId, name: Name, stmt: Stmt)
    | UnRegister(agent: AgentId, name: Name, stmt: Stmt)

  datatype State<V> = State(awaits: seq<Await<V>>, interests: Interests)

  /** An await starts out unfilled. */
  ghost function Next<V>(s: State<V>, op: Op<V>): State<V> {
    match op
    case Push(aw) => s.(awaits := s.awaits + [aw.(filled := None)])
    case Pop => if s.awaits == [] then s else s.(awaits := s.awaits[..|s.awaits| - 1])
    case Arrive(e, fromTask) => s.(awaits := Arrived(s.awaits, e, s.interests, fromTask))
    case Check(e, task) => s.(awaits := Checked(s.awaits, e, task, s.interests))
    case Register(a, n, st) => s.(interests := RegisterInterest(s.interests, a, n, st))
    case UnRegister(a, n, st) => s.(interests := UnRegisterInterest(s.interests, a, n, st))
  }

  /** The list of awaits is a stack: a push adds one, unfilled, and a pop takes the last off. */
  lemma {:induction false} StackOfAwaits<V>(s: State<V>, aw: Await<V>)
    ensures var t := Next(s, Push(aw));
            && |t.awaits| == |s.awaits| + 1 && t.awaits[|s.awaits|] == aw.(filled := None) && t.interests == s.interests
            && Next(t, Pop) == s
  {
  }

  ghost function After<V>(s: State<V>, ops: seq<Op<V>>): State<V>
    decreases |ops|
  {
    if ops == [] then s else Next(After(s, ops[..|ops| - 1]), ops[|ops| - 1])
  }

  /** The outcome of operation `n` of a run; only arrivals have one. */
  ghost predicate ToldAt<V>(ops: seq<Op<V>>, n: nat, o: Option<Outcome>)
    requires n < |ops|
  {
    var s := After(State([], map[]), ops[..n]);
    if ops[n].Arrive? then o.Some? && Told(s.awaits, ops[n].event, s.interests, ops[n].fromTask, o.value) else o.None?
  }

  /** Any run: the list of awaits is the reference's, and every arrival has the outcome that the
      awaits and registrations of that moment demand. */
  method Run<V>(ops: seq<Op<V>>) returns (awaits: seq<Await<V>>, outcomes: seq<Option<Outcome>>)
    ensures awaits == After(State([], map[]), ops).awaits
    ensures |outcomes| == |ops| && forall n :: 0 <= n < |ops| ==> ToldAt(ops, n, outcomes[n])
  {
    var q := new Sequencer<V>();
    hide Arrived, Checked, RegisterInterest, UnRegisterInterest, OutcomeOf, Told;
    outcomes := [];
    for n := 0 to |ops|
      invariant State(q.awaits, q.interests) == After(State([], map[]), ops[..n])
      invariant |outcomes| == n && forall k :: 0 <= k < n ==> ToldAt(ops, k, outcomes[k])
    {
      var o := None;
      assert ops[..n + 1][..n] == ops[..n];
      match ops[n] {
        case Push(aw) => q.PushAwait(aw.(filled := None));
        case Pop => if q.awaits != [] { var _ := q.PopAwait(); }
        case Arrive(e, fromTask) =>
          var made := q.NewEvent(e, fromTask);
          o := Some(made);
        case Check(e, task) => q.CheckAwait(e, task);
        case Register(a, m, s) => q.Register(a, m, s);
        case UnRegister(a, m, s) => q.UnRegister(a, m, s);
      }
      outcomes := outcomes + [o];
    }
    assert ops[..|ops|] == ops;
    awaits := q.awaits;
  }

  /** Await `i` is on the list all through a run. */
  ghost predicate Stays<V>(s: State<V>, ops: seq<Op<V>>, i: nat) {
    forall n :: 0 <= n <= |ops| ==> i < |After(s, ops[..n]).awaits|
  }

  lemma {:induction false} StepKeepsFilled<V>(s: State<V>, op: Op<V>, i: nat)
    requires i < |s.awaits| && i < |Next(s, op).awaits| && s.awaits[i].filled.Some?
    ensures Next(s, op).awaits[i] == s.awaits[i]
  {
    if op.Arrive? {
      ArrivalFillsFirst(s.awaits, op.event, s.interests, op.fromTask);
    }
    hide FirstTaker, LastConcerned;
  }

  /** Until it is popped, a filled await keeps its agent, name and value, whatever happens. */
  lemma {:induction false} FilledPersists<V>(s: State<V>, ops: seq<Op<V>>, i: nat)
    requires i < |s.awaits| && s.awaits[i].filled.Some? && Stays(s, ops, i)
    ensures i < |After(s, ops).awaits| && After(s, ops).awaits[i] == s.awaits[i]
    decreases |ops|
  {
    if ops != [] {
      var n := |ops| - 1;
      assert forall m :: 0 <= m <= n ==> ops[..n][..m] == ops[..m];
      assert Stays(s, ops[..n], i);
      FilledPersists(s, ops[..n], i);
      assert i < |After(s, ops[..|ops|]).awaits| && ops[..|ops|] == ops;
      StepKeepsFilled(After(s, ops[..n]), ops[n], i);
    }
  }

  /** What fills an await in a run is an event of that run. */
  ghost predicate Happened<V>(ops: seq<Op<V>>, e: Event<V>) {
    exists n :: 0 <= n < |ops| && (ops[n].Arrive? || ops[n].Check?) && ops[n].event == e
  }

  lemma {:induction false} FilledByEvents<V>(ops: seq<Op<V>>)
    ensures forall aw :: aw in After(State([], map[]), ops).awaits && aw.filled.Some? ==> Happened(ops, aw.filled.value)
    decreases |ops|
  {
    if ops != [] {
      var n := |ops| - 1;
      FilledByEvents(ops[..n]);
      var s := After<V>(State([], map[]), ops[..n]);
      forall aw | aw in Next(s, ops[n]).awaits && aw.filled.Some? ensures Happened(ops, aw.filled.value) {
        if aw in s.awaits {
          var m :| 0 <= m < n && (ops[..n][m].Arrive? || ops[..n][m].Check?) && ops[..n][m].event == aw.filled.value;
          assert ops[m].event == aw.filled.value;
        } else {
          NewlyFilled(s, ops[n], aw);
          assert ops[n].event == aw.filled.value;
        }
      }
    }
  }

  lemma {:induction false} NewlyFilled<V>(s: State<V>, op: Op<V>, aw: Await<V>)
    requires aw in Next(s, op).awaits && aw !in s.awaits && aw.filled.Some?
    ensures (op.Arrive? || op.Check?) && op.event == aw.filled.value
  {
    hide FirstTaker, LastConcerned;
  }
}
