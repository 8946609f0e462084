/** Binding a call's actual arguments to a user function's formal parameters. */
module Binder {
  import opened Common

  datatype RefType = Val | Const | Ref

  datatype Formal<E> =
    | Param(name: string, reftype: RefType, default: Option<E>)
    | Ellipsis(default: Option<E>)

  /** An unnamed argument may be left empty. */
  datatype Actual<E> = Given(expr: E) | Omitted | Named(name: string, expr: E)

  /** What a formal gets: one value, or the record of the overflow arguments, whose n-th
      field is named *n. */
  datatype Slot<V> = One(value: V) | Rest(values: seq<V>)

  /** Where binding gave up: at an actual, or later at a formal that nothing covers. */
  datatype Failure = TwoEllipses | AtActual(i: nat) | AtFormal(k: nat)

  datatype Outcome<V> = Bound(frame: seq<Slot<V>>) | Failed(failure: Failure)

  /** A call: the formals, the actuals, how an expression is evaluated for a formal, which
      may fail, and how it is evaluated for the ellipsis record. */
  datatype Call<!E, V> = Call(formals: seq<Formal<E>>, args: seq<Actual<E>>, eval: (Formal<E>, E) -> Option<V>,
                              refer: E -> V)

  // ----- the rule -----

  /** Position of the ellipsis; the number of formals when there is none. */
  ghost function Limit<E>(formals: seq<Formal<E>>): (n: nat)
    ensures n <= |formals| && (n < |formals| ==> formals[n].Ellipsis?)
    ensures forall k :: 0 <= k < n ==> formals[k].Param?
  {
    if formals == [] || formals[0].Ellipsis? then 0 else 1 + Limit(formals[1..])
  }

  ghost predicate Single<E>(formals: seq<Formal<E>>) {
    forall k :: Limit(formals) < k < |formals| ==> formals[k].Param?
  }

  /** How many actuals precede the first named one. */
  ghost function Leading<E>(args: seq<Actual<E>>): (n: nat)
    ensures n <= |args| && (n < |args| ==> args[n].Named?)
    ensures forall i :: 0 <= i < n ==> !args[i].Named?
  {
    if args == [] || args[0].Named? then 0 else 1 + Leading(args[1..])
  }

  ghost predicate Matches<E>(f: Formal<E>, a: Actual<E>) {
    f.Param? && a.Named? && f.name == a.name
  }

  /** The first formal an actual names, or the number of formals. */
  ghost function FormalOf<E>(formals: seq<Formal<E>>, a: Actual<E>): (j: nat)
    ensures j <= |formals| && (j < |formals| ==> Matches(formals[j], a))
    ensures forall k :: 0 <= k < j ==> !Matches(formals[k], a)
  {
    if formals == [] || Matches(formals[0], a) then 0 else 1 + FormalOf(formals[1..], a)
  }

  /** The first actual that names a formal, or the number of actuals. */
  ghost function ActualOf<E>(args: seq<Actual<E>>, f: Formal<E>): (m: nat)
    ensures m <= |args| && (m < |args| ==> Matches(f, args[m]))
    ensures forall k :: 0 <= k < m ==> !Matches(f, args[k])
  {
    if args == [] || Matches(f, args[0]) then 0 else 1 + ActualOf(args[1..], f)
  }

  /** The actual's expression, or the formal's default where it is empty. */
  function OrDefault<E>(a: Actual<E>, f: Formal<E>): Option<E> {
    if a.Omitted? then f.default else Some(a.expr)
  }

  /** How many formals are bound by position. */
  ghost function Positional<E, V>(c: Call<E, V>): (n: nat)
    ensures n <= |c.formals| && n <= Leading(c.args) && n <= Limit(c.formals)
  {
    if Leading(c.args) < Limit(c.formals) then Leading(c.args) else Limit(c.formals)
  }

  /** What a formal other than the ellipsis is bound to: position, else first matching
      name, else default. */
  ghost function Chosen<E, V>(c: Call<E, V>, k: nat): Option<E>
    requires k < |c.formals|
  {
    if k < Positional(c) then OrDefault(c.args[k], c.formals[k])
    else var m := ActualOf(c.args, c.formals[k]);
      if m < |c.args| then Some(c.args[m].expr) else c.formals[k].default
  }

  ghost predicate FormalOk<E, V>(c: Call<E, V>, k: nat)
    requires k < |c.formals|
  {
    c.formals[k].Ellipsis? || (Chosen(c, k).Some? && c.eval(c.formals[k], Chosen(c, k).value).Some?)
  }

  ghost predicate Unmatched<E>(formals: seq<Formal<E>>, a: Actual<E>) {
    a.Named? && FormalOf(formals, a) == |formals|
  }

  /** A named actual names a formal not bound by position; or it names none and joins the
      ellipsis record, which only the first named actuals may do. */
  ghost predicate NamedOk<E, V>(c: Call<E, V>, m: nat)
    requires Leading(c.args) <= m < |c.args|
  {
    && c.args[m].Named?
    && (if Unmatched(c.formals, c.args[m]) then
          && Limit(c.formals) < |c.formals| && Limit(c.formals) <= Leading(c.args)
          && forall i :: Leading(c.args) <= i < m ==> Unmatched(c.formals, c.args[i])
        else FormalOf(c.formals, c.args[m]) >= Positional(c))
  }

  ghost predicate ActualOk<E, V>(c: Call<E, V>, i: nat)
    requires i < |c.args|
  {
    if i < Positional(c) then FormalOk(c, i)
    else if i < Leading(c.args) then
      Limit(c.formals) < |c.formals| && OrDefault(c.args[i], c.formals[Limit(c.formals)]).Some?
    else NamedOk(c, i)
  }

  /** The expressions that enter the ellipsis record, among the first `n` actuals. */
  ghost function Overflow<E, V>(c: Call<E, V>, n: nat): seq<E>
    requires n <= |c.args| && Limit(c.formals) < |c.formals|
    decreases n
  {
    if n == 0 then [] else
      var a, e := c.args[n - 1], OrDefault(c.args[n - 1], c.formals[Limit(c.formals)]);
      if (if n <= Leading(c.args) then n > Limit(c.formals) else Unmatched(c.formals, a)) && e.Some?
      then Overflow(c, n - 1) + [e.value]
      else Overflow(c, n - 1)
  }

  ghost function Values<E, V>(es: seq<E>, refer: E -> V): (r: seq<V>)
    ensures |r| == |es| && forall i :: 0 <= i < |r| ==> r[i] == refer(es[i])
  {
    seq(|es|, i requires 0 <= i < |es| => refer(es[i]))
  }

  /** The ellipsis record after the first `n` actuals; empty where there is no ellipsis. */
  ghost function Record<E, V>(c: Call<E, V>, n: nat): seq<V>
    requires n <= |c.args|
  {
    if Limit(c.formals) < |c.formals| then Values(Overflow(c, n), c.refer) else []
  }

  /** What formal `k` holds in the call. */
  ghost function Content<E, V>(c: Call<E, V>, k: nat): Slot<V>
    requires k < |c.formals| && FormalOk(c, k)
  {
    if c.formals[k].Ellipsis? then Rest(Record(c, |c.args|))
    else One(c.eval(c.formals[k], Chosen(c, k).value).value)
  }

  // ----- the code -----

  /** The scan made when the function is created. */
  method FindEllipsis<E>(formals: seq<Formal<E>>) returns (valid: bool, at: nat)
    ensures valid == Single(formals) && (valid ==> at == Limit(formals))
  {
    valid, at := true, |formals|;
    for k := 0 to |formals|
      invariant at == |formals| ==> forall i :: 0 <= i < k ==> formals[i].Param?
      invariant at < |formals| ==> at < k && at == Limit(formals) && forall i :: at < i < k ==> formals[i].Param?
      invariant at == |formals| || at < k
    {
      if formals[k].Ellipsis? {
        if at < |formals| { return false, at; }
        at := k;
      }
    }
  }

  /** The first `n` formals are bound, each to what the rule says; the others are not. */
  ghost predicate BoundTo<E, V>(c: Call<E, V>, frame: seq<Option<Slot<V>>>, n: nat) {
    && n <= |frame| == |c.formals|
    && (forall k :: 0 <= k < n ==> FormalOk(c, k) && frame[k] == Some(Content(c, k)))
    && (forall k :: n <= k < |frame| ==> frame[k] == None)
  }

  /** Evaluates an expression for a formal and stores it in the formal's empty slot. */
  method Store<E, V>(c: Call<E, V>, frame: seq<Option<Slot<V>>>, k: nat, e: E)
    returns (ok: bool, r: seq<Option<Slot<V>>>)
    requires k < |c.formals| && c.formals[k].Param? && Chosen(c, k) == Some(e) && BoundTo(c, frame, k)
    ensures ok == FormalOk(c, k) && (ok ==> BoundTo(c, r, k + 1))
  {
    hide Chosen;
    var v := c.eval(c.formals[k], e);
    if v.None? { return false, frame; }
    ok, r := true, frame[k := Some(One(v.value))];
  }

  /** Overflow: into the record when there is one. */
  method ArgOverFlow<V>(has: bool, rest: seq<V>, v: V) returns (ok: bool, r: seq<V>)
    ensures ok == has && r == if has then rest + [v] else rest
  {
    if !has { return false, rest; }
    return true, rest + [v];
  }

  lemma {:induction false} RecordGrows<E, V>(c: Call<E, V>, i: nat)
    requires i < |c.args| && Limit(c.formals) < |c.formals|
    requires if i < Leading(c.args) then i >= Limit(c.formals) else Unmatched(c.formals, c.args[i])
    requires OrDefault(c.args[i], c.formals[Limit(c.formals)]).Some?
    ensures Record(c, i + 1) == Record(c, i) + [c.refer(OrDefault(c.args[i], c.formals[Limit(c.formals)]).value)]
  {
    hide Limit, Leading, Unmatched;
  }

  lemma {:induction false} RecordStays<E, V>(c: Call<E, V>, i: nat)
    requires i < |c.args|
    requires if i < Leading(c.args) then i < Limit(c.formals) else !Unmatched(c.formals, c.args[i])
    ensures Record(c, i + 1) == Record(c, i)
  {
    hide Limit, Leading, Unmatched;
  }

  /** After `i` unnamed actuals. */
  ghost predicate Sofar<E, V>(c: Call<E, V>, limit: nat, i: nat, numArgs: nat, frame: seq<Option<Slot<V>>>,
                              rest: seq<V>) {
    && i <= Leading(c.args) && limit == Limit(c.formals) && numArgs == (if i < limit then i else limit)
    && BoundTo(c, frame, numArgs) && rest == Record(c, i) && forall j :: 0 <= j < i ==> ActualOk(c, j)
  }

  /** One more unnamed actual: for the formal at its position, or into the record. */
  method BindOne<E, V>(c: Call<E, V>, limit: nat, i: nat, n: nat, f: seq<Option<Slot<V>>>, r: seq<V>)
    returns (fail: bool, numArgs: nat, frame: seq<Option<Slot<V>>>, rest: seq<V>)
    requires Sofar(c, limit, i, n, f, r) && i < Leading(c.args)
    ensures fail == !ActualOk(c, i) && (!fail ==> Sofar(c, limit, i + 1, numArgs, frame, rest))
  {
    hide Limit, Leading, BoundTo, ActualOk, Record, OrDefault, Unmatched;
    numArgs, frame, rest := n, f, r;
    if numArgs >= limit {
      fail, rest := Spill(c, limit, i, r);
    } else {
      fail, frame := Place(c, f, i);
      RecordStays(c, i);
      numArgs := numArgs + 1;
    }
  }

  /** Unnamed actuals, up to the first named one. */
  method BindPositional<E, V>(c: Call<E, V>, limit: nat)
    returns (fail: bool, i: nat, numArgs: nat, frame: seq<Option<Slot<V>>>, rest: seq<V>)
    requires limit == Limit(c.formals)
    ensures fail ==> i < Leading(c.args) && !ActualOk(c, i) && forall j :: 0 <= j < i ==> ActualOk(c, j)
    ensures !fail ==> && i == Leading(c.args) && numArgs == Positional(c) && BoundTo(c, frame, numArgs)
                      && rest == Record(c, i) && forall j :: 0 <= j < i ==> ActualOk(c, j)
  {
    i, numArgs, rest, fail := 0, 0, [], false;
    frame := seq(|c.formals|, _ => None);
    assert BoundTo(c, frame, 0);
    hide Limit, Leading, BoundTo, ActualOk, Record;
    while i < |c.args| && !c.args[i].Named?
      invariant i <= Leading(c.args) && Sofar(c, limit, i, numArgs, frame, rest)
    {
      fail, numArgs, frame, rest := BindOne(c, limit, i, numArgs, frame, rest);
      if fail { return; }
      i := i + 1;
    }
  }

  /** One unnamed actual for the formal at its position. */
  method Place<E, V>(c: Call<E, V>, frame: seq<Option<Slot<V>>>, i: nat) returns (fail: bool, r: seq<Option<Slot<V>>>)
    requires i < Leading(c.args) && i < Limit(c.formals) && BoundTo(c, frame, i)
    ensures fail == !ActualOk(c, i) && (!fail ==> BoundTo(c, r, i + 1))
    ensures !fail ==> i < |r| && r[i].Some?
    ensures !fail && c.args[i].Given? ==> Gives(c, c.formals[i], c.args[i].expr, r[i].value)
    ensures !fail && c.args[i].Omitted? ==> GivesDefault(c, c.formals[i], r[i].value)
  {
    hide Limit, Leading;
    var e := OrDefault(c.args[i], c.formals[i]);
    if e.None? { return true, frame; }
    var ok;
    ok, r := Store(c, frame, i, e.value);
    fail := !ok;
  }

  /** One unnamed actual too many. */
  method Spill<E, V>(c: Call<E, V>, limit: nat, i: nat, rest: seq<V>) returns (fail: bool, r: seq<V>)
    requires limit == Limit(c.formals) && limit <= i < Leading(c.args) && rest == Record(c, i)
    ensures fail == !ActualOk(c, i) && (!fail ==> r == Record(c, i + 1))
  {
    hide Limit, Leading, Unmatched, Overflow;
    r := rest;
    if limit == |c.formals| { return true, rest; }
    var e := OrDefault(c.args[i], c.formals[limit]);
    if e.None? { return true, rest; }
    RecordGrows(c, i);
    var ok;
    ok, r := ArgOverFlow(limit < |c.formals|, rest, c.refer(e.value));
    fail := !ok;
  }

  method FindFormal<E>(formals: seq<Formal<E>>, a: Actual<E>) returns (j: nat)
    requires a.Named?
    ensures j == FormalOf(formals, a)
  {
    j := 0;
    hide FormalOf;
    while j < |formals| && !(formals[j].Param? && formals[j].name == a.name)
      invariant j <= FormalOf(formals, a)
    {
      j := j + 1;
    }
  }

  /** The named actuals: whether each has a formal, or else a place in the record. */
  method CheckNamed<E, V>(c: Call<E, V>, limit: nat, first: nat, numArgs: nat, start: seq<V>)
    returns (fail: bool, m: nat, rest: seq<V>)
    requires limit == Limit(c.formals) && numArgs == Positional(c)
    requires first == Leading(c.args) && start == Record(c, first)
    ensures fail ==> first <= m < |c.args| && !NamedOk(c, m) && forall i :: first <= i < m ==> NamedOk(c, i)
    ensures !fail ==> rest == Record(c, |c.args|) && forall i :: first <= i < |c.args| ==> NamedOk(c, i)
  {
    m, rest, fail := first, start, false;
    var count := first;
    hide Limit, Leading, Record, FormalOf;
    while m < |c.args|
      invariant first <= m <= |c.args| && first <= count <= m
      invariant count == m <==> forall i :: first <= i < m ==> Unmatched(c.formals, c.args[i])
      invariant rest == Record(c, m) && forall i :: first <= i < m ==> NamedOk(c, i)
    {
      if !c.args[m].Named? { return true, m, rest; }
      var j := FindFormal(c.formals, c.args[m]);
      if j >= |c.formals| {
        if count == m && numArgs == limit && limit < |c.formals| {
          RecordGrows(c, m);
          rest := rest + [c.refer(c.args[m].expr)];
          count := count + 1;
        } else {
          return true, m, rest;
        }
      } else {
        if j < numArgs { return true, m, rest; }
        RecordStays(c, m);
      }
      m := m + 1;
    }
  }

  method FindActual<E>(args: seq<Actual<E>>, first: nat, f: Formal<E>) returns (m: nat)
    requires f.Param? && first == Leading(args) && forall i :: first <= i < |args| ==> args[i].Named?
    ensures m == ActualOf(args, f)
  {
    m := first;
    hide ActualOf;
    while m < |args| && f.name != args[m].name
      invariant first <= m <= ActualOf(args, f)
    {
      m := m + 1;
    }
  }

  /** The formals that are left: a named actual, else the default; the ellipsis gets its
      record. */
  method BindRemaining<E, V>(c: Call<E, V>, first: nat, start: nat, before: seq<Option<Slot<V>>>, rest: seq<V>)
    returns (fail: bool, n: nat, frame: seq<Option<Slot<V>>>)
    requires first == Leading(c.args) && rest == Record(c, |c.args|)
    requires start == Positional(c) && BoundTo(c, before, start)
    requires forall i :: first <= i < |c.args| ==> c.args[i].Named?
    ensures fail ==> n < |c.formals| && !FormalOk(c, n) && forall k :: 0 <= k < n ==> FormalOk(c, k)
    ensures !fail ==> BoundTo(c, frame, |c.formals|)
  {
    n, frame, fail := start, before, false;
    hide Leading, Record, Positional, ActualOf;
    while n < |c.formals|
      invariant start <= n <= |c.formals| && BoundTo(c, frame, n)
    {
      var f := c.formals[n];
      if f.Ellipsis? {
        frame := frame[n := Some(Rest(rest))];
      } else {
        var m := FindActual(c.args, first, f);
        var e := if m < |c.args| then Some(c.args[m].expr) else f.default;
        if e.None? { return true, n, frame; }
        var ok;
        ok, frame := Store(c, frame, n, e.value);
        if !ok { return true, n, frame; }
      }
      n := n + 1;
    }
  }

  method Unwrap<T>(s: seq<Option<T>>) returns (r: seq<T>)
    requires forall i :: 0 <= i < |s| ==> s[i].Some?
    ensures |r| == |s| && forall i :: 0 <= i < |s| ==> s[i] == Some(r[i])
  {
    r := seq(|s|, i requires 0 <= i < |s| && s[i].Some? => s[i].value);
  }

  /** Binding succeeds exactly when every actual has a place and every formal is covered, and
      then every formal holds what the rule says; otherwise the first obstacle is reported,
      actuals before formals. */
  method BindInOrder<E, V>(c: Call<E, V>) returns (r: Outcome<V>)
    ensures r == Failed(TwoEllipses) <==> !Single(c.formals)
    ensures r.Bound? <==> && Single(c.formals) && (forall i :: 0 <= i < |c.args| ==> ActualOk(c, i))
                          && (forall k :: 0 <= k < |c.formals| ==> FormalOk(c, k))
    ensures r.Bound? ==> |r.frame| == |c.formals| && forall k :: 0 <= k < |c.formals| ==> r.frame[k] == Content(c, k)
    ensures r.Failed? && r.failure.AtActual? ==> var i := r.failure.i;
              i < |c.args| && !ActualOk(c, i) && forall j :: 0 <= j < i ==> ActualOk(c, j)
    ensures r.Failed? && r.failure.AtFormal? ==> var k := r.failure.k;
              && k < |c.formals| && !FormalOk(c, k) && (forall j :: 0 <= j < k ==> FormalOk(c, j))
              && forall i :: 0 <= i < |c.args| ==> ActualOk(c, i)
  {
    var valid, limit := FindEllipsis(c.formals);
    if !valid { return Failed(TwoEllipses); }
    hide Limit, Leading, FormalOk, NamedOk, Content, Record, Single;
    var fail, first, numArgs, frame, rest := BindPositional(c, limit);
    if fail { return Failed(AtActual(first)); }
    var m;
    fail, m, rest := CheckNamed(c, limit, first, numArgs, rest);
    if fail {
      assert !ActualOk(c, m);
      return Failed(AtActual(m));
    }
    assert forall i :: 0 <= i < |c.args| ==> ActualOk(c, i);
    assert forall i :: first <= i < |c.args| ==> c.args[i].Named? by { AllNamed(c); }
    var n;
    fail, n, frame := BindRemaining(c, first, numArgs, frame, rest);
    if fail { return Failed(AtFormal(n)); }
    var slots := Unwrap(frame);
    r := Bound(slots);
  }

  lemma {:induction false} AllNamed<E, V>(c: Call<E, V>)
    requires forall i :: Leading(c.args) <= i < |c.args| ==> NamedOk(c, i)
    ensures forall i :: Leading(c.args) <= i < |c.args| ==> c.args[i].Named?
  {
    forall i | Leading(c.args) <= i < |c.args| ensures c.args[i].Named? {
      assert NamedOk(c, i);
    }
  }

  // ----- the outcome, said of actuals and formals alone -----

  /** The value of an expression for a formal. */
  ghost predicate Gives<E, V>(c: Call<E, V>, f: Formal<E>, e: E, s: Slot<V>) {
    c.eval(f, e).Some? && s == One(c.eval(f, e).value)
  }

  ghost predicate GivesDefault<E, V>(c: Call<E, V>, f: Formal<E>, s: Slot<V>) {
    f.default.Some? && Gives(c, f, f.default.value, s)
  }

  /** Actual `m` is the first that names the formal. */
  ghost predicate FirstNamed<E>(args: seq<Actual<E>>, f: Formal<E>, m: nat) {
    m < |args| && Matches(f, args[m]) && forall j :: 0 <= j < m ==> !Matches(f, args[j])
  }

  /** One entry of the record: the actual, or the ellipsis's default where it is empty. */
  ghost predicate Entry<E, V>(c: Call<E, V>, a: Actual<E>, v: V)
    requires Limit(c.formals) < |c.formals|
  {
    match a
    case Given(e) => v == c.refer(e)
    case Named(_, e) => v == c.refer(e)
    case Omitted => var d := c.formals[Limit(c.formals)].default; d.Some? && v == c.refer(d.value)
  }

  /** The slot of formal `k`. By position: the actual given there, or the formal's own default
      where it is left empty. Otherwise the first actual that names it, or else its default. The
      ellipsis has the overflow arguments: consecutive ones from its position on, in order. */
  ghost predicate Holds<E, V>(c: Call<E, V>, k: nat, s: Slot<V>)
    requires k < |c.formals|
  {
    var f := c.formals[k];
    if f.Ellipsis? then
      && k == Limit(c.formals) && s.Rest?
      && (forall i :: 0 <= i < |c.args| ==> (Spills(c, i) <==> k <= i < k + |s.values|))
      && forall t :: 0 <= t < |s.values| ==> k + t < |c.args| && Entry(c, c.args[k + t], s.values[t])
    else if k < Leading(c.args) && k < Limit(c.formals) then
      match c.args[k]
      case Given(e) => Gives(c, f, e, s)
      case Omitted => GivesDefault(c, f, s)
      case Named(_, _) => false
    else
      || (exists m: nat :: FirstNamed(c.args, f, m) && c.args[m].Named? && Gives(c, f, c.args[m].expr, s))
      || ((forall m :: 0 <= m < |c.args| ==> !Matches(f, c.args[m])) && GivesDefault(c, f, s))
  }

  /** An expression that is missing, or has no value for the formal. */
  ghost predicate NoValue<E, V>(c: Call<E, V>, f: Formal<E>, e: Option<E>) {
    e.None? || c.eval(f, e.value).None?
  }

  /** Why an actual has no place: by position, neither it nor, where it is empty, the default has
      a value; beyond the positions, there is no ellipsis, or it is empty and the ellipsis has no
      default; named, it breaks the rule for named ones. */
  ghost predicate NoPlace<E, V>(c: Call<E, V>, i: nat)
    requires i < |c.args|
  {
    if i < Leading(c.args) && i < Limit(c.formals) then
      NoValue(c, c.formals[i], if c.args[i].Given? then Some(c.args[i].expr) else c.formals[i].default)
    else if i < Leading(c.args) then
      Limit(c.formals) == |c.formals| || (c.args[i].Omitted? && c.formals[Limit(c.formals)].default.None?)
    else !NamedOk(c, i)
  }

  /** Why a formal that no position covers has no value. */
  ghost predicate Uncovered<E, V>(c: Call<E, V>, k: nat)
    requires k < |c.formals|
  {
    var f := c.formals[k];
    && f.Param? && (k >= Leading(c.args) || k >= Limit(c.formals))
    && (forall m: nat :: FirstNamed(c.args, f, m) && c.args[m].Named? ==> NoValue(c, f, Some(c.args[m].expr)))
    && ((forall m :: 0 <= m < |c.args| ==> !Matches(f, c.args[m])) ==> NoValue(c, f, f.default))
  }

  lemma {:induction false} ContentHolds<E, V>(c: Call<E, V>, k: nat)
    requires k < |c.formals| && Single(c.formals) && FormalOk(c, k) && forall i :: 0 <= i < |c.args| ==> ActualOk(c, i)
    ensures Holds(c, k, Content(c, k))
  {
    var f := c.formals[k];
    if f.Ellipsis? {
      hide ActualOk, Leading;
      RecordIsOverflow(c, |c.args|);
      hide Record, Spills, Limit;
      forall t | 0 <= t < |Record(c, |c.args|)|
        ensures k + t < |c.args| && Entry(c, c.args[k + t], Record(c, |c.args|)[t])
      {
        assert RecordedFrom(c, |c.args|, t);
      }
    } else {
      hide ActualOk, Limit, Leading, Record;
      var m := ActualOf(c.args, f);
      hide ActualOf;
      if m < |c.args| { assert FirstNamed(c.args, f, m); }
    }
  }

  lemma {:induction false} Obstacle<E, V>(c: Call<E, V>, i: nat)
    requires i < |c.args|
    ensures ActualOk(c, i) <==> !NoPlace(c, i)
  {
    hide Limit, Leading, NamedOk;
  }

  lemma {:induction false} UncoveredFormal<E, V>(c: Call<E, V>, k: nat)
    requires k < |c.formals| && !FormalOk(c, k) && forall i :: 0 <= i < |c.args| ==> ActualOk(c, i)
    ensures Uncovered(c, k)
  {
    assert k < Positional(c) ==> ActualOk(c, k);
    hide Limit, Leading, NamedOk;
    var f := c.formals[k];
    var first := ActualOf(c.args, f);
    hide ActualOf;
    forall m: nat | FirstNamed(c.args, f, m) ensures m == first {}
  }

  /** Binding, in terms of the call alone: the slots of a bound call are as told, and a failed
      one names the first obstacle. */
  method Bind<E, V>(c: Call<E, V>) returns (r: Outcome<V>)
    ensures r == Failed(TwoEllipses) <==> !Single(c.formals)
    ensures r.Bound? <==> && Single(c.formals) && (forall i :: 0 <= i < |c.args| ==> ActualOk(c, i))
                          && (forall k :: 0 <= k < |c.formals| ==> FormalOk(c, k))
    ensures r.Bound? ==> |r.frame| == |c.formals| && forall k :: 0 <= k < |c.formals| ==> Holds(c, k, r.frame[k])
    ensures r.Bound? ==> forall i :: 0 <= i < |c.args| ==> !NoPlace(c, i)
    ensures r.Failed? && r.failure.AtActual? ==> var i := r.failure.i;
              i < |c.args| && NoPlace(c, i) && forall j :: 0 <= j < i ==> !NoPlace(c, j)
    ensures r.Failed? && r.failure.AtFormal? ==> var k := r.failure.k;
              k < |c.formals| && Uncovered(c, k) && forall i :: 0 <= i < |c.args| ==> !NoPlace(c, i)
  {
    hide ActualOk, FormalOk, Content, Holds, NoPlace, Uncovered, Single;
    r := BindInOrder(c);
    forall i | 0 <= i < |c.args| ensures ActualOk(c, i) <==> !NoPlace(c, i) { Obstacle(c, i); }
    if r.Bound? {
      forall k | 0 <= k < |c.formals| ensures Holds(c, k, r.frame[k]) { ContentHolds(c, k); }
    } else if r.failure.AtFormal? {
      UncoveredFormal(c, r.failure.k);
    }
  }

  // ----- what becomes of each actual -----

  ghost predicate DistinctNames<E>(formals: seq<Formal<E>>) {
    forall j, k :: 0 <= j < k < |formals| && formals[j].Param? && formals[k].Param? ==>
      formals[j].name != formals[k].name
  }

  /** In a call that binds, a named actual that names a formal is that formal's value exactly
      when no earlier actual has the same name: a repetition is dropped without a report. */
  lemma {:induction false} NamedActualUsed<E, V>(c: Call<E, V>, m: nat)
    requires Leading(c.args) <= m < |c.args| && NamedOk(c, m) && !Unmatched(c.formals, c.args[m])
    requires DistinctNames(c.formals)
    ensures var k := FormalOf(c.formals, c.args[m]);
            && Positional(c) <= k < |c.formals| && Chosen(c, k) == Some(c.args[ActualOf(c.args, c.formals[k])].expr)
            && (ActualOf(c.args, c.formals[k]) == m <==>
                  forall i :: Leading(c.args) <= i < m ==> c.args[i].Named? ==> c.args[i].name != c.args[m].name)
  {
    var k := FormalOf(c.formals, c.args[m]);
    var first := ActualOf(c.args, c.formals[k]);
    assert Matches(c.formals[k], c.args[m]) && first <= m;
    hide ActualOf, FormalOf, Leading, Limit;
    if first != m { assert c.args[first].Named? && c.args[first].name == c.args[m].name; }
  }

  /** Such a call: the second value for the only formal is dropped, and the call binds. */
  lemma {:induction false} RepeatedNameExample<E, V>(c: Call<E, V>, first: E, second: E)
    requires c.formals == [Param("x", Val, None)] && c.args == [Named("x", first), Named("x", second)]
    ensures (forall i :: 0 <= i < 2 ==> ActualOk(c, i)) && Chosen(c, 0) == Some(first)
  {
    assert Leading(c.args) == 0 && Matches(c.formals[0], c.args[0]) && Matches(c.formals[0], c.args[1]);
    assert FormalOf(c.formals, c.args[0]) == 0 == FormalOf(c.formals, c.args[1]);
    assert ActualOf(c.args, c.formals[0]) == 0;
  }

  /** Actual `i` is an overflow argument. */
  ghost predicate Spills<E, V>(c: Call<E, V>, i: nat)
    requires i < |c.args|
  {
    i >= Limit(c.formals) && (i < Leading(c.args) || Unmatched(c.formals, c.args[i]))
  }

  ghost predicate RecordedFrom<E, V>(c: Call<E, V>, n: nat, t: nat)
    requires n <= |c.args| && t < |Record(c, n)| && Limit(c.formals) < |c.formals|
  {
    var i := Limit(c.formals) + t;
    && i < |c.args| && OrDefault(c.args[i], c.formals[Limit(c.formals)]).Some?
    && Record(c, n)[t] == c.refer(OrDefault(c.args[i], c.formals[Limit(c.formals)]).value)
  }

  /** Among the first `n` actuals the overflow arguments are consecutive, from the ellipsis's
      position on, and the record holds exactly them, in order. */
  ghost predicate Recorded<E, V>(c: Call<E, V>, n: nat)
    requires n <= |c.args| && Limit(c.formals) < |c.formals|
  {
    var limit, w := Limit(c.formals), |Record(c, n)|;
    && (w > 0 ==> limit + w <= n)
    && (forall i :: 0 <= i < n ==> (Spills(c, i) <==> limit <= i < limit + w))
    && (forall t :: 0 <= t < w ==> RecordedFrom(c, n, t))
  }

  lemma {:induction false} RecordedMore<E, V>(c: Call<E, V>, i: nat)
    requires i < |c.args| && ActualOk(c, i) && Limit(c.formals) < |c.formals| && Recorded(c, i) && Spills(c, i)
    ensures Recorded(c, i + 1)
  {
    hide Limit, Leading, Unmatched, Record, ActualOk, FormalOk, Positional, OrDefault;
    var limit, w := Limit(c.formals), |Record(c, i)|;
    SpillsAfterSpills(c, i);
    var gap := if limit + w < i then limit + w else i;
    assert Spills(c, gap);
    RecordGrows(c, i);
    var n := i + 1;
    forall t | 0 <= t < w ensures RecordedFrom(c, n, t) {
      assert RecordedFrom(c, i, t);
    }
    hide Spills;
  }

  lemma {:induction false} RecordedSame<E, V>(c: Call<E, V>, i: nat)
    requires i < |c.args| && ActualOk(c, i) && Limit(c.formals) < |c.formals| && Recorded(c, i) && !Spills(c, i)
    ensures Recorded(c, i + 1)
  {
    hide Limit, Leading, Unmatched, Record, ActualOk, FormalOk, Positional, OrDefault;
    SpillsOr(c, i);
    RecordStays(c, i);
    hide Spills;
    var n := i + 1;
    forall t | 0 <= t < |Record(c, n)| ensures RecordedFrom(c, n, t) {
      assert RecordedFrom(c, i, t);
    }
  }

  /** In a call that binds, the record is exactly the overflow. */
  lemma {:induction false} RecordIsOverflow<E, V>(c: Call<E, V>, n: nat)
    requires Limit(c.formals) < |c.formals| && n <= |c.args| && forall i :: 0 <= i < n ==> ActualOk(c, i)
    ensures Recorded(c, n)
    decreases n
  {
    if n > 0 {
      hide Limit, ActualOk, Recorded, Spills;
      RecordIsOverflow(c, n - 1);
      if Spills(c, n - 1) {
        RecordedMore(c, n - 1);
      } else {
        RecordedSame(c, n - 1);
      }
    } else {
      hide Limit, ActualOk;
    }
  }

  lemma {:induction false} SpillsAfterSpills<E, V>(c: Call<E, V>, i: nat)
    requires i < |c.args| && ActualOk(c, i) && Spills(c, i) && Limit(c.formals) < |c.formals|
    ensures forall j :: Limit(c.formals) <= j <= i ==> Spills(c, j)
    ensures OrDefault(c.args[i], c.formals[Limit(c.formals)]).Some?
    ensures if i < Leading(c.args) then i >= Limit(c.formals) else Unmatched(c.formals, c.args[i])
  {
    hide Limit, Leading, Unmatched, FormalOk;
  }

  lemma {:induction false} SpillsOr<E, V>(c: Call<E, V>, i: nat)
    requires i < |c.args| && ActualOk(c, i) && !Spills(c, i)
    ensures if i < Leading(c.args) then i < Limit(c.formals) else !Unmatched(c.formals, c.args[i])
  {
    hide Limit, Leading, FormalOk;
  }
}
