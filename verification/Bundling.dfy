/** Sending events to a client task, directly or through its proxies, with bundling and with
    a queue until the task connects. */
module Bundling {
  import opened Common
  import Dictionary

  type Key = Dictionary.Key

  // ----- keys of bundled events -----

  function HexDigit(d: nat): (b: Dictionary.Byte)
    requires d < 16
  {
    (if d < 10 then 48 + d else 87 + d) as Dictionary.Byte
  }

  /** `n` in hexadecimal, `width` digits. */
  function Hex(n: nat, width: nat): (s: Key)
    ensures |s| == width
    decreases width
  {
    if width == 0 then [] else Hex(n / 16, width - 1) + [HexDigit(n % 16)]
  }

  ghost function Power16(width: nat): (p: nat)
    ensures p > 0
  {
    if width == 0 then 1 else 16 * Power16(width - 1)
  }

  lemma {:induction false} HexInjective(n: nat, m: nat, width: nat)
    requires n < Power16(width) && m < Power16(width) && Hex(n, width) == Hex(m, width)
    ensures n == m
    decreases width
  {
    if width > 0 {
      var a, b := Hex(n, width), Hex(m, width);
      assert a[width - 1] == HexDigit(n % 16) && b[width - 1] == HexDigit(m % 16);
      assert n % 16 == m % 16;
      assert a[..width - 1] == Hex(n / 16, width - 1) && b[..width - 1] == Hex(m / 16, width - 1);
      HexInjective(n / 16, m / 16, width - 1);
    }
  }

  /** What lower-case hexadecimal digits stand for. */
  ghost function Unhex(s: Key): int
    decreases |s|
  {
    if s == [] then 0 else
      var d := s[|s| - 1] as int;
      16 * Unhex(s[..|s| - 1]) + (if 48 <= d <= 57 then d - 48 else if 97 <= d <= 102 then d - 87 else -1)
  }

  lemma {:induction false} HexReads(n: nat, width: nat)
    requires n < Power16(width)
    ensures Unhex(Hex(n, width)) == n
    decreases width
  {
    if width > 0 {
      HexReads(n / 16, width - 1);
      assert Hex(n, width)[..width - 1] == Hex(n / 16, width - 1);
    }
  }

  /** The key of an event in a bundle that holds `n` events already. */
  function BundleKey(n: nat, name: Key): (k: Key)
    ensures |k| == 8 + |name| && k[8..] == name && k[..8] == Hex(n, 8)
  {
    Hex(n, 8) + name
  }

  lemma {:induction false} NumbersDiffer(n: nat, m: nat)
    requires n < INT_LIMIT && m < INT_LIMIT && Hex(n, 8) == Hex(m, 8)
    ensures n == m
  {
    assert Power16(8) == 0x1_0000_0000 by {
      assert Power16(4) == 65536;
      assert Power16(6) == 16 * Power16(5) == 256 * Power16(4);
      assert Power16(8) == 16 * Power16(7) == 256 * Power16(6);
    }
    HexInjective(n, m, 8);
  }

  // ----- bundles -----

  type Bundle<V> = seq<(Key, V)>

  /** Entry `k` carries number `k`. */
  ghost predicate Numbered<V>(b: Bundle<V>) {
    forall k :: 0 <= k < |b| ==> |b[k].0| >= 8 && b[k].0[..8] == Hex(k, 8)
  }

  lemma {:induction false} KeyAbsent<V>(b: Bundle<V>, name: Key)
    requires Numbered(b) && |b| < INT_LIMIT
    ensures Dictionary.Find(b, BundleKey(|b|, name)) < 0
  {
    var i := Dictionary.Find(b, BundleKey(|b|, name));
    hide BundleKey, Hex, Dictionary.Find;
    if i >= 0 {
      NumbersDiffer(i, |b|);
      assert false;
    }
  }

  lemma {:induction false} NumberedMore<V>(b: Bundle<V>, key: Key, v: V)
    requires Numbered(b) && |key| >= 8 && key[..8] == Hex(|b|, 8)
    ensures Numbered(b + [(key, v)])
  {
    hide Hex;
  }

  /** A new entry's key is not there yet, so it goes last and replaces nothing. */
  lemma {:induction false} InsertAppends<V>(b: Bundle<V>, name: Key, v: V)
    requires Numbered(b) && |b| < INT_LIMIT
    ensures Dictionary.Put(b, BundleKey(|b|, name), v) == b + [(BundleKey(|b|, name), v)]
    ensures Numbered(b + [(BundleKey(|b|, name), v)])
  {
    KeyAbsent(b, name);
    NumberedMore(b, BundleKey(|b|, name), v);
    hide BundleKey, Hex, Dictionary.Find, Numbered;
  }

  // ----- what travels, and what it means -----

  datatype Address = Direct | Proxy(id: nat)

  datatype Event<V> = Event(name: Key, value: V, isRequest: bool)

  datatype Payload<V> = One(value: V) | Many(entries: Bundle<V>)

  datatype Packet<V> = Packet(to: Address, name: Key, payload: Payload<V>, isRequest: bool)

  /** The name given to packets that hold a bundle. */
  const EVENT_BUNDLE: Key := [101, 118, 101, 110, 116, 45, 98, 117, 110, 100, 108, 101]

  function Strip(key: Key): Key {
    if |key| >= 8 then key[8..] else []
  }

  ghost function Opened<V>(b: Bundle<V>): (r: seq<Event<V>>)
    ensures |r| == |b| && forall i :: 0 <= i < |b| ==> r[i] == Event(Strip(b[i].0), b[i].1, false)
  {
    seq(|b|, i requires 0 <= i < |b| => Event(Strip(b[i].0), b[i].1, false))
  }

  lemma {:induction false} OpenedMore<V>(b: Bundle<V>, name: Key, v: V)
    ensures Opened(b + [(BundleKey(|b|, name), v)]) == Opened(b) + [Event(name, v, false)] && Opened<V>([]) == []
  {
    hide Hex, BundleKey, Opened;
    assert Strip(BundleKey(|b|, name)) == name;
    hide Strip;
  }

  ghost function Unpack<V>(p: Packet<V>): seq<Event<V>> {
    if p.payload.One? then [Event(p.name, p.payload.value, p.isRequest)] else Opened(p.payload.entries)
  }

  /** The events for one address in a sequence of packets. */
  ghost function Flow<V>(ps: seq<Packet<V>>, to: Address): seq<Event<V>>
    decreases |ps|
  {
    if ps == [] then [] else
      var n := |ps| - 1;
      Flow(ps[..n], to) + (if ps[n].to == to then Unpack(ps[n]) else [])
  }

  lemma {:induction false} FlowMore<V>(ps: seq<Packet<V>>, p: Packet<V>, to: Address)
    ensures Flow(ps + [p], to) == Flow(ps, to) + (if p.to == to then Unpack(p) else [])
  {
    var r := ps + [p];
    assert r[..|r| - 1] == ps && r[|r| - 1] == p;
  }

  lemma {:induction false} FlowAppend<V>(a: seq<Packet<V>>, b: seq<Packet<V>>, to: Address)
    ensures Flow(a + b, to) == Flow(a, to) + Flow(b, to)
    decreases |b|
  {
    if b == [] {
      assert a + b == a && Flow(b, to) == [];
    } else {
      hide Flow, Unpack;
      var n := |b| - 1;
      var p, init := b[n], b[..n];
      FlowAppend(a, init, to);
      FlowMore(init, p, to);
      FlowMore(a + init, p, to);
      assert init + [p] == b;
      Associates(a, init, [p]);
      Associates(Flow(a, to), Flow(init, to), if p.to == to then Unpack(p) else []);
    }
  }

  lemma {:induction false} Associates<T>(a: seq<T>, b: seq<T>, c: seq<T>)
    ensures a + b + c == a + (b + c)
  {
  }

  /** The event that ends a proxy, when it is sent by itself. */
  const TERMINATE: Key := [116, 101, 114, 109, 105, 110, 97, 116, 101]

  ghost predicate Quiet<V>(ps: seq<Packet<V>>, to: Address) {
    forall i :: 0 <= i < |ps| && ps[i].to == to ==> ps[i].name != TERMINATE
  }

  lemma {:induction false} QuietAppend<V>(a: seq<Packet<V>>, b: seq<Packet<V>>, to: Address)
    ensures Quiet(a + b, to) <==> Quiet(a, to) && Quiet(b, to)
  {
    assert forall i :: 0 <= i < |a| ==> (a + b)[i] == a[i];
    assert forall i :: 0 <= i < |b| ==> (a + b)[|a| + i] == b[i];
  }

  lemma {:induction false} QuietMore<V>(ps: seq<Packet<V>>, p: Packet<V>, to: Address)
    ensures Quiet(ps + [p], to) <==> Quiet(ps, to) && (p.to == to ==> p.name != TERMINATE)
  {
    QuietAppend(ps, [p], to);
    assert [p][0] == p;
  }

  /** Every bundle in these packets is numbered. */
  ghost predicate Sound<V>(ps: seq<Packet<V>>) {
    forall i :: 0 <= i < |ps| && ps[i].payload.Many? ==> Numbered(ps[i].payload.entries)
  }

  lemma {:induction false} SoundMore<V>(ps: seq<Packet<V>>, p: Packet<V>)
    requires Sound(ps) && (p.payload.Many? ==> Numbered(p.payload.entries))
    ensures Sound(ps + [p])
  {
    hide Numbered;
  }

  // ----- reference: each agent's events, without packets or keys -----

  /** How an attempt to connect ends: established; a local channel that is used although its
      establishment failed; or not at all. */
  datatype Link = Established | Broken | Refused

  /** One agent's events that have been sent, those that wait for the connection, and whether
      the event that ends a proxy is among them, by itself. */
  datatype Carriage<V> = Carriage(sent: seq<Event<V>>, waiting: seq<Event<V>>, ended: bool)

  /** When the connection is established, what waited is sent. */
  ghost function Moved<V>(c: Carriage<V>, linked: bool): Carriage<V> {
    if linked then Carriage(c.sent + c.waiting, [], c.ended) else c
  }

  ghost function Carried<V>(c: Carriage<V>, es: seq<Event<V>>, ends: bool, connected: bool): Carriage<V> {
    if connected then Carriage(c.sent + es, c.waiting, c.ended || ends)
    else Carriage(c.sent, c.waiting + es, c.ended || ends)
  }

  /** An agent's account: its bundle size, its open bundle, its events on the way, and `log`, all
      it was asked to send, in that order. Once events have been sent over waiting ones, `late`
      are those passed over and `over` those that passed them; `before` and `after` are what was
      sent before the first of these and after the last. */
  datatype Line<V> =
    Line(size: nat, open: seq<Event<V>>, way: Carriage<V>, log: seq<Event<V>>,
         before: seq<Event<V>>, late: seq<Event<V>>, over: seq<Event<V>>, after: seq<Event<V>>)

  ghost function Fresh<V>(): Line<V> {
    Line(0, [], Carriage([], [], false), [], [], [], [], [])
  }

  ghost function Linked<V>(l: Line<V>): Line<V> {
    l.(way := Moved(l.way, true))
  }

  ghost function Emitted<V>(l: Line<V>, es: seq<Event<V>>, ends: bool, connected: bool): Line<V> {
    var next := l.(way := Carried(l.way, es, ends, connected));
    if connected && l.way.waiting != [] then
      next.(before := if l.over == [] then l.way.sent else l.before, late := l.way.waiting, over := l.over + es)
    else if connected && l.over != [] then next.(after := l.after + es)
    else next
  }

  ghost function Flushed<V>(l: Line<V>, connected: bool): Line<V> {
    if l.open == [] then l else Emitted(l.(open := []), l.open, false, connected)
  }

  ghost function Bundled<V>(l: Line<V>, e: Event<V>, connected: bool): Line<V> {
    var m := l.(open := l.open + [e], log := l.log + [e]);
    if |m.open| >= m.size then Flushed(m, connected) else m
  }

  ghost function SentNow<V>(l: Line<V>, e: Event<V>, connected: bool, link: Link): Line<V> {
    var asks := e.isRequest && !connected;
    if asks && link.Refused? then l
    else
      var m := if asks && link.Established? then Linked(l) else l;
      Emitted(m.(log := m.log + [e]), [e], e.name == TERMINATE, connected || e.isRequest)
  }

  /** A script's send: bundled when bundling is on, except that a request first flushes the
      bundle and goes by itself. */
  ghost function Issued<V>(l: Line<V>, e: Event<V>, connected: bool, link: Link): Line<V> {
    if l.size > 0 && !e.isRequest then Bundled(l, e, connected)
    else SentNow(if l.size > 0 then Flushed(l, connected) else l, e, connected, link)
  }

  ghost function Rebundled<V>(l: Line<V>, howmany: int, connected: bool): Line<V> {
    var m := l.(size := if howmany <= 1 then 0 else howmany);
    if |m.open| >= m.size then Flushed(m, connected) else m
  }

  // ----- the order of issue -----

  /** What is sent, then what waits, then the open bundle, is what was issued, in order. */
  ghost predicate InOrder<V>(l: Line<V>) {
    l.way.sent + l.way.waiting + l.open == l.log
  }

  /** How the account stands: nothing was passed over; or some waiting events still are; or they
      were sent in the end. */
  ghost predicate Accounted<V>(l: Line<V>) {
    if l.over == [] then InOrder(l) && l.late == [] && l.after == []
    else if l.way.waiting != [] then
      && l.late == l.way.waiting && l.after == [] && l.way.sent == l.before + l.over
      && l.log == l.before + l.late + l.over + l.open
    else
      && l.way.sent == l.before + l.over + l.late + l.after
      && l.log == l.before + l.late + l.over + l.after + l.open
  }

  /** Every event is sent, waits or is bundled exactly once and in the order of issue, exactly
      when the events that passed over waiting ones commute with them; so whenever none did. */
  lemma {:induction false} OrderExact<V>(l: Line<V>)
    requires Accounted(l)
    ensures InOrder(l) <==> l.over + l.late == l.late + l.over
  {
    if l.over != [] {
      var rest := l.after + l.open;
      assert l.way.sent + l.way.waiting + l.open == l.before + (l.over + l.late) + rest;
      assert l.log == l.before + (l.late + l.over) + rest;
      hide Accounted;
      Cancel(l.before, l.over + l.late, l.late + l.over, rest);
    }
  }

  lemma {:induction false} Cancel<T>(s: seq<T>, a: seq<T>, b: seq<T>, r: seq<T>)
    requires |a| == |b|
    ensures s + a + r == s + b + r <==> a == b
  {
    var x, y := s + a + r, s + b + r;
    assert a == x[|s|..|s| + |a|] && b == y[|s|..|s| + |b|];
  }

  /** The account agrees with the connection: only over a connection can events pass others, and
      an open bundle has not reached its size. */
  ghost predicate Kept<V>(l: Line<V>, connected: bool) {
    Accounted(l) && (l.over != [] ==> connected) && (l.open == [] || |l.open| < l.size)
  }

  /** Flushing with nothing waiting: the bundle follows what was sent. */
  lemma {:induction false} FlushOn<V>(l: Line<V>)
    requires Accounted(l) && l.open != [] && l.way.waiting == []
    ensures Accounted(Flushed(l, true))
  {
  }

  /** Flushing over waiting events. */
  lemma {:induction false} FlushOver<V>(l: Line<V>)
    requires Accounted(l) && l.open != [] && l.way.waiting != []
    ensures Accounted(Flushed(l, true))
  {
  }

  lemma {:induction false} FlushKeeps<V>(l: Line<V>, connected: bool)
    requires Accounted(l) && (l.over != [] ==> connected)
    ensures Kept(Flushed(l, connected), connected) && Flushed(l, connected).open == []
  {
    if l.open != [] && connected {
      if l.way.waiting == [] { FlushOn(l); } else { FlushOver(l); }
      hide Accounted;
    }
  }

  lemma {:induction false} LinkKeeps<V>(l: Line<V>, connected: bool)
    requires Kept(l, connected)
    ensures Kept(Linked(l), true)
  {
  }

  /** Sending an event by itself is flushing a bundle of one. */
  lemma {:induction false} SentNowKeeps<V>(l: Line<V>, e: Event<V>, connected: bool, link: Link)
    requires Kept(l, connected) && l.open == []
    ensures Kept(SentNow(l, e, connected, link), connected || (e.isRequest && !link.Refused?))
  {
    var asks := e.isRequest && !connected;
    if !(asks && link.Refused?) {
      var m := if asks && link.Established? then Linked(l) else l;
      if asks && link.Established? { LinkKeeps(l, connected); }
      var o := m.(open := [e], log := m.log + [e]);
      assert m.open + [e] == [e];
      OpenKeeps(m, e);
      FlushKeeps(o, connected || e.isRequest);
      assert o.(open := []) == m.(log := m.log + [e]);
      var r := SentNow(l, e, connected, link);
      assert r == Flushed(o, connected || e.isRequest).(way := r.way);
      assert r.way.sent == Flushed(o, connected || e.isRequest).way.sent;
    }
  }

  lemma {:induction false} OpenKeeps<V>(l: Line<V>, e: Event<V>)
    requires Accounted(l)
    ensures Accounted(l.(open := l.open + [e], log := l.log + [e]))
  {
  }

  lemma {:induction false} IssueKeeps<V>(l: Line<V>, e: Event<V>, connected: bool, link: Link)
    requires Kept(l, connected)
    ensures Kept(Issued(l, e, connected, link), connected || (e.isRequest && !link.Refused?))
  {
    hide Accounted, Emitted, SentNow;
    if l.size > 0 && !e.isRequest {
      OpenKeeps(l, e);
      FlushKeeps(l.(open := l.open + [e], log := l.log + [e]), connected);
    } else {
      FlushKeeps(l, connected);
      SentNowKeeps(if l.size > 0 then Flushed(l, connected) else l, e, connected, link);
    }
  }

  lemma {:induction false} RebundleKeeps<V>(l: Line<V>, howmany: int, connected: bool)
    requires Kept(l, connected)
    ensures Kept(Rebundled(l, howmany, connected), connected)
  {
    var m := l.(size := if howmany <= 1 then 0 else howmany);
    assert Accounted(m);
    hide Accounted, Emitted;
    FlushKeeps(m, connected);
  }

  // ----- whole runs -----

  datatype Op<V> =
    | Send(agent: nat, event: Event<V>, link: Link)
    | SetBundling(agent: nat, howmany: int)
    | Flush(agent: nat)
    | Connect

  datatype Journal<V> = Journal(connected: bool, lines: seq<Line<V>>)

  /** The operation establishes a connection, so that everything waiting is sent. */
  ghost predicate Links<V>(op: Op<V>, connected: bool) {
    op.Connect? || (op.Send? && op.event.isRequest && !connected && op.link.Established?)
  }

  ghost predicate Connects<V>(op: Op<V>) {
    op.Connect? || (op.Send? && op.event.isRequest && !op.link.Refused?)
  }

  /** What an operation means for agent `k`. */
  ghost function NotedLine<V>(l: Line<V>, k: nat, op: Op<V>, connected: bool): Line<V> {
    if op.Connect? || op.agent != k then (if Links(op, connected) then Linked(l) else l)
    else match op
      case Send(_, e, link) => Issued(l, e, connected, link)
      case SetBundling(_, n) => Rebundled(l, n, connected)
      case Flush(_) => Flushed(l, connected)
  }

  /** Operations of agents that do not exist are not performed. */
  ghost function Noted<V>(j: Journal<V>, op: Op<V>): Journal<V> {
    if !op.Connect? && op.agent >= |j.lines| then j
    else Journal(j.connected || Connects(op),
                 seq(|j.lines|, k requires 0 <= k < |j.lines| => NotedLine(j.lines[k], k, op, j.connected)))
  }

  ghost function NotedAll<V>(n: nat, ops: seq<Op<V>>): Journal<V>
    decreases |ops|
  {
    if ops == [] then Journal(false, seq(n, _ => Fresh()))
    else Noted(NotedAll(n, ops[..|ops| - 1]), ops[|ops| - 1])
  }

  lemma {:induction false} NotedLineKeeps<V>(l: Line<V>, k: nat, op: Op<V>, connected: bool)
    requires Kept(l, connected)
    ensures Kept(NotedLine(l, k, op, connected), connected || Connects(op))
  {
    hide Accounted, Emitted, Issued, Rebundled, Flushed, Linked;
    if op.Connect? || op.agent != k {
      LinkKeeps(l, connected);
    } else {
      match op
      case Send(_, e, link) => IssueKeeps(l, e, connected, link);
      case SetBundling(_, n) => RebundleKeeps(l, n, connected);
      case Flush(_) => FlushKeeps(l, connected);
    }
  }

  /** In every run every account stands. */
  lemma {:induction false} RunKeeps<V>(n: nat, ops: seq<Op<V>>)
    ensures |NotedAll(n, ops).lines| == n
    ensures forall k :: 0 <= k < n ==> Kept(NotedAll(n, ops).lines[k], NotedAll(n, ops).connected)
    decreases |ops|
  {
    if ops != [] {
      var m := |ops| - 1;
      RunKeeps(n, ops[..m]);
      var j := NotedAll(n, ops[..m]);
      hide Kept, NotedLine;
      forall k | 0 <= k < n ensures Kept(NotedAll(n, ops).lines[k], NotedAll(n, ops).connected) {
        NotedLineKeeps(j.lines[k], k, ops[m], j.connected);
      }
    }
  }

  // ----- what was asked for, told from the operations alone -----

  /** Some operation has connected; those of agents that do not exist are not performed. */
  ghost predicate Up<V>(n: nat, ops: seq<Op<V>>) {
    exists i :: 0 <= i < |ops| && (ops[i].Connect? || ops[i].agent < n) && Connects(ops[i])
  }

  /** The events of agent `k`'s sends, in order; only a request that finds no connection and
      gets none is left out. */
  ghost function Asked<V>(n: nat, ops: seq<Op<V>>, k: nat): seq<Event<V>>
    decreases |ops|
  {
    if ops == [] then [] else
      var m := |ops| - 1;
      var mine := ops[m].Send? && ops[m].agent == k;
      var refused := mine && ops[m].event.isRequest && ops[m].link.Refused? && !Up(n, ops[..m]);
      Asked(n, ops[..m], k) + (if mine && !refused then [ops[m].event] else [])
  }

  lemma {:induction false} UpMore<V>(n: nat, ops: seq<Op<V>>)
    requires ops != []
    ensures var m := |ops| - 1;
            Up(n, ops) <==> Up(n, ops[..m]) || ((ops[m].Connect? || ops[m].agent < n) && Connects(ops[m]))
  {
    var m := |ops| - 1;
    hide Connects;
    if Up(n, ops[..m]) {
      var i :| 0 <= i < m && (ops[..m][i].Connect? || ops[..m][i].agent < n) && Connects(ops[..m][i]);
      assert ops[i] == ops[..m][i];
    }
    if Up(n, ops) && !((ops[m].Connect? || ops[m].agent < n) && Connects(ops[m])) {
      var i :| 0 <= i < |ops| && (ops[i].Connect? || ops[i].agent < n) && Connects(ops[i]);
      assert ops[..m][i] == ops[i];
    }
  }

  /** What one operation adds to the log. */
  lemma {:induction false} LogMore<V>(l: Line<V>, k: nat, op: Op<V>, connected: bool)
    ensures NotedLine(l, k, op, connected).log == l.log +
              if op.Send? && op.agent == k && !(op.event.isRequest && op.link.Refused? && !connected)
              then [op.event] else []
  {
  }

  /** In every run an agent's account is of exactly what it was asked to send, each event once
      and in order, and the task is connected exactly when some operation connected it. */
  lemma {:induction false} LogExact<V>(n: nat, ops: seq<Op<V>>)
    ensures |NotedAll(n, ops).lines| == n && (NotedAll(n, ops).connected <==> Up(n, ops))
    ensures forall k :: 0 <= k < n ==> NotedAll(n, ops).lines[k].log == Asked(n, ops, k)
    decreases |ops|
  {
    if ops != [] {
      var m := |ops| - 1;
      LogExact(n, ops[..m]);
      UpMore(n, ops);
      var j := NotedAll(n, ops[..m]);
      hide NotedLine, Up, Connects;
      forall k | 0 <= k < n ensures NotedAll(n, ops).lines[k].log == Asked(n, ops, k) {
        LogMore(j.lines[k], k, ops[m], j.connected);
      }
    }
  }

  /** No request is let through on a connection whose establishment failed. */
  ghost predicate Unbroken<V>(ops: seq<Op<V>>) {
    forall i :: 0 <= i < |ops| && ops[i].Send? ==> !ops[i].link.Broken?
  }

  ghost predicate Smooth<V>(l: Line<V>, connected: bool) {
    l.over == [] && l.late == [] && (connected ==> l.way.waiting == [])
  }

  lemma {:induction false} SmoothLine<V>(l: Line<V>, k: nat, op: Op<V>, connected: bool)
    requires Smooth(l, connected) && (op.Send? ==> !op.link.Broken?)
    ensures Smooth(NotedLine(l, k, op, connected), connected || Connects(op))
  {
  }

  /** Then nothing passes anything, and nothing waits once the task is connected. */
  lemma {:induction false} UnbrokenSmooth<V>(n: nat, ops: seq<Op<V>>)
    requires Unbroken(ops)
    ensures |NotedAll(n, ops).lines| == n
    ensures forall k :: 0 <= k < n ==> Smooth(NotedAll(n, ops).lines[k], NotedAll(n, ops).connected)
    decreases |ops|
  {
    if ops != [] {
      var m := |ops| - 1;
      UnbrokenSmooth(n, ops[..m]);
      var j := NotedAll(n, ops[..m]);
      hide NotedLine, Smooth, Connects;
      forall k | 0 <= k < n ensures Smooth(NotedAll(n, ops).lines[k], NotedAll(n, ops).connected) {
        SmoothLine(j.lines[k], k, ops[m], j.connected);
      }
    }
  }

  /** A plain event is held back exactly while the bundle stays below its size; the event that
      fills it goes out with it. */
  lemma {:induction false} HeldBack<V>(l: Line<V>, e: Event<V>, connected: bool, link: Link)
    requires Kept(l, connected) && !e.isRequest
    ensures var m := Issued(l, e, connected, link);
            var all := l.way.sent + l.way.waiting + l.open + [e];
            if |l.open| + 1 < l.size then m.open == l.open + [e] && m.way == l.way
            else && m.open == [] && m.way.sent + m.way.waiting == (if connected then
                                                                     l.way.sent + l.open + [e] + l.way.waiting else all)
                 && (m.way.sent == l.way.sent || m.way.waiting == l.way.waiting)
  {
    hide Accounted;
  }

  // ----- the sending side -----

  class Task<V> {
    const taskError: bool
    var channel: bool
    var pending: seq<Packet<V>>
    var wire: seq<Packet<V>>

    constructor (e: bool)
      ensures taskError == e && !channel && pending == [] && wire == []
    {
      taskError, channel, pending, wire := e, false, [], [];
    }

    /** The events for one address on the wire and in the queue. */
    ghost function Carries(to: Address): Carriage<V>
      reads this
    {
      Carriage(Flow(wire, to), Flow(pending, to), !Quiet(wire + pending, to))
    }

    /** On connecting, what waits is sent, in order. */
    method SetChannel()
      modifies this`channel, this`pending, this`wire
      ensures channel && pending == [] && wire == old(wire) + old(pending)
    {
      channel := true;
      for i := 0 to |pending|
        invariant pending == old(pending) && channel && wire == old(wire) + pending[..i]
      {
        wire := wire + [pending[i]];
      }
      pending := [];
    }

    /** Sends a packet, or queues it until the task connects; a request connects first. Nothing
        goes to a task in error, and no request to one that does not connect. */
    method SendEvent(p: Packet<V>, link: Link) returns (ok: bool)
      modifies this`channel, this`pending, this`wire
      ensures ok == (!taskError && (p.isRequest ==> old(channel) || !link.Refused?))
      ensures channel == (old(channel) || (ok && p.isRequest))
      ensures !ok ==> wire == old(wire) && pending == old(pending)
      ensures ok ==>
                var linked := p.isRequest && !old(channel) && link.Established?;
                var w, q := old(wire) + (if linked then old(pending) else []), if linked then [] else old(pending);
                if channel then wire == w + [p] && pending == q else wire == w && pending == q + [p]
    {
      if taskError { return false; }
      if p.isRequest && !channel {
        if link.Established? {
          SetChannel();
        } else if link.Broken? {
          channel := true;
        } else {
          return false;
        }
      }
      if !channel {
        pending := pending + [p];
      } else {
        wire := wire + [p];
      }
      return true;
    }

    /** The same, address by address: the packet's events join what its address was sent, or
        what waits for it, and no other address's events are touched. */
    method Transmit(p: Packet<V>, link: Link) returns (ok: bool)
      requires p.payload.Many? ==> Numbered(p.payload.entries)
      modifies this`channel, this`pending, this`wire
      ensures ok == (!taskError && (p.isRequest ==> old(channel) || !link.Refused?))
      ensures channel == (old(channel) || (ok && p.isRequest))
      ensures taskError ==> wire == old(wire) && pending == old(pending)
      ensures old(Sound(wire) && Sound(pending)) ==> Sound(wire) && Sound(pending)
      ensures forall a ::
                var before := Moved(old(Carries(a)), ok && p.isRequest && !old(channel) && link.Established?);
                Carries(a) == if !ok || a != p.to then before
                              else Carried(before, Unpack(p), p.name == TERMINATE, channel)
    {
      ghost var w, q := wire, pending;
      ok := SendEvent(p, link);
      ghost var linked := ok && p.isRequest && !old(channel) && link.Established?;
      forall a ensures var before := Moved(old(Carries(a)), linked);
                       Carries(a) == if !ok || a != p.to then before
                                     else Carried(before, Unpack(p), p.name == TERMINATE, channel)
      {
        CarriedOver(w, q, p, a, ok, linked, channel, wire, pending);
      }
      hide Flow, Unpack;
      if old(Sound(wire) && Sound(pending)) {
        SoundAppend(w, q);
        SoundMore(w + q, p);
        SoundMore(w, p);
        SoundMore(q, p);
      }
    }
  }

  class Agent<V> {
    const to: Address
    var bundle: Option<Bundle<V>>
    var bundleSize: nat

    constructor (a: Address)
      ensures to == a && bundle == None && bundleSize == 0 && Valid()
    {
      to, bundle, bundleSize := a, None, 0;
    }

    /** An open bundle holds something and has not reached its size. */
    ghost predicate Valid()
      reads this
    {
      bundleSize < INT_LIMIT && (bundle.Some? ==> Numbered(bundle.value) && 0 < |bundle.value| < bundleSize)
    }

    ghost function Open(): seq<Event<V>>
      reads this
    {
      if bundle.Some? then Opened(bundle.value) else []
    }

    /** The account's open bundle and events on the way are those of this agent. */
    ghost predicate Shows(task: Task<V>, l: Line<V>)
      reads this, task
    {
      Open() == l.open && task.Carries(to) == l.way
    }

    method FlushEvents(task: Task<V>, ghost l: Line<V>)
      requires bundle.Some? ==> Numbered(bundle.value) && bundle.value != []
      modifies this`bundle, task`channel, task`pending, task`wire
      ensures bundle == None && task.channel == old(task.channel)
      ensures task.taskError ==> task.wire == old(task.wire) && task.pending == old(task.pending)
      ensures old(Sound(task.wire) && Sound(task.pending)) ==> Sound(task.wire) && Sound(task.pending)
      ensures !task.taskError && old(Shows(task, l)) ==> Shows(task, Flushed(l, task.channel))
      ensures !task.taskError && old(bundle.Some?) ==>
                task.Carries(to) == Carried(old(task.Carries(to)), old(Open()), false, task.channel)
      ensures forall a :: a != to ==> task.Carries(a) == old(task.Carries(a))
    {
      if bundle.Some? && |bundle.value| > 0 {
        hide Numbered, Opened, Flow, Quiet, Sound;
        var p := Packet(to, EVENT_BUNDLE, Many(bundle.value), false);
        var _ := task.Transmit(p, Refused);
        bundle := None;
      }
    }

    /** Sends one event as it is. */
    method SendNow(task: Task<V>, e: Event<V>, link: Link, ghost l: Line<V>) returns (ok: bool)
      requires bundle.None?
      modifies task`channel, task`pending, task`wire
      ensures ok == (!task.taskError && (e.isRequest ==> old(task.channel) || !link.Refused?))
      ensures task.channel == (old(task.channel) || (ok && e.isRequest))
      ensures task.taskError ==> task.wire == old(task.wire) && task.pending == old(task.pending)
      ensures old(Sound(task.wire) && Sound(task.pending)) ==> Sound(task.wire) && Sound(task.pending)
      ensures !task.taskError && old(Shows(task, l)) ==> Shows(task, SentNow(l, e, old(task.channel), link))
      ensures forall a :: a != to ==>
                var linked := ok && e.isRequest && !old(task.channel) && link.Established?;
                task.Carries(a) == Moved(old(task.Carries(a)), linked)
    {
      ok := task.Transmit(Packet(to, e.name, One(e.value), e.isRequest), link);
    }

    /** Adds an event to the open bundle. */
    method Insert(name: Key, v: V)
      requires Valid() && bundleSize > 0
      modifies this`bundle
      ensures bundle.Some? && Numbered(bundle.value) && 0 < |bundle.value| <= bundleSize
      ensures Open() == old(Open()) + [Event(name, v, false)]
    {
      var b := if bundle.None? then [] else bundle.value;
      InsertAppends(b, name, v);
      OpenedMore(b, name, v);
      hide Numbered, BundleKey, Dictionary.Put, Opened, Hex, Strip;
      bundle := Some(Dictionary.Put(b, BundleKey(|b|, name), v));
    }

    /** Adds an event to the open bundle, sending the bundle when it is full. */
    method AddToBundle(task: Task<V>, e: Event<V>, ghost l: Line<V>)
      requires Valid() && bundleSize > 0 && !e.isRequest && l.size == bundleSize
      modifies this`bundle, task`channel, task`pending, task`wire
      ensures Valid() && task.channel == old(task.channel)
      ensures task.taskError ==> task.wire == old(task.wire) && task.pending == old(task.pending)
      ensures old(Sound(task.wire) && Sound(task.pending)) ==> Sound(task.wire) && Sound(task.pending)
      ensures !task.taskError && old(Shows(task, l)) ==> Shows(task, Bundled(l, e, task.channel))
      ensures !task.taskError ==>
                if |old(Open())| + 1 < bundleSize
                then Open() == old(Open()) + [e] && task.Carries(to) == old(task.Carries(to))
                else && Open() == []
                     && task.Carries(to) == Carried(old(task.Carries(to)), old(Open()) + [e], false, task.channel)
      ensures forall a :: a != to ==> task.Carries(a) == old(task.Carries(a))
    {
      hide Numbered, Flushed;
      Insert(e.name, e.value);
      if |bundle.value| >= bundleSize { FlushEvents(task, l.(open := l.open + [e], log := l.log + [e])); }
    }

    /** A script's send. */
    method SendEvent(task: Task<V>, e: Event<V>, link: Link, ghost l: Line<V>) returns (ok: bool)
      requires Valid() && l.size == bundleSize
      modifies this`bundle, task`channel, task`pending, task`wire
      ensures Valid() && ok == (!task.taskError && (e.isRequest ==> old(task.channel) || !link.Refused?))
      ensures task.channel == (old(task.channel) || (ok && e.isRequest))
      ensures task.taskError ==> task.wire == old(task.wire) && task.pending == old(task.pending)
      ensures old(Sound(task.wire) && Sound(task.pending)) ==> Sound(task.wire) && Sound(task.pending)
      ensures !task.taskError && old(Shows(task, l)) ==> Shows(task, Issued(l, e, old(task.channel), link))
      ensures !task.taskError && bundleSize > 0 && !e.isRequest ==>
                if |old(Open())| + 1 < bundleSize
                then Open() == old(Open()) + [e] && task.Carries(to) == old(task.Carries(to))
                else && Open() == []
                     && task.Carries(to) == Carried(old(task.Carries(to)), old(Open()) + [e], false, task.channel)
      ensures forall a :: a != to ==>
                var linked := ok && e.isRequest && !old(task.channel) && link.Established?;
                task.Carries(a) == Moved(old(task.Carries(a)), linked)
    {
      hide Numbered, Flushed, SentNow, Bundled;
      if bundleSize > 0 {
        if e.isRequest {
          FlushEvents(task, l);
          ok := SendNow(task, e, link, Flushed(l, task.channel));
        } else {
          AddToBundle(task, e, l);
          ok := !task.taskError;
        }
      } else {
        ok := SendNow(task, e, link, l);
      }
    }

    method BundleEvents(task: Task<V>, howmany: int, ghost l: Line<V>)
      requires Valid() && howmany < INT_LIMIT
      modifies this`bundle, this`bundleSize, task`channel, task`pending, task`wire
      ensures Valid() && task.channel == old(task.channel) && bundleSize == if howmany <= 1 then 0 else howmany
      ensures task.taskError ==> task.wire == old(task.wire) && task.pending == old(task.pending)
      ensures old(Sound(task.wire) && Sound(task.pending)) ==> Sound(task.wire) && Sound(task.pending)
      ensures !task.taskError && old(Shows(task, l)) ==> Shows(task, Rebundled(l, howmany, task.channel))
      ensures forall a :: a != to ==> task.Carries(a) == old(task.Carries(a))
    {
      hide Numbered, Emitted;
      bundleSize := if howmany <= 1 then 0 else howmany;
      if bundle.Some? && |bundle.value| >= bundleSize {
        FlushEvents(task, l.(size := bundleSize));
      }
      // A bundle left open here would be empty and discarded; none is.
      assert bundle.Some? ==> bundleSize > 0;
    }
  }

  /** Wire and queue after a packet: sent, queued, or, when `linked`, sent after the queue. */
  ghost predicate Placed<V>(w: seq<Packet<V>>, q: seq<Packet<V>>, p: Packet<V>, ok: bool, linked: bool, connected: bool,
                            wire: seq<Packet<V>>, pending: seq<Packet<V>>) {
    var w', q' := w + (if linked then q else []), if linked then [] else q;
    if !ok then !linked && wire == w && pending == q
    else if connected then wire == w' + [p] && pending == q' else wire == w' && pending == q' + [p]
  }

  lemma {:induction false} QuietOver<V>(w: seq<Packet<V>>, q: seq<Packet<V>>, p: Packet<V>, a: Address, ok: bool,
                                        linked: bool,
                                        connected: bool, wire: seq<Packet<V>>, pending: seq<Packet<V>>)
    requires Placed(w, q, p, ok, linked, connected, wire, pending)
    ensures Quiet(wire + pending, a) <==> Quiet(w + q, a) && (ok && a == p.to ==> p.name != TERMINATE)
  {
    var w', q' := w + (if linked then q else []), if linked then [] else q;
    QuietAppend(w, q, a);
    QuietAppend(w', q', a);
    QuietMore(w', p, a);
    QuietMore(q', p, a);
    QuietAppend(wire, pending, a);
    assert w' + q' == w + q;
    hide Quiet;
  }

  lemma {:induction false} FlowOver<V>(w: seq<Packet<V>>, q: seq<Packet<V>>, p: Packet<V>, a: Address, ok: bool,
                                       linked: bool,
                                       connected: bool, wire: seq<Packet<V>>, pending: seq<Packet<V>>)
    requires Placed(w, q, p, ok, linked, connected, wire, pending)
    ensures var s, r := Flow(w, a) + (if linked then Flow(q, a) else []), if linked then [] else Flow(q, a);
            var es := if ok && a == p.to then Unpack(p) else [];
            && Flow(wire, a) == s + (if connected then es else [])
            && Flow(pending, a) == r + (if connected then [] else es)
  {
    var w', q' := w + (if linked then q else []), if linked then [] else q;
    FlowShift(w, q, a, linked);
    hide Flow, Unpack;
    FlowMore(w', p, a);
    FlowMore(q', p, a);
  }

  lemma {:induction false} FlowShift<V>(w: seq<Packet<V>>, q: seq<Packet<V>>, a: Address, linked: bool)
    ensures Flow(w + (if linked then q else []), a) == Flow(w, a) + (if linked then Flow(q, a) else [])
    ensures Flow(if linked then [] else q, a) == if linked then [] else Flow(q, a)
  {
    if linked {
      FlowAppend(w, q, a);
    } else {
      assert w + [] == w;
    }
  }

  lemma {:induction false} CarriedOver<V>(w: seq<Packet<V>>, q: seq<Packet<V>>, p: Packet<V>, a: Address, ok: bool,
                                          linked: bool,
                                          connected: bool, wire: seq<Packet<V>>, pending: seq<Packet<V>>)
    requires Placed(w, q, p, ok, linked, connected, wire, pending)
    ensures var before := Moved(Carriage(Flow(w, a), Flow(q, a), !Quiet(w + q, a)), linked);
            Carriage(Flow(wire, a), Flow(pending, a), !Quiet(wire + pending, a)) ==
            if ok && a == p.to then Carried(before, Unpack(p), p.name == TERMINATE, connected) else before
  {
    FlowOver(w, q, p, a, ok, linked, connected, wire, pending);
    QuietOver(w, q, p, a, ok, linked, connected, wire, pending);
    hide Flow, Unpack, Quiet, Placed;
  }

  lemma {:induction false} SoundAppend<V>(a: seq<Packet<V>>, b: seq<Packet<V>>)
    requires Sound(a) && Sound(b)
    ensures Sound(a + b)
  {
    hide Numbered;
  }

  ghost predicate Distinct<V>(agents: seq<Agent<V>>) {
    forall i, k :: 0 <= i < k < |agents| ==> agents[i] != agents[k] && agents[i].to != agents[k].to
  }

  /** The journal is about this task and these agents. */
  ghost predicate Tracks<V>(task: Task<V>, agents: seq<Agent<V>>, j: Journal<V>)
    reads task, agents
  {
    && Distinct(agents) && |j.lines| == |agents| && j.connected == task.channel
    && Sound(task.wire) && Sound(task.pending)
    && forall i :: 0 <= i < |agents| ==>
         agents[i].Valid() && agents[i].bundleSize == j.lines[i].size && agents[i].Shows(task, j.lines[i])
  }

  /** The same for a task in error: the journal is not about it, and nothing is sent. */
  ghost predicate Idle<V>(task: Task<V>, agents: seq<Agent<V>>)
    reads task, agents
  {
    Distinct(agents) && task.wire == [] && task.pending == [] && forall i :: 0 <= i < |agents| ==> agents[i].Valid()
  }

  lemma {:induction false} NotedSize<V>(l: Line<V>, k: nat, op: Op<V>, connected: bool)
    ensures NotedLine(l, k, op, connected).size ==
            if op.SetBundling? && op.agent == k then (if op.howmany <= 1 then 0 else op.howmany) else l.size
  {
  }

  /** An agent's operation does to its account what the journal notes, and to any other address
      nothing, except that connecting sends what waits. */
  method Perform<V>(task: Task<V>, a: Agent<V>, op: Op<V>, ghost l: Line<V>)
    requires a.Valid() && a.bundleSize == l.size && (op.SetBundling? ==> op.howmany < INT_LIMIT) && !op.Connect?
    modifies task, a
    ensures a.Valid() && (task.taskError ==> task.wire == old(task.wire) && task.pending == old(task.pending))
    ensures old(Sound(task.wire) && Sound(task.pending)) ==> Sound(task.wire) && Sound(task.pending)
    ensures !task.taskError ==> task.channel == (old(task.channel) || Connects(op))
    ensures !task.taskError ==> a.bundleSize == NotedLine(l, op.agent, op, old(task.channel)).size
    ensures !task.taskError && old(a.Shows(task, l)) ==> a.Shows(task, NotedLine(l, op.agent, op, old(task.channel)))
    ensures !task.taskError ==>
              forall b :: b != a.to ==> task.Carries(b) == Moved(old(task.Carries(b)), Links(op, old(task.channel)))
  {
    NotedSize(l, op.agent, op, task.channel);
    hide Flow, Numbered, Issued, Rebundled, Flushed, Sound, Quiet, Agent.Shows;
    match op {
      case Send(_, e, link) => var _ := a.SendEvent(task, e, link, l);
      case SetBundling(_, n) => a.BundleEvents(task, n, l);
      case Flush(_) => a.FlushEvents(task, l);
    }
  }

  method StepAgent<V>(task: Task<V>, agents: seq<Agent<V>>, op: Op<V>, ghost j: Journal<V>)
    requires !task.taskError && Tracks(task, agents, j) && (op.SetBundling? ==> op.howmany < INT_LIMIT)
    requires !op.Connect? && op.agent < |agents|
    modifies task, agents
    ensures Tracks(task, agents, Noted(j, op))
  {
    ghost var was, next := task.channel, Noted(j, op);
    var k := op.agent;
    NotedIs(j, op);
    hide Flow, Numbered, Noted, NotedLine, Sound, Quiet, Agent.Valid, Links, Moved, Connects;
    Perform(task, agents[k], op, j.lines[k]);
    forall i | 0 <= i < |agents|
      ensures agents[i].Valid() && agents[i].bundleSize == next.lines[i].size && agents[i].Shows(task, next.lines[i])
    {
      if i != k {
        assert agents[i] != agents[k] && agents[i].to != agents[k].to;
        OtherLine(j.lines[i], i, op, was);
      }
    }
    hide Agent.Shows, Distinct;
  }

  lemma {:induction false} NotedIs<V>(j: Journal<V>, op: Op<V>)
    requires op.Connect? || op.agent < |j.lines|
    ensures var next := Noted(j, op);
            && next.connected == (j.connected || Connects(op)) && |next.lines| == |j.lines|
            && forall i :: 0 <= i < |j.lines| ==> next.lines[i] == NotedLine(j.lines[i], i, op, j.connected)
  {
    hide NotedLine;
  }

  lemma {:induction false} OtherLine<V>(l: Line<V>, k: nat, op: Op<V>, connected: bool)
    requires !op.Connect? && op.agent != k
    ensures NotedLine(l, k, op, connected) == l.(way := Moved(l.way, Links(op, connected)))
  {
  }

  lemma {:induction false} LinkedOver<V>(w: seq<Packet<V>>, q: seq<Packet<V>>, a: Address)
    ensures Carriage(Flow(w + q, a), Flow([], a), !Quiet(w + q + [], a)) ==
              Moved(Carriage(Flow(w, a), Flow(q, a), !Quiet(w + q, a)), true)
  {
    FlowAppend(w, q, a);
    assert w + q + [] == w + q;
  }

  method StepConnect<V>(task: Task<V>, agents: seq<Agent<V>>, ghost j: Journal<V>)
    requires Tracks(task, agents, j)
    modifies task
    ensures Tracks(task, agents, Noted(j, Connect))
  {
    ghost var w, q, next := task.wire, task.pending, Noted(j, Connect);
    NotedIs(j, Connect);
    SoundAppend(w, q);
    NothingSound<V>();
    hide Flow, Sound, Quiet, Noted, Agent.Valid, Moved;
    task.SetChannel();
    forall i | 0 <= i < |agents| ensures agents[i].Shows(task, next.lines[i]) {
      LinkedOver(w, q, agents[i].to);
    }
    hide Agent.Shows, Distinct;
  }

  lemma {:induction false} NothingSound<V>()
    ensures Sound<V>([])
  {
  }

  method Step<V>(task: Task<V>, agents: seq<Agent<V>>, op: Op<V>, ghost j: Journal<V>)
    requires if task.taskError then Idle(task, agents) else Tracks(task, agents, j)
    requires op.SetBundling? ==> op.howmany < INT_LIMIT
    modifies task, agents
    ensures if task.taskError then Idle(task, agents) else Tracks(task, agents, Noted(j, op))
  {
    hide Noted;
    if task.taskError {
      if op.Connect? {
        task.SetChannel();
      } else if op.agent < |agents| {
        Perform(task, agents[op.agent], op, Fresh().(size := agents[op.agent].bundleSize));
      }
    } else if op.Connect? {
      StepConnect(task, agents, j);
    } else if op.agent < |agents| {
      StepAgent(task, agents, op, j);
    } else {
      NotedNothing(j, op);
    }
  }

  lemma {:induction false} NotedNothing<V>(j: Journal<V>, op: Op<V>)
    requires !op.Connect? && op.agent >= |j.lines|
    ensures Noted(j, op) == j
  {
  }

  /** All operations in turn. */
  method Drive<V>(task: Task<V>, agents: seq<Agent<V>>, ops: seq<Op<V>>)
    requires if task.taskError then Idle(task, agents) else Tracks(task, agents, NotedAll(|agents|, []))
    requires forall n :: 0 <= n < |ops| && ops[n].SetBundling? ==> ops[n].howmany < INT_LIMIT
    modifies task, agents
    ensures if task.taskError then Idle(task, agents) else Tracks(task, agents, NotedAll(|agents|, ops))
  {
    hide Tracks, Idle, Noted;
    for n := 0 to |ops|
      invariant if task.taskError then Idle(task, agents) else Tracks(task, agents, NotedAll(|agents|, ops[..n]))
    {
      assert ops[..n + 1][..n] == ops[..n];
      Step(task, agents, ops[n], NotedAll(|agents|, ops[..n]));
    }
    assert ops[..|ops|] == ops;
  }

  /** After any interleaving of sends, requests, bundling, flushing and connecting, wire, queue
      and open bundle hold, for every agent, exactly what its account says; a task in error is
      sent nothing. By `RunKeeps` and `OrderExact` that is the order of issue, each event once,
      exactly when the events that passed over waiting ones of the same agent commute with
      them, whatever other agents do. */
  method RunOps<V>(taskError: bool, addresses: seq<Address>, ops: seq<Op<V>>)
    returns (wire: seq<Packet<V>>, pending: seq<Packet<V>>, open: seq<Bundle<V>>)
    requires forall i, k :: 0 <= i < k < |addresses| ==> addresses[i] != addresses[k]
    requires forall n :: 0 <= n < |ops| && ops[n].SetBundling? ==> ops[n].howmany < INT_LIMIT
    ensures |open| == |addresses| && (taskError ==> wire == [] && pending == [])
    ensures !taskError ==>
              var lines := NotedAll(|addresses|, ops).lines;
              && |lines| == |open| && Sound(wire) && Sound(pending)
              && forall i :: 0 <= i < |lines| ==> var a := addresses[i];
                   && Carriage(Flow(wire, a), Flow(pending, a), !Quiet(wire + pending, a)) == lines[i].way
                   && Opened(open[i]) == lines[i].open && Accounted(lines[i])
                   && lines[i].log == Asked(|addresses|, ops, i)
                   && (Unbroken(ops) ==>
                       Flow(wire, a) + Flow(pending, a) + Opened(open[i]) == Asked(|addresses|, ops, i))
                   && (Flow(wire, a) + Flow(pending, a) + Opened(open[i]) == Asked(|addresses|, ops, i) <==>
                       lines[i].over + lines[i].late == lines[i].late + lines[i].over)
  {
    var task := new Task<V>(taskError);
    var agents: seq<Agent<V>> := MakeAgents(addresses);
    Begins(task, agents);
    hide Distinct, Flow, NotedAll, Sound, Quiet, Agent.Valid;
    Drive(task, agents, ops);
    open := OpenBundles(agents);
    wire, pending := task.wire, task.pending;
    if !taskError {
      RunOrder(|addresses|, ops);
      LogExact(|addresses|, ops);
      if Unbroken(ops) { UnbrokenSmooth(|addresses|, ops); }
    }
    hide Accounted, Asked;
  }

  lemma {:induction false} RunOrder<V>(n: nat, ops: seq<Op<V>>)
    ensures var lines := NotedAll(n, ops).lines;
            |lines| == n && forall k :: 0 <= k < n ==> var l := lines[k];
              Accounted(l) && (InOrder(l) <==> l.over + l.late == l.late + l.over)
  {
    RunKeeps(n, ops);
    var lines := NotedAll(n, ops).lines;
    hide NotedAll, Accounted, InOrder;
    forall k | 0 <= k < n
      ensures var l := lines[k]; Accounted(l) && (InOrder(l) <==> l.over + l.late == l.late + l.over)
    {
      OrderExact(lines[k]);
    }
  }

  lemma {:induction false} Begins<V>(task: Task<V>, agents: seq<Agent<V>>)
    requires Distinct(agents) && !task.channel && task.pending == [] && task.wire == []
    requires forall i :: 0 <= i < |agents| ==> agents[i].Valid() && agents[i].bundle.None? && agents[i].bundleSize == 0
    ensures Idle(task, agents) && Tracks(task, agents, NotedAll(|agents|, []))
  {
  }

  method OpenBundles<V>(agents: seq<Agent<V>>) returns (open: seq<Bundle<V>>)
    ensures |open| == |agents| && forall k :: 0 <= k < |open| ==> Opened(open[k]) == agents[k].Open()
  {
    open := [];
    for i := 0 to |agents|
      invariant |open| == i && forall k :: 0 <= k < i ==> Opened(open[k]) == agents[k].Open()
    {
      open := open + [if agents[i].bundle.Some? then agents[i].bundle.value else []];
    }
  }

  method MakeAgents<V>(addresses: seq<Address>) returns (agents: seq<Agent<V>>)
    requires forall i, k :: 0 <= i < k < |addresses| ==> addresses[i] != addresses[k]
    ensures |agents| == |addresses| && Distinct(agents)
    ensures forall i :: 0 <= i < |agents| ==> fresh(agents[i]) && agents[i].to == addresses[i]
    ensures forall i :: 0 <= i < |agents| ==> agents[i].Valid() && agents[i].bundle.None? && agents[i].bundleSize == 0
  {
    agents := [];
    for n := 0 to |addresses|
      invariant |agents| == n && Distinct(agents)
      invariant forall i :: 0 <= i < n ==> fresh(agents[i]) && agents[i].to == addresses[i]
      invariant forall i :: 0 <= i < n ==> agents[i].Valid() && agents[i].bundle.None? && agents[i].bundleSize == 0
    {
      var a := new Agent<V>(addresses[n]);
      agents := agents + [a];
    }
  }

  // ----- events sent over waiting ones -----

  /** A packet is sent while others wait: an agent's order survives exactly when the packet is
      not its own, or its events commute with those of the agent that wait. */
  lemma {:induction false} SentOverWaiting<V>(wire: seq<Packet<V>>, pending: seq<Packet<V>>, p: Packet<V>, to: Address)
    ensures Flow(wire + [p] + pending, to) == Flow(wire + pending, to) + (if p.to == to then Unpack(p) else []) <==>
            p.to != to || Unpack(p) + Flow(pending, to) == Flow(pending, to) + Unpack(p)
  {
    var w, q, e := Flow(wire, to), Flow(pending, to), if p.to == to then Unpack(p) else [];
    FlowAppend(wire + [p], pending, to);
    FlowMore(wire, p, to);
    FlowAppend(wire, pending, to);
    hide Flow, Unpack;
    Associates(w, e, q);
    Associates(w, q, e);
    Cancel(w, e + q, q + e, []);
    assert w + (e + q) + [] == w + (e + q) && w + (q + e) + [] == w + (q + e);
  }

  lemma {:induction false} FlowRequests<V>(ps: seq<Packet<V>>, to: Address)
    requires forall i :: 0 <= i < |ps| ==> !ps[i].isRequest
    ensures forall i :: 0 <= i < |Flow(ps, to)| ==> !Flow(ps, to)[i].isRequest
    decreases |ps|
  {
    if ps != [] { FlowRequests(ps[..|ps| - 1], to); }
  }

  /** A request never commutes with waiting events: they are no requests. */
  lemma {:induction false} LetThroughOrder<V>(wire: seq<Packet<V>>, pending: seq<Packet<V>>, p: Packet<V>)
    requires p.isRequest && p.payload.One? && forall i :: 0 <= i < |pending| ==> !pending[i].isRequest
    ensures Flow(wire + [p] + pending, p.to) == Flow(wire + pending, p.to) + Unpack(p) <==> Flow(pending, p.to) == []
  {
    var q, e := Flow(pending, p.to), Unpack(p);
    SentOverWaiting(wire, pending, p, p.to);
    FlowRequests(pending, p.to);
    hide Flow;
    if q != [] { assert (e + q)[|q|] == q[|q| - 1] && (q + e)[|q|] == e[0]; }
  }

  /** A request is let through on a broken local connection, and the second event goes first. */
  method LetThroughExample<V>(name: Key, v: V) returns (wire: seq<Packet<V>>, pending: seq<Packet<V>>)
    ensures wire == [Packet(Direct, name, One(v), true)] && pending == [Packet(Direct, name, One(v), false)]
    ensures Flow(wire + pending, Direct) == [Event(name, v, true), Event(name, v, false)]
  {
    var task := new Task<V>(false);
    var first, second := Packet(Direct, name, One(v), false), Packet(Direct, name, One(v), true);
    var _ := task.SendEvent(first, Refused);
    var _ := task.SendEvent(second, Broken);
    wire, pending := task.wire, task.pending;
    assert wire + pending == [] + [second] + [first];
    FlowMore([], second, Direct);
    FlowMore([second], first, Direct);
  }

  /** Agent 1 queues an event, agent 0's request is let through, and agent 1 sends another. */
  ghost function PassingRun<V>(r: Event<V>, b: Event<V>, c: Event<V>): seq<Op<V>> {
    [Send(1, b, Refused), Send(0, r, Broken), Send(1, c, Refused)]
  }

  /** The accounts step by step. */
  ghost function PassingLine<V>(k: nat, r: Event<V>, b: Event<V>, c: Event<V>): Line<V> {
    var ops := PassingRun(r, b, c);
    NotedLine(NotedLine(NotedLine(Fresh(), k, ops[0], false), k, ops[1], false), k, ops[2], true)
  }

  lemma {:induction false} PassingLines<V>(r: Event<V>, b: Event<V>, c: Event<V>)
    requires r.isRequest && !b.isRequest && !c.isRequest
    ensures NotedAll(2, PassingRun(r, b, c)).lines == [PassingLine(0, r, b, c), PassingLine(1, r, b, c)]
  {
    var ops := PassingRun(r, b, c);
    var o1, o2 := [ops[0]], [ops[0], ops[1]];
    assert ops[..2] == o2 && o2[..1] == o1 && o1[..0] == [];
    NotedIs(NotedAll<V>(2, []), ops[0]);
    NotedIs(NotedAll(2, o1), ops[1]);
    NotedIs(NotedAll(2, o2), ops[2]);
    hide NotedLine, Noted;
  }

  lemma {:induction false} PassingOther<V>(r: Event<V>, b: Event<V>, c: Event<V>)
    requires r.isRequest && !b.isRequest && !c.isRequest
    ensures var l := PassingLine(1, r, b, c);
            l.way.sent == [c] && l.way.waiting == [b] && l.log == [b, c] && l.open == []
  {
    var m := NotedLine(Fresh(), 1, Send(1, b, Refused), false);
    assert m == Fresh().(way := Carriage([], [b], b.name == TERMINATE), log := [b]);
    assert NotedLine(m, 1, Send(0, r, Broken), false) == m;
    assert [] + [c] == [c] && [b] + [c] == [b, c];
  }

  /** The requesting agent keeps its order; the other's plain event passes its waiting one, and
      order is lost exactly when the two differ. */
  lemma {:induction false} PassingExample<V>(r: Event<V>, b: Event<V>, c: Event<V>)
    requires r.isRequest && !b.isRequest && !c.isRequest
    ensures var lines := NotedAll(2, PassingRun(r, b, c)).lines;
            && |lines| == 2 && InOrder(lines[0]) && lines[0].log == [r]
            && lines[1].way.sent == [c] && lines[1].way.waiting == [b] && lines[1].log == [b, c]
            && (InOrder(lines[1]) <==> b == c)
  {
    PassingLines(r, b, c);
    PassingOther(r, b, c);
    PassingRequest(r, b, c);
    hide NotedAll, PassingLine;
    assert [c] + [b] + [] == [c, b];
    assert [c, b] == [b, c] ==> [c, b][0] == [b, c][0];
  }

  lemma {:induction false} PassingRequest<V>(r: Event<V>, b: Event<V>, c: Event<V>)
    requires r.isRequest && !b.isRequest && !c.isRequest
    ensures InOrder(PassingLine(0, r, b, c)) && PassingLine(0, r, b, c).log == [r]
  {
    assert NotedLine(Fresh(), 0, Send(1, b, Refused), false) == Fresh();
    assert [] + [r] == [r];
  }

  // ----- the receiving side -----

  datatype Callback<V> = Process(name: Key, value: V) | Done(payload: Payload<V>)

  /** What a proxy is told of one packet addressed to it. */
  ghost function Heard<V>(p: Packet<V>): seq<Callback<V>> {
    if p.name == TERMINATE then [Done(p.payload)]
    else Processed(Unpack(p))
  }

  ghost function Processed<V>(es: seq<Event<V>>): (r: seq<Callback<V>>)
    ensures |r| == |es| && forall i :: 0 <= i < |r| ==> r[i] == Process(es[i].name, es[i].value)
  {
    seq(|es|, i requires 0 <= i < |es| => Process(es[i].name, es[i].value))
  }

  /** What a proxy is told of a sequence of packets: nothing more once it has ended. */
  ghost function HeardAll<V>(ps: seq<Packet<V>>, to: Address): seq<Callback<V>>
    decreases |ps|
  {
    if ps == [] then [] else
      var n := |ps| - 1;
      HeardAll(ps[..n], to) + (if ps[n].to == to && Quiet(ps[..n], to) then Heard(ps[n]) else [])
  }

  /** The client's names for what arrives outside any proxy; those of bundled events keep
      their number. */
  ghost function HeardDirect<V>(p: Packet<V>): seq<Callback<V>> {
    if p.payload.One? then [Process(p.name, p.payload.value)] else Raw(p.payload.entries)
  }

  ghost function Raw<V>(b: Bundle<V>): (r: seq<Callback<V>>)
    ensures |r| == |b| && forall i :: 0 <= i < |r| ==> r[i] == Process(b[i].0, b[i].1)
  {
    seq(|b|, i requires 0 <= i < |b| => Process(b[i].0, b[i].1))
  }

  /** The client's proxies: `ids` and `logs` of all of them, and the list of those not ended. */
  class ProxyStore<V> {
    const ids: seq<nat>
    var pxlist: seq<nat>
    var logs: seq<seq<Callback<V>>>
    var direct: seq<Callback<V>>
    var errors: nat

    ghost predicate Valid()
      reads this
    {
      && |logs| == |ids| && (forall i, k :: 0 <= i < k < |ids| ==> ids[i] != ids[k])
      && (forall i :: 0 <= i < |pxlist| ==> pxlist[i] < |ids|)
      && (forall i, k :: 0 <= i < k < |pxlist| ==> pxlist[i] != pxlist[k])
    }

    constructor (ids: seq<nat>)
      requires forall i, k :: 0 <= i < k < |ids| ==> ids[i] != ids[k]
      ensures Valid() && this.ids == ids && direct == [] && errors == 0
      ensures forall i :: 0 <= i < |ids| ==> logs[i] == []
      ensures |pxlist| == |ids| && forall h :: 0 <= h < |ids| ==> h in pxlist
    {
      this.ids, logs, direct, errors := ids, seq(|ids|, _ => []), [], 0;
      pxlist := seq(|ids|, i => i);
      new;
      forall h | 0 <= h < |ids| ensures h in pxlist { assert pxlist[h] == h; }
    }

    /** Position in the list of the first proxy with an id. */
    method Search(id: nat) returns (i: nat)
      requires Valid()
      ensures i <= |pxlist| && (i < |pxlist| ==> ids[pxlist[i]] == id)
      ensures i == |pxlist| ==> forall h :: h in pxlist ==> h < |ids| && ids[h] != id
    {
      i := 0;
      while i < |pxlist| && ids[pxlist[i]] != id
        invariant i <= |pxlist| && forall k :: 0 <= k < i ==> ids[pxlist[k]] != id
      {
        i := i + 1;
      }
    }

    /** Tells a proxy of a packet. One that ends leaves the list. */
    method Tell(i: nat, p: Packet<V>)
      requires Valid() && i < |pxlist| && (p.payload.Many? ==> Numbered(p.payload.entries))
      modifies this`logs, this`pxlist
      ensures Valid() && logs == old(logs)[old(pxlist[i]) := old(logs[pxlist[i]]) + Heard(p)]
      ensures pxlist == if p.name == TERMINATE then old(pxlist)[..i] + old(pxlist)[i + 1..] else old(pxlist)
    {
      var h := pxlist[i];
      hide Numbered;
      if p.name == TERMINATE {
        logs := logs[h := logs[h] + [Done(p.payload)]];
        pxlist := pxlist[..i] + pxlist[i + 1..];
      } else {
        var more := Dispatch(p, true);
        logs := logs[h := logs[h] + more];
      }
    }

    /** Dispatches a packet to the proxy with its id, or to the client itself. The packet that
        ends a proxy is its last; an id that no proxy has any more is an error. */
    method ProcessEvent(p: Packet<V>)
      requires Valid() && (p.payload.Many? ==> Numbered(p.payload.entries))
      modifies this`logs, this`pxlist, this`direct, this`errors
      ensures Valid() && direct == old(direct) + if p.to.Direct? then HeardDirect(p) else []
      ensures forall h :: 0 <= h < |ids| ==>
                logs[h] == old(logs)[h] + if h in old(pxlist) && p.to == Proxy(ids[h]) then Heard(p) else []
      ensures forall h :: 0 <= h < |ids| ==>
                (h in pxlist <==> h in old(pxlist) && !(p.to == Proxy(ids[h]) && p.name == TERMINATE))
      ensures errors == old(errors) +
                if p.to.Proxy? && !(exists h :: h in old(pxlist) && h < |ids| && ids[h] == p.to.id) then 1 else 0
    {
      hide Numbered, Heard, HeardDirect;
      if p.to.Proxy? {
        var i := Search(p.to.id);
        if i < |pxlist| {
          ghost var list := pxlist;
          assert list[i] in list;
          Tell(i, p);
          Removal(list, i);
        } else {
          errors := errors + 1;
        }
      } else {
        var more := Dispatch(p, false);
        direct := direct + more;
      }
    }
  }

  lemma {:induction false} Removal(list: seq<nat>, i: nat)
    requires i < |list| && forall k, m :: 0 <= k < m < |list| ==> list[k] != list[m]
    ensures forall h :: h in list[..i] + list[i + 1..] <==> h in list && h != list[i]
  {
    var r := list[..i] + list[i + 1..];
    forall h | h in list && h != list[i] ensures h in r {
      var k :| 0 <= k < |list| && list[k] == h;
      assert r[if k < i then k else k - 1] == h;
    }
  }

  /** The calls made for one packet, bundled or not; `proxy` tells whether the number is cut
      off the name of a bundled event. */
  method Dispatch<V>(p: Packet<V>, proxy: bool) returns (calls: seq<Callback<V>>)
    requires p.payload.Many? ==> Numbered(p.payload.entries)
    ensures calls == if proxy then Processed(Unpack(p)) else HeardDirect(p)
  {
    if p.payload.One? { return [Process(p.name, p.payload.value)]; }
    calls := CallsFor(p.payload.entries, proxy);
    Dispatched(p.payload.entries, calls, proxy);
    hide Processed, Raw, Opened, Numbered;
  }

  method CallsFor<V>(b: Bundle<V>, proxy: bool) returns (calls: seq<Callback<V>>)
    requires Numbered(b)
    ensures |calls| == |b|
    ensures forall i :: 0 <= i < |b| ==> calls[i] == Process(if proxy then Strip(b[i].0) else b[i].0, b[i].1)
  {
    calls := [];
    hide Hex;
    for x := 0 to |b|
      invariant |calls| == x && forall i :: 0 <= i < x ==>
                  calls[i] == Process(if proxy then Strip(b[i].0) else b[i].0, b[i].1)
    {
      var bname, bval := b[x].0, b[x].1;
      calls := calls + [Process(if proxy then bname[8..] else bname, bval)];
    }
  }

  lemma {:induction false} Dispatched<V>(b: Bundle<V>, calls: seq<Callback<V>>, proxy: bool)
    requires |calls| == |b|
    requires forall i :: 0 <= i < |b| ==> calls[i] == Process(if proxy then Strip(b[i].0) else b[i].0, b[i].1)
    ensures calls == if proxy then Processed(Opened(b)) else Raw(b)
  {
    hide Processed, Raw, Opened, Strip;
    if proxy {
      assert calls == Processed(Opened(b));
    } else {
      assert calls == Raw(b);
    }
  }

  lemma {:induction false} ProcessedAppend<V>(a: seq<Event<V>>, b: seq<Event<V>>)
    ensures Processed(a + b) == Processed(a) + Processed(b)
  {
  }

  lemma {:induction false} QuietDecodes<V>(ps: seq<Packet<V>>, to: Address)
    requires Quiet(ps, to)
    ensures HeardAll(ps, to) == Processed(Flow(ps, to))
    decreases |ps|
  {
    if ps != [] {
      var n := |ps| - 1;
      assert ps[..n] + [ps[n]] == ps;
      QuietMore(ps[..n], ps[n], to);
      QuietDecodes(ps[..n], to);
      ProcessedAppend(Flow(ps[..n], to), if ps[n].to == to then Unpack(ps[n]) else []);
      hide Processed, Unpack, Quiet;
    }
  }

  lemma {:induction false} TerminationHeard<V>(ps: seq<Packet<V>>, to: Address)
    requires !Quiet(ps, to)
    ensures exists c :: c in HeardAll(ps, to) && c.Done?
    decreases |ps|
  {
    var n := |ps| - 1;
    assert ps != [] && ps[..n] + [ps[n]] == ps;
    QuietMore(ps[..n], ps[n], to);
    hide Processed, Unpack, Quiet;
    if !Quiet(ps[..n], to) {
      TerminationHeard(ps[..n], to);
      var c :| c in HeardAll(ps[..n], to) && c.Done?;
      assert c in HeardAll(ps, to);
    } else {
      var c := Done(ps[n].payload);
      assert Heard(ps[n]) == [c];
      assert HeardAll(ps, to)[|HeardAll(ps[..n], to)|] == c;
    }
  }

  /** A proxy is told exactly the events sent to it, in order, unless an event named
      terminate goes out unbundled: that ends it. */
  lemma {:induction false} ProxyDecodes<V>(ps: seq<Packet<V>>, to: Address)
    ensures HeardAll(ps, to) == Processed(Flow(ps, to)) <==> Quiet(ps, to)
  {
    if Quiet(ps, to) {
      QuietDecodes(ps, to);
    } else {
      TerminationHeard(ps, to);
    }
  }

  ghost function HeardDirectAll<V>(ps: seq<Packet<V>>): seq<Callback<V>>
    decreases |ps|
  {
    if ps == [] then [] else
      var n := |ps| - 1;
      HeardDirectAll(ps[..n]) + (if ps[n].to.Direct? then HeardDirect(ps[n]) else [])
  }

  /** No bundle is sent to the client itself. */
  ghost predicate Unbundled<V>(ps: seq<Packet<V>>) {
    forall i :: 0 <= i < |ps| && ps[i].to.Direct? && ps[i].payload.Many? ==> ps[i].payload.entries == []
  }

  lemma {:induction false} DirectPacket<V>(p: Packet<V>)
    requires p.payload.Many? ==> Numbered(p.payload.entries)
    ensures |HeardDirect(p)| == |Processed(Unpack(p))|
    ensures HeardDirect(p) == Processed(Unpack(p)) <==> (p.payload.One? || p.payload.entries == [])
  {
    if p.payload.Many? && p.payload.entries != [] {
      var key := p.payload.entries[0].0;
      assert |Strip(key)| < |key|;
      assert HeardDirect(p)[0].name == key && Processed(Unpack(p))[0].name == Strip(key);
    }
  }

  lemma {:induction false} AppendEqual<T>(a: seq<T>, b: seq<T>, c: seq<T>, d: seq<T>)
    requires |a| == |c|
    ensures a + b == c + d <==> a == c && b == d
  {
    if a + b == c + d {
      assert a == (a + b)[..|a|] && c == (c + d)[..|a|];
      assert b == (a + b)[|a|..] && d == (c + d)[|a|..];
    }
  }

  /** The client itself hears the names that were sent exactly when none came in a bundle:
      there the number is not cut off. */
  lemma {:induction false} DirectDecodes<V>(ps: seq<Packet<V>>)
    requires Sound(ps)
    ensures |HeardDirectAll(ps)| == |Processed(Flow(ps, Direct))|
    ensures HeardDirectAll(ps) == Processed(Flow(ps, Direct)) <==> Unbundled(ps)
    decreases |ps|
  {
    if ps != [] {
      var n := |ps| - 1;
      var last: seq<Event<V>> := if ps[n].to.Direct? then Unpack(ps[n]) else [];
      var heard: seq<Callback<V>> := if ps[n].to.Direct? then HeardDirect(ps[n]) else [];
      DirectDecodes(ps[..n]);
      DirectPacket(ps[n]);
      UnbundledMore(ps);
      hide Processed, Unpack, HeardDirect, Numbered, Unbundled;
      ProcessedAppend(Flow(ps[..n], Direct), last);
      AppendEqual(HeardDirectAll(ps[..n]), heard, Processed(Flow(ps[..n], Direct)), Processed(last));
    }
  }

  lemma {:induction false} UnbundledMore<V>(ps: seq<Packet<V>>)
    requires ps != []
    ensures var n := |ps| - 1;
            Unbundled(ps) <==>
              && Unbundled(ps[..n])
              && (ps[n].to.Direct? && ps[n].payload.Many? ==> ps[n].payload.entries == [])
  {
    var n := |ps| - 1;
    assert forall i :: 0 <= i < n ==> ps[..n][i] == ps[i];
  }

  /** One event, by itself or in a bundle. */
  ghost function Lone<V>(to: Address, name: Key, v: V, bundled: bool): Packet<V> {
    if bundled then Packet(to, EVENT_BUNDLE, Many([(BundleKey(0, name), v)]), false)
    else Packet(to, name, One(v), false)
  }

  lemma {:induction false} LoneFlow<V>(to: Address, name: Key, v: V, bundled: bool)
    ensures var p := Lone(to, name, v, bundled); Unpack(p) == [Event(name, v, false)] && Flow([p], to) == Unpack(p)
  {
    FlowMore([], Lone(to, name, v, bundled), to);
    hide Hex;
  }

  /** The client hears another name than was sent when the event comes in a bundle. */
  lemma {:induction false} DirectExample<V>(name: Key, v: V)
    ensures var ps := [Lone(Direct, name, v, true)];
            && HeardDirectAll(ps) == [Process(BundleKey(0, name), v)] && BundleKey(0, name) != name
            && Processed(Flow(ps, Direct)) == [Process(name, v)]
  {
    LoneFlow(Direct, name, v, true);
    assert [Lone(Direct, name, v, true)][..0] == [];
    hide Flow, Hex;
  }

  /** The event that ends a proxy does so by itself, but not in a bundle. */
  lemma {:induction false} ProxyExample<V>(id: nat, v: V)
    ensures HeardAll([Lone(Proxy(id), TERMINATE, v, false)], Proxy(id)) == [Done(One(v))]
    ensures HeardAll([Lone(Proxy(id), TERMINATE, v, true)], Proxy(id)) == [Process(TERMINATE, v)]
  {
    LoneFlow(Proxy(id), TERMINATE, v, true);
    NothingQuiet<V>();
    assert [Lone(Proxy(id), TERMINATE, v, true)][..0] == [] && [Lone(Proxy(id), TERMINATE, v, false)][..0] == [];
    hide Flow, Hex, Quiet;
  }

  /** Everything on the wire, through a store with proxies of distinct ids. */
  method Receive<V>(wire: seq<Packet<V>>, ids: seq<nat>) returns (logs: seq<seq<Callback<V>>>, direct: seq<Callback<V>>)
    requires forall i, k :: 0 <= i < k < |ids| ==> ids[i] != ids[k]
    requires Sound(wire)
    ensures |logs| == |ids| && forall i :: 0 <= i < |ids| ==> logs[i] == HeardAll(wire, Proxy(ids[i]))
    ensures direct == HeardDirectAll(wire)
  {
    var store := new ProxyStore<V>(ids);
    NothingQuiet<V>();
    assert Abreast(store, []);
    hide Abreast, Sound;
    for n := 0 to |wire|
      invariant store.ids == ids && Abreast(store, wire[..n])
    {
      assert wire[..n + 1] == wire[..n] + [wire[n]];
      SoundAt(wire, n);
      ReceiveOne(store, wire[..n], wire[n]);
    }
    assert wire[..|wire|] == wire;
    logs, direct := Report(store, wire);
  }

  method Report<V>(store: ProxyStore<V>, ps: seq<Packet<V>>)
    returns (logs: seq<seq<Callback<V>>>, direct: seq<Callback<V>>)
    requires Abreast(store, ps)
    ensures |logs| == |store.ids| && forall i :: 0 <= i < |store.ids| ==> logs[i] == HeardAll(ps, Proxy(store.ids[i]))
    ensures direct == HeardDirectAll(ps)
  {
    hide HeardAll, HeardDirectAll;
    logs, direct := store.logs, store.direct;
  }

  lemma {:induction false} SoundAt<V>(ps: seq<Packet<V>>, n: nat)
    requires n < |ps| && Sound(ps)
    ensures ps[n].payload.Many? ==> Numbered(ps[n].payload.entries)
  {
  }

  /** The store has taken in these packets: every proxy has been told its part, and is listed
      unless it was ended. */
  ghost predicate Abreast<V>(store: ProxyStore<V>, ps: seq<Packet<V>>)
    reads store
  {
    && store.Valid() && store.direct == HeardDirectAll(ps)
    && (forall i :: 0 <= i < |store.ids| ==> store.logs[i] == HeardAll(ps, Proxy(store.ids[i])))
    && (forall i :: 0 <= i < |store.ids| ==> (i in store.pxlist <==> Quiet(ps, Proxy(store.ids[i]))))
  }

  lemma {:induction false} HeardMore<V>(ps: seq<Packet<V>>, p: Packet<V>, to: Address)
    ensures HeardAll(ps + [p], to) == HeardAll(ps, to) + (if p.to == to && Quiet(ps, to) then Heard(p) else [])
    ensures HeardDirectAll(ps + [p]) == HeardDirectAll(ps) + (if p.to.Direct? then HeardDirect(p) else [])
  {
    var r := ps + [p];
    assert r[..|r| - 1] == ps && r[|r| - 1] == p;
    hide Heard, HeardDirect, Quiet;
  }

  method ReceiveOne<V>(store: ProxyStore<V>, ps: seq<Packet<V>>, p: Packet<V>)
    requires Abreast(store, ps) && (p.payload.Many? ==> Numbered(p.payload.entries))
    modifies store
    ensures Abreast(store, ps + [p])
  {
    forall to
      ensures HeardAll(ps + [p], to) == HeardAll(ps, to) + (if p.to == to && Quiet(ps, to) then Heard(p) else [])
    {
      HeardMore(ps, p, to);
    }
    forall to ensures Quiet(ps + [p], to) <==> Quiet(ps, to) && (p.to == to ==> p.name != TERMINATE) {
      QuietMore(ps, p, to);
    }
    HeardMore(ps, p, Direct);
    hide HeardAll, HeardDirectAll, Heard, HeardDirect, Quiet, Numbered, ProxyStore.Valid;
    store.ProcessEvent(p);
  }

  lemma {:induction false} NothingQuiet<V>()
    ensures forall to :: Quiet<V>([], to)
  {
  }

  /** From the script to the proxies. What a proxy has been told is the beginning of what was
      issued to it, and the rest waits or is bundled, exactly when the events that passed over
      waiting ones commute with them, as long as the event that ends a proxy was not sent to it
      by itself. */
  method EndToEnd<V>(ids: seq<nat>, ops: seq<Op<V>>)
    returns (told: seq<seq<Callback<V>>>, pending: seq<Packet<V>>, open: seq<Bundle<V>>)
    requires forall i, k :: 0 <= i < k < |ids| ==> ids[i] != ids[k]
    requires forall n :: 0 <= n < |ops| && ops[n].SetBundling? ==> ops[n].howmany < INT_LIMIT
    ensures var lines := NotedAll(|ids|, ops).lines;
            && |told| == |open| == |ids| == |lines|
            && forall i :: 0 <= i < |ids| && !lines[i].way.ended ==>
                 && told[i] == Processed(lines[i].way.sent)
                 && Flow(pending, Proxy(ids[i])) == lines[i].way.waiting && Opened(open[i]) == lines[i].open
                 && (lines[i].way.sent + lines[i].way.waiting + lines[i].open == Asked(|ids|, ops, i) <==>
                     lines[i].over + lines[i].late == lines[i].late + lines[i].over)
    ensures Unbroken(ops) ==> forall i :: 0 <= i < |ids| && NeverEnds(ops, i) ==>
              && told[i] + Processed(Flow(pending, Proxy(ids[i])) + Opened(open[i])) == Processed(Asked(|ids|, ops, i))
              && (Up(|ids|, ops) ==> Flow(pending, Proxy(ids[i])) == [])
  {
    var addresses := seq(|ids|, i requires 0 <= i < |ids| => Proxy(ids[i]));
    var wire;
    wire, pending, open := RunOps(false, addresses, ops);
    hide NotedAll, Flow, Opened, Processed, Quiet, HeardAll, Sound, Accounted, Asked;
    var direct;
    told, direct := Receive(wire, ids);
    ghost var lines := NotedAll(|ids|, ops).lines;
    forall i | 0 <= i < |ids| && !lines[i].way.ended ensures told[i] == Processed(lines[i].way.sent) {
      assert addresses[i] == Proxy(ids[i]);
      QuietAppend(wire, pending, addresses[i]);
      ProxyDecodes(wire, addresses[i]);
    }
    if Unbroken(ops) {
      forall i | 0 <= i < |ids| && NeverEnds(ops, i)
        ensures told[i] + Processed(lines[i].way.waiting + lines[i].open) == Processed(Asked(|ids|, ops, i))
        ensures Up(|ids|, ops) ==> lines[i].way.waiting == []
      {
        AllTold(|ids|, ops, i);
      }
    }
  }

  /** Without a broken connection what was sent, what waits and what is bundled is, in order, all
      that was asked for; and nothing waits once the task is connected. */
  lemma {:induction false} AllTold<V>(n: nat, ops: seq<Op<V>>, k: nat)
    requires k < n && Unbroken(ops) && NeverEnds(ops, k)
    ensures |NotedAll(n, ops).lines| == n
    ensures var l := NotedAll(n, ops).lines[k];
            && !l.way.ended && (Up(n, ops) ==> l.way.waiting == [])
            && Processed(l.way.sent) + Processed(l.way.waiting + l.open) == Processed(Asked(n, ops, k))
  {
    RunKeeps(n, ops);
    NeverEnded(n, ops, k);
    UnbrokenSmooth(n, ops);
    LogExact(n, ops);
    var l := NotedAll(n, ops).lines[k];
    hide NotedAll, Processed, Asked, Up;
    ProcessedAppend(l.way.sent, l.way.waiting + l.open);
    Associates(l.way.sent, l.way.waiting, l.open);
  }

  /** The event that ends a proxy is not among an agent's sends. */
  ghost predicate NeverEnds<V>(ops: seq<Op<V>>, k: nat) {
    forall n :: 0 <= n < |ops| && ops[n].Send? && ops[n].agent == k ==> ops[n].event.name != TERMINATE
  }

  /** Then it is not sent, by itself or otherwise. */
  lemma {:induction false} NeverEnded<V>(n: nat, ops: seq<Op<V>>, k: nat)
    requires k < n && NeverEnds(ops, k)
    ensures |NotedAll(n, ops).lines| == n && !NotedAll(n, ops).lines[k].way.ended
    decreases |ops|
  {
    if ops != [] {
      var m := |ops| - 1;
      NeverEnded(n, ops[..m], k);
      assert ops[m].Send? && ops[m].agent == k ==> ops[m].event.name != TERMINATE;
      NotNotedEnded(NotedAll(n, ops[..m]).lines[k], k, ops[m], NotedAll(n, ops[..m]).connected);
      hide NotedLine;
    }
  }

  lemma {:induction false} NotNotedEnded<V>(l: Line<V>, k: nat, op: Op<V>, connected: bool)
    requires op.Send? && op.agent == k ==> op.event.name != TERMINATE
    ensures NotedLine(l, k, op, connected).way.ended == l.way.ended
  {
  }
}
