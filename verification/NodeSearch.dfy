/** Membership search in nested node lists, which may contain each other. */
module NodeSearch {

  /** What a list entry's weak pointer leads to: nothing any more, a plain node, or a list. */
  datatype Target = Dead | Node(n: nat) | Nested(list: nat)

  /** The lists and their entries. */
  type Graph = map<nat, seq<Target>>

  /** Position of an entry: the pointer the search hands back. */
  datatype Found = Nowhere | Here(list: nat, index: nat)

  ghost predicate Closed(g: Graph) {
    forall l, i :: l in g && 0 <= i < |g[l]| && g[l][i].Nested? ==> g[l][i].list in g
  }

  /** A walk from list to nested list. */
  ghost predicate Path(g: Graph, p: seq<nat>) {
    && p != [] && (forall i :: 0 <= i < |p| ==> p[i] in g)
    && (forall i :: 0 <= i < |p| - 1 ==> Nested(p[i + 1]) in g[p[i]])
  }

  ghost predicate Leads(g: Graph, p: seq<nat>, a: nat, b: nat) {
    Path(g, p) && p[0] == a && p[|p| - 1] == b
  }

  ghost predicate Reachable(g: Graph, a: nat, b: nat) {
    exists p :: Leads(g, p, a, b)
  }

  /** The node occurs in some list reachable from `l`. */
  ghost predicate Occurs(g: Graph, l: nat, e: nat) {
    exists m :: m in g && Reachable(g, l, m) && Node(e) in g[m]
  }

  lemma {:induction false} ReachSelf(g: Graph, l: nat)
    requires l in g
    ensures Reachable(g, l, l)
  {
    assert Leads(g, [l], l, l);
  }

  lemma {:induction false} ReachStep(g: Graph, l: nat, c: nat, m: nat)
    requires l in g && Nested(c) in g[l] && Reachable(g, c, m)
    ensures Reachable(g, l, m)
  {
    var p :| Leads(g, p, c, m);
    var q := [l] + p;
    forall i | 0 <= i < |q| - 1 ensures Nested(q[i + 1]) in g[q[i]] {
      if i > 0 { assert q[i + 1] == p[i] && q[i] == p[i - 1]; }
    }
    assert Leads(g, q, l, m);
  }

  /** The lists of `v` have been looked through: the node is in none of them, and what they
      nest has been visited too. */
  ghost predicate Searched(g: Graph, v: set<nat>, visited: set<nat>, e: nat) {
    forall l :: l in v ==>
      && l in g && Node(e) !in g[l]
      && forall i :: 0 <= i < |g[l]| && g[l][i].Nested? ==> g[l][i].list in visited
  }

  lemma {:induction false} SearchedIsClosed(g: Graph, v: set<nat>, e: nat, p: seq<nat>, n: nat)
    requires Searched(g, v, v, e) && Path(g, p) && p[0] in v && n < |p|
    ensures p[n] in v
  {
    if n > 0 {
      SearchedIsClosed(g, v, e, p, n - 1);
      var list, m := g[p[n - 1]], n - 1;
      assert Nested(p[m + 1]) in list;
      var i :| 0 <= i < |list| && list[i] == Nested(p[n]);
    }
  }

  /** The search's static variables. */
  class Statics {
    var recurseCount: nat
    var beenThere: seq<nat>

    constructor ()
      ensures recurseCount == 0 && beenThere == []
    {
      recurseCount, beenThere := 0, [];
    }

    ghost function Visited(): set<nat>
      reads this
    {
      set l | l in beenThere
    }

    method IsMember(g: Graph, l: nat, e: nat) returns (r: Found, ghost v: set<nat>)
      requires Closed(g) && l in g && Visited() <= g.Keys
      requires recurseCount == 0 ==> beenThere == []
      modifies this
      ensures recurseCount == old(recurseCount)
      ensures if recurseCount == 0 then beenThere == [] else Visited() == v
      ensures old(Visited()) <= v <= g.Keys
      ensures r.Here? ==> r.list in g && r.index < |g[r.list]| && g[r.list][r.index] == Node(e)
      ensures r.Here? ==> Reachable(g, l, r.list)
      ensures r.Nowhere? ==> l in v && Searched(g, v - old(Visited()), v, e)
      decreases g.Keys - Visited()
    {
      r, v := Nowhere, Visited();
      if l in beenThere { return; }
      recurseCount := recurseCount + 1;
      beenThere := beenThere + [l];
      assert Visited() == old(Visited()) + {l};
      ghost var before := old(Visited());
      v := Visited();
      var i := 0;
      while i < |g[l]| && r.Nowhere?
        invariant 0 <= i <= |g[l]|
        invariant recurseCount == old(recurseCount) + 1
        invariant Visited() == v && before + {l} <= v <= g.Keys
        invariant r.Here? ==> r.list in g && r.index < |g[r.list]| && g[r.list][r.index] == Node(e)
        invariant r.Here? ==> Reachable(g, l, r.list)
        invariant r.Nowhere? ==> Searched(g, v - before - {l}, v, e)
        invariant r.Nowhere? ==> Node(e) !in g[l][..i]
        invariant r.Nowhere? ==> forall j :: 0 <= j < i && g[l][j].Nested? ==> g[l][j].list in v
        decreases |g[l]| - i
      {
        match g[l][i] {
          case Dead =>
          case Node(n) =>
            if n == e {
              r := Here(l, i);
              ReachSelf(g, l);
            }
          case Nested(c) =>
            ghost var sofar := v;
            r, v := IsMember(g, c, e);
            if r.Here? {
              assert Nested(c) in g[l];
              ReachStep(g, l, c, r.list);
            } else {
              SearchedGrows(g, before, l, sofar, v, e);
            }
        }
        i := i + 1;
      }
      recurseCount := recurseCount - 1;
      if recurseCount == 0 { beenThere := []; }
      if r.Nowhere? { assert g[l][..i] == g[l]; }
    }
  }

  lemma {:induction false} SearchedGrows(g: Graph, before: set<nat>, l: nat, sofar: set<nat>, v: set<nat>, e: nat)
    requires before + {l} <= sofar <= v
    requires Searched(g, sofar - before - {l}, sofar, e) && Searched(g, v - sofar, v, e)
    ensures Searched(g, v - before - {l}, v, e)
  {
  }

  /** The search ends on every graph, cyclic ones included, and returns an entry exactly when
      the node occurs in a list reachable from `l`; the entry it returns holds the node. */
  method Search(g: Graph, l: nat, e: nat) returns (r: Found)
    requires Closed(g) && l in g
    ensures r.Here? <==> Occurs(g, l, e)
    ensures r.Here? ==> r.list in g && r.index < |g[r.list]| && g[r.list][r.index] == Node(e) && Reachable(g, l, r.list)
  {
    var s := new Statics();
    assert s.Visited() == {};
    ghost var v;
    r, v := s.IsMember(g, l, e);
    if r.Nowhere? {
      forall m | m in g && Reachable(g, l, m) ensures Node(e) !in g[m] {
        var p :| Leads(g, p, l, m);
        assert v - {} == v;
        SearchedIsClosed(g, v, e, p, |p| - 1);
      }
    }
  }
}
