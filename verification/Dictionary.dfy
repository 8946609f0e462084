/** The chained hash dictionary behind records, scopes and agent tables. */
module Dictionary {
  import opened Common
  import Primes

  newtype Byte = x: int | 0 <= x < 256
  type Key = seq<Byte>

  /** If the mean bucket length reaches this, the table grows. */
  const TOO_CROWDED := 4

  const HASHED_CHARS := 16

  /** 32-bit hash of the remaining characters, at most `n` of them; `weights` gives each
      character's contribution. */
  function HashFrom(key: Key, h: nat, n: nat, weights: seq<nat>): (r: nat)
    requires |weights| == 256 && h < 0x1_0000_0000
    ensures r < 0x1_0000_0000
    decreases n
  {
    if n == 0 || key == [] then h
    else HashFrom(key[1..], (h * 4 + weights[key[0] as int]) % 0x1_0000_0000, n - 1, weights)
  }

  function Hash(key: Key, size: nat, weights: seq<nat>): (r: nat)
    requires |weights| == 256 && size > 0
    ensures r < size
  {
    HashFrom(key, 1, HASHED_CHARS, weights) % size
  }

  // ----- reference: an association list in insertion order -----

  function Find<V>(s: seq<(Key, V)>, key: Key): (i: int)
    ensures -1 <= i < |s| && (i >= 0 ==> s[i].0 == key)
    ensures i < 0 ==> forall k :: 0 <= k < |s| ==> s[k].0 != key
  {
    if s == [] then -1
    else if s[0].0 == key then 0
    else var i := Find(s[1..], key); if i < 0 then -1 else i + 1
  }

  function Put<V>(s: seq<(Key, V)>, key: Key, v: V): seq<(Key, V)> {
    var i := Find(s, key);
    if i < 0 then s + [(key, v)] else s[i := (key, v)]
  }

  ghost function Drop<V>(s: seq<(Key, V)>, key: Key): seq<(Key, V)> {
    var i := Find(s, key);
    if i < 0 then s else Omit(s, i)
  }

  ghost function Get<V>(s: seq<(Key, V)>, key: Key): Option<V> {
    var i := Find(s, key);
    if i < 0 then None else Some(s[i].1)
  }

  // ----- entries and chains -----

  class DictEntry<V> {
    const key: Key
    var value: V

    constructor (k: Key, v: V)
      ensures key == k && value == v
    {
      key, value := k, v;
    }
  }

  type Table<V> = seq<seq<DictEntry<V>>>

  /** Everything in the table is an entry of `s` in its own bucket... */
  ghost predicate Filed<V>(tbl: Table<V>, s: seq<DictEntry<V>>, weights: seq<nat>)
    requires |weights| == 256 && |tbl| > 0
  {
    forall b, i :: 0 <= b < |tbl| && 0 <= i < |tbl[b]| ==> tbl[b][i] in s && Hash(tbl[b][i].key, |tbl|, weights) == b
  }

  /** ... every entry of `s` is in the table... */
  ghost predicate Complete<V>(tbl: Table<V>, s: seq<DictEntry<V>>, weights: seq<nat>)
    requires |weights| == 256 && |tbl| > 0
  {
    forall k :: 0 <= k < |s| ==> s[k] in tbl[Hash(s[k].key, |tbl|, weights)]
  }

  /** ... and no chain has a key twice. */
  ghost predicate NoKeyTwice<V>(tbl: Table<V>) {
    forall b, i, j :: 0 <= b < |tbl| && 0 <= i < j < |tbl[b]| ==> tbl[b][i].key != tbl[b][j].key
  }

  ghost predicate Holds<V>(tbl: Table<V>, s: seq<DictEntry<V>>, weights: seq<nat>)
    requires |weights| == 256
  {
    |tbl| > 0 && Filed(tbl, s, weights) && Complete(tbl, s, weights) && NoKeyTwice(tbl)
  }

  ghost predicate DistinctKeys<V>(s: seq<DictEntry<V>>) {
    forall i, j :: 0 <= i < j < |s| ==> s[i].key != s[j].key
  }

  /** Position of the key in a chain, or -1. */
  method FindInChain<V>(chain: seq<DictEntry<V>>, key: Key) returns (i: int)
    ensures -1 <= i < |chain| && (i >= 0 ==> chain[i].key == key)
    ensures i < 0 ==> forall k :: 0 <= k < |chain| ==> chain[k].key != key
  {
    for j := 0 to |chain|
      invariant forall k :: 0 <= k < j ==> chain[k].key != key
    {
      if chain[j].key == key { return j; }
    }
    return -1;
  }

  /** A key's chain contains it exactly when the dictionary does. */
  lemma {:induction false} ChainFinds<V>(tbl: Table<V>, s: seq<DictEntry<V>>, weights: seq<nat>, key: Key, i: int)
    requires |weights| == 256 && Holds(tbl, s, weights)
    requires var chain := tbl[Hash(key, |tbl|, weights)];
             && -1 <= i < |chain|
             && (if i >= 0 then chain[i].key == key else forall k :: 0 <= k < |chain| ==> chain[k].key != key)
    ensures i < 0 ==> forall k :: 0 <= k < |s| ==> s[k].key != key
    ensures i >= 0 ==> tbl[Hash(key, |tbl|, weights)][i] in s
  {
  }

  lemma {:induction false} HoldsMore<V>(tbl: Table<V>, s: seq<DictEntry<V>>, weights: seq<nat>, e: DictEntry<V>)
    requires |weights| == 256 && Holds(tbl, s, weights) && forall k :: 0 <= k < |s| ==> s[k].key != e.key
    ensures var h := Hash(e.key, |tbl|, weights); Holds(tbl[h := tbl[h] + [e]], s + [e], weights)
  {
    hide Hash;
    var h := Hash(e.key, |tbl|, weights);
    var t, r := tbl[h := tbl[h] + [e]], s + [e];
    forall k | 0 <= k < |r| ensures r[k] in t[Hash(r[k].key, |t|, weights)] {
      if k < |s| {
        var b := Hash(s[k].key, |tbl|, weights);
        var i :| 0 <= i < |tbl[b]| && tbl[b][i] == s[k];
        assert t[b][i] == s[k];
      } else {
        assert t[h][|tbl[h]|] == e;
      }
    }
    forall b, i | 0 <= b < |t| && 0 <= i < |t[b]| ensures t[b][i] in r && Hash(t[b][i].key, |t|, weights) == b {
      if b != h || i < |tbl[h]| {
        assert t[b][i] == tbl[b][i];
        assert tbl[b][i] in s;
      } else {
        assert r[|s|] == e;
      }
    }
  }

  lemma {:induction false} OmitKeeps<T>(s: seq<T>, k: nat, n: nat)
    requires k < |s| && n < |s| && n != k
    ensures s[n] in Omit(s, k)
  {
    assert Omit(s, k)[if n < k then n else n - 1] == s[n];
  }

  lemma {:induction false} DistinctLess<V>(s: seq<DictEntry<V>>, k: nat)
    requires DistinctKeys(s) && k < |s|
    ensures DistinctKeys(Omit(s, k))
  {
    hide Omit;
  }

  lemma {:induction false} FiledLess<V>(tbl: Table<V>, s: seq<DictEntry<V>>, weights: seq<nat>, h: nat, i: nat, k: nat)
    requires |weights| == 256 && Holds(tbl, s, weights)
    requires h < |tbl| && i < |tbl[h]| && k < |s| && tbl[h][i] == s[k]
    ensures Filed(tbl[h := Omit(tbl[h], i)], Omit(s, k), weights) && NoKeyTwice(tbl[h := Omit(tbl[h], i)])
  {
    hide Hash, Complete, Omit;
    var t: Table<V>, r: seq<DictEntry<V>> := tbl[h := Omit(tbl[h], i)], Omit(s, k);
    forall b, j | 0 <= b < |t| && 0 <= j < |t[b]| ensures t[b][j] in r && Hash(t[b][j].key, |t|, weights) == b {
      var j0 := if b == h && j >= i then j + 1 else j;
      assert t[b][j] == tbl[b][j0];
      var n :| 0 <= n < |s| && s[n] == tbl[b][j0];
      OmitKeeps(s, k, n);
    }
  }

  lemma {:induction false} CompleteLess<V>(tbl: Table<V>, s: seq<DictEntry<V>>, weights: seq<nat>, h: nat, i: nat,
                                           k: nat)
    requires |weights| == 256 && |tbl| > 0 && Complete(tbl, s, weights) && DistinctKeys(s)
    requires h < |tbl| && i < |tbl[h]| && k < |s| && tbl[h][i] == s[k]
    ensures Complete(tbl[h := Omit(tbl[h], i)], Omit(s, k), weights)
  {
    hide Hash, Omit;
    var t: Table<V>, r: seq<DictEntry<V>> := tbl[h := Omit(tbl[h], i)], Omit(s, k);
    forall m | 0 <= m < |r| ensures r[m] in t[Hash(r[m].key, |t|, weights)] {
      var n := if m < k then m else m + 1;
      assert r[m] == s[n];
      var b := Hash(s[n].key, |tbl|, weights);
      var j :| 0 <= j < |tbl[b]| && tbl[b][j] == s[n];
      if b == h { OmitKeeps(tbl[h], i, j); }
    }
  }

  // ----- the whole table as one list -----

  /** All entries, bucket after bucket. */
  ghost function Flat<V>(tbl: Table<V>): seq<DictEntry<V>> {
    if tbl == [] then [] else Flat(tbl[..|tbl| - 1]) + tbl[|tbl| - 1]
  }

  /** What `Holds` says about the first `n` buckets. */
  ghost predicate Buckets<V>(tbl: Table<V>, n: nat, size: nat, weights: seq<nat>)
    requires |weights| == 256 && n <= |tbl| && size > 0
  {
    && (forall b, i :: 0 <= b < n && 0 <= i < |tbl[b]| ==> Hash(tbl[b][i].key, size, weights) == b)
    && (forall b, i, j :: 0 <= b < n && 0 <= i < j < |tbl[b]| ==> tbl[b][i].key != tbl[b][j].key)
  }

  lemma {:induction false} FlatDistinct<V>(tbl: Table<V>, size: nat, weights: seq<nat>)
    requires |weights| == 256 && size > 0 && Buckets(tbl, |tbl|, size, weights)
    ensures DistinctKeys(Flat(tbl))
    ensures forall i :: 0 <= i < |Flat(tbl)| ==> Hash(Flat(tbl)[i].key, size, weights) < |tbl|
  {
    hide Hash;
    if tbl != [] {
      var n := |tbl| - 1;
      FlatDistinct(tbl[..n], size, weights);
      var f: seq<DictEntry<V>>, c: seq<DictEntry<V>> := Flat(tbl[..n]), tbl[n];
      var g: seq<DictEntry<V>> := f + c;
      forall i, j | 0 <= i < j < |g| ensures g[i].key != g[j].key {
        if i < |f| <= j {
          assert g[j] == c[j - |f|] && g[i] == f[i];
          assert Hash(tbl[n][j - |f|].key, size, weights) == n;
        }
      }
      forall i | 0 <= i < |g| ensures Hash(g[i].key, size, weights) < |tbl| {
        if i >= |f| { assert g[i] == tbl[n][i - |f|]; }
      }
    }
  }

  lemma {:induction false} FlatMembers<V>(tbl: Table<V>)
    ensures forall b, i :: 0 <= b < |tbl| && 0 <= i < |tbl[b]| ==> tbl[b][i] in Flat(tbl)
    ensures forall e :: e in Flat(tbl) ==> exists b :: 0 <= b < |tbl| && e in tbl[b]
  {
    if tbl != [] {
      var n := |tbl| - 1;
      FlatMembers(tbl[..n]);
      forall b, i | 0 <= b < |tbl| && 0 <= i < |tbl[b]| ensures tbl[b][i] in Flat(tbl) {
        if b < n { assert tbl[..n][b][i] in Flat(tbl[..n]); }
      }
      forall e | e in Flat(tbl) ensures exists b :: 0 <= b < |tbl| && e in tbl[b] {
        if e in Flat(tbl[..n]) {
          var b :| 0 <= b < n && e in tbl[..n][b];
          assert e in tbl[b];
        }
      }
    }
  }

  ghost predicate SameMembers<T>(a: seq<T>, b: seq<T>) {
    (forall i :: 0 <= i < |a| ==> a[i] in b) && (forall i :: 0 <= i < |b| ==> b[i] in a)
  }

  /** The table lists every entry exactly once. */
  lemma {:induction false} FlatIsPermutation<V>(tbl: Table<V>, s: seq<DictEntry<V>>, weights: seq<nat>)
    requires |weights| == 256 && Holds(tbl, s, weights) && DistinctKeys(s)
    ensures DistinctKeys(Flat(tbl)) && SameMembers(Flat(tbl), s) && |Flat(tbl)| == |s|
  {
    FlatMembers(tbl);
    hide Hash;
    assert Buckets(tbl, |tbl|, |tbl|, weights);
    FlatDistinct(tbl, |tbl|, weights);
    forall m | 0 <= m < |Flat(tbl)| ensures Flat(tbl)[m] in s {
      var e := Flat(tbl)[m];
      assert e in Flat(tbl);
      var b :| 0 <= b < |tbl| && e in tbl[b];
      var i :| 0 <= i < |tbl[b]| && tbl[b][i] == e;
      assert tbl[b][i] in s;
    }
    forall k | 0 <= k < |s| ensures s[k] in Flat(tbl) {
      var b := Hash(s[k].key, |tbl|, weights);
      var i :| 0 <= i < |tbl[b]| && tbl[b][i] == s[k];
    }
    hide Holds, Flat;
    SameLength(Flat(tbl), s);
  }

  ghost function Elements<T>(s: seq<T>): set<T> {
    set i | 0 <= i < |s| :: s[i]
  }

  lemma {:induction false} DistinctCount<V>(s: seq<DictEntry<V>>)
    requires DistinctKeys(s)
    ensures |Elements(s)| == |s|
  {
    if s != [] {
      var n := |s| - 1;
      DistinctCount(s[..n]);
      assert Elements(s) == Elements(s[..n]) + {s[n]};
      assert s[n] !in Elements(s[..n]);
    }
  }

  lemma {:induction false} SameLength<V>(a: seq<DictEntry<V>>, b: seq<DictEntry<V>>)
    requires DistinctKeys(a) && DistinctKeys(b) && SameMembers(a, b)
    ensures |a| == |b|
  {
    DistinctCount(a);
    DistinctCount(b);
    assert Elements(a) == Elements(b);
  }

  lemma {:induction false} HoldsReordered<V>(tbl: Table<V>, s: seq<DictEntry<V>>, r: seq<DictEntry<V>>,
                                             weights: seq<nat>)
    requires |weights| == 256 && Holds(tbl, s, weights) && SameMembers(s, r)
    ensures Holds(tbl, r, weights)
  {
    hide Hash;
    forall k | 0 <= k < |r| ensures r[k] in tbl[Hash(r[k].key, |tbl|, weights)] {
      assert r[k] in s;
      var j :| 0 <= j < |s| && s[j] == r[k];
    }
  }

  // ----- the dictionary -----

  ghost function ViewOf<V>(s: seq<DictEntry<V>>): (v: seq<(Key, V)>)
    reads s
    ensures |v| == |s| && forall i :: 0 <= i < |s| ==> v[i] == (s[i].key, s[i].value)
  {
    seq(|s|, i requires 0 <= i < |s| reads s => (s[i].key, s[i].value))
  }

  lemma {:induction false} FindDistinct<V>(v: seq<(Key, V)>, key: Key, k: nat)
    requires k < |v| && v[k].0 == key && forall i, j :: 0 <= i < j < |v| ==> v[i].0 != v[j].0
    ensures Find(v, key) == k
  {
    var i := Find(v, key);
    assert i >= 0;
  }

  class Dictionary<V> {
    const weights: seq<nat>
    const ordered: bool
    var tbl: Table<V>
    var order: seq<DictEntry<V>>
    var numBuckets: nat
    var numEntries: nat
    ghost var contents: seq<DictEntry<V>>

    /** The table is right for `contents`; how crowded it is does not matter here. */
    ghost predicate TableOk()
      reads this
    {
      && |weights| == 256 && numBuckets == |tbl| && numEntries == |contents|
      && Holds(tbl, contents, weights) && DistinctKeys(contents)
    }

    ghost predicate Valid()
      reads this
    {
      TableOk() && order == (if ordered then contents else []) && numEntries < TOO_CROWDED * numBuckets
    }

    /** Keys and values in insertion order. */
    ghost function View(): seq<(Key, V)>
      reads this, contents
    {
      ViewOf(contents)
    }

    method Init(size: nat)
      requires |weights| == 256
      modifies this`tbl, this`numBuckets, this`numEntries, this`contents
      ensures TableOk() && contents == [] && numBuckets >= size
    {
      var n := Primes.NextPrime(size);
      numBuckets := n;
      tbl := seq(n, _ => []);
      numEntries := 0;
      contents := [];
    }

    constructor (w: seq<nat>, o: bool, size: nat)
      requires |w| == 256
      ensures Valid() && View() == [] && ordered == o
    {
      weights, ordered, tbl, order, numBuckets, numEntries, contents := w, o, [], [], 0, 0, [];
      new;
      Init(size);
    }

    /** The bucket of a key, its place there or -1, and which entry that is. */
    method Seek(key: Key) returns (h: nat, i: int, ghost k: nat)
      requires TableOk()
      ensures h < |tbl| && -1 <= i < |tbl[h]| && h == Hash(key, |tbl|, weights) && DistinctKeys(contents)
      ensures if i >= 0 then k < |contents| && contents[k] == tbl[h][i] && contents[k].key == key
              else forall n :: 0 <= n < |contents| ==> contents[n].key != key
    {
      h := Hash(key, numBuckets, weights);
      i := FindInChain(tbl[h], key);
      ChainFinds(tbl, contents, weights, key, i);
      hide Holds, DistinctKeys, Hash;
      k := 0;
      if i >= 0 { k :| 0 <= k < |contents| && contents[k] == tbl[h][i]; }
    }

    lemma {:induction false} ViewLacks(key: Key)
      requires forall n :: 0 <= n < |contents| ==> contents[n].key != key
      ensures Get(View(), key) == None && Drop(View(), key) == View()
      ensures forall n :: 0 <= n < |contents| ==> contents[n] in contents
    {
      hide Find;
    }

    method Lookup(key: Key) returns (r: Option<V>)
      requires Valid()
      ensures r == Get(View(), key)
    {
      hide TableOk, Find;
      var h, i, k := Seek(key);
      if i >= 0 {
        FindDistinct(View(), key, k);
        r := Some(tbl[h][i].value);
      } else {
        ViewLacks(key);
        r := None;
      }
    }

    /** A new value for the entry of a key that is present. */
    method Replace(f: DictEntry<V>, v: V) returns (was: V)
      requires TableOk() && f in contents
      modifies f`value
      ensures Get(old(View()), f.key) == Some(was) && View() == Put(old(View()), f.key, v)
    {
      ghost var k :| 0 <= k < |contents| && contents[k] == f;
      FindDistinct(View(), f.key, k);
      assert forall i :: 0 <= i < |contents| && i != k ==> contents[i] != f;
      hide Holds, Find, DistinctKeys;
      was := f.value;
      f.value := v;
      assert View() == old(View())[k := (f.key, v)];
    }

    /** A new entry at the end of its chain. */
    method Append(e: DictEntry<V>, h: nat)
      requires TableOk() && h == Hash(e.key, |tbl|, weights)
      requires forall k :: 0 <= k < |contents| ==> contents[k].key != e.key
      modifies this`tbl, this`numEntries, this`contents
      ensures TableOk() && numBuckets == old(numBuckets)
      ensures contents == old(contents) + [e]
    {
      HoldsMore(tbl, contents, weights, e);
      hide Holds, Hash;
      tbl := tbl[h := tbl[h] + [e]];
      contents := contents + [e];
      numEntries := numEntries + 1;
    }

    /** Puts an entry into its chain, or, when its key is present, its value into the old
        entry. */
    method InsertEntry(e: DictEntry<V>) returns (previous: Option<V>)
      requires TableOk() && e !in contents
      modifies this`tbl, this`numEntries, this`contents, contents`value
      ensures TableOk() && numBuckets == old(numBuckets)
      ensures previous == Get(old(View()), e.key) && View() == Put(old(View()), e.key, e.value)
      ensures contents == if previous.None? then old(contents) + [e] else old(contents)
      ensures previous.None? ==> forall f :: f in old(contents) ==> f.value == old(f.value)
    {
      var h, i, k := Seek(e.key);
      hide Holds, Hash, DistinctKeys;
      if i >= 0 {
        var was := Replace(tbl[h][i], e.value);
        previous := Some(was);
      } else {
        Append(e, h);
        previous := None;
      }
    }

    /** The entries in the order in which resizing re-inserts them. */
    method Collect() returns (current: seq<DictEntry<V>>)
      requires TableOk() && (ordered ==> order == contents)
      ensures SameMembers(current, contents) && DistinctKeys(current) && |current| == |contents|
    {
      if ordered {
        current := order;
      } else {
        current := [];
        FlatIsPermutation(tbl, contents, weights);
        for i := 0 to |tbl|
          invariant current == Flat(tbl[..i])
        {
          assert tbl[..i + 1][..i] == tbl[..i];
          current := current + tbl[i];
        }
        assert tbl[..|tbl|] == tbl;
      }
    }

    /** Inserting an entry whose key is absent. */
    method InsertNew(e: DictEntry<V>)
      requires TableOk() && forall k :: 0 <= k < |contents| ==> contents[k].key != e.key
      modifies this`tbl, this`numEntries, this`contents, contents`value
      ensures TableOk() && numBuckets == old(numBuckets) && contents == old(contents) + [e]
      ensures forall f :: f in old(contents) ==> f.value == old(f.value)
    {
      hide Holds, DistinctKeys;
      var previous := InsertEntry(e);
    }

    /** Inserting, into an empty table, entries with distinct keys files them all. */
    method Reinsert(current: seq<DictEntry<V>>)
      requires TableOk() && contents == [] && DistinctKeys(current)
      modifies this`tbl, this`numEntries, this`contents, current`value
      ensures TableOk() && contents == current && numBuckets == old(numBuckets)
      ensures forall e :: e in current ==> e.value == old(e.value)
    {
      hide TableOk;
      for i := 0 to |current|
        invariant TableOk() && contents == current[..i] && numBuckets == old(numBuckets)
        invariant forall e :: e in current ==> e.value == old(e.value)
      {
        assert forall k :: 0 <= k < i ==> contents[k] == current[k];
        InsertNew(current[i]);
        assert current[..i + 1] == current[..i] + [current[i]];
      }
      assert current[..|current|] == current;
    }

    /** The table serves any order of the same entries. */
    ghost method Reorder(keep: seq<DictEntry<V>>)
      requires TableOk() && SameMembers(contents, keep) && DistinctKeys(keep) && |keep| == |contents|
      modifies this`contents
      ensures TableOk() && contents == keep
    {
      HoldsReordered(tbl, contents, keep, weights);
      hide Holds, SameMembers, DistinctKeys;
      contents := keep;
    }

    /** Moves every entry to a table with at least `size` buckets. */
    method ChangeSize(size: nat)
      requires TableOk() && (ordered ==> order == contents)
      modifies this`tbl, this`numBuckets, this`numEntries, this`contents, contents`value
      ensures TableOk() && numBuckets >= size && contents == old(contents) && View() == old(View())
    {
      var current := Collect();
      ghost var keep := contents;
      assert forall e :: e in current ==> e in keep;
      assert forall e :: e in keep ==> e in current;
      hide Holds, DistinctKeys, SameMembers;
      Init(size);
      hide TableOk;
      Reinsert(current);
      Reorder(keep);
      assert ViewOf(keep) == old(View());
    }

    /** Sets a key's value; a new key goes last. Returns the previous value. The table never
        reaches four entries per bucket. */
    method Insert(key: Key, v: V) returns (previous: Option<V>)
      requires Valid()
      modifies this, contents`value
      ensures Valid() && previous == Get(old(View()), key) && View() == Put(old(View()), key, v)
      ensures forall k :: 0 <= k < |contents| ==> contents[k] in old(contents) || fresh(contents[k])
    {
      hide Holds, DistinctKeys, Get, Put;
      var e := new DictEntry(key, v);
      previous := InsertEntry(e);
      if previous.None? && ordered { order := order + [e]; }
      Crowded(numEntries, numBuckets);
      if numEntries / numBuckets >= TOO_CROWDED { ChangeSize(numBuckets * 2); }
    }

    /** Takes an entry out of its chain and of the order list. */
    method Unlink(h: nat, i: nat, ghost k: nat)
      requires Valid() && h < |tbl| && i < |tbl[h]| && k < |contents| && contents[k] == tbl[h][i]
      modifies this`tbl, this`order, this`numEntries, this`contents
      ensures Valid() && contents == Omit(old(contents), k)
    {
      var e := tbl[h][i];
      FiledLess(tbl, contents, weights, h, i, k);
      CompleteLess(tbl, contents, weights, h, i, k);
      DistinctLess(contents, k);
      hide Filed, Complete, NoKeyTwice, Hash;
      if ordered {
        var j := FindEntry(order, e);
        assert j == k;
        order := Omit(order, j);
      }
      hide DistinctKeys, Omit;
      tbl := tbl[h := Omit(tbl[h], i)];
      contents := Omit(contents, k);
      numEntries := numEntries - 1;
    }

    /** Removing the entry at `k` is dropping its key from the view. */
    lemma {:induction false} ViewDrops(key: Key, k: nat)
      requires DistinctKeys(contents) && k < |contents| && contents[k].key == key
      ensures ViewOf(Omit(contents, k)) == Drop(View(), key) && Get(View(), key).Some?
      ensures forall n :: 0 <= n < |Omit(contents, k)| ==> Omit(contents, k)[n] in contents
    {
      FindDistinct(View(), key, k);
      ViewOmits(contents, k);
      hide Omit, Find, DistinctKeys;
    }

    method Remove(key: Key) returns (removed: bool)
      requires Valid()
      modifies this`tbl, this`order, this`numEntries, this`contents
      ensures Valid() && removed == Get(old(View()), key).Some? && View() == Drop(old(View()), key)
      ensures forall k :: 0 <= k < |contents| ==> contents[k] in old(contents)
    {
      hide TableOk, DistinctKeys, Omit, Find;
      var h, i, k := Seek(key);
      removed := false;
      if i < 0 {
        ViewLacks(key);
      } else {
        ViewDrops(key, k);
        Unlink(h, i, k);
        removed := true;
      }
    }

    /** One step of an iteration: the cookie is a bucket and an offset in it. */
    method NextEntry(b: nat, o: nat) returns (e: Option<DictEntry<V>>, b': nat, o': nat)
      requires Valid() && b < numBuckets && o <= |tbl[b]|
      ensures b' < numBuckets && o' <= |tbl[b']|
      ensures var p := Position(tbl, b, o);
              if p < |Flat(tbl)| then e == Some(Flat(tbl)[p]) && Position(tbl, b', o') == p + 1 else e == None
    {
      FlatSplit(tbl, b);
      hide Holds;
      if |tbl[b]| > o {
        return Some(tbl[b][o]), b, o + 1;
      }
      b', o' := b, o;
      var c := b + 1;
      while c < numBuckets && |tbl[c]| == 0
        invariant b < c <= numBuckets && |Flat(tbl[..c])| == Position(tbl, b, o)
      {
        assert tbl[..c + 1][..c] == tbl[..c];
        c := c + 1;
      }
      if c >= numBuckets {
        assert tbl[..c] == tbl;
        return None, b, o;
      }
      FlatSplit(tbl, c);
      return Some(tbl[c][0]), c, 1;
    }
  }

  lemma {:induction false} Crowded(entries: nat, buckets: nat)
    requires buckets > 0
    ensures entries / buckets >= TOO_CROWDED <==> entries >= TOO_CROWDED * buckets
  {
    var q, r := entries / buckets, entries % buckets;
    assert entries == buckets * q + r;
  }

  lemma {:induction false} ViewOmits<V>(s: seq<DictEntry<V>>, k: nat)
    requires k < |s|
    ensures ViewOf(Omit(s, k)) == Omit(ViewOf(s), k)
  {
  }

  method FindEntry<V>(s: seq<DictEntry<V>>, e: DictEntry<V>) returns (j: nat)
    requires e in s
    ensures j < |s| && s[j] == e && forall k :: 0 <= k < j ==> s[k] != e
  {
    j := 0;
    while s[j] != e
      invariant j < |s| && e in s[j..] && forall k :: 0 <= k < j ==> s[k] != e
      decreases |s| - j
    {
      j := j + 1;
    }
  }

  /** How many entries an iteration has passed. */
  ghost function Position<V>(tbl: Table<V>, b: nat, o: nat): nat
    requires b < |tbl|
  {
    |Flat(tbl[..b])| + o
  }

  lemma {:induction false} FlatSplit<V>(tbl: Table<V>, b: nat)
    requires b < |tbl|
    ensures |Flat(tbl[..b])| + |tbl[b]| == |Flat(tbl[..b + 1])| <= |Flat(tbl)|
    ensures forall o :: 0 <= o < |tbl[b]| ==> Flat(tbl)[|Flat(tbl[..b])| + o] == tbl[b][o]
    decreases |tbl|
  {
    var n := |tbl| - 1;
    if b == n {
      assert tbl[..b + 1] == tbl;
    } else {
      FlatSplit(tbl[..n], b);
      assert tbl[..n][..b] == tbl[..b] && tbl[..n][..b + 1] == tbl[..b + 1];
      assert Flat(tbl) == Flat(tbl[..n]) + tbl[n];
      hide Flat;
    }
  }

  /** All steps of an iteration: bucket after bucket. */
  method Walk<V>(d: Dictionary<V>) returns (all: seq<DictEntry<V>>)
    requires d.Valid()
    ensures all == Flat(d.tbl)
  {
    all := [];
    assert 0 < d.numBuckets == |d.tbl|;
    EmptyPrefix(d.tbl);
    hide Dictionary.TableOk, Flat, Position;
    ghost var f := Flat(d.tbl);
    var b: nat, o: nat, e := 0, 0, None;
    while true
      invariant b < d.numBuckets == |d.tbl| && o <= |d.tbl[b]|
      invariant Position(d.tbl, b, o) == |all| <= |f| && all == f[..|all|]
      decreases |f| - |all|
    {
      e, b, o := d.NextEntry(b, o);
      if e.None? { return; }
      all := all + [e.value];
    }
  }

  /** A whole iteration, undisturbed: each entry once, then it stops. */
  method Iterate<V>(d: Dictionary<V>) returns (all: seq<DictEntry<V>>)
    requires d.Valid()
    ensures DistinctKeys(all) && SameMembers(all, d.contents) && |all| == |d.contents|
  {
    FlatIsPermutation(d.tbl, d.contents, d.weights);
    hide Holds, Flat, DistinctKeys, SameMembers;
    all := Walk(d);
  }

  lemma {:induction false} EmptyPrefix<V>(tbl: Table<V>)
    requires |tbl| > 0
    ensures Position(tbl, 0, 0) == 0
  {
    assert tbl[..0] == [];
  }

  // ----- the association list is a map -----

  ghost predicate UniqueKeys<V>(s: seq<(Key, V)>) {
    forall i, j :: 0 <= i < j < |s| ==> s[i].0 != s[j].0
  }

  ghost function AsMap<V>(s: seq<(Key, V)>): map<Key, V>
    requires UniqueKeys(s)
  {
    map i | 0 <= i < |s| :: s[i].0 := s[i].1
  }

  lemma {:induction false} AsMapAt<V>(s: seq<(Key, V)>, key: Key)
    requires UniqueKeys(s)
    ensures key in AsMap(s) <==> Find(s, key) >= 0
    ensures key in AsMap(s) ==> AsMap(s)[key] == s[Find(s, key)].1
  {
    hide Find;
  }

  /** A list describes a map when it has the map's keys, each with the map's value. */
  lemma {:induction false} SameMap<V>(r: seq<(Key, V)>, m: map<Key, V>)
    requires UniqueKeys(r)
    requires forall i :: 0 <= i < |r| ==> r[i].0 in m && m[r[i].0] == r[i].1
    requires forall key :: key in m ==> exists i :: 0 <= i < |r| && r[i].0 == key
    ensures AsMap(r) == m
  {
  }

  lemma {:induction false} PutUnique<V>(s: seq<(Key, V)>, key: Key, v: V)
    requires UniqueKeys(s)
    ensures UniqueKeys(Put(s, key, v))
  {
    hide Find;
  }

  lemma {:induction false} PutIsUpdate<V>(s: seq<(Key, V)>, key: Key, v: V)
    requires UniqueKeys(s)
    ensures UniqueKeys(Put(s, key, v)) && AsMap(Put(s, key, v)) == AsMap(s)[key := v]
  {
    hide Find;
    PutUnique(s, key, v);
    var r: seq<(Key, V)>, m, k := Put(s, key, v), AsMap(s)[key := v], Find(s, key);
    assert r[if k < 0 then |s| else k].0 == key;
    forall x | x in m ensures exists i :: 0 <= i < |r| && r[i].0 == x {
      if x != key {
        var i :| 0 <= i < |s| && s[i].0 == x;
        assert r[i].0 == x;
      }
    }
    forall i | 0 <= i < |r| ensures r[i].0 in m && m[r[i].0] == r[i].1 {
      if r[i].0 != key {
        assert r[i] == s[i];
        assert s[i].0 in AsMap(s);
      }
    }
    hide AsMap, UniqueKeys, Put;
    SameMap(r, m);
  }

  lemma {:induction false} OmitUnique<V>(s: seq<(Key, V)>, k: nat)
    requires UniqueKeys(s) && k < |s|
    ensures UniqueKeys(Omit(s, k))
  {
    hide Omit;
  }

  lemma {:induction false} OmitCovers<V>(s: seq<(Key, V)>, k: nat)
    requires UniqueKeys(s) && k < |s|
    ensures forall x :: x in AsMap(s) - {s[k].0} ==> exists i :: 0 <= i < |Omit(s, k)| && Omit(s, k)[i].0 == x
  {
    var r: seq<(Key, V)> := Omit(s, k);
    forall x | x in AsMap(s) - {s[k].0} ensures exists i :: 0 <= i < |r| && r[i].0 == x {
      var i :| 0 <= i < |s| && s[i].0 == x;
      OmitKeeps(s, k, i);
      var n :| 0 <= n < |r| && r[n] == s[i];
    }
  }

  lemma {:induction false} OmitIsRemoval<V>(s: seq<(Key, V)>, k: nat)
    requires UniqueKeys(s) && k < |s| && UniqueKeys(Omit(s, k))
    ensures AsMap(Omit(s, k)) == AsMap(s) - {s[k].0}
  {
    var r: seq<(Key, V)>, m := Omit(s, k), AsMap(s) - {s[k].0};
    OmitCovers(s, k);
    forall i | 0 <= i < |r| ensures r[i].0 in m && m[r[i].0] == r[i].1 {
      var n := if i < k then i else i + 1;
      assert r[i] == s[n] && s[n].0 != s[k].0;
      assert s[n].0 in AsMap(s);
    }
    hide Omit, AsMap, UniqueKeys;
    SameMap(r, m);
  }

  lemma {:induction false} DropIsRemoval<V>(s: seq<(Key, V)>, key: Key)
    requires UniqueKeys(s)
    ensures UniqueKeys(Drop(s, key)) && AsMap(Drop(s, key)) == AsMap(s) - {key}
  {
    AsMapAt(s, key);
    hide Find, Omit, AsMap, UniqueKeys;
    var k := Find(s, key);
    if k >= 0 {
      OmitUnique(s, k);
      OmitIsRemoval(s, k);
      assert Drop(s, key) == Omit(s, k);
    } else {
      assert Drop(s, key) == s && AsMap(s) - {key} == AsMap(s);
    }
    hide Drop;
  }

  /** The dictionary's three operations are those of a map. */
  lemma {:induction false} RefinesMap<V>(s: seq<(Key, V)>, key: Key, v: V)
    requires UniqueKeys(s)
    ensures Get(s, key) == if key in AsMap(s) then Some(AsMap(s)[key]) else None
    ensures UniqueKeys(Put(s, key, v)) && AsMap(Put(s, key, v)) == AsMap(s)[key := v]
    ensures UniqueKeys(Drop(s, key)) && AsMap(Drop(s, key)) == AsMap(s) - {key}
  {
    AsMapAt(s, key);
    PutIsUpdate(s, key, v);
    DropIsRemoval(s, key);
    hide AsMap, Find, Put, Drop;
  }

  // ----- whole runs -----

  datatype Op<V> = Store(key: Key, value: V) | Take(key: Key) | Ask(key: Key)

  /** What a plain map answers to each operation: the value it had for the key. */
  ghost function Answers<V>(m: map<Key, V>, ops: seq<Op<V>>): seq<Option<V>>
    decreases |ops|
  {
    if ops == [] then [] else
      var key := ops[0].key;
      var was := if key in m then Some(m[key]) else None;
      [was] + Answers(MapAfter(m, ops[0]), ops[1..])
  }

  ghost function MapAfter<V>(m: map<Key, V>, op: Op<V>): map<Key, V> {
    match op
    case Store(key, v) => m[key := v]
    case Take(key) => m - {key}
    case Ask(_) => m
  }

  /** The same on the insertion-order list. */
  ghost function ListAfter<V>(s: seq<(Key, V)>, op: Op<V>): seq<(Key, V)> {
    match op
    case Store(key, v) => Put(s, key, v)
    case Take(key) => Drop(s, key)
    case Ask(_) => s
  }

  ghost function ListAnswers<V>(s: seq<(Key, V)>, ops: seq<Op<V>>): seq<Option<V>>
    decreases |ops|
  {
    if ops == [] then [] else [Get(s, ops[0].key)] + ListAnswers(ListAfter(s, ops[0]), ops[1..])
  }

  lemma {:induction false} ListAnswersAreMapAnswers<V>(s: seq<(Key, V)>, ops: seq<Op<V>>)
    requires UniqueKeys(s)
    ensures ListAnswers(s, ops) == Answers(AsMap(s), ops)
    decreases |ops|
  {
    hide AsMap, Put, Drop, Get, UniqueKeys;
    if ops != [] {
      var op := ops[0];
      if op.Store? {
        RefinesMap(s, op.key, op.value);
      } else {
        GetIsLookup(s, op.key);
        DropIsRemoval(s, op.key);
      }
      ListAnswersAreMapAnswers(ListAfter(s, op), ops[1..]);
    }
  }

  lemma {:induction false} GetIsLookup<V>(s: seq<(Key, V)>, key: Key)
    requires UniqueKeys(s)
    ensures Get(s, key) == if key in AsMap(s) then Some(AsMap(s)[key]) else None
  {
    AsMapAt(s, key);
    hide AsMap, Find, UniqueKeys;
  }

  method Step<V>(d: Dictionary<V>, op: Op<V>) returns (r: Option<V>)
    requires d.Valid()
    modifies d, d.contents`value
    ensures d.Valid() && r == Get(old(d.View()), op.key) && d.View() == ListAfter(old(d.View()), op)
    ensures forall k :: 0 <= k < |d.contents| ==> d.contents[k] in old(d.contents) || fresh(d.contents[k])
  {
    hide Dictionary.Valid, Get, Put, Drop;
    match op
    case Store(key, v) => r := d.Insert(key, v);
    case Take(key) =>
      r := d.Lookup(key);
      var _ := d.Remove(key);
    case Ask(key) => r := d.Lookup(key);
  }

  /** The list after a run. */
  ghost function ListAfterAll<V>(s: seq<(Key, V)>, ops: seq<Op<V>>): seq<(Key, V)>
    decreases |ops|
  {
    if ops == [] then s else ListAfterAll(ListAfter(s, ops[0]), ops[1..])
  }

  // ----- the order of insertion, told from the operations alone -----

  ghost function MapAfterAll<V>(ops: seq<Op<V>>): map<Key, V>
    decreases |ops|
  {
    if ops == [] then map[] else MapAfter(MapAfterAll(ops[..|ops| - 1]), ops[|ops| - 1])
  }

  /** Operation `n` brought the key in, and it has been there ever since. */
  ghost predicate InsertedAt<V>(ops: seq<Op<V>>, n: nat, key: Key) {
    && n < |ops| && ops[n].Store? && ops[n].key == key && key !in MapAfterAll(ops[..n])
    && forall m :: n < m <= |ops| ==> key in MapAfterAll(ops[..m])
  }

  lemma {:induction false} InsertedOnce<V>(ops: seq<Op<V>>, n: nat, m: nat, key: Key)
    requires InsertedAt(ops, n, key) && InsertedAt(ops, m, key)
    ensures n == m
  {
  }

  lemma {:induction false} StillInserted<V>(ops: seq<Op<V>>, n: nat, key: Key)
    requires ops != [] && InsertedAt(ops[..|ops| - 1], n, key) && key in MapAfterAll(ops)
    ensures InsertedAt(ops, n, key)
  {
    var l := |ops| - 1;
    hide MapAfterAll;
    assert ops[..l][..n] == ops[..n];
    forall m | n < m <= |ops| ensures key in MapAfterAll(ops[..m]) {
      if m <= l { assert ops[..l][..m] == ops[..m]; } else { assert ops[..m] == ops; }
    }
  }

  lemma {:induction false} JustInserted<V>(ops: seq<Op<V>>)
    requires ops != [] && ops[|ops| - 1].Store? && ops[|ops| - 1].key !in MapAfterAll(ops[..|ops| - 1])
    ensures InsertedAt(ops, |ops| - 1, ops[|ops| - 1].key)
  {
    assert ops[..|ops|] == ops;
  }

  lemma {:induction false} ListSnoc<V>(s: seq<(Key, V)>, ops: seq<Op<V>>)
    requires ops != []
    ensures ListAfterAll(s, ops) == ListAfter(ListAfterAll(s, ops[..|ops| - 1]), ops[|ops| - 1])
    decreases |ops|
  {
    hide ListAfter;
    var n := |ops| - 1;
    if n > 0 {
      ListSnoc(ListAfter(s, ops[0]), ops[1..]);
      assert ops[1..][..n - 1] == ops[..n][1..];
    } else {
      assert ops[..n] == [] && ops[1..] == [];
    }
  }

  /** The entries of `s` were brought in by the operations `at`, in that order. */
  ghost predicate BroughtBy<V>(ops: seq<Op<V>>, s: seq<(Key, V)>, at: seq<nat>) {
    && |at| == |s| && (forall i :: 0 <= i < |s| ==> InsertedAt(ops, at[i], s[i].0))
    && forall i, j :: 0 <= i < j < |at| ==> at[i] < at[j]
  }

  /** After any run the list is that of the map's entries in the order of their insertion: an
      entry whose value is replaced keeps its place, and one removed and stored again is last. */
  lemma {:induction false} ListedByInsertion<V>(ops: seq<Op<V>>) returns (at: seq<nat>)
    ensures var s := ListAfterAll<V>([], ops);
            UniqueKeys(s) && AsMap(s) == MapAfterAll(ops) && BroughtBy(ops, s, at)
    decreases |ops|
  {
    if ops == [] {
      at := [];
    } else {
      var n := |ops| - 1;
      var was := ListedByInsertion(ops[..n]);
      ListSnoc<V>([], ops);
      hide ListAfterAll;
      at := InsertionStep(ops, ListAfterAll([], ops[..n]), was);
    }
  }

  lemma {:induction false} InsertionStep<V>(ops: seq<Op<V>>, s: seq<(Key, V)>, was: seq<nat>) returns (at: seq<nat>)
    requires ops != [] && UniqueKeys(s) && AsMap(s) == MapAfterAll(ops[..|ops| - 1])
    requires BroughtBy(ops[..|ops| - 1], s, was)
    ensures var r := ListAfter(s, ops[|ops| - 1]);
            UniqueKeys(r) && AsMap(r) == MapAfterAll(ops) && BroughtBy(ops, r, at)
  {
    var op := ops[|ops| - 1];
    AsMapAt(s, op.key);
    match op {
      case Ask(_) =>
        at := was;
        SameInsertions(ops, s, s, was);
      case Take(key) =>
        DropIsRemoval(s, key);
        at := TakeInsertions(ops, s, was);
      case Store(key, v) =>
        PutIsUpdate(s, key, v);
        at := StoreInsertions(ops, s, was);
    }
  }

  lemma {:induction false} KeysListed<V>(r: seq<(Key, V)>)
    requires UniqueKeys(r)
    ensures forall i :: 0 <= i < |r| ==> r[i].0 in AsMap(r)
  {
  }

  /** Entries that stay were brought in when they were. */
  lemma {:induction false} StillBrought<V>(ops: seq<Op<V>>, s: seq<(Key, V)>, was: seq<nat>)
    requires ops != [] && BroughtBy(ops[..|ops| - 1], s, was)
    ensures forall i :: 0 <= i < |s| ==> was[i] < |ops| - 1
    ensures forall i :: 0 <= i < |s| && s[i].0 in MapAfterAll(ops) ==> InsertedAt(ops, was[i], s[i].0)
  {
    hide MapAfterAll;
    forall i | 0 <= i < |s| ensures was[i] < |ops| - 1 {
      assert InsertedAt(ops[..|ops| - 1], was[i], s[i].0);
    }
    hide InsertedAt;
    forall i | 0 <= i < |s| && s[i].0 in MapAfterAll(ops) ensures InsertedAt(ops, was[i], s[i].0) {
      StillInserted(ops, was[i], s[i].0);
    }
  }

  /** The keys of `r` are those of `s`, in the same places. */
  lemma {:induction false} SameInsertions<V>(ops: seq<Op<V>>, s: seq<(Key, V)>, r: seq<(Key, V)>, was: seq<nat>)
    requires ops != [] && BroughtBy(ops[..|ops| - 1], s, was) && UniqueKeys(r) && AsMap(r) == MapAfterAll(ops)
    requires |r| == |s| && forall i :: 0 <= i < |s| ==> r[i].0 == s[i].0
    ensures BroughtBy(ops, r, was)
  {
    hide InsertedAt, MapAfterAll, AsMap;
    KeysListed(r);
    StillBrought(ops, s, was);
    hide UniqueKeys;
  }

  lemma {:induction false} OmitInsertions<V>(ops: seq<Op<V>>, s: seq<(Key, V)>, k: nat, was: seq<nat>)
    returns (at: seq<nat>)
    requires ops != [] && BroughtBy(ops[..|ops| - 1], s, was) && k < |s|
    requires var r := Omit(s, k); UniqueKeys(r) && AsMap(r) == MapAfterAll(ops)
    ensures BroughtBy(ops, Omit(s, k), at)
  {
    hide InsertedAt, MapAfterAll, AsMap;
    var r: seq<(Key, V)> := Omit(s, k);
    at := Omit(was, k);
    KeysListed(r);
    StillBrought(ops, s, was);
    hide UniqueKeys;
    forall i | 0 <= i < |r| ensures InsertedAt(ops, at[i], r[i].0) {
      var j := if i < k then i else i + 1;
      assert r[i] == s[j] && at[i] == was[j];
    }
  }

  lemma {:induction false} TakeInsertions<V>(ops: seq<Op<V>>, s: seq<(Key, V)>, was: seq<nat>) returns (at: seq<nat>)
    requires ops != [] && ops[|ops| - 1].Take? && BroughtBy(ops[..|ops| - 1], s, was)
    requires var r := Drop(s, ops[|ops| - 1].key); UniqueKeys(r) && AsMap(r) == MapAfterAll(ops)
    ensures BroughtBy(ops, Drop(s, ops[|ops| - 1].key), at)
  {
    hide Find, BroughtBy, MapAfterAll, AsMap, UniqueKeys, Omit;
    var k := Find(s, ops[|ops| - 1].key);
    if k < 0 {
      at := was;
      SameInsertions(ops, s, s, was);
    } else {
      at := OmitInsertions(ops, s, k, was);
    }
  }

  lemma {:induction false} AppendInsertions<V>(ops: seq<Op<V>>, s: seq<(Key, V)>, was: seq<nat>)
    requires ops != [] && ops[|ops| - 1].Store? && BroughtBy(ops[..|ops| - 1], s, was)
    requires ops[|ops| - 1].key !in MapAfterAll(ops[..|ops| - 1])
    requires var r := s + [(ops[|ops| - 1].key, ops[|ops| - 1].value)]; UniqueKeys(r) && AsMap(r) == MapAfterAll(ops)
    ensures BroughtBy(ops, s + [(ops[|ops| - 1].key, ops[|ops| - 1].value)], was + [|ops| - 1])
  {
    hide InsertedAt, MapAfterAll, AsMap;
    var r := s + [(ops[|ops| - 1].key, ops[|ops| - 1].value)];
    var at := was + [|ops| - 1];
    KeysListed(r);
    StillBrought(ops, s, was);
    JustInserted(ops);
    hide UniqueKeys;
    forall i | 0 <= i < |r| ensures InsertedAt(ops, at[i], r[i].0) {
      if i < |s| { assert r[i] == s[i] && at[i] == was[i]; }
    }
  }

  lemma {:induction false} StoreInsertions<V>(ops: seq<Op<V>>, s: seq<(Key, V)>, was: seq<nat>) returns (at: seq<nat>)
    requires ops != [] && ops[|ops| - 1].Store? && BroughtBy(ops[..|ops| - 1], s, was)
    requires UniqueKeys(s) && AsMap(s) == MapAfterAll(ops[..|ops| - 1])
    requires var r := Put(s, ops[|ops| - 1].key, ops[|ops| - 1].value); UniqueKeys(r) && AsMap(r) == MapAfterAll(ops)
    ensures BroughtBy(ops, Put(s, ops[|ops| - 1].key, ops[|ops| - 1].value), at)
  {
    hide Find, BroughtBy, MapAfterAll, AsMap, UniqueKeys;
    var op := ops[|ops| - 1];
    var k := Find(s, op.key);
    AsMapAt(s, op.key);
    if k >= 0 {
      at := was;
      SameInsertions(ops, s, s[k := (op.key, op.value)], was);
    } else {
      at := was + [|ops| - 1];
      AppendInsertions(ops, s, was);
    }
  }

  /** The order list, as keys and values. */
  method Listing<V>(d: Dictionary<V>) returns (listing: seq<(Key, V)>)
    requires d.Valid() && d.ordered
    ensures listing == d.View()
  {
    hide Dictionary.TableOk;
    listing := [];
    for i := 0 to |d.order|
      invariant listing == ViewOf(d.order)[..i]
    {
      listing := listing + [(d.order[i].key, d.order[i].value)];
    }
  }

  /** All operations in turn. */
  method Operate<V>(weights: seq<nat>, ordered: bool, size: nat, ops: seq<Op<V>>)
    returns (out: seq<Option<V>>, listing: seq<(Key, V)>, entries: nat, buckets: nat)
    requires |weights| == 256
    ensures out == Answers(map[], ops)
    ensures ordered ==> listing == ListAfterAll([], ops)
    ensures entries == |ListAfterAll<V>([], ops)| && entries < TOO_CROWDED * buckets
  {
    hide Dictionary.Valid, Get, ListAfter, ListAnswers, ListAfterAll, Answers, AsMap;
    var d := new Dictionary<V>(weights, ordered, size);
    out, listing := [], [];
    FirstAnswers(ops);
    for i := 0 to |ops|
      invariant fresh(d) && d.Valid() && d.ordered == ordered
      invariant forall k :: 0 <= k < |d.contents| ==> fresh(d.contents[k])
      invariant out + ListAnswers(d.View(), ops[i..]) == Answers(map[], ops)
      invariant ListAfterAll(d.View(), ops[i..]) == ListAfterAll([], ops)
    {
      AnswersUnfold(d.View(), ops, i, out);
      var r := Step(d, ops[i]);
      out := out + [r];
    }
    NoMoreAnswers(d.View(), ops);
    assert out + [] == out;
    if ordered { listing := Listing(d); }
    entries, buckets := Counts(d);
  }

  /** Seen from outside, a dictionary is a map and an insertion-order list: it answers every
      sequence of operations as a map does, whatever its hash weights, its initial size and the
      resizing in between, an ordered one lists its entries in the order of their insertion, and
      there are fewer than four entries per bucket. */
  method RunOps<V>(weights: seq<nat>, ordered: bool, size: nat, ops: seq<Op<V>>)
    returns (out: seq<Option<V>>, listing: seq<(Key, V)>, entries: nat, buckets: nat)
    requires |weights| == 256
    ensures out == Answers(map[], ops)
    ensures ordered ==> listing == ListAfterAll([], ops)
    ensures ordered ==> UniqueKeys(listing) && AsMap(listing) == MapAfterAll(ops)
    ensures ordered ==> exists at :: BroughtBy(ops, listing, at)
    ensures entries == |ListAfterAll<V>([], ops)| && entries < 4 * buckets
  {
    hide Answers, ListAfterAll, MapAfterAll, BroughtBy;
    out, listing, entries, buckets := Operate(weights, ordered, size, ops);
    ghost var at := ListedByInsertion(ops);
  }

  method Counts<V>(d: Dictionary<V>) returns (entries: nat, buckets: nat)
    requires d.Valid()
    ensures entries == |d.View()| && entries < TOO_CROWDED * buckets
  {
    hide Holds, DistinctKeys;
    entries, buckets := d.numEntries, d.numBuckets;
  }

  lemma {:induction false} AnswersUnfold<V>(s: seq<(Key, V)>, ops: seq<Op<V>>, i: nat, out: seq<Option<V>>)
    requires i < |ops|
    ensures out + ListAnswers(s, ops[i..]) ==
              out + [Get(s, ops[i].key)] + ListAnswers(ListAfter(s, ops[i]), ops[i + 1..])
    ensures ListAfterAll(s, ops[i..]) == ListAfterAll(ListAfter(s, ops[i]), ops[i + 1..])
  {
    assert ops[i..][1..] == ops[i + 1..];
    hide ListAfter, Get;
  }

  lemma {:induction false} FirstAnswers<V>(ops: seq<Op<V>>)
    ensures [] + ListAnswers([], ops[0..]) == Answers(map[], ops)
    ensures ListAfterAll<V>([], ops[0..]) == ListAfterAll([], ops)
  {
    assert ops[0..] == ops;
    ListAnswersAreMapAnswers<V>([], ops);
    assert AsMap<V>([]) == map[];
  }

  lemma {:induction false} NoMoreAnswers<V>(s: seq<(Key, V)>, ops: seq<Op<V>>)
    ensures ListAnswers(s, ops[|ops|..]) == [] && ListAfterAll(s, ops[|ops|..]) == s
  {
  }
}
