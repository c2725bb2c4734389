/** The arithmetic and the ordering behind a purge: sums of file sizes in 64-bit words, the
    oldest-first order, and how much of it has to go. */
module CacheFiles {
  import opened Text
  import opened Wrappers

  /** A file as readdir() and stat() report it, named by its path. */
  datatype Entry = Entry(name: string, size: nat, time: int)

  function Sum(es: seq<Entry>): nat {
    if es == [] then 0 else es[0].size + Sum(es[1..])
  }

  function Names(es: seq<Entry>): set<string> { set e | e in es :: e.name }

  predicate Distinct(es: seq<Entry>) {
    forall i, j :: 0 <= i < j < |es| ==> es[i].name != es[j].name
  }

  /** unsigned long long arithmetic. */
  function Word(n: nat): nat { n % TWO_TO_64 }

  function Plus(a: nat, b: nat): nat { (a + b) % TWO_TO_64 }

  function Minus(a: nat, b: nat): nat { (a - b) % TWO_TO_64 }

  lemma WordSmall(n: nat)
    requires n < TWO_TO_64
    ensures Word(n) == n
  {
  }

  lemma PlusMod(a: nat, b: nat)
    ensures Plus(Word(a), b) == Word(a + b)
  {
    var q := a / TWO_TO_64;
    assert a == TWO_TO_64 * q + a % TWO_TO_64;
  }

  lemma MinusMod(a: nat, b: nat)
    requires b <= a
    ensures Minus(Word(a), b) == Word(a - b)
  {
    var q := a / TWO_TO_64;
    assert a == TWO_TO_64 * q + a % TWO_TO_64;
  }

  lemma {:induction false} SumConcat(a: seq<Entry>, b: seq<Entry>)
    ensures Sum(a + b) == Sum(a) + Sum(b)
    decreases |a|
  {
    if a == [] {
      assert a + b == b;
    } else {
      assert (a + b)[0] == a[0] && (a + b)[1..] == a[1..] + b;
      SumConcat(a[1..], b);
    }
  }

  // ---------------------------------------------------------------- oldest first

  /** An entry goes behind those that are no younger. */
  function Insert(e: Entry, es: seq<Entry>): seq<Entry> {
    if es == [] || e.time <= es[0].time then [e] + es else [es[0]] + Insert(e, es[1..])
  }

  /** list::sort by access time, which is stable. */
  function Sorted(es: seq<Entry>): seq<Entry> {
    if es == [] then [] else Insert(es[0], Sorted(es[1..]))
  }

  predicate OldestFirst(es: seq<Entry>) {
    forall i, j :: 0 <= i < j < |es| ==> es[i].time <= es[j].time
  }

  function AtTime(es: seq<Entry>, t: int): seq<Entry> {
    if es == [] then [] else (if es[0].time == t then [es[0]] else []) + AtTime(es[1..], t)
  }

  lemma ConsOrders(h: Entry, s: seq<Entry>)
    requires OldestFirst(s) && forall x :: x in s ==> h.time <= x.time
    ensures OldestFirst([h] + s)
  {
    var r := [h] + s;
    forall i, j | 0 <= i < j < |r| ensures r[i].time <= r[j].time {
      assert r[j] == s[j - 1] && s[j - 1] in s;
    }
  }

  lemma {:induction false} InsertOrders(e: Entry, es: seq<Entry>)
    requires OldestFirst(es)
    ensures OldestFirst(Insert(e, es)) && multiset(Insert(e, es)) == multiset(es) + multiset{e}
    decreases |es|
  {
    if es == [] || e.time <= es[0].time {
      ConsOrders(e, es);
    } else {
      var s := Insert(e, es[1..]);
      InsertOrders(e, es[1..]);
      assert es == [es[0]] + es[1..];
      forall x | x in s ensures es[0].time <= x.time {
        assert x in multiset(s) && (x == e || x in es[1..]);
      }
      ConsOrders(es[0], s);
    }
  }

  lemma {:induction false} InsertStable(e: Entry, es: seq<Entry>, t: int)
    ensures AtTime(Insert(e, es), t) == (if e.time == t then [e] else []) + AtTime(es, t)
    ensures Sum(Insert(e, es)) == e.size + Sum(es)
    decreases |es|
  {
    var r := Insert(e, es);
    if es == [] || e.time <= es[0].time {
      assert r[1..] == es;
    } else {
      InsertStable(e, es[1..], t);
      assert r[1..] == Insert(e, es[1..]);
    }
  }

  /** Sorting orders by access time, loses and invents nothing, and keeps the scan order of
      files with the same access time. */
  lemma {:induction false} SortedKeeps(es: seq<Entry>, t: int)
    ensures OldestFirst(Sorted(es)) && multiset(Sorted(es)) == multiset(es)
    ensures AtTime(Sorted(es), t) == AtTime(es, t) && Sum(Sorted(es)) == Sum(es)
    decreases |es|
  {
    if es != [] {
      SortedKeeps(es[1..], t);
      InsertOrders(es[0], Sorted(es[1..]));
      InsertStable(es[0], Sorted(es[1..]), t);
      assert es == [es[0]] + es[1..];
    }
  }

  lemma {:induction false} DistinctByCount(a: seq<Entry>, b: seq<Entry>)
    requires Distinct(a) && multiset(a) == multiset(b)
    ensures Distinct(b) && Names(a) == Names(b) && forall x :: x in a <==> x in b
  {
    forall x ensures x in a <==> x in b {
      assert x in a <==> x in multiset(a);
      assert x in b <==> x in multiset(b);
    }
    forall i, j | 0 <= i < j < |b| ensures b[i].name != b[j].name {
      if b[i].name == b[j].name {
        assert b[i] in a && b[j] in a;
        var u :| 0 <= u < |a| && a[u] == b[i];
        var v :| 0 <= v < |a| && a[v] == b[j];
        assert u == v;
        TwiceCounts(b, i, j);
        OnceCounts(a, u);
        assert false;
      }
    }
  }

  lemma TwiceCounts(b: seq<Entry>, i: nat, j: nat)
    requires i < j < |b| && b[i] == b[j]
    ensures multiset(b)[b[i]] >= 2
  {
    assert b == b[..j] + [b[j]] + b[j + 1..];
    assert b[i] in b[..j] by { assert b[..j][i] == b[i]; }
  }

  lemma OnceCounts(a: seq<Entry>, u: nat)
    requires Distinct(a) && u < |a|
    ensures multiset(a)[a[u]] == 1
  {
    assert a == a[..u] + [a[u]] + a[u + 1..];
    assert a[u] !in a[..u] && a[u] !in a[u + 1..];
  }

  // ---------------------------------------------------------------- what may go and what must

  /** The entries a purge may remove, in order: not the new file, not locked by another. */
  function Evictable(es: seq<Entry>, newFile: string, busy: set<string>): seq<Entry> {
    if es == [] then []
    else (if es[0].name != newFile && es[0].name !in busy then [es[0]] else [])
         + Evictable(es[1..], newFile, busy)
  }

  lemma {:induction false} EvictableSnoc(es: seq<Entry>, e: Entry, newFile: string, busy: set<string>)
    ensures Evictable(es + [e], newFile, busy)
      == Evictable(es, newFile, busy) + (if e.name != newFile && e.name !in busy then [e] else [])
    decreases |es|
  {
    if es == [] {
      assert [] + [e] == [e] && [e][1..] == [];
    } else {
      assert (es + [e])[0] == es[0] && (es + [e])[1..] == es[1..] + [e];
      EvictableSnoc(es[1..], e, newFile, busy);
    }
  }

  lemma {:induction false} EvictablePrefix(a: seq<Entry>, b: seq<Entry>, newFile: string, busy: set<string>)
    ensures Evictable(a + b, newFile, busy) == Evictable(a, newFile, busy) + Evictable(b, newFile, busy)
    decreases |a|
  {
    if a == [] {
      assert a + b == b;
    } else {
      assert (a + b)[0] == a[0] && (a + b)[1..] == a[1..] + b;
      EvictablePrefix(a[1..], b, newFile, busy);
    }
  }

  lemma {:induction false} EvictableMembers(es: seq<Entry>, newFile: string, busy: set<string>)
    ensures forall e :: e in Evictable(es, newFile, busy) <==> e in es && e.name != newFile && e.name !in busy
    ensures Sum(Evictable(es, newFile, busy)) <= Sum(es)
    decreases |es|
  {
    if es != [] {
      EvictableMembers(es[1..], newFile, busy);
      assert es == [es[0]] + es[1..];
      var head := if es[0].name != newFile && es[0].name !in busy then [es[0]] else [];
      SumConcat(head, Evictable(es[1..], newFile, busy));
    }
  }

  /** How many of the evictable entries the loop removes, starting from a computed size. */
  function Cut(v: seq<Entry>, size: nat, target: nat): (k: nat)
    ensures k <= |v|
  {
    if v == [] || size <= target then 0 else 1 + Cut(v[1..], Minus(size, v[0].size), target)
  }

  /** As long as the true total fits a 64-bit word, the loop removes exactly the shortest
      prefix that brings the total down to the target, or everything when no prefix does. */
  lemma {:induction false} CutIsShortest(v: seq<Entry>, size: nat, target: nat)
    requires Sum(v) <= size < TWO_TO_64
    ensures var k := Cut(v, size, target);
      && Sum(v[..k]) <= size
      && (k == |v| || size - Sum(v[..k]) <= target)
      && (forall j :: 0 <= j < k ==> size - Sum(v[..j]) > target)
    decreases |v|
  {
    if v != [] && size > target {
      var rest, less := v[1..], size - v[0].size;
      assert Minus(size, v[0].size) == less;
      CutIsShortest(rest, less, target);
      var k := Cut(rest, less, target);
      assert v[..k + 1][1..] == rest[..k];
      forall j | 0 <= j < k + 1 ensures size - Sum(v[..j]) > target {
        if j > 0 { assert v[..j][1..] == rest[..j - 1]; }
      }
    }
  }

  // ---------------------------------------------------------------- removing

  function Without(es: seq<Entry>, gone: set<string>): seq<Entry> {
    if es == [] then [] else (if es[0].name in gone then [] else [es[0]]) + Without(es[1..], gone)
  }

  /** The files of the directory that belong to the cache. */
  function Cached(es: seq<Entry>, prefix: string): seq<Entry> {
    if es == [] then [] else (if prefix <= es[0].name then [es[0]] else []) + Cached(es[1..], prefix)
  }

  lemma {:induction false} WithoutMembers(es: seq<Entry>, gone: set<string>)
    ensures forall e :: e in Without(es, gone) <==> e in es && e.name !in gone
    ensures Distinct(es) ==> Distinct(Without(es, gone))
    decreases |es|
  {
    if es != [] {
      var rest := Without(es[1..], gone);
      WithoutMembers(es[1..], gone);
      assert es == [es[0]] + es[1..];
      if Distinct(es) {
        var r := Without(es, gone);
        forall i, j | 0 <= i < j < |r| ensures r[i].name != r[j].name {
          if es[0].name !in gone && i == 0 { assert r[j] == rest[j - 1] && r[j] in es[1..]; }
        }
      }
    }
  }

  lemma WithoutCons(e: Entry, es: seq<Entry>, gone: set<string>)
    ensures Without([e] + es, gone) == (if e.name in gone then [] else [e]) + Without(es, gone)
  {
    assert ([e] + es)[1..] == es;
  }

  lemma CachedCons(e: Entry, es: seq<Entry>, prefix: string)
    ensures Cached([e] + es, prefix) == (if prefix <= e.name then [e] else []) + Cached(es, prefix)
    ensures Sum(Cached([e] + es, prefix)) == (if prefix <= e.name then e.size else 0) + Sum(Cached(es, prefix))
  {
    assert ([e] + es)[1..] == es;
    SumConcat(if prefix <= e.name then [e] else [], Cached(es, prefix));
  }

  /** Taking files away never makes the total larger. */
  lemma {:induction false} WithoutShrinks(es: seq<Entry>, gone: set<string>, prefix: string)
    ensures Sum(Cached(Without(es, gone), prefix)) <= Sum(Cached(es, prefix))
    decreases |es|
  {
    hide Sum, Cached;
    if es != [] {
      var rest := Without(es[1..], gone);
      assert es == [es[0]] + es[1..];
      WithoutShrinks(es[1..], gone, prefix);
      WithoutCons(es[0], es[1..], gone);
      CachedCons(es[0], es[1..], prefix);
      CachedCons(es[0], rest, prefix);
      assert [] + rest == rest;
    }
  }

  lemma {:induction false} WithoutTwice(es: seq<Entry>, a: set<string>, b: set<string>)
    ensures Without(Without(es, a), b) == Without(es, a + b)
    decreases |es|
  {
    if es != [] {
      WithoutTwice(es[1..], a, b);
      if es[0].name in a {
        assert [] + Without(es[1..], a) == Without(es[1..], a);
      } else {
        WithoutCons(es[0], Without(es[1..], a), b);
      }
    }
  }

  lemma {:induction false} WithoutNone(es: seq<Entry>)
    ensures Without(es, {}) == es
    decreases |es|
  {
    if es != [] { WithoutNone(es[1..]); }
  }

  lemma {:induction false} WithoutAbsent(es: seq<Entry>, n: string)
    requires forall e :: e in es ==> e.name != n
    ensures Without(es, {n}) == es
    decreases |es|
  {
    if es != [] { WithoutAbsent(es[1..], n); }
  }

  lemma {:induction false} CachedMembers(es: seq<Entry>, prefix: string)
    ensures forall e :: e in Cached(es, prefix) <==> e in es && prefix <= e.name
    ensures Distinct(es) ==> Distinct(Cached(es, prefix))
    decreases |es|
  {
    if es != [] {
      var rest := Cached(es[1..], prefix);
      CachedMembers(es[1..], prefix);
      assert es == [es[0]] + es[1..];
      if Distinct(es) {
        var r := Cached(es, prefix);
        forall i, j | 0 <= i < j < |r| ensures r[i].name != r[j].name {
          if prefix <= es[0].name && i == 0 { assert r[j] == rest[j - 1] && r[j] in es[1..]; }
        }
      }
    }
  }

  /** Removing one cached file takes exactly its size off the total. */
  lemma {:induction false} RemoveOne(es: seq<Entry>, prefix: string, e: Entry)
    requires Distinct(es) && e in es && prefix <= e.name
    ensures Sum(Cached(Without(es, {e.name}), prefix)) + e.size == Sum(Cached(es, prefix))
    decreases |es|
  {
    var rest := es[1..];
    assert es == [es[0]] + rest;
    CachedCons(es[0], rest, prefix);
    if es[0] == e {
      WithoutAbsent(rest, e.name);
      assert [] + rest == rest;
    } else {
      var i :| 0 <= i < |es| && es[i] == e;
      assert es[0].name != e.name && rest[i - 1] == e;
      RemoveOne(rest, prefix, e);
      CachedCons(es[0], Without(rest, {e.name}), prefix);
    }
  }

  /** Adding a file, or changing the size of one. */
  lemma {:induction false} CachedSnoc(es: seq<Entry>, e: Entry, prefix: string)
    ensures Sum(Cached(es + [e], prefix)) == Sum(Cached(es, prefix)) + (if prefix <= e.name then e.size else 0)
    decreases |es|
  {
    if es == [] {
      assert [] + [e] == [e] + [];
      CachedCons(e, [], prefix);
    } else {
      assert es + [e] == [es[0]] + (es[1..] + [e]) && es == [es[0]] + es[1..];
      CachedSnoc(es[1..], e, prefix);
      CachedCons(es[0], es[1..] + [e], prefix);
      CachedCons(es[0], es[1..], prefix);
    }
  }

  function Lookup(es: seq<Entry>, n: string): (r: Option<Entry>)
    ensures r.Some? ==> r.value in es && r.value.name == n
    ensures r.None? ==> forall e :: e in es ==> e.name != n
  {
    if es == [] then None else if es[0].name == n then Some(es[0]) else Lookup(es[1..], n)
  }
}
