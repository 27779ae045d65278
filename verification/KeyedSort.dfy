/**
 * Text as the runtime sees it (a sequence of UTF-16 code units) and the order
 * in which `Array.prototype.sort` puts property names: code unit by code unit,
 * as section 3.2.3 of RFC 8785 also asks.
 */
module KeyedSort {

  type CodeUnit = x: int | 0 <= x < 0x1_0000
  type Text = seq<CodeUnit>

  datatype Entry<+V> = Entry(key: Text, value: V)

  predicate TextLeq(a: Text, b: Text) {
    a == [] || (b != [] && (a[0] < b[0] || (a[0] == b[0] && TextLeq(a[1..], b[1..]))))
  }

  /** One text is the start of the other, or has the smaller code unit where they first differ. */
  ghost predicate NotAfter(a: Text, b: Text) {
    || (|a| <= |b| && b[..|a|] == a)
    || exists k :: 0 <= k < |a| && k < |b| && a[..k] == b[..k] && a[k] < b[k]
  }

  /** The order is by code units. */
  lemma {:induction false} TextLeqIs(a: Text, b: Text)
    ensures TextLeq(a, b) <==> NotAfter(a, b)
  {
    if a == [] {
      assert b[..0] == a;
    } else if b != [] {
      if a[0] < b[0] {
        assert a[..0] == b[..0];
      } else if a[0] == b[0] {
        TextLeqIs(a[1..], b[1..]);
        SameFirst(a, b);
      } else {
        LaterFirst(a, b);
      }
    }
  }

  lemma LaterFirst(a: Text, b: Text)
    requires a != [] && b != [] && a[0] > b[0]
    ensures !NotAfter(a, b)
  {
    assert |a| <= |b| ==> b[..|a|][0] == b[0];
    forall k | 0 < k < |a| && k < |b| ensures a[..k] != b[..k] { assert a[..k][0] != b[..k][0]; }
  }

  lemma SameFirst(a: Text, b: Text)
    requires a != [] && b != [] && a[0] == b[0]
    ensures NotAfter(a, b) <==> NotAfter(a[1..], b[1..])
  {
    var x, y := a[1..], b[1..];
    assert a == [a[0]] + x && b == [b[0]] + y;
    assert |a| <= |b| ==> b[..|a|] == [b[0]] + y[..|x|];
    if k :| 0 <= k < |a| && k < |b| && a[..k] == b[..k] && a[k] < b[k] {
      assert x[..k - 1] == a[..k][1..] && y[..k - 1] == b[..k][1..] && x[k - 1] < y[k - 1];
    }
    if k :| 0 <= k < |x| && k < |y| && x[..k] == y[..k] && x[k] < y[k] {
      assert a[..k + 1] == [a[0]] + x[..k] && b[..k + 1] == [b[0]] + y[..k] && a[k + 1] < b[k + 1];
    }
  }

  lemma {:induction false} TextLeqTotal(a: Text, b: Text)
    ensures TextLeq(a, b) || TextLeq(b, a)
    ensures TextLeq(a, b) && TextLeq(b, a) ==> a == b
  {
    if a != [] && b != [] {
      TextLeqTotal(a[1..], b[1..]);
      assert a == [a[0]] + a[1..] && b == [b[0]] + b[1..];
    }
  }

  lemma {:induction false} TextLeqTransitive(a: Text, b: Text, c: Text)
    requires TextLeq(a, b) && TextLeq(b, c)
    ensures TextLeq(a, c)
  {
    if a != [] && b != [] && c != [] && a[0] == b[0] && b[0] == c[0] {
      TextLeqTransitive(a[1..], b[1..], c[1..]);
    }
  }

  predicate DistinctKeys<V>(es: seq<Entry<V>>) {
    forall i, j :: 0 <= i < j < |es| ==> es[i].key != es[j].key
  }

  predicate SortedByKey<V>(es: seq<Entry<V>>) {
    forall i, j :: 0 <= i < j < |es| ==> TextLeq(es[i].key, es[j].key)
  }

  function Insert<V>(e: Entry<V>, es: seq<Entry<V>>): seq<Entry<V>> {
    if es == [] then [e]
    else if TextLeq(e.key, es[0].key) then [e] + es
    else [es[0]] + Insert(e, es[1..])
  }

  /** `keys.sort()`, each key carrying what is stored under it. */
  function SortByKey<V>(es: seq<Entry<V>>): seq<Entry<V>> {
    if es == [] then [] else Insert(es[0], SortByKey(es[1..]))
  }

  lemma {:induction false} InsertIsSortedPermutation<V>(e: Entry<V>, es: seq<Entry<V>>)
    requires SortedByKey(es)
    ensures SortedByKey(Insert(e, es))
    ensures multiset(Insert(e, es)) == multiset{e} + multiset(es)
  {
    if es == [] {
    } else if TextLeq(e.key, es[0].key) {
      forall j | 0 <= j < |es| ensures TextLeq(e.key, es[j].key) {
        if j > 0 { TextLeqTransitive(e.key, es[0].key, es[j].key); }
      }
    } else {
      InsertIsSortedPermutation(e, es[1..]);
      assert es == [es[0]] + es[1..];
      TextLeqTotal(e.key, es[0].key);
      PrependKeepsSorted(e, es[0], es[1..], Insert(e, es[1..]));
    }
  }

  lemma PrependKeepsSorted<V>(e: Entry<V>, first: Entry<V>, others: seq<Entry<V>>, rest: seq<Entry<V>>)
    requires SortedByKey([first] + others) && SortedByKey(rest)
    requires multiset(rest) == multiset{e} + multiset(others)
    requires TextLeq(first.key, e.key)
    ensures SortedByKey([first] + rest)
  {
    var all := [first] + others;
    forall j | 0 <= j < |rest| ensures TextLeq(first.key, rest[j].key) {
      assert rest[j] in multiset(rest);
      if rest[j] != e {
        var k :| 0 <= k < |others| && others[k] == rest[j];
        assert all[0] == first && all[k + 1] == rest[j];
      }
    }
  }

  lemma {:induction false} SortIsSortedPermutation<V>(es: seq<Entry<V>>)
    ensures SortedByKey(SortByKey(es))
    ensures multiset(SortByKey(es)) == multiset(es)
    ensures |SortByKey(es)| == |es|
  {
    if es != [] {
      SortIsSortedPermutation(es[1..]);
      InsertIsSortedPermutation(es[0], SortByKey(es[1..]));
      assert es == [es[0]] + es[1..];
    }
    assert |multiset(SortByKey(es))| == |multiset(es)|;
  }

  lemma SameElements<V>(a: seq<Entry<V>>, b: seq<Entry<V>>)
    requires multiset(a) == multiset(b)
    ensures forall e :: e in a <==> e in b
  {
    forall e ensures e in a <==> e in b {
      assert e in a <==> e in multiset(a);
      assert e in b <==> e in multiset(b);
    }
  }

  lemma SortKeepsElements<V>(es: seq<Entry<V>>)
    ensures forall e :: e in SortByKey(es) <==> e in es
  {
    SortIsSortedPermutation(es);
    SameElements(SortByKey(es), es);
  }

  /** Sorting neither loses nor repeats a key. */
  lemma {:induction false} SortKeepsDistinct<V>(es: seq<Entry<V>>)
    requires DistinctKeys(es)
    ensures DistinctKeys(SortByKey(es))
  {
    if es != [] {
      SortKeepsDistinct(es[1..]);
      SortIsSortedPermutation(es[1..]);
      var rest := SortByKey(es[1..]);
      forall i | 0 <= i < |rest| ensures rest[i].key != es[0].key {
        assert rest[i] in multiset(rest);
        var j :| 0 <= j < |es[1..]| && es[1..][j] == rest[i];
        assert es[j + 1] == rest[i];
      }
      InsertKeepsDistinct(es[0], rest);
    }
  }

  lemma {:induction false} InsertKeepsDistinct<V>(e: Entry<V>, es: seq<Entry<V>>)
    requires DistinctKeys(es) && forall i :: 0 <= i < |es| ==> es[i].key != e.key
    ensures DistinctKeys(Insert(e, es))
    ensures forall x :: x in Insert(e, es) ==> x == e || x in es
  {
    if es != [] && !TextLeq(e.key, es[0].key) {
      InsertKeepsDistinct(e, es[1..]);
      var rest := Insert(e, es[1..]);
      forall j | 0 <= j < |rest| ensures rest[j].key != es[0].key {
        assert rest[j] in rest;
        assert rest[j] == e || rest[j] in es[1..];
      }
    }
  }

  /** A sorted listing without repeated keys is determined by its elements. */
  lemma {:induction false} SortedListingUnique<V>(a: seq<Entry<V>>, b: seq<Entry<V>>)
    requires SortedByKey(a) && SortedByKey(b) && DistinctKeys(a) && DistinctKeys(b)
    requires forall e :: e in a <==> e in b
    ensures a == b
  {
    assert a == [] || a[0] in a;
    assert b == [] || b[0] in b;
    if a != [] {
      HeadsAgree(a, b);
      forall e ensures e in a[1..] <==> e in b[1..] {
        TailElement(a, e);
        TailElement(b, e);
      }
      SortedListingUnique(a[1..], b[1..]);
      assert a == [a[0]] + a[1..] && b == [b[0]] + b[1..];
    }
  }

  /** Sorting a sorted listing changes nothing. */
  lemma SortAgain<V>(es: seq<Entry<V>>)
    requires DistinctKeys(es)
    ensures SortByKey(SortByKey(es)) == SortByKey(es)
  {
    hide SortByKey, SortedByKey, DistinctKeys;
    var sorted := SortByKey(es);
    SortKeepsDistinct(es);
    SortKeepsDistinct(sorted);
    SortIsSortedPermutation(es);
    SortIsSortedPermutation(sorted);
    SortKeepsElements(sorted);
    SortedListingUnique(SortByKey(sorted), sorted);
  }

  lemma HeadsAgree<V>(a: seq<Entry<V>>, b: seq<Entry<V>>)
    requires SortedByKey(a) && SortedByKey(b) && DistinctKeys(a) && DistinctKeys(b)
    requires a != [] && b != [] && a[0] in b && b[0] in a
    ensures a[0] == b[0]
  {
    var i :| 0 <= i < |b| && b[i] == a[0];
    var j :| 0 <= j < |a| && a[j] == b[0];
    if i != 0 && j != 0 {
      TextLeqTotal(a[0].key, b[0].key);
    }
  }

  lemma TailElement<V>(a: seq<Entry<V>>, e: Entry<V>)
    requires a != [] && DistinctKeys(a)
    ensures e in a[1..] <==> e in a && e != a[0]
  {
    assert a == [a[0]] + a[1..];
    if e in a[1..] {
      var i :| 0 <= i < |a[1..]| && a[1..][i] == e;
      assert a[i + 1] == e;
    }
  }

  function MapEntries<A, B>(f: A -> B, es: seq<Entry<A>>): (r: seq<Entry<B>>)
    ensures |r| == |es|
    ensures forall i :: 0 <= i < |es| ==> r[i] == Entry(es[i].key, f(es[i].value))
  {
    if es == [] then [] else [Entry(es[0].key, f(es[0].value))] + MapEntries(f, es[1..])
  }

  /** Sorting looks at keys only, so it commutes with changing what the keys carry. */
  lemma {:induction false} SortCommutesWithMap<A, B>(f: A -> B, es: seq<Entry<A>>)
    ensures SortByKey(MapEntries(f, es)) == MapEntries(f, SortByKey(es))
  {
    if es != [] {
      SortCommutesWithMap(f, es[1..]);
      InsertCommutesWithMap(f, es[0], SortByKey(es[1..]));
      assert MapEntries(f, es)[1..] == MapEntries(f, es[1..]);
    }
  }

  lemma {:induction false} InsertCommutesWithMap<A, B>(f: A -> B, e: Entry<A>, es: seq<Entry<A>>)
    ensures Insert(Entry(e.key, f(e.value)), MapEntries(f, es)) == MapEntries(f, Insert(e, es))
  {
    if es != [] {
      assert MapEntries(f, es)[1..] == MapEntries(f, es[1..]);
      if TextLeq(e.key, es[0].key) {
        assert ([e] + es)[1..] == es;
      } else {
        InsertCommutesWithMap(f, e, es[1..]);
        assert ([es[0]] + Insert(e, es[1..]))[1..] == Insert(e, es[1..]);
      }
    }
  }
}
