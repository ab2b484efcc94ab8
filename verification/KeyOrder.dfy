/** Byte strings in dictionary order, and sorting by them. */
module KeyOrder {
  import opened Decimal
  import opened Permutations

  type Bytes = seq<Byte>

  datatype Keyed<+T> = Keyed(key: Bytes, value: T)

  predicate Less(a: Bytes, b: Bytes) {
    b != [] && (a == [] || a[0] < b[0] || (a[0] == b[0] && Less(a[1..], b[1..])))
  }

  lemma {:induction false} LessIsStrict(a: Bytes, b: Bytes)
    ensures Less(a, b) ==> a != b && !Less(b, a)
    ensures a != b ==> Less(a, b) || Less(b, a)
  {
    if a != [] && b != [] && a[0] == b[0] {
      LessIsStrict(a[1..], b[1..]);
      assert a == [a[0]] + a[1..] && b == [b[0]] + b[1..];
    }
  }

  lemma {:induction false} LessIsTransitive(a: Bytes, b: Bytes, c: Bytes)
    requires Less(a, b) && Less(b, c)
    ensures Less(a, c)
  {
    if a != [] && a[0] == b[0] == c[0] {
      LessIsTransitive(a[1..], b[1..], c[1..]);
    }
  }

  /** Each key strictly after the one before it. */
  predicate Ascending<T>(es: seq<Keyed<T>>) {
    |es| <= 1 || (Less(es[0].key, es[1].key) && Ascending(es[1..]))
  }

  ghost predicate DistinctKeys<T>(es: seq<Keyed<T>>) {
    forall i, j | 0 <= i < j < |es| :: es[i].key != es[j].key
  }

  function Inserted<T>(e: Keyed<T>, es: seq<Keyed<T>>): seq<Keyed<T>> {
    if es == [] || Less(e.key, es[0].key) then [e] + es else [es[0]] + Inserted(e, es[1..])
  }

  /** The entries in the order of their keys. */
  function Sorted<T>(es: seq<Keyed<T>>): seq<Keyed<T>> {
    if es == [] then [] else Inserted(es[0], Sorted(es[1..]))
  }

  lemma {:induction false} InsertedKeepsEntries<T>(e: Keyed<T>, es: seq<Keyed<T>>)
    ensures multiset(Inserted(e, es)) == multiset(es) + multiset{e}
  {
    if es != [] && !Less(e.key, es[0].key) {
      InsertedKeepsEntries(e, es[1..]);
      assert es == [es[0]] + es[1..];
    }
  }

  lemma {:induction false} SortedKeepsEntries<T>(es: seq<Keyed<T>>)
    ensures multiset(Sorted(es)) == multiset(es)
    ensures forall e :: e in Sorted(es) <==> e in es
  {
    if es != [] {
      SortedKeepsEntries(es[1..]);
      InsertedKeepsEntries(es[0], Sorted(es[1..]));
      assert es == [es[0]] + es[1..];
    }
    assert forall e :: e in Sorted(es) <==> e in multiset(Sorted(es));
  }

  lemma {:induction false} InsertedAscends<T>(e: Keyed<T>, es: seq<Keyed<T>>)
    requires Ascending(es) && forall x | x in es :: x.key != e.key
    ensures Ascending(Inserted(e, es))
  {
    if es != [] && !Less(e.key, es[0].key) {
      LessIsStrict(e.key, es[0].key);
      InsertedAscends(e, es[1..]);
      var rest := Inserted(e, es[1..]);
      assert ([es[0]] + rest)[1..] == rest;
      assert rest[0] == e || rest[0] == es[1];
    } else {
      assert ([e] + es)[1..] == es;
    }
  }

  lemma {:induction false} SortedAscends<T>(es: seq<Keyed<T>>)
    requires DistinctKeys(es)
    ensures Ascending(Sorted(es))
  {
    if es != [] {
      SortedAscends(es[1..]);
      SortedKeepsEntries(es[1..]);
      forall x | x in Sorted(es[1..])
        ensures x.key != es[0].key
      {
        assert x in multiset(Sorted(es[1..]));
        assert x in multiset(es[1..]);
        var j :| 0 <= j < |es[1..]| && es[1..][j] == x;
        assert es[j + 1] == x;
      }
      InsertedAscends(es[0], Sorted(es[1..]));
    }
  }

  lemma {:induction false} AscendingFromFirst<T>(es: seq<Keyed<T>>, k: nat)
    requires Ascending(es) && 0 < k < |es|
    ensures Less(es[0].key, es[k].key)
  {
    if k > 1 {
      AscendingFromFirst(es[1..], k - 1);
      LessIsTransitive(es[0].key, es[1].key, es[k].key);
    }
  }

  lemma {:induction false} AscendingIsSorted<T>(es: seq<Keyed<T>>)
    requires Ascending(es)
    ensures Sorted(es) == es && DistinctKeys(es)
  {
    if es != [] {
      AscendingIsSorted(es[1..]);
      forall i, j | 0 <= i < j < |es|
        ensures es[i].key != es[j].key
      {
        if i == 0 {
          AscendingFromFirst(es, j);
          LessIsStrict(es[0].key, es[j].key);
        } else {
          assert es[i] == es[1..][i - 1] && es[j] == es[1..][j - 1];
        }
      }
    }
  }

  lemma SameFirst<T>(a: seq<Keyed<T>>, b: seq<Keyed<T>>)
    requires Ascending(a) && Ascending(b) && a != [] && b != []
    requires a[0] in b && b[0] in a
    ensures a[0] == b[0]
  {
    var i :| 0 <= i < |b| && b[i] == a[0];
    var j :| 0 <= j < |a| && a[j] == b[0];
    if i > 0 && j > 0 {
      AscendingFromFirst(b, i);
      AscendingFromFirst(a, j);
      LessIsStrict(a[0].key, b[0].key);
    }
  }

  /** There is one way to put given entries in order. */
  lemma {:induction false} OneOrder<T>(a: seq<Keyed<T>>, b: seq<Keyed<T>>)
    requires Ascending(a) && Ascending(b) && multiset(a) == multiset(b)
    ensures a == b
  {
    SameElements(a, b);
    if a != [] {
      SameFirst(a, b);
      OneOrder(a[1..], b[1..]);
      assert a == [a[0]] + a[1..] && b == [b[0]] + b[1..];
    }
  }

  lemma SortedForgetsOrder<T>(a: seq<Keyed<T>>, b: seq<Keyed<T>>)
    requires DistinctKeys(a) && DistinctKeys(b) && multiset(a) == multiset(b)
    ensures Sorted(a) == Sorted(b)
  {
    SortedAscends(a);
    SortedAscends(b);
    SortedKeepsEntries(a);
    SortedKeepsEntries(b);
    OneOrder(Sorted(a), Sorted(b));
  }

  /** The same keys with every value replaced. */
  function Mapped<A, B>(f: A -> B, es: seq<Keyed<A>>): (r: seq<Keyed<B>>)
    ensures |r| == |es| && forall i | 0 <= i < |es| :: r[i] == Keyed(es[i].key, f(es[i].value))
  {
    if es == [] then [] else [Keyed(es[0].key, f(es[0].value))] + Mapped(f, es[1..])
  }

  lemma {:induction false} InsertedMapped<A, B>(f: A -> B, e: Keyed<A>, es: seq<Keyed<A>>)
    ensures Inserted(Keyed(e.key, f(e.value)), Mapped(f, es)) == Mapped(f, Inserted(e, es))
  {
    if es != [] && !Less(e.key, es[0].key) {
      InsertedMapped(f, e, es[1..]);
    }
  }

  /** Sorting reads keys and nothing else. */
  lemma {:induction false} SortedMapped<A, B>(f: A -> B, es: seq<Keyed<A>>)
    ensures Sorted(Mapped(f, es)) == Mapped(f, Sorted(es))
  {
    if es != [] {
      SortedMapped(f, es[1..]);
      InsertedMapped(f, es[0], Sorted(es[1..]));
    }
  }
}
