/**
 * Maps that keep the order their keys were set in, as JavaScript's do, and what is left of
 * one that is trimmed from its oldest end: its most recently set keys.
 */
module OrderedMaps {
  import opened Options

  datatype Entry<+K, +V> = Entry(key: K, value: V)

  function Find<K(==), V>(m: seq<Entry<K, V>>, key: K): (r: Option<V>)
    ensures r.Some? ==> Entry(key, r.value) in m
    ensures r.None? <==> forall e | e in m :: e.key != key
  {
    if m == [] then None else if m[0].key == key then Some(m[0].value) else Find(m[1..], key)
  }

  function Without<K(==), V>(m: seq<Entry<K, V>>, key: K): seq<Entry<K, V>> {
    if m == [] then []
    else (if m[0].key == key then [] else [m[0]]) + Without(m[1..], key)
  }

  /** Deleted first, so the key goes to the back. */
  function Put<K(==), V>(m: seq<Entry<K, V>>, key: K, value: V): seq<Entry<K, V>> {
    Without(m, key) + [Entry(key, value)]
  }

  function Trimmed<T>(m: seq<T>, kept: nat): seq<T> {
    if |m| > kept then m[|m| - kept..] else m
  }

  function Keys<K, V>(m: seq<Entry<K, V>>): (r: seq<K>)
    ensures |r| == |m| && forall i | 0 <= i < |r| :: r[i] == m[i].key
  {
    seq(|m|, i requires 0 <= i < |m| => m[i].key)
  }

  function Dropped<K(==)>(keys: seq<K>, key: K): seq<K> {
    if keys == [] then []
    else (if keys[0] == key then [] else [keys[0]]) + Dropped(keys[1..], key)
  }

  /** The distinct keys of a log, each where it was last set: oldest first. */
  function ByRecency<K(==)>(log: seq<K>): seq<K> {
    if log == [] then [] else Dropped(ByRecency(log[..|log| - 1]), log[|log| - 1]) + [log[|log| - 1]]
  }

  /** The most recently set distinct keys, at most so many. */
  function MostRecent<K(==)>(log: seq<K>, kept: nat): seq<K> {
    Trimmed(ByRecency(log), kept)
  }

  ghost predicate Distinct<K(!new)>(keys: seq<K>) {
    forall i, j | 0 <= i < j < |keys| :: keys[i] != keys[j]
  }

  lemma {:induction false} KeysWithout<K(!new), V>(m: seq<Entry<K, V>>, key: K)
    ensures Keys(Without(m, key)) == Dropped(Keys(m), key)
  {
    if m != [] {
      KeysWithout(m[1..], key);
      assert Keys(m)[1..] == Keys(m[1..]);
      assert Keys(m)[0] == m[0].key;
    }
  }

  lemma {:induction false} DroppedConcat<K(!new)>(a: seq<K>, b: seq<K>, key: K)
    ensures Dropped(a + b, key) == Dropped(a, key) + Dropped(b, key)
  {
    if a == [] {
      assert a + b == b;
    } else {
      assert (a + b)[1..] == a[1..] + b;
      DroppedConcat(a[1..], b, key);
    }
  }

  lemma {:induction false} InDropped<K(!new)>(keys: seq<K>, key: K)
    ensures forall k :: k in Dropped(keys, key) <==> k in keys && k != key
  {
    if keys != [] {
      InDropped(keys[1..], key);
      assert keys == [keys[0]] + keys[1..];
    }
  }

  lemma DistinctTail<K(!new)>(keys: seq<K>)
    requires Distinct(keys) && keys != []
    ensures Distinct(keys[1..]) && keys[0] !in keys[1..]
  {
    assert forall k | 0 <= k < |keys| - 1 :: keys[1..][k] == keys[k + 1];
  }

  lemma {:induction false} DroppedAbsent<K(!new)>(keys: seq<K>, key: K)
    requires key !in keys
    ensures Dropped(keys, key) == keys
  {
    if keys != [] {
      DroppedAbsent(keys[1..], key);
    }
  }

  lemma {:induction false} DroppedDistinct<K(!new)>(keys: seq<K>, key: K)
    requires Distinct(keys)
    ensures Distinct(Dropped(keys, key)) && |Dropped(keys, key)| >= |keys| - 1
  {
    if keys != [] {
      DistinctTail(keys);
      if keys[0] == key {
        DroppedAbsent(keys[1..], key);
      } else {
        DroppedDistinct(keys[1..], key);
        InDropped(keys[1..], key);
      }
    }
  }

  lemma {:induction false} ByRecencyIsDistinct<K(!new)>(log: seq<K>)
    ensures Distinct(ByRecency(log))
    ensures forall k :: k in ByRecency(log) <==> k in log
  {
    if log != [] {
      var before, last := log[..|log| - 1], log[|log| - 1];
      ByRecencyIsDistinct(before);
      DroppedDistinct(ByRecency(before), last);
      InDropped(ByRecency(before), last);
      var rest := Dropped(ByRecency(before), last);
      forall i | 0 <= i < |rest|
        ensures rest[i] != last
      {
        assert rest[i] in rest;
      }
    }
  }

  lemma TrimmedOfLong<K>(a: seq<K>, b: seq<K>, kept: nat)
    requires |b| >= kept
    ensures Trimmed(a + b, kept) == Trimmed(b, kept)
  {
  }

  /** Trimming, setting a key and trimming again is setting it and trimming once. */
  lemma TrimmedAgain<K(!new)>(keys: seq<K>, key: K, kept: nat)
    requires Distinct(keys)
    ensures Trimmed(Dropped(Trimmed(keys, kept), key) + [key], kept) == Trimmed(Dropped(keys, key) + [key], kept)
  {
    if |keys| > kept {
      var n := |keys| - kept;
      var before, short := keys[..n], keys[n..];
      assert keys == before + short;
      DroppedConcat(before, short, key);
      assert Distinct(short);
      DroppedDistinct(short, key);
      var rest := Dropped(short, key) + [key];
      assert Dropped(before, key) + Dropped(short, key) + [key] == Dropped(before, key) + rest;
      TrimmedOfLong(Dropped(before, key), rest, kept);
    }
  }

  lemma KeysOfPut<K(!new), V>(m: seq<Entry<K, V>>, key: K, value: V, kept: nat)
    ensures Keys(Trimmed(Put(m, key, value), kept)) == Trimmed(Dropped(Keys(m), key) + [key], kept)
  {
    KeysWithout(m, key);
    var put := Put(m, key, value);
    assert Keys(put) == Dropped(Keys(m), key) + [key];
    assert Keys(Trimmed(put, kept)) == Trimmed(Keys(put), kept);
  }

  lemma RecencyOneMore<K(!new)>(log: seq<K>, key: K, kept: nat)
    ensures MostRecent(log + [key], kept) == Trimmed(Dropped(MostRecent(log, kept), key) + [key], kept)
  {
    ByRecencyIsDistinct(log);
    assert (log + [key])[..|log|] == log;
    TrimmedAgain(ByRecency(log), key, kept);
  }

  /** An ordered map set with a log of keys, trimmed each time, holds the most recent of them. */
  lemma PutKeepsRecency<K(!new), V>(m: seq<Entry<K, V>>, log: seq<K>, key: K, value: V, kept: nat)
    requires Keys(m) == MostRecent(log, kept)
    ensures Keys(Trimmed(Put(m, key, value), kept)) == MostRecent(log + [key], kept)
  {
    KeysOfPut(m, key, value, kept);
    RecencyOneMore(log, key, kept);
  }

  lemma {:induction false} InWithout<K(!new), V>(m: seq<Entry<K, V>>, key: K)
    ensures forall e | e in Without(m, key) :: e in m && e.key != key
  {
    if m != [] {
      InWithout(m[1..], key);
    }
  }

  lemma FindCons<K(!new), V>(first: Entry<K, V>, rest: seq<Entry<K, V>>, key: K)
    ensures Find([first] + rest, key) == if first.key == key then Some(first.value) else Find(rest, key)
  {
    assert ([first] + rest)[1..] == rest;
  }

  lemma {:induction false} FoundLast<K(!new), V>(m: seq<Entry<K, V>>, key: K, value: V)
    requires forall e | e in m :: e.key != key
    ensures Find(m + [Entry(key, value)], key) == Some(value)
  {
    if m != [] {
      assert (m + [Entry(key, value)])[1..] == m[1..] + [Entry(key, value)];
      FoundLast(m[1..], key, value);
    }
  }

  lemma PutIsFound<K(!new), V>(m: seq<Entry<K, V>>, key: K, value: V, kept: nat)
    requires kept > 0
    ensures Find(Trimmed(Put(m, key, value), kept), key) == Some(value)
  {
    InWithout(m, key);
    var rest := Without(m, key);
    if |rest| + 1 > kept {
      var n := |rest| + 1 - kept;
      assert Put(m, key, value)[n..] == rest[n..] + [Entry(key, value)];
      FoundLast(rest[n..], key, value);
    } else {
      FoundLast(rest, key, value);
    }
  }
}
