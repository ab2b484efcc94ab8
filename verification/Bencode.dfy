/**
 * Bencode (BEP 3, section "bencoding"): the lab's encoder, and the decoder it has no copy
 * of, written here as its specification.
 *
 * A dictionary is what a JavaScript object is: entries in the order they were set, each
 * key once. Keys are byte strings, which is what an ASCII key is.
 */
module Bencode {
  import opened Options
  import opened Decimal
  import opened KeyOrder

  datatype Value =
    | ByteString(bytes: Bytes)
    | Integer(n: int)
    | List(items: seq<Value>)
    | Dictionary(entries: seq<Keyed<Value>>)

  const INT: Byte := 105    // i
  const LIST: Byte := 108   // l
  const DICT: Byte := 100   // d
  const END: Byte := 101    // e
  const COLON: Byte := 58   // :
  const MINUS: Byte := 45   // -

  function EncodeBytes(b: Bytes): Bytes {
    Digits(|b|) + [COLON] + b
  }

  function Signed(n: int): Bytes {
    if n < 0 then [MINUS] + Digits(-n) else Digits(n)
  }

  function Encode(v: Value): Bytes
    decreases v
  {
    match v
    case ByteString(b) => EncodeBytes(b)
    case Integer(n) => [INT] + Signed(n) + [END]
    case List(items) => [LIST] + EncodeItems(items) + [END]
    case Dictionary(entries) => [DICT] + Joined(Sorted(EncodedEntries(entries))) + [END]
  }

  function EncodeItems(items: seq<Value>): Bytes
    decreases items
  {
    if items == [] then [] else Encode(items[0]) + EncodeItems(items[1..])
  }

  function EncodedEntries(entries: seq<Keyed<Value>>): seq<Keyed<Bytes>>
    decreases entries
  {
    if entries == [] then []
    else [Keyed(entries[0].key, Encode(entries[0].value))] + EncodedEntries(entries[1..])
  }

  /** Each key as a byte string, followed by the bytes of its value. */
  function Joined(entries: seq<Keyed<Bytes>>): Bytes {
    if entries == [] then [] else EncodeBytes(entries[0].key) + entries[0].value + Joined(entries[1..])
  }

  /** What an object can be: no key twice, at any depth. */
  ghost predicate WellFormed(v: Value)
    decreases v
  {
    match v
    case ByteString(_) => true
    case Integer(_) => true
    case List(items) => forall i | 0 <= i < |items| :: WellFormed(items[i])
    case Dictionary(entries) =>
      DistinctKeys(entries) && forall i | 0 <= i < |entries| :: WellFormed(entries[i].value)
  }

  /** The same value with every dictionary's entries in the order of their keys. */
  function Canonical(v: Value): Value
    decreases v
  {
    match v
    case ByteString(_) => v
    case Integer(_) => v
    case List(items) => List(CanonicalItems(items))
    case Dictionary(entries) => Dictionary(Sorted(CanonicalEntries(entries)))
  }

  function CanonicalItems(items: seq<Value>): seq<Value>
    decreases items
  {
    if items == [] then [] else [Canonical(items[0])] + CanonicalItems(items[1..])
  }

  function CanonicalEntries(entries: seq<Keyed<Value>>): seq<Keyed<Value>>
    decreases entries
  {
    if entries == [] then []
    else [Keyed(entries[0].key, Canonical(entries[0].value))] + CanonicalEntries(entries[1..])
  }

  // ------------------------------------------------------------------------- the decoder

  type Read<T> = Option<(T, Bytes)>

  function ReadBytes(s: Bytes): (r: Read<Bytes>)
    ensures r.Some? ==> |r.value.1| < |s|
  {
    var length := ReadNat(s);
    if length.None? then None
    else
      var (n, rest) := length.value;
      if rest == [] || rest[0] != COLON || |rest| - 1 < n then None
      else Some((rest[1..n + 1], rest[n + 1..]))
  }

  /** No leading zero, no minus zero. */
  function ReadInt(s: Bytes): (r: Read<int>)
    ensures r.Some? ==> |r.value.1| < |s|
  {
    if s != [] && s[0] == MINUS then
      var magnitude := ReadNat(s[1..]);
      if magnitude.Some? && magnitude.value.0 > 0 then Some((-(magnitude.value.0 as int), magnitude.value.1)) else None
    else
      var magnitude := ReadNat(s);
      if magnitude.Some? then Some((magnitude.value.0 as int, magnitude.value.1)) else None
  }

  function Decode(s: Bytes): (r: Read<Value>)
    ensures r.Some? ==> |r.value.1| < |s|
    decreases |s|, 0
  {
    if s == [] then None
    else if s[0] == INT then
      var n := ReadInt(s[1..]);
      if n.Some? && n.value.1 != [] && n.value.1[0] == END then Some((Integer(n.value.0), n.value.1[1..])) else None
    else if s[0] == LIST then
      var items := DecodeItems(s[1..]);
      if items.Some? then Some((List(items.value.0), items.value.1)) else None
    else if s[0] == DICT then
      var entries := DecodeEntries(s[1..]);
      if entries.Some? && Ascending(entries.value.0) then Some((Dictionary(entries.value.0), entries.value.1)) else None
    else
      var b := ReadBytes(s);
      if b.Some? then Some((ByteString(b.value.0), b.value.1)) else None
  }

  function DecodeItems(s: Bytes): (r: Read<seq<Value>>)
    ensures r.Some? ==> |r.value.1| < |s|
    decreases |s|, 1
  {
    if s == [] then None
    else if s[0] == END then Some(([], s[1..]))
    else
      var first := Decode(s);
      if first.None? then None
      else
        var others := DecodeItems(first.value.1);
        if others.None? then None else Some(([first.value.0] + others.value.0, others.value.1))
  }

  function DecodeEntries(s: Bytes): (r: Read<seq<Keyed<Value>>>)
    ensures r.Some? ==> |r.value.1| < |s|
    decreases |s|, 1
  {
    if s == [] then None
    else if s[0] == END then Some(([], s[1..]))
    else
      var key := ReadBytes(s);
      if key.None? then None
      else
        var value := Decode(key.value.1);
        if value.None? then None
        else
          var others := DecodeEntries(value.value.1);
          if others.None? then None
          else Some(([Keyed(key.value.0, value.value.0)] + others.value.0, others.value.1))
  }

  // ------------------------------------------------------------- reading back what is written

  lemma ReadBytesBack(b: Bytes, rest: Bytes)
    ensures ReadBytes(EncodeBytes(b) + rest) == Some((b, rest))
  {
    var tail := [COLON] + b + rest;
    assert EncodeBytes(b) + rest == Digits(|b|) + tail;
    ReadNatOfDigits(|b|, tail);
    assert tail[1..|b| + 1] == b && tail[|b| + 1..] == rest;
  }

  lemma ReadBytesReads(s: Bytes)
    requires ReadBytes(s).Some?
    ensures s == EncodeBytes(ReadBytes(s).value.0) + ReadBytes(s).value.1
  {
    ReadNatReadsDigits(s);
    var (n, rest) := ReadNat(s).value;
    SplitAtLength(Digits(n), rest, n);
  }

  lemma SplitAtLength(digits: Bytes, rest: Bytes, n: nat)
    requires |rest| > n && rest[0] == COLON
    ensures |rest[1..n + 1]| == n && digits + rest == (digits + [COLON] + rest[1..n + 1]) + rest[n + 1..]
  {
    assert rest == [COLON] + rest[1..n + 1] + rest[n + 1..];
  }

  lemma BeginsWithDigit(n: nat, rest: Bytes)
    ensures IsDigit((Digits(n) + rest)[0])
  {
    var digits := Digits(n);
    assert digits[0] in digits && (digits + rest)[0] == digits[0];
  }

  lemma AfterTheSign(digits: Bytes, rest: Bytes)
    ensures ([MINUS] + digits + rest)[0] == MINUS && ([MINUS] + digits + rest)[1..] == digits + rest
  {
  }

  lemma ReadIntBack(n: int, rest: Bytes)
    requires rest != [] ==> !IsDigit(rest[0])
    ensures ReadInt(Signed(n) + rest) == Some((n, rest))
  {
    if n < 0 {
      AfterTheSign(Digits(-n), rest);
      ReadNatOfDigits(-n, rest);
    } else {
      BeginsWithDigit(n, rest);
      ReadNatOfDigits(n, rest);
    }
  }

  lemma ReadIntReads(s: Bytes)
    requires ReadInt(s).Some?
    ensures s == Signed(ReadInt(s).value.0) + ReadInt(s).value.1
  {
    if s != [] && s[0] == MINUS {
      ReadNatReadsDigits(s[1..]);
      assert s == [MINUS] + s[1..];
    } else {
      ReadNatReadsDigits(s);
    }
  }

  /** Decoding a value's bytes gives the value back and leaves whatever follows untouched. */
  ghost predicate ReadsBack(v: Value) {
    forall rest: Bytes {:trigger Encode(v) + rest} :: Decode(Encode(v) + rest) == Some((Canonical(v), rest))
  }

  /** No value's bytes begin with the byte that closes a list. */
  lemma NeverBeginsWithEnd(v: Value)
    ensures Encode(v) != [] && Encode(v)[0] != END
  {
    if v.ByteString? {
      assert Encode(v)[0] in Digits(|v.bytes|);
    }
  }

  lemma {:induction false} ItemsReadBack(items: seq<Value>, rest: Bytes)
    requires forall v | v in items :: ReadsBack(v)
    ensures DecodeItems(EncodeItems(items) + [END] + rest) == Some((CanonicalItems(items), rest))
  {
    if items == [] {
      assert EncodeItems(items) + [END] + rest == [END] + rest;
    } else {
      var tail := EncodeItems(items[1..]) + [END] + rest;
      assert EncodeItems(items) + [END] + rest == Encode(items[0]) + tail;
      NeverBeginsWithEnd(items[0]);
      assert ReadsBack(items[0]);
      ItemsReadBack(items[1..], rest);
    }
  }

  lemma {:induction false} EntriesReadBack(entries: seq<Keyed<Value>>, rest: Bytes)
    requires forall e | e in entries :: ReadsBack(e.value)
    ensures DecodeEntries(Joined(EncodedEntries(entries)) + [END] + rest) == Some((CanonicalEntries(entries), rest))
  {
    if entries == [] {
      assert Joined(EncodedEntries(entries)) + [END] + rest == [END] + rest;
    } else {
      var e, tail := entries[0], Joined(EncodedEntries(entries[1..])) + [END] + rest;
      var encoded := EncodedEntries(entries);
      assert encoded[1..] == EncodedEntries(entries[1..]);
      assert Joined(encoded) + [END] + rest == EncodeBytes(e.key) + (Encode(e.value) + tail);
      assert EncodeBytes(e.key)[0] in Digits(|e.key|);
      ReadBytesBack(e.key, Encode(e.value) + tail);
      assert ReadsBack(e.value);
      EntriesReadBack(entries[1..], rest);
    }
  }

  lemma {:induction false} EntriesAsMapped(entries: seq<Keyed<Value>>)
    ensures EncodedEntries(entries) == Mapped(Encode, entries)
    ensures CanonicalEntries(entries) == Mapped(Canonical, entries)
  {
    if entries != [] {
      EntriesAsMapped(entries[1..]);
    }
  }

  /** Sorting before or after rewriting the values is the same. */
  lemma SortedEntries(entries: seq<Keyed<Value>>)
    ensures Sorted(EncodedEntries(entries)) == EncodedEntries(Sorted(entries))
    ensures Sorted(CanonicalEntries(entries)) == CanonicalEntries(Sorted(entries))
  {
    EntriesAsMapped(entries);
    EntriesAsMapped(Sorted(entries));
    SortedMapped(Encode, entries);
    SortedMapped(Canonical, entries);
  }

  lemma Bracketed(open: Byte, body: Bytes, rest: Bytes)
    ensures
      var s := [open] + body + [END] + rest;
      s[0] == open && s[1..] == body + [END] + rest
  {
  }

  lemma ByteStringReadsBack(b: Bytes, rest: Bytes)
    ensures Decode(Encode(ByteString(b)) + rest) == Some((ByteString(b), rest))
  {
    var s := EncodeBytes(b) + rest;
    assert s[0] == Digits(|b|)[0] && Digits(|b|)[0] in Digits(|b|);
    ReadBytesBack(b, rest);
  }

  lemma IntegerReadsBack(n: int, rest: Bytes)
    ensures Decode(Encode(Integer(n)) + rest) == Some((Integer(n), rest))
  {
    var s, tail := Encode(Integer(n)) + rest, [END] + rest;
    assert s[0] == INT && s[1..] == Signed(n) + tail;
    ReadIntBack(n, tail);
    assert tail[1..] == rest;
  }

  lemma ListReadsBack(items: seq<Value>, rest: Bytes)
    requires forall v | v in items :: ReadsBack(v)
    ensures Decode(Encode(List(items)) + rest) == Some((Canonical(List(items)), rest))
  {
    ItemsReadBack(items, rest);
    Bracketed(LIST, EncodeItems(items), rest);
  }

  lemma CanonicalEntriesAscend(entries: seq<Keyed<Value>>)
    requires DistinctKeys(entries)
    ensures Ascending(Sorted(CanonicalEntries(entries)))
  {
    EntriesAsMapped(entries);
    SortedAscends(CanonicalEntries(entries));
  }

  lemma DictionaryReadsBack(entries: seq<Keyed<Value>>, rest: Bytes)
    requires DistinctKeys(entries) && forall i | 0 <= i < |entries| :: ReadsBack(entries[i].value)
    ensures Decode(Encode(Dictionary(entries)) + rest) == Some((Canonical(Dictionary(entries)), rest))
  {
    var sorted := Sorted(entries);
    forall e | e in sorted
      ensures ReadsBack(e.value)
    {
      SortedKeepsEntries(entries);
      var i :| 0 <= i < |entries| && entries[i] == e;
    }
    EntriesReadBack(sorted, rest);
    CanonicalEntriesAscend(entries);
    SortedEntries(entries);
    Bracketed(DICT, Joined(Sorted(EncodedEntries(entries))), rest);
  }

  lemma {:induction false} EveryValueReadsBack(v: Value)
    requires WellFormed(v)
    ensures ReadsBack(v)
    decreases v
  {
    match v
    case ByteString(b) =>
      forall rest: Bytes
        ensures Decode(Encode(v) + rest) == Some((Canonical(v), rest))
      {
        ByteStringReadsBack(b, rest);
      }
    case Integer(n) =>
      forall rest: Bytes ensures Decode(Encode(v) + rest) == Some((Canonical(v), rest)) { IntegerReadsBack(n, rest); }
    case List(items) =>
      forall i | 0 <= i < |items| ensures ReadsBack(items[i]) { EveryValueReadsBack(items[i]); }
      forall rest: Bytes ensures Decode(Encode(v) + rest) == Some((Canonical(v), rest)) { ListReadsBack(items, rest); }
    case Dictionary(entries) =>
      forall i | 0 <= i < |entries| ensures ReadsBack(entries[i].value) { EveryValueReadsBack(entries[i].value); }
      forall rest: Bytes
        ensures Decode(Encode(v) + rest) == Some((Canonical(v), rest))
      {
        DictionaryReadsBack(entries, rest);
      }
  }

  /**
   * Round trip: the bytes of any value, whatever follows them, decode to that value with
   * its dictionaries in order, and to exactly what follows.
   */
  lemma RoundTrip(v: Value, rest: Bytes)
    requires WellFormed(v)
    ensures Decode(Encode(v) + rest) == Some((Canonical(v), rest))
  {
    EveryValueReadsBack(v);
  }

  // ------------------------------------------------------ accepting only what is written

  ghost predicate InOrder(v: Value) {
    WellFormed(v) && Canonical(v) == v
  }

  lemma Regrouped(a: Bytes, b: Bytes, c: Bytes, d: Bytes)
    ensures a + (b + c + d) == (a + b + c) + d
  {
  }

  /** Whatever the decoder accepts is, byte for byte, the encoding of what it answers. */
  lemma {:induction false} DecodesOnlyEncodings(s: Bytes)
    requires Decode(s).Some?
    ensures InOrder(Decode(s).value.0) && s == Encode(Decode(s).value.0) + Decode(s).value.1
    decreases |s|, 0
  {
    assert s == [s[0]] + s[1..];
    if s[0] == INT {
      var (n, rest) := ReadInt(s[1..]).value;
      IntegerIsEncoded(s[1..], n, rest);
    } else if s[0] == LIST {
      ItemsAreEncodings(s[1..]);
      var (items, rest) := DecodeItems(s[1..]).value;
      Regrouped([LIST], EncodeItems(items), [END], rest);
    } else if s[0] == DICT {
      EntriesAreEncodings(s[1..]);
      var (entries, rest) := DecodeEntries(s[1..]).value;
      AscendingEntriesAreInOrder(entries);
      Regrouped([DICT], Joined(EncodedEntries(entries)), [END], rest);
    } else {
      ReadBytesReads(s);
    }
  }

  lemma IntegerIsEncoded(s: Bytes, n: int, rest: Bytes)
    requires ReadInt(s) == Some((n, rest)) && rest != [] && rest[0] == END
    ensures [INT] + s == Encode(Integer(n)) + rest[1..]
  {
    ReadIntReads(s);
    assert rest == [END] + rest[1..];
    assert s == Signed(n) + [END] + rest[1..];
    Regrouped([INT], Signed(n), [END], rest[1..]);
  }

  lemma {:induction false} ItemsAreEncodings(s: Bytes)
    requires DecodeItems(s).Some?
    ensures
      var (items, rest) := DecodeItems(s).value;
      (forall i | 0 <= i < |items| :: InOrder(items[i])) && CanonicalItems(items) == items
          && s == EncodeItems(items) + [END] + rest
    decreases |s|, 1
  {
    if s[0] == END {
      assert s == [END] + s[1..];
    } else {
      DecodesOnlyEncodings(s);
      var (first, tail) := Decode(s).value;
      ItemsAreEncodings(tail);
      var (others, rest) := DecodeItems(tail).value;
      OneMoreItem(first, others);
      EntryBytes([], Encode(first), EncodeItems(others), [END], rest);
      assert s == Encode(first) + tail;
      assert [] + Encode(first) == Encode(first);
      assert [] + (Encode(first) + tail) == Encode(first) + tail;
    }
  }

  lemma OneMoreItem(first: Value, others: seq<Value>)
    ensures EncodeItems([first] + others) == Encode(first) + EncodeItems(others)
    ensures CanonicalItems([first] + others) == [Canonical(first)] + CanonicalItems(others)
  {
    assert ([first] + others)[1..] == others;
  }

  lemma {:induction false} EntriesAreEncodings(s: Bytes)
    requires DecodeEntries(s).Some?
    ensures
      var (entries, rest) := DecodeEntries(s).value;
      && (forall i | 0 <= i < |entries| :: InOrder(entries[i].value)) && CanonicalEntries(entries) == entries
      && s == Joined(EncodedEntries(entries)) + [END] + rest
    decreases |s|, 1
  {
    if s[0] == END {
      assert s == [END] + s[1..];
    } else {
      var (key, middle) := ReadBytes(s).value;
      var (value, tail) := Decode(middle).value;
      var (others, rest) := DecodeEntries(tail).value;
      ReadBytesReads(s);
      DecodesOnlyEncodings(middle);
      EntriesAreEncodings(tail);
      OneMoreEntry(Keyed(key, value), others);
      EntryBytes(EncodeBytes(key), Encode(value), Joined(EncodedEntries(others)), [END], rest);
    }
  }

  lemma EntryBytes(k: Bytes, v: Bytes, others: Bytes, end: Bytes, rest: Bytes)
    ensures k + (v + (others + end + rest)) == (k + v + others) + end + rest
  {
  }

  lemma OneMoreEntry(e: Keyed<Value>, others: seq<Keyed<Value>>)
    ensures Joined(EncodedEntries([e] + others)) ==
        EncodeBytes(e.key) + Encode(e.value) + Joined(EncodedEntries(others))
    ensures CanonicalEntries([e] + others) == [Keyed(e.key, Canonical(e.value))] + CanonicalEntries(others)
  {
    assert ([e] + others)[1..] == others;
    assert EncodedEntries([e] + others)[1..] == EncodedEntries(others);
  }

  lemma AscendingEntriesAreInOrder(entries: seq<Keyed<Value>>)
    requires Ascending(entries) && CanonicalEntries(entries) == entries
    requires forall i | 0 <= i < |entries| :: InOrder(entries[i].value)
    ensures InOrder(Dictionary(entries)) && Sorted(EncodedEntries(entries)) == EncodedEntries(entries)
  {
    AscendingIsSorted(entries);
    SortedEntries(entries);
  }

  // ------------------------------------------------------------------- unique decodability

  /** Two values are written the same exactly when they are the same up to the order of keys. */
  lemma SameBytesSameValue(v: Value, w: Value)
    requires WellFormed(v) && WellFormed(w)
    ensures Encode(v) == Encode(w) <==> Canonical(v) == Canonical(w)
  {
    RoundTrip(v, []);
    RoundTrip(w, []);
    assert Encode(v) + [] == Encode(v) && Encode(w) + [] == Encode(w);
    DecodesOnlyEncodings(Encode(v));
    DecodesOnlyEncodings(Encode(w));
  }

  /** No value's bytes are the beginning of another's. */
  lemma NoProperPrefix(v: Value, w: Value)
    requires WellFormed(v) && WellFormed(w)
    ensures !(Encode(v) < Encode(w))
  {
    if Encode(v) <= Encode(w) {
      var rest := Encode(w)[|Encode(v)|..];
      assert Encode(w) == Encode(v) + rest && Encode(w) == Encode(w) + [];
      RoundTrip(v, rest);
      RoundTrip(w, []);
    }
  }

  /** The order an object's keys were set in leaves no trace in its bytes. */
  lemma InsertionOrderIsForgotten(a: seq<Keyed<Value>>, b: seq<Keyed<Value>>)
    requires DistinctKeys(a) && DistinctKeys(b) && multiset(a) == multiset(b)
    ensures Encode(Dictionary(a)) == Encode(Dictionary(b))
  {
    SortedForgetsOrder(a, b);
    SortedEntries(a);
    SortedEntries(b);
  }
}
