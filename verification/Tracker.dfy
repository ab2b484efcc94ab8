/**
 * The lab's tracker: the swarm of a torrent, what an announce is answered with, and a scrape
 * body put together by hand around the encoder (`server.js`).
 */
module Tracker {
  import opened Options
  import opened Decimal
  import opened KeyOrder
  import opened Bencode

  const ANNOUNCE_INTERVAL := 30
  const PEER_TIMEOUT: int := 60 * 60 * 1000
  const HASH_LENGTH := 20

  function Text(s: string): (r: Bytes)
    ensures |r| == |s|
  {
    seq(|s|, i requires 0 <= i < |s| => (s[i] as int) % 256)
  }

  // ------------------------------------------------------------------------ the scrape

  datatype Counts = Counts(complete: nat, incomplete: nat)

  function Stats(c: Counts): Value {
    Dictionary([
      Keyed(Text("complete"), Integer(c.complete)),
      Keyed(Text("downloaded"), Integer(c.complete)),
      Keyed(Text("incomplete"), Integer(c.incomplete))])
  }

  /** What a scrape answers, as the dictionary it stands for. */
  function ScrapeAnswer(hash: Bytes, c: Counts): Value {
    Dictionary([Keyed(Text("files"), Dictionary(if |hash| == HASH_LENGTH then [Keyed(hash, Stats(c))] else []))])
  }

  /** The body as the server assembles it: the key of `files` is bytes, which no object can hold. */
  function ScrapeBody(hash: Bytes, c: Counts): Bytes {
    if |hash| == HASH_LENGTH then
      Text("d5:filesd") + Encode(ByteString(hash)) + Encode(Stats(c)) + Text("ee")
    else Text("d5:filesdee")
  }

  lemma EncodedOne(key: Bytes, v: Value)
    ensures Encode(Dictionary([Keyed(key, v)])) == [DICT] + EncodeBytes(key) + Encode(v) + [END]
  {
    var entries := [Keyed(key, v)];
    assert entries[1..] == [];
    assert EncodedEntries(entries) == [Keyed(key, Encode(v))];
    var encoded := [Keyed(key, Encode(v))];
    assert encoded[1..] == [];
    assert Sorted(encoded) == encoded;
    assert Joined(encoded) == EncodeBytes(key) + Encode(v) + [] by { assert Joined(encoded[1..]) == []; }
    assert EncodeBytes(key) + Encode(v) + [] == EncodeBytes(key) + Encode(v);
  }

  lemma FilesIsFive()
    ensures EncodeBytes(Text("files")) == Text("5:files")
  {
    assert Digits(5) == [53];
  }

  lemma ByHand(files: Bytes, h: Bytes, s: Bytes)
    ensures [DICT] + files + ([DICT] + h + s + [END]) + [END] == ([DICT] + files + [DICT]) + h + s + [END, END]
  {
  }

  lemma TheTexts()
    ensures Text("d5:filesd") == [DICT] + Text("5:files") + [DICT] && Text("ee") == [END, END]
    ensures Text("d5:filesdee") == [DICT] + Text("5:files") + [DICT, END] + [END]
  {
  }

  lemma EncodedNone()
    ensures Encode(Dictionary([])) == [DICT, END]
  {
    assert EncodedEntries([]) == [];
    assert Sorted<Bytes>([]) == [];
    assert Joined([]) == [];
  }

  /** The bytes put together by hand are the encoding of the nested dictionary. */
  lemma ScrapeBodyIsEncoded(hash: Bytes, c: Counts)
    ensures ScrapeBody(hash, c) == Encode(ScrapeAnswer(hash, c))
  {
    FilesIsFive();
    TheTexts();
    if |hash| == HASH_LENGTH {
      EncodedOne(Text("files"), Dictionary([Keyed(hash, Stats(c))]));
      EncodedOne(hash, Stats(c));
      ByHand(Text("5:files"), EncodeBytes(hash), Encode(Stats(c)));
    } else {
      EncodedOne(Text("files"), Dictionary([]));
      EncodedNone();
    }
  }

  lemma StatsAreWellFormed(c: Counts)
    ensures WellFormed(Stats(c)) && Canonical(Stats(c)) == Stats(c)
  {
    var a, b, d := Text("complete"), Text("downloaded"), Text("incomplete");
    assert Less(a, b) && Less(b, d) by { assert a[0] == 99 && b[0] == 100 && d[0] == 105; }
    var entries := Stats(c).entries;
    assert entries[1..] == [entries[1], entries[2]] && entries[1..][1..] == [entries[2]] && entries[2..][1..] == [];
    assert entries[1..][1..] == entries[2..];
    assert CanonicalEntries(entries[2..]) == entries[2..];
    assert CanonicalEntries(entries[1..]) == entries[1..];
    assert CanonicalEntries(entries) == entries;
    assert Ascending(entries[2..]) && Ascending(entries[1..]) && Ascending(entries);
    AscendingIsSorted(entries);
  }

  /** A client reads the scrape back as that dictionary, whatever follows it. */
  lemma ScrapeBodyDecodes(hash: Bytes, c: Counts, rest: Bytes)
    ensures Decode(ScrapeBody(hash, c) + rest) == Some((ScrapeAnswer(hash, c), rest))
  {
    var answer := ScrapeAnswer(hash, c);
    ScrapeBodyIsEncoded(hash, c);
    StatsAreWellFormed(c);
    var files := answer.entries[0].value;
    assert answer.entries[1..] == [];
    if |hash| == HASH_LENGTH {
      assert files.entries[1..] == [];
      assert CanonicalEntries(files.entries) == files.entries;
      assert Sorted(files.entries) == files.entries;
    }
    assert Canonical(files) == files && WellFormed(files);
    assert CanonicalEntries(answer.entries) == answer.entries;
    assert Canonical(answer) == answer && WellFormed(answer);
    RoundTrip(answer, rest);
  }
}
