/**
 * What an announce is answered with (`announceReply`), down to the bytes, and the raw
 * info hash it is asked about (`decodeBytes`).
 */
module Announcing {
  import opened Options
  import opened Decimal
  import opened KeyOrder
  import opened Bencode
  import opened OrderedMaps
  import opened Sizes
  import opened Tracker
  import opened Swarms

  function Others(swarm: Swarm, self: Address): (r: seq<Address>)
    ensures forall a :: a in r <==> a != self && exists e | e in swarm :: e.key == a
  {
    if swarm == [] then []
    else
      var last := swarm[|swarm| - 1];
      var before := Others(swarm[..|swarm| - 1], self);
      assert forall e :: e in swarm <==> e in swarm[..|swarm| - 1] || e == last;
      if last.key == self then before else before + [last.key]
  }

  function Complete(swarm: Swarm): (n: nat)
    ensures n <= |swarm|
  {
    if swarm == [] then 0
    else Complete(swarm[..|swarm| - 1]) + if swarm[|swarm| - 1].value.left == 0 then 1 else 0
  }

  /** A peer is complete when it has nothing left to fetch. */
  lemma {:induction false} CompleteAreTheSeeds(swarm: Swarm)
    ensures Complete(swarm) == |set i | 0 <= i < |swarm| && swarm[i].value.left == 0|
  {
    if swarm != [] {
      var n := |swarm| - 1;
      CompleteAreTheSeeds(swarm[..n]);
      var before := set i | 0 <= i < n && swarm[..n][i].value.left == 0;
      var seeds := set i | 0 <= i < |swarm| && swarm[i].value.left == 0;
      assert seeds == before + if swarm[n].value.left == 0 then {n} else {};
    }
  }

  // ------------------------------------------------------------------- the compact form

  /** Four octets, and the port with its high byte first. */
  function Six(p: Address): (r: Bytes)
    requires p.port < 65536
    ensures |r| == 6
  {
    [p.a, p.b, p.c, p.d, p.port / 256, p.port % 256]
  }

  function Packed(peers: seq<Address>): Bytes
    requires forall a | a in peers :: a.port < 65536
  {
    if peers == [] then [] else Six(peers[0]) + Packed(peers[1..])
  }

  function Unpacked(bytes: Bytes): Option<seq<Address>> {
    if bytes == [] then Some([])
    else if |bytes| < 6 then None
    else
      var rest := Unpacked(bytes[6..]);
      if rest.None? then None
      else Some([Address(bytes[0], bytes[1], bytes[2], bytes[3], bytes[4] as int * 256 + bytes[5] as int)] + rest.value)
  }

  lemma SixReadsBack(p: Address, rest: Bytes)
    requires p.port < 65536
    ensures
      var others := Unpacked(rest);
      Unpacked(Six(p) + rest) == if others.Some? then Some([p] + others.value) else None
  {
    var bytes := Six(p) + rest;
    assert bytes[6..] == rest;
    assert bytes[0] == p.a && bytes[1] == p.b && bytes[2] == p.c && bytes[3] == p.d;
    assert bytes[4] as int * 256 + bytes[5] as int == p.port;
  }

  /** A client reads the peers back, each from its six bytes. */
  lemma {:induction false} PackedReadsBack(peers: seq<Address>)
    requires forall a | a in peers :: a.port < 65536
    ensures |Packed(peers)| == 6 * |peers| && Unpacked(Packed(peers)) == Some(peers)
  {
    if peers != [] {
      PackedReadsBack(peers[1..]);
      SixReadsBack(peers[0], Packed(peers[1..]));
      assert peers == [peers[0]] + peers[1..];
    }
  }

  // ------------------------------------------------------------------------- the answer

  function Decimals(b: Byte): Bytes { Digits(b) }

  function Dotted(a: Address): Bytes {
    Decimals(a.a) + Text(".") + Decimals(a.b) + Text(".") + Decimals(a.c) + Text(".") + Decimals(a.d)
  }

  function Spelled(peers: seq<Address>): seq<Value> {
    if peers == [] then []
    else
      [Dictionary([Keyed(Text("ip"), ByteString(Dotted(peers[0]))), Keyed(Text("port"), Integer(peers[0].port))])]
      + Spelled(peers[1..])
  }

  function Failure(why: string): Value {
    Dictionary([Keyed(Text("failure reason"), ByteString(Text(why)))])
  }

  function Reply(swarm: Swarm, self: Address, compact: bool): Value
    requires forall e | e in swarm :: e.key.port < 65536
  {
    var others, complete := Others(swarm, self), Complete(swarm);
    Dictionary([
      Keyed(Text("interval"), Integer(ANNOUNCE_INTERVAL)),
      Keyed(Text("min interval"), Integer(ANNOUNCE_INTERVAL)),
      Keyed(Text("complete"), Integer(complete)),
      Keyed(Text("incomplete"), Integer(|swarm| - complete)),
      Keyed(Text("peers"), if compact then ByteString(Packed(others)) else List(Spelled(others)))])
  }

  lemma {:induction false} SpelledIsWellFormed(peers: seq<Address>)
    ensures forall i | 0 <= i < |Spelled(peers)| :: WellFormed(Spelled(peers)[i])
  {
    if peers != [] {
      SpelledIsWellFormed(peers[1..]);
      assert Text("ip") != Text("port") by { assert |Text("ip")| != |Text("port")|; }
      var first := Spelled(peers)[0];
      assert WellFormed(first.entries[0].value) && WellFormed(first.entries[1].value);
    }
  }

  function ReplyKeys(): seq<Bytes> {
    [Text("interval"), Text("min interval"), Text("complete"), Text("incomplete"), Text("peers")]
  }

  lemma ReplyKeysDiffer()
    ensures forall i, j | 0 <= i < j < |ReplyKeys()| :: ReplyKeys()[i] != ReplyKeys()[j]
  {
    assert Text("interval")[0] == 105 && Text("complete")[0] == 99;
  }

  /** Whatever the swarm, a client reads the answer back, its keys in order. */
  lemma ReplyDecodes(swarm: Swarm, self: Address, compact: bool, rest: Bytes)
    requires forall e | e in swarm :: e.key.port < 65536
    ensures Decode(Encode(Reply(swarm, self, compact)) + rest) == Some((Canonical(Reply(swarm, self, compact)), rest))
  {
    var reply := Reply(swarm, self, compact);
    ReplyKeysDiffer();
    SpelledIsWellFormed(Others(swarm, self));
    var entries := reply.entries;
    forall i | 0 <= i < |entries|
      ensures entries[i].key == ReplyKeys()[i] && WellFormed(entries[i].value)
    {
    }
    RoundTrip(reply, rest);
  }

  // --------------------------------------------------------------------- the info hash

  predicate IsHex(c: char) {
    '0' <= c <= '9' || 'a' <= c <= 'f' || 'A' <= c <= 'F'
  }

  function HexValue(c: char): nat
    requires IsHex(c)
  {
    if '0' <= c <= '9' then (c - '0') as int
    else if 'a' <= c <= 'f' then (c - 'a') as int + 10
    else (c - 'A') as int + 10
  }

  /** An escape that is one: two digits after the sign. */
  predicate Escapes(value: string, i: nat) {
    i + 2 < |value| && value[i] == '%' && IsHex(value[i + 1]) && IsHex(value[i + 2])
  }

  /** A request line holds Latin-1 characters, and these are the blank ones. */
  predicate IsBlank(c: char) {
    '\t' <= c <= '\r' || c == ' ' || c as int == 0xA0
  }

  function LeadingDigits(s: string, read: nat): nat {
    if s == "" || !IsHex(s[0]) then read else LeadingDigits(s[1..], read * 16 + HexValue(s[0]))
  }

  /**
   * What follows a percent sign, read as `parseInt` reads it: past blanks and a sign, up to
   * the first character that is no digit. No number at all is stored as zero, as is the `0x`
   * that `parseInt` takes for a prefix.
   */
  function HexRead(s: string): int {
    if s == "" then 0
    else if IsBlank(s[0]) then HexRead(s[1..])
    else if s[0] == '-' then 0 - LeadingDigits(s[1..], 0)
    else if s[0] == '+' then LeadingDigits(s[1..], 0)
    else LeadingDigits(s, 0)
  }

  /** A percent sign takes the two characters after it along, or as many as there are. */
  function Decoded(value: string): Bytes {
    if value == "" then []
    else if value[0] == '%' then
      var end := Min(3, |value|);
      [HexRead(value[1..end]) % 256] + Decoded(value[end..])
    else [if value[0] == '+' then 32 else (value[0] as int) % 256] + Decoded(value[1..])
  }

  /** One character, or one escape, more. */
  lemma DecodedFrom(value: string, i: nat)
    requires i < |value|
    ensures
      if value[i] == '%' then
        var end := Min(i + 3, |value|);
        Decoded(value[i..]) == [HexRead(value[i + 1..end]) % 256] + Decoded(value[end..])
      else Decoded(value[i..]) == [if value[i] == '+' then 32 else (value[i] as int) % 256] + Decoded(value[i + 1..])
  {
    var rest := value[i..];
    assert rest[0] == value[i] && rest[1..] == value[i + 1..];
    if rest[0] == '%' {
      var end := Min(3, |rest|);
      assert rest[1..end] == value[i + 1..i + end] && rest[end..] == value[i + end..];
    }
  }

  method DecodeBytes(value: string) returns (bytes: Bytes)
    ensures bytes == Decoded(value)
  {
    bytes := [];
    var index := 0;
    while index < |value|
      invariant 0 <= index
      invariant bytes + Decoded(value[Min(index, |value|)..]) == Decoded(value)
      decreases |value| - index
    {
      DecodedFrom(value, index);
      var character := value[index];
      ghost var before := bytes;
      if character == '%' {
        bytes := bytes + [HexRead(value[index + 1..Min(index + 3, |value|)]) % 256];
        index := index + 2;
      } else if character == '+' {
        bytes := bytes + [32];
      } else {
        bytes := bytes + [(character as int) % 256];
      }
      index := index + 1;
      Shifted(before, bytes[|before|], Decoded(value[Min(index, |value|)..]));
    }
  }

  /** Two digits are the byte they write. */
  lemma TwoDigits(piece: string)
    requires |piece| == 3 && Escapes(piece, 0)
    ensures HexRead(piece[1..3]) == HexValue(piece[1]) * 16 + HexValue(piece[2]) < 256
  {
    var s := piece[1..3];
    assert s[0] == piece[1] && s[1..] == [piece[2]] && [piece[2]][1..] == "";
    assert LeadingDigits(s, 0) == LeadingDigits([piece[2]], HexValue(piece[1]));
    assert LeadingDigits([piece[2]], HexValue(piece[1])) ==
        LeadingDigits("", HexValue(piece[1]) * 16 + HexValue(piece[2]));
  }

  lemma Shifted(before: Bytes, b: Byte, after: Bytes)
    ensures before + ([b] + after) == (before + [b]) + after
  {
  }

  /** One way a client may spell a byte: as itself, as a plus for a space, or escaped in either case. */
  predicate Spells(piece: string, b: Byte) {
    || (|piece| == 1 && piece[0] != '%' && piece[0] != '+' && piece[0] as int == b)
    || (piece == "+" && b == 32)
    || (|piece| == 3 && Escapes(piece, 0) && HexValue(piece[1]) * 16 + HexValue(piece[2]) == b)
  }

  function Concatenated(pieces: seq<string>): string {
    if pieces == [] then "" else pieces[0] + Concatenated(pieces[1..])
  }

  /** However a client spells each byte, the tracker reads the hash it meant. */
  lemma {:induction false} AnySpellingDecodes(pieces: seq<string>, bytes: Bytes)
    requires |pieces| == |bytes| && forall i | 0 <= i < |pieces| :: Spells(pieces[i], bytes[i])
    ensures Decoded(Concatenated(pieces)) == bytes
  {
    if pieces != [] {
      AnySpellingDecodes(pieces[1..], bytes[1..]);
      var rest, text := Concatenated(pieces[1..]), Concatenated(pieces);
      assert text == pieces[0] + rest && Spells(pieces[0], bytes[0]);
      assert text[|pieces[0]|..] == rest;
      if |pieces[0]| == 3 {
        TwoDigits(pieces[0]);
        assert text[1..3] == pieces[0][1..3];
      }
      assert bytes == [bytes[0]] + bytes[1..];
    }
  }

  // -------------------------------------------------------------------------- the server

  class Server {
    var peers: Peers

    constructor ()
      ensures peers == map[]
    {
      peers := map[];
    }

    /** The swarm of a torrent, without the peers not heard from for too long. */
    method PeersFor(hash: Hash, now: int) returns (swarm: Swarm)
      modifies this
      ensures swarm == Pruned(SwarmOf(old(peers), hash), now)
      ensures peers == old(peers)[hash := swarm]
    {
      if hash !in peers {
        peers := peers[hash := []];
      }
      var held := peers[hash];
      swarm := [];
      assert held[0..] == held;
      for i := 0 to |held|
        invariant swarm + Pruned(held[i..], now) == Pruned(held, now)
      {
        assert held[i..][0] == held[i] && held[i..][1..] == held[i + 1..];
        if held[i].value.seen >= now - PEER_TIMEOUT {
          swarm := swarm + [held[i]];
        }
      }
      peers := peers[hash := swarm];
    }

    /** Answer an announce, and keep what it says. */
    method AnnounceReply(e: Event, compact: bool) returns (body: Bytes)
      requires e.Announce?
      requires forall hash, x | hash in peers && x in peers[hash] :: x.key.port < 65536
      modifies this
      ensures peers == Swarms.Next(old(peers), e)
      ensures forall hash, x | hash in peers && x in peers[hash] :: x.key.port < 65536
      ensures Accepted(e) ==> forall x | x in Answering(old(peers), e) :: x.key.port < 65536
      ensures
        body ==
          if |e.hash| != HASH_LENGTH then Encode(Failure("info_hash must be twenty bytes"))
          else if e.from.port <= 0 || e.from.port > 65535 then Encode(Failure("port is missing or out of range"))
          else Encode(Reply(Answering(old(peers), e), e.from, compact))
    {
      if |e.hash| != HASH_LENGTH {
        return Encode(Failure("info_hash must be twenty bytes"));
      }
      if e.from.port <= 0 || e.from.port > 65535 {
        return Encode(Failure("port is missing or out of range"));
      }
      InSwarm(peers, e);
      var swarm := PeersFor(e.hash, e.now);
      swarm := if e.what.Stopped? then Without(swarm, e.from) else SetIn(swarm, e.from, Peer(e.left, e.now));
      peers := peers[e.hash := swarm];
      body := Encode(Reply(swarm, e.from, compact));
    }

    /** Answer a scrape. */
    method ScrapeReply(hash: Hash, now: int) returns (body: Bytes)
      modifies this
      ensures peers == Swarms.Next(old(peers), Scrape(hash, now))
      ensures
        var swarm := if |hash| == HASH_LENGTH then Answering(old(peers), Scrape(hash, now)) else [];
        body == Encode(ScrapeAnswer(hash, Counts(Complete(swarm), |swarm| - Complete(swarm))))
    {
      var swarm: Swarm := [];
      if |hash| == HASH_LENGTH {
        swarm := PeersFor(hash, now);
      }
      var counts := Counts(Complete(swarm), |swarm| - Complete(swarm));
      ScrapeBodyIsEncoded(hash, counts);
      body := ScrapeBody(hash, counts);
    }
  }

  lemma {:induction false} PrunedOf(swarm: Swarm, now: int)
    ensures forall e | e in Pruned(swarm, now) :: e in swarm
  {
    if swarm != [] {
      PrunedOf(swarm[1..], now);
    }
  }

  lemma {:induction false} SetOf(swarm: Swarm, key: Address, peer: Peer)
    ensures forall e | e in SetIn(swarm, key, peer) :: e == Entry(key, peer) || e in swarm
  {
    if swarm != [] {
      SetOf(swarm[1..], key, peer);
    }
  }

  /** Ports stay ports. */
  lemma InSwarm(peers: Peers, e: Event)
    requires Accepted(e) && forall hash, x | hash in peers && x in peers[hash] :: x.key.port < 65536
    ensures forall x | x in Answering(peers, e) :: x.key.port < 65536
  {
    var swarm := SwarmOf(peers, e.hash);
    PrunedOf(swarm, e.now);
    if e.Announce? {
      SetOf(Pruned(swarm, e.now), e.from, Peer(e.left, e.now));
      InWithout(Pruned(swarm, e.now), e.from);
    }
  }
}
