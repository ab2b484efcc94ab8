/**
 * Who is in a swarm (`peersFor`, `announceReply`): the peers whose last word about a torrent
 * was not a goodbye and was said within the hour.
 */
module Swarms {
  import opened Options
  import opened Decimal
  import opened KeyOrder
  import opened Bencode
  import opened OrderedMaps
  import opened Tracker

  /** Four octets and a port. */
  datatype Address = Address(a: Byte, b: Byte, c: Byte, d: Byte, port: nat)

  datatype Peer = Peer(left: int, seen: int)

  type Swarm = seq<Entry<Address, Peer>>

  /** Set where it is, when it is there: a map keeps the place of a key set again. */
  function SetIn(swarm: Swarm, key: Address, peer: Peer): Swarm {
    if swarm == [] then [Entry(key, peer)]
    else if swarm[0].key == key then [Entry(key, peer)] + swarm[1..]
    else [swarm[0]] + SetIn(swarm[1..], key, peer)
  }

  function Pruned(swarm: Swarm, now: int): Swarm {
    if swarm == [] then []
    else (if swarm[0].value.seen < now - PEER_TIMEOUT then [] else [swarm[0]]) + Pruned(swarm[1..], now)
  }

  ghost predicate OncePerPeer(swarm: Swarm) {
    forall i, j | 0 <= i < j < |swarm| :: swarm[i].key != swarm[j].key
  }

  lemma {:induction false} FindSet(swarm: Swarm, key: Address, peer: Peer, other: Address)
    ensures Find(SetIn(swarm, key, peer), other) == if other == key then Some(peer) else Find(swarm, other)
  {
    if swarm != [] {
      FindSet(swarm[1..], key, peer, other);
      if swarm[0].key == key {
        assert SetIn(swarm, key, peer)[1..] == swarm[1..];
      } else {
        assert SetIn(swarm, key, peer)[1..] == SetIn(swarm[1..], key, peer);
      }
    }
  }

  lemma {:induction false} FindGone(swarm: Swarm, key: Address, other: Address)
    ensures Find(Without(swarm, key), other) == if other == key then None else Find(swarm, other)
  {
    if swarm != [] {
      var rest := Without(swarm[1..], key);
      FindGone(swarm[1..], key, other);
      FindCons(swarm[0], rest, other);
      if swarm[0].key == key {
        assert Without(swarm, key) == rest;
      } else {
        assert Without(swarm, key) == [swarm[0]] + rest;
      }
    }
  }

  /** With one entry a peer, pruning is about that entry alone. */
  lemma {:induction false} FindPruned(swarm: Swarm, now: int, key: Address)
    requires OncePerPeer(swarm)
    ensures
      var was := Find(swarm, key);
      Find(Pruned(swarm, now), key) ==
        if was.Some? && was.value.seen >= now - PEER_TIMEOUT then was else None
  {
    if swarm != [] {
      var rest := Pruned(swarm[1..], now);
      assert OncePerPeer(swarm[1..]) && forall e | e in swarm[1..] :: e.key != swarm[0].key by {
        assert forall k | 0 <= k < |swarm| - 1 :: swarm[1..][k] == swarm[k + 1];
      }
      FindPruned(swarm[1..], now, key);
      FindCons(swarm[0], rest, key);
      if swarm[0].value.seen >= now - PEER_TIMEOUT {
        assert Pruned(swarm, now) == [swarm[0]] + rest;
      } else {
        assert Pruned(swarm, now) == rest;
      }
    }
  }

  lemma OnceInTail(swarm: Swarm)
    requires OncePerPeer(swarm) && swarm != []
    ensures OncePerPeer(swarm[1..]) && forall e | e in swarm[1..] :: e.key != swarm[0].key
  {
    assert forall k | 0 <= k < |swarm| - 1 :: swarm[1..][k] == swarm[k + 1];
  }

  lemma OnceWithFirst(first: Entry<Address, Peer>, rest: Swarm)
    requires OncePerPeer(rest) && forall e | e in rest :: e.key != first.key
    ensures OncePerPeer([first] + rest)
  {
    forall k | 0 <= k < |rest|
      ensures rest[k].key != first.key
    {
      assert rest[k] in rest;
    }
  }

  lemma {:induction false} OnceAfterSet(swarm: Swarm, key: Address, peer: Peer)
    requires OncePerPeer(swarm)
    ensures OncePerPeer(SetIn(swarm, key, peer))
    ensures forall e | e in SetIn(swarm, key, peer) :: e.key == key || e in swarm
  {
    if swarm != [] {
      OnceInTail(swarm);
      if swarm[0].key == key {
        OnceWithFirst(Entry(key, peer), swarm[1..]);
      } else {
        OnceAfterSet(swarm[1..], key, peer);
        OnceWithFirst(swarm[0], SetIn(swarm[1..], key, peer));
      }
    }
  }

  lemma {:induction false} OnceAfterDelete(swarm: Swarm, key: Address)
    requires OncePerPeer(swarm)
    ensures OncePerPeer(Without(swarm, key)) && forall e | e in Without(swarm, key) :: e in swarm
  {
    if swarm != [] {
      OnceInTail(swarm);
      OnceAfterDelete(swarm[1..], key);
      if swarm[0].key != key {
        OnceWithFirst(swarm[0], Without(swarm[1..], key));
      }
    }
  }

  lemma {:induction false} OnceAfterPrune(swarm: Swarm, now: int)
    requires OncePerPeer(swarm)
    ensures OncePerPeer(Pruned(swarm, now)) && forall e | e in Pruned(swarm, now) :: e in swarm
  {
    if swarm != [] {
      OnceInTail(swarm);
      OnceAfterPrune(swarm[1..], now);
      if swarm[0].value.seen >= now - PEER_TIMEOUT {
        OnceWithFirst(swarm[0], Pruned(swarm[1..], now));
      }
    }
  }

  // ------------------------------------------------------------------------- the tracker

  type Hash = Bytes
  type Peers = map<Hash, Swarm>

  datatype Happening = Update | Stopped

  datatype Event =
    | Announce(hash: Hash, from: Address, left: int, what: Happening, now: int)
    | Scrape(hash: Hash, now: int)

  function SwarmOf(peers: Peers, hash: Hash): Swarm {
    if hash in peers then peers[hash] else []
  }

  predicate Accepted(e: Event) {
    |e.hash| == HASH_LENGTH && (e.Announce? ==> 0 < e.from.port <= 65535)
  }

  /** The swarm a request is answered from. */
  function Answering(peers: Peers, e: Event): Swarm {
    var swarm := Pruned(SwarmOf(peers, e.hash), e.now);
    match e
    case Announce(_, from, left, what, now) =>
      if what.Stopped? then Without(swarm, from) else SetIn(swarm, from, Peer(left, now))
    case Scrape(_, _) => swarm
  }

  function Next(peers: Peers, e: Event): Peers {
    if Accepted(e) then peers[e.hash := Answering(peers, e)] else peers
  }

  function After(events: seq<Event>): Peers {
    if events == [] then map[] else Next(After(events[..|events| - 1]), events[|events| - 1])
  }

  ghost predicate AllDistinct(peers: Peers) {
    forall hash | hash in peers :: OncePerPeer(peers[hash])
  }

  lemma {:induction false} RunsAreDistinct(events: seq<Event>)
    ensures AllDistinct(After(events))
  {
    if events != [] {
      var before, e := events[..|events| - 1], events[|events| - 1];
      RunsAreDistinct(before);
      var swarm := SwarmOf(After(before), e.hash);
      OnceAfterPrune(swarm, e.now);
      if e.Announce? {
        OnceAfterSet(Pruned(swarm, e.now), e.from, Peer(e.left, e.now));
        OnceAfterDelete(Pruned(swarm, e.now), e.from);
      }
    }
  }

  /** A clock that does not go back. */
  ghost predicate InTime(events: seq<Event>) {
    forall i, j | 0 <= i <= j < |events| :: events[i].now <= events[j].now
  }

  /** The last accepted announce of a peer about a torrent. */
  function LastWord(events: seq<Event>, hash: Hash, peer: Address): (r: Option<Event>)
    ensures r.Some? ==> r.value in events && r.value.Announce? && r.value.hash == hash && r.value.from == peer
  {
    if events == [] then None
    else
      var e := events[|events| - 1];
      if e.Announce? && Accepted(e) && e.hash == hash && e.from == peer then Some(e)
      else LastWord(events[..|events| - 1], hash, peer)
  }

  /** What the last word makes of a peer, by a given time. */
  function Heard(word: Option<Event>, now: int): Option<Peer> {
    if word.Some? && word.value.Announce? && word.value.what.Update? && word.value.now >= now - PEER_TIMEOUT then
      Some(Peer(word.value.left, word.value.now))
    else None
  }

  /** Nothing of the swarm is anything but a last word that was no goodbye. */
  lemma {:induction false} SwarmIsHeard(events: seq<Event>, hash: Hash, peer: Address, now: int)
    requires InTime(events) && (events != [] ==> events[|events| - 1].now <= now)
    ensures
      var held, word := Find(SwarmOf(After(events), hash), peer), LastWord(events, hash, peer);
      && Heard(word, now) == (if held.Some? && held.value.seen >= now - PEER_TIMEOUT then held else None)
      && (held.Some? ==> held == Heard(word, held.value.seen))
  {
    if events != [] {
      var before, e := events[..|events| - 1], events[|events| - 1];
      assert InTime(before);
      assert before != [] ==> before[|before| - 1] == events[|before| - 1];
      SwarmIsHeard(before, hash, peer, e.now);
      RunsAreDistinct(before);
      var swarm := SwarmOf(After(before), hash);
      if Accepted(e) && e.hash == hash {
        FindPruned(swarm, e.now, peer);
        if e.Announce? {
          FindGone(Pruned(swarm, e.now), e.from, peer);
          FindSet(Pruned(swarm, e.now), e.from, Peer(e.left, e.now), peer);
        }
      } else {
        assert SwarmOf(After(events), hash) == swarm;
        SwarmIsHeard(before, hash, peer, now);
      }
    }
  }

  /**
   * The swarm a torrent's announce or scrape is answered from is exactly the peers whose last
   * word about it was not a goodbye and was said within the timeout.
   */
  lemma AnsweredFromWhoWasHeard(events: seq<Event>, e: Event, peer: Address)
    requires Accepted(e) && InTime(events + [e])
    ensures
      Find(Answering(After(events), e), peer) == Heard(LastWord(events + [e], e.hash, peer), e.now)
  {
    var all := events + [e];
    assert all[..|all| - 1] == events;
    SwarmIsHeard(all, e.hash, peer, e.now);
    assert SwarmOf(After(all), e.hash) == Answering(After(events), e);
    AnsweredInTime(events, e, peer);
  }

  lemma AnsweredInTime(events: seq<Event>, e: Event, peer: Address)
    requires Accepted(e)
    ensures
      var held := Find(Answering(After(events), e), peer);
      held.Some? ==> held.value.seen >= e.now - PEER_TIMEOUT
  {
    var swarm := SwarmOf(After(events), e.hash);
    RunsAreDistinct(events);
    FindPruned(swarm, e.now, peer);
    if e.Announce? {
      FindGone(Pruned(swarm, e.now), e.from, peer);
      FindSet(Pruned(swarm, e.now), e.from, Peer(e.left, e.now), peer);
    }
  }
}
