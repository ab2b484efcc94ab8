/**
 * One gateway's table of peers, and what being introduced does to it: the asking side
 * (`peer-introduction.manager.ts`), the answering side (`peer-exchange.manager.ts`) and
 * the receiving side (`peer.manager.ts`).
 */
module PeerTables {
  import opened Options
  import opened Sizes

  /** A gateway is its key's fingerprint, the one name that means the same on both sides. */
  type Gateway = nat

  datatype Status = Pending | Linked | Unreachable

  /** Who asked for the link: they did, or we did. */
  datatype Direction = Incoming | Outgoing

  /**
   * `depth` is how many introductions away the peer is said to be; 1 is a friend. `open` says
   * a link to the peer is open, which the link service knows by the row.
   */
  datatype Peer = Peer(
    status: Status,
    direction: Option<Direction>,
    depth: int,
    maxDepth: Option<int>,
    via: Option<Gateway>,
    discovered: bool,
    readingForbidden: bool,
    open: bool)

  type Table = map<Gateway, Peer>

  datatype Settings = Settings(peerMaxDepth: int, keepDiscoveredPeers: bool)

  /** An introduction, signed: by whom, of whom, to whom, and how many hops lie between the two. */
  datatype Token = Token(introducer: Gateway, subject: Gateway, holder: Gateway, depth: int)

  predicate IsSettled(p: Peer) {
    p.status.Linked? || p.status.Unreachable?
  }

  function LimitOf(p: Peer, settings: Settings): int {
    if p.maxDepth.Some? then p.maxDepth.value else settings.peerMaxDepth
  }

  // ------------------------------------------------------------------- the ones who choose

  /** A link both ends asked for: a friend from here on, whatever the row said before. */
  function Chosen(p: Peer): Peer {
    p.(status := Linked, direction := None, depth := 1, discovered := false)
  }

  /**
   * We ask for a link. It answers a request of theirs, or waits for their answer: a row
   * already there is made to wait again at whatever depth it carries, settled or not.
   */
  function Asked(table: Table, banned: set<Gateway>, other: Gateway): Table {
    if other in banned then table
    else if other !in table then table[other := Peer(Pending, Some(Outgoing), 1, None, None, false, false, false)]
    else if table[other].direction == Some(Incoming) then table[other := Chosen(table[other])]
    else table[other := table[other].(status := Pending, direction := Some(Outgoing), discovered := false)]
  }

  /** They ask for a link: it answers a request of ours, or is filed if they are unknown. */
  function Announced(table: Table, banned: set<Gateway>, other: Gateway): Table {
    if other in banned then table
    else if other !in table then table[other := Peer(Pending, Some(Incoming), 1, None, None, false, false, false)]
    else if table[other].direction == Some(Outgoing) then table[other := Chosen(table[other])]
    else table
  }

  /** We approve a row. Only a request of our own is not ours to approve. */
  function Approved(table: Table, other: Gateway): Table {
    if other in table && table[other].direction != Some(Outgoing) then table[other := Chosen(table[other])] else table
  }

  /** We redeem an invitation of theirs. A row already there keeps its depth. */
  function Redeemed(table: Table, banned: set<Gateway>, other: Gateway): Table {
    if other in banned then table
    else if other !in table then table[other := Peer(Linked, None, 1, None, None, false, false, false)]
    else table[other := table[other].(status := Linked, discovered := false)]
  }

  /** A dial with nobody in the middle leaves a row settled, waiting or not, answered or not. */
  function Redialled(table: Table, banned: set<Gateway>, other: Gateway, linked: bool): Table {
    if other !in table || other in banned then table
    else
      table[other := table[other].(
        status := if linked then Linked else Unreachable,
        open := table[other].open || linked)]
  }

  /** A link of ours dropped. The last link of a temporary peer takes its row along. */
  function Lost(table: Table, other: Gateway, anotherOpen: bool): Table {
    if other !in table then table
    else if table[other].discovered && !anotherOpen then table - {other}
    else table[other := table[other].(status := Unreachable, open := anotherOpen)]
  }

  /** A link comes and goes without a word about the row; only a settled peer is let in. */
  function Opened(table: Table, other: Gateway): Table {
    if other in table && IsSettled(table[other]) then table[other := table[other].(open := true)] else table
  }

  function Closed(table: Table, other: Gateway): Table {
    if other in table then table[other := table[other].(open := false)] else table
  }

  // --------------------------------------------------------------------- the one answering

  /** The token `me` gives `caller` for `holder`, or nothing: one refusal for every reason. */
  function Introduce(me: Gateway, table: Table, settings: Settings, caller: Gateway, holder: Gateway): Option<Token> {
    if caller !in table || holder !in table || holder == caller || !IsSettled(table[holder]) then None
    else if table[caller].readingForbidden then None
    else
      var depth := table[caller].depth + table[holder].depth;
      var allowed :=
          Min(settings.peerMaxDepth, Min(LimitOf(table[holder], settings), LimitOf(table[caller], settings)));
      if depth > allowed then None else Some(Token(me, caller, holder, depth))
  }

  // ------------------------------------------------------------------------ the one asking

  /** The depth a caller records for a holder it was introduced to: never that of a friend. */
  function Floored(depth: int): int {
    Max(2, depth)
  }

  /** The row the caller keeps while it dials: whatever it had, or a new one that is not linked yet. */
  function Saved(table: Table, settings: Settings, banned: set<Gateway>, via: Gateway, token: Token): Table {
    if token.holder in table then table
    else if token.holder in banned then table
    else
      table[token.holder :=
          Peer(Unreachable, None, Floored(token.depth), None, Some(via), !settings.keepDiscoveredPeers, false, false)]
  }

  /** The dial ended. A row made for it alone goes with a failure. */
  function Dialled(table: Table, peer: Gateway, linked: bool, created: bool): Table {
    if linked then
      if peer in table then table[peer := table[peer].(status := Linked, open := true)] else table
    else if created then table - {peer}
    else table
  }

  function Released(table: Table, peer: Gateway): Table {
    if peer in table && table[peer].discovered then table - {peer} else table
  }

  // --------------------------------------------------------------------- the one receiving

  /** How far the holder takes a stranger to be: never shorter than either arithmetic says. */
  function AdmittedDepth(introducer: Peer, token: Token): int {
    Max(token.depth, introducer.depth + 1)
  }

  predicate Admits(me: Gateway, table: Table, settings: Settings, banned: set<Gateway>, token: Token) {
    && token.holder == me
    && (token.subject in table ==> !IsSettled(table[token.subject]))
    && token.subject !in banned
    && token.introducer in table && IsSettled(table[token.introducer])
    && AdmittedDepth(table[token.introducer], token) <=
       Min(settings.peerMaxDepth, LimitOf(table[token.introducer], settings))
  }

  /** The holder's table once a stranger with a token has been let in, or refused. */
  function Admitted(me: Gateway, table: Table, settings: Settings, banned: set<Gateway>, token: Token): Table {
    if !Admits(me, table, settings, banned, token) then table
    else if token.subject !in table then
      table[token.subject := Peer(
        Linked, None, AdmittedDepth(table[token.introducer], token), None, Some(token.introducer),
        !settings.keepDiscoveredPeers, false, true)]
    else
      var known := table[token.subject];
      table[token.subject := known.(
        status := Linked,
        direction := None,
        via := if known.via.Some? then known.via else Some(token.introducer),
        discovered := known.discovered && !settings.keepDiscoveredPeers,
        open := true)]
  }

  // ------------------------------------------------------- the asking side, step by step

  datatype Error = PeerNotFound | PeerUnreachable | IntroductionRefused | PeerBanned
  datatype Result<+T> = Ok(value: T) | Err(error: Error)

  class IntroductionManager {
    var peers: Table
    var bans: set<Gateway>
    var settings: Settings

    constructor (settings: Settings)
      ensures peers == map[] && bans == {} && this.settings == settings
    {
      peers, bans, this.settings := map[], {}, settings;
    }

    /**
     * Everything before the dial: four refusals, and otherwise a row for the holder. `linked`
     * and `supports` are what the link service says of the introducer, `answer` what it sent.
     * Answers whether this call made the row.
     */
    method Reach(via: Gateway, linked: bool, supports: bool, answer: Option<Token>) returns (r: Result<bool>)
      modifies this`peers
      ensures r.Ok? ==> answer.Some?
      ensures peers == if r.Ok? then Saved(old(peers), settings, bans, via, answer.value) else old(peers)
      ensures r.Ok? <==>
                && via in old(peers) && linked && supports && answer.Some?
                && (answer.value.holder in bans ==>
                     answer.value.holder in old(peers) && IsSettled(old(peers)[answer.value.holder]))
      ensures r.Ok? ==> r.value == (answer.value.holder !in old(peers)) && answer.value.holder in peers
      ensures r == Err(PeerNotFound) <==> via !in old(peers)
      ensures r == Err(PeerUnreachable) <==> via in old(peers) && !linked
      ensures r == Err(IntroductionRefused) <==> via in old(peers) && linked && (!supports || answer.None?)
      ensures r == Err(PeerBanned) <==>
                && via in old(peers) && linked && supports && answer.Some? && answer.value.holder in bans
                && (answer.value.holder in old(peers) ==> !IsSettled(old(peers)[answer.value.holder]))
    {
      if via !in peers {
        return Err(PeerNotFound);
      }
      if !linked {
        return Err(PeerUnreachable);
      }
      if !supports {
        return Err(IntroductionRefused);
      }
      if answer.None? {
        return Err(IntroductionRefused);
      }
      var holder := answer.value.holder;
      if holder in peers && !peers[holder].status.Pending? {
        return Ok(false);
      }
      if holder in bans {
        return Err(PeerBanned);
      }
      var created := holder !in peers;
      if created {
        peers := peers[holder := Peer(
          Unreachable, None, Max(2, answer.value.depth), None, Some(via), !settings.keepDiscoveredPeers, false, false)];
      }
      return Ok(created);
    }

    /** From the dial on: the link opened, or it did not. */
    method Connect(peer: Gateway, reached: bool, created: bool) returns (r: Result<()>)
      modifies this`peers
      ensures peers == Dialled(old(peers), peer, reached, created)
      ensures r.Ok? <==> reached
    {
      if !reached {
        if created {
          peers := peers - {peer};
        }
        return Err(PeerUnreachable);
      }
      if peer in peers {
        peers := peers[peer := peers[peer].(status := Linked, open := true)];
      }
      return Ok(());
    }

    /** A temporary peer goes, and any other stays as it is. */
    method Release(peer: Gateway)
      modifies this`peers
      ensures peers == Released(old(peers), peer)
    {
      if peer !in peers || !peers[peer].discovered {
        return;
      }
      peers := peers - {peer};
    }
  }
}
