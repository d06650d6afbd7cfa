/**
 The gateway's chat channels: who is in a channel, the reverse index from players to channels, one
 bounded event stream per player, and the channel list each session keeps for itself.
 */
module ChannelHub {

  datatype Event = Event(kind: nat, payload: string)

  /** The three maps; a channel or player that is absent has an empty set. */
  datatype Hub = Hub(members: map<string, set<nat>>, index: map<nat, set<string>>, streams: map<nat, seq<Event>>)

  function MembersOf(members: map<string, set<nat>>, c: string): set<nat> {
    if c in members then members[c] else {}
  }

  function ChannelsOf(index: map<nat, set<string>>, p: nat): set<string> {
    if p in index then index[p] else {}
  }

  // ------------------------------------------------------------ operations

  function PlayerAdded(h: Hub, p: nat, c: string): Hub {
    Hub(h.members[c := MembersOf(h.members, c) + {p}], h.index[p := ChannelsOf(h.index, p) + {c}],
        if p in h.streams then h.streams else h.streams[p := []])
  }

  /** The index entry goes when its last channel goes. */
  function Unindexed(index: map<nat, set<string>>, p: nat, c: string): map<nat, set<string>> {
    if p !in index then index
    else if index[p] - {c} == {} then index - {p}
    else index[p := index[p] - {c}]
  }

  function PlayerRemoved(h: Hub, p: nat, c: string): Hub {
    h.(members := if c in h.members then h.members[c := h.members[c] - {p}] else h.members,
       index := Unindexed(h.index, p, c))
  }

  /** The channels of the player's index entry lose the player; the stream is closed. */
  function Disconnected(h: Hub, p: nat): Hub {
    Hub(LeftBy(h.members, p, ChannelsOf(h.index, p)), h.index - {p}, h.streams - {p})
  }

  function LeftBy(members: map<string, set<nat>>, p: nat, chans: set<string>): map<string, set<nat>> {
    map c | c in members :: if c in chans then members[c] - {p} else members[c]
  }

  /** A send that does not block: a full stream drops the event. */
  function Offered(stream: seq<Event>, e: Event): seq<Event> {
    if |stream| < 32 then stream + [e] else stream
  }

  function Broadcast(h: Hub, c: string, e: Event): Hub {
    h.(streams := OfferedTo(h.streams, MembersOf(h.members, c), e))
  }

  function OfferedTo(streams: map<nat, seq<Event>>, members: set<nat>, e: Event): map<nat, seq<Event>> {
    map p | p in streams :: if p in members then Offered(streams[p], e) else streams[p]
  }

  // ------------------------------------------------------------ the pairing

  ghost predicate Linked(members: map<string, set<nat>>, index: map<nat, set<string>>) {
    forall p, c :: p in MembersOf(members, c) <==> c in ChannelsOf(index, p)
  }

  ghost predicate Paired(h: Hub) {
    && Linked(h.members, h.index)
    && (forall p :: p in h.index ==> h.index[p] != {} && p in h.streams)
    && (forall p :: p in h.streams ==> |h.streams[p]| <= 32)
  }

  lemma PlayerAddedPairs(h: Hub, p: nat, c: string)
    requires Paired(h)
    ensures Paired(PlayerAdded(h, p, c)) && ChannelsOf(PlayerAdded(h, p, c).index, p) == ChannelsOf(h.index, p) + {c}
    ensures forall q :: q != p ==> ChannelsOf(PlayerAdded(h, p, c).index, q) == ChannelsOf(h.index, q)
    ensures PlayerAdded(h, p, c).streams == if p in h.streams then h.streams else h.streams[p := []]
  {
    var h' := PlayerAdded(h, p, c);
    forall q, d ensures q in MembersOf(h'.members, d) <==> d in ChannelsOf(h'.index, q) {
      assert q in MembersOf(h.members, d) <==> d in ChannelsOf(h.index, q);
    }
  }

  lemma PlayerRemovedPairs(h: Hub, p: nat, c: string)
    requires Paired(h)
    ensures Paired(PlayerRemoved(h, p, c)) && ChannelsOf(PlayerRemoved(h, p, c).index, p) == ChannelsOf(h.index, p) - {c}
    ensures forall q :: q != p ==> ChannelsOf(PlayerRemoved(h, p, c).index, q) == ChannelsOf(h.index, q)
    ensures PlayerRemoved(h, p, c).streams == h.streams
  {
    var h' := PlayerRemoved(h, p, c);
    forall q, d ensures q in MembersOf(h'.members, d) <==> q in MembersOf(h.members, d) && !(q == p && d == c) {
    }
    forall q ensures ChannelsOf(h'.index, q) == if q == p then ChannelsOf(h.index, q) - {c} else ChannelsOf(h.index, q) {
    }
  }

  lemma DisconnectedPairs(h: Hub, p: nat)
    requires Paired(h)
    ensures Paired(Disconnected(h, p)) && ChannelsOf(Disconnected(h, p).index, p) == {}
    ensures Disconnected(h, p).streams == h.streams - {p}
    ensures forall c :: p !in MembersOf(Disconnected(h, p).members, c)
    ensures forall q :: q != p ==> ChannelsOf(Disconnected(h, p).index, q) == ChannelsOf(h.index, q)
  {
    var h' := Disconnected(h, p);
    forall q, c ensures q in MembersOf(h'.members, c) <==> c in ChannelsOf(h'.index, q) {
      assert q in MembersOf(h.members, c) <==> c in ChannelsOf(h.index, q);
    }
    forall c ensures p !in MembersOf(h'.members, c) {
      assert p in MembersOf(h.members, c) <==> c in ChannelsOf(h.index, p);
    }
  }

  /** In a paired hub a broadcast reaches exactly the members with room in their stream, all of whom have one. */
  lemma BroadcastReachesExactly(h: Hub, c: string, e: Event)
    requires Paired(h)
    ensures Paired(Broadcast(h, c, e)) && Broadcast(h, c, e).members == h.members && Broadcast(h, c, e).index == h.index
    ensures forall p :: p in MembersOf(h.members, c) ==> p in h.streams
    ensures forall p :: p in Broadcast(h, c, e).streams <==> p in h.streams
    ensures forall p :: p in h.streams ==>
              (Broadcast(h, c, e).streams[p] == h.streams[p] + [e] <==> p in MembersOf(h.members, c) && |h.streams[p]| < 32)
    ensures forall p :: p in h.streams && !(p in MembersOf(h.members, c) && |h.streams[p]| < 32)
              ==> Broadcast(h, c, e).streams[p] == h.streams[p]
  {
    forall p | p in MembersOf(h.members, c) ensures p in h.streams {
      assert c in ChannelsOf(h.index, p);
    }
    forall p | p in h.streams ensures h.streams[p] != h.streams[p] + [e] {
      assert |h.streams[p] + [e]| == |h.streams[p]| + 1;
    }
  }

  // ------------------------------------------------------------ sessions

  /** `lower` is the case mapping; `sessions` holds the channel keys of every logged-in session. */
  datatype Gateway = Gateway(hub: Hub, sessions: map<nat, set<string>>)

  datatype Op =
    | Login(p: nat)
    | AddChannel(p: nat, name: string)
    | RemoveChannel(p: nat, name: string)
    | Receive(p: nat)                      // the session takes the next event off its stream
    | Send(c: string, e: Event)
    | Logout(p: nat)

  /** Sessions act for logged-in players, one session a player. */
  predicate Enabled(g: Gateway, op: Op) {
    match op
    case Login(p) => p !in g.sessions
    case AddChannel(p, _) => p in g.sessions
    case RemoveChannel(p, _) => p in g.sessions
    case Receive(p) => p in g.hub.streams && g.hub.streams[p] != []
    case Send(_, _) => true
    case Logout(p) => p in g.sessions
  }

  function After(lower: string -> string, g: Gateway, op: Op): Gateway
    requires Enabled(g, op)
  {
    match op
    case Login(p) => g.(sessions := g.sessions[p := {}])
    case AddChannel(p, name) => Gateway(PlayerAdded(g.hub, p, lower(name)), g.sessions[p := g.sessions[p] + {lower(name)}])
    case RemoveChannel(p, name) => Gateway(PlayerRemoved(g.hub, p, lower(name)), g.sessions[p := g.sessions[p] - {lower(name)}])
    case Receive(p) => g.(hub := g.hub.(streams := g.hub.streams[p := g.hub.streams[p][1..]]))
    case Send(c, e) => g.(hub := Broadcast(g.hub, lower(c), e))
    case Logout(p) => Gateway(Disconnected(g.hub, p), g.sessions - {p})
  }

  /** The hub is paired and every session's list is its player's entry; others have none. */
  ghost predicate InStep(g: Gateway) {
    && Paired(g.hub)
    && forall p :: ChannelsOf(g.hub.index, p) == if p in g.sessions then g.sessions[p] else {}
  }

  lemma StepKeepsInStep(lower: string -> string, g: Gateway, op: Op)
    requires InStep(g) && Enabled(g, op)
    ensures InStep(After(lower, g, op))
  {
    hide Paired, PlayerAdded, PlayerRemoved, Disconnected, Broadcast;
    match op {
      case Login(p) =>
      case AddChannel(p, name) => PlayerAddedPairs(g.hub, p, lower(name));
      case RemoveChannel(p, name) => PlayerRemovedPairs(g.hub, p, lower(name));
      case Receive(p) => ReceivePairs(g.hub, p);
      case Send(c, e) => BroadcastReachesExactly(g.hub, lower(c), e);
      case Logout(p) => DisconnectedPairs(g.hub, p);
    }
  }

  lemma ReceivePairs(h: Hub, p: nat)
    requires Paired(h) && p in h.streams && h.streams[p] != []
    ensures Paired(h.(streams := h.streams[p := h.streams[p][1..]]))
  {
  }

  ghost predicate IsRun(lower: string -> string, run: seq<Gateway>, ops: seq<Op>) {
    && |run| == |ops| + 1
    && run[0] == Gateway(Hub(map[], map[], map[]), map[])
    && forall i :: 0 <= i < |ops| ==> Enabled(run[i], ops[i]) && run[i + 1] == After(lower, run[i], ops[i])
  }

  /**
   After any sequence of logins, joins, leaves, broadcasts and logouts the two indexes agree, no entry
   is empty, every indexed player has a stream, and each session lists exactly its player's channels.
   */
  lemma {:induction false} EveryRunInStep(lower: string -> string, run: seq<Gateway>, ops: seq<Op>, k: nat)
    requires IsRun(lower, run, ops) && k < |run|
    ensures InStep(run[k])
  {
    hide After, Enabled;
    if k > 0 {
      EveryRunInStep(lower, run, ops, k - 1);
      assert Enabled(run[k - 1], ops[k - 1]) && run[k - 1 + 1] == After(lower, run[k - 1], ops[k - 1]);
      StepKeepsInStep(lower, run[k - 1], ops[k - 1]);
    }
  }

  // ------------------------------------------------------------ the service

  /** A Go channel of capacity 32, seen as the events waiting in it; sending on a closed one would panic. */
  class Stream {
    const owner: nat
    var events: seq<Event>
    var closed: bool

    constructor (owner: nat)
      ensures this.owner == owner && events == [] && !closed
    {
      this.owner, events, closed := owner, [], false;
    }

    /** The select with a default case. */
    method Offer(e: Event)
      requires !closed
      modifies `events
      ensures events == Offered(old(events), e)
    {
      if |events| < 32 {
        events := events + [e];
      }
    }

    method Close()
      requires !closed
      modifies `closed
      ensures closed
    {
      closed := true;
    }
  }

  class ChatChannel {
    const name: string
    var members: set<nat>

    constructor (name: string)
      ensures this.name == name && members == {}
    {
      this.name, members := name, {};
    }
  }

  class ChatChannelsService {
    var channels: map<string, ChatChannel>
    var streams: map<nat, Stream>
    var playerChannels: map<nat, set<string>>
    ghost var hub: Hub

    ghost predicate ChannelsShow(members: map<string, set<nat>>)
      reads `channels, channels.Values
    {
      && (forall c :: c in channels <==> c in members)
      && forall c :: c in channels ==> channels[c].name == c && channels[c].members == members[c]
    }

    ghost predicate StreamsShow(waiting: map<nat, seq<Event>>)
      reads `streams, streams.Values
    {
      && (forall p :: p in streams <==> p in waiting)
      && forall p :: p in streams ==> streams[p].owner == p && streams[p].events == waiting[p] && !streams[p].closed
    }

    ghost predicate Valid()
      reads this, channels.Values, streams.Values
    {
      ChannelsShow(hub.members) && StreamsShow(hub.streams) && playerChannels == hub.index
    }

    constructor ()
      ensures Valid() && hub == Hub(map[], map[], map[])
    {
      channels, streams, playerChannels, hub := map[], map[], map[], Hub(map[], map[], map[]);
    }

    method AddPlayerToChannel(p: nat, c: string) returns (stream: Stream)
      requires Valid()
      modifies this, channels.Values
      ensures Valid() && hub == PlayerAdded(old(hub), p, c)
      ensures p in streams && stream == streams[p] && (p in old(streams) ==> stream == old(streams)[p])
    {
      hide ChannelsShow, StreamsShow;
      AddMember(p, c);
      var chans: set<string> := if p in playerChannels then playerChannels[p] else {};
      playerChannels := playerChannels[p := chans + {c}];
      stream := OpenStream(p);
      hub := PlayerAdded(hub, p, c);
    }

    /** `PlayerStreams.GetOrCreate`. */
    method OpenStream(p: nat) returns (stream: Stream)
      requires StreamsShow(hub.streams)
      modifies `streams
      ensures StreamsShow(if p in hub.streams then hub.streams else hub.streams[p := []])
      ensures p in streams && stream == streams[p] && (p in old(streams) ==> stream == old(streams)[p])
    {
      if p in streams {
        stream := streams[p];
      } else {
        stream := new Stream(p);
        streams := streams[p := stream];
      }
    }

    /** `GetOrCreate` and `AddMember`. */
    method AddMember(p: nat, c: string)
      requires ChannelsShow(hub.members)
      modifies `channels, channels.Values
      ensures ChannelsShow(hub.members[c := MembersOf(hub.members, c) + {p}])
    {
      if c in channels {
        channels[c].members := channels[c].members + {p};
      } else {
        var channel := new ChatChannel(c);
        channel.members := channel.members + {p};
        channels := channels[c := channel];
      }
    }

    /** `RemoveMember` on a channel that may not exist. */
    method RemoveMember(p: nat, c: string, ghost members: map<string, set<nat>>)
      requires ChannelsShow(members)
      modifies channels.Values
      ensures ChannelsShow(if c in members then members[c := members[c] - {p}] else members)
    {
      if c in channels {
        channels[c].members := channels[c].members - {p};
      }
    }

    method RemovePlayerFromChannel(p: nat, c: string)
      requires Valid()
      modifies `playerChannels, `hub, channels.Values
      ensures Valid() && hub == PlayerRemoved(old(hub), p, c)
    {
      hide ChannelsShow, StreamsShow;
      RemoveMember(p, c, hub.members);
      if p in playerChannels {
        var chans: set<string> := playerChannels[p] - {c};
        playerChannels := if chans == {} then playerChannels - {p} else playerChannels[p := chans];
      }
      hub := PlayerRemoved(hub, p, c);
    }

    method BroadcastToChannel(c: string, e: Event)
      requires Valid()
      modifies `hub, streams.Values
      ensures Valid() && hub == Broadcast(old(hub), c, e)
    {
      hide StreamsShow, OfferedTo;
      if c in channels {
        OfferAll(channels[c].members, e);
      } else {
        OfferedToNobody(hub.streams, e);
      }
      hub := Broadcast(hub, c, e);
    }

    /** The loop over a copy of the members. */
    method OfferAll(members: set<nat>, e: Event)
      requires StreamsShow(hub.streams)
      modifies streams.Values
      ensures StreamsShow(OfferedTo(hub.streams, members, e))
    {
      hide StreamsShow, OfferedTo;
      var left := members;
      OfferedToNobody(hub.streams, e);
      assert members - left == {};
      while left != {}
        invariant left <= members && StreamsShow(OfferedTo(hub.streams, members - left, e))
        decreases |left|
      {
        var p :| p in left;
        OfferedToOneMore(hub.streams, members - left, p, e);
        OfferTo(p, e, OfferedTo(hub.streams, members - left, e));
        assert members - (left - {p}) == members - left + {p};
        left := left - {p};
      }
      assert members - left == members;
    }

    /** One member; without a stream it is passed over, and a full stream drops the event. */
    method OfferTo(p: nat, e: Event, ghost waiting: map<nat, seq<Event>>)
      requires StreamsShow(waiting)
      modifies streams.Values
      ensures StreamsShow(if p in waiting then waiting[p := Offered(waiting[p], e)] else waiting)
    {
      if p in streams {
        streams[p].Offer(e);
      }
    }

    method DisconnectPlayer(p: nat)
      requires Valid()
      modifies this, channels.Values, streams.Values
      ensures Valid() && hub == Disconnected(old(hub), p)
      ensures p in old(streams) ==> old(streams)[p].closed
    {
      hide ChannelsShow, StreamsShow, LeftBy;
      var chans: set<string> := if p in playerChannels then playerChannels[p] else {};
      playerChannels := playerChannels - {p};
      LeaveAll(p, chans);
      CloseStream(p);
      hub := Disconnected(hub, p);
    }

    /** `PlayerStreams.Remove`. */
    method CloseStream(p: nat)
      requires StreamsShow(hub.streams)
      modifies `streams, streams.Values
      ensures StreamsShow(hub.streams - {p})
      ensures p in old(streams) ==> old(streams)[p].closed
    {
      if p in streams {
        streams[p].Close();
        streams := streams - {p};
      }
    }

    /** The loop over the channels of the player's former index entry. */
    method LeaveAll(p: nat, chans: set<string>)
      requires ChannelsShow(hub.members)
      modifies channels.Values
      ensures ChannelsShow(LeftBy(hub.members, p, chans))
    {
      hide ChannelsShow, LeftBy;
      var left := chans;
      LeftByNothing(hub.members, p);
      assert chans - left == {};
      while left != {}
        invariant left <= chans && ChannelsShow(LeftBy(hub.members, p, chans - left))
        decreases |left|
      {
        var c :| c in left;
        LeftByOneMore(hub.members, p, chans - left, c);
        RemoveMember(p, c, LeftBy(hub.members, p, chans - left));
        assert chans - (left - {c}) == chans - left + {c};
        left := left - {c};
      }
      assert chans - left == chans;
    }
  }

  lemma OfferedToNobody(streams: map<nat, seq<Event>>, e: Event)
    ensures OfferedTo(streams, {}, e) == streams
  {
  }

  lemma OfferedToOneMore(streams: map<nat, seq<Event>>, done: set<nat>, p: nat, e: Event)
    requires p !in done
    ensures var now := OfferedTo(streams, done, e);
            OfferedTo(streams, done + {p}, e) == if p in now then now[p := Offered(now[p], e)] else now
  {
  }

  lemma LeftByNothing(members: map<string, set<nat>>, p: nat)
    ensures LeftBy(members, p, {}) == members
  {
  }

  lemma LeftByOneMore(members: map<string, set<nat>>, p: nat, done: set<string>, c: string)
    requires c !in done
    ensures var now := LeftBy(members, p, done);
            LeftBy(members, p, done + {c}) == if c in now then now[c := now[c] - {p}] else now
  {
  }

  // ------------------------------------------------------------ a session's own list

  /** A channel as the session shows it, with the name in its original case. */
  datatype ChannelInfo = ChannelInfo(name: string, channelID: nat, flags: nat)

  class ChannelMembership {
    const playerGUID: nat
    const broadcaster: ChatChannelsService
    const lower: string -> string
    var channels: map<string, ChannelInfo>
    var events: Stream?

    /** The keys are the channels the service has for the player. */
    ghost predicate AgreesWithService()
      reads this, broadcaster
    {
      forall c :: c in channels <==> c in ChannelsOf(broadcaster.hub.index, playerGUID)
    }

    constructor (playerGUID: nat, broadcaster: ChatChannelsService, lower: string -> string)
      ensures this.playerGUID == playerGUID && this.broadcaster == broadcaster && this.lower == lower
      ensures channels == map[] && events == null
    {
      this.playerGUID, this.broadcaster, this.lower, channels, events := playerGUID, broadcaster, lower, map[], null;
    }

    method AddChannel(name: string, channelID: nat, flags: nat)
      requires broadcaster.Valid() && Paired(broadcaster.hub) && AgreesWithService()
      modifies this, broadcaster, broadcaster.channels.Values
      ensures broadcaster.Valid() && Paired(broadcaster.hub) && AgreesWithService()
      ensures broadcaster.hub == PlayerAdded(old(broadcaster.hub), playerGUID, lower(name))
      ensures channels == old(channels)[lower(name) := ChannelInfo(name, channelID, flags)]
      ensures playerGUID in broadcaster.streams && events == broadcaster.streams[playerGUID]
    {
      hide Paired, PlayerAdded, ChatChannelsService.ChannelsShow, ChatChannelsService.StreamsShow;
      PlayerAddedPairs(broadcaster.hub, playerGUID, lower(name));
      channels := channels[lower(name) := ChannelInfo(name, channelID, flags)];
      events := broadcaster.AddPlayerToChannel(playerGUID, lower(name));
    }

    method RemoveChannel(name: string)
      requires broadcaster.Valid() && Paired(broadcaster.hub) && AgreesWithService()
      modifies this, broadcaster, broadcaster.channels.Values
      ensures broadcaster.Valid() && Paired(broadcaster.hub) && AgreesWithService()
      ensures broadcaster.hub == PlayerRemoved(old(broadcaster.hub), playerGUID, lower(name))
      ensures channels == old(channels) - {lower(name)}
    {
      hide Paired, PlayerRemoved, ChatChannelsService.ChannelsShow, ChatChannelsService.StreamsShow;
      PlayerRemovedPairs(broadcaster.hub, playerGUID, lower(name));
      channels := channels - {lower(name)};
      broadcaster.RemovePlayerFromChannel(playerGUID, lower(name));
    }
  }
}
