/**
 * What the application is told and what the other end is sent, over every run of one end of the data channels
 * (src/application.rs): a history kept from the calls alone, and the endpoint that always agrees with it.
 */
module ChannelHistories {
  import opened Prelude
  import opened DataChannels
  import opened DataChannelRuns
  import Negotiation

  /** The channels that exist with all they were told, those that are gone, how many there ever were, and the packets. */
  datatype History = History(channels: map<u16, Channel>, past: seq<Channel>, made: nat, sent: seq<Packet>)

  // --- one call, seen from a channel -------------------------------------------------------------

  predicate TakesMessages(channel: Channel) {
    channel.state == Opening || channel.state == Open
  }

  /** A channel that has moved to `state` and was told so. */
  function Moved(channel: Channel, state: ChannelState): Channel {
    Channel(state, channel.config, channel.channelId, channel.events + [StateChanged(state)])
  }

  /** What a call means for the channel on `stream`, which is this end's own to open or not. */
  function Lived(channel: Channel, stream: u16, own: bool, call: Call): Channel {
    match call
    case Receives(s, Data(content), _) =>
      if s == stream && TakesMessages(channel)
      then channel.(events := channel.events + [MessageReceived(content)]) else channel
    case Receives(s, OpenAck, _) => if s == stream && channel.state == Opening then Moved(channel, Open) else channel
    case Receives(s, OpenRequest(_), _) =>
      if s == stream && !own && TakesMessages(channel) then Moved(channel, Closing) else channel
    case Closes(s, _) => if s == stream && TakesMessages(channel) then Moved(channel, Closing) else channel
    case _ => channel
  }

  /** The streams the other end has reset with this call. */
  function Lost(call: Call): seq<u16> {
    match call
    case IsReset(flags, streams, _) => if flags == ResetFlags(false, false, true) then streams else []
    case _ => []
  }

  /** Those of the streams that have a channel, in the order of their first mention. */
  function Leaving(taken: set<u16>, streams: seq<u16>): (leaving: seq<u16>)
    ensures forall i :: 0 <= i < |leaving| ==> leaving[i] in taken
  {
    if streams == [] then []
    else if streams[0] in taken then [streams[0]] + Leaving(taken - {streams[0]}, streams[1..])
    else Leaving(taken, streams[1..])
  }

  /** A channel as it is left behind: told that it is closed unless it had never been anything else. */
  function LeftBehind(channel: Channel): Channel {
    if channel.state == Closed then channel
    else channel.(events := channel.events + [StateChanged(Closed)])
  }

  function AllLeftBehind(channels: map<u16, Channel>, leaving: seq<u16>): seq<Channel>
    requires forall i :: 0 <= i < |leaving| ==> leaving[i] in channels
  {
    seq(|leaving|, i requires 0 <= i < |leaving| => LeftBehind(channels[leaving[i]]))
  }

  datatype Birth = Birth(stream: u16, channel: Channel)

  /** The channel a call makes, if any. */
  function Newcomer(h: History, e: Endpoint, call: Call): Option<Birth> {
    var id := h.made % 0x1_0000_0000;
    match call
    case Creates(config) =>
      var result := CreateDataChannel(e, config).0;
      if result.Err? then None
      else Some(Birth(result.value.stream, Channel(if e.state == Connected then Opening else Closed, config, id, [])))
    case Receives(s, OpenRequest(config), _) =>
      if Owns(e.role.dtlsRoleClient, s) || s in h.channels then None else Some(Birth(s, Channel(Open, config, id, [])))
    case _ => None
  }

  predicate AllowsDisorder(channelType: ChannelType) {
    channelType.ReliableUnordered? || channelType.PartialReliableRexmitUnordered?
    || channelType.PartialReliableTimedUnordered?
  }

  /** The packets a call sends. */
  function Said(h: History, e: Endpoint, call: Call): seq<Packet> {
    match call
    case Creates(config) =>
      var result := CreateDataChannel(e, config).0;
      if result.Ok? && e.state == Connected then [Packet(result.value.stream, OpenRequest(config), false)] else []
    case Receives(s, OpenRequest(_), _) =>
      if Owns(e.role.dtlsRoleClient, s) || s in h.channels then [] else [Packet(s, OpenAck, false)]
    case Sends(s, content) =>
      if s !in h.channels then []
      else
        var channel := h.channels[s];
        [Packet(s, Data(content), channel.state == Open && AllowsDisorder(channel.config.channelType))]
    case _ => []
  }

  function Stayed(h: History, e: Endpoint, call: Call): map<u16, Channel> {
    map s | s in h.channels && s !in Lost(call) :: Lived(h.channels[s], s, Owns(e.role.dtlsRoleClient, s), call)
  }

  function Left(h: History, call: Call): seq<Channel> {
    AllLeftBehind(h.channels, Leaving(h.channels.Keys, Lost(call)))
  }

  /** The history after a call that finds the endpoint in state `e`. */
  function Continued(h: History, e: Endpoint, call: Call): History {
    var stayed := h.(channels := Stayed(h, e, call), past := h.past + Left(h, call), sent := h.sent + Said(h, e, call));
    match Newcomer(h, e, call)
    case None => stayed
    case Some(birth) => stayed.(channels := stayed.channels[birth.stream := birth.channel], made := h.made + 1)
  }

  function HistoryOf(calls: seq<Call>): History
    requires After(calls).Some?
  {
    if calls == [] then History(map[], [], 0, [])
    else Continued(HistoryOf(calls[..|calls| - 1]), After(calls[..|calls| - 1]).value, calls[|calls| - 1])
  }

  // --- the endpoint agrees -----------------------------------------------------------------------

  ghost predicate Agrees(e: Endpoint, h: History) {
    e.channels == h.channels && e.retired == h.past && e.nextChannelId == h.made % 0x1_0000_0000 && e.sent == h.sent
  }

  lemma RetireLeavesBehind(e: Endpoint, stream: u16)
    ensures var after := Retire(e, stream);
            && after.channels == e.channels - {stream}
            && after.retired == e.retired + (if stream in e.channels then [LeftBehind(e.channels[stream])] else [])
            && after.nextChannelId == e.nextChannelId && after.sent == e.sent
  {
  }

  lemma {:induction false} RetireAllLeavesBehind(e: Endpoint, streams: seq<u16>)
    ensures var after := RetireAll(e, streams);
            && after.channels == (map s | s in e.channels && s !in streams :: e.channels[s])
            && after.retired == e.retired + AllLeftBehind(e.channels, Leaving(e.channels.Keys, streams))
            && after.nextChannelId == e.nextChannelId && after.sent == e.sent
    decreases |streams|
  {
    if streams != [] {
      RetireLeavesBehind(e, streams[0]);
      RetireAllLeavesBehind(Retire(e, streams[0]), streams[1..]);
    }
  }

  lemma NothingLeft(h: History, call: Call)
    requires Lost(call) == []
    ensures h.past + Left(h, call) == h.past
  {
    assert Left(h, call) == [];
  }

  lemma NothingSaid(h: History, e: Endpoint, call: Call)
    requires Said(h, e, call) == []
    ensures h.sent + Said(h, e, call) == h.sent
  {
  }

  /** A call that means nothing to any channel but the one on `stream`. */
  lemma OthersStay(h: History, e: Endpoint, call: Call, stream: u16)
    requires Lost(call) == []
    requires forall s :: s in h.channels && s != stream ==>
               Lived(h.channels[s], s, Owns(e.role.dtlsRoleClient, s), call) == h.channels[s]
    ensures Stayed(h, e, call) ==
            if stream !in h.channels then h.channels
            else h.channels[stream := Lived(h.channels[stream], stream, Owns(e.role.dtlsRoleClient, stream), call)]
  {
    hide Lived, Owns;
  }

  lemma CreationAgrees(h: History, e: Endpoint, config: Config)
    requires Agrees(e, h)
    ensures Agrees(CreateDataChannel(e, config).1, Continued(h, e, Creates(config)))
  {
    hide Allocate, Left, Stayed, Owns;
    var call := Creates(config);
    OthersStay(h, e, call, 0);
    NothingLeft(h, call);
    assert h.sent + [] == h.sent;
  }

  lemma ClosingAgrees(h: History, e: Endpoint, stream: u16, accepted: bool)
    requires Agrees(e, h)
    ensures Agrees(CloseLocally(e, stream, accepted), Continued(h, e, Closes(stream, accepted)))
  {
    hide Left, Stayed;
    OthersStay(h, e, Closes(stream, accepted), stream);
    NothingLeft(h, Closes(stream, accepted));
    NothingSaid(h, e, Closes(stream, accepted));
  }

  lemma MessageAgrees(h: History, e: Endpoint, stream: u16, message: Message, accepted: bool)
    requires Agrees(e, h) && !message.OpenRequest?
    ensures Agrees(Receive(e, stream, message, accepted).1, Continued(h, e, Receives(stream, message, accepted)))
  {
    hide Left, Stayed;
    OthersStay(h, e, Receives(stream, message, accepted), stream);
    NothingLeft(h, Receives(stream, message, accepted));
    NothingSaid(h, e, Receives(stream, message, accepted));
  }

  lemma OpeningAgrees(h: History, e: Endpoint, stream: u16, config: Config, accepted: bool)
    requires Agrees(e, h)
    ensures var message := OpenRequest(config);
            Agrees(Receive(e, stream, message, accepted).1, Continued(h, e, Receives(stream, message, accepted)))
  {
    var call := Receives(stream, OpenRequest(config), accepted);
    hide Left, Stayed, Owns;
    OthersStay(h, e, call, stream);
    NothingLeft(h, call);
    assert h.sent + [] == h.sent;
  }

  lemma ResetAgrees(h: History, e: Endpoint, flags: ResetFlags, streams: seq<u16>, accepted: bool)
    requires Agrees(e, h)
    ensures Agrees(HandleReset(e, flags, streams, accepted), Continued(h, e, IsReset(flags, streams, accepted)))
  {
    hide RetireAll, AllLeftBehind, Leaving, Owns;
    RetireAllLeavesBehind(e, streams);
    NothingSaid(h, e, IsReset(flags, streams, accepted));
    if Lost(IsReset(flags, streams, accepted)) == [] {
      NothingLeft(h, IsReset(flags, streams, accepted));
    }
  }

  lemma SendingAgrees(h: History, e: Endpoint, stream: u16, content: Content)
    requires Agrees(e, h)
    ensures Agrees(Send(e, stream, content), Continued(h, e, Sends(stream, content)))
  {
    hide Left, Stayed, Owns;
    OthersStay(h, e, Sends(stream, content), stream);
    NothingLeft(h, Sends(stream, content));
    assert h.sent + [] == h.sent;
  }

  lemma QuietCallAgrees(h: History, e: Endpoint, call: Call)
    requires Agrees(e, h) && (call.IsDescribed? || call.Connects? || call.ComesUp?)
    ensures Agrees(Next(e, call), Continued(h, e, call))
  {
    hide Left, Stayed, Owns;
    OthersStay(h, e, call, 0);
    NothingLeft(h, call);
    NothingSaid(h, e, call);
  }

  lemma NextAgrees(h: History, e: Endpoint, call: Call)
    requires Agrees(e, h)
    ensures Agrees(Next(e, call), Continued(h, e, call))
  {
    hide Agrees, Continued, CreateDataChannel, CloseLocally, Receive, HandleReset, Send;
    match call
    case Creates(config) => CreationAgrees(h, e, config);
    case Closes(stream, accepted) => ClosingAgrees(h, e, stream, accepted);
    case Receives(stream, OpenRequest(config), accepted) => OpeningAgrees(h, e, stream, config, accepted);
    case Receives(stream, message, accepted) => MessageAgrees(h, e, stream, message, accepted);
    case IsReset(flags, streams, accepted) => ResetAgrees(h, e, flags, streams, accepted);
    case Sends(stream, content) => SendingAgrees(h, e, stream, content);
    case _ => QuietCallAgrees(h, e, call);
  }

  /**
   * Over every run, the channels, those gone, their numbering and the packets sent are what the history says: each user
   * message told once, in order, to the channel that could take it; each change of state told once, at its place.
   */
  lemma {:induction false} HistoryIsTold(calls: seq<Call>)
    requires After(calls).Some?
    ensures Agrees(After(calls).value, HistoryOf(calls))
  {
    hide Next, Continued;
    if calls != [] {
      HistoryIsTold(calls[..|calls| - 1]);
      NextAgrees(HistoryOf(calls[..|calls| - 1]), After(calls[..|calls| - 1]).value, calls[|calls| - 1]);
    }
  }

  /** The handles a call gives out name exactly the channel it makes. */
  lemma HandlesNameNewcomers(calls: seq<Call>, call: Call)
    requires After(calls).Some?
    ensures var e := After(calls).value;
            var newcomer := Newcomer(HistoryOf(calls), e, call);
            var handle := match call
              case Creates(config) =>
                (var result := CreateDataChannel(e, config).0; if result.Ok? then Some(result.value) else None)
              case Receives(stream, message, accepted) => Receive(e, stream, message, accepted).0
              case _ => None;
            match handle
            case None => newcomer == None
            case Some(h) => newcomer == Some(Birth(h.stream, Channel(h.state, h.config, h.channelId, [])))
  {
    hide After, HistoryOf, Allocate, RequestReset, CloseLocally, Owns;
    HistoryIsTold(calls);
  }

  ghost predicate EndsClosed(channel: Channel) {
    channel.events == [] || channel.events[|channel.events| - 1] == StateChanged(Closed)
  }

  /** Over every run a channel that is gone was told last that it is closed, or it never was anything and told nothing. */
  lemma {:induction false} PastChannelsEndClosed(calls: seq<Call>)
    requires After(calls).Some?
    ensures forall i :: 0 <= i < |HistoryOf(calls).past| ==> EndsClosed(HistoryOf(calls).past[i])
  {
    hide Allowed, Next, Continued, Leaving, Lost;
    if calls != [] {
      var prefix, call := calls[..|calls| - 1], calls[|calls| - 1];
      PastChannelsEndClosed(prefix);
      EventsAreOrderly(prefix);
      HistoryIsTold(prefix);
      ContinuedPast(HistoryOf(prefix), After(prefix).value, call);
      var channels := After(prefix).value.channels;
      forall channel | channel in Left(HistoryOf(prefix), call) ensures EndsClosed(channel) {
        var s :| s in channels && channel == LeftBehind(channels[s]);
        assert Tracked(channels[s]);
      }
    }
  }

  lemma ContinuedPast(h: History, e: Endpoint, call: Call)
    ensures Continued(h, e, call).past == h.past + Left(h, call)
  {
    hide Left, Stayed, Said, Newcomer;
  }

  // --- configuration -----------------------------------------------------------------------------

  datatype Configuration = Configuration(client: bool, port: u16)

  predicate HasRole(media: Negotiation.Media) {
    media.setup == Negotiation.Active || media.setup == Negotiation.Passive || media.setup == Negotiation.Actpass
  }

  /** The side this end is on, by the last description that could still decide it; the client before any. */
  function IsClient(calls: seq<Call>): bool {
    if calls == [] then true
    else
      var earlier := calls[..|calls| - 1];
      match calls[|calls| - 1]
      case IsDescribed(media, _, _) =>
        if Configured(earlier).None? && HasRole(media) then media.setup == Negotiation.Passive else IsClient(earlier)
      case _ => IsClient(earlier)
  }

  /** The first description with a role that the SCTP library accepted. */
  function Configured(calls: seq<Call>): Option<Configuration> {
    if calls == [] then None
    else
      var earlier := calls[..|calls| - 1];
      match calls[|calls| - 1]
      case IsDescribed(media, port, configures) =>
        if Configured(earlier).None? && HasRole(media) && configures
        then Some(Configuration(media.setup == Negotiation.Passive, port)) else Configured(earlier)
      case _ => Configured(earlier)
  }

  ghost predicate IsConfiguredBy(e: Endpoint, client: bool, configured: Option<Configuration>) {
    && e.role.dtlsRoleClient == client && (e.role.configured <==> configured.Some?)
    && (configured.Some? ==> configured.value == Configuration(client, e.remotePort))
  }

  lemma OtherCallsKeepConfiguration(e: Endpoint, call: Call)
    requires !call.IsDescribed?
    ensures Next(e, call).role == e.role && Next(e, call).remotePort == e.remotePort
  {
    hide RetireAll, Allocate;
    if call.IsReset? {
      RetireAllKeepsPort(e, call.streams);
    }
  }

  lemma {:induction false} RetireAllKeepsPort(e: Endpoint, streams: seq<u16>)
    ensures RetireAll(e, streams).role == e.role && RetireAll(e, streams).remotePort == e.remotePort
    decreases |streams|
  {
    if streams != [] {
      RetireAllKeepsPort(Retire(e, streams[0]), streams[1..]);
    }
  }

  /** Over every run, role and port are those of the first description that was accepted, for good. */
  lemma {:induction false} ConfigurationIsForGood(calls: seq<Call>)
    requires After(calls).Some?
    ensures IsConfiguredBy(After(calls).value, IsClient(calls), Configured(calls))
  {
    hide Allowed;
    if calls != [] {
      var call := calls[|calls| - 1];
      ConfigurationIsForGood(calls[..|calls| - 1]);
      if !call.IsDescribed? {
        OtherCallsKeepConfiguration(After(calls[..|calls| - 1]).value, call);
        hide Next;
      }
    }
  }

  /** What a description is refused for, in every run. */
  lemma DescriptionErrors(calls: seq<Call>, media: Negotiation.Media, port: u16, configures: bool)
    requires After(calls).Some?
    ensures var error := SetRemoteDescription(After(calls).value, media, port, configures).0;
            var configured := Configured(calls);
            if !HasRole(media) then error == Some(RoleError(Negotiation.MissingSetup))
            else if configured.None? then error == if configures then None else Some(ConfigurationFailed)
            else if configured.value.client != (media.setup == Negotiation.Passive) then
              error == Some(RoleError(Negotiation.RoleMismatch))
            else error == if configured.value.port == port then None else Some(PortMismatch)
  {
    hide After, Configured, IsClient;
    ConfigurationIsForGood(calls);
  }
}
