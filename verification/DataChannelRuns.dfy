/** What one end of the data channels keeps over every run (src/application.rs). */
module DataChannelRuns {
  import opened Prelude
  import opened DataChannels
  import Negotiation

  // --- allocation --------------------------------------------------------------------------------

  /** Streams this side may open, below the negotiated number of streams. */
  ghost predicate Usable(client: bool, stream: u16) {
    Owns(client, stream) && stream < MAX_CHANNELS * 2
  }

  /** No stream of our own was ever opened beyond the limit, and before the first description no stream at all was. */
  ghost predicate Bounded(e: Endpoint) {
    && (forall s :: s in e.channels && (Owns(e.role.dtlsRoleClient, s) || !e.role.configured) ==> s < MAX_CHANNELS * 2)
    && (!e.role.configured ==> e.state == Disconnected)
  }

  lemma {:induction false} NextFreeIsLeast(channels: map<u16, Channel>, from: u16)
    ensures match NextFree(channels, from)
            case Some(s) => s !in channels && s % 2 == from % 2
                            && forall t: u16 :: from <= t < s && t % 2 == from % 2 ==> t in channels
            case None => forall t: u16 :: from <= t && t % 2 == from % 2 ==> t in channels
    decreases 0x1_0000 - from
  {
    if from in channels && from + 2 < 0x1_0000 {
      NextFreeIsLeast(channels, from + 2);
    }
  }

  lemma AllocationIsLeastFree(e: Endpoint)
    requires Bounded(e)
    ensures var client := e.role.dtlsRoleClient;
            && (forall s: u16 :: Allocate(e) == Ok(s) <==>
                  Usable(client, s) && s !in e.channels
                  && forall t: u16 :: t < s && Owns(client, t) ==> t in e.channels)
            && (Allocate(e).Err? <==> forall t: u16 :: Usable(client, t) ==> t in e.channels)
            && (Allocate(e).Err? ==> Allocate(e).error == TooManyChannels)
  {
    var first: u16 := if e.role.dtlsRoleClient then 0 else 1;
    NextFreeIsLeast(e.channels, first);
    assert forall t: u16 :: Owns(e.role.dtlsRoleClient, t) <==> first <= t && t % 2 == first % 2;
    var last: u16 := first + 0xFFFE;
    assert Owns(e.role.dtlsRoleClient, last);
    hide NextFree;
  }

  /** There are 1024 streams for each side. */
  lemma UsableStreams(client: bool)
    ensures |set s: u16 | Usable(client, s)| == MAX_CHANNELS
  {
    UsableBelow(client, MAX_CHANNELS);
    assert (set s: u16 | Usable(client, s)) == set s: u16 | Owns(client, s) && s < 2 * MAX_CHANNELS;
  }

  lemma {:induction false} UsableBelow(client: bool, count: nat)
    requires count <= MAX_CHANNELS
    ensures |set s: u16 | Owns(client, s) && s < 2 * count| == count
  {
    var below := set s: u16 | Owns(client, s) && s < 2 * count;
    if count == 0 {
      assert below == {};
    } else {
      UsableBelow(client, count - 1);
      var last: u16 := if client then 2 * count - 2 else 2 * count - 1;
      assert below == (set s: u16 | Owns(client, s) && s < 2 * (count - 1)) + {last};
    }
  }

  lemma {:induction false} RetireAllShrinks(e: Endpoint, streams: seq<u16>)
    ensures var e' := RetireAll(e, streams); e'.role == e.role && e'.state == e.state && e'.channels.Keys <= e.channels.Keys
    decreases |streams|
  {
    if streams != [] {
      RetireAllShrinks(Retire(e, streams[0]), streams[1..]);
    }
  }

  lemma NextStaysBounded(e: Endpoint, call: Call)
    requires Bounded(e) && Allowed(e, call)
    ensures Bounded(Next(e, call))
  {
    hide NextFree, RetireAll;
    match call
    case Creates(config) => AllocationIsLeastFree(e);
    case IsReset(flags, streams, accepted) => RetireAllShrinks(e, streams);
    case _ =>
  }

  lemma {:induction false} RunStaysBounded(calls: seq<Call>)
    requires After(calls).Some?
    ensures Bounded(After(calls).value)
  {
    hide Bounded, Next, Allowed;
    if calls == [] {
      assert Bounded(NewEndpoint()) by { NewIsBounded(); }
    } else {
      RunStaysBounded(calls[..|calls| - 1]);
      NextStaysBounded(After(calls[..|calls| - 1]).value, calls[|calls| - 1]);
    }
  }

  lemma NewIsBounded()
    ensures Bounded(NewEndpoint())
  {
  }

  /**
   * In every run a new channel gets the least free stream of this side's parity, and creation fails exactly when all
   * 1024 of them are taken; the overflow of the 16-bit counter is never reached.
   */
  lemma CreationTakesLeastFreeStream(calls: seq<Call>, config: Config)
    requires After(calls).Some?
    ensures var e := After(calls).value;
            var usable := set s: u16 | Usable(e.role.dtlsRoleClient, s);
            var (result, e') := CreateDataChannel(e, config);
            && |usable| == MAX_CHANNELS
            && (result.Err? <==> usable <= e.channels.Keys)
            && (result.Err? ==> result.error == TooManyChannels && e' == e)
            && (result.Ok? ==>
                  && result.value.stream in usable - e.channels.Keys
                  && (forall s :: s in usable - e.channels.Keys ==> result.value.stream <= s)
                  && e'.channels.Keys == e.channels.Keys + {result.value.stream})
  {
    hide After, NextFree;
    RunStaysBounded(calls);
    var e := After(calls).value;
    UsableStreams(e.role.dtlsRoleClient);
    AllocationIsLeastFree(e);
  }

  // --- channels made before the association ------------------------------------------------------

  /** Not connected yet: all channels are this end's own making, on low streams, and none is or will be open. */
  ghost predicate Waiting(e: Endpoint) {
    && e.state == Disconnected && e.pendingResets == []
    && forall s :: s in e.channels ==> e.channels[s].state == Closed && s < MAX_CHANNELS * 2
  }

  lemma NeverDisconnectsAgain(e: Endpoint, call: Call)
    requires Allowed(e, call) && e.state != Disconnected
    ensures Next(e, call).state != Disconnected
  {
    hide NextFree, RetireAll;
    if call.IsReset? {
      RetireAllShrinks(e, call.streams);
    }
  }

  lemma {:induction false} DisconnectedEndsWait(calls: seq<Call>)
    requires After(calls).Some?
    ensures After(calls).value.state == Disconnected ==> Waiting(After(calls).value)
  {
    hide NextFree, RetireAll;
    if calls != [] {
      DisconnectedEndsWait(calls[..|calls| - 1]);
      var e, call := After(calls[..|calls| - 1]).value, calls[|calls| - 1];
      if e.state != Disconnected {
        NeverDisconnectsAgain(e, call);
      }
    }
  }

  /**
   * Without a failed configuration, an end that has not connected yet and is (or takes itself for) the client has all its
   * channels on its own streams.
   */
  lemma {:induction false} ClientWaitsOnItsOwnStreams(calls: seq<Call>)
    requires After(calls).Some? && After(calls).value.state == Disconnected
    requires forall k :: 0 <= k < |calls| && calls[k].IsDescribed? ==> calls[k].configures
    ensures var e := After(calls).value;
            && (!e.role.configured ==> e.role.dtlsRoleClient)
            && (e.role.dtlsRoleClient ==> forall s :: s in e.channels ==> Owns(true, s))
  {
    hide RetireAll;
    if calls != [] {
      var e, call := After(calls[..|calls| - 1]).value, calls[|calls| - 1];
      if e.state != Disconnected {
        NeverDisconnectsAgain(e, call);
      }
      ClientWaitsOnItsOwnStreams(calls[..|calls| - 1]);
      if call.Creates? {
        NextFreeIsLeast(e.channels, if e.role.dtlsRoleClient then 0 else 1);
      }
    }
  }

  /** The calls of an end that makes its first channel before a description makes it the server. */
  function FirstChannelOfServer(config: Config, media: Negotiation.Media, port: u16): seq<Call> {
    [Creates(config), IsDescribed(media, port, true), Connects, ComesUp]
  }

  /** It holds stream 0, which is the client's, and silently drops the client's request to open it. */
  lemma FirstChannelBlocksClient(config: Config, media: Negotiation.Media, port: u16, asked: Config, accepted: bool)
    requires media.setup == Negotiation.Active
    ensures var e := After(FirstChannelOfServer(config, media, port));
            && e.Some? && e.value.role == Negotiation.Channels(false, true) && !Owns(false, 0)
            && Receive(e.value, 0, OpenRequest(asked), accepted) == (None, e.value)
  {
    var calls := FirstChannelOfServer(config, media, port);
    MakesFirstChannel(config);
    OneMoreCall(calls, 0, NewEndpoint());
    OneMoreCall(calls, 1, EarlyEndpoint(config));
    var e2 := EarlyEndpoint(config).(role := Negotiation.Channels(false, true), remotePort := port);
    hide After;
    OneMoreCall(calls, 2, e2);
    OneMoreCall(calls, 3, e2.(state := ApplicationState.Connecting));
    assert calls[..4] == calls;
  }

  /** An end that has made its first channel before anything else. */
  function EarlyEndpoint(config: Config): Endpoint {
    NewEndpoint().(channels := map[0 := Channel(Closed, config, 0, [])], nextChannelId := 1)
  }

  lemma MakesFirstChannel(config: Config)
    ensures Next(NewEndpoint(), Creates(config)) == EarlyEndpoint(config)
  {
    assert Allocate(NewEndpoint()) == Ok(0);
  }

  /** One more call of a given list. */
  lemma OneMoreCall(calls: seq<Call>, count: nat, before: Endpoint)
    requires count < |calls| && After(calls[..count]) == Some(before) && Allowed(before, calls[count])
    ensures After(calls[..count + 1]) == Some(Next(before, calls[count]))
  {
    hide Next;
    assert calls[..count + 1][..count] == calls[..count];
  }

  // --- event order -------------------------------------------------------------------------------

  /** Whether `y` may come after `x`: states come once, in order, and no message follows the end. */
  predicate MayFollow(x: Notice, y: Notice) {
    match x
    case MessageReceived(_) => true
    case StateChanged(Open) => y.MessageReceived? || y.state == Closing || y.state == Closed
    case StateChanged(Closing) => y == StateChanged(Closed)
    case StateChanged(_) => false
  }

  ghost predicate Orderly(events: seq<Notice>) {
    forall i, j :: 0 <= i < j < |events| ==> MayFollow(events[i], events[j])
  }

  /** What a channel may have reported by the time it is in this state. */
  predicate ReportedBy(state: ChannelState, notice: Notice) {
    match state
    case Opening => notice.MessageReceived?
    case Open => notice.MessageReceived? || notice == StateChanged(Open)
    case Closing => notice.MessageReceived? || notice == StateChanged(Open) || notice == StateChanged(Closing)
    case Closed => false
  }

  /** The log agrees with the state of a channel that still has one. */
  ghost predicate Tracked(channel: Channel) {
    && Orderly(channel.events)
    && forall i :: 0 <= i < |channel.events| ==> ReportedBy(channel.state, channel.events[i])
  }

  ghost predicate AllOrderly(e: Endpoint) {
    && (forall s :: s in e.channels ==> Tracked(e.channels[s]))
    && (forall i :: 0 <= i < |e.retired| ==> Orderly(e.retired[i].events))
  }

  lemma NotifyStaysOrderly(channel: Channel, notice: Notice)
    requires Orderly(channel.events)
    requires forall i :: 0 <= i < |channel.events| ==> MayFollow(channel.events[i], notice)
    ensures Orderly(Notify(channel, notice).events)
  {
  }

  lemma MessageStaysTracked(channel: Channel, content: Content)
    requires Tracked(channel) && Live(channel)
    ensures Tracked(Notify(channel, MessageReceived(content)))
  {
    NotifyStaysOrderly(channel, MessageReceived(content));
  }

  lemma ChangeStaysTracked(channel: Channel, state: ChannelState)
    requires Tracked(channel)
    requires (channel.state == Opening && state == Open) || (Live(channel) && state == Closing)
    ensures Tracked(ChangeState(channel, state))
  {
    NotifyStaysOrderly(channel, StateChanged(state));
  }

  lemma RetireStaysOrderly(e: Endpoint, stream: u16)
    requires AllOrderly(e)
    ensures AllOrderly(Retire(e, stream))
  {
    if stream in e.channels && e.channels[stream].state != Closed {
      assert Tracked(e.channels[stream]);
      NotifyStaysOrderly(e.channels[stream], StateChanged(Closed));
    }
  }

  lemma {:induction false} RetireAllStaysOrderly(e: Endpoint, streams: seq<u16>)
    requires AllOrderly(e)
    ensures AllOrderly(RetireAll(e, streams))
    decreases |streams|
  {
    hide AllOrderly;
    if streams != [] {
      RetireStaysOrderly(e, streams[0]);
      RetireAllStaysOrderly(Retire(e, streams[0]), streams[1..]);
    }
  }

  lemma CloseStaysOrderly(e: Endpoint, stream: u16, accepted: bool)
    requires AllOrderly(e)
    ensures AllOrderly(CloseLocally(e, stream, accepted))
  {
    hide Tracked, Orderly;
    if stream in e.channels && Live(e.channels[stream]) {
      ChangeStaysTracked(e.channels[stream], Closing);
    }
  }

  lemma ReceiveStaysOrderly(e: Endpoint, stream: u16, message: Message, accepted: bool)
    requires AllOrderly(e)
    ensures AllOrderly(Receive(e, stream, message, accepted).1)
  {
    CloseStaysOrderly(e, stream, accepted);
    if stream in e.channels && e.channels[stream].state == Opening {
      ChangeStaysTracked(e.channels[stream], Open);
    }
    match message
    case Data(content) =>
      if stream in e.channels && Live(e.channels[stream]) {
        MessageStaysTracked(e.channels[stream], content);
      }
    case _ =>
      hide CloseLocally, Live;
  }

  lemma NextStaysOrderly(e: Endpoint, call: Call)
    requires AllOrderly(e)
    ensures AllOrderly(Next(e, call))
  {
    match call
    case Closes(stream, accepted) => CloseStaysOrderly(e, stream, accepted);
    case Receives(stream, message, accepted) => ReceiveStaysOrderly(e, stream, message, accepted);
    case IsReset(flags, streams, accepted) =>
      hide RetireAll;
      RetireAllStaysOrderly(e, streams);
    case _ => hide CloseLocally, RetireAll, Receive, Allocate;
  }

  /**
   * Every channel there is or was reports messages, then at most one each of open, closing and closed in this order,
   * and no message once it is closing.
   */
  lemma {:induction false} EventsAreOrderly(calls: seq<Call>)
    requires After(calls).Some?
    ensures AllOrderly(After(calls).value)
  {
    hide Next, Allowed;
    if calls != [] {
      EventsAreOrderly(calls[..|calls| - 1]);
      NextStaysOrderly(After(calls[..|calls| - 1]).value, calls[|calls| - 1]);
    }
  }

  // --- order of delivery -------------------------------------------------------------------------

  ghost predicate ControlOrdered(sent: seq<Packet>) {
    forall k :: 0 <= k < |sent| && sent[k].unordered ==> sent[k].message.Data?
  }

  lemma {:induction false} RetireAllKeepsSent(e: Endpoint, streams: seq<u16>)
    ensures RetireAll(e, streams).sent == e.sent
    decreases |streams|
  {
    if streams != [] {
      RetireAllKeepsSent(Retire(e, streams[0]), streams[1..]);
    }
  }

  /** Over every run, requests to open and their acknowledgements are sent in order, whatever the channel's type. */
  lemma {:induction false} ControlMessagesAreOrdered(calls: seq<Call>)
    requires After(calls).Some?
    ensures ControlOrdered(After(calls).value.sent)
  {
    hide NextFree, RetireAll, Allowed;
    if calls != [] {
      ControlMessagesAreOrdered(calls[..|calls| - 1]);
      var e, call := After(calls[..|calls| - 1]).value, calls[|calls| - 1];
      if call.IsReset? {
        RetireAllKeepsSent(e, call.streams);
      }
    }
  }

  // --- stream resets -----------------------------------------------------------------------------

  function Flatten(calls: seq<seq<u16>>): seq<u16> {
    if calls == [] then [] else Flatten(calls[..|calls| - 1]) + calls[|calls| - 1]
  }

  /** The streams a call asks to be reset. */
  function Asked(e: Endpoint, call: Call): seq<u16> {
    match call
    case Closes(stream, _) => if stream in e.channels && Live(e.channels[stream]) then [stream] else []
    case Receives(stream, OpenRequest(_), _) =>
      if Owns(e.role.dtlsRoleClient, stream) || (stream in e.channels && Live(e.channels[stream])) then [stream] else []
    case _ => []
  }

  ghost function AskedInAll(calls: seq<Call>): seq<u16>
    requires After(calls).Some?
  {
    if calls == [] then []
    else AskedInAll(calls[..|calls| - 1]) + Asked(After(calls[..|calls| - 1]).value, calls[|calls| - 1])
  }

  function Ledger(e: Endpoint): seq<u16> {
    Flatten(e.resetCalls) + e.pendingResets
  }

  lemma SendKeepsLedger(e: Endpoint, accepted: bool)
    ensures Ledger(SendResets(e, accepted)) == Ledger(e)
  {
    if e.pendingResets != [] && accepted {
      assert (e.resetCalls + [e.pendingResets])[..|e.resetCalls|] == e.resetCalls;
    }
  }

  lemma RequestExtendsLedger(e: Endpoint, stream: u16, accepted: bool)
    ensures Ledger(RequestReset(e, stream, accepted)) == Ledger(e) + [stream]
  {
    hide Flatten, SendResets;
    SendKeepsLedger(e.(pendingResets := e.pendingResets + [stream]), accepted);
    assert Flatten(e.resetCalls) + (e.pendingResets + [stream]) == Ledger(e) + [stream];
  }

  lemma {:induction false} RetireAllKeepsLedger(e: Endpoint, streams: seq<u16>)
    ensures RetireAll(e, streams).resetCalls == e.resetCalls && RetireAll(e, streams).pendingResets == e.pendingResets
    decreases |streams|
  {
    if streams != [] {
      RetireAllKeepsLedger(Retire(e, streams[0]), streams[1..]);
    }
  }

  lemma CloseExtendsLedger(e: Endpoint, stream: u16, accepted: bool)
    ensures Ledger(CloseLocally(e, stream, accepted)) ==
            Ledger(e) + if stream in e.channels && Live(e.channels[stream]) then [stream] else []
  {
    hide Flatten, RequestReset;
    if stream in e.channels && Live(e.channels[stream]) {
      RequestExtendsLedger(e.(channels := e.channels[stream := ChangeState(e.channels[stream], Closing)]), stream, accepted);
    }
  }

  lemma NextExtendsLedger(e: Endpoint, call: Call)
    ensures Ledger(Next(e, call)) == Ledger(e) + Asked(e, call)
  {
    hide Flatten, RequestReset, CloseLocally, Allocate, RetireAll, SendResets;
    match call
    case Closes(stream, accepted) => CloseExtendsLedger(e, stream, accepted);
    case Receives(stream, message, accepted) =>
      CloseExtendsLedger(e, stream, accepted);
      RequestExtendsLedger(e, stream, accepted);
    case IsReset(flags, streams, accepted) =>
      RetireAllKeepsLedger(e, streams);
      SendKeepsLedger(e, accepted);
      SendKeepsLedger(RetireAll(e, streams), accepted);
    case _ =>
  }

  /** Every reset ever asked for is in exactly one accepted reset call or still pending, in the order of asking. */
  lemma {:induction false} ResetsAreConserved(calls: seq<Call>)
    requires After(calls).Some?
    ensures var e := After(calls).value; Flatten(e.resetCalls) + e.pendingResets == AskedInAll(calls)
  {
    hide Next, Asked, Allowed;
    if calls != [] {
      ResetsAreConserved(calls[..|calls| - 1]);
      NextExtendsLedger(After(calls[..|calls| - 1]).value, calls[|calls| - 1]);
    }
  }

  /** Whether a call tries to get the pending resets through, and what the SCTP library answers. */
  function Attempt(e: Endpoint, call: Call): Option<bool> {
    match call
    case Closes(_, accepted) => if Asked(e, call) != [] then Some(accepted) else None
    case Receives(_, _, accepted) => if Asked(e, call) != [] then Some(accepted) else None
    case IsReset(_, _, accepted) => Some(accepted)
    case _ => None
  }

  /** An accepted attempt takes everything pending along in one call; any other call leaves it pending. */
  lemma ResetsAreRetried(e: Endpoint, call: Call)
    ensures var after, pending := Next(e, call), e.pendingResets + Asked(e, call);
            if Attempt(e, call) == Some(true) && pending != []
            then after.pendingResets == [] && after.resetCalls == e.resetCalls + [pending]
            else after.pendingResets == pending && after.resetCalls == e.resetCalls
  {
    hide Allocate, RetireAll;
    assert e.pendingResets + [] == e.pendingResets;
    if call.IsReset? {
      RetireAllKeepsLedger(e, call.streams);
    }
  }
}
