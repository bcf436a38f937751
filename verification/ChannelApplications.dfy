/**
 * One end of the data channels as the source runs it: channel objects in a map, changed in place (src/application.rs).
 * Every method computes the function of the same name in `DataChannels`.
 */
module ChannelApplications {
  import opened Prelude
  import opened DataChannels
  import Negotiation

  class InternalDataChannel {
    var state: ChannelState
    const config: Config
    const internalChannelId: u16
    const channelId: u32
    /** Everything the event queue was ever given. */
    var events: seq<Notice>

    ghost function Value(): Channel
      reads this
    {
      Channel(state, config, channelId, events)
    }

    constructor (state: ChannelState, config: Config, internalChannelId: u16, channelId: u32)
      ensures Value() == Channel(state, config, channelId, []) && this.internalChannelId == internalChannelId
    {
      this.state, this.config, this.internalChannelId, this.channelId := state, config, internalChannelId, channelId;
      events := [];
    }

    method Emit(notice: Notice)
      modifies `events
      ensures Value() == Notify(old(Value()), notice)
    {
      events := events + [notice];
    }

    method MoveTo(newState: ChannelState)
      modifies this
      ensures Value() == ChangeState(old(Value()), newState)
    {
      state := newState;
      Emit(StateChanged(newState));
    }
  }

  ghost function Values(cells: map<u16, InternalDataChannel>): map<u16, Channel>
    reads cells.Values
  {
    map s | s in cells :: cells[s].Value()
  }

  class ChannelApplication {
    var state: ApplicationState
    var dtlsRoleClient: bool
    var remoteConfig: Option<u16>
    var pendingStreamResets: seq<u16>
    var internalChannels: map<u16, InternalDataChannel>
    var channelIdIndex: u32
    /** What the SCTP session was asked to send and to reset. */
    var sent: seq<Packet>
    var resetCalls: seq<seq<u16>>
    ghost var retired: seq<Channel>

    ghost predicate Valid()
      reads this, internalChannels.Values
    {
      forall s :: s in internalChannels ==> internalChannels[s].internalChannelId == s
    }

    ghost function Value(): Endpoint
      reads this, internalChannels.Values
    {
      Endpoint(state, Negotiation.Channels(dtlsRoleClient, remoteConfig.Some?),
               if remoteConfig.Some? then remoteConfig.value else 0,
               Values(internalChannels), channelIdIndex, pendingStreamResets, sent, resetCalls, retired)
    }

    constructor ()
      ensures Valid() && Value() == NewEndpoint() && internalChannels == map[]
    {
      state, dtlsRoleClient, remoteConfig := Disconnected, true, None;
      pendingStreamResets, internalChannels, channelIdIndex := [], map[], 0;
      sent, resetCalls, retired := [], [], [];
    }

    /** `accepted` is the SCTP library's answer. */
    method SendOutgoingStreamResets(accepted: bool)
      requires Valid()
      modifies `pendingStreamResets, `resetCalls
      ensures Valid() && Value() == SendResets(old(Value()), accepted)
    {
      if |pendingStreamResets| == 0 {
        return;
      }
      if accepted {
        resetCalls := resetCalls + [pendingStreamResets];
        pendingStreamResets := [];
      }
    }

    method SendMessage(channel: InternalDataChannel, message: Message, enforceOrdered: bool)
      modifies `sent
      ensures sent == Transmit(old(Value()), channel.internalChannelId, channel.Value(), message, enforceOrdered).sent
    {
      var unordered := false;
      if !enforceOrdered && channel.state == Open && !channel.config.channelType.IsOrdered() {
        unordered := true;
      }
      sent := sent + [Packet(channel.internalChannelId, message, unordered)];
    }

    method RequestStreamReset(stream: u16, accepted: bool)
      requires Valid()
      modifies `pendingStreamResets, `resetCalls
      ensures Valid() && Value() == RequestReset(old(Value()), stream, accepted)
    {
      pendingStreamResets := pendingStreamResets + [stream];
      SendOutgoingStreamResets(accepted);
    }

    method CloseDatachannelLocally(channel: InternalDataChannel, accepted: bool)
      requires Valid()
      requires channel.internalChannelId in internalChannels && internalChannels[channel.internalChannelId] == channel
      modifies `pendingStreamResets, `resetCalls, channel
      ensures Valid() && Value() == CloseLocally(old(Value()), channel.internalChannelId, accepted)
    {
      hide RequestReset;
      if channel.state != Opening && channel.state != Open {
        return;
      }
      channel.MoveTo(Closing);
      OneCellChanged(old(Values(internalChannels)), channel);
      hide Values;
      RequestStreamReset(channel.internalChannelId, accepted);
    }

    /** Only the channel object at its own stream has changed. */
    lemma OneCellChanged(was: map<u16, Channel>, channel: InternalDataChannel)
      requires Valid() && internalChannels.Keys == was.Keys && channel.internalChannelId in was
      requires internalChannels[channel.internalChannelId] == channel
      requires forall s :: s in was && internalChannels[s] != channel ==> was[s] == internalChannels[s].Value()
      ensures Values(internalChannels) == was[channel.internalChannelId := channel.Value()]
    {
    }

    /** The search at the start of `create_data_channel`. */
    method AllocateStream() returns (allocation: Result<u16, CreateError>)
      requires Valid()
      ensures allocation == Allocate(Value())
    {
      var id: u16 := if dtlsRoleClient then 0 else 1;
      ghost var all := NextFree(Value().channels, id);
      while id in internalChannels
        invariant NextFree(Value().channels, id) == all
        decreases 0x1_0000 - id
      {
        var overflow := id + 2 >= 0x1_0000;
        if overflow {
          return Err(HardwareChannels);
        }
        id := id + 2;
      }
      if id >= MAX_CHANNELS * 2 {
        return Err(TooManyChannels);
      }
      allocation := Ok(id);
    }

    method CreateDataChannel(config: Config) returns (result: Result<Handle, CreateError>)
      requires Valid()
      modifies `channelIdIndex, `internalChannels, `sent
      ensures Valid() && fresh(internalChannels.Values - old(internalChannels.Values))
      ensures (result, Value()) == DataChannels.CreateDataChannel(old(Value()), config)
    {
      hide Allocate, Values;
      var id :- AllocateStream();
      var channel := new InternalDataChannel(Closed, config, id, channelIdIndex);
      if state == Connected {
        channel.state := Opening;
        SendMessage(channel, OpenRequest(config), true);
      }
      result := Ok(Handle(channelIdIndex, id, config, channel.state));
      Insert(channel);
    }

    method Insert(channel: InternalDataChannel)
      requires Valid() && channel !in internalChannels.Values
      modifies `channelIdIndex, `internalChannels
      ensures Valid() && internalChannels == old(internalChannels)[channel.internalChannelId := channel]
      ensures Value() == AddChannel(old(Value()), channel.internalChannelId, channel.Value())
    {
      channelIdIndex := (channelIdIndex + 1) % 0x1_0000_0000;
      internalChannels := internalChannels[channel.internalChannelId := channel];
    }

    method ProcessSctpMessage(stream: u16, message: Message, accepted: bool) returns (received: Option<Handle>)
      requires Valid()
      modifies this, internalChannels.Values
      ensures Valid() && fresh(internalChannels.Values - old(internalChannels.Values))
      ensures (received, Value()) == Receive(old(Value()), stream, message, accepted)
    {
      received := None;
      match message {
        case Data(content) =>
          if stream in internalChannels {
            var channel := internalChannels[stream];
            if channel.state == Open || channel.state == Opening {
              channel.Emit(MessageReceived(content));
              OneCellChanged(old(Values(internalChannels)), channel);
            }
          }
        case OpenRequest(config) =>
          received := ProcessOpen(stream, config, accepted);
        case OpenAck =>
          if stream in internalChannels {
            var channel := internalChannels[stream];
            if channel.state == Opening {
              channel.MoveTo(Open);
              OneCellChanged(old(Values(internalChannels)), channel);
            }
          }
      }
    }

    method ProcessOpen(stream: u16, config: Config, accepted: bool) returns (received: Option<Handle>)
      requires Valid()
      modifies this, internalChannels.Values
      ensures Valid() && fresh(internalChannels.Values - old(internalChannels.Values))
      ensures (received, Value()) == Receive(old(Value()), stream, OpenRequest(config), accepted)
    {
      if stream % 2 == if dtlsRoleClient then 0 else 1 {
        RequestStreamReset(stream, accepted);
        return None;
      }
      if stream in internalChannels {
        CloseDatachannelLocally(internalChannels[stream], accepted);
        return None;
      }
      var channel := new InternalDataChannel(Open, config, stream, channelIdIndex);
      received := Some(Handle(channelIdIndex, stream, config, Open));
      SendMessage(channel, OpenAck, true);
      Insert(channel);
    }

    method RetireChannel(stream: u16)
      requires Valid()
      modifies `internalChannels, `retired, internalChannels.Values
      ensures Valid() && internalChannels.Values <= old(internalChannels.Values)
      ensures Value() == Retire(old(Value()), stream)
    {
      if stream in internalChannels {
        var channel := internalChannels[stream];
        if channel.state != Closed {
          channel.Emit(StateChanged(Closed));
          OneCellChanged(old(Values(internalChannels)), channel);
        }
        Forget(stream);
      }
    }

    /** The object itself is only recorded: the event queue's other end still has what it was given. */
    method Forget(stream: u16)
      requires Valid() && stream in internalChannels
      modifies `internalChannels, `retired
      ensures Valid() && internalChannels.Values <= old(internalChannels.Values)
      ensures Value() == old(Value()).(channels := old(Value()).channels - {stream},
                                       retired := old(Value()).retired + [old(internalChannels[stream].Value())])
    {
      retired := retired + [internalChannels[stream].Value()];
      internalChannels := internalChannels - {stream};
    }

    method ProcessStreamReset(flags: ResetFlags, streams: seq<u16>, accepted: bool)
      requires Valid()
      modifies this, internalChannels.Values
      ensures Valid() && internalChannels.Values <= old(internalChannels.Values)
      ensures Value() == HandleReset(old(Value()), flags, streams, accepted)
    {
      hide Retire, SendResets;
      if !flags.denied && !flags.failed && flags.incoming {
        ghost var all := RetireAll(Value(), streams);
        for i := 0 to |streams|
          invariant Valid() && internalChannels.Values <= old(internalChannels.Values)
          invariant RetireAll(Value(), streams[i..]) == all
        {
          assert streams[i..][1..] == streams[i + 1..];
          RetireChannel(streams[i]);
        }
      }
      SendOutgoingStreamResets(accepted);
    }

    method ProcessAssocChange(up: bool)
      requires Valid()
      modifies `state
      ensures Valid() && Value() == if up then CommunicationUp(old(Value())) else old(Value())
    {
      if up {
        state := Connected;
      }
    }

    method HandleTransportConnected(hasTransport: bool)
      requires Valid() && (hasTransport && state == Disconnected ==> remoteConfig.Some?)
      modifies `state
      ensures Valid() && Value() == if hasTransport then TransportConnected(old(Value())) else old(Value())
    {
      if !hasTransport || state != Disconnected {
        return;
      }
      state := ApplicationState.Connecting;
    }

    method HandleSend(stream: u16, content: Content)
      requires Valid()
      modifies `sent
      ensures Valid() && Value() == Send(old(Value()), stream, content)
    {
      if stream in internalChannels {
        SendMessage(internalChannels[stream], Data(content), false);
      }
    }

    method HandleClose(stream: u16, accepted: bool)
      requires Valid()
      modifies this, internalChannels.Values
      ensures Valid() && Value() == CloseLocally(old(Value()), stream, accepted)
    {
      if stream in internalChannels {
        CloseDatachannelLocally(internalChannels[stream], accepted);
      }
    }

    method SetRemoteDescription(media: Negotiation.Media, port: u16, configures: bool)
      returns (error: Option<DescriptionError>)
      requires Valid()
      modifies `dtlsRoleClient, `remoteConfig
      ensures Valid() && (error, Value()) == DataChannels.SetRemoteDescription(old(Value()), media, port, configures)
    {
      var client;
      match media.setup {
        case Active => client := false;
        case Passive => client := true;
        case Actpass => client := false;
        case _ => return Some(RoleError(Negotiation.MissingSetup));
      }
      if remoteConfig.Some? {
        if dtlsRoleClient != client {
          return Some(RoleError(Negotiation.RoleMismatch));
        }
        if remoteConfig.value != port {
          return Some(PortMismatch);
        }
      } else {
        dtlsRoleClient := client;
        if !configures {
          return Some(ConfigurationFailed);
        }
        remoteConfig := Some(port);
      }
      error := None;
    }
  }
}
