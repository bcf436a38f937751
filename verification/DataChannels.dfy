/**
 * One end of the data channels as a value (src/application.rs): allocation of stream ids, opening, acknowledging,
 * closing by stream reset with retry. `ChannelApplications` shows that the source's updates compute these functions.
 */
module DataChannels {
  import opened Prelude
  import Negotiation

  const MAX_CHANNELS := 1024

  datatype ApplicationState = Disconnected | Connecting | Connected

  datatype ChannelState = Opening | Open | Closing | Closed

  datatype ChannelType =
    | Reliable
    | ReliableUnordered
    | PartialReliableRexmit(retransmissions: u32)
    | PartialReliableRexmitUnordered(retransmissions: u32)
    | PartialReliableTimed(milliseconds: u32)
    | PartialReliableTimedUnordered(milliseconds: u32)
  {
    predicate IsOrdered() { Reliable? || PartialReliableRexmit? || PartialReliableTimed? }
  }

  datatype Config = Config(channelType: ChannelType, priority: u16, name: string, protocol: string)

  datatype Content = Text(text: Option<string>) | Binary(bytes: Option<seq<u8>>)

  /** What crosses the association; `Data` stands for the four kinds of user message. */
  datatype Message = OpenRequest(config: Config) | OpenAck | Data(content: Content)

  datatype Notice = MessageReceived(content: Content) | StateChanged(state: ChannelState)

  /** `events` is the channel's whole event queue since it was made. */
  datatype Channel = Channel(state: ChannelState, config: Config, channelId: u32, events: seq<Notice>)

  datatype Packet = Packet(stream: u16, message: Message, unordered: bool)

  /** What the application gets to hold. */
  datatype Handle = Handle(channelId: u32, stream: u16, config: Config, state: ChannelState)

  /** `role.configured` says that a remote description has been applied, with port `remotePort`. */
  datatype Endpoint = Endpoint(
    state: ApplicationState,
    role: Negotiation.Channels,
    remotePort: u16,
    channels: map<u16, Channel>,
    nextChannelId: u32,
    pendingResets: seq<u16>,
    sent: seq<Packet>,
    resetCalls: seq<seq<u16>>,
    retired: seq<Channel>)

  function NewEndpoint(): Endpoint {
    Endpoint(Disconnected, Negotiation.Channels(true, false), 0, map[], 0, [], [], [], [])
  }

  /** The side that is DTLS client opens the even streams (section 6 of RFC 8832). */
  predicate Owns(client: bool, stream: u16) {
    stream % 2 == if client then 0 else 1
  }

  // --- stream resets -----------------------------------------------------------------------------

  /** Refused resets stay pending. */
  function SendResets(e: Endpoint, accepted: bool): Endpoint {
    if e.pendingResets == [] || !accepted then e
    else e.(resetCalls := e.resetCalls + [e.pendingResets], pendingResets := [])
  }

  function RequestReset(e: Endpoint, stream: u16, accepted: bool): Endpoint {
    SendResets(e.(pendingResets := e.pendingResets + [stream]), accepted)
  }

  function Notify(channel: Channel, notice: Notice): Channel {
    channel.(events := channel.events + [notice])
  }

  function ChangeState(channel: Channel, state: ChannelState): Channel {
    Notify(channel, StateChanged(state)).(state := state)
  }

  predicate Live(channel: Channel) {
    channel.state == Opening || channel.state == Open
  }

  function CloseLocally(e: Endpoint, stream: u16, accepted: bool): Endpoint {
    if stream !in e.channels || !Live(e.channels[stream]) then e
    else RequestReset(e.(channels := e.channels[stream := ChangeState(e.channels[stream], Closing)]), stream, accepted)
  }

  /** The other side has reset these streams: their channels are closed and gone. */
  function Retire(e: Endpoint, stream: u16): Endpoint {
    if stream !in e.channels then e
    else
      var channel := e.channels[stream];
      var closed := if channel.state == Closed then channel else Notify(channel, StateChanged(Closed));
      e.(channels := e.channels - {stream}, retired := e.retired + [closed])
  }

  function RetireAll(e: Endpoint, streams: seq<u16>): Endpoint
    decreases |streams|
  {
    if streams == [] then e else RetireAll(Retire(e, streams[0]), streams[1..])
  }

  datatype ResetFlags = ResetFlags(denied: bool, failed: bool, incoming: bool)

  function HandleReset(e: Endpoint, flags: ResetFlags, streams: seq<u16>, accepted: bool): Endpoint {
    SendResets(if !flags.denied && !flags.failed && flags.incoming then RetireAll(e, streams) else e, accepted)
  }

  // --- opening -----------------------------------------------------------------------------------

  datatype CreateError = HardwareChannels | TooManyChannels

  /** The first stream from `from` on, in steps of two, without a channel; none if the 16-bit counter overflows first. */
  function NextFree(channels: map<u16, Channel>, from: u16): Option<u16>
    decreases 0x1_0000 - from
  {
    if from !in channels then Some(from)
    else if from + 2 >= 0x1_0000 then None
    else NextFree(channels, from + 2)
  }

  function Allocate(e: Endpoint): Result<u16, CreateError> {
    match NextFree(e.channels, if e.role.dtlsRoleClient then 0 else 1)
    case None => Err(HardwareChannels)
    case Some(stream) => if stream >= MAX_CHANNELS * 2 then Err(TooManyChannels) else Ok(stream)
  }

  function Transmit(e: Endpoint, stream: u16, channel: Channel, message: Message, enforceOrdered: bool): Endpoint {
    var unordered := !enforceOrdered && channel.state == Open && !channel.config.channelType.IsOrdered();
    e.(sent := e.sent + [Packet(stream, message, unordered)])
  }

  function AddChannel(e: Endpoint, stream: u16, channel: Channel): Endpoint {
    e.(channels := e.channels[stream := channel], nextChannelId := (e.nextChannelId + 1) % 0x1_0000_0000)
  }

  function CreateDataChannel(e: Endpoint, config: Config): (Result<Handle, CreateError>, Endpoint) {
    match Allocate(e)
    case Err(error) => (Err(error), e)
    case Ok(stream) =>
      var state := if e.state == Connected then Opening else Closed;
      var channel := Channel(state, config, e.nextChannelId, []);
      var asked := if e.state == Connected then Transmit(e, stream, channel, OpenRequest(config), true) else e;
      (Ok(Handle(e.nextChannelId, stream, config, state)), AddChannel(asked, stream, channel))
  }

  // --- messages ----------------------------------------------------------------------------------

  /** A message from the other side; a handle if it has opened a channel. */
  function Receive(e: Endpoint, stream: u16, message: Message, accepted: bool): (Option<Handle>, Endpoint) {
    match message
    case OpenRequest(config) =>
      if Owns(e.role.dtlsRoleClient, stream) then (None, RequestReset(e, stream, accepted))
      else if stream in e.channels then (None, CloseLocally(e, stream, accepted))
      else
        var channel := Channel(Open, config, e.nextChannelId, []);
        (Some(Handle(e.nextChannelId, stream, config, Open)),
         AddChannel(Transmit(e, stream, channel, OpenAck, true), stream, channel))
    case OpenAck =>
      (None, if stream in e.channels && e.channels[stream].state == Opening
             then e.(channels := e.channels[stream := ChangeState(e.channels[stream], Open)]) else e)
    case Data(content) =>
      (None, if stream in e.channels && Live(e.channels[stream])
             then e.(channels := e.channels[stream := Notify(e.channels[stream], MessageReceived(content))]) else e)
  }

  /** The application's wish to send; the handle has checked its own state. */
  function Send(e: Endpoint, stream: u16, content: Content): Endpoint {
    if stream in e.channels then Transmit(e, stream, e.channels[stream], Data(content), false) else e
  }

  // --- the association ---------------------------------------------------------------------------

  datatype DescriptionError = RoleError(error: Negotiation.ApplyError) | PortMismatch | ConfigurationFailed

  /** `configures` is what the SCTP library answers; a failure leaves the new role behind. */
  function SetRemoteDescription(e: Endpoint, media: Negotiation.Media, port: u16, configures: bool)
    : (Option<DescriptionError>, Endpoint)
  {
    match Negotiation.ApplyChannels(e.role, media)
    case Err(error) => (Some(RoleError(error)), e)
    case Ok(role) =>
      if e.role.configured then (if e.remotePort != port then Some(PortMismatch) else None, e)
      else if !configures then (Some(ConfigurationFailed), e.(role := role.(configured := false)))
      else (None, e.(role := role, remotePort := port))
  }

  function TransportConnected(e: Endpoint): Endpoint {
    if e.state == Disconnected then e.(state := Connecting) else e
  }

  function CommunicationUp(e: Endpoint): Endpoint {
    e.(state := Connected)
  }

  // --- whole runs --------------------------------------------------------------------------------

  datatype Call =
    | Creates(config: Config)
    | Sends(stream: u16, content: Content)
    | Closes(stream: u16, accepted: bool)
    | Receives(stream: u16, message: Message, accepted: bool)
    | IsReset(flags: ResetFlags, streams: seq<u16>, accepted: bool)
    | IsDescribed(media: Negotiation.Media, port: u16, configures: bool)
    | Connects
    | ComesUp

  /** Nothing arrives before the association is started, and it is started only with a remote description. */
  predicate Allowed(e: Endpoint, call: Call) {
    match call
    case Receives(_, _, _) => e.state != Disconnected
    case IsReset(_, _, _) => e.state != Disconnected
    case Connects => e.role.configured
    case ComesUp => e.state != Disconnected
    case _ => true
  }

  function Next(e: Endpoint, call: Call): Endpoint {
    match call
    case Creates(config) => CreateDataChannel(e, config).1
    case Sends(stream, content) => Send(e, stream, content)
    case Closes(stream, accepted) => CloseLocally(e, stream, accepted)
    case Receives(stream, message, accepted) => Receive(e, stream, message, accepted).1
    case IsReset(flags, streams, accepted) => HandleReset(e, flags, streams, accepted)
    case IsDescribed(media, port, configures) => SetRemoteDescription(e, media, port, configures).1
    case Connects => TransportConnected(e)
    case ComesUp => CommunicationUp(e)
  }

  /** The endpoint after a run, if every call of it was allowed when made. */
  function After(calls: seq<Call>): Option<Endpoint> {
    if calls == [] then Some(NewEndpoint())
    else
      var before, call := After(calls[..|calls| - 1]), calls[|calls| - 1];
      if before.Some? && Allowed(before.value, call) then Some(Next(before.value, call)) else None
  }
}
