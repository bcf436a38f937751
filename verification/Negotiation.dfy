/**
 * One end of an offer/answer negotiation as a value (src/rtc.rs, src/media/media_line.rs, src/media/sender.rs and the
 * setup role of src/transport/mod.rs). `PeerConnections` shows that the source's loops compute these functions.
 *
 * The source calls the states written `Initial`, `Stable` and `Fresh` here `None`, `Negotiated` and `None`.
 */
module Negotiation {
  import opened Prelude
  import opened SortedKeySets

  datatype SignallingState = Initial | HaveLocalOffer | HaveRemoteOffer | Stable | NegotiationRequired

  datatype NegotiationState = Fresh | Changed | Propagated | Negotiated {
    /** Waiting to be told to the other side. */
    predicate Open() { Fresh? || Changed? }
  }

  datatype MediaType = Audio | Video | Application

  datatype Codec = Codec(payloadType: u8, details: string)

  type Properties = map<string, Option<string>>

  datatype Line = Line(
    id: nat,
    mediaType: MediaType,
    sdpIndex: Option<nat>,
    state: NegotiationState,
    localStreams: seq<u32>,
    remoteStreams: set<u32>,
    codecs: seq<Codec>)

  /** `closed` says that the application has dropped its handle. */
  datatype Sender = Sender(line: nat, state: NegotiationState, properties: Properties, closed: bool)

  datatype Setup = Unset | Active | Passive | Actpass | Holdconn

  /** The setup role, and whether a remote description has fixed it. */
  datatype Transport = Transport(setup: Setup, hasRemote: bool)

  datatype Channels = Channels(dtlsRoleClient: bool, configured: bool)

  datatype Direction = Sendrecv | Sendonly | Recvonly | Inactive

  /** One media section; `Unset` stands for a section without a setup attribute. */
  datatype Media = Media(
    mediaType: MediaType,
    setup: Setup,
    direction: Direction,
    codecs: seq<Codec>,
    streams: map<u32, Properties>)

  type Description = seq<Media>

  /** `described` is what the last description generated here said of each line; no code keeps it. */
  datatype Peer = Peer(
    signalling: SignallingState,
    lines: seq<Line>,
    nextId: nat,
    senders: map<u32, Sender>,
    transport: Transport,
    channels: Option<Channels>,
    described: map<nat, Media>)

  function NewPeer(): Peer {
    Peer(Initial, [], 0, map[], Transport(Unset, false), None, map[])
  }

  // --- finding lines -----------------------------------------------------------------------------

  datatype Query =
    | FreeFor(mediaType: MediaType)
    | UnassignedOf(mediaType: MediaType)
    | WithIndex(i: nat)
    | WithId(id: nat)

  predicate Matches(query: Query, line: Line) {
    match query
    case FreeFor(mediaType) => line.mediaType == mediaType && line.localStreams == []
    case UnassignedOf(mediaType) => line.mediaType == mediaType && line.sdpIndex == None
    case WithIndex(i) => line.sdpIndex == Some(i)
    case WithId(id) => line.id == id
  }

  function FindFrom(lines: seq<Line>, query: Query, from: nat): (found: nat)
    requires from <= |lines|
    ensures from <= found <= |lines|
    ensures found < |lines| ==> Matches(query, lines[found])
    ensures forall j :: from <= j < found ==> !Matches(query, lines[j])
    decreases |lines| - from
  {
    if from == |lines| || Matches(query, lines[from]) then from else FindFrom(lines, query, from + 1)
  }

  function Find(lines: seq<Line>, query: Query): (found: nat)
    ensures found <= |lines|
    ensures found < |lines| ==> Matches(query, lines[found])
    ensures forall j :: 0 <= j < found ==> !Matches(query, lines[j])
  {
    FindFrom(lines, query, 0)
  }

  // --- local changes -----------------------------------------------------------------------------

  function NewLine(p: Peer, mediaType: MediaType): Line {
    Line(p.nextId, mediaType, None, Fresh, [], {}, [])
  }

  /** The first line of this type without local streams, or a new one; and its position. */
  function AllocateLine(p: Peer, mediaType: MediaType): (r: (Peer, nat))
    ensures r.1 < |r.0.lines|
  {
    var position := Find(p.lines, FreeFor(mediaType));
    if position < |p.lines| then (p, position)
    else (p.(lines := p.lines + [NewLine(p, mediaType)], nextId := p.nextId + 1), |p.lines|)
  }

  function CreateSender(p: Peer, mediaType: MediaType, ssrc: u32, initial: Properties): Peer {
    var (host, position) := AllocateLine(p, mediaType);
    var line := host.lines[position];
    host.(lines := host.lines[position := line.(localStreams := line.localStreams + [ssrc])],
          senders := host.senders[ssrc := Sender(line.id, Fresh, initial, false)])
  }

  function CloseSender(p: Peer, ssrc: u32): Peer {
    if ssrc in p.senders then p.(senders := p.senders[ssrc := p.senders[ssrc].(closed := true)]) else p
  }

  /** A refused change has no effect; an allowed one is waiting to be told. */
  function TryChange(state: NegotiationState): Option<NegotiationState> {
    match state
    case Propagated => None
    case Negotiated => Some(Changed)
    case _ => Some(state)
  }

  function RegisterProperty(p: Peer, ssrc: u32, key: string, value: Option<string>): Peer {
    if key == "cname" || ssrc !in p.senders then p
    else
      var sender := p.senders[ssrc];
      match TryChange(sender.state)
      case None => p
      case Some(state) =>
        p.(senders := p.senders[ssrc := sender.(state := state, properties := sender.properties[key := value])])
  }

  function UnsetProperty(p: Peer, ssrc: u32, key: string): Peer {
    if ssrc !in p.senders then p
    else
      var sender := p.senders[ssrc];
      match TryChange(sender.state)
      case None => p
      case Some(state) =>
        if key !in sender.properties then p
        else p.(senders := p.senders[ssrc := sender.(state := state, properties := sender.properties - {key})])
  }

  function WithoutCodec(codecs: seq<Codec>, payloadType: u8): seq<Codec> {
    if codecs == [] then []
    else (if codecs[0].payloadType == payloadType then [] else [codecs[0]]) + WithoutCodec(codecs[1..], payloadType)
  }

  /** `register_local_codec`, or `unregister_local_codec` when there is nothing to add. */
  function ChangeCodec(p: Peer, lineId: nat, payloadType: u8, add: Option<Codec>): Peer {
    var position := Find(p.lines, WithId(lineId));
    if position == |p.lines| then p
    else
      var line := p.lines[position];
      match TryChange(line.state)
      case None => p
      case Some(state) =>
        var kept := WithoutCodec(line.codecs, payloadType);
        var codecs := if add.Some? then kept + [add.value] else kept;
        p.(lines := p.lines[position := line.(state := state, codecs := codecs)])
  }

  /** The application channel comes with a media line of its own unless there is one. */
  function OpenApplicationChannel(p: Peer): Peer {
    if p.channels.Some? then p
    else
      var open := p.(channels := Some(Channels(true, false)));
      if exists j :: 0 <= j < |p.lines| && p.lines[j].mediaType == Application then open
      else AllocateLine(open, Application).0
  }

  function Without(streams: seq<u32>, ssrc: u32): (kept: seq<u32>)
    ensures forall s :: s in kept <==> s in streams && s != ssrc
  {
    if streams == [] then []
    else (if streams[0] == ssrc then [] else [streams[0]]) + Without(streams[1..], ssrc)
  }

  /** A dropped sender leaves its line, which then has news, or nothing left to say at all. */
  function RemoveSender(p: Peer, ssrc: u32): Peer
    requires ssrc in p.senders
  {
    var removed := p.(senders := p.senders - {ssrc});
    var position := Find(p.lines, WithId(p.senders[ssrc].line));
    if position == |p.lines| then removed
    else
      var line := p.lines[position];
      var left := line.(localStreams := Without(line.localStreams, ssrc),
                        state := if line.state == Fresh then Fresh else Changed);
      if left.localStreams == [] && left.remoteStreams == {} && left.sdpIndex == None then
        removed.(lines := p.lines[..position] + p.lines[position + 1..])
      else
        removed.(lines := p.lines[position := left])
  }

  function RemoveSenders(p: Peer, list: seq<u32>): Peer
    decreases |list|
  {
    if list == [] then p
    else RemoveSenders(if list[0] in p.senders then RemoveSender(p, list[0]) else p, list[1..])
  }

  lemma {:induction false} RemovalKeepsSignalling(p: Peer, list: seq<u32>)
    ensures RemoveSenders(p, list).signalling == p.signalling
    decreases |list|
  {
    if list != [] {
      RemovalKeepsSignalling(if list[0] in p.senders then RemoveSender(p, list[0]) else p, list[1..]);
    }
  }

  function ClosedSenders(p: Peer): set<u32> {
    set ssrc | ssrc in p.senders && p.senders[ssrc].closed
  }

  ghost function PollSenders(p: Peer): Peer {
    RemoveSenders(p, SortedKeys(ClosedSenders(p)))
  }

  predicate HasNews(p: Peer) {
    || (exists j :: 0 <= j < |p.lines| && p.lines[j].state.Open())
    || (exists ssrc :: ssrc in p.senders && p.senders[ssrc].state.Open())
  }

  /** The negotiation part of `poll_next`. */
  ghost function Poll(p: Peer): Peer {
    var polled := PollSenders(p);
    if polled.signalling == Stable && HasNews(polled) then polled.(signalling := NegotiationRequired) else polled
  }

  // --- generating a description ------------------------------------------------------------------

  /** One past the highest index in use. */
  function NextIndex(lines: seq<Line>): nat {
    if lines == [] then 0
    else
      var last := |lines| - 1;
      var rest := NextIndex(lines[..last]);
      if lines[last].sdpIndex.Some? && lines[last].sdpIndex.value >= rest then lines[last].sdpIndex.value + 1 else rest
  }

  /** From `position` on, every line without an index gets the next one. */
  function AssignFrom(lines: seq<Line>, position: nat, next: nat): (numbered: seq<Line>)
    requires position <= |lines|
    ensures |numbered| == |lines|
    decreases |lines| - position
  {
    if position == |lines| then lines
    else if lines[position].sdpIndex.Some? then AssignFrom(lines, position + 1, next)
    else AssignFrom(lines[position := lines[position].(sdpIndex := Some(next))], position + 1, next + 1)
  }

  function DescribedSetup(setup: Setup): Setup {
    match setup
    case Unset => Actpass
    case _ => setup
  }

  function StreamsOf(p: Peer, lineId: nat): map<u32, Properties> {
    map ssrc | ssrc in p.senders && p.senders[ssrc].line == lineId :: p.senders[ssrc].properties
  }

  function MediaOf(p: Peer, line: Line, isOffer: bool): Media {
    var setup := DescribedSetup(p.transport.setup);
    if line.mediaType == Application then Media(Application, setup, Sendrecv, [], map[])
    else
      var noLocal, noRemote := line.localStreams == [], line.remoteStreams == {} && !isOffer;
      var direction := if noLocal && noRemote then Inactive else if noLocal then Recvonly
                       else if noRemote then Sendonly else Sendrecv;
      Media(line.mediaType, setup, direction, line.codecs, StreamsOf(p, line.id))
  }

  predicate CanDescribe(p: Peer, line: Line) {
    if line.mediaType == Application then p.channels.Some? else line.codecs != []
  }

  /** The lines with indices 0, 1, ... as long as there are such. */
  function Registered(lines: seq<Line>, from: nat, count: nat): (registered: seq<Line>)
    decreases count
  {
    var position := Find(lines, WithIndex(from));
    if count == 0 || position == |lines| then [] else [lines[position]] + Registered(lines, from + 1, count - 1)
  }

  function RegisteredLines(lines: seq<Line>): seq<Line> {
    Registered(lines, 0, NextIndex(lines))
  }

  function Promote(state: NegotiationState, isOffer: bool): NegotiationState {
    if !isOffer then Negotiated else if state.Open() then Propagated else state
  }

  ghost function PromoteLines(lines: seq<Line>, isOffer: bool): (promoted: seq<Line>)
    ensures |promoted| == |lines|
  {
    seq(|lines|, j requires 0 <= j < |lines| =>
      if lines[j].sdpIndex.Some? then lines[j].(state := Promote(lines[j].state, isOffer)) else lines[j])
  }

  /** A sender is promoted with the line that hosts it. */
  function PromoteSender(lines: seq<Line>, sender: Sender, isOffer: bool): Sender {
    if Find(lines, WithId(sender.line)) < |lines| then sender.(state := Promote(sender.state, isOffer)) else sender
  }

  ghost function PromoteSenders(p: Peer, isOffer: bool): map<u32, Sender> {
    map ssrc | ssrc in p.senders :: PromoteSender(p.lines, p.senders[ssrc], isOffer)
  }

  datatype CreateError = CreateInvalidState | DescribeError

  /** The state before the media sections are written. */
  ghost function Prepared(p: Peer): Peer {
    PollSenders(if p.signalling == HaveRemoteOffer then p else p.(lines := AssignFrom(p.lines, 0, NextIndex(p.lines))))
  }

  ghost function Describe(p: Peer, isOffer: bool): Description {
    var registered := RegisteredLines(p.lines);
    seq(|registered|, i requires 0 <= i < |registered| => MediaOf(p, registered[i], isOffer))
  }

  ghost function RegisteredIds(lines: seq<Line>): (ids: set<nat>)
    ensures forall id :: id in ids ==> Find(lines, WithId(id)) < |lines|
  {
    set j | 0 <= j < |lines| && lines[j].sdpIndex.Some? :: lines[j].id
  }

  ghost function DescribedBy(p: Peer, isOffer: bool): map<nat, Media> {
    map id | id in RegisteredIds(p.lines) :: MediaOf(p, p.lines[Find(p.lines, WithId(id))], isOffer)
  }

  ghost predicate CanDescribeAll(p: Peer) {
    forall j :: 0 <= j < |p.lines| && p.lines[j].sdpIndex.Some? ==> CanDescribe(p, p.lines[j])
  }

  /** The new state, and the description unless some line cannot be described. */
  ghost function CreateLocalDescription(p: Peer): (Result<Description, CreateError>, Peer) {
    if p.signalling == HaveLocalOffer || p.signalling == Stable then (Err(CreateInvalidState), p)
    else
      var isOffer := p.signalling != HaveRemoteOffer;
      var prepared := Prepared(p);
      if !CanDescribeAll(prepared) then (Err(DescribeError), prepared)
      else
        (Ok(Describe(prepared, isOffer)),
         prepared.(lines := PromoteLines(prepared.lines, isOffer),
                   senders := PromoteSenders(prepared, isOffer),
                   signalling := if isOffer then HaveLocalOffer else Stable,
                   described := DescribedBy(prepared, isOffer)))
  }

  // --- applying a description --------------------------------------------------------------------

  datatype Mode = Offer | Answer

  datatype ApplyError =
    | ApplyInvalidState
    | InvalidSetupValue
    | ContradictingSetupValue
    | ApplicationChannelMissing
    | RoleMismatch
    | MissingSetup
    | MissingCodecDescription
    | MediaFault

  function ApplyTransport(t: Transport, media: Media): Result<Transport, ApplyError> {
    if media.direction == Inactive then Ok(t)
    else if media.setup == Unset then Err(MissingSetup)
    else if t.hasRemote then Ok(t)
    else
      match t.setup
      case Active => if media.setup == Passive then Ok(Transport(Active, true)) else Err(ContradictingSetupValue)
      case Passive => if media.setup == Active then Ok(Transport(Passive, true)) else Err(ContradictingSetupValue)
      case Holdconn => Ok(Transport(Holdconn, true))
      case _ =>
        match media.setup
        case Passive => Ok(Transport(Active, true))
        case Active => Ok(Transport(Passive, true))
        case Holdconn => Ok(Transport(Holdconn, true))
        case _ => if t.setup == Actpass then Err(InvalidSetupValue) else Ok(Transport(Passive, true))
  }

  /** `ChannelApplication::set_remote_description`. */
  function ApplyChannels(c: Channels, media: Media): Result<Channels, ApplyError> {
    match media.setup
    case Holdconn => Err(MissingSetup)
    case Unset => Err(MissingSetup)
    case setup =>
      var client := setup == Passive;
      if c.configured && c.dtlsRoleClient != client then Err(RoleMismatch) else Ok(Channels(client, true))
  }

  function RemoteStreams(media: Media): set<u32> {
    if media.direction == Recvonly then {} else media.streams.Keys
  }

  /**
   * The line a media section is for: the one with its index, else the first unassigned one of its type, which gets the
   * index.
   */
  function Claim(lines: seq<Line>, i: nat, mediaType: MediaType): (r: (seq<Line>, nat))
    ensures r.1 <= |r.0| && |r.0| == |lines|
  {
    var byIndex := Find(lines, WithIndex(i));
    if byIndex < |lines| then (lines, byIndex)
    else
      var position := Find(lines, UnassignedOf(mediaType));
      if position < |lines| then (lines[position := lines[position].(sdpIndex := Some(i))], position)
      else (lines, |lines|)
  }

  /** An audio or video line looks up the codec of each format of its section; an application section describes none. */
  predicate Readable(line: Line, media: Media) {
    media.mediaType == Application ==> line.mediaType == Application
  }

  function ApplyMedia(p: Peer, i: nat, media: Media): Result<Peer, ApplyError> {
    var (lines, position) := Claim(p.lines, i, media.mediaType);
    var transport :- ApplyTransport(p.transport, media);
    if position < |lines| && !Readable(lines[position], media) then Err(MissingCodecDescription)
    else if position < |lines| then
      var line := lines[position].(remoteStreams := RemoteStreams(media));
      var applied := p.(lines := lines[position := line], transport := transport);
      if line.mediaType != Application then Ok(applied)
      else if p.channels.None? then Err(ApplicationChannelMissing)
      else
        var channels :- ApplyChannels(p.channels.value, media);
        Ok(applied.(channels := Some(channels)))
    else
      var line := Line(p.nextId, media.mediaType, Some(i), Fresh, [], RemoteStreams(media), []);
      var applied := p.(lines := lines + [line], nextId := p.nextId + 1, transport := transport);
      if media.mediaType != Application then Ok(applied)
      else
        var channels :- ApplyChannels(if p.channels.Some? then p.channels.value else Channels(true, false), media);
        Ok(applied.(channels := Some(channels)))
  }

  /** How far a section gets that turns out to be unusable for reasons outside this model. */
  datatype Progress = Untouched | Claimed | Connected | Updated | RoleTaken

  datatype Fault = Fault(at: nat, progress: Progress)

  /** The remote side is recorded before its setup is found to contradict. */
  function TransportAfter(t: Transport, media: Media): Transport {
    match ApplyTransport(t, media)
    case Ok(applied) => applied
    case Err(error) => if error == MissingSetup then t else t.(hasRemote := true)
  }

  /** The index is given and, for a new line, an identifier used up. */
  function Claiming(p: Peer, i: nat, media: Media): (r: (Peer, nat))
    ensures r.1 <= |r.0.lines|
  {
    var (lines, position) := Claim(p.lines, i, media.mediaType);
    (p.(lines := lines, nextId := if position == |lines| then p.nextId + 1 else p.nextId), position)
  }

  /** The line has its remote streams, and a new application line its channels, before the channels read the section. */
  function Updating(p: Peer, position: nat, media: Media): Peer {
    if position < |p.lines| then
      p.(lines := p.lines[position := p.lines[position].(remoteStreams := RemoteStreams(media))])
    else if media.mediaType == Application && p.channels.None? then p.(channels := Some(Channels(true, false)))
    else p
  }

  /** The channels take their role before the SCTP library accepts the configuration. */
  function RoleBeforeConfiguration(before: Option<Channels>, after: Option<Channels>): Option<Channels> {
    if after.Some? && !(before.Some? && before.value.configured) then Some(after.value.(configured := false)) else after
  }

  /** One section, up to where it fails. */
  function ApplySection(p: Peer, i: nat, media: Media, stop: Option<Progress>): (Option<ApplyError>, Peer) {
    if stop == Some(Untouched) then (Some(MediaFault), p)
    else
      var (claimed, position) := Claiming(p, i, media);
      var connected := claimed.(transport := TransportAfter(p.transport, media));
      var updated := Updating(connected, position, media);
      if stop == Some(Claimed) then (Some(MediaFault), claimed)
      else if ApplyTransport(p.transport, media).Err? then (Some(ApplyTransport(p.transport, media).error), connected)
      else if stop == Some(Connected) then (Some(MediaFault), connected)
      else if stop == Some(Updated) then (Some(MediaFault), updated)
      else
        match ApplyMedia(p, i, media)
        case Err(error) => (Some(error), updated)
        case Ok(applied) =>
          if stop == Some(RoleTaken) then
            (Some(MediaFault), updated.(channels := RoleBeforeConfiguration(p.channels, applied.channels)))
          else (None, applied)
  }

  function StopAt(fault: Option<Fault>, i: nat): Option<Progress> {
    if fault.Some? && fault.value.at == i then Some(fault.value.progress) else None
  }

  function ApplyFrom(p: Peer, description: Description, i: nat, fault: Option<Fault>): (Option<ApplyError>, Peer)
    requires i <= |description|
    decreases |description| - i
  {
    if i == |description| then (None, p)
    else
      var (error, applied) := ApplySection(p, i, description[i], StopAt(fault, i));
      if error.Some? then (error, applied) else ApplyFrom(applied, description, i + 1, fault)
  }

  /** An answer settles what was propagated. */
  function Settled(state: NegotiationState): NegotiationState {
    if state.Propagated? then Negotiated else state
  }

  ghost function SettleLines(lines: seq<Line>): (settled: seq<Line>)
    ensures |settled| == |lines|
  {
    seq(|lines|, j requires 0 <= j < |lines| => lines[j].(state := Settled(lines[j].state)))
  }

  ghost function SettleSenders(senders: map<u32, Sender>): map<u32, Sender> {
    map ssrc | ssrc in senders :: senders[ssrc].(state := Settled(senders[ssrc].state))
  }

  predicate Accepts(signalling: SignallingState, mode: Mode) {
    match mode
    case Offer => signalling == Initial || signalling == Stable
    case Answer => signalling == HaveLocalOffer
  }

  ghost function Finish(p: Peer): Peer {
    if p.signalling == HaveLocalOffer then
      p.(lines := SettleLines(p.lines), senders := SettleSenders(p.senders), signalling := Stable)
    else
      p.(signalling := HaveRemoteOffer)
  }

  ghost function SetRemoteDescription(p: Peer, description: Description, mode: Mode, fault: Option<Fault>)
    : (Option<ApplyError>, Peer)
  {
    if !Accepts(p.signalling, mode) then (Some(ApplyInvalidState), p)
    else
      var (error, applied) := ApplyFrom(p, description, 0, fault);
      if error.Some? then (error, applied) else (None, Finish(applied))
  }

  // --- all the calls -----------------------------------------------------------------------------

  datatype Call =
    | CreatesSender(mediaType: MediaType, ssrc: u32, initial: Properties)
    | DropsSender(ssrc: u32)
    | RegistersProperty(ssrc: u32, key: string, value: Option<string>)
    | UnsetsProperty(ssrc: u32, key: string)
    | ChangesCodec(line: nat, payloadType: u8, add: Option<Codec>)
    | OpensApplicationChannel
    | Polls

  predicate Allowed(p: Peer, call: Call) {
    call.CreatesSender? ==> call.ssrc !in p.senders
  }

  ghost function Local(p: Peer, call: Call): Peer {
    match call
    case CreatesSender(mediaType, ssrc, initial) => CreateSender(p, mediaType, ssrc, initial)
    case DropsSender(ssrc) => CloseSender(p, ssrc)
    case RegistersProperty(ssrc, key, value) => RegisterProperty(p, ssrc, key, value)
    case UnsetsProperty(ssrc, key) => UnsetProperty(p, ssrc, key)
    case ChangesCodec(line, payloadType, add) => ChangeCodec(p, line, payloadType, add)
    case OpensApplicationChannel => OpenApplicationChannel(p)
    case Polls => Poll(p)
  }
}
