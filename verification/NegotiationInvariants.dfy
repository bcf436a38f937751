/** What one end of a negotiation keeps over every run (src/rtc.rs, src/media/media_line.rs, src/media/sender.rs). */
module NegotiationInvariants {
  import opened Prelude
  import opened SortedKeySets
  import opened Negotiation

  // --- indices -----------------------------------------------------------------------------------

  /** The indices in use are 0, 1, ..., each on exactly one line, and `types` lists those lines' media types. */
  ghost predicate Indexed(lines: seq<Line>, types: seq<MediaType>) {
    && (forall j :: 0 <= j < |lines| && lines[j].sdpIndex.Some? ==>
          lines[j].sdpIndex.value < |types| && types[lines[j].sdpIndex.value] == lines[j].mediaType)
    && (forall i :: 0 <= i < |types| ==> Find(lines, WithIndex(i)) < |lines|)
    && (forall j, k :: 0 <= j < k < |lines| && lines[j].sdpIndex.Some? ==> lines[j].sdpIndex != lines[k].sdpIndex)
  }

  ghost predicate DistinctIds(p: Peer) {
    && (forall j :: 0 <= j < |p.lines| ==> p.lines[j].id < p.nextId)
    && (forall j, k :: 0 <= j < k < |p.lines| ==> p.lines[j].id != p.lines[k].id)
  }

  ghost predicate Shaped(p: Peer, types: seq<MediaType>) {
    Indexed(p.lines, types) && DistinctIds(p)
  }

  lemma IndexInUse(lines: seq<Line>, types: seq<MediaType>, i: nat)
    requires Indexed(lines, types)
    ensures Find(lines, WithIndex(i)) < |lines| <==> i < |types|
  {
  }

  lemma IndexedTypesAreUnique(lines: seq<Line>, types: seq<MediaType>, types': seq<MediaType>)
    requires Indexed(lines, types) && Indexed(lines, types')
    ensures types == types'
  {
    IndexInUse(lines, types, |types|);
    IndexInUse(lines, types', |types|);
    IndexInUse(lines, types, |types'|);
    IndexInUse(lines, types', |types'|);
    forall i | 0 <= i < |types| ensures types[i] == types'[i] {
      assert Find(lines, WithIndex(i)) < |lines|;
    }
  }

  lemma {:induction false} NextIndexIsBound(lines: seq<Line>)
    ensures forall j :: 0 <= j < |lines| && lines[j].sdpIndex.Some? ==> lines[j].sdpIndex.value < NextIndex(lines)
    ensures NextIndex(lines) > 0 ==> exists j :: 0 <= j < |lines| && lines[j].sdpIndex == Some(NextIndex(lines) - 1)
    decreases |lines|
  {
    if lines != [] {
      var last := |lines| - 1;
      NextIndexIsBound(lines[..last]);
      assert forall j :: 0 <= j < last ==> lines[j] == lines[..last][j];
    }
  }

  lemma NextIndexCounts(lines: seq<Line>, types: seq<MediaType>)
    requires Indexed(lines, types)
    ensures NextIndex(lines) == |types|
  {
    NextIndexIsBound(lines);
    if |types| > 0 {
      assert Find(lines, WithIndex(|types| - 1)) < |lines|;
    }
  }

  /** Nothing but streams, codecs and states differs. */
  ghost predicate SameShape(lines: seq<Line>, lines': seq<Line>) {
    && |lines| == |lines'|
    && forall j :: 0 <= j < |lines| ==>
         lines'[j].id == lines[j].id && lines'[j].mediaType == lines[j].mediaType
         && lines'[j].sdpIndex == lines[j].sdpIndex
  }

  lemma SameShapeStaysIndexed(lines: seq<Line>, lines': seq<Line>, types: seq<MediaType>)
    requires SameShape(lines, lines') && Indexed(lines, types)
    ensures Indexed(lines', types)
  {
    forall i | 0 <= i < |types| ensures Find(lines', WithIndex(i)) < |lines'| {
      assert Matches(WithIndex(i), lines'[Find(lines, WithIndex(i))]);
    }
  }

  lemma AppendStaysIndexed(lines: seq<Line>, line: Line, types: seq<MediaType>)
    requires Indexed(lines, types)
    requires line.sdpIndex == None || line.sdpIndex == Some(|types|)
    ensures Indexed(lines + [line], if line.sdpIndex.Some? then types + [line.mediaType] else types)
  {
    var longer := lines + [line];
    var types' := if line.sdpIndex.Some? then types + [line.mediaType] else types;
    forall i | 0 <= i < |types'| ensures Find(longer, WithIndex(i)) < |longer| {
      if i < |types| {
        assert Matches(WithIndex(i), longer[Find(lines, WithIndex(i))]);
      } else {
        assert Matches(WithIndex(i), longer[|lines|]);
      }
    }
  }

  lemma AssignStaysIndexed(lines: seq<Line>, position: nat, types: seq<MediaType>)
    requires Indexed(lines, types) && position < |lines| && lines[position].sdpIndex.None?
    ensures Indexed(lines[position := lines[position].(sdpIndex := Some(|types|))], types + [lines[position].mediaType])
  {
    var lines', types' := lines[position := lines[position].(sdpIndex := Some(|types|))], types + [lines[position].mediaType];
    forall i | 0 <= i < |types'| ensures Find(lines', WithIndex(i)) < |lines'| {
      if i < |types| {
        assert Matches(WithIndex(i), lines'[Find(lines, WithIndex(i))]);
      } else {
        assert Matches(WithIndex(i), lines'[position]);
      }
    }
  }

  lemma RemoveStaysIndexed(lines: seq<Line>, position: nat, types: seq<MediaType>)
    requires Indexed(lines, types) && position < |lines| && lines[position].sdpIndex.None?
    ensures Indexed(lines[..position] + lines[position + 1..], types)
  {
    var lines' := lines[..position] + lines[position + 1..];
    forall i | 0 <= i < |types| ensures Find(lines', WithIndex(i)) < |lines'| {
      var j := Find(lines, WithIndex(i));
      assert Matches(WithIndex(i), lines'[if j < position then j else j - 1]);
    }
  }

  /** Making an offer numbers the remaining lines after the ones in use. */
  lemma {:induction false} AssignAll(lines: seq<Line>, position: nat, types: seq<MediaType>)
    returns (types': seq<MediaType>)
    requires position <= |lines| && Indexed(lines, types)
    requires forall j :: 0 <= j < position ==> lines[j].sdpIndex.Some?
    ensures types <= types'
    ensures var numbered := AssignFrom(lines, position, |types|);
            && Indexed(numbered, types')
            && forall j :: 0 <= j < |lines| ==>
                 numbered[j].sdpIndex.Some? && numbered[j] == lines[j].(sdpIndex := numbered[j].sdpIndex)
    decreases |lines| - position
  {
    hide Indexed;
    if position == |lines| {
      types' := types;
    } else if lines[position].sdpIndex.Some? {
      types' := AssignAll(lines, position + 1, types);
    } else {
      AssignStaysIndexed(lines, position, types);
      types' := AssignAll(lines[position := lines[position].(sdpIndex := Some(|types|))], position + 1,
                          types + [lines[position].mediaType]);
    }
  }

  // --- the invariant of one end ------------------------------------------------------------------

  /** Only described lines have anything to be told, and only an outstanding offer blocks changes. */
  ghost predicate Marked(p: Peer) {
    && (forall j :: 0 <= j < |p.lines| ==> MarkedLine(p, p.lines[j]))
    && (forall ssrc :: ssrc in p.senders && p.senders[ssrc].state == Propagated ==> p.signalling == HaveLocalOffer)
  }

  predicate MarkedLine(p: Peer, line: Line) {
    (line.sdpIndex.None? ==> line.state == Fresh) && (line.state == Propagated ==> p.signalling == HaveLocalOffer)
  }

  /** What is not waiting to be told is what the last description generated here said. */
  ghost predicate MirroredLine(p: Peer, line: Line) {
    !line.state.Open() ==>
      && line.id in p.described
      && (line.mediaType != Application ==>
            && p.described[line.id].codecs == line.codecs
            && (forall ssrc :: ssrc in p.described[line.id].streams ==>
                  ssrc in p.senders && p.senders[ssrc].line == line.id)
            && (forall ssrc :: ssrc in p.senders && p.senders[ssrc].line == line.id && !p.senders[ssrc].state.Open() ==>
                  ssrc in p.described[line.id].streams
                  && p.described[line.id].streams[ssrc] == p.senders[ssrc].properties))
  }

  ghost predicate Mirrored(p: Peer) {
    forall j :: 0 <= j < |p.lines| ==> MirroredLine(p, p.lines[j])
  }

  ghost predicate Invariant(p: Peer, types: seq<MediaType>) {
    Shaped(p, types) && Marked(p) && Mirrored(p)
  }

  /** Some line's codecs, senders or properties differ from what the last description generated here said of it. */
  ghost predicate Unreflected(p: Peer) {
    exists j :: 0 <= j < |p.lines| && UnreflectedLine(p, p.lines[j])
  }

  ghost predicate UnreflectedLine(p: Peer, line: Line) {
    || line.id !in p.described
    || (line.mediaType != Application
        && (p.described[line.id].codecs != line.codecs || p.described[line.id].streams != StreamsOf(p, line.id)))
  }

  lemma SettledLineIsReflected(p: Peer, line: Line)
    requires MirroredLine(p, line) && !line.state.Open()
    requires forall ssrc :: ssrc in p.senders ==> !p.senders[ssrc].state.Open()
    ensures !UnreflectedLine(p, line)
  {
    if line.mediaType != Application {
      assert p.described[line.id].streams == StreamsOf(p, line.id);
    }
  }

  /** Whatever the other side has not been told is news. */
  lemma UnreflectedIsNews(p: Peer, types: seq<MediaType>)
    requires Invariant(p, types)
    ensures Unreflected(p) ==> HasNews(p)
  {
    if !HasNews(p) {
      forall j | 0 <= j < |p.lines| ensures !UnreflectedLine(p, p.lines[j]) {
        SettledLineIsReflected(p, p.lines[j]);
      }
    }
  }

  // --- single steps ------------------------------------------------------------------------------

  /** A step that touches one line. */
  lemma LineUpdateKeeps(p: Peer, types: seq<MediaType>, position: nat, line: Line)
    requires Invariant(p, types) && position < |p.lines|
    requires line.id == p.lines[position].id && line.mediaType == p.lines[position].mediaType
    requires line.sdpIndex == p.lines[position].sdpIndex
    requires MarkedLine(p, line) && MirroredLine(p, line)
    ensures Invariant(p.(lines := p.lines[position := line]), types)
  {
    hide Indexed;
    var p' := p.(lines := p.lines[position := line]);
    SameShapeStaysIndexed(p.lines, p'.lines, types);
    forall j | 0 <= j < |p'.lines| ensures MarkedLine(p', p'.lines[j]) && MirroredLine(p', p'.lines[j]) {
      assert MarkedLine(p, p.lines[j]) && MirroredLine(p, p.lines[j]);
    }
  }

  lemma NewLineKeeps(p: Peer, types: seq<MediaType>, line: Line)
    requires Invariant(p, types) && line.id == p.nextId && line.state == Fresh
    requires line.sdpIndex == None || line.sdpIndex == Some(|types|)
    ensures Invariant(p.(lines := p.lines + [line], nextId := p.nextId + 1),
                      if line.sdpIndex.Some? then types + [line.mediaType] else types)
  {
    hide Indexed;
    AppendStaysIndexed(p.lines, line, types);
    var p' := p.(lines := p.lines + [line], nextId := p.nextId + 1);
    forall j | 0 <= j < |p'.lines| ensures MarkedLine(p', p'.lines[j]) && MirroredLine(p', p'.lines[j]) {
      assert j < |p.lines| ==> MarkedLine(p, p.lines[j]) && MirroredLine(p, p.lines[j]);
    }
  }

  /** A step that touches one sender, without making it more settled than what was said of it. */
  lemma SenderUpdateKeeps(p: Peer, types: seq<MediaType>, ssrc: u32, sender: Sender)
    requires Invariant(p, types)
    requires sender.state == Propagated ==> p.signalling == HaveLocalOffer
    requires sender.state.Open() || (ssrc in p.senders && sender == p.senders[ssrc].(closed := sender.closed))
    requires ssrc in p.senders ==> sender.line == p.senders[ssrc].line
    ensures Invariant(p.(senders := p.senders[ssrc := sender]), types)
  {
    hide Indexed;
    var p' := p.(senders := p.senders[ssrc := sender]);
    forall j | 0 <= j < |p'.lines| ensures MarkedLine(p', p'.lines[j]) && MirroredLine(p', p'.lines[j]) {
      assert MarkedLine(p, p.lines[j]) && MirroredLine(p, p.lines[j]);
    }
  }

  lemma AllocateKeeps(p: Peer, types: seq<MediaType>, mediaType: MediaType)
    requires Invariant(p, types)
    ensures Invariant(AllocateLine(p, mediaType).0, types)
    ensures AllocateLine(p, mediaType).0.senders == p.senders && AllocateLine(p, mediaType).0.signalling == p.signalling
  {
    hide Indexed, DistinctIds, Marked, Mirrored;
    NewLineKeeps(p, types, NewLine(p, mediaType));
  }

  lemma CreateSenderKeeps(p: Peer, types: seq<MediaType>, mediaType: MediaType, ssrc: u32, initial: Properties)
    requires Invariant(p, types) && ssrc !in p.senders
    ensures Invariant(CreateSender(p, mediaType, ssrc, initial), types)
  {
    hide Indexed, DistinctIds, Marked, Mirrored;
    AllocateKeeps(p, types, mediaType);
    var (host, position) := AllocateLine(p, mediaType);
    var line := host.lines[position];
    assert MarkedLine(host, line) && MirroredLine(host, line) by { InvariantAt(host, types, position); }
    SenderUpdateKeeps(host, types, ssrc, Sender(line.id, Fresh, initial, false));
    var with := host.(senders := host.senders[ssrc := Sender(line.id, Fresh, initial, false)]);
    InvariantAt(with, types, position);
    LineUpdateKeeps(with, types, position, line.(localStreams := line.localStreams + [ssrc]));
  }

  lemma InvariantAt(p: Peer, types: seq<MediaType>, position: nat)
    requires Invariant(p, types) && position < |p.lines|
    ensures MarkedLine(p, p.lines[position]) && MirroredLine(p, p.lines[position])
  {
  }

  lemma ChangeCodecKeeps(p: Peer, types: seq<MediaType>, lineId: nat, payloadType: u8, add: Option<Codec>)
    requires Invariant(p, types)
    ensures Invariant(ChangeCodec(p, lineId, payloadType, add), types)
  {
    hide Indexed, DistinctIds, Marked, Mirrored;
    var position := Find(p.lines, WithId(lineId));
    if position < |p.lines| && TryChange(p.lines[position].state).Some? {
      InvariantAt(p, types, position);
      LineUpdateKeeps(p, types, position, ChangeCodec(p, lineId, payloadType, add).lines[position]);
    }
  }

  lemma OpenChannelKeeps(p: Peer, types: seq<MediaType>)
    requires Invariant(p, types)
    ensures Invariant(OpenApplicationChannel(p), types)
  {
    if p.channels.None? {
      var open := p.(channels := Some(Channels(true, false)));
      assert Invariant(open, types) by { ChannelsKeep(p, types, Channels(true, false)); }
      hide Invariant;
      AllocateKeeps(open, types, Application);
    }
  }

  lemma ChannelsKeep(p: Peer, types: seq<MediaType>, channels: Channels)
    requires Invariant(p, types)
    ensures Invariant(p.(channels := Some(channels)), types)
  {
    hide Indexed;
    var p' := p.(channels := Some(channels));
    forall j | 0 <= j < |p'.lines| ensures MarkedLine(p', p'.lines[j]) && MirroredLine(p', p'.lines[j]) {
      InvariantAt(p, types, j);
    }
  }

  lemma RemoveSenderKeeps(p: Peer, types: seq<MediaType>, ssrc: u32)
    requires Invariant(p, types) && ssrc in p.senders
    ensures Invariant(RemoveSender(p, ssrc), types) && RemoveSender(p, ssrc).signalling == p.signalling
  {
    hide Invariant, Without;
    var position := Find(p.lines, WithId(p.senders[ssrc].line));
    if position == |p.lines| {
      RemoveUnhostedKeeps(p, types, ssrc);
    } else {
      var line := p.lines[position];
      var left := line.(localStreams := Without(line.localStreams, ssrc),
                        state := if line.state == Fresh then Fresh else Changed);
      hide Find;
      RemoveHostedKeeps(p, types, ssrc, position, left);
      UpdateKeepsOthers(p.lines, position, left);
    }
  }

  lemma RemoveHostedKeeps(p: Peer, types: seq<MediaType>, ssrc: u32, position: nat, left: Line)
    requires Invariant(p, types) && ssrc in p.senders && position < |p.lines|
    requires p.lines[position].id == p.senders[ssrc].line
    requires left == p.lines[position].(localStreams := left.localStreams,
                                        state := if p.lines[position].state == Fresh then Fresh else Changed)
    ensures var rest := p.(lines := p.lines[position := left], senders := p.senders - {ssrc});
            && Invariant(rest, types)
            && (left.sdpIndex == None ==>
                  Invariant(rest.(lines := rest.lines[..position] + rest.lines[position + 1..]), types))
  {
    hide Invariant;
    InvariantAt(p, types, position);
    LineUpdateKeeps(p, types, position, left);
    var marked := p.(lines := p.lines[position := left]);
    RemoveMarkedKeeps(marked, types, ssrc, position);
    if left.sdpIndex == None {
      RemoveLineKeeps(marked.(senders := p.senders - {ssrc}), types, position);
    }
  }

  lemma UpdateKeepsOthers(lines: seq<Line>, position: nat, line: Line)
    requires position < |lines|
    ensures lines[position := line][..position] == lines[..position]
    ensures lines[position := line][position + 1..] == lines[position + 1..]
  {
  }

  lemma RemoveUnhostedKeeps(p: Peer, types: seq<MediaType>, ssrc: u32)
    requires Invariant(p, types) && ssrc in p.senders && Find(p.lines, WithId(p.senders[ssrc].line)) == |p.lines|
    ensures Invariant(p.(senders := p.senders - {ssrc}), types)
  {
    hide Indexed;
    var p' := p.(senders := p.senders - {ssrc});
    forall j | 0 <= j < |p'.lines| ensures MarkedLine(p', p'.lines[j]) && MirroredLine(p', p'.lines[j]) {
      InvariantAt(p, types, j);
      assert !Matches(WithId(p.senders[ssrc].line), p.lines[j]);
    }
  }

  lemma RemoveMarkedKeeps(p: Peer, types: seq<MediaType>, ssrc: u32, position: nat)
    requires Invariant(p, types) && ssrc in p.senders && position < |p.lines|
    requires p.lines[position].id == p.senders[ssrc].line && p.lines[position].state.Open()
    ensures Invariant(p.(senders := p.senders - {ssrc}), types)
  {
    hide Indexed;
    var p' := p.(senders := p.senders - {ssrc});
    forall j | 0 <= j < |p'.lines| ensures MarkedLine(p', p'.lines[j]) && MirroredLine(p', p'.lines[j]) {
      InvariantAt(p, types, j);
    }
  }

  lemma RemoveLineKeeps(p: Peer, types: seq<MediaType>, position: nat)
    requires Invariant(p, types) && position < |p.lines| && p.lines[position].sdpIndex.None?
    ensures Invariant(p.(lines := p.lines[..position] + p.lines[position + 1..]), types)
  {
    hide Indexed;
    RemoveStaysIndexed(p.lines, position, types);
    var p' := p.(lines := p.lines[..position] + p.lines[position + 1..]);
    forall j | 0 <= j < |p'.lines|
      ensures MarkedLine(p', p'.lines[j]) && MirroredLine(p', p'.lines[j])
    {
      InvariantAt(p, types, if j < position then j else j + 1);
    }
  }

  lemma {:induction false} RemoveSendersKeeps(p: Peer, types: seq<MediaType>, list: seq<u32>)
    requires Invariant(p, types)
    ensures Invariant(RemoveSenders(p, list), types) && RemoveSenders(p, list).signalling == p.signalling
    decreases |list|
  {
    hide Invariant, RemoveSender;
    if list != [] {
      var rest := p;
      if list[0] in p.senders {
        RemoveSenderKeeps(p, types, list[0]);
        rest := RemoveSender(p, list[0]);
      }
      RemoveSendersKeeps(rest, types, list[1..]);
    }
  }

  lemma SignallingKeeps(p: Peer, types: seq<MediaType>, signalling: SignallingState)
    requires Invariant(p, types) && p.signalling != HaveLocalOffer
    ensures Invariant(p.(signalling := signalling), types)
  {
    hide Indexed;
    var p' := p.(signalling := signalling);
    forall j | 0 <= j < |p'.lines| ensures MarkedLine(p', p'.lines[j]) && MirroredLine(p', p'.lines[j]) {
      InvariantAt(p, types, j);
    }
  }

  lemma PollKeeps(p: Peer, types: seq<MediaType>)
    requires Invariant(p, types)
    ensures Invariant(Poll(p), types)
  {
    hide Invariant, RemoveSenders;
    RemoveSendersKeeps(p, types, SortedKeys(ClosedSenders(p)));
    var polled := PollSenders(p);
    if polled.signalling == Stable {
      SignallingKeeps(polled, types, NegotiationRequired);
    }
  }

  /** Local calls keep the invariant, and the indices with it. */
  lemma LocalKeeps(p: Peer, types: seq<MediaType>, call: Call)
    requires Invariant(p, types) && Allowed(p, call)
    ensures Invariant(Local(p, call), types)
  {
    match call
    case CreatesSender(mediaType, ssrc, initial) => CreateSenderKeeps(p, types, mediaType, ssrc, initial);
    case DropsSender(ssrc) =>
      if ssrc in p.senders {
        DropKeeps(p, types, ssrc);
      }
    case RegistersProperty(ssrc, key, value) =>
      if ssrc in p.senders && TryChange(p.senders[ssrc].state).Some? {
        PropertyKeeps(p, types, ssrc, p.senders[ssrc].properties[key := value]);
      }
    case UnsetsProperty(ssrc, key) =>
      if ssrc in p.senders && TryChange(p.senders[ssrc].state).Some? {
        PropertyKeeps(p, types, ssrc, p.senders[ssrc].properties - {key});
      }
    case ChangesCodec(line, payloadType, add) => ChangeCodecKeeps(p, types, line, payloadType, add);
    case OpensApplicationChannel => OpenChannelKeeps(p, types);
    case Polls => PollKeeps(p, types);
  }

  lemma DropKeeps(p: Peer, types: seq<MediaType>, ssrc: u32)
    requires Invariant(p, types) && ssrc in p.senders
    ensures Invariant(CloseSender(p, ssrc), types)
  {
    hide Shaped, Mirrored;
    SenderUpdateKeeps(p, types, ssrc, p.senders[ssrc].(closed := true));
  }

  lemma PropertyKeeps(p: Peer, types: seq<MediaType>, ssrc: u32, properties: Properties)
    requires Invariant(p, types) && ssrc in p.senders && TryChange(p.senders[ssrc].state).Some?
    ensures var sender := p.senders[ssrc].(state := TryChange(p.senders[ssrc].state).value, properties := properties);
            Invariant(p.(senders := p.senders[ssrc := sender]), types)
  {
    hide Invariant;
    SenderUpdateKeeps(p, types, ssrc,
      p.senders[ssrc].(state := TryChange(p.senders[ssrc].state).value, properties := properties));
  }

  // --- generating a description ------------------------------------------------------------------

  lemma NumberedKeeps(p: Peer, types: seq<MediaType>) returns (types': seq<MediaType>)
    requires Invariant(p, types)
    ensures types <= types' && Invariant(p.(lines := AssignFrom(p.lines, 0, NextIndex(p.lines))), types')
  {
    hide Indexed;
    NextIndexCounts(p.lines, types);
    types' := AssignAll(p.lines, 0, types);
    var p' := p.(lines := AssignFrom(p.lines, 0, NextIndex(p.lines)));
    forall j | 0 <= j < |p'.lines| ensures MarkedLine(p', p'.lines[j]) && MirroredLine(p', p'.lines[j]) {
      InvariantAt(p, types, j);
    }
  }

  lemma PreparedKeeps(p: Peer, types: seq<MediaType>) returns (types': seq<MediaType>)
    requires Invariant(p, types)
    ensures types <= types' && Invariant(Prepared(p), types') && Prepared(p).signalling == p.signalling
    ensures p.signalling == HaveRemoteOffer ==> types' == types
  {
    hide Invariant, RemoveSenders;
    types' := types;
    if p.signalling != HaveRemoteOffer {
      types' := NumberedKeeps(p, types);
    }
    var numbered := if p.signalling == HaveRemoteOffer then p
                    else p.(lines := AssignFrom(p.lines, 0, NextIndex(p.lines)));
    RemoveSendersKeeps(numbered, types', SortedKeys(ClosedSenders(numbered)));
  }

  lemma {:induction false} RegisteredInOrder(lines: seq<Line>, types: seq<MediaType>, from: nat, count: nat)
    requires Indexed(lines, types) && from + count == |types|
    ensures |Registered(lines, from, count)| == count
    ensures forall i :: 0 <= i < count ==> Registered(lines, from, count)[i].mediaType == types[from + i]
    ensures forall i :: 0 <= i < count ==> Registered(lines, from, count)[i].sdpIndex == Some(from + i)
    ensures forall i :: 0 <= i < count ==> Registered(lines, from, count)[i] in lines
    decreases count
  {
    if count > 0 {
      assert Find(lines, WithIndex(from)) < |lines|;
      RegisteredInOrder(lines, types, from + 1, count - 1);
    }
  }

  ghost function MediaTypes(description: Description): seq<MediaType> {
    seq(|description|, i requires 0 <= i < |description| => description[i].mediaType)
  }

  /** A description lists the media types in index order, all with the setup role of the moment. */
  lemma DescribeListsTypes(p: Peer, types: seq<MediaType>, isOffer: bool)
    requires Indexed(p.lines, types)
    ensures MediaTypes(Describe(p, isOffer)) == types
    ensures forall i :: 0 <= i < |types| ==>
              Describe(p, isOffer)[i].setup == DescribedSetup(p.transport.setup)
              && (isOffer || types[i] == Application ==> Describe(p, isOffer)[i].direction != Inactive)
  {
    hide Indexed;
    NextIndexCounts(p.lines, types);
    RegisteredInOrder(p.lines, types, 0, |types|);
  }

  ghost function Promoted(p: Peer, isOffer: bool): Peer {
    p.(lines := PromoteLines(p.lines, isOffer), senders := PromoteSenders(p, isOffer),
       signalling := if isOffer then HaveLocalOffer else Stable, described := DescribedBy(p, isOffer))
  }

  lemma PromotedKeeps(p: Peer, types: seq<MediaType>, isOffer: bool)
    requires Invariant(p, types) && p.signalling != HaveLocalOffer
    ensures Invariant(Promoted(p, isOffer), types)
  {
    hide Indexed, DistinctIds, MarkedLine, MirroredLine, DescribedBy, PromoteLines, PromoteSenders;
    var p' := Promoted(p, isOffer);
    PromotedSameShape(p, isOffer);
    SameShapeStaysIndexed(p.lines, p'.lines, types);
    PromotedSendersMarked(p, isOffer);
    forall j | 0 <= j < |p'.lines| ensures MarkedLine(p', p'.lines[j]) && MirroredLine(p', p'.lines[j]) {
      PromotedLineKeeps(p, isOffer, j);
    }
  }

  lemma PromotedSameShape(p: Peer, isOffer: bool)
    ensures SameShape(p.lines, PromoteLines(p.lines, isOffer))
    ensures DistinctIds(p) ==> DistinctIds(Promoted(p, isOffer))
  {
    hide Promote, PromoteSenders, DescribedBy;
  }

  lemma PromotedSendersMarked(p: Peer, isOffer: bool)
    requires Marked(p) && p.signalling != HaveLocalOffer
    ensures var senders := PromoteSenders(p, isOffer);
            forall ssrc :: ssrc in senders && senders[ssrc].state == Propagated ==> isOffer
  {
    hide MarkedLine, Find;
  }

  lemma PromotedLineKeeps(p: Peer, isOffer: bool, j: nat)
    requires DistinctIds(p) && j < |p.lines| && MarkedLine(p, p.lines[j]) && MirroredLine(p, p.lines[j])
    requires p.signalling != HaveLocalOffer
    ensures var p' := Promoted(p, isOffer);
            MarkedLine(p', p'.lines[j]) && MirroredLine(p', p'.lines[j])
  {
    hide DistinctIds, DescribedBy, PromoteSenders;
    PromotedSendersSpeakAlike(p, isOffer);
    if p.lines[j].sdpIndex.Some? {
      DescribedLine(p, isOffer, j);
    }
  }

  lemma PromotedSendersSpeakAlike(p: Peer, isOffer: bool)
    ensures var senders := PromoteSenders(p, isOffer);
            forall ssrc :: (ssrc in senders <==> ssrc in p.senders)
              && (ssrc in senders ==> senders[ssrc].line == p.senders[ssrc].line
                                      && senders[ssrc].properties == p.senders[ssrc].properties)
  {
  }

  lemma DescribedLine(p: Peer, isOffer: bool, j: nat)
    requires DistinctIds(p) && j < |p.lines| && p.lines[j].sdpIndex.Some?
    ensures var id, described := p.lines[j].id, DescribedBy(p, isOffer);
            id in described && described[id] == MediaOf(p, p.lines[j], isOffer)
  {
    hide MediaOf;
    assert p.lines[j].id in RegisteredIds(p.lines);
    assert Matches(WithId(p.lines[j].id), p.lines[j]);
    assert Find(p.lines, WithId(p.lines[j].id)) == j;
  }

  /** Generating a description, successfully or not, keeps the invariant; indices are only ever added. */
  lemma CreateKeeps(p: Peer, types: seq<MediaType>) returns (types': seq<MediaType>)
    requires Invariant(p, types)
    ensures types <= types' && Invariant(CreateLocalDescription(p).1, types')
    ensures p.signalling == HaveRemoteOffer ==> types' == types
    ensures CreateLocalDescription(p).0.Ok? ==>
              CreateLocalDescription(p).0.value == Describe(Prepared(p), p.signalling != HaveRemoteOffer)
              && MediaTypes(CreateLocalDescription(p).0.value) == types'
  {
    hide Invariant, Prepared, Describe, DescribedBy;
    if p.signalling == HaveLocalOffer || p.signalling == Stable {
      types' := types;
    } else {
      types' := PreparedKeeps(p, types);
      if CanDescribeAll(Prepared(p)) {
        PromotedKeeps(Prepared(p), types', p.signalling != HaveRemoteOffer);
        assert Indexed(Prepared(p).lines, types') by { InvariantIndexes(Prepared(p), types'); }
        DescribeListsTypes(Prepared(p), types', p.signalling != HaveRemoteOffer);
      }
    }
  }

  lemma InvariantIndexes(p: Peer, types: seq<MediaType>)
    requires Invariant(p, types)
    ensures Indexed(p.lines, types)
  {
  }

  // --- applying a description --------------------------------------------------------------------

  lemma ClaimKeeps(p: Peer, types: seq<MediaType>, i: nat, mediaType: MediaType) returns (types': seq<MediaType>)
    requires Invariant(p, types) && i <= |types|
    ensures var (lines, position) := Claim(p.lines, i, mediaType);
            && Invariant(p.(lines := lines), types')
            && (position < |lines| ==> lines[position].sdpIndex == Some(i)
                                       && types' == if i < |types| then types else types + [mediaType])
            && (position == |lines| ==> types' == types && i == |types|)
  {
    hide Indexed;
    IndexInUse(p.lines, types, i);
    types' := types;
    var position := Find(p.lines, UnassignedOf(mediaType));
    if i == |types| && position < |p.lines| {
      AssignStaysIndexed(p.lines, position, types);
      types' := types + [mediaType];
      var p' := p.(lines := p.lines[position := p.lines[position].(sdpIndex := Some(i))]);
      forall j | 0 <= j < |p'.lines| ensures MarkedLine(p', p'.lines[j]) && MirroredLine(p', p'.lines[j]) {
        InvariantAt(p, types, j);
      }
    }
  }

  lemma RemoteSideKeeps(p: Peer, types: seq<MediaType>, transport: Transport, channels: Option<Channels>)
    requires Invariant(p, types)
    ensures Invariant(p.(transport := transport, channels := channels), types)
  {
    hide Indexed;
    var p' := p.(transport := transport, channels := channels);
    forall j | 0 <= j < |p'.lines| ensures MarkedLine(p', p'.lines[j]) && MirroredLine(p', p'.lines[j]) {
      InvariantAt(p, types, j);
    }
  }

  /** One media section: the indices are as before, or the next one has this section's type. */
  lemma ApplyMediaKeeps(p: Peer, types: seq<MediaType>, i: nat, media: Media)
    requires Invariant(p, types) && i <= |types|
    ensures ApplyMedia(p, i, media).Ok? ==>
              Invariant(ApplyMedia(p, i, media).value, if i < |types| then types else types + [media.mediaType])
              && ApplyMedia(p, i, media).value.signalling == p.signalling
  {
    hide Invariant, ApplyTransport, ApplyChannels, Claim;
    var (lines, position) := Claim(p.lines, i, media.mediaType);
    var types' := ClaimKeeps(p, types, i, media.mediaType);
    var at := ApplyMedia(p, i, media);
    if at.Ok? {
      var placed := p.(lines := lines);
      if position < |lines| {
        var line := lines[position].(remoteStreams := RemoteStreams(media));
        InvariantAt(placed, types', position);
        LineUpdateKeeps(placed, types', position, line);
        RemoteSideKeeps(placed.(lines := lines[position := line]), types', at.value.transport, at.value.channels);
      } else {
        var line := Line(p.nextId, media.mediaType, Some(i), Fresh, [], RemoteStreams(media), []);
        NewLineKeeps(placed, types', line);
        RemoteSideKeeps(placed.(lines := lines + [line], nextId := p.nextId + 1), types' + [media.mediaType],
                        at.value.transport, at.value.channels);
      }
    }
  }

  /** One media section, however far it gets. */
  lemma SectionKeeps(p: Peer, types: seq<MediaType>, i: nat, media: Media, stop: Option<Progress>)
    returns (types': seq<MediaType>)
    requires Invariant(p, types) && i <= |types|
    ensures var (error, left) := ApplySection(p, i, media, stop);
            && types <= types' && Invariant(left, types') && left.signalling == p.signalling
            && (error.None? ==> types' == if i < |types| then types else types + [media.mediaType])
  {
    hide Invariant, ApplyTransport, ApplyMedia, Claim;
    types' := types;
    var (error, left) := ApplySection(p, i, media, stop);
    if error.None? {
      ApplyMediaKeeps(p, types, i, media);
      types' := if i < |types| then types else types + [media.mediaType];
    } else if stop != Some(Untouched) {
      types' := ClaimKeeps(p, types, i, media.mediaType);
      var (claimed, position) := Claiming(p, i, media);
      NextIdKeeps(p.(lines := claimed.lines), types', claimed.nextId);
      var connected := claimed.(transport := TransportAfter(p.transport, media));
      RemoteSideKeeps(claimed, types', connected.transport, p.channels);
      if position < |claimed.lines| {
        InvariantAt(connected, types', position);
        LineUpdateKeeps(connected, types', position, connected.lines[position].(remoteStreams := RemoteStreams(media)));
      }
      var updated := Updating(connected, position, media);
      RemoteSideKeeps(connected, types', connected.transport, updated.channels);
      RemoteSideKeeps(updated, types', updated.transport, left.channels);
    }
  }

  lemma NextIdKeeps(p: Peer, types: seq<MediaType>, nextId: nat)
    requires Invariant(p, types) && p.nextId <= nextId
    ensures Invariant(p.(nextId := nextId), types)
  {
    hide Indexed;
    var p' := p.(nextId := nextId);
    forall j | 0 <= j < |p'.lines| ensures MarkedLine(p', p'.lines[j]) && MirroredLine(p', p'.lines[j]) {
      InvariantAt(p, types, j);
    }
  }

  /** The media types after a whole description: what there was, and what it adds. */
  ghost function Extended(types: seq<MediaType>, description: Description): seq<MediaType> {
    if |description| <= |types| then types else types + MediaTypes(description)[|types|..]
  }

  lemma ExtendedStep(types: seq<MediaType>, description: Description, i: nat)
    requires i <= |types| && i < |description|
    ensures i == |types| ==> Extended(types + [description[i].mediaType], description) == Extended(types, description)
  {
  }

  lemma {:induction false} ApplyFromKeeps(p: Peer, types: seq<MediaType>, description: Description, i: nat,
                                          fault: Option<Fault>)
    returns (types': seq<MediaType>)
    requires Invariant(p, types) && i <= |types| && i <= |description|
    ensures types <= types' && Invariant(ApplyFrom(p, description, i, fault).1, types')
    ensures ApplyFrom(p, description, i, fault).1.signalling == p.signalling
    ensures ApplyFrom(p, description, i, fault).0.None? ==> types' == Extended(types, description)
    decreases |description| - i
  {
    hide Invariant, ApplySection, Extended;
    if i == |description| {
      types' := types;
      assert Extended(types, description) == types by { NothingExtended(types, description); }
    } else {
      var (error, applied) := ApplySection(p, i, description[i], StopAt(fault, i));
      types' := SectionKeeps(p, types, i, description[i], StopAt(fault, i));
      if error.None? {
        ExtendedStep(types, description, i);
        types' := ApplyFromKeeps(applied, types', description, i + 1, fault);
      }
    }
  }

  lemma NothingExtended(types: seq<MediaType>, description: Description)
    requires |description| <= |types|
    ensures Extended(types, description) == types
  {
  }

  lemma FinishKeeps(p: Peer, types: seq<MediaType>)
    requires Invariant(p, types)
    ensures Invariant(Finish(p), types)
  {
    if p.signalling == HaveLocalOffer {
      hide Indexed;
      var p' := Finish(p);
      SameShapeStaysIndexed(p.lines, p'.lines, types);
      forall j | 0 <= j < |p'.lines| ensures MarkedLine(p', p'.lines[j]) && MirroredLine(p', p'.lines[j]) {
        InvariantAt(p, types, j);
      }
    } else {
      hide Invariant;
      SignallingKeeps(p, types, HaveRemoteOffer);
    }
  }

  /** Applying any description, even one that stops part-way with an error, keeps the invariant. */
  lemma SetRemoteKeeps(p: Peer, types: seq<MediaType>, description: Description, mode: Mode, fault: Option<Fault>)
    returns (types': seq<MediaType>)
    requires Invariant(p, types)
    ensures types <= types' && Invariant(SetRemoteDescription(p, description, mode, fault).1, types')
    ensures SetRemoteDescription(p, description, mode, fault).0.None? ==> types' == Extended(types, description)
  {
    hide Invariant, ApplyFrom, Extended;
    types' := types;
    if Accepts(p.signalling, mode) {
      types' := ApplyFromKeeps(p, types, description, 0, fault);
      FinishKeeps(ApplyFrom(p, description, 0, fault).1, types');
    }
  }

  // --- whole runs of one end ---------------------------------------------------------------------

  datatype Event =
    | Calls(call: Call)
    | Describes
    | Applies(description: Description, mode: Mode, fault: Option<Fault>)

  ghost function Step(p: Peer, event: Event): Peer {
    match event
    case Calls(call) => Local(p, call)
    case Describes => CreateLocalDescription(p).1
    case Applies(description, mode, fault) => SetRemoteDescription(p, description, mode, fault).1
  }

  /** The end after a run, if every call of it was allowed when made. */
  ghost function Reached(events: seq<Event>): Option<Peer> {
    if events == [] then Some(NewPeer())
    else
      var before, event := Reached(events[..|events| - 1]), events[|events| - 1];
      if before.Some? && (event.Calls? ==> Allowed(before.value, event.call)) then Some(Step(before.value, event)) else None
  }

  lemma {:induction false} RunKeepsInvariant(events: seq<Event>) returns (types: seq<MediaType>)
    requires Reached(events).Some?
    ensures Invariant(Reached(events).value, types)
  {
    if events == [] {
      types := [];
    } else {
      hide Invariant, Local, CreateLocalDescription, SetRemoteDescription;
      var before, event := Reached(events[..|events| - 1]), events[|events| - 1];
      types := RunKeepsInvariant(events[..|events| - 1]);
      match event
      case Calls(call) => LocalKeeps(before.value, types, call);
      case Describes => types := CreateKeeps(before.value, types);
      case Applies(description, mode, fault) => types := SetRemoteKeeps(before.value, types, description, mode, fault);
    }
  }

  /** Through offers, answers, descriptions that stop part-way and removed lines, the indices in use are 0, 1, ..., k - 1. */
  lemma IndicesAreCompact(events: seq<Event>)
    requires Reached(events).Some?
    ensures var lines := Reached(events).value.lines;
            && (forall i :: 0 <= i < NextIndex(lines) ==> Find(lines, WithIndex(i)) < |lines|)
            && (forall j, k :: 0 <= j < k < |lines| && lines[j].sdpIndex.Some? ==> lines[j].sdpIndex != lines[k].sdpIndex)
  {
    hide Reached;
    var types := RunKeepsInvariant(events);
    NextIndexCounts(Reached(events).value.lines, types);
  }

  /** A change is refused only while an offer of our own is outstanding. */
  lemma RefusalMeansOutstandingOffer(events: seq<Event>)
    requires Reached(events).Some?
    ensures var p := Reached(events).value;
            && (forall j :: 0 <= j < |p.lines| && TryChange(p.lines[j].state).None? ==> p.signalling == HaveLocalOffer)
            && (forall ssrc :: ssrc in p.senders && TryChange(p.senders[ssrc].state).None? ==> p.signalling == HaveLocalOffer)
  {
    hide Reached;
    var types := RunKeepsInvariant(events);
    var p := Reached(events).value;
    forall j | 0 <= j < |p.lines| && TryChange(p.lines[j].state).None? ensures p.signalling == HaveLocalOffer {
      InvariantAt(p, types, j);
    }
  }

  /**
   * No local change is lost: in a stable state, whatever the other side was not told makes the next poll ask for a
   * negotiation.
   */
  lemma NoLocalChangeIsLost(events: seq<Event>)
    requires Reached(events).Some? && Reached(events).value.signalling == Stable
    ensures var p := Reached(events).value;
            && (Unreflected(PollSenders(p)) ==> Poll(p).signalling == NegotiationRequired)
            && (Poll(p).signalling == NegotiationRequired <==> HasNews(PollSenders(p)))
  {
    hide Reached, Invariant, RemoveSenders, Unreflected, HasNews;
    var types := RunKeepsInvariant(events);
    var p := Reached(events).value;
    RemoveSendersKeeps(p, types, SortedKeys(ClosedSenders(p)));
    UnreflectedIsNews(PollSenders(p), types);
  }
}
