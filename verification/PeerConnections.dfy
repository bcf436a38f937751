/**
 * One end of a negotiation as the source runs it: lines, senders and states changed in place by loops (src/rtc.rs).
 * Every method computes the function of the same name in `Negotiation`.
 */
module PeerConnections {
  import opened Prelude
  import opened SortedKeySets
  import opened Negotiation

  /** Every sender outside `left` has been replaced, and no other. */
  ghost predicate Replacing(was: map<u32, Sender>, next: map<u32, Sender>, now: map<u32, Sender>, left: set<u32>) {
    && left <= now.Keys == was.Keys == next.Keys
    && forall s :: s in was ==> now[s] == if s in left then was[s] else next[s]
  }

  lemma NextToReplace(was: map<u32, Sender>, next: map<u32, Sender>, now: map<u32, Sender>, left: set<u32>, ssrc: u32)
    requires Replacing(was, next, now, left) && ssrc in left
    ensures ssrc in now && ssrc in was && ssrc in next && now[ssrc] == was[ssrc]
    ensures Replacing(was, next, now[ssrc := next[ssrc]], left - {ssrc})
    ensures next[ssrc] == now[ssrc] ==> now == now[ssrc := next[ssrc]]
  {
  }

  lemma NoneReplaced(p: Peer, isOffer: bool)
    ensures Replacing(p.senders, PromoteSenders(p, isOffer), p.senders, p.senders.Keys)
  {
    hide PromoteSender;
  }

  lemma PromotedAt(p: Peer, isOffer: bool, ssrc: u32)
    requires ssrc in p.senders
    ensures ssrc in PromoteSenders(p, isOffer)
    ensures PromoteSenders(p, isOffer)[ssrc] == PromoteSender(p.lines, p.senders[ssrc], isOffer)
  {
  }

  lemma AllReplaced(was: map<u32, Sender>, next: map<u32, Sender>, now: map<u32, Sender>)
    requires Replacing(was, next, now, {})
    ensures now == next
  {
  }

  class PeerConnection {
    var signallingState: SignallingState
    var mediaLines: seq<Line>
    var nextUniqueId: nat
    var streamSender: map<u32, Sender>
    var transport: Transport
    var applicationChannel: Option<Channels>
    ghost var described: map<nat, Media>

    ghost function Value(): Peer
      reads this
    {
      Peer(signallingState, mediaLines, nextUniqueId, streamSender, transport, applicationChannel, described)
    }

    /** What the description generator reads. */
    function Snapshot(): Peer
      reads this
    {
      Peer(signallingState, mediaLines, nextUniqueId, streamSender, transport, applicationChannel, map[])
    }

    lemma SnapshotDescribes(line: Line, isOffer: bool)
      ensures MediaOf(Snapshot(), line, isOffer) == MediaOf(Value(), line, isOffer)
      ensures CanDescribe(Snapshot(), line) == CanDescribe(Value(), line)
    {
      assert StreamsOf(Snapshot(), line.id) == StreamsOf(Value(), line.id);
    }

    constructor ()
      ensures Value() == NewPeer()
    {
      signallingState, mediaLines, nextUniqueId := Initial, [], 0;
      streamSender, transport, applicationChannel := map[], Transport(Unset, false), None;
      described := map[];
    }

    method FindLine(query: Query) returns (position: nat)
      ensures position == Find(mediaLines, query)
    {
      position := 0;
      while position < |mediaLines|
        invariant position <= |mediaLines| && FindFrom(mediaLines, query, position) == Find(mediaLines, query)
      {
        if Matches(query, mediaLines[position]) {
          return;
        }
        position := position + 1;
      }
    }

    method AllocateMediaLine(mediaType: MediaType) returns (position: nat)
      modifies `mediaLines, `nextUniqueId
      ensures (Value(), position) == AllocateLine(old(Value()), mediaType)
    {
      position := FindLine(FreeFor(mediaType));
      if position == |mediaLines| {
        mediaLines := mediaLines + [Line(nextUniqueId, mediaType, None, Fresh, [], {}, [])];
        nextUniqueId := nextUniqueId + 1;
      }
    }

    method CreateMediaSender(mediaType: MediaType, ssrc: u32, initial: Properties)
      requires ssrc !in streamSender
      modifies `mediaLines, `nextUniqueId, `streamSender
      ensures Value() == CreateSender(old(Value()), mediaType, ssrc, initial)
    {
      var position := AllocateMediaLine(mediaType);
      var line := mediaLines[position];
      mediaLines := mediaLines[position := line.(localStreams := line.localStreams + [ssrc])];
      streamSender := streamSender[ssrc := Sender(line.id, Fresh, initial, false)];
    }

    method DropMediaSender(ssrc: u32)
      modifies `streamSender
      ensures Value() == CloseSender(old(Value()), ssrc)
    {
      if ssrc in streamSender {
        streamSender := streamSender[ssrc := streamSender[ssrc].(closed := true)];
      }
    }

    method RegisterProperty(ssrc: u32, key: string, value: Option<string>)
      modifies `streamSender
      ensures Value() == Negotiation.RegisterProperty(old(Value()), ssrc, key, value)
    {
      if key == "cname" || ssrc !in streamSender {
        return;
      }
      var sender := streamSender[ssrc];
      var changed := TryChange(sender.state);
      if changed.None? {
        return;
      }
      streamSender := streamSender[ssrc := sender.(state := changed.value, properties := sender.properties[key := value])];
    }

    method UnsetProperty(ssrc: u32, key: string)
      modifies `streamSender
      ensures Value() == Negotiation.UnsetProperty(old(Value()), ssrc, key)
    {
      if ssrc !in streamSender || TryChange(streamSender[ssrc].state).None? {
        return;
      }
      var sender := streamSender[ssrc];
      if key in sender.properties {
        streamSender := streamSender[ssrc := sender.(state := TryChange(sender.state).value,
                                                     properties := sender.properties - {key})];
      }
    }

    method UnregisterLocalCodec(lineId: nat, payloadType: u8) returns (ok: bool)
      modifies `mediaLines
      ensures Value() == ChangeCodec(old(Value()), lineId, payloadType, None)
      ensures ok ==> Find(mediaLines, WithId(lineId)) < |mediaLines|
                     && Find(mediaLines, WithId(lineId)) == Find(old(mediaLines), WithId(lineId))
                     && TryChange(old(mediaLines)[Find(old(mediaLines), WithId(lineId))].state).Some?
      ensures !ok ==> forall codec :: ChangeCodec(old(Value()), lineId, payloadType, codec) == old(Value())
    {
      var position := FindLine(WithId(lineId));
      if position == |mediaLines| {
        return false;
      }
      var line := mediaLines[position];
      var changed := TryChange(line.state);
      if changed.None? {
        return false;
      }
      mediaLines := mediaLines[position := line.(state := changed.value, codecs := WithoutCodec(line.codecs, payloadType))];
      FoundAgain(old(mediaLines), lineId, mediaLines[position]);
      ok := true;
    }

    method RegisterLocalCodec(lineId: nat, codec: Codec) returns (ok: bool)
      modifies `mediaLines
      ensures Value() == ChangeCodec(old(Value()), lineId, codec.payloadType, Some(codec))
    {
      ok := UnregisterLocalCodec(lineId, codec.payloadType);
      if ok {
        var position := FindLine(WithId(lineId));
        var line := mediaLines[position];
        mediaLines := mediaLines[position := line.(codecs := line.codecs + [codec])];
      }
    }

    method OpenApplicationChannel()
      modifies `mediaLines, `nextUniqueId, `applicationChannel
      ensures Value() == Negotiation.OpenApplicationChannel(old(Value()))
    {
      if applicationChannel.None? {
        applicationChannel := Some(Channels(true, false));
        if !exists j :: 0 <= j < |mediaLines| && mediaLines[j].mediaType == Application {
          var _ := AllocateMediaLine(Application);
        }
      }
    }

    method RemoveMediaSender(ssrc: u32)
      requires ssrc in streamSender
      modifies `mediaLines, `streamSender
      ensures Value() == RemoveSender(old(Value()), ssrc)
    {
      var position := FindLine(WithId(streamSender[ssrc].line));
      streamSender := streamSender - {ssrc};
      if position < |mediaLines| {
        var line := mediaLines[position];
        line := line.(localStreams := Without(line.localStreams, ssrc));
        if line.state != Fresh {
          line := line.(state := Changed);
        }
        if line.localStreams == [] && line.remoteStreams == {} && line.sdpIndex == None {
          mediaLines := mediaLines[..position] + mediaLines[position + 1..];
        } else {
          mediaLines := mediaLines[position := line];
        }
      }
    }

    /** Every sender whose application handle is gone leaves, in key order. */
    method PollStreamSender()
      modifies `mediaLines, `streamSender
      ensures Value() == PollSenders(old(Value()))
    {
      hide RemoveSender, SortedKeys, IsLeast;
      var left := set ssrc | ssrc in streamSender && streamSender[ssrc].closed;
      while left != {}
        invariant RemoveSenders(Value(), SortedKeys(left)) == PollSenders(old(Value()))
        decreases |left|
      {
        LeastExists(left);
        var ssrc :| ssrc in left && IsLeast(ssrc, left);
        SortedKeysStep(left, ssrc);
        assert |left - {ssrc}| == |left| - 1;
        if ssrc in streamSender {
          RemoveMediaSender(ssrc);
        }
        left := left - {ssrc};
      }
      NothingSorted();
    }

    /** The negotiation part of `poll_next`; true for a `NegotiationNeeded` event. */
    method PollNext() returns (negotiationNeeded: bool)
      modifies `mediaLines, `streamSender, `signallingState
      ensures Value() == Poll(old(Value()))
      ensures negotiationNeeded <==> PollSenders(old(Value())).signalling == Stable && HasNews(PollSenders(old(Value())))
    {
      hide PollSenders;
      PollStreamSender();
      negotiationNeeded := false;
      if signallingState == Stable {
        if exists j :: 0 <= j < |mediaLines| && mediaLines[j].state.Open() {
          negotiationNeeded := true;
        } else if exists ssrc :: ssrc in streamSender && streamSender[ssrc].state.Open() {
          negotiationNeeded := true;
        }
        if negotiationNeeded {
          signallingState := NegotiationRequired;
        }
      }
    }

    /** `max(index + 1)` over the lines. */
    method CurrentLineIndex() returns (next: nat)
      ensures next == NextIndex(mediaLines)
    {
      next := 0;
      for i := 0 to |mediaLines|
        invariant next == NextIndex(mediaLines[..i])
      {
        assert mediaLines[..i + 1][..i] == mediaLines[..i];
        if mediaLines[i].sdpIndex.Some? && mediaLines[i].sdpIndex.value + 1 > next {
          next := mediaLines[i].sdpIndex.value + 1;
        }
      }
      assert mediaLines[..|mediaLines|] == mediaLines;
    }

    method AssignIndices()
      modifies `mediaLines
      ensures Value() == old(Value()).(lines := AssignFrom(old(mediaLines), 0, NextIndex(old(mediaLines))))
    {
      var currentLineIndex := CurrentLineIndex();
      ghost var all := AssignFrom(mediaLines, 0, currentLineIndex);
      var i := 0;
      while i < |mediaLines|
        invariant i <= |mediaLines| == |old(mediaLines)|
        invariant AssignFrom(mediaLines, i, currentLineIndex) == all
      {
        if mediaLines[i].sdpIndex.None? {
          mediaLines := mediaLines[i := mediaLines[i].(sdpIndex := Some(currentLineIndex))];
          currentLineIndex := currentLineIndex + 1;
        }
        i := i + 1;
      }
    }

    method PromoteMediaLines(isOffer: bool)
      modifies `mediaLines
      ensures mediaLines == PromoteLines(old(mediaLines), isOffer)
    {
      for i := 0 to |mediaLines|
        invariant |mediaLines| == |old(mediaLines)|
        invariant forall j :: 0 <= j < i ==> mediaLines[j] == PromoteLines(old(mediaLines), isOffer)[j]
        invariant forall j :: i <= j < |mediaLines| ==> mediaLines[j] == old(mediaLines)[j]
      {
        if mediaLines[i].sdpIndex.Some? {
          mediaLines := mediaLines[i := mediaLines[i].(state := Promote(mediaLines[i].state, isOffer))];
        }
      }
    }

    method PromoteStreamSenders(isOffer: bool)
      modifies `streamSender
      ensures streamSender == PromoteSenders(old(Value()), isOffer)
    {
      ghost var was, promoted := streamSender, PromoteSenders(Value(), isOffer);
      hide PromoteSender, PromoteSenders, Replacing;
      NoneReplaced(Value(), isOffer);
      var left := streamSender.Keys;
      while left != {}
        invariant Replacing(was, promoted, streamSender, left)
        decreases |left|
      {
        var ssrc :| ssrc in left;
        NextToReplace(was, promoted, streamSender, left, ssrc);
        PromotedAt(old(Value()), isOffer, ssrc);
        PromoteOne(ssrc, isOffer);
        left := left - {ssrc};
      }
      AllReplaced(was, promoted, streamSender);
    }

    method PromoteOne(ssrc: u32, isOffer: bool)
      requires ssrc in streamSender
      modifies `streamSender
      ensures streamSender == old(streamSender)[ssrc := PromoteSender(mediaLines, old(streamSender)[ssrc], isOffer)]
    {
      hide Find, Promote;
      var position := FindLine(WithId(streamSender[ssrc].line));
      if position < |mediaLines| {
        streamSender := streamSender[ssrc := streamSender[ssrc].(state := Promote(streamSender[ssrc].state, isOffer))];
      }
    }

    method CreateLocalDescription() returns (result: Result<Description, CreateError>)
      modifies this
      ensures (result, Value()) == Negotiation.CreateLocalDescription(old(Value()))
    {
      hide PollSenders, AssignFrom, PromoteLines, PromoteSenders, DescribedBy, Registered, MediaOf;
      if signallingState == HaveLocalOffer || signallingState == Stable {
        return Err(CreateInvalidState);
      }
      var isOffer := signallingState != HaveRemoteOffer;
      if isOffer {
        AssignIndices();
      }
      PollStreamSender();
      PollKeepsSignalling(old(Value()), isOffer);

      ghost var prepared := Value();
      if exists j :: 0 <= j < |mediaLines| && mediaLines[j].sdpIndex.Some? && !CanDescribe(Snapshot(), mediaLines[j]) {
        return Err(DescribeError);
      }
      var media := WriteMedia(isOffer);
      PromoteMediaLines(isOffer);
      PromotionFindsSameLines(prepared, isOffer);
      PromoteStreamSenders(isOffer);
      described := DescribedBy(prepared, isOffer);
      signallingState := if isOffer then HaveLocalOffer else Stable;
      result := Ok(media);
    }

    method WriteMedia(isOffer: bool) returns (media: Description)
      ensures media == Describe(Value(), isOffer)
    {
      hide MediaOf, Find, NextIndex;
      var count := CurrentLineIndex();
      media := [];
      ghost var registered := RegisteredLines(mediaLines);
      var i := 0;
      var position := FindLine(WithIndex(i));
      while i < count && position < |mediaLines|
        invariant i <= count && i <= |registered| && position == Find(mediaLines, WithIndex(i))
        invariant registered[i..] == Registered(mediaLines, i, count - i)
        invariant media == Describe(Value(), isOffer)[..i]
        decreases count - i
      {
        assert registered[i] == mediaLines[position] && registered[i..][1..] == registered[i + 1..];
        SnapshotDescribes(mediaLines[position], isOffer);
        media := media + [MediaOf(Snapshot(), mediaLines[position], isOffer)];
        i := i + 1;
        position := FindLine(WithIndex(i));
      }
      assert registered[i..] == [];
    }

    /** One section in the source's order; `stop` is where it fails for reasons outside this model. */
    method ApplyOne(i: nat, media: Media, stop: Option<Progress>) returns (error: Option<ApplyError>)
      modifies this
      ensures signallingState == old(signallingState) && streamSender == old(streamSender)
      ensures (error, Value()) == ApplySection(old(Value()), i, media, stop)
    {
      hide Find, ApplyTransport, ApplyChannels, RemoteStreams, RoleBeforeConfiguration;
      if stop == Some(Untouched) {
        return Some(MediaFault);
      }
      var position := ClaimLine(i, media);
      if stop == Some(Claimed) {
        return Some(MediaFault);
      }
      var appliedTransport := ApplyTransport(transport, media);
      transport := TransportAfter(transport, media);
      if appliedTransport.Err? {
        return Some(appliedTransport.error);
      }
      if stop == Some(Connected) {
        return Some(MediaFault);
      }
      var isNew := position == |mediaLines|;
      var channelsBefore := applicationChannel;
      if !isNew {
        mediaLines := mediaLines[position := mediaLines[position].(remoteStreams := RemoteStreams(media))];
      } else if media.mediaType == Application && applicationChannel.None? {
        applicationChannel := Some(Channels(true, false));
      }
      if stop == Some(Updated) {
        return Some(MediaFault);
      }
      if !isNew && !Readable(mediaLines[position], media) {
        return Some(MissingCodecDescription);
      }
      if (if isNew then media.mediaType else mediaLines[position].mediaType) == Application {
        if applicationChannel.None? {
          return Some(ApplicationChannelMissing);
        }
        var appliedChannels := ApplyChannels(applicationChannel.value, media);
        if appliedChannels.Err? {
          return Some(appliedChannels.error);
        }
        applicationChannel := Some(appliedChannels.value);
      }
      if stop == Some(RoleTaken) {
        applicationChannel := RoleBeforeConfiguration(channelsBefore, applicationChannel);
        return Some(MediaFault);
      }
      if isNew {
        mediaLines := mediaLines + [Line(nextUniqueId - 1, media.mediaType, Some(i), Fresh, [], RemoteStreams(media), [])];
      }
      error := None;
    }

    /** Finds or gives a line its index; for none, a new line's identifier is taken. */
    method ClaimLine(i: nat, media: Media) returns (position: nat)
      modifies `mediaLines, `nextUniqueId
      ensures (Value(), position) == Claiming(old(Value()), i, media)
      ensures position == |mediaLines| ==> nextUniqueId > 0
    {
      position := FindLine(WithIndex(i));
      if position == |mediaLines| {
        position := FindLine(UnassignedOf(media.mediaType));
        if position < |mediaLines| {
          mediaLines := mediaLines[position := mediaLines[position].(sdpIndex := Some(i))];
        } else {
          nextUniqueId := nextUniqueId + 1;
        }
      }
    }

    method SettleAll()
      modifies `mediaLines, `streamSender
      ensures mediaLines == SettleLines(old(mediaLines)) && streamSender == SettleSenders(old(streamSender))
    {
      for i := 0 to |mediaLines|
        invariant |mediaLines| == |old(mediaLines)|
        invariant forall j :: 0 <= j < i ==> mediaLines[j] == SettleLines(old(mediaLines))[j]
        invariant forall j :: i <= j < |mediaLines| ==> mediaLines[j] == old(mediaLines)[j]
        modifies `mediaLines
      {
        if mediaLines[i].state == Propagated {
          mediaLines := mediaLines[i := mediaLines[i].(state := NegotiationState.Negotiated)];
        }
      }
      assert mediaLines == SettleLines(old(mediaLines));
      var left := streamSender.Keys;
      while left != {}
        invariant left <= streamSender.Keys == old(streamSender).Keys
        invariant forall s :: s in streamSender ==>
                    streamSender[s] == if s in left then old(streamSender)[s] else SettleSenders(old(streamSender))[s]
        decreases |left|
        modifies `streamSender
      {
        var ssrc :| ssrc in left;
        if streamSender[ssrc].state == Propagated {
          streamSender := streamSender[ssrc := streamSender[ssrc].(state := NegotiationState.Negotiated)];
        }
        left := left - {ssrc};
      }
    }

    method SetRemoteDescription(description: Description, mode: Mode, fault: Option<Fault>)
      returns (error: Option<ApplyError>)
      modifies this
      ensures (error, Value()) == Negotiation.SetRemoteDescription(old(Value()), description, mode, fault)
    {
      hide ApplySection, SettleLines, SettleSenders;
      if mode == Offer {
        if signallingState != Initial && signallingState != Stable {
          return Some(ApplyInvalidState);
        }
      } else if signallingState != HaveLocalOffer {
        return Some(ApplyInvalidState);
      }
      ghost var all := ApplyFrom(Value(), description, 0, fault);
      for i := 0 to |description|
        invariant ApplyFrom(Value(), description, i, fault) == all
        invariant signallingState == old(signallingState)
      {
        error := ApplyOne(i, description[i], StopAt(fault, i));
        if error.Some? {
          return;
        }
      }
      if signallingState == HaveLocalOffer {
        SettleAll();
        signallingState := Stable;
      } else {
        signallingState := HaveRemoteOffer;
      }
      error := None;
    }

  }

  lemma FoundAgain(lines: seq<Line>, id: nat, line: Line)
    requires line.id == id && Find(lines, WithId(id)) < |lines|
    ensures Find(lines[Find(lines, WithId(id)) := line], WithId(id)) == Find(lines, WithId(id))
  {
    var position := Find(lines, WithId(id));
    var lines' := lines[position := line];
    assert Matches(WithId(id), lines'[position]);
    assert forall j :: 0 <= j < position ==> lines'[j] == lines[j];
  }

  /** The senders' lines are found alike before and after the lines are promoted. */
  lemma PromotionFindsSameLines(p: Peer, isOffer: bool)
    ensures PromoteSenders(p.(lines := PromoteLines(p.lines, isOffer)), isOffer) == PromoteSenders(p, isOffer)
  {
    var promoted := PromoteLines(p.lines, isOffer);
    PromotionKeepsIds(p.lines, isOffer);
    hide PromoteLines, Promote, Find;
    forall id ensures Find(promoted, WithId(id)) == Find(p.lines, WithId(id)) {
      SameIdsFound(p.lines, promoted, id);
    }
  }

  lemma PromotionKeepsIds(lines: seq<Line>, isOffer: bool)
    ensures forall j :: 0 <= j < |lines| ==> PromoteLines(lines, isOffer)[j].id == lines[j].id
  {
    hide Promote;
  }

  lemma SameIdsFound(lines: seq<Line>, lines': seq<Line>, id: nat)
    requires |lines| == |lines'| && forall j :: 0 <= j < |lines| ==> lines[j].id == lines'[j].id
    ensures Find(lines', WithId(id)) == Find(lines, WithId(id))
  {
    var k, k' := Find(lines, WithId(id)), Find(lines', WithId(id));
    assert k < |lines| ==> Matches(WithId(id), lines'[k]);
    assert k' < |lines| ==> Matches(WithId(id), lines[k']);
  }

  lemma NothingSorted()
    ensures SortedKeys({}) == []
  {
  }

  lemma SortedKeysStep(keys: set<u32>, key: u32)
    requires key in keys && IsLeast(key, keys)
    ensures SortedKeys(keys) == [key] + SortedKeys(keys - {key})
  {
    assert key == Least(keys);
  }

  lemma PollKeepsSignalling(p: Peer, isOffer: bool)
    requires isOffer == (p.signalling != HaveRemoteOffer)
    ensures Prepared(p).signalling == p.signalling
  {
    hide AssignFrom;
    var numbered := if isOffer then p.(lines := AssignFrom(p.lines, 0, NextIndex(p.lines))) else p;
    RemovalKeepsSignalling(numbered, SortedKeys(ClosedSenders(numbered)));
  }
}
