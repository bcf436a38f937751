/**
 * What each end has heard of the other's streams: over every interleaving, the remote streams of every line are those
 * that the other end last described for its index (src/rtc.rs, src/media/media_line.rs).
 */
module StreamAgreement {
  import opened Prelude
  import opened SortedKeySets
  import opened Negotiation
  import opened NegotiationInvariants
  import opened TwoPeers
  import opened LostOffers

  /** What the last description generated here said at an index. */
  function Told(p: Peer, i: nat): Option<Media> {
    var position := Find(p.lines, WithIndex(i));
    if position < |p.lines| && p.lines[position].id in p.described then Some(p.described[p.lines[position].id]) else None
  }

  /** The remote streams of the line with an index. */
  function Heard(p: Peer, i: nat): Option<set<u32>> {
    var position := Find(p.lines, WithIndex(i));
    if position < |p.lines| then Some(p.lines[position].remoteStreams) else None
  }

  /** Wherever the other end has described a line, the line here with its index has the streams of that description. */
  ghost predicate Hears(p: Peer, q: Peer) {
    forall i :: Told(q, i).Some? ==> Heard(p, i) == Some(RemoteStreams(Told(q, i).value))
  }

  /** This was the last description generated here. */
  ghost predicate Recalls(p: Peer, description: Description) {
    forall i: nat :: Told(p, i) == if i < |description| then Some(description[i]) else None
  }

  /** Only numbered lines have been described. */
  ghost predicate Remembers(p: Peer) {
    && (forall id :: id in p.described ==> id < p.nextId)
    && (forall j :: 0 <= j < |p.lines| && p.lines[j].sdpIndex.None? ==> p.lines[j].id !in p.described)
  }

  // --- steps that disturb nothing ----------------------------------------------------------------

  /** The same was told, and at least as much was heard. */
  ghost predicate Undisturbed(p: Peer, p': Peer) {
    && Remembers(p')
    && (forall i :: Told(p', i) == Told(p, i))
    && (forall i :: Heard(p, i).Some? ==> Heard(p', i) == Heard(p, i))
  }

  lemma UndisturbedTwice(p: Peer, p': Peer, p'': Peer)
    requires Undisturbed(p, p') && Undisturbed(p', p'')
    ensures Undisturbed(p, p'')
  {
    hide Told, Heard;
  }

  /** Lines keep their identifiers, indices and remote streams. */
  ghost predicate SameLines(p: Peer, p': Peer) {
    && p'.described == p.described && p'.nextId == p.nextId && SameShape(p.lines, p'.lines)
    && forall j :: 0 <= j < |p.lines| ==> p'.lines[j].remoteStreams == p.lines[j].remoteStreams
  }

  lemma SameLinesUndisturbed(p: Peer, p': Peer)
    requires Remembers(p) && SameLines(p, p')
    ensures Undisturbed(p, p')
  {
    forall i: nat ensures Find(p'.lines, WithIndex(i)) == Find(p.lines, WithIndex(i)) {
      SameShapeFindsSame(p.lines, p'.lines, i);
    }
  }

  lemma SameShapeFindsSame(lines: seq<Line>, lines': seq<Line>, i: nat)
    requires SameShape(lines, lines')
    ensures Find(lines', WithIndex(i)) == Find(lines, WithIndex(i))
  {
    var at, at' := Find(lines, WithIndex(i)), Find(lines', WithIndex(i));
    assert at < |lines| ==> Matches(WithIndex(i), lines'[at]);
    assert at' < |lines| ==> Matches(WithIndex(i), lines[at']);
  }

  lemma NewLineUndisturbed(p: Peer, line: Line)
    requires Remembers(p) && line.id == p.nextId && line.sdpIndex.None?
    ensures Undisturbed(p, p.(lines := p.lines + [line], nextId := p.nextId + 1))
  {
    var p' := p.(lines := p.lines + [line], nextId := p.nextId + 1);
    forall i: nat ensures Told(p', i) == Told(p, i) && Heard(p', i) == Heard(p, i) {
      var at, at' := Find(p.lines, WithIndex(i)), Find(p'.lines, WithIndex(i));
      assert at < |p.lines| ==> Matches(WithIndex(i), p'.lines[at]);
      assert at' < |p.lines| ==> Matches(WithIndex(i), p.lines[at']);
    }
  }

  lemma LostLineUndisturbed(p: Peer, position: nat)
    requires Remembers(p) && position < |p.lines| && p.lines[position].sdpIndex.None?
    ensures Undisturbed(p, p.(lines := p.lines[..position] + p.lines[position + 1..]))
  {
    var p' := p.(lines := p.lines[..position] + p.lines[position + 1..]);
    forall i: nat ensures Told(p', i) == Told(p, i) && Heard(p', i) == Heard(p, i) {
      var at, at' := Find(p.lines, WithIndex(i)), Find(p'.lines, WithIndex(i));
      assert at < |p.lines| ==> Matches(WithIndex(i), p'.lines[if at < position then at else at - 1]);
      assert at' < |p'.lines| ==> Matches(WithIndex(i), p.lines[if at' < position then at' else at' + 1]);
    }
  }

  lemma AllocateUndisturbed(p: Peer, mediaType: MediaType)
    requires Remembers(p)
    ensures Undisturbed(p, AllocateLine(p, mediaType).0)
  {
    hide Undisturbed;
    SameLinesUndisturbed(p, p);
    NewLineUndisturbed(p, NewLine(p, mediaType));
  }

  lemma RemoveSenderUndisturbed(p: Peer, ssrc: u32)
    requires Remembers(p) && ssrc in p.senders
    ensures Undisturbed(p, RemoveSender(p, ssrc))
  {
    hide Undisturbed, Without, Find;
    var position := Find(p.lines, WithId(p.senders[ssrc].line));
    var removed := p.(senders := p.senders - {ssrc});
    if position == |p.lines| {
      SameLinesUndisturbed(p, removed);
    } else {
      var line := p.lines[position];
      var left := line.(localStreams := Without(line.localStreams, ssrc),
                        state := if line.state == Fresh then Fresh else Changed);
      var marked := removed.(lines := p.lines[position := left]);
      SameLinesUndisturbed(p, marked);
      if left.localStreams == [] && left.remoteStreams == {} && left.sdpIndex == None {
        assert Remembers(marked);
        LostLineUndisturbed(marked, position);
        UpdateKeepsOthers(p.lines, position, left);
        UndisturbedTwice(p, marked, RemoveSender(p, ssrc));
      }
    }
  }

  lemma {:induction false} RemoveSendersUndisturbed(p: Peer, list: seq<u32>)
    requires Remembers(p)
    ensures Undisturbed(p, RemoveSenders(p, list))
    decreases |list|
  {
    hide RemoveSender, Told, Heard;
    if list == [] {
      SameLinesUndisturbed(p, p);
    } else {
      var rest := if list[0] in p.senders then RemoveSender(p, list[0]) else p;
      if list[0] in p.senders {
        RemoveSenderUndisturbed(p, list[0]);
      }
      RemoveSendersUndisturbed(rest, list[1..]);
    }
  }

  lemma LocalUndisturbed(p: Peer, call: Call)
    requires Remembers(p)
    ensures Undisturbed(p, Local(p, call))
  {
    hide Undisturbed, RemoveSenders, WithoutCodec, Find;
    match call
    case CreatesSender(mediaType, _, _) =>
      AllocateUndisturbed(p, mediaType);
      var host := AllocateLine(p, mediaType).0;
      assert Remembers(host) by { UndisturbedRemembers(p, host); }
      SameLinesUndisturbed(host, Local(p, call));
      UndisturbedTwice(p, host, Local(p, call));
    case OpensApplicationChannel =>
      if p.channels.None? {
        var open := p.(channels := Some(Channels(true, false)));
        SameLinesUndisturbed(p, open);
        AllocateUndisturbed(open, Application);
        UndisturbedTwice(p, open, AllocateLine(open, Application).0);
      } else {
        SameLinesUndisturbed(p, p);
      }
    case Polls =>
      var polled := PollSenders(p);
      RemoveSendersUndisturbed(p, SortedKeys(ClosedSenders(p)));
      UndisturbedRemembers(p, polled);
      SameLinesUndisturbed(polled, Poll(p));
      UndisturbedTwice(p, polled, Poll(p));
    case _ => SameLinesUndisturbed(p, Local(p, call));
  }

  lemma UndisturbedRemembers(p: Peer, p': Peer)
    requires Undisturbed(p, p')
    ensures Remembers(p')
  {
  }

  // --- generating a description ------------------------------------------------------------------

  /** Numbering leaves numbered lines alone and uses new indices for the others. */
  lemma {:induction false} AssignsOnlyNew(lines: seq<Line>, position: nat, next: nat)
    requires position <= |lines|
    ensures var numbered := AssignFrom(lines, position, next);
            forall j :: 0 <= j < |lines| ==>
              && numbered[j].id == lines[j].id && numbered[j].remoteStreams == lines[j].remoteStreams
              && (lines[j].sdpIndex.Some? || j < position ==> numbered[j] == lines[j])
              && (lines[j].sdpIndex.None? && j >= position ==>
                    numbered[j].sdpIndex.Some? && numbered[j].sdpIndex.value >= next)
    decreases |lines| - position
  {
    if position == |lines| {
    } else if lines[position].sdpIndex.Some? {
      AssignsOnlyNew(lines, position + 1, next);
    } else {
      AssignsOnlyNew(lines[position := lines[position].(sdpIndex := Some(next))], position + 1, next + 1);
    }
  }

  lemma NumberedUndisturbed(p: Peer, types: seq<MediaType>)
    requires Invariant(p, types) && Remembers(p)
    ensures Undisturbed(p, p.(lines := AssignFrom(p.lines, 0, NextIndex(p.lines))))
  {
    InvariantIndexes(p, types);
    hide Invariant;
    NextIndexCounts(p.lines, types);
    AssignsOnlyNew(p.lines, 0, NextIndex(p.lines));
    var p' := p.(lines := AssignFrom(p.lines, 0, NextIndex(p.lines)));
    hide AssignFrom, Indexed, Find;
    forall i: nat ensures Told(p', i) == Told(p, i) && (Heard(p, i).Some? ==> Heard(p', i) == Heard(p, i)) {
      NumberedIsFound(p.lines, p'.lines, types, i);
    }
  }

  /** An index that was in use is found where it was; a new one is on a line that had none. */
  lemma NumberedIsFound(lines: seq<Line>, numbered: seq<Line>, types: seq<MediaType>, i: nat)
    requires Indexed(lines, types) && |numbered| == |lines|
    requires forall j :: 0 <= j < |lines| && lines[j].sdpIndex.Some? ==> numbered[j] == lines[j]
    requires forall j :: 0 <= j < |lines| && lines[j].sdpIndex.None? ==>
               numbered[j].sdpIndex.Some? && numbered[j].sdpIndex.value >= |types|
    ensures var at, at' := Find(lines, WithIndex(i)), Find(numbered, WithIndex(i));
            if at < |lines| then at' == at else at' < |lines| ==> lines[at'].sdpIndex.None?
  {
    IndexInUse(lines, types, i);
    var at, at' := Find(lines, WithIndex(i)), Find(numbered, WithIndex(i));
    assert at < |lines| ==> Matches(WithIndex(i), numbered[at]);
    assert at' < |lines| && lines[at'].sdpIndex.Some? ==> Matches(WithIndex(i), lines[at']);
  }

  lemma PreparedUndisturbed(p: Peer, types: seq<MediaType>)
    requires Invariant(p, types) && Remembers(p)
    ensures Undisturbed(p, Prepared(p))
  {
    hide Undisturbed, Invariant, RemoveSenders, AssignFrom;
    var numbered := if p.signalling == HaveRemoteOffer then p
                    else p.(lines := AssignFrom(p.lines, 0, NextIndex(p.lines)));
    if p.signalling == HaveRemoteOffer {
      SameLinesUndisturbed(p, p);
    } else {
      NumberedUndisturbed(p, types);
      UndisturbedRemembers(p, numbered);
    }
    RemoveSendersUndisturbed(numbered, SortedKeys(ClosedSenders(numbered)));
    UndisturbedTwice(p, numbered, Prepared(p));
  }

  lemma {:induction false} RegisteredAt(lines: seq<Line>, types: seq<MediaType>, from: nat, count: nat, i: nat)
    requires Indexed(lines, types) && from + count == |types| && i < count
    ensures var position := Find(lines, WithIndex(from + i));
            && position < |lines| && i < |Registered(lines, from, count)|
            && Registered(lines, from, count)[i] == lines[position]
    decreases count
  {
    hide Indexed;
    IndexInUse(lines, types, from);
    if i > 0 {
      RegisteredAt(lines, types, from + 1, count - 1, i - 1);
    }
  }

  /** What has been described is told. */
  lemma PromotedRecalls(p: Peer, types: seq<MediaType>, isOffer: bool)
    requires Invariant(p, types)
    ensures Recalls(Promoted(p, isOffer), Describe(p, isOffer)) && Remembers(Promoted(p, isOffer))
    ensures forall i :: Heard(Promoted(p, isOffer), i) == Heard(p, i)
  {
    hide Invariant, Indexed, DescribedBy, Describe, PromoteLines, PromoteSenders, Told, Heard, Remembers;
    assert DistinctIds(p) && Indexed(p.lines, types) by { InvariantShapes(p, types); }
    DescribeListsTypes(p, types, isOffer);
    forall i: nat
      ensures Told(Promoted(p, isOffer), i) == if i < |types| then Some(Describe(p, isOffer)[i]) else None
      ensures Heard(Promoted(p, isOffer), i) == Heard(p, i)
    {
      PromotedTells(p, types, isOffer, i);
    }
    DescribedIds(p, isOffer);
  }

  lemma InvariantShapes(p: Peer, types: seq<MediaType>)
    requires Invariant(p, types)
    ensures Shaped(p, types)
  {
  }

  lemma PromotedTells(p: Peer, types: seq<MediaType>, isOffer: bool, i: nat)
    requires DistinctIds(p) && Indexed(p.lines, types) && |Describe(p, isOffer)| == |types|
    ensures var p' := Promoted(p, isOffer);
            && Told(p', i) == (if i < |types| then Some(Describe(p, isOffer)[i]) else None)
            && Heard(p', i) == Heard(p, i)
  {
    hide Indexed, MediaOf, PromoteSenders, Promote, DescribedBy;
    var p', at := Promoted(p, isOffer), Find(p.lines, WithIndex(i));
    PromotedSameShape(p, isOffer);
    SameShapeFindsSame(p.lines, p'.lines, i);
    NextIndexCounts(p.lines, types);
    IndexInUse(p.lines, types, i);
    if i < |types| {
      RegisteredAt(p.lines, types, 0, |types|, i);
      DescribedLine(p, isOffer, at);
    }
  }

  lemma DescribedIds(p: Peer, isOffer: bool)
    requires DistinctIds(p)
    ensures Remembers(Promoted(p, isOffer))
  {
    hide MediaOf, PromoteSenders, Promote, Find;
    var p' := Promoted(p, isOffer);
    forall id | id in p'.described ensures id < p'.nextId {
      assert id in RegisteredIds(p.lines);
    }
    forall j | 0 <= j < |p'.lines| && p'.lines[j].sdpIndex.None? ensures p'.lines[j].id !in p'.described {
      assert p'.lines[j].id == p.lines[j].id && p.lines[j].sdpIndex.None?;
    }
  }

  /** Generating a description keeps what was heard; a failure also keeps what was told. */
  lemma CreateRecalls(p: Peer, types: seq<MediaType>)
    requires Invariant(p, types) && Remembers(p)
    ensures var (description, p') := CreateLocalDescription(p);
            && Remembers(p')
            && (forall i :: Heard(p, i).Some? ==> Heard(p', i) == Heard(p, i))
            && if description.Ok? then Recalls(p', description.value) else Undisturbed(p, p')
  {
    hide Invariant, Told, Heard, Prepared, Describe, PromoteLines, PromoteSenders, DescribedBy, CanDescribeAll, Remembers;
    if p.signalling == HaveLocalOffer || p.signalling == Stable {
      SameLinesUndisturbed(p, p);
    } else {
      var types' := PreparedKeeps(p, types);
      PreparedUndisturbed(p, types);
      PromotedRecalls(Prepared(p), types', p.signalling != HaveRemoteOffer);
    }
  }

  // --- applying a description --------------------------------------------------------------------

  /** One section is heard on its own line; nothing else is. */
  ghost predicate HearsSection(p: Peer, p': Peer, i: nat, media: Media) {
    && Remembers(p')
    && (forall k :: Told(p', k) == Told(p, k))
    && (forall k :: Heard(p', k) == if k == i then Some(RemoteStreams(media)) else Heard(p, k))
  }

  /** The line at `position` has, or now gets, the index. */
  ghost predicate Claimed(lines: seq<Line>, lines': seq<Line>, position: nat, i: nat) {
    && position < |lines| == |lines'| && lines'[position].sdpIndex == Some(i) && lines'[position].id == lines[position].id
    && (lines[position].sdpIndex == Some(i) || lines[position].sdpIndex == None)
    && forall j :: 0 <= j < |lines| && j != position ==> lines'[j] == lines[j] && lines[j].sdpIndex != Some(i)
  }

  lemma ClaimedIsFound(lines: seq<Line>, lines': seq<Line>, position: nat, i: nat, k: nat)
    requires Claimed(lines, lines', position, i)
    ensures Find(lines', WithIndex(k)) == if k == i then position else Find(lines, WithIndex(k))
  {
    var at, at' := Find(lines, WithIndex(k)), Find(lines', WithIndex(k));
    assert k == i ==> Matches(WithIndex(k), lines'[position]);
    assert at < |lines| && k != i ==> Matches(WithIndex(k), lines'[at]);
    assert at' < |lines| && k != i ==> Matches(WithIndex(k), lines[at']);
  }

  lemma ClaimingClaims(p: Peer, types: seq<MediaType>, i: nat, media: Media)
    requires Invariant(p, types) && i <= |types| && ApplyMedia(p, i, media).Ok?
    requires Claim(p.lines, i, media.mediaType).1 < |p.lines|
    ensures var position, p' := Claim(p.lines, i, media.mediaType).1, ApplyMedia(p, i, media).value;
            && Claimed(p.lines, p'.lines, position, i) && p'.described == p.described && p'.nextId == p.nextId
            && p'.lines[position].remoteStreams == RemoteStreams(media)
  {
    InvariantIndexes(p, types);
    hide Invariant, ApplyTransport, ApplyChannels, RemoteStreams;
    IndexInUse(p.lines, types, i);
  }

  lemma ClaimedLineHears(p: Peer, types: seq<MediaType>, i: nat, media: Media)
    requires Invariant(p, types) && Remembers(p) && i <= |types|
    requires Claim(p.lines, i, media.mediaType).1 < |p.lines| && ApplyMedia(p, i, media).Ok?
    ensures HearsSection(p, ApplyMedia(p, i, media).value, i, media)
  {
    ClaimingClaims(p, types, i, media);
    hide Invariant, ApplyMedia, RemoteStreams, Claim;
    var position, p' := Claim(p.lines, i, media.mediaType).1, ApplyMedia(p, i, media).value;
    forall k: nat
      ensures Told(p', k) == Told(p, k)
      ensures Heard(p', k) == if k == i then Some(RemoteStreams(media)) else Heard(p, k)
    {
      ClaimedIsFound(p.lines, p'.lines, position, i, k);
      ClaimedFoundBefore(p.lines, p'.lines, position, i);
    }
  }

  /** The index was in use at this position or not at all. */
  lemma ClaimedFoundBefore(lines: seq<Line>, lines': seq<Line>, position: nat, i: nat)
    requires Claimed(lines, lines', position, i)
    ensures Find(lines, WithIndex(i)) == if lines[position].sdpIndex == Some(i) then position else |lines|
  {
    assert lines[position].sdpIndex == Some(i) ==> Matches(WithIndex(i), lines[position]);
  }

  lemma AppendedIsFound(lines: seq<Line>, line: Line, i: nat, k: nat)
    requires Find(lines, WithIndex(i)) == |lines| && line.sdpIndex == Some(i)
    ensures Find(lines + [line], WithIndex(k)) ==
            if k == i then |lines| else if Find(lines, WithIndex(k)) < |lines| then Find(lines, WithIndex(k))
            else |lines| + 1
  {
    var longer := lines + [line];
    var at, at' := Find(lines, WithIndex(k)), Find(longer, WithIndex(k));
    assert at < |lines| ==> Matches(WithIndex(k), longer[at]);
    assert k == i ==> Matches(WithIndex(k), longer[|lines|]);
    assert at' < |lines| ==> Matches(WithIndex(k), lines[at']);
  }

  lemma NewLineHears(p: Peer, types: seq<MediaType>, i: nat, media: Media)
    requires Invariant(p, types) && Remembers(p) && i <= |types|
    requires Claim(p.lines, i, media.mediaType).1 == |p.lines| && ApplyMedia(p, i, media).Ok?
    ensures HearsSection(p, ApplyMedia(p, i, media).value, i, media)
  {
    var line := Line(p.nextId, media.mediaType, Some(i), Fresh, [], RemoteStreams(media), []);
    var p' := ApplyMedia(p, i, media).value;
    assert p'.lines == p.lines + [line] && p'.nextId == p.nextId + 1 && p'.described == p.described;
    assert Find(p.lines, WithIndex(i)) == |p.lines|;
    hide Invariant, ApplyMedia, RemoteStreams, Claim;
    forall k: nat
      ensures Told(p', k) == Told(p, k)
      ensures Heard(p', k) == if k == i then Some(RemoteStreams(media)) else Heard(p, k)
    {
      AppendedIsFound(p.lines, line, i, k);
    }
  }

  lemma {:induction false} SectionsAreHeard(p: Peer, types: seq<MediaType>, description: Description, i: nat)
    requires Invariant(p, types) && Remembers(p) && i <= |types| && i <= |description|
    ensures var (error, p') := ApplyFrom(p, description, i, None);
            && Remembers(p')
            && (forall k :: Told(p', k) == Told(p, k))
            && (error.None? ==>
                  forall k: nat :: Heard(p', k) == if i <= k < |description| then Some(RemoteStreams(description[k]))
                                                   else Heard(p, k))
    decreases |description| - i
  {
    hide Invariant, Told, Heard, ApplyMedia, ApplySection, Remembers, RemoteStreams, Claim;
    if i < |description| {
      var media := description[i];
      if ApplySection(p, i, media, None).0.Some? {
        FailedSectionTellsTheSame(p, types, i, media);
      } else {
        SectionApplies(p, i, media);
        if Claim(p.lines, i, media.mediaType).1 < |p.lines| {
          ClaimedLineHears(p, types, i, media);
        } else {
          NewLineHears(p, types, i, media);
        }
        ApplyMediaKeeps(p, types, i, media);
        SectionsAreHeard(ApplyMedia(p, i, media).value, if i < |types| then types else types + [media.mediaType],
                         description, i + 1);
      }
    }
  }

  /** A section that fails may number a line, and no more that matters to what has been told. */
  lemma FailedSectionTellsTheSame(p: Peer, types: seq<MediaType>, i: nat, media: Media)
    requires Invariant(p, types) && Remembers(p) && i <= |types| && ApplySection(p, i, media, None).0.Some?
    ensures var p' := ApplySection(p, i, media, None).1;
            Remembers(p') && forall k :: Told(p', k) == Told(p, k)
  {
    FailedSectionLines(p, types, i, media);
    hide Invariant, ApplySection, Claim;
    var position, p' := Claim(p.lines, i, media.mediaType).1, ApplySection(p, i, media, None).1;
    if position < |p.lines| {
      forall k: nat ensures Told(p', k) == Told(p, k) {
        ClaimedIsFound(p.lines, p'.lines, position, i, k);
        ClaimedFoundBefore(p.lines, p'.lines, position, i);
      }
    }
  }

  lemma FailedSectionLines(p: Peer, types: seq<MediaType>, i: nat, media: Media)
    requires Invariant(p, types) && i <= |types| && ApplySection(p, i, media, None).0.Some?
    ensures var position, p' := Claim(p.lines, i, media.mediaType).1, ApplySection(p, i, media, None).1;
            && p'.described == p.described && p.nextId <= p'.nextId
            && if position < |p.lines| then Claimed(p.lines, p'.lines, position, i) else p'.lines == p.lines
  {
    ClaimingLines(p, types, i, media);
    hide Invariant, Claiming, Claim, ApplyTransport, ApplyMedia, RemoteStreams, TransportAfter;
  }

  lemma ClaimingLines(p: Peer, types: seq<MediaType>, i: nat, media: Media)
    requires Invariant(p, types) && i <= |types|
    ensures var (claimed, position) := Claiming(p, i, media);
            && position == Claim(p.lines, i, media.mediaType).1 <= |p.lines|
            && claimed.described == p.described && p.nextId <= claimed.nextId
            && if position < |p.lines| then Claimed(p.lines, claimed.lines, position, i) else claimed.lines == p.lines
  {
    InvariantIndexes(p, types);
    hide Invariant;
    IndexInUse(p.lines, types, i);
  }

  lemma SectionApplies(p: Peer, i: nat, media: Media)
    requires ApplySection(p, i, media, None).0.None?
    ensures ApplyMedia(p, i, media).Ok? && ApplySection(p, i, media, None) == (None, ApplyMedia(p, i, media).value)
    ensures Claim(p.lines, i, media.mediaType).1 <= |p.lines|
  {
    hide Claim;
    ClaimKeepsLength(p.lines, i, media.mediaType);
  }

  lemma ClaimKeepsLength(lines: seq<Line>, i: nat, mediaType: MediaType)
    ensures |Claim(lines, i, mediaType).0| == |lines|
  {
  }

  /** What was told stays; every section of an accepted description is heard. */
  lemma ReceptionHears(p: Peer, types: seq<MediaType>, message: Message)
    requires Invariant(p, types) && Remembers(p)
    ensures var (error, p') := Reception(p, message);
            && Remembers(p') && (forall k :: Told(p', k) == Told(p, k))
            && (error.None? ==>
                  forall k :: 0 <= k < |message.description| ==>
                    Heard(p', k) == Some(RemoteStreams(message.description[k])))
  {
    hide Invariant, Told, Heard, ApplyFrom, RemoteStreams;
    SectionsAreHeard(p, types, message.description, 0);
    FinishUndisturbed(ApplyFrom(p, message.description, 0, None).1);
  }

  lemma FinishUndisturbed(p: Peer)
    ensures Remembers(p) ==> Undisturbed(p, Finish(p))
  {
    hide Undisturbed;
    if Remembers(p) {
      SameLinesUndisturbed(p, Finish(p));
    }
  }

  // --- both ends ---------------------------------------------------------------------------------

  /** The last description of the first end has been accepted: it is neither under way nor has it been refused. */
  predicate Accepted(s: System) {
    s.toB == [] && !s.refusedA
  }

  /** What is under way from the first end is what it recalls, and what has been accepted of it is heard. */
  ghost predicate Attentive(s: System) {
    && Remembers(s.a)
    && (s.toB != [] ==> Recalls(s.a, s.toB[|s.toB| - 1].description))
    && (Accepted(s) ==> Hears(s.b, s.a))
  }

  ghost predicate Attuned(s: System) {
    Attentive(s) && Attentive(Swap(s))
  }

  lemma HearsOn(p: Peer, q: Peer, p': Peer)
    requires Hears(p, q) && forall i :: Heard(p, i).Some? ==> Heard(p', i) == Heard(p, i)
    ensures Hears(p', q)
  {
    hide Told, Heard;
  }

  lemma HeardOn(p: Peer, q: Peer, q': Peer)
    requires Hears(p, q) && forall i :: Told(q', i) == Told(q, i)
    ensures Hears(p, q')
  {
    hide Told, Heard;
  }

  lemma RecallsOn(p: Peer, p': Peer, description: Description)
    requires Recalls(p, description) && forall i :: Told(p', i) == Told(p, i)
    ensures Recalls(p', description)
  {
    hide Told;
  }

  lemma RecalledIsHeard(p: Peer, q: Peer, description: Description)
    requires Recalls(q, description)
    requires forall k :: 0 <= k < |description| ==> Heard(p, k) == Some(RemoteStreams(description[k]))
    ensures Hears(p, q)
  {
    hide Told, Heard, RemoteStreams;
  }

  /** The first end changes, having told and heard as before. */
  lemma UndisturbedMove(s: System, p: Peer)
    requires Attuned(s) && Undisturbed(s.a, p)
    ensures Attuned(s.(a := p))
  {
    hide Told, Heard, Hears, Recalls, Remembers;
    var s' := s.(a := p);
    if s.toB != [] {
      RecallsOn(s.a, p, s.toB[|s.toB| - 1].description);
    }
    if Accepted(s) {
      HeardOn(s.b, s.a, p);
    }
    if Accepted(Swap(s)) {
      HearsOn(s.a, s.b, p);
    }
  }

  lemma LocalMoveAttuned(s: System, call: Call)
    requires Attuned(s)
    ensures Attuned(s.(a := Local(s.a, call)))
  {
    hide Attuned, Undisturbed, Local;
    assert Remembers(s.a) by { AttunedRemembers(s); }
    LocalUndisturbed(s.a, call);
    UndisturbedMove(s, Local(s.a, call));
  }

  lemma AttunedRemembers(s: System)
    requires Attuned(s)
    ensures Remembers(s.a) && Remembers(s.b)
  {
  }

  /** The first end has described itself. */
  lemma SentAttuned(s: System, p: Peer, message: Message)
    requires Attuned(s) && Remembers(p) && Recalls(p, message.description)
    requires forall i :: Heard(s.a, i).Some? ==> Heard(p, i) == Heard(s.a, i)
    ensures Attuned(s.(a := p, toB := s.toB + [message], failedA := false, refusedA := false))
  {
    hide Told, Heard, Hears, Recalls, Remembers;
    if Accepted(Swap(s)) {
      HearsOn(s.a, s.b, p);
    }
  }

  lemma SendMoveAttuned(s: System, types: seq<MediaType>)
    requires Attuned(s) && Invariant(s.a, types)
    ensures Attuned(MoveA(s, SendsDescription))
  {
    hide Attuned, Undisturbed, Invariant, Recalls, Remembers, Told, Heard, CreateLocalDescription;
    AttunedRemembers(s);
    CreateRecalls(s.a, types);
    var (description, p) := CreateLocalDescription(s.a);
    if description.Ok? {
      SentAttuned(s, p, Message(ModeOf(s.a), description.value));
    } else {
      UndisturbedMove(s, p);
      SameAttuned(s.(a := p), s.(a := p, failedA := s.failedA || NextIndex(p.lines) > NextIndex(s.a.lines)));
    }
  }

  /** The marks of failed offers do not matter here. */
  lemma SameAttuned(s: System, s': System)
    requires Attuned(s) && s' == s.(failedA := s'.failedA)
    ensures Attuned(s')
  {
  }

  /** The first end has read a message, or refused it. */
  lemma ReadAttuned(s: System, error: Option<ApplyError>, p: Peer)
    requires Attuned(s) && s.toA != []
    requires Remembers(p) && (forall k :: Told(p, k) == Told(s.a, k))
    requires error.None? ==>
               forall k :: 0 <= k < |s.toA[0].description| ==> Heard(p, k) == Some(RemoteStreams(s.toA[0].description[k]))
    ensures Attuned(s.(a := p, toA := s.toA[1..], refusedB := s.refusedB || error.Some?))
  {
    hide Told, Heard, Hears, Recalls, Remembers, RemoteStreams;
    var s' := s.(a := p, toA := s.toA[1..], refusedB := s.refusedB || error.Some?);
    if s.toB != [] {
      RecallsOn(s.a, p, s.toB[|s.toB| - 1].description);
    }
    if Accepted(s) {
      HeardOn(s.b, s.a, p);
    }
    if Accepted(Swap(s')) {
      RecalledIsHeard(p, s.b, s.toA[0].description);
    }
  }

  lemma MoveAttuned(s: System, types: seq<MediaType>, move: Move)
    requires Attuned(s) && Invariant(s.a, types) && Enabled(s, move)
    ensures Attuned(MoveA(s, move))
  {
    hide Attuned, Invariant, Told, Heard, Remembers, Local, CreateLocalDescription, SetRemoteDescription;
    match move
    case Changes(call) => LocalMoveAttuned(s, call);
    case SendsDescription => SendMoveAttuned(s, types);
    case Receives =>
      AttunedRemembers(s);
      ReceptionHears(s.a, types, s.toA[0]);
      var (error, p) := Reception(s.a, s.toA[0]);
      ReadAttuned(s, error, p);
  }

  lemma NewSystemAttuned()
    ensures Attuned(NewSystem())
  {
  }

  lemma {:induction false} RunAttuned(moves: seq<(bool, Move)>)
    requires After(NewSystem(), moves).Some?
    ensures Attuned(After(NewSystem(), moves).value)
    decreases |moves|
  {
    hide Attuned, Coherent, Ends, MoveA, Enabled, Clean;
    if moves == [] {
      NewSystemAttuned();
    } else {
      var earlier, move := moves[..|moves| - 1], moves[|moves| - 1];
      RunAttuned(earlier);
      var s := After(NewSystem(), earlier).value;
      var ta, tb := RunCoheres(earlier);
      CoherentParts(s, ta, tb, Clean(NewSystem(), earlier));
      EndsParts(s, ta, tb);
      if move.0 {
        MoveAttuned(s, ta, move.1);
      } else {
        AttunedBothWays(s);
        MoveAttuned(Swap(s), tb, move.1);
        AttunedBothWays(MoveA(Swap(s), move.1));
      }
    }
  }

  lemma AttunedBothWays(s: System)
    requires Attuned(s)
    ensures Attuned(Swap(s))
  {
    hide Attentive;
    assert Swap(Swap(s)) == s;
  }

  // --- main result -------------------------------------------------------------------------------

  /**
   * In every run, whatever is offered, refused, clashes or fails to be offered: once an end's last description has been
   * accepted, the other end's lines have exactly the streams it described, index by index; so both do whenever both are
   * negotiated with nothing under way.
   */
  lemma DescribedStreamsAreHeard(moves: seq<(bool, Move)>)
    requires After(NewSystem(), moves).Some?
    ensures var s := After(NewSystem(), moves).value;
            && (Accepted(s) ==> Hears(s.b, s.a)) && (Accepted(Swap(s)) ==> Hears(s.a, s.b))
            && (IsNegotiated(s.a) && IsNegotiated(s.b) && s.toA == [] && s.toB == [] ==>
                  Hears(s.a, s.b) && Hears(s.b, s.a))
  {
    hide After, Hears, Recalls, Remembers;
    RunAttuned(moves);
    RefusalMeansInVain(moves);
  }
}
