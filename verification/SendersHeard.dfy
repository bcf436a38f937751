/**
 * Which senders the other end hears of: over every run, all those of an end that has nothing new to tell
 * (src/rtc.rs).
 */
module SendersHeard {
  import opened Prelude
  import opened SortedKeySets
  import opened Negotiation
  import opened NegotiationInvariants
  import opened TwoPeers
  import opened StreamAgreement

  /** Senders are listed on their line, and a line that was described as only receiving had none. */
  ghost predicate Hosts(p: Peer) {
    && (forall ssrc :: ssrc in p.senders ==> p.senders[ssrc].line < p.nextId)
    && (forall ssrc, j :: ssrc in p.senders && 0 <= j < |p.lines| && p.lines[j].id == p.senders[ssrc].line ==>
          ssrc in p.lines[j].localStreams)
    && (forall id :: id in p.described && p.described[id].direction == Recvonly ==> p.described[id].streams == map[])
  }

  // --- single steps ------------------------------------------------------------------------------

  /** Lines stay where they are with their senders; no sender is new. */
  lemma SameLinesHost(p: Peer, p': Peer)
    requires Hosts(p) && p'.described == p.described && p.nextId <= p'.nextId && |p'.lines| == |p.lines|
    requires forall j :: 0 <= j < |p.lines| ==>
               p'.lines[j].id == p.lines[j].id && p'.lines[j].localStreams == p.lines[j].localStreams
    requires forall ssrc :: ssrc in p'.senders ==> ssrc in p.senders && p'.senders[ssrc].line == p.senders[ssrc].line
    ensures Hosts(p')
  {
  }

  lemma NewLineHosts(p: Peer, line: Line)
    requires Hosts(p) && line.id == p.nextId
    ensures Hosts(p.(lines := p.lines + [line], nextId := p.nextId + 1))
  {
  }

  lemma AddedSenderHosts(p: Peer, position: nat, ssrc: u32, initial: Properties)
    requires Hosts(p) && DistinctIds(p) && ssrc !in p.senders && position < |p.lines|
    ensures var line := p.lines[position];
            Hosts(p.(lines := p.lines[position := line.(localStreams := line.localStreams + [ssrc])],
                     senders := p.senders[ssrc := Sender(line.id, Fresh, initial, false)]))
  {
    var line := p.lines[position];
    var lines := p.lines[position := line.(localStreams := line.localStreams + [ssrc])];
    var senders := p.senders[ssrc := Sender(line.id, Fresh, initial, false)];
    forall s, j | s in senders && 0 <= j < |lines| && lines[j].id == senders[s].line
      ensures s in lines[j].localStreams
    {
      assert s != ssrc ==> p.lines[j].id == p.senders[s].line;
      assert s == ssrc ==> j == position;
    }
  }

  lemma CreateSenderHosts(p: Peer, mediaType: MediaType, ssrc: u32, initial: Properties)
    requires Hosts(p) && DistinctIds(p) && ssrc !in p.senders
    ensures Hosts(CreateSender(p, mediaType, ssrc, initial))
  {
    var (host, position) := AllocateLine(p, mediaType);
    assert DistinctIds(host);
    hide Hosts, DistinctIds, Find;
    NewLineHosts(p, NewLine(p, mediaType));
    AddedSenderHosts(host, position, ssrc, initial);
  }

  lemma RemoveSenderHosts(p: Peer, ssrc: u32)
    requires Hosts(p) && ssrc in p.senders
    ensures Hosts(RemoveSender(p, ssrc))
  {
    hide Find, Without;
    var p', position := RemoveSender(p, ssrc), Find(p.lines, WithId(p.senders[ssrc].line));
    forall s, j | s in p'.senders && 0 <= j < |p'.lines| && p'.lines[j].id == p'.senders[s].line
      ensures s in p'.lines[j].localStreams
    {
      var k := if |p'.lines| < |p.lines| && j >= position then j + 1 else j;
      assert p.lines[k].id == p.senders[s].line;
    }
  }

  lemma {:induction false} RemoveSendersHost(p: Peer, list: seq<u32>)
    requires Hosts(p)
    ensures Hosts(RemoveSenders(p, list))
    decreases |list|
  {
    hide Hosts, RemoveSender;
    if list != [] {
      if list[0] in p.senders {
        RemoveSenderHosts(p, list[0]);
      }
      RemoveSendersHost(if list[0] in p.senders then RemoveSender(p, list[0]) else p, list[1..]);
    }
  }

  lemma LocalHosts(p: Peer, call: Call)
    requires Hosts(p) && DistinctIds(p) && Allowed(p, call)
    ensures Hosts(Local(p, call))
  {
    hide Hosts, RemoveSenders, WithoutCodec, Find;
    match call
    case CreatesSender(mediaType, ssrc, initial) => CreateSenderHosts(p, mediaType, ssrc, initial);
    case OpensApplicationChannel =>
      if p.channels.None? {
        var open := p.(channels := Some(Channels(true, false)));
        SameLinesHost(p, open);
        NewLineHosts(open, NewLine(open, Application));
      }
    case Polls =>
      RemoveSendersHost(p, SortedKeys(ClosedSenders(p)));
      SameLinesHost(PollSenders(p), Poll(p));
    case _ => SameLinesHost(p, Local(p, call));
  }

  lemma {:induction false} AssignKeepsSenders(lines: seq<Line>, position: nat, next: nat)
    requires position <= |lines|
    ensures var numbered := AssignFrom(lines, position, next);
            forall j :: 0 <= j < |lines| ==>
              numbered[j].id == lines[j].id && numbered[j].localStreams == lines[j].localStreams
    decreases |lines| - position
  {
    if position == |lines| {
    } else if lines[position].sdpIndex.Some? {
      AssignKeepsSenders(lines, position + 1, next);
    } else {
      AssignKeepsSenders(lines[position := lines[position].(sdpIndex := Some(next))], position + 1, next + 1);
    }
  }

  lemma PreparedHosts(p: Peer)
    requires Hosts(p)
    ensures Hosts(Prepared(p))
  {
    hide Hosts, RemoveSenders, AssignFrom;
    var numbered := if p.signalling == HaveRemoteOffer then p
                    else p.(lines := AssignFrom(p.lines, 0, NextIndex(p.lines)));
    AssignKeepsSenders(p.lines, 0, NextIndex(p.lines));
    SameLinesHost(p, numbered);
    RemoveSendersHost(numbered, SortedKeys(ClosedSenders(numbered)));
  }

  lemma ReceivingMeansNoSenders(p: Peer, isOffer: bool, id: nat)
    requires Hosts(p) && id in DescribedBy(p, isOffer) && DescribedBy(p, isOffer)[id].direction == Recvonly
    ensures DescribedBy(p, isOffer)[id].streams == map[]
  {
    var at := Find(p.lines, WithId(id));
    assert p.lines[at].id == id && p.lines[at].localStreams == [];
    hide Find;
  }

  lemma PromotedSameLines(p: Peer, isOffer: bool)
    requires Hosts(p)
    ensures Hosts(Promoted(p, isOffer).(described := p.described))
  {
    hide Hosts, Promote, Find, DescribedBy;
    SameLinesHost(p, Promoted(p, isOffer).(described := p.described));
  }

  lemma PromotedHosts(p: Peer, isOffer: bool)
    requires Hosts(p)
    ensures Hosts(Promoted(p, isOffer))
  {
    PromotedSameLines(p, isOffer);
    hide DescribedBy, PromoteLines, PromoteSenders;
    forall id | id in DescribedBy(p, isOffer) && DescribedBy(p, isOffer)[id].direction == Recvonly
      ensures DescribedBy(p, isOffer)[id].streams == map[]
    {
      ReceivingMeansNoSenders(p, isOffer, id);
    }
  }

  lemma CreateHosts(p: Peer)
    requires Hosts(p)
    ensures Hosts(CreateLocalDescription(p).1)
  {
    hide Hosts, Prepared, PromoteLines, PromoteSenders, DescribedBy, CanDescribeAll, Describe;
    PreparedHosts(p);
    PromotedHosts(Prepared(p), p.signalling != HaveRemoteOffer);
  }

  lemma ClaimKeepsSenders(lines: seq<Line>, i: nat, mediaType: MediaType)
    ensures var claimed := Claim(lines, i, mediaType).0;
            && |claimed| == |lines|
            && forall j :: 0 <= j < |lines| ==> SameButRemote(lines[j], claimed[j])
  {
  }

  /** At most one line is added, and it is new; of the others nothing changes but their remote side. */
  ghost predicate AddsAtMostOne(p: Peer, p': Peer) {
    && p'.described == p.described && p'.senders == p.senders
    && |p.lines| <= |p'.lines| <= |p.lines| + 1 && p.nextId <= p'.nextId
    && (forall j :: 0 <= j < |p.lines| ==> SameButRemote(p.lines[j], p'.lines[j]))
    && (|p'.lines| > |p.lines| ==>
          var line := p'.lines[|p.lines|];
          line.id == p.nextId < p'.nextId && line.state == Fresh && line.localStreams == [] && line.codecs == [])
  }

  /** The other end's descriptions leave alone what this one says of a line. */
  predicate SameButRemote(line: Line, line': Line) {
    line' == line.(sdpIndex := line'.sdpIndex, remoteStreams := line'.remoteStreams)
  }

  lemma AppliedAddsAtMostOne(p: Peer, i: nat, media: Media)
    requires ApplyMedia(p, i, media).Ok?
    ensures AddsAtMostOne(p, ApplyMedia(p, i, media).value)
  {
    ClaimKeepsSenders(p.lines, i, media.mediaType);
    hide Claim, ApplyTransport, ApplyChannels, RemoteStreams;
  }

  lemma ClaimingAddsNone(p: Peer, i: nat, media: Media)
    ensures var (claimed, _) := Claiming(p, i, media);
            AddsAtMostOne(p, claimed) && |claimed.lines| == |p.lines|
  {
    ClaimKeepsSenders(p.lines, i, media.mediaType);
    hide Claim;
  }

  lemma FailedAddsNone(p: Peer, i: nat, media: Media, stop: Option<Progress>)
    requires ApplySection(p, i, media, stop).0.Some?
    ensures AddsAtMostOne(p, ApplySection(p, i, media, stop).1)
  {
    ClaimingAddsNone(p, i, media);
    hide Claiming, ApplyTransport, ApplyMedia, RemoteStreams, TransportAfter, RoleBeforeConfiguration;
  }

  lemma SectionAddsAtMostOne(p: Peer, i: nat, media: Media, stop: Option<Progress>)
    ensures AddsAtMostOne(p, ApplySection(p, i, media, stop).1)
  {
    if ApplySection(p, i, media, stop).0.Some? {
      FailedAddsNone(p, i, media, stop);
    } else {
      hide ApplyMedia, AddsAtMostOne, Claim;
      AppliedAddsAtMostOne(p, i, media);
    }
  }

  lemma SectionHosts(p: Peer, i: nat, media: Media, stop: Option<Progress>)
    requires Hosts(p)
    ensures Hosts(ApplySection(p, i, media, stop).1)
  {
    hide ApplySection;
    SectionAddsAtMostOne(p, i, media, stop);
    var p' := ApplySection(p, i, media, stop).1;
    forall ssrc, j | ssrc in p'.senders && 0 <= j < |p'.lines| && p'.lines[j].id == p'.senders[ssrc].line
      ensures ssrc in p'.lines[j].localStreams
    {
      assert j < |p.lines| && p.lines[j].id == p.senders[ssrc].line;
    }
  }

  lemma {:induction false} ApplyFromHosts(p: Peer, description: Description, i: nat, fault: Option<Fault>)
    requires Hosts(p) && i <= |description|
    ensures Hosts(ApplyFrom(p, description, i, fault).1)
    decreases |description| - i
  {
    hide Hosts, ApplySection;
    if i < |description| {
      SectionHosts(p, i, description[i], StopAt(fault, i));
      var (error, applied) := ApplySection(p, i, description[i], StopAt(fault, i));
      if error.None? {
        ApplyFromHosts(applied, description, i + 1, fault);
      }
    }
  }

  lemma MoveHosts(s: System, move: Move)
    requires Hosts(s.a) && DistinctIds(s.a) && Enabled(s, move)
    ensures Hosts(MoveA(s, move).a) && MoveA(s, move).b == s.b
  {
    hide Hosts, Local, CreateLocalDescription, ApplyFrom;
    match move
    case Changes(call) => LocalHosts(s.a, call);
    case SendsDescription => CreateHosts(s.a);
    case Receives =>
      ApplyFromHosts(s.a, s.toA[0].description, 0, None);
      var applied := ApplyFrom(s.a, s.toA[0].description, 0, None).1;
      SameLinesHost(applied, Finish(applied));
  }

  lemma {:induction false} RunHosts(moves: seq<(bool, Move)>)
    requires After(NewSystem(), moves).Some?
    ensures Hosts(After(NewSystem(), moves).value.a) && Hosts(After(NewSystem(), moves).value.b)
    decreases |moves|
  {
    hide Hosts, Coherent, MoveA, Enabled, Clean;
    if moves == [] {
      NewHosts();
    } else {
      var earlier, move := moves[..|moves| - 1], moves[|moves| - 1];
      RunHosts(earlier);
      var s := After(NewSystem(), earlier).value;
      var ta, tb := RunCoheres(earlier);
      CoherentParts(s, ta, tb, Clean(NewSystem(), earlier));
      InvariantShapes(s.a, ta);
      InvariantShapes(s.b, tb);
      MoveHosts(if move.0 then s else Swap(s), move.1);
    }
  }

  lemma NewHosts()
    ensures Hosts(NewPeer())
  {
  }

  // --- main result -------------------------------------------------------------------------------

  function SendersOn(p: Peer, line: Line): set<u32> {
    set ssrc | ssrc in p.senders && p.senders[ssrc].line == line.id
  }

  lemma NothingNewIsHeard(p: Peer, types: seq<MediaType>, q: Peer, j: nat)
    requires Invariant(p, types) && Hosts(p) && !HasNews(p) && Hears(q, p)
    requires j < |p.lines| && p.lines[j].sdpIndex.Some? && p.lines[j].mediaType != Application
    ensures Heard(q, p.lines[j].sdpIndex.value) == Some(SendersOn(p, p.lines[j]))
  {
    InvariantIndexes(p, types);
    InvariantAt(p, types, j);
    hide Invariant;
    var line := p.lines[j];
    assert Matches(WithIndex(line.sdpIndex.value), line) && Find(p.lines, WithIndex(line.sdpIndex.value)) == j;
    SettledLineIsReflected(p, line);
    var media := p.described[line.id];
    assert Told(p, line.sdpIndex.value) == Some(media) && media.streams == StreamsOf(p, line.id);
    assert RemoteStreams(media) == SendersOn(p, line);
  }

  /**
   * In every run: an end that has nothing new to tell, and whose last description has been accepted, is heard. For each
   * of its audio and video lines with an index, the other end's line has exactly its senders there as remote streams.
   */
  lemma SendersAreHeard(moves: seq<(bool, Move)>, atA: bool, j: nat)
    requires After(NewSystem(), moves).Some?
    requires var s := Facing(After(NewSystem(), moves).value, atA);
             && Accepted(s) && !HasNews(s.a)
             && j < |s.a.lines| && s.a.lines[j].sdpIndex.Some? && s.a.lines[j].mediaType != Application
    ensures var s := Facing(After(NewSystem(), moves).value, atA);
            Heard(s.b, s.a.lines[j].sdpIndex.value) == Some(SendersOn(s.a, s.a.lines[j]))
  {
    hide After, Hears, Hosts, HasNews, Clean, Coherent, Accepted;
    DescribedStreamsAreHeard(moves);
    RunHosts(moves);
    var s := After(NewSystem(), moves).value;
    var ta, tb := RunCoheres(moves);
    CoherentParts(s, ta, tb, Clean(NewSystem(), moves));
    if atA {
      NothingNewIsHeard(s.a, ta, s.b, j);
    } else {
      NothingNewIsHeard(s.b, tb, s.a, j);
    }
  }
}
