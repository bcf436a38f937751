/**
 * Single runs of two peers: one that ends in agreement, one that loses an offer, one that sets the ends apart
 * (src/rtc.rs).
 */
module NegotiationRuns {
  import opened Prelude
  import opened SortedKeySets
  import opened Negotiation
  import opened NegotiationInvariants
  import opened TwoPeers
  import opened LostOffers
  import opened OfferOutcomes

  // --- ends with one line ------------------------------------------------------------------------

  lemma NobodyLeaves(p: Peer)
    requires forall ssrc :: ssrc in p.senders ==> !p.senders[ssrc].closed
    ensures PollSenders(p) == p
  {
    assert ClosedSenders(p) == {};
  }

  lemma OneLineIsNumbered(line: Line)
    requires line.sdpIndex == None || line.sdpIndex == Some(0)
    ensures var lines, numbered := [line], line.(sdpIndex := Some(0));
            && AssignFrom(lines, 0, NextIndex(lines)) == [numbered]
            && RegisteredLines([numbered]) == [numbered]
  {
    var numbered := line.(sdpIndex := Some(0));
    assert [line][..0] == [] && [numbered][..0] == [];
    assert NextIndex([numbered]) == 1;
    assert [line][0 := numbered] == [numbered];
    assert Matches(WithIndex(0), [numbered][0]);
    assert Find([numbered], WithIndex(0)) == 0;
    assert Registered([numbered], 1, 0) == [];
  }

  function Numbered(p: Peer, line: Line): Peer {
    p.(lines := [line.(sdpIndex := Some(0))])
  }

  lemma OneLineIsPrepared(p: Peer, line: Line)
    requires p.lines == [line] && (line.sdpIndex == None || line.sdpIndex == Some(0))
    requires p.signalling == HaveRemoteOffer ==> line.sdpIndex == Some(0)
    requires forall ssrc :: ssrc in p.senders ==> !p.senders[ssrc].closed
    ensures Prepared(p) == Numbered(p, line)
  {
    OneLineIsNumbered(line);
    NobodyLeaves(Numbered(p, line));
    hide AssignFrom, RemoveSenders, NextIndex;
  }

  /** What an end with one line describes, if it can. */
  lemma OneLineDescribes(p: Peer, line: Line)
    requires p.lines == [line] && (line.sdpIndex == None || line.sdpIndex == Some(0))
    requires p.signalling == HaveRemoteOffer ==> line.sdpIndex == Some(0)
    requires p.signalling != HaveLocalOffer && p.signalling != Stable
    requires forall ssrc :: ssrc in p.senders ==> !p.senders[ssrc].closed
    ensures var q, isOffer := Numbered(p, line), p.signalling != HaveRemoteOffer;
            if CanDescribe(q, q.lines[0]) then
              CreateLocalDescription(p) ==
              (Ok([MediaOf(q, q.lines[0], isOffer)]),
               q.(lines := [q.lines[0].(state := Promote(q.lines[0].state, isOffer))],
                  senders := PromoteSenders(q, isOffer),
                  signalling := if isOffer then HaveLocalOffer else Stable,
                  described := DescribedBy(q, isOffer)))
            else CreateLocalDescription(p) == (Err(DescribeError), q)
  {
    OneLineIsPrepared(p, line);
    OneLineIsNumbered(line);
    hide Prepared, AssignFrom, NextIndex, Registered, PromoteSenders, DescribedBy, MediaOf, Promote;
    var q, isOffer := Numbered(p, line), p.signalling != HaveRemoteOffer;
    assert PromoteLines(q.lines, isOffer) == [q.lines[0].(state := Promote(q.lines[0].state, isOffer))];
    assert Describe(q, isOffer) == [MediaOf(q, q.lines[0], isOffer)];
    assert CanDescribeAll(q) <==> CanDescribe(q, q.lines[0]);
  }

  // --- a first negotiation -----------------------------------------------------------------------

  function ApplicationLine(index: Option<nat>, state: NegotiationState): Line {
    Line(0, Application, index, state, [], {}, [])
  }

  function ApplicationMedia(setup: Setup): Media {
    Media(Application, setup, Sendrecv, [], map[])
  }

  /** An end with nothing but its data channels. */
  function ApplicationPeer(signalling: SignallingState, line: Line, transport: Transport, channels: Channels,
                           described: map<nat, Media>): Peer {
    Peer(signalling, [line], 1, map[], transport, Some(channels), described)
  }

  /** The first end opens its data channels and offers them; the second accepts and answers. */
  const FIRST_NEGOTIATION: seq<(bool, Move)> :=
    [(true, Changes(OpensApplicationChannel)), (true, SendsDescription), (false, Receives), (false, SendsDescription),
     (true, Receives)]

  lemma Opens(p: Peer)
    requires p == NewPeer()
    ensures Local(p, OpensApplicationChannel) ==
            ApplicationPeer(Initial, ApplicationLine(None, Fresh), UNDECIDED, Channels(true, false), map[])
  {
  }

  lemma OffersChannels(p: Peer, line: Line, described: map<nat, Media>)
    requires p.channels.Some? && p == ApplicationPeer(p.signalling, line, p.transport, p.channels.value, described)
    requires p.signalling == Initial || p.signalling == NegotiationRequired
    requires line.mediaType == Application && line.localStreams == [] && line.state.Open()
    requires line.sdpIndex == None || line.sdpIndex == Some(0)
    ensures var (d, p') := CreateLocalDescription(p);
            && d == Ok([ApplicationMedia(DescribedSetup(p.transport.setup))])
            && p' == ApplicationPeer(HaveLocalOffer, line.(sdpIndex := Some(0), state := Propagated), p.transport,
                                     p.channels.value, p'.described)
  {
    OneLineDescribes(p, line);
    hide CreateLocalDescription, DescribedBy;
  }

  lemma AcceptsChannels()
    ensures Reception(NewPeer(), Message(Offer, [ApplicationMedia(Actpass)])) ==
            (None, ApplicationPeer(HaveRemoteOffer, ApplicationLine(Some(0), Fresh), SERVER, Channels(false, true), map[]))
  {
    var p, media := NewPeer(), ApplicationMedia(Actpass);
    assert Claim(p.lines, 0, Application) == ([], 0);
    assert RemoteStreams(media) == {};
    assert ApplyTransport(UNDECIDED, media) == Ok(SERVER);
    assert p.lines + [ApplicationLine(Some(0), Fresh)] == [ApplicationLine(Some(0), Fresh)];
    assert ApplyChannels(Channels(true, false), media) == Ok(Channels(false, true));
    assert ApplyMedia(p, 0, media) ==
           Ok(ApplicationPeer(Initial, ApplicationLine(Some(0), Fresh), SERVER, Channels(false, true), map[]));
    SectionIsMedia(p, 0, media);
    hide ApplySection;
    assert ApplyFrom(ApplyMedia(p, 0, media).value, [media], 1, None).0 == None;
  }

  lemma AnswersChannels(p: Peer)
    requires p == ApplicationPeer(HaveRemoteOffer, ApplicationLine(Some(0), Fresh), SERVER, Channels(false, true), map[])
    ensures var (d, p') := CreateLocalDescription(p);
            && d == Ok([ApplicationMedia(Passive)])
            && p' == ApplicationPeer(Stable, ApplicationLine(Some(0), NegotiationState.Negotiated), SERVER,
                                     Channels(false, true), p'.described)
  {
    OneLineDescribes(p, p.lines[0]);
    hide CreateLocalDescription, DescribedBy;
  }

  lemma LearnsChannels(p: Peer, described: map<nat, Media>)
    requires p == ApplicationPeer(HaveLocalOffer, ApplicationLine(Some(0), Propagated), UNDECIDED, Channels(true, false),
                                  described)
    ensures Reception(p, Message(Answer, [ApplicationMedia(Passive)])) ==
            (None, ApplicationPeer(Stable, ApplicationLine(Some(0), NegotiationState.Negotiated), CLIENT,
                                   Channels(true, true), described))
  {
    var media := ApplicationMedia(Passive);
    assert Matches(WithIndex(0), p.lines[0]) && Find(p.lines, WithIndex(0)) == 0;
    assert Claim(p.lines, 0, Application) == (p.lines, 0);
    assert RemoteStreams(media) == {};
    assert ApplyTransport(UNDECIDED, media) == Ok(CLIENT);
    assert ApplyChannels(Channels(true, false), media) == Ok(Channels(true, true));
    assert p.lines[0 := p.lines[0].(remoteStreams := {})] == p.lines;
    assert ApplyMedia(p, 0, media) ==
           Ok(ApplicationPeer(HaveLocalOffer, ApplicationLine(Some(0), Propagated), CLIENT, Channels(true, true),
                              described));
    SectionIsMedia(p, 0, media);
    hide ApplySection, ApplyMedia;
    var applied := ApplyMedia(p, 0, media).value;
    assert ApplyFrom(applied, [media], 1, None) == (None, applied);
    assert SettleLines(applied.lines) == [ApplicationLine(Some(0), NegotiationState.Negotiated)];
    assert SettleSenders(applied.senders) == map[];
  }

  lemma SentMove(s: System)
    requires CreateLocalDescription(s.a).0.Ok?
    ensures MoveA(s, SendsDescription) ==
            s.(a := CreateLocalDescription(s.a).1,
               toB := s.toB + [Message(ModeOf(s.a), CreateLocalDescription(s.a).0.value)], failedA := false,
               refusedA := false)
  {
  }

  lemma ReceivedMove(s: System)
    requires s.toA != []
    ensures MoveA(s, Receives) == s.(a := Reception(s.a, s.toA[0]).1, toA := s.toA[1..],
                                    refusedB := s.refusedB || Reception(s.a, s.toA[0]).0.Some?)
  {
  }

  function ConcludedPeer(transport: Transport, described: map<nat, Media>): Peer {
    ApplicationPeer(Stable, ApplicationLine(Some(0), NegotiationState.Negotiated), transport,
                    Channels(transport.setup == Active, true), described)
  }

  /** The second end has accepted the offer of data channels. */
  function Accepted(described: map<nat, Media>): System {
    System(ApplicationPeer(HaveLocalOffer, ApplicationLine(Some(0), Propagated), UNDECIDED, Channels(true, false), described),
           ApplicationPeer(HaveRemoteOffer, ApplicationLine(Some(0), Fresh), SERVER, Channels(false, true), map[]),
           [], [], false, false, false, false)
  }

  lemma ChannelsAreAccepted() returns (a: map<nat, Media>)
    ensures After(NewSystem(), FIRST_NEGOTIATION[..3]) == Some(Accepted(a))
  {
    hide After, MoveA, Local, CreateLocalDescription, Reception;
    var moves, s0 := FIRST_NEGOTIATION, NewSystem();
    assert After(s0, moves[..0]) == Some(s0) by { NoMoves(s0); }
    Opens(s0.a);
    LocalMove(s0, OpensApplicationChannel);
    OneMore(s0, moves, 0, s0);
    var s1 := MoveA(s0, moves[0].1);
    OffersChannels(s1.a, s1.a.lines[0], map[]);
    SentMove(s1);
    OneMore(s0, moves, 1, s1);
    var s2 := MoveA(s1, SendsDescription);
    AcceptsChannels();
    ReceivedMove(Swap(s2));
    OneMore(s0, moves, 2, s2);
    a := s2.a.described;
    assert s2.a == Accepted(a).a;
    assert s2.toB == [Message(Offer, [ApplicationMedia(Actpass)])] && s2.toB[1..] == [] && s2.toA == [];
    assert MoveA(Swap(s2), Receives).a == Accepted(a).b;
  }

  /** A run on which the two ends come to agree on a line, with the roles of client and server. */
  lemma FirstNegotiationConcludes() returns (a: map<nat, Media>, b: map<nat, Media>)
    ensures After(NewSystem(), FIRST_NEGOTIATION) ==
            Some(System(ConcludedPeer(CLIENT, a), ConcludedPeer(SERVER, b), [], [], false, false, false, false))
    ensures Indexed(ConcludedPeer(CLIENT, a).lines, [Application]) && Indexed(ConcludedPeer(SERVER, b).lines, [Application])
    ensures Concluded(After(NewSystem(), FIRST_NEGOTIATION).value) && Clean(NewSystem(), FIRST_NEGOTIATION)
  {
    hide After, MoveA, Local, CreateLocalDescription, Reception, Indexed;
    var moves, s0 := FIRST_NEGOTIATION, NewSystem();
    a := ChannelsAreAccepted();
    var s3 := Accepted(a);
    AnswersChannels(s3.b);
    SentMove(Swap(s3));
    OneMore(s0, moves, 3, s3);
    var s4 := Swap(MoveA(Swap(s3), SendsDescription));
    LearnsChannels(s4.a, a);
    ReceivedMove(s4);
    OneMore(s0, moves, 4, s4);
    b := s4.b.described;
    assert s4.toA == [Message(Answer, [ApplicationMedia(Passive)])] && s4.toA[1..] == [] && s4.toB == [];
    assert s4.b == ConcludedPeer(SERVER, b);
    assert MoveA(s4, Receives).a == ConcludedPeer(CLIENT, a);
    assert moves[..5] == moves;
    OneLineIndexed(ConcludedPeer(CLIENT, a).lines[0]);
    hide Clean;
    PeersAgreeExactlyWhenNothingClashed(FIRST_NEGOTIATION);
  }

  lemma OneLineIndexed(line: Line)
    requires line.sdpIndex == Some(0)
    ensures Indexed([line], [line.mediaType])
  {
    assert Matches(WithIndex(0), [line][0]);
  }

  // --- an offer lost without crossing another ----------------------------------------------------

  /** The second end adds a sender and is about to offer it; only then the first end offers, and its offer is refused. */
  const REFUSAL: seq<(bool, Move)> :=
    [(false, Changes(CreatesSender(Audio, 0, map[]))), (false, Changes(Polls)),
     (true, Changes(ChangesCodec(0, 0, Some(SOME_CODEC)))), (true, Changes(Polls)), (true, SendsDescription),
     (false, Receives)]

  lemma NeedsAnOffer(p: Peer)
    requires p.signalling == Stable && HasNews(p) && forall ssrc :: ssrc in p.senders ==> !p.senders[ssrc].closed
    ensures Local(p, Polls) == p.(signalling := NegotiationRequired)
  {
    NobodyLeaves(p);
  }

  lemma ChangesItsLine(p: Peer, transport: Transport, described: map<nat, Media>)
    requires p == ConcludedPeer(transport, described)
    ensures var p' := Local(p, ChangesCodec(0, 0, Some(SOME_CODEC)));
            p' == p.(lines := [p.lines[0].(state := Changed, codecs := [SOME_CODEC])]) && HasNews(p')
  {
    assert Matches(WithId(0), p.lines[0]) && Find(p.lines, WithId(0)) == 0;
    assert [] + [SOME_CODEC] == [SOME_CODEC];
    assert p.lines[0 := p.lines[0].(state := Changed, codecs := [SOME_CODEC])]
        == [p.lines[0].(state := Changed, codecs := [SOME_CODEC])];
    assert Local(p, ChangesCodec(0, 0, Some(SOME_CODEC))).lines[0].state.Open();
  }

  lemma AddsASender(p: Peer, transport: Transport, described: map<nat, Media>)
    requires p == ConcludedPeer(transport, described)
    ensures var p' := Local(p, CreatesSender(Audio, 0, map[]));
            && p'.signalling == Stable && HasNews(p')
            && forall ssrc :: ssrc in p'.senders ==> !p'.senders[ssrc].closed
  {
    var p' := Local(p, CreatesSender(Audio, 0, map[]));
    assert 0 in p'.senders && p'.senders[0].state.Open();
  }

  /** The second end first, then the first one, need an offer. */
  lemma BothNeedOffers(s: System, a: map<nat, Media>, b: map<nat, Media>)
    requires s == System(ConcludedPeer(CLIENT, a), ConcludedPeer(SERVER, b), [], [], false, false, false, false)
    ensures var s' := After(s, REFUSAL[..4]);
            && s'.Some? && s'.value.b.signalling == NegotiationRequired && s'.value.toA == [] && s'.value.toB == []
            && s'.value.a == ApplicationPeer(NegotiationRequired, ApplicationLine(Some(0), Changed).(codecs := [SOME_CODEC]),
                                             CLIENT, Channels(true, true), a)
  {
    hide After, MoveA, Local, HasNews, ConcludedPeer;
    var moves := REFUSAL;
    assert After(s, moves[..0]) == Some(s) by { NoMoves(s); }
    ShapeOfConcluded(CLIENT, a);
    ShapeOfConcluded(SERVER, b);
    AddsASender(s.b, SERVER, b);
    LocalMove(Swap(s), moves[0].1.call);
    OneMore(s, moves, 0, s);
    var s1 := Swap(MoveA(Swap(s), moves[0].1));
    NeedsAnOffer(s1.b);
    LocalMove(Swap(s1), Polls);
    OneMore(s, moves, 1, s1);
    var s2 := Swap(MoveA(Swap(s1), moves[1].1));
    ChangesItsLine(s2.a, CLIENT, a);
    LocalMove(s2, moves[2].1.call);
    OneMore(s, moves, 2, s2);
    var s3 := MoveA(s2, moves[2].1);
    NeedsAnOffer(s3.a);
    LocalMove(s3, Polls);
    OneMore(s, moves, 3, s3);
  }

  /** Negotiated ends come to a glare with a single offer made: nothing is on its way, and the offer is lost. */
  lemma OfferIsLostWithoutCrossing()
    ensures var s := After(NewSystem(), FIRST_NEGOTIATION + REFUSAL);
            && s.Some? && Glare(s.value) && s.value.b.signalling == NegotiationRequired
            && s.value.toA == [] && s.value.toB == []
  {
    hide After, MoveA, CreateLocalDescription, Reception, ConcludedPeer;
    var a, b := FirstNegotiationConcludes();
    var moves, s0 := REFUSAL, After(NewSystem(), FIRST_NEGOTIATION).value;
    BothNeedOffers(s0, a, b);
    var s4 := After(s0, moves[..4]).value;
    OffersChannels(s4.a, s4.a.lines[0], a);
    SentMove(s4);
    OneMore(s0, moves, 4, s4);
    var s5 := MoveA(s4, SendsDescription);
    Refused(s5.b, s5.toB[0]);
    ReceivedMove(Swap(s5));
    OneMore(s0, moves, 5, s5);
    assert moves[..6] == moves;
    RunsJoin(NewSystem(), FIRST_NEGOTIATION, moves);
  }

  lemma ShapeOfConcluded(transport: Transport, described: map<nat, Media>)
    ensures ConcludedPeer(transport, described) ==
            ApplicationPeer(Stable, ApplicationLine(Some(0), NegotiationState.Negotiated), transport,
                            Channels(transport.setup == Active, true), described)
  {
  }

  // --- a failed offer that sets the ends apart ---------------------------------------------------

  /** The second end cannot describe its audio sender but numbers the line; then it accepts an offer of video. */
  const CLASH: seq<(bool, Move)> :=
    [(false, Changes(CreatesSender(Audio, 0, map[]))), (false, SendsDescription),
     (true, Changes(CreatesSender(Video, 0, map[]))), (true, Changes(ChangesCodec(0, 0, Some(SOME_CODEC)))),
     (true, SendsDescription), (false, Receives)]

  /** An end with one sender on one line. */
  function SenderPeer(mediaType: MediaType, index: Option<nat>, codecs: seq<Codec>): Peer {
    Peer(Initial, [Line(0, mediaType, index, Fresh, [0], {}, codecs)], 1, map[0 := Sender(0, Fresh, map[], false)],
         UNDECIDED, None, map[])
  }

  lemma MakesASender(mediaType: MediaType)
    ensures Local(NewPeer(), CreatesSender(mediaType, 0, map[])) == SenderPeer(mediaType, None, [])
  {
    assert [] + [0] == [0 as u32];
  }

  lemma RegistersACodec(mediaType: MediaType)
    ensures Local(SenderPeer(mediaType, None, []), ChangesCodec(0, 0, Some(SOME_CODEC)))
         == SenderPeer(mediaType, None, [SOME_CODEC])
  {
    var p := SenderPeer(mediaType, None, []);
    assert Matches(WithId(0), p.lines[0]) && Find(p.lines, WithId(0)) == 0;
    assert [] + [SOME_CODEC] == [SOME_CODEC];
  }

  lemma FailsToOffer()
    ensures CreateLocalDescription(SenderPeer(Audio, None, [])) == (Err(DescribeError), SenderPeer(Audio, Some(0), []))
    ensures NextIndex(SenderPeer(Audio, Some(0), []).lines) == 1 && NextIndex(SenderPeer(Audio, None, []).lines) == 0
  {
    var p := SenderPeer(Audio, None, []);
    OneLineDescribes(p, p.lines[0]);
    assert p.lines[..0] == [] && SenderPeer(Audio, Some(0), []).lines[..0] == [];
  }

  lemma OffersItsSender(mediaType: MediaType)
    requires mediaType != Application
    ensures var (d, p') := CreateLocalDescription(SenderPeer(mediaType, None, [SOME_CODEC]));
            && d.Ok? && |d.value| == 1 && d.value[0].mediaType == mediaType && d.value[0].direction != Inactive
            && d.value[0].setup == Actpass
            && p'.signalling == HaveLocalOffer && |p'.lines| == 1 && p'.lines[0].mediaType == mediaType
            && p'.lines[0].sdpIndex == Some(0)
  {
    var p := SenderPeer(mediaType, None, [SOME_CODEC]);
    OneLineDescribes(p, p.lines[0]);
    hide CreateLocalDescription, PromoteSenders, DescribedBy;
  }

  lemma AcceptsVideoOnAudio(media: Media)
    requires media.mediaType == Video && media.direction != Inactive && media.setup == Actpass
    ensures var p := SenderPeer(Audio, Some(0), []);
            var (error, p') := Reception(p, Message(Offer, [media]));
            && error == None && Clashes(p, [media]) && p'.signalling == HaveRemoteOffer
            && |p'.lines| == 1 && p'.lines[0].mediaType == Audio && p'.lines[0].sdpIndex == Some(0)
  {
    var p := SenderPeer(Audio, Some(0), []);
    assert Matches(WithIndex(0), p.lines[0]) && Find(p.lines, WithIndex(0)) == 0;
    assert Claim(p.lines, 0, Video) == (p.lines, 0);
    assert ApplyTransport(UNDECIDED, media) == Ok(SERVER);
    assert ApplyMedia(p, 0, media).Ok?;
    SectionIsMedia(p, 0, media);
    hide ApplySection;
    assert ApplyFrom(ApplyMedia(p, 0, media).value, [media], 1, None).0 == None;
  }

  /** A new peer makes a sender that it cannot describe; the attempt numbers the line. */
  lemma AudioIsNumbered(moves: seq<(bool, Move)>, atA: bool)
    requires |moves| >= 2
    requires moves[0] == (atA, Changes(CreatesSender(Audio, 0, map[]))) && moves[1] == (atA, SendsDescription)
    ensures After(NewSystem(), moves[..2])
         == Some(Facing(System(SenderPeer(Audio, Some(0), []), NewPeer(), [], [], true, false, false, false), atA))
  {
    hide After, MoveA, Local, CreateLocalDescription, SenderPeer;
    var s0 := NewSystem();
    assert After(s0, moves[..0]) == Some(s0) by { NoMoves(s0); }
    MakesASender(Audio);
    LocalMove(s0, moves[0].1.call);
    OneMore(s0, moves, 0, s0);
    var s1 := MoveA(s0, moves[0].1);
    FailsToOffer();
    FailedMove(s1);
    OneMore(s0, moves, 1, Facing(s1, atA));
  }

  lemma VideoIsOffered()
    ensures var s := After(NewSystem(), CLASH[..5]);
            && s.Some? && s.value.b == SenderPeer(Audio, Some(0), []) && |s.value.toB| == 1
            && s.value.toB[0].mode == Offer && |s.value.toB[0].description| == 1
            && s.value.toB[0].description[0].mediaType == Video
            && s.value.toB[0].description[0].direction != Inactive
            && s.value.toB[0].description[0].setup == Actpass
            && |s.value.a.lines| == 1 && s.value.a.lines[0].sdpIndex == Some(0) && s.value.a.lines[0].mediaType == Video
  {
    hide After, MoveA, Local, CreateLocalDescription;
    var moves, s0 := CLASH, NewSystem();
    AudioIsNumbered(moves, false);
    var s2 := After(s0, moves[..2]).value;
    MakesASender(Video);
    LocalMove(s2, moves[2].1.call);
    OneMore(s0, moves, 2, s2);
    var s3 := MoveA(s2, moves[2].1);
    RegistersACodec(Video);
    LocalMove(s3, moves[3].1.call);
    OneMore(s0, moves, 3, s3);
    var s4 := MoveA(s3, moves[3].1);
    OffersItsSender(Video);
    SentMove(s4);
    OneMore(s0, moves, 4, s4);
  }

  /** A run whose failed offer keeps its index: a video offer is accepted, without error, on the line for audio. */
  lemma FailedOfferCanClash()
    ensures var earlier, later := After(NewSystem(), CLASH[..5]), After(NewSystem(), CLASH);
            && earlier.Some? && later.Some? && ClashesAt(Swap(earlier.value), Receives) && !Clean(NewSystem(), CLASH)
            && Reception(earlier.value.b, earlier.value.toB[0]).0 == None
            && later.value.b.signalling == HaveRemoteOffer
            && |later.value.a.lines| == 1 == |later.value.b.lines|
            && later.value.a.lines[0].sdpIndex == Some(0) && later.value.a.lines[0].mediaType == Video
            && later.value.b.lines[0].sdpIndex == Some(0) && later.value.b.lines[0].mediaType == Audio
  {
    hide After, MoveA, Reception, Clashes;
    var moves, s0 := CLASH, NewSystem();
    VideoIsOffered();
    var s5 := After(s0, moves[..5]).value;
    var message := s5.toB[0];
    AcceptsVideoOnAudio(message.description[0]);
    assert message == Message(Offer, [message.description[0]]);
    ReceivedMove(Swap(s5));
    OneMore(s0, moves, 5, s5);
    assert moves[..6] == moves;
  }

  lemma FailedMove(s: System)
    requires CreateLocalDescription(s.a).0.Err?
    ensures MoveA(s, SendsDescription) ==
            s.(a := CreateLocalDescription(s.a).1,
               failedA := s.failedA || NextIndex(CreateLocalDescription(s.a).1.lines) > NextIndex(s.a.lines))
  {
  }
}
