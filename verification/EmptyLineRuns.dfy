/**
 * Runs with a numbered line that has nothing on it: an answer that says nothing, and an offer and an answer that cannot be
 * read (src/rtc.rs, src/media/media_line.rs).
 */
module EmptyLineRuns {
  import opened Prelude
  import opened SortedKeySets
  import opened Negotiation
  import opened NegotiationInvariants
  import opened TwoPeers
  import opened LostOffers
  import opened OfferOutcomes
  import opened NegotiationRuns

  // --- an end with a numbered audio line and nothing on it ---------------------------------------

  function AudioLine(state: NegotiationState, codecs: seq<Codec>): Line {
    Line(0, Audio, Some(0), state, [], {}, codecs)
  }

  function AudioPeer(signalling: SignallingState, line: Line, transport: Transport, described: map<nat, Media>): Peer {
    Peer(signalling, [line], 1, map[], transport, None, described)
  }

  function EmptyPeer(codecs: seq<Codec>): Peer {
    AudioPeer(Initial, AudioLine(Fresh, codecs), UNDECIDED, map[])
  }

  /** A sender without codecs, an offer that fails, the sender dropped again; then the line gets its codec. */
  const EMPTYING: seq<Move> :=
    [Changes(CreatesSender(Audio, 0, map[])), SendsDescription, Changes(DropsSender(0)), Changes(Polls),
     Changes(ChangesCodec(0, 0, Some(SOME_CODEC)))]

  function By(atA: bool, moves: seq<Move>): seq<(bool, Move)> {
    seq(|moves|, k requires 0 <= k < |moves| => (atA, moves[k]))
  }

  lemma DropsAndPolls()
    ensures Local(Local(SenderPeer(Audio, Some(0), []), DropsSender(0)), Polls) == EmptyPeer([])
  {
    var p := Local(SenderPeer(Audio, Some(0), []), DropsSender(0));
    assert p.senders == map[0 := Sender(0, Fresh, map[], true)];
    assert ClosedSenders(p) == {0};
    assert Matches(WithId(0), p.lines[0]) && Find(p.lines, WithId(0)) == 0;
    assert Without([0], 0) == [] by { assert Without([0][1..], 0) == []; }
    assert p.senders - {0} == map[];
    assert RemoveSender(p, 0) == EmptyPeer([]);
    OnlyKey(0);
    assert RemoveSenders(EmptyPeer([]), [0 as u32][1..]) == EmptyPeer([]);
    assert PollSenders(p) == EmptyPeer([]);
  }

  lemma OnlyKey(key: u32)
    ensures SortedKeys({key}) == [key]
  {
    assert SortedKeys({key})[0] in {key};
  }

  lemma RegistersOnEmptyLine(p: Peer)
    requires |p.lines| == 1 && p.lines[0] == AudioLine(Fresh, [])
    ensures Local(p, ChangesCodec(0, 0, Some(SOME_CODEC))) == p.(lines := [AudioLine(Fresh, [SOME_CODEC])])
  {
    assert Matches(WithId(0), p.lines[0]) && Find(p.lines, WithId(0)) == 0;
    assert [] + [SOME_CODEC] == [SOME_CODEC];
  }

  /** One end comes to hold such a line. */
  lemma EmptiesItsLine(atA: bool)
    ensures After(NewSystem(), By(atA, EMPTYING))
         == Some(Facing(System(EmptyPeer([SOME_CODEC]), NewPeer(), [], [], true, false, false, false), atA))
  {
    hide After, MoveA, Local, CreateLocalDescription;
    var moves, s0 := By(atA, EMPTYING), NewSystem();
    AudioIsNumbered(moves, atA);
    var s2 := Facing(After(s0, moves[..2]).value, atA);
    LocalMove(s2, DropsSender(0));
    OneMore(s0, moves, 2, Facing(s2, atA));
    var s3 := MoveA(s2, EMPTYING[2]);
    DropsAndPolls();
    LocalMove(s3, Polls);
    OneMore(s0, moves, 3, Facing(s3, atA));
    var s4 := MoveA(s3, Changes(Polls));
    RegistersOnEmptyLine(s4.a);
    LocalMove(s4, EMPTYING[4].call);
    OneMore(s0, moves, 4, Facing(s4, atA));
    assert moves[..5] == moves;
  }

  // --- what it says ------------------------------------------------------------------------------

  function AudioMedia(setup: Setup, direction: Direction): Media {
    Media(Audio, setup, direction, [SOME_CODEC], map[])
  }

  /** Offering the line is asking to receive; answering with it says nothing. */
  lemma DescribesEmptyLine(p: Peer, isOffer: bool)
    requires p == AudioPeer(if isOffer then Initial else HaveRemoteOffer, AudioLine(Fresh, [SOME_CODEC]), p.transport,
                            map[])
    ensures var (d, p') := CreateLocalDescription(p);
            && d == Ok([AudioMedia(DescribedSetup(p.transport.setup), if isOffer then Recvonly else Inactive)])
            && p' == AudioPeer(if isOffer then HaveLocalOffer else Stable,
                               AudioLine(if isOffer then Propagated else NegotiationState.Negotiated, [SOME_CODEC]),
                               p.transport, p'.described)
  {
    OneLineDescribes(p, p.lines[0]);
    hide CreateLocalDescription, DescribedBy;
    assert StreamsOf(p, 0) == map[];
  }

  lemma AcceptsAudio(media: Media)
    requires media == AudioMedia(Actpass, Recvonly)
    ensures Reception(NewPeer(), Message(Offer, [media])) ==
            (None, AudioPeer(HaveRemoteOffer, AudioLine(Fresh, []), SERVER, map[]))
  {
    var p := NewPeer();
    assert Claim(p.lines, 0, Audio) == ([], 0);
    assert ApplyTransport(UNDECIDED, media) == Ok(SERVER);
    assert p.lines + [AudioLine(Fresh, [])] == [AudioLine(Fresh, [])];
    var applied := AudioPeer(Initial, AudioLine(Fresh, []), SERVER, map[]);
    assert ApplyMedia(p, 0, media) == Ok(applied);
    SectionIsMedia(p, 0, media);
    hide ApplySection;
    assert ApplyFrom(applied, [media], 1, None) == (None, applied);
  }

  /** An undecided end with one audio line reads an answer that says nothing. */
  lemma ReadsNothing(p: Peer, line: Line)
    requires p.signalling == HaveLocalOffer && p.transport == UNDECIDED && p.lines == [line]
    requires line.sdpIndex == Some(0) && line.mediaType == Audio
    ensures var (error, p') := Reception(p, Message(Answer, [AudioMedia(Passive, Inactive)]));
            error == None && p'.signalling == Stable && p'.transport == UNDECIDED
  {
    var media := AudioMedia(Passive, Inactive);
    assert Matches(WithIndex(0), p.lines[0]) && Find(p.lines, WithIndex(0)) == 0;
    assert Claim(p.lines, 0, Audio) == (p.lines, 0);
    assert ApplyTransport(UNDECIDED, media) == Ok(UNDECIDED);
    SectionIsMedia(p, 0, media);
    hide ApplySection;
    assert ApplyFrom(ApplyMedia(p, 0, media).value, [media], 1, None) == (None, ApplyMedia(p, 0, media).value);
  }

  // --- an offerer that learns nothing ------------------------------------------------------------

  const SILENCE: seq<(bool, Move)> :=
    [(true, SendsDescription), (false, Receives), (false, Changes(ChangesCodec(0, 0, Some(SOME_CODEC)))),
     (false, SendsDescription), (true, Receives)]

  /** Both lines are empty, and the answer says so. */
  lemma SilenceIsAnswered() returns (s: System)
    ensures After(NewSystem(), By(true, EMPTYING) + SILENCE[..4]) == Some(s)
    ensures s.a == AudioPeer(HaveLocalOffer, AudioLine(Propagated, [SOME_CODEC]), UNDECIDED, s.a.described)
    ensures s.b.signalling == Stable && s.b.transport == SERVER && !s.failedA && !s.failedB
    ensures s.toA == [Message(Answer, [AudioMedia(Passive, Inactive)])] && s.toB == []
  {
    hide After, MoveA, Local, CreateLocalDescription, Reception;
    EmptiesItsLine(true);
    var moves, s0 := SILENCE, System(EmptyPeer([SOME_CODEC]), NewPeer(), [], [], true, false, false, false);
    assert After(s0, moves[..0]) == Some(s0) by { NoMoves(s0); }
    DescribesEmptyLine(s0.a, true);
    SentMove(s0);
    OneMore(s0, moves, 0, s0);
    var s1 := MoveA(s0, SendsDescription);
    AcceptsAudio(AudioMedia(Actpass, Recvonly));
    ReceivedMove(Swap(s1));
    OneMore(s0, moves, 1, s1);
    var s2 := Swap(MoveA(Swap(s1), Receives));
    RegistersOnEmptyLine(s2.b);
    LocalMove(Swap(s2), moves[2].1.call);
    OneMore(s0, moves, 2, s2);
    var s3 := Swap(MoveA(Swap(s2), moves[2].1));
    DescribesEmptyLine(s3.b, false);
    SentMove(Swap(s3));
    OneMore(s0, moves, 3, s3);
    s := Swap(MoveA(Swap(s3), SendsDescription));
    RunsJoin(NewSystem(), By(true, EMPTYING), moves[..4]);
  }

  /** A negotiation without error that leaves the offerer undecided, its answerer server. */
  lemma OffererCanStayUndecided()
    ensures var s := After(NewSystem(), By(true, EMPTYING) + SILENCE);
            && s.Some? && Concluded(s.value) && s.value.a.transport == UNDECIDED && s.value.b.transport == SERVER
  {
    hide After, MoveA, Reception;
    var s := SilenceIsAnswered();
    ReadsNothing(s.a, s.a.lines[0]);
    ReceivedMove(s);
    ThenOneMove(NewSystem(), By(true, EMPTYING) + SILENCE[..4], true, Receives);
    assert By(true, EMPTYING) + SILENCE[..4] + [(true, Receives)] == By(true, EMPTYING) + SILENCE;
  }

  // --- an offer that cannot be read --------------------------------------------------------------

  const UNREADABLE_OFFER: seq<(bool, Move)> :=
    [(true, Changes(OpensApplicationChannel)), (true, SendsDescription), (false, Receives)]

  lemma ChannelsAreOffered() returns (s: System)
    ensures After(NewSystem(), By(false, EMPTYING) + UNREADABLE_OFFER[..2]) == Some(s)
    ensures s.a == ApplicationPeer(HaveLocalOffer, ApplicationLine(Some(0), Propagated), UNDECIDED, Channels(true, false),
                                   s.a.described)
    ensures s.b == EmptyPeer([SOME_CODEC]) && s.toA == [] && s.toB == [Message(Offer, [ApplicationMedia(Actpass)])]
  {
    hide After, MoveA, Local, CreateLocalDescription;
    EmptiesItsLine(false);
    var moves, s0 := UNREADABLE_OFFER, After(NewSystem(), By(false, EMPTYING)).value;
    assert After(s0, moves[..0]) == Some(s0) by { NoMoves(s0); }
    Opens(s0.a);
    LocalMove(s0, OpensApplicationChannel);
    OneMore(s0, moves, 0, s0);
    var s1 := MoveA(s0, moves[0].1);
    OffersChannels(s1.a, s1.a.lines[0], map[]);
    SentMove(s1);
    OneMore(s0, moves, 1, s1);
    s := MoveA(s1, SendsDescription);
    RunsJoin(NewSystem(), By(false, EMPTYING), moves[..2]);
  }

  /** The offer of data channels meets an audio line: it fails in an accepting state, and its sender waits for ever. */
  lemma OfferCanBeUnreadable()
    ensures var before := After(NewSystem(), By(false, EMPTYING) + UNREADABLE_OFFER[..2]);
            var s := After(NewSystem(), By(false, EMPTYING) + UNREADABLE_OFFER);
            && before.Some? && before.value.toB != [] && Accepts(before.value.b.signalling, before.value.toB[0].mode)
            && Reception(before.value.b, before.value.toB[0]).0 == Some(MissingCodecDescription)
            && s.Some? && Idle(s.value) && s.value.b.signalling == Initial && ApartLines(s.value.a, s.value.b)
  {
    hide After, MoveA, Reception;
    var s := ChannelsAreOffered();
    IsRefused(s.b, ApplicationMedia(Actpass));
    ReceivedMove(Swap(s));
    ThenOneMove(NewSystem(), By(false, EMPTYING) + UNREADABLE_OFFER[..2], false, Receives);
    assert By(false, EMPTYING) + UNREADABLE_OFFER[..2] + [(false, Receives)] == By(false, EMPTYING) + UNREADABLE_OFFER;
    var s' := Next(s, false, Receives);
    assert s'.a.lines[0].sdpIndex == s'.b.lines[0].sdpIndex;
  }

  /** What the failed reception leaves behind. */
  lemma IsRefused(p: Peer, media: Media)
    requires p == EmptyPeer([SOME_CODEC]) && media == ApplicationMedia(Actpass)
    ensures var (error, p') := Reception(p, Message(Offer, [media]));
            && error == Some(MissingCodecDescription)
            && p'.signalling == Initial && |p'.lines| == 1 && p'.lines[0] == p.lines[0]
  {
    assert Matches(WithIndex(0), p.lines[0]) && Find(p.lines, WithIndex(0)) == 0;
    assert Claim(p.lines, 0, Application) == (p.lines, 0);
    assert ApplyTransport(UNDECIDED, media) == Ok(SERVER);
    assert ApplyMedia(p, 0, media) == Err(MissingCodecDescription);
  }

  // --- an answer that cannot be read -------------------------------------------------------------

  /** The second end fails to offer data channels and audio; the first offers audio, which is answered with both. */
  const UNREADABLE_ANSWER: seq<(bool, Move)> :=
    [(false, Changes(OpensApplicationChannel)), (false, Changes(CreatesSender(Audio, 0, map[]))),
     (false, SendsDescription), (true, Changes(CreatesSender(Audio, 0, map[]))),
     (true, Changes(ChangesCodec(0, 0, Some(SOME_CODEC)))), (true, SendsDescription), (false, Receives),
     (false, Changes(ChangesCodec(1, 0, Some(SOME_CODEC)))), (false, SendsDescription), (true, Receives)]

  /** An end with its data channels and one audio sender. */
  function BothPeer(first: Option<nat>, second: Option<nat>): Peer {
    Peer(Initial,
         [Line(0, Application, first, Fresh, [], {}, []), Line(1, Audio, second, Fresh, [0], {}, [])], 2,
         map[0 := Sender(1, Fresh, map[], false)], UNDECIDED, Some(Channels(true, false)), map[])
  }

  lemma MakesBoth()
    ensures Local(Local(NewPeer(), OpensApplicationChannel), CreatesSender(Audio, 0, map[])) == BothPeer(None, None)
  {
    var p := Local(NewPeer(), OpensApplicationChannel);
    assert p.lines == [ApplicationLine(None, Fresh)];
    assert Find(p.lines, FreeFor(Audio)) == 1;
    assert [] + [0] == [0 as u32];
  }

  lemma NoneNumbered()
    ensures NextIndex(BothPeer(None, None).lines) == 0
  {
    var lines := BothPeer(None, None).lines;
    assert lines[..1][..0] == [];
  }

  lemma FailsToOfferBoth()
    ensures CreateLocalDescription(BothPeer(None, None)) == (Err(DescribeError), BothPeer(Some(0), Some(1)))
    ensures NextIndex(BothPeer(None, None).lines) == 0 && NextIndex(BothPeer(Some(0), Some(1)).lines) == 2
  {
    var p, q := BothPeer(None, None), BothPeer(Some(0), Some(1));
    BothAreNumbered();
    NoneNumbered();
    NobodyLeaves(q);
    assert Prepared(p) == q;
    assert q.lines[1].sdpIndex.Some? && !CanDescribe(q, q.lines[1]);
  }

  lemma BothAreNumbered()
    ensures var p, q := BothPeer(None, None), BothPeer(Some(0), Some(1));
            AssignFrom(p.lines, 0, NextIndex(p.lines)) == q.lines && NextIndex(q.lines) == 2
  {
    var p, q := BothPeer(None, None), BothPeer(Some(0), Some(1));
    assert p.lines[..1][..0] == [] && q.lines[..1][..0] == [];
    assert p.lines[..1] == [p.lines[0]] && q.lines[..1] == [q.lines[0]];
    assert NextIndex(p.lines) == 0;
    var half := BothPeer(Some(0), None);
    assert p.lines[0 := half.lines[0]] == half.lines && half.lines[1 := q.lines[1]] == q.lines;
    assert AssignFrom(half.lines, 1, 1) == q.lines;
  }

  /** Audio is read on the line of the data channels. */
  lemma AcceptsAudioOnChannels(media: Media)
    requires media.mediaType == Audio && media.direction != Inactive && media.setup == Actpass
    ensures var (error, p') := Reception(BothPeer(Some(0), Some(1)), Message(Offer, [media]));
            && error == None && p'.signalling == HaveRemoteOffer && p'.channels.Some? && |p'.lines| == 2
            && p'.lines[0].mediaType == Application && p'.lines[0].sdpIndex == Some(0) && p'.lines[0].id == 0
            && p'.lines[1] == BothPeer(Some(0), Some(1)).lines[1] && p'.senders == BothPeer(Some(0), Some(1)).senders
  {
    var p := BothPeer(Some(0), Some(1));
    assert Matches(WithIndex(0), p.lines[0]) && Find(p.lines, WithIndex(0)) == 0;
    assert Claim(p.lines, 0, Audio) == (p.lines, 0);
    assert ApplyTransport(UNDECIDED, media) == Ok(SERVER);
    assert ApplyChannels(Channels(true, false), media) == Ok(Channels(false, true));
    SectionIsMedia(p, 0, media);
    hide ApplySection;
    assert ApplyFrom(ApplyMedia(p, 0, media).value, [media], 1, None) == (None, ApplyMedia(p, 0, media).value);
  }

  /** Such an end, with a codec for its audio line. */
  predicate AnswersWithBoth(p: Peer) {
    && p.signalling == HaveRemoteOffer && p.channels.Some? && |p.lines| == 2
    && p.lines[0].mediaType == Application && p.lines[0].sdpIndex == Some(0)
    && p.lines[1].mediaType == Audio && p.lines[1].sdpIndex == Some(1) && p.lines[1].codecs != []
    && forall ssrc :: ssrc in p.senders ==> !p.senders[ssrc].closed
  }

  lemma RegistersOnSecond(p: Peer)
    requires p.signalling == HaveRemoteOffer && p.channels.Some? && |p.lines| == 2
    requires p.lines[0].mediaType == Application && p.lines[0].sdpIndex == Some(0) && p.lines[0].id == 0
    requires p.lines[1] == BothPeer(Some(0), Some(1)).lines[1] && p.senders == BothPeer(Some(0), Some(1)).senders
    ensures AnswersWithBoth(Local(p, ChangesCodec(1, 0, Some(SOME_CODEC))))
  {
    assert Matches(WithId(1), p.lines[1]) && Find(p.lines, WithId(1)) == 1;
    assert [] + [SOME_CODEC] == [SOME_CODEC];
  }

  lemma DescribesBoth(p: Peer)
    requires AnswersWithBoth(p)
    ensures var (d, p') := CreateLocalDescription(p);
            && d.Ok? && |d.value| == 2 && d.value[0].mediaType == Application && p'.signalling == Stable
  {
    NobodyLeaves(p);
    assert Prepared(p) == p;
    assert Matches(WithIndex(0), p.lines[0]) && Matches(WithIndex(1), p.lines[1]);
    assert Indexed(p.lines, [Application, Audio]);
    DescribeListsTypes(p, [Application, Audio], false);
    assert CanDescribeAll(p);
    hide Prepared, Describe, DescribedBy, PromoteLines, PromoteSenders;
    assert MediaTypes(Describe(p, false))[0] == Application;
  }

  lemma BothAreNumberedInRun()
    ensures After(NewSystem(), UNREADABLE_ANSWER[..3])
         == Some(System(NewPeer(), BothPeer(Some(0), Some(1)), [], [], false, true, false, false))
  {
    hide After, MoveA, Local, CreateLocalDescription, BothPeer, NextIndex;
    var moves, s0 := UNREADABLE_ANSWER, NewSystem();
    assert After(s0, moves[..0]) == Some(s0) by { NoMoves(s0); }
    Opens(s0.b);
    LocalMove(Swap(s0), OpensApplicationChannel);
    OneMore(s0, moves, 0, s0);
    var s1 := Swap(MoveA(Swap(s0), moves[0].1));
    MakesBoth();
    LocalMove(Swap(s1), moves[1].1.call);
    OneMore(s0, moves, 1, s1);
    var s2 := Swap(MoveA(Swap(s1), moves[1].1));
    FailsToOfferBoth();
    FailedMove(Swap(s2));
    OneMore(s0, moves, 2, s2);
  }

  lemma AudioIsOffered() returns (s: System, media: Media)
    ensures After(NewSystem(), UNREADABLE_ANSWER[..6]) == Some(s)
    ensures s.a.signalling == HaveLocalOffer && |s.a.lines| == 1
    ensures s.a.lines[0].mediaType == Audio && s.a.lines[0].sdpIndex == Some(0)
    ensures s.b == BothPeer(Some(0), Some(1)) && s.toA == [] && s.toB == [Message(Offer, [media])]
    ensures media.mediaType == Audio && media.direction != Inactive && media.setup == Actpass
  {
    hide After, MoveA, Local, CreateLocalDescription;
    var moves, s0 := UNREADABLE_ANSWER, NewSystem();
    BothAreNumberedInRun();
    var s3 := After(s0, moves[..3]).value;
    MakesASender(Audio);
    LocalMove(s3, moves[3].1.call);
    OneMore(s0, moves, 3, s3);
    var s4 := MoveA(s3, moves[3].1);
    RegistersACodec(Audio);
    LocalMove(s4, moves[4].1.call);
    OneMore(s0, moves, 4, s4);
    var s5 := MoveA(s4, moves[4].1);
    OffersItsSender(Audio);
    SentMove(s5);
    OneMore(s0, moves, 5, s5);
    s := MoveA(s5, SendsDescription);
    var description := CreateLocalDescription(s5.a).0.value;
    media := description[0];
    assert description == [media];
  }

  lemma AudioIsAccepted() returns (s: System)
    ensures After(NewSystem(), UNREADABLE_ANSWER[..8]) == Some(s)
    ensures s.a.signalling == HaveLocalOffer && |s.a.lines| == 1
    ensures s.a.lines[0].mediaType == Audio && s.a.lines[0].sdpIndex == Some(0)
    ensures AnswersWithBoth(s.b) && s.toA == [] && s.toB == []
  {
    hide After, MoveA, Local, Reception, BothPeer, AnswersWithBoth;
    var moves, s0 := UNREADABLE_ANSWER, NewSystem();
    var s6, media := AudioIsOffered();
    AcceptsAudioOnChannels(media);
    ReceivedMove(Swap(s6));
    OneMore(s0, moves, 6, s6);
    var s7 := Swap(MoveA(Swap(s6), Receives));
    RegistersOnSecond(s7.b);
    LocalMove(Swap(s7), moves[7].1.call);
    OneMore(s0, moves, 7, s7);
    s := Swap(MoveA(Swap(s7), moves[7].1));
  }

  /** A reception that fails changes no signalling state. */
  lemma FailureKeepsSignalling(p: Peer, types: seq<MediaType>, message: Message)
    requires Invariant(p, types) && Reception(p, message).0.Some?
    ensures Reception(p, message).1.signalling == p.signalling
  {
    hide Invariant, ApplyFrom;
    var _ := ApplyFromKeeps(p, types, message.description, 0, None);
  }

  /** The answer begins with the data channels, which meet an audio line: its sender is negotiated, the offerer waits. */
  lemma AnswerCanBeUnreadable()
    ensures var before := After(NewSystem(), UNREADABLE_ANSWER[..9]);
            var s := After(NewSystem(), UNREADABLE_ANSWER);
            && before.Some? && before.value.toA != [] && Accepts(before.value.a.signalling, before.value.toA[0].mode)
            && Reception(before.value.a, before.value.toA[0]).0 == Some(MissingCodecDescription)
            && s.Some? && Idle(s.value) && s.value.b.signalling == Stable
  {
    hide After, MoveA, CreateLocalDescription, Reception, Coherent, Clean;
    var moves, s0 := UNREADABLE_ANSWER, NewSystem();
    var s8 := AudioIsAccepted();
    DescribesBoth(s8.b);
    SentMove(Swap(s8));
    OneMore(s0, moves, 8, s8);
    var s9 := Swap(MoveA(Swap(s8), SendsDescription));
    assert !Readable(s9.a.lines[0], s9.toA[0].description[0]);
    assert Unreadable(s9.a, s9.toA[0].description);
    DescriptionsApply(moves[..9], true);
    ReceivedMove(s9);
    OneMore(s0, moves, 9, s9);
    assert moves[..10] == moves;
    var ta, tb := RunCoheres(moves[..9]);
    CoherentParts(s9, ta, tb, Clean(s0, moves[..9]));
    EndsParts(s9, ta, tb);
    FailureKeepsSignalling(s9.a, ta, s9.toA[0]);
  }
}
