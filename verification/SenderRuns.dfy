/** A run with a sender on each end, from the first call until both are concluded and quiet (src/rtc.rs). */
module SenderRuns {
  import opened Prelude
  import opened SortedKeySets
  import opened Negotiation
  import opened NegotiationInvariants
  import opened TwoPeers
  import opened OfferOutcomes
  import opened NegotiationRuns

  /** The first end offers an audio sender; the second adds its own to the same line, answers, and both poll. */
  const SENDERS: seq<(bool, Move)> :=
    [(true, Changes(CreatesSender(Audio, 0, map[]))), (true, Changes(ChangesCodec(0, 0, Some(SOME_CODEC)))),
     (true, SendsDescription), (false, Receives), (false, Changes(CreatesSender(Audio, 1, map[]))),
     (false, Changes(ChangesCodec(0, 0, Some(SOME_CODEC)))), (false, SendsDescription), (true, Receives),
     (true, Changes(Polls)), (false, Changes(Polls))]

  function AudioMedia(setup: Setup, ssrc: u32): Media {
    Media(Audio, setup, Sendrecv, [SOME_CODEC], map[ssrc := map[]])
  }

  /** An end with one audio line and at most one sender, in the same state of negotiation. */
  function AudioPeer(signalling: SignallingState, state: NegotiationState, local: seq<u32>, remote: set<u32>,
                     codecs: seq<Codec>, transport: Transport, described: map<nat, Media>): Peer {
    Peer(signalling, [Line(0, Audio, Some(0), state, local, remote, codecs)], 1,
         if local == [] then map[] else map[local[0] := Sender(0, state, map[], false)], transport, None, described)
  }

  /** What an end with one new sender on one line says, and what becomes of the sender. */
  lemma DescribesItsSender(p: Peer, ssrc: u32, isOffer: bool)
    requires |p.lines| == 1 && p.lines[0].id == 0 && p.lines[0].mediaType == Audio && p.lines[0].codecs == [SOME_CODEC]
    requires p.lines[0].localStreams == [ssrc] && p.senders == map[ssrc := Sender(0, Fresh, map[], false)]
    requires isOffer || p.lines[0].remoteStreams != {}
    ensures MediaOf(p, p.lines[0], isOffer) == AudioMedia(DescribedSetup(p.transport.setup), ssrc)
    ensures PromoteSenders(p, isOffer) ==
            map[ssrc := Sender(0, if isOffer then Propagated else NegotiationState.Negotiated, map[], false)]
  {
    assert Matches(WithId(0), p.lines[0]) && Find(p.lines, WithId(0)) == 0;
    assert StreamsOf(p, 0) == map[ssrc := map[]];
    hide Find;
  }

  lemma OffersAudio() returns (described: map<nat, Media>)
    ensures CreateLocalDescription(SenderPeer(Audio, None, [SOME_CODEC])) ==
            (Ok([AudioMedia(Actpass, 0)]),
             AudioPeer(HaveLocalOffer, Propagated, [0], {}, [SOME_CODEC], UNDECIDED, described))
  {
    hide CreateLocalDescription, DescribedBy, MediaOf, PromoteSenders;
    var p := SenderPeer(Audio, None, [SOME_CODEC]);
    OneLineDescribes(p, p.lines[0]);
    DescribesItsSender(Numbered(p, p.lines[0]), 0, true);
    described := DescribedBy(Numbered(p, p.lines[0]), true);
  }

  lemma ReadsOffer()
    ensures Reception(NewPeer(), Message(Offer, [AudioMedia(Actpass, 0)])) ==
            (None, AudioPeer(HaveRemoteOffer, Fresh, [], {0}, [], SERVER, map[]))
  {
    var p, media := NewPeer(), AudioMedia(Actpass, 0);
    assert Claim(p.lines, 0, Audio) == ([], 0);
    assert RemoteStreams(media) == {0};
    assert ApplyTransport(UNDECIDED, media) == Ok(SERVER);
    var applied := AudioPeer(Initial, Fresh, [], {0}, [], SERVER, map[]);
    assert p.lines + [applied.lines[0]] == applied.lines;
    assert ApplyMedia(p, 0, media) == Ok(applied);
    SectionIsMedia(p, 0, media);
    hide ApplySection;
    assert ApplyFrom(applied, [media], 1, None) == (None, applied);
  }

  /** The line the offer has made is free, so the new sender gets it. */
  lemma AddsItsOwn()
    ensures var p := AudioPeer(HaveRemoteOffer, Fresh, [], {0}, [], SERVER, map[]);
            Local(p, CreatesSender(Audio, 1, map[])) == AudioPeer(HaveRemoteOffer, Fresh, [1], {0}, [], SERVER, map[])
  {
    var p := AudioPeer(HaveRemoteOffer, Fresh, [], {0}, [], SERVER, map[]);
    assert Matches(FreeFor(Audio), p.lines[0]) && Find(p.lines, FreeFor(Audio)) == 0;
    assert [] + [1] == [1 as u32];
  }

  lemma RegistersItsCodec()
    ensures Local(AudioPeer(HaveRemoteOffer, Fresh, [1], {0}, [], SERVER, map[]), ChangesCodec(0, 0, Some(SOME_CODEC)))
         == AudioPeer(HaveRemoteOffer, Fresh, [1], {0}, [SOME_CODEC], SERVER, map[])
  {
    var p := AudioPeer(HaveRemoteOffer, Fresh, [1], {0}, [], SERVER, map[]);
    assert Matches(WithId(0), p.lines[0]) && Find(p.lines, WithId(0)) == 0;
    assert [] + [SOME_CODEC] == [SOME_CODEC];
  }

  lemma AnswersAudio() returns (described: map<nat, Media>)
    ensures CreateLocalDescription(AudioPeer(HaveRemoteOffer, Fresh, [1], {0}, [SOME_CODEC], SERVER, map[])) ==
            (Ok([AudioMedia(Passive, 1)]),
             AudioPeer(Stable, NegotiationState.Negotiated, [1], {0}, [SOME_CODEC], SERVER, described))
  {
    hide CreateLocalDescription, DescribedBy, MediaOf, PromoteSenders;
    var p := AudioPeer(HaveRemoteOffer, Fresh, [1], {0}, [SOME_CODEC], SERVER, map[]);
    OneLineDescribes(p, p.lines[0]);
    DescribesItsSender(Numbered(p, p.lines[0]), 1, false);
    described := DescribedBy(Numbered(p, p.lines[0]), false);
  }

  lemma ReadsAnswer(described: map<nat, Media>)
    ensures Reception(AudioPeer(HaveLocalOffer, Propagated, [0], {}, [SOME_CODEC], UNDECIDED, described),
                      Message(Answer, [AudioMedia(Passive, 1)])) ==
            (None, AudioPeer(Stable, NegotiationState.Negotiated, [0], {1}, [SOME_CODEC], CLIENT, described))
  {
    var p, media := AudioPeer(HaveLocalOffer, Propagated, [0], {}, [SOME_CODEC], UNDECIDED, described),
                    AudioMedia(Passive, 1);
    assert Matches(WithIndex(0), p.lines[0]) && Find(p.lines, WithIndex(0)) == 0;
    assert Claim(p.lines, 0, Audio) == (p.lines, 0);
    assert RemoteStreams(media) == {1};
    assert ApplyTransport(UNDECIDED, media) == Ok(CLIENT);
    var applied := AudioPeer(HaveLocalOffer, Propagated, [0], {1}, [SOME_CODEC], CLIENT, described);
    assert p.lines[0 := applied.lines[0]] == applied.lines;
    assert ApplyMedia(p, 0, media) == Ok(applied);
    SectionIsMedia(p, 0, media);
    hide ApplySection, ApplyMedia;
    assert ApplyFrom(applied, [media], 1, None) == (None, applied);
    var settled := AudioPeer(Stable, NegotiationState.Negotiated, [0], {1}, [SOME_CODEC], CLIENT, described);
    assert SettleLines(applied.lines) == settled.lines;
    assert SettleSenders(applied.senders) == settled.senders;
  }

  lemma PollsQuietly(local: seq<u32>, remote: set<u32>, transport: Transport, described: map<nat, Media>)
    ensures var p := AudioPeer(Stable, NegotiationState.Negotiated, local, remote, [SOME_CODEC], transport, described);
            Local(p, Polls) == p
  {
    var p := AudioPeer(Stable, NegotiationState.Negotiated, local, remote, [SOME_CODEC], transport, described);
    NobodyLeaves(p);
  }

  lemma AudioIsOffered() returns (a: map<nat, Media>)
    ensures After(NewSystem(), SENDERS[..4]) ==
            Some(System(AudioPeer(HaveLocalOffer, Propagated, [0], {}, [SOME_CODEC], UNDECIDED, a),
                        AudioPeer(HaveRemoteOffer, Fresh, [], {0}, [], SERVER, map[]),
                        [], [], false, false, false, false))
  {
    hide After, MoveA, Local, CreateLocalDescription, Reception, AudioPeer, SenderPeer;
    var moves, s0 := SENDERS, NewSystem();
    assert After(s0, moves[..0]) == Some(s0) by { NoMoves(s0); }
    MakesASender(Audio);
    LocalMove(s0, moves[0].1.call);
    OneMore(s0, moves, 0, s0);
    var s1 := MoveA(s0, moves[0].1);
    RegistersACodec(Audio);
    LocalMove(s1, moves[1].1.call);
    OneMore(s0, moves, 1, s1);
    var s2 := MoveA(s1, moves[1].1);
    a := OffersAudio();
    SentMove(s2);
    SenderPeerIsNew();
    OneMore(s0, moves, 2, s2);
    var s3 := MoveA(s2, SendsDescription);
    assert s3.toB == [Message(Offer, [AudioMedia(Actpass, 0)])] && s3.toB[1..] == [];
    ReadsOffer();
    ReceivedMove(Swap(s3));
    OneMore(s0, moves, 3, s3);
  }

  lemma SenderPeerIsNew()
    ensures SenderPeer(Audio, None, [SOME_CODEC]).signalling == Initial
  {
  }

  lemma AudioIsAnswered(a: map<nat, Media>, s4: System) returns (b: map<nat, Media>)
    requires After(NewSystem(), SENDERS[..4]) == Some(s4)
    requires s4 == System(AudioPeer(HaveLocalOffer, Propagated, [0], {}, [SOME_CODEC], UNDECIDED, a),
                          AudioPeer(HaveRemoteOffer, Fresh, [], {0}, [], SERVER, map[]),
                          [], [], false, false, false, false)
    ensures After(NewSystem(), SENDERS[..8]) ==
            Some(System(AudioPeer(Stable, NegotiationState.Negotiated, [0], {1}, [SOME_CODEC], CLIENT, a),
                        AudioPeer(Stable, NegotiationState.Negotiated, [1], {0}, [SOME_CODEC], SERVER, b),
                        [], [], false, false, false, false))
  {
    hide After, MoveA, Local, CreateLocalDescription, Reception;
    var moves, s0 := SENDERS, NewSystem();
    AddsItsOwn();
    LocalMove(Swap(s4), moves[4].1.call);
    OneMore(s0, moves, 4, s4);
    var s5 := Swap(MoveA(Swap(s4), moves[4].1));
    RegistersItsCodec();
    LocalMove(Swap(s5), moves[5].1.call);
    OneMore(s0, moves, 5, s5);
    var s6 := Swap(MoveA(Swap(s5), moves[5].1));
    b := AnswersAudio();
    SentMove(Swap(s6));
    OneMore(s0, moves, 6, s6);
    var s7 := Swap(MoveA(Swap(s6), SendsDescription));
    assert s7.toA == [Message(Answer, [AudioMedia(Passive, 1)])] && s7.toA[1..] == [];
    ReadsAnswer(a);
    ReceivedMove(s7);
    OneMore(s0, moves, 7, s7);
  }

  /** Both ends are concluded with each other's sender on the one line, have no news and stay so when polled. */
  lemma SendersConclude()
    ensures var s := After(NewSystem(), SENDERS);
            && s.Some? && Concluded(s.value) && s.value.a.signalling == Stable && s.value.b.signalling == Stable
            && !HasNews(s.value.a) && !HasNews(s.value.b)
            && |s.value.a.lines| == 1 == |s.value.b.lines|
            && s.value.a.lines[0].localStreams == [0] && s.value.a.lines[0].remoteStreams == {1}
            && s.value.b.lines[0].localStreams == [1] && s.value.b.lines[0].remoteStreams == {0}
  {
    hide After, MoveA, Local;
    var moves, s0 := SENDERS, NewSystem();
    var a := AudioIsOffered();
    var b := AudioIsAnswered(a, After(s0, moves[..4]).value);
    var s8 := After(s0, moves[..8]).value;
    PollsQuietly([0], {1}, CLIENT, a);
    LocalMove(s8, Polls);
    OneMore(s0, moves, 8, s8);
    PollsQuietly([1], {0}, SERVER, b);
    LocalMove(Swap(s8), Polls);
    OneMore(s0, moves, 9, s8);
    assert moves[..10] == moves;
  }
}
