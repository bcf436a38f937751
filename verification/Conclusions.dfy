/**
 * What a negotiation leaves to be told: nothing that the last description could reflect, on either side
 * (src/rtc.rs, src/media/sender.rs).
 */
module Conclusions {
  import opened Prelude
  import opened SortedKeySets
  import opened Negotiation
  import opened NegotiationInvariants
  import opened TwoPeers
  import opened SendersHeard
  import opened SenderLines

  // --- reading a description ---------------------------------------------------------------------

  /** The first lines are as before but for what the other end says of them; those behind are new. */
  ghost predicate AddsLines(p: Peer, p': Peer) {
    && p'.senders == p.senders && p'.signalling == p.signalling && |p.lines| <= |p'.lines|
    && (forall j :: 0 <= j < |p.lines| ==> SameButRemote(p.lines[j], p'.lines[j]))
    && (forall j :: |p.lines| <= j < |p'.lines| ==> p'.lines[j].state == Fresh)
  }

  lemma SectionKeepsSignalling(p: Peer, i: nat, media: Media, stop: Option<Progress>)
    ensures ApplySection(p, i, media, stop).1.signalling == p.signalling
  {
    hide Claim, ApplyTransport, ApplyChannels, RemoteStreams;
  }

  lemma {:induction false} ApplyFromAddsLines(p: Peer, description: Description, i: nat, fault: Option<Fault>)
    requires i <= |description|
    ensures AddsLines(p, ApplyFrom(p, description, i, fault).1)
    decreases |description| - i
  {
    hide ApplySection;
    if i < |description| {
      var (error, applied) := ApplySection(p, i, description[i], StopAt(fault, i));
      SectionAddsAtMostOne(p, i, description[i], StopAt(fault, i));
      SectionKeepsSignalling(p, i, description[i], StopAt(fault, i));
      if error.None? {
        ApplyFromAddsLines(applied, description, i + 1, fault);
      }
    }
  }

  lemma AddedLinesAreNews(p: Peer, p': Peer)
    requires AddsLines(p, p')
    ensures HasNews(p') <==> HasNews(p) || |p'.lines| > |p.lines|
  {
    if j :| 0 <= j < |p.lines| && p.lines[j].state.Open() {
      assert p'.lines[j].state.Open();
    }
    if |p'.lines| > |p.lines| {
      assert p'.lines[|p.lines|].state.Open();
    }
  }

  lemma SettlingIsNoNews(p: Peer)
    ensures HasNews(Finish(p)) <==> HasNews(p)
  {
    var p' := Finish(p);
    if j :| 0 <= j < |p.lines| && p.lines[j].state.Open() {
      assert p'.lines[j].state.Open();
    }
    if ssrc :| ssrc in p.senders && p.senders[ssrc].state.Open() {
      assert p'.senders[ssrc].state.Open();
    }
  }

  /** Reading a description, however far, brings no news but the lines it adds; an accepted answer lifts every refusal. */
  lemma ReadingBringsOnlyNewLines(p: Peer, description: Description, mode: Mode, fault: Option<Fault>)
    ensures var (error, after) := SetRemoteDescription(p, description, mode, fault);
            && |p.lines| <= |after.lines|
            && (HasNews(after) <==> HasNews(p) || |after.lines| > |p.lines|)
            && (forall j :: 0 <= j < |p.lines| ==>
                  after.lines[j].id == p.lines[j].id && after.lines[j].localStreams == p.lines[j].localStreams
                  && after.lines[j].codecs == p.lines[j].codecs)
            && after.senders.Keys == p.senders.Keys
            && (error.None? && mode == Answer ==>
                  && (forall j :: 0 <= j < |after.lines| ==> TryChange(after.lines[j].state).Some?)
                  && (forall ssrc :: ssrc in after.senders ==> TryChange(after.senders[ssrc].state).Some?))
  {
    hide ApplyFrom, HasNews;
    if Accepts(p.signalling, mode) {
      ApplyFromAddsLines(p, description, 0, fault);
      var applied := ApplyFrom(p, description, 0, fault).1;
      AddedLinesAreNews(p, applied);
      SettlingIsNoNews(applied);
    }
  }

  // --- generating a description ------------------------------------------------------------------

  /** What is news, a line or a sender, is refused any change; `locks` says whether anything is. */
  ghost predicate Locked(p: Peer, p': Peer, locks: bool) {
    && |p'.lines| == |p.lines| && p'.senders.Keys == p.senders.Keys
    && (forall j :: 0 <= j < |p.lines| && p.lines[j].sdpIndex.Some? ==>
          (TryChange(p'.lines[j].state).None? <==> locks && p.lines[j].state.Open()))
    && (forall ssrc :: ssrc in p.senders ==>
          (TryChange(p'.senders[ssrc].state).None? <==> locks && p.senders[ssrc].state.Open()))
  }

  lemma HousedIsPromoted(p: Peer, isOffer: bool, ssrc: u32)
    requires Housed(p) && DistinctIds(p) && ssrc in p.senders
    ensures PromoteSenders(p, isOffer)[ssrc].state == Promote(p.senders[ssrc].state, isOffer)
  {
    hide Housed, DistinctIds, Find, Promote;
    var position := HomeIsFound(p, ssrc);
  }

  lemma PromotedIsNoNews(p: Peer, isOffer: bool)
    requires Housed(p) && DistinctIds(p)
    requires forall j :: 0 <= j < |p.lines| ==> MarkedLine(p, p.lines[j])
    ensures HasNews(Promoted(p, isOffer)) <==> exists j :: 0 <= j < |p.lines| && p.lines[j].sdpIndex.None?
  {
    hide Housed, DistinctIds, DescribedBy, PromoteSenders;
    var p' := Promoted(p, isOffer);
    PromotedSame(p, isOffer);
    forall ssrc | ssrc in p.senders ensures !p'.senders[ssrc].state.Open() {
      HousedIsPromoted(p, isOffer, ssrc);
    }
    if j :| 0 <= j < |p.lines| && p.lines[j].sdpIndex.None? {
      assert MarkedLine(p, p.lines[j]);
      assert p'.lines[j].state.Open();
    }
  }

  /** What is news becomes refused to change by an offer, and nothing else does; an answer refuses no change. */
  lemma PromotedIsLocked(p: Peer, isOffer: bool)
    requires Housed(p) && DistinctIds(p) && Marked(p) && p.signalling != HaveLocalOffer
    ensures Locked(p, Promoted(p, isOffer), isOffer)
  {
    hide Housed, DistinctIds, DescribedBy, PromoteSenders;
    var p' := Promoted(p, isOffer);
    PromotedSame(p, isOffer);
    forall j | 0 <= j < |p.lines| && p.lines[j].sdpIndex.Some?
      ensures TryChange(p'.lines[j].state).None? <==> isOffer && p.lines[j].state.Open()
    {
      assert MarkedLine(p, p.lines[j]);
    }
    forall ssrc | ssrc in p.senders
      ensures TryChange(p'.senders[ssrc].state).None? <==> isOffer && p.senders[ssrc].state.Open()
    {
      HousedIsPromoted(p, isOffer, ssrc);
    }
  }

  ghost predicate AllNumbered(lines: seq<Line>) {
    forall j :: 0 <= j < |lines| ==> lines[j].sdpIndex.Some?
  }

  lemma AssigningNumbersAll(p: Peer, types: seq<MediaType>)
    requires Indexed(p.lines, types)
    ensures AllNumbered(AssignFrom(p.lines, 0, NextIndex(p.lines)))
  {
    hide Indexed;
    NextIndexCounts(p.lines, types);
    var _ := AssignAll(p.lines, 0, types);
  }

  lemma OfferNumbersAll(p: Peer, types: seq<MediaType>)
    requires Housed(p) && Invariant(p, types) && p.signalling != HaveRemoteOffer
    ensures AllNumbered(Prepared(p).lines)
  {
    hide Housed, Invariant, AllNumbered, RemoveSenders, Swept, AssignFrom;
    InvariantIndexes(p, types);
    AssigningNumbersAll(p, types);
    var numbered := p.(lines := AssignFrom(p.lines, 0, NextIndex(p.lines)));
    var types' := NumberedKeeps(p, types);
    AssignKeepsSenders(p.lines, 0, NextIndex(p.lines));
    SameHomesHouse(p, numbered);
    PollSweeps(numbered, types');
    SweptStaysNumbered(numbered.lines, ClosedSenders(numbered));
  }

  lemma {:induction false} SweptStaysNumbered(lines: seq<Line>, gone: set<u32>)
    requires AllNumbered(lines)
    ensures AllNumbered(Swept(lines, gone))
  {
    if lines != [] {
      SweptStaysNumbered(lines[..|lines| - 1], gone);
    }
  }

  lemma PromotedSame(p: Peer, isOffer: bool)
    requires Housed(p)
    ensures var p' := Promoted(p, isOffer);
            && Housed(p') && (AllNumbered(p'.lines) <==> AllNumbered(p.lines))
            && (ClosedSenders(p) == {} ==> ClosedSenders(p') == {})
            && |p'.lines| == |p.lines| && p'.senders.Keys == p.senders.Keys
            && forall j :: 0 <= j < |p.lines| ==> p'.lines[j].sdpIndex == p.lines[j].sdpIndex
  {
    hide Housed, Find, Promote, DescribedBy;
    SameHomesHouse(p, Promoted(p, isOffer));
    assert ClosedSenders(Promoted(p, isOffer)) == ClosedSenders(p);
  }

  lemma InvariantMarks(p: Peer, types: seq<MediaType>)
    requires Invariant(p, types)
    ensures DistinctIds(p) && Marked(p) && forall j :: 0 <= j < |p.lines| ==> MarkedLine(p, p.lines[j])
  {
  }

  /**
   * A description generated here tells everything there is but the lines without an index, which an offer leaves none of.
   * From an offer on, changes are refused to exactly what was news in it; an answer refuses none.
   */
  lemma DescriptionTellsAll(p: Peer, types: seq<MediaType>)
    requires Housed(p) && Invariant(p, types) && CreateLocalDescription(p).0.Ok?
    ensures var after, isOffer := CreateLocalDescription(p).1, p.signalling != HaveRemoteOffer;
            && (HasNews(after) <==> !AllNumbered(after.lines)) && (isOffer ==> AllNumbered(after.lines))
            && Locked(Prepared(p), after, isOffer)
            && ClosedSenders(after) == {} && Housed(after)
  {
    hide Housed, Invariant, Prepared, HasNews, DistinctIds, Marked, MarkedLine, PromoteLines, PromoteSenders,
         DescribedBy, Describe, TryChange, ClosedSenders;
    var prepared, isOffer := Prepared(p), p.signalling != HaveRemoteOffer;
    var types' := PreparedKeeps(p, types);
    PreparedHouses(p, types);
    InvariantMarks(prepared, types');
    PromotedSame(prepared, isOffer);
    PromotedIsNoNews(prepared, isOffer);
    PromotedIsLocked(prepared, isOffer);
    if isOffer {
      OfferNumbersAll(p, types);
    }
    assert CreateLocalDescription(p).1 == Promoted(prepared, isOffer);
  }

  // --- whole runs --------------------------------------------------------------------------------

  /** Over every run of one end, a description that is generated tells everything but the lines without an index. */
  lemma DescribingTellsAll(events: seq<Event>)
    requires Reached(events).Some? && CreateLocalDescription(Reached(events).value).0.Ok?
    ensures var p := Reached(events).value;
            var after, isOffer := CreateLocalDescription(p).1, p.signalling != HaveRemoteOffer;
            && (HasNews(after) <==> !AllNumbered(after.lines)) && (isOffer ==> AllNumbered(after.lines))
            && Locked(Prepared(p), after, isOffer)
  {
    hide Reached, Housed, Invariant, CreateLocalDescription, HasNews, AllNumbered, Locked, Prepared;
    RunHouses(events);
    var types := RunKeepsInvariant(events);
    DescriptionTellsAll(Reached(events).value, types);
  }

  lemma MoveHouses(s: System, types: seq<MediaType>, move: Move)
    requires Housed(s.a) && Invariant(s.a, types) && Enabled(s, move)
    ensures Housed(MoveA(s, move).a) && MoveA(s, move).b == s.b
  {
    hide Housed, Invariant, Local, CreateLocalDescription, SetRemoteDescription;
    match move
    case Changes(call) => LocalHouses(s.a, types, call);
    case SendsDescription => CreateHouses(s.a, types);
    case Receives => SetRemoteHouses(s.a, s.toA[0].description, s.toA[0].mode, None);
  }

  lemma {:induction false} EndsAreHoused(moves: seq<(bool, Move)>)
    requires After(NewSystem(), moves).Some?
    ensures Housed(After(NewSystem(), moves).value.a) && Housed(After(NewSystem(), moves).value.b)
    decreases |moves|
  {
    hide Housed, Coherent, MoveA, Enabled, Clean;
    if moves == [] {
      NewHouses();
    } else {
      var earlier, move := moves[..|moves| - 1], moves[|moves| - 1];
      EndsAreHoused(earlier);
      var s := After(NewSystem(), earlier).value;
      var ta, tb := RunCoheres(earlier);
      CoherentParts(s, ta, tb, Clean(NewSystem(), earlier));
      if move.0 {
        MoveHouses(s, ta, move.1);
      } else {
        MoveHouses(Swap(s), tb, move.1);
      }
    }
  }

  /** Nothing but hearing the other end out, and polling. */
  predicate OnlyListens(move: Move) {
    move == Receives || move == Changes(Polls)
  }

  /** The end has only got new lines since it was `told`, and asks for a negotiation only when it has news. */
  ghost predicate StillTold(told: Peer, p: Peer) {
    && |told.lines| <= |p.lines| && ClosedSenders(p) == {}
    && (HasNews(p) <==> HasNews(told) || |p.lines| > |told.lines|)
    && (p.signalling == NegotiationRequired ==> HasNews(p))
  }

  lemma PollingStaysTold(told: Peer, p: Peer)
    requires StillTold(told, p)
    ensures StillTold(told, Poll(p))
  {
    assert RemoveSenders(p, SortedKeys({})) == p;
    assert HasNews(p.(signalling := NegotiationRequired)) == HasNews(p);
    assert ClosedSenders(p.(signalling := NegotiationRequired)) == ClosedSenders(p);
    hide HasNews, RemoveSenders, ClosedSenders;
  }

  lemma ReadingClosesNothing(p: Peer, description: Description, mode: Mode)
    ensures var after := SetRemoteDescription(p, description, mode, None).1;
            && ClosedSenders(after) == ClosedSenders(p)
            && (after.signalling == NegotiationRequired ==> p.signalling == NegotiationRequired)
  {
    hide ApplyFrom;
    ApplyFromAddsLines(p, description, 0, None);
  }

  lemma ListeningStaysTold(told: Peer, s: System, move: Move)
    requires StillTold(told, s.a) && Enabled(s, move) && OnlyListens(move)
    ensures StillTold(told, MoveA(s, move).a) && MoveA(s, move).b == s.b
  {
    hide HasNews, SetRemoteDescription, Poll, ClosedSenders;
    if move == Receives {
      ReadingBringsOnlyNewLines(s.a, s.toA[0].description, s.toA[0].mode, None);
      ReadingClosesNothing(s.a, s.toA[0].description, s.toA[0].mode);
      RefusedWhenNeeded(s.a, s.toA[0].description, s.toA[0].mode);
    } else {
      PollingStaysTold(told, s.a);
    }
  }

  lemma RefusedWhenNeeded(p: Peer, description: Description, mode: Mode)
    ensures p.signalling == NegotiationRequired ==> SetRemoteDescription(p, description, mode, None).1 == p
  {
  }

  lemma FacingNext(s: System, moving: bool, move: Move, atA: bool)
    requires EnabledAt(s, moving, move)
    ensures moving == atA ==>
              Enabled(Facing(s, atA), move) && Facing(Next(s, moving, move), atA) == MoveA(Facing(s, atA), move)
    ensures moving != atA ==> Facing(Next(s, moving, move), atA).a == Facing(s, atA).a
  {
    hide Local, CreateLocalDescription, SetRemoteDescription;
    assert Swap(Swap(s)) == s;
  }

  /** The end `atA` generates a description as the last of these moves. */
  ghost predicate Tells(moves: seq<(bool, Move)>, atA: bool) {
    && moves != [] && moves[|moves| - 1] == (atA, SendsDescription) && After(NewSystem(), moves).Some?
    && CreateLocalDescription(Facing(After(NewSystem(), moves[..|moves| - 1]).value, atA).a).0.Ok?
  }

  /** What the end has to tell from then on is what it could not yet number, and what the other end has added. */
  ghost predicate QuietSince(told: Peer, p: Peer) {
    && (HasNews(p) <==> !AllNumbered(told.lines) || |p.lines| > |told.lines|)
    && (p.signalling == NegotiationRequired ==> HasNews(p))
  }

  lemma TellingIsTold(moves: seq<(bool, Move)>, atA: bool)
    requires Tells(moves, atA)
    ensures var told := Facing(After(NewSystem(), moves).value, atA).a;
            StillTold(told, told) && (HasNews(told) <==> !AllNumbered(told.lines))
  {
    hide Housed, Invariant, CreateLocalDescription, HasNews, AllNumbered, Coherent, ClosedSenders, Clean;
    var earlier := moves[..|moves| - 1];
    EndsAreHoused(earlier);
    var s := After(NewSystem(), earlier).value;
    var ta, tb := RunCoheres(earlier);
    CoherentParts(s, ta, tb, Clean(NewSystem(), earlier));
    DescriptionTellsAll(Facing(s, atA).a, if atA then ta else tb);
    GeneratingSettles(Facing(s, atA).a);
  }

  lemma GeneratingSettles(p: Peer)
    requires CreateLocalDescription(p).0.Ok?
    ensures CreateLocalDescription(p).1.signalling != NegotiationRequired
  {
    hide Prepared, Describe, DescribedBy, PromoteLines, PromoteSenders;
  }

  lemma {:induction false} ListeningIsTold(moves: seq<(bool, Move)>, told: nat, atA: bool)
    requires told <= |moves| && After(NewSystem(), moves).Some?
    requires After(NewSystem(), moves[..told]).Some? && Tells(moves[..told], atA)
    requires forall i :: told <= i < |moves| && moves[i].0 == atA ==> OnlyListens(moves[i].1)
    ensures StillTold(Facing(After(NewSystem(), moves[..told]).value, atA).a,
                      Facing(After(NewSystem(), moves).value, atA).a)
    decreases |moves|
  {
    hide StillTold, MoveA, Enabled, Facing, OnlyListens, Next, EnabledAt, Tells;
    if told == |moves| {
      assert moves[..told] == moves;
      TellingIsTold(moves, atA);
    } else {
      var earlier, move := moves[..|moves| - 1], moves[|moves| - 1];
      assert earlier[..told] == moves[..told];
      ListeningIsTold(earlier, told, atA);
      var s := After(NewSystem(), earlier).value;
      FacingNext(s, move.0, move.1, atA);
      if move.0 == atA {
        ListeningStaysTold(Facing(After(NewSystem(), moves[..told]).value, atA).a, Facing(s, atA), move.1);
      }
    }
  }

  /**
   * Over every run of two ends: from a description on, as long as an end only listens and polls, it has news, and asks
   * for a negotiation, only for lines that its answer could not number and for lines the other end has added. An end
   * whose offer is answered with its own lines stays quiet.
   */
  lemma ToldEndsStayQuiet(moves: seq<(bool, Move)>, told: nat, atA: bool)
    requires told <= |moves| && After(NewSystem(), moves).Some?
    requires After(NewSystem(), moves[..told]).Some? && Tells(moves[..told], atA)
    requires forall i :: told <= i < |moves| && moves[i].0 == atA ==> OnlyListens(moves[i].1)
    ensures QuietSince(Facing(After(NewSystem(), moves[..told]).value, atA).a,
                       Facing(After(NewSystem(), moves).value, atA).a)
  {
    hide After, Tells, HasNews, AllNumbered, Facing, OnlyListens;
    ListeningIsTold(moves, told, atA);
    TellingIsTold(moves[..told], atA);
  }
}
