/**
 * Which offers are ever answered: exactly those that do not meet an end that has, or is about to make, an offer of its
 * own (src/rtc.rs).
 */
module OfferOutcomes {
  import opened Prelude
  import opened SortedKeySets
  import opened Negotiation
  import opened NegotiationInvariants
  import opened TwoPeers
  import opened LostOffers

  // --- joining runs ------------------------------------------------------------------------------

  lemma {:induction false} RunsJoin(s: System, x: seq<(bool, Move)>, y: seq<(bool, Move)>)
    requires After(s, x).Some?
    ensures After(s, x + y) == After(After(s, x).value, y)
    decreases |y|
  {
    hide MoveA, Enabled;
    if y == [] {
      assert x + y == x;
    } else {
      RunsJoin(s, x, y[..|y| - 1]);
      assert (x + y)[..|x + y| - 1] == x + y[..|y| - 1];
    }
  }

  lemma OneMove(s: System, atA: bool, move: Move)
    requires EnabledAt(s, atA, move)
    ensures After(s, [(atA, move)]) == Some(Next(s, atA, move))
  {
    hide MoveA, Enabled;
    assert [(atA, move)][..0] == [];
  }

  lemma ThenOneMove(s: System, moves: seq<(bool, Move)>, atA: bool, move: Move)
    requires After(s, moves).Some? && EnabledAt(After(s, moves).value, atA, move)
    ensures After(s, moves + [(atA, move)]) == Some(Next(After(s, moves).value, atA, move))
  {
    hide MoveA, Enabled, After;
    OneMove(After(s, moves).value, atA, move);
    RunsJoin(s, moves, [(atA, move)]);
  }

  /** One more move of a given list. */
  lemma OneMore(s: System, moves: seq<(bool, Move)>, count: nat, before: System)
    requires count < |moves| && After(s, moves[..count]) == Some(before)
    requires EnabledAt(before, moves[count].0, moves[count].1)
    ensures After(s, moves[..count + 1]) == Some(Next(before, moves[count].0, moves[count].1))
  {
    hide MoveA, Enabled;
    assert moves[..count + 1][..count] == moves[..count];
  }

  // --- an end can always be made ready to describe itself ----------------------------------------

  predicate Equipped(p: Peer, count: nat)
    requires count <= |p.lines|
  {
    forall j :: 0 <= j < count ==> p.lines[j].codecs != []
  }

  const SOME_CODEC := Codec(0, "")

  /** Registering a codec equips one more line. */
  lemma EquipsOneMore(p: Peer, types: seq<MediaType>, k: nat)
    requires Invariant(p, types) && p.signalling == HaveRemoteOffer && k < |p.lines| && Equipped(p, k)
    ensures var p' := ChangeCodec(p, p.lines[k].id, 0, Some(SOME_CODEC));
            && |p'.lines| == |p.lines| && Equipped(p', k + 1) && p'.signalling == HaveRemoteOffer
  {
    hide Indexed, Mirrored, WithoutCodec;
    InvariantAt(p, types, k);
    assert Matches(WithId(p.lines[k].id), p.lines[k]);
    assert Find(p.lines, WithId(p.lines[k].id)) == k;
  }

  /** The second end registers a codec for each of its lines from `k` on; nothing else changes. */
  lemma {:induction false} EquipsAll(s: System, ta: seq<MediaType>, tb: seq<MediaType>, k: nat)
    returns (more: seq<(bool, Move)>)
    requires Coherent(s, ta, tb, false) && Answering(s, ta, tb, false) && k <= |s.b.lines| && Equipped(s.b, k)
    ensures After(s, more).Some?
    ensures var s' := After(s, more).value;
            Coherent(s', ta, tb, false) && Answering(s', ta, tb, false) && Equipped(s'.b, |s'.b.lines|)
    decreases |s.b.lines| - k
  {
    hide Coherent, After, MoveA, Equipped, Invariant;
    if k == |s.b.lines| {
      more := [];
      assert After(s, []) == Some(s) by { NoMoves(s); }
    } else {
      var call := ChangesCodec(s.b.lines[k].id, 0, Some(SOME_CODEC));
      CoherentParts(s, ta, tb, false);
      EquipsOneMore(s.b, tb, k);
      CoherentBothWays(s, ta, tb, false);
      LocalMoveCoheres(Swap(s), tb, ta, false, call);
      CoherentBothWays(MoveA(Swap(s), Changes(call)), tb, ta, false);
      OneMove(s, false, Changes(call));
      var next := Next(s, false, Changes(call));
      assert next == s.(b := Local(s.b, call)) by { LocalMove(Swap(s), call); }
      var rest := EquipsAll(next, ta, tb, k + 1);
      RunsJoin(s, [(false, Changes(call))], rest);
      more := [(false, Changes(call))] + rest;
    }
  }

  lemma NoMoves(s: System)
    ensures After(s, []) == Some(s)
  {
  }

  lemma LocalMove(s: System, call: Call)
    requires Enabled(s, Changes(call))
    ensures MoveA(s, Changes(call)) == s.(a := Local(s.a, call))
  {
  }

  lemma RemoveSenderStaysEquipped(p: Peer, ssrc: u32)
    requires ssrc in p.senders && Equipped(p, |p.lines|)
    ensures Equipped(RemoveSender(p, ssrc), |RemoveSender(p, ssrc).lines|)
  {
  }

  lemma {:induction false} RemovalStaysEquipped(p: Peer, list: seq<u32>)
    requires Equipped(p, |p.lines|)
    ensures Equipped(RemoveSenders(p, list), |RemoveSenders(p, list).lines|)
    decreases |list|
  {
    hide RemoveSender, Equipped;
    if list != [] {
      if list[0] in p.senders {
        RemoveSenderStaysEquipped(p, list[0]);
        RemovalStaysEquipped(RemoveSender(p, list[0]), list[1..]);
      } else {
        RemovalStaysEquipped(p, list[1..]);
      }
    }
  }

  /** An end all of whose lines have codecs can answer. */
  lemma EquippedCanAnswer(p: Peer)
    requires p.signalling == HaveRemoteOffer && Hosted(p) && Equipped(p, |p.lines|)
    ensures CreateLocalDescription(p).0.Ok?
  {
    hide RemoveSenders, Describe, DescribedBy;
    RemovalStaysEquipped(p, SortedKeys(ClosedSenders(p)));
    PreparedSameSide(p);
    var prepared := Prepared(p);
    forall j | 0 <= j < |prepared.lines| ensures CanDescribe(prepared, prepared.lines[j]) {
      assert prepared.lines[j].mediaType in Kinds(prepared.lines);
    }
  }

  // --- ends that cannot read each other ----------------------------------------------------------

  /** Two lines with one index, exactly one of them an application line. */
  predicate ApartLines(p: Peer, q: Peer) {
    exists j, k ::
      && 0 <= j < |p.lines| && 0 <= k < |q.lines|
      && p.lines[j].sdpIndex.Some? && p.lines[j].sdpIndex == q.lines[k].sdpIndex
      && (p.lines[j].mediaType == Application) != (q.lines[k].mediaType == Application)
  }

  lemma ApartByType(p: Peer, ta: seq<MediaType>, q: Peer, tb: seq<MediaType>)
    requires Indexed(p.lines, ta) && Indexed(q.lines, tb)
    ensures ApartLines(p, q) <==> Apart(ta, tb)
  {
    forall i | 0 <= i < |ta| && i < |tb| && (ta[i] == Application) != (tb[i] == Application) ensures ApartLines(p, q) {
      var j, k := Find(p.lines, WithIndex(i)), Find(q.lines, WithIndex(i));
      assert Matches(WithIndex(i), p.lines[j]) && Matches(WithIndex(i), q.lines[k]);
    }
    if ApartLines(p, q) {
      var j, k :| 0 <= j < |p.lines| && 0 <= k < |q.lines|
                  && p.lines[j].sdpIndex.Some? && p.lines[j].sdpIndex == q.lines[k].sdpIndex
                  && (p.lines[j].mediaType == Application) != (q.lines[k].mediaType == Application);
      var i := p.lines[j].sdpIndex.value;
      assert ta[i] == p.lines[j].mediaType && tb[i] == q.lines[k].mediaType;
    }
  }

  /** Where the ends are apart, an answer is unreadable. */
  lemma ApartIsUnreadable(x: seq<MediaType>, spoken: seq<MediaType>, y: seq<MediaType>)
    requires Covers(x, spoken) && spoken <= y
    ensures Foreign(x, spoken) <==> Apart(x, y)
  {
    assert forall i :: 0 <= i < |x| ==> spoken[i] == y[i];
  }

  /** Reading a part of the other end's list sets no ends apart. */
  lemma ReadingStaysTogether(types: seq<MediaType>, description: Description, other: seq<MediaType>)
    requires !Apart(types, other) && MediaTypes(description) <= other
    ensures !Apart(Extended(types, description), other)
  {
    var longer := Extended(types, description);
    forall i | 0 <= i < |longer| && i < |other| ensures (longer[i] == Application) == (other[i] == Application) {
      if i >= |types| {
        assert longer[i] == MediaTypes(description)[i] == other[i];
      }
    }
  }

  /** An end that waits for one it is apart from goes on waiting after its own moves. */
  lemma StillWaits(s: System, ta: seq<MediaType>, tb: seq<MediaType>, move: Move)
    requires Coherent(s, ta, tb, false) && Enabled(s, move) && s.a.signalling == HaveLocalOffer && Apart(ta, tb)
    ensures MoveA(s, move).a.signalling == HaveLocalOffer
  {
    hide Coherent, Ready, Invariant, Local, CreateLocalDescription, Reception, Says, Harmless, MediaTypes, Covers, Apart;
    match move
    case Changes(call) => SignallingAfterLocal(s.a, call);
    case SendsDescription => NothingToGenerate(s.a);
    case Receives =>
      if !Accepts(s.a.signalling, s.toA[0].mode) {
        Refused(s.a, s.toA[0]);
      } else {
        CoherentParts(s, ta, tb, false);
        AcceptedMessage(s, ta, tb, false);
        ApartIsUnreadable(ta, Spoken(s), tb);
        var _ := ReceptionOutcome(s.a, ta, s.toA[0], s.b.transport);
      }
  }

  lemma ApartGrows(x: seq<MediaType>, y: seq<MediaType>, x': seq<MediaType>, y': seq<MediaType>)
    requires Apart(x, y) && x <= x' && y <= y'
    ensures Apart(x', y')
  {
    hide Foreign;
    ForeignGrows(x, y, x', y');
    ForeignGrows(y, x, y', x');
  }

  lemma {:induction false} ApartWaitsForever(s: System, ta: seq<MediaType>, tb: seq<MediaType>,
                                             moves: seq<(bool, Move)>)
    returns (ta': seq<MediaType>, tb': seq<MediaType>)
    requires Coherent(s, ta, tb, false) && s.a.signalling == HaveLocalOffer && Apart(ta, tb) && After(s, moves).Some?
    ensures Coherent(After(s, moves).value, ta', tb', false) && Apart(ta', tb')
    ensures After(s, moves).value.a.signalling == HaveLocalOffer
    decreases |moves|
  {
    hide Coherent, MoveA, Enabled, Apart;
    ta', tb' := ta, tb;
    if moves != [] {
      ta', tb' := ApartWaitsForever(s, ta, tb, moves[..|moves| - 1]);
      var before, move := After(s, moves[..|moves| - 1]).value, moves[|moves| - 1];
      var x, y := ta', tb';
      if move.0 {
        ta' := MoveCoheres(before, x, y, false, move.1);
        StillWaits(before, x, y, move.1);
      } else {
        CoherentBothWays(before, x, y, false);
        tb' := MoveCoheres(Swap(before), y, x, false, move.1);
        CoherentBothWays(MoveA(Swap(before), move.1), tb', x, false);
        OtherEndStays(Swap(before), move.1);
      }
      ApartGrows(x, y, ta', tb');
    }
  }

  lemma OtherEndStays(s: System, move: Move)
    requires Enabled(s, move)
    ensures MoveA(s, move).b == s.b
  {
    hide Local, CreateLocalDescription, Reception;
  }

  // --- every other offer can be answered ---------------------------------------------------------

  ghost predicate EndsStable(s: System, more: seq<(bool, Move)>) {
    After(s, more).Some? && After(s, more).value.a.signalling == Stable
  }

  /** The answer is under way. */
  lemma AnswerConcludes(s: System, ta: seq<MediaType>, tb: seq<MediaType>)
    requires Coherent(s, ta, tb, false) && (Answered(s, ta, tb, false) || AnsweredAndOffered(s, ta, tb, false))
    requires !Apart(ta, tb)
    ensures EndsStable(s, [(true, Receives)])
  {
    hide Coherent, MoveA, Apart;
    AnswerIsTaken(s, ta, tb);
    OneMove(s, true, Receives);
  }

  lemma AnswerIsTaken(s: System, ta: seq<MediaType>, tb: seq<MediaType>)
    requires Coherent(s, ta, tb, false) && (Answered(s, ta, tb, false) || AnsweredAndOffered(s, ta, tb, false))
    requires !Apart(ta, tb)
    ensures MoveA(s, Receives).a.signalling == Stable && MoveA(s, Receives).toA == s.toA[1..]
    ensures MoveA(s, Receives).b == s.b && MoveA(s, Receives).toB == s.toB && Reception(s.a, s.toA[0]).0.None?
  {
    hide Coherent, Invariant, Ready, Says, SetRemoteDescription, Apart, Covers, Foreign, Harmless, MediaTypes;
    CoherentParts(s, ta, tb, false);
    AcceptedMessage(s, ta, tb, false);
    ApartIsUnreadable(ta, Spoken(s), tb);
    var _ := ReceptionOutcome(s.a, ta, s.toA[0], s.b.transport);
  }

  /** The second end has the offer: it registers codecs and answers. */
  lemma AcceptedConcludes(s: System, ta: seq<MediaType>, tb: seq<MediaType>) returns (more: seq<(bool, Move)>)
    requires Coherent(s, ta, tb, false) && Answering(s, ta, tb, false) && !Apart(ta, tb)
    ensures EndsStable(s, more)
  {
    hide Coherent, After, MoveA, Apart;
    more := EquipsAll(s, ta, tb, 0);
    var s1 := After(s, more).value;
    CoherentParts(s1, ta, tb, false);
    EquippedCanAnswer(s1.b);
    CoherentBothWays(s1, ta, tb, false);
    var tb' := SendMoveCoheres(Swap(s1), tb, ta, false);
    var s2 := Next(s1, false, SendsDescription);
    CoherentBothWays(MoveA(Swap(s1), SendsDescription), tb', ta, false);
    AnswerSent(Swap(s1));
    AnswerUnderWay(s2, ta, tb');
    ThenOneMove(s, more, false, SendsDescription);
    AnswerConcludes(s2, ta, tb');
    RunsJoin(s, more + [(false, SendsDescription)], [(true, Receives)]);
    more := more + [(false, SendsDescription)] + [(true, Receives)];
  }

  lemma AnswerSent(s: System)
    requires s.a.signalling == HaveRemoteOffer && CreateLocalDescription(s.a).0.Ok?
    ensures var s' := MoveA(s, SendsDescription);
            && s'.a.signalling == Stable && s'.b == s.b && s'.toA == s.toA
            && |s'.toB| == |s.toB| + 1 && s'.toB[..|s.toB|] == s.toB && s'.toB[|s.toB|].mode == Answer
  {
    hide Prepared, Describe, DescribedBy, PromoteLines, PromoteSenders;
  }

  /** Of all phases only one has an answer as the only message. */
  lemma AnswerUnderWay(s: System, ta: seq<MediaType>, tb: seq<MediaType>)
    requires Coherent(s, ta, tb, false) && s.a.signalling == HaveLocalOffer && s.b.signalling == Stable && s.toB == []
    requires |s.toA| == 1 && s.toA[0].mode == Answer
    ensures Answered(s, ta, tb, false)
  {
    hide Ends, Says;
  }

  /** The offer is under way to an end that accepts it. */
  lemma OfferConcludes(s: System, ta: seq<MediaType>, tb: seq<MediaType>) returns (more: seq<(bool, Move)>)
    requires Coherent(s, ta, tb, false) && Offered(s, ta, tb, false) && !Apart(tb, ta)
    ensures EndsStable(s, more)
  {
    hide Coherent, After, MoveA, Extended, Foreign, ForeignFrom, Reception;
    CoherentBothWays(s, ta, tb, false);
    var tb' := ReceiveMoveCoheres(Swap(s), tb, ta, false);
    CoherentBothWays(MoveA(Swap(s), Receives), tb', ta, false);
    OfferIsTaken(s, ta, tb);
    ReadingStaysTogether(tb, s.toB[0].description, ta);
    OneMove(s, false, Receives);
    var next := Next(s, false, Receives);
    OfferAccepted(next, ta, tb');
    var rest := AcceptedConcludes(next, ta, tb');
    RunsJoin(s, [(false, Receives)], rest);
    more := [(false, Receives)] + rest;
  }

  lemma OfferIsTaken(s: System, ta: seq<MediaType>, tb: seq<MediaType>)
    requires Coherent(s, ta, tb, false) && Offered(s, ta, tb, false) && !Apart(tb, ta)
    ensures var s' := MoveA(Swap(s), Receives);
            && s'.a.signalling == HaveRemoteOffer && s'.b == s.a && s'.toA == [] && s'.toB == s.toA
            && Reception(s.b, s.toB[0]).0.None?
  {
    hide Coherent, Ends, Invariant, Ready, SetRemoteDescription, Says, Harmless, Foreign;
    CoherentParts(s, ta, tb, false);
    EndsParts(s, ta, tb);
    OffersAreHarmless(s.toB[0], s.a.transport, s.b.transport, tb);
    var _ := ReceptionOutcome(s.b, tb, s.toB[0], s.a.transport);
  }

  lemma OfferAccepted(s: System, ta: seq<MediaType>, tb: seq<MediaType>)
    requires Coherent(s, ta, tb, false) && s.a.signalling == HaveLocalOffer && s.b.signalling == HaveRemoteOffer
    ensures Answering(s, ta, tb, false)
  {
    hide Ends, Says;
  }

  /** Where a waiting end can be, other than in a glare. */
  lemma WaitingPhases(s: System, ta: seq<MediaType>, tb: seq<MediaType>)
    requires Coherent(s, ta, tb, false) && s.a.signalling == HaveLocalOffer
    ensures Offered(s, ta, tb, false) || Answering(s, ta, tb, false) || Answered(s, ta, tb, false)
         || AnsweredAndOffered(s, ta, tb, false)
         || AnsweredAndOffered(Swap(s), tb, ta, false) || Spurned(s, ta, tb, false) || Glare(s)
  {
    hide Ends, Says;
  }

  /** The second end still has to read an answer before it reads the offer. */
  lemma AnswerThenOffer(s: System, ta: seq<MediaType>, tb: seq<MediaType>) returns (more: seq<(bool, Move)>)
    requires Coherent(s, ta, tb, false) && AnsweredAndOffered(Swap(s), tb, ta, false) && !Apart(tb, ta)
    ensures EndsStable(s, more)
  {
    hide Coherent, After, MoveA, Extended, Foreign, ForeignFrom, Reception;
    CoherentBothWays(s, ta, tb, false);
    AnswerIsTaken(Swap(s), tb, ta);
    var tb' := ReceiveMoveCoheres(Swap(s), tb, ta, false);
    CoherentBothWays(MoveA(Swap(s), Receives), tb', ta, false);
    var next := Next(s, false, Receives);
    OneMove(s, false, Receives);
    ReadingStaysTogether(tb, s.toB[0].description, ta);
    OfferIsNext(next, ta, tb');
    var rest := OfferConcludes(next, ta, tb');
    RunsJoin(s, [(false, Receives)], rest);
    more := [(false, Receives)] + rest;
  }

  lemma OfferIsNext(s: System, ta: seq<MediaType>, tb: seq<MediaType>)
    requires Coherent(s, ta, tb, false) && s.a.signalling == HaveLocalOffer && s.b.signalling == Stable && s.toA == []
    requires |s.toB| == 1 && s.toB[0].mode == Offer
    ensures Offered(s, ta, tb, false)
  {
    hide Ends, Says;
  }

  /**
   * In every run: a waiting end can still get its answer exactly when its offer has not met, and will not meet, an end
   * that has or needs an offer of its own, and at no index exactly one of the two ends has an application line.
   * `NegotiationRequired` at the other end is enough to lose it.
   */
  lemma AnswerExactlyWhenReadableWithoutGlare(moves: seq<(bool, Move)>)
    requires After(NewSystem(), moves).Some? && After(NewSystem(), moves).value.a.signalling == HaveLocalOffer
    ensures var s := After(NewSystem(), moves).value;
            (exists more :: EndsStable(s, more)) <==> !Glare(s) && !ApartLines(s.a, s.b)
  {
    hide After, Clean, Coherent, Glare, EndsStable, Offered, Answering, Answered, AnsweredAndOffered, Apart, ApartLines;
    var ta, tb := RunCoheres(moves);
    var s := After(NewSystem(), moves).value;
    ClashOrNot(s, ta, tb, Clean(NewSystem(), moves));
    CoherentParts(s, ta, tb, false);
    assert ApartLines(s.a, s.b) <==> Apart(ta, tb) by {
      EndsParts(s, ta, tb);
      InvariantIndexes(s.a, ta);
      InvariantIndexes(s.b, tb);
      ApartByType(s.a, ta, s.b, tb);
    }
    if Glare(s) {
      forall more | EndsStable(s, more) ensures false {
        GlareNeverEnds(s, more);
      }
    } else if Apart(ta, tb) {
      forall more | EndsStable(s, more) ensures false {
        ApartNeverEnds(s, ta, tb, more);
      }
    } else {
      var more := TogetherEnds(s, ta, tb);
    }
  }

  lemma TogetherEnds(s: System, ta: seq<MediaType>, tb: seq<MediaType>) returns (more: seq<(bool, Move)>)
    requires Coherent(s, ta, tb, false) && s.a.signalling == HaveLocalOffer && !Glare(s) && !Apart(ta, tb)
    ensures EndsStable(s, more)
  {
    hide Coherent, Glare, EndsStable, Offered, Answering, Answered, AnsweredAndOffered, Foreign;
    WaitingPhases(s, ta, tb);
    if Offered(s, ta, tb, false) {
      more := OfferConcludes(s, ta, tb);
    } else if Answering(s, ta, tb, false) {
      more := AcceptedConcludes(s, ta, tb);
    } else if Answered(s, ta, tb, false) || AnsweredAndOffered(s, ta, tb, false) {
      more := [(true, Receives)];
      AnswerConcludes(s, ta, tb);
    } else {
      more := AnswerThenOffer(s, ta, tb);
    }
  }

  lemma ApartNeverEnds(s: System, ta: seq<MediaType>, tb: seq<MediaType>, more: seq<(bool, Move)>)
    requires Coherent(s, ta, tb, false) && s.a.signalling == HaveLocalOffer && Apart(ta, tb)
    ensures !EndsStable(s, more)
  {
    hide After, Coherent, Apart;
    if After(s, more).Some? {
      var _, _ := ApartWaitsForever(s, ta, tb, more);
    }
  }

  lemma GlareNeverEnds(s: System, more: seq<(bool, Move)>)
    requires Glare(s)
    ensures !EndsStable(s, more)
  {
    hide After;
    if After(s, more).Some? {
      GlareIsForever(s, more);
    }
  }
}
