/**
 * Offers that are never answered: after a glare, and after any description that its receiver has refused (src/rtc.rs).
 */
module LostOffers {
  import opened Prelude
  import opened SortedKeySets
  import opened Negotiation
  import opened NegotiationInvariants
  import opened TwoPeers

  // --- glare -------------------------------------------------------------------------------------

  /** A refused offer stays without an answer: whatever is done, its sender goes on waiting. */
  lemma {:induction false} GlareIsForever(s: System, moves: seq<(bool, Move)>)
    requires Glare(s) && After(s, moves).Some?
    ensures Glare(After(s, moves).value)
    decreases |moves|
  {
    hide Glare, MoveA;
    if moves != [] {
      GlareIsForever(s, moves[..|moves| - 1]);
      var before, move := After(s, moves[..|moves| - 1]).value, moves[|moves| - 1];
      if move.0 {
        GlareAfterMove(before, move.1);
      } else {
        GlareAfterTheirMove(Swap(before), move.1);
      }
    }
  }

  lemma GlareAfterMove(s: System, move: Move)
    requires Glare(s) && Enabled(s, move)
    ensures Glare(MoveA(s, move))
  {
    hide Local, CreateLocalDescription;
    match move
    case Changes(call) => SignallingAfterLocal(s.a, call);
    case SendsDescription => NothingToGenerate(s.a);
    case Receives => Refused(s.a, s.toA[0]);
  }

  lemma NothingToGenerate(p: Peer)
    ensures p.signalling == HaveLocalOffer || p.signalling == Stable ==>
              CreateLocalDescription(p) == (Err(CreateInvalidState), p)
  {
  }

  lemma GlareAfterTheirMove(s: System, move: Move)
    requires Glare(Swap(s)) && Enabled(s, move)
    ensures Glare(Swap(MoveA(s, move)))
  {
    hide Local, CreateLocalDescription;
    match move
    case Changes(call) => SignallingAfterLocal(s.a, call);
    case SendsDescription =>
      NothingToGenerate(s.a);
      SignallingAfterGenerating(s.a);
    case Receives => Refused(s.a, s.toA[0]);
  }

  lemma SignallingAfterGenerating(p: Peer)
    ensures p.signalling == NegotiationRequired || p.signalling == Initial ==>
              var (description, p') := CreateLocalDescription(p);
              p'.signalling == if description.Ok? then HaveLocalOffer else p.signalling
  {
    PreparedSameSignalling(p);
    hide Prepared, Describe, DescribedBy;
  }

  // --- any refusal -------------------------------------------------------------------------------

  /** The first end waits for an answer that will not come. */
  ghost predicate InVain(s: System) {
    Glare(s) || Idle(s)
  }

  lemma InVainAfterMove(s: System, move: Move)
    requires InVain(s) && Enabled(s, move)
    ensures InVain(MoveA(s, move))
  {
    if Glare(s) {
      GlareAfterMove(s, move);
    } else {
      hide Local, CreateLocalDescription;
      match move
      case Changes(call) => SignallingAfterLocal(s.a, call);
      case SendsDescription => NothingToGenerate(s.a);
      case Receives =>
    }
  }

  lemma InVainAfterTheirMove(s: System, move: Move)
    requires InVain(Swap(s)) && Enabled(s, move)
    ensures InVain(Swap(MoveA(s, move)))
  {
    if Glare(Swap(s)) {
      GlareAfterTheirMove(s, move);
    } else {
      hide Local, CreateLocalDescription;
      match move
      case Changes(call) => SignallingAfterLocal(s.a, call);
      case SendsDescription =>
        NothingToGenerate(s.a);
        SignallingAfterGenerating(s.a);
      case Receives =>
    }
  }

  /** An end that waits in vain goes on doing so. */
  lemma {:induction false} InVainIsForever(s: System, moves: seq<(bool, Move)>)
    requires InVain(s) && After(s, moves).Some?
    ensures InVain(After(s, moves).value)
    decreases |moves|
  {
    hide InVain, MoveA;
    if moves != [] {
      InVainIsForever(s, moves[..|moves| - 1]);
      var before, move := After(s, moves[..|moves| - 1]).value, moves[|moves| - 1];
      if move.0 {
        InVainAfterMove(before, move.1);
      } else {
        InVainAfterTheirMove(Swap(before), move.1);
      }
    }
  }

  ghost predicate SomeoneInVain(s: System) {
    InVain(s) || InVain(Swap(s))
  }

  lemma SomeoneInVainAfterMove(s: System, move: Move)
    requires SomeoneInVain(s) && Enabled(s, move)
    ensures SomeoneInVain(MoveA(s, move))
  {
    hide InVain, MoveA;
    if InVain(s) {
      InVainAfterMove(s, move);
    } else {
      InVainAfterTheirMove(s, move);
    }
  }

  /** A message is refused for the state only in a glare. */
  lemma RefusedIsGlare(s: System, ta: seq<MediaType>, tb: seq<MediaType>, clean: bool)
    requires Coherent(s, ta, tb, clean) && s.toA != [] && !Accepts(s.a.signalling, s.toA[0].mode)
    ensures Glare(s) || Glare(Swap(s))
  {
    hide Ends, Says, Foreign, MediaTypes;
  }

  lemma RefusalIsInVain(s: System, ta: seq<MediaType>, tb: seq<MediaType>, clean: bool)
    requires Coherent(s, ta, tb, clean) && s.toA != [] && Reception(s.a, s.toA[0]).0.Some?
    ensures SomeoneInVain(MoveA(s, Receives))
  {
    hide Coherent, Ends, Invariant, Says, Foreign, Harmless, MediaTypes, Reception;
    if !Accepts(s.a.signalling, s.toA[0].mode) {
      RefusedIsGlare(s, ta, tb, clean);
      SomeoneInVainAfterMove(s, Receives);
    } else {
      CoherentParts(s, ta, tb, clean);
      AcceptedMessage(s, ta, tb, clean);
      EndsParts(s, ta, tb);
      var _ := ReceptionOutcome(s.a, ta, s.toA[0], s.b.transport);
    }
  }

  lemma EndsParts(s: System, ta: seq<MediaType>, tb: seq<MediaType>)
    requires Ends(s, ta, tb)
    ensures Invariant(s.a, ta) && Invariant(s.b, tb) && Ready(s.a) && Ready(s.b)
    ensures Complementary(s.a.transport, s.b.transport) && Complementary(s.b.transport, s.a.transport)
  {
  }

  /** In every run: once a description has been refused for whatever reason, one of the ends waits for ever. */
  lemma {:induction false} RefusalMeansInVain(moves: seq<(bool, Move)>)
    requires After(NewSystem(), moves).Some?
    ensures var s := After(NewSystem(), moves).value;
            s.refusedA || s.refusedB ==> SomeoneInVain(s)
    decreases |moves|
  {
    hide Coherent, MoveA, Enabled, Clean, SomeoneInVain;
    if moves != [] {
      var earlier, move := moves[..|moves| - 1], moves[|moves| - 1];
      RefusalMeansInVain(earlier);
      var s := After(NewSystem(), earlier).value;
      var ta, tb := RunCoheres(earlier);
      var clean := Clean(NewSystem(), earlier);
      if move.0 {
        RefusalAfterMove(s, ta, tb, clean, move.1);
      } else {
        CoherentBothWays(s, ta, tb, clean);
        SomeoneBothWays(s);
        RefusalAfterMove(Swap(s), tb, ta, clean, move.1);
        SomeoneBothWays(MoveA(Swap(s), move.1));
      }
    }
  }

  lemma SomeoneBothWays(s: System)
    ensures SomeoneInVain(s) <==> SomeoneInVain(Swap(s))
  {
    assert Swap(Swap(s)) == s;
  }

  lemma RefusalAfterMove(s: System, ta: seq<MediaType>, tb: seq<MediaType>, clean: bool, move: Move)
    requires Coherent(s, ta, tb, clean) && Enabled(s, move)
    requires s.refusedA || s.refusedB ==> SomeoneInVain(s)
    ensures var s' := MoveA(s, move); s'.refusedA || s'.refusedB ==> SomeoneInVain(s')
  {
    hide Coherent, SomeoneInVain, Local, CreateLocalDescription, Reception;
    if SomeoneInVain(s) {
      SomeoneInVainAfterMove(s, move);
    } else if move.Receives? && Reception(s.a, s.toA[0]).0.Some? {
      RefusalIsInVain(s, ta, tb, clean);
    }
  }
}
