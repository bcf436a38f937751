/**
 * Who is client of the DTLS transport and of the data channels, over every run of two peers (src/transport/mod.rs,
 * src/application.rs).
 */
module PeerRoles {
  import opened Prelude
  import opened SortedKeySets
  import opened Negotiation
  import opened NegotiationInvariants
  import opened TwoPeers

  // --- complementary roles -----------------------------------------------------------------------

  /**
   * In every run, whatever is refused, clashes or fails part-way: the two setups never clash, the role of an end's
   * channels is "my setup is active", and ends whose channels have roles have opposite ones.
   */
  lemma RolesAreComplementary(moves: seq<(bool, Move)>)
    requires After(NewSystem(), moves).Some?
    ensures var s := After(NewSystem(), moves).value;
            && Complementary(s.a.transport, s.b.transport) && RoleFollowsSetup(s.a) && RoleFollowsSetup(s.b)
            && (HasRole(s.a) && HasRole(s.b) ==> s.a.channels.value.dtlsRoleClient != s.b.channels.value.dtlsRoleClient)
  {
    hide After, Clean, Invariant, Says, Foreign;
    var ta, tb := RunCoheres(moves);
  }

  // --- roles stay --------------------------------------------------------------------------------

  /** What a remote description has fixed: the setup, and the channels' role. */
  predicate RolesKept(p: Peer, p': Peer) {
    && (p.transport.hasRemote ==> p'.transport == p.transport)
    && (HasRole(p) ==> p'.channels == p.channels)
  }

  lemma {:induction false} ApplyFromSettles(p: Peer, description: Description, i: nat, fault: Option<Fault>)
    requires i <= |description|
    ensures RolesKept(p, ApplyFrom(p, description, i, fault).1)
    decreases |description| - i
  {
    hide ApplySection;
    if i < |description| {
      SectionSettles(p, i, description[i], StopAt(fault, i));
      var (error, applied) := ApplySection(p, i, description[i], StopAt(fault, i));
      if error.None? {
        ApplyFromSettles(applied, description, i + 1, fault);
      }
    }
  }

  lemma SectionSettles(p: Peer, i: nat, media: Media, stop: Option<Progress>)
    ensures RolesKept(p, ApplySection(p, i, media, stop).1)
  {
    hide Claim;
  }

  lemma LocalSettles(p: Peer, call: Call)
    ensures RolesKept(p, Local(p, call))
  {
    match call
    case Polls =>
      hide RemoveSenders;
      RemoveSendersSameSide(p, SortedKeys(ClosedSenders(p)));
    case _ =>
  }

  /** Roles never change again, whatever is renegotiated, at either end. */
  lemma {:induction false} RolesAreSettled(s: System, moves: seq<(bool, Move)>)
    requires After(s, moves).Some?
    ensures RolesKept(s.a, After(s, moves).value.a) && RolesKept(s.b, After(s, moves).value.b)
    decreases |moves|
  {
    hide CreateLocalDescription, Local, ApplyFrom, SameSide;
    if moves != [] {
      RolesAreSettled(s, moves[..|moves| - 1]);
      var before, move := After(s, moves[..|moves| - 1]).value, moves[|moves| - 1];
      var acting := if move.0 then before else Swap(before);
      match move.1
      case Changes(call) => LocalSettles(acting.a, call);
      case SendsDescription =>
        CreateSameSide(acting.a);
        SameSideSettles(acting.a, CreateLocalDescription(acting.a).1);
      case Receives => ApplyFromSettles(acting.a, acting.toA[0].description, 0, None);
    }
  }

  lemma SameSideSettles(p: Peer, p': Peer)
    requires SameSide(p, p')
    ensures RolesKept(p, p')
  {
  }

  // --- how an offerer learns its role ------------------------------------------------------------

  /**
   * The first offer decides the answerer's role; the offerer learns its own from the answer exactly when the answerer
   * has something to say on some line: an application line, or a line with local or remote streams.
   */
  lemma OffererLearnsRoleExactlyWhenAnswerSaysSomething(
      p: Peer, types: seq<MediaType>, q: Peer, spoken: seq<MediaType>, lines: seq<Line>)
    requires Invariant(p, types) && Ready(p) && p.transport == UNDECIDED && p.signalling == HaveLocalOffer
    requires Invariant(q, spoken) && q.transport == SERVER && lines == RegisteredLines(q.lines)
    requires Covers(types, spoken) && !Foreign(types, spoken)
    ensures var answer := Describe(q, false);
            var (error, p') := Reception(p, Message(Answer, answer));
            && error.None? && |lines| == |spoken|
            && p'.transport == if exists i :: 0 <= i < |lines| && HasSomethingToSay(lines[i]) then CLIENT else UNDECIDED
  {
    hide Invariant, Ready, SetRemoteDescription, HasSomethingToSay, MediaOf, Foreign, Harmless;
    InvariantIndexes(q, spoken);
    DescribeListsTypes(q, spoken, false);
    var answer := Describe(q, false);
    var message := Message(Answer, answer);
    assert Says(message, SERVER);
    CoveringIsHarmless(message, SERVER, UNDECIDED, types);
    var _ := ReceptionOutcome(p, types, message, SERVER);
    forall i | 0 <= i < |lines| ensures answer[i].direction == Inactive <==> !HasSomethingToSay(lines[i]) {
      InactiveSaysNothing(q, lines[i]);
    }
  }

  predicate HasSomethingToSay(line: Line) {
    line.mediaType == Application || line.localStreams != [] || line.remoteStreams != {}
  }

  lemma InactiveSaysNothing(q: Peer, line: Line)
    ensures MediaOf(q, line, false).direction == Inactive <==> !HasSomethingToSay(line)
  {
  }
}
