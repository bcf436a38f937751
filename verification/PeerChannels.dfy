/**
 * Two peers with their data channels in step, from two new peers until the association is started: the negotiation and
 * the application's own calls on the channels, in any order (src/rtc.rs, src/application.rs).
 */
module PeerChannels {
  import opened Prelude
  import opened SortedKeySets
  import opened DataChannels
  import opened DataChannelRuns
  import DataChannelPeers
  import Negotiation
  import OfferOutcomes
  import PeerRoles
  import TwoPeers

  /** The peers, and the calls each end's channels have had so far. */
  datatype Session = Session(peers: TwoPeers.System, callsOfA: seq<Call>, callsOfB: seq<Call>)

  datatype Move = Negotiates(move: TwoPeers.Move) | Uses(call: Call)

  const NEW_SESSION := Session(TwoPeers.NewSystem(), [], [])

  /** Sections announce this port, or are read as if they did. */
  const PORT: u16 := 5000

  function Swap(s: Session): Session {
    Session(TwoPeers.Swap(s.peers), s.callsOfB, s.callsOfA)
  }

  // --- what a description tells the channels -----------------------------------------------------

  predicate ReachesChannels(p: Negotiation.Peer, i: nat, media: Negotiation.Media) {
    var (lines, position) := Negotiation.Claim(p.lines, i, media.mediaType);
    && Negotiation.ApplyTransport(p.transport, media).Ok?
    && if position < |lines| then lines[position].mediaType == Negotiation.Application && p.channels.Some?
       else media.mediaType == Negotiation.Application
  }

  function ToldBySection(p: Negotiation.Peer, i: nat, media: Negotiation.Media): seq<Call> {
    if ReachesChannels(p, i, media) then [IsDescribed(media, PORT, true)] else []
  }

  function ToldFrom(p: Negotiation.Peer, description: Negotiation.Description, i: nat): seq<Call>
    requires i <= |description|
    decreases |description| - i
  {
    if i == |description| then []
    else
      var (error, applied) := Negotiation.ApplySection(p, i, description[i], None);
      ToldBySection(p, i, description[i]) + if error.Some? then [] else ToldFrom(applied, description, i + 1)
  }

  function ToldBy(p: Negotiation.Peer, message: TwoPeers.Message): seq<Call> {
    if Negotiation.Accepts(p.signalling, message.mode) then ToldFrom(p, message.description, 0) else []
  }

  // --- runs --------------------------------------------------------------------------------------

  /** The application has channels to use once its peer has; until the association is started it makes and closes them. */
  ghost predicate Enabled(s: Session, move: Move) {
    match move
    case Negotiates(move) => TwoPeers.Enabled(s.peers, move)
    case Uses(call) => s.peers.a.channels.Some? && (call.Creates? || call.Sends? || call.Closes?)
  }

  ghost function MoveA(s: Session, move: Move): Session
    requires Enabled(s, move)
  {
    match move
    case Negotiates(move) =>
      s.(peers := TwoPeers.MoveA(s.peers, move),
         callsOfA := s.callsOfA + if move.Receives? then ToldBy(s.peers.a, s.peers.toA[0]) else [])
    case Uses(call) => s.(callsOfA := s.callsOfA + [call])
  }

  ghost function Reached(moves: seq<(bool, Move)>): Option<Session>
    decreases |moves|
  {
    if moves == [] then Some(NEW_SESSION)
    else
      var before, move := Reached(moves[..|moves| - 1]), moves[|moves| - 1];
      if before.None? then None
      else if move.0 then (if Enabled(before.value, move.1) then Some(MoveA(before.value, move.1)) else None)
      else if Enabled(Swap(before.value), move.1) then Some(Swap(MoveA(Swap(before.value), move.1)))
      else None
  }

  // --- the peer and its channels agree -----------------------------------------------------------

  /** The channels have not been started, and have the role that their peer records. */
  ghost predicate InStep(p: Negotiation.Peer, calls: seq<Call>) {
    && After(calls).Some? && After(calls).value.state == Disconnected
    && After(calls).value.role == (if p.channels.Some? then p.channels.value else NewEndpoint().role)
    && (After(calls).value.role.configured ==> After(calls).value.remotePort == PORT)
  }

  lemma CallsJoin(calls: seq<Call>, call: Call)
    requires After(calls).Some? && Allowed(After(calls).value, call)
    ensures After(calls + [call]) == Some(Next(After(calls).value, call))
  {
    assert (calls + [call])[..|calls + [call]| - 1] == calls;
  }

  /** The role of channels that have read a section, and of new ones if there were none. */
  function RoleAfter(channels: Option<Negotiation.Channels>, media: Negotiation.Media): Negotiation.Channels {
    var role := if channels.Some? then channels.value else NewEndpoint().role;
    match Negotiation.ApplyChannels(role, media)
    case Ok(applied) => applied
    case Err(_) => role
  }

  lemma SectionChannels(p: Negotiation.Peer, i: nat, media: Negotiation.Media)
    ensures Negotiation.ApplySection(p, i, media, None).1.channels ==
            if ReachesChannels(p, i, media) then Some(RoleAfter(p.channels, media)) else p.channels
  {
    hide Negotiation.Claim, Negotiation.ApplyTransport, Negotiation.ApplyChannels;
  }

  lemma DescribedRole(e: Endpoint, media: Negotiation.Media)
    requires e.role.configured ==> e.remotePort == PORT
    ensures var e' := Next(e, IsDescribed(media, PORT, true));
            && e'.state == e.state && (e'.role.configured ==> e'.remotePort == PORT)
            && e'.role == RoleAfter(Some(e.role), media)
  {
  }

  lemma SectionInStep(p: Negotiation.Peer, calls: seq<Call>, i: nat, media: Negotiation.Media)
    requires InStep(p, calls)
    ensures InStep(Negotiation.ApplySection(p, i, media, None).1, calls + ToldBySection(p, i, media))
  {
    hide Negotiation.ApplySection, ReachesChannels, RoleAfter, After, Next;
    SectionChannels(p, i, media);
    if ReachesChannels(p, i, media) {
      CallsJoin(calls, IsDescribed(media, PORT, true));
      DescribedRole(After(calls).value, media);
      RoleOfNew(p.channels, media);
    } else {
      assert calls + [] == calls;
    }
  }

  lemma RoleOfNew(channels: Option<Negotiation.Channels>, media: Negotiation.Media)
    ensures RoleAfter(channels, media)
         == RoleAfter(Some(if channels.Some? then channels.value else NewEndpoint().role), media)
  {
  }

  lemma {:induction false} SectionsInStep(p: Negotiation.Peer, calls: seq<Call>, description: Negotiation.Description,
                                          i: nat)
    requires InStep(p, calls) && i <= |description|
    ensures InStep(Negotiation.ApplyFrom(p, description, i, None).1, calls + ToldFrom(p, description, i))
    decreases |description| - i
  {
    hide Negotiation.ApplySection, InStep, ToldBySection;
    if i == |description| {
      assert calls + [] == calls;
    } else {
      var (error, applied) := Negotiation.ApplySection(p, i, description[i], None);
      var told := ToldBySection(p, i, description[i]);
      SectionInStep(p, calls, i, description[i]);
      if error.None? {
        SectionsInStep(applied, calls + told, description, i + 1);
        assert calls + told + ToldFrom(applied, description, i + 1) == calls + ToldFrom(p, description, i);
      } else {
        assert calls + ToldFrom(p, description, i) == calls + told;
      }
    }
  }

  lemma SameRoleInStep(p: Negotiation.Peer, p': Negotiation.Peer, calls: seq<Call>)
    requires InStep(p, calls)
    requires p'.channels == p.channels || (p.channels.None? && p'.channels == Some(Negotiation.Channels(true, false)))
    ensures InStep(p', calls)
  {
  }

  lemma LocalChannels(p: Negotiation.Peer, call: Negotiation.Call)
    ensures var channels := Negotiation.Local(p, call).channels;
            channels == p.channels || (p.channels.None? && channels == Some(Negotiation.Channels(true, false)))
  {
    match call
    case Polls =>
      hide Negotiation.RemoveSenders;
      TwoPeers.RemoveSendersSameSide(p, SortedKeys(Negotiation.ClosedSenders(p)));
    case _ =>
  }

  lemma UsesInStep(p: Negotiation.Peer, calls: seq<Call>, call: Call)
    requires InStep(p, calls) && (call.Creates? || call.Sends? || call.Closes?)
    ensures InStep(p, calls + [call])
  {
    CallsJoin(calls, call);
    hide After, Allocate;
  }

  lemma MoveInStep(s: Session, move: Move)
    requires InStep(s.peers.a, s.callsOfA) && Enabled(s, move)
    ensures InStep(MoveA(s, move).peers.a, MoveA(s, move).callsOfA)
    ensures MoveA(s, move).peers.b == s.peers.b && MoveA(s, move).callsOfB == s.callsOfB
  {
    hide InStep, Negotiation.Local, Negotiation.CreateLocalDescription, Negotiation.ApplyFrom;
    var a, calls := s.peers.a, s.callsOfA;
    assert calls + [] == calls;
    match move
    case Uses(call) => UsesInStep(a, calls, call);
    case Negotiates(Changes(call)) =>
      LocalChannels(a, call);
      SameRoleInStep(a, Negotiation.Local(a, call), calls);
    case Negotiates(SendsDescription) =>
      TwoPeers.CreateSameSide(a);
      SameRoleInStep(a, Negotiation.CreateLocalDescription(a).1, calls);
    case Negotiates(Receives) =>
      var message := s.peers.toA[0];
      if Negotiation.Accepts(a.signalling, message.mode) {
        SectionsInStep(a, calls, message.description, 0);
        var applied := Negotiation.ApplyFrom(a, message.description, 0, None).1;
        SameRoleInStep(applied, Negotiation.Finish(applied), calls + ToldFrom(a, message.description, 0));
      }
  }

  // --- main result -------------------------------------------------------------------------------

  /** The peers' part of a run. */
  function PeerMoves(moves: seq<(bool, Move)>): seq<(bool, TwoPeers.Move)>
    decreases |moves|
  {
    if moves == [] then []
    else
      var earlier, last := PeerMoves(moves[..|moves| - 1]), moves[|moves| - 1];
      if last.1.Negotiates? then earlier + [(last.0, last.1.move)] else earlier
  }

  lemma {:induction false} RunInStep(moves: seq<(bool, Move)>)
    requires Reached(moves).Some?
    ensures InStep(Reached(moves).value.peers.a, Reached(moves).value.callsOfA)
    ensures InStep(Reached(moves).value.peers.b, Reached(moves).value.callsOfB)
    decreases |moves|
  {
    hide InStep, Enabled, MoveA;
    if moves == [] {
      NewIsInStep();
    } else {
      RunInStep(moves[..|moves| - 1]);
      var s, move := Reached(moves[..|moves| - 1]).value, moves[|moves| - 1];
      MoveInStep(if move.0 then s else Swap(s), move.1);
    }
  }

  lemma LastMove(moves: seq<(bool, Move)>)
    requires moves != [] && Reached(moves).Some?
    ensures var before, move := Reached(moves[..|moves| - 1]), moves[|moves| - 1];
            && before.Some?
            && if move.0 then Enabled(before.value, move.1) && Reached(moves).value == MoveA(before.value, move.1)
               else Enabled(Swap(before.value), move.1)
                    && Reached(moves).value == Swap(MoveA(Swap(before.value), move.1))
  {
    hide Enabled, MoveA;
  }

  lemma {:induction false} PeersRun(moves: seq<(bool, Move)>)
    requires Reached(moves).Some?
    ensures TwoPeers.After(TwoPeers.NewSystem(), PeerMoves(moves)) == Some(Reached(moves).value.peers)
    decreases |moves|
  {
    hide Enabled, MoveA, TwoPeers.MoveA, TwoPeers.Enabled;
    if moves != [] {
      var earlier, move := moves[..|moves| - 1], moves[|moves| - 1];
      LastMove(moves);
      hide Reached, TwoPeers.After;
      PeersRun(earlier);
      var s := Reached(earlier).value;
      PeersMove(if move.0 then s else Swap(s), move.1);
      if move.1.Negotiates? {
        OfferOutcomes.ThenOneMove(TwoPeers.NewSystem(), PeerMoves(earlier), move.0, move.1.move);
      }
    }
  }

  lemma NewIsInStep()
    ensures InStep(Negotiation.NewPeer(), [])
  {
  }

  lemma PeersMove(s: Session, move: Move)
    requires Enabled(s, move)
    ensures move.Negotiates? ==> TwoPeers.Enabled(s.peers, move.move)
                                 && MoveA(s, move).peers == TwoPeers.MoveA(s.peers, move.move)
    ensures move.Uses? ==> MoveA(s, move).peers == s.peers
  {
    hide TwoPeers.MoveA, TwoPeers.Enabled;
  }

  /**
   * In every run, whatever is negotiated, refused or clashes and whatever channels are made meanwhile: each end's channels
   * have the role its peer records, and once both have one, the ends are ready to connect with opposite roles.
   */
  lemma NegotiationGivesOppositeRoles(moves: seq<(bool, Move)>)
    requires Reached(moves).Some?
    ensures var s := Reached(moves).value;
            && After(s.callsOfA).Some? && After(s.callsOfB).Some?
            && var a, b := After(s.callsOfA).value, After(s.callsOfB).value;
            && (a.role.configured <==> TwoPeers.HasRole(s.peers.a)) && (b.role.configured <==> TwoPeers.HasRole(s.peers.b))
            && (a.role.configured && b.role.configured ==>
                  DataChannelPeers.Described(DataChannelPeers.System(a, b, [], [])))
  {
    hide Reached, After, TwoPeers.After;
    RunInStep(moves);
    PeersRun(moves);
    var s := Reached(moves).value;
    PeerRoles.RolesAreComplementary(PeerMoves(moves));
    DisconnectedEndsWait(s.callsOfA);
    DisconnectedEndsWait(s.callsOfB);
  }
}
