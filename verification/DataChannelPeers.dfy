/**
 * Two ends of the data channels with opposite roles, over an association that may delay, reorder and lose whatever it
 * carries (src/application.rs, section 6 of RFC 8832).
 */
module DataChannelPeers {
  import opened Prelude
  import opened DataChannels
  import opened DataChannelRuns
  import Negotiation

  datatype Transfer = Carries(stream: u16, message: Message) | Resets(stream: u16)

  datatype System = System(a: Endpoint, b: Endpoint, toA: seq<Transfer>, toB: seq<Transfer>)

  /** What one end does next; a reset notice naming several streams is these notices one after the other. */
  datatype Move = Does(call: Call) | Delivered(at: nat, accepted: bool) | Lost(at: nat)

  function Swap(s: System): System {
    System(s.b, s.a, s.toB, s.toA)
  }

  function Packets(sent: seq<Packet>): seq<Transfer> {
    seq(|sent|, k requires 0 <= k < |sent| => Carries(sent[k].stream, sent[k].message))
  }

  function ResetNotices(streams: seq<u16>): seq<Transfer> {
    seq(|streams|, k requires 0 <= k < |streams| => Resets(streams[k]))
  }

  /** The association takes over what the end has sent and the resets it has got accepted. */
  function Drained(e: Endpoint): Endpoint {
    e.(sent := [], resetCalls := [])
  }

  function Output(e: Endpoint): seq<Transfer> {
    Packets(e.sent) + ResetNotices(Flatten(e.resetCalls))
  }

  function Arrival(transfer: Transfer, accepted: bool): Call {
    match transfer
    case Carries(stream, message) => Receives(stream, message, accepted)
    case Resets(stream) => IsReset(ResetFlags(false, false, true), [stream], accepted)
  }

  /** Only what was sent arrives; other reset notices are at most a reason to try again. */
  predicate Spontaneous(call: Call) {
    !call.Receives? && (call.IsReset? ==> call.flags.denied || call.flags.failed || !call.flags.incoming)
  }

  predicate Enabled(s: System, move: Move) {
    match move
    case Does(call) => Spontaneous(call) && Allowed(s.a, call)
    case Delivered(at, accepted) => at < |s.toA| && Allowed(s.a, Arrival(s.toA[at], accepted))
    case Lost(at) => at < |s.toA|
  }

  function Removed(transfers: seq<Transfer>, at: nat): seq<Transfer>
    requires at < |transfers|
  {
    transfers[..at] + transfers[at + 1..]
  }

  function Act(s: System, call: Call): System {
    var a := Next(Drained(s.a), call);
    s.(a := Drained(a), toB := s.toB + Output(a))
  }

  /** A move of the first end. */
  function MoveA(s: System, move: Move): System
    requires Enabled(s, move)
  {
    match move
    case Does(call) => Act(s, call)
    case Delivered(at, accepted) => Act(s.(toA := Removed(s.toA, at)), Arrival(s.toA[at], accepted))
    case Lost(at) => s.(toA := Removed(s.toA, at))
  }

  predicate EnabledAt(s: System, atA: bool, move: Move) {
    if atA then Enabled(s, move) else Enabled(Swap(s), move)
  }

  function NextOf(s: System, atA: bool, move: Move): System
    requires EnabledAt(s, atA, move)
  {
    if atA then MoveA(s, move) else Swap(MoveA(Swap(s), move))
  }

  /** The system after a run from `s`, if every move of it was possible when made. */
  function AfterMoves(s: System, moves: seq<(bool, Move)>): Option<System>
    decreases |moves|
  {
    if moves == [] then Some(s)
    else
      var before, move := AfterMoves(s, moves[..|moves| - 1]), moves[|moves| - 1];
      if before.Some? && EnabledAt(before.value, move.0, move.1) then Some(NextOf(before.value, move.0, move.1)) else None
  }

  // --- counting ----------------------------------------------------------------------------------

  datatype Query = OpensOf(stream: u16) | ResetsOf(stream: u16)

  predicate Answers(transfer: Transfer, query: Query) {
    match query
    case OpensOf(stream) => transfer.Carries? && transfer.stream == stream && transfer.message.OpenRequest?
    case ResetsOf(stream) => transfer == Resets(stream)
  }

  function Count(transfers: seq<Transfer>, query: Query): nat {
    if transfers == [] then 0 else (if Answers(transfers[0], query) then 1 else 0) + Count(transfers[1..], query)
  }

  lemma {:induction false} CountConcatenation(x: seq<Transfer>, y: seq<Transfer>, query: Query)
    ensures Count(x + y, query) == Count(x, query) + Count(y, query)
  {
    if x == [] {
      assert x + y == y;
    } else {
      assert (x + y)[1..] == x[1..] + y;
      CountConcatenation(x[1..], y, query);
    }
  }

  lemma CountRemoved(transfers: seq<Transfer>, at: nat, query: Query)
    requires at < |transfers|
    ensures Count(transfers, query) ==
            Count(Removed(transfers, at), query) + if Answers(transfers[at], query) then 1 else 0
  {
    assert transfers == transfers[..at] + transfers[at..];
    assert transfers[at..][1..] == transfers[at + 1..];
    CountConcatenation(transfers[..at], transfers[at..], query);
    CountConcatenation(transfers[..at], transfers[at + 1..], query);
  }

  lemma {:induction false} CountPackets(sent: seq<Packet>, stream: u16)
    ensures Count(Packets(sent), ResetsOf(stream)) == 0
    ensures (forall k :: 0 <= k < |sent| ==> !(sent[k].stream == stream && sent[k].message.OpenRequest?)) ==>
              Count(Packets(sent), OpensOf(stream)) == 0
  {
    if sent != [] {
      CountPackets(sent[1..], stream);
      assert Packets(sent)[1..] == Packets(sent[1..]);
    }
  }

  lemma {:induction false} CountNotices(streams: seq<u16>, stream: u16)
    ensures Count(ResetNotices(streams), OpensOf(stream)) == 0
    ensures Count(ResetNotices(streams), ResetsOf(stream)) == multiset(streams)[stream]
  {
    if streams != [] {
      CountNotices(streams[1..], stream);
      assert ResetNotices(streams)[1..] == ResetNotices(streams[1..]);
      assert streams == [streams[0]] + streams[1..];
    }
  }

  // --- one call, one stream ----------------------------------------------------------------------

  predicate HasOpen(e: Endpoint, stream: u16) {
    stream in e.channels && e.channels[stream].state == Open
  }

  /** The resets of a stream a call leaves pending or gets accepted: those pending before, and what it asks for. */
  lemma ResetsPassedOn(e: Endpoint, call: Call, stream: u16)
    ensures var e' := Next(Drained(e), call);
            multiset(e'.pendingResets)[stream] + Count(Output(e'), ResetsOf(stream)) ==
            multiset(e.pendingResets)[stream] + multiset(Asked(e, call))[stream]
  {
    hide Next, Asked, Count, Packets, ResetNotices;
    var e' := Next(Drained(e), call);
    NextExtendsLedger(Drained(e), call);
    AskedOfDrained(e, call);
    Occurrences(Flatten(e'.resetCalls), e'.pendingResets, stream);
    Occurrences([], e.pendingResets, stream);
    Occurrences(e.pendingResets, Asked(e, call), stream);
    CountConcatenation(Packets(e'.sent), ResetNotices(Flatten(e'.resetCalls)), ResetsOf(stream));
    CountPackets(e'.sent, stream);
    CountNotices(Flatten(e'.resetCalls), stream);
  }

  lemma Occurrences(x: seq<u16>, y: seq<u16>, stream: u16)
    ensures multiset(x + y)[stream] == multiset(x)[stream] + multiset(y)[stream]
  {
    assert multiset(x + y) == multiset(x) + multiset(y);
  }

  lemma AskedOfDrained(e: Endpoint, call: Call)
    ensures Asked(Drained(e), call) == Asked(e, call)
  {
  }

  /** The stream a call opens for the other side to see, if any. */
  function Opened(e: Endpoint, call: Call): Option<u16> {
    if call.Creates? && Allocate(e).Ok? && e.state == Connected then Some(Allocate(e).value) else None
  }

  lemma OpensPassedOn(e: Endpoint, call: Call, stream: u16)
    ensures Count(Output(Next(Drained(e), call)), OpensOf(stream)) == if Opened(e, call) == Some(stream) then 1 else 0
  {
    hide Count, Packets, ResetNotices, Flatten, Allocate, RetireAll;
    var e' := Next(Drained(e), call);
    CountConcatenation(Packets(e'.sent), ResetNotices(Flatten(e'.resetCalls)), OpensOf(stream));
    CountNotices(Flatten(e'.resetCalls), stream);
    CountPackets(e'.sent, stream);
    SentByCall(e, call);
    if Opened(e, call).Some? {
      CountOne(e'.sent);
    }
  }

  lemma CountOne(sent: seq<Packet>)
    requires |sent| == 1 && sent[0].message.OpenRequest?
    ensures forall stream :: Count(Packets(sent), OpensOf(stream)) == if stream == sent[0].stream then 1 else 0
  {
    forall stream ensures Count(Packets(sent), OpensOf(stream)) == if stream == sent[0].stream then 1 else 0 {
      assert Packets(sent) == [Carries(sent[0].stream, sent[0].message)];
    }
  }

  lemma SentByCall(e: Endpoint, call: Call)
    ensures var sent := Next(Drained(e), call).sent;
            if Opened(e, call).Some? then
              |sent| == 1 && sent[0].message.OpenRequest? && sent[0].stream == Opened(e, call).value
            else forall k :: 0 <= k < |sent| ==> !sent[k].message.OpenRequest?
  {
    hide RetireAll, NextFree;
    if call.IsReset? {
      RetireAllKeepsSent(Drained(e), call.streams);
    }
  }

  /** `gone` is the transfer whose arrival the call is, if it is one. */
  predicate Explains(gone: Option<Transfer>, call: Call) {
    match gone
    case None => Spontaneous(call)
    case Some(Carries(stream, message)) => call.Receives? && call.stream == stream && call.message == message
    case Some(Resets(stream)) => call.IsReset? && call.flags == ResetFlags(false, false, true) && call.streams == [stream]
  }

  predicate Removes(gone: Option<Transfer>, query: Query) {
    gone.Some? && Answers(gone.value, query)
  }

  function One(b: bool): nat {
    if b then 1 else 0
  }

  lemma RoleStays(e: Endpoint, call: Call)
    requires e.role.configured
    ensures Next(Drained(e), call).role == e.role
  {
    hide RetireAll, Allocate;
    if call.IsReset? {
      RetireAllShrinks(Drained(e), call.streams);
    }
  }

  lemma RetireOne(e: Endpoint, stream: u16)
    ensures RetireAll(e, [stream]) == Retire(e, stream)
  {
    assert RetireAll(Retire(e, stream), [stream][1..]) == Retire(e, stream);
  }

  lemma AllocatesOwnFreeStream(e: Endpoint)
    ensures Allocate(e).Ok? ==> Owns(e.role.dtlsRoleClient, Allocate(e).value) && Allocate(e).value !in e.channels
  {
    NextFreeIsLeast(e.channels, if e.role.dtlsRoleClient then 0 else 1);
    hide NextFree;
  }

  lemma DrainedAllocates(e: Endpoint)
    ensures Allocate(Drained(e)) == Allocate(e)
  {
  }

  /** What a call does to a stream of the acting end's own. */
  lemma OwnStreamAfter(e: Endpoint, call: Call, gone: Option<Transfer>, stream: u16)
    requires Owns(e.role.dtlsRoleClient, stream) && Explains(gone, call) && !Removes(gone, OpensOf(stream))
    ensures var e' := Next(Drained(e), call);
            && (Removes(gone, ResetsOf(stream)) ==> stream !in e'.channels)
            && (!Removes(gone, ResetsOf(stream)) && stream in e.channels ==> stream in e'.channels)
            && (Opened(e, call) == Some(stream) ==> stream !in e.channels && stream in e'.channels)
  {
    hide NextFree, Allocate, RetireAll;
    DrainedAllocates(e);
    AllocatesOwnFreeStream(e);
    if call.IsReset? && gone.Some? {
      RetireOne(Drained(e), call.streams[0]);
    }
  }

  /** What becomes of a stream of the other end's: it is opened there, and then closing or gone. */
  ghost predicate Shrinks(e: Endpoint, call: Call, gone: Option<Transfer>, stream: u16) {
    var e' := Next(Drained(e), call);
    && (stream in e'.channels ==> e'.channels[stream].state != Opening)
    && (stream in e'.channels && e'.channels[stream].state == Closed ==>
          stream in e.channels && e.channels[stream].state == Closed)
    && One(HasOpen(e', stream)) + multiset(Asked(e, call))[stream]
       <= One(HasOpen(e, stream)) + One(Removes(gone, OpensOf(stream)))
    && Opened(e, call) != Some(stream)
  }

  ghost predicate Theirs(e: Endpoint, stream: u16) {
    && e.role.configured && !Owns(e.role.dtlsRoleClient, stream)
    && (stream in e.channels ==> e.channels[stream].state != Opening)
  }

  lemma TheirStreamWhenReceiving(e: Endpoint, from: u16, message: Message, accepted: bool, stream: u16)
    requires Theirs(e, stream)
    requires from == stream && message.OpenRequest? ==> !HasOpen(e, stream)
    ensures Shrinks(e, Receives(from, message, accepted), Some(Carries(from, message)), stream)
  {
    match message
    case OpenRequest(config) =>
      hide Shrinks, Theirs;
      TheirStreamWhenOpened(e, from, config, accepted, stream);
    case _ =>
      hide CloseLocally, RequestReset, AddChannel;
  }

  lemma TheirStreamWhenOpened(e: Endpoint, from: u16, config: Config, accepted: bool, stream: u16)
    requires Theirs(e, stream) && (from == stream ==> !HasOpen(e, stream))
    ensures Shrinks(e, Receives(from, OpenRequest(config), accepted), Some(Carries(from, OpenRequest(config))), stream)
  {
  }

  lemma TheirStreamWhenReset(e: Endpoint, call: Call, gone: Option<Transfer>, stream: u16)
    requires Theirs(e, stream) && Explains(gone, call) && call.IsReset?
    ensures Shrinks(e, call, gone, stream)
  {
    hide RetireAll;
    if gone.Some? {
      RetireOne(Drained(e), call.streams[0]);
    }
  }

  lemma TheirStreamAfter(e: Endpoint, call: Call, gone: Option<Transfer>, stream: u16)
    requires Theirs(e, stream) && Explains(gone, call)
    requires Removes(gone, OpensOf(stream)) ==> !HasOpen(e, stream)
    ensures Shrinks(e, call, gone, stream)
  {
    match call
    case Receives(from, message, accepted) =>
      hide Shrinks, Theirs;
      TheirStreamWhenReceiving(e, from, message, accepted, stream);
    case IsReset(_, _, _) =>
      hide Shrinks, Theirs;
      TheirStreamWhenReset(e, call, gone, stream);
    case Creates(_) =>
      hide NextFree, Allocate;
      DrainedAllocates(e);
      AllocatesOwnFreeStream(e);
    case Closes(from, accepted) =>
      hide Shrinks, Theirs;
      TheirStreamWhenClosing(e, from, accepted, stream);
    case _ =>
      hide CloseLocally, Receive, HandleReset, Allocate;
  }

  lemma TheirStreamWhenClosing(e: Endpoint, from: u16, accepted: bool, stream: u16)
    requires Theirs(e, stream)
    ensures Shrinks(e, Closes(from, accepted), None, stream)
  {
  }

  // --- the inductive invariant -------------------------------------------------------------------

  /**
   * All there is of one incarnation of a stream outside its owner: the request to open it, the other end's open
   * channel, or the other end's wish to reset it.
   */
  function Shares(peer: Endpoint, toPeer: seq<Transfer>, toOwner: seq<Transfer>, stream: u16): nat {
    Count(toPeer, OpensOf(stream)) + One(HasOpen(peer, stream))
    + multiset(peer.pendingResets)[stream] + Count(toOwner, ResetsOf(stream))
  }

  /**
   * What the other end has on a stream: a channel it has accepted, or one it made before it knew its role, while the owner
   * has made one there too and can never open another.
   */
  predicate HeldByPeer(owner: Endpoint, peer: Endpoint, shares: nat, stream: u16) {
    stream in peer.channels ==>
      || peer.channels[stream].state in {Open, Closing}
      || (peer.channels[stream].state == Closed && stream in owner.channels && shares == 0)
  }

  /** At most one such thing for a stream its owner has taken, nothing for a free one; nobody else opens the stream. */
  predicate Held(owner: Endpoint, peer: Endpoint, toPeer: seq<Transfer>, toOwner: seq<Transfer>, stream: u16) {
    Owns(owner.role.dtlsRoleClient, stream) ==>
      && Shares(peer, toPeer, toOwner, stream) <= One(stream in owner.channels)
      && Count(toOwner, OpensOf(stream)) == 0
      && HeldByPeer(owner, peer, Shares(peer, toPeer, toOwner, stream), stream)
  }

  predicate OppositeRoles(a: Endpoint, b: Endpoint) {
    a.role.configured && b.role.configured && a.role.dtlsRoleClient != b.role.dtlsRoleClient
  }

  ghost predicate Coherent(s: System) {
    && OppositeRoles(s.a, s.b)
    && forall stream: u16 :: Held(s.a, s.b, s.toB, s.toA, stream) && Held(s.b, s.a, s.toA, s.toB, stream)
  }

  /** The acting end is the stream's owner. */
  lemma OwnerActs(s: System, call: Call, gone: Option<Transfer>, stream: u16)
    requires Owns(s.a.role.dtlsRoleClient, stream) && s.a.role.configured && Explains(gone, call)
    requires Shares(s.b, s.toB, s.toA, stream) + One(Removes(gone, ResetsOf(stream))) <= One(stream in s.a.channels)
    requires Count(s.toA, OpensOf(stream)) == 0 && !Removes(gone, OpensOf(stream))
    requires HeldByPeer(s.a, s.b, Shares(s.b, s.toB, s.toA, stream) + One(Removes(gone, ResetsOf(stream))), stream)
    ensures var s' := Act(s, call); Held(s'.a, s'.b, s'.toB, s'.toA, stream)
  {
    hide Next, Allocate, Output, Explains, Answers, Count;
    RoleStays(s.a, call);
    OwnStreamAfter(s.a, call, gone, stream);
    OpensPassedOn(s.a, call, stream);
    CountConcatenation(s.toB, Output(Next(Drained(s.a), call)), OpensOf(stream));
  }

  /** What becomes of the shares of a stream of the other end's. */
  lemma SharesShrink(s: System, call: Call, gone: Option<Transfer>, stream: u16)
    requires Theirs(s.a, stream) && Explains(gone, call)
    requires Removes(gone, OpensOf(stream)) ==> !HasOpen(s.a, stream)
    ensures var s' := Act(s, call);
            && Shares(s'.a, s'.toA, s'.toB, stream)
               <= Shares(s.a, s.toA, s.toB, stream) + One(Removes(gone, OpensOf(stream)))
            && Count(s'.toB, OpensOf(stream)) == Count(s.toB, OpensOf(stream))
            && (stream in s'.a.channels ==> s'.a.channels[stream].state != Opening)
            && (stream in s'.a.channels && s'.a.channels[stream].state == Closed ==>
                  stream in s.a.channels && s.a.channels[stream].state == Closed)
  {
    hide Next, Allocate, Output, Explains, Answers, Count, Asked, Theirs;
    TheirStreamAfter(s.a, call, gone, stream);
    OpensPassedOn(s.a, call, stream);
    ResetsPassedOn(s.a, call, stream);
    CountConcatenation(s.toB, Output(Next(Drained(s.a), call)), OpensOf(stream));
    CountConcatenation(s.toB, Output(Next(Drained(s.a), call)), ResetsOf(stream));
  }

  /** The other end is the stream's owner. */
  lemma PeerActs(s: System, call: Call, gone: Option<Transfer>, stream: u16)
    requires OppositeRoles(s.a, s.b) && Owns(s.b.role.dtlsRoleClient, stream) && Explains(gone, call)
    requires Shares(s.a, s.toA, s.toB, stream) + One(Removes(gone, OpensOf(stream))) <= One(stream in s.b.channels)
    requires Count(s.toB, OpensOf(stream)) == 0
    requires HeldByPeer(s.b, s.a, Shares(s.a, s.toA, s.toB, stream) + One(Removes(gone, OpensOf(stream))), stream)
    ensures var s' := Act(s, call); Held(s'.b, s'.a, s'.toA, s'.toB, stream)
  {
    HasOpenIsShare(s.a, s.toA, s.toB, stream);
    SharesShrink(s, call, gone, stream);
    ActKeepsRest(s, call);
    hide Act, Shares, Explains, Count, Answers;
  }

  lemma HasOpenIsShare(peer: Endpoint, toPeer: seq<Transfer>, toOwner: seq<Transfer>, stream: u16)
    ensures HasOpen(peer, stream) ==> Shares(peer, toPeer, toOwner, stream) >= 1
  {
  }

  /** The system once a transfer is off the way, and the call its arrival makes. */
  function Departed(s: System, move: Move): (System, Option<Transfer>)
    requires Enabled(s, move)
  {
    match move
    case Does(_) => (s, None)
    case Delivered(at, _) => (s.(toA := Removed(s.toA, at)), Some(s.toA[at]))
    case Lost(at) => (s.(toA := Removed(s.toA, at)), None)
  }

  lemma DepartedCounts(s: System, move: Move, stream: u16)
    requires Enabled(s, move)
    ensures var (s', gone) := Departed(s, move);
            && Count(s'.toA, OpensOf(stream)) + One(Removes(gone, OpensOf(stream))) <= Count(s.toA, OpensOf(stream))
            && Count(s'.toA, ResetsOf(stream)) + One(Removes(gone, ResetsOf(stream))) <= Count(s.toA, ResetsOf(stream))
  {
    hide Count, Removed, Allowed;
    if !move.Does? {
      CountRemoved(s.toA, move.at, OpensOf(stream));
      CountRemoved(s.toA, move.at, ResetsOf(stream));
    }
  }

  function CallOf(s: System, move: Move): Option<Call>
    requires Enabled(s, move)
  {
    match move
    case Does(call) => Some(call)
    case Delivered(at, accepted) => Some(Arrival(s.toA[at], accepted))
    case Lost(_) => None
  }

  lemma MoveIsAct(s: System, move: Move)
    requires Enabled(s, move)
    ensures MoveA(s, move) == if CallOf(s, move).Some? then Act(Departed(s, move).0, CallOf(s, move).value)
                              else Departed(s, move).0
    ensures CallOf(s, move).Some? ==> Explains(Departed(s, move).1, CallOf(s, move).value)
  {
    hide Act;
  }

  lemma StreamStaysHeld(s: System, move: Move, stream: u16)
    requires OppositeRoles(s.a, s.b) && Enabled(s, move)
    requires Held(s.a, s.b, s.toB, s.toA, stream) && Held(s.b, s.a, s.toA, s.toB, stream)
    ensures var s' := MoveA(s, move);
            Held(s'.a, s'.b, s'.toB, s'.toA, stream) && Held(s'.b, s'.a, s'.toA, s'.toB, stream)
  {
    hide Count, Act, Enabled, MoveA, Explains, Departed, CallOf;
    MoveIsAct(s, move);
    DepartedCounts(s, move, stream);
    DepartedKeepsEnds(s, move);
    var call := CallOf(s, move);
    var (departed, gone) := Departed(s, move);
    if call.Some? {
      ActKeepsRest(departed, call.value);
      if Owns(s.a.role.dtlsRoleClient, stream) {
        OwnerActs(departed, call.value, gone, stream);
      } else {
        PeerActs(departed, call.value, gone, stream);
      }
    }
  }

  lemma DepartedKeepsEnds(s: System, move: Move)
    requires Enabled(s, move)
    ensures Departed(s, move).0.a == s.a && Departed(s, move).0.b == s.b && Departed(s, move).0.toB == s.toB
  {
  }

  lemma ActKeepsRest(s: System, call: Call)
    requires s.a.role.configured
    ensures Act(s, call).a.role == s.a.role && Act(s, call).b == s.b && Act(s, call).toA == s.toA
  {
    RoleStays(s.a, call);
  }

  lemma MoveCoheres(s: System, move: Move)
    requires Coherent(s) && Enabled(s, move)
    ensures Coherent(MoveA(s, move))
  {
    hide Held, Enabled;
    forall stream: u16
      ensures var s' := MoveA(s, move);
              Held(s'.a, s'.b, s'.toB, s'.toA, stream) && Held(s'.b, s'.a, s'.toA, s'.toB, stream)
    {
      StreamStaysHeld(s, move, stream);
    }
    hide MoveA, Act, CallOf, Departed;
    MoveIsAct(s, move);
    DepartedKeepsEnds(s, move);
    if CallOf(s, move).Some? {
      ActKeepsRest(Departed(s, move).0, CallOf(s, move).value);
    }
  }

  lemma CoherentBothWays(s: System)
    requires Coherent(s)
    ensures Coherent(Swap(s))
  {
    hide Held;
  }

  lemma {:induction false} RunCoheres(s: System, moves: seq<(bool, Move)>)
    requires Coherent(s) && AfterMoves(s, moves).Some?
    ensures Coherent(AfterMoves(s, moves).value)
    decreases |moves|
  {
    hide Coherent, MoveA, Enabled;
    if moves != [] {
      RunCoheres(s, moves[..|moves| - 1]);
      var before, move := AfterMoves(s, moves[..|moves| - 1]).value, moves[|moves| - 1];
      if move.0 {
        MoveCoheres(before, move.1);
      } else {
        CoherentBothWays(before);
        MoveCoheres(Swap(before), move.1);
        CoherentBothWays(MoveA(Swap(before), move.1));
      }
    }
  }

  // --- main results ------------------------------------------------------------------------------

  /** Two ends whose roles a negotiation has fixed, with whatever channels they have made before. */
  ghost predicate Described(s: System) {
    OppositeRoles(s.a, s.b) && Waiting(s.a) && Waiting(s.b) && s.toA == [] && s.toB == []
  }

  /** A request to open is on its sender's own stream; it is accepted, or meets a channel the receiver itself is closing. */
  ghost predicate OpensWell(s: System) {
    forall at :: 0 <= at < |s.toA| && s.toA[at].Carries? && s.toA[at].message.OpenRequest? ==>
      OpensWellOn(s, s.toA[at].stream, s.toA[at].message.config)
  }

  ghost predicate OpensWellOn(s: System, stream: u16, config: Config) {
    && Owns(s.b.role.dtlsRoleClient, stream) && stream in s.b.channels
    && forall accepted ::
         var (handle, a') := Receive(s.a, stream, OpenRequest(config), accepted);
         && (handle.Some? <==> stream !in s.a.channels)
         && (stream in s.a.channels ==> s.a.channels[stream].state == Closing && a' == s.a)
  }

  /** No channel of `holder` is on a stream that only the other end may open and has not taken itself. */
  ghost predicate NoStray(holder: Endpoint, owner: Endpoint) {
    forall stream :: stream in holder.channels ==>
      Owns(holder.role.dtlsRoleClient, stream) || stream in owner.channels
  }

  lemma StartCoheres(s: System)
    requires Described(s) && NoStray(s.a, s.b) && NoStray(s.b, s.a)
    ensures Coherent(s)
  {
  }

  lemma CoherentOpensWell(s: System)
    requires Coherent(s)
    ensures OpensWell(s)
  {
    forall at | 0 <= at < |s.toA| && s.toA[at].Carries? && s.toA[at].message.OpenRequest?
      ensures OpensWellOn(s, s.toA[at].stream, s.toA[at].message.config)
    {
      var stream := s.toA[at].stream;
      CountRemoved(s.toA, at, OpensOf(stream));
      hide Count;
      assert Held(s.b, s.a, s.toA, s.toB, stream) && Held(s.a, s.b, s.toB, s.toA, stream);
    }
  }

  // --- a stray channel always gets in the way of a request ---------------------------------------

  lemma {:induction false} RunsJoin(s: System, x: seq<(bool, Move)>, y: seq<(bool, Move)>)
    requires AfterMoves(s, x).Some?
    ensures AfterMoves(s, x + y) == AfterMoves(AfterMoves(s, x).value, y)
    decreases |y|
  {
    hide MoveA, Enabled;
    if y == [] {
      assert x + y == x;
    } else {
      RunsJoin(s, x, y[..|y| - 1]);
      assert (x + y)[..|x + y| - 1] == x + y[..|y| - 1];
    }
  }

  lemma OneMove(s: System, atA: bool, move: Move)
    requires EnabledAt(s, atA, move)
    ensures AfterMoves(s, [(atA, move)]) == Some(NextOf(s, atA, move))
  {
    hide MoveA, Enabled;
    assert [(atA, move)][..0] == [];
  }

  /** The same run with the ends exchanged. */
  function Exchanged(moves: seq<(bool, Move)>): seq<(bool, Move)> {
    seq(|moves|, k requires 0 <= k < |moves| => (!moves[k].0, moves[k].1))
  }

  lemma {:induction false} ExchangedRun(s: System, moves: seq<(bool, Move)>)
    requires AfterMoves(s, moves).Some?
    ensures AfterMoves(Swap(s), Exchanged(moves)) == Some(Swap(AfterMoves(s, moves).value))
    decreases |moves|
  {
    hide MoveA, Enabled;
    if moves != [] {
      ExchangedRun(s, moves[..|moves| - 1]);
      assert Exchanged(moves)[..|moves| - 1] == Exchanged(moves[..|moves| - 1]);
    }
  }

  /** The first end holds a dead channel on a free stream of the second end's, which is connected. */
  ghost predicate Strays(s: System, stream: u16) {
    && stream in s.a.channels && s.a.channels[stream].state == Closed
    && Owns(s.b.role.dtlsRoleClient, stream) && stream < MAX_CHANNELS * 2
    && s.b.state == Connected && stream !in s.b.channels
  }

  const ANY_CONFIG := Config(Reliable, 0, "", "")

  /** Creating a channel takes a stream at most this one, and asks for it. */
  lemma CreatesUpTo(s: System, stream: u16) returns (taken: u16)
    requires Strays(s, stream)
    ensures taken <= stream && Owns(s.b.role.dtlsRoleClient, taken) && taken !in s.b.channels
    ensures forall t: u16 :: t < taken && Owns(s.b.role.dtlsRoleClient, t) ==> t in s.b.channels
    ensures var s' := NextOf(s, false, Does(Creates(ANY_CONFIG)));
            && s'.a == s.a && s'.b.role == s.b.role && s'.b.state == Connected
            && s'.b.channels.Keys == s.b.channels.Keys + {taken}
            && s'.toA == s.toA + [Carries(taken, OpenRequest(ANY_CONFIG))]
  {
    var first: u16 := if s.b.role.dtlsRoleClient then 0 else 1;
    NextFreeIsLeast(s.b.channels, first);
    assert forall t: u16 :: Owns(s.b.role.dtlsRoleClient, t) <==> first <= t && t % 2 == first % 2;
    hide NextFree;
    taken := NextFree(s.b.channels, first).value;
    DrainedAllocates(s.b);
    assert Flatten([]) == [];
  }

  /** How many steps of two the second end has still to take. */
  ghost function Gap(s: System, stream: u16): nat {
    var first: u16 := if s.b.role.dtlsRoleClient then 0 else 1;
    var free := NextFree(s.b.channels, first);
    if free.Some? && free.value <= stream then stream - free.value else 0
  }

  lemma {:induction false} StrayIsHit(s: System, stream: u16) returns (moves: seq<(bool, Move)>)
    requires Strays(s, stream)
    ensures AfterMoves(s, moves).Some? && !OpensWell(AfterMoves(s, moves).value)
    decreases Gap(s, stream)
  {
    var taken := CreatesUpTo(s, stream);
    var create: (bool, Move) := (false, Does(Creates(ANY_CONFIG)));
    var next := NextOf(s, false, create.1);
    OneMove(s, false, create.1);
    hide AfterMoves, NextOf;
    if taken == stream {
      moves := [create];
      var last := |next.toA| - 1;
      assert next.toA[last] == Carries(stream, OpenRequest(ANY_CONFIG));
      var dropped := Receive(next.a, stream, OpenRequest(ANY_CONFIG), true);
      assert !OpensWellOn(next, stream, ANY_CONFIG);
    } else {
      NextGapIsSmaller(s, next, stream, taken);
      var rest := StrayIsHit(next, stream);
      RunsJoin(s, [create], rest);
      moves := [create] + rest;
    }
  }

  lemma NextGapIsSmaller(s: System, next: System, stream: u16, taken: u16)
    requires Strays(s, stream) && taken < stream && taken !in s.b.channels && Owns(s.b.role.dtlsRoleClient, taken)
    requires forall t: u16 :: t < taken && Owns(s.b.role.dtlsRoleClient, t) ==> t in s.b.channels
    requires next.b.role == s.b.role && next.b.channels.Keys == s.b.channels.Keys + {taken}
    ensures Gap(next, stream) < Gap(s, stream)
  {
    var first: u16 := if s.b.role.dtlsRoleClient then 0 else 1;
    NextFreeIsLeast(s.b.channels, first);
    NextFreeIsLeast(next.b.channels, first);
    assert forall t: u16 :: Owns(s.b.role.dtlsRoleClient, t) <==> first <= t && t % 2 == first % 2;
    hide NextFree;
    assert stream !in next.b.channels;
  }

  /** An end connects; nothing else changes. */
  lemma EndConnects(s: System)
    requires s.a.state == Disconnected && s.a.role.configured
    ensures Enabled(s, Does(Connects))
    ensures var s' := MoveA(s, Does(Connects));
            && Enabled(s', Does(ComesUp))
            && MoveA(s', Does(ComesUp)) == s.(a := Drained(s.a).(state := Connected))
  {
    assert Flatten([]) == [];
  }

  const CONNECTING_A: seq<(bool, Move)> := [(true, Does(Connects)), (true, Does(ComesUp))]

  lemma FirstConnects(s: System)
    requires s.a.state == Disconnected && s.a.role.configured
    ensures AfterMoves(s, CONNECTING_A) == Some(s.(a := Drained(s.a).(state := Connected)))
  {
    EndConnects(s);
    OneMove(s, true, Does(Connects));
    var s1 := NextOf(s, true, Does(Connects));
    OneMove(s1, true, Does(ComesUp));
    hide AfterMoves, MoveA, Enabled, Drained;
    RunsJoin(s, [(true, Does(Connects))], [(true, Does(ComesUp))]);
    assert [(true, Does(Connects))] + [(true, Does(ComesUp))] == CONNECTING_A;
  }

  /** Both ends connect. */
  lemma Connect(s: System) returns (moves: seq<(bool, Move)>)
    requires Described(s)
    ensures AfterMoves(s, moves)
         == Some(s.(a := Drained(s.a).(state := Connected), b := Drained(s.b).(state := Connected)))
  {
    hide AfterMoves, Drained;
    FirstConnects(s);
    var s1 := AfterMoves(s, CONNECTING_A).value;
    FirstConnects(Swap(s1));
    ExchangedRun(Swap(s1), CONNECTING_A);
    RunsJoin(s, CONNECTING_A, Exchanged(CONNECTING_A));
    moves := CONNECTING_A + Exchanged(CONNECTING_A);
  }

  lemma StrayBreaksRun(s: System) returns (moves: seq<(bool, Move)>)
    requires Described(s) && !NoStray(s.a, s.b)
    ensures AfterMoves(s, moves).Some? && !OpensWell(AfterMoves(s, moves).value)
  {
    hide AfterMoves, OpensWell;
    var stream :| stream in s.a.channels && !Owns(s.a.role.dtlsRoleClient, stream) && stream !in s.b.channels;
    var connecting := Connect(s);
    var rest := StrayIsHit(AfterMoves(s, connecting).value, stream);
    RunsJoin(s, connecting, rest);
    moves := connecting + rest;
  }

  /**
   * Over every run from two described ends, whatever is delayed, reordered or lost: each request to open a channel is on
   * its sender's own stream, closes no channel, and is accepted exactly when its stream is free, which it is unless the
   * receiver itself is closing a channel there. This holds exactly when no channel made before the roles were known is
   * on a stream that the other end may still take.
   */
  lemma OpenIsAcceptedExactlyWhenFree(s: System)
    requires Described(s)
    ensures (NoStray(s.a, s.b) && NoStray(s.b, s.a))
            <==> forall moves :: AfterMoves(s, moves).Some? ==>
                   OpensWell(AfterMoves(s, moves).value) && OpensWell(Swap(AfterMoves(s, moves).value))
  {
    hide AfterMoves, OpensWell, Coherent, NoStray, Described;
    if NoStray(s.a, s.b) && NoStray(s.b, s.a) {
      StartCoheres(s);
      forall moves | AfterMoves(s, moves).Some?
        ensures OpensWell(AfterMoves(s, moves).value) && OpensWell(Swap(AfterMoves(s, moves).value))
      {
        RunCoheres(s, moves);
        CoherentOpensWell(AfterMoves(s, moves).value);
        CoherentBothWays(AfterMoves(s, moves).value);
        CoherentOpensWell(Swap(AfterMoves(s, moves).value));
      }
    } else if !NoStray(s.a, s.b) {
      var moves := StrayBreaksRun(s);
    } else {
      assert Described(Swap(s)) by { DescribedBothWays(s); }
      var moves := StrayBreaksRun(Swap(s));
      ExchangedRun(Swap(s), moves);
      assert Swap(Swap(s)) == s && Swap(Swap(AfterMoves(Swap(s), moves).value)) == AfterMoves(Swap(s), moves).value;
      assert AfterMoves(s, Exchanged(moves)).Some?;
    }
  }

  lemma DescribedBothWays(s: System)
    requires Described(s)
    ensures Described(Swap(s))
  {
  }
}
