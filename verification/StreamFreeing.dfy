/**
 * When a stream comes free for another channel: only the other end of the association can free it, and a request to open
 * it again can be lost (src/application.rs, section 6.7 of RFC 8831).
 */
module StreamFreeing {
  import opened Prelude
  import opened DataChannels
  import opened DataChannelRuns
  import opened DataChannelPeers
  import Negotiation

  // --- nothing frees a stream but the other end --------------------------------------------------

  /** Whether the second end's application closes this stream in the move. */
  predicate ClosesThere(move: (bool, Move), stream: u16) {
    !move.0 && move.1.Does? && move.1.call.Closes? && move.1.call.stream == stream
  }

  /** No reset of the stream is wanted or under way. */
  predicate NoReset(s: System, stream: u16) {
    multiset(s.b.pendingResets)[stream] == 0 && Count(s.toA, ResetsOf(stream)) == 0
  }

  lemma OwnMoveKeepsStream(s: System, move: Move, stream: u16)
    requires Coherent(s) && Enabled(s, move) && Owns(s.a.role.dtlsRoleClient, stream)
    requires stream in s.a.channels && NoReset(s, stream)
    ensures var s' := MoveA(s, move); stream in s'.a.channels && NoReset(s', stream)
  {
    hide Count, Act, Enabled, MoveA, Explains, Departed, CallOf, Held, Next;
    assert Held(s.a, s.b, s.toB, s.toA, stream);
    MoveIsAct(s, move);
    DepartedCounts(s, move, stream);
    DepartedKeepsEnds(s, move);
    var call := CallOf(s, move);
    var (departed, gone) := Departed(s, move);
    if call.Some? {
      ActKeepsRest(departed, call.value);
      NothingOpensOwn(s, gone, stream);
      OwnStreamAfter(s.a, call.value, gone, stream);
      ActsOnEnd(departed, call.value);
    }
  }

  lemma ActsOnEnd(s: System, call: Call)
    ensures Act(s, call).a == Drained(Next(Drained(s.a), call))
    ensures Act(s, call).toB == s.toB + Output(Next(Drained(s.a), call))
  {
  }

  lemma NothingOpensOwn(s: System, gone: Option<Transfer>, stream: u16)
    requires Held(s.a, s.b, s.toB, s.toA, stream) && Owns(s.a.role.dtlsRoleClient, stream)
    requires One(Removes(gone, OpensOf(stream))) <= Count(s.toA, OpensOf(stream))
    ensures !Removes(gone, OpensOf(stream))
  {
  }

  /** The second end moves: `s` is seen from its side. */
  lemma TheirMoveKeepsStream(s: System, move: Move, stream: u16)
    requires Coherent(s) && Enabled(s, move) && Owns(s.b.role.dtlsRoleClient, stream)
    requires stream in s.b.channels && NoReset(Swap(s), stream)
    requires !ClosesThere((false, move), stream) || !HasOpen(s.a, stream)
    ensures var s' := MoveA(s, move); stream in s'.b.channels && NoReset(Swap(s'), stream)
  {
    hide Count, Act, Enabled, MoveA, Explains, Departed, CallOf, Held, Next, Asked;
    assert Held(s.b, s.a, s.toA, s.toB, stream);
    MoveIsAct(s, move);
    DepartedCounts(s, move, stream);
    DepartedKeepsEnds(s, move);
    var call := CallOf(s, move);
    var (departed, gone) := Departed(s, move);
    if call.Some? {
      ActKeepsRest(departed, call.value);
      ActsOnEnd(departed, call.value);
      AsksNoReset(s, move, stream);
      ResetsPassedOn(s.a, call.value, stream);
      CountConcatenation(s.toB, Output(Next(Drained(s.a), call.value)), ResetsOf(stream));
    }
  }

  lemma AsksNoReset(s: System, move: Move, stream: u16)
    requires Coherent(s) && Enabled(s, move) && Owns(s.b.role.dtlsRoleClient, stream) && CallOf(s, move).Some?
    requires !ClosesThere((false, move), stream) || !HasOpen(s.a, stream)
    ensures multiset(Asked(s.a, CallOf(s, move).value))[stream] == 0
  {
    assert Held(s.b, s.a, s.toA, s.toB, stream);
    if move.Delivered? {
      CountRemoved(s.toA, move.at, OpensOf(stream));
    }
    hide Count;
  }

  /**
   * A stream is freed at the end that opened it only after the other end's application has closed it: closing a channel
   * at its opener alone leaves the stream taken for good.
   */
  lemma {:induction false} OnlyTheOtherEndFreesAStream(s: System, moves: seq<(bool, Move)>, stream: u16)
    requires Coherent(s) && AfterMoves(s, moves).Some? && Owns(s.a.role.dtlsRoleClient, stream)
    requires stream in s.a.channels && NoReset(s, stream)
    requires forall k :: 0 <= k < |moves| ==> !ClosesThere(moves[k], stream)
    ensures stream in AfterMoves(s, moves).value.a.channels && NoReset(AfterMoves(s, moves).value, stream)
    ensures AfterMoves(s, moves).value.a.role == s.a.role
    decreases |moves|
  {
    hide Coherent, MoveA, Enabled, NoReset, ClosesThere;
    if moves != [] {
      OnlyTheOtherEndFreesAStream(s, moves[..|moves| - 1], stream);
      RunCoheres(s, moves[..|moves| - 1]);
      var before, move := AfterMoves(s, moves[..|moves| - 1]).value, moves[|moves| - 1];
      if move.0 {
        OwnMoveKeepsStream(before, move.1, stream);
        MoveKeepsRoles(before, move.1);
      } else {
        CoherentBothWays(before);
        assert Swap(Swap(before)) == before;
        TheirMoveKeepsStream(Swap(before), move.1, stream);
        MoveKeepsRoles(Swap(before), move.1);
      }
    }
  }

  lemma MoveKeepsRoles(s: System, move: Move)
    requires Coherent(s) && Enabled(s, move)
    ensures MoveA(s, move).a.role == s.a.role && MoveA(s, move).b == s.b
  {
    hide Act, Held, MoveA, Departed, CallOf;
    MoveIsAct(s, move);
    DepartedKeepsEnds(s, move);
    if CallOf(s, move).Some? {
      ActKeepsRest(Departed(s, move).0, CallOf(s, move).value);
    }
  }

  // --- when a stream can be freed ----------------------------------------------------------------

  ghost predicate Frees(s: System, moves: seq<(bool, Move)>, stream: u16) {
    AfterMoves(s, moves).Some? && stream !in AfterMoves(s, moves).value.a.channels
  }

  lemma {:induction false} RunKeepsRoles(s: System, moves: seq<(bool, Move)>)
    requires Coherent(s) && AfterMoves(s, moves).Some?
    ensures AfterMoves(s, moves).value.a.role == s.a.role && AfterMoves(s, moves).value.b.role == s.b.role
    decreases |moves|
  {
    hide Coherent, MoveA, Enabled;
    if moves != [] {
      RunKeepsRoles(s, moves[..|moves| - 1]);
      RunCoheres(s, moves[..|moves| - 1]);
      var before, move := AfterMoves(s, moves[..|moves| - 1]).value, moves[|moves| - 1];
      if move.0 {
        MoveKeepsRoles(before, move.1);
      } else {
        CoherentBothWays(before);
        MoveKeepsRoles(Swap(before), move.1);
      }
    }
  }

  lemma {:induction false} CountFinds(transfers: seq<Transfer>, query: Query) returns (at: nat)
    requires Count(transfers, query) > 0
    ensures at < |transfers| && Answers(transfers[at], query)
  {
    if Answers(transfers[0], query) {
      at := 0;
    } else {
      at := CountFinds(transfers[1..], query);
      at := at + 1;
    }
  }

  /** What is open at the other end is held, with no reset of it anywhere. */
  lemma OpenThereIsHeld(s: System, stream: u16)
    requires Coherent(s) && Owns(s.a.role.dtlsRoleClient, stream) && HasOpen(s.b, stream)
    ensures stream in s.a.channels && NoReset(s, stream)
  {
    hide Count;
    assert Held(s.a, s.b, s.toB, s.toA, stream);
  }

  /** The first end can take notices: it is connected, or connects. */
  lemma Listens(s: System, stream: u16) returns (moves: seq<(bool, Move)>)
    requires Coherent(s) && stream in s.a.channels && HasOpen(s.b, stream)
    ensures AfterMoves(s, moves).Some?
    ensures var s' := AfterMoves(s, moves).value;
            s'.a.state != Disconnected && HasOpen(s'.b, stream) && stream in s'.a.channels
  {
    if s.a.state != Disconnected {
      moves := [];
    } else {
      OneMove(s, true, Does(Connects));
      assert MoveA(s, Does(Connects)).a.channels == s.a.channels;
      hide MoveA, Enabled;
      moves := [(true, Does(Connects))];
    }
  }

  /** The other end closes the stream's channel; all its pending resets go out with this one. */
  lemma CloseSendsReset(s: System, stream: u16)
    requires stream in s.a.channels && Live(s.a.channels[stream])
    ensures var s' := MoveA(s, Does(Closes(stream, true)));
            && Count(s'.toB, ResetsOf(stream)) > 0 && s'.b == s.b
            && Count(s'.toB, OpensOf(stream)) >= Count(s.toB, OpensOf(stream))
  {
    hide Count, Output;
    var output := Output(Next(Drained(s.a), Closes(stream, true)));
    ResetsPassedOn(s.a, Closes(stream, true), stream);
    CountConcatenation(s.toB, output, ResetsOf(stream));
    CountConcatenation(s.toB, output, OpensOf(stream));
    assert Next(Drained(s.a), Closes(stream, true)).pendingResets == [];
  }

  lemma NoticeFrees(s: System, at: nat, stream: u16)
    requires Owns(s.a.role.dtlsRoleClient, stream) && s.a.state != Disconnected
    requires at < |s.toA| && s.toA[at] == Resets(stream)
    ensures stream !in MoveA(s, Delivered(at, false)).a.channels
  {
    hide RetireAll, Output, Removed;
    OwnStreamAfter(s.a, Arrival(s.toA[at], false), Some(s.toA[at]), stream);
  }

  lemma OpenIsLive(e: Endpoint, stream: u16)
    requires HasOpen(e, stream)
    ensures stream in e.channels && Live(e.channels[stream])
  {
  }

  /** One close by the other end, once its notice arrives, frees the stream. */
  lemma CloseThereFrees(s: System, stream: u16) returns (moves: seq<(bool, Move)>)
    requires Coherent(s) && Owns(s.a.role.dtlsRoleClient, stream) && HasOpen(s.b, stream)
    ensures Frees(s, moves, stream)
  {
    OpenThereIsHeld(s, stream);
    hide Coherent, AfterMoves, MoveA, Count, NoReset, HasOpen;
    var listening := Listens(s, stream);
    RunCoheres(s, listening);
    RunKeepsRoles(s, listening);
    var s1 := AfterMoves(s, listening).value;
    var close: (bool, Move) := (false, Does(Closes(stream, true)));
    CoherentBothWays(s1);
    assert stream in s1.b.channels && Live(s1.b.channels[stream]) by { OpenIsLive(s1.b, stream); }
    CloseSendsReset(Swap(s1), stream);
    OneMove(s1, false, close.1);
    var s2 := NextOf(s1, false, close.1);
    var at := CountFinds(s2.toA, ResetsOf(stream));
    NoticeFrees(s2, at, stream);
    OneMove(s2, true, Delivered(at, false));
    ThreeRunsJoin(s, listening, s1, [close], s2, [(true, Delivered(at, false))]);
    moves := listening + ([close] + [(true, Delivered(at, false))]);
  }

  lemma ThreeRunsJoin(s: System, x: seq<(bool, Move)>, s1: System, y: seq<(bool, Move)>, s2: System, z: seq<(bool, Move)>)
    requires AfterMoves(s, x) == Some(s1) && AfterMoves(s1, y) == Some(s2)
    ensures AfterMoves(s, x + (y + z)) == AfterMoves(s2, z)
  {
    hide AfterMoves;
    RunsJoin(s1, y, z);
    RunsJoin(s, x, y + z);
  }

  /** The stream is reset at the opener's wish: its channel there can still be closed, or a reset is wanted or under way. */
  predicate CanReset(s: System, stream: u16) {
    || (stream in s.a.channels && Live(s.a.channels[stream]))
    || multiset(s.a.pendingResets)[stream] > 0 || Count(s.toB, ResetsOf(stream)) > 0
  }

  /**
   * The second end holds the stream open, or a request for it is under way and the second end has no channel there, or
   * one that the first end can still reset.
   */
  predicate CanOpenThere(s: System, stream: u16) {
    || HasOpen(s.b, stream)
    || (Count(s.toB, OpensOf(stream)) > 0 && (stream !in s.b.channels || CanReset(s, stream)))
  }

  ghost predicate Stuck(s: System, stream: u16) {
    && Coherent(s) && Owns(s.a.role.dtlsRoleClient, stream) && stream in s.a.channels && NoReset(s, stream)
    && !CanOpenThere(s, stream)
  }

  // --- a stuck stream stays stuck ----------------------------------------------------------------

  /** A dead channel on a stream of the end's own stays dead and asks for nothing. */
  lemma DeadAsksNothing(e: Endpoint, call: Call, gone: Option<Transfer>, stream: u16)
    requires Owns(e.role.dtlsRoleClient, stream) && Explains(gone, call) && !Removes(gone, OpensOf(stream))
    requires stream in e.channels && !Live(e.channels[stream])
    ensures var e' := Next(Drained(e), call);
            && multiset(Asked(e, call))[stream] == 0
            && (stream in e'.channels ==> !Live(e'.channels[stream]))
  {
    hide NextFree, Allocate, RetireAll;
    DrainedAllocates(e);
    AllocatesOwnFreeStream(e);
    if call.IsReset? && gone.Some? {
      RetireOne(Drained(e), call.streams[0]);
    }
  }

  lemma StuckAfterOwnMove(s: System, move: Move, stream: u16)
    requires Stuck(s, stream) && Enabled(s, move)
    ensures Stuck(MoveA(s, move), stream)
  {
    OwnMoveKeepsStream(s, move, stream);
    MoveCoheres(s, move);
    MoveKeepsRoles(s, move);
    assert Held(s.a, s.b, s.toB, s.toA, stream);
    hide Count, Act, Enabled, MoveA, Explains, Departed, CallOf, Held, Next, Asked, Coherent, NoReset, Opened, Live;
    MoveIsAct(s, move);
    DepartedCounts(s, move, stream);
    DepartedKeepsEnds(s, move);
    var call := CallOf(s, move);
    var (departed, gone) := Departed(s, move);
    if call.Some? {
      NothingOpensOwn(s, gone, stream);
      OwnStreamAfter(s.a, call.value, gone, stream);
      ActsOnEnd(departed, call.value);
      var output := Output(Next(Drained(s.a), call.value));
      OpensPassedOn(s.a, call.value, stream);
      CountConcatenation(s.toB, output, OpensOf(stream));
      ResetsPassedOn(s.a, call.value, stream);
      CountConcatenation(s.toB, output, ResetsOf(stream));
      if !Live(s.a.channels[stream]) {
        DeadAsksNothing(s.a, call.value, gone, stream);
      }
    }
  }

  /** A channel that is neither opening nor open stays so until it is reset. */
  lemma ClosingStays(e: Endpoint, call: Call, gone: Option<Transfer>, stream: u16)
    requires Theirs(e, stream) && Explains(gone, call) && stream in e.channels && !HasOpen(e, stream)
    requires !Removes(gone, ResetsOf(stream))
    ensures var e' := Next(Drained(e), call); stream in e'.channels && !HasOpen(e', stream)
  {
    hide NextFree, Allocate, RetireAll;
    DrainedAllocates(e);
    AllocatesOwnFreeStream(e);
    if call.IsReset? && gone.Some? {
      RetireOne(Drained(e), call.streams[0]);
    }
  }

  /** The second end moves: `s` is seen from its side. */
  lemma StuckAfterTheirMove(s: System, move: Move, stream: u16)
    requires Stuck(Swap(s), stream) && Enabled(s, move)
    ensures Stuck(Swap(MoveA(s, move)), stream)
  {
    CoherentBothWays(Swap(s));
    assert Swap(Swap(s)) == s;
    TheirMoveKeepsStream(s, move, stream);
    MoveCoheres(s, move);
    CoherentBothWays(MoveA(s, move));
    MoveKeepsRoles(s, move);
    assert Held(s.b, s.a, s.toA, s.toB, stream) && Theirs(s.a, stream);
    hide Count, Act, Enabled, MoveA, Explains, Departed, CallOf, Held, Next, Coherent, NoReset, Live, Asked, Theirs;
    MoveIsAct(s, move);
    DepartedCounts(s, move, stream);
    DepartedKeepsEnds(s, move);
    var call := CallOf(s, move);
    var (departed, gone) := Departed(s, move);
    if call.Some? {
      ActsOnEnd(departed, call.value);
      ActKeepsRest(departed, call.value);
      TheirStreamAfter(s.a, call.value, gone, stream);
      if stream in s.a.channels && !Removes(gone, ResetsOf(stream)) {
        ClosingStays(s.a, call.value, gone, stream);
      }
    }
  }

  lemma {:induction false} StuckForever(s: System, moves: seq<(bool, Move)>, stream: u16)
    requires Stuck(s, stream) && AfterMoves(s, moves).Some?
    ensures Stuck(AfterMoves(s, moves).value, stream)
    decreases |moves|
  {
    hide Stuck, MoveA, Enabled;
    if moves != [] {
      StuckForever(s, moves[..|moves| - 1], stream);
      var before, move := AfterMoves(s, moves[..|moves| - 1]).value, moves[|moves| - 1];
      if move.0 {
        StuckAfterOwnMove(before, move.1, stream);
      } else {
        assert Swap(Swap(before)) == before;
        StuckAfterTheirMove(Swap(before), move.1, stream);
      }
    }
  }

  // --- a stream that is not can be freed ---------------------------------------------------------

  /** The second end can take messages: it is connected, or connects. */
  lemma ListensThere(s: System, stream: u16) returns (moves: seq<(bool, Move)>)
    requires s.b.role.configured
    ensures AfterMoves(s, moves).Some?
    ensures var s' := AfterMoves(s, moves).value;
            && s'.b.state != Disconnected && s'.b.role == s.b.role && s'.b.channels == s.b.channels && s'.toB == s.toB
  {
    if s.b.state != Disconnected {
      moves := [];
    } else {
      OneMove(s, false, Does(Connects));
      assert MoveA(Swap(s), Does(Connects)).a.channels == s.b.channels;
      hide MoveA, Enabled;
      moves := [(false, Does(Connects))];
    }
  }

  ghost predicate OpensThere(s: System, moves: seq<(bool, Move)>, stream: u16) {
    AfterMoves(s, moves).Some? && HasOpen(AfterMoves(s, moves).value.b, stream)
  }

  lemma RequestOpens(s: System, at: nat, stream: u16)
    requires !Owns(s.a.role.dtlsRoleClient, stream) && s.a.state != Disconnected && stream !in s.a.channels
    requires at < |s.toA| && Answers(s.toA[at], OpensOf(stream))
    ensures HasOpen(MoveA(s, Delivered(at, true)).a, stream)
  {
    hide Output, Removed;
  }

  /** The request is delivered. */
  lemma DeliveryOpens(s: System, stream: u16) returns (moves: seq<(bool, Move)>)
    requires s.b.role.configured && !Owns(s.b.role.dtlsRoleClient, stream)
    requires stream !in s.b.channels && Count(s.toB, OpensOf(stream)) > 0
    ensures OpensThere(s, moves, stream)
  {
    hide AfterMoves, MoveA, Count, HasOpen;
    var listening := ListensThere(s, stream);
    var s1 := AfterMoves(s, listening).value;
    var at := CountFinds(s1.toB, OpensOf(stream));
    RequestOpens(Swap(s1), at, stream);
    OneMove(s1, false, Delivered(at, true));
    RunsJoin(s, listening, [(false, Delivered(at, true))]);
    moves := listening + [(false, Delivered(at, true))];
  }

  lemma NoticeRetires(s: System, at: nat, stream: u16)
    requires s.a.state != Disconnected && at < |s.toA| && s.toA[at] == Resets(stream)
    ensures var s' := MoveA(s, Delivered(at, true));
            && stream !in s'.a.channels && s'.a.role == s.a.role
            && Count(s'.toA, OpensOf(stream)) == Count(s.toA, OpensOf(stream))
  {
    RetireOne(Drained(s.a), stream);
    CountRemoved(s.toA, at, OpensOf(stream));
    hide RetireAll, Output, Removed, Count;
  }

  /** The reset is delivered, and then the request. */
  lemma ResetThenOpens(s: System, stream: u16) returns (moves: seq<(bool, Move)>)
    requires s.b.role.configured && !Owns(s.b.role.dtlsRoleClient, stream)
    requires Count(s.toB, ResetsOf(stream)) > 0 && Count(s.toB, OpensOf(stream)) > 0
    ensures OpensThere(s, moves, stream)
  {
    hide AfterMoves, MoveA, Count, HasOpen;
    var listening := ListensThere(s, stream);
    var s1 := AfterMoves(s, listening).value;
    var at := CountFinds(s1.toB, ResetsOf(stream));
    NoticeRetires(Swap(s1), at, stream);
    OneMove(s1, false, Delivered(at, true));
    var s2 := NextOf(s1, false, Delivered(at, true));
    var opening := DeliveryOpens(s2, stream);
    RunsJoin(s1, [(false, Delivered(at, true))], opening);
    RunsJoin(s, listening, [(false, Delivered(at, true))] + opening);
    moves := listening + ([(false, Delivered(at, true))] + opening);
  }

  const RETRY := Does(IsReset(ResetFlags(true, false, false), [], true))

  /** All pending resets go out. */
  lemma RetrySendsReset(s: System, stream: u16)
    requires s.a.state != Disconnected && multiset(s.a.pendingResets)[stream] > 0
    ensures Enabled(s, RETRY)
    ensures var s' := MoveA(s, RETRY);
            && Count(s'.toB, ResetsOf(stream)) > 0 && s'.b == s.b
            && Count(s'.toB, OpensOf(stream)) >= Count(s.toB, OpensOf(stream))
  {
    hide Count, Output;
    var output := Output(Next(Drained(s.a), RETRY.call));
    ResetsPassedOn(s.a, RETRY.call, stream);
    CountConcatenation(s.toB, output, ResetsOf(stream));
    CountConcatenation(s.toB, output, OpensOf(stream));
    assert Next(Drained(s.a), RETRY.call).pendingResets == [];
  }

  /** The first end connects if it has not; nothing else of it changes. */
  lemma ListensHere(s: System) returns (moves: seq<(bool, Move)>)
    requires s.a.role.configured
    ensures AfterMoves(s, moves).Some?
    ensures var s' := AfterMoves(s, moves).value;
            && s'.a.state != Disconnected && s'.a.pendingResets == s.a.pendingResets && s'.a.role == s.a.role
            && s'.b == s.b && s'.toA == s.toA && s'.toB == s.toB
  {
    if s.a.state != Disconnected {
      moves := [];
    } else {
      OneMove(s, true, Does(Connects));
      assert Flatten([]) == [];
      assert MoveA(s, Does(Connects)).toB == s.toB;
      hide MoveA, Enabled;
      moves := [(true, Does(Connects))];
    }
  }

  lemma RetryThenOpens(s: System, stream: u16) returns (moves: seq<(bool, Move)>)
    requires s.a.role.configured && s.b.role.configured && !Owns(s.b.role.dtlsRoleClient, stream)
    requires multiset(s.a.pendingResets)[stream] > 0 && Count(s.toB, OpensOf(stream)) > 0
    ensures OpensThere(s, moves, stream)
  {
    hide AfterMoves, MoveA, Count, HasOpen;
    var listening := ListensHere(s);
    var s1 := AfterMoves(s, listening).value;
    RetrySendsReset(s1, stream);
    OneMove(s1, true, RETRY);
    var opening := ResetThenOpens(NextOf(s1, true, RETRY), stream);
    RunsJoin(s1, [(true, RETRY)], opening);
    RunsJoin(s, listening, [(true, RETRY)] + opening);
    moves := listening + ([(true, RETRY)] + opening);
  }

  lemma CloseThenOpens(s: System, stream: u16) returns (moves: seq<(bool, Move)>)
    requires s.b.role.configured && !Owns(s.b.role.dtlsRoleClient, stream)
    requires stream in s.a.channels && Live(s.a.channels[stream]) && Count(s.toB, OpensOf(stream)) > 0
    ensures OpensThere(s, moves, stream)
  {
    hide AfterMoves, MoveA, Count, HasOpen;
    var close: (bool, Move) := (true, Does(Closes(stream, true)));
    CloseSendsReset(s, stream);
    OneMove(s, true, close.1);
    var opening := ResetThenOpens(NextOf(s, true, close.1), stream);
    RunsJoin(s, [close], opening);
    moves := [close] + opening;
  }

  lemma OpensThereIfPossible(s: System, stream: u16) returns (moves: seq<(bool, Move)>)
    requires Coherent(s) && Owns(s.a.role.dtlsRoleClient, stream) && CanOpenThere(s, stream)
    ensures OpensThere(s, moves, stream)
  {
    assert OppositeRoles(s.a, s.b);
    hide Coherent, Count, HasOpen;
    if HasOpen(s.b, stream) {
      moves := [];
    } else if stream !in s.b.channels {
      moves := DeliveryOpens(s, stream);
    } else if Count(s.toB, ResetsOf(stream)) > 0 {
      moves := ResetThenOpens(s, stream);
    } else if multiset(s.a.pendingResets)[stream] > 0 {
      moves := RetryThenOpens(s, stream);
    } else {
      moves := CloseThenOpens(s, stream);
    }
  }

  lemma NoticeArrives(s: System, stream: u16) returns (moves: seq<(bool, Move)>)
    requires s.a.role.configured && Owns(s.a.role.dtlsRoleClient, stream) && Count(s.toA, ResetsOf(stream)) > 0
    ensures Frees(s, moves, stream)
  {
    hide AfterMoves, MoveA, Count;
    var listening := ListensHere(s);
    var s1 := AfterMoves(s, listening).value;
    var at := CountFinds(s1.toA, ResetsOf(stream));
    NoticeFrees(s1, at, stream);
    OneMove(s1, true, Delivered(at, false));
    RunsJoin(s, listening, [(true, Delivered(at, false))]);
    moves := listening + [(true, Delivered(at, false))];
  }

  lemma PendingArrives(s: System, stream: u16) returns (moves: seq<(bool, Move)>)
    requires s.a.role.configured && s.b.role.configured && Owns(s.a.role.dtlsRoleClient, stream)
    requires multiset(s.b.pendingResets)[stream] > 0
    ensures Frees(s, moves, stream)
  {
    hide AfterMoves, MoveA, Count;
    var listening := ListensHere(Swap(s));
    ExchangedRun(Swap(s), listening);
    var s1 := Swap(AfterMoves(Swap(s), listening).value);
    assert Swap(Swap(s)) == s && Swap(s1) == AfterMoves(Swap(s), listening).value;
    RetrySendsReset(Swap(s1), stream);
    OneMove(s1, false, RETRY);
    var s2 := NextOf(s1, false, RETRY);
    var arriving := NoticeArrives(s2, stream);
    RunsJoin(s1, [(false, RETRY)], arriving);
    RunsJoin(s, Exchanged(listening), [(false, RETRY)] + arriving);
    moves := Exchanged(listening) + ([(false, RETRY)] + arriving);
  }

  /**
   * A stream taken at its opener can come free again exactly when the other end wants its reset or has sent it, holds the
   * stream open, or can still come to: the request is under way, to an end that has no channel there or one its opener can
   * still reset. Its opener's own closing never frees it.
   */
  lemma FreedExactlyWhenOtherEndCanClose(s: System, stream: u16)
    requires Coherent(s) && Owns(s.a.role.dtlsRoleClient, stream) && stream in s.a.channels
    ensures (exists moves :: Frees(s, moves, stream)) <==> !NoReset(s, stream) || CanOpenThere(s, stream)
  {
    assert OppositeRoles(s.a, s.b);
    hide Coherent, AfterMoves, HasOpen, CanOpenThere, Count;
    if Count(s.toA, ResetsOf(stream)) > 0 {
      var moves := NoticeArrives(s, stream);
    } else if !NoReset(s, stream) {
      var moves := PendingArrives(s, stream);
    } else if CanOpenThere(s, stream) {
      var opening := OpensThereIfPossible(s, stream);
      RunCoheres(s, opening);
      RunKeepsRoles(s, opening);
      var freeing := CloseThereFrees(AfterMoves(s, opening).value, stream);
      RunsJoin(s, opening, freeing);
      assert Frees(s, opening + freeing, stream);
    } else {
      forall moves ensures !Frees(s, moves, stream) {
        if AfterMoves(s, moves).Some? {
          StuckForever(s, moves, stream);
        }
      }
    }
  }

  function ConnectedEndpoint(client: bool): Endpoint {
    NewEndpoint().(role := Negotiation.Channels(client, true), state := Connected)
  }

  /** A run in which a stream is opened, closed by the other end, and opened again. */
  function Reopening(config: Config): seq<(bool, Move)> {
    [(true, Does(Creates(config))), (false, Delivered(0, true)), (true, Delivered(0, true)),
     (false, Does(Closes(0, true))), (true, Delivered(0, true)), (true, Does(Creates(config))),
     (false, Delivered(0, true))]
  }

  /** An end whose only channel is on stream 0. */
  function Stage(client: bool, made: u32, channels: map<u16, Channel>, retired: seq<Channel>): Endpoint {
    ConnectedEndpoint(client).(channels := channels, nextChannelId := made, retired := retired)
  }

  lemma CreatesFirst(s: System, config: Config, made: u32, retired: seq<Channel>)
    requires s.a == Stage(true, made, map[], retired) && made < 0xFFFF_FFFF && s.toB == []
    ensures MoveA(s, Does(Creates(config))) ==
            s.(a := Stage(true, made + 1, map[0 := Channel(Opening, config, made, [])], retired),
               toB := [Carries(0, OpenRequest(config))])
  {
    assert Allocate(Drained(s.a)) == Ok(0);
    assert Flatten([]) == [];
  }

  lemma AcceptsFirst(s: System, config: Config)
    requires s.a == Stage(false, 0, map[], []) && s.toA == [Carries(0, OpenRequest(config))] && s.toB == []
    ensures MoveA(s, Delivered(0, true)) ==
            s.(a := Stage(false, 1, map[0 := Channel(Open, config, 0, [])], []), toA := [], toB := [Carries(0, OpenAck)])
  {
    assert Flatten([]) == [];
  }

  lemma LearnsOpen(s: System, channel: Channel)
    requires s.a == Stage(true, 1, map[0 := channel], []) && channel.state == Opening
    requires s.toA == [Carries(0, OpenAck)] && s.toB == []
    ensures MoveA(s, Delivered(0, true)) == s.(a := Stage(true, 1, map[0 := ChangeState(channel, Open)], []), toA := [])
  {
    assert Flatten([]) == [];
  }

  lemma ClosesFirst(s: System, channel: Channel)
    requires s.a == Stage(false, 1, map[0 := channel], []) && channel.state == Open && s.toB == []
    ensures MoveA(s, Does(Closes(0, true))) ==
            s.(a := Stage(false, 1, map[0 := ChangeState(channel, Closing)], []), toB := [Resets(0)])
  {
    assert Flatten([[0]]) == [0] by { assert [[0]][..0] == []; }
  }

  lemma LearnsReset(s: System, channel: Channel)
    requires s.a == Stage(true, 1, map[0 := channel], []) && channel.state == Open && s.toA == [Resets(0)] && s.toB == []
    ensures MoveA(s, Delivered(0, true)) ==
            s.(a := Stage(true, 1, map[], [Notify(channel, StateChanged(Closed))]), toA := [])
  {
    RetireOne(s.a, 0);
    hide RetireAll;
    assert Flatten([]) == [];
  }

  lemma DropsSecond(s: System, channel: Channel, config: Config)
    requires s.a == Stage(false, 1, map[0 := channel], []) && channel.state == Closing
    requires s.toA == [Carries(0, OpenRequest(config))] && s.toB == []
    ensures MoveA(s, Delivered(0, true)) == s.(toA := [])
  {
    assert Flatten([]) == [];
  }

  /**
   * In this run a request to open is lost on a stream its opener rightly takes for free: the other end has closed the
   * stream's last channel and, its reset not being returned, goes on holding it. Nothing is under way in the end.
   */
  lemma ReopeningCanBeLost(config: Config)
    ensures var s := AfterMoves(System(ConnectedEndpoint(true), ConnectedEndpoint(false), [], []), Reopening(config));
            && s.Some? && s.value.toA == [] && s.value.toB == []
            && 0 in s.value.a.channels && s.value.a.channels[0].state == Opening
            && 0 in s.value.b.channels && s.value.b.channels[0].state == Closing
  {
    hide MoveA;
    var s0 := System(ConnectedEndpoint(true), ConnectedEndpoint(false), [], []);
    var moves := Reopening(config);
    var offered, open := Channel(Opening, config, 0, []), Channel(Open, config, 0, []);
    var s1 := MoveA(s0, moves[0].1);
    CreatesFirst(s0, config, 0, []);
    RunOneMore(s0, moves, 0, s0, s1);
    var s2 := Swap(MoveA(Swap(s1), moves[1].1));
    AcceptsFirst(Swap(s1), config);
    RunOneMore(s0, moves, 1, s1, s2);
    var s3 := MoveA(s2, moves[2].1);
    LearnsOpen(s2, offered);
    RunOneMore(s0, moves, 2, s2, s3);
    var s4 := Swap(MoveA(Swap(s3), moves[3].1));
    ClosesFirst(Swap(s3), open);
    RunOneMore(s0, moves, 3, s3, s4);
    var s5 := MoveA(s4, moves[4].1);
    LearnsReset(s4, ChangeState(offered, Open));
    RunOneMore(s0, moves, 4, s4, s5);
    var s6 := MoveA(s5, moves[5].1);
    CreatesFirst(s5, config, 1, s5.a.retired);
    RunOneMore(s0, moves, 5, s5, s6);
    var s7 := Swap(MoveA(Swap(s6), moves[6].1));
    DropsSecond(Swap(s6), ChangeState(open, Closing), config);
    RunOneMore(s0, moves, 6, s6, s7);
    assert moves[..7] == moves;
  }

  lemma RunOneMore(s: System, moves: seq<(bool, Move)>, count: nat, before: System, next: System)
    requires count < |moves| && AfterMoves(s, moves[..count]) == Some(before)
    requires EnabledAt(before, moves[count].0, moves[count].1) && NextOf(before, moves[count].0, moves[count].1) == next
    ensures AfterMoves(s, moves[..count + 1]) == Some(next)
  {
    assert moves[..count + 1][..count] == moves[..count];
  }
}
