/**
 * Which line a sender gets, and what it leaves behind: over every run of one end, each sender has a line of its own
 * (src/rtc.rs).
 */
module SenderLines {
  import opened Prelude
  import opened SortedKeySets
  import opened Negotiation
  import opened NegotiationInvariants
  import opened SendersHeard
  import opened StreamAgreement

  /** The line with this identifier has this sender and no other. */
  predicate IsHome(line: Line, id: nat, ssrc: u32) {
    line.id == id && line.localStreams == [ssrc]
  }

  ghost predicate HasHome(lines: seq<Line>, id: nat, ssrc: u32) {
    exists j :: 0 <= j < |lines| && IsHome(lines[j], id, ssrc)
  }

  predicate FreeOrHome(senders: map<u32, Sender>, line: Line) {
    || line.localStreams == []
    || (|line.localStreams| == 1 && line.localStreams[0] in senders && senders[line.localStreams[0]].line == line.id)
  }

  /** Senders and the lines that are not free belong together, one by one. */
  ghost predicate Housed(p: Peer) {
    && (forall ssrc :: ssrc in p.senders ==> HasHome(p.lines, p.senders[ssrc].line, ssrc))
    && (forall j :: 0 <= j < |p.lines| ==> FreeOrHome(p.senders, p.lines[j]))
  }

  // --- single steps ------------------------------------------------------------------------------

  /** Same senders on the same lines. */
  ghost predicate SameHomes(p: Peer, p': Peer) {
    && |p'.lines| == |p.lines|
    && (forall j :: 0 <= j < |p.lines| ==>
          p'.lines[j].id == p.lines[j].id && p'.lines[j].localStreams == p.lines[j].localStreams)
    && p'.senders.Keys == p.senders.Keys
    && (forall ssrc :: ssrc in p.senders ==> p'.senders[ssrc].line == p.senders[ssrc].line)
  }

  lemma SameHomesHouse(p: Peer, p': Peer)
    requires Housed(p) && SameHomes(p, p')
    ensures Housed(p')
  {
    forall ssrc | ssrc in p'.senders ensures HasHome(p'.lines, p'.senders[ssrc].line, ssrc) {
      var j :| 0 <= j < |p.lines| && IsHome(p.lines[j], p.senders[ssrc].line, ssrc);
      assert IsHome(p'.lines[j], p'.senders[ssrc].line, ssrc);
    }
    forall j | 0 <= j < |p'.lines| ensures FreeOrHome(p'.senders, p'.lines[j]) {
      assert FreeOrHome(p.senders, p.lines[j]);
    }
  }

  lemma FreeLineHouses(p: Peer, line: Line)
    requires Housed(p) && line.localStreams == []
    ensures Housed(p.(lines := p.lines + [line], nextId := p.nextId + 1))
  {
    var p' := p.(lines := p.lines + [line], nextId := p.nextId + 1);
    forall ssrc | ssrc in p'.senders ensures HasHome(p'.lines, p'.senders[ssrc].line, ssrc) {
      var j :| 0 <= j < |p.lines| && IsHome(p.lines[j], p.senders[ssrc].line, ssrc);
      assert IsHome(p'.lines[j], p'.senders[ssrc].line, ssrc);
    }
    forall j | 0 <= j < |p'.lines| ensures FreeOrHome(p'.senders, p'.lines[j]) {
      assert j < |p.lines| ==> FreeOrHome(p.senders, p.lines[j]);
    }
  }

  lemma MovingInHouses(p: Peer, position: nat, ssrc: u32, sender: Sender)
    requires Housed(p) && ssrc !in p.senders && position < |p.lines| && p.lines[position].localStreams == []
    requires sender.line == p.lines[position].id
    ensures Housed(p.(lines := p.lines[position := p.lines[position].(localStreams := [ssrc])],
                      senders := p.senders[ssrc := sender]))
  {
    var p' := p.(lines := p.lines[position := p.lines[position].(localStreams := [ssrc])],
                 senders := p.senders[ssrc := sender]);
    forall s | s in p'.senders ensures HasHome(p'.lines, p'.senders[s].line, s) {
      if s == ssrc {
        assert IsHome(p'.lines[position], sender.line, ssrc);
      } else {
        var j :| 0 <= j < |p.lines| && IsHome(p.lines[j], p.senders[s].line, s);
        assert IsHome(p'.lines[j], p'.senders[s].line, s);
      }
    }
    forall j | 0 <= j < |p'.lines| ensures FreeOrHome(p'.senders, p'.lines[j]) {
      assert FreeOrHome(p.senders, p.lines[j]);
    }
  }

  // --- a new sender ------------------------------------------------------------------------------

  predicate IsFree(line: Line, mediaType: MediaType) {
    line.mediaType == mediaType && line.localStreams == []
  }

  /** The first line of this type that is free, or else a new one behind all others. */
  ghost predicate Chosen(p: Peer, mediaType: MediaType, position: nat) {
    && position <= |p.lines|
    && (forall j :: 0 <= j < position ==> !IsFree(p.lines[j], mediaType))
    && (position < |p.lines| ==> IsFree(p.lines[position], mediaType))
  }

  /** The end once the line is there. */
  function WithLine(p: Peer, mediaType: MediaType, position: nat): Peer {
    if position < |p.lines| then p
    else p.(lines := p.lines + [Line(p.nextId, mediaType, None, Fresh, [], {}, [])], nextId := p.nextId + 1)
  }

  /** A new sender gets the chosen line to itself; every other line, and everything else, stays as it is. */
  lemma NewSenderTakesFirstFreeLine(p: Peer, mediaType: MediaType, ssrc: u32, initial: Properties)
    returns (position: nat)
    ensures Chosen(p, mediaType, position) && position < |WithLine(p, mediaType, position).lines|
    ensures var with := WithLine(p, mediaType, position);
            var line := with.lines[position];
            CreateSender(p, mediaType, ssrc, initial) ==
            with.(lines := with.lines[position := line.(localStreams := [ssrc])],
                  senders := p.senders[ssrc := Sender(line.id, Fresh, initial, false)])
  {
    position := Find(p.lines, FreeFor(mediaType));
    assert forall j :: 0 <= j < position ==> !Matches(FreeFor(mediaType), p.lines[j]);
    assert [] + [ssrc] == [ssrc];
    hide Find;
  }

  lemma CreateSenderHouses(p: Peer, mediaType: MediaType, ssrc: u32, initial: Properties)
    requires Housed(p) && ssrc !in p.senders
    ensures Housed(CreateSender(p, mediaType, ssrc, initial))
  {
    hide Housed, CreateSender;
    var position := NewSenderTakesFirstFreeLine(p, mediaType, ssrc, initial);
    FreeLineHouses(p, Line(p.nextId, mediaType, None, Fresh, [], {}, []));
    var with := WithLine(p, mediaType, position);
    MovingInHouses(with, position, ssrc, Sender(with.lines[position].id, Fresh, initial, false));
  }

  // --- closed senders ----------------------------------------------------------------------------

  predicate HasLost(line: Line, gone: set<u32>) {
    line.localStreams != [] && line.localStreams[0] in gone
  }

  /** What becomes of a line when these senders leave: one that was never told of is gone, another has news. */
  function Vacated(line: Line, gone: set<u32>): seq<Line> {
    if !HasLost(line, gone) then [line]
    else if line.remoteStreams == {} && line.sdpIndex == None then []
    else [line.(localStreams := [], state := if line.state == Fresh then Fresh else Changed)]
  }

  function Swept(lines: seq<Line>, gone: set<u32>): seq<Line> {
    if lines == [] then [] else Swept(lines[..|lines| - 1], gone) + Vacated(lines[|lines| - 1], gone)
  }

  lemma {:induction false} SweptJoin(a: seq<Line>, b: seq<Line>, gone: set<u32>)
    ensures Swept(a + b, gone) == Swept(a, gone) + Swept(b, gone)
    decreases |b|
  {
    hide Vacated;
    if b == [] {
      assert a + b == a;
    } else {
      var last := |b| - 1;
      SweptJoin(a, b[..last], gone);
      assert (a + b)[..|a| + last] == a + b[..last];
      assert Swept(a, gone) + (Swept(b[..last], gone) + Vacated(b[last], gone))
          == Swept(a, gone) + Swept(b[..last], gone) + Vacated(b[last], gone);
    }
  }

  lemma {:induction false} NothingSwept(lines: seq<Line>, gone: set<u32>)
    requires forall j :: 0 <= j < |lines| ==> !HasLost(lines[j], gone)
    ensures Swept(lines, gone) == lines
  {
    hide HasLost;
    if lines != [] {
      assert lines == lines[..|lines| - 1] + [lines[|lines| - 1]];
      NothingSwept(lines[..|lines| - 1], gone);
    }
  }

  lemma OneSwept(line: Line, gone: set<u32>)
    ensures Swept([line], gone) == Vacated(line, gone)
  {
    assert [line][..0] == [];
  }

  lemma {:induction false} SweptTwice(lines: seq<Line>, some: set<u32>, more: set<u32>)
    ensures Swept(Swept(lines, some), more) == Swept(lines, some + more)
  {
    if lines != [] {
      var last := |lines| - 1;
      SweptTwice(lines[..last], some, more);
      SweptJoin(Swept(lines[..last], some), Vacated(lines[last], some), more);
      VacatedTwice(lines[last], some, more);
    }
  }

  lemma VacatedTwice(line: Line, some: set<u32>, more: set<u32>)
    ensures Swept(Vacated(line, some), more) == Vacated(line, some + more)
  {
    if Vacated(line, some) != [] {
      OneSwept(Vacated(line, some)[0], more);
      assert Vacated(line, some) == [Vacated(line, some)[0]];
    }
  }

  /** If only one line has lost its sender. */
  lemma OneLineSwept(lines: seq<Line>, position: nat, gone: set<u32>)
    requires position < |lines| && forall j :: 0 <= j < |lines| && j != position ==> !HasLost(lines[j], gone)
    ensures Swept(lines, gone) == lines[..position] + Vacated(lines[position], gone) + lines[position + 1..]
  {
    hide Swept, Vacated, HasLost;
    var before, line, behind := lines[..position], lines[position], lines[position + 1..];
    NothingSwept(before, gone);
    NothingSwept(behind, gone);
    OneSwept(line, gone);
    SweptJoin(before, [line], gone);
    SweptJoin(before + [line], behind, gone);
    assert lines == before + [line] + behind;
  }

  lemma Replaced(lines: seq<Line>, position: nat, line: Line)
    requires position < |lines|
    ensures lines[position := line] == lines[..position] + [line] + lines[position + 1..]
    ensures lines[..position] + [] + lines[position + 1..] == lines[..position] + lines[position + 1..]
  {
  }

  /** One sender leaves. */
  lemma RemovalSweeps(p: Peer, ssrc: u32)
    requires Housed(p) && DistinctIds(p) && ssrc in p.senders
    ensures RemoveSender(p, ssrc) == p.(lines := Swept(p.lines, {ssrc}), senders := p.senders - {ssrc})
  {
    hide Find, Housed, HasLost, Swept, Vacated, DistinctIds, Without;
    var position := HomeIsFound(p, ssrc);
    OthersKeepTheirs(p, ssrc, position);
    OneLineSwept(p.lines, position, {ssrc});
    var line := p.lines[position];
    VacatedHome(line, ssrc);
    Replaced(p.lines, position, line.(localStreams := [], state := if line.state == Fresh then Fresh else Changed));
  }

  lemma VacatedHome(line: Line, ssrc: u32)
    requires line.localStreams == [ssrc]
    ensures Without(line.localStreams, ssrc) == []
    ensures Vacated(line, {ssrc}) ==
            if line.remoteStreams == {} && line.sdpIndex == None then []
            else [line.(localStreams := [], state := if line.state == Fresh then Fresh else Changed)]
  {
    assert Without([ssrc][1..], ssrc) == [];
  }

  lemma HomeIsFound(p: Peer, ssrc: u32) returns (position: nat)
    requires Housed(p) && DistinctIds(p) && ssrc in p.senders
    ensures position == Find(p.lines, WithId(p.senders[ssrc].line)) < |p.lines|
    ensures IsHome(p.lines[position], p.senders[ssrc].line, ssrc)
  {
    var home :| 0 <= home < |p.lines| && IsHome(p.lines[home], p.senders[ssrc].line, ssrc);
    assert Matches(WithId(p.senders[ssrc].line), p.lines[home]);
    position := Find(p.lines, WithId(p.senders[ssrc].line));
  }

  lemma OthersKeepTheirs(p: Peer, ssrc: u32, position: nat)
    requires Housed(p) && DistinctIds(p) && ssrc in p.senders && position < |p.lines|
    requires IsHome(p.lines[position], p.senders[ssrc].line, ssrc)
    ensures forall j :: 0 <= j < |p.lines| && j != position ==> !HasLost(p.lines[j], {ssrc})
  {
    forall j | 0 <= j < |p.lines| && j != position ensures !HasLost(p.lines[j], {ssrc}) {
      assert FreeOrHome(p.senders, p.lines[j]);
    }
  }

  lemma {:induction false} SweptKeepsHomes(lines: seq<Line>, gone: set<u32>, id: nat, ssrc: u32)
    ensures ssrc !in gone && HasHome(lines, id, ssrc) ==> HasHome(Swept(lines, gone), id, ssrc)
  {
    if ssrc !in gone && HasHome(lines, id, ssrc) {
      var last := |lines| - 1;
      var j :| 0 <= j < |lines| && IsHome(lines[j], id, ssrc);
      SweptKeepsHomes(lines[..last], gone, id, ssrc);
      if j < last {
        assert IsHome(lines[..last][j], id, ssrc);
        var k :| 0 <= k < |Swept(lines[..last], gone)| && IsHome(Swept(lines[..last], gone)[k], id, ssrc);
        assert IsHome(Swept(lines, gone)[k], id, ssrc);
      } else {
        assert IsHome(Swept(lines, gone)[|Swept(lines[..last], gone)|], id, ssrc);
      }
    }
  }

  lemma {:induction false} SweptIsFreeOrHome(senders: map<u32, Sender>, lines: seq<Line>, gone: set<u32>)
    requires forall j :: 0 <= j < |lines| ==> FreeOrHome(senders, lines[j])
    ensures forall j :: 0 <= j < |Swept(lines, gone)| ==> FreeOrHome(senders - gone, Swept(lines, gone)[j])
  {
    if lines != [] {
      SweptIsFreeOrHome(senders, lines[..|lines| - 1], gone);
    }
  }

  lemma SweepingHouses(p: Peer, gone: set<u32>)
    requires Housed(p)
    ensures Housed(p.(lines := Swept(p.lines, gone), senders := p.senders - gone))
  {
    hide Swept, HasHome, FreeOrHome;
    forall ssrc | ssrc in p.senders - gone ensures HasHome(Swept(p.lines, gone), p.senders[ssrc].line, ssrc) {
      SweptKeepsHomes(p.lines, gone, p.senders[ssrc].line, ssrc);
    }
    SweptIsFreeOrHome(p.senders, p.lines, gone);
  }

  ghost function Named(p: Peer, list: seq<u32>): set<u32> {
    set ssrc | ssrc in list && ssrc in p.senders
  }

  lemma {:induction false} RemovalsSweep(p: Peer, types: seq<MediaType>, list: seq<u32>)
    requires Housed(p) && Invariant(p, types)
    ensures RemoveSenders(p, list) == p.(lines := Swept(p.lines, Named(p, list)), senders := p.senders - Named(p, list))
    decreases |list|
  {
    hide Housed, Invariant, RemoveSender, Swept, HasLost;
    if list == [] {
      assert Named(p, list) == {};
      NothingLost(p.lines);
    } else if list[0] in p.senders {
      InvariantShapes(p, types);
      RemovalSweeps(p, list[0]);
      SweepingHouses(p, {list[0]});
      RemoveSenderKeeps(p, types, list[0]);
      var rest := RemoveSender(p, list[0]);
      RemovalsSweep(rest, types, list[1..]);
      var more := Named(rest, list[1..]);
      SweptTwice(p.lines, {list[0]}, more);
      assert Named(p, list) == {list[0]} + more;
      assert p.senders - {list[0]} - more == p.senders - Named(p, list);
    } else {
      RemovalsSweep(p, types, list[1..]);
      assert Named(p, list) == Named(p, list[1..]);
    }
  }

  lemma NothingLost(lines: seq<Line>)
    ensures Swept(lines, {}) == lines
  {
    NothingSwept(lines, {});
  }

  /** All closed senders leave at once, in whatever order. */
  lemma PollSweeps(p: Peer, types: seq<MediaType>)
    requires Housed(p) && Invariant(p, types)
    ensures PollSenders(p) == p.(lines := Swept(p.lines, ClosedSenders(p)), senders := p.senders - ClosedSenders(p))
    ensures Housed(PollSenders(p))
  {
    hide Housed, Invariant, RemoveSenders, Swept;
    var list := SortedKeys(ClosedSenders(p));
    RemovalsSweep(p, types, list);
    assert ClosedSenders(p) == Named(p, list);
    SweepingHouses(p, ClosedSenders(p));
  }

  // --- the other steps ---------------------------------------------------------------------------

  lemma LocalHouses(p: Peer, types: seq<MediaType>, call: Call)
    requires Housed(p) && Invariant(p, types) && Allowed(p, call)
    ensures Housed(Local(p, call))
  {
    hide Housed, Invariant, RemoveSenders, WithoutCodec, Find, HasNews;
    match call
    case CreatesSender(mediaType, ssrc, initial) => CreateSenderHouses(p, mediaType, ssrc, initial);
    case OpensApplicationChannel =>
      if p.channels.None? {
        var open := p.(channels := Some(Channels(true, false)));
        SameHomesHouse(p, open);
        FreeLineHouses(open, NewLine(open, Application));
      }
    case Polls =>
      PollSweeps(p, types);
      SameHomesHouse(PollSenders(p), Poll(p));
    case _ => SameHomesHouse(p, Local(p, call));
  }

  lemma PreparedHouses(p: Peer, types: seq<MediaType>)
    requires Housed(p) && Invariant(p, types)
    ensures Housed(Prepared(p)) && ClosedSenders(Prepared(p)) == {}
  {
    hide Housed, Invariant, RemoveSenders, AssignFrom, Swept;
    var numbered := if p.signalling == HaveRemoteOffer then p
                    else p.(lines := AssignFrom(p.lines, 0, NextIndex(p.lines)));
    var types' := types;
    if p.signalling != HaveRemoteOffer {
      types' := NumberedKeeps(p, types);
    }
    AssignKeepsSenders(p.lines, 0, NextIndex(p.lines));
    SameHomesHouse(p, numbered);
    PollSweeps(numbered, types');
  }

  lemma CreateHouses(p: Peer, types: seq<MediaType>)
    requires Housed(p) && Invariant(p, types)
    ensures Housed(CreateLocalDescription(p).1)
  {
    hide Housed, Invariant, Prepared, DescribedBy, CanDescribeAll, Describe, Find, Promote;
    PreparedHouses(p, types);
    SameHomesHouse(Prepared(p), Promoted(Prepared(p), p.signalling != HaveRemoteOffer));
  }

  lemma ReadingHouses(p: Peer, p': Peer)
    requires Housed(p) && AddsAtMostOne(p, p')
    ensures Housed(p')
  {
    hide Housed;
    var same := p'.(lines := p'.lines[..|p.lines|]);
    SameHomesHouse(p, same);
    if |p'.lines| > |p.lines| {
      FreeLineHouses(same, p'.lines[|p.lines|]);
      assert p'.lines == same.lines + [p'.lines[|p.lines|]];
      SameHomesHouse(same.(lines := p'.lines, nextId := p'.nextId + 1), p');
    } else {
      assert p'.lines == same.lines;
    }
  }

  lemma {:induction false} ApplyFromHouses(p: Peer, description: Description, i: nat, fault: Option<Fault>)
    requires Housed(p) && i <= |description|
    ensures Housed(ApplyFrom(p, description, i, fault).1)
    decreases |description| - i
  {
    hide Housed, ApplySection, AddsAtMostOne;
    if i < |description| {
      var (error, applied) := ApplySection(p, i, description[i], StopAt(fault, i));
      SectionAddsAtMostOne(p, i, description[i], StopAt(fault, i));
      ReadingHouses(p, applied);
      if error.None? {
        ApplyFromHouses(applied, description, i + 1, fault);
      }
    }
  }

  lemma SetRemoteHouses(p: Peer, description: Description, mode: Mode, fault: Option<Fault>)
    requires Housed(p)
    ensures Housed(SetRemoteDescription(p, description, mode, fault).1)
  {
    hide Housed, ApplyFrom;
    ApplyFromHouses(p, description, 0, fault);
    var applied := ApplyFrom(p, description, 0, fault).1;
    SameHomesHouse(applied, Finish(applied));
  }

  lemma {:induction false} RunHouses(events: seq<Event>)
    requires Reached(events).Some?
    ensures Housed(Reached(events).value)
  {
    hide Housed, Invariant, Local, CreateLocalDescription, SetRemoteDescription;
    if events == [] {
      NewHouses();
    } else {
      var before, event := Reached(events[..|events| - 1]).value, events[|events| - 1];
      RunHouses(events[..|events| - 1]);
      var types := RunKeepsInvariant(events[..|events| - 1]);
      match event
      case Calls(call) => LocalHouses(before, types, call);
      case Describes => CreateHouses(before, types);
      case Applies(description, mode, fault) => SetRemoteHouses(before, description, mode, fault);
    }
  }

  lemma NewHouses()
    ensures Housed(NewPeer())
  {
  }

  // --- main results ------------------------------------------------------------------------------

  /** Over every run of one end, each sender is alone on a line of its own, and no line has a stream without a sender. */
  lemma EachSenderHasALineOfItsOwn(events: seq<Event>)
    requires Reached(events).Some?
    ensures var p := Reached(events).value;
            && (forall j :: 0 <= j < |p.lines| ==> |p.lines[j].localStreams| <= 1)
            && (forall j, ssrc :: 0 <= j < |p.lines| ==>
                  (ssrc in p.lines[j].localStreams <==> ssrc in p.senders && p.senders[ssrc].line == p.lines[j].id))
            && (forall ssrc :: ssrc in p.senders ==> HasHome(p.lines, p.senders[ssrc].line, ssrc))
            && (forall x, y :: x in p.senders && y in p.senders && x != y ==> p.senders[x].line != p.senders[y].line)
  {
    hide Reached, Housed, Invariant;
    RunHouses(events);
    var types := RunKeepsInvariant(events);
    var p := Reached(events).value;
    InvariantShapes(p, types);
    HousedOneEach(p);
    HousedApart(p);
  }

  lemma HousedOneEach(p: Peer)
    requires Housed(p) && DistinctIds(p)
    ensures forall j :: 0 <= j < |p.lines| ==> |p.lines[j].localStreams| <= 1
    ensures forall ssrc :: ssrc in p.senders ==> HasHome(p.lines, p.senders[ssrc].line, ssrc)
    ensures forall j, ssrc :: 0 <= j < |p.lines| ==>
              (ssrc in p.lines[j].localStreams <==> ssrc in p.senders && p.senders[ssrc].line == p.lines[j].id)
  {
    forall j | 0 <= j < |p.lines| ensures |p.lines[j].localStreams| <= 1 {
      assert FreeOrHome(p.senders, p.lines[j]);
    }
    forall j, ssrc | 0 <= j < |p.lines|
      ensures ssrc in p.lines[j].localStreams <==> ssrc in p.senders && p.senders[ssrc].line == p.lines[j].id
    {
      assert FreeOrHome(p.senders, p.lines[j]);
      if ssrc in p.senders && p.senders[ssrc].line == p.lines[j].id {
        var home :| 0 <= home < |p.lines| && IsHome(p.lines[home], p.senders[ssrc].line, ssrc);
      }
    }
  }

  lemma HousedApart(p: Peer)
    requires Housed(p) && DistinctIds(p)
    ensures forall x, y :: x in p.senders && y in p.senders && x != y ==> p.senders[x].line != p.senders[y].line
  {
    forall x, y | x in p.senders && y in p.senders && x != y ensures p.senders[x].line != p.senders[y].line {
      var home :| 0 <= home < |p.lines| && IsHome(p.lines[home], p.senders[x].line, x);
      var home' :| 0 <= home' < |p.lines| && IsHome(p.lines[home'], p.senders[y].line, y);
      assert p.lines[home] != p.lines[home'];
    }
  }

  /**
   * Over every run, a poll takes out exactly the closed senders: each leaves its line free and with news, or takes it
   * along if neither side has been told of it; every other line and everything else stays as it is.
   */
  lemma ClosedSendersLeave(events: seq<Event>)
    requires Reached(events).Some?
    ensures var p := Reached(events).value;
            PollSenders(p) == p.(lines := Swept(p.lines, ClosedSenders(p)), senders := p.senders - ClosedSenders(p))
  {
    hide Reached, Housed, Invariant;
    RunHouses(events);
    var types := RunKeepsInvariant(events);
    PollSweeps(Reached(events).value, types);
  }
}
