/**
 * What the application has asked for and what descriptions say: over every run of one end, each section has the codecs,
 * senders and properties that its own calls have left there (src/rtc.rs, src/media/media_line.rs, src/media/sender.rs).
 */
module Wishes {
  import opened Prelude
  import opened SortedKeySets
  import opened Negotiation
  import opened NegotiationInvariants
  import opened SendersHeard
  import opened SenderLines

  // --- the codecs that stay ----------------------------------------------------------------------

  /** `kept` has the codecs of other payload types, each once, in their order; `places` says where they come from. */
  ghost predicate KeepsOthers(codecs: seq<Codec>, payloadType: u8, kept: seq<Codec>, places: seq<nat>) {
    && |places| == |kept|
    && (forall i :: 0 <= i < |kept| ==> places[i] < |codecs| && kept[i] == codecs[places[i]])
    && (forall i, j :: 0 <= i < j < |places| ==> places[i] < places[j])
    && forall k :: 0 <= k < |codecs| ==> (k in places <==> codecs[k].payloadType != payloadType)
  }

  /** The same from the end of the list. */
  lemma {:induction false} WithoutLast(codecs: seq<Codec>, payloadType: u8)
    requires codecs != []
    ensures var last := codecs[|codecs| - 1];
            WithoutCodec(codecs, payloadType) ==
            WithoutCodec(codecs[..|codecs| - 1], payloadType) + if last.payloadType == payloadType then [] else [last]
  {
    if |codecs| > 1 {
      WithoutLast(codecs[1..], payloadType);
      assert codecs[1..][..|codecs| - 2] == codecs[..|codecs| - 1][1..];
    }
  }

  lemma {:induction false} WithoutCodecKeepsOthers(codecs: seq<Codec>, payloadType: u8) returns (places: seq<nat>)
    ensures KeepsOthers(codecs, payloadType, WithoutCodec(codecs, payloadType), places)
  {
    hide WithoutCodec;
    if codecs == [] {
      places := [];
      NoCodecs(payloadType);
    } else {
      var last := |codecs| - 1;
      places := WithoutCodecKeepsOthers(codecs[..last], payloadType);
      WithoutLast(codecs, payloadType);
      OneMoreKept(codecs, payloadType, WithoutCodec(codecs[..last], payloadType), places);
      if codecs[last].payloadType != payloadType {
        places := places + [last];
      }
    }
  }

  lemma NoCodecs(payloadType: u8)
    ensures WithoutCodec([], payloadType) == []
  {
  }

  lemma OneMoreKept(codecs: seq<Codec>, payloadType: u8, kept: seq<Codec>, places: seq<nat>)
    requires codecs != [] && KeepsOthers(codecs[..|codecs| - 1], payloadType, kept, places)
    ensures var last := |codecs| - 1;
            if codecs[last].payloadType == payloadType then KeepsOthers(codecs, payloadType, kept + [], places)
            else KeepsOthers(codecs, payloadType, kept + [codecs[last]], places + [last])
  {
    assert kept + [] == kept;
    var last := |codecs| - 1;
    assert last !in places;
    assert forall k :: k in places + [last] <==> k in places || k == last;
  }

  // --- what was asked for ------------------------------------------------------------------------

  predicate MayChangeLine(p: Peer, id: nat) {
    exists j :: 0 <= j < |p.lines| && p.lines[j].id == id && p.lines[j].state != Propagated
  }

  predicate MayChangeSender(p: Peer, ssrc: u32) {
    ssrc in p.senders && p.senders[ssrc].state != Propagated
  }

  /** The codecs registered for a line, by the calls that were not refused. */
  ghost function CodecsOf(events: seq<Event>, id: nat): seq<Codec>
    requires Reached(events).Some?
  {
    if events == [] then []
    else
      var earlier, event := events[..|events| - 1], events[|events| - 1];
      var codecs := CodecsOf(earlier, id);
      match event
      case Calls(ChangesCodec(line, payloadType, add)) =>
        if line != id || !MayChangeLine(Reached(earlier).value, id) then codecs
        else WithoutCodec(codecs, payloadType) + if add.Some? then [add.value] else []
      case _ => codecs
  }

  /** What a call makes of the properties of a sender. */
  function PropertiesAfter(p: Peer, call: Call, ssrc: u32, properties: Properties): Properties {
    match call
    case CreatesSender(_, s, initial) => if s == ssrc then initial else properties
    case RegistersProperty(s, key, value) =>
      if s == ssrc && key != "cname" && MayChangeSender(p, s) then properties[key := value] else properties
    case UnsetsProperty(s, key) => if s == ssrc && MayChangeSender(p, s) then properties - {key} else properties
    case _ => properties
  }

  /** The properties of a sender: those it was made with, as the calls that were not refused have changed them. */
  ghost function PropertiesOf(events: seq<Event>, ssrc: u32): Properties
    requires Reached(events).Some?
  {
    if events == [] then map[]
    else
      var earlier, event := events[..|events| - 1], events[|events| - 1];
      var properties := PropertiesOf(earlier, ssrc);
      if event.Calls? then PropertiesAfter(Reached(earlier).value, event.call, ssrc, properties) else properties
  }

  /** Whether the application has dropped a sender since it was made. */
  ghost function IsDropped(events: seq<Event>, ssrc: u32): bool
    requires Reached(events).Some?
  {
    if events == [] then false
    else
      var earlier, event := events[..|events| - 1], events[|events| - 1];
      match event
      case Calls(CreatesSender(_, s, _)) => s != ssrc && IsDropped(earlier, ssrc)
      case Calls(DropsSender(s)) => s == ssrc || IsDropped(earlier, ssrc)
      case _ => IsDropped(earlier, ssrc)
  }

  // --- the state has it --------------------------------------------------------------------------

  ghost predicate LineHas(events: seq<Event>, line: Line)
    requires Reached(events).Some?
  {
    line.codecs == CodecsOf(events, line.id)
  }

  ghost predicate SenderHas(events: seq<Event>, ssrc: u32, sender: Sender)
    requires Reached(events).Some?
  {
    sender.properties == PropertiesOf(events, ssrc) && sender.closed == IsDropped(events, ssrc)
  }

  ghost predicate Fulfilled(events: seq<Event>, p: Peer)
    requires Reached(events).Some?
  {
    && (forall j :: 0 <= j < |p.lines| ==> LineHas(events, p.lines[j]))
    && (forall ssrc :: ssrc in p.senders ==> SenderHas(events, ssrc, p.senders[ssrc]))
    && (forall id :: id >= p.nextId ==> CodecsOf(events, id) == [])
  }

  /** A line known before, with the same codecs, or a new one without any. */
  ghost predicate Known(p: Peer, line: Line) {
    || (line.id >= p.nextId && line.codecs == [])
    || exists j :: 0 <= j < |p.lines| && p.lines[j].id == line.id && p.lines[j].codecs == line.codecs
  }

  /** Nothing asked for has changed. */
  ghost predicate SameWishes(p: Peer, p': Peer) {
    && p.nextId <= p'.nextId && (forall j :: 0 <= j < |p'.lines| ==> Known(p, p'.lines[j]))
    && forall ssrc :: ssrc in p'.senders ==>
         ssrc in p.senders && p'.senders[ssrc].properties == p.senders[ssrc].properties
         && p'.senders[ssrc].closed == p.senders[ssrc].closed
  }

  lemma SameLinesKnown(p: Peer, p': Peer)
    requires p.nextId <= p'.nextId && |p'.lines| >= |p.lines|
    requires forall j :: 0 <= j < |p.lines| ==> p'.lines[j].id == p.lines[j].id && p'.lines[j].codecs == p.lines[j].codecs
    requires forall j :: |p.lines| <= j < |p'.lines| ==> p'.lines[j].id >= p.nextId && p'.lines[j].codecs == []
    ensures forall j :: 0 <= j < |p'.lines| ==> Known(p, p'.lines[j])
  {
  }

  lemma SameWishesJoin(p: Peer, p': Peer, p'': Peer)
    requires SameWishes(p, p') && SameWishes(p', p'')
    ensures SameWishes(p, p'')
  {
    forall j | 0 <= j < |p''.lines| ensures Known(p, p''.lines[j]) {
      assert Known(p', p''.lines[j]);
      if k :| 0 <= k < |p'.lines| && p'.lines[k].id == p''.lines[j].id && p'.lines[k].codecs == p''.lines[j].codecs {
        assert Known(p, p'.lines[k]);
      }
    }
  }

  /** A step that no wish depends on. */
  lemma SameWishesFulfil(events: seq<Event>, event: Event)
    requires Reached(events + [event]).Some? && Reached(events).Some? && Fulfilled(events, Reached(events).value)
    requires SameWishes(Reached(events).value, Reached(events + [event]).value)
    requires forall id :: CodecsOf(events + [event], id) == CodecsOf(events, id)
    requires forall ssrc :: ssrc in Reached(events + [event]).value.senders ==>
               PropertiesOf(events + [event], ssrc) == PropertiesOf(events, ssrc)
               && IsDropped(events + [event], ssrc) == IsDropped(events, ssrc)
    ensures Fulfilled(events + [event], Reached(events + [event]).value)
  {
    hide Reached, CodecsOf, PropertiesOf, IsDropped;
    var p, p' := Reached(events).value, Reached(events + [event]).value;
    forall j | 0 <= j < |p'.lines| ensures LineHas(events + [event], p'.lines[j]) {
      assert Known(p, p'.lines[j]);
      if k :| 0 <= k < |p.lines| && p.lines[k].id == p'.lines[j].id && p.lines[k].codecs == p'.lines[j].codecs {
        assert LineHas(events, p.lines[k]);
      }
    }
    forall ssrc | ssrc in p'.senders ensures SenderHas(events + [event], ssrc, p'.senders[ssrc]) {
      assert SenderHas(events, ssrc, p.senders[ssrc]);
    }
  }

  // --- single steps ------------------------------------------------------------------------------

  lemma {:induction false} SweptAreKnown(p: Peer, lines: seq<Line>, gone: set<u32>)
    requires forall j :: 0 <= j < |lines| ==> Known(p, lines[j])
    ensures forall j :: 0 <= j < |Swept(lines, gone)| ==> Known(p, Swept(lines, gone)[j])
  {
    hide Known;
    if lines != [] {
      var last := |lines| - 1;
      SweptAreKnown(p, lines[..last], gone);
      VacatedIsKnown(p, lines[last], gone);
    }
  }

  lemma VacatedIsKnown(p: Peer, line: Line, gone: set<u32>)
    requires Known(p, line)
    ensures forall j :: 0 <= j < |Vacated(line, gone)| ==> Known(p, Vacated(line, gone)[j])
  {
  }

  lemma PollKeepsWishes(p: Peer, types: seq<MediaType>)
    requires Housed(p) && Invariant(p, types)
    ensures SameWishes(p, PollSenders(p))
  {
    hide Housed, Invariant, Swept, RemoveSenders, Known;
    PollSweeps(p, types);
    SameLinesKnown(p, p);
    SweptAreKnown(p, p.lines, ClosedSenders(p));
  }

  lemma SignallingKeepsWishes(p: Peer, p': Peer, signalling: SignallingState)
    requires SameWishes(p, p')
    ensures SameWishes(p, p'.(signalling := signalling))
  {
    hide Known;
  }

  lemma PolledKeepsWishes(p: Peer, types: seq<MediaType>)
    requires Housed(p) && Invariant(p, types)
    ensures SameWishes(p, Poll(p))
  {
    hide Housed, Invariant, SameWishes, PollSenders, HasNews;
    PollKeepsWishes(p, types);
    SignallingKeepsWishes(p, PollSenders(p), NegotiationRequired);
  }

  lemma OpeningKeepsWishes(p: Peer)
    ensures SameWishes(p, OpenApplicationChannel(p))
  {
    hide Find, Known;
    SameLinesKnown(p, OpenApplicationChannel(p));
  }

  lemma {:induction false} AssignKeepsCodecs(lines: seq<Line>, position: nat, next: nat)
    requires position <= |lines|
    ensures var numbered := AssignFrom(lines, position, next);
            forall j :: 0 <= j < |lines| ==> numbered[j].id == lines[j].id && numbered[j].codecs == lines[j].codecs
    decreases |lines| - position
  {
    if position == |lines| {
    } else if lines[position].sdpIndex.Some? {
      AssignKeepsCodecs(lines, position + 1, next);
    } else {
      AssignKeepsCodecs(lines[position := lines[position].(sdpIndex := Some(next))], position + 1, next + 1);
    }
  }

  lemma PreparingKeepsWishes(p: Peer, types: seq<MediaType>)
    requires Housed(p) && Invariant(p, types)
    ensures SameWishes(p, Prepared(p))
  {
    hide Housed, Invariant, RemoveSenders, AssignFrom, Known;
    var numbered := if p.signalling == HaveRemoteOffer then p
                    else p.(lines := AssignFrom(p.lines, 0, NextIndex(p.lines)));
    var types' := types;
    if p.signalling != HaveRemoteOffer {
      types' := NumberedKeeps(p, types);
    }
    AssignKeepsSenders(p.lines, 0, NextIndex(p.lines));
    AssignKeepsCodecs(p.lines, 0, NextIndex(p.lines));
    SameHomesHouse(p, numbered);
    SameLinesKnown(p, numbered);
    PollKeepsWishes(numbered, types');
    hide SameWishes;
    assert SameWishes(p, numbered) by { SameSendersKeepWishes(p, numbered); }
    SameWishesJoin(p, numbered, PollSenders(numbered));
  }

  lemma SameSendersKeepWishes(p: Peer, p': Peer)
    requires p'.senders == p.senders && p.nextId <= p'.nextId
    requires forall j :: 0 <= j < |p'.lines| ==> Known(p, p'.lines[j])
    ensures SameWishes(p, p')
  {
  }

  lemma PromotingKeepsWishes(p: Peer, isOffer: bool)
    ensures SameWishes(p, Promoted(p, isOffer))
  {
    hide Known, Find, Promote, DescribedBy;
    SameLinesKnown(p, Promoted(p, isOffer));
  }

  lemma DescribingKeepsWishes(p: Peer, types: seq<MediaType>)
    requires Housed(p) && Invariant(p, types)
    ensures SameWishes(p, CreateLocalDescription(p).1)
  {
    hide Housed, Invariant, Prepared, SameWishes, CanDescribeAll, Describe, DescribedBy, PromoteLines, PromoteSenders;
    PreparingKeepsWishes(p, types);
    NothingKeepsWishes(p);
    PromotingKeepsWishes(Prepared(p), p.signalling != HaveRemoteOffer);
    SameWishesJoin(p, Prepared(p), Promoted(Prepared(p), p.signalling != HaveRemoteOffer));
  }

  lemma NothingKeepsWishes(p: Peer)
    ensures SameWishes(p, p)
  {
    SameLinesKnown(p, p);
  }

  lemma SectionKeepsWishes(p: Peer, i: nat, media: Media, stop: Option<Progress>)
    ensures SameWishes(p, ApplySection(p, i, media, stop).1)
  {
    hide ApplySection, Known;
    SectionAddsAtMostOne(p, i, media, stop);
    SameLinesKnown(p, ApplySection(p, i, media, stop).1);
  }

  lemma {:induction false} ReadingKeepsWishes(p: Peer, description: Description, i: nat, fault: Option<Fault>)
    requires i <= |description|
    ensures SameWishes(p, ApplyFrom(p, description, i, fault).1)
    decreases |description| - i
  {
    hide SameWishes, ApplySection;
    if i == |description| {
      NothingKeepsWishes(p);
    } else {
      var (error, applied) := ApplySection(p, i, description[i], StopAt(fault, i));
      SectionKeepsWishes(p, i, description[i], StopAt(fault, i));
      if error.None? {
        ReadingKeepsWishes(applied, description, i + 1, fault);
        SameWishesJoin(p, applied, ApplyFrom(applied, description, i + 1, fault).1);
      }
    }
  }

  lemma FinishingKeepsWishes(p: Peer)
    ensures SameWishes(p, Finish(p))
  {
    hide Known;
    SameLinesKnown(p, Finish(p));
  }

  lemma ApplyingKeepsWishes(p: Peer, description: Description, mode: Mode, fault: Option<Fault>)
    ensures SameWishes(p, SetRemoteDescription(p, description, mode, fault).1)
  {
    hide SameWishes, ApplyFrom, Finish;
    NothingKeepsWishes(p);
    ReadingKeepsWishes(p, description, 0, fault);
    var applied := ApplyFrom(p, description, 0, fault).1;
    FinishingKeepsWishes(applied);
    SameWishesJoin(p, applied, Finish(applied));
  }

  // --- calls that ask for something --------------------------------------------------------------

  lemma FoundExactlyWhenThere(p: Peer, id: nat)
    requires DistinctIds(p)
    ensures var position := Find(p.lines, WithId(id));
            && (MayChangeLine(p, id) <==> position < |p.lines| && p.lines[position].state != Propagated)
            && forall j :: 0 <= j < |p.lines| && p.lines[j].id == id ==> j == position
  {
    var position := Find(p.lines, WithId(id));
    forall j | 0 <= j < |p.lines| && p.lines[j].id == id ensures j == position {
      assert Matches(WithId(id), p.lines[j]);
    }
    hide Find;
  }

  /** Only the line asked for has other codecs. */
  lemma CodecChangeIsExact(p: Peer, id: nat, payloadType: u8, add: Option<Codec>)
    requires DistinctIds(p)
    ensures var p' := ChangeCodec(p, id, payloadType, add);
            && p'.senders == p.senders && p'.nextId == p.nextId && |p'.lines| == |p.lines|
            && forall j :: 0 <= j < |p.lines| ==>
                 && p'.lines[j].id == p.lines[j].id
                 && p'.lines[j].codecs ==
                    if p.lines[j].id != id || !MayChangeLine(p, id) then p.lines[j].codecs
                    else WithoutCodec(p.lines[j].codecs, payloadType) + if add.Some? then [add.value] else []
  {
    hide Find, WithoutCodec, MayChangeLine, DistinctIds;
    FoundExactlyWhenThere(p, id);
    var position := Find(p.lines, WithId(id));
    if position < |p.lines| {
      var kept := WithoutCodec(p.lines[position].codecs, payloadType);
      assert kept + [] == kept;
    }
  }

  /** Only the sender asked for has other properties; `dropped` is the one that is closed, if any. */
  ghost predicate SenderCallIsExact(p: Peer, p': Peer, call: Call) {
    && p'.lines == p.lines && p'.nextId == p.nextId && p'.senders.Keys == p.senders.Keys
    && forall ssrc :: ssrc in p.senders ==>
         && p'.senders[ssrc].properties == PropertiesAfter(p, call, ssrc, p.senders[ssrc].properties)
         && (p'.senders[ssrc].closed <==> p.senders[ssrc].closed || call == DropsSender(ssrc))
  }

  lemma SenderCallsAreExact(p: Peer, call: Call)
    requires call.RegistersProperty? || call.UnsetsProperty? || call.DropsSender?
    ensures SenderCallIsExact(p, Local(p, call), call)
  {
    if call.UnsetsProperty? && call.ssrc in p.senders && call.key !in p.senders[call.ssrc].properties {
      assert p.senders[call.ssrc].properties - {call.key} == p.senders[call.ssrc].properties;
    }
  }

  /** A new sender has the properties it was made with; no line has other codecs. */
  lemma CreationIsExact(p: Peer, mediaType: MediaType, ssrc: u32, initial: Properties)
    ensures var p' := CreateSender(p, mediaType, ssrc, initial);
            && p.nextId <= p'.nextId && (forall j :: 0 <= j < |p'.lines| ==> Known(p, p'.lines[j]))
            && ssrc in p'.senders && p'.senders == p.senders[ssrc := p'.senders[ssrc]]
            && p'.senders[ssrc].properties == initial && !p'.senders[ssrc].closed
  {
    hide Find, Known;
    SameLinesKnown(p, CreateSender(p, mediaType, ssrc, initial));
  }

  // --- whole runs --------------------------------------------------------------------------------

  lemma LastEvent(events: seq<Event>, event: Event)
    requires Reached(events + [event]).Some?
    ensures Reached(events).Some? && (event.Calls? ==> Allowed(Reached(events).value, event.call))
    ensures Reached(events + [event]).value == Step(Reached(events).value, event)
  {
    hide Step, Allowed;
    assert (events + [event])[..|events|] == events;
  }

  predicate AsksNothing(event: Event) {
    event.Calls? ==> event.call.OpensApplicationChannel? || event.call.Polls?
  }

  lemma WishesStay(events: seq<Event>, event: Event)
    requires Reached(events + [event]).Some? && Reached(events).Some? && AsksNothing(event)
    ensures forall id :: CodecsOf(events + [event], id) == CodecsOf(events, id)
    ensures forall ssrc :: PropertiesOf(events + [event], ssrc) == PropertiesOf(events, ssrc)
    ensures forall ssrc :: IsDropped(events + [event], ssrc) == IsDropped(events, ssrc)
  {
    assert (events + [event])[..|events|] == events;
    hide Reached;
  }

  lemma AskingNothingFulfils(events: seq<Event>, event: Event, types: seq<MediaType>)
    requires Reached(events + [event]).Some? && Reached(events).Some? && AsksNothing(event)
    requires Fulfilled(events, Reached(events).value)
    requires Housed(Reached(events).value) && Invariant(Reached(events).value, types)
    ensures Fulfilled(events + [event], Reached(events + [event]).value)
  {
    hide Fulfilled, Housed, Invariant, SameWishes, Reached, CreateLocalDescription, SetRemoteDescription,
         OpenApplicationChannel, Poll;
    LastEvent(events, event);
    WishesStay(events, event);
    var p := Reached(events).value;
    match event {
      case Calls(OpensApplicationChannel) => OpeningKeepsWishes(p);
      case Calls(Polls) => PolledKeepsWishes(p, types);
      case Describes => DescribingKeepsWishes(p, types);
      case Applies(description, mode, fault) => ApplyingKeepsWishes(p, description, mode, fault);
    }
    SameWishesFulfil(events, event);
  }

  lemma ChangingCodecFulfils(events: seq<Event>, line: nat, payloadType: u8, add: Option<Codec>)
    requires Reached(events + [Calls(ChangesCodec(line, payloadType, add))]).Some? && Reached(events).Some?
    requires Fulfilled(events, Reached(events).value) && DistinctIds(Reached(events).value)
    ensures Fulfilled(events + [Calls(ChangesCodec(line, payloadType, add))],
                      Reached(events + [Calls(ChangesCodec(line, payloadType, add))]).value)
  {
    var event := Calls(ChangesCodec(line, payloadType, add));
    LastEvent(events, event);
    CodecChangeIsExact(Reached(events).value, line, payloadType, add);
    CodecWish(events, line, payloadType, add);
    hide Reached, ChangeCodec, WithoutCodec, MayChangeLine, CodecsOf, PropertiesOf, IsDropped;
    var p, p' := Reached(events).value, Reached(events + [event]).value;
    forall j | 0 <= j < |p'.lines| ensures LineHas(events + [event], p'.lines[j]) {
      assert LineHas(events, p.lines[j]);
    }
    forall ssrc | ssrc in p'.senders ensures SenderHas(events + [event], ssrc, p'.senders[ssrc]) {
      assert SenderHas(events, ssrc, p.senders[ssrc]);
    }
  }

  lemma CodecWish(events: seq<Event>, line: nat, payloadType: u8, add: Option<Codec>)
    requires Reached(events + [Calls(ChangesCodec(line, payloadType, add))]).Some? && Reached(events).Some?
    requires DistinctIds(Reached(events).value)
    ensures var longer, p := events + [Calls(ChangesCodec(line, payloadType, add))], Reached(events).value;
            && (forall id :: CodecsOf(longer, id) ==
                  if line != id || !MayChangeLine(p, id) then CodecsOf(events, id)
                  else WithoutCodec(CodecsOf(events, id), payloadType) + if add.Some? then [add.value] else [])
            && (forall id: nat :: MayChangeLine(p, id) ==> id < p.nextId)
            && (forall ssrc :: PropertiesOf(longer, ssrc) == PropertiesOf(events, ssrc))
            && forall ssrc :: IsDropped(longer, ssrc) == IsDropped(events, ssrc)
  {
    var event := Calls(ChangesCodec(line, payloadType, add));
    assert (events + [event])[..|events|] == events;
    hide Reached, WithoutCodec;
  }

  predicate IsOfSender(call: Call) {
    call.RegistersProperty? || call.UnsetsProperty? || call.DropsSender? || call.CreatesSender?
  }

  lemma PropertiesWish(events: seq<Event>, call: Call, ssrc: u32)
    requires Reached(events + [Calls(call)]).Some? && Reached(events).Some?
    ensures PropertiesOf(events + [Calls(call)], ssrc)
         == PropertiesAfter(Reached(events).value, call, ssrc, PropertiesOf(events, ssrc))
  {
    hide Reached, PropertiesAfter;
    assert (events + [Calls(call)])[..|events|] == events;
  }

  lemma DropWish(events: seq<Event>, call: Call, ssrc: u32)
    requires Reached(events + [Calls(call)]).Some? && Reached(events).Some? && IsOfSender(call)
    ensures IsDropped(events + [Calls(call)], ssrc) ==
            if call.CreatesSender? && call.ssrc == ssrc then false
            else IsDropped(events, ssrc) || call == DropsSender(ssrc)
  {
    hide Reached;
    assert (events + [Calls(call)])[..|events|] == events;
  }

  lemma CodecsStay(events: seq<Event>, call: Call, id: nat)
    requires Reached(events + [Calls(call)]).Some? && Reached(events).Some? && IsOfSender(call)
    ensures CodecsOf(events + [Calls(call)], id) == CodecsOf(events, id)
  {
    hide Reached;
    assert (events + [Calls(call)])[..|events|] == events;
  }

  lemma SenderWish(events: seq<Event>, call: Call)
    requires Reached(events + [Calls(call)]).Some? && Reached(events).Some? && IsOfSender(call)
    ensures var longer, p := events + [Calls(call)], Reached(events).value;
            && (forall id :: CodecsOf(longer, id) == CodecsOf(events, id))
            && (forall ssrc :: PropertiesOf(longer, ssrc) == PropertiesAfter(p, call, ssrc, PropertiesOf(events, ssrc)))
            && (forall ssrc :: IsDropped(longer, ssrc) ==
                  if call.CreatesSender? && call.ssrc == ssrc then false
                  else IsDropped(events, ssrc) || call == DropsSender(ssrc))
  {
    hide Reached, CodecsOf, PropertiesOf, IsDropped, IsOfSender, PropertiesAfter;
    var longer, p := events + [Calls(call)], Reached(events).value;
    forall id: nat ensures CodecsOf(longer, id) == CodecsOf(events, id) {
      CodecsStay(events, call, id);
    }
    forall ssrc: u32
      ensures PropertiesOf(longer, ssrc) == PropertiesAfter(p, call, ssrc, PropertiesOf(events, ssrc))
      ensures IsDropped(longer, ssrc) ==
              if call.CreatesSender? && call.ssrc == ssrc then false
              else IsDropped(events, ssrc) || call == DropsSender(ssrc)
    {
      PropertiesWish(events, call, ssrc);
      DropWish(events, call, ssrc);
    }
  }

  lemma SenderCallFulfils(events: seq<Event>, call: Call)
    requires Reached(events + [Calls(call)]).Some? && Reached(events).Some?
    requires Fulfilled(events, Reached(events).value)
    requires call.RegistersProperty? || call.UnsetsProperty? || call.DropsSender?
    ensures Fulfilled(events + [Calls(call)], Reached(events + [Calls(call)]).value)
  {
    LastEvent(events, Calls(call));
    SenderWish(events, call);
    SenderCallsAreExact(Reached(events).value, call);
    hide Reached, Local, MayChangeSender, CodecsOf, PropertiesOf, IsDropped;
    var longer, p, p' := events + [Calls(call)], Reached(events).value, Reached(events + [Calls(call)]).value;
    forall j | 0 <= j < |p'.lines| ensures LineHas(longer, p'.lines[j]) {
      assert LineHas(events, p.lines[j]);
    }
    forall ssrc | ssrc in p'.senders ensures SenderHas(longer, ssrc, p'.senders[ssrc]) {
      assert SenderHas(events, ssrc, p.senders[ssrc]);
    }
  }

  lemma CreatingFulfils(events: seq<Event>, mediaType: MediaType, ssrc: u32, initial: Properties)
    requires Reached(events + [Calls(CreatesSender(mediaType, ssrc, initial))]).Some? && Reached(events).Some?
    requires Fulfilled(events, Reached(events).value)
    ensures Fulfilled(events + [Calls(CreatesSender(mediaType, ssrc, initial))],
                      Reached(events + [Calls(CreatesSender(mediaType, ssrc, initial))]).value)
  {
    var call := CreatesSender(mediaType, ssrc, initial);
    LastEvent(events, Calls(call));
    SenderWish(events, call);
    CreationIsExact(Reached(events).value, mediaType, ssrc, initial);
    hide Reached, CreateSender, CodecsOf, PropertiesOf, IsDropped;
    var longer, p, p' := events + [Calls(call)], Reached(events).value, Reached(events + [Calls(call)]).value;
    forall j | 0 <= j < |p'.lines| ensures LineHas(longer, p'.lines[j]) {
      assert Known(p, p'.lines[j]);
      if k :| 0 <= k < |p.lines| && p.lines[k].id == p'.lines[j].id && p.lines[k].codecs == p'.lines[j].codecs {
        assert LineHas(events, p.lines[k]);
      }
    }
    forall s | s in p'.senders ensures SenderHas(longer, s, p'.senders[s]) {
      assert s != ssrc ==> SenderHas(events, s, p.senders[s]);
    }
  }

  lemma OneMoreFulfils(events: seq<Event>, event: Event, types: seq<MediaType>)
    requires Reached(events + [event]).Some? && Reached(events).Some? && Fulfilled(events, Reached(events).value)
    requires Housed(Reached(events).value) && Invariant(Reached(events).value, types)
    ensures Fulfilled(events + [event], Reached(events + [event]).value)
  {
    hide Fulfilled, Housed, Invariant, Reached;
    match event
    case Calls(CreatesSender(mediaType, ssrc, initial)) => CreatingFulfils(events, mediaType, ssrc, initial);
    case Calls(ChangesCodec(line, payloadType, add)) =>
      InvariantDistinct(Reached(events).value, types);
      ChangingCodecFulfils(events, line, payloadType, add);
    case Calls(OpensApplicationChannel) => AskingNothingFulfils(events, event, types);
    case Calls(Polls) => AskingNothingFulfils(events, event, types);
    case Calls(call) => SenderCallFulfils(events, call);
    case _ => AskingNothingFulfils(events, event, types);
  }

  lemma InvariantDistinct(p: Peer, types: seq<MediaType>)
    requires Invariant(p, types)
    ensures DistinctIds(p)
  {
  }

  /** Over every run, each line has the codecs and each sender the properties that were asked for and not refused. */
  lemma {:induction false} WishesAreFulfilled(events: seq<Event>)
    requires Reached(events).Some?
    ensures Fulfilled(events, Reached(events).value)
  {
    if events == [] {
    } else {
      var earlier := events[..|events| - 1];
      assert events == earlier + [events[|events| - 1]];
      WishesAreFulfilled(earlier);
      RunHouses(earlier);
      var types := RunKeepsInvariant(earlier);
      hide Reached, Fulfilled, Housed, Invariant;
      OneMoreFulfils(earlier, events[|events| - 1], types);
    }
  }

  // --- what descriptions say ---------------------------------------------------------------------

  /** The section of index i is about the line with that index. */
  lemma SectionIsOfLine(p: Peer, types: seq<MediaType>, isOffer: bool, j: nat)
    requires Invariant(p, types) && j < |p.lines| && p.lines[j].sdpIndex.Some?
    ensures var i, description := p.lines[j].sdpIndex.value, Describe(p, isOffer);
            i < |description| && description[i] == MediaOf(p, p.lines[j], isOffer)
  {
    hide MediaOf, Registered, NextIndex;
    InvariantIndexes(p, types);
    NextIndexCounts(p.lines, types);
    RegisteredInOrder(p.lines, types, 0, |types|);
    var i := p.lines[j].sdpIndex.value;
    var line := RegisteredLines(p.lines)[i];
    assert line in p.lines && line.sdpIndex == Some(i);
  }

  /** Sending is having a sender; receiving is offering to, or having been told of the other end's streams. */
  ghost predicate DirectionTells(media: Media, receives: bool) {
    && (media.direction == Sendrecv || media.direction == Sendonly <==> media.streams != map[])
    && (media.direction == Sendrecv || media.direction == Recvonly <==> receives)
  }

  lemma SendersAreStreams(p: Peer, line: Line)
    requires Housed(p) && DistinctIds(p) && line in p.lines
    ensures line.localStreams == [] <==> StreamsOf(p, line.id) == map[]
  {
    HousedOneEach(p);
    hide Housed, DistinctIds, HasHome;
    var j :| 0 <= j < |p.lines| && p.lines[j] == line;
    if line.localStreams == [] {
      assert forall ssrc :: ssrc !in StreamsOf(p, line.id);
    } else {
      assert line.localStreams[0] in p.lines[j].localStreams;
      assert line.localStreams[0] in StreamsOf(p, line.id);
    }
  }

  lemma MediaTells(p: Peer, line: Line, isOffer: bool)
    requires Housed(p) && DistinctIds(p) && line in p.lines && line.mediaType != Application
    ensures var media := MediaOf(p, line, isOffer);
            && media.mediaType == line.mediaType && media.codecs == line.codecs && media.streams == StreamsOf(p, line.id)
            && DirectionTells(media, isOffer || line.remoteStreams != {})
  {
    hide Housed, DistinctIds, StreamsOf;
    SendersAreStreams(p, line);
  }

  /** What a section says of a line with this identifier. */
  ghost predicate SaysWhatWasAsked(events: seq<Event>, id: nat, media: Media)
    requires Reached(events).Some?
  {
    var senders := Reached(events).value.senders;
    && media.codecs == CodecsOf(events, id) && media.codecs != []
    && (forall ssrc :: ssrc in media.streams <==>
          ssrc in senders && senders[ssrc].line == id && !IsDropped(events, ssrc))
    && forall ssrc :: ssrc in media.streams ==> media.streams[ssrc] == PropertiesOf(events, ssrc)
  }

  lemma StreamsWereAsked(events: seq<Event>, prepared: Peer, line: Line, media: Media)
    requires Reached(events).Some? && Fulfilled(events, Reached(events).value)
    requires prepared.senders == Reached(events).value.senders - ClosedSenders(Reached(events).value)
    requires media.codecs == line.codecs == CodecsOf(events, line.id) && line.codecs != []
    requires media.streams == StreamsOf(prepared, line.id)
    ensures SaysWhatWasAsked(events, line.id, media)
  {
    hide Reached, CodecsOf, PropertiesOf, IsDropped;
    var p := Reached(events).value;
    forall ssrc | ssrc in p.senders
      ensures p.senders[ssrc].properties == PropertiesOf(events, ssrc)
      ensures p.senders[ssrc].closed == IsDropped(events, ssrc)
    {
      assert SenderHas(events, ssrc, p.senders[ssrc]);
    }
  }

  lemma PreparedSenders(p: Peer, types: seq<MediaType>)
    requires Housed(p) && Invariant(p, types)
    ensures Prepared(p).senders == p.senders - ClosedSenders(p) && Prepared(p).transport == p.transport
  {
    hide Housed, Invariant, RemoveSenders, AssignFrom, Swept;
    var numbered := if p.signalling == HaveRemoteOffer then p
                    else p.(lines := AssignFrom(p.lines, 0, NextIndex(p.lines)));
    var types' := types;
    if p.signalling != HaveRemoteOffer {
      types' := NumberedKeeps(p, types);
    }
    AssignKeepsSenders(p.lines, 0, NextIndex(p.lines));
    SameHomesHouse(p, numbered);
    PollSweeps(numbered, types');
  }

  lemma PreparedCodecs(events: seq<Event>, types: seq<MediaType>, j: nat)
    requires Reached(events).Some? && Fulfilled(events, Reached(events).value)
    requires Housed(Reached(events).value) && Invariant(Reached(events).value, types)
    requires j < |Prepared(Reached(events).value).lines|
    ensures LineHas(events, Prepared(Reached(events).value).lines[j])
  {
    hide Reached, Housed, Invariant, Prepared, CodecsOf, PropertiesOf, IsDropped;
    var p := Reached(events).value;
    PreparingKeepsWishes(p, types);
    var line := Prepared(p).lines[j];
    assert Known(p, line);
    if k :| 0 <= k < |p.lines| && p.lines[k].id == line.id && p.lines[k].codecs == line.codecs {
      assert LineHas(events, p.lines[k]);
    }
  }

  /**
   * Over every run, a description that is generated has, for each line with an index, a section at that index with the
   * codecs asked for, and the senders that are hosted there and not dropped, with the properties asked for. Its direction
   * says whether there is a sender, and whether the other end may send or has said that it does.
   */
  lemma DescriptionsSayWhatWasAsked(events: seq<Event>, j: nat)
    requires Reached(events).Some? && CreateLocalDescription(Reached(events).value).0.Ok?
    requires var after := CreateLocalDescription(Reached(events).value).1;
             j < |after.lines| && after.lines[j].sdpIndex.Some?
    ensures var p := Reached(events).value;
            var (description, after) := CreateLocalDescription(p);
            var i, line := after.lines[j].sdpIndex.value, after.lines[j];
            && i < |description.value| && description.value[i].mediaType == line.mediaType
            && description.value[i].setup == DescribedSetup(p.transport.setup)
            && (if line.mediaType == Application then description.value[i].streams == map[]
                else
                  && SaysWhatWasAsked(events, line.id, description.value[i])
                  && DirectionTells(description.value[i], p.signalling != HaveRemoteOffer || line.remoteStreams != {}))
  {
    hide Reached, Housed, Invariant, Prepared, Describe, DescribedBy, PromoteSenders, MediaOf, SaysWhatWasAsked,
         DirectionTells, Fulfilled, StreamsOf;
    var p := Reached(events).value;
    var isOffer := p.signalling != HaveRemoteOffer;
    RunHouses(events);
    WishesAreFulfilled(events);
    var types := RunKeepsInvariant(events);
    var types' := PreparedKeeps(p, types);
    PreparedHouses(p, types);
    PreparedSenders(p, types);
    SectionIsOfLine(Prepared(p), types', isOffer, j);
    PreparedCodecs(events, types, j);
    InvariantDistinct(Prepared(p), types');
    SectionSetup(Prepared(p), Prepared(p).lines[j], isOffer);
    if Prepared(p).lines[j].mediaType != Application {
      MediaTells(Prepared(p), Prepared(p).lines[j], isOffer);
      StreamsWereAsked(events, Prepared(p), Prepared(p).lines[j], MediaOf(Prepared(p), Prepared(p).lines[j], isOffer));
    }
  }

  lemma SectionSetup(p: Peer, line: Line, isOffer: bool)
    ensures var media := MediaOf(p, line, isOffer);
            && media.setup == DescribedSetup(p.transport.setup) && media.mediaType == line.mediaType
            && (line.mediaType == Application ==> media.streams == map[])
  {
  }
}
