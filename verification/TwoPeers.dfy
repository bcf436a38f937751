/**
 * Two ends joined by ordered signalling channels, as in the offer/answer model of RFC 3264: agreement on the media
 * lines, setup roles and glare, over every interleaving (src/rtc.rs, src/transport/mod.rs, src/application.rs).
 */
module TwoPeers {
  import opened Prelude
  import opened SortedKeySets
  import opened Negotiation
  import opened NegotiationInvariants

  datatype Message = Message(mode: Mode, description: Description)

  /**
   * `failedA` says that lines of the first end have got indices for an offer that then could not be generated, `refusedA`
   * that the second end has refused a description; both, that the first end has generated none since. No code keeps them.
   */
  datatype System = System(
    a: Peer,
    b: Peer,
    toA: seq<Message>,
    toB: seq<Message>,
    failedA: bool,
    failedB: bool,
    refusedA: bool,
    refusedB: bool)

  /** What one end does next; a description it cannot generate changes its state all the same. */
  datatype Move = Changes(call: Call) | SendsDescription | Receives

  function NewSystem(): System {
    System(NewPeer(), NewPeer(), [], [], false, false, false, false)
  }

  function Swap(s: System): System {
    System(s.b, s.a, s.toB, s.toA, s.failedB, s.failedA, s.refusedB, s.refusedA)
  }

  /** The system with one of its ends as the first. */
  function Facing(s: System, atA: bool): System {
    if atA then s else Swap(s)
  }

  ghost predicate Enabled(s: System, move: Move) {
    match move
    case Changes(call) => Allowed(s.a, call) && !(call.CreatesSender? && call.mediaType == Application)
    case SendsDescription => true
    case Receives => s.toA != []
  }

  function ModeOf(p: Peer): Mode {
    if p.signalling == HaveRemoteOffer then Answer else Offer
  }

  ghost function Reception(p: Peer, message: Message): (Option<ApplyError>, Peer) {
    SetRemoteDescription(p, message.description, message.mode, None)
  }

  /** A move of the first end. */
  ghost function MoveA(s: System, move: Move): System
    requires Enabled(s, move)
  {
    match move
    case Changes(call) => s.(a := Local(s.a, call))
    case SendsDescription =>
      var (description, a) := CreateLocalDescription(s.a);
      if description.Ok? then
        s.(a := a, toB := s.toB + [Message(ModeOf(s.a), description.value)], failedA := false, refusedA := false)
      else
        s.(a := a, failedA := s.failedA || NextIndex(a.lines) > NextIndex(s.a.lines))
    case Receives =>
      var (error, a) := Reception(s.a, s.toA[0]);
      s.(a := a, toA := s.toA[1..], refusedB := s.refusedB || error.Some?)
  }

  ghost predicate EnabledAt(s: System, atA: bool, move: Move) {
    if atA then Enabled(s, move) else Enabled(Swap(s), move)
  }

  ghost function Next(s: System, atA: bool, move: Move): System
    requires EnabledAt(s, atA, move)
  {
    if atA then MoveA(s, move) else Swap(MoveA(Swap(s), move))
  }

  /** The system after a run from `s`, if every move of it was possible when made. */
  ghost function After(s: System, moves: seq<(bool, Move)>): Option<System>
    decreases |moves|
  {
    if moves == [] then Some(s)
    else
      var before, move := After(s, moves[..|moves| - 1]), moves[|moves| - 1];
      if before.Some? && EnabledAt(before.value, move.0, move.1) then Some(Next(before.value, move.0, move.1)) else None
  }

  // --- roles -------------------------------------------------------------------------------------

  const UNDECIDED := Transport(Unset, false)
  const CLIENT := Transport(Active, true)
  const SERVER := Transport(Passive, true)

  predicate Complementary(t: Transport, t': Transport) {
    || (t == UNDECIDED && t' in {UNDECIDED, SERVER})
    || (t == SERVER && t' in {UNDECIDED, CLIENT})
    || (t == CLIENT && t' == SERVER)
  }

  predicate HasRole(p: Peer) {
    p.channels.Some? && p.channels.value.configured
  }

  /** The channels have a role exactly as the transport does. */
  predicate RoleFollowsSetup(p: Peer) {
    HasRole(p) ==> p.transport.hasRemote && p.channels.value.dtlsRoleClient == (p.transport.setup == Active)
  }

  ghost function Kinds(lines: seq<Line>): set<MediaType> {
    set j | 0 <= j < |lines| :: lines[j].mediaType
  }

  ghost predicate Hosted(p: Peer) {
    Application in Kinds(p.lines) ==> p.channels.Some?
  }

  ghost predicate Ready(p: Peer) {
    RoleFollowsSetup(p) && Hosted(p)
  }

  /** Same transport and channels, no new kind of line. */
  ghost predicate SameSide(p: Peer, p': Peer) {
    p'.transport == p.transport && p'.channels == p.channels && Kinds(p'.lines) <= Kinds(p.lines)
  }

  lemma SameSideStaysReady(p: Peer, p': Peer)
    requires SameSide(p, p') && Ready(p)
    ensures Ready(p')
  {
  }

  lemma RemoveSenderSameSide(p: Peer, ssrc: u32)
    requires ssrc in p.senders
    ensures SameSide(p, RemoveSender(p, ssrc))
  {
    var p' := RemoveSender(p, ssrc);
    var position := Find(p.lines, WithId(p.senders[ssrc].line));
    forall j | 0 <= j < |p'.lines| ensures p'.lines[j].mediaType in Kinds(p.lines) {
      var k := if |p'.lines| < |p.lines| && j >= position then j + 1 else j;
      assert p'.lines[j].mediaType == p.lines[k].mediaType;
    }
  }

  lemma {:induction false} RemoveSendersSameSide(p: Peer, list: seq<u32>)
    ensures SameSide(p, RemoveSenders(p, list))
    decreases |list|
  {
    hide RemoveSender;
    if list != [] {
      var rest := p;
      if list[0] in p.senders {
        RemoveSenderSameSide(p, list[0]);
        rest := RemoveSender(p, list[0]);
      }
      RemoveSendersSameSide(rest, list[1..]);
    }
  }

  lemma CreateSenderKinds(p: Peer, mediaType: MediaType, ssrc: u32, initial: Properties)
    ensures var p' := CreateSender(p, mediaType, ssrc, initial);
            && Kinds(p'.lines) <= Kinds(p.lines) + {mediaType}
            && p'.transport == p.transport && p'.channels == p.channels
  {
    hide Find;
  }

  lemma ChangeCodecSameSide(p: Peer, lineId: nat, payloadType: u8, add: Option<Codec>)
    ensures SameSide(p, ChangeCodec(p, lineId, payloadType, add))
  {
    hide Find, WithoutCodec;
  }

  lemma LocalStaysReady(p: Peer, call: Call)
    requires Ready(p) && !(call.CreatesSender? && call.mediaType == Application)
    ensures Ready(Local(p, call)) && Local(p, call).transport == p.transport
  {
    hide CreateSender, ChangeCodec, RemoveSenders;
    match call
    case Polls =>
      RemoveSendersSameSide(p, SortedKeys(ClosedSenders(p)));
      SameSideStaysReady(p, PollSenders(p));
    case CreatesSender(mediaType, ssrc, initial) => CreateSenderKinds(p, mediaType, ssrc, initial);
    case ChangesCodec(line, payloadType, add) => ChangeCodecSameSide(p, line, payloadType, add);
    case _ =>
  }

  lemma {:induction false} AssignSameTypes(lines: seq<Line>, position: nat, next: nat)
    requires position <= |lines|
    ensures forall j :: 0 <= j < |lines| ==> AssignFrom(lines, position, next)[j].mediaType == lines[j].mediaType
    decreases |lines| - position
  {
    if position == |lines| {
    } else if lines[position].sdpIndex.Some? {
      AssignSameTypes(lines, position + 1, next);
    } else {
      AssignSameTypes(lines[position := lines[position].(sdpIndex := Some(next))], position + 1, next + 1);
    }
  }

  lemma PreparedSameSide(p: Peer)
    ensures SameSide(p, Prepared(p))
  {
    hide RemoveSenders;
    AssignSameTypes(p.lines, 0, NextIndex(p.lines));
    var numbered := if p.signalling == HaveRemoteOffer then p
                    else p.(lines := AssignFrom(p.lines, 0, NextIndex(p.lines)));
    assert SameSide(p, numbered);
    RemoveSendersSameSide(numbered, SortedKeys(ClosedSenders(numbered)));
  }

  lemma CreateSameSide(p: Peer)
    ensures SameSide(p, CreateLocalDescription(p).1)
  {
    hide Prepared, DescribedBy, PromoteSenders, Describe;
    PreparedSameSide(p);
    if p.signalling != HaveLocalOffer && p.signalling != Stable && CanDescribeAll(Prepared(p)) {
      var p' := CreateLocalDescription(p).1;
      forall j | 0 <= j < |p'.lines| ensures p'.lines[j].mediaType in Kinds(Prepared(p).lines) {
        assert p'.lines[j].mediaType == Prepared(p).lines[j].mediaType;
      }
    }
  }

  // --- one section of what the other end says ----------------------------------------------------

  /** What a description says of the end that generated it. */
  ghost predicate Says(message: Message, transport: Transport) {
    forall i :: 0 <= i < |message.description| ==>
      && message.description[i].setup == DescribedSetup(transport.setup)
      && (message.mode == Offer || message.description[i].mediaType == Application ==>
            message.description[i].direction != Inactive)
  }

  /** What is kept of the roles by a section. */
  ghost predicate StaysConnected(p: Peer, p': Peer, other: Transport) {
    && Ready(p') && Complementary(other, p'.transport)
    && (p.transport != UNDECIDED ==> p'.transport == p.transport)
  }

  /** A readable section applies; where nothing is decided yet, it must not be an inactive one for an application line. */
  lemma SectionIsRead(p: Peer, other: Transport, i: nat, media: Media)
    requires Ready(p) && Complementary(other, p.transport)
    requires media.setup == DescribedSetup(other.setup)
    requires media.mediaType == Application ==> media.direction != Inactive
    requires var (lines, position) := Claim(p.lines, i, media.mediaType);
             position < |lines| ==>
               && Readable(lines[position], media)
               && (p.transport != UNDECIDED || media.direction != Inactive || lines[position].mediaType != Application)
    ensures ApplyMedia(p, i, media).Ok? && StaysConnected(p, ApplyMedia(p, i, media).value, other)
    ensures p.transport == UNDECIDED ==>
              (ApplyMedia(p, i, media).value.transport == UNDECIDED <==> media.direction == Inactive)
  {
    var (lines, position) := Claim(p.lines, i, media.mediaType);
    ClaimSameKinds(p.lines, i, media.mediaType);
    if position < |lines| {
      assert lines[position].mediaType in Kinds(p.lines);
    }
    hide Claim;
  }

  /** An unreadable one fails once the transport and the line's remote streams are updated. */
  lemma SectionIsUnreadable(p: Peer, other: Transport, i: nat, media: Media)
    requires Ready(p) && Complementary(other, p.transport)
    requires media.setup == DescribedSetup(other.setup)
    requires media.mediaType == Application ==> media.direction != Inactive
    requires var (lines, position) := Claim(p.lines, i, media.mediaType);
             position < |lines| && !Readable(lines[position], media)
    ensures var (error, p') := ApplySection(p, i, media, None);
            error == Some(MissingCodecDescription) && StaysConnected(p, p', other)
  {
    ClaimSameKinds(p.lines, i, media.mediaType);
    UpdateSameKinds(p, i, media);
    hide Claim;
  }

  lemma UpdateSameKinds(p: Peer, i: nat, media: Media)
    requires Claiming(p, i, media).1 < |Claiming(p, i, media).0.lines|
    ensures var (claimed, position) := Claiming(p, i, media);
            Kinds(Updating(claimed, position, media).lines) <= Kinds(claimed.lines)
  {
    hide Claim;
  }

  lemma ClaimSameKinds(lines: seq<Line>, i: nat, mediaType: MediaType)
    ensures Kinds(Claim(lines, i, mediaType).0) <= Kinds(lines)
  {
  }

  lemma ClaimHasType(p: Peer, types: seq<MediaType>, i: nat, mediaType: MediaType)
    requires Invariant(p, types) && i <= |types|
    ensures var (lines, position) := Claim(p.lines, i, mediaType);
            && (i < |types| ==> position < |lines| && lines[position].mediaType == types[i])
            && (i == |types| && position < |lines| ==> lines[position].mediaType == mediaType)
  {
    IndexInUse(p.lines, types, i);
  }

  // --- clashes -----------------------------------------------------------------------------------

  /** A section is of another media type than the line that already has its index. */
  predicate Clashes(p: Peer, description: Description) {
    exists j :: 0 <= j < |p.lines| && p.lines[j].sdpIndex.Some? && p.lines[j].sdpIndex.value < |description|
                && p.lines[j].mediaType != description[p.lines[j].sdpIndex.value].mediaType
  }

  predicate Comparable(x: seq<MediaType>, y: seq<MediaType>) {
    x <= y || y <= x
  }

  function Longer(x: seq<MediaType>, y: seq<MediaType>): seq<MediaType> {
    if |y| <= |x| then x else y
  }

  lemma ClashesExactlyWhenNotComparable(p: Peer, types: seq<MediaType>, description: Description)
    requires Indexed(p.lines, types)
    ensures Clashes(p, description) <==> !Comparable(types, MediaTypes(description))
  {
    var spoken := MediaTypes(description);
    if !Clashes(p, description) {
      forall i | 0 <= i < |types| && i < |spoken| ensures types[i] == spoken[i] {
        assert Matches(WithIndex(i), p.lines[Find(p.lines, WithIndex(i))]);
      }
    }
  }

  // --- a whole description -----------------------------------------------------------------------

  /** Some section from `from` on is of an application where the list has audio or video. */
  ghost predicate ForeignFrom(types: seq<MediaType>, spoken: seq<MediaType>, from: nat) {
    exists i :: from <= i < |types| && i < |spoken| && spoken[i] == Application && types[i] != Application
  }

  ghost predicate Foreign(types: seq<MediaType>, spoken: seq<MediaType>) {
    ForeignFrom(types, spoken, 0)
  }

  /** An application section meets an audio or video line that already has its index. */
  predicate Unreadable(p: Peer, description: Description) {
    exists j :: 0 <= j < |p.lines| && p.lines[j].sdpIndex.Some? && p.lines[j].sdpIndex.value < |description|
                && !Readable(p.lines[j], description[p.lines[j].sdpIndex.value])
  }

  lemma UnreadableByType(p: Peer, types: seq<MediaType>, description: Description)
    requires Indexed(p.lines, types)
    ensures Unreadable(p, description) <==> Foreign(types, MediaTypes(description))
  {
    var spoken := MediaTypes(description);
    forall i | 0 <= i < |types| && i < |spoken| && spoken[i] == Application && types[i] != Application
      ensures Unreadable(p, description)
    {
      assert Matches(WithIndex(i), p.lines[Find(p.lines, WithIndex(i))]);
    }
  }

  /** The transport after reading the sections from `i` on. */
  ghost function Decided(t: Transport, other: Transport, description: Description, i: nat): Transport
    requires i <= |description|
  {
    if t != UNDECIDED || (forall j :: i <= j < |description| ==> description[j].direction == Inactive) then t
    else if other == SERVER then CLIENT else SERVER
  }

  lemma SectionIsMedia(p: Peer, i: nat, media: Media)
    ensures ApplyMedia(p, i, media).Ok? ==> ApplySection(p, i, media, None) == (None, ApplyMedia(p, i, media).value)
  {
    hide Claim;
  }

  /** No section can give the channels a role while the setup stays undecided. */
  ghost predicate Harmless(t: Transport, types: seq<MediaType>, description: Description, i: nat) {
    t == UNDECIDED ==>
      forall k :: i <= k < |description| && k < |types| && types[k] == Application ==> description[k].direction != Inactive
  }

  lemma {:induction false} DescriptionIsRead(p: Peer, types: seq<MediaType>, other: Transport, message: Message, i: nat)
    requires Invariant(p, types) && Ready(p) && Complementary(other, p.transport)
    requires Says(message, other) && Harmless(p.transport, types, message.description, i)
    requires i <= |types| && i <= |message.description|
    ensures var (error, p') := ApplyFrom(p, message.description, i, None);
            && error == (if ForeignFrom(types, MediaTypes(message.description), i) then Some(MissingCodecDescription)
                         else None)
            && StaysConnected(p, p', other)
            && (error.None? ==> p'.transport == Decided(p.transport, other, message.description, i))
    decreases |message.description| - i
  {
    hide Invariant, Ready, ApplyMedia, ApplySection;
    if i < |message.description| {
      var media := message.description[i];
      ClaimHasType(p, types, i, media.mediaType);
      if i < |types| && media.mediaType == Application && types[i] != Application {
        SectionIsUnreadable(p, other, i, media);
        assert MediaTypes(message.description)[i] == Application;
      } else {
        SectionIsRead(p, other, i, media);
        ApplyMediaKeeps(p, types, i, media);
        SectionIsMedia(p, i, media);
        DescriptionIsRead(ApplyMedia(p, i, media).value, if i < |types| then types else types + [media.mediaType],
                          other, message, i + 1);
      }
    }
  }

  lemma FinishSameSide(p: Peer)
    ensures SameSide(p, Finish(p))
  {
    var p' := Finish(p);
    forall j | 0 <= j < |p'.lines| ensures p'.lines[j].mediaType in Kinds(p.lines) {
      assert p'.lines[j].mediaType == p.lines[j].mediaType;
    }
  }

  /** Receiving what the other end says of itself: an error exactly for a section that is unreadable here. */
  lemma ReceptionOutcome(p: Peer, types: seq<MediaType>, message: Message, other: Transport)
    returns (types': seq<MediaType>)
    requires Invariant(p, types) && Ready(p) && Complementary(other, p.transport)
    requires Says(message, other) && Harmless(p.transport, types, message.description, 0)
    requires Accepts(p.signalling, message.mode)
    ensures var (error, p') := Reception(p, message);
            && error == (if Foreign(types, MediaTypes(message.description)) then Some(MissingCodecDescription) else None)
            && types <= types' && Invariant(p', types') && StaysConnected(p, p', other)
            && (error.Some? ==> p'.signalling == p.signalling)
            && (error.None? ==>
                  && types' == Extended(types, message.description)
                  && p'.signalling == (if p.signalling == HaveLocalOffer then Stable else HaveRemoteOffer)
                  && p'.transport == Decided(p.transport, other, message.description, 0))
  {
    hide Invariant, Ready, ApplyFrom, ForeignFrom, Decided;
    DescriptionIsRead(p, types, other, message, 0);
    types' := SetRemoteKeeps(p, types, message.description, message.mode, None);
    var applied := ApplyFrom(p, message.description, 0, None).1;
    var _ := ApplyFromKeeps(p, types, message.description, 0, None);
    FinishSameSide(applied);
    SameSideStaysReady(applied, Finish(applied));
  }

  lemma ExtendedToLonger(types: seq<MediaType>, description: Description, spoken: seq<MediaType>)
    requires Comparable(types, spoken) && MediaTypes(description) == spoken
    ensures Extended(types, description) == Longer(types, spoken)
  {
  }

  // --- the inductive invariant -------------------------------------------------------------------

  ghost predicate OnlyOffers(messages: seq<Message>) {
    forall i :: 0 <= i < |messages| ==> messages[i].mode == Offer
  }

  predicate AtRest(p: Peer) {
    p.signalling == Initial || p.signalling == Stable || p.signalling == NegotiationRequired
  }

  /**
   * Neither end waits for the other; an end's list is longer only by lines a failed offer has numbered. Here and below,
   * `clean` says that no offer taken up has clashed, which only the relation of the two lists depends on.
   */
  ghost predicate Quiet(s: System, ta: seq<MediaType>, tb: seq<MediaType>, clean: bool) {
    && AtRest(s.a) && AtRest(s.b) && s.toA == [] && s.toB == []
    && (s.a.signalling == Initial <==> s.b.signalling == Initial)
    && (clean && s.a.signalling != Initial ==> (s.failedA || ta <= tb) && (s.failedB || tb <= ta))
  }

  /** The first end's offer is on its way to the second, which accepts offers. */
  ghost predicate Offered(s: System, ta: seq<MediaType>, tb: seq<MediaType>, clean: bool) {
    && s.a.signalling == HaveLocalOffer && s.toA == [] && |s.toB| == 1 && s.toB[0].mode == Offer
    && Says(s.toB[0], s.a.transport) && MediaTypes(s.toB[0].description) == ta
    && (s.b.signalling == Initial || (s.b.signalling == Stable && (clean ==> tb <= ta)))
  }

  /** The second list covers the first and has applications wherever that has. */
  ghost predicate Covers(x: seq<MediaType>, y: seq<MediaType>) {
    |x| <= |y| && !Foreign(y, x)
  }

  /** The second end has accepted the offer. */
  ghost predicate Answering(s: System, ta: seq<MediaType>, tb: seq<MediaType>, clean: bool) {
    && s.a.signalling == HaveLocalOffer && s.b.signalling == HaveRemoteOffer && s.toA == [] && s.toB == []
    && Covers(ta, tb) && (clean ==> ta <= tb)
  }

  /** What the first message on its way to the first end speaks of. */
  ghost function Spoken(s: System): seq<MediaType>
    requires s.toA != []
  {
    MediaTypes(s.toA[0].description)
  }

  /** The first message on its way to the first end is an answer to its offer. */
  ghost predicate AnswerFirst(s: System, ta: seq<MediaType>, tb: seq<MediaType>, clean: bool) {
    && s.a.signalling == HaveLocalOffer && s.toB == []
    && s.toA != [] && s.toA[0].mode == Answer && Says(s.toA[0], s.b.transport)
    && Covers(ta, Spoken(s)) && Spoken(s) <= tb && (clean ==> ta <= Spoken(s))
  }

  /** The answer is on its way back. */
  ghost predicate Answered(s: System, ta: seq<MediaType>, tb: seq<MediaType>, clean: bool) {
    && AnswerFirst(s, ta, tb, clean) && |s.toA| == 1 && AtRest(s.b) && s.b.signalling != Initial
    && (clean ==> s.failedB || tb == Spoken(s))
  }

  /** The answer is on its way back, and behind it the second end's own next offer. */
  ghost predicate AnsweredAndOffered(s: System, ta: seq<MediaType>, tb: seq<MediaType>, clean: bool) {
    && AnswerFirst(s, ta, tb, clean) && |s.toA| == 2 && s.b.signalling == HaveLocalOffer
    && s.toA[1].mode == Offer && Says(s.toA[1], s.b.transport) && MediaTypes(s.toA[1].description) == tb
  }

  /** The first end's offer was or will be refused: the second end has, or is about to make, one of its own. */
  ghost predicate Glare(s: System) {
    && s.a.signalling == HaveLocalOffer
    && (s.b.signalling == NegotiationRequired || s.b.signalling == HaveLocalOffer)
    && OnlyOffers(s.toA) && OnlyOffers(s.toB)
  }

  /** The first end waits, while the second neither reads nor says anything for now. */
  ghost predicate Idle(s: System) {
    && s.a.signalling == HaveLocalOffer && (s.b.signalling == Initial || s.b.signalling == Stable)
    && s.toA == [] && s.toB == []
  }

  /** At some index exactly one of the ends has an application. */
  ghost predicate Apart(x: seq<MediaType>, y: seq<MediaType>) {
    Foreign(x, y) || Foreign(y, x)
  }

  /** A section was unreadable: the offer at the second end, or its answer at the first. */
  ghost predicate Spurned(s: System, ta: seq<MediaType>, tb: seq<MediaType>, clean: bool) {
    Idle(s) && Apart(ta, tb) && !clean
  }

  ghost predicate Leads(s: System, ta: seq<MediaType>, tb: seq<MediaType>, clean: bool) {
    || Offered(s, ta, tb, clean) || Answering(s, ta, tb, clean) || Answered(s, ta, tb, clean)
    || AnsweredAndOffered(s, ta, tb, clean) || Spurned(s, ta, tb, clean) || Glare(s)
  }

  /** Indices that no description has used yet can only be there until the next one is generated. */
  predicate FailsOnlyOutside(p: Peer, failed: bool) {
    failed ==> p.signalling != HaveLocalOffer && p.signalling != Stable
  }

  ghost predicate Ends(s: System, ta: seq<MediaType>, tb: seq<MediaType>) {
    && Invariant(s.a, ta) && Invariant(s.b, tb) && Ready(s.a) && Ready(s.b)
    && Complementary(s.a.transport, s.b.transport)
    && FailsOnlyOutside(s.a, s.failedA) && FailsOnlyOutside(s.b, s.failedB)
  }

  ghost predicate Coherent(s: System, ta: seq<MediaType>, tb: seq<MediaType>, clean: bool) {
    Ends(s, ta, tb) && (Quiet(s, ta, tb, clean) || Leads(s, ta, tb, clean) || Leads(Swap(s), tb, ta, clean))
  }

  /** The move takes up an offer one of whose sections is of another type than the receiver's line with its index. */
  ghost predicate ClashesAt(s: System, move: Move) {
    && move.Receives? && s.toA != [] && s.toA[0].mode == Offer && Accepts(s.a.signalling, Offer)
    && Clashes(s.a, s.toA[0].description)
  }

  /** No offer that was taken up on the way clashed with its receiver's lines. */
  ghost predicate Clean(s: System, moves: seq<(bool, Move)>)
    decreases |moves|
  {
    moves == [] ||
      var earlier, move := moves[..|moves| - 1], moves[|moves| - 1];
      && Clean(s, earlier)
      && (After(s, earlier).Some? ==>
            !ClashesAt(if move.0 then After(s, earlier).value else Swap(After(s, earlier).value), move.1))
  }

  lemma SignallingAfterLocal(p: Peer, call: Call)
    ensures Local(p, call).signalling == p.signalling
         || (p.signalling == Stable && Local(p, call).signalling == NegotiationRequired)
  {
    hide HasNews, RemoveSenders, WithoutCodec;
    match call
    case Polls =>
      RemovalKeepsSignalling(p, SortedKeys(ClosedSenders(p)));
    case _ =>
  }

  /** An end in the same state with the same list. */
  lemma SameStateCoheres(s: System, ta: seq<MediaType>, tb: seq<MediaType>, clean: bool, p: Peer)
    requires Coherent(s, ta, tb, clean) && Invariant(p, ta) && Ready(p)
    requires p.transport == s.a.transport && p.signalling == s.a.signalling
    ensures Coherent(s.(a := p), ta, tb, clean)
  {
    hide Invariant, Ready, Says, MediaTypes, Covers, Apart;
  }

  /** A negotiated end comes to need an offer. */
  lemma NeedCoheres(s: System, ta: seq<MediaType>, tb: seq<MediaType>, clean: bool, p: Peer)
    requires Coherent(s, ta, tb, clean) && Invariant(p, ta) && Ready(p)
    requires p.transport == s.a.transport && s.a.signalling == Stable && p.signalling == NegotiationRequired
    ensures Coherent(s.(a := p), ta, tb, clean)
  {
    hide Invariant, Ready, Says, MediaTypes, Covers, Apart;
  }

  lemma LocalMoveCoheres(s: System, ta: seq<MediaType>, tb: seq<MediaType>, clean: bool, call: Call)
    requires Coherent(s, ta, tb, clean) && Enabled(s, Changes(call))
    ensures Coherent(MoveA(s, Changes(call)), ta, tb, clean)
  {
    hide Coherent, Invariant, Ready, Local;
    CoherentParts(s, ta, tb, clean);
    LocalKeeps(s.a, ta, call);
    LocalStaysReady(s.a, call);
    SignallingAfterLocal(s.a, call);
    if Local(s.a, call).signalling == s.a.signalling {
      SameStateCoheres(s, ta, tb, clean, Local(s.a, call));
    } else {
      NeedCoheres(s, ta, tb, clean, Local(s.a, call));
    }
  }

  /** Describing oneself is an offer of more lines, or an answer with the agreed ones; failing to only numbers lines. */
  lemma CreateSays(p: Peer, types: seq<MediaType>) returns (types': seq<MediaType>)
    requires Invariant(p, types) && Ready(p)
    ensures var (description, p') := CreateLocalDescription(p);
            && Invariant(p', types') && Ready(p') && types <= types' && p'.transport == p.transport
            && (p.signalling == HaveRemoteOffer ==> types' == types)
            && (description.Ok? ==>
                  && Says(Message(ModeOf(p), description.value), p.transport)
                  && MediaTypes(description.value) == types'
                  && (p.signalling == HaveRemoteOffer || p.signalling == Initial || p.signalling == NegotiationRequired)
                  && p'.signalling == (if p.signalling == HaveRemoteOffer then Stable else HaveLocalOffer))
            && (description.Err? ==>
                  && p'.signalling == p.signalling
                  && (NextIndex(p'.lines) > NextIndex(p.lines) <==> types' != types)
                  && (types' != types ==> p.signalling != HaveLocalOffer && p.signalling != Stable))
  {
    hide Invariant, Ready, Prepared, Describe, DescribedBy, PromoteSenders, PromoteLines;
    types' := CreateKeeps(p, types);
    CreateSameSide(p);
    SameSideStaysReady(p, CreateLocalDescription(p).1);
    if p.signalling == HaveLocalOffer || p.signalling == Stable {
      types' := types;
    } else {
      PreparedSameSide(p);
      var prepared := PreparedKeeps(p, types);
      PreparedSameSignalling(p);
      if CanDescribeAll(Prepared(p)) {
        InvariantIndexes(Prepared(p), prepared);
        DescribeListsTypes(Prepared(p), prepared, p.signalling != HaveRemoteOffer);
      } else {
        types' := prepared;
        InvariantIndexes(p, types);
        InvariantIndexes(Prepared(p), prepared);
        NextIndexCounts(p.lines, types);
        NextIndexCounts(Prepared(p).lines, prepared);
      }
    }
  }

  lemma PreparedSameSignalling(p: Peer)
    ensures Prepared(p).signalling == p.signalling
  {
    hide RemoveSenders, AssignFrom;
    var numbered := if p.signalling == HaveRemoteOffer then p
                    else p.(lines := AssignFrom(p.lines, 0, NextIndex(p.lines)));
    RemovalKeepsSignalling(numbered, SortedKeys(ClosedSenders(numbered)));
  }

  lemma SendMoveCoheres(s: System, ta: seq<MediaType>, tb: seq<MediaType>, clean: bool) returns (ta': seq<MediaType>)
    requires Coherent(s, ta, tb, clean)
    ensures Coherent(MoveA(s, SendsDescription), ta', tb, clean)
    ensures ta <= ta' && (s.a.signalling == HaveRemoteOffer ==> ta' == ta)
  {
    hide Coherent, CreateLocalDescription, Ready;
    CoherentParts(s, ta, tb, clean);
    ta' := CreateSays(s.a, ta);
    var (description, p) := CreateLocalDescription(s.a);
    if description.Ok? {
      SentCoheres(s, ta, tb, clean, ta', p, Message(ModeOf(s.a), description.value));
    } else {
      UnsentCoheres(s, ta, tb, clean, ta', p);
    }
  }

  lemma CoherentParts(s: System, ta: seq<MediaType>, tb: seq<MediaType>, clean: bool)
    requires Coherent(s, ta, tb, clean)
    ensures Ends(s, ta, tb)
  {
  }

  lemma SentCoheres(s: System, ta: seq<MediaType>, tb: seq<MediaType>, clean: bool, ta': seq<MediaType>, p: Peer,
                    message: Message)
    requires Coherent(s, ta, tb, clean) && ta <= ta' && p.transport == s.a.transport
    requires Invariant(p, ta') && Ready(p)
    requires s.a.signalling == HaveRemoteOffer ==> ta' == ta
    requires s.a.signalling == HaveRemoteOffer || s.a.signalling == Initial || s.a.signalling == NegotiationRequired
    requires Says(message, p.transport) && message.mode == ModeOf(s.a) && MediaTypes(message.description) == ta'
    requires p.signalling == if s.a.signalling == HaveRemoteOffer then Stable else HaveLocalOffer
    ensures Coherent(s.(a := p, toB := s.toB + [message], failedA := false, refusedA := false), ta', tb, clean)
  {
    hide Invariant, Ready, Says, MediaTypes, Foreign;
  }

  /** A failed offer has numbered lines of an end at rest. */
  lemma LongerListCoheres(s: System, ta: seq<MediaType>, tb: seq<MediaType>, clean: bool, ta': seq<MediaType>, p: Peer)
    requires Coherent(s, ta, tb, clean) && ta <= ta' && p.transport == s.a.transport
    requires Invariant(p, ta') && Ready(p) && p.signalling == s.a.signalling
    requires s.a.signalling == Initial || s.a.signalling == NegotiationRequired
    ensures Coherent(s.(a := p, failedA := true), ta', tb, clean)
  {
    hide Invariant, Ready, Says, MediaTypes, Foreign;
    ForeignGrows(ta, tb, ta', tb);
    ForeignGrows(tb, ta, tb, ta');
  }

  lemma UnsentCoheres(s: System, ta: seq<MediaType>, tb: seq<MediaType>, clean: bool, ta': seq<MediaType>, p: Peer)
    requires Coherent(s, ta, tb, clean) && ta <= ta' && p.transport == s.a.transport
    requires Invariant(p, ta') && Ready(p)
    requires p.signalling == s.a.signalling && (s.a.signalling == HaveRemoteOffer ==> ta' == ta)
    requires NextIndex(p.lines) > NextIndex(s.a.lines) <==> ta' != ta
    requires ta' != ta ==> s.a.signalling != HaveLocalOffer && s.a.signalling != Stable
    ensures Coherent(s.(a := p, failedA := s.failedA || NextIndex(p.lines) > NextIndex(s.a.lines)), ta', tb, clean)
  {
    hide Coherent, Invariant, Ready, NextIndex;
    if ta' == ta {
      SameStateCoheres(s, ta, tb, clean, p);
      assert s.(a := p, failedA := s.failedA || NextIndex(p.lines) > NextIndex(s.a.lines)) == s.(a := p);
    } else {
      LongerListCoheres(s, ta, tb, clean, ta', p);
    }
  }

  /** A message in an accepting state was said by the other end of itself. */
  lemma AcceptedMessage(s: System, ta: seq<MediaType>, tb: seq<MediaType>, clean: bool)
    requires Coherent(s, ta, tb, clean) && s.toA != [] && Accepts(s.a.signalling, s.toA[0].mode)
    ensures Says(s.toA[0], s.b.transport) && Harmless(s.a.transport, ta, s.toA[0].description, 0)
    ensures if s.toA[0].mode == Offer then Offered(Swap(s), tb, ta, clean)
            else Answered(s, ta, tb, clean) || AnsweredAndOffered(s, ta, tb, clean)
  {
    hide Invariant, Ready, Says, MediaTypes, Foreign, Harmless;
    if s.toA[0].mode == Offer {
      OffersAreHarmless(s.toA[0], s.b.transport, s.a.transport, ta);
    } else {
      CoveringIsHarmless(s.toA[0], s.b.transport, s.a.transport, ta);
    }
  }

  lemma OffersAreHarmless(message: Message, other: Transport, t: Transport, types: seq<MediaType>)
    requires Says(message, other) && message.mode == Offer
    ensures Harmless(t, types, message.description, 0)
  {
  }

  lemma CoveringIsHarmless(message: Message, other: Transport, t: Transport, types: seq<MediaType>)
    requires Says(message, other) && Covers(types, MediaTypes(message.description))
    ensures Harmless(t, types, message.description, 0)
  {
    var spoken := MediaTypes(message.description);
    forall k | 0 <= k < |types| && types[k] == Application ensures message.description[k].direction != Inactive {
      assert spoken[k] == message.description[k].mediaType;
    }
  }

  lemma ReceiveMoveCoheres(s: System, ta: seq<MediaType>, tb: seq<MediaType>, clean: bool)
    returns (ta': seq<MediaType>)
    requires Coherent(s, ta, tb, clean) && Enabled(s, Receives)
    ensures Coherent(MoveA(s, Receives), ta', tb, clean && !ClashesAt(s, Receives)) && ta <= ta'
    ensures Reception(s.a, s.toA[0]).0.None? ==> ta' == Extended(ta, s.toA[0].description)
    ensures Reception(s.a, s.toA[0]).0 ==
            if !Accepts(s.a.signalling, s.toA[0].mode) then Some(ApplyInvalidState)
            else if Unreadable(s.a, s.toA[0].description) then Some(MissingCodecDescription) else None
  {
    hide Coherent, Invariant, Ready, Says, Harmless, SetRemoteDescription, ClashesAt, Extended, Unreadable, Foreign;
    ta' := ta;
    var message := s.toA[0];
    if !Accepts(s.a.signalling, message.mode) {
      Refused(s.a, message);
      UnreadCoheres(s, ta, tb, clean);
    } else {
      CoherentParts(s, ta, tb, clean);
      AcceptedMessage(s, ta, tb, clean);
      ta' := ReceptionOutcome(s.a, ta, message, s.b.transport);
      InvariantIndexes(s.a, ta);
      UnreadableByType(s.a, ta, message.description);
      var (error, p) := Reception(s.a, message);
      if error.Some? {
        RefusalCoheres(s, ta, tb, clean, ta', p);
      } else if message.mode == Offer {
        OfferReadCoheres(s, ta, tb, clean, p);
      } else {
        AnswerReadCoheres(s, ta, tb, clean, p);
      }
    }
  }

  lemma UnreadCoheres(s: System, ta: seq<MediaType>, tb: seq<MediaType>, clean: bool)
    requires Coherent(s, ta, tb, clean) && s.toA != [] && !Accepts(s.a.signalling, s.toA[0].mode)
    ensures Coherent(s.(toA := s.toA[1..], refusedB := true), ta, tb, clean && !ClashesAt(s, Receives))
  {
    hide Invariant, Ready, Says, MediaTypes, Foreign;
  }

  lemma ForeignGrows(x: seq<MediaType>, y: seq<MediaType>, x': seq<MediaType>, y': seq<MediaType>)
    requires x <= x' && y <= y'
    ensures Foreign(x, y) ==> Foreign(x', y')
  {
    if Foreign(x, y) {
      var i :| 0 <= i < |x| && i < |y| && y[i] == Application && x[i] != Application;
      assert y'[i] == Application && x'[i] != Application;
    }
  }

  /** What is unreadable is a clash. */
  lemma ForeignIsClash(x: seq<MediaType>, y: seq<MediaType>)
    requires Foreign(x, y)
    ensures !Comparable(x, y)
  {
  }

  lemma RefusalCoheres(s: System, ta: seq<MediaType>, tb: seq<MediaType>, clean: bool, ta': seq<MediaType>, p: Peer)
    requires Coherent(s, ta, tb, clean) && s.toA != [] && Accepts(s.a.signalling, s.toA[0].mode)
    requires if s.toA[0].mode == Offer then Offered(Swap(s), tb, ta, clean)
             else Answered(s, ta, tb, clean) || AnsweredAndOffered(s, ta, tb, clean)
    requires Foreign(ta, Spoken(s)) && ta <= ta' && Invariant(p, ta') && StaysConnected(s.a, p, s.b.transport)
    requires p.signalling == s.a.signalling
    ensures Coherent(s.(a := p, toA := s.toA[1..], refusedB := true), ta', tb, clean && !ClashesAt(s, Receives))
  {
    hide Invariant, Ready, Says, MediaTypes, Foreign, Clashes;
    ForeignGrows(ta, Spoken(s), ta', tb);
    ForeignIsClash(ta, Spoken(s));
    InvariantIndexes(s.a, ta);
    ClashesExactlyWhenNotComparable(s.a, ta, s.toA[0].description);
  }

  lemma OfferReadCoheres(s: System, ta: seq<MediaType>, tb: seq<MediaType>, clean: bool, p: Peer)
    requires Ends(s, ta, tb) && Offered(Swap(s), tb, ta, clean) && p.signalling == HaveRemoteOffer
    requires Invariant(p, Extended(ta, s.toA[0].description)) && StaysConnected(s.a, p, s.b.transport)
    requires !Foreign(ta, Spoken(s))
    ensures Coherent(s.(a := p, toA := s.toA[1..]), Extended(ta, s.toA[0].description), tb,
                     clean && !ClashesAt(s, Receives))
  {
    hide Invariant, Ready, Extended, Clashes, Says, MediaTypes, Foreign;
    var description := s.toA[0].description;
    if clean && !ClashesAt(s, Receives) {
      OfferIsComparable(s, ta, tb, clean);
      ExtendedToLonger(ta, description, tb);
      LongerOfPrefix(ta, tb);
    }
    ExtendedCovers(ta, description);
    assert Answering(Swap(s.(a := p, toA := s.toA[1..])), tb, Extended(ta, description),
                     clean && !ClashesAt(s, Receives));
  }

  /** What has been read without error is covered. */
  lemma ExtendedCovers(types: seq<MediaType>, description: Description)
    requires !Foreign(types, MediaTypes(description))
    ensures Covers(MediaTypes(description), Extended(types, description))
  {
  }

  lemma AnswerReadCoheres(s: System, ta: seq<MediaType>, tb: seq<MediaType>, clean: bool, p: Peer)
    requires Ends(s, ta, tb) && (Answered(s, ta, tb, clean) || AnsweredAndOffered(s, ta, tb, clean))
    requires Invariant(p, Extended(ta, s.toA[0].description)) && p.signalling == Stable
    requires StaysConnected(s.a, p, s.b.transport)
    ensures Coherent(s.(a := p, toA := s.toA[1..]), Extended(ta, s.toA[0].description), tb,
                     clean && !ClashesAt(s, Receives))
  {
    hide Invariant, Ready, Extended, Clashes, Says, MediaTypes, Foreign;
    if clean {
      ExtendedToLonger(ta, s.toA[0].description, Spoken(s));
      LongerOfPrefix(ta, Spoken(s));
    }
  }

  lemma LongerOfPrefix(x: seq<MediaType>, y: seq<MediaType>)
    ensures x <= y ==> Longer(x, y) == y
    ensures x <= Longer(x, y) || !Comparable(x, y)
    ensures y <= Longer(x, y) || !Comparable(x, y)
  {
  }

  lemma OfferIsComparable(s: System, ta: seq<MediaType>, tb: seq<MediaType>, clean: bool)
    requires Ends(s, ta, tb) && Offered(Swap(s), tb, ta, clean) && !ClashesAt(s, Receives)
    ensures Comparable(ta, tb)
  {
    InvariantIndexes(s.a, ta);
    ClashesExactlyWhenNotComparable(s.a, ta, s.toA[0].description);
  }

  lemma Refused(p: Peer, message: Message)
    requires !Accepts(p.signalling, message.mode)
    ensures Reception(p, message) == (Some(ApplyInvalidState), p)
  {
  }

  lemma MoveCoheres(s: System, ta: seq<MediaType>, tb: seq<MediaType>, clean: bool, move: Move)
    returns (ta': seq<MediaType>)
    requires Coherent(s, ta, tb, clean) && Enabled(s, move)
    ensures Coherent(MoveA(s, move), ta', tb, clean && !ClashesAt(s, move)) && ta <= ta'
  {
    hide Coherent, MoveA;
    ta' := ta;
    match move
    case Changes(call) => LocalMoveCoheres(s, ta, tb, clean, call);
    case SendsDescription => ta' := SendMoveCoheres(s, ta, tb, clean);
    case Receives => ta' := ReceiveMoveCoheres(s, ta, tb, clean);
  }

  lemma CoherentBothWays(s: System, ta: seq<MediaType>, tb: seq<MediaType>, clean: bool)
    requires Coherent(s, ta, tb, clean)
    ensures Coherent(Swap(s), tb, ta, clean)
  {
    hide Invariant, Ready, Leads;
    assert Swap(Swap(s)) == s;
  }

  lemma ClashOrNot(s: System, ta: seq<MediaType>, tb: seq<MediaType>, clean: bool)
    requires Coherent(s, ta, tb, clean)
    ensures Coherent(s, ta, tb, false)
  {
    hide Ends, Says, MediaTypes;
  }

  lemma NewSystemCoheres()
    ensures Coherent(NewSystem(), [], [], true)
  {
  }

  lemma {:induction false} RunCoheres(moves: seq<(bool, Move)>) returns (ta: seq<MediaType>, tb: seq<MediaType>)
    requires After(NewSystem(), moves).Some?
    ensures Coherent(After(NewSystem(), moves).value, ta, tb, Clean(NewSystem(), moves))
    decreases |moves|
  {
    hide Coherent, MoveA, Enabled, ClashesAt;
    if moves == [] {
      ta, tb := [], [];
      NewSystemCoheres();
    } else {
      var earlier := moves[..|moves| - 1];
      ta, tb := RunCoheres(earlier);
      var s, move, clean := After(NewSystem(), earlier).value, moves[|moves| - 1], Clean(NewSystem(), earlier);
      if move.0 {
        ta := MoveCoheres(s, ta, tb, clean, move.1);
      } else {
        CoherentBothWays(s, ta, tb, clean);
        tb := MoveCoheres(Swap(s), tb, ta, clean, move.1);
        CoherentBothWays(MoveA(Swap(s), move.1), tb, ta, Clean(NewSystem(), moves));
      }
    }
  }

  // --- main results ------------------------------------------------------------------------------

  predicate IsNegotiated(p: Peer) {
    p.signalling == Stable || p.signalling == NegotiationRequired
  }

  /** Both ends are negotiated, nothing is on its way, and no line has an index only for an offer that failed. */
  predicate Concluded(s: System) {
    IsNegotiated(s.a) && IsNegotiated(s.b) && s.toA == [] && s.toB == [] && !s.failedA && !s.failedB
  }

  /**
   * Over every interleaving of local changes, offers, failed offers, answers and refused glare: whenever both ends are
   * negotiated and nothing is on its way, both hold the same media types, index by index, unless an accepted offer has
   * clashed with lines its receiver had numbered before.
   */
  lemma PeersAgree(moves: seq<(bool, Move)>) returns (types: seq<MediaType>)
    requires After(NewSystem(), moves).Some? && Clean(NewSystem(), moves)
    ensures var s := After(NewSystem(), moves).value;
            Concluded(s) ==> Indexed(s.a.lines, types) && Indexed(s.b.lines, types)
  {
    hide After, Clean, Invariant, Ready;
    var ta, tb := RunCoheres(moves);
    types := ta;
    if Concluded(After(NewSystem(), moves).value) {
      InvariantIndexes(After(NewSystem(), moves).value.a, ta);
      InvariantIndexes(After(NewSystem(), moves).value.b, tb);
    }
  }

  lemma MoveGrows(s: System, move: Move, types: seq<MediaType>) returns (types': seq<MediaType>)
    requires Invariant(s.a, types) && Enabled(s, move)
    ensures types <= types' && Invariant(MoveA(s, move).a, types') && MoveA(s, move).b == s.b
  {
    hide Invariant, Local, CreateLocalDescription, SetRemoteDescription;
    types' := types;
    match move
    case Changes(call) => LocalKeeps(s.a, types, call);
    case SendsDescription => types' := CreateKeeps(s.a, types);
    case Receives => types' := SetRemoteKeeps(s.a, types, s.toA[0].description, s.toA[0].mode, None);
  }

  /** Nothing ever takes an index back or gives it to another type, clash or no clash. */
  lemma {:induction false} ListsGrow(moves: seq<(bool, Move)>, earlier: nat, ta: seq<MediaType>, tb: seq<MediaType>)
    returns (ta': seq<MediaType>, tb': seq<MediaType>)
    requires earlier <= |moves| && After(NewSystem(), moves).Some?
    requires After(NewSystem(), moves[..earlier]).Some?
    requires Invariant(After(NewSystem(), moves[..earlier]).value.a, ta)
    requires Invariant(After(NewSystem(), moves[..earlier]).value.b, tb)
    ensures ta <= ta' && Invariant(After(NewSystem(), moves).value.a, ta')
    ensures tb <= tb' && Invariant(After(NewSystem(), moves).value.b, tb')
    decreases |moves|
  {
    hide Invariant, MoveA, Enabled;
    if earlier == |moves| {
      assert moves[..earlier] == moves;
      ta', tb' := ta, tb;
    } else {
      var prefix, move := moves[..|moves| - 1], moves[|moves| - 1];
      assert prefix[..earlier] == moves[..earlier];
      ta', tb' := ListsGrow(prefix, earlier, ta, tb);
      if move.0 {
        ta' := MoveGrows(After(NewSystem(), prefix).value, move.1, ta');
      } else {
        tb' := MoveGrows(Swap(After(NewSystem(), prefix).value), move.1, tb');
      }
    }
  }

  /** The first clash of a run. */
  lemma {:induction false} FirstClash(moves: seq<(bool, Move)>) returns (at: nat)
    requires After(NewSystem(), moves).Some? && !Clean(NewSystem(), moves)
    ensures at < |moves| && Clean(NewSystem(), moves[..at]) && After(NewSystem(), moves[..at]).Some?
    ensures var s := After(NewSystem(), moves[..at]).value;
            var acting := if moves[at].0 then s else Swap(s);
            ClashesAt(acting, moves[at].1) && Enabled(acting, moves[at].1)
    decreases |moves|
  {
    hide ClashesAt, MoveA;
    var prefix := moves[..|moves| - 1];
    if Clean(NewSystem(), prefix) {
      at := |moves| - 1;
    } else {
      at := FirstClash(prefix);
      assert prefix[..at] == moves[..at];
    }
  }

  /** A clash is between the two ends' own lists. */
  lemma ClashSetsEndsApart(s: System, ta: seq<MediaType>, tb: seq<MediaType>, move: (bool, Move))
    requires Coherent(s, ta, tb, true) && ClashesAt(if move.0 then s else Swap(s), move.1)
    ensures !Comparable(ta, tb)
  {
    hide Invariant, Ready, Clashes, Says;
    if move.0 {
      InvariantIndexes(s.a, ta);
      ClashesExactlyWhenNotComparable(s.a, ta, s.toA[0].description);
    } else {
      InvariantIndexes(s.b, tb);
      ClashesExactlyWhenNotComparable(s.b, tb, s.toB[0].description);
    }
  }

  /** Two ends that are negotiated with nothing on its way agree exactly when no accepted offer has ever clashed. */
  lemma PeersAgreeExactlyWhenNothingClashed(moves: seq<(bool, Move)>)
    requires After(NewSystem(), moves).Some? && Concluded(After(NewSystem(), moves).value)
    ensures var s := After(NewSystem(), moves).value;
            Clean(NewSystem(), moves) <==> exists types :: Indexed(s.a.lines, types) && Indexed(s.b.lines, types)
  {
    hide After, Clean, Coherent, ClashesAt, Indexed;
    var s := After(NewSystem(), moves).value;
    if Clean(NewSystem(), moves) {
      var types := PeersAgree(moves);
    } else {
      var at := FirstClash(moves);
      var ta, tb := RunCoheres(moves[..at]);
      var before := After(NewSystem(), moves[..at]).value;
      ClashSetsEndsApart(before, ta, tb, moves[at]);
      CoherentParts(before, ta, tb, true);
      var ta', tb' := ListsGrow(moves, at, ta, tb);
      InvariantIndexes(s.a, ta');
      InvariantIndexes(s.b, tb');
      forall types | Indexed(s.a.lines, types) && Indexed(s.b.lines, types) ensures false {
        IndexedTypesAreUnique(s.a.lines, types, ta');
        IndexedTypesAreUnique(s.b.lines, types, tb');
      }
    }
  }

  /**
   * In every run: a description fails exactly when the signalling state refuses it, or an application section of it meets
   * an audio or video line.
   */
  lemma DescriptionsApply(moves: seq<(bool, Move)>, atA: bool)
    requires After(NewSystem(), moves).Some? && EnabledAt(After(NewSystem(), moves).value, atA, Receives)
    ensures var s := After(NewSystem(), moves).value;
            var (p, message) := (Facing(s, atA).a, Facing(s, atA).toA[0]);
            Reception(p, message).0 ==
            if !Accepts(p.signalling, message.mode) then Some(ApplyInvalidState)
            else if Unreadable(p, message.description) then Some(MissingCodecDescription) else None
  {
    hide After, Coherent, Clean, Reception, Unreadable;
    var ta, tb := RunCoheres(moves);
    var s, clean := After(NewSystem(), moves).value, Clean(NewSystem(), moves);
    if atA {
      var _ := ReceiveMoveCoheres(s, ta, tb, clean);
    } else {
      CoherentBothWays(s, ta, tb, clean);
      var _ := ReceiveMoveCoheres(Swap(s), tb, ta, clean);
    }
  }
}
