/**
 * What one media section does to the setup role, and how much of it is left when a section is given up half-way
 * (src/transport/mod.rs, src/rtc.rs, src/application.rs).
 */
module Sections {
  import opened Prelude
  import opened Negotiation

  // --- setup roles -------------------------------------------------------------------------------

  /** The roles that may face each other (section 4.1 of RFC 4145); one that offers both is faced as if it was active. */
  predicate Fits(ours: Setup, theirs: Setup) {
    || (ours == Active && theirs == Passive) || (ours == Passive && (theirs == Active || theirs == Actpass))
    || (ours == Holdconn && theirs == Holdconn)
  }

  predicate IsDecided(setup: Setup) {
    setup == Active || setup == Passive || setup == Holdconn
  }

  /** A section that says nothing of the setup here: an inactive one, or any with a setup once one has been read. */
  predicate SaysNothing(t: Transport, media: Media) {
    media.direction == Inactive || (media.setup != Unset && t.hasRemote)
  }

  /**
   * The first setup read decides: an undecided end takes the role that fits, a decided one keeps its own and refuses what
   * does not fit it. Two ends cannot both leave the choice to the other. An end that holds its connection back takes
   * anything, and one that has decided refuses to be left the choice.
   */
  lemma FirstSetupDecides(t: Transport, media: Media)
    ensures var r := ApplyTransport(t, media);
            if SaysNothing(t, media) then r == Ok(t)
            else if media.setup == Unset then r == Err(MissingSetup)
            else if t.setup == Holdconn then r == Ok(Transport(Holdconn, true))
            else if IsDecided(t.setup) then
              if Fits(t.setup, media.setup) && media.setup != Actpass then r == Ok(t.(hasRemote := true))
              else r == Err(ContradictingSetupValue)
            else if t.setup == media.setup == Actpass then r == Err(InvalidSetupValue)
            else r.Ok? && r.value.hasRemote && Fits(r.value.setup, media.setup)
  {
  }

  /** A setup that does not fit is refused once only: it is recorded, and the same section is not looked at again. */
  lemma ContradictionIsFoundOnce(p: Peer, i: nat, media: Media)
    requires ApplyTransport(p.transport, media).Err? && media.setup != Unset
    ensures var (error, left) := ApplySection(p, i, media, None);
            && error == Some(ApplyTransport(p.transport, media).error)
            && left.transport == p.transport.(hasRemote := true)
            && ApplyTransport(left.transport, media) == Ok(left.transport)
  {
    hide Claim;
  }

  /** The line a section is for, if there is one: that of its index, or else the first unassigned one of its type. */
  ghost predicate IsFor(lines: seq<Line>, i: nat, mediaType: MediaType, j: nat) {
    && j < |lines|
    && if exists k :: 0 <= k < |lines| && lines[k].sdpIndex == Some(i) then
         lines[j].sdpIndex == Some(i) && forall k :: 0 <= k < j ==> lines[k].sdpIndex != Some(i)
       else
         lines[j].sdpIndex.None? && lines[j].mediaType == mediaType
         && forall k :: 0 <= k < j ==> lines[k].sdpIndex.Some? || lines[k].mediaType != mediaType
  }

  lemma ClaimedIsFor(lines: seq<Line>, i: nat, mediaType: MediaType)
    ensures var position := Claim(lines, i, mediaType).1;
            if position < |lines| then IsFor(lines, i, mediaType, position)
            else forall j :: !IsFor(lines, i, mediaType, j)
  {
    var byIndex, unassigned := Find(lines, WithIndex(i)), Find(lines, UnassignedOf(mediaType));
    assert forall k :: 0 <= k < byIndex ==> !Matches(WithIndex(i), lines[k]);
    assert forall k :: 0 <= k < unassigned ==> !Matches(UnassignedOf(mediaType), lines[k]);
    hide Find;
  }

  /** What the channels refuse a section for; new ones take any role. */
  function ChannelError(channels: Option<Channels>, media: Media): Option<ApplyError> {
    if media.setup == Unset || media.setup == Holdconn then Some(MissingSetup)
    else if channels.Some? && channels.value.configured && channels.value.dtlsRoleClient != (media.setup == Passive)
    then Some(RoleMismatch) else None
  }

  /**
   * Every reason a section fails for, in the order it is found: the setup; an application section on an audio or video
   * line; an application line without channels, or whose channels refuse the section.
   */
  lemma SectionErrors(p: Peer, i: nat, media: Media, j: nat)
    requires IsFor(p.lines, i, media.mediaType, j) || (j == |p.lines| && !exists k :: IsFor(p.lines, i, media.mediaType, k))
    ensures var error, transport := ApplySection(p, i, media, None).0, ApplyTransport(p.transport, media);
            var mediaType := if j < |p.lines| then p.lines[j].mediaType else media.mediaType;
            if transport.Err? then error == Some(transport.error)
            else if media.mediaType == Application && mediaType != Application then error == Some(MissingCodecDescription)
            else if mediaType != Application then error == None
            else if j < |p.lines| && p.channels.None? then error == Some(ApplicationChannelMissing)
            else error == ChannelError(p.channels, media)
  {
    ClaimedIsFor(p.lines, i, media.mediaType);
    ClaimKeepsType(p.lines, i, media.mediaType);
    OnlyOneIsFor(p.lines, i, media.mediaType);
    hide Claim, ApplyTransport, IsFor;
  }

  lemma ClaimKeepsType(lines: seq<Line>, i: nat, mediaType: MediaType)
    ensures var (claimed, position) := Claim(lines, i, mediaType);
            |claimed| == |lines| && (position < |lines| ==> claimed[position].mediaType == lines[position].mediaType)
  {
  }

  lemma OnlyOneIsFor(lines: seq<Line>, i: nat, mediaType: MediaType)
    ensures forall j, k :: IsFor(lines, i, mediaType, j) && IsFor(lines, i, mediaType, k) ==> j == k
  {
  }

  // --- sections given up -------------------------------------------------------------------------

  /** The section has only taken a line: at most one index has been given, and an identifier used up. */
  ghost predicate OnlyClaims(p: Peer, left: Peer, whole: Peer) {
    && left == p.(lines := left.lines, nextId := whole.nextId) && |left.lines| == |p.lines| <= |whole.lines|
    && forall j :: 0 <= j < |p.lines| ==> left.lines[j] == p.lines[j].(sdpIndex := whole.lines[j].sdpIndex)
  }

  function Unconfigured(channels: Option<Channels>): Option<Channels> {
    if channels.Some? then Some(channels.value.(configured := false)) else None
  }

  predicate IsConfigured(channels: Option<Channels>) {
    channels.Some? && channels.value.configured
  }

  /** The section as it is left when it is given up there. */
  function Stopped(p: Peer, i: nat, media: Media, stop: Progress): Peer {
    ApplySection(p, i, media, Some(stop)).1
  }

  lemma ClaimOnlyNumbers(lines: seq<Line>, i: nat, mediaType: MediaType)
    ensures var claimed := Claim(lines, i, mediaType).0;
            |claimed| == |lines|
            && forall j :: 0 <= j < |lines| ==> claimed[j] == lines[j].(sdpIndex := claimed[j].sdpIndex)
  {
  }

  /**
   * What a section leaves behind where it is given up, compared with what it would have done: first nothing, then the
   * line it takes, then the transport.
   */
  lemma EarlyStopsLeaveLineAndTransport(p: Peer, i: nat, media: Media)
    requires ApplySection(p, i, media, None).0.None?
    ensures var whole := ApplySection(p, i, media, None).1;
            && Stopped(p, i, media, Untouched) == p && OnlyClaims(p, Stopped(p, i, media, Claimed), whole)
            && Stopped(p, i, media, Connected) == Stopped(p, i, media, Claimed).(transport := whole.transport)
  {
    ClaimOnlyNumbers(p.lines, i, media.mediaType);
    hide RemoteStreams, ApplyTransport, ApplyChannels, Claim;
  }

  /**
   * Then the line's streams, with new channels for a new application line, and last the channels' role without its
   * configuration. A line the section would add is never there before it is through.
   */
  lemma LateStopsLeaveStreamsAndRole(p: Peer, i: nat, media: Media)
    requires ApplySection(p, i, media, None).0.None?
    ensures var whole := ApplySection(p, i, media, None).1;
            var adds := |whole.lines| > |p.lines|;
            var connected, updated := Stopped(p, i, media, Connected), Stopped(p, i, media, Updated);
            && updated == connected.(lines := if adds then connected.lines else whole.lines, channels := updated.channels)
            && updated.channels == (if adds && media.mediaType == Application && p.channels.None?
                                    then Some(Channels(true, false)) else p.channels)
            && Stopped(p, i, media, RoleTaken) ==
               updated.(channels := if IsConfigured(p.channels) then whole.channels else Unconfigured(whole.channels))
  {
    hide RemoteStreams, ApplyTransport, ApplyChannels, Claim;
  }

  /** Being given up is an error of its own, unless the section fails for another reason before. */
  lemma StopIsAFault(p: Peer, i: nat, media: Media, stop: Progress)
    ensures var (error, whole) := (ApplySection(p, i, media, Some(stop)).0, ApplySection(p, i, media, None).0);
            && error.Some? && (whole.None? ==> error == Some(MediaFault))
            && (error != Some(MediaFault) ==> error == whole)
  {
    hide RemoteStreams, Claim, ApplyTransport, ApplyChannels;
  }

  // --- the application channel -------------------------------------------------------------------

  /** The channels are opened once, and come with a line only when there is none of theirs. */
  lemma OpeningIsOnce(p: Peer)
    ensures var open := OpenApplicationChannel(p);
            && open.channels == Some(if p.channels.Some? then p.channels.value else Channels(true, false))
            && (p.channels.Some? || (exists j :: 0 <= j < |p.lines| && p.lines[j].mediaType == Application)
                ==> open.lines == p.lines && open.nextId == p.nextId)
            && (p.channels.None? && (forall j :: 0 <= j < |p.lines| ==> p.lines[j].mediaType != Application) ==>
                  && open.lines == p.lines + [Line(p.nextId, Application, None, Fresh, [], {}, [])]
                  && open.nextId == p.nextId + 1)
            && OpenApplicationChannel(open) == open
  {
    hide Find;
  }
}
