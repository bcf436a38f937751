/**
 * Compound RTCP packets: splitting, parsing back, and resend requests end to end (src/utils/rtcp/mod.rs,
 * src/media/receiver.rs).
 */
module Compound {
  import opened Prelude
  import opened SerialNumbers
  import opened Wire
  import opened GenericNack
  import opened Rtcp
  import LossWindow
  import LossRuns

  // --- framing -----------------------------------------------------------------------------------

  /** The length field counts the 32-bit words after the first. */
  predicate WellFramed(packet: Bytes) {
    |packet| >= 4 && |packet| == 4 + 4 * ((packet[2] as int) * 0x100 + packet[3])
  }

  function Split(buffer: Bytes, offset: nat, capacity: nat): Result<seq<Bytes>, Error>
    requires offset <= |buffer|
    decreases |buffer| - offset
  {
    var available := |buffer| - offset;
    if available == 0 then Ok([])
    else if capacity == 0 then Err(TooManyPackets)
    else
      var (length, p) :- ReadU16(buffer, offset + 2);
      if length * 4 > available - 4 then Err(InvalidLength)
      else
        var end := offset + length * 4 + 4;
        var rest :- Split(buffer, end, capacity - 1);
        Ok([buffer[offset..end]] + rest)
  }

  function Flatten(packets: seq<Bytes>): Bytes {
    if packets == [] then [] else packets[0] + Flatten(packets[1..])
  }

  ghost predicate AllWellFramed(packets: seq<Bytes>) {
    forall i :: 0 <= i < |packets| ==> WellFramed(packets[i])
  }

  lemma {:induction false} SplitReturnsFrames(buffer: Bytes, offset: nat, capacity: nat)
    requires offset <= |buffer| && Split(buffer, offset, capacity).Ok?
    ensures var packets := Split(buffer, offset, capacity).value;
            Flatten(packets) == buffer[offset..] && AllWellFramed(packets) && |packets| <= capacity
    decreases |buffer| - offset
  {
    if offset < |buffer| {
      var end := offset + ReadU16(buffer, offset + 2).value.0 * 4 + 4;
      SplitReturnsFrames(buffer, end, capacity - 1);
      var first, rest := buffer[offset..end], Split(buffer, end, capacity - 1).value;
      assert WellFramed(first);
      assert ([first] + rest)[1..] == rest;
      assert buffer[offset..] == first + buffer[end..];
    }
  }

  lemma {:induction false} FramesSplit(buffer: Bytes, offset: nat, capacity: nat, packets: seq<Bytes>)
    requires offset <= |buffer| && buffer[offset..] == Flatten(packets)
    requires AllWellFramed(packets) && |packets| <= capacity
    ensures Split(buffer, offset, capacity) == Ok(packets)
    decreases |packets|
  {
    if packets != [] {
      var first, rest := packets[0], packets[1..];
      var tail := buffer[offset..];
      assert WellFramed(first) && tail[..|first|] == first && tail[|first|..] == Flatten(rest);
      assert buffer[offset + 2] == first[2] && buffer[offset + 3] == first[3];
      var end := offset + |first|;
      assert buffer[offset..end] == first && buffer[end..] == Flatten(rest);
      FramesSplit(buffer, end, capacity - 1, rest);
      assert packets == [first] + rest;
    }
  }

  /** Splitting succeeds exactly on concatenations of well-framed packets within capacity, and that split is the only one. */
  lemma SplitIsExact(buffer: Bytes, capacity: nat, packets: seq<Bytes>)
    ensures Split(buffer, 0, capacity) == Ok(packets)
       <==> Flatten(packets) == buffer && AllWellFramed(packets) && |packets| <= capacity
  {
    hide Split, Flatten, AllWellFramed;
    assert buffer[0..] == buffer;
    if Split(buffer, 0, capacity) == Ok(packets) {
      SplitReturnsFrames(buffer, 0, capacity);
    }
    if Flatten(packets) == buffer && AllWellFramed(packets) && |packets| <= capacity {
      FramesSplit(buffer, 0, capacity, packets);
    }
  }

  /** How many bytes the first word says that there are. */
  function Claimed(bytes: Bytes): nat
    requires |bytes| >= 4
  {
    4 + 4 * ((bytes[2] as int) * 0x100 + bytes[3])
  }

  /** Behind these packets, the bytes do not go on as another packet within capacity. */
  ghost predicate Stuck(bytes: Bytes, capacity: nat, packets: seq<Bytes>, error: Error) {
    && AllWellFramed(packets) && |Flatten(packets)| < |bytes| && bytes[..|Flatten(packets)|] == Flatten(packets)
    && var rest := bytes[|Flatten(packets)|..];
       match error
       case TooManyPackets => |packets| == capacity
       case UnexpectedEof => |packets| < capacity && |rest| < 4
       case InvalidLength => |packets| < capacity && |rest| >= 4 && Claimed(rest) > |rest|
       case _ => false
  }

  lemma {:induction false} SplitGetsStuck(buffer: Bytes, offset: nat, capacity: nat) returns (packets: seq<Bytes>)
    requires offset <= |buffer| && Split(buffer, offset, capacity).Err?
    ensures Stuck(buffer[offset..], capacity, packets, Split(buffer, offset, capacity).error)
    decreases |buffer| - offset
  {
    var header := ReadU16(buffer, offset + 2);
    var bytes := buffer[offset..];
    packets := [];
    assert bytes[0..] == bytes;
    if capacity > 0 && header.Ok? && header.value.0 * 4 + 4 <= |bytes| {
      var end := offset + header.value.0 * 4 + 4;
      var rest := SplitGetsStuck(buffer, end, capacity - 1);
      packets := [buffer[offset..end]] + rest;
      StuckBehind(bytes, end - offset, capacity, rest, Split(buffer, offset, capacity).error);
      assert bytes[..end - offset] == buffer[offset..end] && bytes[end - offset..] == buffer[end..];
    }
  }

  lemma StuckBehind(bytes: Bytes, length: nat, capacity: nat, packets: seq<Bytes>, error: Error)
    requires 0 < capacity && 4 <= length <= |bytes| && WellFramed(bytes[..length])
    requires Stuck(bytes[length..], capacity - 1, packets, error)
    ensures Stuck(bytes, capacity, [bytes[..length]] + packets, error)
  {
    var all := [bytes[..length]] + packets;
    assert all[1..] == packets;
    assert bytes == bytes[..length] + bytes[length..];
    assert bytes[..|Flatten(all)|] == bytes[..length] + bytes[length..][..|Flatten(packets)|];
    assert bytes[|Flatten(all)|..] == bytes[length..][|Flatten(packets)|..];
  }

  lemma {:induction false} StuckFails(buffer: Bytes, offset: nat, capacity: nat, packets: seq<Bytes>, error: Error)
    requires offset <= |buffer| && Stuck(buffer[offset..], capacity, packets, error)
    ensures Split(buffer, offset, capacity) == Err(error)
    decreases |packets|
  {
    var bytes := buffer[offset..];
    if packets == [] {
      assert bytes[0..] == bytes;
    } else {
      var first, rest := packets[0], packets[1..];
      StuckWithoutFirst(bytes, capacity, packets, error);
      var end := offset + |first|;
      assert buffer[end..] == bytes[|first|..];
      assert buffer[offset + 2] == first[2] && buffer[offset + 3] == first[3];
      StuckFails(buffer, end, capacity - 1, rest, error);
    }
  }

  lemma StuckWithoutFirst(bytes: Bytes, capacity: nat, packets: seq<Bytes>, error: Error)
    requires packets != [] && Stuck(bytes, capacity, packets, error)
    ensures 0 < capacity && WellFramed(packets[0]) && |packets[0]| <= |bytes| && bytes[..|packets[0]|] == packets[0]
    ensures Stuck(bytes[|packets[0]|..], capacity - 1, packets[1..], error)
  {
    var length, taken := |packets[0]|, |Flatten(packets)|;
    assert WellFramed(packets[0]);
    assert taken == length + |Flatten(packets[1..])|;
    assert bytes[..taken][..length] == packets[0] && bytes[..taken][length..] == Flatten(packets[1..]);
    assert bytes[length..][..taken - length] == bytes[..taken][length..];
    assert bytes[length..][taken - length..] == bytes[taken..];
  }

  /** Each error has exactly its own reason, behind the packets that could be split off. */
  lemma SplitErrorIsExact(buffer: Bytes, capacity: nat, error: Error)
    ensures Split(buffer, 0, capacity) == Err(error) <==> exists packets :: Stuck(buffer, capacity, packets, error)
  {
    hide Split, Stuck;
    assert buffer[0..] == buffer;
    if Split(buffer, 0, capacity) == Err(error) {
      var packets := SplitGetsStuck(buffer, 0, capacity);
    }
    if packets :| Stuck(buffer, capacity, packets, error) {
      StuckFails(buffer, 0, capacity, packets, error);
    }
  }

  method SplitUpPackets(buffer: Bytes, packets: array<Bytes>) returns (count: Result<nat, Error>)
    modifies packets
    ensures match Split(buffer, 0, packets.Length)
            case Ok(slices) =>
              count == Ok(|slices|) && |slices| <= packets.Length && packets[..|slices|] == slices
              && packets[|slices|..] == old(packets[|slices|..])
            case Err(error) => count == Err(error)
  {
    hide Flatten, AllWellFramed, WellFramed;
    var position, packetCount := 0, 0;
    ghost var whole := Split(buffer, 0, packets.Length);
    assert whole.Ok? ==> packets[..0] + whole.value == whole.value;
    while true
      invariant position <= |buffer| && packetCount <= packets.Length
      invariant packets[packetCount..] == old(packets[packetCount..])
      invariant match Split(buffer, position, packets.Length - packetCount)
                case Ok(rest) => Split(buffer, 0, packets.Length) == Ok(packets[..packetCount] + rest)
                case Err(error) => Split(buffer, 0, packets.Length) == Err(error)
      decreases |buffer| - position
    {
      var available := |buffer| - position;
      if available == 0 {
        break;
      }
      if packets.Length - packetCount == 0 {
        return Err(TooManyPackets);
      }
      var header :- ReadU16(buffer, position + 2);
      var length := header.0;
      if length * 4 > available - 4 {
        return Err(InvalidLength);
      }
      var packetEnd := position + length * 4 + 4;
      ghost var done, slice := packets[..packetCount], buffer[position..packetEnd];
      ghost var rest := Split(buffer, packetEnd, packets.Length - packetCount - 1);
      assert rest.Ok? ==> done + ([slice] + rest.value) == (done + [slice]) + rest.value;
      packets[packetCount] := buffer[position..packetEnd];
      assert packets[..packetCount + 1] == done + [slice];
      packetCount := packetCount + 1;
      position := packetEnd;
    }
    count := Ok(packetCount);
  }

  // --- packets of every kind ---------------------------------------------------------------------

  predicate WithinLimits(p: Packet) {
    match p
    case Sender(r) => SenderWithinLimits(r) && Clean(r.profileData)
    case Receiver(r) => ReceiverWithinLimits(r) && Clean(r.profileData)
    case Transport(f) => TransportWithinLimits(f)
    case Payload(f) => PayloadWithinLimits(f) && |FeedbackPayload(f.feedback)| % 4 == 0
    case Application(a) => ApplicationWithinLimits(a)
    case Unknown(bytes) => WellFramed(bytes) && !(SENDER_REPORT <= bytes[1] <= LAST_KNOWN_TYPE)
  }

  ghost function PacketBytes(p: Packet): Bytes
    requires WithinLimits(p)
  {
    match p
    case Sender(r) => SenderReportBytes(r)
    case Receiver(r) => ReceiverReportBytes(r)
    case Transport(f) => TransportFeedbackBytes(f)
    case Payload(f) => PayloadFeedbackBytes(f)
    case Application(a) => ApplicationDefinedBytes(a)
    case Unknown(bytes) => bytes
  }

  function ParsePacket(buffer: Bytes): Result<Packet, Error> {
    if |buffer| < 2 then Err(TruncatedPacket)
    else if buffer[1] == SENDER_REPORT then
      var (r, _) :- ParseSenderReport(buffer, 0); Ok(Sender(r))
    else if buffer[1] == RECEIVER_REPORT then
      var (r, _) :- ParseReceiverReport(buffer, 0); Ok(Receiver(r))
    else if buffer[1] == APPLICATION_DEFINED then
      var (a, _) :- ParseApplicationDefined(buffer, 0); Ok(Application(a))
    else if buffer[1] == TRANSPORT_FEEDBACK then
      var (f, _) :- ParseTransportFeedback(buffer, 0); Ok(Transport(f))
    else if buffer[1] == PAYLOAD_FEEDBACK then
      var (f, _) :- ParsePayloadFeedback(buffer, 0); Ok(Payload(f))
    else if SENDER_REPORT <= buffer[1] <= LAST_KNOWN_TYPE then Err(OutsideModel)
    else Ok(Unknown(buffer))
  }

  lemma HeaderFrames(info: u8, packetType: u8, length: u16, body: Bytes)
    requires |body| == 4 * length
    ensures WellFramed(Header(info, packetType, length) + body)
    ensures (Header(info, packetType, length) + body)[1] == packetType
  {
  }

  lemma PacketIsFramed(p: Packet)
    requires WithinLimits(p)
    ensures WellFramed(PacketBytes(p))
    ensures !p.Unknown? ==> PacketBytes(p)[1] == match p {
      case Sender(_) => SENDER_REPORT
      case Receiver(_) => RECEIVER_REPORT
      case Transport(_) => TRANSPORT_FEEDBACK
      case Payload(_) => PAYLOAD_FEEDBACK
      case _ => APPLICATION_DEFINED
    }
  {
    hide WellFramed, Header, U32, U64, BlocksBytes, NacksBytes, ReportsBytes;
    match p
    case Sender(r) =>
      CleanProfileLength(r.profileData);
      HeaderFrames(ReportInfo(|r.reports|, r.profileData), SENDER_REPORT, 6 + 6 * |r.reports| + QuadsOf(r.profileData),
        U32(r.ssrc) + (SenderInfoBytes(r) + (ReportsBytes(r.reports) + ProfileData(r.profileData, true))));
    case Receiver(r) =>
      CleanProfileLength(r.profileData);
      HeaderFrames(ReportInfo(|r.reports|, r.profileData), RECEIVER_REPORT, 1 + 6 * |r.reports| + QuadsOf(r.profileData),
        U32(r.ssrc) + (ReportsBytes(r.reports) + ProfileData(r.profileData, true)));
    case Transport(f) =>
      HeaderFrames(128 + GENERIC_NACK, TRANSPORT_FEEDBACK, 2 + |f.nacks|,
                   U32(f.ssrc) + (U32(f.mediaSsrc) + NacksBytes(f.nacks)));
    case Payload(f) =>
      var payload := FeedbackPayload(f.feedback);
      HeaderFrames(128 + FeedbackId(f.feedback), PAYLOAD_FEEDBACK, 2 + (|payload| + 3) / 4,
                   U32(f.ssrc) + (U32(f.mediaSsrc) + (payload + Padding(|payload|))));
    case Application(a) =>
      HeaderFrames(128 + a.subtype, APPLICATION_DEFINED, 2 + |a.data| / 4, U32(a.src) + (a.name + a.data));
    case Unknown(_) =>
  }

  lemma CleanProfileLength(profile: Option<Bytes>)
    requires Clean(profile)
    ensures |ProfileData(profile, true)| == 4 * QuadsOf(profile)
  {
  }

  lemma PacketReadsBack(p: Packet)
    requires WithinLimits(p)
    ensures ParsePacket(PacketBytes(p)) == Ok(p)
  {
    hide WellFramed, SenderReportBytes, ReceiverReportBytes, TransportFeedbackBytes, PayloadFeedbackBytes;
    hide ApplicationDefinedBytes, ParseSenderReport, ParseReceiverReport, ParseTransportFeedback;
    hide ParsePayloadFeedback, ParseApplicationDefined;
    var bytes := PacketBytes(p);
    PacketIsFramed(p);
    FramedIsLong(bytes);
    HoldsWhole(bytes);
    match p
    case Sender(r) => SenderReportReadsBack(bytes, 0, r);
    case Receiver(r) => ReceiverReportReadsBack(bytes, 0, r);
    case Transport(f) => TransportFeedbackReadsBack(bytes, 0, f);
    case Payload(f) => PayloadFeedbackReadsBackExactlyWhenAligned(bytes, 0, f);
    case Application(a) => ApplicationDefinedReadsBack(bytes, 0, a);
    case Unknown(_) =>
  }

  lemma FramedIsLong(bytes: Bytes)
    requires WellFramed(bytes)
    ensures |bytes| >= 4
  {
  }

  ghost function AllBytes(packets: seq<Packet>): (slices: seq<Bytes>)
    requires forall i :: 0 <= i < |packets| ==> WithinLimits(packets[i])
    ensures |slices| == |packets| && forall i :: 0 <= i < |packets| ==> slices[i] == PacketBytes(packets[i])
  {
    if packets == [] then [] else [PacketBytes(packets[0])] + AllBytes(packets[1..])
  }

  /** Writing any list of packets one after the other, splitting and parsing gives the list back in order. */
  lemma CompoundReadsBack(packets: seq<Packet>, capacity: nat)
    requires |packets| <= capacity && forall i :: 0 <= i < |packets| ==> WithinLimits(packets[i])
    ensures Split(Flatten(AllBytes(packets)), 0, capacity) == Ok(AllBytes(packets))
    ensures forall i :: 0 <= i < |packets| ==> ParsePacket(AllBytes(packets)[i]) == Ok(packets[i])
  {
    hide PacketBytes, WithinLimits, WellFramed, ParsePacket;
    forall i | 0 <= i < |packets|
      ensures WellFramed(AllBytes(packets)[i]) && ParsePacket(AllBytes(packets)[i]) == Ok(packets[i])
    {
      PacketIsFramed(packets[i]);
      PacketReadsBack(packets[i]);
    }
    SplitIsExact(Flatten(AllBytes(packets)), capacity, AllBytes(packets));
  }

  // --- resend requests end to end ----------------------------------------------------------------

  /** Group heads are at least a mask apart, so a window needs few pairs. */
  lemma {:induction false} FewNacks(packets: seq<u16>, base: u16, span: nat)
    requires Ascending(packets, base, span) && span <= NUMBERS - NACK_WINDOW && packets != []
    ensures MASK_BITS * |Create(packets, 0)| <= span - Forward(base, packets[0], NUMBERS) + MASK_BITS - 1
    decreases |packets|
  {
    hide Collect, DistanceFrom, BitsFrom, Offsets, Expand;
    CollectLeavesFar(packets, base, span);
    var (mask, rest) := Collect(packets[0], packets[1..], 0, 0);
    CreateStep(packets, 0);
    if rest != [] {
      FewNacks(rest, base, span);
    }
  }

  lemma CollectLeavesFar(packets: seq<u16>, base: u16, span: nat)
    requires Ascending(packets, base, span) && span <= NUMBERS - NACK_WINDOW && packets != []
    ensures var (mask, rest) := Collect(packets[0], packets[1..], 0, 0);
            && |rest| < |packets| && Ascending(rest, base, span)
            && (rest != [] ==> Forward(base, rest[0], NUMBERS) >= Forward(base, packets[0], NUMBERS) + MASK_BITS)
  {
    hide BitsFrom, Offsets, Expand, Mark;
    CollectKeepsSuffix(packets[0], packets[1..], 0);
    var (mask, rest) := Collect(packets[0], packets[1..], 0, 0);
    AscendingSuffix(packets, |packets| - |rest|, base, span);
    assert rest == packets[|packets| - |rest|..];
    if rest != [] {
      hide DistanceFrom;
      assert rest[0] == packets[|packets| - |rest|];
      NearDistanceIsForward(packets[0], rest[0], MASK_BITS);
    }
  }

  lemma {:induction false} CollectKeepsSuffix(head: u16, packets: seq<u16>, mask: u16)
    ensures var (after, rest) := Collect(head, packets, mask, 0);
            && rest == packets[|packets| - |rest|..]
            && (rest != [] ==> DistanceFrom(head, rest[0]) >= MASK_BITS)
    decreases |packets|
  {
    hide Mark, DistanceFrom;
    if packets != [] && DistanceFrom(head, packets[0]) < MASK_BITS {
      CollectKeepsSuffix(head, packets[1..], Mark(mask, DistanceFrom(head, packets[0])));
    }
  }

  /** The feedback packet `MediaReceiver::poll_next` makes of one resend request. */
  function ResendFeedback(mediaSsrc: u32, packets: seq<u16>, convention: Convention): TransportFeedback {
    TransportFeedback(1, mediaSsrc, Create(packets, convention.written))
  }

  /** What the other side takes the bytes of a compound packet to ask for. */
  function RequestedBy(bytes: Bytes, convention: Convention): Result<seq<u16>, Error>
    requires convention.Valid()
  {
    var packet :- ParsePacket(bytes);
    if packet.Transport? then Ok(ExpandAll(packet.transportFeedback.nacks, convention.readAt)) else Ok([])
  }

  /**
   * Every resend request of every run, as bytes: read with the source's own convention it asks for each group head
   * and, for every other number p, for p + 2, hence for the lost numbers exactly when no two are within 16; with
   * RFC 4585's convention on both sides it asks for exactly the lost numbers.
   */
  lemma ResendRequestsEndToEnd(size: nat, calls: seq<LossRuns.Call>, i: nat, mediaSsrc: u32, convention: Convention)
    requires LossRuns.Allowed(LossRuns.Start(size), LossRuns.SetsFrameSize(size)) && LossRuns.After(size, calls).Some?
    requires convention in {SOURCE, RFC4585}
    requires i < |LossRuns.After(size, calls).value.tracker.events|
    requires LossRuns.After(size, calls).value.tracker.events[i].ResendPackets?
    ensures var lost := LossRuns.After(size, calls).value.tracker.events[i].numbers;
            var feedback := ResendFeedback(mediaSsrc, lost, convention);
            && TransportWithinLimits(feedback)
            && RequestedBy(TransportFeedbackBytes(feedback), convention) == Ok(ReadBack(lost, convention))
            && (convention == RFC4585 ==> ReadBack(lost, convention) == lost)
            && (convention == SOURCE ==> (ReadBack(lost, convention) == lost <==> FarApart(lost, MASK_BITS)))
            && (convention == SOURCE ==> |TransportFeedbackBytes(feedback)| <= 12 + 4 * 32)
  {
    hide LossRuns.Next, LossRuns.After, Create, ReadBack, ExpandAll, ParsePacket, Ascending;
    LossRuns.ResendRequestsAscend(size, calls);
    var lost := LossRuns.After(size, calls).value.tracker.events[i].numbers;
    var base :| Ascending(lost, base, LossWindow.FRAME_LIMIT);
    var feedback := ResendFeedback(mediaSsrc, lost, convention);
    NackReadsBack(lost, base, LossWindow.FRAME_LIMIT, convention);
    CreateIsShort(lost, convention.written);
    AscendingIsShort(lost, base, LossWindow.FRAME_LIMIT);
    PacketReadsBack(Transport(feedback));
    if convention == RFC4585 {
      SameConventionReadsBackExactly(lost, convention);
    } else {
      DriftingConventionReadsBackExactlyWhenFarApart(lost, base, LossWindow.FRAME_LIMIT, convention);
      if lost != [] {
        FewNacks(lost, base, LossWindow.FRAME_LIMIT);
      } else {
        CreateOfNone();
      }
    }
  }

  lemma CreateOfNone()
    ensures Create([], 0) == []
  {
  }

  lemma {:induction false} CreateIsShort(packets: seq<u16>, written: nat)
    ensures |Create(packets, written)| <= |packets|
    decreases |packets|
  {
    if packets != [] {
      CreateIsShort(Collect(packets[0], packets[1..], 0, written).1, written);
    }
  }

  lemma {:induction false} AscendingIsShort(packets: seq<u16>, base: u16, span: nat)
    requires Ascending(packets, base, span)
    ensures |packets| <= span
    decreases |packets|
  {
    if packets != [] {
      var last := |packets| - 1;
      var shorter := packets[..last];
      assert forall i :: 0 <= i < last ==> shorter[i] == packets[i];
      AscendingIsShort(shorter, base, Forward(base, packets[last], NUMBERS));
    }
  }
}
