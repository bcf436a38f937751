/** RTCP packets: their wire form, parsing, and compound packets (src/utils/rtcp/mod.rs and src/utils/rtcp/packets). */
module Rtcp {
  import opened Prelude
  import opened Wire
  import opened GenericNack
  import opened SortedKeySets

  // --- packets -----------------------------------------------------------------------------------

  datatype ReportBlock = ReportBlock(
    fractionLost: u8,
    cumulativePacketsLost: u32,
    highestSequenceReceived: u32,
    jitter: u32,
    timestampLastSr: u32,
    delaySinceLastSr: u32)

  type Reports = map<u32, ReportBlock>

  datatype SenderReport = SenderReport(
    ssrc: u32,
    networkTimestamp: u64,
    rtpTimestamp: u32,
    packetCount: u32,
    byteCount: u32,
    reports: Reports,
    profileData: Option<Bytes>)

  datatype ReceiverReport = ReceiverReport(ssrc: u32, reports: Reports, profileData: Option<Bytes>)

  datatype TransportFeedback = TransportFeedback(ssrc: u32, mediaSsrc: u32, nacks: seq<Nack>)

  datatype PayloadFeedbackKind =
    | PictureLossIndication
    | ReferencePictureSelectionIndication
    | ApplicationSpecific(payload: Bytes)

  datatype PayloadFeedback = PayloadFeedback(ssrc: u32, mediaSsrc: u32, feedback: PayloadFeedbackKind)

  datatype ApplicationDefined = ApplicationDefined(subtype: u8, src: u32, name: Bytes, data: Bytes)

  datatype Packet =
    | Sender(senderReport: SenderReport)
    | Receiver(receiverReport: ReceiverReport)
    | Transport(transportFeedback: TransportFeedback)
    | Payload(payloadFeedback: PayloadFeedback)
    | Application(applicationDefined: ApplicationDefined)
    | Unknown(bytes: Bytes)

  const SENDER_REPORT: u8 := 200
  const RECEIVER_REPORT: u8 := 201
  const APPLICATION_DEFINED: u8 := 204
  const TRANSPORT_FEEDBACK: u8 := 205
  const PAYLOAD_FEEDBACK: u8 := 206
  const LAST_KNOWN_TYPE: u8 := 207

  // --- report blocks -----------------------------------------------------------------------------

  predicate BlocksWithinLimits(reports: Reports) {
    |reports| <= 15 && forall k :: k in reports ==> reports[k].cumulativePacketsLost < 0x100_0000
  }

  function BlockBytes(block: ReportBlock): (b: Bytes)
    requires block.cumulativePacketsLost < 0x100_0000
    ensures |b| == 20
  {
    [block.fractionLost] + (U24(block.cumulativePacketsLost) + (U32(block.highestSequenceReceived)
      + (U32(block.jitter) + (U32(block.timestampLastSr) + U32(block.delaySinceLastSr)))))
  }

  function ReadBlock(data: Bytes, pos: nat): Read<ReportBlock> {
    var (fractionLost, p) :- ReadU8(data, pos);
    var (cumulativePacketsLost, p) :- ReadU24(data, p);
    var (highestSequenceReceived, p) :- ReadU32(data, p);
    var (jitter, p) :- ReadU32(data, p);
    var (timestampLastSr, p) :- ReadU32(data, p);
    var (delaySinceLastSr, p) :- ReadU32(data, p);
    Ok((ReportBlock(fractionLost, cumulativePacketsLost, highestSequenceReceived, jitter, timestampLastSr,
                    delaySinceLastSr), p))
  }

  lemma BlockReadsBack(data: Bytes, pos: nat, block: ReportBlock)
    requires block.cumulativePacketsLost < 0x100_0000 && Holds(data, pos, BlockBytes(block))
    ensures ReadBlock(data, pos) == Ok((block, pos + 20))
  {
    hide Holds, U24, U32, ReadU8, ReadU24, ReadU32;
    var f6 := U32(block.delaySinceLastSr);
    var f5 := U32(block.timestampLastSr) + f6;
    var f4 := U32(block.jitter) + f5;
    var f3 := U32(block.highestSequenceReceived) + f4;
    var f2 := U24(block.cumulativePacketsLost) + f3;
    HoldsBoth(data, pos, [block.fractionLost], f2);
    HoldsBoth(data, pos + 1, U24(block.cumulativePacketsLost), f3);
    HoldsBoth(data, pos + 4, U32(block.highestSequenceReceived), f4);
    HoldsBoth(data, pos + 8, U32(block.jitter), f5);
    HoldsBoth(data, pos + 12, U32(block.timestampLastSr), f6);
    ReadsU8(data, pos, block.fractionLost);
    ReadsU24(data, pos + 1, block.cumulativePacketsLost);
    ReadsU32(data, pos + 4, block.highestSequenceReceived);
    ReadsU32(data, pos + 8, block.jitter);
    ReadsU32(data, pos + 12, block.timestampLastSr);
    ReadsU32(data, pos + 16, block.delaySinceLastSr);
  }

  ghost predicate KeysOf(keys: seq<u32>, reports: Reports) {
    forall k :: k in keys ==> k in reports && reports[k].cumulativePacketsLost < 0x100_0000
  }

  ghost function BlocksBytes(reports: Reports, keys: seq<u32>): (b: Bytes)
    requires KeysOf(keys, reports)
    ensures |b| == 24 * |keys|
  {
    if keys == [] then []
    else (U32(keys[0]) + BlockBytes(reports[keys[0]])) + BlocksBytes(reports, keys[1..])
  }

  function ReadBlocks(data: Bytes, pos: nat, count: nat, read: Reports): Read<Reports>
    decreases count
  {
    if count == 0 then Ok((read, pos))
    else
      var (ssrc, p) :- ReadU32(data, pos);
      var (block, p) :- ReadBlock(data, p);
      ReadBlocks(data, p, count - 1, read[ssrc := block])
  }

  ghost function WithKeys(read: Reports, reports: Reports, keys: seq<u32>): (r: Reports)
    requires KeysOf(keys, reports)
    ensures forall k :: k in r <==> k in read || k in keys
    ensures forall k :: k in r ==> r[k] == if k in keys then reports[k] else read[k]
    decreases |keys|
  {
    if keys == [] then read else WithKeys(read[keys[0] := reports[keys[0]]], reports, keys[1..])
  }

  lemma {:induction false} BlocksReadBack(data: Bytes, pos: nat, reports: Reports, keys: seq<u32>, read: Reports)
    requires KeysOf(keys, reports) && Holds(data, pos, BlocksBytes(reports, keys))
    ensures ReadBlocks(data, pos, |keys|, read) == Ok((WithKeys(read, reports, keys), pos + 24 * |keys|))
    decreases |keys|
  {
    hide Holds, U32, ReadU32, ReadBlock, BlockBytes;
    if keys != [] {
      var key, block := keys[0], reports[keys[0]];
      HoldsBoth(data, pos, U32(key) + BlockBytes(block), BlocksBytes(reports, keys[1..]));
      HoldsBoth(data, pos, U32(key), BlockBytes(block));
      ReadsU32(data, pos, key);
      BlockReadsBack(data, pos + 4, block);
      BlocksReadBack(data, pos + 24, reports, keys[1..], read[key := block]);
    }
  }

  ghost function ReportsBytes(reports: Reports): (b: Bytes)
    requires BlocksWithinLimits(reports)
    ensures |b| == 24 * |reports|
  {
    assert |reports.Keys| == |reports|;
    BlocksBytes(reports, SortedKeys(reports.Keys))
  }

  /** Blocks are written once each, in ascending order of their keys. */
  lemma ReportsAscend(reports: Reports) returns (keys: seq<u32>)
    requires BlocksWithinLimits(reports)
    ensures KeysOf(keys, reports) && ReportsBytes(reports) == BlocksBytes(reports, keys) && |keys| == |reports|
    ensures forall k :: k in reports <==> k in keys
    ensures forall i, j :: 0 <= i < j < |keys| ==> keys[i] < keys[j]
  {
    hide SortedKeys, BlocksBytes;
    keys := SortedKeys(reports.Keys);
    assert |reports.Keys| == |reports|;
    SortedKeysAscend(reports.Keys);
  }

  lemma ReportsReadBack(data: Bytes, pos: nat, reports: Reports)
    requires BlocksWithinLimits(reports) && Holds(data, pos, ReportsBytes(reports))
    ensures ReadBlocks(data, pos, |reports|, map[]) == Ok((reports, pos + 24 * |reports|))
  {
    hide Holds, BlocksBytes, ReadBlocks, SortedKeys, WithKeys;
    var keys := SortedKeys(reports.Keys);
    assert |reports.Keys| == |reports|;
    BlocksReadBack(data, pos, reports, keys, map[]);
    assert WithKeys(map[], reports, keys) == reports;
  }

  // --- headers -----------------------------------------------------------------------------------

  /** A length beyond its field loses its upper bits. */
  function Header(info: u8, packetType: u8, length: nat): (b: Bytes)
    ensures |b| == 4
  {
    [info] + ([packetType] + U16(length % 0x1_0000))
  }

  /** The first two bytes: version and packet type. */
  function ReadInfo(data: Bytes, pos: nat, packetType: u8): Read<u8> {
    var (info, p) :- ReadU8(data, pos);
    :- Need(info / 64 == 2, InvalidVersion);
    var (actual, p) :- ReadU8(data, p);
    :- Need(actual == packetType, WrongPacketType);
    Ok((info, p))
  }

  lemma HeaderReadsBack(data: Bytes, pos: nat, info: u8, packetType: u8, length: u16, body: Bytes)
    requires info / 64 == 2 && Holds(data, pos, Header(info, packetType, length) + body)
    ensures ReadInfo(data, pos, packetType) == Ok((info, pos + 2))
    ensures ReadU16(data, pos + 2) == Ok((length, pos + 4))
    ensures Holds(data, pos + 4, body)
  {
    hide Holds, U16, ReadU16, ReadU8;
    assert length % 0x1_0000 == length;
    HoldsBoth(data, pos, Header(info, packetType, length), body);
    HoldsBoth(data, pos, [info], [packetType] + U16(length));
    HoldsBoth(data, pos + 1, [packetType], U16(length));
    ReadsU8(data, pos, info);
    ReadsU8(data, pos + 1, packetType);
    ReadsU16(data, pos + 2, length);
  }

  // --- sender and receiver reports ---------------------------------------------------------------

  function QuadsOf(profile: Option<Bytes>): nat {
    if profile.Some? then (|profile.value| + 3) / 4 else 0
  }

  function ReportInfo(count: nat, profile: Option<Bytes>): u8
    requires count <= 15
  {
    128 + count + if profile.Some? && |profile.value| % 4 != 0 then 32 else 0
  }

  lemma CleanReportInfo(count: nat, profile: Option<Bytes>)
    requires count <= 15 && Clean(profile)
    ensures ReportInfo(count, profile) / 64 == 2 && ReportInfo(count, profile) % 64 == count
    ensures 4 * QuadsOf(profile) == ProfileDataLength(profile)
  {
  }

  predicate SenderWithinLimits(r: SenderReport) {
    BlocksWithinLimits(r.reports) && 6 + 6 * |r.reports| + QuadsOf(r.profileData) < 0x1_0000
  }

  ghost function SenderReportBytes(r: SenderReport): Bytes
    requires BlocksWithinLimits(r.reports)
  {
    Header(ReportInfo(|r.reports|, r.profileData), SENDER_REPORT, 6 + 6 * |r.reports| + QuadsOf(r.profileData))
    + (U32(r.ssrc) + (SenderInfoBytes(r) + (ReportsBytes(r.reports) + ProfileData(r.profileData, true))))
  }

  function SenderInfoBytes(r: SenderReport): (b: Bytes)
    ensures |b| == 20
  {
    U64(r.networkTimestamp) + (U32(r.rtpTimestamp) + (U32(r.packetCount) + U32(r.byteCount)))
  }

  lemma SenderInfoReadsBack(data: Bytes, pos: nat, r: SenderReport)
    requires Holds(data, pos, SenderInfoBytes(r))
    ensures ReadU64(data, pos) == Ok((r.networkTimestamp, pos + 8))
    ensures ReadU32(data, pos + 8) == Ok((r.rtpTimestamp, pos + 12))
    ensures ReadU32(data, pos + 12) == Ok((r.packetCount, pos + 16))
    ensures ReadU32(data, pos + 16) == Ok((r.byteCount, pos + 20))
  {
    hide Holds, U32, U64, ReadU32, ReadU64;
    HoldsBoth(data, pos, U64(r.networkTimestamp), U32(r.rtpTimestamp) + (U32(r.packetCount) + U32(r.byteCount)));
    HoldsBoth(data, pos + 8, U32(r.rtpTimestamp), U32(r.packetCount) + U32(r.byteCount));
    HoldsBoth(data, pos + 12, U32(r.packetCount), U32(r.byteCount));
    ReadsU64(data, pos, r.networkTimestamp);
    ReadsU32(data, pos + 8, r.rtpTimestamp);
    ReadsU32(data, pos + 12, r.packetCount);
    ReadsU32(data, pos + 16, r.byteCount);
  }

  function ParseSenderReport(data: Bytes, pos: nat): Read<SenderReport> {
    var (info, p) :- ReadInfo(data, pos, SENDER_REPORT);
    var (quads, p) :- ReadU16(data, p);
    var (ssrc, p) :- ReadU32(data, p);
    var (networkTimestamp, p) :- ReadU64(data, p);
    var (rtpTimestamp, p) :- ReadU32(data, p);
    var (packetCount, p) :- ReadU32(data, p);
    var (byteCount, p) :- ReadU32(data, p);
    var (reports, p) :- ReadBlocks(data, p, info % 64, map[]);
    var bytesRead := 28 + 24 * |reports|;
    :- Need(quads * 4 + 4 >= bytesRead, InvalidLength);
    var (profileData, p) :- ReadProfileData(data, p, quads * 4 + 4 - bytesRead, info / 64 % 2 == 1);
    Ok((SenderReport(ssrc, networkTimestamp, rtpTimestamp, packetCount, byteCount, reports, profileData), p))
  }

  lemma SenderReportReadsBack(data: Bytes, pos: nat, r: SenderReport)
    requires SenderWithinLimits(r) && Clean(r.profileData) && Holds(data, pos, SenderReportBytes(r))
    ensures ParseSenderReport(data, pos) == Ok((r, pos + |SenderReportBytes(r)|))
  {
    hide Holds, U32, U64, ReadU16, ReadU32, ReadU64, ReadInfo, Header, ReadBlocks, ReportsBytes, ReadProfileData, ProfileData;
    hide Clean, QuadsOf, ProfileDataLength, ReportInfo;
    CleanReportInfo(|r.reports|, r.profileData);
    hide SenderInfoBytes;
    var f7 := ReportsBytes(r.reports) + ProfileData(r.profileData, true);
    var f3 := SenderInfoBytes(r) + f7;
    HeaderReadsBack(data, pos, ReportInfo(|r.reports|, r.profileData), SENDER_REPORT,
                    6 + 6 * |r.reports| + QuadsOf(r.profileData), U32(r.ssrc) + f3);
    HoldsBoth(data, pos + 4, U32(r.ssrc), f3);
    HoldsBoth(data, pos + 8, SenderInfoBytes(r), f7);
    HoldsBoth(data, pos + 28, ReportsBytes(r.reports), ProfileData(r.profileData, true));
    ReadsU32(data, pos + 4, r.ssrc);
    SenderInfoReadsBack(data, pos + 8, r);
    ReportsReadBack(data, pos + 28, r.reports);
    CleanProfileReadsBack(data, pos + 28 + 24 * |r.reports|, r.profileData);
  }

  predicate ReceiverWithinLimits(r: ReceiverReport) {
    BlocksWithinLimits(r.reports) && 1 + 6 * |r.reports| + QuadsOf(r.profileData) < 0x1_0000
  }

  ghost function ReceiverReportBytes(r: ReceiverReport): Bytes
    requires BlocksWithinLimits(r.reports)
  {
    Header(ReportInfo(|r.reports|, r.profileData), RECEIVER_REPORT, 1 + 6 * |r.reports| + QuadsOf(r.profileData))
    + (U32(r.ssrc) + (ReportsBytes(r.reports) + ProfileData(r.profileData, true)))
  }

  function ParseReceiverReport(data: Bytes, pos: nat): Read<ReceiverReport> {
    var (info, p) :- ReadInfo(data, pos, RECEIVER_REPORT);
    var (quads, p) :- ReadU16(data, p);
    var (ssrc, p) :- ReadU32(data, p);
    var (reports, p) :- ReadBlocks(data, p, info % 64, map[]);
    var bytesRead := 8 + 24 * |reports|;
    :- Need(quads * 4 + 4 >= bytesRead, InvalidLength);
    var (profileData, p) :- ReadProfileData(data, p, quads * 4 + 4 - bytesRead, info / 64 % 2 == 1);
    Ok((ReceiverReport(ssrc, reports, profileData), p))
  }

  lemma ReceiverReportReadsBack(data: Bytes, pos: nat, r: ReceiverReport)
    requires ReceiverWithinLimits(r) && Clean(r.profileData) && Holds(data, pos, ReceiverReportBytes(r))
    ensures ParseReceiverReport(data, pos) == Ok((r, pos + |ReceiverReportBytes(r)|))
  {
    hide Holds, U32, ReadU16, ReadU32, ReadInfo, Header, ReadBlocks, ReportsBytes, ReadProfileData, ProfileData;
    hide Clean, QuadsOf, ProfileDataLength, ReportInfo;
    CleanReportInfo(|r.reports|, r.profileData);
    var f3 := ReportsBytes(r.reports) + ProfileData(r.profileData, true);
    HeaderReadsBack(data, pos, ReportInfo(|r.reports|, r.profileData), RECEIVER_REPORT,
                    1 + 6 * |r.reports| + QuadsOf(r.profileData), U32(r.ssrc) + f3);
    HoldsBoth(data, pos + 4, U32(r.ssrc), f3);
    HoldsBoth(data, pos + 8, ReportsBytes(r.reports), ProfileData(r.profileData, true));
    ReadsU32(data, pos + 4, r.ssrc);
    ReportsReadBack(data, pos + 8, r.reports);
    CleanProfileReadsBack(data, pos + 8 + 24 * |r.reports|, r.profileData);
  }

  lemma ParsedInfoHasVersionTwo(data: Bytes, pos: nat, packetType: u8)
    requires ReadInfo(data, pos, packetType).Ok?
    ensures ReadInfo(data, pos, packetType).value.0 / 64 == 2
  {
  }

  /** The parser looks for padding in a version bit, so a profile it reads is never stripped. */
  lemma ParsedSenderProfileIsClean(data: Bytes, pos: nat)
    ensures ParseSenderReport(data, pos).Ok? ==> Clean(ParseSenderReport(data, pos).value.0.profileData)
  {
    hide ReadU32, ReadU64, ReadU16, ReadBlocks, ReadInfo, ReadProfileData;
    if ReadInfo(data, pos, SENDER_REPORT).Ok? {
      ParsedInfoHasVersionTwo(data, pos, SENDER_REPORT);
    }
  }

  lemma ParsedReceiverProfileIsClean(data: Bytes, pos: nat)
    ensures ParseReceiverReport(data, pos).Ok? ==> Clean(ParseReceiverReport(data, pos).value.0.profileData)
  {
    hide ReadU32, ReadU64, ReadU16, ReadBlocks, ReadInfo, ReadProfileData;
    if ReadInfo(data, pos, RECEIVER_REPORT).Ok? {
      ParsedInfoHasVersionTwo(data, pos, RECEIVER_REPORT);
    }
  }

  /** A report comes back from the wire exactly when its profile data is absent, or non-empty and 4-aligned. */
  lemma SenderReportReadsBackExactlyWhenClean(r: SenderReport)
    requires SenderWithinLimits(r)
    ensures ParseSenderReport(SenderReportBytes(r), 0) == Ok((r, |SenderReportBytes(r)|)) <==> Clean(r.profileData)
  {
    hide ParseSenderReport, SenderReportBytes;
    ParsedSenderProfileIsClean(SenderReportBytes(r), 0);
    HoldsWhole(SenderReportBytes(r));
    if Clean(r.profileData) {
      SenderReportReadsBack(SenderReportBytes(r), 0, r);
    }
  }

  lemma ReceiverReportReadsBackExactlyWhenClean(r: ReceiverReport)
    requires ReceiverWithinLimits(r)
    ensures ParseReceiverReport(ReceiverReportBytes(r), 0) == Ok((r, |ReceiverReportBytes(r)|)) <==> Clean(r.profileData)
  {
    hide ParseReceiverReport, ReceiverReportBytes;
    ParsedReceiverProfileIsClean(ReceiverReportBytes(r), 0);
    HoldsWhole(ReceiverReportBytes(r));
    if Clean(r.profileData) {
      ReceiverReportReadsBack(ReceiverReportBytes(r), 0, r);
    }
  }

  // --- transport feedback ------------------------------------------------------------------------

  const GENERIC_NACK := 1

  function NacksBytes(nacks: seq<Nack>): (b: Bytes)
    ensures |b| == 4 * |nacks|
  {
    if nacks == [] then []
    else (U16(nacks[0].packetId) + U16(nacks[0].lostPackets)) + NacksBytes(nacks[1..])
  }

  function ReadNacks(data: Bytes, pos: nat, count: nat): Read<seq<Nack>>
    decreases count
  {
    if count == 0 then Ok(([], pos))
    else
      var (packetId, p) :- ReadU16(data, pos);
      var (lostPackets, p) :- ReadU16(data, p);
      var (rest, p) :- ReadNacks(data, p, count - 1);
      Ok(([Nack(packetId, lostPackets)] + rest, p))
  }

  lemma {:induction false} NacksReadBack(data: Bytes, pos: nat, nacks: seq<Nack>)
    requires Holds(data, pos, NacksBytes(nacks))
    ensures ReadNacks(data, pos, |nacks|) == Ok((nacks, pos + 4 * |nacks|))
    decreases |nacks|
  {
    hide Holds, U16, ReadU16;
    if nacks != [] {
      var packetId, lostPackets := U16(nacks[0].packetId), U16(nacks[0].lostPackets);
      HoldsBoth(data, pos, packetId + lostPackets, NacksBytes(nacks[1..]));
      HoldsBoth(data, pos, packetId, lostPackets);
      ReadsU16(data, pos, nacks[0].packetId);
      ReadsU16(data, pos + 2, nacks[0].lostPackets);
      NacksReadBack(data, pos + 4, nacks[1..]);
      assert nacks == [nacks[0]] + nacks[1..];
    }
  }

  predicate TransportWithinLimits(f: TransportFeedback) {
    2 + |f.nacks| < 0x1_0000
  }

  function TransportFeedbackBytes(f: TransportFeedback): Bytes
  {
    Header(128 + GENERIC_NACK, TRANSPORT_FEEDBACK, 2 + |f.nacks|)
    + (U32(f.ssrc) + (U32(f.mediaSsrc) + NacksBytes(f.nacks)))
  }

  function ParseTransportFeedback(data: Bytes, pos: nat): Read<TransportFeedback> {
    var (info, p) :- ReadInfo(data, pos, TRANSPORT_FEEDBACK);
    :- Need(info % 32 == GENERIC_NACK, UnknownFeedback);
    var (length, p) :- ReadU16(data, p);
    var (ssrc, p) :- ReadU32(data, p);
    var (mediaSsrc, p) :- ReadU32(data, p);
    :- Need(length >= 2, LengthUnderflow);
    var (nacks, p) :- ReadNacks(data, p, length - 2);
    Ok((TransportFeedback(ssrc, mediaSsrc, nacks), p))
  }

  lemma TransportFeedbackReadsBack(data: Bytes, pos: nat, f: TransportFeedback)
    requires TransportWithinLimits(f) && Holds(data, pos, TransportFeedbackBytes(f))
    ensures ParseTransportFeedback(data, pos) == Ok((f, pos + |TransportFeedbackBytes(f)|))
  {
    hide Holds, U32, ReadU16, ReadU32, ReadInfo, Header, NacksBytes, ReadNacks;
    var f3 := U32(f.mediaSsrc) + NacksBytes(f.nacks);
    HeaderReadsBack(data, pos, 128 + GENERIC_NACK, TRANSPORT_FEEDBACK, 2 + |f.nacks|, U32(f.ssrc) + f3);
    HoldsBoth(data, pos + 4, U32(f.ssrc), f3);
    HoldsBoth(data, pos + 8, U32(f.mediaSsrc), NacksBytes(f.nacks));
    ReadsU32(data, pos + 4, f.ssrc);
    ReadsU32(data, pos + 8, f.mediaSsrc);
    NacksReadBack(data, pos + 12, f.nacks);
  }

  // --- payload feedback --------------------------------------------------------------------------

  function FeedbackId(feedback: PayloadFeedbackKind): u8 {
    match feedback
    case PictureLossIndication => 1
    case ReferencePictureSelectionIndication => 3
    case ApplicationSpecific(_) => 15
  }

  function FeedbackPayload(feedback: PayloadFeedbackKind): Bytes {
    match feedback
    case ApplicationSpecific(payload) => payload
    case _ => []
  }

  predicate PayloadWithinLimits(f: PayloadFeedback) {
    2 + (|FeedbackPayload(f.feedback)| + 3) / 4 < 0x1_0000
  }

  function PayloadFeedbackBytes(f: PayloadFeedback): Bytes
  {
    var payload := FeedbackPayload(f.feedback);
    Header(128 + FeedbackId(f.feedback) + (if |payload| % 4 != 0 then 32 else 0), PAYLOAD_FEEDBACK,
           2 + (|payload| + 3) / 4)
    + (U32(f.ssrc) + (U32(f.mediaSsrc) + (payload + Padding(|payload|))))
  }

  function ParsePayloadFeedback(data: Bytes, pos: nat): Read<PayloadFeedback> {
    var (info, p) :- ReadInfo(data, pos, PAYLOAD_FEEDBACK);
    var id := info % 32;
    :- Need(id in {1, 2, 3, 15}, UnknownFeedback);
    var (length, p) :- ReadU16(data, p);
    var (ssrc, p) :- ReadU32(data, p);
    var (mediaSsrc, p) :- ReadU32(data, p);
    if id == 15 then
      :- Need(length >= 2, LengthUnderflow);
      var (payload, p) :- ReadExact(data, p, (length - 2) * 4);
      Ok((PayloadFeedback(ssrc, mediaSsrc, ApplicationSpecific(payload)), p))
    else
      :- Need(id != 2, UnsupportedFeedback);
      :- Need(length == 2, InvalidLength);
      Ok((PayloadFeedback(ssrc, mediaSsrc,
                          if id == 1 then PictureLossIndication else ReferencePictureSelectionIndication), p))
  }

  /** Payload feedback comes back exactly when its payload is 4-aligned; otherwise the padding comes with it. */
  lemma PayloadFeedbackReadsBackExactlyWhenAligned(data: Bytes, pos: nat, f: PayloadFeedback)
    requires PayloadWithinLimits(f) && Holds(data, pos, PayloadFeedbackBytes(f))
    ensures ParsePayloadFeedback(data, pos) == Ok((f, pos + |PayloadFeedbackBytes(f)|))
       <==> |FeedbackPayload(f.feedback)| % 4 == 0
  {
    hide U32, ReadU16, ReadU32, ReadInfo, Header;
    var payload := FeedbackPayload(f.feedback);
    var body := payload + Padding(|payload|);
    var info: u8 := 128 + FeedbackId(f.feedback) + if |payload| % 4 != 0 then 32 else 0;
    HeaderReadsBack(data, pos, info, PAYLOAD_FEEDBACK, 2 + (|payload| + 3) / 4, U32(f.ssrc) + (U32(f.mediaSsrc) + body));
    HoldsBoth(data, pos + 4, U32(f.ssrc), U32(f.mediaSsrc) + body);
    HoldsBoth(data, pos + 8, U32(f.mediaSsrc), body);
    ReadsU32(data, pos + 4, f.ssrc);
    ReadsU32(data, pos + 8, f.mediaSsrc);
    assert |body| == (|payload| + 3) / 4 * 4;
    assert |payload| % 4 == 0 ==> body == payload;
  }

  // --- application-defined packets ---------------------------------------------------------------

  predicate ApplicationWithinLimits(a: ApplicationDefined) {
    a.subtype < 32 && |a.name| == 4 && |a.data| % 4 == 0 && 2 + |a.data| / 4 < 0x1_0000
  }

  /** A subtype beyond its five bits runs into the padding flag and the version. */
  function ApplicationDefinedBytes(a: ApplicationDefined): Bytes {
    Header(128 + a.subtype % 128, APPLICATION_DEFINED, 2 + |a.data| / 4) + (U32(a.src) + (a.name + a.data))
  }

  function ParseApplicationDefined(data: Bytes, pos: nat): Read<ApplicationDefined> {
    var (info, p) :- ReadInfo(data, pos, APPLICATION_DEFINED);
    var (length, p) :- ReadU16(data, p);
    :- Need(length >= 2, InvalidLength);
    var (src, p) :- ReadU32(data, p);
    var (name, p) :- ReadExact(data, p, 4);
    var (payload, p) :- ReadExact(data, p, (length - 2) * 4);
    Ok((ApplicationDefined(info % 32, src, name, payload), p))
  }

  lemma ApplicationDefinedReadsBack(data: Bytes, pos: nat, a: ApplicationDefined)
    requires ApplicationWithinLimits(a) && Holds(data, pos, ApplicationDefinedBytes(a))
    ensures ParseApplicationDefined(data, pos) == Ok((a, pos + |ApplicationDefinedBytes(a)|))
  {
    hide U32, ReadU16, ReadU32, ReadInfo, Header;
    HeaderReadsBack(data, pos, 128 + a.subtype, APPLICATION_DEFINED, 2 + |a.data| / 4, U32(a.src) + (a.name + a.data));
    HoldsBoth(data, pos + 4, U32(a.src), a.name + a.data);
    HoldsBoth(data, pos + 8, a.name, a.data);
    ReadsU32(data, pos + 4, a.src);
  }
}
