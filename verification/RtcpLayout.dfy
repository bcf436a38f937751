/**
 * Where RTCP packets have their octets: the layouts of section 6 of RFC 3550 and section 6 of RFC 4585, stated on the
 * bytes alone (src/utils/rtcp).
 */
module RtcpLayout {
  import opened Prelude
  import opened Wire
  import opened GenericNack
  import opened Rtcp
  import opened Remb

  /** The number these octets stand for in network byte order. */
  function BigEndian(octets: Bytes): nat {
    if octets == [] then 0 else BigEndian(octets[..|octets| - 1]) * 0x100 + octets[|octets| - 1]
  }

  /** At this offset there are `width` octets for this number. */
  ghost predicate Field(bytes: Bytes, offset: nat, width: nat, value: nat) {
    offset + width <= |bytes| && BigEndian(bytes[offset..offset + width]) == value
  }

  lemma OctetValue(n: u8)
    ensures BigEndian([n]) == n
  {
    assert [n][..0] == [];
  }

  lemma JoinedValue(x: Bytes, y: Bytes)
    requires |y| == 2
    ensures BigEndian(x + y) == BigEndian(x) * 0x1_0000 + BigEndian(y)
  {
    assert (x + y)[..|x| + 1] == x + y[..1] && (x + y[..1])[..|x|] == x;
    assert y[..1] == [y[0]];
    OctetValue(y[0]);
  }

  lemma PairValue(high: u8, low: u8)
    ensures BigEndian([high, low]) == high * 0x100 + low
  {
    assert [high, low][..1] == [high];
    OctetValue(high);
  }

  lemma U16Value(n: u16)
    ensures BigEndian(U16(n)) == n
  {
    hide BigEndian;
    PairValue(n / 0x100, n % 0x100);
  }

  lemma U24Value(n: u24)
    ensures BigEndian(U24(n)) == n
  {
    hide BigEndian;
    var high, middle, low := n / 0x1_0000, n / 0x100 % 0x100, n % 0x100;
    assert U24(n) == [high] + [middle, low];
    JoinedValue([high], [middle, low]);
    OctetValue(high);
    PairValue(middle, low);
  }

  lemma U32Value(n: u32)
    ensures BigEndian(U32(n)) == n
  {
    hide BigEndian, U16;
    JoinedValue(U16(n / 0x1_0000), U16(n % 0x1_0000));
    U16Value(n / 0x1_0000);
    U16Value(n % 0x1_0000);
  }

  lemma U64Value(n: u64)
    ensures BigEndian(U64(n)) == n
  {
    hide BigEndian, U16;
    var high, low := n / 0x1_0000_0000, n % 0x1_0000_0000;
    U32Value(high);
    U16Value(low / 0x1_0000);
    U16Value(low % 0x1_0000);
    assert U64(n) == (U32(high) + U16(low / 0x1_0000)) + U16(low % 0x1_0000);
    JoinedValue(U32(high), U16(low / 0x1_0000));
    JoinedValue(U32(high) + U16(low / 0x1_0000), U16(low % 0x1_0000));
  }

  lemma HeldField(bytes: Bytes, offset: nat, octets: Bytes, value: nat)
    requires Holds(bytes, offset, octets) && BigEndian(octets) == value
    ensures Field(bytes, offset, |octets|, value)
  {
  }

  // --- headers -----------------------------------------------------------------------------------

  /** Version 2, the padding flag, a count or subtype, the packet type, and the length in words without the first. */
  ghost predicate HasHeader(bytes: Bytes, padded: bool, count: nat, packetType: nat) {
    && |bytes| >= 4 && bytes[0] / 64 == 2 && bytes[0] / 32 % 2 == (if padded then 1 else 0) && bytes[0] % 32 == count
    && bytes[1] == packetType && Field(bytes, 2, 2, |bytes| / 4 - 1) && |bytes| % 4 == 0
  }

  lemma HeaderIsThere(info: u8, packetType: u8, length: u16, body: Bytes)
    requires info / 64 == 2 && |body| == 4 * length
    ensures var bytes := Header(info, packetType, length) + body;
            HasHeader(bytes, info / 32 % 2 == 1, info % 32, packetType) && Holds(bytes, 4, body)
  {
    var bytes := Header(info, packetType, length) + body;
    assert bytes[2..4] == U16(length);
    assert bytes[4..4 + |body|] == body;
    U16Value(length);
    hide U16, BigEndian;
  }

  // --- report blocks -----------------------------------------------------------------------------

  /** Section 6.4.1 of RFC 3550. */
  ghost predicate HasBlock(bytes: Bytes, offset: nat, ssrc: u32, block: ReportBlock) {
    && Field(bytes, offset, 4, ssrc) && Field(bytes, offset + 4, 1, block.fractionLost)
    && Field(bytes, offset + 5, 3, block.cumulativePacketsLost)
    && Field(bytes, offset + 8, 4, block.highestSequenceReceived) && Field(bytes, offset + 12, 4, block.jitter)
    && Field(bytes, offset + 16, 4, block.timestampLastSr) && Field(bytes, offset + 20, 4, block.delaySinceLastSr)
  }

  lemma BlockIsThere(bytes: Bytes, offset: nat, ssrc: u32, block: ReportBlock)
    requires block.cumulativePacketsLost < 0x100_0000 && Holds(bytes, offset, U32(ssrc) + BlockBytes(block))
    ensures HasBlock(bytes, offset, ssrc, block)
  {
    hide Holds, U24, U32, Field;
    HoldsBoth(bytes, offset, U32(ssrc), BlockBytes(block));
    var f6 := U32(block.delaySinceLastSr);
    var f5 := U32(block.timestampLastSr) + f6;
    var f4 := U32(block.jitter) + f5;
    var f3 := U32(block.highestSequenceReceived) + f4;
    var f2 := U24(block.cumulativePacketsLost) + f3;
    HoldsBoth(bytes, offset + 4, [block.fractionLost], f2);
    HoldsBoth(bytes, offset + 5, U24(block.cumulativePacketsLost), f3);
    HoldsBoth(bytes, offset + 8, U32(block.highestSequenceReceived), f4);
    HoldsBoth(bytes, offset + 12, U32(block.jitter), f5);
    HoldsBoth(bytes, offset + 16, U32(block.timestampLastSr), f6);
    OctetValue(block.fractionLost);
    HeldField(bytes, offset + 4, [block.fractionLost], block.fractionLost);
    U24Value(block.cumulativePacketsLost);
    HeldField(bytes, offset + 5, U24(block.cumulativePacketsLost), block.cumulativePacketsLost);
    WordIsThere(bytes, offset, ssrc);
    WordIsThere(bytes, offset + 8, block.highestSequenceReceived);
    WordIsThere(bytes, offset + 12, block.jitter);
    WordIsThere(bytes, offset + 16, block.timestampLastSr);
    WordIsThere(bytes, offset + 20, block.delaySinceLastSr);
  }

  lemma WordIsThere(bytes: Bytes, offset: nat, n: u32)
    requires Holds(bytes, offset, U32(n))
    ensures Field(bytes, offset, 4, n)
  {
    hide U32;
    U32Value(n);
  }

  /** One block for each key, in this order. */
  ghost predicate HasBlocks(bytes: Bytes, offset: nat, reports: Reports, keys: seq<u32>) {
    forall i :: 0 <= i < |keys| ==> keys[i] in reports && HasBlock(bytes, offset + 24 * i, keys[i], reports[keys[i]])
  }

  lemma {:induction false} BlocksAreThere(bytes: Bytes, offset: nat, reports: Reports, keys: seq<u32>)
    requires KeysOf(keys, reports) && Holds(bytes, offset, BlocksBytes(reports, keys))
    ensures HasBlocks(bytes, offset, reports, keys)
    decreases |keys|
  {
    hide Holds, HasBlock, BlockBytes, U32;
    if keys != [] {
      HoldsBoth(bytes, offset, U32(keys[0]) + BlockBytes(reports[keys[0]]), BlocksBytes(reports, keys[1..]));
      BlockIsThere(bytes, offset, keys[0], reports[keys[0]]);
      BlocksAreThere(bytes, offset + 24, reports, keys[1..]);
      forall i | 0 < i < |keys| ensures HasBlock(bytes, offset + 24 * i, keys[i], reports[keys[i]]) {
        assert keys[i] == keys[1..][i - 1] && offset + 24 * i == offset + 24 + 24 * (i - 1);
      }
    }
  }

  /** Every block once, by ascending source. */
  ghost predicate Lists(keys: seq<u32>, reports: Reports) {
    (forall k :: k in reports <==> k in keys) && forall i, j :: 0 <= i < j < |keys| ==> keys[i] < keys[j]
  }

  // --- the packets -------------------------------------------------------------------------------

  lemma SenderReportLayout(r: SenderReport) returns (keys: seq<u32>)
    requires SenderWithinLimits(r)
    ensures var bytes := SenderReportBytes(r);
            && HasHeader(bytes, r.profileData.Some? && |r.profileData.value| % 4 != 0, |r.reports|, 200)
            && Field(bytes, 4, 4, r.ssrc) && Field(bytes, 8, 8, r.networkTimestamp) && Field(bytes, 16, 4, r.rtpTimestamp)
            && Field(bytes, 20, 4, r.packetCount) && Field(bytes, 24, 4, r.byteCount)
            && Lists(keys, r.reports) && HasBlocks(bytes, 28, r.reports, keys)
            && IsPadded(bytes, 28 + 24 * |r.reports|, PayloadOf(r.profileData))
  {
    hide Holds, U32, U64, Header, ReportsBytes, BlocksBytes, HasBlocks, ProfileData, ReportInfo, HasHeader, Field,
         BigEndian, QuadsOf, IsPadded, Padding, PayloadOf;
    keys := ReportsAscend(r.reports);
    var profile := ProfileData(r.profileData, true);
    var f7 := ReportsBytes(r.reports) + profile;
    var body := U32(r.ssrc) + (SenderInfoBytes(r) + f7);
    var bytes := SenderReportBytes(r);
    ProfileFillsWords(r.profileData);
    ReportInfoTells(|r.reports|, r.profileData);
    HeaderIsThere(ReportInfo(|r.reports|, r.profileData), 200, 6 + 6 * |r.reports| + QuadsOf(r.profileData), body);
    HoldsBoth(bytes, 4, U32(r.ssrc), SenderInfoBytes(r) + f7);
    HoldsBoth(bytes, 8, SenderInfoBytes(r), f7);
    HoldsBoth(bytes, 28, ReportsBytes(r.reports), profile);
    WordIsThere(bytes, 4, r.ssrc);
    SenderInfoIsThere(bytes, r);
    BlocksAreThere(bytes, 28, r.reports, keys);
    ProfileIsPadded(r.profileData);
    PaddingIsThere(bytes, 28 + 24 * |r.reports|, PayloadOf(r.profileData));
  }

  /** `payload`, then zeros up to a whole word, the last octet of which counts what was added. */
  ghost predicate IsPadded(bytes: Bytes, offset: nat, payload: Bytes) {
    var added := (4 - |payload| % 4) % 4;
    && Holds(bytes, offset, payload) && offset + |payload| + added == |bytes|
    && (added > 0 ==> bytes[|bytes| - 1] == added)
    && forall k :: offset + |payload| <= k < |bytes| - 1 ==> bytes[k] == 0
  }

  lemma PaddingIsThere(bytes: Bytes, offset: nat, payload: Bytes)
    requires Holds(bytes, offset, payload + Padding(|payload|)) && |bytes| == offset + |payload + Padding(|payload|)|
    ensures IsPadded(bytes, offset, payload)
  {
    var padding := Padding(|payload|);
    HoldsBoth(bytes, offset, payload, padding);
    var start := offset + |payload|;
    assert forall k :: start <= k < |bytes| ==> bytes[k] == bytes[start..start + |padding|][k - start];
  }

  function PayloadOf(profile: Option<Bytes>): Bytes {
    if profile.Some? then profile.value else []
  }

  lemma ProfileIsPadded(profile: Option<Bytes>)
    ensures ProfileData(profile, true) == PayloadOf(profile) + Padding(|PayloadOf(profile)|)
  {
  }

  lemma ProfileFillsWords(profile: Option<Bytes>)
    ensures |ProfileData(profile, true)| == 4 * QuadsOf(profile)
  {
  }

  lemma ReportInfoTells(count: nat, profile: Option<Bytes>)
    requires count <= 15
    ensures var info, padded := ReportInfo(count, profile), profile.Some? && |profile.value| % 4 != 0;
            info / 64 == 2 && (info / 32 % 2 == 1 <==> padded) && info % 32 == count
  {
  }

  lemma SenderInfoIsThere(bytes: Bytes, r: SenderReport)
    requires Holds(bytes, 8, SenderInfoBytes(r))
    ensures Field(bytes, 8, 8, r.networkTimestamp) && Field(bytes, 16, 4, r.rtpTimestamp)
    ensures Field(bytes, 20, 4, r.packetCount) && Field(bytes, 24, 4, r.byteCount)
  {
    hide Holds, U32, U64, Field, BigEndian;
    HoldsBoth(bytes, 8, U64(r.networkTimestamp), U32(r.rtpTimestamp) + (U32(r.packetCount) + U32(r.byteCount)));
    HoldsBoth(bytes, 16, U32(r.rtpTimestamp), U32(r.packetCount) + U32(r.byteCount));
    HoldsBoth(bytes, 20, U32(r.packetCount), U32(r.byteCount));
    U64Value(r.networkTimestamp);
    HeldField(bytes, 8, U64(r.networkTimestamp), r.networkTimestamp);
    WordIsThere(bytes, 16, r.rtpTimestamp);
    WordIsThere(bytes, 20, r.packetCount);
    WordIsThere(bytes, 24, r.byteCount);
  }

  lemma ReceiverReportLayout(r: ReceiverReport) returns (keys: seq<u32>)
    requires ReceiverWithinLimits(r)
    ensures var bytes := ReceiverReportBytes(r);
            && HasHeader(bytes, r.profileData.Some? && |r.profileData.value| % 4 != 0, |r.reports|, 201)
            && Field(bytes, 4, 4, r.ssrc) && Lists(keys, r.reports) && HasBlocks(bytes, 8, r.reports, keys)
            && IsPadded(bytes, 8 + 24 * |r.reports|, PayloadOf(r.profileData))
  {
    hide Holds, U32, Header, ReportsBytes, BlocksBytes, HasBlocks, ProfileData, ReportInfo, HasHeader, Field, BigEndian,
         QuadsOf, IsPadded, Padding, PayloadOf;
    keys := ReportsAscend(r.reports);
    var profile := ProfileData(r.profileData, true);
    var body := U32(r.ssrc) + (ReportsBytes(r.reports) + profile);
    var bytes := ReceiverReportBytes(r);
    ProfileFillsWords(r.profileData);
    ReportInfoTells(|r.reports|, r.profileData);
    HeaderIsThere(ReportInfo(|r.reports|, r.profileData), 201, 1 + 6 * |r.reports| + QuadsOf(r.profileData), body);
    HoldsBoth(bytes, 4, U32(r.ssrc), ReportsBytes(r.reports) + profile);
    HoldsBoth(bytes, 8, ReportsBytes(r.reports), profile);
    WordIsThere(bytes, 4, r.ssrc);
    BlocksAreThere(bytes, 8, r.reports, keys);
    ProfileIsPadded(r.profileData);
    PaddingIsThere(bytes, 8 + 24 * |r.reports|, PayloadOf(r.profileData));
  }

  /** Section 6.2.1 of RFC 4585. */
  ghost predicate HasNacks(bytes: Bytes, offset: nat, nacks: seq<Nack>) {
    forall i :: 0 <= i < |nacks| ==>
      Field(bytes, offset + 4 * i, 2, nacks[i].packetId) && Field(bytes, offset + 4 * i + 2, 2, nacks[i].lostPackets)
  }

  lemma {:induction false} NacksAreThere(bytes: Bytes, offset: nat, nacks: seq<Nack>)
    requires Holds(bytes, offset, NacksBytes(nacks))
    ensures HasNacks(bytes, offset, nacks)
    decreases |nacks|
  {
    hide Holds, U16, Field, BigEndian;
    if nacks != [] {
      var packetId, lostPackets := U16(nacks[0].packetId), U16(nacks[0].lostPackets);
      HoldsBoth(bytes, offset, packetId + lostPackets, NacksBytes(nacks[1..]));
      HoldsBoth(bytes, offset, packetId, lostPackets);
      U16Value(nacks[0].packetId);
      U16Value(nacks[0].lostPackets);
      HeldField(bytes, offset, packetId, nacks[0].packetId);
      HeldField(bytes, offset + 2, lostPackets, nacks[0].lostPackets);
      NacksAreThere(bytes, offset + 4, nacks[1..]);
      forall i | 0 < i < |nacks|
        ensures Field(bytes, offset + 4 * i, 2, nacks[i].packetId)
        ensures Field(bytes, offset + 4 * i + 2, 2, nacks[i].lostPackets)
      {
        assert nacks[i] == nacks[1..][i - 1] && offset + 4 * i == offset + 4 + 4 * (i - 1);
      }
    }
  }

  lemma TransportFeedbackLayout(f: TransportFeedback)
    requires TransportWithinLimits(f)
    ensures var bytes := TransportFeedbackBytes(f);
            && HasHeader(bytes, false, 1, 205) && |bytes| == 12 + 4 * |f.nacks|
            && Field(bytes, 4, 4, f.ssrc) && Field(bytes, 8, 4, f.mediaSsrc) && HasNacks(bytes, 12, f.nacks)
  {
    hide Holds, U32, Header, NacksBytes, HasHeader, HasNacks, Field, BigEndian;
    var rest := U32(f.mediaSsrc) + NacksBytes(f.nacks);
    var bytes := TransportFeedbackBytes(f);
    HeaderIsThere(129, 205, 2 + |f.nacks|, U32(f.ssrc) + rest);
    HoldsBoth(bytes, 4, U32(f.ssrc), rest);
    HoldsBoth(bytes, 8, U32(f.mediaSsrc), NacksBytes(f.nacks));
    WordIsThere(bytes, 4, f.ssrc);
    WordIsThere(bytes, 8, f.mediaSsrc);
    NacksAreThere(bytes, 12, f.nacks);
  }

  /** Section 6.3 of RFC 4585. */
  function FormatOf(feedback: PayloadFeedbackKind): nat {
    match feedback
    case PictureLossIndication => 1
    case ReferencePictureSelectionIndication => 3
    case ApplicationSpecific(_) => 15
  }

  lemma PayloadFeedbackLayout(f: PayloadFeedback)
    requires PayloadWithinLimits(f)
    ensures var bytes, payload := PayloadFeedbackBytes(f), FeedbackPayload(f.feedback);
            && HasHeader(bytes, |payload| % 4 != 0, FormatOf(f.feedback), 206)
            && Field(bytes, 4, 4, f.ssrc) && Field(bytes, 8, 4, f.mediaSsrc) && IsPadded(bytes, 12, payload)
  {
    hide Holds, U32, Header, HasHeader, Field, BigEndian, Padding, IsPadded;
    var payload := FeedbackPayload(f.feedback);
    var padded := payload + Padding(|payload|);
    var bytes := PayloadFeedbackBytes(f);
    PaddingFillsWords(payload);
    HeaderIsThere(128 + FeedbackId(f.feedback) + if |payload| % 4 != 0 then 32 else 0, 206, 2 + (|payload| + 3) / 4,
                  U32(f.ssrc) + (U32(f.mediaSsrc) + padded));
    HoldsBoth(bytes, 4, U32(f.ssrc), U32(f.mediaSsrc) + padded);
    HoldsBoth(bytes, 8, U32(f.mediaSsrc), padded);
    PaddingIsThere(bytes, 12, payload);
    WordIsThere(bytes, 4, f.ssrc);
    WordIsThere(bytes, 8, f.mediaSsrc);
  }

  lemma PaddingFillsWords(payload: Bytes)
    ensures |payload + Padding(|payload|)| == (|payload| + 3) / 4 * 4
  {
  }

  lemma ApplicationDefinedLayout(a: ApplicationDefined)
    requires ApplicationWithinLimits(a)
    ensures var bytes := ApplicationDefinedBytes(a);
            && HasHeader(bytes, false, a.subtype, 204) && Field(bytes, 4, 4, a.src)
            && Holds(bytes, 8, a.name) && Holds(bytes, 12, a.data)
  {
    hide Holds, U32, Header, HasHeader, Field, BigEndian;
    var bytes := ApplicationDefinedBytes(a);
    HeaderIsThere(128 + a.subtype, 204, 2 + |a.data| / 4, U32(a.src) + (a.name + a.data));
    HoldsBoth(bytes, 4, U32(a.src), a.name + a.data);
    HoldsBoth(bytes, 8, a.name, a.data);
    WordIsThere(bytes, 4, a.src);
  }

  /** Section 2.2 of draft-alvestrand-rmcat-remb: six bits of exponent and 18 of mantissa behind the name and a count. */
  lemma RembLayout(limit: u32, ssrc: u32)
    ensures var bytes, scaled := PayloadFeedbackBytes(RembFeedback(limit, ssrc)), Scale(limit);
            && |bytes| == 24 && HasHeader(bytes, false, 15, 206) && Field(bytes, 4, 4, 0) && Field(bytes, 8, 4, ssrc)
            && bytes[12..16] == ['R' as int, 'E' as int, 'M' as int, 'B' as int] && bytes[16] == 1
            && bytes[17] / 4 == scaled.exponent && bytes[17] % 4 == scaled.mantissa / 0x1_0000
            && Field(bytes, 18, 2, scaled.mantissa % 0x1_0000) && Field(bytes, 20, 4, ssrc)
            && Approximates(scaled, limit)
  {
    hide Holds, U32, HasHeader, Field, BigEndian, IsPadded, PayloadFeedbackBytes, RembBytes, Approximates;
    var bytes, payload := PayloadFeedbackBytes(RembFeedback(limit, ssrc)), RembBytes(limit, ssrc);
    ScaleIsClose(limit);
    PayloadFeedbackLayout(RembFeedback(limit, ssrc));
    PaddedHolds(bytes, 12, payload);
    RembPayload(bytes, limit, ssrc);
  }

  lemma PaddedHolds(bytes: Bytes, offset: nat, payload: Bytes)
    requires IsPadded(bytes, offset, payload) && |payload| % 4 == 0
    ensures Holds(bytes, offset, payload) && |bytes| == offset + |payload|
  {
  }

  lemma RembPayload(bytes: Bytes, limit: u32, ssrc: u32)
    requires Holds(bytes, 12, RembBytes(limit, ssrc))
    ensures var scaled := Scale(limit);
            && bytes[12..16] == ['R' as int, 'E' as int, 'M' as int, 'B' as int] && bytes[16] == 1
            && bytes[17] / 4 == scaled.exponent && bytes[17] % 4 == scaled.mantissa / 0x1_0000
            && Field(bytes, 18, 2, scaled.mantissa % 0x1_0000) && Field(bytes, 20, 4, ssrc)
  {
    var scaled := Scale(limit);
    ScaleIsClose(limit);
    hide U32, U16, Field, BigEndian, Halved, Scale, ScaledBytes;
    var head: u8 := scaled.exponent * 4 + scaled.mantissa / 0x1_0000;
    var low := U16(scaled.mantissa % 0x1_0000);
    ScaledBytesAre(scaled, head);
    HoldsBoth(bytes, 12, U32(REMB_IDENTIFIER), [1] + (ScaledBytes(scaled) + U32(ssrc)));
    HoldsBoth(bytes, 16, [1], ScaledBytes(scaled) + U32(ssrc));
    HoldsBoth(bytes, 17, ScaledBytes(scaled), U32(ssrc));
    HoldsBoth(bytes, 17, [head], low);
    ReadsU8(bytes, 16, 1);
    ReadsU8(bytes, 17, head);
    U16Value(scaled.mantissa % 0x1_0000);
    HeldField(bytes, 18, low, scaled.mantissa % 0x1_0000);
    WordIsThere(bytes, 20, ssrc);
    RembName();
  }

  lemma RembName()
    ensures U32(REMB_IDENTIFIER) == ['R' as int, 'E' as int, 'M' as int, 'B' as int]
  {
  }
}
