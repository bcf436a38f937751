/**
 * Parsing and writing as the source does it, through cursors that move (src/utils/rtcp). The readers compute the
 * functions of `Rtcp`; the writers produce its wire forms, or fail when the caller's buffer is too short.
 */
module RtcpCursor {
  import opened Prelude
  import opened Wire
  import opened GenericNack
  import opened SortedKeySets
  import opened Rtcp

  /** A reading method did what a reading function says. */
  ghost predicate Agrees<T>(result: Result<T, Error>, position: nat, read: Read<T>) {
    match read
    case Ok((value, p)) => result == Ok(value) && position == p
    case Err(error) => result == Err(error)
  }

  class Reader {
    const data: Bytes
    var position: nat

    constructor (data: Bytes)
      ensures this.data == data && position == 0
    {
      this.data, position := data, 0;
    }

    method TakeU8() returns (r: Result<u8, Error>)
      modifies this
      ensures Agrees(r, position, ReadU8(data, old(position)))
    {
      var read :- ReadU8(data, position);
      position := read.1;
      r := Ok(read.0);
    }

    method TakeU16() returns (r: Result<u16, Error>)
      modifies this
      ensures Agrees(r, position, ReadU16(data, old(position)))
    {
      var read :- ReadU16(data, position);
      position := read.1;
      r := Ok(read.0);
    }

    method TakeU24() returns (r: Result<u24, Error>)
      modifies this
      ensures Agrees(r, position, ReadU24(data, old(position)))
    {
      var read :- ReadU24(data, position);
      position := read.1;
      r := Ok(read.0);
    }

    method TakeU32() returns (r: Result<u32, Error>)
      modifies this
      ensures Agrees(r, position, ReadU32(data, old(position)))
    {
      var read :- ReadU32(data, position);
      position := read.1;
      r := Ok(read.0);
    }

    method TakeU64() returns (r: Result<u64, Error>)
      modifies this
      ensures Agrees(r, position, ReadU64(data, old(position)))
    {
      var read :- ReadU64(data, position);
      position := read.1;
      r := Ok(read.0);
    }

    method TakeExact(count: nat) returns (r: Result<Bytes, Error>)
      modifies this
      ensures Agrees(r, position, ReadExact(data, old(position), count))
    {
      var read :- ReadExact(data, position, count);
      position := read.1;
      r := Ok(read.0);
    }

    method TakeInfo(packetType: u8) returns (r: Result<u8, Error>)
      modifies this
      ensures Agrees(r, position, ReadInfo(data, old(position), packetType))
    {
      hide ReadU8;
      var info :- TakeU8();
      if info / 64 != 2 {
        return Err(InvalidVersion);
      }
      var actual :- TakeU8();
      if actual != packetType {
        return Err(WrongPacketType);
      }
      r := Ok(info);
    }

    method TakeBlock() returns (r: Result<ReportBlock, Error>)
      modifies this
      ensures Agrees(r, position, ReadBlock(data, old(position)))
    {
      hide ReadU8, ReadU24, ReadU32;
      var fractionLost :- TakeU8();
      var cumulativePacketsLost :- TakeU24();
      var highestSequenceReceived :- TakeU32();
      var jitter :- TakeU32();
      var timestampLastSr :- TakeU32();
      var delaySinceLastSr :- TakeU32();
      r := Ok(ReportBlock(fractionLost, cumulativePacketsLost, highestSequenceReceived, jitter, timestampLastSr,
                          delaySinceLastSr));
    }

    method TakeBlocks(count: nat) returns (r: Result<Reports, Error>)
      modifies this
      ensures Agrees(r, position, ReadBlocks(data, old(position), count, map[]))
    {
      hide ReadU32, ReadBlock;
      var reports: Reports := map[];
      for i := 0 to count
        invariant ReadBlocks(data, position, count - i, reports) == ReadBlocks(data, old(position), count, map[])
      {
        var ssrc :- TakeU32();
        var block :- TakeBlock();
        reports := reports[ssrc := block];
      }
      r := Ok(reports);
    }

    method TakeProfileData(length: nat, padded: bool) returns (r: Result<Option<Bytes>, Error>)
      modifies this
      ensures Agrees(r, position, ReadProfileData(data, old(position), length, padded))
    {
      hide ReadExact;
      if length == 0 {
        return Ok(None);
      }
      var buffer :- TakeExact(length);
      assert |buffer| == length by { ExactLength(data, old(position), length); }
      if padded {
        var paddedBytes := buffer[|buffer| - 1];
        if paddedBytes == 0 || paddedBytes > length {
          return Err(InvalidPadding);
        }
        buffer := buffer[..length - paddedBytes];
      }
      r := if buffer != [] then Ok(Some(buffer)) else Ok(None);
    }

    method TakeSenderReport() returns (r: Result<SenderReport, Error>)
      modifies this
      ensures Agrees(r, position, ParseSenderReport(data, old(position)))
    {
      hide ReadInfo, ReadU16, ReadU32, ReadU64, ReadBlocks, ReadProfileData;
      var info :- TakeInfo(SENDER_REPORT);
      var quads :- TakeU16();
      var length := (quads as int) * 4 + 4;
      var ssrc :- TakeU32();
      var networkTimestamp :- TakeU64();
      var rtpTimestamp :- TakeU32();
      var packetCount :- TakeU32();
      var byteCount :- TakeU32();
      var reports :- TakeBlocks(info % 64);
      var bytesRead := 28 + 24 * |reports|;
      if length < bytesRead {
        return Err(InvalidLength);
      }
      var profileData :- TakeProfileData(length - bytesRead, info / 64 % 2 == 1);
      r := Ok(SenderReport(ssrc, networkTimestamp, rtpTimestamp, packetCount, byteCount, reports, profileData));
    }

    method TakeReceiverReport() returns (r: Result<ReceiverReport, Error>)
      modifies this
      ensures Agrees(r, position, ParseReceiverReport(data, old(position)))
    {
      hide ReadInfo, ReadU16, ReadU32, ReadBlocks, ReadProfileData;
      var info :- TakeInfo(RECEIVER_REPORT);
      var quads :- TakeU16();
      var length := (quads as int) * 4 + 4;
      var ssrc :- TakeU32();
      var reports :- TakeBlocks(info % 64);
      var bytesRead := 8 + 24 * |reports|;
      if length < bytesRead {
        return Err(InvalidLength);
      }
      var profileData :- TakeProfileData(length - bytesRead, info / 64 % 2 == 1);
      r := Ok(ReceiverReport(ssrc, reports, profileData));
    }

    method TakeNacks(count: nat) returns (r: Result<seq<Nack>, Error>)
      modifies this
      ensures Agrees(r, position, ReadNacks(data, old(position), count))
    {
      hide ReadU16;
      var nacks := [];
      ghost var all := ReadNacks(data, position, count);
      assert all.Ok? ==> nacks + all.value.0 == all.value.0;
      for i := 0 to count
        invariant match ReadNacks(data, position, count - i)
                  case Ok((rest, p)) => all == Ok((nacks + rest, p))
                  case Err(error) => all == Err(error)
      {
        var packetId :- TakeU16();
        var lostPackets :- TakeU16();
        ghost var rest := ReadNacks(data, position, count - i - 1);
        ghost var next := [Nack(packetId, lostPackets)];
        assert rest.Ok? ==> nacks + (next + rest.value.0) == (nacks + next) + rest.value.0;
        nacks := nacks + [Nack(packetId, lostPackets)];
      }
      assert nacks + [] == nacks;
      r := Ok(nacks);
    }

    method TakeTransportFeedback() returns (r: Result<TransportFeedback, Error>)
      modifies this
      ensures Agrees(r, position, ParseTransportFeedback(data, old(position)))
    {
      hide ReadInfo, ReadU16, ReadU32, ReadNacks;
      var info :- TakeInfo(TRANSPORT_FEEDBACK);
      if info % 32 != GENERIC_NACK {
        return Err(UnknownFeedback);
      }
      var length :- TakeU16();
      var ssrc :- TakeU32();
      var mediaSsrc :- TakeU32();
      if length < 2 {
        return Err(LengthUnderflow);
      }
      var nacks :- TakeNacks((length as int - 2) * 4 / 4);
      r := Ok(TransportFeedback(ssrc, mediaSsrc, nacks));
    }

    method TakePayloadFeedback() returns (r: Result<PayloadFeedback, Error>)
      modifies this
      ensures Agrees(r, position, ParsePayloadFeedback(data, old(position)))
    {
      hide ReadInfo, ReadU16, ReadU32, ReadExact;
      var info :- TakeInfo(PAYLOAD_FEEDBACK);
      var id := info % 32;
      if id !in {1, 2, 3, 15} {
        return Err(UnknownFeedback);
      }
      var length :- TakeU16();
      var ssrc :- TakeU32();
      var mediaSsrc :- TakeU32();
      if id == 15 {
        if length < 2 {
          return Err(LengthUnderflow);
        }
        var payload :- TakeExact((length as int - 2) * 4);
        return Ok(PayloadFeedback(ssrc, mediaSsrc, ApplicationSpecific(payload)));
      }
      if id == 2 {
        return Err(UnsupportedFeedback);
      }
      if length != 2 {
        return Err(InvalidLength);
      }
      r := Ok(PayloadFeedback(ssrc, mediaSsrc,
                              if id == 1 then PictureLossIndication else ReferencePictureSelectionIndication));
    }

    method TakeApplicationDefined() returns (r: Result<ApplicationDefined, Error>)
      modifies this
      ensures Agrees(r, position, ParseApplicationDefined(data, old(position)))
    {
      hide ReadInfo, ReadU16, ReadU32, ReadExact;
      var info :- TakeInfo(APPLICATION_DEFINED);
      var length :- TakeU16();
      if length < 2 {
        return Err(InvalidLength);
      }
      var src :- TakeU32();
      var name :- TakeExact(4);
      var payload :- TakeExact((length as int - 2) * 4);
      r := Ok(ApplicationDefined(info % 32, src, name, payload));
    }
  }

  lemma ExactLength(data: Bytes, pos: nat, count: nat)
    ensures ReadExact(data, pos, count).Ok? ==> |ReadExact(data, pos, count).value.0| == count
  {
  }

  class Writer {
    const buffer: array<u8>
    var position: nat

    ghost predicate Valid()
      reads this
    {
      position <= buffer.Length
    }

    /** What has been written so far. */
    ghost function Written(): Bytes
      requires Valid()
      reads this, buffer
    {
      buffer[..position]
    }

    constructor (buffer: array<u8>)
      ensures this.buffer == buffer && Valid() && Written() == []
    {
      this.buffer, position := buffer, 0;
    }

    /** `bytes` went out, all of them or, when the buffer is too short, not. `rest` is what the caller still has. */
    ghost predicate Sent(was: Bytes, bytes: Bytes, rest: Bytes, r: Result<(), Error>)
      reads this, buffer
    {
      && Valid() && (r.Ok? <==> |was| + |bytes| <= buffer.Length)
      && if r.Ok? then Written() == was + bytes && Written() + rest == was + (bytes + rest) else r == Err(BufferFull)
    }

    method Put(bytes: Bytes, ghost rest: Bytes) returns (r: Result<(), Error>)
      requires Valid()
      modifies this, buffer
      ensures Sent(old(Written()), bytes, rest, r)
    {
      if buffer.Length - position < |bytes| {
        return Err(BufferFull);
      }
      forall i | 0 <= i < |bytes| {
        buffer[position + i] := bytes[i];
      }
      position := position + |bytes|;
      r := Ok(());
    }

    method PutBlock(block: ReportBlock, ghost rest: Bytes) returns (r: Result<(), Error>)
      requires Valid() && block.cumulativePacketsLost < 0x100_0000
      modifies this, buffer
      ensures Sent(old(Written()), BlockBytes(block), rest, r)
    {
      hide U24, U32, Written;
      ghost var f6 := U32(block.delaySinceLastSr);
      ghost var f5 := U32(block.timestampLastSr) + f6;
      ghost var f4 := U32(block.jitter) + f5;
      ghost var contents := U32(block.highestSequenceReceived) + f4;
      ghost var f2 := U24(block.cumulativePacketsLost) + contents;
      var _ :- Put([block.fractionLost], f2);
      var _ :- Put(U24(block.cumulativePacketsLost), contents);
      var _ :- Put(U32(block.highestSequenceReceived), f4);
      var _ :- Put(U32(block.jitter), f5);
      var _ :- Put(U32(block.timestampLastSr), f6);
      var _ :- Put(U32(block.delaySinceLastSr), []);
      r := Ok(());
    }

    method PutKeyedBlock(ssrc: u32, block: ReportBlock, ghost rest: Bytes) returns (r: Result<(), Error>)
      requires Valid() && block.cumulativePacketsLost < 0x100_0000
      modifies this, buffer
      ensures Sent(old(Written()), U32(ssrc) + BlockBytes(block), rest, r)
    {
      hide U32, BlockBytes;
      var _ :- Put(U32(ssrc), BlockBytes(block));
      var _ :- PutBlock(block, []);
      r := Ok(());
    }

    /** The report blocks of a sorted map, smallest key first. */
    method PutReports(reports: Reports, ghost rest: Bytes) returns (r: Result<(), Error>)
      requires Valid() && BlocksWithinLimits(reports)
      modifies this, buffer
      ensures Sent(old(Written()), ReportsBytes(reports), rest, r)
    {
      hide U32, BlockBytes, KeyedBytes, BlocksWithinLimits, ReportsBytes, IsLeast;
      var keys := reports.Keys;
      ghost var all := Written() + KeyedBytes(reports, keys);
      AllKeyed(reports);
      while keys != {}
        invariant Valid() && keys <= reports.Keys && Written() + KeyedBytes(reports, keys) == all
        decreases |keys|
      {
        LeastExists(keys);
        var key :| key in keys && IsLeast(key, keys);
        KeyedStep(reports, keys, key);
        var _ :- PutKeyedBlock(key, reports[key], KeyedBytes(reports, keys - {key}));
        keys := keys - {key};
      }
      NoBlocks(reports);
      assert Written() + [] == Written();
      r := Ok(());
    }

    method PutProfileData(data: Option<Bytes>, ghost rest: Bytes) returns (r: Result<(), Error>)
      requires Valid()
      modifies this, buffer
      ensures Sent(old(Written()), ProfileData(data, true), rest, r)
    {
      if data.Some? {
        var _ :- Put(data.value, Padding(|data.value|));
        match |data.value| % 4 {
          case 0 =>
          case 1 =>
            var _ :- Put([0, 0, 3], []);
          case 2 =>
            var _ :- Put([0, 2], []);
          case _ =>
            var _ :- Put([1], []);
        }
      }
      r := Ok(());
    }

    method PutSenderInfo(report: SenderReport, ghost rest: Bytes) returns (r: Result<(), Error>)
      requires Valid()
      modifies this, buffer
      ensures Sent(old(Written()), SenderInfoBytes(report), rest, r)
    {
      hide U32, U64;
      ghost var contents := U32(report.packetCount) + U32(report.byteCount);
      var _ :- Put(U64(report.networkTimestamp), U32(report.rtpTimestamp) + contents);
      var _ :- Put(U32(report.rtpTimestamp), contents);
      var _ :- Put(U32(report.packetCount), U32(report.byteCount));
      var _ :- Put(U32(report.byteCount), []);
      r := Ok(());
    }

    /** The end of both kinds of report. */
    method PutReportsAndProfile(reports: Reports, profileData: Option<Bytes>) returns (r: Result<(), Error>)
      requires Valid() && BlocksWithinLimits(reports)
      modifies this, buffer
      ensures Sent(old(Written()), ReportsBytes(reports) + ProfileData(profileData, true), [], r)
    {
      hide ReportsBytes, ProfileData, BlocksWithinLimits;
      var _ :- PutReports(reports, ProfileData(profileData, true));
      r := PutProfileData(profileData, []);
    }

    method PutSenderReport(report: SenderReport, ghost rest: Bytes) returns (r: Result<(), Error>)
      requires Valid() && (|report.reports| <= 15 ==> BlocksWithinLimits(report.reports))
      modifies this, buffer
      ensures Valid() && (|report.reports| > 15 <==> r == Err(TooManyBlocks))
      ensures |report.reports| <= 15 ==> Sent(old(Written()), SenderReportBytes(report), rest, r)
    {
      hide U32, SenderInfoBytes, Header, ReportsBytes, ProfileData, BlocksWithinLimits, ReportInfo, QuadsOf;
      if |report.reports| > 15 {
        return Err(TooManyBlocks);
      }
      ghost var ending := ReportsBytes(report.reports) + ProfileData(report.profileData, true);
      ghost var contents := SenderInfoBytes(report) + ending;
      var info := ReportInfo(|report.reports|, report.profileData);
      var _ :- Put(Header(info, SENDER_REPORT, 6 + 6 * |report.reports| + QuadsOf(report.profileData)),
                   U32(report.ssrc) + contents);
      var _ :- Put(U32(report.ssrc), contents);
      var _ :- PutSenderInfo(report, ending);
      r := PutReportsAndProfile(report.reports, report.profileData);
    }

    method PutReceiverReport(report: ReceiverReport, ghost rest: Bytes) returns (r: Result<(), Error>)
      requires Valid() && (|report.reports| <= 15 ==> BlocksWithinLimits(report.reports))
      modifies this, buffer
      ensures Valid() && (|report.reports| > 15 <==> r == Err(TooManyBlocks))
      ensures |report.reports| <= 15 ==> Sent(old(Written()), ReceiverReportBytes(report), rest, r)
    {
      hide U32, Header, ReportsBytes, ProfileData, BlocksWithinLimits, ReportInfo, QuadsOf;
      if |report.reports| > 15 {
        return Err(TooManyBlocks);
      }
      ghost var ending := ReportsBytes(report.reports) + ProfileData(report.profileData, true);
      var info := ReportInfo(|report.reports|, report.profileData);
      var _ :- Put(Header(info, RECEIVER_REPORT, 1 + 6 * |report.reports| + QuadsOf(report.profileData)),
                   U32(report.ssrc) + ending);
      var _ :- Put(U32(report.ssrc), ending);
      r := PutReportsAndProfile(report.reports, report.profileData);
    }

    method PutNacks(nacks: seq<Nack>, ghost rest: Bytes) returns (r: Result<(), Error>)
      requires Valid()
      modifies this, buffer
      ensures Sent(old(Written()), NacksBytes(nacks), rest, r)
    {
      hide U16;
      ghost var all := Written() + NacksBytes(nacks);
      assert nacks[0..] == nacks;
      for i := 0 to |nacks|
        invariant Valid() && Written() + NacksBytes(nacks[i..]) == all
      {
        assert nacks[i..][0] == nacks[i] && nacks[i..][1..] == nacks[i + 1..];
        ghost var later := NacksBytes(nacks[i + 1..]);
        ghost var packetId, lostPackets := U16(nacks[i].packetId), U16(nacks[i].lostPackets);
        assert (packetId + lostPackets) + later == packetId + (lostPackets + later);
        var _ :- Put(U16(nacks[i].packetId), lostPackets + later);
        var _ :- Put(U16(nacks[i].lostPackets), later);
      }
      assert nacks[|nacks|..] == [] && Written() + [] == Written();
      r := Ok(());
    }

    method PutTransportFeedback(feedback: TransportFeedback, ghost rest: Bytes) returns (r: Result<(), Error>)
      requires Valid()
      modifies this, buffer
      ensures Sent(old(Written()), TransportFeedbackBytes(feedback), rest, r)
    {
      hide U32, Header, NacksBytes;
      ghost var f4 := NacksBytes(feedback.nacks);
      ghost var contents := U32(feedback.mediaSsrc) + f4;
      var _ :- Put(Header(128 + GENERIC_NACK, TRANSPORT_FEEDBACK, 2 + |feedback.nacks|), U32(feedback.ssrc) + contents);
      var _ :- Put(U32(feedback.ssrc), contents);
      var _ :- Put(U32(feedback.mediaSsrc), f4);
      var _ :- PutNacks(feedback.nacks, []);
      r := Ok(());
    }

    method PutPayloadFeedback(feedback: PayloadFeedback, ghost rest: Bytes) returns (r: Result<(), Error>)
      requires Valid()
      modifies this, buffer
      ensures Sent(old(Written()), PayloadFeedbackBytes(feedback), rest, r)
    {
      hide U32, Header, Padding;
      var payload := FeedbackPayload(feedback.feedback);
      ghost var f4 := payload + Padding(|payload|);
      ghost var contents := U32(feedback.mediaSsrc) + f4;
      var info := 128 + FeedbackId(feedback.feedback) + if |payload| % 4 != 0 then 32 else 0;
      var _ :- Put(Header(info, PAYLOAD_FEEDBACK, 2 + (|payload| + 3) / 4), U32(feedback.ssrc) + contents);
      var _ :- Put(U32(feedback.ssrc), contents);
      var _ :- Put(U32(feedback.mediaSsrc), f4);
      assert ProfileData(Some(payload), true) == f4;
      hide ProfileData;
      var _ :- PutProfileData(Some(payload), []);
      r := Ok(());
    }

    method PutApplicationDefined(packet: ApplicationDefined, ghost rest: Bytes) returns (r: Result<(), Error>)
      requires Valid() && |packet.name| == 4
      modifies this, buffer
      ensures Valid() && (|packet.data| % 4 != 0 <==> r == Err(UnalignedData))
      ensures |packet.data| % 4 == 0 ==> Sent(old(Written()), ApplicationDefinedBytes(packet), rest, r)
    {
      hide U32, Header;
      if |packet.data| % 4 != 0 {
        return Err(UnalignedData);
      }
      ghost var contents := packet.name + packet.data;
      var _ :- Put(Header(128 + packet.subtype % 128, APPLICATION_DEFINED, 2 + |packet.data| / 4), U32(packet.src) + contents);
      var _ :- Put(U32(packet.src), contents);
      var _ :- Put(packet.name, packet.data);
      var _ :- Put(packet.data, []);
      r := Ok(());
    }
  }

  /** The blocks of some of the keys, in key order. */
  ghost function KeyedBytes(reports: Reports, keys: set<u32>): Bytes
    requires BlocksWithinLimits(reports) && keys <= reports.Keys
  {
    BlocksBytes(reports, SortedKeys(keys))
  }

  lemma AllKeyed(reports: Reports)
    requires BlocksWithinLimits(reports)
    ensures KeyedBytes(reports, reports.Keys) == ReportsBytes(reports)
  {
  }

  lemma NoBlocks(reports: Reports)
    requires BlocksWithinLimits(reports)
    ensures KeyedBytes(reports, {}) == []
  {
  }

  lemma KeyedStep(reports: Reports, keys: set<u32>, key: u32)
    requires BlocksWithinLimits(reports) && keys <= reports.Keys
    requires key in keys && IsLeast(key, keys)
    ensures reports[key].cumulativePacketsLost < 0x100_0000
    ensures KeyedBytes(reports, keys) == (U32(key) + BlockBytes(reports[key])) + KeyedBytes(reports, keys - {key})
  {
    hide U32, BlockBytes;
    assert key == Least(keys);
    var rest := SortedKeys(keys - {key});
    assert SortedKeys(keys) == [key] + rest;
    assert ([key] + rest)[1..] == rest;
  }
}
