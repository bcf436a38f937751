/**
 * Which bytes the RTCP parsers accept, what they take from them, and what they refuse the others for, octet by octet
 * (src/utils/rtcp).
 */
module RtcpParsing {
  import opened Prelude
  import opened Wire
  import opened GenericNack
  import opened Rtcp
  import opened RtcpLayout
  import opened Compound

  /** The length field of a header: 32-bit words behind the first. */
  function Words(data: Bytes): nat
    requires |data| >= 4
  {
    BigEndian(data[2..4])
  }

  lemma ReadIsField(data: Bytes, pos: nat)
    ensures ReadU16(data, pos).Ok? <==> pos + 2 <= |data|
    ensures pos + 2 <= |data| ==> ReadU16(data, pos) == Ok((BigEndian(data[pos..pos + 2]), pos + 2))
  {
    if pos + 2 <= |data| {
      PairValue(data[pos], data[pos + 1]);
      assert data[pos..pos + 2] == [data[pos], data[pos + 1]];
    }
  }

  lemma ReadIsWord(data: Bytes, pos: nat)
    ensures ReadU32(data, pos).Ok? <==> pos + 4 <= |data|
    ensures pos + 4 <= |data| ==>
              ReadU32(data, pos).value.1 == pos + 4 && Field(data, pos, 4, ReadU32(data, pos).value.0)
    ensures ReadU32(data, pos).Err? ==> ReadU32(data, pos) == Err(UnexpectedEof)
  {
    if pos + 4 <= |data| {
      hide BigEndian;
      ReadIsField(data, pos);
      ReadIsField(data, pos + 2);
      JoinedValue(data[pos..pos + 2], data[pos + 2..pos + 4]);
      assert data[pos..pos + 4] == data[pos..pos + 2] + data[pos + 2..pos + 4];
    }
  }

  /** What every parser asks of the first two octets, in this order. */
  function HeaderError(data: Bytes, packetType: u8): Option<Error>
    requires |data| >= 2
  {
    if data[0] / 64 != 2 then Some(InvalidVersion) else if data[1] != packetType then Some(WrongPacketType) else None
  }

  lemma InfoIsRead(data: Bytes, packetType: u8)
    requires |data| >= 2
    ensures ReadInfo(data, 0, packetType) ==
            match HeaderError(data, packetType) { case Some(error) => Err(error) case None => Ok((data[0], 2)) }
  {
  }

  // --- transport feedback ------------------------------------------------------------------------

  lemma OneMoreNack(data: Bytes, pos: nat, nack: Nack, rest: seq<Nack>)
    requires Field(data, pos, 2, nack.packetId) && Field(data, pos + 2, 2, nack.lostPackets)
    requires HasNacks(data, pos + 4, rest)
    ensures HasNacks(data, pos, [nack] + rest)
  {
    hide Field;
    var nacks := [nack] + rest;
    forall i | 0 < i < |nacks|
      ensures Field(data, pos + 4 * i, 2, nacks[i].packetId) && Field(data, pos + 4 * i + 2, 2, nacks[i].lostPackets)
    {
      assert nacks[i] == rest[i - 1] && pos + 4 * i == pos + 4 + 4 * (i - 1);
    }
  }

  lemma {:induction false} NacksAreRead(data: Bytes, pos: nat, count: nat)
    ensures ReadNacks(data, pos, count) == Err(UnexpectedEof) || ReadNacks(data, pos, count).Ok?
    ensures ReadNacks(data, pos, count).Ok? <==> count == 0 || pos + 4 * count <= |data|
    ensures ReadNacks(data, pos, count).Ok? ==>
              var (nacks, end) := ReadNacks(data, pos, count).value;
              |nacks| == count && end == pos + 4 * count && HasNacks(data, pos, nacks)
    decreases count
  {
    if count == 0 {
      hide Field;
    } else {
      hide BigEndian, HasNacks, ReadU16;
      ReadIsField(data, pos);
      ReadIsField(data, pos + 2);
      NacksAreRead(data, pos + 4, count - 1);
      if ReadNacks(data, pos, count).Ok? {
        var nacks, rest := ReadNacks(data, pos, count).value.0, ReadNacks(data, pos + 4, count - 1).value.0;
        OneMoreNack(data, pos, nacks[0], rest);
      }
    }
  }

  lemma TransportFeedbackIsParsed(data: Bytes)
    requires |data| >= 12
    ensures var r := ParseTransportFeedback(data, 0);
            if HeaderError(data, 205).Some? then r == Err(HeaderError(data, 205).value)
            else if data[0] % 32 != 1 then r == Err(UnknownFeedback)
            else if Words(data) < 2 then r == Err(LengthUnderflow)
            else if 4 + 4 * Words(data) > |data| then r == Err(UnexpectedEof)
            else
              && r.Ok? && r.value.1 == 4 + 4 * Words(data)
              && Field(data, 4, 4, r.value.0.ssrc) && Field(data, 8, 4, r.value.0.mediaSsrc)
              && |r.value.0.nacks| == Words(data) - 2 && HasNacks(data, 12, r.value.0.nacks)
  {
    hide ReadInfo, ReadU16, ReadU32, ReadNacks, HasNacks, Field, BigEndian;
    InfoIsRead(data, 205);
    ReadIsField(data, 2);
    ReadIsWord(data, 4);
    ReadIsWord(data, 8);
    if Words(data) >= 2 {
      NacksAreRead(data, 12, Words(data) - 2);
    }
  }

  // --- payload feedback --------------------------------------------------------------------------

  lemma PayloadFeedbackIsParsed(data: Bytes)
    requires |data| >= 12
    ensures var r, id := ParsePayloadFeedback(data, 0), data[0] % 32;
            if HeaderError(data, 206).Some? then r == Err(HeaderError(data, 206).value)
            else if id != 1 && id != 2 && id != 3 && id != 15 then r == Err(UnknownFeedback)
            else if id == 2 then r == Err(UnsupportedFeedback)
            else if id != 15 && Words(data) != 2 then r == Err(InvalidLength)
            else if id == 15 && Words(data) < 2 then r == Err(LengthUnderflow)
            else if 4 + 4 * Words(data) > |data| then r == Err(UnexpectedEof)
            else
              && r.Ok? && r.value.1 == 4 + 4 * Words(data) && FormatOf(r.value.0.feedback) == id
              && Field(data, 4, 4, r.value.0.ssrc) && Field(data, 8, 4, r.value.0.mediaSsrc)
              && FeedbackPayload(r.value.0.feedback) == data[12..4 + 4 * Words(data)]
  {
    hide ReadInfo, ReadU16, ReadU32, Field, BigEndian;
    InfoIsRead(data, 206);
    ReadIsField(data, 2);
    ReadIsWord(data, 4);
    ReadIsWord(data, 8);
  }

  // --- application-defined packets ---------------------------------------------------------------

  lemma ApplicationDefinedIsParsed(data: Bytes)
    requires |data| >= 12
    ensures var r := ParseApplicationDefined(data, 0);
            if HeaderError(data, 204).Some? then r == Err(HeaderError(data, 204).value)
            else if Words(data) < 2 then r == Err(InvalidLength)
            else if 4 + 4 * Words(data) > |data| then r == Err(UnexpectedEof)
            else
              && r.Ok? && r.value.1 == 4 + 4 * Words(data) && r.value.0.subtype == data[0] % 32
              && Field(data, 4, 4, r.value.0.src) && r.value.0.name == data[8..12]
              && r.value.0.data == data[12..4 + 4 * Words(data)]
  {
    hide ReadInfo, ReadU16, ReadU32, Field, BigEndian;
    InfoIsRead(data, 204);
    ReadIsField(data, 2);
    ReadIsWord(data, 4);
  }

  // --- reports -----------------------------------------------------------------------------------

  lemma BlockIsRead(data: Bytes, pos: nat)
    ensures ReadBlock(data, pos).Ok? <==> pos + 20 <= |data|
    ensures ReadBlock(data, pos).Err? ==> ReadBlock(data, pos) == Err(UnexpectedEof)
    ensures ReadBlock(data, pos).Ok? ==> ReadBlock(data, pos).value.1 == pos + 20
  {
    hide ReadU32, Field, BigEndian;
    ReadIsWord(data, pos + 4);
    ReadIsWord(data, pos + 8);
    ReadIsWord(data, pos + 12);
    ReadIsWord(data, pos + 16);
  }

  /** The source of the i-th block. */
  function SourceAt(data: Bytes, pos: nat, i: nat): nat
    requires pos + 24 * i + 4 <= |data|
  {
    BigEndian(data[pos + 24 * i..pos + 24 * i + 4])
  }

  ghost predicate HasSource(data: Bytes, pos: nat, count: nat, ssrc: u32)
    requires pos + 24 * count <= |data|
  {
    exists i :: 0 <= i < count && SourceAt(data, pos, i) == ssrc
  }

  /** The block is the last one with this source. */
  ghost predicate IsLastBlock(data: Bytes, pos: nat, count: nat, ssrc: u32, block: ReportBlock, i: nat)
    requires pos + 24 * count <= |data|
  {
    && i < count && SourceAt(data, pos, i) == ssrc && HasBlock(data, pos + 24 * i, ssrc, block)
    && forall k :: i < k < count ==> SourceAt(data, pos, k) != ssrc
  }

  lemma {:induction false} BlocksAreRead(data: Bytes, pos: nat, count: nat, read: Reports)
    ensures var r := ReadBlocks(data, pos, count, read);
            && (r.Ok? <==> count == 0 || pos + 24 * count <= |data|)
            && (r.Err? ==> r == Err(UnexpectedEof)) && (r.Ok? ==> r.value.1 == pos + 24 * count)
    decreases count
  {
    hide ReadU32, ReadBlock;
    if count > 0 {
      ReadIsWord(data, pos);
      BlockIsRead(data, pos + 4);
      if pos + 24 <= |data| {
        BlocksAreRead(data, pos + 24, count - 1,
                      read[ReadU32(data, pos).value.0 := ReadBlock(data, pos + 4).value.0]);
      }
    }
  }

  lemma BlockIsWhatIsThere(data: Bytes, pos: nat)
    requires pos + 24 <= |data|
    ensures ReadU32(data, pos).Ok? && ReadBlock(data, pos + 4).Ok?
    ensures SourceAt(data, pos, 0) == ReadU32(data, pos).value.0
    ensures HasBlock(data, pos, ReadU32(data, pos).value.0, ReadBlock(data, pos + 4).value.0)
  {
    hide ReadU32, BigEndian;
    ReadIsWord(data, pos);
    ReadIsWord(data, pos + 8);
    ReadIsWord(data, pos + 12);
    ReadIsWord(data, pos + 16);
    ReadIsWord(data, pos + 20);
    OctetValue(data[pos + 4]);
    assert data[pos + 4..pos + 5] == [data[pos + 4]];
    assert data[pos + 5..pos + 8] == [data[pos + 5]] + [data[pos + 6], data[pos + 7]];
    JoinedValue([data[pos + 5]], [data[pos + 6], data[pos + 7]]);
    OctetValue(data[pos + 5]);
    PairValue(data[pos + 6], data[pos + 7]);
  }

  lemma SourceShifts(data: Bytes, pos: nat, i: nat)
    requires pos + 24 * (i + 1) + 4 <= |data|
    ensures SourceAt(data, pos + 24, i) == SourceAt(data, pos, i + 1)
  {
    hide BigEndian;
    assert pos + 24 + 24 * i == pos + 24 * (i + 1);
  }

  lemma ShiftedSource(data: Bytes, pos: nat, count: nat, ssrc: u32)
    requires pos + 24 * count <= |data| && count > 0
    ensures HasSource(data, pos, count, ssrc)
       <==> SourceAt(data, pos, 0) == ssrc || HasSource(data, pos + 24, count - 1, ssrc)
  {
    hide SourceAt;
    var behind := pos + 24;
    if i :| 0 <= i < count && SourceAt(data, pos, i) == ssrc {
      if i > 0 {
        SourceShifts(data, pos, i - 1);
        assert SourceAt(data, behind, i - 1) == ssrc;
      }
    }
    if i :| 0 <= i < count - 1 && SourceAt(data, behind, i) == ssrc {
      SourceShifts(data, pos, i);
      assert SourceAt(data, pos, i + 1) == ssrc;
    }
  }

  lemma ShiftedLast(data: Bytes, pos: nat, count: nat, ssrc: u32, block: ReportBlock, i: nat)
    requires pos + 24 * count <= |data| && count > 0 && IsLastBlock(data, pos + 24, count - 1, ssrc, block, i)
    ensures IsLastBlock(data, pos, count, ssrc, block, i + 1)
  {
    hide SourceAt, HasBlock;
    SourceShifts(data, pos, i);
    assert pos + 24 * (i + 1) == pos + 24 + 24 * i;
    forall k | i + 1 < k < count ensures SourceAt(data, pos, k) != ssrc {
      SourceShifts(data, pos, k - 1);
    }
  }

  lemma FirstIsLast(data: Bytes, pos: nat, count: nat, ssrc: u32, block: ReportBlock)
    requires pos + 24 * count <= |data| && count > 0 && !HasSource(data, pos + 24, count - 1, ssrc)
    requires SourceAt(data, pos, 0) == ssrc && HasBlock(data, pos, ssrc, block)
    ensures IsLastBlock(data, pos, count, ssrc, block, 0)
  {
    hide SourceAt, HasBlock;
    var behind := pos + 24;
    forall k | 0 < k < count ensures SourceAt(data, pos, k) != ssrc {
      SourceShifts(data, pos, k - 1);
      assert SourceAt(data, behind, k - 1) != ssrc;
    }
  }

  lemma OneBlockIsRead(data: Bytes, pos: nat, count: nat, read: Reports) returns (source: u32, block: ReportBlock)
    requires pos + 24 * count <= |data| && count > 0
    ensures ReadBlocks(data, pos, count, read) == ReadBlocks(data, pos + 24, count - 1, read[source := block])
    ensures SourceAt(data, pos, 0) == source && HasBlock(data, pos, source, block)
  {
    hide ReadU32, ReadBlock, HasBlock, BigEndian;
    BlockIsWhatIsThere(data, pos);
    BlockIsRead(data, pos + 4);
    ReadIsWord(data, pos);
    source, block := ReadU32(data, pos).value.0, ReadBlock(data, pos + 4).value.0;
  }

  lemma {:induction false} LastBlockStays(data: Bytes, pos: nat, count: nat, read: Reports, ssrc: u32) returns (last: nat)
    requires pos + 24 * count <= |data| && ReadBlocks(data, pos, count, read).Ok?
    ensures var reports := ReadBlocks(data, pos, count, read).value.0;
            && (ssrc in reports <==> ssrc in read || HasSource(data, pos, count, ssrc))
            && (if HasSource(data, pos, count, ssrc) then IsLastBlock(data, pos, count, ssrc, reports[ssrc], last)
                else ssrc in reports ==> reports[ssrc] == read[ssrc])
    decreases count
  {
    hide ReadBlocks, HasBlock, SourceAt, HasSource, IsLastBlock;
    last := 0;
    if count == 0 {
      NoBlocks(data, pos, read, ssrc);
    } else {
      var source, block := OneBlockIsRead(data, pos, count, read);
      var later := LastBlockStays(data, pos + 24, count - 1, read[source := block], ssrc);
      ShiftedSource(data, pos, count, ssrc);
      if HasSource(data, pos + 24, count - 1, ssrc) {
        last := later + 1;
        ShiftedLast(data, pos, count, ssrc, ReadBlocks(data, pos, count, read).value.0[ssrc], later);
      } else if source == ssrc {
        FirstIsLast(data, pos, count, ssrc, block);
      }
    }
  }

  lemma NoBlocks(data: Bytes, pos: nat, read: Reports, ssrc: u32)
    requires pos <= |data|
    ensures ReadBlocks(data, pos, 0, read) == Ok((read, pos)) && !HasSource(data, pos, 0, ssrc)
  {
  }

  /** Each source has the last of its blocks. */
  ghost predicate TakesLast(data: Bytes, pos: nat, count: nat, reports: Reports)
    requires pos + 24 * count <= |data|
  {
    && (forall ssrc :: ssrc in reports <==> HasSource(data, pos, count, ssrc))
    && forall ssrc :: ssrc in reports ==> exists last :: IsLastBlock(data, pos, count, ssrc, reports[ssrc], last)
  }

  lemma BlocksTakeLast(data: Bytes, pos: nat, count: nat)
    requires pos + 24 * count <= |data|
    ensures ReadBlocks(data, pos, count, map[]).Ok?
    ensures TakesLast(data, pos, count, ReadBlocks(data, pos, count, map[]).value.0)
  {
    hide ReadBlocks, HasSource, IsLastBlock;
    BlocksAreRead(data, pos, count, map[]);
    forall ssrc: u32 ensures
      var reports := ReadBlocks(data, pos, count, map[]).value.0;
      && (ssrc in reports <==> HasSource(data, pos, count, ssrc))
      && (ssrc in reports ==> exists last :: IsLastBlock(data, pos, count, ssrc, reports[ssrc], last))
    {
      var last := LastBlockStays(data, pos, count, map[], ssrc);
    }
  }

  /** What is behind the blocks, as far as the length field says; its padding is never taken off. */
  function Behind(data: Bytes, start: nat, length: nat): Option<Bytes>
    requires start + length <= |data|
  {
    if length == 0 then None else Some(data[start..start + length])
  }

  lemma ProfileIsRead(data: Bytes, start: nat, length: nat)
    ensures var r := ReadProfileData(data, start, length, false);
            if length > 0 && start + length > |data| then r == Err(UnexpectedEof)
            else r == Ok((if length == 0 then None else Some(data[start..start + length]), start + length))
  {
  }

  /** `blocks` is where the blocks start; more of them than sources are read, but their bytes counted once each. */
  ghost predicate ReportEnd<T>(data: Bytes, blocks: nat, r: Read<T>, reports: Reports, profile: Option<Bytes>)
    requires |data| >= blocks && |data| >= 4
  {
    var count: nat := data[0] % 64;
    if blocks + 24 * count > |data| then r == Err(UnexpectedEof)
    else
      && TakesLast(data, blocks, count, reports)
      && var start, total := blocks + 24 * count, 4 + 4 * Words(data);
         if total < blocks + 24 * |reports| then r == Err(InvalidLength)
         else
           var length := total - blocks - 24 * |reports|;
           if length > 0 && start + length > |data| then r == Err(UnexpectedEof)
           else r.Ok? && profile == Behind(data, start, length)
  }

  lemma SenderReportIsParsed(data: Bytes) returns (reports: Reports, profile: Option<Bytes>)
    requires |data| >= 28
    ensures var r := ParseSenderReport(data, 0);
            if HeaderError(data, 200).Some? then r == Err(HeaderError(data, 200).value)
            else
              && ReportEnd(data, 28, r, reports, profile)
              && (r.Ok? ==>
                    && r.value.0.reports == reports && r.value.0.profileData == profile
                    && Field(data, 4, 4, r.value.0.ssrc) && Field(data, 8, 8, r.value.0.networkTimestamp)
                    && Field(data, 16, 4, r.value.0.rtpTimestamp) && Field(data, 20, 4, r.value.0.packetCount)
                    && Field(data, 24, 4, r.value.0.byteCount))
  {
    hide ReadInfo, ReadU16, ReadU32, ReadU64, ReadBlocks, Field, BigEndian, TakesLast, ReadProfileData;
    InfoIsRead(data, 200);
    ReadIsField(data, 2);
    ReadIsWord(data, 4);
    ReadIsLong(data, 8);
    ReadIsWord(data, 16);
    ReadIsWord(data, 20);
    ReadIsWord(data, 24);
    var count := data[0] % 64;
    BlocksAreRead(data, 28, count, map[]);
    reports, profile := map[], None;
    if 28 + 24 * count <= |data| {
      BlocksTakeLast(data, 28, count);
      reports := ReadBlocks(data, 28, count, map[]).value.0;
      var taken := 28 + 24 * |reports|;
      if 4 + 4 * Words(data) >= taken {
        var start, length := 28 + 24 * count, 4 + 4 * Words(data) - taken;
        ProfileIsRead(data, start, length);
        if length == 0 || start + length <= |data| {
          profile := Behind(data, start, length);
        }
      }
    }
  }

  lemma ReadIsLong(data: Bytes, pos: nat)
    requires pos + 8 <= |data|
    ensures ReadU64(data, pos).Ok? && ReadU64(data, pos).value.1 == pos + 8
    ensures Field(data, pos, 8, ReadU64(data, pos).value.0)
  {
    hide ReadU32, BigEndian;
    ReadIsWord(data, pos);
    ReadIsWord(data, pos + 4);
    ReadIsField(data, pos + 4);
    ReadIsField(data, pos + 6);
    var high, middle, low := data[pos..pos + 4], data[pos + 4..pos + 6], data[pos + 6..pos + 8];
    assert data[pos + 4..pos + 8] == middle + low && data[pos..pos + 8] == (high + middle) + low;
    JoinedValue(middle, low);
    JoinedValue(high + middle, low);
    JoinedValue(high, middle);
  }

  lemma ReceiverReportIsParsed(data: Bytes) returns (reports: Reports, profile: Option<Bytes>)
    requires |data| >= 8
    ensures var r := ParseReceiverReport(data, 0);
            if HeaderError(data, 201).Some? then r == Err(HeaderError(data, 201).value)
            else
              && ReportEnd(data, 8, r, reports, profile)
              && (r.Ok? ==>
                    && r.value.0.reports == reports && r.value.0.profileData == profile
                    && Field(data, 4, 4, r.value.0.ssrc))
  {
    hide ReadInfo, ReadU16, ReadU32, ReadBlocks, Field, BigEndian, TakesLast, ReadProfileData;
    InfoIsRead(data, 201);
    ReadIsField(data, 2);
    ReadIsWord(data, 4);
    var count := data[0] % 64;
    BlocksAreRead(data, 8, count, map[]);
    reports, profile := map[], None;
    if 8 + 24 * count <= |data| {
      BlocksTakeLast(data, 8, count);
      reports := ReadBlocks(data, 8, count, map[]).value.0;
      var taken := 8 + 24 * |reports|;
      if 4 + 4 * Words(data) >= taken {
        var start, length := 8 + 24 * count, 4 + 4 * Words(data) - taken;
        ProfileIsRead(data, start, length);
        if length == 0 || start + length <= |data| {
          profile := Behind(data, start, length);
        }
      }
    }
  }

  // --- kinds of packets --------------------------------------------------------------------------

  /** The packet type decides what a packet is taken for; beyond the known types, its bytes are all there is to it. */
  lemma TypeDecides(data: Bytes)
    ensures |data| < 2 ==> ParsePacket(data) == Err(TruncatedPacket)
    ensures |data| >= 2 ==>
              match ParsePacket(data)
              case Ok(Sender(_)) => data[1] == 200
              case Ok(Receiver(_)) => data[1] == 201
              case Ok(Application(_)) => data[1] == 204
              case Ok(Transport(_)) => data[1] == 205
              case Ok(Payload(_)) => data[1] == 206
              case Ok(Unknown(bytes)) => (data[1] < 200 || data[1] > 207) && bytes == data
              case Err(error) => 200 <= data[1] <= 207 && (data[1] in {202, 203, 207} ==> error == OutsideModel)
  {
    hide ParseSenderReport, ParseReceiverReport, ParseTransportFeedback, ParsePayloadFeedback, ParseApplicationDefined;
  }
}
