/** Big-endian fields and the positions they are read from: the `Cursor` reads and writes of src/utils/rtcp. */
module Wire {
  import opened Prelude

  type Bytes = seq<u8>

  datatype Error =
    | UnexpectedEof
    | InvalidVersion
    | WrongPacketType
    | UnknownFeedback
    | UnsupportedFeedback
    | InvalidLength
    | LengthUnderflow
    | InvalidPadding
    | TooManyBlocks
    | UnalignedData
    | TruncatedPacket
    | TooManyPackets
    | BufferFull
    | OutsideModel

  /** A value and the position behind it. */
  type Read<+T> = Result<(T, nat), Error>

  datatype Check = Pass | Fail(error: Error) {
    predicate IsFailure() { Fail? }

    function PropagateFailure<U>(): Result<U, Error>
      requires Fail?
    {
      Err(error)
    }
  }

  function Need(condition: bool, error: Error): Check {
    if condition then Pass else Fail(error)
  }

  // --- writing -----------------------------------------------------------------------------------

  function U16(n: u16): (b: Bytes)
    ensures |b| == 2
  {
    [n / 0x100, n % 0x100]
  }

  function U24(n: u24): (b: Bytes)
    ensures |b| == 3
  {
    [n / 0x1_0000, n / 0x100 % 0x100, n % 0x100]
  }

  function U32(n: u32): (b: Bytes)
    ensures |b| == 4
  {
    U16(n / 0x1_0000) + U16(n % 0x1_0000)
  }

  function U64(n: u64): (b: Bytes)
    ensures |b| == 8
  {
    U32(n / 0x1_0000_0000) + U32(n % 0x1_0000_0000)
  }

  // --- reading -----------------------------------------------------------------------------------

  function ReadU8(data: Bytes, pos: nat): Read<u8> {
    if pos < |data| then Ok((data[pos], pos + 1)) else Err(UnexpectedEof)
  }

  function ReadU16(data: Bytes, pos: nat): Read<u16> {
    if pos + 2 <= |data| then Ok(((data[pos] as int) * 0x100 + data[pos + 1], pos + 2)) else Err(UnexpectedEof)
  }

  function ReadU24(data: Bytes, pos: nat): Read<u24> {
    if pos + 3 <= |data| then Ok(((data[pos] as int) * 0x1_0000 + (data[pos + 1] as int) * 0x100 + data[pos + 2], pos + 3))
    else Err(UnexpectedEof)
  }

  function ReadU32(data: Bytes, pos: nat): Read<u32> {
    var (high, p) :- ReadU16(data, pos);
    var (low, p) :- ReadU16(data, p);
    Ok((high * 0x1_0000 + low, p))
  }

  function ReadU64(data: Bytes, pos: nat): Read<u64> {
    var (high, p) :- ReadU32(data, pos);
    var (low, p) :- ReadU32(data, p);
    Ok((high * 0x1_0000_0000 + low, p))
  }

  function ReadExact(data: Bytes, pos: nat, count: nat): Read<Bytes> {
    if pos + count <= |data| then Ok((data[pos..pos + count], pos + count)) else Err(UnexpectedEof)
  }

  // --- reading what was written ------------------------------------------------------------------

  ghost predicate Holds(data: Bytes, pos: nat, bytes: Bytes) {
    pos + |bytes| <= |data| && data[pos..pos + |bytes|] == bytes
  }

  lemma HoldsBoth(data: Bytes, pos: nat, a: Bytes, b: Bytes)
    requires Holds(data, pos, a + b)
    ensures Holds(data, pos, a) && Holds(data, pos + |a|, b)
  {
    var both := data[pos..pos + |a + b|];
    assert both[..|a|] == a && both[|a|..] == b;
  }

  lemma HoldsWhole(bytes: Bytes)
    ensures Holds(bytes, 0, bytes)
  {
  }

  lemma ReadsU8(data: Bytes, pos: nat, n: u8)
    requires Holds(data, pos, [n])
    ensures ReadU8(data, pos) == Ok((n, pos + 1))
  {
    assert data[pos..pos + 1][0] == n;
  }

  lemma ReadsU16(data: Bytes, pos: nat, n: u16)
    requires Holds(data, pos, U16(n))
    ensures ReadU16(data, pos) == Ok((n, pos + 2))
  {
    var bytes := data[pos..pos + 2];
    assert data[pos] == bytes[0] == n / 0x100 && data[pos + 1] == bytes[1] == n % 0x100;
  }

  lemma ReadsU24(data: Bytes, pos: nat, n: u24)
    requires Holds(data, pos, U24(n))
    ensures ReadU24(data, pos) == Ok((n, pos + 3))
  {
    var bytes := data[pos..pos + 3];
    assert data[pos] == bytes[0] && data[pos + 1] == bytes[1] && data[pos + 2] == bytes[2];
  }

  lemma ReadsU32(data: Bytes, pos: nat, n: u32)
    requires Holds(data, pos, U32(n))
    ensures ReadU32(data, pos) == Ok((n, pos + 4))
  {
    hide ReadU16, U16;
    HoldsBoth(data, pos, U16(n / 0x1_0000), U16(n % 0x1_0000));
    ReadsU16(data, pos, n / 0x1_0000);
    ReadsU16(data, pos + 2, n % 0x1_0000);
  }

  lemma ReadsU64(data: Bytes, pos: nat, n: u64)
    requires Holds(data, pos, U64(n))
    ensures ReadU64(data, pos) == Ok((n, pos + 8))
  {
    hide ReadU32, U32;
    HoldsBoth(data, pos, U32(n / 0x1_0000_0000), U32(n % 0x1_0000_0000));
    ReadsU32(data, pos, n / 0x1_0000_0000);
    ReadsU32(data, pos + 4, n % 0x1_0000_0000);
  }

  // --- profile data and its padding --------------------------------------------------------------

  function Padding(length: nat): Bytes {
    match length % 4
    case 0 => []
    case 1 => [0, 0, 3]
    case 2 => [0, 2]
    case _ => [1]
  }

  function ProfileData(data: Option<Bytes>, padding: bool): Bytes {
    match data
    case None => []
    case Some(payload) => payload + if padding then Padding(|payload|) else []
  }

  function ProfileDataLength(data: Option<Bytes>): nat {
    if data.Some? then (|data.value| + 3) / 4 * 4 else 0
  }

  function ReadProfileData(data: Bytes, pos: nat, length: nat, padded: bool): (r: Read<Option<Bytes>>)
    ensures r.Ok? && !padded && length % 4 == 0 ==> Clean(r.value.0)
  {
    if length == 0 then Ok((None, pos))
    else
      var (buffer, p) :- ReadExact(data, pos, length);
      if !padded then Ok((Some(buffer), p))
      else
        var added := buffer[length - 1];
        if added == 0 || added > length then Err(InvalidPadding)
        else if added == length then Ok((None, p))
        else Ok((Some(buffer[..length - added]), p))
  }

  /** A profile that a report brings back as it was: absent, or non-empty and 4-aligned. */
  predicate Clean(data: Option<Bytes>) {
    data.Some? ==> data.value != [] && |data.value| % 4 == 0
  }

  /** Padding is undone exactly when the reader is told truly whether there is any. */
  lemma ProfileReadsBackExactlyWhenToldTruly(payload: Bytes, padded: bool)
    requires payload != []
    ensures var written := ProfileData(Some(payload), true);
            && |written| == ProfileDataLength(Some(payload))
            && (ReadProfileData(written, 0, |written|, padded) == Ok((Some(payload), |written|))
                <==> padded == (|payload| % 4 != 0))
  {
    var written := ProfileData(Some(payload), true);
    assert written[..|payload|] == payload;
    assert written[0..|written|] == written;
  }

  lemma CleanProfileReadsBack(data: Bytes, pos: nat, profile: Option<Bytes>)
    requires Clean(profile) && Holds(data, pos, ProfileData(profile, true))
    ensures |ProfileData(profile, true)| == ProfileDataLength(profile)
    ensures ReadProfileData(data, pos, ProfileDataLength(profile), false)
         == Ok((profile, pos + ProfileDataLength(profile)))
  {
    if profile.Some? {
      assert profile.value + [] == profile.value;
    }
  }
}
