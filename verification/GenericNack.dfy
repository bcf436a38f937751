/**
 * Lists of lost numbers as (number, bitmask) pairs (src/utils/rtcp/packets/transport_feedback.rs).
 *
 * Section 6.2.1 of RFC 4585 lets bit k of the mask stand for number + k + 1. The source writes distance d to bit d and
 * reads bit k as number + k + 2, so both conventions are parameters here and each law is proved for all of them.
 */
module GenericNack {
  import opened Prelude
  import opened SerialNumbers

  const MASK_BITS := 16
  const NACK_WINDOW := 256

  datatype Nack = Nack(packetId: u16, lostPackets: u16)

  /** Distance d is written to bit d - `written`; bit k is read as distance k + `readAt`. */
  datatype Convention = Convention(written: nat, readAt: nat) {
    predicate Valid() { written <= readAt <= 2 }
    /** How far a number moves on the way from a list to the numbers read back. */
    function Drift(): nat requires Valid() { readAt - written }
  }

  const SOURCE := Convention(0, 2)
  const RFC4585 := Convention(1, 1)

  // --- bits of a 16-bit mask ---------------------------------------------------------------------

  predicate Bit(mask: nat, k: nat) {
    if k == 0 then mask % 2 == 1 else Bit(mask / 2, k - 1)
  }

  /** `mask | 1 << k`. */
  function SetBit(mask: nat, k: nat): nat {
    if k == 0 then mask / 2 * 2 + 1 else SetBit(mask / 2, k - 1) * 2 + mask % 2
  }

  function PowerOfTwo(n: nat): nat {
    if n == 0 then 1 else 2 * PowerOfTwo(n - 1)
  }

  lemma {:induction false} SetBitSetsOneBit(mask: nat, k: nat, j: nat)
    ensures Bit(SetBit(mask, k), j) <==> Bit(mask, j) || j == k
    decreases k + j
  {
    var marked := SetBit(mask, k);
    if k == 0 {
      assert marked / 2 == mask / 2 && marked % 2 == 1;
    } else {
      assert marked / 2 == SetBit(mask / 2, k - 1) && marked % 2 == mask % 2;
      if j > 0 {
        SetBitSetsOneBit(mask / 2, k - 1, j - 1);
      }
    }
  }

  lemma {:induction false} SetBitStaysInWidth(mask: nat, k: nat, width: nat)
    requires mask < PowerOfTwo(width) && k < width
    ensures SetBit(mask, k) < PowerOfTwo(width)
  {
    var half := PowerOfTwo(width - 1);
    assert PowerOfTwo(width) == 2 * half;
    hide PowerOfTwo;
    assert mask / 2 < half;
    if k == 0 {
      assert SetBit(mask, k) == mask / 2 * 2 + 1;
    } else {
      SetBitStaysInWidth(mask / 2, k - 1, width - 1);
      assert SetBit(mask, k) == SetBit(mask / 2, k - 1) * 2 + mask % 2;
    }
  }

  lemma {:induction false} ZeroHasNoBits(k: nat)
    ensures !Bit(0, k)
  {
    if k > 0 {
      ZeroHasNoBits(k - 1);
    }
  }

  function Mark(mask: u16, k: nat): u16
    requires k < MASK_BITS
  {
    TwoToTheMaskBits();
    SetBitStaysInWidth(mask, k, MASK_BITS);
    SetBit(mask, k)
  }

  lemma TwoToTheMaskBits()
    ensures PowerOfTwo(MASK_BITS) == 0x1_0000
  {
    assert PowerOfTwo(4) == 16;
    assert PowerOfTwo(8) == 256;
    assert PowerOfTwo(12) == 4096;
  }

  /** The set bits from `k` up, in order. */
  function BitsFrom(mask: nat, k: nat): (bits: seq<nat>)
    ensures forall i :: 0 <= i < |bits| ==> k <= bits[i] < MASK_BITS
    decreases MASK_BITS - k
  {
    if k >= MASK_BITS then [] else (if Bit(mask, k) then [k] else []) + BitsFrom(mask, k + 1)
  }

  ghost predicate NoBitFrom(mask: nat, k: nat) {
    forall j :: k <= j < MASK_BITS ==> !Bit(mask, j)
  }

  lemma {:induction false} NewTopBitComesLast(mask: nat, top: nat, k: nat)
    requires top < MASK_BITS && NoBitFrom(mask, top)
    ensures BitsFrom(SetBit(mask, top), k) == BitsFrom(mask, k) + if k <= top then [top] else []
    decreases MASK_BITS - k
  {
    hide Bit, SetBit;
    if k < MASK_BITS {
      SetBitSetsOneBit(mask, top, k);
      NewTopBitComesLast(mask, top, k + 1);
      if k == top {
        NoBitsListed(mask, k);
        NoBitsListed(mask, k + 1);
      } else {
        var first := if Bit(mask, k) then [k] else [];
        assert first + (BitsFrom(mask, k + 1) + [top]) == (first + BitsFrom(mask, k + 1)) + [top];
      }
    }
  }

  lemma {:induction false} NoBitsListed(mask: nat, k: nat)
    requires NoBitFrom(mask, k)
    ensures BitsFrom(mask, k) == []
    decreases MASK_BITS - k
  {
    if k < MASK_BITS {
      NoBitsListed(mask, k + 1);
    }
  }

  lemma MarkTopBit(mask: u16, top: nat)
    requires top < MASK_BITS && NoBitFrom(mask, top)
    ensures NoBitFrom(Mark(mask, top), top + 1)
    ensures BitsFrom(Mark(mask, top), 0) == BitsFrom(mask, 0) + [top]
  {
    hide Bit, SetBit, BitsFrom;
    forall j | top < j < MASK_BITS ensures !Bit(Mark(mask, top), j) {
      SetBitSetsOneBit(mask, top, j);
    }
    NewTopBitComesLast(mask, top, 0);
  }

  // --- grouping ----------------------------------------------------------------------------------

  function DistanceFrom(head: u16, packet: u16): nat {
    Difference(packet, head, Some(NACK_WINDOW), NUMBERS)
  }

  /** The mask of `head`'s group and the packets left over. */
  function Collect(head: u16, packets: seq<u16>, mask: u16, written: nat): (r: (u16, seq<u16>))
    ensures |r.1| <= |packets|
  {
    if packets == [] || DistanceFrom(head, packets[0]) >= MASK_BITS + written then (mask, packets)
    else
      var distance := DistanceFrom(head, packets[0]);
      Collect(head, packets[1..], if distance < written then mask else Mark(mask, distance - written), written)
  }

  function Create(packets: seq<u16>, written: nat): seq<Nack>
    decreases |packets|
  {
    if packets == [] then []
    else
      var (mask, rest) := Collect(packets[0], packets[1..], 0, written);
      [Nack(packets[0], mask)] + Create(rest, written)
  }

  /** The numbers a pair stands for. */
  function Expand(nack: Nack, readAt: nat): seq<u16>
    requires readAt <= 2
  {
    [nack.packetId] + Offsets(nack.packetId, BitsFrom(nack.lostPackets, 0), readAt)
  }

  function Offsets(head: u16, bits: seq<nat>, readAt: nat): seq<u16>
    requires readAt <= 2 && forall i :: 0 <= i < |bits| ==> bits[i] < MASK_BITS
  {
    seq<u16>(|bits|, i requires 0 <= i < |bits| => At(head, bits[i] + readAt))
  }

  function ExpandAll(nacks: seq<Nack>, readAt: nat): seq<u16>
    requires readAt <= 2
  {
    if nacks == [] then [] else Expand(nacks[0], readAt) + ExpandAll(nacks[1..], readAt)
  }

  // --- what comes back ---------------------------------------------------------------------------

  /** How many packets in front belong to `head`'s group. */
  function GroupSize(head: u16, packets: seq<u16>, reach: nat): (size: nat)
    ensures size <= |packets|
  {
    if packets == [] || Forward(head, packets[0], NUMBERS) >= reach then 0
    else 1 + GroupSize(head, packets[1..], reach)
  }

  function MovedBy(packets: seq<u16>, drift: nat): seq<u16>
    requires drift < NUMBERS
  {
    seq<u16>(|packets|, i requires 0 <= i < |packets| => At(packets[i], drift))
  }

  /** What belongs to the first group behind its head. */
  function Members(packets: seq<u16>, written: nat): seq<u16>
    requires packets != []
  {
    packets[1..][..GroupSize(packets[0], packets[1..], MASK_BITS + written)]
  }

  /** The first group as it is read back: its head stays, the others move by the convention's drift. */
  function GroupReadBack(packets: seq<u16>, convention: Convention): seq<u16>
    requires convention.Valid() && packets != []
  {
    [packets[0]] + MovedBy(Members(packets, convention.written), convention.Drift())
  }

  function AfterGroup(packets: seq<u16>, written: nat): (rest: seq<u16>)
    requires packets != []
    ensures |rest| < |packets|
  {
    packets[1..][GroupSize(packets[0], packets[1..], MASK_BITS + written)..]
  }

  /** What comes back of a whole list, group by group. */
  function ReadBack(packets: seq<u16>, convention: Convention): seq<u16>
    requires convention.Valid()
    decreases |packets|
  {
    if packets == [] then []
    else GroupReadBack(packets, convention) + ReadBack(AfterGroup(packets, convention.written), convention)
  }

  lemma HeadAndSlices(s: seq<u16>, size: nat)
    requires size < |s|
    ensures s[1..][size..] == s[1 + size..]
    ensures [s[0]] + s[1..][..size] == s[..1 + size]
  {
  }

  lemma AfterGroupIsSuffix(packets: seq<u16>, written: nat)
    requires packets != []
    ensures var rest := AfterGroup(packets, written); rest == packets[|packets| - |rest|..]
  {
    hide GroupSize;
    HeadAndSlices(packets, GroupSize(packets[0], packets[1..], MASK_BITS + written));
  }

  lemma NearDistanceIsForward(head: u16, packet: u16, reach: nat)
    requires Forward(head, packet, NUMBERS) < NUMBERS - NACK_WINDOW && reach <= NACK_WINDOW
    ensures DistanceFrom(head, packet) < reach <==> Forward(head, packet, NUMBERS) < reach
    ensures DistanceFrom(head, packet) < reach ==> DistanceFrom(head, packet) == Forward(head, packet, NUMBERS)
  {
    DifferenceSeparatesNearFromFar(packet, head, NACK_WINDOW, NUMBERS);
  }

  /** Ascending as seen from the head of the group: distances above `low`. */
  ghost predicate Beyond(head: u16, packets: seq<u16>, low: nat) {
    && (forall i :: 0 <= i < |packets| ==> low <= Forward(head, packets[i], NUMBERS) < NUMBERS - NACK_WINDOW)
    && (forall i, j :: 0 <= i < j < |packets| ==>
          Forward(head, packets[i], NUMBERS) < Forward(head, packets[j], NUMBERS))
  }

  /** One group: what is left over comes after its last member. */
  lemma {:induction false} CollectLeavesRest(head: u16, packets: seq<u16>, mask: u16, written: nat, low: nat)
    requires written <= 1 && Beyond(head, packets, low)
    ensures Collect(head, packets, mask, written).1 == packets[GroupSize(head, packets, MASK_BITS + written)..]
    decreases |packets|
  {
    hide Forward, DistanceFrom, Mark, Beyond;
    if packets != [] {
      var reach := MASK_BITS + written;
      BeyondStep(head, packets, low);
      NearDistanceIsForward(head, packets[0], reach);
      var distance := DistanceFrom(head, packets[0]);
      if distance < reach {
        var marked := if distance < written then mask else Mark(mask, distance - written);
        CollectLeavesRest(head, packets[1..], marked, written, distance + 1);
        DropsOneMore(packets, GroupSize(head, packets[1..], reach));
      }
    }
  }

  lemma DropsOneMore(s: seq<u16>, size: nat)
    requires size < |s|
    ensures s[1..][size..] == s[1 + size..]
  {
  }

  /** One group: its mask lists the distances of its members, in order. */
  lemma {:induction false} CollectListsGroup(head: u16, packets: seq<u16>, mask: u16, convention: Convention, low: nat)
    requires convention.Valid() && convention.written <= low && 0 < low <= MASK_BITS + convention.written
    requires Beyond(head, packets, low) && NoBitFrom(mask, low - convention.written)
    ensures var after := Collect(head, packets, mask, convention.written).0;
            var size := GroupSize(head, packets, MASK_BITS + convention.written);
            Offsets(head, BitsFrom(after, 0), convention.readAt)
            == Offsets(head, BitsFrom(mask, 0), convention.readAt) + MovedBy(packets[..size], convention.Drift())
    decreases |packets|
  {
    hide Bit, SetBit, BitsFrom, At, Forward, DistanceFrom, Offsets, MovedBy, Mark, NoBitFrom, Beyond;
    var written := convention.written;
    var reach := MASK_BITS + written;
    if packets == [] {
      NothingMoved(convention);
    } else {
      BeyondStep(head, packets, low);
      NearDistanceIsForward(head, packets[0], reach);
      var distance := Forward(head, packets[0], NUMBERS);
      if distance < reach {
        var marked := Mark(mask, distance - written);
        NoBitFromLater(mask, low - written, distance - written);
        MarkTopBit(mask, distance - written);
        CollectListsGroup(head, packets[1..], marked, convention, distance + 1);
        var size := GroupSize(head, packets[1..], reach);
        OffsetsAppend(head, BitsFrom(mask, 0), distance - written, convention, packets[0], packets[1..][..size]);
        HeadAndSlices(packets, size);
      } else {
        NothingMoved(convention);
      }
    }
  }

  lemma BeyondStep(head: u16, packets: seq<u16>, low: nat)
    requires packets != [] && Beyond(head, packets, low)
    ensures low <= Forward(head, packets[0], NUMBERS) < NUMBERS - NACK_WINDOW
    ensures Beyond(head, packets[1..], Forward(head, packets[0], NUMBERS) + 1)
  {
    hide Forward;
  }

  lemma NoBitFromLater(mask: u16, k: nat, later: nat)
    requires NoBitFrom(mask, k) && k <= later
    ensures NoBitFrom(mask, later)
  {
    hide Bit;
  }

  lemma NothingMoved(convention: Convention)
    requires convention.Valid()
    ensures MovedBy([], convention.Drift()) == []
  {
  }

  lemma OffsetsOneMore(head: u16, bits: seq<nat>, bit: nat, readAt: nat)
    requires readAt <= 2 && bit < MASK_BITS && forall i :: 0 <= i < |bits| ==> bits[i] < MASK_BITS
    ensures Offsets(head, bits + [bit], readAt) == Offsets(head, bits, readAt) + [At(head, bit + readAt)]
  {
    hide At;
  }

  lemma OffsetsFirst(head: u16, bit: nat, bits: seq<nat>, readAt: nat)
    requires readAt <= 2 && bit < MASK_BITS && forall i :: 0 <= i < |bits| ==> bits[i] < MASK_BITS
    ensures Offsets(head, [bit] + bits, readAt) == [At(head, bit + readAt)] + Offsets(head, bits, readAt)
  {
    hide At;
  }

  lemma OffsetsOfNone(head: u16, readAt: nat)
    requires readAt <= 2
    ensures Offsets(head, [], readAt) == []
  {
  }

  /** Listing one more packet of the group. */
  lemma OffsetsAppend(head: u16, bits: seq<nat>, bit: nat, convention: Convention, packet: u16, rest: seq<u16>)
    requires convention.Valid() && bit < MASK_BITS && forall i :: 0 <= i < |bits| ==> bits[i] < MASK_BITS
    requires Forward(head, packet, NUMBERS) == bit + convention.written
    ensures Offsets(head, bits + [bit], convention.readAt) + MovedBy(rest, convention.Drift())
         == Offsets(head, bits, convention.readAt) + MovedBy([packet] + rest, convention.Drift())
  {
    hide Offsets, MovedBy, At, Forward;
    var moved := At(packet, convention.Drift());
    AtThrough(head, packet, convention, bit);
    OffsetsOneMore(head, bits, bit, convention.readAt);
    MovedByFirst(packet, rest, convention.Drift());
    Associative(Offsets(head, bits, convention.readAt), [moved], MovedBy(rest, convention.Drift()));
  }

  lemma Associative(a: seq<u16>, b: seq<u16>, c: seq<u16>)
    ensures (a + b) + c == a + (b + c)
  {
  }

  lemma AtThrough(head: u16, packet: u16, convention: Convention, bit: nat)
    requires convention.Valid() && bit < MASK_BITS && Forward(head, packet, NUMBERS) == bit + convention.written
    ensures At(head, bit + convention.readAt) == At(packet, convention.Drift())
  {
  }

  lemma MovedByFirst(packet: u16, rest: seq<u16>, drift: nat)
    requires drift < NUMBERS
    ensures MovedBy([packet] + rest, drift) == [At(packet, drift)] + MovedBy(rest, drift)
  {
    hide At;
  }

  lemma BeyondHead(packets: seq<u16>, base: u16, span: nat)
    requires packets != [] && Ascending(packets, base, span) && span <= NUMBERS - NACK_WINDOW
    ensures Beyond(packets[0], packets[1..], 1)
  {
  }

  lemma AscendingSuffix(packets: seq<u16>, from: nat, base: u16, span: nat)
    requires Ascending(packets, base, span) && from <= |packets|
    ensures Ascending(packets[from..], base, span)
  {
  }

  lemma NothingReadsBack(convention: Convention)
    requires convention.Valid()
    ensures ExpandAll(Create([], convention.written), convention.readAt) == ReadBack([], convention) == []
  {
  }

  lemma CreateStep(packets: seq<u16>, written: nat)
    requires packets != []
    ensures var (mask, rest) := Collect(packets[0], packets[1..], 0, written);
            Create(packets, written) == [Nack(packets[0], mask)] + Create(rest, written)
  {
  }

  lemma ExpandStep(nack: Nack, nacks: seq<Nack>, readAt: nat)
    requires readAt <= 2
    ensures ExpandAll([nack] + nacks, readAt) == Expand(nack, readAt) + ExpandAll(nacks, readAt)
  {
    hide Expand;
    assert ([nack] + nacks)[1..] == nacks;
  }

  lemma EmptyMask(k: nat)
    ensures NoBitFrom(0, k) && BitsFrom(0, 0) == []
  {
    hide Bit;
    forall j | 0 <= j < MASK_BITS ensures !Bit(0, j) {
      ZeroHasNoBits(j);
    }
    NoBitsListed(0, 0);
  }

  /** The mask of the first pair lists the group behind its head. */
  lemma FirstMask(packets: seq<u16>, base: u16, span: nat, convention: Convention)
    requires packets != [] && Ascending(packets, base, span) && span <= NUMBERS - NACK_WINDOW
    requires convention.Valid() && convention.written <= 1
    ensures var mask := Collect(packets[0], packets[1..], 0, convention.written).0;
            Offsets(packets[0], BitsFrom(mask, 0), convention.readAt)
            == MovedBy(Members(packets, convention.written), convention.Drift())
  {
    hide Bit, BitsFrom, At, Forward, Collect, MovedBy, GroupSize, Offsets, Beyond, Ascending, NoBitFrom;
    BeyondHead(packets, base, span);
    EmptyMask(1 - convention.written);
    CollectListsGroup(packets[0], packets[1..], 0, convention, 1);
    OffsetsOfNone(packets[0], convention.readAt);
    NothingInFront(MovedBy(Members(packets, convention.written), convention.Drift()));
  }

  /** The first pair stands for the first group, as it is read back. */
  lemma FirstGroup(packets: seq<u16>, base: u16, span: nat, convention: Convention)
    requires packets != [] && Ascending(packets, base, span) && span <= NUMBERS - NACK_WINDOW
    requires convention.Valid() && convention.written <= 1
    ensures var mask := Collect(packets[0], packets[1..], 0, convention.written).0;
            GroupReadBack(packets, convention) == Expand(Nack(packets[0], mask), convention.readAt)
  {
    hide Bit, BitsFrom, At, Forward, Collect, MovedBy, GroupSize, Offsets, Ascending, Expand, GroupReadBack;
    var mask := Collect(packets[0], packets[1..], 0, convention.written).0;
    FirstMask(packets, base, span, convention);
    ExpandHead(packets[0], mask, convention.readAt);
    GroupHead(packets, convention);
    hide Members;
  }

  lemma ExpandHead(head: u16, mask: u16, readAt: nat)
    requires readAt <= 2
    ensures Expand(Nack(head, mask), readAt) == [head] + Offsets(head, BitsFrom(mask, 0), readAt)
  {
    hide Offsets, BitsFrom;
  }

  lemma GroupHead(packets: seq<u16>, convention: Convention)
    requires convention.Valid() && packets != []
    ensures GroupReadBack(packets, convention)
         == [packets[0]] + MovedBy(Members(packets, convention.written), convention.Drift())
  {
    hide MovedBy, Members;
  }

  lemma FirstRest(packets: seq<u16>, base: u16, span: nat, convention: Convention)
    requires packets != [] && Ascending(packets, base, span) && span <= NUMBERS - NACK_WINDOW
    requires convention.Valid() && convention.written <= 1
    ensures Collect(packets[0], packets[1..], 0, convention.written).1 == AfterGroup(packets, convention.written)
  {
    BeyondHead(packets, base, span);
    CollectLeavesRest(packets[0], packets[1..], 0, convention.written, 1);
    hide Beyond, Forward, Collect, GroupSize, Ascending;
  }

  lemma NothingInFront(s: seq<u16>)
    ensures [] + s == s
  {
  }

  /** The exact law of grouping and expanding, for every convention: heads stay, all other numbers drift. */
  lemma {:induction false} NackReadsBack(packets: seq<u16>, base: u16, span: nat, convention: Convention)
    requires Ascending(packets, base, span) && span <= NUMBERS - NACK_WINDOW
    requires convention.Valid() && convention.written <= 1
    ensures ExpandAll(Create(packets, convention.written), convention.readAt) == ReadBack(packets, convention)
    decreases |packets|
  {
    hide Bit, BitsFrom, At, Forward, Collect, MovedBy, GroupSize, Offsets, Beyond, Ascending;
    hide Create, ExpandAll, GroupReadBack, AfterGroup, Expand;
    if packets == [] {
      NothingReadsBack(convention);
    } else {
      var head, written, readAt := packets[0], convention.written, convention.readAt;
      var (mask, rest) := Collect(head, packets[1..], 0, written);
      FirstGroup(packets, base, span, convention);
      FirstRest(packets, base, span, convention);
      AfterGroupIsSuffix(packets, written);
      AscendingSuffix(packets, |packets| - |rest|, base, span);
      NackReadsBack(rest, base, span, convention);
      CreateStep(packets, written);
      ExpandStep(Nack(head, mask), Create(rest, written), readAt);
    }
  }

  lemma NotMoved(packets: seq<u16>)
    ensures MovedBy(packets, 0) == packets
  {
  }

  /** With one convention on both sides, RFC 4585's among them, every list comes back. */
  lemma {:induction false} SameConventionReadsBackExactly(packets: seq<u16>, convention: Convention)
    requires convention.Valid() && convention.Drift() == 0
    ensures ReadBack(packets, convention) == packets
    decreases |packets|
  {
    hide GroupReadBack, AfterGroup;
    if packets != [] {
      var rest := AfterGroup(packets, convention.written);
      SameConventionReadsBackExactly(rest, convention);
      GroupNotMoved(packets, convention);
      AfterGroupIsSuffix(packets, convention.written);
      assert packets == packets[..|packets| - |rest|] + rest;
    }
  }

  lemma GroupNotMoved(packets: seq<u16>, convention: Convention)
    requires convention.Valid() && convention.Drift() == 0 && packets != []
    ensures GroupReadBack(packets, convention) == packets[..|packets| - |AfterGroup(packets, convention.written)|]
  {
    hide GroupSize, MovedBy, At, Forward, GroupReadBack;
    GroupHead(packets, convention);
    NotMoved(Members(packets, convention.written));
    HeadAndMembers(packets, convention.written);
  }

  lemma HeadAndMembers(packets: seq<u16>, written: nat)
    requires packets != []
    ensures [packets[0]] + Members(packets, written) == packets[..|packets| - |AfterGroup(packets, written)|]
  {
    hide GroupSize;
    var size := GroupSize(packets[0], packets[1..], MASK_BITS + written);
    HeadAndSlices(packets, size);
    assert |packets| - |AfterGroup(packets, written)| == 1 + size;
  }

  ghost predicate FarApart(packets: seq<u16>, reach: nat) {
    forall i :: 0 < i < |packets| ==> Forward(packets[i - 1], packets[i], NUMBERS) >= reach
  }

  /** The source's own pair of conventions returns a list unchanged exactly when no two neighbours share a group. */
  lemma {:induction false} DriftingConventionReadsBackExactlyWhenFarApart(
      packets: seq<u16>, base: u16, span: nat, convention: Convention)
    requires Ascending(packets, base, span) && span <= NUMBERS - NACK_WINDOW
    requires convention.Valid() && convention.Drift() > 0
    ensures ReadBack(packets, convention) == packets <==> FarApart(packets, MASK_BITS + convention.written)
    decreases |packets|
  {
    hide Forward, FarApart, GroupReadBack, AfterGroup, Ascending;
    var reach := MASK_BITS + convention.written;
    if |packets| <= 1 {
      FarApartFew(packets, reach);
      LoneHeadReadsBack(packets, convention);
    } else {
      GroupDrifts(packets, convention);
      if Forward(packets[0], packets[1], NUMBERS) < reach {
        NotFarApart(packets, reach);
        assert ReadBack(packets, convention)[1] == GroupReadBack(packets, convention)[1];
      } else {
        var rest := packets[1..];
        AscendingSuffix(packets, 1, base, span);
        DriftingConventionReadsBackExactlyWhenFarApart(rest, base, span, convention);
        assert packets == [packets[0]] + rest;
        FarApartFromHead(packets, reach);
      }
    }
  }

  lemma LoneHeadReadsBack(packets: seq<u16>, convention: Convention)
    requires convention.Valid() && |packets| <= 1
    ensures ReadBack(packets, convention) == packets
  {
    if packets != [] {
      NothingMoved(convention);
      assert packets == [packets[0]] + [] + [];
    }
  }

  lemma GroupDrifts(packets: seq<u16>, convention: Convention)
    requires convention.Valid() && convention.Drift() > 0 && |packets| > 1
    ensures if Forward(packets[0], packets[1], NUMBERS) < MASK_BITS + convention.written
            then |GroupReadBack(packets, convention)| > 1 && GroupReadBack(packets, convention)[1] != packets[1]
            else GroupReadBack(packets, convention) == [packets[0]] && AfterGroup(packets, convention.written) == packets[1..]
  {
    hide Forward;
    assert At(packets[1], convention.Drift()) != packets[1];
  }

  lemma FarApartFew(packets: seq<u16>, reach: nat)
    requires |packets| <= 1
    ensures FarApart(packets, reach)
  {
  }

  lemma NotFarApart(packets: seq<u16>, reach: nat)
    requires |packets| > 1 && Forward(packets[0], packets[1], NUMBERS) < reach
    ensures !FarApart(packets, reach)
  {
    assert packets[1 - 1] == packets[0];
  }

  lemma FarApartFromHead(packets: seq<u16>, reach: nat)
    requires |packets| > 1 && Forward(packets[0], packets[1], NUMBERS) >= reach
    ensures FarApart(packets, reach) <==> FarApart(packets[1..], reach)
  {
    hide Forward;
    if FarApart(packets[1..], reach) {
      forall i | 0 < i < |packets| ensures Forward(packets[i - 1], packets[i], NUMBERS) >= reach {
        if i > 1 {
          assert packets[1..][i - 2] == packets[i - 1] && packets[1..][i - 1] == packets[i];
        }
      }
    }
    if FarApart(packets, reach) {
      forall i | 0 < i < |packets[1..]| ensures Forward(packets[1..][i - 1], packets[1..][i], NUMBERS) >= reach {
        assert packets[i] == packets[1..][i - 1] && packets[i + 1] == packets[1..][i];
      }
    }
  }

  // --- the source's loops ------------------------------------------------------------------------

  method CreateGenericNack(packets: seq<u16>) returns (feedbacks: seq<Nack>)
    ensures feedbacks == Create(packets, SOURCE.written)
  {
    feedbacks := [];
    var index := 0;
    while index < |packets|
      invariant index <= |packets|
      invariant feedbacks + Create(packets[index..], 0) == Create(packets, 0)
    {
      var head, mask := packets[index], 0;
      ghost var first := packets[index..];
      index := index + 1;
      ghost var group := Collect(head, packets[index..], 0, 0);
      while index < |packets|
        invariant index <= |packets|
        invariant Collect(head, packets[index..], mask, 0) == group
      {
        assert packets[index..][0] == packets[index] && packets[index..][1..] == packets[index + 1..];
        var difference := Difference(packets[index], head, Some(NACK_WINDOW), NUMBERS);
        if difference >= MASK_BITS {
          break;
        }
        mask := Mark(mask, difference);
        index := index + 1;
      }
      assert group == (mask, packets[index..]);
      assert Create(first, 0) == [Nack(head, mask)] + Create(packets[index..], 0);
      feedbacks := feedbacks + [Nack(head, mask)];
    }
    assert packets[index..] == [];
  }

  function RemainingAt(packetId: u16, bitmask: u16, index: nat): seq<u16> {
    if index == 0 then Expand(Nack(packetId, bitmask), SOURCE.readAt)
    else Offsets(packetId, BitsFrom(bitmask, index - 1), SOURCE.readAt)
  }

  lemma RemainingStep(packetId: u16, bitmask: u16, index: nat)
    ensures RemainingAt(packetId, bitmask, index) ==
              if index == 0 then [packetId] + RemainingAt(packetId, bitmask, 1)
              else if index > MASK_BITS then []
              else (if Bit(bitmask, index - 1) then [At(packetId, index + 1)] else [])
                   + RemainingAt(packetId, bitmask, index + 1)
  {
    hide Bit, At, Offsets, BitsFrom;
    OffsetsOfNone(packetId, SOURCE.readAt);
    if index > 0 {
      BitsStep(bitmask, index - 1);
    }
    if 0 < index <= MASK_BITS && Bit(bitmask, index - 1) {
      OffsetsFirst(packetId, index - 1, BitsFrom(bitmask, index), SOURCE.readAt);
    }
  }

  lemma BitsStep(mask: u16, k: nat)
    ensures BitsFrom(mask, k)
         == if k >= MASK_BITS then [] else if Bit(mask, k) then [k] + BitsFrom(mask, k + 1) else BitsFrom(mask, k + 1)
  {
    hide Bit;
    assert [] + BitsFrom(mask, k + 1) == BitsFrom(mask, k + 1);
  }

  class NackPacketIterator {
    const packetId: u16
    const bitmask: u16
    var index: nat

    constructor (nack: Nack)
      ensures index == 0 && packetId == nack.packetId && bitmask == nack.lostPackets
      ensures Remaining() == Expand(nack, SOURCE.readAt)
    {
      packetId, bitmask, index := nack.packetId, nack.lostPackets, 0;
    }

    /** What the iterator has still to return. */
    ghost function Remaining(): seq<u16>
      reads `index
    {
      RemainingAt(packetId, bitmask, index)
    }

    method Next() returns (packet: Option<u16>)
      modifies this
      ensures old(Remaining()) == [] ==> packet == None && Remaining() == []
      ensures old(Remaining()) != [] ==> packet == Some(old(Remaining())[0]) && Remaining() == old(Remaining())[1..]
    {
      hide Bit, At, RemainingAt;
      while index < 17
        invariant Remaining() == old(Remaining())
        decreases 17 - index
      {
        RemainingStep(packetId, bitmask, index);
        if index == 0 {
          index := 1;
          return Some(packetId);
        }
        var isSet := Bit(bitmask, index - 1);
        index := index + 1;
        if isSet {
          return Some(At(packetId, index));
        }
      }
      RemainingStep(packetId, bitmask, index);
      packet := None;
    }
  }

  /** `lost_packets().for_each`: the numbers the sender retransmits for one pair. */
  method LostPackets(nack: Nack) returns (packets: seq<u16>)
    ensures packets == Expand(nack, SOURCE.readAt)
  {
    hide RemainingAt, Expand;
    var pending := new NackPacketIterator(nack);
    packets := [];
    var packet := pending.Next();
    while packet.Some?
      invariant packets + (if packet.Some? then [packet.value] else []) + pending.Remaining()
             == Expand(nack, SOURCE.readAt)
      invariant packet.None? ==> pending.Remaining() == []
      decreases |pending.Remaining()| + if packet.Some? then 1 else 0
    {
      packets := packets + [packet.value];
      packet := pending.Next();
    }
  }
}
