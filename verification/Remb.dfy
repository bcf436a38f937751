/**
 * The bandwidth limit as a receiver tells it (REMB, draft-alvestrand-rmcat-remb): a mantissa of 18 bits and an exponent,
 * inside application-specific payload feedback (src/media/receiver.rs).
 */
module Remb {
  import opened Prelude
  import opened Wire
  import opened Rtcp
  import opened Compound

  const MAX_MANTISSA := 0x3FFFF
  const REMB_IDENTIFIER: u32 := 0x52454D42

  datatype Scaled = Scaled(mantissa: nat, exponent: nat)

  function Power(exponent: nat): (power: nat)
    ensures power > 0
  {
    if exponent == 0 then 1 else 2 * Power(exponent - 1)
  }

  /** Halving until the mantissa fits. */
  function Halved(mantissa: nat, exponent: nat): Scaled {
    if mantissa > MAX_MANTISSA then Halved(mantissa / 2, exponent + 1) else Scaled(mantissa, exponent)
  }

  function Scale(limit: u32): Scaled {
    Halved(limit, 0)
  }

  /** What the scaled value stands for. */
  function Value(scaled: Scaled): nat {
    scaled.mantissa * Power(scaled.exponent)
  }

  /** The scaled value approximates `limit`, with as small an exponent as possible. */
  predicate Approximates(scaled: Scaled, limit: nat) {
    && scaled.mantissa <= MAX_MANTISSA
    && Value(scaled) <= limit < Value(scaled) + Power(scaled.exponent)
    && (scaled.exponent > 0 ==> 2 * scaled.mantissa > MAX_MANTISSA)
  }

  /** `limit` lies between `mantissa` and `mantissa + 1`, in units of 2^exponent. */
  predicate Between(mantissa: nat, exponent: nat, limit: nat) {
    mantissa * Power(exponent) <= limit < (mantissa + 1) * Power(exponent)
  }

  lemma HalvingStaysBetween(mantissa: nat, exponent: nat, limit: nat)
    requires Between(mantissa, exponent, limit)
    ensures Between(mantissa / 2, exponent + 1, limit)
  {
    var unit, half := Power(exponent), mantissa / 2;
    assert Power(exponent + 1) == 2 * unit;
    assert half * (2 * unit) == (2 * half) * unit <= mantissa * unit by { Monotone(2 * half, mantissa, unit); }
    assert (mantissa + 1) * unit <= (2 * half + 2) * unit == (half + 1) * (2 * unit) by {
      Monotone(mantissa + 1, 2 * half + 2, unit);
    }
  }

  lemma Monotone(x: nat, y: nat, unit: nat)
    requires x <= y
    ensures x * unit <= y * unit
  {
  }

  lemma {:induction false} HalvedApproximates(mantissa: nat, exponent: nat, limit: nat)
    requires Between(mantissa, exponent, limit)
    requires exponent > 0 ==> 2 * mantissa > MAX_MANTISSA
    ensures Approximates(Halved(mantissa, exponent), limit)
    ensures Halved(mantissa, exponent).exponent >= exponent
    decreases mantissa
  {
    if mantissa > MAX_MANTISSA {
      HalvingStaysBetween(mantissa, exponent, limit);
      HalvedApproximates(mantissa / 2, exponent + 1, limit);
    } else {
      assert (mantissa + 1) * Power(exponent) == mantissa * Power(exponent) + Power(exponent);
    }
  }

  lemma {:induction false} PowerGrows(small: nat, large: nat)
    requires small <= large
    ensures Power(small) <= Power(large)
  {
    if small < large {
      PowerGrows(small, large - 1);
    }
  }

  lemma SmallPowers()
    ensures Power(15) == 0x8000
  {
    assert Power(4) == 16;
    assert Power(8) == 256;
    assert Power(12) == 4096;
  }

  lemma LargeExponentMeansLarge(scaled: Scaled, limit: nat)
    requires Approximates(scaled, limit) && scaled.exponent > 14
    ensures limit >= 0x1_0000_0000
  {
    hide Power;
    PowerGrows(15, scaled.exponent);
    SmallPowers();
    Monotone(0x2_0000, scaled.mantissa, Power(scaled.exponent));
  }

  /**
   * For every 32-bit limit: 18 bits of mantissa, an exponent of at most 14, a value less than one unit below the limit,
   * and an error below the limit's 2^17th part.
   */
  lemma ScaleIsClose(limit: u32)
    ensures var scaled := Scale(limit);
            && Approximates(scaled, limit) && scaled.exponent <= 14
            && (scaled.exponent == 0 ==> Value(scaled) == limit)
            && (limit - Value(scaled)) * 0x2_0000 <= limit
  {
    assert Between(limit, 0, limit);
    HalvedApproximates(limit, 0, limit);
    var scaled := Scale(limit);
    hide Halved, Power;
    if scaled.exponent > 14 {
      LargeExponentMeansLarge(scaled, limit);
    }
    if scaled.exponent > 0 {
      Monotone(0x2_0000, scaled.mantissa, Power(scaled.exponent));
    } else {
      assert Power(0) == 1 by { PowerOfNone(); }
    }
  }

  lemma PowerOfNone()
    ensures Power(0) == 1
  {
  }

  // --- on the wire -------------------------------------------------------------------------------

  function ScaledBytes(scaled: Scaled): Bytes
    requires scaled.mantissa <= MAX_MANTISSA && scaled.exponent < 64
  {
    [scaled.exponent * 4 + scaled.mantissa / 0x1_0000] + U16(scaled.mantissa % 0x1_0000)
  }

  function RembBytes(limit: u32, ssrc: u32): (payload: Bytes)
    ensures |payload| == 12
  {
    ScaleIsClose(limit);
    U32(REMB_IDENTIFIER) + ([1] + (ScaledBytes(Scale(limit)) + U32(ssrc)))
  }

  /** The feedback packet `send_remb` sends. */
  function RembFeedback(limit: u32, ssrc: u32): PayloadFeedback {
    PayloadFeedback(0, ssrc, ApplicationSpecific(RembBytes(limit, ssrc)))
  }

  datatype Announcement = Announcement(scaled: Scaled, ssrcs: seq<u32>)

  /** Sections 2.1 and 2.2 of the draft, for one media source. */
  function DecodeRemb(payload: Bytes): Option<Announcement> {
    var identifier := ReadU32(payload, 0);
    var count := ReadU8(payload, 4);
    var high := ReadU8(payload, 5);
    var low := ReadU16(payload, 6);
    var ssrc := ReadU32(payload, 8);
    if identifier.Err? || identifier.value.0 != REMB_IDENTIFIER || count.Err? || count.value.0 != 1
       || high.Err? || low.Err? || ssrc.Err? then None
    else
      Some(Announcement(Scaled(high.value.0 % 4 * 0x1_0000 + low.value.0, high.value.0 / 4), [ssrc.value.0]))
  }

  lemma RembBytesDecode(limit: u32, ssrc: u32)
    ensures DecodeRemb(RembBytes(limit, ssrc)) == Some(Announcement(Scale(limit), [ssrc]))
  {
    hide U32, U16, ReadU32, ReadU16, Scale, ScaledBytes;
    var payload, scaled := RembBytes(limit, ssrc), Scale(limit);
    ScaleIsClose(limit);
    var head: u8 := scaled.exponent * 4 + scaled.mantissa / 0x1_0000;
    assert ScaledBytes(scaled) == [head] + U16(scaled.mantissa % 0x1_0000) by { ScaledBytesAre(scaled, head); }
    HoldsWhole(payload);
    HoldsBoth(payload, 0, U32(REMB_IDENTIFIER), [1] + (ScaledBytes(scaled) + U32(ssrc)));
    HoldsBoth(payload, 4, [1], ScaledBytes(scaled) + U32(ssrc));
    HoldsBoth(payload, 5, ScaledBytes(scaled), U32(ssrc));
    HoldsBoth(payload, 5, [head], U16(scaled.mantissa % 0x1_0000));
    ReadsU32(payload, 0, REMB_IDENTIFIER);
    ReadsU8(payload, 4, 1);
    ReadsU8(payload, 5, head);
    ReadsU16(payload, 6, scaled.mantissa % 0x1_0000);
    ReadsU32(payload, 8, ssrc);
  }

  lemma ScaledBytesAre(scaled: Scaled, head: u8)
    requires scaled.mantissa <= MAX_MANTISSA && scaled.exponent < 64
    requires head == scaled.exponent * 4 + scaled.mantissa / 0x1_0000
    ensures ScaledBytes(scaled) == [head] + U16(scaled.mantissa % 0x1_0000)
  {
  }

  /** What is told of a limit, as a packet: it parses, and decodes to the mantissa and exponent it was made of. */
  lemma RembReadsBack(limit: u32, ssrc: u32)
    ensures var feedback := RembFeedback(limit, ssrc);
            && PayloadWithinLimits(feedback)
            && ParsePacket(PayloadFeedbackBytes(feedback)) == Ok(Payload(feedback))
            && DecodeRemb(feedback.feedback.payload) == Some(Announcement(Scale(limit), [ssrc]))
            && Approximates(Scale(limit), limit)
  {
    hide RembBytes, ParsePacket, PayloadFeedbackBytes, DecodeRemb;
    RembBytesDecode(limit, ssrc);
    ScaleIsClose(limit);
    PacketReadsBack(Payload(RembFeedback(limit, ssrc)));
  }
}
