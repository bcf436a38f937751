/**
 * The retransmission cache: sent packets bounded in bytes, age and number, and answered at a limited rate
 * (src/transport/packet_history.rs).
 */
module PacketHistory {
  import opened Prelude
  import opened SerialNumbers

  const MAX_SAVED_PACKETS := 1000
  const MAX_PACKET_AGE := 10_000
  const MAX_SAVED_BYTES := 1_000_000
  const MIN_RESEND_INTERVAL := 50

  datatype Packet = Packet(sequence: u16, firstSend: u32, lastSend: u32, buffer: seq<u8>)

  function Bytes(packets: seq<Packet>): nat {
    if packets == [] then 0 else |packets[0].buffer| + Bytes(packets[1..])
  }

  /** The oldest go until the rest fits. */
  function WithinBytes(packets: seq<Packet>): seq<Packet> {
    if Bytes(packets) > MAX_SAVED_BYTES then WithinBytes(packets[1..]) else packets
  }

  /** The oldest go while they were last sent by `limit`. */
  function SentAfter(packets: seq<Packet>, limit: int): seq<Packet> {
    if packets != [] && packets[0].lastSend <= limit then SentAfter(packets[1..], limit) else packets
  }

  function Newest(packets: seq<Packet>): seq<Packet> {
    if |packets| > MAX_SAVED_PACKETS then Newest(packets[1..]) else packets
  }

  function Cleanup(packets: seq<Packet>, now: u32): seq<Packet> {
    Newest(SentAfter(WithinBytes(packets), now - MAX_PACKET_AGE))
  }

  function Enqueue(packets: seq<Packet>, sequence: u16, buffer: seq<u8>, now: u32, later: u32): seq<Packet> {
    Cleanup(packets + [Packet(sequence, now, now, buffer)], later)
  }

  /** The first packet with this number; `|packets|` if there is none. */
  function FirstOf(packets: seq<Packet>, sequence: u16): (found: nat)
    ensures found <= |packets|
    ensures found < |packets| ==> packets[found].sequence == sequence
    ensures forall j :: 0 <= j < found ==> packets[j].sequence != sequence
  {
    if packets == [] || packets[0].sequence == sequence then 0 else 1 + FirstOf(packets[1..], sequence)
  }

  predicate MayResend(packets: seq<Packet>, position: nat, now: u32) {
    position < |packets| && packets[position].lastSend + MIN_RESEND_INTERVAL < now
  }

  function Resend(packets: seq<Packet>, sequence: u16, now: u32): (Option<seq<u8>>, seq<Packet>) {
    var position := FirstOf(packets, sequence);
    if MayResend(packets, position, now) then
      (Some(packets[position].buffer), packets[position := packets[position].(lastSend := now)])
    else (None, packets)
  }

  // --- the cache as it is changed in place -------------------------------------------------------

  class RtpPacketHistory {
    var currentByteCount: nat
    var packets: seq<Packet>

    ghost predicate Valid()
      reads this
    {
      currentByteCount == Bytes(packets)
    }

    constructor ()
      ensures Valid() && packets == []
    {
      currentByteCount, packets := 0, [];
    }

    /** The clock is read once for the packet and once, not earlier, for the clean-up. */
    method EnqueueSendPacket(sequence: u16, buffer: seq<u8>, now: u32, later: u32)
      requires Valid() && MAX_PACKET_AGE <= now <= later
      modifies this
      ensures Valid() && packets == Enqueue(old(packets), sequence, buffer, now, later)
    {
      BytesConcatenation(packets, [Packet(sequence, now, now, buffer)]);
      currentByteCount := currentByteCount + |buffer|;
      packets := packets + [Packet(sequence, now, now, buffer)];
      CleanUp(later);
    }

    method ResendPacket(sequence: u16, now: u32) returns (answer: Option<seq<u8>>)
      requires Valid()
      modifies `packets
      ensures Valid() && (answer, packets) == Resend(old(packets), sequence, now)
    {
      var position := 0;
      while position < |packets| && packets[position].sequence != sequence
        invariant position <= |packets|
        invariant position + FirstOf(packets[position..], sequence) == FirstOf(packets, sequence)
      {
        assert packets[position..][1..] == packets[position + 1..];
        position := position + 1;
      }
      answer := None;
      if position < |packets| && packets[position].lastSend + MIN_RESEND_INTERVAL < now {
        BytesOfUpdate(packets, position, now);
        packets := packets[position := packets[position].(lastSend := now)];
        answer := Some(packets[position].buffer);
      }
    }

    /** A byte count above zero always has a packet to drop for it. */
    method CleanUp(now: u32)
      requires Valid() && MAX_PACKET_AGE <= now
      modifies this
      ensures Valid() && packets == Cleanup(old(packets), now)
    {
      while currentByteCount > MAX_SAVED_BYTES
        invariant Valid() && WithinBytes(packets) == WithinBytes(old(packets))
        decreases |packets|
      {
        currentByteCount := currentByteCount - |packets[0].buffer|;
        packets := packets[1..];
      }
      var timeoutTime := now - MAX_PACKET_AGE;
      ghost var within := packets;
      while |packets| > 0 && packets[0].lastSend <= timeoutTime
        invariant Valid() && SentAfter(packets, timeoutTime) == SentAfter(within, timeoutTime)
        decreases |packets|
      {
        currentByteCount := currentByteCount - |packets[0].buffer|;
        packets := packets[1..];
      }
      ghost var recent := packets;
      while |packets| > MAX_SAVED_PACKETS
        invariant Valid() && Newest(packets) == Newest(recent)
        decreases |packets|
      {
        currentByteCount := currentByteCount - |packets[0].buffer|;
        packets := packets[1..];
      }
    }
  }

  lemma {:induction false} BytesConcatenation(x: seq<Packet>, y: seq<Packet>)
    ensures Bytes(x + y) == Bytes(x) + Bytes(y)
  {
    if x == [] {
      assert x + y == y;
    } else {
      assert (x + y)[1..] == x[1..] + y;
      BytesConcatenation(x[1..], y);
    }
  }

  lemma BytesOfUpdate(packets: seq<Packet>, position: nat, now: u32)
    requires position < |packets|
    ensures Bytes(packets[position := packets[position].(lastSend := now)]) == Bytes(packets)
  {
    var updated := packets[position].(lastSend := now);
    assert packets == packets[..position] + ([packets[position]] + packets[position + 1..]);
    assert packets[position := updated] == packets[..position] + ([updated] + packets[position + 1..]);
    BytesConcatenation(packets[..position], [packets[position]] + packets[position + 1..]);
    BytesConcatenation(packets[..position], [updated] + packets[position + 1..]);
  }

  // --- limits ------------------------------------------------------------------------------------

  /** `kept` is `packets` without its first `dropped`. */
  ghost predicate Keeps(kept: seq<Packet>, packets: seq<Packet>, dropped: nat) {
    dropped <= |packets| && kept == packets[dropped..]
  }

  lemma {:induction false} WithinBytesIsLongestFit(packets: seq<Packet>) returns (dropped: nat)
    ensures Keeps(WithinBytes(packets), packets, dropped) && Bytes(WithinBytes(packets)) <= MAX_SAVED_BYTES
    ensures forall longer :: 0 <= longer < dropped ==> Bytes(packets[longer..]) > MAX_SAVED_BYTES
  {
    if Bytes(packets) > MAX_SAVED_BYTES {
      var rest := WithinBytesIsLongestFit(packets[1..]);
      dropped := rest + 1;
      forall longer | 0 <= longer < dropped ensures Bytes(packets[longer..]) > MAX_SAVED_BYTES {
        assert longer > 0 ==> packets[longer..] == packets[1..][longer - 1..];
      }
    } else {
      dropped := 0;
    }
  }

  lemma {:induction false} SentAfterStopsAtRecent(packets: seq<Packet>, limit: int) returns (dropped: nat)
    ensures Keeps(SentAfter(packets, limit), packets, dropped)
    ensures SentAfter(packets, limit) != [] ==> SentAfter(packets, limit)[0].lastSend > limit
    ensures forall k :: 0 <= k < dropped ==> packets[k].lastSend <= limit
  {
    if packets != [] && packets[0].lastSend <= limit {
      var rest := SentAfterStopsAtRecent(packets[1..], limit);
      dropped := rest + 1;
    } else {
      dropped := 0;
    }
  }

  lemma {:induction false} NewestAreLast(packets: seq<Packet>) returns (dropped: nat)
    ensures Keeps(Newest(packets), packets, dropped)
    ensures dropped == if |packets| > MAX_SAVED_PACKETS then |packets| - MAX_SAVED_PACKETS else 0
  {
    if |packets| > MAX_SAVED_PACKETS {
      var rest := NewestAreLast(packets[1..]);
      dropped := rest + 1;
    } else {
      dropped := 0;
    }
  }

  lemma BytesOfSuffix(packets: seq<Packet>, from: nat)
    requires from <= |packets|
    ensures Bytes(packets[from..]) <= Bytes(packets)
  {
    assert packets == packets[..from] + packets[from..];
    BytesConcatenation(packets[..from], packets[from..]);
  }

  /** What a clean-up leaves: a suffix within both limits, and why each of the others had to go. */
  lemma CleanupKeepsLimits(packets: seq<Packet>, now: u32) returns (dropped: nat, stale: nat, bulky: nat)
    ensures var kept := Cleanup(packets, now);
            && Keeps(kept, packets, dropped) && bulky <= stale <= dropped
            && Bytes(kept) <= MAX_SAVED_BYTES && |kept| <= MAX_SAVED_PACKETS
            && (forall k :: 0 <= k < bulky ==> Bytes(packets[k..]) > MAX_SAVED_BYTES)
            && (forall k :: bulky <= k < stale ==> packets[k].lastSend <= now - MAX_PACKET_AGE)
            && (stale < dropped ==> |kept| == MAX_SAVED_PACKETS)
            && (stale < |packets| ==> packets[stale].lastSend > now - MAX_PACKET_AGE)
  {
    hide Bytes, WithinBytes, SentAfter, Newest;
    bulky := WithinBytesIsLongestFit(packets);
    var within := packets[bulky..];
    var aged := SentAfterStopsAtRecent(within, now - MAX_PACKET_AGE);
    var recent := within[aged..];
    var spare := NewestAreLast(recent);
    BytesOfSuffix(within, aged);
    BytesOfSuffix(recent, spare);
    stale, dropped := bulky + aged, bulky + aged + spare;
    assert recent == packets[stale..];
    assert recent[spare..] == packets[dropped..];
    forall k | bulky <= k < stale ensures packets[k].lastSend <= now - MAX_PACKET_AGE {
      assert packets[k] == within[k - bulky];
    }
  }
}
