/** What the retransmission cache keeps over every run (src/transport/packet_history.rs). */
module PacketHistoryRuns {
  import opened Prelude
  import opened SerialNumbers
  import opened PacketHistory

  datatype Sent = Sent(sequence: u16, buffer: seq<u8>)

  /** A packet, by its place among those sent, and when it went out. */
  datatype Transmission = Transmission(index: nat, time: u32)

  /** The cache, the time of its last call, everything ever sent and every time it went out. */
  datatype World = World(packets: seq<Packet>, time: u32, sent: seq<Sent>, transmissions: seq<Transmission>) {
    /** How many of the sent packets are not saved any more. */
    function Dropped(): int { |sent| - |packets| }
  }

  datatype Call =
    | Enqueues(sequence: u16, buffer: seq<u8>, now: u32, later: u32)
    | Resends(sequence: u16, now: u32)
    | CleansUp(now: u32)

  /** The clock does not go back, and has not wrapped. */
  predicate Allowed(w: World, call: Call) {
    w.time <= call.now && MAX_PACKET_AGE <= call.now && (call.Enqueues? ==> call.now <= call.later)
  }

  function Next(w: World, call: Call): World {
    match call
    case Enqueues(sequence, buffer, now, later) =>
      World(Enqueue(w.packets, sequence, buffer, now, later), later, w.sent + [Sent(sequence, buffer)],
            w.transmissions + [Transmission(|w.sent|, now)])
    case Resends(sequence, now) =>
      var (answer, packets) := Resend(w.packets, sequence, now);
      var index := w.Dropped() + FirstOf(w.packets, sequence);
      World(packets, now, w.sent,
            if answer.Some? && index >= 0 then w.transmissions + [Transmission(index, now)] else w.transmissions)
    case CleansUp(now) => w.(packets := Cleanup(w.packets, now), time := now)
  }

  /** The world after a run, if every call of it was allowed when made. */
  function After(calls: seq<Call>): Option<World> {
    if calls == [] then Some(World([], 0, [], []))
    else
      var before, call := After(calls[..|calls| - 1]), calls[|calls| - 1];
      if before.Some? && Allowed(before.value, call) then Some(Next(before.value, call)) else None
  }

  // --- the invariant -----------------------------------------------------------------------------

  /** The cache holds the last packets sent, each with its number and bytes. */
  ghost predicate Suffix(w: World) {
    && |w.packets| <= |w.sent|
    && forall p :: 0 <= p < |w.packets| ==>
         w.sent[w.Dropped() + p] == Sent(w.packets[p].sequence, w.packets[p].buffer) && w.packets[p].lastSend <= w.time
  }

  ghost predicate Limited(w: World) {
    Bytes(w.packets) <= MAX_SAVED_BYTES && |w.packets| <= MAX_SAVED_PACKETS
  }

  /** Any two times one packet went out are more than the minimum interval apart. */
  ghost predicate Spaced(transmissions: seq<Transmission>) {
    forall i, j :: 0 <= i < j < |transmissions| && transmissions[i].index == transmissions[j].index ==>
      transmissions[i].time + MIN_RESEND_INTERVAL < transmissions[j].time
  }

  /** No packet that is still saved went out after its time stamp. */
  ghost predicate Stamped(w: World) {
    forall t :: 0 <= t < |w.transmissions| ==>
      && w.transmissions[t].index < |w.sent|
      && (w.Dropped() <= w.transmissions[t].index && |w.packets| <= |w.sent| ==>
            w.transmissions[t].time <= w.packets[w.transmissions[t].index - w.Dropped()].lastSend)
  }

  ghost predicate WentOut(transmissions: seq<Transmission>, index: int, time: u32) {
    exists t :: 0 <= t < |transmissions| && transmissions[t].index == index && transmissions[t].time == time
  }

  /** Every packet that is still saved went out at its time stamp. */
  ghost predicate StampsAreTimes(w: World) {
    forall p :: 0 <= p < |w.packets| ==> WentOut(w.transmissions, w.Dropped() + p, w.packets[p].lastSend)
  }

  ghost predicate Invariant(w: World) {
    Suffix(w) && Limited(w) && Spaced(w.transmissions) && Stamped(w) && StampsAreTimes(w)
  }

  lemma WentOutStays(transmissions: seq<Transmission>, index: int, time: u32, more: Transmission)
    ensures WentOut(transmissions, index, time) ==> WentOut(transmissions + [more], index, time)
    ensures WentOut(transmissions + [more], more.index, more.time)
  {
    assert forall t :: 0 <= t < |transmissions| ==> (transmissions + [more])[t] == transmissions[t];
    assert (transmissions + [more])[|transmissions|] == more;
  }

  lemma CleanupKeeps(w: World, now: u32)
    requires Suffix(w) && Spaced(w.transmissions) && Stamped(w) && StampsAreTimes(w) && w.time <= now
    ensures Invariant(w.(packets := Cleanup(w.packets, now), time := now))
  {
    hide Cleanup, Bytes, WentOut;
    var dropped, _, _ := CleanupKeepsLimits(w.packets, now);
    var w' := w.(packets := Cleanup(w.packets, now), time := now);
    assert w'.Dropped() == w.Dropped() + dropped;
    assert forall p :: 0 <= p < |w'.packets| ==> w'.packets[p] == w.packets[dropped + p];
  }

  /** A packet is enqueued and goes out for the first time. */
  lemma PushKeeps(w: World, sequence: u16, buffer: seq<u8>, now: u32)
    requires Suffix(w) && Spaced(w.transmissions) && Stamped(w) && StampsAreTimes(w) && w.time <= now
    ensures var w' := World(w.packets + [Packet(sequence, now, now, buffer)], now, w.sent + [Sent(sequence, buffer)],
                            w.transmissions + [Transmission(|w.sent|, now)]);
            Suffix(w') && Spaced(w'.transmissions) && Stamped(w') && StampsAreTimes(w')
  {
    hide WentOut;
    assert StampsAreTimes(World(w.packets + [Packet(sequence, now, now, buffer)], now, w.sent + [Sent(sequence, buffer)],
                                w.transmissions + [Transmission(|w.sent|, now)])) by {
      PushStampsAreTimes(w, sequence, buffer, now);
    }
  }

  lemma PushStampsAreTimes(w: World, sequence: u16, buffer: seq<u8>, now: u32)
    requires StampsAreTimes(w)
    ensures StampsAreTimes(World(w.packets + [Packet(sequence, now, now, buffer)], now, w.sent + [Sent(sequence, buffer)],
                                 w.transmissions + [Transmission(|w.sent|, now)]))
  {
    hide WentOut;
    forall index, time {
      WentOutStays(w.transmissions, index, time, Transmission(|w.sent|, now));
    }
  }

  lemma ResendKeeps(w: World, sequence: u16, now: u32)
    requires Invariant(w) && w.time <= now
    ensures Invariant(Next(w, Resends(sequence, now)))
  {
    hide Bytes, FirstOf, Spaced, Stamped, StampsAreTimes;
    var position := FirstOf(w.packets, sequence);
    if MayResend(w.packets, position, now) {
      BytesOfUpdate(w.packets, position, now);
      ResentStaysSpaced(w, position, now);
      ResentStaysStamped(w, position, now);
      ResentStampsAreTimes(w, position, now);
    } else {
      StampedLater(w, now);
    }
  }

  lemma StampedLater(w: World, now: u32)
    requires Stamped(w) && StampsAreTimes(w)
    ensures Stamped(w.(time := now)) && StampsAreTimes(w.(time := now))
  {
    hide WentOut;
  }

  lemma ResentStaysSpaced(w: World, position: nat, now: u32)
    requires Suffix(w) && Spaced(w.transmissions) && Stamped(w) && MayResend(w.packets, position, now)
    ensures Spaced(w.transmissions + [Transmission(w.Dropped() + position, now)])
  {
  }

  lemma ResentStaysStamped(w: World, position: nat, now: u32)
    requires Suffix(w) && Stamped(w) && MayResend(w.packets, position, now)
    ensures Stamped(World(w.packets[position := w.packets[position].(lastSend := now)], now, w.sent,
                          w.transmissions + [Transmission(w.Dropped() + position, now)]))
  {
  }

  lemma ResentStampsAreTimes(w: World, position: nat, now: u32)
    requires Suffix(w) && StampsAreTimes(w) && MayResend(w.packets, position, now)
    ensures StampsAreTimes(World(w.packets[position := w.packets[position].(lastSend := now)], now, w.sent,
                                 w.transmissions + [Transmission(w.Dropped() + position, now)]))
  {
    hide WentOut;
    forall index, time {
      WentOutStays(w.transmissions, index, time, Transmission(w.Dropped() + position, now));
    }
  }

  lemma {:induction false} RunKeepsInvariant(calls: seq<Call>)
    requires After(calls).Some?
    ensures Invariant(After(calls).value)
  {
    if calls != [] {
      RunKeepsInvariant(calls[..|calls| - 1]);
      var w, call := After(calls[..|calls| - 1]).value, calls[|calls| - 1];
      hide Invariant, Resend, Cleanup, After;
      match call
      case Enqueues(sequence, buffer, now, later) =>
        EnqueueKeeps(w, sequence, buffer, now, later);
      case Resends(sequence, now) => ResendKeeps(w, sequence, now);
      case CleansUp(now) =>
        InvariantParts(w);
        CleanupKeeps(w, now);
      assert After(calls).value == Next(w, call) by { LastCall(calls); }
    } else {
      assert Bytes([]) == 0;
    }
  }

  lemma LastCall(calls: seq<Call>)
    requires calls != [] && After(calls).Some?
    ensures After(calls) == Some(Next(After(calls[..|calls| - 1]).value, calls[|calls| - 1]))
  {
  }

  lemma InvariantParts(w: World)
    requires Invariant(w)
    ensures Suffix(w) && Spaced(w.transmissions) && Stamped(w) && StampsAreTimes(w)
  {
  }

  lemma EnqueueKeeps(w: World, sequence: u16, buffer: seq<u8>, now: u32, later: u32)
    requires Invariant(w) && Allowed(w, Enqueues(sequence, buffer, now, later))
    ensures Invariant(Next(w, Enqueues(sequence, buffer, now, later)))
  {
    hide Cleanup, Bytes, Suffix, Spaced, Stamped, StampsAreTimes;
    PushKeeps(w, sequence, buffer, now);
    CleanupKeeps(World(w.packets + [Packet(sequence, now, now, buffer)], now, w.sent + [Sent(sequence, buffer)],
                       w.transmissions + [Transmission(|w.sent|, now)]), later);
  }

  // --- main results ------------------------------------------------------------------------------

  /** After every run the cache is a suffix of what was sent and within both limits. */
  lemma CacheIsBoundedSuffix(calls: seq<Call>)
    requires After(calls).Some?
    ensures var w := After(calls).value;
            && Bytes(w.packets) <= MAX_SAVED_BYTES && |w.packets| <= MAX_SAVED_PACKETS && |w.packets| <= |w.sent|
            && forall p :: 0 <= p < |w.packets| ==>
                 Sent(w.packets[p].sequence, w.packets[p].buffer) == w.sent[|w.sent| - |w.packets| + p]
  {
    hide After, Bytes, Spaced, Stamped, StampsAreTimes;
    RunKeepsInvariant(calls);
  }

  /** One packet never goes out twice within the minimum interval: neither two resends nor its first send and a resend. */
  lemma TransmissionsAreSpaced(calls: seq<Call>)
    requires After(calls).Some?
    ensures Spaced(After(calls).value.transmissions)
  {
    hide After, Spaced, Suffix, Limited, Stamped, StampsAreTimes;
    RunKeepsInvariant(calls);
  }

  /** A packet survives its own enqueueing exactly when it fits by itself and the clean-up is not a packet age later. */
  lemma OwnEnqueueSurvivesExactlyWhenItFits(calls: seq<Call>, sequence: u16, buffer: seq<u8>, now: u32, later: u32)
    requires After(calls).Some? && Allowed(After(calls).value, Enqueues(sequence, buffer, now, later))
    ensures var kept := Enqueue(After(calls).value.packets, sequence, buffer, now, later);
            && (kept != [] <==> |buffer| <= MAX_SAVED_BYTES && later < now + MAX_PACKET_AGE)
            && (kept != [] ==> kept[|kept| - 1] == Packet(sequence, now, now, buffer))
  {
    hide After, Cleanup, Bytes, Spaced, Stamped, StampsAreTimes;
    RunKeepsInvariant(calls);
    var packets := After(calls).value.packets + [Packet(sequence, now, now, buffer)];
    var dropped, stale, bulky := CleanupKeepsLimits(packets, later);
    var last := |packets| - 1;
    assert packets[last..] == [Packet(sequence, now, now, buffer)];
    BytesOfOne(packets[last]);
    if dropped < |packets| {
      BytesOfSuffix(packets[dropped..], last - dropped);
      assert packets[dropped..][last - dropped..] == packets[last..];
      assert packets[stale].lastSend <= now;
    }
  }

  lemma BytesOfOne(packet: Packet)
    ensures Bytes([packet]) == |packet.buffer|
  {
    assert Bytes([packet][1..]) == 0;
  }

  /** `index` is the oldest packet that is still saved of those sent under `sequence`. */
  ghost predicate OldestSaved(w: World, sequence: u16, index: nat) {
    && w.Dropped() <= index < |w.sent| && w.sent[index].sequence == sequence
    && forall k :: 0 <= k < index && w.sent[k].sequence == sequence ==> k < w.Dropped()
  }

  /** Every time this packet went out is more than the minimum interval ago. */
  ghost predicate Rested(transmissions: seq<Transmission>, index: nat, now: u32) {
    forall t :: 0 <= t < |transmissions| && transmissions[t].index == index ==>
      transmissions[t].time + MIN_RESEND_INTERVAL < now
  }

  ghost predicate Answers(w: World, sequence: u16, now: u32, index: nat) {
    OldestSaved(w, sequence, index) && Rested(w.transmissions, index, now)
  }

  /**
   * The cache answers a number exactly when a packet sent under it is still saved and the oldest such has rested since
   * every time it went out; the answer is that packet.
   */
  lemma AnswersExactlyWhenRested(calls: seq<Call>, sequence: u16, now: u32)
    requires After(calls).Some?
    ensures var w, answer := After(calls).value, Resend(After(calls).value.packets, sequence, now).0;
            && (answer.Some? <==> exists index: nat :: Answers(w, sequence, now, index))
            && (forall index: nat :: Answers(w, sequence, now, index) ==> answer == Some(w.sent[index].buffer))
  {
    hide After, Bytes, FirstOf, OldestSaved, Rested;
    RunKeepsInvariant(calls);
    var w := After(calls).value;
    var position := FirstOf(w.packets, sequence);
    forall index: nat {
      OldestSavedIsFirst(w, sequence, index);
    }
    if position < |w.packets| {
      RestedExactlyWhenStampIsOld(w, position, now);
      assert Answers(w, sequence, now, w.Dropped() + position) <==> MayResend(w.packets, position, now);
    }
  }

  lemma OldestSavedIsFirst(w: World, sequence: u16, index: nat)
    requires Suffix(w)
    ensures var position := FirstOf(w.packets, sequence);
            OldestSaved(w, sequence, index) <==> position < |w.packets| && index == w.Dropped() + position
    ensures FirstOf(w.packets, sequence) < |w.packets| ==>
              w.sent[w.Dropped() + FirstOf(w.packets, sequence)]
              == Sent(sequence, w.packets[FirstOf(w.packets, sequence)].buffer)
  {
    hide FirstOf;
    var position, dropped := FirstOf(w.packets, sequence), w.Dropped();
    if position < |w.packets| {
      assert w.sent[dropped + position].sequence == sequence;
      forall k | dropped <= k < dropped + position ensures w.sent[k].sequence != sequence {
        assert w.sent[k].sequence == w.packets[k - dropped].sequence;
      }
    }
    if OldestSaved(w, sequence, index) {
      assert w.packets[index - dropped].sequence == sequence;
    }
  }

  lemma RestedExactlyWhenStampIsOld(w: World, position: nat, now: u32)
    requires Suffix(w) && Stamped(w) && StampsAreTimes(w) && position < |w.packets|
    ensures Rested(w.transmissions, w.Dropped() + position, now)
       <==> w.packets[position].lastSend + MIN_RESEND_INTERVAL < now
  {
    hide StampsAreTimes;
    assert WentOut(w.transmissions, w.Dropped() + position, w.packets[position].lastSend) by {
      StampIsTime(w, position);
    }
  }

  lemma StampIsTime(w: World, position: nat)
    requires StampsAreTimes(w) && position < |w.packets|
    ensures WentOut(w.transmissions, w.Dropped() + position, w.packets[position].lastSend)
  {
  }

  /** `index` is the last packet sent under its number. */
  ghost predicate IsLatest(sent: seq<Sent>, index: nat) {
    index < |sent| && forall k :: index < k < |sent| ==> sent[k].sequence != sent[index].sequence
  }

  /**
   * A number's answer is the oldest packet saved under it, which is the last one sent under it exactly when no two saved
   * packets have that number.
   */
  lemma AnswerIsLatestExactlyWhenUnique(calls: seq<Call>, sequence: u16, now: u32)
    requires After(calls).Some? && Resend(After(calls).value.packets, sequence, now).0.Some?
    ensures var w := After(calls).value;
            var position := FirstOf(w.packets, sequence);
            && 0 <= w.Dropped() + position < |w.sent|
            && Resend(w.packets, sequence, now).0 == Some(w.sent[w.Dropped() + position].buffer)
            && w.sent[w.Dropped() + position].sequence == sequence
            && (IsLatest(w.sent, w.Dropped() + position) <==>
                  forall p :: 0 <= p < |w.packets| && w.packets[p].sequence == sequence ==> p == position)
  {
    hide After, Bytes, FirstOf, Spaced, Stamped, StampsAreTimes;
    RunKeepsInvariant(calls);
    UniqueIsLatest(After(calls).value, FirstOf(After(calls).value.packets, sequence));
  }

  lemma UniqueIsLatest(w: World, position: nat)
    requires Suffix(w) && position < |w.packets|
    requires forall p :: 0 <= p < position ==> w.packets[p].sequence != w.packets[position].sequence
    ensures 0 <= w.Dropped()
    ensures IsLatest(w.sent, w.Dropped() + position) <==>
              forall p :: 0 <= p < |w.packets| && w.packets[p].sequence == w.packets[position].sequence ==> p == position
  {
    var dropped := w.Dropped();
    assert forall k :: dropped + position < k < |w.sent| ==> w.sent[k].sequence == w.packets[k - dropped].sequence;
    assert forall p :: position < p < |w.packets| ==> w.sent[dropped + p].sequence == w.packets[p].sequence;
  }

  /**
   * The packets carry the values of a counter that only grows, modulo 2^16. Numbers are skipped when a packet cannot be
   * protected.
   */
  ghost predicate Counted(sent: seq<Sent>, counter: seq<nat>) {
    && |counter| == |sent|
    && (forall k :: 0 <= k < |sent| ==> sent[k].sequence == counter[k] % NUMBERS)
    && (forall j, k :: 0 <= j < k < |sent| ==> counter[j] < counter[k])
  }

  lemma NearNumbersDiffer(counter: seq<nat>, first: nat, j: nat, k: nat)
    requires first <= j < |counter| && first <= k < |counter|
    requires forall i, i' :: 0 <= i < i' < |counter| ==> counter[i] < counter[i']
    requires counter[|counter| - 1] - counter[first] < NUMBERS
    requires counter[j] % NUMBERS == counter[k] % NUMBERS
    ensures j == k
  {
    var last := |counter| - 1;
    assert counter[first] <= counter[j] <= counter[last] && counter[first] <= counter[k] <= counter[last];
    assert counter[j] / NUMBERS - counter[k] / NUMBERS == 0;
    assert counter[j] == counter[k];
  }

  /**
   * With counted packets, and less than 2^16 between the oldest saved one and the newest, what is saved first under a
   * number was sent last under it.
   */
  lemma SavedIsLatest(calls: seq<Call>, counter: seq<nat>, sequence: u16)
    requires After(calls).Some? && Counted(After(calls).value.sent, counter)
    requires var w := After(calls).value;
             && (0 <= w.Dropped() < |w.sent| ==> counter[|w.sent| - 1] - counter[w.Dropped()] < NUMBERS)
             && FirstOf(w.packets, sequence) < |w.packets|
    ensures var w := After(calls).value;
            var position := FirstOf(w.packets, sequence);
            && 0 <= w.Dropped() && IsLatest(w.sent, w.Dropped() + position)
            && w.sent[w.Dropped() + position] == Sent(sequence, w.packets[position].buffer)
  {
    hide After, FirstOf, Bytes, Spaced, Stamped, StampsAreTimes;
    RunKeepsInvariant(calls);
    var w := After(calls).value;
    var position := FirstOf(w.packets, sequence);
    forall p | 0 <= p < |w.packets| && w.packets[p].sequence == sequence ensures p == position {
      NearNumbersDiffer(counter, w.Dropped(), w.Dropped() + p, w.Dropped() + position);
    }
    UniqueIsLatest(w, position);
  }

  predicate Consecutive(sent: seq<Sent>, start: nat) {
    forall k :: 0 <= k < |sent| ==> sent[k].sequence == (start + k) % NUMBERS
  }

  /** Consecutive numbers satisfy this by the cache's own limit. */
  lemma ConsecutiveSavedIsLatest(calls: seq<Call>, start: nat, sequence: u16)
    requires After(calls).Some? && Consecutive(After(calls).value.sent, start)
    requires FirstOf(After(calls).value.packets, sequence) < |After(calls).value.packets|
    ensures var w := After(calls).value;
            var position := FirstOf(w.packets, sequence);
            && 0 <= w.Dropped() && IsLatest(w.sent, w.Dropped() + position)
            && w.sent[w.Dropped() + position] == Sent(sequence, w.packets[position].buffer)
  {
    hide After, FirstOf, Bytes, Spaced, Stamped, StampsAreTimes;
    RunKeepsInvariant(calls);
    var w := After(calls).value;
    SavedIsLatest(calls, seq<nat>(|w.sent|, k => start + k), sequence);
  }

  /** What the cache answers in such a run is what was last sent under the number. */
  lemma AnswerIsLatestSent(calls: seq<Call>, counter: seq<nat>, sequence: u16, now: u32)
    requires After(calls).Some? && Counted(After(calls).value.sent, counter)
    requires var w := After(calls).value;
             && (0 <= w.Dropped() < |w.sent| ==> counter[|w.sent| - 1] - counter[w.Dropped()] < NUMBERS)
             && Resend(w.packets, sequence, now).0.Some?
    ensures var w := After(calls).value;
            exists index: nat :: IsLatest(w.sent, index)
                                 && w.sent[index] == Sent(sequence, Resend(w.packets, sequence, now).0.value)
  {
    hide After, FirstOf;
    SavedIsLatest(calls, counter, sequence);
  }
}
