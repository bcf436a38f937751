/**
 * The loss tracker as the source runs it: a ring of deadlines with a moving head, walked and changed in place
 * (src/utils/resend_requester.rs). Every method computes the function of the same name in `LossWindow`.
 */
module LossTracker {
  import opened Prelude
  import opened SerialNumbers
  import opened LossWindow

  /** `index % size` for an index that has passed the end of the ring at most once. */
  function Wrap(index: nat, size: nat): (wrapped: nat)
    requires index < 2 * size
    ensures wrapped < size
  {
    if index < size then index else index - size
  }

  lemma WrapIsModulo(index: nat, size: nat)
    requires index < 2 * size
    ensures Wrap(index, size) == index % size
  {
    if index >= size {
      assert index == 1 * size + (index - size);
    }
  }

  /** The walk is back at the head exactly when it has passed every slot. */
  lemma WrapNext(head: nat, offset: nat, size: nat)
    requires head < size && offset < size
    ensures Wrap(Wrap(head + offset, size) + 1, size) == Wrap(head + offset + 1, size)
    ensures Wrap(head + offset + 1, size) == head <==> offset + 1 == size
  {
  }

  /** A walk from `was` to `target` that has done the first `done` slots. */
  ghost function Walked(was: seq<u32>, target: seq<u32>, done: nat): (slots: seq<u32>)
    requires |was| == |target| && done <= |was|
    ensures |slots| == |was|
  {
    target[..done] + was[done..]
  }

  lemma WalkedStep(was: seq<u32>, target: seq<u32>, done: nat)
    requires |was| == |target| && done < |was|
    ensures Walked(was, target, done)[done] == was[done]
    ensures Walked(was, target, done + 1) == Walked(was, target, done)[done := target[done]]
    ensures was[done] == target[done] ==> Walked(was, target, done + 1) == Walked(was, target, done)
  {
  }

  lemma WalkBegins(was: seq<u32>, target: seq<u32>, head: nat)
    requires |was| == |target| && head < |was|
    ensures Walked(was, target, 0) == was && Wrap(head + 0, |was|) == head
  {
  }

  lemma WalkEnds(was: seq<u32>, target: seq<u32>, done: nat)
    requires |was| == |target| && done <= |was| && was[done..] == target[done..]
    ensures Walked(was, target, done) == target
  {
  }

  /** What the first `count` slots of a scan have given. */
  ghost predicate Scanned(base: u16, slots: seq<u32>, now: nat, count: nat, held: seq<u16>,
                          due: seq<u16>, lost: seq<u16>, earliest: u32)
    requires count <= |slots| <= NUMBERS
  {
    && due == NumbersTo(base, slots, Due(now), count)
    && lost == held + NumbersTo(base, slots, Expired(now), count)
    && earliest == EarliestTo(slots, now, count)
  }

  lemma ScannedStep(base: u16, slots: seq<u32>, now: nat, count: nat, held: seq<u16>,
                    due: seq<u16>, lost: seq<u16>, earliest: u32)
    requires count < |slots| <= NUMBERS && Scanned(base, slots, now, count, held, due, lost, earliest)
    ensures var slot, number := slots[count], At(base, count);
            Scanned(base, slots, now, count + 1, held,
                    due + (if Is(Due(now), slot) then [number] else []),
                    lost + (if Is(Expired(now), slot) then [number] else []),
                    if slot > now && slot < earliest then slot else earliest)
  {
    hide At;
    var number := if Is(Expired(now), slots[count]) then [At(base, count)] else [];
    assert held + (NumbersTo(base, slots, Expired(now), count) + number)
        == (held + NumbersTo(base, slots, Expired(now), count)) + number;
  }

  class ResendRequester {
    var lastPacketId: u16
    var lastPacketTimestamp: u32
    var pendingIndex: u16
    var pendingTimestampIndex: nat
    var pendingTimestamps: array<u32>
    var nackDelay: u32
    var resendRequestInterval: u32
    var events: seq<Event>
    var delivered: nat
    var resendDelay: Option<nat>
    var tempResendPackets: seq<u16>
    var tempLostPackets: seq<u16>
    /** The ring read from its head. */
    ghost var slots: seq<u32>

    ghost predicate ValidRing()
      reads `pendingTimestamps, `pendingTimestampIndex, `slots, pendingTimestamps
    {
      && 0 < |slots| == pendingTimestamps.Length && 2 * |slots| <= CLIPPING_WINDOW
      && pendingTimestampIndex < |slots|
      && forall k :: 0 <= k < |slots| ==> slots[k] == pendingTimestamps[Wrap(pendingTimestampIndex + k, |slots|)]
    }

    ghost predicate Valid()
      reads this, pendingTimestamps
    {
      ValidRing() && delivered <= |events| && tempResendPackets == []
    }

    /** The window this ring stands for. */
    ghost function Value(): Tracker
      reads this
    {
      Tracker(pendingIndex, slots, lastPacketId, lastPacketTimestamp, nackDelay, resendRequestInterval,
              resendDelay, tempLostPackets, events, delivered)
    }

    constructor (frameSize: Option<nat>)
      requires frameSize.Some? ==> 0 < frameSize.value && 2 * frameSize.value <= CLIPPING_WINDOW
      ensures Valid() && fresh(pendingTimestamps)
      ensures Value() == LossWindow.New(if frameSize.Some? then frameSize.value else 64)
    {
      lastPacketId, lastPacketTimestamp := 0, NO_PACKET_TIME;
      pendingIndex, pendingTimestampIndex := 0, 0;
      pendingTimestamps := new u32[if frameSize.Some? then frameSize.value else 64](_ => RECEIVED);
      nackDelay, resendRequestInterval := 5, 25;
      events, delivered, resendDelay := [], 0, None;
      tempResendPackets, tempLostPackets := [], [];
      slots := Cleared(if frameSize.Some? then frameSize.value else 64);
    }

    method SetNackDelay(delay: u32)
      requires Valid()
      modifies `nackDelay
      ensures Valid() && Value() == old(Value()).(nackDelay := delay)
    {
      nackDelay := delay;
    }

    method SetResendInterval(interval: u32)
      requires Valid()
      modifies `resendRequestInterval
      ensures Valid() && Value() == old(Value()).(resendInterval := interval)
    {
      resendRequestInterval := interval;
    }

    /** One write into the ring is one update of the window. */
    method SetSlot(index: nat, value: u32, ghost offset: nat)
      requires ValidRing() && offset < |slots| && index == Wrap(pendingTimestampIndex + offset, |slots|)
      modifies pendingTimestamps, `slots
      ensures ValidRing() && slots == old(slots)[offset := value]
    {
      pendingTimestamps[index] := value;
      slots := slots[offset := value];
    }

    /** Every place of the ring is in view. */
    lemma RingIsInView(index: nat)
      requires ValidRing() && index < |slots|
      ensures pendingTimestamps[index] in slots
    {
      var offset := if pendingTimestampIndex <= index then index - pendingTimestampIndex
                    else index + |slots| - pendingTimestampIndex;
      assert slots[offset] == pendingTimestamps[index];
    }

    method ReportLost()
      requires Valid()
      modifies `events, `tempLostPackets
      ensures Valid() && Value() == Report(old(Value()))
    {
      if tempLostPackets != [] {
        events := events + [PacketTimedOut(tempLostPackets)];
        tempLostPackets := [];
      }
    }

    method FlushPendingPackets(emitLost: bool)
      requires Valid()
      modifies `events, `tempLostPackets, `slots, pendingTimestamps
      ensures Valid() && Value() == Flush(old(Value()), emitLost)
    {
      FlushWalk();
      if emitLost {
        ReportLost();
      }
    }

    /** The ring walk of `FlushPendingPackets`. */
    method FlushWalk()
      requires ValidRing()
      modifies `tempLostPackets, `slots, pendingTimestamps
      ensures ValidRing() && slots == Cleared(|old(slots)|)
      ensures tempLostPackets == old(tempLostPackets) + Numbers(pendingIndex, old(slots), Pending)
    {
      hide Walked, Wrap;
      var index, packetIndex := pendingTimestampIndex, pendingIndex;
      ghost var offset := 0;
      WalkBegins(slots, Cleared(|slots|), pendingTimestampIndex);
      var walked := false;
      while !walked
        invariant ValidRing() && offset <= |slots| == |old(slots)| && (walked <==> offset == |slots|)
        invariant index == Wrap(pendingTimestampIndex + offset, |slots|)
        invariant walked || packetIndex == At(pendingIndex, offset)
        invariant slots == Walked(old(slots), Cleared(|slots|), offset)
        invariant tempLostPackets == old(tempLostPackets) + NumbersTo(pendingIndex, old(slots), Pending, offset)
        decreases |slots| - offset
        modifies `tempLostPackets, `slots, pendingTimestamps
      {
        WalkedStep(old(slots), Cleared(|slots|), offset);
        FlushSlot(index, packetIndex, offset);
        WrapNext(pendingTimestampIndex, offset, |slots|);
        index := Wrap(index + 1, pendingTimestamps.Length);
        offset := offset + 1;
        walked := index == pendingTimestampIndex;
        if !walked {
          packetIndex := At(packetIndex, 1);
        }
      }
      WalkEnds(old(slots), Cleared(|slots|), |slots|);
    }

    method FlushSlot(index: nat, packetIndex: u16, ghost offset: nat)
      requires ValidRing() && offset < |slots| && index == Wrap(pendingTimestampIndex + offset, |slots|)
      modifies `tempLostPackets, `slots, pendingTimestamps
      ensures ValidRing() && slots == old(slots)[offset := RECEIVED]
      ensures tempLostPackets == old(tempLostPackets) + if Is(Pending, old(slots)[offset]) then [packetIndex] else []
    {
      if pendingTimestamps[index] != RECEIVED {
        SetSlot(index, RECEIVED, offset);
        tempLostPackets := tempLostPackets + [packetIndex];
      }
    }

    method Restart(id: u16, marker: Event)
      requires Valid()
      modifies `events, `tempLostPackets, `pendingIndex, `pendingTimestampIndex, `slots, pendingTimestamps
      ensures Valid() && Value() == LossWindow.Restart(old(Value()), id, marker)
    {
      var hadSequence := exists i :: 0 <= i < pendingTimestamps.Length && pendingTimestamps[i] != RECEIVED;
      assert hadSequence == HasPending(slots) by {
        if hadSequence {
          var i :| 0 <= i < pendingTimestamps.Length && pendingTimestamps[i] != RECEIVED;
          RingIsInView(i);
        }
      }
      FlushPendingPackets(true);
      RingIsCleared();
      pendingIndex := WrappingSub(At(id, 1), pendingTimestamps.Length, NUMBERS);
      pendingTimestampIndex := 0;
      if hadSequence {
        events := events + [marker];
      }
    }

    lemma RingIsCleared()
      requires ValidRing() && slots == Cleared(|slots|)
      ensures forall i :: 0 <= i < pendingTimestamps.Length ==> pendingTimestamps[i] == RECEIVED
    {
      forall i | 0 <= i < pendingTimestamps.Length ensures pendingTimestamps[i] == RECEIVED {
        RingIsInView(i);
      }
    }

    method Shift(newPackets: nat, deadline: u32)
      requires Valid() && 0 < newPackets <= |slots|
      modifies `events, `tempLostPackets, `pendingIndex, `pendingTimestampIndex, `slots, pendingTimestamps
      ensures Valid() && Value() == LossWindow.Shift(old(Value()), newPackets, deadline)
    {
      hide Walked, Wrap;
      ghost var target := seq(newPackets, _ => deadline) + slots[newPackets..];
      WalkBegins(slots, target, pendingTimestampIndex);
      for index := 0 to newPackets
        invariant ValidRing() && |slots| == |target| && pendingTimestampIndex < |slots|
        invariant slots == Walked(old(slots), target, index)
        invariant tempLostPackets == old(tempLostPackets) + NumbersTo(pendingIndex, old(slots), Pending, index)
        modifies `tempLostPackets, `slots, pendingTimestamps
      {
        WalkedStep(old(slots), target, index);
        ReplaceSlot(index, deadline);
      }
      ReportLost();
      WalkEnds(old(slots), target, newPackets);
      RotateBy(newPackets);
    }

    method ReplaceSlot(index: nat, deadline: u32)
      requires ValidRing() && index < |slots|
      modifies `tempLostPackets, `slots, pendingTimestamps
      ensures ValidRing() && slots == old(slots)[index := deadline]
      ensures tempLostPackets
           == old(tempLostPackets) + if Is(Pending, old(slots)[index]) then [At(pendingIndex, index)] else []
    {
      var timestampIndex := Wrap(pendingTimestampIndex + index, pendingTimestamps.Length);
      var replaced := pendingTimestamps[timestampIndex];
      assert replaced == slots[index];
      SetSlot(timestampIndex, deadline, index);
      if replaced != RECEIVED {
        tempLostPackets := tempLostPackets + [At(pendingIndex, index)];
      }
    }

    /** Moving the head on moves the window on. */
    method RotateBy(newPackets: nat)
      requires ValidRing() && newPackets <= |slots|
      modifies `pendingIndex, `pendingTimestampIndex, `slots
      ensures ValidRing() && pendingIndex == At(old(pendingIndex), newPackets)
      ensures slots == old(slots)[newPackets..] + old(slots)[..newPackets]
    {
      pendingIndex := At(pendingIndex, newPackets);
      pendingTimestampIndex := Wrap(pendingTimestampIndex + newPackets, pendingTimestamps.Length);
      slots := slots[newPackets..] + slots[..newPackets];
    }

    method HandlePacketReceived(id: u16, clock: Clock) returns (result: Verdict)
      requires Valid() && clock.Valid(nackDelay)
      modifies this, pendingTimestamps
      ensures Valid() && pendingTimestamps == old(pendingTimestamps)
      ensures (result, Value()) == Handle(old(Value()), id, clock)
    {
      hide IsLess, Difference, Elapsed, Handle, LossWindow.Restart, LossWindow.Shift, LossWindow.Accept, Update;
      ghost var was := Value();
      HandleByDifference(was, id, clock);
      var silent := Elapsed(clock.arrival, lastPacketTimestamp) > SILENCE;
      if silent {
        Restart(id, SequenceTimedOut);
        RestartEndsAt(was, id);
      } else if IsLess(id, pendingIndex, Some(CLIPPING_WINDOW), NUMBERS) {
        return PacketTooOld;
      }

      var distance := Difference(pendingIndex, id, Some(CLIPPING_WINDOW), NUMBERS);
      if distance >= pendingTimestamps.Length * 2 {
        Restart(id, SequenceGapped);
        distance := pendingTimestamps.Length - 1;
      } else if distance >= pendingTimestamps.Length {
        var newPackets := distance - pendingTimestamps.Length + 1;
        Shift(newPackets, clock.shift + nackDelay);
        distance := pendingTimestamps.Length - 1;
      }
      MarkReceived(id, distance, clock.arrival);
      UpdatePacketResendRequests(clock.scan);
      result := Success;
    }

    method MarkReceived(id: u16, distance: nat, arrival: u32)
      requires Valid() && distance < pendingTimestamps.Length
      modifies `lastPacketId, `lastPacketTimestamp, `slots, pendingTimestamps
      ensures Valid() && Value() == LossWindow.Accept(old(Value()), id, distance, arrival)
    {
      var index := Wrap(pendingTimestampIndex + distance, pendingTimestamps.Length);
      SetSlot(index, RECEIVED, distance);
      lastPacketId := id;
      lastPacketTimestamp := arrival;
    }

    method UpdatePacketResendRequests(currentTime: nat)
      requires Valid() && currentTime < RECEIVED
      modifies `tempLostPackets, `tempResendPackets, `events, `resendDelay, `slots, pendingTimestamps
      ensures Valid() && Value() == Update(old(Value()), currentTime)
    {
      hide NumbersTo, EarliestTo, WithoutExpired;
      if resendDelay.Some? {
        return;
      }
      var nextMinimalExpectedTime := ScanWalk(currentTime);
      if tempLostPackets != [] {
        events := events + [PacketTimedOut(tempLostPackets)];
        tempLostPackets := [];
      }
      if tempResendPackets != [] {
        events := events + [ResendPackets(tempResendPackets)];
        tempResendPackets := [];
        resendDelay := Some(currentTime + resendRequestInterval);
      } else if nextMinimalExpectedTime != RECEIVED {
        EarliestIsMinimum(old(slots), currentTime, |old(slots)|);
        resendDelay := Some(currentTime + (nextMinimalExpectedTime - currentTime));
      }
    }

    /** The ring walk of `UpdatePacketResendRequests`. */
    method ScanWalk(currentTime: nat) returns (nextMinimalExpectedTime: u32)
      requires ValidRing() && tempResendPackets == [] && currentTime < RECEIVED
      modifies `tempLostPackets, `tempResendPackets, `slots, pendingTimestamps
      ensures ValidRing() && slots == WithoutExpired(old(slots), currentTime)
      ensures tempResendPackets == Numbers(pendingIndex, old(slots), Due(currentTime))
      ensures tempLostPackets == old(tempLostPackets) + Numbers(pendingIndex, old(slots), Expired(currentTime))
      ensures nextMinimalExpectedTime == Earliest(old(slots), currentTime)
    {
      hide Walked, Wrap;
      var index, packetIndex := pendingTimestampIndex, pendingIndex;
      nextMinimalExpectedTime := RECEIVED;
      ghost var target, offset := WithoutExpired(slots, currentTime), 0;
      WalkBegins(slots, target, pendingTimestampIndex);
      var walked := false;
      while !walked
        invariant ValidRing() && offset <= |slots| == |target| && (walked <==> offset == |slots|)
        invariant index == Wrap(pendingTimestampIndex + offset, |slots|)
        invariant walked || packetIndex == At(pendingIndex, offset)
        invariant slots == Walked(old(slots), target, offset)
        invariant Scanned(pendingIndex, old(slots), currentTime, offset, old(tempLostPackets),
                          tempResendPackets, tempLostPackets, nextMinimalExpectedTime)
        decreases |slots| - offset
        modifies `tempLostPackets, `tempResendPackets, `slots, pendingTimestamps
      {
        hide Scanned;
        WalkedStep(old(slots), target, offset);
        ScannedStep(pendingIndex, old(slots), currentTime, offset, old(tempLostPackets),
                    tempResendPackets, tempLostPackets, nextMinimalExpectedTime);
        nextMinimalExpectedTime := ScanSlot(index, packetIndex, currentTime, nextMinimalExpectedTime, offset);
        WrapNext(pendingTimestampIndex, offset, |slots|);
        index := Wrap(index + 1, pendingTimestamps.Length);
        offset := offset + 1;
        walked := index == pendingTimestampIndex;
        if !walked {
          packetIndex := At(packetIndex, 1);
        }
      }
      WalkEnds(old(slots), target, |slots|);
    }

    method ScanSlot(index: nat, packetIndex: u16, currentTime: nat, minimum: u32, ghost offset: nat)
      returns (newMinimum: u32)
      requires ValidRing() && offset < |slots| && index == Wrap(pendingTimestampIndex + offset, |slots|)
      requires currentTime < RECEIVED
      modifies `tempLostPackets, `tempResendPackets, `slots, pendingTimestamps
      ensures ValidRing()
      ensures slots == old(slots)[offset := if Is(Expired(currentTime), old(slots)[offset]) then RECEIVED
                                            else old(slots)[offset]]
      ensures tempResendPackets
           == old(tempResendPackets) + if Is(Due(currentTime), old(slots)[offset]) then [packetIndex] else []
      ensures tempLostPackets
           == old(tempLostPackets) + if Is(Expired(currentTime), old(slots)[offset]) then [packetIndex] else []
      ensures newMinimum
           == if old(slots)[offset] > currentTime && old(slots)[offset] < minimum then old(slots)[offset] else minimum
    {
      newMinimum := minimum;
      assert pendingTimestamps[index] == slots[offset];
      if pendingTimestamps[index] <= currentTime {
        var difference := currentTime - pendingTimestamps[index];
        if difference >= LIFETIME {
          tempLostPackets := tempLostPackets + [packetIndex];
          SetSlot(index, RECEIVED, offset);
        } else {
          tempResendPackets := tempResendPackets + [packetIndex];
        }
      } else {
        newMinimum := if minimum < pendingTimestamps[index] then minimum else pendingTimestamps[index];
      }
    }

    method PollNext(currentTime: nat) returns (event: Option<Event>)
      requires Valid() && currentTime < RECEIVED
      modifies this, pendingTimestamps
      ensures Valid() && pendingTimestamps == old(pendingTimestamps)
      ensures (event, Value()) == Poll(old(Value()), currentTime)
    {
      event := None;
      if delivered < |events| {
        event := Some(events[delivered]);
        delivered := delivered + 1;
      } else if resendDelay.Some? && resendDelay.value <= currentTime {
        resendDelay := None;
        UpdatePacketResendRequests(currentTime);
      }
    }

    method ResetResends()
      requires Valid()
      modifies this, pendingTimestamps
      ensures Valid() && pendingTimestamps == old(pendingTimestamps)
      ensures Value() == LossWindow.ResetResends(old(Value()))
    {
      resendDelay := None;
      FlushPendingPackets(false);
    }

    method Reset()
      requires Valid()
      modifies this, pendingTimestamps
      ensures Valid() && pendingTimestamps == old(pendingTimestamps)
      ensures Value() == LossWindow.Reset(old(Value()))
    {
      hide NumbersTo, Numbers, Cleared, Wrap;
      resendDelay := None;
      lastPacketId := 0;
      lastPacketTimestamp := NO_PACKET_TIME;
      FlushPendingPackets(false);
      pendingTimestampIndex := 0;
      pendingIndex := lastPacketId;
      ClearRing();
    }

    method ClearRing()
      requires 0 < |slots| == pendingTimestamps.Length && 2 * |slots| <= CLIPPING_WINDOW && pendingTimestampIndex == 0
      modifies `slots, pendingTimestamps
      ensures ValidRing() && slots == Cleared(|old(slots)|)
    {
      forall i | 0 <= i < pendingTimestamps.Length {
        pendingTimestamps[i] := RECEIVED;
      }
      slots := Cleared(|slots|);
    }

    /** The walk after the resize starts at the old head, so the source needs it inside the new ring. */
    method SetFrameSize(frameSize: nat)
      requires Valid() && pendingTimestampIndex < frameSize && 2 * frameSize <= CLIPPING_WINDOW
      modifies this, pendingTimestamps
      ensures Valid() && fresh(pendingTimestamps)
      ensures Value() == LossWindow.SetFrameSize(old(Value()), frameSize)
    {
      FlushPendingPackets(true);
      RingIsCleared();
      var size := pendingTimestamps.Length;
      var resized := new u32[frameSize](i requires i < size ==> 0 <= i < pendingTimestamps.Length reads this, pendingTimestamps =>
                                          if i < size then pendingTimestamps[i] else RECEIVED);
      pendingTimestamps := resized;
      slots := Cleared(frameSize);
      Reset();
    }
  }

  // --- the source's comparisons place a packet where serial arithmetic does -------------------------

  lemma HandleByDifference(t: Tracker, id: u16, clock: Clock)
    requires t.Valid() && clock.Valid(t.nackDelay)
    ensures var distance, size := Difference(t.base, id, Some(CLIPPING_WINDOW), NUMBERS), |t.slots|;
            if Elapsed(clock.arrival, t.lastTime) > SILENCE then
              Handled(t, id, clock, Accept(LossWindow.Restart(t, id, SequenceTimedOut), id, size - 1, clock.arrival))
            else if IsLess(id, t.base, Some(CLIPPING_WINDOW), NUMBERS) then
              Handle(t, id, clock) == (PacketTooOld, t)
            else if distance >= 2 * size then
              Handled(t, id, clock, Accept(LossWindow.Restart(t, id, SequenceGapped), id, size - 1, clock.arrival))
            else if distance >= size then
              Handled(t, id, clock, Accept(LossWindow.Shift(t, distance - size + 1, clock.shift + t.nackDelay),
                                           id, size - 1, clock.arrival))
            else
              Handled(t, id, clock, Accept(t, id, distance, clock.arrival))
  {
    hide LossWindow.Restart, LossWindow.Shift, Accept, Update;
    DifferenceSeparatesNearFromFar(t.base, id, CLIPPING_WINDOW, NUMBERS);
  }

  /** The source's tests place every packet within two frames ahead of the base by its forward distance. */
  ghost predicate PlacesWithin(size: nat) {
    forall base: u16, id: u16 :: Forward(base, id, NUMBERS) < 2 * size ==>
      !IsLess(id, base, Some(CLIPPING_WINDOW), NUMBERS)
      && Difference(base, id, Some(CLIPPING_WINDOW), NUMBERS) == Forward(base, id, NUMBERS)
  }

  /**
   * They do so exactly for frames of at most half the clipping window. For a longer one, number 0 lies 1025 ahead of base
   * 64511, and the source takes the distance to be 64511: a gap instead of a shift.
   */
  lemma PlacesExactlyWhenTwoFramesFit(size: nat)
    requires size > 0
    ensures PlacesWithin(size) <==> 2 * size <= CLIPPING_WINDOW
  {
    if 2 * size > CLIPPING_WINDOW {
      assert Forward(64511, 0, NUMBERS) == 1025 < 2 * size;
      assert Difference(64511, 0, Some(CLIPPING_WINDOW), NUMBERS) == 64511;
    } else {
      forall base: u16, id: u16 | Forward(base, id, NUMBERS) < 2 * size
        ensures !IsLess(id, base, Some(CLIPPING_WINDOW), NUMBERS)
                && Difference(base, id, Some(CLIPPING_WINDOW), NUMBERS) == Forward(base, id, NUMBERS)
      {
        DifferenceSeparatesNearFromFar(base, id, CLIPPING_WINDOW, NUMBERS);
      }
    }
  }

  ghost predicate Handled(t: Tracker, id: u16, clock: Clock, placed: Tracker)
    requires t.Valid() && clock.Valid(t.nackDelay)
  {
    |placed.slots| < NUMBERS && Handle(t, id, clock) == (Success, Update(placed, clock.scan))
  }

  lemma RestartEndsAt(t: Tracker, id: u16)
    requires t.Valid()
    ensures Difference(LossWindow.Restart(t, id, SequenceTimedOut).base, id, Some(CLIPPING_WINDOW), NUMBERS)
         == |t.slots| - 1
  {
  }
}
