/**
 * The statistics as the source keeps them: two rings moved and changed in place, and walked to read the averages
 * (src/media/receiver_stats.rs). Every method computes a function of `ReceiverStats`.
 */
module BandwidthRings {
  import opened Prelude
  import opened ReceiverStats

  class ReceiverStatistics {
    var initialized: bool
    var highestSequenceReceived: u16
    var currentIndex: nat
    const payloadHistory: array<nat>
    const headerHistory: array<nat>

    ghost predicate Valid()
      reads this
    {
      && payloadHistory != headerHistory && payloadHistory.Length == headerHistory.Length == HISTORY_TIME_SPAN
      && currentIndex < HISTORY_TIME_SPAN
    }

    ghost function Value(): Stats
      requires Valid()
      reads this, payloadHistory, headerHistory
    {
      Stats(initialized, highestSequenceReceived, currentIndex, payloadHistory[..], headerHistory[..])
    }

    constructor ()
      ensures Valid() && fresh(payloadHistory) && fresh(headerHistory)
      ensures Value() == Stats(false, 0, 0, Empty(), Empty())
    {
      initialized, highestSequenceReceived, currentIndex := false, 0, 0;
      payloadHistory := new nat[HISTORY_TIME_SPAN](_ => 0);
      headerHistory := new nat[HISTORY_TIME_SPAN](_ => 0);
      new;
      assert payloadHistory[..] == Empty() && headerHistory[..] == Empty();
    }

    method AdvanceHistory(second: nat) returns (slot: nat)
      requires Valid()
      modifies `currentIndex, payloadHistory, headerHistory
      ensures Valid() && slot == Slot(second) && Value() == AdvanceBoth(old(Value()), second)
    {
      slot := Slot(second);
      while currentIndex != slot
        invariant Valid()
        invariant Advance(payloadHistory[..], currentIndex, slot) == Advance(old(payloadHistory[..]), old(currentIndex), slot)
        invariant Advance(headerHistory[..], currentIndex, slot) == Advance(old(headerHistory[..]), old(currentIndex), slot)
        decreases Ahead(currentIndex, slot)
      {
        ghost var payload, header, next := payloadHistory[..], headerHistory[..], Following(currentIndex);
        currentIndex := currentIndex + 1;
        if currentIndex >= HISTORY_TIME_SPAN {
          currentIndex := 0;
        }
        headerHistory[currentIndex] := 0;
        payloadHistory[currentIndex] := 0;
        assert payloadHistory[..] == payload[next := 0] && headerHistory[..] == header[next := 0];
      }
    }

    method Tick(second: nat)
      requires Valid()
      modifies `currentIndex, payloadHistory, headerHistory
      ensures Valid() && Value() == AdvanceBoth(old(Value()), second)
    {
      var _ := AdvanceHistory(second);
    }

    method RegisterIncomingRtp(packetId: u16, second: nat, headerLength: nat, payloadLength: nat)
      requires Valid()
      modifies this, payloadHistory, headerHistory
      ensures Valid() && Value() == Register(old(Value()), packetId, second, headerLength, payloadLength)
    {
      if !initialized || packetId > highestSequenceReceived || highestSequenceReceived > 0xFF00 || second >= 5 {
        highestSequenceReceived := packetId;
      }
      initialized := true;
      var slot := AdvanceHistory(second);
      headerHistory[slot] := headerHistory[slot] + headerLength;
      payloadHistory[slot] := payloadHistory[slot] + payloadLength;
    }

    method ResetBandwidth()
      requires Valid()
      modifies payloadHistory, headerHistory
      ensures Valid() && Value() == ReceiverStats.ResetBandwidth(old(Value()))
    {
      forall i | 0 <= i < HISTORY_TIME_SPAN {
        payloadHistory[i] := 0;
      }
      forall i | 0 <= i < HISTORY_TIME_SPAN {
        headerHistory[i] := 0;
      }
      assert payloadHistory[..] == Empty() && headerHistory[..] == Empty();
    }

    method Reset()
      requires Valid()
      modifies `initialized, `highestSequenceReceived, payloadHistory, headerHistory
      ensures Valid() && Value() == ReceiverStats.Reset(old(Value()))
    {
      ResetBandwidth();
      initialized := false;
      highestSequenceReceived := 0;
    }

    /** Every slot is looked at at most once: the walk only ever shortens the ring that is left. */
    method BandwidthMinute(buffer: array<nat>) returns (mean: real)
      requires Valid() && buffer.Length == HISTORY_TIME_SPAN
      ensures mean == Mean(FirstUsed(FromCurrent(buffer[..], currentIndex), MINUTE))
    {
      hide FirstUsed, Sum, FromCurrent;
      ghost var ring := FromCurrent(buffer[..], currentIndex);
      assert ring[0..] == ring;
      var index, count, sum := currentIndex, 0, 0;
      ghost var visited := 0;
      var around := false;
      while count < MINUTE && !around
        invariant visited <= HISTORY_TIME_SPAN && count <= MINUTE
        invariant around <==> visited == HISTORY_TIME_SPAN
        invariant !around ==> index == if currentIndex + visited < HISTORY_TIME_SPAN then currentIndex + visited
                                       else currentIndex + visited - HISTORY_TIME_SPAN
        invariant var left := FirstUsed(ring[visited..], MINUTE - count);
                  var all := FirstUsed(ring, MINUTE);
                  sum + Sum(left) == Sum(all) && count + |left| == |all|
        decreases HISTORY_TIME_SPAN - visited
      {
        FirstUsedStep(ring, visited, MINUTE - count);
        SlotOfRing(buffer[..], currentIndex, visited);
        if buffer[index] > 0 {
          sum := sum + buffer[index];
          count := count + 1;
        }
        index := index + 1;
        visited := visited + 1;
        if index == currentIndex {
          around := true;
        } else if index >= buffer.Length {
          index := 0;
          if currentIndex == 0 {
            around := true;
          }
        }
      }
      NothingLeft(ring[visited..], MINUTE - count);
      mean := if count == 0 then 0.0 else sum as real / count as real;
    }

    method BandwidthSecond(buffer: array<nat>) returns (bytes: nat)
      requires Valid() && buffer.Length == HISTORY_TIME_SPAN
      ensures bytes == FromCurrent(buffer[..], currentIndex)[HISTORY_TIME_SPAN - 1]
    {
      if currentIndex > 0 {
        bytes := buffer[currentIndex - 1];
      } else {
        bytes := buffer[buffer.Length - 1];
      }
    }
  }

  lemma FirstUsedStep(ring: seq<nat>, visited: nat, limit: nat)
    requires visited < |ring| && limit > 0
    ensures var used, rest := FirstUsed(ring[visited..], limit), ring[visited + 1..];
            if ring[visited] > 0 then
              Sum(used) == ring[visited] + Sum(FirstUsed(rest, limit - 1)) && |used| == 1 + |FirstUsed(rest, limit - 1)|
            else used == FirstUsed(rest, limit)
  {
    assert ring[visited..][1..] == ring[visited + 1..];
  }

  lemma SlotOfRing(history: History, index: nat, visited: nat)
    requires index < HISTORY_TIME_SPAN && visited < HISTORY_TIME_SPAN
    ensures FromCurrent(history, index)[visited] ==
            history[if index + visited < HISTORY_TIME_SPAN then index + visited else index + visited - HISTORY_TIME_SPAN]
  {
  }

  lemma NothingLeft(numbers: seq<nat>, limit: nat)
    requires numbers == [] || limit == 0
    ensures FirstUsed(numbers, limit) == [] && Sum(FirstUsed(numbers, limit)) == 0
  {
  }
}
