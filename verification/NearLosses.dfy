/**
 * A run of the loss tracker in which two neighbouring packets are lost and the other side is asked for a wrong one
 * (src/utils/resend_requester.rs, src/utils/rtcp/packets/transport_feedback.rs).
 */
module NearLosses {
  import opened Prelude
  import opened SerialNumbers
  import opened LossWindow
  import opened LossRuns
  import opened GenericNack
  import Compound
  import Rtcp

  const SIZE: nat := 64

  /** Packets 100 and 103 arrive a millisecond apart, and the timer for what lies between them elapses. */
  const NEIGHBOURS_LOST: seq<Call> := [Receive(100, Clock(0, 0, 0)), Receive(103, Clock(1, 1, 1)), PollAt(6)]

  /** A window of which only the last slots may be open. */
  function Ending(last: seq<u32>): seq<u32>
    requires |last| <= SIZE
  {
    Cleared(SIZE - |last|) + last
  }

  function Tracking(base: u16, slots: seq<u32>, lastId: u16, lastTime: u32, timer: Option<nat>, events: seq<Event>)
    : Tracker
  {
    Tracker(base, slots, lastId, lastTime, 5, 25, timer, [], events, 0)
  }

  lemma NumbersAtEnd(base: u16, last: seq<u32>, sort: Sort)
    requires |last| <= SIZE && !Is(sort, RECEIVED)
    ensures Numbers(base, Ending(last), sort) == Numbers(At(base, SIZE - |last|), last, sort)
  {
    var cleared := Cleared(SIZE - |last|);
    NumbersOfConcatenation(base, cleared, last, sort, |last|);
    NumbersEmptyExactlyWhenNone(base, cleared, sort, |cleared|);
  }

  lemma {:induction false} NoneEarlier(slots: seq<u32>, now: nat, count: nat)
    requires count <= |slots| && forall i :: 0 <= i < count ==> slots[i] == RECEIVED
    ensures EarliestTo(slots, now, count) == RECEIVED
  {
    if count > 0 {
      NoneEarlier(slots, now, count - 1);
    }
  }

  lemma NothingExpired(slots: seq<u32>, now: nat)
    requires forall i :: 0 <= i < |slots| ==> !Is(Expired(now), slots[i])
    ensures WithoutExpired(slots, now) == slots
  {
  }

  /** The first packet ends the window. */
  lemma FirstArrives()
    ensures Handle(New(SIZE), 100, Clock(0, 0, 0)).1 == Tracking(37, Cleared(SIZE), 100, 0, None, [])
  {
    hide NumbersTo, EarliestTo;
    var t := New(SIZE);
    NumbersEmptyExactlyWhenNone(0, t.slots, Pending, SIZE);
    var placed := Tracking(37, Cleared(SIZE), 100, 0, None, []);
    assert Cleared(SIZE)[SIZE - 1 := RECEIVED] == Cleared(SIZE);
    assert Placed(t, 100, Clock(0, 0, 0)) == placed;
    NumbersEmptyExactlyWhenNone(37, placed.slots, Due(0), SIZE);
    NumbersEmptyExactlyWhenNone(37, placed.slots, Expired(0), SIZE);
    NoneEarlier(placed.slots, 0, SIZE);
    NothingExpired(placed.slots, 0);
  }

  const OPEN: seq<u32> := [6, 6, RECEIVED]

  lemma SecondIsPlaced()
    ensures Placed(Tracking(37, Cleared(SIZE), 100, 0, None, []), 103, Clock(1, 1, 1))
         == Tracking(40, Ending(OPEN), 103, 1, None, [])
  {
    hide NumbersTo;
    var slots := Cleared(SIZE);
    NumbersEmptyExactlyWhenNone(37, slots, Pending, 3);
    assert (slots[3..] + seq(3, _ => 6 as u32))[SIZE - 1 := RECEIVED] == Ending(OPEN);
  }

  lemma EarliestIsNext()
    ensures Earliest(Ending(OPEN), 1) == 6
  {
    var slots := Ending(OPEN);
    NoneEarlier(slots, 1, SIZE - 3);
    assert slots[SIZE - 3] == 6 && slots[SIZE - 2] == 6 && slots[SIZE - 1] == RECEIVED;
    hide Ending;
    assert EarliestTo(slots, 1, SIZE - 2) == 6;
    assert EarliestTo(slots, 1, SIZE - 1) == 6;
  }

  lemma NoneOfSort(base: u16, sort: Sort)
    requires !Is(sort, 6) && !Is(sort, RECEIVED)
    ensures Numbers(base, Ending(OPEN), sort) == []
  {
    NumbersAtEnd(base, OPEN, sort);
    NumbersEmptyExactlyWhenNone(At(base, SIZE - 3), OPEN, sort, 3);
    hide NumbersTo, Ending, At;
  }

  lemma NothingIsDueYet()
    ensures Scan(Tracking(40, Ending(OPEN), 103, 1, None, []), 1) == Tracking(40, Ending(OPEN), 103, 1, Some(6), [])
  {
    NoneOfSort(40, Due(1));
    NoneOfSort(40, Expired(1));
    NothingExpired(Ending(OPEN), 1);
    EarliestIsNext();
    hide Numbers, Earliest, Ending, WithoutExpired;
  }

  /** The second one leaves two numbers open, due in 5 ms. */
  lemma SecondArrives()
    ensures Handle(Tracking(37, Cleared(SIZE), 100, 0, None, []), 103, Clock(1, 1, 1)).1
         == Tracking(40, Ending(OPEN), 103, 1, Some(6), [])
  {
    hide Placed, Scan, Ending;
    SecondIsPlaced();
    NothingIsDueYet();
  }

  lemma BothAreDue()
    ensures Numbers(40, Ending(OPEN), Due(6)) == [101, 102]
  {
    NumbersAtEnd(40, OPEN, Due(6));
    hide Ending;
    assert NumbersTo(101, OPEN, Due(6), 1) == [101];
    assert NumbersTo(101, OPEN, Due(6), 2) == [101, 102];
  }

  /** Both are requested. */
  lemma TimerElapses()
    ensures Poll(Tracking(40, Ending(OPEN), 103, 1, Some(6), []), 6).1.events == [ResendPackets([101, 102])]
  {
    BothAreDue();
    NoneOfSort(40, Expired(6));
    hide Numbers, Earliest, Ending, WithoutExpired;
  }

  lemma OneMoreCall(calls: seq<Call>, count: nat, before: World)
    requires count < |calls| && LossRuns.After(SIZE, calls[..count]) == Some(before)
    requires LossRuns.Allowed(before, calls[count])
    ensures LossRuns.After(SIZE, calls[..count + 1]) == Some(LossRuns.Next(before, calls[count]))
  {
    hide LossRuns.Next;
    assert calls[..count + 1][..count] == calls[..count];
  }

  lemma NeighboursAreRequested()
    ensures var w := LossRuns.After(SIZE, NEIGHBOURS_LOST);
            w.Some? && w.value.tracker.events == [ResendPackets([101, 102])]
  {
    hide Handle, Poll, NewlyOpen, Answered, New;
    var calls := NEIGHBOURS_LOST;
    assert LossRuns.After(SIZE, calls[..0]) == Some(Start(SIZE));
    StartsAtZero();
    FirstArrives();
    OneMoreCall(calls, 0, Start(SIZE));
    var w1 := LossRuns.Next(Start(SIZE), calls[0]);
    SecondArrives();
    OneMoreCall(calls, 1, w1);
    var w2 := LossRuns.Next(w1, calls[1]);
    TimerElapses();
    OneMoreCall(calls, 2, w2);
    assert calls[..3] == calls;
  }

  lemma StartsAtZero()
    ensures Start(SIZE).time == 0 && Start(SIZE).tracker == New(SIZE) && New(SIZE).nackDelay == 5
  {
  }

  lemma NeighbourIsMoved()
    ensures ReadBack([101, 102], SOURCE) == [101, 104]
  {
    var packets: seq<u16> := [101, 102];
    assert packets[1..] == [102] && packets[1..][1..] == [];
    assert GroupSize(101, packets[1..], MASK_BITS) == 1;
    assert packets[1..][..1] == [102];
    assert MovedBy([102], 2) == [104];
    assert AfterGroup(packets, 0) == [];
  }

  /** Packet 104, which is not lost, is asked for in place of packet 102, which is. */
  lemma NearLossIsMisread(mediaSsrc: u32)
    ensures var w := LossRuns.After(SIZE, NEIGHBOURS_LOST);
            && w.Some? && w.value.tracker.events == [ResendPackets([101, 102])]
            && Compound.RequestedBy(Rtcp.TransportFeedbackBytes(Compound.ResendFeedback(mediaSsrc, [101, 102], SOURCE)),
                                    SOURCE) == Ok([101, 104])
  {
    hide LossRuns.After;
    NeighboursAreRequested();
    Compound.ResendRequestsEndToEnd(SIZE, NEIGHBOURS_LOST, 0, mediaSsrc, SOURCE);
    NeighbourIsMoved();
  }
}
