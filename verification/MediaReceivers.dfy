/**
 * The media receiver around its statistics and its loss tracker: what it tells the sender, and when
 * (src/media/receiver.rs).
 */
module MediaReceivers {
  import opened Prelude
  import opened Wire
  import opened Rtcp
  import opened Remb
  import opened LossWindow
  import GenericNack
  import Compound
  import LossTracker
  import ReceiverStats
  import BandwidthRings

  const DEFAULT_LIMIT := 50_000_000

  /** The feedback one loss tracker event makes. */
  function FeedbackOf(ssrc: u32, event: Event): seq<Packet> {
    if event.ResendPackets? then [Transport(Compound.ResendFeedback(ssrc, event.numbers, GenericNack.SOURCE))] else []
  }

  /** One packet for each resend request from one event up to another, in order. */
  function Feedback(ssrc: u32, events: seq<Event>, from: nat, end: nat): seq<Packet>
    requires from <= end <= |events|
    decreases end
  {
    if from == end then [] else Feedback(ssrc, events, from, end - 1) + FeedbackOf(ssrc, events[end - 1])
  }

  /** `places` are those of the resend requests from one event up to another. */
  ghost predicate ArePlacesOfRequests(events: seq<Event>, from: nat, end: nat, places: seq<nat>)
    requires end <= |events|
  {
    && (forall k :: 0 <= k < |places| ==> from <= places[k] < end)
    && (forall j, k :: 0 <= j < k < |places| ==> places[j] < places[k])
    && forall i :: from <= i < end ==> (i in places <==> events[i].ResendPackets?)
  }

  /** Each resend request is answered by one NACK packet for its numbers and this receiver, in order; nothing else is. */
  lemma {:induction false} EachRequestIsFedBack(ssrc: u32, events: seq<Event>, from: nat, end: nat)
    returns (places: seq<nat>)
    requires from <= end <= |events|
    ensures ArePlacesOfRequests(events, from, end, places) && |Feedback(ssrc, events, from, end)| == |places|
    ensures forall k :: 0 <= k < |places| ==>
              Feedback(ssrc, events, from, end)[k] ==
              Transport(Compound.ResendFeedback(ssrc, events[places[k]].numbers, GenericNack.SOURCE))
    decreases end
  {
    places := [];
    if from < end {
      places := EachRequestIsFedBack(ssrc, events, from, end - 1);
      OneMorePlace(events, from, end, places);
      if events[end - 1].ResendPackets? {
        places := places + [end - 1];
      }
    }
  }

  lemma OneMorePlace(events: seq<Event>, from: nat, end: nat, places: seq<nat>)
    requires from < end <= |events| && ArePlacesOfRequests(events, from, end - 1, places)
    ensures ArePlacesOfRequests(events, from, end, if events[end - 1].ResendPackets? then places + [end - 1] else places)
  {
    assert end - 1 !in places;
    assert forall i :: i in places + [end - 1] <==> i in places || i == end - 1;
  }

  ghost predicate NoTimeOut(events: seq<Event>, from: nat, end: nat)
    requires end <= |events|
  {
    forall i :: from <= i < end ==> !events[i].PacketTimedOut?
  }

  /** What one poll of a tracker with `taken` events delivered gives. */
  ghost predicate Taken(t: Tracker, taken: nat, event: Option<Event>, after: Tracker, now: nat)
    requires now < RECEIVED
  {
    match event
    case Some(e) => taken < |t.events| && e == t.events[taken] && after == t.(delivered := taken + 1)
    case None =>
      taken == |t.events| == after.delivered
      && t.(delivered := taken).Valid() && after == Poll(t.(delivered := taken), now).1
  }

  /** All events up to this one have been answered, and none of them was a time-out. */
  ghost predicate Answered(ssrc: u32, t: Tracker, taken: nat, sent: seq<Packet>) {
    && t.delivered <= taken <= |t.events|
    && sent == Feedback(ssrc, t.events, t.delivered, taken) && NoTimeOut(t.events, t.delivered, taken)
  }

  lemma AnsweredStep(ssrc: u32, t: Tracker, taken: nat, sent: seq<Packet>)
    requires Answered(ssrc, t, taken, sent) && taken < |t.events|
    ensures sent + FeedbackOf(ssrc, t.events[taken]) == Feedback(ssrc, t.events, t.delivered, taken + 1)
    ensures !t.events[taken].PacketTimedOut? ==>
              Answered(ssrc, t, taken + 1, sent + FeedbackOf(ssrc, t.events[taken]))
  {
    hide FeedbackOf;
  }

  class MediaReceiver {
    const id: u32
    var activated: bool
    var bandwidthLimit: Option<u32>
    const statistics: BandwidthRings.ReceiverStatistics
    const resendRequester: LossTracker.ResendRequester
    /** Everything handed to the RTCP sender. */
    var control: seq<Packet>

    ghost predicate Valid()
      reads this, statistics, resendRequester, resendRequester.pendingTimestamps
    {
      statistics.Valid() && resendRequester.Valid()
    }

    constructor (ssrc: u32)
      ensures Valid() && id == ssrc && bandwidthLimit == None && !activated && control == []
    {
      id, activated, bandwidthLimit, control := ssrc, false, None, [];
      statistics := new BandwidthRings.ReceiverStatistics();
      resendRequester := new LossTracker.ResendRequester(None);
    }

    /** Sends a limit, and starts counting received bytes anew. */
    method SendRemb(limit: u32)
      requires statistics.Valid()
      modifies `control, statistics.payloadHistory, statistics.headerHistory
      ensures statistics.Valid() && statistics.Value() == ReceiverStats.ResetBandwidth(old(statistics.Value()))
      ensures control == old(control) + [Payload(RembFeedback(limit, id))]
    {
      var mantissa: nat, exponent: nat := limit, 0;
      while mantissa > MAX_MANTISSA
        invariant Halved(mantissa, exponent) == Scale(limit)
      {
        mantissa := mantissa / 2;
        exponent := exponent + 1;
      }
      ScaleIsClose(limit);
      hide Halved, Power;
      var buffer := U32(REMB_IDENTIFIER) + [1] + [exponent * 4 + mantissa / 0x1_0000] + U16(mantissa % 0x1_0000) + U32(id);
      assert buffer == RembBytes(limit, id) by {
        hide U32, U16;
      }
      control := control + [Payload(PayloadFeedback(0, id, ApplicationSpecific(buffer)))];
      statistics.ResetBandwidth();
    }

    /** A changed limit is told at once; taking it back tells a default. */
    method SetBandwidthLimit(limit: Option<u32>)
      requires statistics.Valid()
      modifies `control, `bandwidthLimit, statistics.payloadHistory, statistics.headerHistory
      ensures statistics.Valid() && bandwidthLimit == limit
      ensures limit == old(bandwidthLimit) ==> control == old(control) && statistics.Value() == old(statistics.Value())
      ensures limit != old(bandwidthLimit) ==>
                && control == old(control) + [Payload(RembFeedback(if limit.Some? then limit.value else DEFAULT_LIMIT, id))]
                && statistics.Value() == ReceiverStats.ResetBandwidth(old(statistics.Value()))
    {
      if bandwidthLimit == limit {
        return;
      }
      var enforceSend := bandwidthLimit.Some?;
      bandwidthLimit := limit;
      if enforceSend || limit.Some? {
        SendRemb(if limit.Some? then limit.value else DEFAULT_LIMIT);
      }
    }

    /** The first loop of `poll_next`; `lost` is the event it returns early with. */
    method PollResends(now: nat) returns (lost: Option<seq<u16>>)
      requires Valid() && now < RECEIVED
      modifies `control, resendRequester, resendRequester.pendingTimestamps
      ensures Valid()
      ensures var t, t' := old(resendRequester.Value()), resendRequester.Value();
              && t.delivered <= t'.delivered <= |t.events|
              && control == old(control) + Feedback(id, t.events, t.delivered, t'.delivered)
              && match lost
                 case Some(numbers) =>
                   && t'.delivered > t.delivered && t.events[t'.delivered - 1] == PacketTimedOut(numbers)
                   && NoTimeOut(t.events, t.delivered, t'.delivered - 1) && t' == t.(delivered := t'.delivered)
                 case None =>
                   NoTimeOut(t.events, t.delivered, |t.events|) && t' == Poll(t.(delivered := |t.events|), now).1
    {
      ghost var t, sent: seq<Packet> := resendRequester.Value(), [];
      ghost var taken := t.delivered;
      assert Answered(id, t, taken, sent);
      var event := TakeEvent(t, taken, now);
      lost := None;
      hide Poll, FeedbackOf, Feedback, NoTimeOut;
      while event.Some?
        invariant Valid() && unchanged(resendRequester`pendingTimestamps) && lost == None
        invariant Taken(t, taken, event, resendRequester.Value(), now)
        invariant Answered(id, t, taken, sent) && control == old(control) + sent
        decreases |t.events| - taken, event.Some?
      {
        lost := ProcessEvent(event.value);
        AnsweredStep(id, t, taken, sent);
        sent := sent + FeedbackOf(id, event.value);
        taken := taken + 1;
        if lost.Some? {
          return;
        }
        event := TakeEvent(t, taken, now);
      }
    }

    method TakeEvent(ghost t: Tracker, ghost taken: nat, now: nat) returns (event: Option<Event>)
      requires Valid() && now < RECEIVED && resendRequester.Value() == t.(delivered := taken)
      modifies resendRequester, resendRequester.pendingTimestamps
      ensures Valid() && resendRequester.pendingTimestamps == old(resendRequester.pendingTimestamps)
      ensures Taken(t, taken, event, resendRequester.Value(), now)
    {
      event := resendRequester.PollNext(now);
    }

    method ProcessEvent(event: Event) returns (lost: Option<seq<u16>>)
      modifies `control
      ensures control == old(control) + FeedbackOf(id, event)
      ensures if event.PacketTimedOut? then lost == Some(event.numbers) else lost == None
    {
      lost := None;
      match event {
        case PacketTimedOut(numbers) => return Some(numbers);
        case ResendPackets(numbers) =>
          var nacks := GenericNack.CreateGenericNack(numbers);
          control := control + [Transport(TransportFeedback(1, id, nacks))];
        case _ =>
      }
    }

    /** A packet arrives; true for the first since ever or since the last bye. */
    method ReceiveRtp(packetId: u16, headerLength: nat, payloadLength: nat, second: nat, clock: Clock)
      returns (first: bool)
      requires Valid() && clock.Valid(resendRequester.nackDelay)
      modifies this, statistics, statistics.payloadHistory, statistics.headerHistory,
               resendRequester, resendRequester.pendingTimestamps
      ensures Valid() && activated && first == !old(activated) && bandwidthLimit == old(bandwidthLimit)
      ensures resendRequester.Value() == Handle(old(resendRequester.Value()), packetId, clock).1
      ensures var counted := ReceiverStats.Register(old(statistics.Value()), packetId, second, headerLength, payloadLength);
              statistics.Value() == if first && bandwidthLimit.Some? then ReceiverStats.ResetBandwidth(counted) else counted
      ensures control == old(control)
                         + if first && bandwidthLimit.Some? then [Payload(RembFeedback(bandwidthLimit.value, id))] else []
    {
      statistics.RegisterIncomingRtp(packetId, second, headerLength, payloadLength);
      var _ := resendRequester.HandlePacketReceived(packetId, clock);
      first := !activated;
      if first {
        activated := true;
        if bandwidthLimit.Some? {
          SendRemb(bandwidthLimit.value);
        }
      }
    }

    method ReceiveBye()
      requires Valid()
      modifies `activated, statistics, statistics.payloadHistory, statistics.headerHistory
      ensures Valid() && !activated && statistics.Value() == ReceiverStats.Reset(old(statistics.Value()))
    {
      activated := false;
      statistics.Reset();
    }
  }
}
