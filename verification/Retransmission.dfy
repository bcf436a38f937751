/**
 * The sending side of a resend request: NACK pairs answered from the cache (src/media/sender.rs,
 * src/transport/sender.rs).
 */
module Retransmission {
  import opened Prelude
  import opened SerialNumbers
  import opened GenericNack
  import opened PacketHistory
  import opened PacketHistoryRuns
  import LossWindow
  import LossRuns
  import Compound
  import Rtcp
  import Wire

  /** The cache after asking for each number in turn, and what it answered. */
  function AnswerAll(packets: seq<Packet>, numbers: seq<u16>, times: seq<u32>): (r: (seq<Option<seq<u8>>>, seq<Packet>))
    requires |numbers| == |times|
    ensures |r.0| == |numbers| && |r.1| == |packets|
  {
    if numbers == [] then ([], packets)
    else
      var last := |numbers| - 1;
      var (answers, before) := AnswerAll(packets, numbers[..last], times[..last]);
      var (answer, after) := Resend(before, numbers[last], times[last]);
      (answers + [answer], after)
  }

  function Answered(answers: seq<Option<seq<u8>>>): seq<seq<u8>> {
    if answers == [] then []
    else
      var last := |answers| - 1;
      Answered(answers[..last]) + if answers[last].Some? then [answers[last].value] else []
  }

  class InternalMediaSender {
    const history: RtpPacketHistory
    /** What went to the transport. */
    var written: seq<seq<u8>>

    constructor ()
      ensures history.Valid() && history.packets == [] && written == []
    {
      history := new RtpPacketHistory();
      written := [];
    }

    /** `protected` is what SRTP makes of a packet, if anything; only such packets are sent and saved. */
    method SendRtp(sequence: u16, protected: Option<seq<u8>>, now: u32, later: u32)
      requires history.Valid() && MAX_PACKET_AGE <= now <= later
      modifies `written, history
      ensures history.Valid()
      ensures match protected
              case None => history.packets == old(history.packets) && written == old(written)
              case Some(buffer) => history.packets == Enqueue(old(history.packets), sequence, buffer, now, later)
                                   && written == old(written) + [buffer]
    {
      if protected.Some? {
        history.EnqueueSendPacket(sequence, protected.value, now, later);
        written := written + [protected.value];
      }
    }

    method RetransmitRtp(sequence: u16, now: u32) returns (ok: bool)
      requires history.Valid()
      modifies `written, history
      ensures history.Valid() && history.packets == Resend(old(history.packets), sequence, now).1
      ensures written == old(written) + Answered([Resend(old(history.packets), sequence, now).0])
      ensures ok <==> Resend(old(history.packets), sequence, now).0.Some?
    {
      var answer := history.ResendPacket(sequence, now);
      assert Answered([answer][..0]) == [];
      ok := answer.Some?;
      if ok {
        written := written + [answer.value];
      }
    }

    /** One pair's numbers, in order; `times` are the clock's readings. */
    method ProcessGenericNack(nack: Nack, times: seq<u32>)
      requires history.Valid() && |times| == |Expand(nack, SOURCE.readAt)|
      modifies `written, history
      ensures history.Valid()
      ensures var (answers, packets) := AnswerAll(old(history.packets), Expand(nack, SOURCE.readAt), times);
              history.packets == packets && written == old(written) + Answered(answers)
    {
      hide Expand, Resend;
      var lost := LostPackets(nack);
      for k := 0 to |lost|
        invariant history.Valid()
        invariant var (answers, packets) := AnswerAll(old(history.packets), lost[..k], times[..k]);
                  history.packets == packets && written == old(written) + Answered(answers)
      {
        var _ := RetransmitRtp(lost[k], times[k]);
        AskedStep(old(history.packets), lost, times, k);
      }
      assert lost[..|lost|] == lost && times[..|times|] == times;
    }

    method HandleTransportFeedback(nacks: seq<Nack>, times: seq<u32>)
      requires history.Valid() && |times| == |ExpandAll(nacks, SOURCE.readAt)|
      modifies `written, history
      ensures history.Valid()
      ensures var (answers, packets) := AnswerAll(old(history.packets), ExpandAll(nacks, SOURCE.readAt), times);
              history.packets == packets && written == old(written) + Answered(answers)
    {
      hide Expand, Resend, AnswerAll, Answered;
      ghost var all := ExpandAll(nacks, SOURCE.readAt);
      var done: nat := 0;
      NothingAnswered(history.packets);
      assert all[..0] == [] && times[..0] == [];
      for i := 0 to |nacks|
        invariant history.Valid() && done <= |all|
        invariant all[done..] == ExpandAll(nacks[i..], SOURCE.readAt)
        invariant Asked(old(history.packets), all, times, done, history.packets, old(written), written)
      {
        ExpandNext(nacks, i, all, done);
        var count := ExpandedCount(nacks[i]);
        AskedMore(old(history.packets), all, times, done, done + count, history.packets, old(written), written);
        ProcessGenericNack(nacks[i], times[done..done + count]);
        done := done + count;
      }
      assert nacks[|nacks|..] == [] && all[done..] == [];
      assert all[..done] == all && times[..done] == times;
    }
  }

  /** How many numbers a pair stands for. */
  function ExpandedCount(nack: Nack): nat {
    |Expand(nack, SOURCE.readAt)|
  }

  lemma ExpandNext(nacks: seq<Nack>, i: nat, all: seq<u16>, done: nat)
    requires i < |nacks| && done <= |all| && all[done..] == ExpandAll(nacks[i..], SOURCE.readAt)
    ensures var count := ExpandedCount(nacks[i]);
            && done + count <= |all| && all[done..done + count] == Expand(nacks[i], SOURCE.readAt)
            && all[done + count..] == ExpandAll(nacks[i + 1..], SOURCE.readAt)
  {
    hide Expand;
    var numbers := Expand(nacks[i], SOURCE.readAt);
    assert nacks[i..][1..] == nacks[i + 1..];
    assert all[done..] == numbers + ExpandAll(nacks[i + 1..], SOURCE.readAt);
    assert all[done..][..|numbers|] == numbers && all[done..][|numbers|..] == ExpandAll(nacks[i + 1..], SOURCE.readAt);
    assert all[done..][..|numbers|] == all[done..done + |numbers|];
    assert all[done..][|numbers|..] == all[done + |numbers|..];
  }

  /** The state once the first `count` numbers have been asked for. */
  ghost predicate Asked(before: seq<Packet>, numbers: seq<u16>, times: seq<u32>, count: nat, packets: seq<Packet>,
                        was: seq<seq<u8>>, written: seq<seq<u8>>)
    requires count <= |numbers| == |times|
  {
    var (answers, after) := AnswerAll(before, numbers[..count], times[..count]);
    packets == after && written == was + Answered(answers)
  }

  lemma NothingAnswered(packets: seq<Packet>)
    ensures AnswerAll(packets, [], []) == ([], packets) && Answered([]) == []
  {
  }

  lemma AskedStep(before: seq<Packet>, numbers: seq<u16>, times: seq<u32>, count: nat)
    requires count < |numbers| == |times|
    ensures var (answers, after) := AnswerAll(before, numbers[..count], times[..count]);
            var (answer, next) := Resend(after, numbers[count], times[count]);
            && AnswerAll(before, numbers[..count + 1], times[..count + 1]) == (answers + [answer], next)
            && Answered(answers + [answer]) == Answered(answers) + Answered([answer])
  {
    hide Resend;
    assert numbers[..count + 1][..count] == numbers[..count] && times[..count + 1][..count] == times[..count];
    var answers := AnswerAll(before, numbers[..count], times[..count]).0;
    var answer := Resend(AnswerAll(before, numbers[..count], times[..count]).1, numbers[count], times[count]).0;
    assert (answers + [answer])[..|answers|] == answers;
    assert Answered([answer][..0]) == [];
  }

  /** Asking for two lists one after the other. */
  lemma {:induction false} AnswersJoin(before: seq<Packet>, a: seq<u16>, s: seq<u32>, b: seq<u16>, t: seq<u32>)
    requires |a| == |s| && |b| == |t|
    ensures var (x, middle) := AnswerAll(before, a, s);
            var (y, after) := AnswerAll(middle, b, t);
            AnswerAll(before, a + b, s + t) == (x + y, after)
    decreases |b|
  {
    hide Resend;
    if b == [] {
      assert a + b == a && s + t == s;
      assert AnswerAll(before, a, s).0 + [] == AnswerAll(before, a, s).0;
    } else {
      var last := |b| - 1;
      AnswersJoin(before, a, s, b[..last], t[..last]);
      assert (a + b)[..|a| + last] == a + b[..last] && (s + t)[..|a| + last] == s + t[..last];
      var (x, middle) := AnswerAll(before, a, s);
      var (y, late) := AnswerAll(middle, b[..last], t[..last]);
      var (answer, after) := Resend(late, b[last], t[last]);
      assert AnswerAll(before, a + b, s + t) == ((x + y) + [answer], after);
      assert (x + y) + [answer] == x + (y + [answer]);
    }
  }

  lemma {:induction false} AnsweredJoin(x: seq<Option<seq<u8>>>, y: seq<Option<seq<u8>>>)
    ensures Answered(x + y) == Answered(x) + Answered(y)
    decreases |y|
  {
    if y == [] {
      assert x + y == x;
    } else {
      var last := |y| - 1;
      AnsweredJoin(x, y[..last]);
      assert (x + y)[..|x| + last] == x + y[..last];
    }
  }

  lemma AskedMore(before: seq<Packet>, numbers: seq<u16>, times: seq<u32>, from: nat, upTo: nat, middle: seq<Packet>,
                  was: seq<seq<u8>>, written: seq<seq<u8>>)
    requires from <= upTo <= |numbers| == |times| && Asked(before, numbers, times, from, middle, was, written)
    ensures var (answers, after) := AnswerAll(middle, numbers[from..upTo], times[from..upTo]);
            Asked(before, numbers, times, upTo, after, was, written + Answered(answers))
  {
    hide AnswerAll, Answered;
    assert numbers[..upTo] == numbers[..from] + numbers[from..upTo] && times[..upTo] == times[..from] + times[from..upTo];
    AnswersJoin(before, numbers[..from], times[..from], numbers[from..upTo], times[from..upTo]);
    AnsweredJoin(AnswerAll(before, numbers[..from], times[..from]).0,
                 AnswerAll(middle, numbers[from..upTo], times[from..upTo]).0);
  }

  // --- what comes back ---------------------------------------------------------------------------

  /** Asking changes time stamps only. */
  ghost predicate SamePackets(packets: seq<Packet>, packets': seq<Packet>) {
    && |packets'| == |packets|
    && forall p :: 0 <= p < |packets| ==>
         packets'[p].sequence == packets[p].sequence && packets'[p].buffer == packets[p].buffer
  }

  lemma {:induction false} AskingKeepsPackets(packets: seq<Packet>, numbers: seq<u16>, times: seq<u32>)
    requires |numbers| == |times|
    ensures SamePackets(packets, AnswerAll(packets, numbers, times).1)
    decreases |numbers|
  {
    hide FirstOf;
    if numbers != [] {
      AskingKeepsPackets(packets, numbers[..|numbers| - 1], times[..|numbers| - 1]);
    }
  }

  lemma SameFirst(packets: seq<Packet>, packets': seq<Packet>, sequence: u16)
    requires SamePackets(packets, packets')
    ensures FirstOf(packets', sequence) == FirstOf(packets, sequence)
  {
    var k, k' := FirstOf(packets, sequence), FirstOf(packets', sequence);
    assert k < |packets| ==> packets'[k].sequence == sequence;
    assert k' < |packets'| ==> packets[k'].sequence == sequence;
  }

  /** Each answer is what the cache has first under the number asked for. */
  lemma {:induction false} AnswersAreSaved(packets: seq<Packet>, numbers: seq<u16>, times: seq<u32>, k: nat)
    requires k < |numbers| == |times|
    ensures var answer, position := AnswerAll(packets, numbers, times).0[k], FirstOf(packets, numbers[k]);
            answer.Some? ==> position < |packets| && answer.value == packets[position].buffer
    decreases |numbers|
  {
    hide FirstOf;
    var last := |numbers| - 1;
    if k < last {
      AnswersAreSaved(packets, numbers[..last], times[..last], k);
    } else {
      AskingKeepsPackets(packets, numbers[..last], times[..last]);
      SameFirst(packets, AnswerAll(packets, numbers[..last], times[..last]).1, numbers[last]);
    }
  }

  /** Asking for other numbers leaves a number's time stamp alone. */
  lemma {:induction false} OthersKeepStamp(packets: seq<Packet>, numbers: seq<u16>, times: seq<u32>, sequence: u16)
    requires |numbers| == |times| && sequence !in numbers
    ensures var position := FirstOf(packets, sequence);
            position < |packets| ==> AnswerAll(packets, numbers, times).1[position] == packets[position]
    decreases |numbers|
  {
    hide FirstOf;
    AskingKeepsPackets(packets, numbers, times);
    if numbers != [] {
      var last := |numbers| - 1;
      OthersKeepStamp(packets, numbers[..last], times[..last], sequence);
      AskingKeepsPackets(packets, numbers[..last], times[..last]);
    }
  }

  /** The first time a list asks for a number, the answer is what the cache gave before the list. */
  lemma {:induction false} FirstAskingIsUndisturbed(packets: seq<Packet>, numbers: seq<u16>, times: seq<u32>, k: nat)
    requires k < |numbers| == |times| && numbers[k] !in numbers[..k]
    ensures AnswerAll(packets, numbers, times).0[k] == Resend(packets, numbers[k], times[k]).0
    decreases |numbers|
  {
    hide FirstOf;
    var last := |numbers| - 1;
    if k < last {
      assert numbers[..last][..k] == numbers[..k];
      FirstAskingIsUndisturbed(packets, numbers[..last], times[..last], k);
    } else {
      OthersKeepStamp(packets, numbers[..last], times[..last], numbers[last]);
      AskingKeepsPackets(packets, numbers[..last], times[..last]);
      SameFirst(packets, AnswerAll(packets, numbers[..last], times[..last]).1, numbers[last]);
    }
  }

  /**
   * End to end: any resend request of any run of a loss tracker, as bytes, makes a cache answer with nothing but bytes
   * last sent under a number that the bytes ask for, and those are the lost numbers exactly when no two of them are
   * within 16. The cache may be of any run in which packets are numbered in order, gaps allowed, and less than a whole
   * turn of numbers lies between the oldest saved packet and the newest. A number is answered, the first time it is
   * asked for, exactly when a packet sent under it is still saved and has rested since every time it went out.
   */
  lemma ResendRequestIsAnsweredTruly(size: nat, tracked: seq<LossRuns.Call>, i: nat, mediaSsrc: u32,
                                     cached: seq<PacketHistoryRuns.Call>, counter: seq<nat>, times: seq<u32>)
    requires LossRuns.Allowed(LossRuns.Start(size), LossRuns.SetsFrameSize(size)) && LossRuns.After(size, tracked).Some?
    requires i < |LossRuns.After(size, tracked).value.tracker.events|
    requires LossRuns.After(size, tracked).value.tracker.events[i].ResendPackets?
    requires PacketHistoryRuns.After(cached).Some? && Counted(PacketHistoryRuns.After(cached).value.sent, counter)
    requires var w := PacketHistoryRuns.After(cached).value;
             0 <= w.Dropped() < |w.sent| ==> counter[|w.sent| - 1] - counter[w.Dropped()] < NUMBERS
    requires |times| == |ReadBack(LossRuns.After(size, tracked).value.tracker.events[i].numbers, SOURCE)|
    ensures var lost := LossRuns.After(size, tracked).value.tracker.events[i].numbers;
            var w := PacketHistoryRuns.After(cached).value;
            var feedback, asked := Compound.ResendFeedback(mediaSsrc, lost, SOURCE), ReadBack(lost, SOURCE);
            && Rtcp.TransportWithinLimits(feedback)
            && Compound.RequestedBy(Rtcp.TransportFeedbackBytes(feedback), SOURCE) == Ok(asked)
            && (asked == lost <==> FarApart(lost, MASK_BITS))
            && forall k :: 0 <= k < |asked| ==>
                 && AnswersTruly(w, asked[k], AnswerAll(w.packets, asked, times).0[k])
                 && (asked[k] !in asked[..k] ==>
                       (AnswerAll(w.packets, asked, times).0[k].Some? <==> Answerable(w, asked[k], times[k])))
  {
    hide LossRuns.After, PacketHistoryRuns.After, ReadBack, AnswerAll, FirstOf, Answers;
    Compound.ResendRequestsEndToEnd(size, tracked, i, mediaSsrc, SOURCE);
    var lost, w := LossRuns.After(size, tracked).value.tracker.events[i].numbers, PacketHistoryRuns.After(cached).value;
    var asked := ReadBack(lost, SOURCE);
    forall k | 0 <= k < |asked| && asked[k] !in asked[..k]
      ensures AnswerAll(w.packets, asked, times).0[k].Some? <==> Answerable(w, asked[k], times[k])
    {
      FirstAskingIsUndisturbed(w.packets, asked, times, k);
      AnswersExactlyWhenRested(cached, asked[k], times[k]);
    }
    forall k | 0 <= k < |asked| ensures AnswersTruly(w, asked[k], AnswerAll(w.packets, asked, times).0[k]) {
      AnswersAreSaved(w.packets, asked, times, k);
      if FirstOf(w.packets, asked[k]) < |w.packets| {
        SavedIsLatest(cached, counter, asked[k]);
      }
    }
  }

  ghost predicate Answerable(w: World, number: u16, now: u32) {
    exists index: nat :: Answers(w, number, now, index)
  }

  /** An answer is what was last sent under the number. */
  ghost predicate AnswersTruly(w: World, number: u16, answer: Option<seq<u8>>) {
    answer.Some? ==> exists index: nat :: IsLatest(w.sent, index) && w.sent[index] == Sent(number, answer.value)
  }
}
