/**
 * When the loss tracker asks again: the timer each walk leaves, and how far apart resend requests are over whole runs
 * (src/utils/resend_requester.rs).
 */
module ResendTimers {
  import opened Prelude
  import opened SerialNumbers
  import opened LossWindow
  import opened LossRuns

  // --- the timer a walk leaves -------------------------------------------------------------------

  /** `n` is to be asked for at `now`: it is due and not yet given up. */
  ghost predicate IsDue(open: map<u16, u32>, n: u16, now: nat) {
    n in open && open[n] <= now < open[n] + LIFETIME
  }

  /** `n` is open and not due before `deadline`, which lies in the future. */
  ghost predicate WaitsUntil(open: map<u16, u32>, n: u16, now: nat, deadline: nat) {
    n in open && now < deadline <= open[n]
  }

  /**
   * What a walk at `now` over the numbers in `open` does to the timer: one interval ahead when it asked for anything,
   * else the earliest deadline to come, else none.
   */
  ghost predicate Rearmed(open: map<u16, u32>, now: nat, interval: nat, timer: Option<nat>) {
    if exists n :: IsDue(open, n, now) then timer == Some(now + interval)
    else match timer
      case None => forall n :: n in open ==> open[n] + LIFETIME <= now
      case Some(deadline) =>
        && (exists n :: WaitsUntil(open, n, now, deadline) && open[n] == deadline)
        && forall n :: n in open ==> open[n] + LIFETIME <= now || WaitsUntil(open, n, now, deadline)
  }

  lemma SlotIsOpen(t: Tracker, i: nat)
    requires i < |t.slots| < NUMBERS
    ensures Forward(t.base, At(t.base, i), NUMBERS) == i
    ensures t.slots[i] != RECEIVED ==> At(t.base, i) in Open(t) && Open(t)[At(t.base, i)] == t.slots[i]
  {
  }

  lemma DueExactlyWhenListed(t: Tracker, now: nat)
    requires t.Valid() && now < RECEIVED
    ensures Numbers(t.base, t.slots, Due(now)) != [] <==> exists n :: IsDue(Open(t), n, now)
  {
    hide NumbersTo, At, Forward;
    NumbersEmptyExactlyWhenNone(t.base, t.slots, Due(now), |t.slots|);
    forall i | 0 <= i < |t.slots| && Is(Due(now), t.slots[i])
      ensures IsDue(Open(t), At(t.base, i), now)
    {
      SlotIsOpen(t, i);
    }
  }

  /** The walk over an idle tracker, on the open numbers only. */
  lemma WalkRearms(t: Tracker, now: nat)
    requires t.Valid() && now < RECEIVED && t.timer.None?
    ensures Rearmed(Open(t), now, t.resendInterval, Scan(t, now).timer)
  {
    hide NumbersTo, EarliestTo, WithoutExpired, At, Forward;
    DueExactlyWhenListed(t, now);
    EarliestIsMinimum(t.slots, now, |t.slots|);
    var earliest := Earliest(t.slots, now);
    if !exists n :: IsDue(Open(t), n, now) {
      forall n | n in Open(t)
        ensures Open(t)[n] + LIFETIME <= now || WaitsUntil(Open(t), n, now, earliest)
      {
        assert !IsDue(Open(t), n, now);
      }
      if i :| 0 <= i < |t.slots| && t.slots[i] == earliest && t.slots[i] > now && earliest != RECEIVED {
        SlotIsOpen(t, i);
        assert WaitsUntil(Open(t), At(t.base, i), now, earliest);
      }
    }
  }

  /** A timer run sets the timer anew by what was open, the interval ahead exactly when something was asked for. */
  lemma TimerRunRearms(t: Tracker, now: nat)
    requires t.Valid() && now < RECEIVED && t.timer.Some? && t.timer.value <= now && t.delivered == |t.events|
    ensures Rearmed(Open(t), now, t.resendInterval, Poll(t, now).1.timer)
  {
    hide NumbersTo, EarliestTo, Scan, Rearmed;
    assert Open(t.(timer := None)) == Open(t);
    WalkRearms(t.(timer := None), now);
  }

  /** A packet leaves a set timer alone and sets a missing one by what is open behind it. */
  lemma PacketRearms(t: Tracker, id: u16, clock: Clock)
    requires t.Valid() && clock.Valid(t.nackDelay) && Place(t, id, clock.arrival) != Stale
    ensures var after := Handle(t, id, clock).1;
            if t.timer.Some? then after.timer == t.timer
            else Rearmed(OpenStep(t, id, clock), clock.scan, t.resendInterval, after.timer)
  {
    hide Placed, Place, OpenStep, Open, Scan, Rearmed;
    OpenOfPlaced(t, id, clock);
    PlacedKeepsTimer(t, id, clock);
    PlacedKeepsSettings(t, id, clock);
    if t.timer.None? {
      WalkRearms(Placed(t, id, clock), clock.scan);
    }
  }

  lemma PlacedKeepsSettings(t: Tracker, id: u16, clock: Clock)
    requires t.Valid() && clock.Valid(t.nackDelay)
    ensures Placed(t, id, clock).resendInterval == t.resendInterval
  {
    hide NumbersTo, Place, WrappingSub, At;
  }

  // --- the distance between requests -------------------------------------------------------------

  /** A resend request as a bystander notes it: when it was made and the interval set at that time. */
  datatype Request = Request(time: nat, interval: nat)

  /** The number of resend requests among the events. */
  function Requests(events: seq<Event>): nat {
    if events == [] then 0
    else Requests(events[..|events| - 1]) + if events[|events| - 1].ResendPackets? then 1 else 0
  }

  predicate Drops(call: Call) {
    call.Resets? || call.ResetsResends? || call.SetsFrameSize?
  }

  /** The requests one call makes. */
  function Made(w: World, call: Call): (made: seq<Request>)
    requires w.tracker.Valid() && Allowed(w, call)
    ensures |made| <= 1
  {
    var after := Next(w, call);
    if Requests(after.tracker.events) > Requests(w.tracker.events)
    then [Request(after.time, w.tracker.resendInterval)] else []
  }

  /** The requests of a run from its call number `from` on. */
  function RequestLog(size: nat, calls: seq<Call>, from: nat): seq<Request>
    requires Allowed(Start(size), SetsFrameSize(size)) && After(size, calls).Some?
  {
    if |calls| <= from then []
    else
      var prefix := calls[..|calls| - 1];
      RequestLog(size, prefix, from) + Made(After(size, prefix).value, calls[|calls| - 1])
  }

  lemma RequestsAppend(events: seq<Event>, event: Event)
    ensures Requests(events + [event]) == Requests(events) + if event.ResendPackets? then 1 else 0
  {
    assert (events + [event])[..|events|] == events;
  }

  lemma ReportMakesNoRequest(t: Tracker)
    ensures Requests(Report(t).events) == Requests(t.events)
  {
    hide Requests;
    RequestsAppend(t.events, PacketTimedOut(t.held));
  }

  /** A walk asks at most once, and then sets the timer one interval ahead. */
  lemma WalkRequests(t: Tracker, now: nat)
    requires t.Valid() && now < RECEIVED
    ensures var after := Scan(t, now);
            || Requests(after.events) == Requests(t.events)
            || (Requests(after.events) == Requests(t.events) + 1 && after.timer == Some(now + t.resendInterval))
  {
    hide Requests, Report, NumbersTo, EarliestTo, WithoutExpired;
    var walked := t.(slots := WithoutExpired(t.slots, now),
                     held := t.held + Numbers(t.base, t.slots, Expired(now)));
    ReportMakesNoRequest(walked);
    RequestsAppend(Report(walked).events, ResendPackets(Numbers(t.base, t.slots, Due(now))));
  }

  lemma PlacedMakesNoRequest(t: Tracker, id: u16, clock: Clock)
    requires t.Valid() && clock.Valid(t.nackDelay)
    ensures Requests(Placed(t, id, clock).events) == Requests(t.events)
  {
    hide Requests, Report, NumbersTo, Place, WrappingSub, At;
    match Place(t, id, clock.arrival)
    case Ahead(count) =>
      ReportMakesNoRequest(t.(held := t.held + NumbersTo(t.base, t.slots, Pending, count)));
    case InWindow(_) =>
    case Stale =>
    case Silent => RestartMakesNoRequest(t, id, SequenceTimedOut);
    case Gapped => RestartMakesNoRequest(t, id, SequenceGapped);
  }

  lemma RestartMakesNoRequest(t: Tracker, id: u16, marker: Event)
    requires t.Valid() && !marker.ResendPackets?
    ensures Requests(Restart(t, id, marker).events) == Requests(t.events)
  {
    hide Requests, Report, NumbersTo, WrappingSub, At;
    ReportMakesNoRequest(Flush(t, false));
    RequestsAppend(Flush(t, true).events, marker);
    assert Flush(t, true).events + [] == Flush(t, true).events;
  }

  /** The next request has to wait: the timer is set no earlier than `due`, or `due` has passed. */
  predicate Spaced(t: Tracker, time: nat, due: nat) {
    due <= time || (t.timer.Some? && due <= t.timer.value)
  }

  /** One call that drops nothing: a request it makes comes at `due` or later and moves `due` on by the interval. */
  lemma NextIsSpaced(w: World, call: Call, due: nat)
    requires w.tracker.Valid() && Allowed(w, call) && !Drops(call) && Spaced(w.tracker, w.time, due)
    ensures var n, made := Next(w, call), Made(w, call);
            && Requests(n.tracker.events) == Requests(w.tracker.events) + |made|
            && (if made == [] then Spaced(n.tracker, n.time, due)
                else due <= made[0].time && Spaced(n.tracker, n.time, made[0].time + made[0].interval))
  {
    hide Requests, Placed, Place, Scan, NewlyOpen, Answered;
    var t := w.tracker;
    match call
    case Receive(id, clock) =>
      if Place(t, id, clock.arrival) != Stale {
        PlacedMakesNoRequest(t, id, clock);
        PlacedKeepsTimer(t, id, clock);
        PlacedKeepsSettings(t, id, clock);
        WalkRequests(Placed(t, id, clock), clock.scan);
      }
    case PollAt(now) => WalkRequests(t.(timer := None), now);
    case _ =>
  }

  /** Each request of the log comes at least the interval set at the one before it after that one. */
  ghost predicate KeepsDistance(log: seq<Request>) {
    forall i :: 0 < i < |log| ==> log[i - 1].time + log[i - 1].interval <= log[i].time
  }

  /** When the next request may come after the ones in the log. */
  function NextDue(log: seq<Request>): nat {
    if log == [] then 0 else log[|log| - 1].time + log[|log| - 1].interval
  }

  lemma LogGrows(log: seq<Request>, made: seq<Request>)
    requires KeepsDistance(log) && |made| <= 1 && (made != [] ==> NextDue(log) <= made[0].time)
    ensures KeepsDistance(log + made)
    ensures NextDue(log + made) == if made == [] then NextDue(log) else made[0].time + made[0].interval
  {
    assert log + [] == log;
  }

  lemma NothingKeepsDistance()
    ensures KeepsDistance([])
  {
  }

  /**
   * Over every run, whatever the settings: the requests made since some call, with no reset and no resize in between,
   * are all the resend events since then, and each comes at least an interval after the one before it.
   */
  lemma {:induction false} ResendRequestsAreSpaced(size: nat, calls: seq<Call>, from: nat)
    requires Allowed(Start(size), SetsFrameSize(size)) && After(size, calls).Some? && from <= |calls|
    requires forall i :: from <= i < |calls| ==> !Drops(calls[i])
    ensures After(size, calls[..from]).Some?
    ensures var w, log := After(size, calls).value, RequestLog(size, calls, from);
            && KeepsDistance(log) && Spaced(w.tracker, w.time, NextDue(log))
            && Requests(w.tracker.events) == Requests(After(size, calls[..from]).value.tracker.events) + |log|
  {
    hide Requests, KeepsDistance, Next, Made;
    if |calls| == from {
      assert calls[..from] == calls;
      NothingKeepsDistance();
    } else {
      var prefix, call := calls[..|calls| - 1], calls[|calls| - 1];
      ResendRequestsAreSpaced(size, prefix, from);
      assert calls[..from] == prefix[..from];
      var before, log := After(size, prefix).value, RequestLog(size, prefix, from);
      var made := Made(before, call);
      NextIsSpaced(before, call, NextDue(log));
      LogGrows(log, made);
    }
  }
}
