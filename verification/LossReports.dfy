/**
 * What the loss tracker reports with each call, in which order, and what each call leaves for the next
 * (src/utils/resend_requester.rs).
 */
module LossReports {
  import opened Prelude
  import opened SerialNumbers
  import opened LossWindow
  import opened LossRuns
  import opened ResendTimers

  /** The open numbers less than `count` steps into the window, in the window's order. */
  ghost predicate ListsOpen(t: Tracker, numbers: seq<u16>, count: nat) {
    && (forall n :: n in numbers <==> n in Open(t) && Forward(t.base, n, NUMBERS) < count)
    && Ascending(numbers, t.base, count)
  }

  lemma OpenIsListed(t: Tracker, count: nat)
    requires count <= |t.slots| < NUMBERS
    ensures ListsOpen(t, NumbersTo(t.base, t.slots, Pending, count), count)
  {
    hide NumbersTo, Forward, At, Ascending;
    forall n: u16
      ensures n in NumbersTo(t.base, t.slots, Pending, count) <==> n in Open(t) && Forward(t.base, n, NUMBERS) < count
    {
      NumbersAreExact(t.base, t.slots, Pending, count, n);
    }
    NumbersAscend(t.base, t.slots, Pending, count);
  }

  /** How many of the oldest numbers a packet moves out of the window. */
  function Leaving(t: Tracker, place: Placement): nat {
    match place
    case Ahead(count) => count
    case Silent => |t.slots|
    case Gapped => |t.slots|
    case _ => 0
  }

  function LossEvent(numbers: seq<u16>): seq<Event> {
    if numbers == [] then [] else [PacketTimedOut(numbers)]
  }

  function RequestEvent(numbers: seq<u16>): seq<Event> {
    if numbers == [] then [] else [ResendPackets(numbers)]
  }

  /** A sequence that ends with numbers open is marked, by why it ended. */
  ghost function Marker(t: Tracker, place: Placement): seq<Event> {
    if Open(t) == map[] then []
    else match place
      case Silent => [SequenceTimedOut]
      case Gapped => [SequenceGapped]
      case _ => []
  }

  lemma PendingExactlyWhenOpen(t: Tracker)
    requires t.Valid()
    ensures HasPending(t.slots) <==> Open(t) != map[]
  {
    if i :| 0 <= i < |t.slots| && t.slots[i] != RECEIVED {
      SlotIsOpen(t, i);
      assert At(t.base, i) in Open(t);
    }
    if Open(t) != map[] {
      var n :| n in Open(t);
      assert t.slots[Forward(t.base, n, NUMBERS)] != RECEIVED;
    }
  }

  lemma ReportAddsEvent(t: Tracker)
    ensures Report(t).events == t.events + LossEvent(t.held) && Report(t).held == []
  {
    assert t.events + [] == t.events;
  }

  /** The numbers a packet moves out of the window are reported at once, with those held back, before any marker. */
  lemma PlacedReports(t: Tracker, id: u16, clock: Clock) returns (lost: seq<u16>)
    requires t.Valid() && clock.Valid(t.nackDelay)
    ensures var place, after := Place(t, id, clock.arrival), Placed(t, id, clock);
            && ListsOpen(t, lost, Leaving(t, place))
            && (if Leaving(t, place) == 0 then after.events == t.events && after.held == t.held
                else after.events == t.events + LossEvent(t.held + lost) + Marker(t, place) && after.held == [])
  {
    hide NumbersTo, Open, Report, Place, WrappingSub, At, ListsOpen, LossEvent, HasPending;
    var place := Place(t, id, clock.arrival);
    lost := NumbersTo(t.base, t.slots, Pending, Leaving(t, place));
    OpenIsListed(t, Leaving(t, place));
    PendingExactlyWhenOpen(t);
    ReportAddsEvent(t.(held := t.held + lost));
    ReportAddsEvent(t.(slots := Cleared(|t.slots|), held := t.held + lost));
    var reported := t.events + LossEvent(t.held + lost);
    assert reported + [] == reported;
  }

  /** A walk reports the numbers it gives up, with those held back, and behind them asks for the due ones. */
  lemma WalkReports(t: Tracker, now: nat) returns (expired: seq<u16>, due: seq<u16>)
    requires t.Valid() && now < RECEIVED
    ensures forall n :: n in due <==> IsDue(Open(t), n, now)
    ensures forall n :: n in expired <==> n in Open(t) && Open(t)[n] + LIFETIME <= now
    ensures Ascending(due, t.base, |t.slots|) && Ascending(expired, t.base, |t.slots|)
    ensures Scan(t, now).events == t.events + LossEvent(t.held + expired) + RequestEvent(due) && Scan(t, now).held == []
  {
    hide NumbersTo, EarliestTo, WithoutExpired, At, Report, Ascending, LossEvent;
    expired, due := Numbers(t.base, t.slots, Expired(now)), Numbers(t.base, t.slots, Due(now));
    WalkIsExact(t, now);
    NumbersAscend(t.base, t.slots, Due(now), |t.slots|);
    NumbersAscend(t.base, t.slots, Expired(now), |t.slots|);
    ReportAddsEvent(t.(slots := WithoutExpired(t.slots, now), held := t.held + expired));
    var reported := t.events + LossEvent(t.held + expired);
    assert reported + [] == reported;
  }

  lemma WalkIsExact(t: Tracker, now: nat)
    requires t.Valid() && now < RECEIVED
    ensures forall n :: n in Numbers(t.base, t.slots, Due(now)) <==> IsDue(Open(t), n, now)
    ensures forall n :: n in Numbers(t.base, t.slots, Expired(now)) <==> n in Open(t) && Open(t)[n] + LIFETIME <= now
  {
    hide NumbersTo;
    forall n: u16
      ensures n in Numbers(t.base, t.slots, Due(now)) <==> IsDue(Open(t), n, now)
      ensures n in Numbers(t.base, t.slots, Expired(now)) <==> n in Open(t) && Open(t)[n] + LIFETIME <= now
    {
      NumbersAreExact(t.base, t.slots, Due(now), |t.slots|, n);
      NumbersAreExact(t.base, t.slots, Expired(now), |t.slots|, n);
    }
  }

  /** What the walk behind a packet, if there is one, says of the numbers open then. */
  ghost predicate Walked(open: map<u16, u32>, now: nat, expired: seq<u16>, due: seq<u16>) {
    && (forall n :: n in due <==> IsDue(open, n, now))
    && forall n :: n in expired <==> n in open && open[n] + LIFETIME <= now
  }

  /**
   * Every event of an accepted packet: first the numbers that leave the window, reported together with those held back,
   * then the marker of a sequence that ended with numbers open, then what a walk gives up and asks for. The packet is
   * the last one received; the settings stay.
   */
  lemma PacketReportsExactly(t: Tracker, id: u16, clock: Clock)
    returns (lost: seq<u16>, expired: seq<u16>, due: seq<u16>)
    requires t.Valid() && clock.Valid(t.nackDelay) && Place(t, id, clock.arrival) != Stale
    ensures var place, after := Place(t, id, clock.arrival), Handle(t, id, clock).1;
            var leaving := Leaving(t, place);
            var held := if leaving == 0 then t.held else [];
            var moved := t.events + if leaving == 0 then [] else LossEvent(t.held + lost) + Marker(t, place);
            && ListsOpen(t, lost, leaving)
            && (if t.timer.Some? then after.events == moved && after.held == held
                else
                  && Walked(OpenStep(t, id, clock), clock.scan, expired, due)
                  && after.events == moved + LossEvent(held + expired) + RequestEvent(due) && after.held == [])
            && after.lastId == id && after.lastTime == clock.arrival
            && after.nackDelay == t.nackDelay && after.resendInterval == t.resendInterval
  {
    hide Place, Open, OpenStep, Scan, ListsOpen, LossEvent, RequestEvent, Marker, IsDue;
    lost := PlacedReports(t, id, clock);
    PlacedKeepsTimer(t, id, clock);
    PlacedRecords(t, id, clock);
    OpenOfPlaced(t, id, clock);
    hide Placed;
    expired, due := [], [];
    var leaving := Leaving(t, Place(t, id, clock.arrival));
    assert t.events + [] == t.events;
    assert t.events + LossEvent(t.held + lost) + Marker(t, Place(t, id, clock.arrival))
        == t.events + (LossEvent(t.held + lost) + Marker(t, Place(t, id, clock.arrival)));
    if t.timer.None? {
      expired, due := WalkReports(Placed(t, id, clock), clock.scan);
      ScanKeepsRecords(Placed(t, id, clock), clock.scan);
    }
  }

  lemma PlacedRecords(t: Tracker, id: u16, clock: Clock)
    requires t.Valid() && clock.Valid(t.nackDelay) && Place(t, id, clock.arrival) != Stale
    ensures var placed := Placed(t, id, clock);
            && placed.lastId == id && placed.lastTime == clock.arrival
            && placed.nackDelay == t.nackDelay && placed.resendInterval == t.resendInterval
  {
    hide NumbersTo, Place, WrappingSub, At;
  }

  lemma ScanKeepsRecords(t: Tracker, now: nat)
    requires t.Valid() && now < RECEIVED
    ensures var after := Scan(t, now);
            && after.lastId == t.lastId && after.lastTime == t.lastTime
            && after.nackDelay == t.nackDelay && after.resendInterval == t.resendInterval
  {
    hide NumbersTo, EarliestTo, WithoutExpired;
  }

  // --- resets ------------------------------------------------------------------------------------

  /** Nothing is open and nothing is due to happen. */
  ghost predicate Idle(t: Tracker) {
    Open(t) == map[] && t.timer == None
  }

  /** The next packet starts a new sequence, unless the clock is within a second of its last value before it wraps. */
  ghost predicate StartsAnew(t: Tracker) {
    forall id: u16, arrival: u32 ::
      Place(t, id, arrival) == Silent <==> arrival < NO_PACKET_TIME || arrival > NO_PACKET_TIME + SILENCE
  }

  lemma ClearedIsEmpty(t: Tracker)
    requires |t.slots| < NUMBERS && t.slots == Cleared(|t.slots|)
    ensures Open(t) == map[]
  {
  }

  lemma NoPacketIsSilence(t: Tracker)
    requires t.lastTime == NO_PACKET_TIME
    ensures StartsAnew(t)
  {
    hide Forward, IsLess;
  }

  lemma NewStartsAnew(size: nat)
    requires 0 < size && 2 * size <= CLIPPING_WINDOW
    ensures Idle(New(size)) && StartsAnew(New(size)) && New(size).events == [] && New(size).held == []
  {
    ClearedIsEmpty(New(size));
    NoPacketIsSilence(New(size));
  }

  /** A reset reports nothing: what was open is held back for the next report. */
  lemma ResetForgets(t: Tracker) returns (open: seq<u16>)
    requires t.Valid()
    ensures var after := Reset(t);
            && ListsOpen(t, open, |t.slots|) && after.held == t.held + open && after.events == t.events
            && Idle(after) && StartsAnew(after) && after.lastId == 0 && |after.slots| == |t.slots|
            && after.nackDelay == t.nackDelay && after.resendInterval == t.resendInterval
  {
    hide NumbersTo, Open, Place;
    open := Numbers(t.base, t.slots, Pending);
    OpenIsListed(t, |t.slots|);
    ClearedIsEmpty(Reset(t));
    NoPacketIsSilence(Reset(t));
  }

  /** Giving up the resends keeps the sequence: packets fall where they would have. */
  lemma ResetResendsKeepsSequence(t: Tracker) returns (open: seq<u16>)
    requires t.Valid()
    ensures var after := ResetResends(t);
            && ListsOpen(t, open, |t.slots|) && after.held == t.held + open && after.events == t.events
            && Idle(after) && after.lastId == t.lastId
            && after.nackDelay == t.nackDelay && after.resendInterval == t.resendInterval
            && forall id: u16, arrival: u32 :: Place(after, id, arrival) == Place(t, id, arrival)
  {
    hide NumbersTo, Open;
    open := Numbers(t.base, t.slots, Pending);
    OpenIsListed(t, |t.slots|);
    ClearedIsEmpty(ResetResends(t));
    hide Forward, IsLess;
  }

  /** A new size reports everything open and starts anew. */
  lemma ResizeReports(t: Tracker, size: nat) returns (open: seq<u16>)
    requires t.Valid() && 0 < size && 2 * size <= CLIPPING_WINDOW
    ensures var after := SetFrameSize(t, size);
            && ListsOpen(t, open, |t.slots|) && after.events == t.events + LossEvent(t.held + open) && after.held == []
            && Idle(after) && StartsAnew(after) && after.lastId == 0 && |after.slots| == size
            && after.nackDelay == t.nackDelay && after.resendInterval == t.resendInterval
  {
    hide NumbersTo, Open, Place, Reset, Flush;
    open := Numbers(t.base, t.slots, Pending);
    OpenIsListed(t, |t.slots|);
    FlushReports(t);
    var cleared := Flush(t, true).(slots := Cleared(size));
    ClearedIsEmpty(cleared);
    ResetOfCleared(cleared);
    NoPacketIsSilence(Reset(cleared));
  }

  lemma ResetOfCleared(t: Tracker)
    requires |t.slots| < NUMBERS && t.slots == Cleared(|t.slots|)
    ensures Reset(t) == t.(timer := None, lastId := 0, lastTime := NO_PACKET_TIME, base := 0)
    ensures Idle(Reset(t))
  {
    hide NumbersTo, Open;
    NumbersEmptyExactlyWhenNone(t.base, t.slots, Pending, |t.slots|);
    ClearedIsEmpty(Reset(t));
    assert t.held + [] == t.held;
  }

  lemma FlushReports(t: Tracker)
    requires t.Valid()
    ensures var flushed := Flush(t, true);
            && flushed.events == t.events + LossEvent(t.held + Numbers(t.base, t.slots, Pending)) && flushed.held == []
            && flushed.nackDelay == t.nackDelay && flushed.resendInterval == t.resendInterval
            && flushed.delivered == t.delivered
  {
    hide NumbersTo, Report, LossEvent;
    ReportAddsEvent(Flush(t, false));
    ReportKeepsRest(Flush(t, false));
  }

  lemma ReportKeepsRest(t: Tracker)
    ensures Report(t) == t.(events := Report(t).events, held := [])
  {
  }

  // --- whole runs --------------------------------------------------------------------------------

  /** What the consumer has been given. */
  function Given(size: nat, calls: seq<Call>): seq<Event>
    requires Allowed(Start(size), SetsFrameSize(size)) && After(size, calls).Some?
  {
    if calls == [] then []
    else
      var prefix, call := calls[..|calls| - 1], calls[|calls| - 1];
      Given(size, prefix) + match call
        case PollAt(now) =>
          (var event := Poll(After(size, prefix).value.tracker, now).0; if event.Some? then [event.value] else [])
        case _ => []
  }

  lemma NextKeepsGiven(w: World, call: Call)
    requires w.tracker.Valid() && Allowed(w, call)
    ensures var t, t' := w.tracker, Next(w, call).tracker;
            && t.events <= t'.events
            && t'.delivered == t.delivered + if call.PollAt? && t.delivered < |t.events| then 1 else 0
  {
    hide NumbersTo, Handle, Scan, NewlyOpen, Answered, Flush;
    match call
    case SetsFrameSize(size) => FlushReports(w.tracker);
    case _ =>
  }

  /** Over every run, the consumer is given every event once, in the order they were made. */
  lemma {:induction false} EventsAreGivenInOrder(size: nat, calls: seq<Call>)
    requires Allowed(Start(size), SetsFrameSize(size)) && After(size, calls).Some?
    ensures var t := After(size, calls).value.tracker; Given(size, calls) == t.events[..t.delivered]
  {
    hide Next, Allowed;
    if calls != [] {
      var prefix, call := calls[..|calls| - 1], calls[|calls| - 1];
      EventsAreGivenInOrder(size, prefix);
      var t, t' := After(size, prefix).value.tracker, After(size, calls).value.tracker;
      NextKeepsGiven(After(size, prefix).value, call);
      assert t'.events[..t.delivered] == t.events[..t.delivered];
      hide Given;
    }
  }

  /** The number of the last packet a run has accepted since it last started anew; 0 if none. */
  function LastAccepted(size: nat, calls: seq<Call>): u16
    requires Allowed(Start(size), SetsFrameSize(size)) && After(size, calls).Some?
  {
    if calls == [] then 0
    else
      var prefix, call := calls[..|calls| - 1], calls[|calls| - 1];
      match call
      case Receive(id, clock) =>
        if Handle(After(size, prefix).value.tracker, id, clock).0 == Success then id else LastAccepted(size, prefix)
      case Resets => 0
      case SetsFrameSize(_) => 0
      case _ => LastAccepted(size, prefix)
  }

  lemma NextLastId(w: World, call: Call)
    requires w.tracker.Valid() && Allowed(w, call)
    ensures Next(w, call).tracker.lastId ==
            match call
            case Receive(id, clock) => if Handle(w.tracker, id, clock).0 == Success then id else w.tracker.lastId
            case Resets => 0
            case SetsFrameSize(_) => 0
            case _ => w.tracker.lastId
  {
    hide NumbersTo, Place, Placed, Scan, NewlyOpen, Answered;
    match call
    case Receive(id, clock) =>
      if Place(w.tracker, id, clock.arrival) != Stale {
        PlacedRecords(w.tracker, id, clock);
        ScanKeepsRecords(Placed(w.tracker, id, clock), clock.scan);
      }
    case PollAt(now) => ScanKeepsRecords(w.tracker.(timer := None), now);
    case _ =>
  }

  /** What a receiver report gives as the highest number is the last one accepted. */
  lemma {:induction false} LastIdIsLastAccepted(size: nat, calls: seq<Call>)
    requires Allowed(Start(size), SetsFrameSize(size)) && After(size, calls).Some?
    ensures After(size, calls).value.tracker.lastId == LastAccepted(size, calls)
  {
    hide Next, Allowed, Handle;
    if calls != [] {
      LastIdIsLastAccepted(size, calls[..|calls| - 1]);
      NextLastId(After(size, calls[..|calls| - 1]).value, calls[|calls| - 1]);
    }
  }
}
