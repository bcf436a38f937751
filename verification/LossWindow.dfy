/**
 * The loss tracker as a value: a base number and the deadlines of the numbers that follow it
 * (src/utils/resend_requester.rs). No ring, no head: `LossTracker` shows that the ring computes these functions.
 */
module LossWindow {
  import opened Prelude
  import opened SerialNumbers

  const CLIPPING_WINDOW := 1024
  /** The largest frame whose doubled size the clipping window covers. */
  const FRAME_LIMIT := 512
  const RECEIVED: u32 := 0xFFFF_FFFF
  const LIFETIME := 1000
  const SILENCE := 1000
  const NO_PACKET_TIME: u32 := 0xFFFF_0000

  datatype Event =
    | SequenceTimedOut
    | SequenceGapped
    | ResendPackets(numbers: seq<u16>)
    | PacketTimedOut(numbers: seq<u16>)

  datatype Verdict = Success | PacketTooOld

  /** The three clock readings one packet can trigger, in milliseconds since the tracker's base time. */
  datatype Clock = Clock(arrival: nat, shift: nat, scan: nat) {
    predicate Valid(nackDelay: nat) {
      arrival <= shift <= scan < RECEIVED && shift + nackDelay < RECEIVED
    }
  }

  datatype Tracker = Tracker(
    base: u16,
    slots: seq<u32>,
    lastId: u16,
    lastTime: u32,
    nackDelay: u32,
    resendInterval: u32,
    timer: Option<nat>,
    held: seq<u16>,
    events: seq<Event>,
    delivered: nat)
  {
    predicate Valid() {
      0 < |slots| && 2 * |slots| <= CLIPPING_WINDOW && delivered <= |events|
    }

    /** The window keeps its size and the event channel only grows. */
    predicate Extends(before: Tracker) {
      |slots| == |before.slots| && before.events <= events && delivered == before.delivered
    }
  }

  // --- selecting numbers by the state of their slot ----------------------------------------------

  datatype Sort = Pending | Due(now: nat) | Expired(now: nat)

  predicate Is(sort: Sort, slot: u32) {
    match sort
    case Pending => slot != RECEIVED
    case Due(now) => slot <= now && now - slot < LIFETIME
    case Expired(now) => slot <= now && now - slot >= LIFETIME
  }

  /** The numbers of the given sort among the first `count` slots, in window order. */
  function NumbersTo(base: u16, slots: seq<u32>, sort: Sort, count: nat): seq<u16>
    requires count <= |slots| <= NUMBERS
  {
    if count == 0 then []
    else
      NumbersTo(base, slots, sort, count - 1) + if Is(sort, slots[count - 1]) then [At(base, count - 1)] else []
  }

  function Numbers(base: u16, slots: seq<u32>, sort: Sort): seq<u16>
    requires |slots| <= NUMBERS
  {
    NumbersTo(base, slots, sort, |slots|)
  }

  function Cleared(size: nat): seq<u32> {
    seq(size, _ => RECEIVED)
  }

  function WithoutExpired(slots: seq<u32>, now: nat): (kept: seq<u32>)
    ensures |kept| == |slots|
  {
    seq(|slots|, i requires 0 <= i < |slots| => if Is(Expired(now), slots[i]) then RECEIVED else slots[i])
  }

  /** The earliest deadline after `now` among the first `count` slots. */
  function EarliestTo(slots: seq<u32>, now: nat, count: nat): u32
    requires count <= |slots|
  {
    if count == 0 then RECEIVED
    else
      var rest := EarliestTo(slots, now, count - 1);
      if slots[count - 1] > now && slots[count - 1] < rest then slots[count - 1] else rest
  }

  function Earliest(slots: seq<u32>, now: nat): u32 {
    EarliestTo(slots, now, |slots|)
  }

  predicate HasPending(slots: seq<u32>) {
    exists i :: 0 <= i < |slots| && slots[i] != RECEIVED
  }

  // --- the operations ----------------------------------------------------------------------------

  function New(size: nat): Tracker {
    Tracker(0, Cleared(size), 0, NO_PACKET_TIME, 5, 25, None, [], [], 0)
  }

  /** Everything held back is reported in one event. */
  function Report(t: Tracker): (r: Tracker)
    ensures r.Extends(t)
  {
    if t.held == [] then t else t.(events := t.events + [PacketTimedOut(t.held)], held := [])
  }

  function Flush(t: Tracker, emit: bool): (r: Tracker)
    requires |t.slots| < NUMBERS
    ensures r.Extends(t)
  {
    var flushed := t.(slots := Cleared(|t.slots|), held := t.held + Numbers(t.base, t.slots, Pending));
    if emit then Report(flushed) else flushed
  }

  /** A new sequence whose window ends at `id`. */
  function Restart(t: Tracker, id: u16, marker: Event): (r: Tracker)
    requires |t.slots| < NUMBERS
    ensures r.Extends(t)
  {
    var flushed := Flush(t, true);
    flushed.(base := WrappingSub(At(id, 1), |t.slots|, NUMBERS),
             events := flushed.events + if HasPending(t.slots) then [marker] else [])
  }

  /** The window moves on by `count`; numbers that drop out unreceived are reported. */
  function Shift(t: Tracker, count: nat, deadline: u32): (r: Tracker)
    requires count <= |t.slots| < NUMBERS
    ensures r.Extends(t)
  {
    var dropped := t.(held := t.held + NumbersTo(t.base, t.slots, Pending, count));
    Report(dropped).(base := At(t.base, count), slots := t.slots[count..] + seq(count, _ => deadline))
  }

  function Accept(t: Tracker, id: u16, offset: nat, arrival: u32): (r: Tracker)
    requires offset < |t.slots|
    ensures r.Extends(t)
  {
    t.(slots := t.slots[offset := RECEIVED], lastId := id, lastTime := arrival)
  }

  function Elapsed(now: u32, since: u32): u32 {
    WrappingSub(now, since, 0x1_0000_0000)
  }

  /** Where a packet falls, in serial arithmetic. */
  datatype Placement = Silent | InWindow(offset: nat) | Ahead(count: nat) | Stale | Gapped

  function Place(t: Tracker, id: u16, arrival: u32): (place: Placement)
    ensures place.InWindow? ==> place.offset < |t.slots| && place.offset < NUMBERS && At(t.base, place.offset) == id
    ensures place.Ahead? ==> 0 < place.count <= |t.slots|
  {
    var offset, size := Forward(t.base, id, NUMBERS), |t.slots|;
    if Elapsed(arrival, t.lastTime) > SILENCE then Silent
    else if offset < size then InWindow(offset)
    else if offset < 2 * size then Ahead(offset - size + 1)
    else if IsLess(id, t.base, Some(CLIPPING_WINDOW), NUMBERS) then Stale
    else Gapped
  }

  /** The window after a packet, before the scan. */
  function Placed(t: Tracker, id: u16, clock: Clock): (r: Tracker)
    requires t.Valid() && clock.Valid(t.nackDelay)
    ensures r.Extends(t)
  {
    var end := |t.slots| - 1;
    match Place(t, id, clock.arrival)
    case Silent => Accept(Restart(t, id, SequenceTimedOut), id, end, clock.arrival)
    case Gapped => Accept(Restart(t, id, SequenceGapped), id, end, clock.arrival)
    case InWindow(offset) => Accept(t, id, offset, clock.arrival)
    case Ahead(count) => Accept(Shift(t, count, clock.shift + t.nackDelay), id, end, clock.arrival)
    case Stale => t
  }

  function Handle(t: Tracker, id: u16, clock: Clock): (r: (Verdict, Tracker))
    requires t.Valid() && clock.Valid(t.nackDelay)
    ensures r.1.Valid() && r.1.Extends(t)
  {
    if Place(t, id, clock.arrival) == Stale then (PacketTooOld, t)
    else (Success, Update(Placed(t, id, clock), clock.scan))
  }

  /** One walk over the window: expired numbers are given up, due ones requested again, the timer set anew. */
  function Scan(t: Tracker, now: nat): (r: Tracker)
    requires now < RECEIVED && |t.slots| < NUMBERS
    ensures r.Extends(t)
  {
    var due := Numbers(t.base, t.slots, Due(now));
    var earliest := Earliest(t.slots, now);
    var reported := Report(t.(slots := WithoutExpired(t.slots, now),
                              held := t.held + Numbers(t.base, t.slots, Expired(now))));
    if due != [] then
      reported.(events := reported.events + [ResendPackets(due)], timer := Some(now + t.resendInterval))
    else if earliest != RECEIVED then
      reported.(timer := Some(earliest))
    else
      reported
  }

  function Update(t: Tracker, now: nat): (r: Tracker)
    requires now < RECEIVED && |t.slots| < NUMBERS
    ensures r.Extends(t)
  {
    if t.timer.Some? then t else Scan(t, now)
  }

  /** The consumer's poll: the oldest unread event, or else the timer's turn. */
  function Poll(t: Tracker, now: nat): (r: (Option<Event>, Tracker))
    requires t.Valid() && now < RECEIVED
    ensures r.1.Valid() && t.events <= r.1.events
  {
    if t.delivered < |t.events| then (Some(t.events[t.delivered]), t.(delivered := t.delivered + 1))
    else if t.timer.Some? && t.timer.value <= now then (None, Update(t.(timer := None), now))
    else (None, t)
  }

  function Reset(t: Tracker): (r: Tracker)
    requires |t.slots| < NUMBERS
    ensures r.Extends(t)
  {
    Flush(t.(timer := None, lastId := 0, lastTime := NO_PACKET_TIME), false).(base := 0)
  }

  function ResetResends(t: Tracker): (r: Tracker)
    requires |t.slots| < NUMBERS
    ensures r.Extends(t)
  {
    Flush(t.(timer := None), false)
  }

  function SetFrameSize(t: Tracker, size: nat): Tracker
    requires |t.slots| < NUMBERS && size < NUMBERS
  {
    Reset(Flush(t, true).(slots := Cleared(size)))
  }

  // --- facts about the number selection ----------------------------------------------------------

  lemma {:induction false} NumbersOfPrefix(base: u16, a: seq<u32>, b: seq<u32>, sort: Sort, count: nat)
    requires count <= |a| && |a + b| <= NUMBERS
    ensures NumbersTo(base, a + b, sort, count) == NumbersTo(base, a, sort, count)
  {
    if count > 0 {
      NumbersOfPrefix(base, a, b, sort, count - 1);
    }
  }

  lemma {:induction false} NumbersOfConcatenation(base: u16, a: seq<u32>, b: seq<u32>, sort: Sort, count: nat)
    requires |a| < NUMBERS && |a + b| <= NUMBERS && count <= |b|
    ensures NumbersTo(base, a + b, sort, |a| + count)
         == Numbers(base, a, sort) + NumbersTo(At(base, |a|), b, sort, count)
  {
    if count == 0 {
      NumbersOfPrefix(base, a, b, sort, |a|);
    } else {
      NumbersOfConcatenation(base, a, b, sort, count - 1);
      assert At(At(base, |a|), count - 1) == At(base, |a| + count - 1);
    }
  }

  lemma {:induction false} NumbersEmptyExactlyWhenNone(base: u16, slots: seq<u32>, sort: Sort, count: nat)
    requires count <= |slots| <= NUMBERS
    ensures NumbersTo(base, slots, sort, count) == [] <==> forall i :: 0 <= i < count ==> !Is(sort, slots[i])
  {
    if count > 0 {
      NumbersEmptyExactlyWhenNone(base, slots, sort, count - 1);
    }
  }

  /** A number is listed exactly when its slot is of the sort asked for. */
  lemma {:induction false} NumbersAreExact(base: u16, slots: seq<u32>, sort: Sort, count: nat, number: u16)
    requires count <= |slots| <= NUMBERS
    ensures number in NumbersTo(base, slots, sort, count)
      <==> Forward(base, number, NUMBERS) < count && Is(sort, slots[Forward(base, number, NUMBERS)])
  {
    if count > 0 {
      NumbersAreExact(base, slots, sort, count - 1, number);
      assert At(base, count - 1) == number <==> Forward(base, number, NUMBERS) == count - 1;
    }
  }

  lemma {:induction false} EarliestIsMinimum(slots: seq<u32>, now: nat, count: nat)
    requires count <= |slots|
    ensures forall i :: 0 <= i < count && slots[i] > now ==> EarliestTo(slots, now, count) <= slots[i]
    ensures EarliestTo(slots, now, count) == RECEIVED
         || exists i :: 0 <= i < count && slots[i] == EarliestTo(slots, now, count) && slots[i] > now
  {
    if count > 0 {
      EarliestIsMinimum(slots, now, count - 1);
    }
  }
}
