/**
 * What the loss tracker keeps over whole runs: conservation of losses, wake-ups, bounded life
 * (src/utils/resend_requester.rs).
 */
module LossRuns {
  import opened Prelude
  import opened SerialNumbers
  import opened LossWindow

  datatype Call =
    | Receive(id: u16, clock: Clock)
    | PollAt(now: nat)
    | Resets
    | ResetsResends
    | SetsFrameSize(size: nat)
    | SetsNackDelay(delay: u32)
    | SetsResendInterval(interval: u32)

  /** A tracker, the time of its last call, and the two ledgers no code keeps. */
  datatype World = World(tracker: Tracker, time: nat, added: seq<u16>, received: seq<u16>)

  function Start(size: nat): World {
    World(New(size), 0, [], [])
  }

  predicate Allowed(w: World, call: Call) {
    match call
    case Receive(_, clock) => w.time <= clock.arrival && clock.Valid(w.tracker.nackDelay)
    case PollAt(now) => w.time <= now < RECEIVED
    case SetsFrameSize(size) => 0 < size && 2 * size <= CLIPPING_WINDOW
    case _ => true
  }

  /** `count` consecutive numbers. */
  function Span(base: u16, count: nat): (numbers: seq<u16>)
    requires count <= NUMBERS
    ensures |numbers| == count
  {
    seq<u16>(count, i requires 0 <= i < count => At(base, i))
  }

  /** The numbers a packet leaves open behind it when the window moves on. */
  function NewlyOpen(t: Tracker, id: u16, arrival: u32): seq<u16>
    requires t.Valid()
  {
    match Place(t, id, arrival)
    case Ahead(count) => Span(At(t.base, |t.slots|), count - 1)
    case _ => []
  }

  /** The open number a packet answers, if any. */
  function Answered(t: Tracker, id: u16, arrival: u32): seq<u16> {
    match Place(t, id, arrival)
    case InWindow(offset) => if t.slots[offset] != RECEIVED then [id] else []
    case _ => []
  }

  function Next(w: World, call: Call): (n: World)
    requires w.tracker.Valid() && Allowed(w, call)
    ensures n.tracker.Valid()
  {
    var t := w.tracker;
    match call
    case Receive(id, clock) =>
      World(Handle(t, id, clock).1, clock.scan,
            w.added + NewlyOpen(t, id, clock.arrival), w.received + Answered(t, id, clock.arrival))
    case PollAt(now) => w.(tracker := Poll(t, now).1, time := now)
    case Resets => w.(tracker := Reset(t))
    case ResetsResends => w.(tracker := ResetResends(t))
    case SetsFrameSize(size) => w.(tracker := SetFrameSize(t, size))
    case SetsNackDelay(delay) => w.(tracker := t.(nackDelay := delay))
    case SetsResendInterval(interval) => w.(tracker := t.(resendInterval := interval))
  }

  /** The world after a run, if every call of it was allowed when made. */
  function After(size: nat, calls: seq<Call>): (w: Option<World>)
    requires Allowed(Start(size), SetsFrameSize(size))
    ensures w.Some? ==> w.value.tracker.Valid()
  {
    if calls == [] then Some(Start(size))
    else
      var before := After(size, calls[..|calls| - 1]);
      var call := calls[|calls| - 1];
      if before.Some? && Allowed(before.value, call) then Some(Next(before.value, call)) else None
  }

  // --- the window as a map -----------------------------------------------------------------------

  /** The simple thing the ring stands for: the open numbers of a sliding window and when each is due. */
  ghost function Open(t: Tracker): map<u16, u32> {
    map n: u16 | 0 <= n < NUMBERS && Forward(t.base, n, NUMBERS) < |t.slots|
                 && t.slots[Forward(t.base, n, NUMBERS)] != RECEIVED
      :: t.slots[Forward(t.base, n, NUMBERS)]
  }

  ghost function Unexpired(open: map<u16, u32>, now: nat): map<u16, u32> {
    map n | n in open && !Is(Expired(now), open[n]) :: open[n]
  }

  /** One packet, on the map. */
  ghost function OpenStep(t: Tracker, id: u16, clock: Clock): map<u16, u32>
    requires t.Valid() && clock.Valid(t.nackDelay)
  {
    var open := Open(t);
    match Place(t, id, clock.arrival)
    case Stale => open
    case InWindow(_) => open - {id}
    case Silent => map[]
    case Gapped => map[]
    case Ahead(count) => OpenMovedOn(t, count, clock.shift + t.nackDelay)
  }

  /** The oldest `count` numbers dropped, the `count - 1` skipped ones added. */
  ghost function OpenMovedOn(t: Tracker, count: nat, deadline: u32): map<u16, u32> {
    (map n | n in Open(t) && Forward(t.base, n, NUMBERS) >= count :: Open(t)[n])
    + (map n: u16 | 0 <= n < NUMBERS && |t.slots| <= Forward(t.base, n, NUMBERS) < |t.slots| + count - 1 :: deadline)
  }

  /** `Handle` is the map step, followed by the scan when no timer is set; only a stale packet has neither. */
  lemma HandleIsMapStep(t: Tracker, id: u16, clock: Clock)
    requires t.Valid() && clock.Valid(t.nackDelay)
    ensures var (verdict, after) := Handle(t, id, clock);
            && (verdict == PacketTooOld <==> Place(t, id, clock.arrival) == Stale)
            && (verdict == PacketTooOld ==> after == t)
            && Open(after) == (if verdict == PacketTooOld || t.timer.Some? then OpenStep(t, id, clock)
                               else Unexpired(OpenStep(t, id, clock), clock.scan))
            && (verdict == Success ==> Forward(after.base, id, NUMBERS) < |after.slots| && id !in Open(after))
  {
    hide Update, Placed, Place, OpenStep, Open, Forward;
    if Place(t, id, clock.arrival) != Stale {
      OpenOfPlaced(t, id, clock);
      OpenOfUpdate(Placed(t, id, clock), clock.scan);
      PlacedKeepsTimer(t, id, clock);
    } else {
      OpenOfStale(t, id, clock);
    }
  }

  lemma PlacedKeepsTimer(t: Tracker, id: u16, clock: Clock)
    requires t.Valid() && clock.Valid(t.nackDelay)
    ensures Placed(t, id, clock).timer == t.timer
  {
    hide NumbersTo, Place, WrappingSub, At;
  }

  lemma OpenOfStale(t: Tracker, id: u16, clock: Clock)
    requires t.Valid() && clock.Valid(t.nackDelay) && Place(t, id, clock.arrival) == Stale
    ensures OpenStep(t, id, clock) == Open(t)
  {
  }

  lemma OpenOfUpdate(t: Tracker, now: nat)
    requires |t.slots| < NUMBERS && now < RECEIVED
    ensures Update(t, now).base == t.base && |Update(t, now).slots| == |t.slots|
    ensures Open(Update(t, now)) == if t.timer.Some? then Open(t) else Unexpired(Open(t), now)
  {
    hide NumbersTo, EarliestTo, Forward;
  }

  lemma OpenOfPlaced(t: Tracker, id: u16, clock: Clock)
    requires t.Valid() && clock.Valid(t.nackDelay)
    ensures Open(Placed(t, id, clock)) == OpenStep(t, id, clock)
    ensures Place(t, id, clock.arrival) != Stale ==>
              Forward(Placed(t, id, clock).base, id, NUMBERS) < |t.slots| && id !in Open(Placed(t, id, clock))
  {
    hide Report, Elapsed, IsLess, NumbersTo, Shift, Restart, Open;
    match Place(t, id, clock.arrival)
    case Stale =>
    case Silent => OpenAfterRestart(t, id, SequenceTimedOut, clock.arrival);
    case Gapped => OpenAfterRestart(t, id, SequenceGapped, clock.arrival);
    case InWindow(offset) => OpenAfterAnswer(t, id, offset, clock.arrival);
    case Ahead(count) => OpenAfterShift(t, id, count, clock.shift + t.nackDelay, clock.arrival);
  }

  lemma OpenAfterAnswer(t: Tracker, id: u16, offset: nat, arrival: u32)
    requires t.Valid() && offset < |t.slots| && At(t.base, offset) == id
    ensures var answered := Accept(t, id, offset, arrival);
            Open(answered) == Open(t) - {id} && Forward(answered.base, id, NUMBERS) == offset
  {
  }

  lemma OpenAfterRestart(t: Tracker, id: u16, marker: Event, arrival: u32)
    requires t.Valid()
    ensures var restarted := Accept(Restart(t, id, marker), id, |t.slots| - 1, arrival);
            Open(restarted) == map[] && Forward(restarted.base, id, NUMBERS) == |t.slots| - 1
  {
    hide NumbersTo;
  }

  /** Offsets in a window that has moved on by `count`. */
  lemma ForwardFromLater(base: u16, count: nat, n: u16)
    requires count < NUMBERS
    ensures Forward(At(base, count), n, NUMBERS) == WrappingSub(Forward(base, n, NUMBERS), count, NUMBERS)
  {
  }

  lemma SlotsAfterShift(t: Tracker, id: u16, count: nat, deadline: u32, arrival: u32)
    requires t.Valid() && 0 < count <= |t.slots|
    ensures var shifted := Accept(Shift(t, count, deadline), id, |t.slots| - 1, arrival);
            && shifted.base == At(t.base, count) && |shifted.slots| == |t.slots|
            && shifted.slots == (t.slots[count..] + seq(count, _ => deadline))[|t.slots| - 1 := RECEIVED]
  {
    hide NumbersTo, At;
  }

  lemma OpenAfterShift(t: Tracker, id: u16, count: nat, deadline: u32, arrival: u32)
    requires t.Valid() && 0 < count <= |t.slots| && deadline != RECEIVED
    requires Forward(t.base, id, NUMBERS) == |t.slots| + count - 1
    ensures var shifted := Accept(Shift(t, count, deadline), id, |t.slots| - 1, arrival);
            && Open(shifted) == OpenMovedOn(t, count, deadline) && id !in Open(shifted)
            && Forward(shifted.base, id, NUMBERS) == |t.slots| - 1
  {
    hide NumbersTo, Shift, Accept;
    SlotsAfterShift(t, id, count, deadline, arrival);
    var shifted := Accept(Shift(t, count, deadline), id, |t.slots| - 1, arrival);
    ForwardFromLater(t.base, count, id);
    forall n: u16 | 0 <= n < NUMBERS
      ensures n in Open(shifted) <==> n in OpenMovedOn(t, count, deadline)
      ensures n in Open(shifted) ==> Open(shifted)[n] == OpenMovedOn(t, count, deadline)[n]
    {
      ForwardFromLater(t.base, count, n);
    }
  }

  // --- conservation ------------------------------------------------------------------------------

  /** How often `n` occurs in a list. */
  function Times(n: u16, numbers: seq<u16>): nat {
    multiset(numbers)[n]
  }

  lemma TimesAppend(n: u16, a: seq<u16>, b: seq<u16>)
    ensures Times(n, a + b) == Times(n, a) + Times(n, b)
  {
  }

  lemma TimesFew(n: u16, m: u16)
    ensures Times(n, []) == 0 && Times(n, [m]) == if n == m then 1 else 0
  {
  }

  /** How often `n` has been reported lost. */
  function Reported(n: u16, events: seq<Event>): nat {
    if events == [] then 0
    else
      var last := events[|events| - 1];
      Reported(n, events[..|events| - 1]) + if last.PacketTimedOut? then Times(n, last.numbers) else 0
  }

  function Pendings(t: Tracker): seq<u16>
    requires |t.slots| <= NUMBERS
  {
    Numbers(t.base, t.slots, Pending)
  }

  /** How often `n` has left the window unreceived. */
  function Settled(n: u16, t: Tracker): nat {
    Reported(n, t.events) + Times(n, t.held)
  }

  /** How often `n` is open, held back, or reported. */
  function Accounted(n: u16, t: Tracker): nat
    requires |t.slots| <= NUMBERS
  {
    Settled(n, t) + Times(n, Pendings(t))
  }

  lemma ReportedAppend(n: u16, events: seq<Event>, event: Event)
    ensures Reported(n, events + [event])
         == Reported(n, events) + if event.PacketTimedOut? then Times(n, event.numbers) else 0
  {
    assert (events + [event])[..|events|] == events;
  }

  lemma ReportKeepsAccount(n: u16, t: Tracker)
    ensures Settled(n, Report(t)) == Settled(n, t)
    ensures Report(t) == t.(events := Report(t).events, held := [])
  {
    hide Reported, Times;
    ReportedAppend(n, t.events, PacketTimedOut(t.held));
    TimesFew(n, n);
  }

  lemma ClearedHasNone(n: u16, base: u16, size: nat)
    requires size <= NUMBERS
    ensures Times(n, Numbers(base, Cleared(size), Pending)) == 0
  {
    NumbersEmptyExactlyWhenNone(base, Cleared(size), Pending, size);
    TimesFew(n, n);
  }

  lemma FlushKeepsAccount(n: u16, t: Tracker, emit: bool)
    requires |t.slots| < NUMBERS
    ensures Accounted(n, Flush(t, emit)) == Accounted(n, t)
    ensures Flush(t, emit).slots == Cleared(|t.slots|)
  {
    hide NumbersTo, Times;
    ClearedHasNone(n, t.base, |t.slots|);
    TimesAppend(n, t.held, Pendings(t));
    ReportKeepsAccount(n, Flush(t, false));
  }

  lemma RestartKeepsAccount(n: u16, t: Tracker, marker: Event)
    requires 0 < |t.slots| < NUMBERS && !marker.PacketTimedOut?
    ensures forall id :: Accounted(n, Restart(t, id, marker)) == Accounted(n, t)
    ensures forall id :: Restart(t, id, marker).slots == Cleared(|t.slots|)
  {
    hide NumbersTo, Reported, Times, Flush, WrappingSub, At;
    FlushKeepsAccount(n, t, true);
    var flushed := Flush(t, true);
    ReportedAppend(n, flushed.events, marker);
    assert flushed.events + [] == flushed.events;
    forall id ensures Accounted(n, Restart(t, id, marker)) == Accounted(n, t) {
      ClearedHasNone(n, Restart(t, id, marker).base, |t.slots|);
      ClearedHasNone(n, t.base, |t.slots|);
      ClearedHasNone(n, flushed.base, |t.slots|);
    }
  }

  lemma TimesStep(n: u16, base: u16, slots: seq<u32>, sort: Sort, count: nat)
    requires 0 < count <= |slots| <= NUMBERS
    ensures Times(n, NumbersTo(base, slots, sort, count))
         == Times(n, NumbersTo(base, slots, sort, count - 1))
            + if Is(sort, slots[count - 1]) then Times(n, [At(base, count - 1)]) else 0
  {
    hide At;
    TimesAppend(n, NumbersTo(base, slots, sort, count - 1), [At(base, count - 1)]);
  }

  /** Receiving the number of one slot takes exactly it out of the list. */
  lemma {:induction false} OneSlotReceived(n: u16, base: u16, slots: seq<u32>, offset: nat, count: nat)
    requires offset < |slots| <= NUMBERS && count <= |slots|
    ensures Times(n, NumbersTo(base, slots, Pending, count))
         == Times(n, NumbersTo(base, slots[offset := RECEIVED], Pending, count))
            + if offset < count && slots[offset] != RECEIVED then Times(n, [At(base, offset)]) else 0
  {
    hide At, Times;
    if count > 0 {
      OneSlotReceived(n, base, slots, offset, count - 1);
      TimesStep(n, base, slots, Pending, count);
      TimesStep(n, base, slots[offset := RECEIVED], Pending, count);
    }
  }

  lemma {:induction false} RunOfDeadlines(base: u16, deadline: u32, count: nat, size: nat)
    requires count <= size <= NUMBERS && deadline != RECEIVED
    ensures NumbersTo(base, seq(size, _ => deadline), Pending, count) == Span(base, count)
  {
    if count > 0 {
      RunOfDeadlines(base, deadline, count - 1, size);
    }
  }

  lemma Rejoined(slots: seq<u32>, count: nat)
    requires count <= |slots|
    ensures slots[..count] + slots[count..] == slots
  {
  }

  lemma NumbersOfTake(base: u16, slots: seq<u32>, sort: Sort, count: nat)
    requires count <= |slots| <= NUMBERS
    ensures NumbersTo(base, slots, sort, count) == Numbers(base, slots[..count], sort)
  {
    hide At;
    Rejoined(slots, count);
    NumbersOfPrefix(base, slots[..count], slots[count..], sort, count);
  }

  lemma DroppedAndKept(base: u16, slots: seq<u32>, count: nat)
    requires 0 < count <= |slots| < NUMBERS
    ensures Numbers(base, slots, Pending)
         == NumbersTo(base, slots, Pending, count) + Numbers(At(base, count), slots[count..], Pending)
  {
    hide At, NumbersTo;
    NumbersOfTake(base, slots, Pending, count);
    Rejoined(slots, count);
    NumbersOfConcatenation(base, slots[..count], slots[count..], Pending, |slots| - count);
  }

  lemma NumbersBeforeReceived(base: u16, slots: seq<u32>)
    requires |slots| < NUMBERS
    ensures Numbers(base, slots + [RECEIVED], Pending) == Numbers(base, slots, Pending)
  {
    NumbersOfPrefix(base, slots, [RECEIVED], Pending, |slots|);
  }

  lemma KeptAndSkipped(base: u16, slots: seq<u32>, count: nat, deadline: u32)
    requires 0 < count <= |slots| && 2 * |slots| <= CLIPPING_WINDOW && deadline != RECEIVED
    ensures var moved := slots[count..] + seq(count, _ => deadline);
            Numbers(At(base, count), moved[|slots| - 1 := RECEIVED], Pending)
            == Numbers(At(base, count), slots[count..], Pending) + Span(At(base, |slots|), count - 1)
  {
    hide NumbersTo;
    var base', kept, added := At(base, count), slots[count..], seq(count - 1, _ => deadline);
    var moved := slots[count..] + seq(count, _ => deadline);
    assert moved[|slots| - 1 := RECEIVED] == kept + (added + [RECEIVED]);
    NumbersOfConcatenation(base', kept, added + [RECEIVED], Pending, count);
    assert At(base', |kept|) == At(base, |slots|);
    NumbersBeforeReceived(At(base, |slots|), added);
    RunOfDeadlines(At(base, |slots|), deadline, count - 1, count - 1);
  }

  /** A shift that ends at the received number opens the numbers it skips and accounts for every one it drops. */
  lemma ShiftOpensSkipped(n: u16, t: Tracker, id: u16, count: nat, deadline: u32, arrival: u32)
    requires 0 < count <= |t.slots| && 2 * |t.slots| <= CLIPPING_WINDOW && deadline != RECEIVED
    ensures Accounted(n, Accept(Shift(t, count, deadline), id, |t.slots| - 1, arrival))
         == Accounted(n, t) + Times(n, Span(At(t.base, |t.slots|), count - 1))
  {
    hide NumbersTo, Reported, Report, At, Span, Times;
    var dropped := NumbersTo(t.base, t.slots, Pending, count);
    var kept := Numbers(At(t.base, count), t.slots[count..], Pending);
    ReportKeepsAccount(n, t.(held := t.held + dropped));
    TimesAppend(n, t.held, dropped);
    DroppedAndKept(t.base, t.slots, count);
    TimesAppend(n, dropped, kept);
    KeptAndSkipped(t.base, t.slots, count, deadline);
    TimesAppend(n, kept, Span(At(t.base, |t.slots|), count - 1));
  }

  /** Scanning moves the expired numbers, each once, out of the open ones. */
  lemma {:induction false} ScanSplits(n: u16, base: u16, slots: seq<u32>, now: nat, count: nat)
    requires count <= |slots| <= NUMBERS && now < RECEIVED
    ensures Times(n, NumbersTo(base, slots, Pending, count))
         == Times(n, NumbersTo(base, slots, Expired(now), count))
            + Times(n, NumbersTo(base, WithoutExpired(slots, now), Pending, count))
  {
    hide At, Times;
    TimesFew(n, n);
    if count > 0 {
      ScanSplits(n, base, slots, now, count - 1);
      TimesStep(n, base, slots, Pending, count);
      TimesStep(n, base, slots, Expired(now), count);
      TimesStep(n, base, WithoutExpired(slots, now), Pending, count);
    }
  }

  lemma UpdateKeepsAccount(n: u16, t: Tracker, now: nat)
    requires |t.slots| < NUMBERS && now < RECEIVED
    ensures Accounted(n, Update(t, now)) == Accounted(n, t)
  {
    hide NumbersTo, Reported, EarliestTo, WithoutExpired, Report, Times;
    if t.timer.None? {
      var expired := Numbers(t.base, t.slots, Expired(now));
      var scanned := t.(slots := WithoutExpired(t.slots, now), held := t.held + expired);
      ScanSplits(n, t.base, t.slots, now, |t.slots|);
      TimesAppend(n, t.held, expired);
      ReportKeepsAccount(n, scanned);
      ReportedAppend(n, Report(scanned).events, ResendPackets(Numbers(t.base, t.slots, Due(now))));
    }
  }

  lemma PlacedKeepsAccount(n: u16, t: Tracker, id: u16, clock: Clock)
    requires t.Valid() && clock.Valid(t.nackDelay)
    ensures Accounted(n, t) + Times(n, NewlyOpen(t, id, clock.arrival))
         == Accounted(n, Placed(t, id, clock)) + Times(n, Answered(t, id, clock.arrival))
  {
    hide NumbersTo, Reported, Restart, Shift, Span, Place, At, Times;
    TimesFew(n, n);
    assert Cleared(|t.slots|)[|t.slots| - 1 := RECEIVED] == Cleared(|t.slots|);
    match Place(t, id, clock.arrival)
    case Stale =>
    case Silent => RestartKeepsAccount(n, t, SequenceTimedOut);
    case Gapped => RestartKeepsAccount(n, t, SequenceGapped);
    case InWindow(offset) => OneSlotReceived(n, t.base, t.slots, offset, |t.slots|);
    case Ahead(count) => ShiftOpensSkipped(n, t, id, count, clock.shift + t.nackDelay, clock.arrival);
  }

  lemma ResetKeepsAccount(n: u16, t: Tracker)
    requires |t.slots| < NUMBERS
    ensures Accounted(n, Reset(t)) == Accounted(n, t)
  {
    hide NumbersTo, Reported, Times, Flush;
    var stopped := t.(timer := None, lastId := 0, lastTime := NO_PACKET_TIME);
    FlushKeepsAccount(n, stopped, false);
    ClearedHasNone(n, Flush(stopped, false).base, |t.slots|);
    ClearedHasNone(n, 0, |t.slots|);
  }

  lemma ResizeKeepsAccount(n: u16, t: Tracker, size: nat)
    requires |t.slots| < NUMBERS && size < NUMBERS
    ensures Accounted(n, SetFrameSize(t, size)) == Accounted(n, t)
  {
    hide NumbersTo, Reported, Times, Flush, Reset;
    FlushKeepsAccount(n, t, true);
    var flushed := Flush(t, true);
    ClearedHasNone(n, flushed.base, |t.slots|);
    ClearedHasNone(n, flushed.base, size);
    ResetKeepsAccount(n, flushed.(slots := Cleared(size)));
  }

  lemma StaleIsKept(t: Tracker, id: u16, clock: Clock)
    requires t.Valid() && clock.Valid(t.nackDelay) && Place(t, id, clock.arrival) == Stale
    ensures Placed(t, id, clock) == t
  {
  }

  lemma NextKeepsAccount(n: u16, w: World, call: Call)
    requires w.tracker.Valid() && Allowed(w, call)
    ensures Times(n, Next(w, call).added) - Times(n, Next(w, call).received) - Accounted(n, Next(w, call).tracker)
         == Times(n, w.added) - Times(n, w.received) - Accounted(n, w.tracker)
  {
    hide NumbersTo, Reported, Placed, Update, Reset, NewlyOpen, Answered, SetFrameSize, Flush, Times, Place;
    var t := w.tracker;
    match call
    case Receive(id, clock) =>
      TimesAppend(n, w.added, NewlyOpen(t, id, clock.arrival));
      TimesAppend(n, w.received, Answered(t, id, clock.arrival));
      PlacedKeepsAccount(n, t, id, clock);
      if Place(t, id, clock.arrival) == Stale {
        StaleIsKept(t, id, clock);
      } else {
        UpdateKeepsAccount(n, Placed(t, id, clock), clock.scan);
      }
    case PollAt(now) => UpdateKeepsAccount(n, t.(timer := None), now);
    case Resets => ResetKeepsAccount(n, t);
    case ResetsResends => FlushKeepsAccount(n, t.(timer := None), false);
    case SetsFrameSize(size) => ResizeKeepsAccount(n, t, size);
    case _ =>
  }

  /**
   * Over every run, each number that became open is, once for each time it did: received, in one loss report,
   * held back after a silent flush, or still open.
   */
  lemma {:induction false} LossesAreConserved(size: nat, calls: seq<Call>, n: u16)
    requires Allowed(Start(size), SetsFrameSize(size)) && After(size, calls).Some?
    ensures var w := After(size, calls).value;
            Times(n, w.added) == Times(n, w.received) + Reported(n, w.tracker.events) + Times(n, w.tracker.held)
                                 + Times(n, Pendings(w.tracker))
  {
    if calls == [] {
      ClearedHasNone(n, 0, size);
    } else {
      hide NumbersTo, Reported, Next, Times;
      var prefix, call := calls[..|calls| - 1], calls[|calls| - 1];
      LossesAreConserved(size, prefix, n);
      NextKeepsAccount(n, After(size, prefix).value, call);
    }
  }

  // --- timers ------------------------------------------------------------------------------------

  ghost predicate Lasts(t: Tracker, slot: u32, now: nat, limit: nat) {
    slot != RECEIVED ==> slot <= now + limit && t.timer.Some? && t.timer.value < slot + LIFETIME + limit
  }

  /** What holds between calls while neither setting exceeds `limit`. */
  ghost predicate Awake(t: Tracker, now: nat, limit: nat) {
    && t.nackDelay <= limit && t.resendInterval <= limit
    && (t.timer.Some? ==> t.timer.value <= now + limit)
    && (forall i :: 0 <= i < |t.slots| ==> Lasts(t, t.slots[i], now, limit))
  }

  predicate SettingsWithin(call: Call, limit: nat) {
    match call
    case SetsNackDelay(delay) => delay <= limit
    case SetsResendInterval(interval) => interval <= limit
    case _ => true
  }

  lemma UpdateArmsTimer(t: Tracker, now: nat, limit: nat)
    requires t.Valid() && now < RECEIVED && t.nackDelay <= limit && t.resendInterval <= limit
    requires t.timer.Some? ==> Awake(t, now, limit)
    requires forall i :: 0 <= i < |t.slots| && t.slots[i] != RECEIVED ==> t.slots[i] <= now + limit
    ensures Awake(Update(t, now), now, limit)
  {
    hide NumbersTo, EarliestTo;
    if t.timer.None? {
      NumbersEmptyExactlyWhenNone(t.base, t.slots, Due(now), |t.slots|);
      EarliestIsMinimum(t.slots, now, |t.slots|);
    }
  }

  lemma PlacedStaysAwake(t: Tracker, id: u16, clock: Clock, now: nat, limit: nat)
    requires t.Valid() && clock.Valid(t.nackDelay) && Awake(t, now, limit) && now <= clock.arrival
    ensures var placed := Placed(t, id, clock);
            && placed.timer == t.timer && placed.nackDelay == t.nackDelay && placed.resendInterval == t.resendInterval
            && (t.timer.Some? ==> Awake(placed, clock.scan, limit))
            && forall i :: 0 <= i < |placed.slots| && placed.slots[i] != RECEIVED ==>
                 placed.slots[i] <= clock.scan + limit
  {
    hide NumbersTo, Place, WrappingSub, At;
    match Place(t, id, clock.arrival)
    case Ahead(count) =>
      var shifted := Shift(t, count, clock.shift + t.nackDelay);
      forall i | 0 <= i < |shifted.slots| && shifted.slots[i] != RECEIVED
        ensures shifted.slots[i] <= clock.scan + limit
        ensures t.timer.Some? ==> Lasts(t, shifted.slots[i], clock.scan, limit)
      {
        assert shifted.slots[i] == (if i < |t.slots| - count then t.slots[count + i] else clock.shift + t.nackDelay);
        assert i < |t.slots| - count ==> Lasts(t, t.slots[count + i], now, limit);
      }
    case _ =>
  }

  lemma NextStaysAwake(w: World, call: Call, limit: nat)
    requires w.tracker.Valid() && Allowed(w, call) && Awake(w.tracker, w.time, limit) && SettingsWithin(call, limit)
    ensures Awake(Next(w, call).tracker, Next(w, call).time, limit)
  {
    hide NumbersTo, Update, NewlyOpen, Answered, Place, Placed;
    var t := w.tracker;
    match call
    case Receive(id, clock) =>
      if Place(t, id, clock.arrival) != Stale {
        PlacedStaysAwake(t, id, clock, w.time, limit);
        UpdateArmsTimer(Placed(t, id, clock), clock.scan, limit);
      } else {
        assert forall i :: 0 <= i < |t.slots| ==> Lasts(t, t.slots[i], w.time, limit);
      }
    case PollAt(now) =>
      assert forall i :: 0 <= i < |t.slots| ==> Lasts(t, t.slots[i], w.time, limit);
      UpdateArmsTimer(t.(timer := None), now, limit);
    case SetsNackDelay(_) =>
      assert forall i :: 0 <= i < |t.slots| ==> Lasts(t, t.slots[i], w.time, limit);
    case SetsResendInterval(_) =>
      assert forall i :: 0 <= i < |t.slots| ==> Lasts(t, t.slots[i], w.time, limit);
    case _ =>
  }

  /**
   * No lost wake-up and bounded life: whenever a number is open between calls, the timer is set, at most `limit`
   * ahead of the last call and less than LIFETIME + `limit` after the number's own deadline.
   */
  lemma {:induction false} NoLostWakeUp(size: nat, calls: seq<Call>, limit: nat)
    requires Allowed(Start(size), SetsFrameSize(size)) && After(size, calls).Some?
    requires 25 <= limit && forall i :: 0 <= i < |calls| ==> SettingsWithin(calls[i], limit)
    ensures var w := After(size, calls).value;
            && (HasPending(w.tracker.slots) ==> w.tracker.timer.Some?)
            && Awake(w.tracker, w.time, limit)
  {
    if calls != [] {
      hide Next;
      var prefix := calls[..|calls| - 1];
      NoLostWakeUp(size, prefix, limit);
      NextStaysAwake(After(size, prefix).value, calls[|calls| - 1], limit);
    }
    var t, now := After(size, calls).value.tracker, After(size, calls).value.time;
    assert forall i :: 0 <= i < |t.slots| ==> Lasts(t, t.slots[i], now, limit);
  }

  /** A timer run asks again for exactly the due numbers and gives up exactly the expired ones. */
  lemma TimerRunIsExact(t: Tracker, now: nat, n: u16)
    requires t.Valid() && now < RECEIVED && t.timer.Some? && t.timer.value <= now && t.delivered == |t.events|
    ensures var due := Numbers(t.base, t.slots, Due(now));
            var lost := t.held + Numbers(t.base, t.slots, Expired(now));
            var after := Poll(t, now).1;
            && after.events == t.events + (if lost != [] then [PacketTimedOut(lost)] else [])
                               + (if due != [] then [ResendPackets(due)] else [])
            && (n in due <==> n in Open(t) && Open(t)[n] <= now < Open(t)[n] + LIFETIME)
            && (n in lost <==> n in t.held || (n in Open(t) && Open(t)[n] + LIFETIME <= now))
            && (n in Open(after) <==> n in Open(t) && now < Open(t)[n] + LIFETIME)
  {
    hide NumbersTo, EarliestTo;
    NumbersAreExact(t.base, t.slots, Due(now), |t.slots|, n);
    NumbersAreExact(t.base, t.slots, Expired(now), |t.slots|, n);
    assert Poll(t, now).1 == Scan(t.(timer := None), now);
    assert t.events + [] == t.events;
  }

  // --- the order of a resend request -------------------------------------------------------------

  lemma {:induction false} NumbersAscend(base: u16, slots: seq<u32>, sort: Sort, count: nat)
    requires count <= |slots| <= NUMBERS
    ensures Ascending(NumbersTo(base, slots, sort, count), base, count)
  {
    if count > 0 {
      NumbersAscend(base, slots, sort, count - 1);
      assert Forward(base, At(base, count - 1), NUMBERS) == count - 1;
    }
  }

  ghost predicate RequestsAscend(events: seq<Event>) {
    forall i :: 0 <= i < |events| && events[i].ResendPackets? ==>
      exists base: u16 :: Ascending(events[i].numbers, base, FRAME_LIMIT)
  }

  lemma UpdateRequestsAscend(t: Tracker, now: nat)
    requires t.Valid() && now < RECEIVED && RequestsAscend(t.events)
    ensures RequestsAscend(Update(t, now).events)
  {
    hide NumbersTo, EarliestTo, Ascending;
    var due := Numbers(t.base, t.slots, Due(now));
    NumbersAscend(t.base, t.slots, Due(now), |t.slots|);
    assert Ascending(due, t.base, FRAME_LIMIT) by {
      AscendingWidens(due, t.base, |t.slots|, FRAME_LIMIT);
    }
  }

  lemma AscendingWidens(numbers: seq<u16>, base: u16, span: nat, wider: nat)
    requires Ascending(numbers, base, span) && span <= wider
    ensures Ascending(numbers, base, wider)
  {
  }

  lemma NextRequestsAscend(w: World, call: Call)
    requires w.tracker.Valid() && Allowed(w, call) && RequestsAscend(w.tracker.events)
    ensures RequestsAscend(Next(w, call).tracker.events)
  {
    hide NumbersTo, Update, NewlyOpen, Answered, Place, Ascending, At, WrappingSub;
    var t := w.tracker;
    match call
    case Receive(id, clock) =>
      if Place(t, id, clock.arrival) != Stale {
        assert RequestsAscend(Placed(t, id, clock).events);
        UpdateRequestsAscend(Placed(t, id, clock), clock.scan);
      }
    case PollAt(now) => UpdateRequestsAscend(t.(timer := None), now);
    case _ =>
  }

  /** Every list of numbers a run ever asks for again is ascending within one window. */
  lemma {:induction false} ResendRequestsAscend(size: nat, calls: seq<Call>)
    requires Allowed(Start(size), SetsFrameSize(size)) && After(size, calls).Some?
    ensures RequestsAscend(After(size, calls).value.tracker.events)
  {
    if calls != [] {
      hide Next, RequestsAscend;
      var prefix := calls[..|calls| - 1];
      ResendRequestsAscend(size, prefix);
      NextRequestsAscend(After(size, prefix).value, calls[|calls| - 1]);
    }
  }
}
