/** The rings of received bytes agree with a log of what was received (src/media/receiver_stats.rs). */
module BandwidthLogs {
  import opened Prelude
  import opened ReceiverStats

  datatype Entry = Entry(second: nat, bytes: nat)

  /** What the log says was received in a second. */
  function BytesIn(log: seq<Entry>, second: int): nat {
    if log == [] then 0
    else
      var last := log[|log| - 1];
      BytesIn(log[..|log| - 1], second) + if last.second == second then last.bytes else 0
  }

  ghost predicate Before(log: seq<Entry>, at: nat) {
    forall k :: 0 <= k < |log| ==> log[k].second <= at
  }

  /** Each of the last 64 seconds up to `at` has its bytes in its slot. */
  ghost predicate Agrees(history: History, at: nat, log: seq<Entry>) {
    forall second: int :: at - HISTORY_TIME_SPAN < second <= at ==>
      history[second % HISTORY_TIME_SPAN] == BytesIn(log, second)
  }

  lemma {:induction false} NothingInTheFuture(log: seq<Entry>, at: nat, second: int)
    requires Before(log, at) && second > at
    ensures BytesIn(log, second) == 0
  {
    if log != [] {
      NothingInTheFuture(log[..|log| - 1], at, second);
    }
  }

  // --- advancing ---------------------------------------------------------------------------------

  lemma {:induction false} AdvanceClears(history: History, index: nat, target: nat)
    requires index < HISTORY_TIME_SPAN && target < HISTORY_TIME_SPAN
    ensures forall j :: 0 <= j < HISTORY_TIME_SPAN ==>
              Advance(history, index, target)[j] ==
              if 0 < Ahead(index, j) <= Ahead(index, target) then 0 else history[j]
    decreases Ahead(index, target)
  {
    if index != target {
      AdvanceClears(history[Following(index) := 0], Following(index), target);
    }
  }

  /** The second that had, at `at`, the slot which `second` has after `at` has become `now`. */
  function Former(at: nat, now: nat, second: int): int
    requires at <= now
  {
    second - HISTORY_TIME_SPAN * ((now - at) / HISTORY_TIME_SPAN)
  }

  lemma AheadIsDistance(from: int, to: int)
    ensures Ahead(from % HISTORY_TIME_SPAN, to % HISTORY_TIME_SPAN) == (to - from) % HISTORY_TIME_SPAN
  {
  }

  /** The slots of the newest seconds are cleared; each other second inherits what was in its slot. */
  lemma SlotAfterAdvance(history: History, at: nat, now: nat, second: int)
    requires at <= now && now - HISTORY_TIME_SPAN < second <= now
    ensures var r := (now - at) % HISTORY_TIME_SPAN;
            Advance(history, Slot(at), Slot(now))[second % HISTORY_TIME_SPAN] ==
            if now - second < r then 0 else history[Former(at, now, second) % HISTORY_TIME_SPAN]
  {
    AdvanceClears(history, Slot(at), Slot(now));
    AheadIsDistance(at, now);
    AheadIsDistance(at, second);
    DistanceOf(at, now, second);
  }

  lemma DistanceOf(at: nat, now: nat, second: int)
    requires at <= now && now - HISTORY_TIME_SPAN < second <= now
    ensures var r := (now - at) % HISTORY_TIME_SPAN;
            && (0 < (second - at) % HISTORY_TIME_SPAN <= r <==> now - second < r)
            && Former(at, now, second) % HISTORY_TIME_SPAN == second % HISTORY_TIME_SPAN
            && (now - second >= r ==> at + r - HISTORY_TIME_SPAN < Former(at, now, second) <= at)
  {
    var q, r := (now - at) / HISTORY_TIME_SPAN, (now - at) % HISTORY_TIME_SPAN;
    assert second - at == HISTORY_TIME_SPAN * q + r - (now - second);
  }

  /** The seconds whose slots an update `now` leaves alone had nothing to count. */
  ghost predicate KeptSlotsWereEmpty(log: seq<Entry>, at: nat, now: nat)
    requires at <= now
  {
    forall second: int :: at + (now - at) % HISTORY_TIME_SPAN - HISTORY_TIME_SPAN < second <= at ==>
      BytesIn(log, second) == 0
  }

  /** What an update has made of one second's slot. */
  predicate SlotTells(advanced: History, log: seq<Entry>, at: nat, now: nat, second: int)
    requires at <= now
  {
    var r := (now - at) % HISTORY_TIME_SPAN;
    && (second > at ==> BytesIn(log, second) == 0)
    && (now - second < r ==> second > at)
    && advanced[second % HISTORY_TIME_SPAN] == if now - second < r then 0 else BytesIn(log, Former(at, now, second))
  }

  lemma AdvanceTells(history: History, log: seq<Entry>, at: nat, now: nat, second: int)
    requires Agrees(history, at, log) && Before(log, at) && at <= now && now - HISTORY_TIME_SPAN < second <= now
    ensures SlotTells(Advance(history, Slot(at), Slot(now)), log, at, now, second)
  {
    hide Advance, BytesIn;
    SlotAfterAdvance(history, at, now, second);
    DistanceOf(at, now, second);
    if second > at {
      NothingInTheFuture(log, at, second);
    }
  }

  /**
   * An update after less than 64 seconds keeps the agreement. After a longer pause it does so exactly when nothing was
   * received in the seconds whose slots it does not clear: only the pause modulo 64 is walked.
   */
  lemma AdvanceAgreesExactly(history: History, log: seq<Entry>, at: nat, now: nat)
    requires Agrees(history, at, log) && Before(log, at) && at <= now
    ensures Agrees(Advance(history, Slot(at), Slot(now)), now, log)
            <==> now - at < HISTORY_TIME_SPAN || KeptSlotsWereEmpty(log, at, now)
  {
    hide Advance, BytesIn, Agrees, SlotTells, KeptSlotsWereEmpty;
    var advanced := Advance(history, Slot(at), Slot(now));
    forall second: int | now - HISTORY_TIME_SPAN < second <= now ensures SlotTells(advanced, log, at, now, second) {
      AdvanceTells(history, log, at, now, second);
    }
    if now - at < HISTORY_TIME_SPAN {
      ShortPause(advanced, log, at, now);
    } else {
      LongPause(advanced, log, at, now);
    }
  }

  lemma ShortPause(advanced: History, log: seq<Entry>, at: nat, now: nat)
    requires 0 <= now - at < HISTORY_TIME_SPAN
    requires forall second: int :: now - HISTORY_TIME_SPAN < second <= now ==> SlotTells(advanced, log, at, now, second)
    ensures Agrees(advanced, now, log)
  {
    hide BytesIn;
    forall second: int | now - HISTORY_TIME_SPAN < second <= now
      ensures advanced[second % HISTORY_TIME_SPAN] == BytesIn(log, second)
    {
      assert SlotTells(advanced, log, at, now, second);
    }
  }

  lemma LongPause(advanced: History, log: seq<Entry>, at: nat, now: nat)
    requires now - at >= HISTORY_TIME_SPAN
    requires forall second: int :: now - HISTORY_TIME_SPAN < second <= now ==> SlotTells(advanced, log, at, now, second)
    ensures Agrees(advanced, now, log) <==> KeptSlotsWereEmpty(log, at, now)
  {
    hide BytesIn;
    var q, r := (now - at) / HISTORY_TIME_SPAN, (now - at) % HISTORY_TIME_SPAN;
    if Agrees(advanced, now, log) {
      forall second: int | at + r - HISTORY_TIME_SPAN < second <= at ensures BytesIn(log, second) == 0 {
        var later := second + HISTORY_TIME_SPAN * q;
        assert SlotTells(advanced, log, at, now, later) && Former(at, now, later) == second && now - later >= r;
        assert advanced[later % HISTORY_TIME_SPAN] == BytesIn(log, later);
      }
    }
    if KeptSlotsWereEmpty(log, at, now) {
      forall second: int | now - HISTORY_TIME_SPAN < second <= now
        ensures advanced[second % HISTORY_TIME_SPAN] == BytesIn(log, second)
      {
        assert SlotTells(advanced, log, at, now, second);
        DistanceOf(at, now, second);
      }
    }
  }

  // --- whole runs --------------------------------------------------------------------------------

  /** The statistics, the second of their last update, and what was registered since the last reset. */
  datatype World = World(stats: Stats, at: nat, payloadLog: seq<Entry>, headerLog: seq<Entry>)

  datatype Call =
    | Registers(packetId: u16, second: nat, headerLength: nat, payloadLength: nat)
    | Ticks(second: nat)
    | ResetsBandwidth
    | Resets

  /** The clock does not go back, and updates are less than 64 seconds apart. */
  predicate Allowed(w: World, call: Call) {
    call.Registers? || call.Ticks? ==> w.at <= call.second < w.at + HISTORY_TIME_SPAN
  }

  function Next(w: World, call: Call): World
    requires w.stats.index < HISTORY_TIME_SPAN
  {
    match call
    case Registers(packetId, second, headerLength, payloadLength) =>
      World(Register(w.stats, packetId, second, headerLength, payloadLength), second,
            w.payloadLog + [Entry(second, payloadLength)], w.headerLog + [Entry(second, headerLength)])
    case Ticks(second) => w.(stats := AdvanceBoth(w.stats, second), at := second)
    case ResetsBandwidth => World(ResetBandwidth(w.stats), w.at, [], [])
    case Resets => World(Reset(w.stats), w.at, [], [])
  }

  /** The world after a run, if every call of it was allowed when made. */
  function After(calls: seq<Call>): (w: Option<World>)
    ensures w.Some? ==> w.value.stats.index < HISTORY_TIME_SPAN
  {
    if calls == [] then Some(World(Stats(false, 0, 0, Empty(), Empty()), 0, [], []))
    else
      var before, call := After(calls[..|calls| - 1]), calls[|calls| - 1];
      if before.Some? && Allowed(before.value, call) then Some(Next(before.value, call)) else None
  }

  ghost predicate Invariant(w: World) {
    && w.stats.index == Slot(w.at)
    && Before(w.payloadLog, w.at) && Before(w.headerLog, w.at)
    && Agrees(w.stats.payload, w.at, w.payloadLog) && Agrees(w.stats.header, w.at, w.headerLog)
  }

  lemma AddingAgrees(history: History, log: seq<Entry>, at: nat, bytes: nat)
    requires Agrees(history, at, log) && Before(log, at)
    ensures Agrees(history[Slot(at) := history[Slot(at)] + bytes], at, log + [Entry(at, bytes)])
  {
    var longer := log + [Entry(at, bytes)];
    assert longer[..|longer| - 1] == log;
    forall second: int | at - HISTORY_TIME_SPAN < second <= at
      ensures BytesIn(longer, second) == BytesIn(log, second) + if second == at then bytes else 0
      ensures second % HISTORY_TIME_SPAN == Slot(at) <==> second == at
    {
    }
  }

  lemma NextKeeps(w: World, call: Call)
    requires Invariant(w) && Allowed(w, call)
    ensures Invariant(Next(w, call))
  {
    hide Advance, Agrees, BytesIn;
    match call
    case Registers(packetId, second, headerLength, payloadLength) =>
      var advanced := AdvanceBoth(w.stats, second);
      AdvanceAgreesExactly(w.stats.payload, w.payloadLog, w.at, second);
      AdvanceAgreesExactly(w.stats.header, w.headerLog, w.at, second);
      AddingAgrees(advanced.payload, w.payloadLog, second, payloadLength);
      AddingAgrees(advanced.header, w.headerLog, second, headerLength);
    case Ticks(second) =>
      AdvanceAgreesExactly(w.stats.payload, w.payloadLog, w.at, second);
      AdvanceAgreesExactly(w.stats.header, w.headerLog, w.at, second);
    case _ => EmptyAgrees(w.at);
  }

  lemma EmptyAgrees(at: nat)
    ensures Agrees(Empty(), at, [])
  {
  }

  /** After every run with updates less than 64 seconds apart, both rings hold exactly the last 64 seconds. */
  lemma {:induction false} RingsAgreeWithLogs(calls: seq<Call>)
    requires After(calls).Some?
    ensures Invariant(After(calls).value)
  {
    hide Next, Allowed, Agrees;
    if calls == [] {
      EmptyAgrees(0);
    } else {
      RingsAgreeWithLogs(calls[..|calls| - 1]);
      NextKeeps(After(calls[..|calls| - 1]).value, calls[|calls| - 1]);
    }
  }

  /** The last 64 seconds as the averages meet them: the running second first, then the others from the oldest on. */
  function LastSeconds(log: seq<Entry>, at: nat): seq<nat> {
    seq<nat>(HISTORY_TIME_SPAN, k requires 0 <= k < HISTORY_TIME_SPAN =>
      BytesIn(log, if k == 0 then at else at - HISTORY_TIME_SPAN + k))
  }

  lemma RingIsLastSeconds(history: History, log: seq<Entry>, at: nat)
    requires Agrees(history, at, log)
    ensures FromCurrent(history, Slot(at)) == LastSeconds(log, at)
  {
    hide BytesIn;
    var ring := FromCurrent(history, Slot(at));
    forall k | 0 <= k < HISTORY_TIME_SPAN ensures ring[k] == LastSeconds(log, at)[k] {
      var second := if k == 0 then at else at - HISTORY_TIME_SPAN + k;
      SlotFromCurrent(at, k);
      assert history[second % HISTORY_TIME_SPAN] == BytesIn(log, second);
    }
  }

  lemma SlotFromCurrent(at: nat, k: nat)
    requires k < HISTORY_TIME_SPAN
    ensures var second := if k == 0 then at else at - HISTORY_TIME_SPAN + k;
            second % HISTORY_TIME_SPAN ==
            if Slot(at) + k < HISTORY_TIME_SPAN then Slot(at) + k else Slot(at) + k - HISTORY_TIME_SPAN
  {
  }

  /**
   * The minute's average is the mean of the first at most 60 of the last 64 seconds in which anything was received, and
   * the second's bandwidth is what was received in the second before the last update.
   */
  lemma AveragesAreOfTheLog(calls: seq<Call>)
    requires After(calls).Some?
    ensures var w := After(calls).value;
            && FirstUsed(FromCurrent(w.stats.payload, w.stats.index), MINUTE)
               == FirstUsed(LastSeconds(w.payloadLog, w.at), MINUTE)
            && FirstUsed(FromCurrent(w.stats.header, w.stats.index), MINUTE)
               == FirstUsed(LastSeconds(w.headerLog, w.at), MINUTE)
            && FromCurrent(w.stats.payload, w.stats.index)[HISTORY_TIME_SPAN - 1] == BytesIn(w.payloadLog, w.at - 1)
            && FromCurrent(w.stats.header, w.stats.index)[HISTORY_TIME_SPAN - 1] == BytesIn(w.headerLog, w.at - 1)
  {
    hide After, Agrees, FirstUsed, BytesIn;
    RingsAgreeWithLogs(calls);
    var w := After(calls).value;
    RingIsLastSeconds(w.stats.payload, w.payloadLog, w.at);
    RingIsLastSeconds(w.stats.header, w.headerLog, w.at);
  }

  // --- what an average is ------------------------------------------------------------------------

  function Total(numbers: seq<nat>): nat {
    if numbers == [] then 0 else Total(numbers[..|numbers| - 1]) + numbers[|numbers| - 1]
  }

  /** How many of the numbers are not zero. */
  function Used(numbers: seq<nat>): nat {
    if numbers == [] then 0
    else Used(numbers[..|numbers| - 1]) + if numbers[|numbers| - 1] > 0 then 1 else 0
  }

  lemma {:induction false} HeadCounts(head: nat, rest: seq<nat>)
    ensures Total([head] + rest) == head + Total(rest)
    ensures Used([head] + rest) == (if head > 0 then 1 else 0) + Used(rest)
  {
    var all := [head] + rest;
    if rest == [] {
      assert all[..0] == [] && all[0] == head;
    } else {
      HeadCounts(head, rest[..|rest| - 1]);
      assert all[..|all| - 1] == [head] + rest[..|rest| - 1];
    }
  }

  /** The numbers picked are those of a prefix, zeros aside, that is the whole or has as many as are wanted. */
  lemma {:induction false} FirstUsedArePrefix(numbers: seq<nat>, limit: nat) returns (count: nat)
    ensures count <= |numbers| && (count == |numbers| || Used(numbers[..count]) == limit)
    ensures |FirstUsed(numbers, limit)| == Used(numbers[..count]) <= limit
    ensures Sum(FirstUsed(numbers, limit)) == Total(numbers[..count])
    decreases |numbers|
  {
    if numbers == [] || limit == 0 {
      count := 0;
      assert numbers[..0] == [];
    } else {
      var rest := FirstUsedArePrefix(numbers[1..], if numbers[0] == 0 then limit else limit - 1);
      count := rest + 1;
      assert numbers[..count] == [numbers[0]] + numbers[1..][..rest];
      HeadCounts(numbers[0], numbers[1..][..rest]);
      SumOfHead(numbers[0], FirstUsed(numbers[1..], limit - 1));
    }
  }

  lemma SumOfHead(head: nat, rest: seq<nat>)
    ensures Sum([head] + rest) == head + Sum(rest)
  {
    assert ([head] + rest)[1..] == rest;
  }

  /** What an average says of the seconds it is taken from. */
  predicate IsMeanOf(mean: real, seconds: seq<nat>) {
    mean * Used(seconds) as real == Total(seconds) as real && (Used(seconds) == 0 ==> mean == 0.0)
  }

  lemma MeanOfPrefix(numbers: seq<nat>) returns (count: nat)
    ensures count <= |numbers| && Used(numbers[..count]) <= MINUTE
    ensures count == |numbers| || Used(numbers[..count]) == MINUTE
    ensures IsMeanOf(Mean(FirstUsed(numbers, MINUTE)), numbers[..count])
  {
    hide FirstUsed, Used, Total;
    count := FirstUsedArePrefix(numbers, MINUTE);
  }

  /**
   * The minute's average, times the seconds counted, is what was received in all of them: in the last 64 seconds with
   * anything received, the running one first, or in the first 60 of these.
   */
  lemma MinuteIsMeanOfUsedSeconds(calls: seq<Call>) returns (payloadCount: nat, headerCount: nat)
    requires After(calls).Some?
    ensures var w := After(calls).value;
            var payload, header := LastSeconds(w.payloadLog, w.at), LastSeconds(w.headerLog, w.at);
            && payloadCount <= HISTORY_TIME_SPAN && headerCount <= HISTORY_TIME_SPAN
            && (payloadCount == HISTORY_TIME_SPAN || Used(payload[..payloadCount]) == MINUTE)
            && (headerCount == HISTORY_TIME_SPAN || Used(header[..headerCount]) == MINUTE)
            && Used(payload[..payloadCount]) <= MINUTE && Used(header[..headerCount]) <= MINUTE
            && IsMeanOf(Mean(FirstUsed(FromCurrent(w.stats.payload, w.stats.index), MINUTE)), payload[..payloadCount])
            && IsMeanOf(Mean(FirstUsed(FromCurrent(w.stats.header, w.stats.index), MINUTE)), header[..headerCount])
  {
    hide After, Agrees, FirstUsed, BytesIn, Mean, Used, IsMeanOf;
    RingsAgreeWithLogs(calls);
    var w := After(calls).value;
    RingIsLastSeconds(w.stats.payload, w.payloadLog, w.at);
    RingIsLastSeconds(w.stats.header, w.headerLog, w.at);
    payloadCount := MeanOfPrefix(LastSeconds(w.payloadLog, w.at));
    headerCount := MeanOfPrefix(LastSeconds(w.headerLog, w.at));
  }

  // --- the highest number ------------------------------------------------------------------------

  /** The packet numbers registered since the last reset. */
  function Registered(calls: seq<Call>): seq<u16> {
    if calls == [] then []
    else
      var earlier := Registered(calls[..|calls| - 1]);
      match calls[|calls| - 1]
      case Registers(packetId, _, _, _) => earlier + [packetId]
      case Resets => []
      case _ => earlier
  }

  /** Registered in the first five seconds, and not near the end of the numbers. */
  predicate IsEarly(call: Call) {
    call.Registers? ==> call.second < 5 && call.packetId <= 0xFF00
  }

  ghost predicate IsMaximum(number: u16, numbers: seq<u16>) {
    number in numbers && forall n :: n in numbers ==> n <= number
  }

  lemma MaximumGrows(number: u16, numbers: seq<u16>, more: u16)
    requires IsMaximum(number, numbers)
    ensures IsMaximum(if more > number then more else number, numbers + [more])
  {
  }

  /**
   * What is kept as the highest number is the maximum only in the first five seconds, and as long as no number near the
   * last one has come; the time stamp it is compared with is never set, so from then on it is just the latest.
   */
  lemma {:induction false} HighestIsMaximumWhileEarly(calls: seq<Call>)
    requires After(calls).Some?
    ensures var s, numbers := After(calls).value.stats, Registered(calls);
            && (s.initialized <==> numbers != []) && (numbers == [] ==> s.highestSequence == 0)
            && ((forall i :: 0 <= i < |calls| ==> IsEarly(calls[i])) && numbers != [] ==>
                  IsMaximum(s.highestSequence, numbers) && s.highestSequence <= 0xFF00)
            && (calls != [] && calls[|calls| - 1].Registers? && calls[|calls| - 1].second >= 5 ==>
                  s.highestSequence == calls[|calls| - 1].packetId)
  {
    hide Advance, Allowed, IsMaximum;
    if calls != [] {
      var earlier, call := calls[..|calls| - 1], calls[|calls| - 1];
      HighestIsMaximumWhileEarly(earlier);
      var s := After(earlier).value.stats;
      if call.Registers? {
        if Registered(earlier) == [] {
          OnlyOne(call.packetId);
        } else if forall i :: 0 <= i < |calls| ==> IsEarly(calls[i]) {
          assert forall i :: 0 <= i < |earlier| ==> IsEarly(calls[i]);
          MaximumGrows(s.highestSequence, Registered(earlier), call.packetId);
        }
      }
    }
  }

  lemma OnlyOne(number: u16)
    ensures IsMaximum(number, [] + [number])
  {
  }

  /** Near the last number, any number that comes next is taken for the highest. */
  lemma NearTheEndAnyNumberCounts(calls: seq<Call>, packetId: u16, second: nat, headerLength: nat, payloadLength: nat)
    requires After(calls).Some? && After(calls).value.stats.highestSequence > 0xFF00
    ensures Register(After(calls).value.stats, packetId, second, headerLength, payloadLength).highestSequence == packetId
  {
    hide After, Advance;
  }
}
