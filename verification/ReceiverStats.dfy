/**
 * Received bytes per second as values: two rings of 64 seconds and the averages read off them
 * (src/media/receiver_stats.rs).
 */
module ReceiverStats {
  import opened Prelude

  const HISTORY_TIME_SPAN := 64
  const MINUTE := 60

  type History = h: seq<nat> | |h| == HISTORY_TIME_SPAN witness seq(64, _ => 0)

  datatype Stats = Stats(
    initialized: bool,
    highestSequence: u16,
    index: nat,
    payload: History,
    header: History)

  function Empty(): History {
    seq(HISTORY_TIME_SPAN, _ => 0)
  }

  /** The slot of a second; the source narrows the second to 32 bits first. */
  function Slot(second: nat): (slot: nat)
    ensures slot < HISTORY_TIME_SPAN && slot == second % HISTORY_TIME_SPAN
  {
    NarrowingIsHarmless(second);
    (second % 0x1_0000_0000) % HISTORY_TIME_SPAN
  }

  lemma NarrowingIsHarmless(second: nat)
    ensures (second % 0x1_0000_0000) % HISTORY_TIME_SPAN == second % HISTORY_TIME_SPAN
  {
    var high, low := second / 0x1_0000_0000, second % 0x1_0000_0000;
    assert second == HISTORY_TIME_SPAN * (0x400_0000 * high) + low;
  }

  function Following(index: nat): (next: nat)
    requires index < HISTORY_TIME_SPAN
    ensures next < HISTORY_TIME_SPAN
  {
    if index + 1 >= HISTORY_TIME_SPAN then 0 else index + 1
  }

  /** How many slots lie ahead of `index` up to `target`, around the ring. */
  function Ahead(index: nat, target: nat): (steps: nat)
    requires index < HISTORY_TIME_SPAN && target < HISTORY_TIME_SPAN
    ensures steps < HISTORY_TIME_SPAN && (steps == 0 <==> index == target)
  {
    if target >= index then target - index else target + HISTORY_TIME_SPAN - index
  }

  /** Every slot after `index` up to `target` is cleared. */
  function Advance(history: History, index: nat, target: nat): History
    requires index < HISTORY_TIME_SPAN && target < HISTORY_TIME_SPAN
    decreases Ahead(index, target)
  {
    if index == target then history
    else Advance(history[Following(index) := 0], Following(index), target)
  }

  function AdvanceBoth(s: Stats, second: nat): Stats
    requires s.index < HISTORY_TIME_SPAN
  {
    s.(index := Slot(second), payload := Advance(s.payload, s.index, Slot(second)),
       header := Advance(s.header, s.index, Slot(second)))
  }

  function Register(s: Stats, packetId: u16, second: nat, headerLength: nat, payloadLength: nat): Stats
    requires s.index < HISTORY_TIME_SPAN
  {
    var advanced := AdvanceBoth(s, second);
    var slot := Slot(second);
    var newest := !s.initialized || packetId > s.highestSequence || s.highestSequence > 0xFF00 || second >= 5;
    Stats(true, if newest then packetId else s.highestSequence, slot,
          advanced.payload[slot := advanced.payload[slot] + payloadLength],
          advanced.header[slot := advanced.header[slot] + headerLength])
  }

  function ResetBandwidth(s: Stats): Stats {
    s.(payload := Empty(), header := Empty())
  }

  function Reset(s: Stats): Stats {
    Stats(false, 0, s.index, Empty(), Empty())
  }

  // --- averages ----------------------------------------------------------------------------------

  /** The ring from the current slot on. */
  function FromCurrent(history: History, index: nat): (ring: seq<nat>)
    requires index < HISTORY_TIME_SPAN
    ensures |ring| == HISTORY_TIME_SPAN
  {
    history[index..] + history[..index]
  }

  /** The first `limit` numbers that are not zero. */
  function FirstUsed(numbers: seq<nat>, limit: nat): (used: seq<nat>)
    ensures |used| <= limit && forall k :: 0 <= k < |used| ==> used[k] > 0
  {
    if numbers == [] || limit == 0 then []
    else if numbers[0] == 0 then FirstUsed(numbers[1..], limit)
    else [numbers[0]] + FirstUsed(numbers[1..], limit - 1)
  }

  function Sum(numbers: seq<nat>): nat {
    if numbers == [] then 0 else numbers[0] + Sum(numbers[1..])
  }

  /** Exact, where the source divides two floating-point numbers. */
  function Mean(numbers: seq<nat>): real {
    if numbers == [] then 0.0 else Sum(numbers) as real / |numbers| as real
  }
}
