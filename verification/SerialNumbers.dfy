/** Wrapping packet numbers and their windowed comparison, for any modulus (src/utils/packet_id.rs). */
module SerialNumbers {
  import opened Prelude

  // --- the operations of the source; `max` stands for T::max_value() == modulus - 1 -------------

  function WrappingAdd(a: nat, b: nat, modulus: nat): (r: nat)
    requires a < modulus && b < modulus
    ensures r < modulus && (r == a + b || r + modulus == a + b)
  {
    if a + b < modulus then a + b else a + b - modulus
  }

  function WrappingSub(a: nat, b: nat, modulus: nat): (r: nat)
    requires a < modulus && b < modulus
    ensures r < modulus && WrappingAdd(r, b, modulus) == a
  {
    if b <= a then a - b else a + modulus - b
  }

  predicate IsLess(a: nat, b: nat, clippingWindow: Option<nat>, modulus: nat)
    requires a < modulus && b < modulus
    requires clippingWindow.Some? ==> clippingWindow.value < modulus
  {
    match clippingWindow
    case None => a < b
    case Some(window) =>
      var max := modulus - 1;
      if a < window then a < b && b < max - window
      else if a > max - window then a < b || WrappingAdd(a, window, modulus) >= b
      else a < b
  }

  function Difference(a: nat, b: nat, clippingWindow: Option<nat>, modulus: nat): (d: nat)
    requires a < modulus && b < modulus
    requires clippingWindow.Some? ==> clippingWindow.value < modulus
  {
    var max := modulus - 1;
    if clippingWindow.Some? && a < clippingWindow.value then
      if b > max - clippingWindow.value then (max - b) + a + 1 else Gap(a, b)
    else if clippingWindow.Some? && b < clippingWindow.value then
      if a > max - clippingWindow.value then (max - a) + b + 1 else Gap(a, b)
    else
      Gap(a, b)
  }

  function Gap(a: nat, b: nat): nat {
    if a > b then a - b else b - a
  }

  // --- what they are meant to be ----------------------------------------------------------------

  /** Section 3.2 of RFC 1982. */
  predicate SerialLess(a: nat, b: nat, modulus: nat)
    requires a < modulus && b < modulus
  {
    (a < b && 2 * (b - a) < modulus) || (a > b && 2 * (a - b) > modulus)
  }

  /** How many increments lead from a to b. */
  function Forward(a: nat, b: nat, modulus: nat): (r: nat)
    requires a < modulus && b < modulus
    ensures r < modulus && WrappingAdd(a, r, modulus) == b
  {
    if a <= b then b - a else b + modulus - a
  }

  /** The shorter way round. */
  function CircularDistance(a: nat, b: nat, modulus: nat): (r: nat)
    requires a < modulus && b < modulus
    ensures 2 * r <= modulus
  {
    var there, back := Forward(a, b, modulus), Forward(b, a, modulus);
    if there <= back then there else back
  }

  ghost predicate LessIsSerialWithin(distance: nat, window: nat, modulus: nat)
    requires window < modulus
  {
    forall a: nat, b: nat | a < modulus && b < modulus && CircularDistance(a, b, modulus) <= distance ::
      IsLess(a, b, Some(window), modulus) <==> SerialLess(a, b, modulus)
  }

  ghost predicate DifferenceIsCircularWithin(distance: nat, window: nat, modulus: nat)
    requires window < modulus
  {
    forall a: nat, b: nat | a < modulus && b < modulus && CircularDistance(a, b, modulus) <= distance ::
      Difference(a, b, Some(window), modulus) == CircularDistance(a, b, modulus)
  }

  // --- exact laws -------------------------------------------------------------------------------

  /** Inside its own window the comparison is serial arithmetic exactly when three windows fit the number space. */
  lemma LessIsSerialExactlyWhenThreeWindowsFit(window: nat, modulus: nat)
    requires window < modulus
    ensures LessIsSerialWithin(window, window, modulus) <==> 3 * window < modulus
  {
    if 2 * window >= modulus {
      var a, b := modulus - 1, window - 1;
      assert CircularDistance(a, b, modulus) <= window;
      assert !SerialLess(a, b, modulus) && IsLess(a, b, Some(window), modulus);
    } else if 3 * window >= modulus {
      var a, b := window - 1, 2 * window - 1;
      assert CircularDistance(a, b, modulus) <= window;
      assert SerialLess(a, b, modulus) && !IsLess(a, b, Some(window), modulus);
    }
  }

  /** The difference is the circular distance up to the window, and no further. */
  lemma DifferenceIsCircularExactlyWithinWindow(distance: nat, window: nat, modulus: nat)
    requires 0 < window && 3 * window < modulus && 4 < modulus
    ensures DifferenceIsCircularWithin(distance, window, modulus) <==> distance <= window
  {
    if distance > window {
      var a, b := modulus - 1 - window, 0;
      assert CircularDistance(a, b, modulus) == window + 1;
      assert Difference(a, b, Some(window), modulus) == modulus - 1 - window;
    }
  }

  /** Symmetric; equal to the circular distance within the window; never small for a pair that is far apart. */
  lemma DifferenceSeparatesNearFromFar(a: nat, b: nat, window: nat, modulus: nat)
    requires a < modulus && b < modulus && 3 * window < modulus
    ensures Difference(a, b, Some(window), modulus) == Difference(b, a, Some(window), modulus)
    ensures Difference(a, b, Some(window), modulus) <= window <==> CircularDistance(a, b, modulus) <= window
    ensures CircularDistance(a, b, modulus) <= window
      ==> Difference(a, b, Some(window), modulus) == CircularDistance(a, b, modulus)
  {
  }

  // --- packet numbers are 16 bits wide -----------------------------------------------------------

  const NUMBERS := 0x1_0000

  /** The number `offset` places after `base`. */
  function At(base: u16, offset: nat): u16
    requires offset < NUMBERS
  {
    WrappingAdd(base, offset, NUMBERS)
  }

  /** Strictly increasing in serial order, all within `span` of `base`. */
  ghost predicate Ascending(numbers: seq<u16>, base: u16, span: nat) {
    && (forall i :: 0 <= i < |numbers| ==> Forward(base, numbers[i], NUMBERS) < span)
    && (forall i, j :: 0 <= i < j < |numbers| ==>
          Forward(base, numbers[i], NUMBERS) < Forward(base, numbers[j], NUMBERS))
  }
}
