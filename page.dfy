/**
 * What the content scripts see of the page's `<video>` elements, and of
 * JavaScript's `Number()` applied to a speed string.
 */
module Page {

  /** The identity of a video element (the scripts compare elements with `===`). */
  type VideoRef = nat

  /** The two properties of an element the scripts read and write. */
  datatype Video = Video(readyState: nat, rate: real)

  /**
   * The value of `Number(text)`. How text is converted is not modelled; only
   * whether the result is a finite number, and which, is used.
   */
  datatype JsNumber = Finite(value: real) | NaN | PositiveInfinity | NegativeInfinity

  /**
   * A speed string both content scripts accept: non-empty, and converting to
   * a finite number above zero. Any other speed makes them do nothing.
   */
  predicate ValidSpeed(speed: string, toNumber: string -> JsNumber) {
    speed != "" && toNumber(speed).Finite? && toNumber(speed).value > 0.0
  }

  /** The number a valid speed converts to. */
  function SpeedValue(speed: string, toNumber: string -> JsNumber): (r: real)
    requires ValidSpeed(speed, toNumber)
    ensures r > 0.0
  {
    toNumber(speed).value
  }
}
