/** sevenguis_core/src/temperature_page.rs: a two-field temperature converter.

    The source converts through `f64` and rounds (`f64::round`, half away from
    zero). The exact values `9c/5 + 32` and `5(f - 32)/9` have fractional parts
    that are multiples of 1/5 and 1/9, so they are never half-way between two
    integers and rounding them is the same as taking the nearest integer, which
    is what the functions below compute with exact integer arithmetic. The cast
    `as i32` saturates; that is modelled too. */
module TemperatureCore {
  import opened Polyester
  import opened RustStd

  /** `x as i32` on a float holding an integer: saturating. */
  function SaturateI32(x: int): (r: i32)
    ensures r == x <==> FitsI32(x)
    ensures x < I32_MIN ==> r == I32_MIN
    ensures x > I32_MAX ==> r == I32_MAX
  {
    if x < I32_MIN then I32_MIN else if x > I32_MAX then I32_MAX else x
  }

  predicate FitsI32(x: int) { I32_MIN <= x <= I32_MAX }

  /** The integer nearest to 9c/5 + 32 (never a tie). */
  function NearestFahrenheit(c: int): (f: int)
    ensures -5 < 2 * (5 * f - (9 * c + 160)) < 5
  {
    (18 * c + 325) / 10
  }

  /** The integer nearest to 5(f - 32)/9 (never a tie). */
  function NearestCelsius(f: int): (c: int)
    ensures -9 < 2 * (9 * c - 5 * (f - 32)) < 9
  {
    (10 * f - 311) / 18
  }

  /** `celsius_to_fahrenheit`: the nearest integer to 9c/5 + 32, saturated to `i32`. */
  function CelsiusToFahrenheit(c: i32): (f: i32)
    ensures FitsI32(NearestFahrenheit(c)) ==> -5 < 2 * (5 * f - (9 * c + 160)) < 5
    ensures !FitsI32(NearestFahrenheit(c)) ==> f == (if c < 0 then I32_MIN else I32_MAX)
  {
    SaturateI32(NearestFahrenheit(c))
  }

  /** `fahrenheit_to_celsius`: the nearest integer to 5(f - 32)/9; it always fits. */
  function FahrenheitToCelsius(f: i32): (c: i32)
    ensures -9 < 2 * (9 * c - 5 * (f - 32)) < 9
  {
    NearestCelsiusFits(f);
    SaturateI32(NearestCelsius(f))
  }

  lemma NearestCelsiusFits(f: i32)
    ensures FitsI32(NearestCelsius(f))
  {
  }

  /** Celsius to Fahrenheit and back gives the starting value, wherever the
      Fahrenheit value does not saturate. */
  lemma CelsiusRoundTrip(c: i32)
    requires FitsI32(NearestFahrenheit(c))
    ensures FahrenheitToCelsius(CelsiusToFahrenheit(c)) == c
  {
  }

  /** Fahrenheit to Celsius and back is off by at most one degree, wherever the
      Fahrenheit value does not saturate. */
  lemma FahrenheitRoundTrip(f: i32)
    requires FitsI32(NearestFahrenheit(FahrenheitToCelsius(f)))
    ensures -1 <= CelsiusToFahrenheit(FahrenheitToCelsius(f)) - f <= 1
  {
  }

  datatype Msg = CelsiusChanged(text: string) | FahrenheitChanged(text: string)

  const CelsiusId := DomId("celsius")
  const FahrenheitId := DomId("fahrenheit")

  /** `temperature_page::Model`. */
  class Model {
    var celsius: Option<i32>
    var fahrenheit: Option<i32>

    /** `TemperaturePage::init`: both fields empty. */
    constructor Init()
      ensures celsius == None && fahrenheit == None
    {
      celsius := None;
      fahrenheit := None;
    }

    /** `TemperaturePage::update`. The payload is already a `String`, so
        re-reading it as a `String` cannot fail; the integer parse can, and then
        only the other field is cleared. Never fails, requests no effects. */
    method Update(msg: Msg) returns (r: Outcome)
      modifies this
      ensures r == Ok([])
      ensures msg.CelsiusChanged? ==>
        match ParseI32(msg.text)
        case Some(n) => celsius == Some(n) && fahrenheit == Some(CelsiusToFahrenheit(n))
        case None => celsius == old(celsius) && fahrenheit == None
      ensures msg.FahrenheitChanged? ==>
        match ParseI32(msg.text)
        case Some(n) => fahrenheit == Some(n) && celsius == Some(FahrenheitToCelsius(n))
        case None => fahrenheit == old(fahrenheit) && celsius == None
    {
      match msg {
        case CelsiusChanged(text) =>
          match ParseI32(text) {
            case Some(n) =>
              celsius := Some(n);
              fahrenheit := Some(CelsiusToFahrenheit(n));
            case None =>
              fahrenheit := None;
          }
        case FahrenheitChanged(text) =>
          match ParseI32(text) {
            case Some(n) =>
              fahrenheit := Some(n);
              celsius := Some(FahrenheitToCelsius(n));
            case None =>
              celsius := None;
          }
      }
      r := Ok([]);
    }

    /** `TemperaturePage::subscriptions`: one input listener per field, each
        forwarding the typed text to that field's message, whatever the model. */
    function Subscriptions(): (subs: seq<Subscription<Msg>>)
      ensures |subs| == 2
      ensures IsInput(subs[0], CelsiusId, t => CelsiusChanged(t))
      ensures IsInput(subs[1], FahrenheitId, t => FahrenheitChanged(t))
    {
      [OnInput(CelsiusId, t => CelsiusChanged(t)), OnInput(FahrenheitId, t => FahrenheitChanged(t))]
    }
  }

  /** A client run of the asymmetric invalidation. */
  method Session()
  {
    var m := new Model.Init();
    var r := m.Update(CelsiusChanged("100"));
    assert ParseI32("100") == Some(100) by {
      assert "100"[..2] == "10" && "10"[..1] == "1" && "1"[..0] == "";
    }
    assert m.celsius == Some(100) && m.fahrenheit == Some(212);
    r := m.Update(CelsiusChanged("abc"));
    assert m.celsius == Some(100) && m.fahrenheit == None;
  }
}
