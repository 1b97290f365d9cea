/** sevenguis_lib/src/temperature_page.rs: the same converter written against the
    older polyester API. Its `celsius_to_fahrenheit` and `fahrenheit_to_celsius`
    are the same text as the sevenguis_core copy and are taken from
    TemperatureCore. What differs: the model carries its element ids, the
    messages carry host values that must first be read as strings (which can
    fail), and the subscriptions say what the host captures. */
module TemperatureLib {
  import opened Polyester
  import opened RustStd
  import Lib = PolyesterLib
  import Core = TemperatureCore

  datatype Msg = CelsiusChanged(value: Value) | FahrenheitChanged(value: Value)

  /** `DomIds`: the ids of the two input fields. */
  datatype DomIds = DomIds(celsius: DomId, fahrenheit: DomId)

  /** `initial_ids`. */
  function InitialIds(): (ids: DomIds)
    ensures ids.celsius.name == "celsius" && ids.fahrenheit.name == "fahrenheit"
    ensures ids.celsius != ids.fahrenheit
  {
    DomIds(DomId("celsius"), DomId("fahrenheit"))
  }

  /** The error `update` reports when a value is not a string; the source uses
      the same words for both fields. */
  const NotAString := "Failed to parse celsius as string"

  /** `temperature_page::Model` of sevenguis_lib. */
  class Model {
    var ids: DomIds
    var celsius: Option<i32>
    var fahrenheit: Option<i32>

    /** `TemperaturePage::init`. */
    constructor Init()
      ensures ids == InitialIds() && celsius == None && fahrenheit == None
    {
      ids := InitialIds();
      celsius := None;
      fahrenheit := None;
    }

    /** `TemperaturePage::update`. `asString` is the host's `Value::parse::<String>`.
        A value that is not a string is an error and changes nothing; otherwise
        the text is read as an `i32`, and a text that is no integer clears only
        the other field. The ids never change; no effects are requested. */
    method Update(msg: Msg, asString: Value -> Option<string>) returns (r: Outcome)
      modifies this
      ensures ids == old(ids)
      ensures asString(msg.value).None? ==>
        r == Err(NotAString) && celsius == old(celsius) && fahrenheit == old(fahrenheit)
      ensures asString(msg.value).Some? ==> r == Ok([])
      ensures msg.CelsiusChanged? && asString(msg.value).Some? ==>
        match ParseI32(asString(msg.value).value)
        case Some(n) => celsius == Some(n) && fahrenheit == Some(Core.CelsiusToFahrenheit(n))
        case None => celsius == old(celsius) && fahrenheit == None
      ensures msg.FahrenheitChanged? && asString(msg.value).Some? ==>
        match ParseI32(asString(msg.value).value)
        case Some(n) => fahrenheit == Some(n) && celsius == Some(Core.FahrenheitToCelsius(n))
        case None => fahrenheit == old(fahrenheit) && celsius == None
    {
      match asString(msg.value) {
        case None =>
          r := Err(NotAString);
          return;
        case Some(text) =>
          match msg {
            case CelsiusChanged(_) =>
              match ParseI32(text) {
                case Some(n) =>
                  celsius := Some(n);
                  fahrenheit := Some(Core.CelsiusToFahrenheit(n));
                case None =>
                  fahrenheit := None;
              }
            case FahrenheitChanged(_) =>
              match ParseI32(text) {
                case Some(n) =>
                  fahrenheit := Some(n);
                  celsius := Some(Core.FahrenheitToCelsius(n));
                case None =>
                  celsius := None;
              }
          }
          r := Ok([]);
      }
    }

    /** `TemperaturePage::subscriptions`: one input listener per id, each
        capturing its own element; the temperatures play no part. */
    function Subscriptions(): (subs: seq<Lib.Subscription<Msg>>)
      reads this
      ensures |subs| == 2
      ensures subs[0] == Lib.OnInput(ids.celsius, CelsiusChanged(CaptureStringFromElement(ids.celsius)))
      ensures subs[1] == Lib.OnInput(ids.fahrenheit, FahrenheitChanged(CaptureFromElement(ids.fahrenheit)))
    {
      [ Lib.OnInput(ids.celsius, CelsiusChanged(CaptureStringFromElement(ids.celsius))),
        Lib.OnInput(ids.fahrenheit, FahrenheitChanged(CaptureFromElement(ids.fahrenheit))) ]
    }
  }

  /** Two models with the same ids subscribe to the same listeners, whatever
      their temperatures. */
  lemma SubscriptionsIgnoreTemperatures(a: Model, b: Model)
    requires a.ids == b.ids
    ensures a.Subscriptions() == b.Subscriptions()
  {
  }
}
