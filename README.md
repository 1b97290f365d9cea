# 7GUIs pages on polyester, modelled in Dafny

The sevenguis crates implement tasks from the 7GUIs benchmark as polyester
pages. A page is an Elm-style component driven by the polyester runtime:

- `init` builds the starting model.
- `update(msg, &mut model)` changes the model in place and returns either the
  effects to run or an error string.
- `subscriptions(model)` lists the listeners and intervals the page wants for
  the current model.

This project models these pages:

| module | source file | page |
|---|---|---|
| `HomePage` | sevenguis_core/src/home_page.rs | increment/decrement counter |
| `TemperatureCore` | sevenguis_core/src/temperature_page.rs | Celsius/Fahrenheit converter |
| `TemperatureLib` | sevenguis_lib/src/temperature_page.rs | the same converter, older polyester API |
| `TimerCore` | sevenguis_core/src/timer_page.rs | a timer capped by an adjustable duration |
| `TimerLib` | sevenguis_lib/src/timer_page.rs | the same timer, older polyester API |
| `FlightPage` | sevenguis_core/src/flight_page.rs | flight booker: drafting, then booked |
| `CrudPage` | sevenguis_core/src/crud_page.rs | list of people, with a filter and a create/update/delete form |

Two supporting modules sit beside the pages:

- `Polyester` holds the runtime's vocabulary: `DomId`, `Posix`, the captured
  `Value`, the `current_time` effect, the `Result` of `update` (`Outcome`), and
  the two subscription APIs. The newer API's subscriptions carry message
  constructors, so its predicates (`IsClick`, `IsInput`, `IsChange`,
  `IsChangeString`, `IsIntervalEffect`) compare those constructors pointwise.
- `RustStd` holds `Option`, `Result` and the fixed-width integers. It also
  has `str::parse` for `u64` and `i32`, written out digit by digit, and
  ASCII `to_lowercase`.

Each page's mutable model is a Dafny `class`, and `update` is a method that
`modifies` it. The flight booker's model is an enum, so it is a
`FlightPage.FlightPage` object holding a `Model` value.

Each `Update` has a postcondition for every message. It states the new value
of every field, the returned outcome, and the error path. When the model keeps
an invariant, the postcondition also says that `Update` preserves it:

- the timer keeps `elapsed <= max_duration`;
- CRUD keeps valid person ids;
- the lib timer keeps every cap a `u64`.

The timer transitions are also pure functions on a `State` value. Both timer
classes are proved to follow them, and the multi-tick properties are lemmas
about them.

Foreign code is passed in as function-valued parameters:

- polyester's `Value::parse` at a given type;
- chrono's date parsing and formatting, and its day of a `Posix` time.

Where the model follows the code rather than the 7GUIs design:

- `BookFlight` books any draft whose dates parse, including a return flight
  that comes back before it leaves. See `FlightPage.BookingIgnoresDateOrder`.
- The temperature converter starts with both fields empty.

## Model

| member | source | states |
|---|---|---|
| `RustStd.ParseUnsigned` | sevenguis_core/src/timer_page.rs:75-77 | unsigned parsing: succeeds exactly on one or more digits, optionally after a `+`, whose value is below the limit, and gives that value; anything else (empty, lone sign, `-`, other characters, overflow) fails |
| `RustStd.ParseU64` | sevenguis_core/src/timer_page.rs:75-77 | parsing the duration text as `u64`: without a sign, or after a `+`, it succeeds exactly on one or more digits below 2^64 and gives their value; after a `-` it fails |
| `RustStd.ParseI32` | sevenguis_core/src/temperature_page.rs:49-56 | `i32` parsing: without a sign, after `+`, or after `-`, it succeeds exactly on one or more digits whose denoted number is in `i32` range, and gives that number |
| `RustStd.ShowInt` | sevenguis_core/src/temperature_page.rs:115-116 | `to_string` of an integer: a leading `-` exactly for negatives, followed by one or more digits |
| `RustStd.ShowNat` | sevenguis_core/src/temperature_page.rs:115-116 | `to_string` of a natural number is a non-empty string of digits |
| `RustStd.ShowNatValue` | sevenguis_core/src/temperature_page.rs:115-116 | the digits `to_string` writes denote the number again |
| `RustStd.DigitsValueAppend` | sevenguis_core/src/temperature_page.rs:115-116 | appending a digit multiplies the value by ten and adds the digit |
| `RustStd.ParseShowI32` | sevenguis_core/src/temperature_page.rs:115-116 | a temperature shown in a field parses back to the same `i32` |
| `RustStd.ParseShowUnsigned` | sevenguis_core/src/timer_page.rs:75-77 | a duration written in decimal parses back to itself |
| `RustStd.LowerChar` | sevenguis_core/src/crud_page.rs:92 | ASCII upper-case letters map to lower case, everything else is kept, the result is never upper case |
| `RustStd.ToLowercase` | sevenguis_core/src/crud_page.rs:92 | same length, each character lower-cased |
| `RustStd.LowercaseIdempotent` | sevenguis_core/src/crud_page.rs:92 | lower-casing twice equals lower-casing once |
| `HomePage.Model.Init` | sevenguis_core/src/home_page.rs:24-30 | the counter starts at 0 |
| `HomePage.Model.Update` | sevenguis_core/src/home_page.rs:39-51 | `Increment` adds one, `Decrement` subtracts one, never fails, no effects |
| `HomePage.Apply` | sevenguis_core/src/home_page.rs:39-51 | one message moves the count by exactly one, upwards exactly for `Increment` |
| `HomePage.ApplyAll` | sevenguis_core/src/home_page.rs:39-51 | a run of messages moves the count by at most its length, and the last message is applied last |
| `HomePage.IncrementDecrementCancel` | sevenguis_core/src/home_page.rs:41-48 | an increment and a decrement in either order restore the count |
| `HomePage.ApplyAllCounts` | sevenguis_core/src/home_page.rs:39-51 | after any run of messages the count is the start plus increments minus decrements |
| `HomePage.Model.Subscriptions` | sevenguis_core/src/home_page.rs:32-37 | exactly the two clicks, on "increment" and "decrement", for every model |
| `TemperatureCore.NearestFahrenheit` | sevenguis_core/src/temperature_page.rs:143-146 | the result is within less than a half of 9c/5 + 32 (the nearest integer, never a tie) |
| `TemperatureCore.NearestCelsius` | sevenguis_core/src/temperature_page.rs:148-151 | the result is within less than a half of 5(f - 32)/9 |
| `TemperatureCore.SaturateI32` | sevenguis_core/src/temperature_page.rs:145 | `as i32` keeps exactly the values that fit, and sends values below `i32::MIN` to `i32::MIN` and values above `i32::MAX` to `i32::MAX` |
| `TemperatureCore.CelsiusToFahrenheit` | sevenguis_core/src/temperature_page.rs:143-146 | rounded 9c/5 + 32 when it fits `i32`, otherwise saturated by the sign of `c` |
| `TemperatureCore.FahrenheitToCelsius` | sevenguis_core/src/temperature_page.rs:148-151 | rounded 5(f - 32)/9, which always fits `i32` |
| `TemperatureCore.NearestCelsiusFits` | sevenguis_core/src/temperature_page.rs:148-151 | the exact Celsius value of any `i32` Fahrenheit fits `i32`, so the cast never saturates |
| `TemperatureCore.CelsiusRoundTrip` | sevenguis_core/src/temperature_page.rs:143-151 | without saturation, Celsius to Fahrenheit and back gives the same Celsius |
| `TemperatureCore.FahrenheitRoundTrip` | sevenguis_core/src/temperature_page.rs:143-151 | without saturation, Fahrenheit to Celsius and back is within one degree |
| `TemperatureCore.Model.Init` | sevenguis_core/src/temperature_page.rs:24-33 | both fields start empty |
| `TemperatureCore.Model.Update` | sevenguis_core/src/temperature_page.rs:42-78 | integer text sets its field and the converted other field; other text clears only the other field; never fails, no effects |
| `TemperatureCore.Model.Subscriptions` | sevenguis_core/src/temperature_page.rs:35-40 | two input listeners, "celsius" and "fahrenheit", forwarding the text to their messages |
| `TemperatureLib.InitialIds` | sevenguis_lib/src/temperature_page.rs:114-119 | the ids are "celsius" and "fahrenheit", and distinct |
| `TemperatureLib.Model.Init` | sevenguis_lib/src/temperature_page.rs:25-35 | the initial ids and both fields empty |
| `TemperatureLib.Model.Update` | sevenguis_lib/src/temperature_page.rs:50-86 | a value that is not a string is an error and changes nothing; otherwise the same transitions as the core converter; ids never change |
| `TemperatureLib.Model.Subscriptions` | sevenguis_lib/src/temperature_page.rs:37-48 | one input listener per id, capturing that element (as a string for Celsius) |
| `TemperatureLib.SubscriptionsIgnoreTemperatures` | sevenguis_lib/src/temperature_page.rs:37-48 | models with the same ids have the same subscriptions, whatever their temperatures |
| `TimerCore.Initial` | sevenguis_core/src/timer_page.rs:34-45 | both times are the initial time, cap 15 s, nothing elapsed; invariant holds, not saturated |
| `TimerCore.AfterGotTime` | sevenguis_core/src/timer_page.rs:87-90 | only the current time changes |
| `TimerCore.AfterTick` | sevenguis_core/src/timer_page.rs:92-106 | both times become `t`, elapsed grows by `t - previous` up to the cap, invariant holds, elapsed never decreases |
| `TimerCore.AfterReset` | sevenguis_core/src/timer_page.rs:108-113 | elapsed is 0 and counting restarts from the current time; nothing else changes |
| `TimerCore.RebaseIfSaturated` | sevenguis_core/src/timer_page.rs:71-73 | a saturated timer counts from the current time; otherwise nothing changes |
| `TimerCore.WithMaxDuration` | sevenguis_core/src/timer_page.rs:79-82 | the new cap, elapsed clamped to it, times unchanged, invariant holds |
| `TimerCore.ChronologicalLast` | sevenguis_core/src/timer_page.rs:92-106 | non-decreasing timestamps end at or after the first |
| `TimerCore.Ticks` | sevenguis_core/src/timer_page.rs:92-106 | a run of ticks keeps the maximum and the invariant, and leaves previous and current time at the last tick |
| `TimerCore.TicksDoNotDrift` | sevenguis_core/src/timer_page.rs:95-103 | a run of ticks adds exactly last tick minus the previous time before the run, capped at the maximum |
| `TimerCore.TicksAreMonotone` | sevenguis_core/src/timer_page.rs:92-106 | a run of ticks never decreases elapsed and keeps the invariant |
| `TimerCore.RaisingCapWhileSaturated` | sevenguis_core/src/timer_page.rs:70-85 | after raising the cap of a saturated timer, the next tick adds only the time since the current time |
| `TimerCore.ParseCurrentTime` | sevenguis_core/src/timer_page.rs:125-131 | succeeds exactly when the host reads a time, with that time; otherwise the page's error |
| `TimerCore.Model.Init` | sevenguis_core/src/timer_page.rs:34-45 | the fields are `Initial(initialTime)` |
| `TimerCore.Model.Update` | sevenguis_core/src/timer_page.rs:68-115 | each message applies its transition; time parse failures change nothing; a bad duration fails after the re-base; the invariant is kept |
| `TimerCore.Model.Subscriptions` | sevenguis_core/src/timer_page.rs:47-66 | four entries; the fourth is the 200 ms tick exactly when not saturated, else no subscription |
| `TimerLib.InitialIds` | sevenguis_lib/src/timer_page.rs:150-156 | the ids are "elapsed", "duration" and "reset" |
| `TimerLib.AsU64` | sevenguis_lib/src/timer_page.rs:73 | `as u64` keeps the low 64 bits: the result differs from the duration by a multiple of 2^64, and is the duration itself when it fits |
| `TimerLib.NewMaxDuration` | sevenguis_lib/src/timer_page.rs:71-75 | the parsed cap, or else the old cap |
| `TimerLib.Model.Init` | sevenguis_lib/src/timer_page.rs:30-42 | the initial ids and `Initial(initialTime)`; the invariant holds |
| `TimerLib.Model.Update` | sevenguis_lib/src/timer_page.rs:64-111 | the core transitions; `MaxDurationChanged` never fails and keeps the old cap on a bad value; ids never change; invariant kept |
| `TimerLib.Model.Subscriptions` | sevenguis_lib/src/timer_page.rs:44-62 | the duration input, the reset click, the 100 ms "current-time" interval, and the 200 ms "timer" interval exactly when not saturated |
| `FlightPage.Date.ToDate` | sevenguis_core/src/flight_page.rs:316-322 | a day exactly for a valid date, that day |
| `FlightPage.DisplayDate` | sevenguis_core/src/flight_page.rs:325-336 | a valid date is formatted by chrono, an invalid one shows its raw text verbatim |
| `FlightPage.DateFromText` | sevenguis_core/src/flight_page.rs:82-84 | valid exactly when chrono parses the text, with that day; otherwise the raw text, which displays as itself |
| `FlightPage.StartDateIsOk` | sevenguis_core/src/flight_page.rs:254-259 | holds exactly when the start date is valid and not before the current date |
| `FlightPage.ReturnDateIsOk` | sevenguis_core/src/flight_page.rs:261-277 | holds exactly when one-way, or both dates valid with return not before start and not before the current date |
| `FlightPage.FlightType.IsOneWay` | sevenguis_core/src/flight_page.rs:346-348 | true exactly for `OneWay` |
| `FlightPage.ReturnDateIsNeeded` | sevenguis_core/src/flight_page.rs:275-277 | a return date is needed exactly for a return flight |
| `FlightPage.CanBook` | sevenguis_core/src/flight_page.rs:171-175 | the Book button is enabled exactly when the start date is valid and not in the past and, for a return flight, the return date is valid and not before the start |
| `FlightPage.FromDraft` | sevenguis_core/src/flight_page.rs:292-306 | a flight exactly when the needed dates are valid, carrying exactly those dates |
| `FlightPage.CanBookThenBookable` | sevenguis_core/src/flight_page.rs:173-175 | whenever the Book button is enabled, booking succeeds |
| `FlightPage.BookingIgnoresDateOrder` | sevenguis_core/src/flight_page.rs:97-102 | a return flight coming back before it leaves cannot be booked by the button but is booked by `update` |
| `FlightPage.FlightPage.InitialModel` | sevenguis_core/src/flight_page.rs:28-37 | drafting one-way with all three dates the day of the initial time; bookable |
| `FlightPage.FlightPage.Init` | sevenguis_core/src/flight_page.rs:45-50 | the model is the initial model |
| `FlightPage.FlightPage.Update` | sevenguis_core/src/flight_page.rs:69-113 | each edit changes its own field; a bad flight type or failed booking is an error and changes nothing; booking carries the draft's dates; Reset restarts; booked ignores the rest; the current date never changes |
| `FlightPage.FlightPage.Subscriptions` | sevenguis_core/src/flight_page.rs:52-66 | drafting: flight-type change, two date changes, Book click; booked: only the Reset click |
| `CrudPage.EmptyForm` | sevenguis_core/src/crud_page.rs:201-208 | `Form::empty`: both names are blank |
| `CrudPage.Filter` | sevenguis_core/src/crud_page.rs:219-225 | no longer than the input, and only accepted elements of the input |
| `CrudPage.FilterMembership` | sevenguis_core/src/crud_page.rs:219-225 | an element is kept exactly when it is in the input and accepted |
| `CrudPage.FilterAppend` | sevenguis_core/src/crud_page.rs:156 | filtering keeps the order: it distributes over concatenation |
| `CrudPage.FilterKeepsAll` | sevenguis_core/src/crud_page.rs:223 | a filter accepting everything leaves the list as it is |
| `CrudPage.FilterKeepsValidIds` | sevenguis_core/src/crud_page.rs:156 | removing people keeps the ids valid |
| `CrudPage.WithoutMembership` | sevenguis_core/src/crud_page.rs:156 | after `retain`, exactly the people with a different id remain |
| `CrudPage.WithoutKeepsValidIds` | sevenguis_core/src/crud_page.rs:156 | `Delete` keeps the ids valid |
| `CrudPage.ValidIdsUnique` | sevenguis_core/src/crud_page.rs:126-158 | under the id invariant (`ValidIds`) every person's id lies in 1 up to `next_id`, and two people with the same id are the same person |
| `CrudPage.Without` | sevenguis_core/src/crud_page.rs:156 | `retain` keeps only people that were there and do not have the id, and never grows the list |
| `CrudPage.Retain` | sevenguis_core/src/crud_page.rs:156 | the in-order `retain` loop leaves exactly `Without` of the list |
| `CrudPage.IsShown` | sevenguis_core/src/crud_page.rs:222-223 | a person passes exactly when the filter is empty or is a prefix, character by character, of the lower-cased last name |
| `CrudPage.Shown` | sevenguis_core/src/crud_page.rs:219-225 | the list shows only people of the model who pass the filter, never more than the model holds |
| `CrudPage.FindPerson` | sevenguis_core/src/crud_page.rs:141-144 | the index of the first person with the id, or none when nobody has it |
| `CrudPage.NoPersonHasIdZero` | sevenguis_core/src/crud_page.rs:157 | with valid ids, the sentinel selection 0 matches nobody |
| `CrudPage.ShownMembership` | sevenguis_core/src/crud_page.rs:219-225 | the list shows exactly the people whose lower-cased last name starts with the filter (all when it is empty) |
| `CrudPage.ShownWithEmptyFilter` | sevenguis_core/src/crud_page.rs:223 | an empty filter shows the whole list in its order |
| `CrudPage.ShownSnoc` | sevenguis_core/src/crud_page.rs:219-225 | a person appended to the list is appended to what is shown, if they pass |
| `CrudPage.ShownMiddleOfThree` | sevenguis_core/src/crud_page.rs:219-225 | of three people, only the one passing is shown |
| `CrudPage.SeedLastNamesMu` | sevenguis_core/src/crud_page.rs:44-60 | of the seed last names only "Mustermann" passes the filter "mu" |
| `CrudPage.ShownSeedMu` | sevenguis_core/src/crud_page.rs:219-225 | with the seed people, "mu" shows Mustermann only |
| `CrudPage.Model.Init` | sevenguis_core/src/crud_page.rs:40-71 | next id 4, selection 1, the three seed people, empty form and filter; ids valid |
| `CrudPage.Model.Update` | sevenguis_core/src/crud_page.rs:85-162 | per message the new value of every field; only a bad selection fails, changing nothing; Create appends with the next id; Update renames the first match; Delete removes exactly the selected id and selects the first left or 0; ids stay valid |
| `CrudPage.Model.Subscriptions` | sevenguis_core/src/crud_page.rs:73-83 | the same seven listeners for every model |

## Left out

- Markup: `view`, `view_head`, `view_body` and maud rendering are not modelled. The exceptions are the CRUD filter predicate and the flight `can_book` expression.
- Float formatting of the elapsed time (`as_secs_f64`) and the chrono-formatted booking message are not modelled.
- chrono is not part of this model: dates are days on an ordered line, and parsing, formatting and the day of a `Posix` time are given to the page as functions.
- polyester's `Value::parse` is not part of this model: each page receives, as a parameter, the host's reading of a value at the type it needs.
- The host event loop, listener diffing, the CLI, the wasm bindings, the TypeScript entry points and serde are not modelled.
- Error messages: only the page's own prefix is modelled, not the appended text of the underlying parse error.
- `TimerCore.AfterTick`: `current_time - previous_time` panics when time goes backwards. That case is excluded by a precondition, not modelled as a panic.
- `CrudPage.Model.Update`: `next_id += 1` on `u32` overflow is not modelled, because ids are unbounded naturals.
- `HomePage.Model.Update`: `isize` overflow of `count` is not modelled, because the count is an unbounded integer.
- `RustStd.ToLowercase`: only ASCII letters are lower-cased, whereas Rust's `to_lowercase` uses full Unicode case mapping.
- `TemperatureCore.CelsiusToFahrenheit`: the float computation is replaced by exact nearest-integer arithmetic. The fractional parts are multiples of 1/5 and 1/9, so no value is half-way and `f64::round` agrees wherever the float is exact. IEEE-754 itself is not modelled.
- Durations are whole milliseconds (nats), which is all the sources construct. `std::time::Duration` is not modelled beyond that.
- The counter page this crate refers to is not part of this model. Only the home page counter is.
