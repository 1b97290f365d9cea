/** sevenguis_core/src/flight_page.rs: a flight booker, drafting a one-way or
    return flight and then showing the booking.

    Dates come from chrono, which is not part of this model: a calendar day is
    a number of days on a totally ordered line, and date parsing, formatting
    and the conversion of the page's initial time to a day are functions the
    page is given. */
module FlightPage {
  import opened Polyester
  import opened RustStd

  /** chrono's `NaiveDate`: a calendar day, ordered by time. */
  datatype NaiveDate = NaiveDate(day: int)

  predicate OnOrAfter(a: NaiveDate, b: NaiveDate) { a.day >= b.day }

  /** The chrono functions the page calls: `NaiveDate::parse_from_str(_, "%Y-%m-%d")`,
      the day of a `Posix` time, and `format("%Y-%m-%d")`. */
  datatype Chrono = Chrono(
    parseDate: string -> Option<NaiveDate>,
    dateOf: Posix -> NaiveDate,
    format: NaiveDate -> string)

  datatype FlightType = OneWay | Return {
    /** `FlightType::is_one_way`. */
    function IsOneWay(): (oneWay: bool)
      ensures oneWay <==> !Return?
    {
      match this
      case OneWay => true
      case Return => false
    }
  }

  /** A date field: the parsed day, or the text that did not parse, kept verbatim. */
  datatype Date = Valid(valid: NaiveDate) | Invalid(raw: string) {
    /** `Date::date`. */
    function ToDate(): (r: Option<NaiveDate>)
      ensures r.Some? <==> Valid?
      ensures r.Some? ==> r.value == valid
    {
      match this
      case Valid(d) => Some(d)
      case Invalid(_) => None
    }
  }

  /** `impl Display for Date`: a valid date in chrono's `%Y-%m-%d`, an invalid
      one exactly as typed. */
  function DisplayDate(d: Date, chrono: Chrono): (text: string)
    ensures d.Invalid? ==> text == d.raw
    ensures d.Valid? ==> text == chrono.format(d.valid)
  {
    match d
    case Valid(date) => chrono.format(date)
    case Invalid(s) => s
  }

  /** What `StartDateChanged`/`ReturnDateChanged` store: the parsed date, or else
      the raw text. */
  function DateFromText(text: string, chrono: Chrono): (d: Date)
    ensures d.Valid? <==> chrono.parseDate(text).Some?
    ensures d.Valid? ==> d.valid == chrono.parseDate(text).value
    ensures d.Invalid? ==> d.raw == text && DisplayDate(d, chrono) == text
  {
    match chrono.parseDate(text)
    case Some(date) => Valid(date)
    case None => Invalid(text)
  }

  datatype Draft = Draft(currentDate: NaiveDate, flightType: FlightType, startDate: Date, returnDate: Date)

  /** `Draft::return_date_is_needed`. */
  function ReturnDateIsNeeded(d: Draft): (needed: bool)
    ensures needed <==> d.flightType == Return
  {
    !d.flightType.IsOneWay()
  }

  /** `Draft::start_date_is_ok`: the start date parsed and is not in the past. */
  function StartDateIsOk(d: Draft, currentDate: NaiveDate): (ok: bool)
    ensures ok <==> d.startDate.Valid? && OnOrAfter(d.startDate.valid, currentDate)
  {
    match d.startDate.ToDate()
    case Some(start) => start.day >= currentDate.day
    case None => false
  }

  /** `Draft::return_date_is_ok`: a one-way flight needs no return date;
      otherwise both dates parsed and the return is neither before the start
      nor in the past. */
  function ReturnDateIsOk(d: Draft, currentDate: NaiveDate): (ok: bool)
    ensures ok <==>
      d.flightType == OneWay
      || (d.startDate.Valid? && d.returnDate.Valid?
          && OnOrAfter(d.returnDate.valid, d.startDate.valid)
          && OnOrAfter(d.returnDate.valid, currentDate))
  {
    if !ReturnDateIsNeeded(d) then true
    else
      match (d.startDate.ToDate(), d.returnDate.ToDate())
      case (Some(start), Some(ret)) => ret.day >= start.day && ret.day >= currentDate.day
      case _ => false
  }

  /** `can_book` of `view_form`: whether the Book button is enabled. It is
      when the start date parsed and is not in the past, and, for a return
      flight, the return date parsed and is on or after the start date. */
  function CanBook(d: Draft): (can: bool)
    ensures can <==>
      d.startDate.Valid? && OnOrAfter(d.startDate.valid, d.currentDate)
      && (d.flightType == Return ==>
            d.returnDate.Valid? && OnOrAfter(d.returnDate.valid, d.startDate.valid))
  {
    StartDateIsOk(d, d.currentDate) && ReturnDateIsOk(d, d.currentDate)
  }

  datatype Flight = OneWayFlight(startDate: NaiveDate) | ReturnFlight(startDate: NaiveDate, returnDate: NaiveDate)

  /** `Flight::from_draft`: only whether the dates parsed matters, not their order. */
  function FromDraft(d: Draft): (r: Option<Flight>)
    ensures r.Some? <==> d.startDate.Valid? && (d.flightType == OneWay || d.returnDate.Valid?)
    ensures r.Some? && d.flightType == OneWay ==> r.value == OneWayFlight(d.startDate.valid)
    ensures r.Some? && d.flightType == Return ==> r.value == ReturnFlight(d.startDate.valid, d.returnDate.valid)
  {
    match d.flightType
    case OneWay =>
      (match d.startDate.ToDate()
       case Some(start) => Some(OneWayFlight(start))
       case None => None)
    case Return =>
      (match (d.startDate.ToDate(), d.returnDate.ToDate())
       case (Some(start), Some(ret)) => Some(ReturnFlight(start, ret))
       case _ => None)
  }

  /** Whenever the Book button is enabled, booking succeeds. */
  lemma CanBookThenBookable(d: Draft)
    requires CanBook(d)
    ensures FromDraft(d).Some?
  {
  }

  /** The converse fails: `update` does not check the order of the dates, so a
      return flight that comes back before it leaves is booked if its dates
      parse, although the button for it is disabled. */
  lemma BookingIgnoresDateOrder()
    ensures var d := Draft(NaiveDate(10), Return, Valid(NaiveDate(15)), Valid(NaiveDate(10)));
      !CanBook(d) && FromDraft(d) == Some(ReturnFlight(NaiveDate(15), NaiveDate(10)))
  {
  }

  datatype Model = Drafting(draft: Draft) | Booked(flight: Flight)

  datatype Msg =
    | FlightTypeChanged(value: Value)
    | StartDateChanged(text: string)
    | ReturnDateChanged(text: string)
    | BookFlight
    | Reset

  const FlightTypeId := DomId("flight-type")
  const StartDateId := DomId("start-date")
  const ReturnDateId := DomId("return-date")
  const BookId := DomId("book")
  const ResetId := DomId("reset")

  const FlightTypeError := "Failed to parse flight type"
  const BookError := "Failed to book flight"

  /** A running flight page: the time it was created at, the chrono functions
      it uses, and the model it owns. */
  class FlightPage {
    const initialTime: Posix
    const chrono: Chrono
    var model: Model

    /** `FlightPage::initial_model`: drafting a one-way flight, with every date
        the day of the initial time; such a draft can be booked. */
    function InitialModel(): (m: Model)
      ensures m.Drafting? && m.draft.flightType == OneWay
      ensures m.draft.currentDate == chrono.dateOf(initialTime)
      ensures m.draft.startDate == Valid(m.draft.currentDate)
      ensures m.draft.returnDate == Valid(m.draft.currentDate)
      ensures CanBook(m.draft)
    {
      var today := chrono.dateOf(initialTime);
      Drafting(Draft(today, OneWay, Valid(today), Valid(today)))
    }

    /** `FlightPage::init`. */
    constructor Init(initialTime: Posix, chrono: Chrono)
      ensures this.initialTime == initialTime && this.chrono == chrono
      ensures model == InitialModel()
    {
      this.initialTime := initialTime;
      this.chrono := chrono;
      model := Drafting(Draft(chrono.dateOf(initialTime), OneWay,
        Valid(chrono.dateOf(initialTime)), Valid(chrono.dateOf(initialTime))));
    }

    /** `FlightPage::update`. `asFlightType` is the host's `Value::parse::<FlightType>`.
        While drafting, each edit changes its own field only and a failed edit or
        booking changes nothing; `Reset` always starts over; once booked, every
        other message is ignored. No message requests effects. */
    method Update(msg: Msg, asFlightType: Value -> Option<FlightType>) returns (r: Outcome)
      modifies this
      ensures msg.Reset? ==> r == Ok([]) && model == InitialModel()
      ensures old(model).Booked? && !msg.Reset? ==> r == Ok([]) && model == old(model)
      ensures old(model).Drafting? ==>
        var draft := old(model).draft;
        match msg
        case FlightTypeChanged(v) =>
          (match asFlightType(v)
           case Some(ft) => r == Ok([]) && model == Drafting(draft.(flightType := ft))
           case None => r == Err(FlightTypeError) && model == old(model))
        case StartDateChanged(text) =>
          r == Ok([]) && model == Drafting(draft.(startDate := DateFromText(text, chrono)))
        case ReturnDateChanged(text) =>
          r == Ok([]) && model == Drafting(draft.(returnDate := DateFromText(text, chrono)))
        case BookFlight =>
          (match FromDraft(draft)
           case Some(f) => r == Ok([]) && model == Booked(f)
           case None => r == Err(BookError) && model == old(model))
        case Reset => true
      ensures old(model).Drafting? && model.Drafting? && !msg.Reset? ==>
        model.draft.currentDate == old(model).draft.currentDate
    {
      match (model, msg) {
        case (Drafting(draft), FlightTypeChanged(value)) =>
          match asFlightType(value) {
            case None =>
              r := Err(FlightTypeError);
              return;
            case Some(flightType) =>
              model := Drafting(draft.(flightType := flightType));
          }
          r := Ok([]);
        case (Drafting(draft), StartDateChanged(text)) =>
          model := Drafting(draft.(startDate := DateFromText(text, chrono)));
          r := Ok([]);
        case (Drafting(draft), ReturnDateChanged(text)) =>
          model := Drafting(draft.(returnDate := DateFromText(text, chrono)));
          r := Ok([]);
        case (Drafting(draft), BookFlight) =>
          match FromDraft(draft) {
            case None =>
              r := Err(BookError);
              return;
            case Some(flight) =>
              model := Booked(flight);
          }
          r := Ok([]);
        case (_, Reset) =>
          model := InitialModel();
          r := Ok([]);
        case (Booked(_), _) =>
          r := Ok([]);
      }
    }

    /** `FlightPage::subscriptions`: the three form fields and the Book button
        while drafting; only the Reset button once booked. */
    function Subscriptions(): (subs: seq<Subscription<Msg>>)
      reads this
      ensures model.Drafting? ==>
        |subs| == 4
        && IsChange(subs[0], FlightTypeId, v => FlightTypeChanged(v))
        && IsChangeString(subs[1], StartDateId, t => StartDateChanged(t))
        && IsChangeString(subs[2], ReturnDateId, t => ReturnDateChanged(t))
        && IsClick(subs[3], BookId, BookFlight)
      ensures model.Booked? ==> |subs| == 1 && IsClick(subs[0], ResetId, Reset)
    {
      match model
      case Drafting(_) =>
        [ OnChange(FlightTypeId, v => FlightTypeChanged(v)),
          OnChangeString(StartDateId, t => StartDateChanged(t)),
          OnChangeString(ReturnDateId, t => ReturnDateChanged(t)),
          OnClick(BookId, BookFlight) ]
      case Booked(_) =>
        [OnClick(ResetId, Reset)]
    }
  }

  /** A client run: a one-way flight five days ahead is booked, and Reset
      starts a new draft. */
  method Session(chrono: Chrono, text: string)
    requires chrono.dateOf(Posix(0)) == NaiveDate(10)
    requires chrono.parseDate(text) == Some(NaiveDate(15))
  {
    var page := new FlightPage.Init(Posix(0), chrono);
    var r := page.Update(StartDateChanged(text), v => None);
    assert page.model == Drafting(Draft(NaiveDate(10), OneWay, Valid(NaiveDate(15)), Valid(NaiveDate(10))));
    assert CanBook(page.model.draft);
    r := page.Update(BookFlight, v => None);
    assert r == Ok([]) && page.model == Booked(OneWayFlight(NaiveDate(15)));
    assert |page.Subscriptions()| == 1;
    r := page.Update(StartDateChanged(text), v => None);
    assert page.model == Booked(OneWayFlight(NaiveDate(15)));
    r := page.Update(Reset, v => None);
    assert page.model == page.InitialModel();
  }
}
