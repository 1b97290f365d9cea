/** sevenguis_lib/src/timer_page.rs: the timer written against the older
    polyester API. Ticks, clock samples and resets are the same transitions as
    in sevenguis_core and are taken from TimerCore. What differs: the model
    carries its element ids, the duration arrives as a host value, a duration
    that does not parse keeps the old cap instead of failing, and the
    subscriptions say what the host captures. */
module TimerLib {
  import opened Polyester
  import opened RustStd
  import Lib = PolyesterLib
  import T = TimerCore

  datatype Msg = GotTime(value: Value) | MaxDurationChanged(value: Value) | OnTick(value: Value) | ResetClicked

  /** `DomIds`: the ids of the meter, the duration slider and the reset button. */
  datatype DomIds = DomIds(elapsed: DomId, duration: DomId, reset: DomId)

  /** `initial_ids`. */
  function InitialIds(): (ids: DomIds)
    ensures ids.elapsed.name == "elapsed" && ids.duration.name == "duration" && ids.reset.name == "reset"
  {
    DomIds(DomId("elapsed"), DomId("duration"), DomId("reset"))
  }

  /** `max_duration.as_millis() as u64`: the cast keeps the low 64 bits, that
      is, the one `u64` that differs from `ms` by a multiple of 2^64. */
  function AsU64(ms: nat): (r: u64)
    ensures (ms - r) % U64_LIMIT == 0
    ensures ms < U64_LIMIT ==> r == ms
  {
    ms % U64_LIMIT
  }

  /** The cap `MaxDurationChanged` installs: the parsed value, or else the
      current cap. */
  function NewMaxDuration(parsed: Option<u64>, current: nat): (ms: u64)
    ensures parsed.Some? ==> ms == parsed.value
    ensures parsed.None? && current < U64_LIMIT ==> ms == current
  {
    match parsed
    case Some(n) => n
    case None => AsU64(current)
  }

  /** `timer_page::Model` of sevenguis_lib. */
  class Model {
    var ids: DomIds
    var currentTime: Posix
    var previousTime: Posix
    var maxDuration: nat
    var elapsed: nat

    function Snapshot(): T.State
      reads this
    {
      T.State(currentTime, previousTime, maxDuration, elapsed)
    }

    /** Besides the timer invariant: every cap the page installs is a `u64`. */
    ghost predicate Valid()
      reads this
    {
      T.Inv(Snapshot()) && maxDuration < U64_LIMIT
    }

    /** `TimerPage::init`. */
    constructor Init(initialTime: Posix)
      ensures ids == InitialIds() && Snapshot() == T.Initial(initialTime)
      ensures Valid()
    {
      ids := InitialIds();
      currentTime := initialTime;
      previousTime := initialTime;
      maxDuration := T.InitialMaxDuration;
      elapsed := 0;
    }

    /** `TimerPage::update`. `asTime` and `asU64` are the host's `Value::parse`
        at `Posix` and at `u64`. A time that does not parse is an error and
        changes nothing; `MaxDurationChanged` never fails. */
    method Update(msg: Msg, asTime: Value -> Option<Posix>, asU64: Value -> Option<u64>) returns (r: Outcome)
      requires msg.OnTick? && asTime(msg.value).Some? ==> previousTime.millis <= asTime(msg.value).value.millis
      modifies this
      ensures ids == old(ids)
      ensures old(Valid()) ==> Valid()
      ensures msg.GotTime? ==>
        match asTime(msg.value)
        case Some(t) => r == Ok([]) && Snapshot() == T.AfterGotTime(old(Snapshot()), t)
        case None => r == Err(T.TimeError) && Snapshot() == old(Snapshot())
      ensures msg.OnTick? ==>
        match asTime(msg.value)
        case Some(t) => r == Ok([]) && Snapshot() == T.AfterTick(old(Snapshot()), t)
        case None => r == Err(T.TimeError) && Snapshot() == old(Snapshot())
      ensures msg.ResetClicked? ==> r == Ok([]) && Snapshot() == T.AfterReset(old(Snapshot()))
      ensures msg.MaxDurationChanged? ==>
        r == Ok([])
        && Snapshot() == T.WithMaxDuration(T.RebaseIfSaturated(old(Snapshot())),
                                           NewMaxDuration(asU64(msg.value), old(maxDuration)))
    {
      match msg {
        case MaxDurationChanged(value) =>
          if elapsed >= maxDuration {
            previousTime := currentTime;
          }
          var ms := match asU64(value) case Some(n) => n case None => AsU64(maxDuration);
          maxDuration := ms;
          if elapsed > maxDuration {
            elapsed := maxDuration;
          }
          r := Ok([]);
        case GotTime(value) =>
          var t := T.ParseCurrentTime(value, asTime);
          if t.Err? {
            r := Err(t.error);
            return;
          }
          currentTime := t.value;
          r := Ok([]);
        case OnTick(value) =>
          var t := T.ParseCurrentTime(value, asTime);
          if t.Err? {
            r := Err(t.error);
            return;
          }
          currentTime := t.value;
          var sum := elapsed + (currentTime.millis - previousTime.millis);
          if sum > maxDuration {
            elapsed := maxDuration;
          } else {
            elapsed := sum;
          }
          previousTime := currentTime;
          r := Ok([]);
        case ResetClicked =>
          elapsed := 0;
          previousTime := currentTime;
          r := Ok([]);
      }
    }

    /** `TimerPage::subscriptions`: always four entries; the fourth is the 200 ms
        "timer" interval exactly while the timer is below its cap. The 100 ms
        "current-time" interval is always there. */
    function Subscriptions(): (subs: seq<Lib.Subscription<Msg>>)
      reads this
      ensures |subs| == 4
      ensures subs[0] == Lib.OnInput(ids.duration, MaxDurationChanged(CaptureFromElement(ids.duration)))
      ensures subs[1] == Lib.OnClick(ids.reset, ResetClicked)
      ensures subs[2] == Lib.Interval("current-time", 100, GotTime(CaptureCurrentTime))
      ensures subs[3] == Lib.Interval("timer", 200, OnTick(CaptureCurrentTime)) <==> !T.Saturated(Snapshot())
      ensures subs[3] == Lib.NoSubscription <==> T.Saturated(Snapshot())
    {
      [ Lib.OnInput(ids.duration, MaxDurationChanged(CaptureFromElement(ids.duration))),
        Lib.OnClick(ids.reset, ResetClicked),
        Lib.Interval("current-time", 100, GotTime(CaptureCurrentTime)),
        if elapsed < maxDuration then Lib.Interval("timer", 200, OnTick(CaptureCurrentTime)) else Lib.NoSubscription ]
    }
  }

  /** A client run: a duration value that does not parse leaves the cap as it was. */
  method Session(asTime: Value -> Option<Posix>, asU64: Value -> Option<u64>, bad: Value)
    requires asU64(bad) == None
  {
    var m := new Model.Init(Posix(1_000));
    var r := m.Update(MaxDurationChanged(bad), asTime, asU64);
    assert r == Ok([]) && m.maxDuration == 15_000 && m.elapsed == 0;
    r := m.Update(ResetClicked, asTime, asU64);
    assert m.elapsed == 0 && m.previousTime == Posix(1_000);
  }
}
