/** sevenguis_core/src/timer_page.rs: a timer whose elapsed time follows the
    clock, capped by an adjustable maximum.

    The four model fields are also given as one value, `State`, and each
    transition of `update` as a function on it; the `Model` class is proved to
    follow those functions, and the lemmas about several ticks are stated on
    them. sevenguis_lib's copy (TimerLib) reuses the same functions. Durations
    are whole milliseconds, which is all the sources ever produce. */
module TimerCore {
  import opened Polyester
  import opened RustStd

  /** The fields of the timer's model. */
  datatype State = State(currentTime: Posix, previousTime: Posix, maxDuration: nat, elapsed: nat)

  /** `Duration::from_secs(15)`, in milliseconds. */
  const InitialMaxDuration: nat := 15_000

  /** The invariant every transition keeps. */
  predicate Inv(s: State) { s.elapsed <= s.maxDuration }

  /** The timer has reached its cap; no further tick is requested. */
  predicate Saturated(s: State) { s.elapsed >= s.maxDuration }

  function Min(a: int, b: int): int { if a <= b then a else b }

  /** The model `init` builds from the page's initial time. */
  function Initial(t: Posix): (s: State)
    ensures s.currentTime == t && s.previousTime == t
    ensures s.maxDuration == InitialMaxDuration && s.elapsed == 0
    ensures Inv(s) && !Saturated(s)
  {
    State(t, t, InitialMaxDuration, 0)
  }

  /** `GotTime(t)`: only the current time changes. */
  function AfterGotTime(s: State, t: Posix): (r: State)
    ensures r.currentTime == t
    ensures r.previousTime == s.previousTime && r.maxDuration == s.maxDuration && r.elapsed == s.elapsed
  {
    s.(currentTime := t)
  }

  /** `OnTick(t)`: take `t` as the current time, add the time since the previous
      tick to `elapsed` but not beyond the cap, and re-base the previous time.
      `current_time - previous_time` is only defined when time has not gone
      backwards, hence the precondition. */
  function AfterTick(s: State, t: Posix): (r: State)
    requires s.previousTime.millis <= t.millis
    ensures r.currentTime == t && r.previousTime == t && r.maxDuration == s.maxDuration
    ensures Inv(r)
    ensures r.elapsed <= s.elapsed + (t.millis - s.previousTime.millis)
    ensures r.elapsed == s.elapsed + (t.millis - s.previousTime.millis) || r.elapsed == s.maxDuration
    ensures Inv(s) ==> s.elapsed <= r.elapsed
  {
    var current := t;
    var elapsed := s.elapsed + (current.millis - s.previousTime.millis);
    var capped := if elapsed > s.maxDuration then s.maxDuration else elapsed;
    State(current, current, s.maxDuration, capped)
  }

  /** `ResetClicked`: elapsed time back to zero, counted from the current time. */
  function AfterReset(s: State): (r: State)
    ensures r.elapsed == 0 && r.previousTime == s.currentTime
    ensures r.currentTime == s.currentTime && r.maxDuration == s.maxDuration
    ensures Inv(r)
  {
    s.(elapsed := 0, previousTime := s.currentTime)
  }

  /** The first step of `MaxDurationChanged`: a saturated timer starts counting
      from now, so that raising the cap does not count the time spent saturated. */
  function RebaseIfSaturated(s: State): (r: State)
    ensures Saturated(s) ==> r == s.(previousTime := s.currentTime)
    ensures !Saturated(s) ==> r == s
  {
    if s.elapsed >= s.maxDuration then s.(previousTime := s.currentTime) else s
  }

  /** The rest of `MaxDurationChanged`: the new cap, with `elapsed` clamped to it. */
  function WithMaxDuration(s: State, ms: nat): (r: State)
    ensures r.maxDuration == ms && Inv(r)
    ensures r.elapsed == Min(s.elapsed, ms)
    ensures r.currentTime == s.currentTime && r.previousTime == s.previousTime
  {
    var s' := s.(maxDuration := ms);
    if s'.elapsed > s'.maxDuration then s'.(elapsed := s'.maxDuration) else s'
  }

  /** Every timestamp is at least the one before it, starting from `from`. */
  predicate Chronological(from: int, ts: seq<Posix>)
    decreases |ts|
  {
    ts == [] || (from <= ts[0].millis && Chronological(ts[0].millis, ts[1..]))
  }

  /** The state after a run of ticks with the given timestamps. */
  function Ticks(s: State, ts: seq<Posix>): (r: State)
    requires Chronological(s.previousTime.millis, ts)
    ensures r.maxDuration == s.maxDuration
    ensures ts == [] ==> r == s
    ensures ts != [] ==> r.previousTime == r.currentTime == ts[|ts| - 1]
    ensures Inv(s) ==> Inv(r)
    decreases |ts|
  {
    if ts == [] then s else Ticks(AfterTick(s, ts[0]), ts[1..])
  }

  lemma {:induction false} ChronologicalLast(from: int, ts: seq<Posix>)
    requires Chronological(from, ts) && ts != []
    ensures from <= ts[0].millis <= ts[|ts| - 1].millis
    decreases |ts|
  {
    if |ts| > 1 {
      ChronologicalLast(ts[0].millis, ts[1..]);
    }
  }

  /** No drift: because every tick re-bases the previous time, a run of ticks
      adds exactly the time between the previous time before the first tick
      and the last tick, capped at the maximum; in particular a run that stays
      below the cap adds exactly that difference. */
  lemma {:induction false} TicksDoNotDrift(s: State, ts: seq<Posix>)
    requires Inv(s) && ts != []
    requires Chronological(s.previousTime.millis, ts)
    ensures Ticks(s, ts).elapsed == Min(s.elapsed + (ts[|ts| - 1].millis - s.previousTime.millis), s.maxDuration)
    ensures Ticks(s, ts).previousTime == Ticks(s, ts).currentTime == ts[|ts| - 1]
    ensures Ticks(s, ts).maxDuration == s.maxDuration
    decreases |ts|
  {
    var s1 := AfterTick(s, ts[0]);
    if |ts| > 1 {
      TicksDoNotDrift(s1, ts[1..]);
      ChronologicalLast(ts[0].millis, ts[1..]);
    }
  }

  /** A run of ticks never decreases the elapsed time and keeps the invariant. */
  lemma TicksAreMonotone(s: State, ts: seq<Posix>)
    requires Inv(s)
    requires Chronological(s.previousTime.millis, ts)
    ensures s.elapsed <= Ticks(s, ts).elapsed
    ensures Inv(Ticks(s, ts))
  {
    if ts != [] {
      TicksDoNotDrift(s, ts);
      ChronologicalLast(s.previousTime.millis, ts);
    }
  }

  /** Raising the cap of a saturated timer does not make the next tick jump:
      that tick adds only the time since the cap was changed. */
  lemma RaisingCapWhileSaturated(s: State, ms: nat, t: Posix)
    requires Inv(s) && Saturated(s) && s.maxDuration <= ms
    requires s.currentTime.millis <= t.millis
    ensures var r := WithMaxDuration(RebaseIfSaturated(s), ms);
      r.previousTime == s.currentTime
      && AfterTick(r, t).elapsed == Min(s.maxDuration + (t.millis - s.currentTime.millis), ms)
  {
  }

  datatype Msg = GotTime(value: Value) | MaxDurationChanged(text: string) | OnTick(value: Value) | ResetClicked

  const DurationId := DomId("duration")
  const ResetId := DomId("reset")

  const TimeError := "Failed to parse current time"
  const MaxDurationError := "Failed to parse max duration"

  /** `parse_current_time`: the host's reading of a value as a time, with the
      page's error message. */
  function ParseCurrentTime(value: Value, asTime: Value -> Option<Posix>): (r: Result<Posix, string>)
    ensures r.Ok? <==> asTime(value).Some?
    ensures r.Ok? ==> r.value == asTime(value).value
    ensures r.Err? ==> r.error == TimeError
  {
    match asTime(value)
    case Some(t) => Ok(t)
    case None => Err(TimeError)
  }

  /** `timer_page::Model` of sevenguis_core. */
  class Model {
    var currentTime: Posix
    var previousTime: Posix
    var maxDuration: nat
    var elapsed: nat

    function Snapshot(): State
      reads this
    {
      State(currentTime, previousTime, maxDuration, elapsed)
    }

    /** `TimerPage::init`. */
    constructor Init(initialTime: Posix)
      ensures Snapshot() == Initial(initialTime)
    {
      currentTime := initialTime;
      previousTime := initialTime;
      maxDuration := InitialMaxDuration;
      elapsed := 0;
    }

    /** `TimerPage::update`. `asTime` is the host's `Value::parse::<Posix>`; the
        duration text is read by `str::parse::<u64>`. A time that does not
        parse is an error and changes nothing. A duration that does not parse
        is an error too, but the saturated timer has already been re-based by
        then: that error path is not free of effects on the model. */
    method Update(msg: Msg, asTime: Value -> Option<Posix>) returns (r: Outcome)
      requires msg.OnTick? && asTime(msg.value).Some? ==> previousTime.millis <= asTime(msg.value).value.millis
      modifies this
      ensures Inv(old(Snapshot())) ==> Inv(Snapshot())
      ensures msg.GotTime? ==>
        match asTime(msg.value)
        case Some(t) => r == Ok([]) && Snapshot() == AfterGotTime(old(Snapshot()), t)
        case None => r == Err(TimeError) && Snapshot() == old(Snapshot())
      ensures msg.OnTick? ==>
        match asTime(msg.value)
        case Some(t) => r == Ok([]) && Snapshot() == AfterTick(old(Snapshot()), t)
        case None => r == Err(TimeError) && Snapshot() == old(Snapshot())
      ensures msg.ResetClicked? ==> r == Ok([]) && Snapshot() == AfterReset(old(Snapshot()))
      ensures msg.MaxDurationChanged? ==>
        match ParseU64(msg.text)
        case Some(ms) => r == Ok([]) && Snapshot() == WithMaxDuration(RebaseIfSaturated(old(Snapshot())), ms)
        case None => r == Err(MaxDurationError) && Snapshot() == RebaseIfSaturated(old(Snapshot()))
    {
      match msg {
        case MaxDurationChanged(text) =>
          if elapsed >= maxDuration {
            previousTime := currentTime;
          }
          match ParseU64(text) {
            case None =>
              r := Err(MaxDurationError);
              return;
            case Some(ms) =>
              maxDuration := ms;
              if elapsed > maxDuration {
                elapsed := maxDuration;
              }
              r := Ok([]);
          }
        case GotTime(value) =>
          var t := ParseCurrentTime(value, asTime);
          if t.Err? {
            r := Err(t.error);
            return;
          }
          currentTime := t.value;
          r := Ok([]);
        case OnTick(value) =>
          var t := ParseCurrentTime(value, asTime);
          if t.Err? {
            r := Err(t.error);
            return;
          }
          currentTime := t.value;
          var sum := elapsed + (currentTime.millis - previousTime.millis);
          if sum > maxDuration {
            elapsed := maxDuration;
          } else {
            elapsed := sum;
          }
          previousTime := currentTime;
          r := Ok([]);
        case ResetClicked =>
          elapsed := 0;
          previousTime := currentTime;
          r := Ok([]);
      }
    }

    /** `TimerPage::subscriptions`: always four entries; the fourth is the 200 ms
        tick exactly while the timer is below its cap, and a placeholder once it
        is saturated. The 100 ms clock sample is always there. */
    function Subscriptions(): (subs: seq<Subscription<Msg>>)
      reads this
      ensures |subs| == 4
      ensures IsInput(subs[0], DurationId, t => MaxDurationChanged(t))
      ensures IsClick(subs[1], ResetId, ResetClicked)
      ensures IsIntervalEffect(subs[2], 100, v => GotTime(v), CurrentTime)
      ensures IsIntervalEffect(subs[3], 200, v => OnTick(v), CurrentTime) <==> !Saturated(Snapshot())
      ensures subs[3].NoSubscription? <==> Saturated(Snapshot())
    {
      [ OnInput(DurationId, t => MaxDurationChanged(t)),
        OnClick(ResetId, ResetClicked),
        IntervalEffect(100, v => GotTime(v), CurrentTime),
        if elapsed < maxDuration then IntervalEffect(200, v => OnTick(v), CurrentTime) else NoSubscription ]
    }
  }

  /** A client run: a saturated timer stops ticking, and raising its cap
      resumes from the moment of the change. */
  method Session(asTime: Value -> Option<Posix>, v1: Value, v2: Value, v3: Value)
    requires asTime(v1) == Some(Posix(20_000))
    requires asTime(v2) == Some(Posix(20_500))
    requires asTime(v3) == Some(Posix(21_000))
  {
    var m := new Model.Init(Posix(0));
    var r := m.Update(OnTick(v1), asTime);
    assert m.elapsed == 15_000 && m.previousTime == Posix(20_000);
    assert m.Subscriptions()[3].NoSubscription?;
    r := m.Update(GotTime(v2), asTime);
    assert ParseU64("30000") == Some(30_000) by {
      assert "30000"[..4] == "3000" && "3000"[..3] == "300" && "300"[..2] == "30";
      assert "30"[..1] == "3" && "3"[..0] == "";
    }
    r := m.Update(MaxDurationChanged("30000"), asTime);
    assert m.maxDuration == 30_000 && m.elapsed == 15_000 && m.previousTime == Posix(20_500);
    r := m.Update(OnTick(v3), asTime);
    assert m.elapsed == 15_500;
  }
}
