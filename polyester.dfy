/** The part of the polyester page runtime that the pages of sevenguis_core are
    written against: element ids, timestamps, opaque event values, effects,
    the result of `update`, and the subscription descriptions a page hands to
    its host. The host itself (listener binding, diffing, effect execution) is
    not part of this model. */
module Polyester {
  import opened RustStd

  /** A stable identifier of a rendered element. */
  datatype DomId = DomId(name: string)

  /** A point in time, in milliseconds since the Unix epoch. */
  datatype Posix = Posix(millis: int)

  /** A host-supplied datum, known here only by how it was captured. Its decoding
      (`Value::parse`) belongs to the host, so every page receives the decoders it
      needs as function parameters. The capture constructors are the
      descriptions that the sevenguis_lib pages put into their subscriptions
      ("read this element", "read the clock"). */
  datatype Value =
    | CaptureFromElement(element: DomId)
    | CaptureStringFromElement(element: DomId)
    | CaptureCurrentTime

  /** The effects a subscription may ask the host to perform. */
  datatype Effect = CurrentTime

  /** `Result<Effects, String>`, what every `update` returns. */
  type Outcome = Result<seq<Effect>, string>

  /** The subscription constructors of `polyester::browser` used by sevenguis_core.
      A listener that forwards the captured input carries the message constructor
      the page passes (`Msg::FilterChanged`), as a function. */
  datatype Subscription<M> =
    | OnClick(target: DomId, msg: M)
    | OnInput(target: DomId, toMsg: string -> M)
    | OnChange(target: DomId, fromValue: Value -> M)
    | OnChangeString(target: DomId, toMsg: string -> M)
    | IntervalEffect(periodMs: nat, fromValue: Value -> M, effect: Effect)
    | NoSubscription

  /* What a subscription is, stated without comparing functions for equality. */

  predicate IsClick<M(==)>(s: Subscription<M>, id: DomId, msg: M)
  {
    s.OnClick? && s.target == id && s.msg == msg
  }

  ghost predicate IsInput<M>(s: Subscription<M>, id: DomId, toMsg: string -> M)
  {
    s.OnInput? && s.target == id && forall t :: s.toMsg(t) == toMsg(t)
  }

  ghost predicate IsChange<M>(s: Subscription<M>, id: DomId, fromValue: Value -> M)
  {
    s.OnChange? && s.target == id && forall v :: s.fromValue(v) == fromValue(v)
  }

  ghost predicate IsChangeString<M>(s: Subscription<M>, id: DomId, toMsg: string -> M)
  {
    s.OnChangeString? && s.target == id && forall t :: s.toMsg(t) == toMsg(t)
  }

  ghost predicate IsIntervalEffect<M>(s: Subscription<M>, periodMs: nat, fromValue: Value -> M, effect: Effect)
  {
    s.IntervalEffect? && s.periodMs == periodMs && s.effect == effect
    && forall v :: s.fromValue(v) == fromValue(v)
  }
}

/** The older subscription constructors used by sevenguis_lib: every listener
    carries a complete message whose `Value` describes what the host captures. */
module PolyesterLib {
  import opened Polyester

  datatype Subscription<M> =
    | OnInput(target: DomId, msg: M)
    | OnClick(target: DomId, msg: M)
    | Interval(name: string, periodMs: nat, msg: M)
    | NoSubscription
}
