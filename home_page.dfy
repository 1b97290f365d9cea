/** sevenguis_core/src/home_page.rs: the counter behind the catalogue's home page. */
module HomePage {
  import opened Polyester
  import opened RustStd

  datatype Msg = Increment | Decrement

  const IncrementId := DomId("increment")
  const DecrementId := DomId("decrement")

  /** The counter after one message. */
  function Apply(count: int, msg: Msg): (r: int)
    ensures r == count + 1 || r == count - 1
    ensures r > count <==> msg == Increment
  {
    match msg
    case Increment => count + 1
    case Decrement => count - 1
  }

  /** The counter after a sequence of messages, processed first to last. */
  function ApplyAll(count: int, msgs: seq<Msg>): (r: int)
    ensures count - |msgs| <= r <= count + |msgs|
    ensures msgs != [] ==> r == Apply(ApplyAll(count, msgs[..|msgs| - 1]), msgs[|msgs| - 1])
    decreases |msgs|
  {
    if msgs == [] then count
    else
      assert |msgs| > 1 ==> msgs[..|msgs| - 1][1..] == msgs[1..][..|msgs| - 2];
      ApplyAll(Apply(count, msgs[0]), msgs[1..])
  }

  /** The number of occurrences of `msg` in `msgs`. */
  function Occurrences(msgs: seq<Msg>, msg: Msg): nat
  {
    if msgs == [] then 0 else (if msgs[0] == msg then 1 else 0) + Occurrences(msgs[1..], msg)
  }

  /** Increment and Decrement undo each other, in either order. */
  lemma IncrementDecrementCancel(count: int)
    ensures Apply(Apply(count, Increment), Decrement) == count
    ensures Apply(Apply(count, Decrement), Increment) == count
  {
  }

  /** After any sequence of messages the counter has moved by the number of
      increments minus the number of decrements. */
  lemma {:induction false} ApplyAllCounts(count: int, msgs: seq<Msg>)
    ensures ApplyAll(count, msgs) == count + Occurrences(msgs, Increment) - Occurrences(msgs, Decrement)
    decreases |msgs|
  {
    if msgs != [] {
      ApplyAllCounts(Apply(count, msgs[0]), msgs[1..]);
    }
  }

  /** `home_page::Model`. */
  class Model {
    var count: int

    /** `HomePage::init`. */
    constructor Init()
      ensures count == 0
    {
      count := 0;
    }

    /** `HomePage::update`: never fails and requests no effects. */
    method Update(msg: Msg) returns (r: Outcome)
      modifies this
      ensures r == Ok([])
      ensures count == Apply(old(count), msg)
      ensures msg == Increment ==> count == old(count) + 1
      ensures msg == Decrement ==> count == old(count) - 1
    {
      match msg {
        case Increment => count := count + 1;
        case Decrement => count := count - 1;
      }
      r := Ok([]);
    }

    /** `HomePage::subscriptions`: one click listener per message, on that
        message's button, whatever the count. */
    function Subscriptions(): (subs: seq<Subscription<Msg>>)
      ensures |subs| == 2
      ensures IsClick(subs[0], IncrementId, Increment)
      ensures IsClick(subs[1], DecrementId, Decrement)
    {
      [OnClick(IncrementId, Increment), OnClick(DecrementId, Decrement)]
    }
  }

  /** A client run: the contracts alone determine the counter. */
  method Session()
  {
    var m := new Model.Init();
    var r := m.Update(Increment);
    r := m.Update(Increment);
    r := m.Update(Decrement);
    assert m.count == 1 && r == Ok([]);
  }
}
