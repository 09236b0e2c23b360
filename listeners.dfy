/** Event listeners as the stores and composables keep them: an array of callbacks that an
    event runs in registration order. A callback is identified by its registration, and
    running it is recorded as a delivery appended to an event log. */
module Listeners {
  /** A registered callback. */
  type ListenerId = nat

  /** One callback run: which listener received which message. */
  datatype Delivery<M> = Delivery(listener: ListenerId, message: M)

  /** What `listeners.forEach(fn => fn(message))` delivers: one call per listener, in
      registration order, each with the same message. */
  function Deliveries<M>(listeners: seq<ListenerId>, message: M): (d: seq<Delivery<M>>)
    ensures |d| == |listeners|
    ensures forall i :: 0 <= i < |d| ==> d[i].listener == listeners[i] && d[i].message == message
  {
    if listeners == [] then []
    else Deliveries(listeners[..|listeners| - 1], message) + [Delivery(listeners[|listeners| - 1], message)]
  }

  /** The `forEach` loop that fires an event: appends one delivery per listener to the log. */
  method Broadcast<M>(log: seq<Delivery<M>>, listeners: seq<ListenerId>, message: M) returns (r: seq<Delivery<M>>)
    ensures r == log + Deliveries(listeners, message)
  {
    r := log;
    for i := 0 to |listeners|
      invariant r == log + Deliveries(listeners[..i], message)
    {
      assert listeners[..i + 1][..i] == listeners[..i];
      r := r + [Delivery(listeners[i], message)];
    }
    assert listeners[..|listeners|] == listeners;
  }
}
