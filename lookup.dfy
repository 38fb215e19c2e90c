/**
 * The CDX lookup service as an environment: the outcome of each request, and
 * the "first answer within a retry budget" rule both clients follow.
 */
module Lookup {

  /** One request: the connection failed, or a body came back (whatever its
      status or content). */
  datatype Attempt = TransportError | Received(text: string)

  /** The network: `net(url, n)` is the outcome of the n-th request (from 0)
      a lookup sends to `url`. */
  type Net = (string, nat) -> Attempt

  /** The retry budget of one lookup window. */
  const AttemptsPerWindow: nat := 10

  /** The index of the first attempt in [from, limit) that received a body,
      or `limit` when every one of them failed to connect. */
  function FirstAnswer(a: nat -> Attempt, from: nat, limit: nat): (i: nat)
    requires from <= limit
    ensures from <= i <= limit
    ensures forall j :: from <= j < i ==> a(j).TransportError?
    ensures i < limit ==> a(i).Received?
    decreases limit - from
  {
    if from == limit || a(from).Received? then from else FirstAnswer(a, from + 1, limit)
  }

  /** The first answer does not depend on how far one is willing to look beyond it. */
  lemma {:induction false} FirstAnswerStable(a: nat -> Attempt, from: nat, limit: nat, limit': nat)
    requires from <= limit <= limit'
    requires FirstAnswer(a, from, limit) < limit
    ensures FirstAnswer(a, from, limit') == FirstAnswer(a, from, limit)
    decreases limit - from
  {
    if a(from).TransportError? {
      FirstAnswerStable(a, from + 1, limit, limit');
    }
  }

  /** An attempt that received a body after only failed connections is the first answer. */
  lemma {:induction false} FirstAnswerAt(a: nat -> Attempt, from: nat, limit: nat, i: nat)
    requires from <= i < limit
    requires forall j :: from <= j < i ==> a(j).TransportError?
    requires a(i).Received?
    ensures FirstAnswer(a, from, limit) == i
    decreases i - from
  {
    if from < i {
      FirstAnswerAt(a, from + 1, limit, i);
    }
  }
}
