/** Notions shared by the models of all the controllers. */
module Basics {

  newtype byte = x: int | 0 <= x < 256

  type Bytes = seq<byte>

  datatype Option<T> = None | Some(value: T)

  /** The fate of one call that changes something, in Kubernetes or in Vault. */
  datatype CallOutcome =
    | Done       // applied, and the caller knows
    | ReplyLost  // applied, but the caller sees an error
    | Refused    // not applied
  {
    predicate Applied() {
      !Refused?
    }
  }

  /** What a cycle asks of the work queue; an error means a retry. */
  datatype Result = Error | Requeue(after: int) | NoRequeue

  const SECOND := 1_000_000_000

  /** The value a timestamp has after it was stored, in units of `tick`. */
  function Persisted(t: int, tick: int): (r: int)
    requires tick >= 1
    ensures r <= t < r + tick
  {
    t - t % tick
  }

  /** A work queue keeps only the earliest delayed requeue of an object. */
  function Earlier(due: Option<int>, t: int): Option<int> {
    if due.Some? && due.value < t then due else Some(t)
  }

  /** A custom resource; `Terminating` while a finalizer holds back a requested deletion. */
  datatype Phase = Live | Terminating | Gone

  function Elements<T>(s: seq<T>): set<T> {
    set x <- s
  }

  predicate Distinct<T(==)>(s: seq<T>) {
    forall i, j | 0 <= i < j < |s| :: s[i] != s[j]
  }
}
