/**
 * The bounded retry loop used to reach the database: call `fn` up to
 * `attempts` times, sleeping `delay` after every failed call, and stop at the
 * first success.
 */
module Retry {
  import opened Wrappers

  const Op := "utils.repeatable.DoWithTries"

  /** What the loop does, in order: a call of `fn` (numbered from 0) or a sleep. */
  datatype Effect = Call(attempt: nat) | Sleep(delay: int)

  /** The error returned: the zero-attempts refusal, or the wrapped last error. */
  datatype RetryError = ZeroAttempts | Exhausted(last: Option<string>)
  {
    /** The text of the error; Go's `%w` applied to a nil error prints `%!w(<nil>)`. */
    function Text(): string
    {
      match this
      case ZeroAttempts => Op + ":" + "attemps count can't be 0"
      case Exhausted(Some(m)) => Op + ":" + m
      case Exhausted(None) => Op + ":" + "%!w(<nil>)"
    }
  }

  /** The trace of a run: calls numbered from 0, each failed one followed by a sleep. */
  ghost predicate Alternates(trace: seq<Effect>, delay: int)
  {
    forall j :: 0 <= j < |trace| ==> trace[j] == if j % 2 == 0 then Call(j / 2) else Sleep(delay)
  }

  /**
   * `fn` is given as the result of its n-th call (None for a nil error), since
   * each call may see a different outcome.
   */
  method DoWithTries(fn: nat -> Option<string>, attempts: int, delay: int)
    returns (err: Option<RetryError>, trace: seq<Effect>)
    ensures Alternates(trace, delay)
    ensures attempts == 0 ==> err == Some(ZeroAttempts) && trace == []
    ensures attempts < 0 ==> err == Some(Exhausted(None)) && trace == []
    ensures err == None <==> exists i :: 0 <= i < attempts && fn(i) == None
    ensures err == None ==>
      |trace| % 2 == 1 && fn(|trace| / 2) == None &&
      forall j :: 0 <= j < |trace| / 2 ==> fn(j) != None
    ensures attempts > 0 && err != None ==>
      |trace| == 2 * attempts && err == Some(Exhausted(fn(attempts - 1))) &&
      forall j :: 0 <= j < attempts ==> fn(j) != None
  {
    trace := [];
    if attempts == 0 {
      return Some(ZeroAttempts), trace;
    }
    var last: Option<string> := None;
    var i := 0;
    while i < attempts
      invariant 0 <= i && (i == 0 || i <= attempts)
      invariant |trace| == 2 * i && Alternates(trace, delay)
      invariant forall j :: 0 <= j < i ==> fn(j) != None
      invariant last == if i == 0 then None else fn(i - 1)
    {
      last := fn(i);
      if last != None {
        trace := trace + [Call(i), Sleep(delay)];
        i := i + 1;
        continue;
      }
      trace := trace + [Call(i)];
      return None, trace;
    }
    err := Some(Exhausted(last));
  }
}
