/**
 * The bounded retry loop that opens a database connection. Attempts are
 * numbered from 1; `succeeds(n)` says whether attempt `n` connects and
 * answers its ping. Sleeping is recorded as an event instead of performed.
 */
module Retry {

  /** Defaults: 12 attempts, 5 seconds apart. */
  const DefaultMaxRetries: int := 12
  const DefaultRetryDelay: int := 5

  datatype Event = Attempt(n: int) | Sleep(seconds: int)

  datatype Connection =
    | Connected(attempt: int)
    | ConnectionError(attempts: int)  // DatabaseConnectionError after that many failures

  /** The events of a run that made `n` attempts: attempt 1, then a pause
      before each further attempt, and never a pause after the last one. */
  function Schedule(n: nat, delay: int): (trace: seq<Event>)
    ensures n == 0 ==> trace == []
    ensures n >= 1 ==> |trace| == 2 * n - 1
  {
    if n == 0 then []
    else if n == 1 then [Attempt(1)]
    else Schedule(n - 1, delay) + [Sleep(delay), Attempt(n)]
  }

  function Sleeps(trace: seq<Event>): nat {
    if |trace| == 0 then 0
    else Sleeps(trace[..|trace| - 1]) + (if trace[|trace| - 1].Sleep? then 1 else 0)
  }

  /** A schedule of `n` attempts pauses `n - 1` times and ends with an attempt. */
  lemma {:induction false} ScheduleShape(n: nat, delay: int)
    requires n >= 1
    ensures Sleeps(Schedule(n, delay)) == n - 1
    ensures Schedule(n, delay)[2 * n - 2] == Attempt(n)
  {
    if n > 1 {
      ScheduleShape(n - 1, delay);
      var prefix := Schedule(n - 1, delay);
      var t := prefix + [Sleep(delay), Attempt(n)];
      assert t[..|t| - 1] == prefix + [Sleep(delay)];
      assert (prefix + [Sleep(delay)])[..|prefix|] == prefix;
    } else {
      assert Schedule(1, delay)[..0] == [];
    }
  }

  /** `get_db_connection`: tries up to `maxRetries` times, sleeping
      `retryDelay` seconds between attempts but not after the last one, and
      raises once every attempt has failed. */
  method Connect(maxRetries: int, retryDelay: int, succeeds: int -> bool) returns (r: Connection, trace: seq<Event>)
    ensures r.Connected? ==> 1 <= r.attempt <= maxRetries && succeeds(r.attempt)
    ensures r.Connected? ==> forall n :: 1 <= n < r.attempt ==> !succeeds(n)
    ensures r.Connected? ==> trace == Schedule(r.attempt, retryDelay)
    ensures r.ConnectionError? ==> forall n :: 1 <= n <= maxRetries ==> !succeeds(n)
    ensures r.ConnectionError? ==> r.attempts == (if maxRetries < 0 then 0 else maxRetries)
    ensures r.ConnectionError? ==> trace == Schedule(r.attempts, retryDelay)
  {
    var attempt := 1;
    trace := [];
    while attempt <= maxRetries
      invariant 1 <= attempt
      invariant maxRetries >= 1 ==> attempt <= maxRetries
      invariant maxRetries < 1 ==> attempt == 1
      invariant forall n :: 1 <= n < attempt ==> !succeeds(n)
      invariant trace == Schedule(attempt - 1, retryDelay) + (if attempt > 1 then [Sleep(retryDelay)] else [])
      decreases maxRetries - attempt
    {
      trace := trace + [Attempt(attempt)];
      if succeeds(attempt) {
        assert trace == Schedule(attempt, retryDelay);
        return Connected(attempt), trace;
      }
      if attempt == maxRetries {
        assert trace == Schedule(attempt, retryDelay);
        return ConnectionError(maxRetries), trace;
      }
      trace := trace + [Sleep(retryDelay)];
      attempt := attempt + 1;
    }
    r := ConnectionError(0);
  }

  /** With the defaults, a database that never answers is given up on after
      12 attempts and 55 seconds of sleeping. */
  lemma DefaultExhaustion()
    ensures Sleeps(Schedule(DefaultMaxRetries as nat, DefaultRetryDelay)) * DefaultRetryDelay == 55
  {
    ScheduleShape(12, DefaultRetryDelay);
  }
}
