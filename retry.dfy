/**
  The retry policy of `_download_file`: `retry + 1` attempts at most, stopping
  at the first success, with the transfer's outcomes supplied as an oracle.
 */
module Retry {
  import opened Wrappers

  const DEFAULT_RETRY: int := 3

  /** `retry if retry is not None else DEFAULT_RETRY`: only a missing value takes the default. */
  function EffectiveRetry(retry: Option<int>): (r: int)
    ensures retry.Some? ==> r == retry.value
    ensures retry.None? ==> r == DEFAULT_RETRY
  {
    match retry
    case Some(n) => n
    case None => DEFAULT_RETRY
  }

  /** The number of attempts `range(retry + 1)` allows (none for a negative retry). */
  function Budget(retry: int): (n: nat)
    ensures retry >= 0 ==> n == retry + 1
    ensures retry < 0 ==> n == 0
  {
    if retry + 1 > 0 then retry + 1 else 0
  }

  /** Whether attempt `i` of the transfer succeeds; attempts the oracle does not cover fail. */
  predicate Succeeds(outcomes: seq<bool>, i: nat) {
    i < |outcomes| && outcomes[i]
  }

  /** The first of the first `budget` attempts that succeeds. */
  function FirstSuccess(outcomes: seq<bool>, budget: nat): (r: Option<nat>)
    ensures r.Some? ==> r.value < budget && Succeeds(outcomes, r.value)
    ensures r.Some? ==> forall j :: 0 <= j < r.value ==> !Succeeds(outcomes, j)
    ensures r.None? <==> forall j :: 0 <= j < budget ==> !Succeeds(outcomes, j)
    decreases budget
  {
    if budget == 0 then None
    else match FirstSuccess(outcomes, budget - 1)
      case Some(i) => Some(i)
      case None => if Succeeds(outcomes, budget - 1) then Some(budget - 1) else None
  }

  /** The first success is the one attempt that succeeds after only failures. */
  lemma {:induction false} FirstSuccessIs(outcomes: seq<bool>, budget: nat, i: nat)
    requires i < budget && Succeeds(outcomes, i)
    requires forall j :: 0 <= j < i ==> !Succeeds(outcomes, j)
    ensures FirstSuccess(outcomes, budget) == Some(i)
    decreases budget
  {
    if budget - 1 > i {
      FirstSuccessIs(outcomes, budget - 1, i);
    }
  }

  /** The log lines of one file's download, without their text. */
  datatype LogEvent =
    | Downloading(taskno: nat, attempt: nat, name: string)       // attempt 0
    | RetryDownloading(taskno: nat, attempt: nat, name: string)  // attempts 1, 2, ...
    | GotException(taskno: nat, name: string)                   // a failed attempt (warning)
    | FailedToDownload(taskno: nat, name: string, url: string)  // every attempt failed (error)

  function AttemptEvent(taskno: nat, attempt: nat, name: string): LogEvent {
    if attempt == 0 then Downloading(taskno, attempt, name) else RetryDownloading(taskno, attempt, name)
  }

  /** The lines of the first `k` attempts: each announces itself, and a failed one adds a warning. */
  function AttemptLog(taskno: nat, name: string, outcomes: seq<bool>, k: nat): (log: seq<LogEvent>)
    ensures k <= |log| <= 2 * k
    ensures |log| == k <==> forall a :: 0 <= a < k ==> Succeeds(outcomes, a)
    decreases k
  {
    if k == 0 then []
    else AttemptLog(taskno, name, outcomes, k - 1) + [AttemptEvent(taskno, k - 1, name)] +
         (if Succeeds(outcomes, k - 1) then [] else [GotException(taskno, name)])
  }

  /** Every attempt made is announced with its own ordinal, no attempt beyond those made is
      announced, and no failure-to-download line appears among the attempts' lines. */
  lemma {:induction false} AttemptLogAnnouncesEachAttempt(taskno: nat, name: string, outcomes: seq<bool>, k: nat)
    ensures forall e :: e in AttemptLog(taskno, name, outcomes, k) ==> !e.FailedToDownload?
    ensures |AttemptLog(taskno, name, outcomes, k)| >= k
    ensures forall a :: 0 <= a < k ==> AttemptEvent(taskno, a, name) in AttemptLog(taskno, name, outcomes, k)
    ensures forall e :: e in AttemptLog(taskno, name, outcomes, k) && (e.Downloading? || e.RetryDownloading?) ==> e.attempt < k
    decreases k
  {
    if k > 0 {
      AttemptLogAnnouncesEachAttempt(taskno, name, outcomes, k - 1);
    }
  }
}
