/** RPC calls that fail over between endpoints, each tried with exponential backoff. */
module Failover {
  import opened Bytes
  import opened Wrappers

  /** What is thrown: what an endpoint rejected with, or the error that reading its message raised. */
  datatype Error = Rejection(text: string) | TypeError

  /** How one attempt at a call ends. A rejection with undefined or null has no message to read. */
  datatype Outcome = Answered(result: int) | Failed(error: Error) | FailedBare

  /** How the whole call ends; it can throw `undefined` when nothing was tried. */
  datatype Settled = Returned(result: int) | Thrown(error: Option<Error>)

  const DEFAULT_MAX_RETRIES: nat := 4
  const DEFAULT_BASE_DELAY_MS: nat := 1000

  /** What is waited on an endpoint that rejects every attempt: 1 + 2 + 4 + 8 seconds. */
  const FULL_BACKOFF_MS: nat := 15_000

  // ----- Backoff -----

  predicate AllFail(outcomes: seq<Outcome>) {
    forall i :: 0 <= i < |outcomes| ==> outcomes[i].Failed?
  }

  /** The number of attempts: up to the first that does not fail with an error to log, or all of them. */
  function Tries(outcomes: seq<Outcome>): (n: nat)
    ensures n <= |outcomes| && (outcomes != [] ==> n > 0 && AllFail(outcomes[..n - 1]))
    ensures n < |outcomes| ==> !outcomes[n - 1].Failed?
  {
    if outcomes == [] then 0
    else if !outcomes[0].Failed? then 1
    else
      var n := Tries(outcomes[1..]);
      assert forall i :: 0 < i < n ==> outcomes[i] == outcomes[1..][i - 1];
      1 + n
  }

  /** How the last of these attempts settles the call. */
  function SettlesAs(outcomes: seq<Outcome>): Settled {
    if outcomes == [] then Thrown(None)
    else
      match outcomes[Tries(outcomes) - 1]
      case Answered(result) => Returned(result)
      case Failed(error) => Thrown(Some(error))
      case FailedBare => Thrown(Some(TypeError))
  }

  /** The delays before attempts 1 to n, added up. */
  function Delays(baseDelayMs: nat, n: nat): nat {
    if n == 0 then 0 else Delays(baseDelayMs, n - 1) + baseDelayMs * Pow2(n - 1)
  }

  /** What n doubling delays come to. */
  function Backoff(baseDelayMs: nat, n: nat): nat {
    baseDelayMs * (Pow2(n) - 1)
  }

  lemma {:induction false} DelaysDouble(baseDelayMs: nat, n: nat)
    ensures Delays(baseDelayMs, n) == Backoff(baseDelayMs, n)
  {
    if n > 0 {
      DelaysDouble(baseDelayMs, n - 1);
      assert Pow2(n) == 2 * Pow2(n - 1);
      assert baseDelayMs * (Pow2(n) - 1) == baseDelayMs * (Pow2(n - 1) - 1) + baseDelayMs * Pow2(n - 1);
    }
  }

  /** Where attempts that all failed so far leave off: the next one decides, or there is none. */
  lemma {:induction false} TriesFrom(outcomes: seq<Outcome>, k: nat)
    requires k <= |outcomes| && AllFail(outcomes[..k])
    ensures k < |outcomes| && !outcomes[k].Failed? ==> Tries(outcomes) == k + 1
    ensures k == |outcomes| ==> Tries(outcomes) == k
  {
    if k > 0 {
      assert outcomes[..k][0] == outcomes[0];
      assert outcomes[1..][..k - 1] == outcomes[..k][1..];
      TriesFrom(outcomes[1..], k - 1);
    }
  }

  /** Every attempt before this one fails with an error. */
  ghost predicate FailsUpTo(outcomes: seq<Outcome>, k: nat) {
    forall i :: 0 <= i < k && i < |outcomes| ==> outcomes[i].Failed?
  }

  /** How the attempts settle a call, read off them: the first that does not fail with an error decides; if all fail so,
      the last error is thrown, and `undefined` if there is none. */
  lemma SettlesExactly(outcomes: seq<Outcome>)
    ensures forall k: nat, x :: k < |outcomes| && FailsUpTo(outcomes, k) && outcomes[k] == Answered(x) ==>
              SettlesAs(outcomes) == Returned(x)
    ensures forall k: nat :: k < |outcomes| && FailsUpTo(outcomes, k) && outcomes[k] == FailedBare ==>
              SettlesAs(outcomes) == Thrown(Some(TypeError))
    ensures FailsUpTo(outcomes, |outcomes|) && outcomes != [] ==>
              SettlesAs(outcomes) == Thrown(Some(outcomes[|outcomes| - 1].error))
    ensures outcomes == [] ==> SettlesAs(outcomes) == Thrown(None)
  {
    forall k: nat | k <= |outcomes| && FailsUpTo(outcomes, k)
      ensures k < |outcomes| && !outcomes[k].Failed? ==> Tries(outcomes) == k + 1
      ensures k == |outcomes| ==> Tries(outcomes) == k
    {
      TriesFrom(outcomes, k);
    }
  }

  /** Attempts against one endpoint, whose answers are given: stops at the first success, throws at once when a
      rejection has no message to log, else throws the last error after all of them. Between attempts it waits,
      after the last it does not. */
  method RetryWithBackoff(outcomes: seq<Outcome>, maxRetries: int, baseDelayMs: nat)
    returns (r: Settled, attempts: nat, waitedMs: nat)
    requires |outcomes| == if maxRetries < 0 then 0 else maxRetries + 1
    ensures attempts == Tries(outcomes) && r == SettlesAs(outcomes)
    ensures waitedMs == if attempts == 0 then 0 else Backoff(baseDelayMs, attempts - 1)
  {
    var lastError: Option<Error> := None;
    var attempt := 0;
    attempts, waitedMs := 0, 0;
    while attempt <= maxRetries
      invariant attempt == attempts && (attempts <= maxRetries || attempts == 0) && AllFail(outcomes[..attempts])
      invariant lastError == if attempts == 0 then None else Some(outcomes[attempts - 1].error)
      invariant waitedMs == Delays(baseDelayMs, attempts)
    {
      TriesFrom(outcomes, attempt);
      DelaysDouble(baseDelayMs, attempt);
      attempts := attempts + 1;
      match outcomes[attempt] {
        case Answered(result) =>
          return Returned(result), attempts, waitedMs;
        case FailedBare =>
          return Thrown(Some(TypeError)), attempts, waitedMs;
        case Failed(error) =>
          lastError := Some(error);
          if attempt == maxRetries {
            TriesFrom(outcomes, attempts);
            break;
          }
          waitedMs := waitedMs + baseDelayMs * Pow2(attempt);
      }
      attempt := attempt + 1;
    }
    r := Thrown(lastError);
  }

  // ----- Failover -----

  /** The endpoint that comes k steps after another, going around at most once. */
  function Around(start: nat, k: nat, n: nat): (e: nat)
    requires start < n && k <= n
    ensures e < n
  {
    if start + k < n then start + k else start + k - n
  }

  lemma NextIsAround(i: nat, n: nat)
    requires i < n
    ensures (i + 1) % n == if i + 1 == n then 0 else i + 1
  {
  }

  /** The first |visited| endpoints from `start`, in cyclic order. */
  ghost predicate InTurn(visited: seq<nat>, start: nat, n: nat) {
    && (start < n || visited == []) && |visited| <= n
    && forall k :: 0 <= k < |visited| ==> visited[k] == Around(start, k, n)
  }

  /** Within one round no endpoint comes twice, and a full round comes by all of them. */
  lemma RoundIsOnce(visited: seq<nat>, start: nat, n: nat)
    requires InTurn(visited, start, n)
    ensures forall i, j :: 0 <= i < j < |visited| ==> visited[i] != visited[j]
    ensures |visited| == n ==> forall e :: 0 <= e < n ==> e in visited
  {
    if |visited| == n {
      forall e | 0 <= e < n ensures e in visited {
        assert visited[if e >= start then e - start else e - start + n] == e;
      }
    }
  }

  /** What each endpoint would answer to each attempt of this call. */
  type Answers = seq<seq<Outcome>>

  predicate Complete(answers: Answers, n: nat) {
    |answers| == n && forall e :: 0 <= e < n ==> |answers[e]| == DEFAULT_MAX_RETRIES + 1
  }

  /** What is waited on an endpoint. */
  function WaitOn(outcomes: seq<Outcome>): nat {
    if outcomes == [] then 0 else Backoff(DEFAULT_BASE_DELAY_MS, Tries(outcomes) - 1)
  }

  /** What is waited on these endpoints together. */
  function TotalWait(answers: Answers, visited: seq<nat>): nat
    requires forall k :: 0 <= k < |visited| ==> visited[k] < |answers|
  {
    if visited == [] then 0
    else TotalWait(answers, visited[..|visited| - 1]) + WaitOn(answers[visited[|visited| - 1]])
  }

  lemma FullBackoff()
    ensures Backoff(DEFAULT_BASE_DELAY_MS, DEFAULT_MAX_RETRIES) == FULL_BACKOFF_MS
  {
  }

  /** Endpoints that reject every attempt with an error are each waited on for the full backoff. */
  lemma {:induction false} WaitsInFull(answers: Answers, visited: seq<nat>)
    requires forall k :: 0 <= k < |visited| ==> visited[k] < |answers| && AllFail(answers[visited[k]])
    requires forall e :: 0 <= e < |answers| ==> |answers[e]| == DEFAULT_MAX_RETRIES + 1
    ensures TotalWait(answers, visited) == |visited| * FULL_BACKOFF_MS
  {
    if visited != [] {
      var last := answers[visited[|visited| - 1]];
      WaitsInFull(answers, visited[..|visited| - 1]);
      TriesFrom(last, 5) by {
        assert last[..5] == last;
      }
      FullBackoff();
      hide Backoff;
    }
  }

  class FailoverRpcServer {
    const urls: seq<string>
    var currentIndex: nat

    ghost predicate Valid()
      reads this
    {
      currentIndex < |urls| || (urls == [] && currentIndex == 0)
    }

    constructor (urls: seq<string>)
      ensures Valid() && this.urls == urls && currentIndex == 0
    {
      this.urls := urls;
      currentIndex := 0;
    }

    method Next()
      requires Valid() && urls != []
      modifies this
      ensures Valid() && currentIndex == Around(old(currentIndex), 1, |urls|)
    {
      NextIsAround(currentIndex, |urls|);
      currentIndex := (currentIndex + 1) % |urls|;
    }

    /** One call, alone. It visits the endpoints in cyclic order from the current one, each at most once; it
        returns exactly if one of them answers within its attempts, and then stays on the first that does; else
        it ends where it began, with the last error of the last endpoint. */
    method Execute(answers: Answers) returns (r: Settled, visited: seq<nat>, waitedMs: nat)
      requires Valid() && Complete(answers, |urls|)
      modifies this
      ensures Valid() && InTurn(visited, old(currentIndex), |urls|) && waitedMs == TotalWait(answers, visited)
      ensures match r
              case Returned(_) =>
                && visited != [] && currentIndex == visited[|visited| - 1] && r == SettlesAs(answers[currentIndex])
                && forall k :: 0 <= k < |visited| - 1 ==> SettlesAs(answers[visited[k]]).Thrown?
              case Thrown(_) =>
                && currentIndex == old(currentIndex) && |visited| == |urls|
                && (forall e :: 0 <= e < |urls| ==> SettlesAs(answers[e]).Thrown?)
                && (r == if urls == [] then Thrown(None) else SettlesAs(answers[visited[|urls| - 1]]))
    {
      hide AllFail, SettlesAs, WaitOn, Tries;
      var lastError: Option<Error> := None;
      visited, waitedMs := [], 0;
      for i := 0 to |urls|
        invariant Valid() && |visited| == i && InTurn(visited, old(currentIndex), |urls|)
        invariant urls != [] ==> currentIndex == Around(old(currentIndex), i, |urls|)
        invariant waitedMs == TotalWait(answers, visited)
        invariant forall k :: 0 <= k < i ==> SettlesAs(answers[visited[k]]).Thrown?
        invariant Thrown(lastError) == if i == 0 then Thrown(None) else SettlesAs(answers[visited[i - 1]])
      {
        var settled, attempts, waited :=
          RetryWithBackoff(answers[currentIndex], DEFAULT_MAX_RETRIES, DEFAULT_BASE_DELAY_MS);
        WaitOnIs(answers[currentIndex]);
        assert (visited + [currentIndex])[..i] == visited;
        visited := visited + [currentIndex];
        waitedMs := waitedMs + waited;
        match settled {
          case Returned(result) =>
            return settled, visited, waitedMs;
          case Thrown(error) =>
            lastError := error;
            Next();
        }
      }
      RoundIsOnce(visited, old(currentIndex), |urls|);
      forall e: nat | e < |urls| ensures SettlesAs(answers[e]).Thrown? {
        assert e in visited;
        var k :| 0 <= k < |visited| && visited[k] == e;
      }
      r := Thrown(lastError);
    }
  }

  lemma WaitOnIs(outcomes: seq<Outcome>)
    requires outcomes != []
    ensures Tries(outcomes) > 0 && WaitOn(outcomes) == Backoff(DEFAULT_BASE_DELAY_MS, Tries(outcomes) - 1)
  {
  }
}
