/**
 * The retry loop of `safe_request` in `modules/utils.py`. The network is
 * not modelled: what the `n`-th call of `requests.request` does is given as
 * `outcome(n)`, one of an answer, a timeout, a connection error or any
 * other request error.
 */
module Retry {
  import opened Wrappers
  import opened Http
  import Urls

  /** How one request attempt ends. */
  datatype Attempt = Answer(resp: Response) | Timeout | ConnErr | OtherErr

  /** Timeouts and connection errors are retried; an answer or another error ends the loop. */
  predicate Retryable(a: Attempt) {
    a.Timeout? || a.ConnErr?
  }

  /** What `safe_request` returns when the loop ends on attempt `a`. */
  function Returned(a: Attempt): Option<Response> {
    if a.Answer? then Some(a.resp) else None
  }

  /**
   * The loop from attempt `k` on, for `range(maxRetries)`: the answer and
   * the number of attempts made so far (`k` counts those already made).
   */
  function Loop(outcome: nat -> Attempt, maxRetries: int, k: nat): (r: (Option<Response>, nat))
    ensures k <= r.1 && (r.1 <= maxRetries || r.1 == k)
    ensures forall j :: k <= j < r.1 - 1 ==> Retryable(outcome(j))
    ensures r.1 > k ==> r.0 == Returned(outcome(r.1 - 1))
    ensures r.1 == k ==> r.0 == None && maxRetries <= k
    ensures r.1 < maxRetries ==> r.1 > k && !Retryable(outcome(r.1 - 1))
    decreases maxRetries - k
  {
    if maxRetries <= k then (None, k)
    else
      match outcome(k)
      case Answer(resp) => (Some(resp), k + 1)
      case OtherErr => (None, k + 1)
      case _ => if k == maxRetries - 1 then (None, k + 1) else Loop(outcome, maxRetries, k + 1)
  }

  /**
   * `safe_request`: an invalid URL is refused before any attempt; otherwise
   * the loop runs and the answer comes with the number of attempts made.
   */
  function SafeRequest(url: string, maxRetries: int, outcome: nat -> Attempt): (r: (Option<Response>, nat))
    ensures !Urls.ValidateUrl(url) ==> r == (None, 0)
    ensures r.1 <= if maxRetries > 0 then maxRetries else 0
    ensures Urls.ValidateUrl(url) && maxRetries > 0 ==> r.1 > 0
    ensures forall j :: 0 <= j < r.1 - 1 ==> Retryable(outcome(j))
    ensures r.1 > 0 ==> r.0 == Returned(outcome(r.1 - 1))
    ensures r.1 == 0 ==> r.0 == None
    ensures 0 < r.1 < maxRetries ==> !Retryable(outcome(r.1 - 1))
  {
    if !Urls.ValidateUrl(url) then (None, 0) else Loop(outcome, maxRetries, 0)
  }

  /** The index of the first attempt before `n` that ends the loop, or `n` when every one is retried. */
  function FirstFinal(outcome: nat -> Attempt, n: nat): (k: nat)
    ensures k <= n
    ensures forall j :: 0 <= j < k ==> Retryable(outcome(j))
    ensures k < n ==> !Retryable(outcome(k))
  {
    if n == 0 then 0
    else if FirstFinal(outcome, n - 1) < n - 1 then FirstFinal(outcome, n - 1)
    else if Retryable(outcome(n - 1)) then n else n - 1
  }

  /**
   * The loop makes attempts up to and including the first one that is not
   * retried, at most `maxRetries` of them, and returns that attempt's answer;
   * when all of them are retried it returns `None`.
   */
  lemma LoopIsFirstFinal(outcome: nat -> Attempt, maxRetries: nat)
    requires maxRetries > 0
    ensures var k := FirstFinal(outcome, maxRetries);
      Loop(outcome, maxRetries, 0)
        == if k < maxRetries then (Returned(outcome(k)), k + 1) else (None, maxRetries)
  {
    var r := Loop(outcome, maxRetries, 0);
    var n := r.1;
    var k := FirstFinal(outcome, maxRetries);
    assert 0 < n <= maxRetries;
    if n - 1 < k {
      assert Retryable(outcome(n - 1));
      assert n == maxRetries == k;
      assert r == (None, maxRetries);
    } else {
      assert n - 1 == k;
      assert r == (Returned(outcome(k)), k + 1);
    }
  }

  /** For a valid URL, `safe_request` answers as the first attempt that is not retried, if there is one. */
  lemma SafeRequestIsFirstFinal(url: string, maxRetries: nat, outcome: nat -> Attempt)
    requires Urls.ValidateUrl(url) && maxRetries > 0
    ensures var k := FirstFinal(outcome, maxRetries);
      SafeRequest(url, maxRetries, outcome)
        == if k < maxRetries then (Returned(outcome(k)), k + 1) else (None, maxRetries)
  {
    LoopIsFirstFinal(outcome, maxRetries);
  }

  /** An invalid URL is refused with no attempt at all. */
  lemma InvalidUrlNoAttempt(url: string, maxRetries: int, outcome: nat -> Attempt)
    requires !Urls.ValidateUrl(url)
    ensures SafeRequest(url, maxRetries, outcome) == (None, 0)
  {
  }

  /** A first attempt that answers is returned at once. */
  lemma FirstAnswerReturned(url: string, maxRetries: int, outcome: nat -> Attempt)
    requires Urls.ValidateUrl(url) && maxRetries > 0 && outcome(0).Answer?
    ensures SafeRequest(url, maxRetries, outcome) == (Some(outcome(0).resp), 1)
  {
  }

  /** Timeouts and connection errors on every attempt give `None` after exactly `maxRetries` attempts. */
  lemma AllRetriedGiveUp(url: string, maxRetries: int, outcome: nat -> Attempt)
    requires Urls.ValidateUrl(url) && maxRetries > 0
    requires forall j :: 0 <= j < maxRetries ==> Retryable(outcome(j))
    ensures SafeRequest(url, maxRetries, outcome) == (None, maxRetries as nat)
  {
  }

  /** Any other request error ends the loop on the attempt where it happens, with `None`. */
  lemma OtherErrorStops(url: string, maxRetries: int, outcome: nat -> Attempt, k: nat)
    requires Urls.ValidateUrl(url) && k < maxRetries
    requires forall j :: 0 <= j < k ==> Retryable(outcome(j))
    requires outcome(k).OtherErr?
    ensures SafeRequest(url, maxRetries, outcome) == (None, k + 1)
  {
  }

  /** No attempt is made when `maxRetries` is not positive: the loop body never runs. */
  lemma NoRetriesNoAttempt(url: string, maxRetries: int, outcome: nat -> Attempt)
    requires maxRetries <= 0
    ensures SafeRequest(url, maxRetries, outcome) == (None, 0)
  {
  }
}
