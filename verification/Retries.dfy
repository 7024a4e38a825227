/** The HTTP transport's bounded retry loop (apps/mobile/lib/api.ts:42-90).

    What the network answers is an input: `net(k)` is the outcome of the k-th fetch the client makes. */
module Requests {
  import opened Options

  /** `response.json()`: a value, or a rejection. `detail` is the body's detail if it is a string. */
  datatype Body = Parsed(value: int, detail: Option<string>) | Unparsable

  datatype FetchOutcome =
    | NoResponse(aborted: bool)              // fetch rejected; an AbortError when the timeout fired
    | Response(status: int, body: Body)

  datatype Outcome =
    | Fulfilled(value: Option<int>)          // None is the undefined of a 204
    | ApiError(detail: string, status: int)
    | NetworkError(timedOut: bool)
    | ParseError                             // a 2xx body that is not JSON

  const MAX_ATTEMPTS: nat := 3
  const RETRY_DELAYS_MS: seq<nat> := [500, 1500]
  const RETRYABLE_STATUSES: set<int> := {502, 503, 504}

  type Network = nat -> FetchOutcome

  predicate IsOk(status: int) {
    200 <= status <= 299
  }

  /** Worth another attempt: no response at all, or something in front of the backend failing. */
  predicate Retryable(o: FetchOutcome) {
    o.NoResponse? || o.status in RETRYABLE_STATUSES
  }

  /** What a request comes to when this is its last fetch. */
  function Settle(o: FetchOutcome): Outcome {
    match o
    case NoResponse(aborted) => NetworkError(aborted)
    case Response(status, body) =>
      if !IsOk(status) then
        ApiError(if body.Parsed? && body.detail.Some? then body.detail.value else "Something went wrong.", status)
      else if status == 204 then Fulfilled(None)
      else if body.Parsed? then Fulfilled(Some(body.value))
      else ParseError
  }

  /** How many fetches a request makes that starts with fetch `from`: up to the first outcome not
      worth a retry, and at most three. */
  function Fetches(net: Network, from: nat): (n: nat)
    ensures 1 <= n <= MAX_ATTEMPTS
    ensures forall k | from <= k < from + n - 1 :: Retryable(net(k))
    ensures n == MAX_ATTEMPTS || !Retryable(net(from + n - 1))
  {
    if !Retryable(net(from)) then 1 else if !Retryable(net(from + 1)) then 2 else 3
  }

  /** Only the last fetch decides the result. Every fetch before it got no response or a 502-504, so
      a rejection by the backend or a plain 500 is final; an ApiError carries the last response's
      status and the detail its body gives; "no connection" is reported exactly when the third
      attempt got no response; a 204 is undefined, any other status from 200 to 299 the body. */
  method Request(net: Network, from: nat) returns (r: Outcome, fetches: nat, slept: seq<nat>)
    ensures 1 <= fetches <= 3 && fetches == Fetches(net, from)
    ensures forall k | from <= k < from + fetches - 1 ::
              net(k).NoResponse? || net(k).status == 502 || net(k).status == 503 || net(k).status == 504
    ensures var last := net(from + fetches - 1);
            if last.NoResponse? then fetches == 3 && r == NetworkError(last.aborted)
            else if last.status < 200 || last.status > 299 then
              && (fetches == 3 || (last.status != 502 && last.status != 503 && last.status != 504))
              && r == ApiError(if last.body.Parsed? && last.body.detail.Some? then last.body.detail.value
                               else "Something went wrong.", last.status)
            else if last.status == 204 then r == Fulfilled(None)
            else if last.body.Parsed? then r == Fulfilled(Some(last.body.value))
            else r == ParseError
    ensures r == Settle(net(from + fetches - 1))
    ensures slept == [500, 1500][..fetches - 1]
  {
    var lastNetworkError: Option<bool> := None;
    fetches, slept := 0, [];
    for attempt := 0 to MAX_ATTEMPTS
      invariant fetches == attempt
      invariant forall k | from <= k < from + attempt :: Retryable(net(k))
      invariant attempt > 0 && net(from + attempt - 1).NoResponse? ==>
          lastNetworkError == Some(net(from + attempt - 1).aborted)
      invariant attempt == MAX_ATTEMPTS ==> net(from + attempt - 1).NoResponse?
      invariant slept == RETRY_DELAYS_MS[..if attempt == 0 then 0 else attempt - 1]
    {
      if attempt > 0 { slept := slept + [RETRY_DELAYS_MS[attempt - 1]]; }
      var outcome := net(from + attempt);
      fetches := fetches + 1;
      if outcome.NoResponse? {
        lastNetworkError := Some(outcome.aborted);
        continue;
      }
      if !IsOk(outcome.status) {
        if outcome.status in RETRYABLE_STATUSES && attempt < MAX_ATTEMPTS - 1 {
          continue;
        }
        var detail := if outcome.body.Parsed? && outcome.body.detail.Some? then outcome.body.detail.value
                      else "Something went wrong.";
        return ApiError(detail, outcome.status), fetches, slept;
      }
      if outcome.status == 204 {
        return Fulfilled(None), fetches, slept;
      }
      if outcome.body.Unparsable? {
        return ParseError, fetches, slept;
      }
      return Fulfilled(Some(outcome.body.value)), fetches, slept;
    }
    r := NetworkError(lastNetworkError == Some(true));
  }
}

/** The SOS trigger that keeps retrying (apps/mobile/lib/sos-queue.ts:20-65).

    What the program calls or waits for (a status callback, a trigger call, a delay) takes one moment;
    the moments of a run are numbered 0, 1, 2, ... in order. The caller's `cancel()` comes during any
    one of them, or never, and a status callback may throw: both are inputs. The handle with `cancel`
    is returned once the first callback is over, so no caller can cancel during moment 0.

    The loop may run forever; `horizon` is how many attempts an observer watches, not a bound of the
    program: every statement holds for every horizon. */
module SosQueue {
  import opened Options
  import opened Requests

  datatype Status = Sending | Retrying | Sent | Failed | Cancelled
  datatype Report = Report(status: Status, attempt: nat)
  datatype Reason = TriggerFailed(error: Outcome) | CallbackThrew(moment: nat) | SosCancelled
  datatype Promise = Pending | Resolved(event: Option<int>) | Rejected(reason: Reason)

  /** `throws(k)`: a callback called at moment k throws. */
  datatype TriggerOptions = TriggerOptions(maxAttempts: Option<int>, cancelDuring: Option<nat>,
                                           throws: nat -> bool)
  {
    /** The `cancelled` flag after moment k. */
    predicate CancelledBy(k: int) {
      cancelDuring.Some? && cancelDuring.value <= k
    }

    predicate Exhausted(n: nat) {
      maxAttempts.Some? && n >= maxAttempts.value
    }

    /** What becomes of a promise about to reject with `reason` once the callback at `moment` is over. */
    function RejectedAfter(moment: nat, reason: Reason): Promise {
      Rejected(if throws(moment) then CallbackThrew(moment) else reason)
    }
  }

  /** The fetch with which trigger call n starts (calls are numbered from 1). */
  function FetchesBefore(net: Network, n: nat): nat
    requires n >= 1
  {
    if n == 1 then 0 else FetchesBefore(net, n - 1) + Fetches(net, FetchesBefore(net, n - 1))
  }

  function CallOutcome(net: Network, n: nat): Outcome
    requires n >= 1
  {
    var from := FetchesBefore(net, n);
    Settle(net(from + Fetches(net, from) - 1))
  }

  predicate Succeeds(net: Network, n: nat)
    requires n >= 1
  {
    CallOutcome(net, n).Fulfilled?
  }

  /** The moment of attempt n's first callback; its trigger call is the next moment. */
  function Start(net: Network, n: nat): nat
    requires n >= 1
    decreases n, 0
  {
    if n == 1 then 0 else CatchAt(net, n - 1) + 1
  }

  /** The moment of what the catch block does first: the delay, or the callback before it rethrows. */
  function CatchAt(net: Network, n: nat): nat
    requires n >= 1
    decreases n, 1
  {
    Start(net, n) + (if Succeeds(net, n) then 3 else 2)
  }

  predicate CallMade(net: Network, o: TriggerOptions, n: nat)
    requires n >= 1
  {
    !o.throws(Start(net, n))
  }

  /** Call n succeeded and the callback that reports it returned. */
  predicate Delivered(net: Network, o: TriggerOptions, n: nat)
    requires n >= 1
  {
    CallMade(net, o, n) && Succeeds(net, n) && !o.throws(Start(net, n) + 2)
  }

  /** The error attempt n's catch block gets. */
  function Caught(net: Network, n: nat): Reason
    requires n >= 1
  {
    if Succeeds(net, n) then CallbackThrew(Start(net, n) + 2) else TriggerFailed(CallOutcome(net, n))
  }

  /** The promise after attempt n and the loop test that follows it. */
  function Settled(net: Network, o: TriggerOptions, n: nat): Promise
    requires n >= 1
  {
    var at := CatchAt(net, n);
    if !CallMade(net, o, n) then Rejected(CallbackThrew(Start(net, n)))
    else if Delivered(net, o, n) then Resolved(CallOutcome(net, n).value)
    else if o.CancelledBy(at - 1) || o.Exhausted(n) then o.RejectedAfter(at, Caught(net, n))
    else if o.CancelledBy(at) then o.RejectedAfter(at + 1, SosCancelled)
    else Pending
  }

  predicate IsLast(net: Network, o: TriggerOptions, n: nat)
    requires n >= 1
  {
    !Settled(net, o, n).Pending?
  }

  function Opening(n: nat): seq<Report> {
    [Report(if n == 1 then Sending else Retrying, n)]
  }

  /** The report of a call that came back with an event. */
  function Success(net: Network, o: TriggerOptions, n: nat): seq<Report>
    requires n >= 1
  {
    if !Succeeds(net, n) then []
    else if o.CancelledBy(Start(net, n) + 1) then [Report(Cancelled, n)]
    else [Report(Sent, n)]
  }

  /** The report before a rejection by the catch block or after the loop. */
  function GivingUp(net: Network, o: TriggerOptions, n: nat): seq<Report>
    requires n >= 1
  {
    if o.CancelledBy(CatchAt(net, n) - 1) then [Report(Cancelled, n)]
    else if o.Exhausted(n) then [Report(Failed, n)]
    else if o.CancelledBy(CatchAt(net, n)) then [Report(Cancelled, n)]
    else []
  }

  function Reports(net: Network, o: TriggerOptions, n: nat): seq<Report>
    requires n >= 1
  {
    if !CallMade(net, o, n) then Opening(n)
    else if Delivered(net, o, n) then Opening(n) + Success(net, o, n)
    else Opening(n) + Success(net, o, n) + GivingUp(net, o, n)
  }

  /** What the status callback was told during n attempts. */
  function Trace(net: Network, o: TriggerOptions, n: nat): seq<Report> {
    if n == 0 then [] else Trace(net, o, n - 1) + Reports(net, o, n)
  }

  /** How many trigger calls a run of n attempts makes, only the last of which can lack one. */
  function Calls(net: Network, o: TriggerOptions, n: nat): nat {
    if n >= 1 && !CallMade(net, o, n) then n - 1 else n
  }

  /** The attempt goes on to the delay, and with it to the test of the loop. */
  predicate Survives(net: Network, o: TriggerOptions, n: nat)
    requires n >= 1
  {
    CallMade(net, o, n) && !Delivered(net, o, n) && !o.CancelledBy(CatchAt(net, n) - 1) && !o.Exhausted(n)
  }

  method TriggerSosWithRetry(net: Network, o: TriggerOptions, horizon: nat)
    returns (promise: Promise, trace: seq<Report>, n: nat, fetches: nat)
    ensures n <= horizon && forall i | 1 <= i < n :: !IsLast(net, o, i)
    ensures promise == if n == 0 then Pending else Settled(net, o, n)
    ensures promise.Pending? ==> n == horizon
    ensures trace == Trace(net, o, n)
    ensures fetches == FetchesBefore(net, Calls(net, o, n) + 1)
  {
    NoFetchesYet(net);
    hide FetchesBefore, Start, CatchAt, Settled, Survives, CallMade, Reports, Opening, Success;
    var cancelled, moment := false, 0;
    trace, n, fetches := [], 0, 0;
    while !cancelled
      invariant n <= horizon && forall i | 1 <= i < n :: !IsLast(net, o, i)
      invariant moment == Start(net, n + 1) && (n >= 1 ==> moment == CatchAt(net, n) + 1)
      invariant cancelled == (n >= 1 && o.CancelledBy(moment - 1))
      invariant n >= 1 ==> Survives(net, o, n) && CallMade(net, o, n)
      invariant n >= 1 && !cancelled ==> Settled(net, o, n) == Pending
      invariant trace + (if cancelled then [Report(Cancelled, n)] else []) == Trace(net, o, n)
      invariant fetches == FetchesBefore(net, n + 1)
      decreases !cancelled, horizon - n
    {
      if n == horizon { return Pending, trace, n, fetches; }
      n := n + 1;
      var reports;
      promise, reports, cancelled, moment, fetches := Attempt(net, o, n, moment, fetches);
      trace := trace + reports;
      if promise == Pending { AfterAttempt(net, o, n); }
      if promise != Pending {
        return promise, trace, n, fetches;
      }
    }
    trace := trace + [Report(Cancelled, n)];
    promise := o.RejectedAfter(moment, SosCancelled);
    AfterAttempt(net, o, n);
  }

  /** The loop test after an attempt that reached the delay. */
  lemma AfterAttempt(net: Network, o: TriggerOptions, n: nat)
    requires n >= 1 && Survives(net, o, n)
    ensures CallMade(net, o, n) && Start(net, n + 1) == CatchAt(net, n) + 1
    ensures Reports(net, o, n) == Opening(n) + Success(net, o, n)
              + (if o.CancelledBy(CatchAt(net, n)) then [Report(Cancelled, n)] else [])
    ensures Settled(net, o, n) == if o.CancelledBy(CatchAt(net, n))
                                  then o.RejectedAfter(Start(net, n + 1), SosCancelled) else Pending
  {
  }

  /** One round of the loop. */
  method Attempt(net: Network, o: TriggerOptions, n: nat, start: nat, fetched: nat)
    returns (promise: Promise, reports: seq<Report>, cancelled: bool, moment: nat, fetches: nat)
    requires n >= 1 && start == Start(net, n) && fetched == FetchesBefore(net, n)
    ensures promise.Pending? <==> Survives(net, o, n)
    ensures promise.Pending? ==>
              && reports == Opening(n) + Success(net, o, n)
              && moment == CatchAt(net, n) + 1 && cancelled == o.CancelledBy(moment - 1)
    ensures !promise.Pending? ==> promise == Settled(net, o, n) && reports == Reports(net, o, n)
    ensures fetches == FetchesBefore(net, if CallMade(net, o, n) then n + 1 else n)
  {
    hide Fetches, Settle, CallOutcome, FetchesBefore, Start;
    moment, fetches := start, fetched;
    reports := [Report(if n == 1 then Sending else Retrying, n)];
    cancelled, moment := o.CancelledBy(moment), moment + 1;
    if o.throws(moment - 1) {
      return Rejected(CallbackThrew(moment - 1)), reports, cancelled, moment, fetches;
    }
    var outcome, made, _ := Request(net, fetches);
    NextCall(net, n, fetches);
    fetches := fetches + made;
    cancelled, moment := o.CancelledBy(moment), moment + 1;
    var err := TriggerFailed(outcome);
    if outcome.Fulfilled? {
      reports := reports + [Report(if cancelled then Cancelled else Sent, n)];
      cancelled, moment := o.CancelledBy(moment), moment + 1;
      if !o.throws(moment - 1) {
        return Resolved(outcome.value), reports, cancelled, moment, fetches;
      }
      err := CallbackThrew(moment - 1);
    }
    if cancelled {
      reports := reports + [Report(Cancelled, n)];
      return o.RejectedAfter(moment, err), reports, cancelled, moment, fetches;
    }
    if o.maxAttempts.Some? && n >= o.maxAttempts.value {
      reports := reports + [Report(Failed, n)];
      return o.RejectedAfter(moment, err), reports, cancelled, moment, fetches;
    }
    cancelled, moment := o.CancelledBy(moment), moment + 1;
    promise := Pending;
  }

  lemma NoFetchesYet(net: Network)
    ensures FetchesBefore(net, 1) == 0 && Start(net, 1) == 0
  {
  }

  lemma NextCall(net: Network, n: nat, from: nat)
    requires n >= 1 && from == FetchesBefore(net, n)
    ensures CallOutcome(net, n) == Settle(net(from + Fetches(net, from) - 1))
    ensures FetchesBefore(net, n + 1) == from + Fetches(net, from)
  {
  }

  // ---------------------------------------------------------------------------------------------
  // Whole runs

  /** A run of n attempts: nothing ended it earlier. */
  predicate Reaches(net: Network, o: TriggerOptions, n: nat) {
    n >= 1 && forall i | 1 <= i < n :: !IsLast(net, o, i)
  }

  /** n trigger calls make between n and 3n fetches. */
  lemma {:induction false} FetchBounds(net: Network, n: nat)
    ensures n <= FetchesBefore(net, n + 1) <= 3 * n
  {
    if n > 0 { FetchBounds(net, n - 1); }
  }

  /** An attempt that goes on takes one moment for its opening callback, one for its call, one for the
      report of a success, and one for its delay. */
  lemma StartIs(net: Network, n: nat)
    requires n >= 1
    ensures Start(net, 1) == 0
    ensures Start(net, n + 1) == Start(net, n) + (if CallOutcome(net, n).Fulfilled? then 4 else 3)
  {
    hide CallOutcome;
  }

  lemma {:induction false} StartBounds(net: Network, n: nat)
    requires n >= 1
    ensures 3 * (n - 1) <= Start(net, n) <= 4 * (n - 1)
  {
    if n > 1 { StartBounds(net, n - 1); }
  }

  /** An attempt is followed by another exactly if its call was made, no success was delivered, no
      cancel came up to the end of its delay, and attempts are left. */
  lemma ContinuesIff(net: Network, o: TriggerOptions, n: nat)
    requires Reaches(net, o, n)
    ensures Reaches(net, o, n + 1)
            <==> && !o.throws(Start(net, n))
                 && (CallOutcome(net, n).Fulfilled? ==> o.throws(Start(net, n) + 2))
                 && !(o.cancelDuring.Some? && o.cancelDuring.value < Start(net, n + 1))
                 && !(o.maxAttempts.Some? && n >= o.maxAttempts.value)
  {
    hide CallOutcome, Start;
    StartIs(net, n);
    CatchIs(net, n);
    if Reaches(net, o, n + 1) { assert !IsLast(net, o, n); }
  }

  lemma CatchIs(net: Network, n: nat)
    requires n >= 1
    ensures CatchAt(net, n) == Start(net, n) + (if Succeeds(net, n) then 3 else 2)
  {
  }

  /** The attempts of a run are limited by a finite `maxAttempts` (of which the first attempt is
      always made) and by the cancellation: no attempt begins after it. */
  lemma AttemptBounds(net: Network, o: TriggerOptions, n: nat)
    requires Reaches(net, o, n)
    ensures o.maxAttempts.Some? ==> n <= (if o.maxAttempts.value <= 1 then 1 else o.maxAttempts.value)
    ensures o.cancelDuring.Some? ==> 3 * (n - 1) <= Start(net, n) <= o.cancelDuring.value
  {
    StartBounds(net, n);
    if n >= 2 {
      assert Reaches(net, o, n - 1);
      ContinuesIff(net, o, n - 1);
    }
  }

  /** The calls of a run of n attempts that start after the cancellation: none, except that the last
      attempt's call does exactly if the cancel came inside the "retrying" callback just before it. */
  lemma CallAfterCancelIff(net: Network, o: TriggerOptions, n: nat, i: nat)
    requires Reaches(net, o, n) && 1 <= i <= n && CallMade(net, o, i)
    ensures o.cancelDuring.Some? && o.cancelDuring.value <= Start(net, i)
            <==> i == n && o.cancelDuring == Some(Start(net, n))
    ensures o.cancelDuring.Some? && o.cancelDuring.value <= Start(net, i) ==> IsLast(net, o, i)
    ensures o.cancelDuring.Some? && 0 < o.cancelDuring.value <= Start(net, i) ==> Opening(i) == [Report(Retrying, i)]
  {
    hide CallMade, Settled;
    assert Reaches(net, o, i);
    AttemptBounds(net, o, i);
    if o.CancelledBy(Start(net, i)) {
      CancelledIsLast(net, o, i);
    }
  }

  lemma CancelledIsLast(net: Network, o: TriggerOptions, n: nat)
    requires n >= 1 && o.CancelledBy(CatchAt(net, n))
    ensures IsLast(net, o, n)
  {
  }

  /** After a success the run goes on exactly if the callback told about it threw and neither the
      cancel nor the limit stops it. */
  lemma GoesOnAfterSuccessIff(net: Network, o: TriggerOptions, i: nat)
    requires Reaches(net, o, i) && Succeeds(net, i)
    ensures Reaches(net, o, i + 1)
            <==> && !o.throws(Start(net, i)) && o.throws(Start(net, i) + 2)
                 && !(o.cancelDuring.Some? && o.cancelDuring.value <= Start(net, i) + 3)
                 && !(o.maxAttempts.Some? && i >= o.maxAttempts.value)
  {
    hide Start, CallOutcome;
    StartIs(net, i);
    ContinuesIff(net, o, i);
  }

  /** "sending", then "retrying", each with the number of the attempt. */
  function Attempts(n: nat): seq<Report> {
    if n == 0 then [] else Attempts(n - 1) + Opening(n)
  }

  predicate Terminal(s: Status) {
    s == Sent || s == Failed || s == Cancelled
  }

  ghost predicate InOrder(trace: seq<Report>, n: nat) {
    exists s :: Terminal(s) && trace == Attempts(n) + [Report(s, n)]
  }

  /** The trace of a run is "sending", "retrying" n - 1 times and one terminal status exactly if no
      callback threw that opened the last attempt or reported a success. */
  lemma TraceShapeIff(net: Network, o: TriggerOptions, n: nat)
    requires Reaches(net, o, n) && IsLast(net, o, n)
    ensures InOrder(Trace(net, o, n), n)
            <==> && CallMade(net, o, n)
                 && forall i | 1 <= i <= n :: !Succeeds(net, i) || !o.throws(Start(net, i) + 2)
  {
    hide Reports, IsLast, Succeeds, CallMade, Start;
    EarlierTrace(net, o, n, n - 1);
    LastReports(net, o, n);
    AttemptsLength(n);
    var trace, early, reports := Trace(net, o, n), Trace(net, o, n - 1), Reports(net, o, n);
    assert trace == early + reports;
    if CallMade(net, o, n) && forall i | 1 <= i <= n :: !Succeeds(net, i) || !o.throws(Start(net, i) + 2) {
      assert early == Attempts(n - 1);
      assert trace == Attempts(n) + [reports[1]];
      assert InOrder(trace, n);
    }
    if InOrder(trace, n) {
      var s :| Terminal(s) && trace == Attempts(n) + [Report(s, n)];
      assert reports[|reports| - 1] == trace[|trace| - 1] == Report(s, n);
      assert |early| + |reports| == n + 1;
    }
  }

  /** What the attempts before the last one report. */
  lemma {:induction false} EarlierTrace(net: Network, o: TriggerOptions, n: nat, m: nat)
    requires Reaches(net, o, n) && m < n
    ensures |Trace(net, o, m)| >= m
    ensures |Trace(net, o, m)| == m <==> forall i | 1 <= i <= m :: !Succeeds(net, i) || !o.throws(Start(net, i) + 2)
    ensures |Trace(net, o, m)| == m ==> Trace(net, o, m) == Attempts(m)
  {
    hide Settled, Succeeds, Reports, Start;
    if m > 0 {
      EarlierTrace(net, o, n, m - 1);
      ContinuedReports(net, o, m);
    }
  }

  lemma ContinuedReports(net: Network, o: TriggerOptions, n: nat)
    requires n >= 1 && !IsLast(net, o, n)
    ensures Reports(net, o, n) == Opening(n) + Success(net, o, n)
    ensures |Success(net, o, n)| == if Succeeds(net, n) then 1 else 0
    ensures Succeeds(net, n) ==> o.throws(Start(net, n) + 2)
  {
    hide Start, CallOutcome;
  }

  lemma LastReports(net: Network, o: TriggerOptions, n: nat)
    requires n >= 1 && IsLast(net, o, n)
    ensures var reports := Reports(net, o, n);
            && reports != [] && Opening(n) == reports[..1]
            && (|reports| == 1 <==> !CallMade(net, o, n))
            && (CallMade(net, o, n) ==> Terminal(reports[1].status) && reports[1].attempt == n)
            && (|reports| > 2 <==> CallMade(net, o, n) && Succeeds(net, n) && o.throws(Start(net, n) + 2))
  {
    hide Start, CallOutcome;
  }

  lemma {:induction false} AttemptsLength(n: nat)
    ensures |Attempts(n)| == n
  {
    if n > 0 { AttemptsLength(n - 1); }
  }

  /** "sent" is reported for exactly the calls that succeeded before any cancellation. */
  lemma {:induction false} SentIff(net: Network, o: TriggerOptions, n: nat, i: nat)
    ensures Report(Sent, i) in Trace(net, o, n)
            <==> && 1 <= i <= n && !o.throws(Start(net, i)) && CallOutcome(net, i).Fulfilled?
                 && !(o.cancelDuring.Some? && o.cancelDuring.value <= Start(net, i) + 1)
  {
    hide Reports, Start, CallOutcome;
    if n > 0 {
      SentIff(net, o, n - 1, i);
      SentInReports(net, o, n, i);
    }
  }

  lemma SentInReports(net: Network, o: TriggerOptions, n: nat, i: nat)
    requires n >= 1
    ensures Report(Sent, i) in Reports(net, o, n)
            <==> && i == n && !o.throws(Start(net, n)) && CallOutcome(net, n).Fulfilled?
                 && !(o.cancelDuring.Some? && o.cancelDuring.value <= Start(net, n) + 1)
  {
    hide Start, CallOutcome;
  }

  /** "failed" is reported for exactly the attempts that used up the limit without delivering a
      success and without a cancellation up to then. */
  lemma {:induction false} FailedIff(net: Network, o: TriggerOptions, n: nat, i: nat)
    ensures Report(Failed, i) in Trace(net, o, n)
            <==> && 1 <= i <= n && !o.throws(Start(net, i))
                 && (CallOutcome(net, i).Fulfilled? ==> o.throws(Start(net, i) + 2))
                 && !(o.cancelDuring.Some?
                      && o.cancelDuring.value <= Start(net, i) + (if CallOutcome(net, i).Fulfilled? then 2 else 1))
                 && o.maxAttempts.Some? && i >= o.maxAttempts.value
  {
    hide Reports, Start, CallOutcome;
    if n > 0 {
      FailedIff(net, o, n - 1, i);
      FailedInReports(net, o, n, i);
    }
  }

  lemma FailedInReports(net: Network, o: TriggerOptions, n: nat, i: nat)
    requires n >= 1
    ensures Report(Failed, i) in Reports(net, o, n)
            <==> && i == n && !o.throws(Start(net, n))
                 && (CallOutcome(net, n).Fulfilled? ==> o.throws(Start(net, n) + 2))
                 && !(o.cancelDuring.Some?
                      && o.cancelDuring.value <= Start(net, n) + (if CallOutcome(net, n).Fulfilled? then 2 else 1))
                 && o.maxAttempts.Some? && n >= o.maxAttempts.value
  {
    hide Start, CallOutcome;
  }

  /** "cancelled" is reported for exactly the attempts whose call succeeded after the cancellation, and
      those that delivered no success and were cancelled: before the limit was tested, or by the end
      of the delay. */
  lemma {:induction false} CancelledIff(net: Network, o: TriggerOptions, n: nat, i: nat)
    ensures Report(Cancelled, i) in Trace(net, o, n)
            <==> && 1 <= i <= n && !o.throws(Start(net, i)) && o.cancelDuring.Some?
                 && var (at, fulfilled) := (Start(net, i), CallOutcome(net, i).Fulfilled?);
                    || (fulfilled && o.cancelDuring.value <= at + 1)
                    || (&& (fulfilled ==> o.throws(at + 2))
                        && (|| o.cancelDuring.value <= at + (if fulfilled then 2 else 1)
                            || (&& !(o.maxAttempts.Some? && i >= o.maxAttempts.value)
                                && o.cancelDuring.value <= at + (if fulfilled then 3 else 2))))
  {
    hide Reports, Start, CallOutcome;
    if n > 0 {
      CancelledIff(net, o, n - 1, i);
      CancelledInReports(net, o, n, i);
    }
  }

  lemma CancelledInReports(net: Network, o: TriggerOptions, n: nat, i: nat)
    requires n >= 1
    ensures Report(Cancelled, i) in Reports(net, o, n)
            <==> && i == n && !o.throws(Start(net, n)) && o.cancelDuring.Some?
                 && var (at, fulfilled) := (Start(net, n), CallOutcome(net, n).Fulfilled?);
                    || (fulfilled && o.cancelDuring.value <= at + 1)
                    || (&& (fulfilled ==> o.throws(at + 2))
                        && (|| o.cancelDuring.value <= at + (if fulfilled then 2 else 1)
                            || (&& !(o.maxAttempts.Some? && n >= o.maxAttempts.value)
                                && o.cancelDuring.value <= at + (if fulfilled then 3 else 2))))
  {
    hide Start, CallOutcome;
  }

  /** What the promise comes to. A callback that throws before a rejection replaces its reason. */
  lemma PromiseIs(net: Network, o: TriggerOptions, n: nat)
    requires n >= 1
    ensures var (at, call) := (Start(net, n), CallOutcome(net, n));
            var end := at + (if call.Fulfilled? then 3 else 2);
            Settled(net, o, n)
            == if o.throws(at) then Rejected(CallbackThrew(at))
               else if call.Fulfilled? && !o.throws(at + 2) then Resolved(call.value)
               else if || (o.cancelDuring.Some? && o.cancelDuring.value < end)
                       || (o.maxAttempts.Some? && n >= o.maxAttempts.value) then
                 Rejected(if o.throws(end) then CallbackThrew(end)
                          else if call.Fulfilled? then CallbackThrew(at + 2)
                          else TriggerFailed(call))
               else if o.cancelDuring.Some? && o.cancelDuring.value == end then
                 Rejected(if o.throws(end + 1) then CallbackThrew(end + 1) else SosCancelled)
               else Pending
  {
    hide Start, CallOutcome;
  }

  /** With callbacks that do not throw no call follows a success, the promise fulfils exactly if the
      last call succeeded, and the trace ends with "sent" exactly if that was before any cancellation,
      with "failed" exactly if an uncancelled last call failed with no attempt left. */
  lemma WithoutThrows(net: Network, o: TriggerOptions, n: nat)
    requires Reaches(net, o, n) && IsLast(net, o, n) && forall k: nat :: !o.throws(k)
    ensures forall i | 1 <= i < n :: !Succeeds(net, i)
    ensures InOrder(Trace(net, o, n), n)
    ensures var (call, inTime) := (CallOutcome(net, n),
                                   !(o.cancelDuring.Some? && o.cancelDuring.value <= Start(net, n) + 1));
            && Settled(net, o, n) == (if call.Fulfilled? then Resolved(call.value)
                                      else if !inTime || (o.maxAttempts.Some? && n >= o.maxAttempts.value)
                                      then Rejected(TriggerFailed(call)) else Rejected(SosCancelled))
            && (Trace(net, o, n) == Attempts(n) + [Report(Sent, n)] <==> call.Fulfilled? && inTime)
            && (Trace(net, o, n) == Attempts(n) + [Report(Failed, n)]
                <==> !call.Fulfilled? && inTime && o.maxAttempts.Some? && n >= o.maxAttempts.value)
  {
    hide Reports, Settled, CallOutcome, CallMade, Start;
    forall i | 1 <= i < n ensures !Succeeds(net, i) {
      ContinuedReports(net, o, i);
    }
    EarlierTrace(net, o, n, n - 1);
    QuietReports(net, o, n);
    var s :| Terminal(s) && Reports(net, o, n) == Opening(n) + [Report(s, n)] && QuietEnd(net, o, n, s);
    assert Trace(net, o, n) == Attempts(n) + [Report(s, n)];
    SameLast(Attempts(n), Report(s, n), Report(Sent, n));
    SameLast(Attempts(n), Report(s, n), Report(Failed, n));
  }

  lemma SameLast(trace: seq<Report>, a: Report, b: Report)
    ensures trace + [a] == trace + [b] <==> a == b
  {
    assert (trace + [a])[|trace|] == a && (trace + [b])[|trace|] == b;
  }

  predicate QuietEnd(net: Network, o: TriggerOptions, n: nat, s: Status)
    requires n >= 1
  {
    && (s == Sent <==> Succeeds(net, n) && !o.CancelledBy(Start(net, n) + 1))
    && (s == Failed <==> !Succeeds(net, n) && !o.CancelledBy(Start(net, n) + 1) && o.Exhausted(n))
  }

  lemma QuietReports(net: Network, o: TriggerOptions, n: nat)
    requires n >= 1 && IsLast(net, o, n) && forall k: nat :: !o.throws(k)
    ensures Settled(net, o, n)
            == if Succeeds(net, n) then Resolved(CallOutcome(net, n).value)
               else if o.CancelledBy(Start(net, n) + 1) || o.Exhausted(n) then Rejected(TriggerFailed(CallOutcome(net, n)))
               else Rejected(SosCancelled)
    ensures exists s ::
              Terminal(s) && Reports(net, o, n) == Opening(n) + [Report(s, n)] && QuietEnd(net, o, n, s)
  {
    hide Start, CallOutcome;
    var s := Reports(net, o, n)[1].status;
    assert Reports(net, o, n) == Opening(n) + [Report(s, n)];
    assert QuietEnd(net, o, n, s);
  }

  /** An SOS run ends if and only if some callback that opens an attempt throws, some success is
      delivered, it is cancelled, or its attempts are limited: otherwise it retries for ever. */
  lemma EndsIff(net: Network, o: TriggerOptions)
    ensures (exists n: nat :: n >= 1 && IsLast(net, o, n))
            <==> || (exists n: nat :: n >= 1 && o.throws(Start(net, n)))
                 || (exists n: nat :: n >= 1 && CallOutcome(net, n).Fulfilled? && !o.throws(Start(net, n) + 2))
                 || o.cancelDuring.Some? || o.maxAttempts.Some?
  {
    hide CallOutcome, Start, CatchAt;
    if o.cancelDuring.Some? {
      var n := o.cancelDuring.value + 1;
      CatchBounds(net, n);
      assert IsLast(net, o, n);
    }
    if o.maxAttempts.Some? {
      var n: nat := if o.maxAttempts.value <= 1 then 1 else o.maxAttempts.value;
      assert IsLast(net, o, n);
    }
    if n: nat :| n >= 1 && (o.throws(Start(net, n))
                            || (CallOutcome(net, n).Fulfilled? && !o.throws(Start(net, n) + 2))) {
      assert IsLast(net, o, n);
    }
    if n: nat :| n >= 1 && IsLast(net, o, n) {
      WhyLast(net, o, n);
      if o.throws(Start(net, n)) {
      } else if CallOutcome(net, n).Fulfilled? && !o.throws(Start(net, n) + 2) {
      }
    }
  }

  lemma WhyLast(net: Network, o: TriggerOptions, n: nat)
    requires n >= 1 && IsLast(net, o, n)
    ensures || o.throws(Start(net, n)) || (CallOutcome(net, n).Fulfilled? && !o.throws(Start(net, n) + 2))
            || o.cancelDuring.Some? || o.maxAttempts.Some?
  {
    hide CallOutcome, Start;
  }

  lemma CatchBounds(net: Network, n: nat)
    requires n >= 1
    ensures CatchAt(net, n) >= n
  {
    StartBounds(net, n);
  }

  // Two runs

  /** No fetch gets a response. */
  const SILENT: Network := k => NoResponse(false)

  /** Every fetch gets the event. */
  const RESPONSIVE: Network := k => Response(200, Parsed(7, None))

  /** A cancel inside the callback that announces attempt 2: its call is made all the same. */
  lemma CancelInsideRetrying()
    ensures var o := TriggerOptions(None, Some(3), k => false);
            && Reaches(SILENT, o, 2) && CallMade(SILENT, o, 2)
            && o.CancelledBy(Start(SILENT, 2))
            && Settled(SILENT, o, 2) == Rejected(TriggerFailed(NetworkError(false)))
            && Trace(SILENT, o, 2) == [Report(Sending, 1), Report(Retrying, 2), Report(Cancelled, 2)]
  {
    hide Fetches, FetchesBefore;
    var o := TriggerOptions(None, Some(3), k => false);
    assert Trace(SILENT, o, 1) == [Report(Sending, 1)] by { assert Trace(SILENT, o, 0) == []; }
    assert Start(SILENT, 1) == 0 && Start(SILENT, 2) == 3;
  }

  /** A callback that throws when told "sent" has the SOS triggered a second time. */
  lemma ThrowInsideSent()
    ensures var o := TriggerOptions(None, None, k => k == 2);
            && Reaches(RESPONSIVE, o, 2) && Calls(RESPONSIVE, o, 2) == 2
            && Succeeds(RESPONSIVE, 1) && Succeeds(RESPONSIVE, 2)
            && Settled(RESPONSIVE, o, 2) == Resolved(Some(7))
            && Trace(RESPONSIVE, o, 2)
               == [Report(Sending, 1), Report(Sent, 1), Report(Retrying, 2), Report(Sent, 2)]
  {
    hide Fetches, FetchesBefore;
    var o := TriggerOptions(None, None, k => k == 2);
    assert Trace(RESPONSIVE, o, 1) == [Report(Sending, 1), Report(Sent, 1)] by {
      assert Trace(RESPONSIVE, o, 0) == [];
    }
    assert Start(RESPONSIVE, 1) == 0 && Start(RESPONSIVE, 2) == 4;
  }
}
