/**
  The bounded retry loop at the end of `call()` and the return contract of
  `request()`. The transport is an oracle from attempt number to what cURL
  observed; PHP's `unserialize` is an oracle from body to decoded value.
 */
module Attempts {
  import opened Wrappers
  import opened PhpStrings

  /** The initial value of the `max_attempts` field. */
  const MaxAttempts: nat := 10

  /** What one cURL exchange produced: the body (`None` when `curl_exec` failed) and the HTTP status. */
  datatype Exchange = Exchange(body: Option<string>, httpCode: int)

  /** The value `request()` hands back to the loop. */
  datatype Value =
    | Nothing                                 // `false`, or a decoder result of `false`/NULL
    | Text(text: string)                      // a raw body, returned for every type but 'php'
    | Unserialized(repr: string, empty: bool) // what `unserialize` made of a 'php' body
    | ErrorReport(attempt: nat)               // the `response` + info array of an HTTP-level failure on the final attempt

  /** PHP's `empty()` on a returned value. */
  predicate IsEmpty(v: Value) {
    match v
    case Nothing => true
    case Text(t) => PhpEmpty(t)
    case Unserialized(_, e) => e
    case ErrorReport(_) => false
  }

  /** The failure test of `request()`: no body, an empty body, or a status other than 200. */
  predicate Failed(e: Exchange) {
    e.body.None? || PhpEmpty(e.body.value) || e.httpCode != 200
  }

  /**
    What `request()` returns for exchange `e` on attempt `attempt`, under PHP 5.
    A failure before the last attempt is `false`. On the last attempt the
    value depends on `curl_error`, which is empty exactly when `curl_exec`
    delivered a body. An empty error string turns into the array
    `['response' => '']` on the offset write, and merging it with the
    transfer info gives a non-empty array. A non-empty error message stays a
    string, and `array_merge` of a string yields NULL.
   */
  function RequestValue(e: Exchange, attempt: nat, max: nat, responseType: string,
                        unserialize: string -> Value): Value
  {
    if Failed(e) then
      if attempt >= max && e.body.Some? then ErrorReport(attempt) else Nothing
    else if responseType == "php" then unserialize(e.body.value)
    else Text(e.body.value)
  }

  /** A successful exchange under any type but 'php' returns its raw, non-empty body. */
  lemma NonPhpPassesThrough(e: Exchange, attempt: nat, max: nat, responseType: string,
                            unserialize: string -> Value)
    requires !Failed(e) && responseType != "php"
    ensures RequestValue(e, attempt, max, responseType, unserialize) == Text(e.body.value)
    ensures !IsEmpty(RequestValue(e, attempt, max, responseType, unserialize))
  {
  }

  /**
    A failure is empty before the last attempt. On the last attempt it is
    non-empty exactly when cURL delivered a body (an HTTP-level failure);
    a failed `curl_exec` gives an empty value there too.
   */
  lemma FailureValue(e: Exchange, attempt: nat, max: nat, responseType: string,
                     unserialize: string -> Value)
    requires Failed(e)
    ensures attempt < max ==> IsEmpty(RequestValue(e, attempt, max, responseType, unserialize))
    ensures attempt >= max ==> (!IsEmpty(RequestValue(e, attempt, max, responseType, unserialize)) <==> e.body.Some?)
  {
  }

  /** The transport and decoder of one call, with its bound. */
  datatype Oracle = Oracle(transport: nat -> Exchange, unserialize: string -> Value,
                           responseType: string, max: nat)

  /** The value attempt `n` yields. */
  function At(o: Oracle, n: nat): Value {
    RequestValue(o.transport(n), n, o.max, o.responseType, o.unserialize)
  }

  /** The loop's result, the `attempt` field it leaves behind, and how many requests it made. */
  datatype Run = Run(result: Option<Value>, attempt: nat, calls: nat)

  /**
    The loop from attempt `n` on: the first non-empty value wins and resets
    the counter to 1; if every attempt up to `max` is empty the loop falls
    through with no return value and the counter left at `max + 1`.
   */
  function Retry(o: Oracle, n: nat): (r: Run)
    decreases o.max + 1 - n
    ensures r.calls <= if n <= o.max then o.max + 1 - n else 0
    ensures r.result.Some? ==>
              var k := n + r.calls - 1;
              && n <= k <= o.max
              && r.result.value == At(o, k)
              && !IsEmpty(At(o, k))
              && (forall j :: n <= j < k ==> IsEmpty(At(o, j)))
              && r.attempt == 1
    ensures r.result.None? ==>
              && (forall j :: n <= j <= o.max ==> IsEmpty(At(o, j)))
              && r.calls == (if n <= o.max then o.max + 1 - n else 0)
              && r.attempt == (if n <= o.max then o.max + 1 else n)
  {
    if n > o.max then Run(None, n, 0)
    else
      var v := At(o, n);
      if !IsEmpty(v) then Run(Some(v), 1, 1)
      else
        var rest := Retry(o, n + 1);
        Run(rest.result, rest.attempt, rest.calls + 1)
  }

  /** The `for` loop itself, over the `attempt` counter. */
  method RetryLoop(o: Oracle) returns (result: Option<Value>, attempt: nat, calls: nat)
    ensures Run(result, attempt, calls) == Retry(o, 1)
  {
    attempt := 1;
    calls := 0;
    while attempt <= o.max
      invariant 1 <= attempt <= o.max + 1 || (o.max == 0 && attempt == 1)
      invariant calls == attempt - 1
      invariant Retry(o, 1) == var rest := Retry(o, attempt); Run(rest.result, rest.attempt, rest.calls + calls)
      decreases o.max + 1 - attempt
    {
      var response := At(o, attempt);
      calls := calls + 1;
      if !IsEmpty(response) {
        attempt := 1;
        result := Some(response);
        return;
      }
      attempt := attempt + 1;
    }
    result := None;
  }

  /** Empty values on attempts 1..N-1 and a non-empty one on N: exactly N requests, and N's value. */
  lemma {:induction false} SucceedsOnAttempt(o: Oracle, n: nat, k: nat)
    requires 1 <= n <= k <= o.max
    requires forall j :: n <= j < k ==> IsEmpty(At(o, j))
    requires !IsEmpty(At(o, k))
    ensures Retry(o, n) == Run(Some(At(o, k)), 1, k - n + 1)
    decreases k - n
  {
    if n < k {
      SucceedsOnAttempt(o, n + 1, k);
    }
  }

  /**
    Every attempt fails and the last one is an HTTP-level failure: `max`
    requests, and the final attempt's error report.
   */
  lemma AlwaysFailing(o: Oracle)
    requires o.max >= 1
    requires forall j :: 1 <= j <= o.max ==> Failed(o.transport(j))
    requires o.transport(o.max).body.Some?
    ensures Retry(o, 1) == Run(Some(ErrorReport(o.max)), 1, o.max)
  {
    forall j | 1 <= j < o.max
      ensures IsEmpty(At(o, j))
    {
      FailureValue(o.transport(j), j, o.max, o.responseType, o.unserialize);
    }
    SucceedsOnAttempt(o, 1, o.max);
  }

  /**
    Every attempt fails and `curl_exec` itself fails on the last one: the
    loop falls through with no result after `max` requests, and the counter
    is left at `max + 1`.
   */
  lemma CurlFailuresExhaust(o: Oracle)
    requires forall j :: 1 <= j <= o.max ==> Failed(o.transport(j))
    requires o.max >= 1 ==> o.transport(o.max).body.None?
    ensures Retry(o, 1) == Run(None, o.max + 1, o.max)
  {
    forall j | 1 <= j <= o.max
      ensures IsEmpty(At(o, j))
    {
      FailureValue(o.transport(j), j, o.max, o.responseType, o.unserialize);
    }
    EmptyDecodesExhaust(o);
  }

  /**
    The loop never makes more than `max` requests. A last attempt that fails
    at the HTTP level is still returned; one where `curl_exec` fails is not.
   */
  lemma Bounded(o: Oracle)
    ensures Retry(o, 1).calls <= o.max
    ensures o.max >= 1 && Failed(o.transport(o.max)) && o.transport(o.max).body.Some?
            ==> Retry(o, 1).result.Some?
    ensures o.max >= 1 && Failed(o.transport(o.max)) && o.transport(o.max).body.None?
            ==> (Retry(o, 1).result.Some? ==> Retry(o, 1).calls < o.max)
  {
    if o.max >= 1 && Failed(o.transport(o.max)) {
      FailureValue(o.transport(o.max), o.max, o.max, o.responseType, o.unserialize);
      if o.transport(o.max).body.Some? {
        assert !IsEmpty(At(o, o.max));
      }
    }
  }

  /**
    The loop only falls through when the last attempt decoded to an empty
    value; it then returns nothing and leaves the counter at `max + 1`.
   */
  lemma EmptyDecodesExhaust(o: Oracle)
    requires forall j :: 1 <= j <= o.max ==> IsEmpty(At(o, j))
    ensures Retry(o, 1) == Run(None, o.max + 1, o.max)
  {
  }
}
