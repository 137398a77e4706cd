/**
  One whole `call()`: build the request, then run the retry loop with the
  response type that is active once the arguments have been read.
 */
module ApiCall {
  import opened Wrappers
  import opened Builder
  import opened Attempts

  datatype Outcome = Outcome(request: Request, run: Run)

  /** The request, and the loop run against it with the call's active response type. */
  function Call(name: string, args: Arguments, override: Option<string>, c: Client,
                transport: nat -> Exchange, unserialize: string -> Value): Outcome
  {
    var r := Build(name, args, override, c);
    Outcome(r, Retry(Oracle(transport, unserialize, r.responseType, MaxAttempts), 1))
  }

  /** `call()` step by step: the builder, then the loop. */
  method Invoke(name: string, args: Arguments, override: Option<string>, c: Client,
                transport: nat -> Exchange, unserialize: string -> Value)
    returns (request: Request, result: Option<Value>, attempt: nat, calls: nat)
    ensures calls <= MaxAttempts
    ensures Outcome(request, Run(result, attempt, calls)) == Call(name, args, override, c, transport, unserialize)
  {
    request := BuildRequest(name, args, override, c);
    result, attempt, calls := RetryLoop(Oracle(transport, unserialize, request.responseType, MaxAttempts));
  }

  /**
    A per-call `response_type` other than 'php' switches decoding off: a
    successful first exchange comes back as its raw body after one request.
   */
  lemma FormatOverrideReturnsRawText(name: string, ps: seq<Pair>, override: Option<string>, c: Client,
                                     transport: nat -> Exchange, unserialize: string -> Value, i: int)
    requires LastTypeAt(ps, i) && ps[i].1 != "php"
    requires !Failed(transport(1))
    ensures var out := Call(name, Assoc(ps), override, c, transport, unserialize);
            && out.request.responseType == ps[i].1
            && out.run == Run(Some(Text(transport(1).body.value)), 1, 1)
  {
    ActiveTypeIsLast(c.responseType, ps);
    var o := Oracle(transport, unserialize, ps[i].1, MaxAttempts);
    NonPhpPassesThrough(transport(1), 1, MaxAttempts, ps[i].1, unserialize);
    SucceedsOnAttempt(o, 1, 1);
  }

  /**
    A transport that fails every time, at the HTTP level on the tenth
    attempt: ten requests, then the error report of the tenth.
   */
  lemma AlwaysFailingCall(name: string, args: Arguments, override: Option<string>, c: Client,
                          transport: nat -> Exchange, unserialize: string -> Value)
    requires forall j :: 1 <= j <= MaxAttempts ==> Failed(transport(j))
    requires transport(MaxAttempts).body.Some?
    ensures var out := Call(name, args, override, c, transport, unserialize);
            out.run == Run(Some(ErrorReport(MaxAttempts)), 1, MaxAttempts)
  {
    var r := Build(name, args, override, c);
    AlwaysFailing(Oracle(transport, unserialize, r.responseType, MaxAttempts));
  }

  /**
    A transport that fails every time, with `curl_exec` failing on the tenth
    attempt: ten requests, no return value, and the counter left at 11.
   */
  lemma CurlFailingCall(name: string, args: Arguments, override: Option<string>, c: Client,
                        transport: nat -> Exchange, unserialize: string -> Value)
    requires forall j :: 1 <= j <= MaxAttempts ==> Failed(transport(j))
    requires transport(MaxAttempts).body.None?
    ensures var out := Call(name, args, override, c, transport, unserialize);
            out.run == Run(None, MaxAttempts + 1, MaxAttempts)
  {
    var r := Build(name, args, override, c);
    CurlFailuresExhaust(Oracle(transport, unserialize, r.responseType, MaxAttempts));
  }
}
