/**
  The request builder of `Viddler_V2::call`: from a method name, the caller's
  ordered arguments and an optional override URL it computes the URL, the
  verb, the query value that becomes the POST body, and the response type
  that is active for the call.
 */
module Builder {
  import opened Wrappers
  import opened PhpStrings
  import opened Methods

  /** One key/value entry of the caller's associative array, in array order. */
  type Pair = (string, string)

  /** The first positional argument: an associative array, or anything else. */
  datatype Arguments = NotAnArray | Assoc(pairs: seq<Pair>)

  /** The instance fields a call reads; a NULL key renders as the empty string. */
  datatype Client = Client(apiKey: string, responseType: string)

  datatype Verb = Get | Post

  /** The value left in the `query` field: NULL, an `&`-joined string, or the caller's array. */
  datatype Query = Null | Joined(text: string) | Fields(fields: seq<Pair>)

  datatype Request = Request(url: string, verb: Verb, query: Query, responseType: string)

  const ResponseTypeKey := "response_type"
  const ApiKeyKey := "api_key"

  /** Keys that never reach the serialised query. */
  predicate Reserved(k: string) {
    k == ResponseTypeKey || k == ApiKeyKey
  }

  /** The caller's pairs that reach the query, in order. */
  function Kept(ps: seq<Pair>): (r: seq<Pair>)
    ensures |r| <= |ps|
    ensures forall i :: 0 <= i < |r| ==> !Reserved(r[i].0)
  {
    if |ps| == 0 then []
    else
      var prev := Kept(ps[..|ps| - 1]);
      if Reserved(ps[|ps| - 1].0) then prev else prev + [ps[|ps| - 1]]
  }

  /** Renders each pair as `k=v`. */
  function Render(kvs: seq<Pair>): (r: seq<string>)
    ensures |r| == |kvs|
  {
    seq(|kvs|, i requires 0 <= i < |kvs| => kvs[i].0 + "=" + kvs[i].1)
  }

  /** No pair of `ps` carries the `response_type` key. */
  predicate NoTypeKey(ps: seq<Pair>) {
    forall i :: 0 <= i < |ps| ==> ps[i].0 != ResponseTypeKey
  }

  /** `ps[i]` is the last pair of `ps` that carries the `response_type` key. */
  predicate LastTypeAt(ps: seq<Pair>, i: int) {
    0 <= i < |ps| && ps[i].0 == ResponseTypeKey && NoTypeKey(ps[i + 1..])
  }

  lemma RenderAppend(a: seq<Pair>, b: seq<Pair>)
    ensures Render(a + b) == Render(a) + Render(b)
  {
    var l, r := Render(a + b), Render(a) + Render(b);
    forall i | 0 <= i < |l|
      ensures l[i] == r[i]
    {
      if i < |a| {
        assert (a + b)[i] == a[i];
      } else {
        assert (a + b)[i] == b[i - |a|];
      }
    }
  }

  /** The response type after the loop has seen `ps`. */
  function ActiveType(initial: string, ps: seq<Pair>): string
  {
    if |ps| == 0 then initial
    else if ps[|ps| - 1].0 == ResponseTypeKey then ps[|ps| - 1].1
    else ActiveType(initial, ps[..|ps| - 1])
  }

  /** The active type is the value of the last `response_type` pair, or the initial one if there is none. */
  lemma {:induction false} ActiveTypeIsLast(initial: string, ps: seq<Pair>)
    ensures NoTypeKey(ps) ==> ActiveType(initial, ps) == initial
    ensures forall i :: LastTypeAt(ps, i) ==> ActiveType(initial, ps) == ps[i].1
    decreases |ps|
  {
    if |ps| > 0 && ps[|ps| - 1].0 != ResponseTypeKey {
      var prev := ps[..|ps| - 1];
      ActiveTypeIsLast(initial, prev);
      if NoTypeKey(ps) {
        assert NoTypeKey(prev);
      }
      forall i | LastTypeAt(ps, i)
        ensures LastTypeAt(prev, i)
      {
        var tail, whole := prev[i + 1..], ps[i + 1..];
        forall j | 0 <= j < |tail|
          ensures tail[j].0 != ResponseTypeKey
        {
          assert tail[j] == whole[j];
        }
      }
    }
  }

  /** The URL after the loop has seen `ps`: each `response_type` pair rewrites `.<old>` to `.<new>`. */
  function Retarget(url: string, initial: string, ps: seq<Pair>): string
  {
    if |ps| == 0 then url
    else
      var prev := Retarget(url, initial, ps[..|ps| - 1]);
      if ps[|ps| - 1].0 == ResponseTypeKey
      then StrReplace(prev, "." + ActiveType(initial, ps[..|ps| - 1]), "." + ps[|ps| - 1].1)
      else prev
  }

  /** The URL before the credential and the arguments are added. */
  function Base(m: string, override: Option<string>, responseType: string): string {
    override.GetOr(DefaultUrl(m, responseType))
  }

  /** The whole of `call()` up to the retry loop, as one value. */
  function Build(name: string, args: Arguments, override: Option<string>, c: Client): Request
  {
    var m := Normalize(name);
    Assemble(IsPost(m), IsBinary(m), Base(m, override, c.responseType), args, c)
  }

  /**
    Everything after the table lookups: `post` and `binary` classify the
    method and `base` is the URL before the credential is added.
   */
  function Assemble(post: bool, binary: bool, base: string, args: Arguments, c: Client): Request
  {
    var verb := if post then Post else Get;
    var url0 := if post then base else base + "?key=" + c.apiKey;
    var credential := if post then ["key=" + c.apiKey] else [];
    if args.Assoc? && |args.pairs| > 0 then
      var ps := args.pairs;
      var url1 := Retarget(url0, c.responseType, ps);
      var q := if binary then Fields(ps) else Joined(Implode("&", credential + Render(Kept(ps))));
      // A binary method is always a POST method, so a GET always holds a joined string.
      var url2 := if !post && q.Joined? && !PhpEmpty(q.text) then url1 + "&" + q.text else url1;
      Request(url2, verb, q, ActiveType(c.responseType, ps))
    else
      Request(url0, verb, Null, c.responseType)
  }

  /** One more pair seen by the loop: how the three running values change. */
  lemma ScanStep(url0: string, type0: string, ps: seq<Pair>, i: int)
    requires 0 <= i < |ps|
    ensures Kept(ps[..i + 1]) == if Reserved(ps[i].0) then Kept(ps[..i]) else Kept(ps[..i]) + [ps[i]]
    ensures ActiveType(type0, ps[..i + 1]) == if ps[i].0 == ResponseTypeKey then ps[i].1 else ActiveType(type0, ps[..i])
    ensures Retarget(url0, type0, ps[..i + 1]) ==
              if ps[i].0 == ResponseTypeKey
              then StrReplace(Retarget(url0, type0, ps[..i]), "." + ActiveType(type0, ps[..i]), "." + ps[i].1)
              else Retarget(url0, type0, ps[..i])
  {
    assert ps[..i + 1][..i] == ps[..i];
    assert ps[..i + 1][i] == ps[i];
  }

  /**
    The `foreach` over the caller's array: pushes `k=v` for every key other
    than `response_type` and `api_key`, and lets each `response_type` pair
    rewrite the URL's format suffix and become the active response type.
   */
  method ScanArguments(url0: string, query0: seq<string>, type0: string, ps: seq<Pair>)
    returns (url: string, query: seq<string>, responseType: string)
    ensures query == query0 + Render(Kept(ps))
    ensures url == Retarget(url0, type0, ps)
    ensures responseType == ActiveType(type0, ps)
  {
    url, query, responseType := url0, query0, type0;
    var i := 0;
    while i < |ps|
      invariant 0 <= i <= |ps|
      invariant query == query0 + Render(Kept(ps[..i]))
      invariant url == Retarget(url0, type0, ps[..i])
      invariant responseType == ActiveType(type0, ps[..i])
    {
      var (k, v) := ps[i];
      ScanStep(url0, type0, ps, i);
      RenderAppend(Kept(ps[..i]), [ps[i]]);
      if k != ResponseTypeKey && k != ApiKeyKey {
        query := query + [k + "=" + v];
      }
      if k == ResponseTypeKey {
        url := StrReplace(url, "." + responseType, "." + v);
        responseType := v;
      }
      i := i + 1;
    }
    assert ps[..|ps|] == ps;
  }

  /**
    The statement-by-statement version of the builder: a mutable URL, query
    array and response type, set up from the tables and then updated by one
    pass over the caller's array.
   */
  method BuildRequest(name: string, args: Arguments, override: Option<string>, c: Client)
    returns (r: Request)
    ensures r == Build(name, args, override, c)
  {
    var m := Normalize(name);
    var binary := IsBinary(m);
    var post := IsPost(m);
    var url := if override.Some? then override.value else DefaultUrl(m, c.responseType);
    var query: seq<string> := [];
    if post {
      query := query + ["key=" + c.apiKey];
    } else {
      url := url + "?key=" + c.apiKey;
    }
    var verb := if post then Post else Get;
    if args.Assoc? && |args.pairs| > 0 {
      var ps := args.pairs;
      var responseType;
      url, query, responseType := ScanArguments(url, query, c.responseType, ps);
      var q := if binary then Fields(ps) else Joined(Implode("&", query));
      if !post {
        url := if q.Joined? && !PhpEmpty(q.text) then url + "&" + q.text else url;
      }
      r := Request(url, verb, q, responseType);
    } else {
      r := Request(url, verb, Null, c.responseType);
    }
  }
}
