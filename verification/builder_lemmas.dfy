/**
  What a built request looks like: where the credential goes, which scheme
  the URL carries, how `response_type` rewrites the URL, and that the
  serialised query reads back as exactly the pairs that were meant to go in.
 */
module BuilderLemmas {
  import opened Wrappers
  import opened PhpStrings
  import opened Methods
  import opened Builder

  /** Reads an `&`-joined `k=v` string back into pairs. */
  function ParseQuery(q: string): seq<Pair> {
    if q == "" then []
    else
      var parts := Split('&', q);
      seq(|parts|, i requires 0 <= i < |parts| => Cut('=', parts[i]))
  }

  /** No key holds `&` or `=` and no value holds `&`: the source does no URL encoding. */
  predicate Plain(kvs: seq<Pair>) {
    forall p :: p in kvs ==> '&' !in p.0 && '=' !in p.0 && '&' !in p.1
  }

  /** The caller's pairs that reach the query, or none for an absent array. */
  function KeptOf(args: Arguments): seq<Pair> {
    if args.Assoc? then Kept(args.pairs) else []
  }

  /** Keeping distributes over concatenation, so the kept pairs stay in their original order. */
  lemma {:induction false} KeptAppend(a: seq<Pair>, b: seq<Pair>)
    ensures Kept(a + b) == Kept(a) + Kept(b)
    decreases |b|
  {
    if |b| == 0 {
      assert a + b == a;
    } else {
      var b' := b[..|b| - 1];
      assert (a + b)[..|a + b| - 1] == a + b';
      assert (a + b)[|a + b| - 1] == b[|b| - 1];
      KeptAppend(a, b');
    }
  }

  /** A pair is kept exactly when it is one of the caller's pairs and its key is not reserved. */
  lemma {:induction false} KeptMembers(ps: seq<Pair>)
    ensures forall p :: p in Kept(ps) <==> p in ps && !Reserved(p.0)
    decreases |ps|
  {
    if |ps| > 0 {
      var prev := ps[..|ps| - 1];
      KeptMembers(prev);
      assert ps == prev + [ps[|ps| - 1]];
    }
  }

  /** A single pair is kept as itself unless its key is reserved. */
  lemma KeptSingle(p: Pair)
    ensures Kept([p]) == if Reserved(p.0) then [] else [p]
  {
    assert [p][..0] == [];
  }

  lemma KeptPlain(ps: seq<Pair>)
    requires Plain(ps)
    ensures Plain(Kept(ps))
  {
    KeptMembers(ps);
  }

  /** A non-empty rendered query is never PHP-empty: every element holds `=`. */
  lemma RenderedNotEmpty(kvs: seq<Pair>)
    requires |kvs| > 0
    ensures !PhpEmpty(Implode("&", Render(kvs)))
  {
    var parts := Render(kvs);
    var q := Implode("&", parts);
    ImplodeHead("&", parts);
    assert parts[0] == kvs[0].0 + "=" + kvs[0].1;
    assert parts[0][|kvs[0].0|] == '=';
    assert q[|kvs[0].0|] == '=';
  }

  lemma RenderOne(k: string, v: string)
    ensures Render([(k, v)]) == [k + "=" + v]
  {
    assert Render([(k, v)])[0] == k + "=" + v;
  }

  /** Parsing the rendered query gives back exactly the pairs, in order. */
  lemma ParseRender(kvs: seq<Pair>)
    requires Plain(kvs)
    ensures ParseQuery(Implode("&", Render(kvs))) == kvs
  {
    var parts := Render(kvs);
    var q := Implode("&", parts);
    if |kvs| == 0 {
      return;
    }
    RenderedNotEmpty(kvs);
    forall i | 0 <= i < |parts|
      ensures '&' !in parts[i]
    {
      assert kvs[i] in kvs;
      assert parts[i] == kvs[i].0 + "=" + kvs[i].1;
    }
    assert "&" == ['&'];
    SplitImplode('&', parts);
    forall i | 0 <= i < |parts|
      ensures Cut('=', parts[i]) == kvs[i]
    {
      assert kvs[i] in kvs;
      assert parts[i] == kvs[i].0 + ['='] + kvs[i].1;
      CutJoin('=', kvs[i].0, kvs[i].1);
    }
  }

  /** Without a `response_type` pair the URL is left as it was. */
  lemma {:induction false} RetargetNoop(url: string, initial: string, ps: seq<Pair>)
    requires NoTypeKey(ps)
    ensures Retarget(url, initial, ps) == url
    decreases |ps|
  {
    if |ps| > 0 {
      var prev := ps[..|ps| - 1];
      assert forall i :: 0 <= i < |prev| ==> prev[i] == ps[i];
      RetargetNoop(url, initial, prev);
    }
  }

  /** With exactly one `response_type` pair, the URL goes through one `str_replace`. */
  lemma {:induction false} RetargetSingle(url: string, initial: string, ps: seq<Pair>, i: int)
    requires LastTypeAt(ps, i) && NoTypeKey(ps[..i])
    ensures Retarget(url, initial, ps) == StrReplace(url, "." + initial, "." + ps[i].1)
    decreases |ps|
  {
    var prev := ps[..|ps| - 1];
    if i == |ps| - 1 {
      assert prev == ps[..i];
      RetargetNoop(url, initial, prev);
      ActiveTypeIsLast(initial, prev);
    } else {
      var tail := ps[i + 1..];
      assert tail[|tail| - 1] == ps[|ps| - 1];
      assert prev[..i] == ps[..i];
      assert prev[i + 1..] == tail[..|tail| - 1];
      RetargetSingle(url, initial, prev, i);
    }
  }

  /** A prefix with no `.` survives every format rewrite. */
  lemma {:induction false} RetargetKeepsPrefix(p: string, url: string, initial: string, ps: seq<Pair>)
    requires '.' !in p && p <= url
    ensures p <= Retarget(url, initial, ps)
    decreases |ps|
  {
    if |ps| > 0 {
      var prev := ps[..|ps| - 1];
      RetargetKeepsPrefix(p, url, initial, prev);
      var u := Retarget(url, initial, prev);
      assert u == p + u[|p|..];
      if ps[|ps| - 1].0 == ResponseTypeKey {
        var search := "." + ActiveType(initial, prev);
        StrReplaceKeepsPrefix(p, u[|p|..], search, "." + ps[|ps| - 1].1);
      }
    }
  }

  /** Every default endpoint, whatever follows it, starts with `<scheme>://api`. */
  lemma DefaultUrlHead(m: string, responseType: string, tail: string)
    ensures Scheme(m) + "://api" <= DefaultUrl(m, responseType) + tail
  {
    var rest := m + "." + responseType + tail;
    assert DefaultUrl(m, responseType) + tail == Scheme(m) + ApiRoot + rest;
    assert ApiRoot == "://api" + ".viddler.com/api/v2/";
  }

  /** A URL that starts with `<scheme>://api` starts with `https://` exactly when the scheme is secure. */
  lemma SchemeHead(m: string, u: string)
    requires Scheme(m) + "://api" <= u
    ensures "https://" <= u <==> IsSecure(m)
    ensures !IsSecure(m) ==> "http://" <= u
  {
    if !IsSecure(m) {
      assert u[4] == ':';
    }
  }

  lemma AssemblePost(binary: bool, base: string, ps: seq<Pair>, c: Client)
    requires !binary && |ps| > 0
    requires '&' !in c.apiKey && Plain(ps)
    ensures var r := Assemble(true, binary, base, Assoc(ps), c);
            && r.verb == Post
            && r.url == Retarget(base, c.responseType, ps)
            && r.query.Joined?
            && ParseQuery(r.query.text) == [("key", c.apiKey)] + Kept(ps)
  {
    var kept := Kept(ps);
    var one := [("key", c.apiKey)];
    var params := one + kept;
    var r := Assemble(true, binary, base, Assoc(ps), c);
    assert r.query == Joined(Implode("&", ["key=" + c.apiKey] + Render(kept)));
    RenderOne("key", c.apiKey);
    RenderAppend(one, kept);
    var text := Implode("&", Render(params));
    assert r.query.text == text;
    KeptPlain(ps);
    assert Plain(params);
    ParseRender(params);
    assert ParseQuery(text) == params;
  }

  /**
    A POST method that is not a file upload carries the credential as the
    first body element and never in the URL; the other body elements are
    the caller's pairs minus `response_type` and `api_key`, in order.
   */
  lemma PostCredentialInBody(name: string, args: Arguments, override: Option<string>, c: Client)
    requires IsPost(Normalize(name)) && !IsBinary(Normalize(name))
    requires args.Assoc? && |args.pairs| > 0
    requires '&' !in c.apiKey && Plain(args.pairs)
    ensures var r := Build(name, args, override, c);
            && r.verb == Post
            && r.url == Retarget(Base(Normalize(name), override, c.responseType), c.responseType, args.pairs)
            && r.query.Joined?
            && ParseQuery(r.query.text) == [("key", c.apiKey)] + Kept(args.pairs)
  {
    var m := Normalize(name);
    AssemblePost(IsBinary(m), Base(m, override, c.responseType), args.pairs, c);
  }

  /** The string shape of a GET URL: `?key=<key>`, then `&` and the caller's query if it is not empty. */
  lemma GetUrlShape(base: string, key: string, kept: seq<Pair>)
    requires '&' !in key && Plain(kept)
    ensures var params := [("key", key)] + kept;
            var tail := if |kept| > 0 then "&" + Implode("&", Render(kept)) else "";
            && base + "?key=" + key + tail == base + "?" + Implode("&", Render(params))
            && ParseQuery(Implode("&", Render(params))) == params
  {
    var one := [("key", key)];
    var params := one + kept;
    var head := "key=" + key;
    RenderOne("key", key);
    RenderAppend(one, kept);
    assert "?key=" == "?" + "key=";
    assert base + "?key=" + key == base + "?" + head;
    assert Plain(params);
    ParseRender(params);
    if |kept| > 0 {
      var parts := [head] + Render(kept);
      assert parts[1..] == Render(kept);
      assert Implode("&", parts) == head + "&" + Implode("&", Render(kept));
    }
  }

  lemma AssembleGet(base: string, args: Arguments, c: Client)
    requires args.Assoc? ==> NoTypeKey(args.pairs)
    ensures var r := Assemble(false, false, base, args, c);
            var kept := KeptOf(args);
            && r.verb == Get
            && r.url == base + "?key=" + c.apiKey + (if |kept| > 0 then "&" + Implode("&", Render(kept)) else "")
            && (args.Assoc? && |args.pairs| > 0 ==> r.query == Joined(Implode("&", Render(kept))))
  {
    var url0 := base + "?key=" + c.apiKey;
    if args.Assoc? && |args.pairs| > 0 {
      RetargetNoop(url0, c.responseType, args.pairs);
      var kept := Kept(args.pairs);
      if |kept| > 0 {
        RenderedNotEmpty(kept);
      }
      assert [] + Render(kept) == Render(kept);
    } else {
      assert url0 + "" == url0;
    }
  }

  /**
    A GET method carries the credential once, as the first parameter after
    `?`, followed by the caller's kept pairs; the query value itself holds
    only the caller's pairs.
   */
  lemma GetCredentialInUrl(name: string, args: Arguments, override: Option<string>, c: Client)
    requires !IsPost(Normalize(name))
    requires args.Assoc? ==> NoTypeKey(args.pairs) && Plain(args.pairs)
    requires '&' !in c.apiKey
    ensures var r := Build(name, args, override, c);
            var params := [("key", c.apiKey)] + KeptOf(args);
            && r.verb == Get
            && r.url == Base(Normalize(name), override, c.responseType) + "?" + Implode("&", Render(params))
            && ParseQuery(Implode("&", Render(params))) == params
    ensures args.Assoc? && |args.pairs| > 0 ==>
              Build(name, args, override, c).query == Joined(Implode("&", Render(Kept(args.pairs))))
  {
    var m := Normalize(name);
    var base := Base(m, override, c.responseType);
    BinaryMethodsArePost(m);
    AssembleGet(base, args, c);
    if args.Assoc? {
      KeptPlain(args.pairs);
    }
    GetUrlShape(base, c.apiKey, KeptOf(args));
  }

  /**
    With an empty or non-array argument the query is NULL: on a POST the
    pushed credential is dropped, on a GET the URL ends at `?key=<key>`.
   */
  lemma EmptyArgumentsGiveNullQuery(name: string, args: Arguments, override: Option<string>, c: Client)
    requires args.NotAnArray? || |args.pairs| == 0
    ensures var r := Build(name, args, override, c);
            var base := Base(Normalize(name), override, c.responseType);
            && r.query == Null
            && r.responseType == c.responseType
            && r.url == (if IsPost(Normalize(name)) then base else base + "?key=" + c.apiKey)
  {
  }

  /** A file-carrying method posts the caller's array unchanged; the pushed credential is dropped. */
  lemma BinaryPostsCallerArray(name: string, args: Arguments, override: Option<string>, c: Client)
    requires IsBinary(Normalize(name))
    requires args.Assoc? && |args.pairs| > 0
    ensures var r := Build(name, args, override, c);
            && r.verb == Post
            && r.query == Fields(args.pairs)
            && r.url == Retarget(Base(Normalize(name), override, c.responseType), c.responseType, args.pairs)
  {
    BinaryMethodsArePost(Normalize(name));
  }

  /**
    An override URL is used verbatim: without a `response_type` pair it is
    the whole URL of a POST and the start of the URL of a GET.
   */
  lemma OverrideUrlVerbatim(name: string, args: Arguments, u: string, c: Client)
    requires args.Assoc? ==> NoTypeKey(args.pairs)
    ensures var r := Build(name, args, Some(u), c);
            && u <= r.url
            && (IsPost(Normalize(name)) ==> r.url == u)
  {
    var m := Normalize(name);
    var url0 := if IsPost(m) then u else u + "?key=" + c.apiKey;
    if args.Assoc? && |args.pairs| > 0 {
      RetargetNoop(url0, c.responseType, args.pairs);
    }
  }

  lemma AssembleKeepsPrefix(p: string, post: bool, binary: bool, base: string, args: Arguments, c: Client)
    requires '.' !in p && p <= base
    ensures p <= Assemble(post, binary, base, args, c).url
  {
    var url0 := if post then base else base + "?key=" + c.apiKey;
    assert p <= url0;
    if args.Assoc? && |args.pairs| > 0 {
      RetargetKeepsPrefix(p, url0, c.responseType, args.pairs);
    }
  }

  /** Without an override URL the scheme is `https` exactly for the secure method. */
  lemma SchemeFollowsSecureTable(name: string, args: Arguments, c: Client)
    ensures var r := Build(name, args, None, c);
            && ("https://" <= r.url <==> Normalize(name) == "viddler.users.auth")
            && (Normalize(name) != "viddler.users.auth" ==> "http://" <= r.url)
  {
    var m := Normalize(name);
    var base := Base(m, None, c.responseType);
    var p := Scheme(m) + "://api";
    SecureTable(m);
    DefaultUrlHead(m, c.responseType, "");
    assert DefaultUrl(m, c.responseType) + "" == base;
    AssembleKeepsPrefix(p, IsPost(m), IsBinary(m), base, args, c);
    SchemeHead(m, Build(name, args, None, c).url);
  }

  lemma AssembleRetype(binary: bool, a: string, ps: seq<Pair>, c: Client, i: int)
    requires LastTypeAt(ps, i) && NoTypeKey(ps[..i])
    requires forall j :: 0 <= j < |a| ==> !OccursAt(a + ("." + c.responseType), "." + c.responseType, j)
    ensures var r := Assemble(true, binary, a + ("." + c.responseType), Assoc(ps), c);
            && r.url == a + ("." + ps[i].1)
            && r.responseType == ps[i].1
  {
    var base := a + ("." + c.responseType);
    RetargetSingle(base, c.responseType, ps, i);
    ActiveTypeIsLast(c.responseType, ps);
    StrReplaceSuffix(a, "." + c.responseType, "." + ps[i].1);
  }

  /**
    On a POST without override, a single `response_type=v` pair turns the
    URL's `.<type>` suffix into `.v` and makes `v` the active type, provided
    `.<type>` does not occur earlier in the URL.
   */
  lemma ResponseTypeRewritesSuffix(name: string, ps: seq<Pair>, c: Client, i: int)
    requires IsPost(Normalize(name))
    requires LastTypeAt(ps, i) && NoTypeKey(ps[..i])
    requires var a := Scheme(Normalize(name)) + ApiRoot + Normalize(name);
             forall j :: 0 <= j < |a| ==> !OccursAt(a + ("." + c.responseType), "." + c.responseType, j)
    ensures var r := Build(name, Assoc(ps), None, c);
            && r.url == Scheme(Normalize(name)) + ApiRoot + Normalize(name) + ("." + ps[i].1)
            && r.responseType == ps[i].1
  {
    var m := Normalize(name);
    var a := Scheme(m) + ApiRoot + m;
    assert DefaultUrl(m, c.responseType) == a + ("." + c.responseType);
    AssembleRetype(IsBinary(m), a, ps, c, i);
  }

  /** The one rewrite of a GET URL: the suffix changes and the credential after it is left alone. */
  lemma StrReplaceGetUrl(a: string, pat: string, rep: string, b: string)
    requires |pat| > 0
    requires forall j :: 0 <= j < |a| ==> !OccursAt(a + (pat + b), pat, j)
    requires forall j :: 0 <= j < |b| ==> !OccursAt(b, pat, j)
    ensures StrReplace(a + (pat + b), pat, rep) == a + (rep + b)
  {
    StrReplaceSkip(a, pat + b, pat, rep);
    assert pat <= pat + b;
    assert (pat + b)[|pat|..] == b;
    StrReplaceAbsent(b, pat, rep);
  }

  lemma GetRetarget(a: string, ps: seq<Pair>, c: Client, i: int)
    requires LastTypeAt(ps, i) && NoTypeKey(ps[..i])
    requires var pat, b := "." + c.responseType, "?key=" + c.apiKey;
             && (forall j :: 0 <= j < |a| ==> !OccursAt(a + (pat + b), pat, j))
             && (forall j :: 0 <= j < |b| ==> !OccursAt(b, pat, j))
    ensures Retarget(a + ("." + c.responseType) + "?key=" + c.apiKey, c.responseType, ps)
            == a + ("." + ps[i].1 + "?key=" + c.apiKey)
  {
    var pat, b := "." + c.responseType, "?key=" + c.apiKey;
    var url0 := a + ("." + c.responseType) + "?key=" + c.apiKey;
    assert url0 == a + (pat + b);
    RetargetSingle(url0, c.responseType, ps, i);
    var rep := "." + ps[i].1;
    StrReplaceGetUrl(a, pat, rep, b);
    assert a + (rep + b) == a + ("." + ps[i].1 + "?key=" + c.apiKey);
  }

  /** On a GET the caller's query, if any, is appended after the rewritten URL. */
  lemma AssembleGetTail(base: string, ps: seq<Pair>, c: Client)
    requires |ps| > 0
    ensures var kept := Kept(ps);
            Assemble(false, false, base, Assoc(ps), c).url
              == Retarget(base + "?key=" + c.apiKey, c.responseType, ps)
                 + (if |kept| > 0 then "&" + Implode("&", Render(kept)) else "")
  {
    var kept := Kept(ps);
    assert [] + Render(kept) == Render(kept);
    if |kept| > 0 {
      RenderedNotEmpty(kept);
    }
  }

  lemma AssembleGetRetype(a: string, ps: seq<Pair>, c: Client, i: int)
    requires LastTypeAt(ps, i) && NoTypeKey(ps[..i])
    requires var pat, b := "." + c.responseType, "?key=" + c.apiKey;
             && (forall j :: 0 <= j < |a| ==> !OccursAt(a + (pat + b), pat, j))
             && (forall j :: 0 <= j < |b| ==> !OccursAt(b, pat, j))
    ensures var r := Assemble(false, false, a + ("." + c.responseType), Assoc(ps), c);
            var kept := Kept(ps);
            && r.url == a + ("." + ps[i].1 + "?key=" + c.apiKey)
                          + (if |kept| > 0 then "&" + Implode("&", Render(kept)) else "")
            && r.responseType == ps[i].1
  {
    GetRetarget(a, ps, c, i);
    AssembleGetTail(a + ("." + c.responseType), ps, c);
    ActiveTypeIsLast(c.responseType, ps);
  }

  /**
    On a GET without override, the `response_type` rewrite runs on
    `<endpoint>.<type>?key=<key>` before the caller's query is appended, so
    the appended `k=v` pairs are never rewritten.
   */
  lemma GetRewriteBeforeQuery(name: string, ps: seq<Pair>, c: Client, i: int)
    requires !IsPost(Normalize(name))
    requires LastTypeAt(ps, i) && NoTypeKey(ps[..i])
    requires var a := Scheme(Normalize(name)) + ApiRoot + Normalize(name);
             var pat, b := "." + c.responseType, "?key=" + c.apiKey;
             && (forall j :: 0 <= j < |a| ==> !OccursAt(a + (pat + b), pat, j))
             && (forall j :: 0 <= j < |b| ==> !OccursAt(b, pat, j))
    ensures var r := Build(name, Assoc(ps), None, c);
            var kept := Kept(ps);
            && r.url == Scheme(Normalize(name)) + ApiRoot + Normalize(name) + ("." + ps[i].1 + "?key=" + c.apiKey)
                          + (if |kept| > 0 then "&" + Implode("&", Render(kept)) else "")
            && r.responseType == ps[i].1
  {
    var m := Normalize(name);
    var a := Scheme(m) + ApiRoot + m;
    BinaryMethodsArePost(m);
    assert DefaultUrl(m, c.responseType) == a + ("." + c.responseType);
    AssembleGetRetype(a, ps, c, i);
  }
}
