# phpviddler request builder and retry loop, in Dafny

This project models the core of `Viddler_V2::call` in `phpviddler.php`, the PHP
client for version 2 of the Viddler video API. Every API method is reached
through `__call`, which hands the method name and the positional arguments to
`call()`. That method does the following:

- turns the PHP-style name (`viddler_users_auth`) into the dotted API path
  (`viddler.users.auth`);
- classifies the method with three fixed tables: HTTPS, POST, and binary
  (file upload);
- builds the endpoint `<scheme>://api.viddler.com/api/v2/<method>.<type>`, or
  uses the override URL given as the second positional argument;
- puts the API key in the POST body (`key=<key>` as the first element) or in
  the URL (`?key=<key>`);
- serialises the caller's associative array as `k=v` pairs joined by `&`.
  It drops `response_type` and `api_key`. A `response_type` entry rewrites
  every `.<old type>` in the URL to `.<new type>` and becomes the active type;
- runs a loop of at most `max_attempts` (10) requests. The loop returns the
  first non-empty value. On the final attempt `request()` turns an
  HTTP-level failure (an empty body or a status other than 200) into a
  non-empty error report. When `curl_exec` itself fails on the final
  attempt, the value is NULL and the loop falls through with no result.

The model follows PHP 5. Two places depend on it:

- `@count($args[0])` (line 131) on a missing or non-array argument is
  silenced in PHP 5 and 7, so the NULL-query branch is taken. PHP 8 throws a
  TypeError there instead.
- The final-attempt error value (lines 209-212). `curl_error` is empty
  exactly when `curl_exec` delivered a body. An empty error string becomes
  the array `['response' => '']` on the offset write at line 211, and the
  merge with the transfer info gives a non-empty array. A non-empty error
  message stays a string, and `array_merge` then yields NULL. From PHP 7.1
  the empty-string case no longer becomes an array, and PHP 8 throws at the
  merge.

## Layout

| file | module | what it holds |
|---|---|---|
| `wrappers.dfy` | `Wrappers` | `Option`, for the absent override URL and for `curl_exec` returning false |
| `php_strings.dfy` | `PhpStrings` | PHP's `empty()` on strings, `str_replace` (single-character and general), `implode`. Also the `Split`/`Cut` readers used as their inverse |
| `methods.dfy` | `Methods` | name normalisation, the secure/POST/binary tables, the default endpoint |
| `builder.dfy` | `Builder` | the request datatypes. `Build` is the functional model of lines 59-151. `BuildRequest`/`ScanArguments` is the statement-by-statement version with the `foreach` loop, proved equal to `Build` |
| `builder_lemmas.dfy` | `BuilderLemmas` | where the credential goes, which scheme is used, how `response_type` rewrites the URL, and that the query reads back as the intended pairs |
| `attempts.dfy` | `Attempts` | the return contract of `request()`. `Retry` is the loop as a recursive function, `RetryLoop` is the `for` loop proved equal to it, plus the retry lemmas |
| `api_call.dfy` | `ApiCall` | one whole call: the builder, then the loop with the active response type |

The caller's arguments are an ordered `seq<(string, string)>`: PHP associative
arrays keep insertion order. A sequence can repeat a key, which a PHP array
cannot. The cases with several `response_type` pairs that `ActiveTypeIsLast`
and `Retarget` cover therefore never arise from the source; with one such pair
they give exactly what lines 138-139 do. `NotAnArray` stands for a missing or
non-array first argument. The override URL is an `Option<string>`
(`isset($args[1])`).
The `query` field after building is `Null`, a `Joined` string, or the caller's
`Fields` array. `request()` sends it as the POST body and ignores it for a GET.

The transport is an oracle `nat -> Exchange`, from the attempt number to the
body cURL returned (or `None` when `curl_exec` failed) and the HTTP status.
`unserialize` is an oracle `string -> Value`.

Behaviour of the code that a reader may not expect:

- For a binary method the body is the caller's array itself (line 143). The
  `key=<key>` element pushed at line 125 is discarded. The credential is not
  added to the upload.
- With an empty or non-array argument the query becomes NULL (line 149). A POST
  then carries no key at all.
- A binary method called without a `file` entry is not rejected. There is no
  such check in the code.
- A decoded 'php' response that is empty or `false` (for example an
  `unserialize` failure) is treated like an empty response and retried. The
  code has no separate error for it. If it happens on the last attempt, the loop falls
  through, `call()` returns nothing, and the attempt counter is left at 11.
- The POST table spells one entry `viddler.playslists.setDetails`, so
  `viddler.playlists.setDetails` is sent as a GET (`PlaylistSetDetailsIsGet`).

## Model

| member | source | states |
|---|---|---|
| Methods.DefaultUrl | phpviddler.php:118-122 | definition: `<scheme>://api.viddler.com/api/v2/<method>.<type>`; `SchemeFollowsSecureTable` and `ResponseTypeRewritesSuffix` state its properties |
| Methods.Normalize | phpviddler.php:56-59 | every `_` becomes `.`, every other character is unchanged, the length is the same, and no `_` is left |
| Methods.NormalizeExample | phpviddler.php:56-59 | `viddler_users_auth` normalises to `viddler.users.auth` |
| Methods.NormalizeIdempotent | phpviddler.php:59 | normalising an already normalised name changes nothing |
| Methods.SecureTable | phpviddler.php:64-67 | a method is secure, and its scheme is `https`, exactly when it is `viddler.users.auth`; every other method gets `http` (line 118) |
| Methods.BinaryMethodsArePost | phpviddler.php:108-112 | the binary methods are exactly `viddler.videos.upload` and `viddler.videos.setThumbnail`, and both are also in the POST table (lines 96, 102) |
| Methods.PlaylistSetDetailsIsGet | phpviddler.php:83 | because of the misspelt table entry, `viddler.playlists.setDetails` is not a POST method |
| PhpStrings.StrReplace | phpviddler.php:138 | definition of PHP's `str_replace` (left to right, non-overlapping, empty search leaves the subject); `StrReplaceSkip`, `StrReplaceAbsent`, `StrReplaceSuffix` state its properties |
| PhpStrings.Implode | phpviddler.php:143 | definition of PHP's `implode`; `SplitImplode` gives its inverse |
| PhpStrings.StrReplaceSkip | phpviddler.php:138 | `str_replace` leaves unchanged any prefix in which no occurrence of the search string starts |
| PhpStrings.StrReplaceAbsent | phpviddler.php:138 | `str_replace` is the identity on a string that does not contain the search string |
| PhpStrings.StrReplaceSuffix | phpviddler.php:138 | when the search string occurs only as the suffix, `str_replace` swaps exactly that suffix |
| PhpStrings.SplitImplode | phpviddler.php:143 | splitting an `implode` at its separator gives back the parts, when no part contains the separator |
| PhpStrings.CutJoin | phpviddler.php:134 | a `k=v` element cut at its first `=` gives back `k` and `v` when `k` has no `=` |
| Builder.Build | phpviddler.php:59-151 | definition of the builder as one value; `BuildRequest` is proved equal to it and the `BuilderLemmas` rows state its properties |
| Builder.Assemble | phpviddler.php:124-151 | definition of everything after the table lookups; `PostCredentialInBody`, `GetCredentialInUrl`, `EmptyArgumentsGiveNullQuery`, `BinaryPostsCallerArray` state its properties |
| Builder.Retarget | phpviddler.php:137-140 | definition of the URL after the `response_type` rewrites; `RetargetNoop`, `RetargetSingle`, `RetargetKeepsPrefix` state its properties |
| Builder.ActiveType | phpviddler.php:137-139 | definition of the active type after the loop; `ActiveTypeIsLast` states its property |
| Builder.Kept | phpviddler.php:131-136 | no kept pair has the key `response_type` or `api_key`, and there are never more kept pairs than caller pairs |
| Builder.ActiveTypeIsLast | phpviddler.php:137-140 | the active response type is the value of the last `response_type` pair, or the client's type when there is none |
| Builder.ScanArguments | phpviddler.php:131-141 | one pass of the `foreach` loop leaves the pushed `k=v` elements, the rewritten URL and the active type that the functional model defines |
| Builder.BuildRequest | phpviddler.php:59-151 | the statement-by-statement builder produces exactly the request of the functional model `Build` |
| BuilderLemmas.KeptMembers | phpviddler.php:131-136 | a pair reaches the query exactly when it is one of the caller's pairs and its key is neither `response_type` nor `api_key` |
| BuilderLemmas.KeptSingle | phpviddler.php:133-134 | a single pair contributes itself, once, unless its key is reserved |
| BuilderLemmas.KeptAppend | phpviddler.php:132-136 | filtering distributes over concatenation, so the kept pairs stay in the caller's order |
| BuilderLemmas.RenderedNotEmpty | phpviddler.php:145 | a query with at least one element is never PHP-empty (not "" and not "0"), so a GET appends it |
| BuilderLemmas.ParseRender | phpviddler.php:143 | parsing the `&`-joined `k=v` string gives back exactly the pairs, in order |
| BuilderLemmas.RetargetNoop | phpviddler.php:137-140 | without a `response_type` pair the URL is not rewritten |
| BuilderLemmas.RetargetSingle | phpviddler.php:137-140 | with exactly one `response_type` pair the URL goes through exactly one `str_replace` of `.<old>` by `.<new>` |
| BuilderLemmas.RetargetKeepsPrefix | phpviddler.php:138 | a URL prefix without `.` survives every format rewrite |
| BuilderLemmas.PostCredentialInBody | phpviddler.php:124-143 | a non-binary POST has the verb POST and a URL without the key, and its body reads back as `key=<key>` followed by the caller's non-reserved pairs in order |
| BuilderLemmas.GetCredentialInUrl | phpviddler.php:126-146 | a GET URL is `<base>?` followed by a query that reads back as `key=<key>` and then the caller's non-reserved pairs; the query value holds only the caller's pairs |
| BuilderLemmas.EmptyArgumentsGiveNullQuery | phpviddler.php:148-150 | an empty or non-array argument gives a NULL query and keeps the client's type. A POST URL gets no key and a GET URL ends at `?key=<key>` |
| BuilderLemmas.BinaryPostsCallerArray | phpviddler.php:143 | a binary method is posted with the caller's array unchanged as its body |
| BuilderLemmas.OverrideUrlVerbatim | phpviddler.php:122-128 | with `args[1]` set and no `response_type` pair, the override is the whole URL of a POST and the start of the URL of a GET |
| BuilderLemmas.SchemeFollowsSecureTable | phpviddler.php:118-122 | without an override the URL starts with `https://` exactly for `viddler.users.auth`, and with `http://` otherwise, whatever the arguments |
| BuilderLemmas.ResponseTypeRewritesSuffix | phpviddler.php:137-140 | on a POST without override, one `response_type=v` pair turns the endpoint's `.<type>` into `.v` and makes `v` the active type |
| BuilderLemmas.GetRewriteBeforeQuery | phpviddler.php:137-146 | on a GET the rewrite acts on `<endpoint>.<type>?key=<key>` before the caller's query is appended, so the appended pairs are never rewritten |
| Attempts.IsEmpty | phpviddler.php:157 | definition of PHP's `empty()` on a returned value; `FailureValue` and `NonPhpPassesThrough` state which values are empty |
| Attempts.Failed | phpviddler.php:208 | definition of the failure test: no body, a PHP-empty body, or a status other than 200 |
| Attempts.RequestValue | phpviddler.php:208-217 | definition of the value `request()` returns; `FailureValue` and `NonPhpPassesThrough` state its properties |
| Attempts.NonPhpPassesThrough | phpviddler.php:217 | a successful exchange under any type but 'php' returns its raw body, which is non-empty |
| Attempts.FailureValue | phpviddler.php:208-212 | a failed exchange yields an empty value before the last attempt; on the last attempt its value is non-empty exactly when cURL delivered a body |
| Attempts.Retry | phpviddler.php:154-161 | the loop returns the first non-empty value, resets the counter to 1, and has made exactly as many requests as the attempts it used. If every attempt is empty it returns nothing after `max` requests and leaves the counter at `max + 1` |
| Attempts.RetryLoop | phpviddler.php:154-161 | the `for` loop over the attempt counter gives the same result, counter and request count as `Retry` |
| Attempts.SucceedsOnAttempt | phpviddler.php:154-160 | empty values before attempt N and a non-empty one on N give N's value after exactly N requests |
| Attempts.AlwaysFailing | phpviddler.php:154-161 | a transport that always fails, at the HTTP level on the last attempt, gives `max` requests and the error report of the final attempt |
| Attempts.CurlFailuresExhaust | phpviddler.php:154-161 | a transport that always fails, with `curl_exec` failing on the last attempt, gives `max` requests, no result, and the counter at `max + 1` |
| Attempts.Bounded | phpviddler.php:154-161 | at most `max` requests are made; an HTTP-level failure on the last attempt is still returned, and when `curl_exec` fails on the last attempt any result came from an earlier attempt |
| Attempts.EmptyDecodesExhaust | phpviddler.php:154-161 | if every attempt yields an empty value the loop falls through with no result, after `max` requests, with the counter at `max + 1` |
| ApiCall.Call | phpviddler.php:59-161 | definition of one whole call: `Build`, then `Retry` with the active type; `Invoke` is proved equal to it |
| ApiCall.Invoke | phpviddler.php:59-161 | a whole call makes at most 10 requests and equals building the request, then running the loop with the call's active type |
| ApiCall.FormatOverrideReturnsRawText | phpviddler.php:217 | with a per-call `response_type` other than 'php' (line 139), a successful first exchange is returned as its raw body after one request |
| ApiCall.AlwaysFailingCall | phpviddler.php:154-161 | a call whose transport always fails, at the HTTP level on the tenth attempt, makes 10 requests and returns the tenth attempt's error report |
| ApiCall.CurlFailingCall | phpviddler.php:154-161 | a call whose transport always fails, with `curl_exec` failing on the tenth attempt, makes 10 requests, returns nothing and leaves the counter at 11 |

## Left out

- cURL in `request()` (lines 187-206): network I/O through a foreign library. It is the `transport` oracle, which returns one exchange per attempt.
- `unserialize` (line 217): a foreign decoder. It is the `unserialize` oracle. Only its emptiness matters to the loop.
- The contents of the final attempt's error array (lines 209-212): only whether it is empty matters to the loop, so an HTTP-level failure gives an opaque non-empty `ErrorReport`, and a failed `curl_exec` gives NULL, as PHP 5 does. PHP 7.1 and later behave differently there (see above) and are not modelled.
- `log()` (lines 165-182): file I/O and date formatting.
- `timer()` and the response-time fields (lines 205, 220-224): floating-point wall-clock time.
- The `method_exists` dispatch (line 62): a name without `_` that matches one of the class's own methods (`log`, `request`, `timer`, `call`, in any letter case, since `method_exists` ignores case) is run locally instead of being sent to the API. The model leaves this reflection out, and `Build` treats every name as an API method.
- The constructor (lines 26-31): the client is given as the key string and the response type. A NULL key is the empty string it concatenates as.
- Carry-over between calls of the instance fields `query`, `response_type` and `attempt`: each call starts from the initial field values (lines 13-20).
- Integer array keys and PHP's loose `==` between an integer key and a string: keys are strings here.
- Values that are not strings (files, nested arrays): values are strings, and a binary upload's array is passed on unchanged.
- No URL encoding is done by the source, so pairs whose keys contain `&` or `=`, or whose values contain `&`, do not read back. `ParseRender`, `PostCredentialInBody` and `GetCredentialInUrl` are stated for the other pairs.
- GetCredentialInUrl: stated for calls without a `response_type` pair, because that pair's `str_replace` may also rewrite text inside the key. `GetRewriteBeforeQuery` covers calls with one such pair.
- ResponseTypeRewritesSuffix: stated when `.<type>` occurs in the endpoint only as its suffix, because `str_replace` rewrites every occurrence.
- GetRewriteBeforeQuery: stated when `.<type>` occurs in the endpoint only as its suffix and not in `?key=<key>`, for the same reason.
