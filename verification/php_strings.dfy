/**
  The handful of PHP string built-ins the request builder relies on
  (`empty`, `str_replace`, `implode`), written out over `seq<char>`,
  together with the splitting functions that read a serialised query back.
 */
module PhpStrings {

  /** PHP's `empty()` on a string: true for "" and also for "0". */
  predicate PhpEmpty(s: string) {
    s == "" || s == "0"
  }

  /** `str_replace` with single-character search and replacement. */
  function ReplaceChar(s: string, from: char, to: char): (r: string)
    ensures |r| == |s|
    ensures forall i :: 0 <= i < |s| && s[i] == from ==> r[i] == to
    ensures forall i :: 0 <= i < |s| && s[i] != from ==> r[i] == s[i]
  {
    if |s| == 0 then ""
    else [if s[0] == from then to else s[0]] + ReplaceChar(s[1..], from, to)
  }

  /** `pat` occurs in `s` starting at index `i`. */
  predicate OccursAt(s: string, pat: string, i: int) {
    0 <= i && i + |pat| <= |s| && s[i..i + |pat|] == pat
  }

  /**
    `str_replace(search, rep, s)`: scans left to right and replaces every
    non-overlapping occurrence of `search`; an empty `search` leaves `s` alone.
   */
  function StrReplace(s: string, search: string, rep: string): string
    decreases |s|
  {
    if |search| == 0 || |s| == 0 then s
    else if search <= s then rep + StrReplace(s[|search|..], search, rep)
    else [s[0]] + StrReplace(s[1..], search, rep)
  }

  /** A prefix in which no occurrence of `search` starts passes through untouched. */
  lemma {:induction false} StrReplaceSkip(a: string, s: string, search: string, rep: string)
    requires forall i :: 0 <= i < |a| ==> !OccursAt(a + s, search, i)
    ensures StrReplace(a + s, search, rep) == a + StrReplace(s, search, rep)
    decreases |a|
  {
    if |search| == 0 || |a| == 0 {
      assert a + s == s || |search| == 0;
    } else {
      assert !OccursAt(a + s, search, 0);
      assert !(search <= a + s);
      assert (a + s)[1..] == a[1..] + s;
      forall i | 0 <= i < |a[1..]|
        ensures !OccursAt(a[1..] + s, search, i)
      {
        assert !OccursAt(a + s, search, i + 1);
        if i + |search| <= |a[1..] + s| {
          assert (a[1..] + s)[i..i + |search|] == (a + s)[i + 1..i + 1 + |search|];
        }
      }
      StrReplaceSkip(a[1..], s, search, rep);
    }
  }

  /** With no occurrence of `search`, `str_replace` is the identity. */
  lemma StrReplaceAbsent(s: string, search: string, rep: string)
    requires forall i :: 0 <= i < |s| ==> !OccursAt(s, search, i)
    ensures StrReplace(s, search, rep) == s
  {
    assert s + "" == s;
    StrReplaceSkip(s, "", search, rep);
  }

  /**
    When the only occurrence of `search` in `s` is the one that ends it,
    `str_replace` swaps exactly that suffix.
   */
  lemma StrReplaceSuffix(a: string, search: string, rep: string)
    requires |search| > 0
    requires forall i :: 0 <= i < |a| ==> !OccursAt(a + search, search, i)
    ensures StrReplace(a + search, search, rep) == a + rep
  {
    StrReplaceSkip(a, search, search, rep);
    assert search <= search;
    assert search[|search|..] == "";
  }

  /** A prefix free of the first character of `search` is never touched. */
  lemma StrReplaceKeepsPrefix(p: string, s: string, search: string, rep: string)
    requires |search| > 0 && search[0] !in p
    ensures StrReplace(p + s, search, rep) == p + StrReplace(s, search, rep)
  {
    forall i | 0 <= i < |p|
      ensures !OccursAt(p + s, search, i)
    {
      assert (p + s)[i] == p[i];
    }
    StrReplaceSkip(p, s, search, rep);
  }

  /** PHP's `implode(sep, parts)`. */
  function Implode(sep: string, parts: seq<string>): string
  {
    if |parts| == 0 then ""
    else if |parts| == 1 then parts[0]
    else parts[0] + sep + Implode(sep, parts[1..])
  }

  /** Splits `s` at every `c`; the inverse of `Implode` over `c`-free parts. */
  function Split(c: char, s: string): (r: seq<string>)
    ensures |r| >= 1
  {
    if |s| == 0 then [""]
    else
      var tail := Split(c, s[1..]);
      if s[0] == c then [""] + tail
      else [[s[0]] + tail[0]] + tail[1..]
  }

  /** Cuts `s` at its first `c` into the part before and the part after. */
  function Cut(c: char, s: string): (string, string)
  {
    if |s| == 0 then ("", "")
    else if s[0] == c then ("", s[1..])
    else
      var t := Cut(c, s[1..]);
      ([s[0]] + t.0, t.1)
  }

  lemma {:induction false} CutJoin(c: char, k: string, v: string)
    requires c !in k
    ensures Cut(c, k + [c] + v) == (k, v)
    decreases |k|
  {
    if |k| == 0 {
      assert k + [c] + v == [c] + v;
      assert ([c] + v)[1..] == v;
    } else {
      assert (k + [c] + v)[1..] == k[1..] + [c] + v;
      CutJoin(c, k[1..], v);
      assert [k[0]] + k[1..] == k;
    }
  }

  lemma {:induction false} SplitPlain(c: char, p: string)
    requires c !in p
    ensures Split(c, p) == [p]
    decreases |p|
  {
    if |p| > 0 {
      SplitPlain(c, p[1..]);
      assert [p[0]] + p[1..] == p;
    }
  }

  lemma {:induction false} SplitChunk(c: char, p: string, rest: string)
    requires c !in p
    ensures Split(c, p + [c] + rest) == [p] + Split(c, rest)
    decreases |p|
  {
    if |p| == 0 {
      assert p + [c] + rest == [c] + rest;
      assert ([c] + rest)[1..] == rest;
    } else {
      assert (p + [c] + rest)[1..] == p[1..] + [c] + rest;
      SplitChunk(c, p[1..], rest);
      assert [p[0]] + p[1..] == p;
    }
  }

  /** Splitting an imploded list of separator-free parts gives the parts back. */
  lemma {:induction false} SplitImplode(c: char, parts: seq<string>)
    requires |parts| > 0
    requires forall i :: 0 <= i < |parts| ==> c !in parts[i]
    ensures Split(c, Implode([c], parts)) == parts
    decreases |parts|
  {
    if |parts| == 1 {
      SplitPlain(c, parts[0]);
    } else {
      SplitImplode(c, parts[1..]);
      SplitChunk(c, parts[0], Implode([c], parts[1..]));
      assert [parts[0]] + parts[1..] == parts;
    }
  }

  /** The first part of an implode is a prefix of the result. */
  lemma ImplodeHead(sep: string, parts: seq<string>)
    requires |parts| > 0
    ensures parts[0] <= Implode(sep, parts)
  {
  }
}
