/** The not-modified decision of `StaticDir.is_not_modified`
    (webserver/staticdir.py:220-238): a simplified take on the `If-None-Match`
    and `If-Modified-Since` preconditions of sections 3.2 and 3.3 of RFC 7232.

    `email.utils.parsedate` (the HTTP-date grammar of section 7.1.1.1 of
    RFC 7231) is not modelled: it is a parameter `parseDate` from header text
    to the tuple it yields, and the tuples are compared the way Python compares
    tuples. */
module Conditional {
  import opened Wrappers
  import opened Strings

  /** Header values by lower-case name: Starlette's `Headers.get` ignores case. */
  type Headers = map<string, string>

  /** The 9-tuple `email.utils.parsedate` returns. */
  type DateTuple = seq<int>

  /** `headers.get(name)` */
  function Get(h: Headers, name: string): Option<string> {
    if name in h then Some(h[name]) else None
  }

  /** Python's tuple comparison `a >= b`: the first differing element decides,
      and when one tuple is a prefix of the other the longer one is greater. */
  predicate TupleGe(a: seq<int>, b: seq<int>) {
    if a == [] || b == [] then |a| >= |b|
    else if a[0] != b[0] then a[0] > b[0]
    else TupleGe(a[1..], b[1..])
  }

  /** Any two tuples are comparable. */
  lemma {:induction false} TupleGeTotal(a: seq<int>, b: seq<int>)
    ensures TupleGe(a, b) || TupleGe(b, a)
  {
    if a != [] && b != [] && a[0] == b[0] {
      TupleGeTotal(a[1..], b[1..]);
    }
  }

  /** Tuples that are each `>=` the other are equal. */
  lemma {:induction false} TupleGeAntisymmetric(a: seq<int>, b: seq<int>)
    requires TupleGe(a, b) && TupleGe(b, a)
    ensures a == b
  {
    if a != [] && b != [] {
      TupleGeAntisymmetric(a[1..], b[1..]);
      assert a == [a[0]] + a[1..] && b == [b[0]] + b[1..];
    }
  }

  lemma {:induction false} TupleGeTransitive(a: seq<int>, b: seq<int>, c: seq<int>)
    requires TupleGe(a, b) && TupleGe(b, c)
    ensures TupleGe(a, c)
  {
    if a != [] && b != [] && c != [] && a[0] == b[0] && b[0] == c[0] {
      TupleGeTransitive(a[1..], b[1..], c[1..]);
    }
  }

  /** The characters `lstrip('W/ ')` removes. */
  const WeakPrefixChars: set<char> := {'W', '/', ' '}

  function StripAll(parts: seq<string>): (r: seq<string>)
    ensures |r| == |parts|
    ensures forall i :: 0 <= i < |parts| ==> r[i] == Strip(parts[i])
  {
    if parts == [] then [] else [Strip(parts[0])] + StripAll(parts[1..])
  }

  /** `(tag.strip() for tag in header.lstrip('W/ ').split(','))` */
  function Candidates(ifNoneMatch: string): seq<string> {
    StripAll(Split(LStrip(ifNoneMatch, WeakPrefixChars), ','))
  }

  /** `any(tag == etag for tag in tags)` */
  predicate AnyEquals(tags: seq<string>, etag: string) {
    tags != [] && (tags[0] == etag || AnyEquals(tags[1..], etag))
  }

  lemma {:induction false} AnyEqualsIff(tags: seq<string>, etag: string)
    ensures AnyEquals(tags, etag) <==> exists i :: 0 <= i < |tags| && tags[i] == etag
  {
    if tags != [] {
      AnyEqualsIff(tags[1..], etag);
      if exists i :: 0 <= i < |tags| && tags[i] == etag {
        var i :| 0 <= i < |tags| && tags[i] == etag;
        if i > 0 {
          assert tags[1..][i - 1] == etag;
        }
      }
    }
  }

  /** `parsedate(value)`: `None` for an absent or empty header. */
  function ParseDate(value: Option<string>, parseDate: string -> Option<DateTuple>): Option<DateTuple> {
    match value
    case None => None
    case Some(s) => if s == "" then None else parseDate(s)
  }

  /** Python truthiness of what `parsedate` returned. */
  predicate Truthy(d: Option<DateTuple>) {
    d.Some? && d.value != []
  }

  /** The date half of the decision: both dates parse and If-Modified-Since is
      at or after Last-Modified. */
  predicate DatesSayNotModified(request: Headers, response: Headers, parseDate: string -> Option<DateTuple>) {
    var ifModifiedSince := ParseDate(Get(request, "if-modified-since"), parseDate);
    var lastModified := ParseDate(Get(response, "last-modified"), parseDate);
    Truthy(ifModifiedSince) && Truthy(lastModified) && TupleGe(ifModifiedSince.value, lastModified.value)
  }

  /** `StaticDir.is_not_modified(request_headers, response_headers)`: no
      `If-None-Match` or no `ETag` returns false at once; otherwise a matching
      candidate, and failing that the dates, decide. */
  predicate IsNotModified(request: Headers, response: Headers, parseDate: string -> Option<DateTuple>) {
    && "if-none-match" in request
    && "etag" in response
    && (|| AnyEquals(Candidates(request["if-none-match"]), Strip(response["etag"]))
        || DatesSayNotModified(request, response, parseDate))
  }

  /** The whole decision: both validators must be present; then some comma-separated,
      trimmed candidate equal to the trimmed ETag, or else both dates parsing with
      If-Modified-Since at or after Last-Modified, gives "not modified". */
  lemma NotModifiedIff(request: Headers, response: Headers, parseDate: string -> Option<DateTuple>)
    ensures IsNotModified(request, response, parseDate) <==>
      && "if-none-match" in request && "etag" in response
      && var tags, etag := Candidates(request["if-none-match"]), Strip(response["etag"]);
         (exists i :: 0 <= i < |tags| && tags[i] == etag) || DatesSayNotModified(request, response, parseDate)
  {
    if "if-none-match" in request && "etag" in response {
      AnyEqualsIff(Candidates(request["if-none-match"]), Strip(response["etag"]));
    }
  }

  /** Without `If-None-Match` the answer is always "modified": `If-Modified-Since`
      on its own never yields a 304. */
  lemma IfModifiedSinceAloneNeverNotModified(request: Headers, response: Headers, parseDate: string -> Option<DateTuple>)
    requires "if-none-match" !in request
    ensures !IsNotModified(request, response, parseDate)
  {
  }

  /** A matching entity tag decides, whatever the dates say. */
  lemma ETagMatchDecides(request: Headers, response: Headers, parseDate: string -> Option<DateTuple>, i: int)
    requires "if-none-match" in request && "etag" in response
    requires 0 <= i < |Candidates(request["if-none-match"])|
    requires Candidates(request["if-none-match"])[i] == Strip(response["etag"])
    ensures IsNotModified(request, response, parseDate)
  {
    AnyEqualsIff(Candidates(request["if-none-match"]), Strip(response["etag"]));
  }

  /** Without a candidate match, the dates decide. */
  lemma NoETagMatchDatesDecide(request: Headers, response: Headers, parseDate: string -> Option<DateTuple>)
    requires "if-none-match" in request && "etag" in response
    requires forall i :: 0 <= i < |Candidates(request["if-none-match"])| ==>
               Candidates(request["if-none-match"])[i] != Strip(response["etag"])
    ensures IsNotModified(request, response, parseDate) == DatesSayNotModified(request, response, parseDate)
  {
    AnyEqualsIff(Candidates(request["if-none-match"]), Strip(response["etag"]));
  }

  /** A single-tag header without whitespace at its ends: the tag itself, or `W/` and the tag. */
  predicate IsPlainTag(tag: string) {
    tag != [] && ',' !in tag && tag[0] !in WeakPrefixChars
    && tag[0] !in PythonWhitespace && tag[|tag| - 1] !in PythonWhitespace
  }

  lemma PlainTagStrips(tag: string)
    requires IsPlainTag(tag)
    ensures Strip(tag) == tag
  {
  }

  /** `lstrip('W/ ')` works on the whole header, so a weak prefix is dropped
      from a first candidate ... */
  lemma WeakPrefixDroppedFromFirstCandidate(tag: string)
    requires IsPlainTag(tag)
    ensures Candidates("W/" + tag) == [tag]
  {
    var header := "W/" + tag;
    assert header[1..] == "/" + tag && header[1..][1..] == tag;
    assert LStrip(header, WeakPrefixChars) == tag;
    SplitNoSep(tag, ',');
    PlainTagStrips(tag);
  }

  lemma SplitAtOneComma(first: string, second: string)
    requires ',' !in first && ',' !in second
    ensures Split(first + [','] + second, ',') == [first, second]
  {
    SplitPrefixThenSep(first, second, ',');
    SplitNoSep(second, ',');
  }

  lemma StripLeadingSpace(tag: string)
    requires IsPlainTag(tag)
    ensures Strip(" W/" + tag) == "W/" + tag
  {
    var second := " W/" + tag;
    assert second[1..] == "W/" + tag;
    assert LStrip(second, PythonWhitespace) == "W/" + tag;
    assert RStrip("W/" + tag, PythonWhitespace) == "W/" + tag;
  }

  /** ... and kept on any later one, so a weak tag in second place never equals a strong ETag. */
  lemma WeakPrefixKeptOnLaterCandidate(first: string, tag: string)
    requires IsPlainTag(first) && IsPlainTag(tag)
    ensures Candidates(first + ", W/" + tag) == [first, "W/" + tag]
  {
    var header, second := first + ", W/" + tag, " W/" + tag;
    assert header[0] == first[0];
    assert header == first + [','] + second;
    SplitAtOneComma(first, second);
    PlainTagStrips(first);
    StripLeadingSpace(tag);
  }
}
