/** URL normalisation and the URL templating rules of `buildUrlFromTemplate`
    (extension/background.js). The WHATWG URL parser and serialiser and
    `encodeURIComponent` are outside the model: they are supplied as an
    `UrlApi` value whose functions the model never looks inside. */
module Url {
  import opened Common

  /** The normalised location of a page: `url.origin` and `url.pathname`. */
  datatype Location = Location(origin: string, pathname: string)

  /** The browser's URL facilities.
      - `normalize(s)`: `new URL(s)` followed by reading origin and pathname,
        or None when the constructor throws (normalizeUrlInfo).
      - `withDateParam(base, date)`: `new URL(base)`, `searchParams.set('date', date)`,
        `toString()`, or None when the constructor throws.
      - `encodeComponent`: `encodeURIComponent`. */
  datatype UrlApi = UrlApi(
    normalize: string -> Option<Location>,
    withDateParam: (string, string) -> Option<string>,
    encodeComponent: string -> string)

  /** The literal placeholder of an explicit template. */
  const Placeholder: string := "{{date}}"

  /** `pat` occurs in `s` starting at position `i`. */
  predicate OccursAt(s: string, pat: string, i: nat)
  {
    i + |pat| <= |s| && s[i..i + |pat|] == pat
  }

  /** `s.includes(pat)`. */
  predicate Contains(s: string, pat: string)
  {
    exists i: nat | i <= |s| :: OccursAt(s, pat, i)
  }

  lemma OccursAtShift(s: string, pat: string, i: nat)
    requires |s| > 0
    ensures OccursAt(s[1..], pat, i) <==> OccursAt(s, pat, i + 1)
  {
    if i + 1 + |pat| <= |s| {
      assert s[1..][i..i + |pat|] == s[i + 1..i + 1 + |pat|];
    }
  }

  /** `s.replace(/pat/g, rep)` for a literal pattern: leftmost, non-overlapping occurrences. */
  function ReplaceAll(s: string, pat: string, rep: string): string
    requires |pat| > 0
    decreases |s|
  {
    if |s| < |pat| then s
    else if s[..|pat|] == pat then rep + ReplaceAll(s[|pat|..], pat, rep)
    else [s[0]] + ReplaceAll(s[1..], pat, rep)
  }

  /** Replacing every occurrence of a pattern by itself gives the input back. */
  lemma {:induction false} ReplaceAllSelf(s: string, pat: string)
    requires |pat| > 0
    ensures ReplaceAll(s, pat, pat) == s
    decreases |s|
  {
    if |s| < |pat| {
    } else if s[..|pat|] == pat {
      ReplaceAllSelf(s[|pat|..], pat);
      assert s == s[..|pat|] + s[|pat|..];
    } else {
      ReplaceAllSelf(s[1..], pat);
      assert s == [s[0]] + s[1..];
    }
  }

  /** A string without the pattern is left unchanged. */
  lemma {:induction false} ReplaceAllAbsent(s: string, pat: string, rep: string)
    requires |pat| > 0
    requires !Contains(s, pat)
    ensures ReplaceAll(s, pat, rep) == s
    decreases |s|
  {
    if |s| >= |pat| {
      assert !OccursAt(s, pat, 0);
      assert s[0..0 + |pat|] == s[..|pat|];
      assert !Contains(s[1..], pat) by {
        forall i: nat ensures !OccursAt(s[1..], pat, i) {
          OccursAtShift(s, pat, i);
          assert !OccursAt(s, pat, i + 1);
        }
      }
      ReplaceAllAbsent(s[1..], pat, rep);
      assert s == [s[0]] + s[1..];
    }
  }

  /** A pattern cannot occur where its first character never appears. */
  lemma NotContainsWithoutFirst(s: string, pat: string)
    requires |pat| > 0
    requires forall k :: 0 <= k <= |s| - |pat| ==> s[k] != pat[0]
    ensures !Contains(s, pat)
  {
    forall i: nat | i <= |s| ensures !OccursAt(s, pat, i) {
      if i + |pat| <= |s| {
        assert s[i..i + |pat|][0] == s[i];
      }
    }
  }

  /** The leftmost occurrence is the one replaced: when no occurrence starts
      inside `a`, the first occurrence in `a + pat + b` is the one after `a`. */
  lemma {:induction false} ReplaceAllLeftmost(a: string, pat: string, b: string, rep: string)
    requires |pat| > 0
    requires !Contains(a + pat[..|pat| - 1], pat)
    ensures ReplaceAll(a + pat + b, pat, rep) == a + rep + ReplaceAll(b, pat, rep)
    decreases |a|
  {
    var s := a + pat + b;
    if a == [] {
      assert s == pat + b;
      assert s[..|pat|] == pat;
      assert s[|pat|..] == b;
    } else {
      var w := a + pat[..|pat| - 1];
      NoMatchAtStart(a, pat, b);
      ReplaceAllNoMatch(s, pat, rep);
      assert s[0] == a[0] && s[1..] == a[1..] + pat + b;
      assert a[1..] + pat[..|pat| - 1] == w[1..];
      NotContainsTail(w, pat);
      ReplaceAllLeftmost(a[1..], pat, b, rep);
      ConsRegroup(a, rep, ReplaceAll(b, pat, rep));
    }
  }

  /** Where the pattern does not start the string, its first character is kept. */
  lemma ReplaceAllNoMatch(s: string, pat: string, rep: string)
    requires |pat| > 0 && |s| >= |pat| && s[..|pat|] != pat
    ensures ReplaceAll(s, pat, rep) == [s[0]] + ReplaceAll(s[1..], pat, rep)
  {
  }

  lemma ConsRegroup(a: string, rep: string, y: string)
    requires a != []
    ensures [a[0]] + (a[1..] + rep + y) == a + rep + y
  {
    assert a == [a[0]] + a[1..];
  }

  /** Where no occurrence starts at the front of `a` followed by all but the
      last character of the pattern, none starts at the front of `a + pat + b`. */
  lemma NoMatchAtStart(a: string, pat: string, b: string)
    requires |pat| > 0 && a != []
    requires !Contains(a + pat[..|pat| - 1], pat)
    ensures (a + pat + b)[..|pat|] != pat
  {
    var s := a + pat + b;
    var w := a + pat[..|pat| - 1];
    assert !OccursAt(w, pat, 0);
    assert s[..|pat|] == w[0..|pat|] by {
      forall k | 0 <= k < |pat| ensures s[k] == w[k] {
        if k >= |a| {
          assert s[k] == pat[k - |a|];
          assert w[k] == pat[..|pat| - 1][k - |a|];
        }
      }
    }
  }

  /** A string without the pattern has no occurrence past its first character. */
  lemma NotContainsTail(w: string, pat: string)
    requires |w| > 0 && !Contains(w, pat)
    ensures !Contains(w[1..], pat)
  {
    forall i: nat ensures !OccursAt(w[1..], pat, i) {
      OccursAtShift(w, pat, i);
      assert !OccursAt(w, pat, i + 1);
    }
  }

  /** `/^https?:/i`: the template already names an http or https scheme. */
  predicate HasHttpScheme(t: string)
  {
    && |t| >= 5
    && (t[0] == 'h' || t[0] == 'H') && (t[1] == 't' || t[1] == 'T')
    && (t[2] == 't' || t[2] == 'T') && (t[3] == 'p' || t[3] == 'P')
    && (t[4] == ':' || (|t| >= 6 && (t[4] == 's' || t[4] == 'S') && t[5] == ':'))
  }

  /** `origin.replace(/\/$/, '')`. */
  function DropTrailingSlash(s: string): string
  {
    if |s| > 0 && s[|s| - 1] == '/' then s[..|s| - 1] else s
  }

  /** `template.replace(/^\//, '')`. */
  function DropLeadingSlash(s: string): string
  {
    if |s| > 0 && s[0] == '/' then s[1..] else s
  }

  /** The absolute address of a relative template under a page origin:
      exactly one slash joins the two, whichever of them already had one. */
  function JoinToOrigin(origin: string, template: string): string
  {
    DropTrailingSlash(origin) + "/" + DropLeadingSlash(template)
  }

  /** The joined address does not depend on whether the origin ends with,
      or the template starts with, a slash. */
  lemma JoinToOriginSlashes(o: string, t: string)
    requires |o| == 0 || o[|o| - 1] != '/'
    requires |t| == 0 || t[0] != '/'
    ensures JoinToOrigin(o + "/", t) == o + "/" + t
    ensures JoinToOrigin(o, "/" + t) == o + "/" + t
    ensures JoinToOrigin(o + "/", "/" + t) == o + "/" + t
    ensures JoinToOrigin(o, t) == o + "/" + t
  {
    assert (o + "/")[..|o + "/"| - 1] == o;
    assert ("/" + t)[1..] == t;
  }

  /** The base address that gets a `date` query parameter, or None when a
      relative template has no page origin to resolve against. */
  function BaseAddress(template: string, pageOrigin: string): (r: Option<string>)
    ensures HasHttpScheme(template) ==> r == Some(template)
    ensures !HasHttpScheme(template) && pageOrigin == "" ==> r == None
    ensures !HasHttpScheme(template) && pageOrigin != "" ==> r == Some(JoinToOrigin(pageOrigin, template))
  {
    if HasHttpScheme(template) then Some(template)
    else if pageOrigin == "" then None
    else Some(JoinToOrigin(pageOrigin, template))
  }

  /** `buildUrlFromTemplate(template, dateValue, table)`, with `pageOrigin`
      standing for `table?.page?.origin || ''`. The empty string means
      "no usable address". */
  function BuildUrlFromTemplate(template: string, date: string, pageOrigin: string, api: UrlApi): (r: string)
    ensures template == "" ==> r == ""
    ensures template != "" && Contains(template, Placeholder) ==>
      r == ReplaceAll(template, Placeholder, api.encodeComponent(date))
    ensures template != "" && !Contains(template, Placeholder) && HasHttpScheme(template) ==>
      r == match api.withDateParam(template, date) case Some(u) => u case None => ""
    ensures template != "" && !Contains(template, Placeholder) && !HasHttpScheme(template) && pageOrigin == "" ==>
      r == ""
    ensures template != "" && !Contains(template, Placeholder) && !HasHttpScheme(template) && pageOrigin != "" ==>
      r == match api.withDateParam(JoinToOrigin(pageOrigin, template), date) case Some(u) => u case None => ""
  {
    if template == "" then ""
    else if Contains(template, Placeholder) then
      ReplaceAll(template, Placeholder, api.encodeComponent(date))
    else
      match BaseAddress(template, pageOrigin)
      case None => ""
      case Some(base) =>
        match api.withDateParam(base, date)
        case Some(u) => u
        case None => ""
  }

  /** An explicit template never consults the page origin or the URL parser:
      two hosts that agree on `encodeURIComponent` agree on the result. */
  lemma PlaceholderTemplateIsVerbatim(template: string, date: string, o1: string, o2: string, api1: UrlApi, api2: UrlApi)
    requires template != "" && Contains(template, Placeholder)
    requires api1.encodeComponent(date) == api2.encodeComponent(date)
    ensures BuildUrlFromTemplate(template, date, o1, api1) == BuildUrlFromTemplate(template, date, o2, api2)
  {
  }

  /** An empty template yields no address. */
  lemma EmptyTemplateGivesNothing(date: string, pageOrigin: string, api: UrlApi)
    ensures BuildUrlFromTemplate("", date, pageOrigin, api) == ""
  {
  }

  /** An absolute template without a placeholder is handed to the URL
      serialiser as it is: the page origin plays no part. */
  lemma AbsoluteTemplateIgnoresOrigin(template: string, date: string, o1: string, o2: string, api: UrlApi)
    requires template != "" && !Contains(template, Placeholder) && HasHttpScheme(template)
    ensures BuildUrlFromTemplate(template, date, o1, api) == BuildUrlFromTemplate(template, date, o2, api)
    ensures BuildUrlFromTemplate(template, date, o1, api)
            == match api.withDateParam(template, date) case Some(u) => u case None => ""
  {
  }

  /** A relative template with no page origin yields no address, whatever the URL parser does. */
  lemma RelativeTemplateNeedsOrigin(template: string, date: string, api: UrlApi)
    requires template != "" && !Contains(template, Placeholder) && !HasHttpScheme(template)
    ensures BuildUrlFromTemplate(template, date, "", api) == ""
  {
  }

  /** A template holding one placeholder, and no other brace, is the template
      with the encoded date in place of the placeholder. */
  lemma {:induction false} SinglePlaceholderTemplate(a: string, b: string, date: string, origin: string, api: UrlApi)
    requires '{' !in a && '{' !in b
    ensures BuildUrlFromTemplate(a + Placeholder + b, date, origin, api)
            == a + api.encodeComponent(date) + b
  {
    var t := a + Placeholder + b;
    assert t[|a|..|a| + |Placeholder|] == Placeholder;
    assert OccursAt(t, Placeholder, |a|);
    var w := a + Placeholder[..|Placeholder| - 1];
    NotContainsWithoutFirst(w, Placeholder);
    ReplaceAllLeftmost(a, Placeholder, b, api.encodeComponent(date));
    NotContainsWithoutFirst(b, Placeholder);
    ReplaceAllAbsent(b, Placeholder, api.encodeComponent(date));
  }

  /** Example: `https://x.test/{{date}}/report` with date `2024-01-02`, which
      `encodeURIComponent` leaves as it is, gives `https://x.test/2024-01-02/report`. */
  lemma ExplicitTemplateExample(api: UrlApi, origin: string)
    requires api.encodeComponent("2024-01-02") == "2024-01-02"
    ensures BuildUrlFromTemplate("https://x.test/{{date}}/report", "2024-01-02", origin, api)
            == "https://x.test/2024-01-02/report"
  {
    var a, b := "https://x.test/", "/report";
    ExampleTexts(a, b);
    SinglePlaceholderTemplate(a, b, "2024-01-02", origin, api);
  }

  lemma ExampleTexts(a: string, b: string)
    requires a == "https://x.test/" && b == "/report"
    ensures a + Placeholder + b == "https://x.test/{{date}}/report"
    ensures a + "2024-01-02" + b == "https://x.test/2024-01-02/report"
    ensures '{' !in a && '{' !in b
  {
  }

  /** Example: the relative template `report` under `https://x.test` is the
      base `https://x.test/report`, handed to the URL serialiser with the date. */
  lemma RelativeTemplateExample(api: UrlApi)
    ensures BuildUrlFromTemplate("report", "2024-01-02", "https://x.test", api)
            == match api.withDateParam("https://x.test/report", "2024-01-02") case Some(u) => u case None => ""
  {
    var t := "report";
    NotContainsWithoutFirst(t, Placeholder);
    assert !HasHttpScheme(t);
    assert JoinToOrigin("https://x.test", t) == "https://x.test/report";
  }
}
