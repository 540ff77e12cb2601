/**
  The replay side's decision: whether one template's rules admit a request,
  and which template of the corpus answers it (`get_matching_template`).

  The regular-expression engine and `urlparse` are not modelled; the matcher
  receives them as functions. `search(p, s)` stands for `re.search(p, s)`
  finding a match, and `parse(u)` for the four components of `urlparse(u)`
  that the matcher compares.
 */
module Matching {
  import opened Wrappers
  import opened Strings
  import opened HeaderLines
  import opened Templates

  /** The request fields the matcher compares (its `hostname` argument is never read). */
  datatype Request = Request(httpMethod: string, headers: Headers, url: string)

  /** The components of a parsed URL that the matcher compares. */
  datatype UrlParts = UrlParts(scheme: string, host: string, path: string, query: string)

  type Searcher = (string, string) -> bool

  type UrlParser = string -> UrlParts

  // ---------------------------------------------------------------------------
  // The verdict for one template, stated field by field

  /** Whether a text field satisfies its rule: equality, a pattern found in the live value, or nothing. */
  predicate TextHolds(rule: Rule, live: string, captured: string, search: Searcher) {
    match rule
    case Exact => live == captured
    case Regex(p) => search(p, live)
    case Ignore => true
  }

  /**
    The matcher hands a `headers` pattern to `re.search` together with a
    dictionary, which Python rejects; such rule sets are outside the matcher's
    domain.
   */
  predicate Usable(rules: RawRules) {
    !RuleOf(rules.headers).Regex?
  }

  predicate AllUsable(corpus: seq<Template>) {
    forall i :: 0 <= i < |corpus| ==> Usable(corpus[i].rules)
  }

  /** The headers are compared as one whole dictionary, never key by key. */
  predicate HeadersHold(rule: Rule, live: Headers, captured: Headers)
    requires !rule.Regex?
  {
    rule.Exact? ==> live == captured
  }

  predicate UriHolds(u: RawUriRules, live: UrlParts, captured: UrlParts, search: Searcher) {
    && TextHolds(RuleOf(u.host), live.host, captured.host, search)
    && TextHolds(RuleOf(u.path), live.path, captured.path, search)
    && TextHolds(RuleOf(u.scheme), live.scheme, captured.scheme, search)
    && TextHolds(RuleOf(u.queryForm), live.query, captured.query, search)
  }

  /**
    The verdict: the conjunction of every field check the rules ask for. The
    URI's components are looked at only when the rules have a `uri` entry.
   */
  predicate Matches(t: Template, req: Request, search: Searcher, parse: UrlParser)
    requires Usable(t.rules)
  {
    && HeadersHold(RuleOf(t.rules.headers), req.headers, t.request.headers)
    && TextHolds(RuleOf(t.rules.httpMethod), req.httpMethod, t.request.httpMethod, search)
    && (t.rules.uri.Some? ==> UriHolds(t.rules.uri.value, parse(req.url), parse(t.request.uri), search))
  }

  // ---------------------------------------------------------------------------
  // The matcher's loops

  /** A value the matcher compares: a string, or the header dictionary. */
  datatype Value = Text(text: string) | Dict(dict: Headers)

  /** One `(item, value, value_templ)` entry of the matcher's per-field lists, with its rule. */
  datatype Check = Check(rule: Rule, live: Value, captured: Value)

  /** One entry's test; a pattern is only ever applied to a text value. */
  predicate Passes(c: Check, search: Searcher) {
    match c.rule
    case Exact => c.live == c.captured
    case Regex(p) => c.live.Text? && search(p, c.live.text)
    case Ignore => true
  }

  /** The first list: headers, then method. */
  function GeneralChecks(t: Template, req: Request): seq<Check> {
    [Check(RuleOf(t.rules.headers), Dict(req.headers), Dict(t.request.headers)),
     Check(RuleOf(t.rules.httpMethod), Text(req.httpMethod), Text(t.request.httpMethod))]
  }

  /** The second list: host, path, scheme, query. */
  function UriChecks(u: RawUriRules, live: UrlParts, captured: UrlParts): seq<Check> {
    [Check(RuleOf(u.host), Text(live.host), Text(captured.host)),
     Check(RuleOf(u.path), Text(live.path), Text(captured.path)),
     Check(RuleOf(u.scheme), Text(live.scheme), Text(captured.scheme)),
     Check(RuleOf(u.queryForm), Text(live.query), Text(captured.query))]
  }

  /**
    The body of the scan for one template: `matches` starts true and each
    failing check clears it; the URI list runs only when there is a `uri`
    entry. The flag that comes out is the verdict.
   */
  method EvaluateTemplate(t: Template, req: Request, search: Searcher, parse: UrlParser) returns (matches: bool)
    requires Usable(t.rules)
    ensures matches == Matches(t, req, search, parse)
  {
    matches := true;
    var general := GeneralChecks(t, req);
    for i := 0 to |general|
      invariant matches <==> forall j :: 0 <= j < i ==> Passes(general[j], search)
    {
      if !Passes(general[i], search) {
        matches := false;
      }
    }
    if t.rules.uri.Some? {
      var url := parse(req.url);
      var urlTemplate := parse(t.request.uri);
      var checks := UriChecks(t.rules.uri.value, url, urlTemplate);
      for i := 0 to |checks|
        invariant matches <==>
          (forall j :: 0 <= j < |general| ==> Passes(general[j], search)) &&
          (forall j :: 0 <= j < i ==> Passes(checks[j], search))
      {
        if !Passes(checks[i], search) {
          matches := false;
        }
      }
      assert Passes(checks[0], search) && Passes(checks[1], search) && Passes(checks[2], search) && Passes(checks[3], search)
        <==> UriHolds(t.rules.uri.value, url, urlTemplate, search);
    }
    assert Passes(general[0], search) && Passes(general[1], search) <==>
      HeadersHold(RuleOf(t.rules.headers), req.headers, t.request.headers) &&
      TextHolds(RuleOf(t.rules.httpMethod), req.httpMethod, t.request.httpMethod, search);
  }

  // ---------------------------------------------------------------------------
  // The scan over the corpus

  /** The template that answers `req`: the first, in enumeration order, whose verdict is true. */
  function FirstMatch(corpus: seq<Template>, req: Request, search: Searcher, parse: UrlParser): Option<Template>
    requires AllUsable(corpus)
    decreases |corpus|
  {
    if corpus == [] then None
    else if Matches(corpus[0], req, search, parse) then Some(corpus[0])
    else FirstMatch(corpus[1..], req, search, parse)
  }

  /** Template `i` matches and none before it does. */
  predicate IsFirstMatch(corpus: seq<Template>, req: Request, search: Searcher, parse: UrlParser, i: int)
    requires AllUsable(corpus)
  {
    && 0 <= i < |corpus|
    && Matches(corpus[i], req, search, parse)
    && forall j :: 0 <= j < i ==> !Matches(corpus[j], req, search, parse)
  }

  /** FirstMatch finds nothing exactly when no template matches, and otherwise the first that does. */
  lemma {:induction false} FirstMatchIsFirst(corpus: seq<Template>, req: Request, search: Searcher, parse: UrlParser)
    requires AllUsable(corpus)
    ensures FirstMatch(corpus, req, search, parse).None? <==>
      forall i :: 0 <= i < |corpus| ==> !Matches(corpus[i], req, search, parse)
    ensures FirstMatch(corpus, req, search, parse).Some? ==>
      exists i :: IsFirstMatch(corpus, req, search, parse, i) && FirstMatch(corpus, req, search, parse).value == corpus[i]
    decreases |corpus|
  {
    if corpus != [] && !Matches(corpus[0], req, search, parse) {
      var rest := corpus[1..];
      FirstMatchIsFirst(rest, req, search, parse);
      assert forall i :: 0 < i < |corpus| ==> corpus[i] == rest[i - 1];
      if FirstMatch(rest, req, search, parse).Some? {
        var i :| IsFirstMatch(rest, req, search, parse, i) && FirstMatch(rest, req, search, parse).value == rest[i];
        assert IsFirstMatch(corpus, req, search, parse, i + 1);
      }
    } else if corpus != [] {
      assert IsFirstMatch(corpus, req, search, parse, 0);
    }
  }

  /** Templates listed earlier take precedence over every template listed after them. */
  lemma {:induction false} FirstMatchAppend(a: seq<Template>, b: seq<Template>, req: Request, search: Searcher, parse: UrlParser)
    requires AllUsable(a) && AllUsable(b)
    ensures AllUsable(a + b)
    ensures FirstMatch(a + b, req, search, parse) ==
      if FirstMatch(a, req, search, parse).Some? then FirstMatch(a, req, search, parse) else FirstMatch(b, req, search, parse)
    decreases |a|
  {
    if a != [] {
      assert (a + b)[0] == a[0];
      assert (a + b)[1..] == a[1..] + b;
      FirstMatchAppend(a[1..], b, req, search, parse);
    } else {
      assert a + b == b;
    }
  }

  /**
    `get_matching_template`: evaluates the templates in order and returns the
    first whose verdict is true, or nothing when the corpus is empty or every
    template fails.
   */
  method FindMatch(corpus: seq<Template>, req: Request, search: Searcher, parse: UrlParser) returns (found: Option<Template>)
    requires AllUsable(corpus)
    ensures found == FirstMatch(corpus, req, search, parse)
    ensures found.None? <==> forall i :: 0 <= i < |corpus| ==> !Matches(corpus[i], req, search, parse)
    ensures found.Some? ==> exists i :: IsFirstMatch(corpus, req, search, parse, i) && found.value == corpus[i]
  {
    FirstMatchIsFirst(corpus, req, search, parse);
    var i := 0;
    while i < |corpus|
      invariant 0 <= i <= |corpus|
      invariant AllUsable(corpus[i..])
      invariant FirstMatch(corpus[i..], req, search, parse) == FirstMatch(corpus, req, search, parse)
    {
      var matches := EvaluateTemplate(corpus[i], req, search, parse);
      if matches {
        found := Some(corpus[i]);
        return;
      }
      assert corpus[i..][1..] == corpus[i + 1..];
      i := i + 1;
    }
    found := None;
  }

  // ---------------------------------------------------------------------------
  // Properties of the verdict

  /**
    A raw rule value decides its field as the matcher's branches do: `match`
    fails exactly on a difference, an absent or empty value never fails, and
    any other string fails exactly when the pattern is not found in the live
    value.
   */
  lemma RawRuleVerdict(raw: Option<string>, live: string, captured: string, search: Searcher)
    ensures TextHolds(RuleOf(raw), live, captured, search) <==>
      if raw == Some("match") then live == captured
      else if raw == None || raw == Some("") then true
      else search(raw.value, live)
  {
  }

  /** Under `headers: match` any difference between the two dictionaries, in one key or many, fails the template. */
  lemma HeadersExactWholeDict(t: Template, req: Request, search: Searcher, parse: UrlParser)
    requires Usable(t.rules) && RuleOf(t.rules.headers) == Exact
    requires req.headers != t.request.headers
    ensures !Matches(t, req, search, parse)
  {
  }

  /** With no headers rule, the verdict does not depend on the request's headers at all. */
  lemma HeadersIgnored(t: Template, req: Request, other: Headers, search: Searcher, parse: UrlParser)
    requires Usable(t.rules) && RuleOf(t.rules.headers) == Ignore
    ensures Matches(t, req, search, parse) == Matches(t, req.(headers := other), search, parse)
  {
  }

  /**
    Without a `uri` entry the URLs are never examined: neither the request's
    URL nor how URLs are parsed can change the verdict.
   */
  lemma UriUnexaminedWithoutEntry(t: Template, req: Request, url: string, search: Searcher, parse: UrlParser, parse': UrlParser)
    requires Usable(t.rules) && t.rules.uri.None?
    ensures Matches(t, req, search, parse) == Matches(t, req.(url := url), search, parse')
  {
  }

  /** `tight` asks at least what `loose` asks of one field: `loose` ignores it, or both ask the same. */
  predicate Tightens(tight: Option<string>, loose: Option<string>) {
    RuleOf(loose) == Ignore || RuleOf(tight) == RuleOf(loose)
  }

  /** `tight` is `loose` with constraints added: fields given rules, or a `uri` entry added. */
  predicate RulesTighten(tight: RawRules, loose: RawRules) {
    && Tightens(tight.httpMethod, loose.httpMethod)
    && Tightens(tight.headers, loose.headers)
    && (loose.uri.Some? ==>
          && tight.uri.Some?
          && Tightens(tight.uri.value.scheme, loose.uri.value.scheme)
          && Tightens(tight.uri.value.host, loose.uri.value.host)
          && Tightens(tight.uri.value.path, loose.uri.value.path)
          && Tightens(tight.uri.value.queryForm, loose.uri.value.queryForm))
  }

  /** Adding constraints never turns a non-match into a match. */
  lemma TighterRulesAdmitLess(t: Template, tight: RawRules, req: Request, search: Searcher, parse: UrlParser)
    requires Usable(t.rules) && Usable(tight) && RulesTighten(tight, t.rules)
    ensures Matches(t.(rules := tight), req, search, parse) ==> Matches(t, req, search, parse)
  {
  }

  /**
    Under the default rules a template matches exactly the requests that agree
    with it on method, on the whole header dictionary and on the URL's scheme,
    host, path and query.
   */
  lemma DefaultRulesMatchIffEqual(t: Template, req: Request, search: Searcher, parse: UrlParser)
    requires t.rules == DefaultRules
    ensures Usable(t.rules)
    ensures Matches(t, req, search, parse) <==>
      && req.httpMethod == t.request.httpMethod
      && req.headers == t.request.headers
      && parse(req.url) == parse(t.request.uri)
  {
    DefaultRulesAreExact();
  }

  /**
    A record dumped with the default rules answers a later request with the
    same method, header dictionary and URL, and serves back the captured code,
    headers and body.
   */
  lemma RecordMatchesItsRequest(url: string, httpMethod: string, reqHeaders: Headers, respHeaders: Headers,
                                code: int, data: string, search: Searcher, parse: UrlParser)
    ensures var t := Record(url, httpMethod, reqHeaders, respHeaders, code, data, DefaultRules);
      && Usable(t.rules)
      && Matches(t, Request(httpMethod, reqHeaders, url), search, parse)
      && t.response.code == code && t.response.headers == respHeaders && t.response.content == data
  {
    var t := Record(url, httpMethod, reqHeaders, respHeaders, code, data, DefaultRules);
    DefaultRulesMatchIffEqual(t, Request(httpMethod, reqHeaders, url), search, parse);
  }

  // ---------------------------------------------------------------------------
  // The matcher as httpsim.py writes it, with the exceptions its diagnostics
  // and the header dictionary raise

  /**
    The exceptions its diagnostics and the header dictionary raise: KeyError
    and AttributeError from two of the diagnostics, TypeError from handing
    `re.search` the header dictionary. The `re.error` of an invalid pattern and
    the TypeError of a `None` host are not among them.
   */
  datatype Raised = KeyError | AttributeError | TypeError

  datatype Outcome = Decided(matches: bool) | Raises(error: Raised)

  /**
    The first list as written: the diagnostic before each pattern search reads
    `rules['uri']`, which raises when the rule set has no `uri` key; after it,
    a pattern searched for in the header dictionary raises as well.
   */
  function GeneralAsWritten(checks: seq<Check>, uriKeyPresent: bool, matches: bool, search: Searcher): Outcome
    decreases |checks|
  {
    if checks == [] then Decided(matches)
    else if checks[0].rule.Regex? && !uriKeyPresent then Raises(KeyError)
    else if checks[0].rule.Regex? && checks[0].live.Dict? then Raises(TypeError)
    else GeneralAsWritten(checks[1..], uriKeyPresent, matches && Passes(checks[0], search), search)
  }

  /**
    The URI list as written: after a pattern is not found, `.format` is called
    on the `None` that `print_verbose` returns, which raises.
   */
  function UriAsWritten(checks: seq<Check>, matches: bool, search: Searcher): Outcome
    decreases |checks|
  {
    if checks == [] then Decided(matches)
    else if checks[0].rule.Regex? && !Passes(checks[0], search) then Raises(AttributeError)
    else UriAsWritten(checks[1..], matches && Passes(checks[0], search), search)
  }

  function EvaluateAsWritten(t: Template, req: Request, search: Searcher, parse: UrlParser): Outcome {
    match GeneralAsWritten(GeneralChecks(t, req), t.rules.uri.Some?, true, search)
    case Raises(e) => Raises(e)
    case Decided(m) =>
      if t.rules.uri.Some? then
        UriAsWritten(UriChecks(t.rules.uri.value, parse(req.url), parse(t.request.uri)), m, search)
      else
        Decided(m)
  }

  /** What the scan as written ends with: a template, nothing, or an exception that ends the lookup. */
  datatype ScanResult = Found(template: Template) | NoMatch | Aborted(error: Raised)

  function FindMatchAsWritten(corpus: seq<Template>, req: Request, search: Searcher, parse: UrlParser): ScanResult
    decreases |corpus|
  {
    if corpus == [] then NoMatch
    else
      match EvaluateAsWritten(corpus[0], req, search, parse)
      case Raises(e) => Aborted(e)
      case Decided(m) => if m then Found(corpus[0]) else FindMatchAsWritten(corpus[1..], req, search, parse)
  }

  lemma {:induction false} GeneralAsWrittenDecides(checks: seq<Check>, uriKeyPresent: bool, matches: bool, search: Searcher)
    ensures GeneralAsWritten(checks, uriKeyPresent, matches, search).Decided? ==>
      GeneralAsWritten(checks, uriKeyPresent, matches, search).matches ==
        (matches && forall j :: 0 <= j < |checks| ==> Passes(checks[j], search))
    ensures GeneralAsWritten(checks, uriKeyPresent, matches, search).Raises? <==>
      exists j :: 0 <= j < |checks| && checks[j].rule.Regex? && (!uriKeyPresent || checks[j].live.Dict?)
    decreases |checks|
  {
    if checks != [] {
      GeneralAsWrittenDecides(checks[1..], uriKeyPresent, matches && Passes(checks[0], search), search);
      assert forall j :: 0 < j < |checks| ==> checks[j] == checks[1..][j - 1];
      if exists j :: 0 <= j < |checks| && checks[j].rule.Regex? && (!uriKeyPresent || checks[j].live.Dict?) {
        var j :| 0 <= j < |checks| && checks[j].rule.Regex? && (!uriKeyPresent || checks[j].live.Dict?);
        if j > 0 {
          assert checks[1..][j - 1] == checks[j];
        }
      }
    }
  }

  lemma {:induction false} UriAsWrittenDecides(checks: seq<Check>, matches: bool, search: Searcher)
    ensures UriAsWritten(checks, matches, search).Decided? ==>
      UriAsWritten(checks, matches, search).matches ==
        (matches && forall j :: 0 <= j < |checks| ==> Passes(checks[j], search))
    ensures UriAsWritten(checks, matches, search).Raises? <==>
      exists j :: 0 <= j < |checks| && checks[j].rule.Regex? && !Passes(checks[j], search)
    decreases |checks|
  {
    if checks != [] {
      UriAsWrittenDecides(checks[1..], matches && Passes(checks[0], search), search);
      assert forall j :: 0 < j < |checks| ==> checks[j] == checks[1..][j - 1];
      if exists j :: 0 <= j < |checks| && checks[j].rule.Regex? && !Passes(checks[j], search) {
        var j :| 0 <= j < |checks| && checks[j].rule.Regex? && !Passes(checks[j], search);
        if j > 0 {
          assert checks[1..][j - 1] == checks[j];
        }
      }
    }
  }

  /** Whenever the matcher as written reaches a verdict, it is the verdict Matches states. */
  lemma AsWrittenAgreesWhenDecided(t: Template, req: Request, search: Searcher, parse: UrlParser)
    requires Usable(t.rules)
    ensures EvaluateAsWritten(t, req, search, parse).Decided? ==>
      EvaluateAsWritten(t, req, search, parse).matches == Matches(t, req, search, parse)
  {
    var general := GeneralChecks(t, req);
    GeneralAsWrittenDecides(general, t.rules.uri.Some?, true, search);
    if t.rules.uri.Some? {
      var checks := UriChecks(t.rules.uri.value, parse(req.url), parse(t.request.uri));
      var g := GeneralAsWritten(general, true, true, search);
      UriAsWrittenDecides(checks, g.matches, search);
      assert Passes(checks[0], search) && Passes(checks[1], search) && Passes(checks[2], search) && Passes(checks[3], search)
        <==> UriHolds(t.rules.uri.value, parse(req.url), parse(t.request.uri), search);
    }
    assert Passes(general[0], search) && Passes(general[1], search) <==>
      HeadersHold(RuleOf(t.rules.headers), req.headers, t.request.headers) &&
      TextHolds(RuleOf(t.rules.httpMethod), req.httpMethod, t.request.httpMethod, search);
  }

  /** A template whose `uri.path` pattern is not found in the request's path. */
  predicate PathPatternFails(t: Template, req: Request, search: Searcher, parse: UrlParser) {
    && t.rules.uri.Some?
    && RuleOf(t.rules.uri.value.path).Regex?
    && !search(RuleOf(t.rules.uri.value.path).pattern, parse(req.url).path)
  }

  /** As written, a URI pattern that is not found raises instead of failing the field. */
  lemma FailedUriRegexRaises(t: Template, req: Request, search: Searcher, parse: UrlParser)
    requires Usable(t.rules) && PathPatternFails(t, req, search, parse)
    ensures EvaluateAsWritten(t, req, search, parse) == Raises(AttributeError)
    ensures !Matches(t, req, search, parse)
  {
    var general := GeneralChecks(t, req);
    GeneralAsWrittenDecides(general, true, true, search);
    var checks := UriChecks(t.rules.uri.value, parse(req.url), parse(t.request.uri));
    UriAsWrittenDecides(checks, GeneralAsWritten(general, true, true, search).matches, search);
    assert checks[1].rule.Regex? && !Passes(checks[1], search);
  }

  /**
    As written, such a template ends the whole lookup: a matching template
    listed after it is never reached, where the intended scan returns it.
   */
  lemma AbortedScanHidesLaterMatch(t1: Template, t2: Template, req: Request, search: Searcher, parse: UrlParser)
    requires Usable(t1.rules) && PathPatternFails(t1, req, search, parse)
    requires Usable(t2.rules) && Matches(t2, req, search, parse)
    ensures AllUsable([t1, t2])
    ensures FindMatchAsWritten([t1, t2], req, search, parse) == Aborted(AttributeError)
    ensures FirstMatch([t1, t2], req, search, parse) == Some(t2)
  {
    FailedUriRegexRaises(t1, req, search, parse);
    assert [t1, t2][1..] == [t2];
  }

  /** Intended: a URI pattern that is not found fails the template, and the scan goes on to the next one. */
  lemma FailedUriRegexSkipsTemplate(t: Template, rest: seq<Template>, req: Request, search: Searcher, parse: UrlParser)
    requires Usable(t.rules) && PathPatternFails(t, req, search, parse)
    requires AllUsable(rest)
    ensures AllUsable([t] + rest)
    ensures FirstMatch([t] + rest, req, search, parse) == FirstMatch(rest, req, search, parse)
  {
    assert ([t] + rest)[0] == t;
    assert ([t] + rest)[1..] == rest;
  }

  /** As written, a `method` pattern in a rule set without a `uri` key raises, whatever the pattern finds. */
  lemma MethodRegexWithoutUriRaises(t: Template, req: Request, search: Searcher, parse: UrlParser)
    requires Usable(t.rules) && RuleOf(t.rules.httpMethod).Regex? && t.rules.uri.None?
    ensures EvaluateAsWritten(t, req, search, parse) == Raises(KeyError)
  {
    var general := GeneralChecks(t, req);
    var rest := general[1..];
    assert rest[0] == general[1] && rest[0].rule.Regex?;
    assert GeneralAsWritten(rest, false, Passes(general[0], search), search) == Raises(KeyError);
  }

  /** Intended: such a rule set is decided by the headers rule and by searching the method for the pattern. */
  lemma MethodRegexDecidedBySearch(t: Template, req: Request, search: Searcher, parse: UrlParser)
    requires Usable(t.rules) && RuleOf(t.rules.httpMethod).Regex? && t.rules.uri.None?
    ensures Matches(t, req, search, parse) <==>
      HeadersHold(RuleOf(t.rules.headers), req.headers, t.request.headers) &&
      search(t.rules.httpMethod.value, req.httpMethod)
  {
  }

  /**
    As written, a `headers` pattern raises: KeyError from the diagnostic when
    there is no `uri` key, and otherwise TypeError from searching the header
    dictionary. Such rule sets are the ones `Usable` excludes.
   */
  lemma HeadersRegexRaises(t: Template, req: Request, search: Searcher, parse: UrlParser)
    requires RuleOf(t.rules.headers).Regex?
    ensures !Usable(t.rules)
    ensures EvaluateAsWritten(t, req, search, parse) == Raises(if t.rules.uri.Some? then TypeError else KeyError)
  {
    var general := GeneralChecks(t, req);
    assert general[0].rule.Regex? && general[0].live.Dict?;
  }

  /** Whenever the scan as written reaches an answer, it is the answer FirstMatch gives. */
  lemma {:induction false} ScanAsWrittenAgrees(corpus: seq<Template>, req: Request, search: Searcher, parse: UrlParser)
    requires AllUsable(corpus)
    ensures FindMatchAsWritten(corpus, req, search, parse) == NoMatch ==> FirstMatch(corpus, req, search, parse).None?
    ensures FindMatchAsWritten(corpus, req, search, parse).Found? ==>
      FirstMatch(corpus, req, search, parse) == Some(FindMatchAsWritten(corpus, req, search, parse).template)
    decreases |corpus|
  {
    if corpus != [] {
      AsWrittenAgreesWhenDecided(corpus[0], req, search, parse);
      ScanAsWrittenAgrees(corpus[1..], req, search, parse);
    }
  }
}
