/**
  The template record that the capture side writes and the replay side reads:
  its rule set as the YAML file holds it, how a raw rule value is read, the
  module-level default rules, the record built by `dump_data`, and the name
  of the file it is written to.
 */
module Templates {
  import opened Wrappers
  import opened Strings
  import opened HeaderLines

  /** How one field is compared at replay time. */
  datatype Rule = Exact | Regex(pattern: string) | Ignore

  /**
    The `uri` entry of a rule set, each value as the YAML file holds it:
    `None` when the key is absent.
   */
  datatype RawUriRules = RawUriRules(scheme: Option<string>, host: Option<string>, path: Option<string>, queryForm: Option<string>)

  /** A template's `rules` dictionary; `uri` is `None` when the key is absent. */
  datatype RawRules = RawRules(httpMethod: Option<string>, headers: Option<string>, uri: Option<RawUriRules>)

  /**
    How the matcher reads a raw rule value: the string `match` asks for
    equality, an absent or empty value leaves the field unchecked, and any
    other string is a pattern to search for.
   */
  function RuleOf(raw: Option<string>): (r: Rule)
    ensures r == Exact <==> raw == Some("match")
    ensures r == Ignore <==> raw == None || raw == Some("")
    ensures r.Regex? <==> raw.Some? && raw.value != "" && raw.value != "match"
    ensures r.Regex? ==> raw == Some(r.pattern)
  {
    match raw
    case None => Ignore
    case Some(v) => if v == "match" then Exact else if v == "" then Ignore else Regex(v)
  }

  /** The module-level default attached to every capture. */
  const DefaultRules: RawRules :=
    RawRules(Some("match"), Some("match"),
             Some(RawUriRules(Some("match"), Some("match"), Some("match"), Some("match"))))

  /** The default asks for equality on every field it names, the URI's four parts included. */
  lemma DefaultRulesAreExact()
    ensures RuleOf(DefaultRules.httpMethod) == Exact && RuleOf(DefaultRules.headers) == Exact
    ensures DefaultRules.uri.Some?
    ensures var u := DefaultRules.uri.value;
      RuleOf(u.scheme) == Exact && RuleOf(u.host) == Exact && RuleOf(u.path) == Exact && RuleOf(u.queryForm) == Exact
  {
  }

  /** The `request` part of a template (`class`, `uri`, `fields.content`, `fields.headers`, `method`). */
  datatype RequestRecord = RequestRecord(className: string, uri: string, content: string, headers: Headers, httpMethod: string)

  /** The `response` part of a template (`class`, `fields.code`, `fields.content`, `fields.headers`). */
  datatype ResponseRecord = ResponseRecord(className: string, code: int, content: string, headers: Headers)

  datatype Template = Template(request: RequestRecord, response: ResponseRecord, rules: RawRules)

  /** The record `dump_data` serialises for one captured exchange. */
  function Record(url: string, httpMethod: string, reqHeaders: Headers, respHeaders: Headers,
                  code: int, data: string, rules: RawRules): Template
  {
    Template(RequestRecord("HTTP::Request", url, "", reqHeaders, httpMethod),
             ResponseRecord("HTTP::Response", code, data, respHeaders),
             rules)
  }

  /** `'templates/%s_%s.yaml' % (hostname, time_now)`, with the capture time passed in. */
  function Identifier(hostname: string, timestamp: nat): (id: string)
    ensures StartsWith(id, "templates/") && EndsWith(id, ".yaml")
  {
    "templates/" + hostname + "_" + Decimal(timestamp) + ".yaml"
  }

  /** A name whose tail after its last `_` has no `_` in it splits at that `_` in one way only. */
  lemma SplitAtLastUnderscore(h1: string, d1: string, h2: string, d2: string)
    requires '_' !in d1 && '_' !in d2
    requires h1 + "_" + d1 == h2 + "_" + d2
    ensures h1 == h2 && d1 == d2
  {
    var s := h1 + "_" + d1;
    assert s[|h1|] == '_' && s[|h2|] == '_';
    assert |d1| == |d2| by {
      if |d1| < |d2| {
        assert false;
      } else if |d2| < |d1| {
        assert false;
      }
    }
    assert h1 == s[..|h1|] == h2;
    assert d1 == s[|h1| + 1..] == d2;
  }

  /**
    Different captures never share a file name unless they have the same host
    and the same timestamp: the name determines both.
   */
  lemma IdentifierInjective(h1: string, t1: nat, h2: string, t2: nat)
    requires Identifier(h1, t1) == Identifier(h2, t2)
    ensures h1 == h2 && t1 == t2
  {
    var id := Identifier(h1, t1);
    var d1, d2 := Decimal(t1), Decimal(t2);
    var m1 := h1 + "_" + d1;
    var m2 := h2 + "_" + d2;
    assert id == "templates/" + m1 + ".yaml";
    assert Identifier(h2, t2) == "templates/" + m2 + ".yaml";
    assert m1 == id[10..|id| - 5] == m2;
    assert '_' !in d1 && '_' !in d2;
    SplitAtLastUnderscore(h1, d1, h2, d2);
    DecimalInjective(t1, t2);
  }

  /** Bodies tagged as binary by the serialiser are never written to a template. */
  predicate MarkedBinary(body: string) {
    StartsWith(body, "!!binary")
  }
}
