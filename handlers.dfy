/**
  The decisions the two request handlers make around the matcher, with the
  HTTP server, the upstream fetch and the file system taken out: the URL a
  request is about, what the replay handler answers, and what the proxy
  handler records.
 */
module Handlers {
  import opened Wrappers
  import opened Strings
  import opened HeaderLines
  import opened Templates
  import opened Matching

  /** The `Host` header's value, or `localhost` when the header is missing or empty. */
  function HostName(hostHeader: Option<string>): (h: string)
    ensures h != ""
    ensures hostHeader.Some? && hostHeader.value != "" ==> h == hostHeader.value
    ensures hostHeader.None? || hostHeader.value == "" ==> h == "localhost"
  {
    match hostHeader
    case None => "localhost"
    case Some(v) => if v == "" then "localhost" else v
  }

  /**
    The URL a request is about: the request target itself when it already
    starts with `http`, otherwise `http://` followed by the host name and the
    target. Either way the URL starts with `http`.
   */
  function RequestUrl(hostHeader: Option<string>, path: string): (url: string)
    ensures StartsWith(url, "http")
    ensures StartsWith(path, "http") ==> url == path
    ensures !StartsWith(path, "http") ==> url == "http://" + HostName(hostHeader) + path && EndsWith(url, path)
  {
    if StartsWith(path, "http") then path
    else
      var url := "http://" + HostName(hostHeader) + path;
      assert url[|url| - |path|..] == path;
      url
  }

  /** What the replay handler sends: the matched template's response, or a 404. */
  datatype Reply = Serve(code: int, headers: Headers, content: string) | NotFound(code: int, message: string)

  /**
    The replay handler's GET: builds the URL and the filtered header
    dictionary, looks for the first matching template and answers with its
    recorded code, headers and body, or with 404 when none matches.
   */
  method ReplayGet(hostHeader: Option<string>, path: string, headerLines: seq<string>,
                   corpus: seq<Template>, search: Searcher, parse: UrlParser) returns (reply: Reply)
    requires AllUsable(corpus)
    ensures var req := Request("GET", Collect(ReplayRequest, headerLines), RequestUrl(hostHeader, path));
      && (reply.NotFound? <==> forall i :: 0 <= i < |corpus| ==> !Matches(corpus[i], req, search, parse))
      && (reply.NotFound? ==> reply.code == 404)
      && (reply.Serve? ==>
            exists i :: IsFirstMatch(corpus, req, search, parse, i) &&
              reply == Serve(corpus[i].response.code, corpus[i].response.headers, corpus[i].response.content))
  {
    var url := RequestUrl(hostHeader, path);
    var dictHeaders := FilterHeaders(ReplayRequest, headerLines);
    var matched := FindMatch(corpus, Request("GET", dictHeaders, url), search, parse);
    match matched {
      case Some(t) =>
        reply := Serve(t.response.code, t.response.headers, t.response.content);
      case None =>
        reply := NotFound(404, "no matching template found");
    }
  }

  /** A template to be written, and the file name it is written under. */
  datatype Dump = Dump(path: string, template: Template)

  /**
    The proxy handler's capture, given what the upstream fetch returned: the
    request headers pass the proxy filter, the response headers the response
    filter, the default rules are attached, and the record is named after the
    host and the capture time; a body marked as binary is not recorded.
   */
  method ProxyCapture(hostHeader: Option<string>, path: string, requestLines: seq<string>,
                      code: int, responseLines: seq<string>, body: string, timestamp: nat)
    returns (dump: Option<Dump>)
    ensures dump.None? <==> MarkedBinary(body)
    ensures dump.Some? ==> dump.value.path == Identifier(HostName(hostHeader), timestamp)
    ensures dump.Some? ==>
      dump.value.template == Record(RequestUrl(hostHeader, path), "GET", Collect(ProxyRequest, requestLines),
                                    Collect(ProxyResponse, responseLines), code, body, DefaultRules)
  {
    var hostname := HostName(hostHeader);
    var url := RequestUrl(hostHeader, path);
    var reqHeaders := FilterHeaders(ProxyRequest, requestLines);
    var respHeaders := FilterHeaders(ProxyResponse, responseLines);
    if StartsWith(body, "!!binary") {
      dump := None;
    } else {
      dump := Some(Dump(Identifier(hostname, timestamp), Record(url, "GET", reqHeaders, respHeaders, code, body, DefaultRules)));
    }
  }

  /**
    Neither handler ever puts an `X-` header into a request dictionary, and the
    proxy never records `Connection` or `User-Agent`.
   */
  lemma RequestKeysFiltered(lines: seq<string>)
    ensures forall k :: k in Collect(ReplayRequest, lines) ==> !Internal(k)
    ensures forall k :: k in Collect(ProxyRequest, lines) ==> !Internal(k) && !HopOrAgent(k)
  {
    forall k | k in Collect(ReplayRequest, lines) ensures !Internal(k) {
      CollectLastWins(ReplayRequest, lines, k);
      var i :| 0 <= i < |lines| && Yields(ReplayRequest, lines[i], k);
      EntryNameFiltered(lines[i]);
    }
    forall k | k in Collect(ProxyRequest, lines) ensures !Internal(k) && !HopOrAgent(k) {
      CollectLastWins(ProxyRequest, lines, k);
      var i :| 0 <= i < |lines| && Yields(ProxyRequest, lines[i], k);
      EntryNameFiltered(lines[i]);
    }
  }

  /** An `X-` line followed by an ordinary one: the proxy records the second and not the first. */
  lemma CaptureDropsInternalLine(internal: string, v1: string, name: string, v2: string)
    requires ':' !in internal && Internal(internal)
    requires ':' !in name && !Internal(name) && !HopOrAgent(name)
    ensures Collect(ProxyRequest, [internal + ":" + v1, name + ":" + v2]) == map[name := v2]
  {
    var first, second := internal + ":" + v1, name + ":" + v2;
    assert Collect(ProxyRequest, [first]) == map[] by {
      EntryOfJoin(internal, v1);
      CollectOne(ProxyRequest, first);
    }
    assert Entry(ProxyRequest, second) == Some(Header(name, v2)) by {
      EntryOfJoin(name, v2);
    }
    CollectSnoc(ProxyRequest, [first], second);
    assert [first] + [second] == [first, second];
  }

  /**
    Recording a request through the proxy and replaying the same request does
    not give a match under the default rules when a header line is written the
    usual way, `Name: value`: the proxy keeps the space after the colon, the
    replay handler strips it, and the two header dictionaries differ.
   */
  lemma ProxyCaptureMissesReplay(name: string, value: string, url: string, respHeaders: Headers,
                                 code: int, body: string, search: Searcher, parse: UrlParser)
    requires ':' !in name && !Internal(name) && !HopOrAgent(name)
    requires value != [] && IsSpace(value[0])
    ensures var lines := [name + ":" + value];
      var t := Record(url, "GET", Collect(ProxyRequest, lines), respHeaders, code, body, DefaultRules);
      && Usable(t.rules)
      && !Matches(t, Request("GET", Collect(ReplayRequest, lines), url), search, parse)
  {
    var line := name + ":" + value;
    EntryOfJoin(name, value);
    CollectOne(ProxyRequest, line);
    CollectOne(ReplayRequest, line);
    StripChangesLeadingSpace(value);
    assert Collect(ProxyRequest, [line]) != Collect(ReplayRequest, [line]) by {
      assert Collect(ProxyRequest, [line])[name] == value;
      assert Collect(ReplayRequest, [line])[name] == Strip(value);
    }
    var t := Record(url, "GET", Collect(ProxyRequest, [line]), respHeaders, code, body, DefaultRules);
    DefaultRulesMatchIffEqual(t, Request("GET", Collect(ReplayRequest, [line]), url), search, parse);
  }
}
