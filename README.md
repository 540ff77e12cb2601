# HTTPySim record-and-replay engine in Dafny

HTTPySim is an HTTP simulator with two roles.

- **Proxy mode.** The proxy forwards a GET request upstream and records the exchange as a YAML *template*. A template holds the request, the response and a rule set.
- **Replay mode.** The replay server answers a GET with the response of the first stored template whose rules admit the request. It answers 404 when no template does.

This project models the decision logic of `httpsim.py` with the network, the file system and the YAML library taken out. The model has six parts:

- `wrappers.dfy` (`Wrappers`): the `Option` type, for values that may be absent.
- `strings.dfy` (`Strings`): the Python 2 string operations the engine uses. These are `str.strip()`, `startswith`, the first position of a character, and `'%s' % n` on a non-negative integer.
- `header_lines.dfy` (`HeaderLines`): the three loops that turn raw `Name: value` header lines into a dictionary. One is the replay request filter, one the proxy request filter, one the response filter. `SplitAtColon` is `line.split(':', 1)`. `FilterHeaders` is the loop. `Collect` is the dictionary it must produce. The lemmas state which keys survive, which value each key gets, and how the proxy and replay dictionaries of the same lines differ.
- `templates.dfy` (`Templates`): the template record, including:
  - the rule set as the YAML holds it (each value `None` when absent);
  - how the matcher reads a raw rule value (`match`, empty/absent, or a pattern);
  - the module-level default rules;
  - the record `dump_data` builds;
  - the file name `templates/<host>_<timestamp>.yaml`.
- `matching.dfy` (`Matching`): `get_matching_template` in three forms.
  - `EvaluateTemplate` is the per-template loops with the `matches` flag. `FindMatch` is the scan. Both are proved against the predicate `Matches` and the function `FirstMatch`.
  - A second version (`EvaluateAsWritten`, `FindMatchAsWritten`) follows the code, including the exceptions its diagnostics and the header dictionary raise; an invalid pattern is not among them (see "## Left out"). It carries the defects listed under "## Findings".
  - The rest of the module lists the properties of the verdict.
- `handlers.dfy` (`Handlers`): the parts of the two `do_GET` handlers around the matcher:
  - building the request URL;
  - what `ReplayGet` answers;
  - what `ProxyCapture` records for a fetched exchange.

Things the code calls but that are not modelled appear as parameters:

- `search(p, s)` stands for `re.search(p, s)` finding a match.
- `parse(u)` stands for the scheme, hostname, path and query of `urlparse(u)`.
- The capture time is a `timestamp: nat` argument.
- The upstream's code, response header lines and body are arguments of `ProxyCapture`.

Python strings are byte strings; here they are `seq<char>`, one character per byte.

## Model

| member | source | states |
|---|---|---|
| Strings.TrimLeft | httpsim.py:142 | the result is a suffix of the input, everything cut off is whitespace, and the result does not start with whitespace |
| Strings.TrimRight | httpsim.py:142 | the result is a prefix of the input, everything cut off is whitespace, and the result does not end with whitespace |
| Strings.Strip | httpsim.py:148 | `str.strip()`: the result is no longer than the input and neither starts nor ends with one of Python 2's whitespace bytes |
| Strings.StripTrimsEnds | httpsim.py:148 | the result of `strip()` is the input with a whitespace-only prefix and a whitespace-only suffix cut away, and nothing else removed |
| Strings.StripChangesLeadingSpace | httpsim.py:148 | a value beginning with whitespace, such as ` value` after `Name:`, is changed by `strip()` |
| Strings.FirstIndex | httpsim.py:141 | the position of the first occurrence of a character, or none exactly when the character does not occur |
| Strings.Decimal | httpsim.py:67 | `'%s' % n` is one or more decimal digits that denote `n` (`DigitsValue`), with no leading zero unless `n` is 0 |
| Strings.DecimalInjective | httpsim.py:67 | two different timestamps never format to the same digits, since the digits give the number back |
| HeaderLines.SplitAtColon | httpsim.py:141 | `line.split(':', 1)` gives two parts exactly when the line holds a colon; the line is then name + `:` + rest, with no colon in the name |
| HeaderLines.SplitAtColonOfJoin | httpsim.py:141 | joining a colon-free name and any rest with `:` and splitting again gives both back |
| HeaderLines.Entry | httpsim.py:141-148 | definition: what one line contributes under each of the three filters (no colon: nothing; replay drops `X-` names and strips the value; proxy also drops `Connection`/`User-Agent` and keeps the value raw; response keeps every colon line and strips the value); its properties are the LineRule lemmas |
| HeaderLines.Collect | httpsim.py:139-221 | definition: the dictionary left by inserting each line's entry, in order, into an empty one; what it holds is stated by CollectLastWins |
| HeaderLines.CollectOne | httpsim.py:140-221 | under each of the three filters (lines 140-148, 191-202, 217-221), the dictionary one line leaves is empty or holds just that line's pair |
| HeaderLines.CollectSnoc | httpsim.py:140-221 | under each of the three filters (lines 140-148, 191-202, 217-221), one more line leaves the dictionary as it was, or sets that line's key to its value |
| HeaderLines.EntryOfJoin | httpsim.py:143-201 | a `name:rest` line is dropped by the replay filter (lines 143-148) exactly when the stripped name starts with `X-`, and otherwise gives (name, stripped rest); the proxy filter (lines 194-201) also drops `Connection` and `User-Agent` and keeps rest as it stands |
| HeaderLines.FilterHeaders | httpsim.py:139-221 | the loop that inserts each kept line into an empty dictionary ends with exactly `Collect` of the lines, for each of the three filters (lines 139-148, 190-202, 216-221) |
| HeaderLines.InsertedLastWins | httpsim.py:148 | after inserting a sequence of pairs, a key is present exactly when some pair sets it, and its value is the one from the last pair that sets it |
| HeaderLines.CollectLastWins | httpsim.py:140-221 | under each of the three filters (lines 140-148, 191-202, 217-221), a key is in the filtered dictionary exactly when some line yields it; its value is the one its last such line gives, so later duplicates overwrite earlier ones and no other key is added |
| HeaderLines.EntryNameFiltered | httpsim.py:144-198 | a line either request filter keeps never has an `X-` name (replay at lines 144-145, proxy at 195-196), and a line the proxy keeps never has `Connection` or `User-Agent` as its name (lines 197-198) |
| HeaderLines.ReplayLineRule | httpsim.py:141-148 | a replay line is kept exactly when it has a colon and its stripped name does not start with `X-`; the key is the raw name and the value is stripped |
| HeaderLines.ProxyLineRule | httpsim.py:192-201 | a proxy request line is kept exactly when it has a colon and its stripped name is neither `X-…`, `Connection` nor `User-Agent`; the key is the raw name and the value is kept unstripped |
| HeaderLines.ResponseLineRule | httpsim.py:217-221 | every response line with a colon is kept, whatever its name; the key is the raw name and the value is stripped |
| HeaderLines.ProxyLineAgainstReplay | httpsim.py:192-201 | per line, the proxy keeps a subset of what replay keeps, with the same name; its value strips to replay's, and a line only replay keeps has a `Connection`/`User-Agent` name |
| HeaderLines.InsertedRelated | httpsim.py:201 | the per-line relation between proxy and replay entries carries over to the dictionaries they build |
| HeaderLines.ProxyAgainstReplay | httpsim.py:190-201 | for the same lines, every proxy key is a replay key whose replay value is the stripped proxy value, and the keys only replay holds are `Connection`/`User-Agent` names |
| Templates.RuleOf | httpsim.py:84-90 | `match` is exact equality; an absent or empty value is ignored; any other string is a pattern, carried as written |
| Templates.DefaultRulesAreExact | httpsim.py:26-32 | the default rule set asks for equality on method, headers and all four URI parts |
| Templates.Record | httpsim.py:49-63 | definition: the record `dump_data` builds, with classes `HTTP::Request`/`HTTP::Response`, the URL, an empty request content, the request headers, the method, the code, the body, the response headers and the rule set; RecordMatchesItsRequest states what it is for |
| Templates.MarkedBinary | httpsim.py:231 | definition: the body starts with `!!binary`; ProxyCapture states that exactly those bodies are not recorded |
| Templates.Identifier | httpsim.py:67-69 | a file name starts with `templates/` and ends with `.yaml` |
| Templates.SplitAtLastUnderscore | httpsim.py:69 | `host_digits` splits at its last `_` in one way only |
| Templates.IdentifierInjective | httpsim.py:67-69 | two captures share a file name only when they have the same host and the same timestamp |
| Matching.Matches | httpsim.py:78-116 | definition: the intended verdict, the AND of the headers check, the method check and, when there is a `uri` entry, the four URI checks; its properties are the lemmas below |
| Matching.FirstMatch | httpsim.py:73-122 | definition: the first template, in enumeration order, whose verdict is true; FirstMatchIsFirst states what it returns |
| Matching.EvaluateTemplate | httpsim.py:78-114 | the flag that starts true and is cleared by each failing check is exactly the verdict: every field the rules name passes, and URI parts are checked only when there is a `uri` entry |
| Matching.FirstMatchIsFirst | httpsim.py:73-122 | the scan's answer is none exactly when no template matches, and otherwise the first template that matches |
| Matching.FirstMatchAppend | httpsim.py:73-118 | templates listed earlier take precedence over any listed after them |
| Matching.FindMatch | httpsim.py:72-122 | the loop over the templates returns the first one that matches, or none when the corpus is empty or every template fails |
| Matching.RawRuleVerdict | httpsim.py:84-92 | under `match` a field fails exactly on a difference; an absent or empty rule never fails; any other string fails exactly when the pattern is not found |
| Matching.HeadersExactWholeDict | httpsim.py:84-87 | under `headers: match` any difference between the two whole dictionaries fails the template |
| Matching.HeadersIgnored | httpsim.py:88 | without a headers rule, the request's headers cannot change the verdict |
| Matching.UriUnexaminedWithoutEntry | httpsim.py:94 | without a `uri` entry, neither the request URL nor how URLs are parsed can change the verdict |
| Matching.TighterRulesAdmitLess | httpsim.py:78-116 | adding constraints to a rule set never turns a non-match into a match |
| Matching.DefaultRulesMatchIffEqual | httpsim.py:80-113 | under the default rules a template matches exactly when method, whole header dictionary and parsed URL all agree |
| Matching.RecordMatchesItsRequest | httpsim.py:49-63 | a record dumped with the default rules is matched by a request with the same method, headers and URL, and holds the captured code, headers and body |
| Matching.GeneralAsWritten | httpsim.py:80-92 | definition: the headers/method loop as written, which raises KeyError at the diagnostic for a pattern when there is no `uri` key, then TypeError when the pattern is searched for in the header dictionary; GeneralAsWrittenDecides states its outcome |
| Matching.UriAsWritten | httpsim.py:99-114 | definition: the URI loop as written, which raises AttributeError after a pattern is not found; UriAsWrittenDecides states its outcome |
| Matching.EvaluateAsWritten | httpsim.py:78-116 | definition: the two loops as written, the URI loop only when there is a `uri` entry; AsWrittenAgreesWhenDecided relates it to Matches |
| Matching.FindMatchAsWritten | httpsim.py:73-122 | definition: the scan as written, where an exception from one template ends the whole lookup; ScanAsWrittenAgrees relates it to FirstMatch |
| Matching.GeneralAsWrittenDecides | httpsim.py:80-92 | the headers/method loop as written raises exactly when some field has a pattern and either there is no `uri` key or the field is the header dictionary; otherwise it gives the AND of its checks |
| Matching.UriAsWrittenDecides | httpsim.py:99-114 | the URI loop as written raises exactly when a pattern is not found, and otherwise gives the AND of its checks |
| Matching.AsWrittenAgreesWhenDecided | httpsim.py:78-116 | whenever the matcher as written reaches a verdict, it is the verdict `Matches` states |
| Matching.FailedUriRegexRaises | httpsim.py:110-114 | as written, a `uri.path` pattern that is not found raises AttributeError, where the intended verdict is a plain non-match |
| Matching.AbortedScanHidesLaterMatch | httpsim.py:73-122 | as written, such a template ends the lookup with an exception even though a later template matches; the intended scan returns that later template |
| Matching.FailedUriRegexSkipsTemplate | httpsim.py:112-113 | intended: a URI pattern that is not found fails its template, and the scan's answer is that of the templates after it |
| Matching.MethodRegexWithoutUriRaises | httpsim.py:88-89 | as written, a `method` pattern in a rule set with no `uri` key raises KeyError before the search runs |
| Matching.MethodRegexDecidedBySearch | httpsim.py:88-92 | intended: such a rule set is decided by the headers rule and by searching the method for the pattern |
| Matching.HeadersRegexRaises | httpsim.py:88-90 | as written, a `headers` pattern raises KeyError without a `uri` key and TypeError with one; these are exactly the rule sets `Usable` excludes |
| Matching.ScanAsWrittenAgrees | httpsim.py:73-122 | whenever the scan as written finds a template or finds none, the intended scan gives the same answer |
| Handlers.HostName | httpsim.py:129-131 | the `Host` header's value, or `localhost` when the header is missing or empty |
| Handlers.RequestUrl | httpsim.py:132-135 | the URL is the target itself when the target starts with `http`, and otherwise `http://` + host + target; either way it starts with `http` and ends with the target |
| Handlers.ReplayGet | httpsim.py:128-162 | the replay GET answers 404 exactly when no template matches the request built from the URL and the replay-filtered headers, and otherwise serves the first matching template's code, headers and body |
| Handlers.ProxyCapture | httpsim.py:181-233 | no record is written exactly when the body starts with `!!binary`; otherwise the record goes to `Identifier(host, time)` and holds the built URL, `GET`, the proxy-filtered request headers, the response-filtered headers, the code, the body and the default rules |
| Handlers.RequestKeysFiltered | httpsim.py:144-201 | no request dictionary of either handler holds an `X-` key (replay at lines 144-148, proxy at 195-201), and the proxy's never holds `Connection` or `User-Agent` |
| Handlers.CaptureDropsInternalLine | httpsim.py:195-201 | capturing an `X-` line followed by an ordinary line records just the ordinary header, with its value as it stands |
| Handlers.ProxyCaptureMissesReplay | httpsim.py:201 | a request captured through the proxy with a usual `Name: value` line is not matched under the default rules when the same lines are replayed: the proxy keeps the space, replay strips it |

## Left out

- HTTP server plumbing is left out because it is I/O done by `BaseHTTPServer`. This covers `send_response`, `send_header`, `wfile` writes, `send_error` and `serve_forever`. `ReplayGet` and `ProxyCapture` return what would be sent or written.
- The outbound fetch is left out because it is the network layer. This covers `urllib2.urlopen`, forwarding headers with `req.add_header`, and the `HTTPError` branches. `ProxyCapture` receives the upstream's code, header lines and body.
- `decompress` and its gzip fallback are left out because they are a foreign codec. The body `ProxyCapture` receives is the one after decompression. `decompress` never returns `None`: `struct` is not imported (httpsim.py:24), so when the gzip read fails, evaluating `except struct.error` at httpsim.py:43 raises NameError; the bare `except` at httpsim.py:229 swallows it and the body stays the raw bytes.
- YAML parsing and serialisation, `os.listdir`, `io.open` and `os.makedirs` are left out because they are file I/O and a foreign library. The corpus is a `seq` of parsed templates in listing order.
  - A file that does not parse makes `yaml.load` raise. That ends the whole lookup. This model does not cover that case.
- `time.time()` is left out; the capture time is a parameter.
- The insides of the regular-expression engine and of `urlparse` are left out because they are foreign code. Both are parameters.
  - Lower-casing of the host name by `urlparse` is up to the `parse` parameter.
  - `urlparse`'s hostname is `None` for a URL without a network location. `UrlParts.host` is a string, so this case cannot be expressed. Under `host: match` the code compares `None` values; under a host pattern `re.search(p, None)` raises TypeError at httpsim.py:112. Neither is modelled.
- `print_verbose`, the `StringIO` logging buffers, `argparse`/`main` and the `dump_url_directly` mode are left out as diagnostics and startup glue. The two diagnostics that change behaviour are modelled: both raise, at httpsim.py:89 and httpsim.py:114, see "## Findings".
- The proxy's `static_url` branch at httpsim.py:177-179 is left out because it takes the URL and host from the command line. `ProxyCapture` models the `Host`-header branch.
- Rule values that are not strings are not modelled. The YAML could hold a number, a list, or `uri: null`. Each raw rule value is an optional string, and `uri` is either absent or a mapping.
- Strings.Strip: its own contract states only the length and the two non-space ends. That the result is the input with whitespace cut from both ends is `Strings.StripTrimsEnds`. As an ensures of `Strip` it made every proof that mentions a stripped value too costly.
- `Matching.EvaluateTemplate` requires `Usable`, which excludes a pattern as the `headers` rule. The code would hand the header dictionary to `re.search`, and Python raises a TypeError there. The as-written model includes that outcome, see `Matching.HeadersRegexRaises`.
- `Matching.FindMatch` requires `AllUsable` for the same reason.
- `Handlers.ReplayGet` requires `AllUsable` for the same reason.
- `Handlers.ReplayGet` follows the intended matcher, not the one as written. The exceptions of "## Findings" are not propagated out of the handler.
- An invalid pattern is not modelled: `search` is a total function, so every pattern is taken to compile. In the code `re.search` raises `re.error` for an invalid `method` pattern at httpsim.py:90 or an invalid URI pattern at httpsim.py:112. Nothing catches it, so the whole lookup ends, as with the AttributeError of httpsim.py:114.
- The `Host` header is not derived from the header lines. `ReplayGet` and `ProxyCapture` take `hostHeader` as a separate argument. In the code it is `self.headers.getheader('Host')` on the same message: the stripped value of the last `Host` line, with the name matched case-insensitively. No contract depends on that link.
- The IOError to 404 path (httpsim.py:165-166) is left out because it only arises from file or socket I/O: `yaml.load` of a template file, or a dropped client connection while the response is written (`socket.error` is an IOError). The OSError that `os.listdir` raises at httpsim.py:73 when the `templates` directory is missing is not an IOError, so it escapes the handler instead of giving a 404; that case is not modelled either.
- Header name case is not normalised, as in the code: `Host` and `host` are different keys.

## Findings

| source | as written | input that shows it | evidently intended | confidence | as-written member | corrected member |
|---|---|---|---|---|---|---|
| httpsim.py:114 | After a URI pattern is not found, the code calls `.format(item)` on the `None` that `print_verbose` returns. That raises AttributeError, whether or not verbosity is on. The exception leaves `get_matching_template`, so the templates after it are never tried. | Two templates. The first has rules `uri: {path: '^/a'}`. The second matches the request `GET http://h/b`. | The field fails, the template is skipped, and the scan returns the second template. | not executed | Matching.AbortedScanHidesLaterMatch | Matching.FailedUriRegexSkipsTemplate |
| httpsim.py:89 | Before searching for a `headers`/`method` pattern, the diagnostic reads `rules['uri']`. That raises KeyError when the rule set has no `uri` key. | A template with rules `{method: 'GET'}` and no `uri` key. | The method is searched for the pattern and decides the field. | not executed | Matching.MethodRegexWithoutUriRaises | Matching.MethodRegexDecidedBySearch |
