/**
  The three loops in httpsim.py that turn raw `Name: value` header lines into
  the dictionary used for matching and for capture: the replay handler's
  request headers, the proxy handler's request headers, and the proxy
  handler's response headers.
 */
module HeaderLines {
  import opened Wrappers
  import opened Strings

  /** A header dictionary as the handlers build it and as a template stores it. */
  type Headers = map<string, string>

  /** `line.split(':', 1)` when it yields two parts. */
  datatype Split = Split(name: string, rest: string)

  datatype Header = Header(name: string, value: string)

  /** Which of the three filtering loops a line passes through. */
  datatype Policy = ReplayRequest | ProxyRequest | ProxyResponse

  /**
    `line.split(':', 1)`: the text before the first colon and the text after
    it, or `None` when there is no colon (Python then returns one part).
   */
  function SplitAtColon(line: string): (r: Option<Split>)
    ensures r.None? <==> ':' !in line
    ensures r.Some? ==> line == r.value.name + ":" + r.value.rest && ':' !in r.value.name
  {
    match FirstIndex(line, ':')
    case None => None
    case Some(k) =>
      assert line == line[..k] + ":" + line[k + 1..];
      Some(Split(line[..k], line[k + 1..]))
  }

  /** Joining a colon-free name and any rest with `:` and splitting again gives both back. */
  lemma SplitAtColonOfJoin(name: string, rest: string)
    requires ':' !in name
    ensures SplitAtColon(name + ":" + rest) == Some(Split(name, rest))
  {
    var line := name + ":" + rest;
    assert line[|name|] == ':';
    var k := FirstIndex(line, ':').value;
    assert line[..|name|] == name;
    assert k == |name|;
    assert line[..k] == name;
    assert line[k + 1..] == rest;
  }

  /** The replay and proxy handlers drop request headers whose stripped name starts with `X-`. */
  predicate Internal(name: string) {
    StartsWith(Strip(name), "X-")
  }

  /** The proxy handler also drops `Connection` and `User-Agent` (compared after stripping). */
  predicate HopOrAgent(name: string) {
    Strip(name) == "Connection" || Strip(name) == "User-Agent"
  }

  /**
    What one header line contributes to the dictionary under a policy. The key
    is always the text before the colon as it stands; the drop tests look at
    that text stripped.
   */
  function Entry(policy: Policy, line: string): Option<Header> {
    match SplitAtColon(line)
    case None => None
    case Some(sp) =>
      match policy
      case ReplayRequest =>
        if Internal(sp.name) then None else Some(Header(sp.name, Strip(sp.rest)))
      case ProxyRequest =>
        if Internal(sp.name) || HopOrAgent(sp.name) then None else Some(Header(sp.name, sp.rest))
      case ProxyResponse =>
        Some(Header(sp.name, Strip(sp.rest)))
  }

  /** `f` applied to each element of `xs`, in order. */
  function MapSeq<A, B>(f: A -> B, xs: seq<A>): (ys: seq<B>)
    ensures |ys| == |xs|
    decreases |xs|
  {
    if xs == [] then [] else MapSeq(f, xs[..|xs| - 1]) + [f(xs[|xs| - 1])]
  }

  lemma {:induction false} MapSeqAt<A, B>(f: A -> B, xs: seq<A>, i: int)
    requires 0 <= i < |xs|
    ensures MapSeq(f, xs)[i] == f(xs[i])
    decreases |xs|
  {
    var n := |xs| - 1;
    if i < n {
      MapSeqAt(f, xs[..n], i);
    }
  }

  lemma MapSeqSnoc<A, B>(f: A -> B, xs: seq<A>, x: A)
    ensures MapSeq(f, xs + [x]) == MapSeq(f, xs) + [f(x)]
  {
    assert (xs + [x])[..|xs|] == xs;
  }

  /** `Entry` under one policy, as a function of the line alone. */
  function EntryOf(policy: Policy): string -> Option<Header> {
    line => Entry(policy, line)
  }

  /** What each line contributes, in order. */
  function Entries(policy: Policy, lines: seq<string>): (es: seq<Option<Header>>)
    ensures |es| == |lines|
  {
    MapSeq(EntryOf(policy), lines)
  }

  /** Entry `i` of `Entries` is what line `i` contributes. */
  lemma EntriesAt(policy: Policy, lines: seq<string>)
    ensures forall i :: 0 <= i < |lines| ==> Entries(policy, lines)[i] == Entry(policy, lines[i])
  {
    forall i | 0 <= i < |lines| {
      MapSeqAt(EntryOf(policy), lines, i);
    }
  }

  /** A dictionary assignment for a kept line; nothing for a dropped one. */
  function Put(d: Headers, e: Option<Header>): Headers {
    match e
    case None => d
    case Some(h) => d[h.name := h.value]
  }

  /** The dictionary that inserting `es` in order into an empty one leaves behind. */
  function Inserted(es: seq<Option<Header>>): Headers
    decreases |es|
  {
    if es == [] then map[] else Put(Inserted(es[..|es| - 1]), es[|es| - 1])
  }

  /** One more entry is one more dictionary assignment, or nothing. */
  lemma InsertedSnoc(es: seq<Option<Header>>, e: Option<Header>)
    ensures Inserted(es + [e]) == Put(Inserted(es), e)
  {
    assert (es + [e])[..|es|] == es;
  }

  /** The dictionary a filtering loop holds once it has seen all of `lines`. */
  function Collect(policy: Policy, lines: seq<string>): Headers {
    Inserted(Entries(policy, lines))
  }

  /** One more line updates the dictionary with what that line contributes, if anything. */
  lemma CollectSnoc(policy: Policy, lines: seq<string>, line: string)
    ensures Collect(policy, lines + [line]) == match Entry(policy, line)
      case None => Collect(policy, lines)
      case Some(h) => Collect(policy, lines)[h.name := h.value]
  {
    MapSeqSnoc(EntryOf(policy), lines, line);
    InsertedSnoc(Entries(policy, lines), EntryOf(policy)(line));
  }

  /** The dictionary a single line leaves behind. */
  lemma CollectOne(policy: Policy, line: string)
    ensures Collect(policy, [line]) == match Entry(policy, line)
      case None => map[]
      case Some(h) => map[h.name := h.value]
  {
    CollectSnoc(policy, [], line);
    assert [] + [line] == [line];
  }

  /** The dictionary after line `i` is the one before it, updated with what line `i` contributes. */
  lemma CollectPrefix(policy: Policy, lines: seq<string>, i: int)
    requires 0 <= i < |lines|
    ensures Collect(policy, lines[..i + 1]) == Put(Collect(policy, lines[..i]), Entry(policy, lines[i]))
  {
    assert lines[..i + 1] == lines[..i] + [lines[i]];
    MapSeqSnoc(EntryOf(policy), lines[..i], lines[i]);
    InsertedSnoc(Entries(policy, lines[..i]), EntryOf(policy)(lines[i]));
  }

  /** A request line whose name passes the filters is kept: its name as key, its value stripped for replay and as it stands for the proxy. */
  lemma EntryOfJoin(name: string, rest: string)
    requires ':' !in name
    ensures Entry(ReplayRequest, name + ":" + rest) ==
      if Internal(name) then None else Some(Header(name, Strip(rest)))
    ensures Entry(ProxyRequest, name + ":" + rest) ==
      if Internal(name) || HopOrAgent(name) then None else Some(Header(name, rest))
  {
    SplitAtColonOfJoin(name, rest);
  }

  /** The filtering loop: each kept line is written into the dictionary in turn. */
  method FilterHeaders(policy: Policy, lines: seq<string>) returns (d: Headers)
    ensures d == Collect(policy, lines)
  {
    d := map[];
    for i := 0 to |lines|
      invariant d == Collect(policy, lines[..i])
    {
      CollectPrefix(policy, lines, i);
      match Entry(policy, lines[i]) {
        case None =>
        case Some(h) => d := d[h.name := h.value];
      }
    }
    assert lines[..|lines|] == lines;
  }

  predicate Sets(e: Option<Header>, k: string) {
    e.Some? && e.value.name == k
  }

  /** Entry `i` is the last one of `es` that sets the key `k`. */
  predicate LastSetter(es: seq<Option<Header>>, k: string, i: int) {
    && 0 <= i < |es|
    && Sets(es[i], k)
    && forall j :: i < j < |es| ==> !Sets(es[j], k)
  }

  lemma {:induction false} InsertedLastWins(es: seq<Option<Header>>, k: string)
    ensures k in Inserted(es) <==> exists i :: 0 <= i < |es| && Sets(es[i], k)
    ensures k in Inserted(es) ==> exists i :: LastSetter(es, k, i) && Inserted(es)[k] == es[i].value.value
    decreases |es|
  {
    if es != [] {
      var n := |es| - 1;
      var init := es[..n];
      InsertedLastWins(init, k);
      assert forall i :: 0 <= i < n ==> init[i] == es[i];
      if Sets(es[n], k) {
        assert LastSetter(es, k, n);
      } else if k in Inserted(init) {
        var i :| LastSetter(init, k, i) && Inserted(init)[k] == init[i].value.value;
        assert LastSetter(es, k, i);
      }
    }
  }

  /** True when `line` sets the key `k` under `policy`. */
  predicate Yields(policy: Policy, line: string, k: string) {
    Entry(policy, line).Some? && Entry(policy, line).value.name == k
  }

  /** Line `i` is the last one of `lines` that sets the key `k`. */
  predicate LastFor(policy: Policy, lines: seq<string>, k: string, i: int) {
    && 0 <= i < |lines|
    && Yields(policy, lines[i], k)
    && forall j :: i < j < |lines| ==> !Yields(policy, lines[j], k)
  }

  /**
    The dictionary holds exactly the keys some line sets, and each key's value
    is the one its last such line gives: a later duplicate overwrites an
    earlier one, and no other key is ever added.
   */
  lemma CollectLastWins(policy: Policy, lines: seq<string>, k: string)
    ensures k in Collect(policy, lines) <==> exists i :: 0 <= i < |lines| && Yields(policy, lines[i], k)
    ensures k in Collect(policy, lines) ==>
      exists i :: LastFor(policy, lines, k, i) && Collect(policy, lines)[k] == Entry(policy, lines[i]).value.value
  {
    var es := Entries(policy, lines);
    EntriesAt(policy, lines);
    InsertedLastWins(es, k);
    assert forall i :: 0 <= i < |lines| ==> (Sets(es[i], k) <==> Yields(policy, lines[i], k));
    if k in Collect(policy, lines) {
      var i :| LastSetter(es, k, i) && Inserted(es)[k] == es[i].value.value;
      assert LastFor(policy, lines, k, i);
    }
  }

  /** What a request filter keeps is never `X-`, and for the proxy never `Connection` or `User-Agent`. */
  lemma EntryNameFiltered(line: string)
    ensures Entry(ReplayRequest, line).Some? ==> !Internal(Entry(ReplayRequest, line).value.name)
    ensures Entry(ProxyRequest, line).Some? ==>
      !Internal(Entry(ProxyRequest, line).value.name) && !HopOrAgent(Entry(ProxyRequest, line).value.name)
  {
    match SplitAtColon(line) {
      case None =>
      case Some(sp) =>
    }
  }

  /** Replay filter, lines 140-148: which lines are kept and what value each stores. */
  lemma ReplayLineRule(line: string)
    ensures Entry(ReplayRequest, line).Some? <==>
      ':' in line && !Internal(SplitAtColon(line).value.name)
    ensures Entry(ReplayRequest, line).Some? ==>
      var h := Entry(ReplayRequest, line).value;
      line == h.name + ":" + line[|h.name| + 1..] && ':' !in h.name && h.value == Strip(line[|h.name| + 1..])
  {
    if ':' in line {
      var sp := SplitAtColon(line).value;
      assert line[|sp.name| + 1..] == sp.rest;
    }
  }

  /** Proxy request filter, lines 191-201: as replay, but also drops two names and keeps the value unstripped. */
  lemma ProxyLineRule(line: string)
    ensures Entry(ProxyRequest, line).Some? <==>
      ':' in line && !Internal(SplitAtColon(line).value.name) && !HopOrAgent(SplitAtColon(line).value.name)
    ensures Entry(ProxyRequest, line).Some? ==>
      var h := Entry(ProxyRequest, line).value;
      line == h.name + ":" + h.value && ':' !in h.name
  {
  }

  /** Response filter, lines 217-221: every line with a colon is kept, its value stripped. */
  lemma ResponseLineRule(line: string)
    ensures Entry(ProxyResponse, line).Some? <==> ':' in line
    ensures Entry(ProxyResponse, line).Some? ==>
      var h := Entry(ProxyResponse, line).value;
      line == h.name + ":" + line[|h.name| + 1..] && ':' !in h.name && h.value == Strip(line[|h.name| + 1..])
  {
    if ':' in line {
      var sp := SplitAtColon(line).value;
      assert line[|sp.name| + 1..] == sp.rest;
    }
  }

  /**
    How one line fares under the proxy's request filter against the replay
    filter: a header the proxy keeps is kept by replay with its value stripped,
    and a header only replay keeps is `Connection` or `User-Agent`.
   */
  predicate Related(p: Option<Header>, r: Option<Header>) {
    match p
    case Some(h) => !HopOrAgent(h.name) && r == Some(Header(h.name, Strip(h.value)))
    case None => r.Some? ==> HopOrAgent(r.value.name)
  }

  lemma ProxyLineAgainstReplay(line: string)
    ensures Related(Entry(ProxyRequest, line), Entry(ReplayRequest, line))
  {
  }

  lemma {:induction false} InsertedRelated(ps: seq<Option<Header>>, rs: seq<Option<Header>>)
    requires |ps| == |rs|
    requires forall i :: 0 <= i < |ps| ==> Related(ps[i], rs[i])
    ensures forall k :: k in Inserted(ps) ==> !HopOrAgent(k)
    ensures forall k :: k in Inserted(ps) ==> k in Inserted(rs) && Inserted(rs)[k] == Strip(Inserted(ps)[k])
    ensures forall k :: k in Inserted(rs) && k !in Inserted(ps) ==> HopOrAgent(k)
    decreases |ps|
  {
    if ps != [] {
      var n := |ps| - 1;
      InsertedRelated(ps[..n], rs[..n]);
      assert Related(ps[n], rs[n]);
    }
  }

  /**
    The proxy's request dictionary against the replay handler's for the same
    lines: the proxy keeps a subset of the keys, and for each of them replay
    holds the proxy's value stripped; the keys only replay holds are the
    `Connection` and `User-Agent` ones.
   */
  lemma ProxyAgainstReplay(lines: seq<string>)
    ensures forall k :: k in Collect(ProxyRequest, lines) ==> !HopOrAgent(k)
    ensures forall k :: k in Collect(ProxyRequest, lines) ==>
      k in Collect(ReplayRequest, lines) && Collect(ReplayRequest, lines)[k] == Strip(Collect(ProxyRequest, lines)[k])
    ensures forall k :: k in Collect(ReplayRequest, lines) && k !in Collect(ProxyRequest, lines) ==> HopOrAgent(k)
  {
    var ps, rs := Entries(ProxyRequest, lines), Entries(ReplayRequest, lines);
    EntriesAt(ProxyRequest, lines);
    EntriesAt(ReplayRequest, lines);
    forall i | 0 <= i < |lines| ensures Related(ps[i], rs[i]) {
      ProxyLineAgainstReplay(lines[i]);
    }
    InsertedRelated(ps, rs);
  }
}
