/**
 * One crawl (`start_crawling_job(url, depth)`) and the tree of crawls it
 * starts. The network, the deduplication ledger and the HTML parser are
 * inputs: `Web` says whether `urlparse` raises on a URL, what each fetch of
 * a URL returns for each user agent, what the recency check answers for each
 * URL and, through the response body, which anchor hrefs the parser finds.
 * Each URL gets one recency answer and one fetch result per agent for the
 * whole tree, so a URL visited twice in one tree is treated alike both times.
 *
 * The children of a page are crawled one after the other in link order;
 * what a crawl does is recorded as a log of events: each invocation, each
 * fetch attempt and each store call.
 */
module Crawl {
  import opened Text
  import opened Timestamps
  import opened JsonValue
  import opened Storage
  import opened Maybe

  /** The deepest level that is still fetched. */
  const MaxDepth := 5

  /** `DefaultAgent` is the plain request; `BrowserAgent` the retry with a browser User-Agent header. */
  datatype Agent = DefaultAgent | BrowserAgent

  /** What the HTML parser makes of a body: it raises, or it finds these `<a href>` values in document order. */
  datatype Html = Unparseable | Anchors(hrefs: seq<string>)

  /** A response: its status, its content-type header ("" when the header is missing) and its body. */
  datatype Response = Response(status: int, contentType: string, body: Html)

  /** A fetch raises (network error, timeout) or returns a response. */
  datatype Fetch = Raised | Got(response: Response)

  /** What `is_recently_crawled` does for a URL: answers false, answers true, or raises. */
  datatype DedupAnswer = NotRecent | Recent | LookupRaised

  /**
   * `parseRaises` picks the URLs on which `urlparse` raises ValueError (an
   * unbalanced '[' or ']' in the network location, an invalid bracketed
   * host, a network location that normalises to a delimiter).
   */
  datatype Web = Web(parseRaises: string -> bool, fetch: (string, Agent) -> Fetch, dedup: string -> DedupAnswer)

  // ---------------------------------------------------------------------
  // The scheme check: `urlparse(url).scheme in ('http', 'https')`.
  // ---------------------------------------------------------------------

  /** C0 control characters and space, which `urlsplit` strips from the front of a URL. */
  predicate IsC0OrSpace(c: char) {
    c <= ' '
  }

  /** Tab, carriage return and line feed, which `urlsplit` deletes anywhere in a URL. */
  predicate IsUnsafe(c: char) {
    c == '\t' || c == '\r' || c == '\n'
  }

  function LStripC0(s: string): (r: string)
    ensures r == [] || !IsC0OrSpace(r[0])
    ensures EndsWith(s, r)
  {
    if s != [] && IsC0OrSpace(s[0]) then
      var r := LStripC0(s[1..]);
      assert s[1..][|s| - 1 - |r|..] == s[|s| - |r|..];
      r
    else s
  }

  function RemoveUnsafe(s: string): string {
    if s == [] then []
    else if IsUnsafe(s[0]) then RemoveUnsafe(s[1..])
    else [s[0]] + RemoveUnsafe(s[1..])
  }

  /** The URL as `urlsplit` sees it before looking for the scheme. */
  function Clean(url: string): string {
    RemoveUnsafe(LStripC0(url))
  }

  predicate IsAsciiLetter(c: char) {
    'a' <= c <= 'z' || 'A' <= c <= 'Z'
  }

  /** The characters a scheme may hold: ASCII letters and digits, '+', '-' and '.'. */
  predicate IsSchemeChar(c: char) {
    IsAsciiLetter(c) || '0' <= c <= '9' || c == '+' || c == '-' || c == '.'
  }

  function LowerChar(c: char): char {
    if 'A' <= c <= 'Z' then (c as int + 32) as char else c
  }

  /** `str.lower()` on ASCII text. */
  function Lower(s: string): string {
    if s == [] then [] else [LowerChar(s[0])] + Lower(s[1..])
  }

  lemma {:induction false} LowerPointwise(s: string)
    ensures |Lower(s)| == |s|
    ensures forall k :: 0 <= k < |s| ==> Lower(s)[k] == LowerChar(s[k])
    decreases |s|
  {
    if s != [] {
      LowerPointwise(s[1..]);
    }
  }

  /** The index of the first ':' in `s`, or `|s|` when there is none. */
  function ColonIndex(s: string): nat {
    if s == [] then 0
    else if s[0] == ':' then 0
    else 1 + ColonIndex(s[1..])
  }

  lemma {:induction false} ColonIndexFirst(s: string)
    ensures ColonIndex(s) <= |s|
    ensures ColonIndex(s) < |s| ==> s[ColonIndex(s)] == ':'
    ensures forall k :: 0 <= k < ColonIndex(s) ==> s[k] != ':'
    decreases |s|
  {
    if s != [] && s[0] != ':' {
      ColonIndexFirst(s[1..]);
    }
  }

  /** The length of the leading run of scheme characters of `s`. */
  function SchemeRun(s: string): nat {
    if s != [] && IsSchemeChar(s[0]) then 1 + SchemeRun(s[1..]) else 0
  }

  /**
   * `urlparse(url).scheme`: the text before the first ':', lower-cased, when
   * it is non-empty, starts with an ASCII letter and holds only scheme
   * characters (see `SchemeRunFindsFirstColon`); otherwise empty.
   */
  function UrlScheme(url: string): string {
    var s := Clean(url);
    var i := SchemeRun(s);
    if 0 < i < |s| && s[i] == ':' && IsAsciiLetter(s[0]) then Lower(s[..i]) else ""
  }

  lemma {:induction false} SchemeRunFacts(s: string)
    ensures SchemeRun(s) <= |s|
    ensures forall k :: 0 <= k < SchemeRun(s) ==> IsSchemeChar(s[k])
    ensures SchemeRun(s) < |s| ==> !IsSchemeChar(s[SchemeRun(s)])
    decreases |s|
  {
    if s != [] && IsSchemeChar(s[0]) {
      SchemeRunFacts(s[1..]);
    }
  }

  /**
   * The run of scheme characters ends at a ':' exactly when the first ':'
   * is preceded only by scheme characters, and both then end at the same
   * place: the leading-run formulation is the find-first-colon rule of
   * `urlsplit`.
   */
  lemma SchemeRunFindsFirstColon(s: string)
    ensures var i := ColonIndex(s);
            (i < |s| && forall k :: 0 <= k < i ==> IsSchemeChar(s[k]))
            <==> (SchemeRun(s) < |s| && s[SchemeRun(s)] == ':')
    ensures SchemeRun(s) < |s| && s[SchemeRun(s)] == ':' ==> ColonIndex(s) == SchemeRun(s)
  {
    SchemeRunFacts(s);
    ColonIndexFirst(s);
    var i, r := ColonIndex(s), SchemeRun(s);
    if i < |s| && forall k :: 0 <= k < i ==> IsSchemeChar(s[k]) {
      assert !IsSchemeChar(s[i]);
    }
    if r < |s| && s[r] == ':' {
      assert forall k :: 0 <= k < r ==> s[k] != ':';
      ColonIndexAt(s, r);
    }
  }

  predicate SchemeOk(url: string) {
    UrlScheme(url) == "http" || UrlScheme(url) == "https"
  }

  /**
   * A URL passes the scheme check exactly when, after the cleaning
   * `urlsplit` does and ignoring ASCII case, it starts with "http:" or
   * "https:".
   */
  lemma SchemeOkMeansHttpPrefix(url: string)
    ensures SchemeOk(url) <==> StartsWith(Lower(Clean(url)), "http:") || StartsWith(Lower(Clean(url)), "https:")
  {
    if SchemeOk(url) {
      SchemeIsPrefix(url);
    }
    if StartsWith(Lower(Clean(url)), "http:") || StartsWith(Lower(Clean(url)), "https:") {
      HttpPrefixIsScheme(url);
    }
  }

  lemma HttpPrefixIsScheme(url: string)
    requires StartsWith(Lower(Clean(url)), "http:") || StartsWith(Lower(Clean(url)), "https:")
    ensures SchemeOk(url)
  {
    var low := Lower(Clean(url));
    if StartsWith(low, "http:") {
      PrefixIsScheme(url, "http", "http:");
    } else {
      PrefixIsScheme(url, "https", "https:");
    }
  }

  lemma SchemeIsPrefix(url: string)
    requires SchemeOk(url)
    ensures StartsWith(Lower(Clean(url)), "http:") || StartsWith(Lower(Clean(url)), "https:")
  {
    var s := Clean(url);
    var i := SchemeRun(s);
    LowerUpToColon(s, i);
    assert Lower(s)[..i + 1] == UrlScheme(url) + ":";
  }

  /** Lower-casing the text up to a ':' keeps the ':' in place. */
  lemma LowerUpToColon(s: string, i: int)
    requires 0 <= i < |s| && s[i] == ':'
    ensures |Lower(s)| == |s| && Lower(s)[..i + 1] == Lower(s[..i]) + ":"
  {
    var low := Lower(s);
    LowerPointwise(s);
    LowerPointwise(s[..i]);
    forall k | 0 <= k < i + 1
      ensures low[k] == (Lower(s[..i]) + ":")[k]
    {
      if k < i {
        assert s[..i][k] == s[k];
      }
    }
  }

  lemma PrefixIsScheme(url: string, name: string, withColon: string)
    requires name == "http" || name == "https"
    requires withColon == name + ":"
    requires StartsWith(Lower(Clean(url)), withColon)
    ensures UrlScheme(url) == name
  {
    var s := Clean(url);
    var low := Lower(s);
    var n := |name|;
    LowerPointwise(s);
    LowerPointwise(s[..n]);
    assert low[n] == withColon[n] == ':';
    assert s[n] == ':';
    forall k | 0 <= k < n
      ensures low[k] == name[k] && IsAsciiLetter(low[k])
    {
      assert low[k] == withColon[k];
    }
    forall k | 0 <= k < n
      ensures s[k] != ':' && IsSchemeChar(s[k])
    {
      assert low[k] == LowerChar(s[k]);
    }
    SchemeRunAt(s, n);
    assert IsAsciiLetter(s[0]);
    assert Lower(s[..n]) == name by {
      forall k | 0 <= k < n
        ensures Lower(s[..n])[k] == name[k]
      {
        assert s[..n][k] == s[k];
      }
    }
  }

  lemma SchemeRunAt(s: string, n: nat)
    requires n < |s| && !IsSchemeChar(s[n]) && forall k :: 0 <= k < n ==> IsSchemeChar(s[k])
    ensures SchemeRun(s) == n
  {
    SchemeRunFacts(s);
  }

  lemma ColonIndexAt(s: string, n: nat)
    requires n < |s| && s[n] == ':' && forall k :: 0 <= k < n ==> s[k] != ':'
    ensures ColonIndex(s) == n
  {
    ColonIndexFirst(s);
  }

  lemma {:induction false} RemoveUnsafeAppend(a: string, b: string)
    ensures RemoveUnsafe(a + b) == RemoveUnsafe(a) + RemoveUnsafe(b)
    decreases |a|
  {
    if a == [] {
      assert a + b == b;
    } else {
      assert (a + b)[1..] == a[1..] + b;
      RemoveUnsafeAppend(a[1..], b);
    }
  }

  /** A URL whose first character is neither stripped nor deleted nor an ASCII letter has no scheme. */
  lemma NoLetterNoScheme(url: string)
    requires url != [] && !IsC0OrSpace(url[0]) && !IsUnsafe(url[0]) && !IsAsciiLetter(url[0])
    ensures UrlScheme(url) == "" && !SchemeOk(url)
  {
    assert url == [url[0]] + url[1..];
    RemoveUnsafeAppend([url[0]], url[1..]);
    assert Clean(url)[0] == url[0];
  }

  /** Links relative to the page ("/a", "#top", "?q", "./b") never pass the scheme check. */
  lemma RelativeLinksRejected(href: string)
    requires StartsWith(href, "/") || StartsWith(href, "#") || StartsWith(href, "?") || StartsWith(href, ".")
    ensures !SchemeOk(href)
  {
    NoLetterNoScheme(href);
  }

  /**
   * Absolute http and https URLs pass the scheme test, and an ftp URL does
   * not. Whether `urlparse` raises on the rest of the URL is the separate
   * `ParseRaised` guard that `Guard` checks first.
   */
  lemma HttpUrlsPass(rest: string)
    ensures SchemeOk("http://" + rest) && SchemeOk("https://" + rest)
    ensures !SchemeOk("ftp://" + rest)
  {
    KnownScheme("http", "http://", rest);
    KnownScheme("https", "https://", rest);
    KnownScheme("ftp", "ftp://", rest);
  }

  lemma KnownScheme(name: string, prefix: string, rest: string)
    requires name != [] && forall k :: 0 <= k < |name| ==> 'a' <= name[k] <= 'z'
    requires prefix == name + "://"
    ensures UrlScheme(prefix + rest) == name
  {
    var url := prefix + rest;
    assert url[0] == name[0];
    assert LStripC0(url) == url;
    RemoveUnsafeAppend(prefix, rest);
    assert RemoveUnsafe(prefix) == prefix by {
      NoUnsafeUnchanged(prefix);
    }
    var s := Clean(url);
    assert s == prefix + RemoveUnsafe(rest);
    assert s[|name|] == ':';
    assert forall k :: 0 <= k < |name| ==> s[k] == name[k] && IsSchemeChar(s[k]);
    SchemeRunAt(s, |name|);
    assert s[..|name|] == name;
    LowerPointwise(name);
    assert Lower(name) == name;
  }

  lemma {:induction false} NoUnsafeUnchanged(s: string)
    requires forall k :: 0 <= k < |s| ==> !IsUnsafe(s[k])
    ensures RemoveUnsafe(s) == s
    decreases |s|
  {
    if s != [] {
      NoUnsafeUnchanged(s[1..]);
    }
  }

  // ---------------------------------------------------------------------
  // Link extraction.
  // ---------------------------------------------------------------------

  /** The hrefs the page keeps: every non-empty one, in document order, duplicates included. */
  function NonEmptyHrefs(hrefs: seq<string>): seq<string> {
    if hrefs == [] then []
    else NonEmptyHrefs(hrefs[..|hrefs| - 1]) + (if hrefs[|hrefs| - 1] != "" then [hrefs[|hrefs| - 1]] else [])
  }

  /**
   * The links are the non-empty hrefs, each as often as the page has it,
   * and never an empty one.
   */
  lemma {:induction false} NonEmptyHrefsFilter(hrefs: seq<string>)
    ensures |NonEmptyHrefs(hrefs)| <= |hrefs|
    ensures forall k :: 0 <= k < |NonEmptyHrefs(hrefs)| ==> NonEmptyHrefs(hrefs)[k] != ""
    ensures forall h :: h != "" ==> multiset(NonEmptyHrefs(hrefs))[h] == multiset(hrefs)[h]
    ensures multiset(NonEmptyHrefs(hrefs))[""] == 0
  {
    if hrefs != [] {
      var init := hrefs[..|hrefs| - 1];
      NonEmptyHrefsFilter(init);
      assert hrefs == init + [hrefs[|hrefs| - 1]];
    }
  }

  /** Filtering keeps document order: the links of two pieces are the pieces' links, one after the other. */
  lemma {:induction false} NonEmptyHrefsAppend(a: seq<string>, b: seq<string>)
    ensures NonEmptyHrefs(a + b) == NonEmptyHrefs(a) + NonEmptyHrefs(b)
    decreases |b|
  {
    if b == [] {
      assert a + b == a;
    } else {
      var b' := b[..|b| - 1];
      assert (a + b)[..|a + b| - 1] == a + b';
      assert (a + b)[|a + b| - 1] == b[|b| - 1];
      NonEmptyHrefsAppend(a, b');
    }
  }

  /** The `for tag in soup.find_all("a", href=True)` loop that builds `links`. */
  method CollectLinks(hrefs: seq<string>) returns (links: seq<string>)
    ensures links == NonEmptyHrefs(hrefs)
  {
    links := [];
    for i := 0 to |hrefs|
      invariant links == NonEmptyHrefs(hrefs[..i])
    {
      assert hrefs[..i + 1][..i] == hrefs[..i];
      var link := hrefs[i];
      if link != "" {
        links := links + [link];
      }
    }
    assert hrefs[..|hrefs|] == hrefs;
  }

  // ---------------------------------------------------------------------
  // One invocation.
  // ---------------------------------------------------------------------

  /** Why an invocation ends without storing anything. */
  datatype Stop = ParseRaised | BadScheme | TooDeep | AlreadyCrawled | DedupRaised | FallbackRaised | NotHtml(status: int) | ParseFailed

  /**
   * What one invocation does: the fetch attempts it makes, in order, and
   * either why it stops or the links it stores and follows.
   */
  datatype Outcome = Stopped(why: Stop, fetches: seq<Agent>) | Expanded(fetches: seq<Agent>, links: seq<string>)

  /** The response gate: status 200 and a content type that mentions text/html. */
  predicate IsHtml(r: Response) {
    r.status == 200 && Contains(r.contentType, "text/html")
  }

  /** The guards before any fetch: a URL that parses, its scheme, the depth, and a recency check that answered false. */
  predicate MayFetch(web: Web, url: string, depth: int) {
    !web.parseRaises(url) && SchemeOk(url) && depth <= MaxDepth && web.dedup(url) == NotRecent
  }

  /** The primary fetch failed: it raised, or its status is not 200. */
  predicate NeedsFallback(primary: Fetch) {
    primary.Raised? || primary.response.status != 200
  }

  /** The guards before any fetch, in order; None when all pass. */
  function Guard(web: Web, url: string, depth: int): (stop: Option<Stop>)
    ensures stop.None? <==> MayFetch(web, url, depth)
  {
    if web.parseRaises(url) then Some(ParseRaised)
    else if !SchemeOk(url) then Some(BadScheme)
    else if depth > MaxDepth then Some(TooDeep)
    else if web.dedup(url) == Recent then Some(AlreadyCrawled)
    else if web.dedup(url) == LookupRaised then Some(DedupRaised)
    else None
  }

  /** What the fetches lead to, given what the primary fetch and the browser-agent retry return. */
  function AfterFetch(primary: Fetch, fallback: Fetch): (s: Outcome)
    ensures s.fetches == if NeedsFallback(primary) then [DefaultAgent, BrowserAgent] else [DefaultAgent]
    ensures s.Expanded? <==>
              var final := if NeedsFallback(primary) then fallback else primary;
              final.Got? && IsHtml(final.response) && final.response.body.Anchors?
  {
    if NeedsFallback(primary) && fallback.Raised? then Stopped(FallbackRaised, [DefaultAgent, BrowserAgent])
    else
      var fetches := if NeedsFallback(primary) then [DefaultAgent, BrowserAgent] else [DefaultAgent];
      var response := if NeedsFallback(primary) then fallback.response else primary.response;
      if !IsHtml(response) then Stopped(NotHtml(response.status), fetches)
      else if response.body.Unparseable? then Stopped(ParseFailed, fetches)
      else Expanded(fetches, NonEmptyHrefs(response.body.hrefs))
  }

  /** What `start_crawling_job(url, depth)` does itself, before its children. */
  function Step(web: Web, url: string, depth: int): (s: Outcome)
    ensures s.fetches != [] <==> MayFetch(web, url, depth)
    ensures s.Expanded? ==> MayFetch(web, url, depth)
  {
    match Guard(web, url, depth)
    case Some(why) => Stopped(why, [])
    case None => AfterFetch(web.fetch(url, DefaultAgent), web.fetch(url, BrowserAgent))
  }

  /**
   * The retry with the browser agent happens exactly when the guards pass
   * and the primary fetch raised or was not a 200; the primary fetch always
   * comes first.
   */
  lemma FallbackExactlyWhenPrimaryFails(web: Web, url: string, depth: int)
    ensures var s := Step(web, url, depth);
            && (BrowserAgent in s.fetches <==> MayFetch(web, url, depth) && NeedsFallback(web.fetch(url, DefaultAgent)))
            && (s.fetches != [] ==> s.fetches[0] == DefaultAgent && |s.fetches| <= 2)
  {
  }

  /**
   * A page is stored and followed exactly when the guards pass, the final
   * response (the retry's when there was one) is an HTML 200 and it parses;
   * its links are then the non-empty hrefs.
   */
  lemma ExpandsExactlyOnHtml(web: Web, url: string, depth: int)
    ensures var primary := web.fetch(url, DefaultAgent);
            var final := if NeedsFallback(primary) then web.fetch(url, BrowserAgent) else primary;
            && (Step(web, url, depth).Expanded? <==>
                  MayFetch(web, url, depth) && final.Got? && IsHtml(final.response) && final.response.body.Anchors?)
            && (Step(web, url, depth).Expanded? ==> Step(web, url, depth).links == NonEmptyHrefs(final.response.body.hrefs))
  {
  }

  /**
   * The guard, fetch and gate chain of `start_crawling_job`, with its early
   * returns; the fetch attempts it makes are recorded in the outcome.
   */
  method Decide(web: Web, url: string, depth: int) returns (s: Outcome)
    ensures s == Step(web, url, depth)
  {
    if web.parseRaises(url) {
      return Stopped(ParseRaised, []);
    }
    var scheme := UrlScheme(url);
    if scheme != "http" && scheme != "https" {
      return Stopped(BadScheme, []);
    }
    if depth > MaxDepth {
      return Stopped(TooDeep, []);
    }
    var seen := web.dedup(url);
    if seen == Recent {
      return Stopped(AlreadyCrawled, []);
    } else if seen == LookupRaised {
      return Stopped(DedupRaised, []);
    }
    s := FetchAndParse(web, url);
  }

  /**
   * The fetch with the default agent, the retry with the browser agent when
   * it fails, the gate on the final response and the link extraction.
   */
  method FetchAndParse(web: Web, url: string) returns (s: Outcome)
    ensures s == AfterFetch(web.fetch(url, DefaultAgent), web.fetch(url, BrowserAgent))
  {
    var fetches := [DefaultAgent];
    var primary := web.fetch(url, DefaultAgent);
    var response: Response;
    if primary.Raised? || primary.response.status != 200 {
      var fallback := web.fetch(url, BrowserAgent);
      fetches := fetches + [BrowserAgent];
      if fallback.Raised? {
        return Stopped(FallbackRaised, fetches);
      }
      response := fallback.response;
    } else {
      response := primary.response;
    }
    if !(response.status == 200 && Contains(response.contentType, "text/html")) {
      return Stopped(NotHtml(response.status), fetches);
    }
    if response.body.Unparseable? {
      return Stopped(ParseFailed, fetches);
    }
    var links := CollectLinks(response.body.hrefs);
    return Expanded(fetches, links);
  }

  // ---------------------------------------------------------------------
  // The crawl tree as an event log.
  // ---------------------------------------------------------------------

  datatype Event =
    | Called(url: string, depth: int)
    | Fetched(url: string, depth: int, agent: Agent)
    | Stored(url: string, depth: int, links: seq<string>)

  /** The levels still allowed below `depth`; it shrinks by one per level until the depth guard stops the recursion. */
  function Budget(depth: int): nat {
    if depth > MaxDepth + 1 then 0 else MaxDepth + 1 - depth
  }

  function FetchEvents(url: string, depth: int, agents: seq<Agent>): (events: seq<Event>)
    ensures |events| == |agents|
    ensures forall k :: 0 <= k < |agents| ==> events[k] == Fetched(url, depth, agents[k])
  {
    if agents == [] then [] else [Fetched(url, depth, agents[0])] + FetchEvents(url, depth, agents[1..])
  }

  /** What the invocation itself records: its call, its fetches and, when it expands, its one store call. */
  function OwnEvents(url: string, depth: int, s: Outcome): seq<Event> {
    [Called(url, depth)] + FetchEvents(url, depth, s.fetches) + (if s.Expanded? then [Stored(url, depth, s.links)] else [])
  }

  /** The log of `start_crawling_job(url, depth)`: its own events, then each child's log in link order. */
  function CrawlLog(web: Web, url: string, depth: int): seq<Event>
    decreases Budget(depth), 0
  {
    var s := Step(web, url, depth);
    OwnEvents(url, depth, s) + (if s.Expanded? then ChildrenLog(web, s.links, depth + 1) else [])
  }

  /** The logs of the children crawled for `links`, one after the other. */
  function ChildrenLog(web: Web, links: seq<string>, depth: int): seq<Event>
    decreases Budget(depth), |links|
  {
    if links == [] || depth > MaxDepth + 1 then []
    else ChildrenLog(web, links[..|links| - 1], depth) + CrawlLog(web, links[|links| - 1], depth)
  }

  /**
   * `start_crawling_job(url, depth)`, returning the events it caused: its
   * call, its fetch attempts and, for a page that passes the gate, one store
   * call followed by one child crawl per link at `depth + 1`, in link order.
   */
  method Crawl(web: Web, url: string, depth: int) returns (log: seq<Event>)
    ensures log == CrawlLog(web, url, depth)
    decreases Budget(depth), 0
  {
    var s := Decide(web, url, depth);
    log := [Called(url, depth)] + FetchEvents(url, depth, s.fetches);
    if s.Expanded? {
      var children := CrawlChildren(web, s.links, depth + 1);
      log := log + [Stored(url, depth, s.links)] + children;
    }
  }

  /** The `tasks` loop: one crawl per link at `depth`, in link order, each adding its own events. */
  method CrawlChildren(web: Web, links: seq<string>, depth: int) returns (log: seq<Event>)
    requires depth <= MaxDepth + 1
    ensures log == ChildrenLog(web, links, depth)
    decreases Budget(depth), |links|
  {
    log := [];
    for i := 0 to |links|
      invariant log == ChildrenLog(web, links[..i], depth)
    {
      ChildrenLogSnoc(web, links, i, depth);
      var child := Crawl(web, links[i], depth);
      log := log + child;
    }
    assert links[..|links|] == links;
  }

  lemma ChildrenLogSnoc(web: Web, links: seq<string>, i: nat, depth: int)
    requires i < |links| && depth <= MaxDepth + 1
    ensures ChildrenLog(web, links[..i + 1], depth) == ChildrenLog(web, links[..i], depth) + CrawlLog(web, links[i], depth)
  {
    assert links[..i + 1][..i] == links[..i];
  }

  // ---------------------------------------------------------------------
  // Properties of the crawl tree.
  // ---------------------------------------------------------------------

  /**
   * What an event in a log implies about the inputs: a fetch is only made
   * for a URL that passed the scheme, depth and recency guards, with an agent
   * the step uses; a store only for a page that expanded, with its links.
   */
  predicate EventSound(web: Web, e: Event) {
    match e
    case Called(_, _) => true
    case Fetched(u, d, a) => MayFetch(web, u, d) && a in Step(web, u, d).fetches
    case Stored(u, d, links) => Step(web, u, d).Expanded? && Step(web, u, d).links == links
  }

  /** Every event of `log` is sound and lies at a depth between `lo` and `hi`. */
  predicate Within(web: Web, log: seq<Event>, lo: int, hi: int) {
    forall k :: 0 <= k < |log| ==> EventSound(web, log[k]) && lo <= log[k].depth <= hi
  }

  lemma WithinAppend(web: Web, a: seq<Event>, b: seq<Event>, lo: int, hi: int)
    requires Within(web, a, lo, hi) && Within(web, b, lo, hi)
    ensures Within(web, a + b, lo, hi)
  {
    forall k | 0 <= k < |a + b|
      ensures EventSound(web, (a + b)[k]) && lo <= (a + b)[k].depth <= hi
    {
      if k < |a| {
        assert (a + b)[k] == a[k];
      } else {
        assert (a + b)[k] == b[k - |a|];
      }
    }
  }

  /** An invocation's own events are sound and lie at its depth. */
  lemma OwnEventsSound(web: Web, url: string, depth: int)
    ensures Within(web, OwnEvents(url, depth, Step(web, url, depth)), depth, depth)
  {
    var s := Step(web, url, depth);
    var fetches := FetchEvents(url, depth, s.fetches);
    assert Within(web, fetches, depth, depth) by {
      forall k | 0 <= k < |fetches|
        ensures EventSound(web, fetches[k]) && fetches[k].depth == depth
      {
        assert fetches[k] == Fetched(url, depth, s.fetches[k]);
      }
    }
    WithinAppend(web, [Called(url, depth)], fetches, depth, depth);
    WithinAppend(web, [Called(url, depth)] + fetches, if s.Expanded? then [Stored(url, depth, s.links)] else [], depth, depth);
  }

  /**
   * Every event of a crawl started at most one level past the limit is
   * sound and lies between the starting depth and one past the limit.
   */
  lemma {:induction false} CrawlLogSound(web: Web, url: string, depth: int)
    requires depth <= MaxDepth + 1
    ensures Within(web, CrawlLog(web, url, depth), depth, MaxDepth + 1)
    decreases Budget(depth), 0
  {
    var s := Step(web, url, depth);
    var own := OwnEvents(url, depth, s);
    var rest := if s.Expanded? then ChildrenLog(web, s.links, depth + 1) else [];
    assert CrawlLog(web, url, depth) == own + rest;
    OwnEventsSound(web, url, depth);
    WithinWiden(web, own, depth, depth, depth, MaxDepth + 1);
    if s.Expanded? {
      ChildrenLogSound(web, s.links, depth + 1);
      WithinWiden(web, rest, depth + 1, MaxDepth + 1, depth, MaxDepth + 1);
    }
    WithinAppend(web, own, rest, depth, MaxDepth + 1);
  }

  lemma WithinWiden(web: Web, log: seq<Event>, lo: int, hi: int, lo': int, hi': int)
    requires Within(web, log, lo, hi) && lo' <= lo && hi <= hi'
    ensures Within(web, log, lo', hi')
  {
  }

  lemma {:induction false} ChildrenLogSound(web: Web, links: seq<string>, depth: int)
    requires depth <= MaxDepth + 1
    ensures Within(web, ChildrenLog(web, links, depth), depth, MaxDepth + 1)
    decreases Budget(depth), |links|
  {
    if links != [] {
      ChildrenLogSound(web, links[..|links| - 1], depth);
      CrawlLogSound(web, links[|links| - 1], depth);
      WithinAppend(web, ChildrenLog(web, links[..|links| - 1], depth), CrawlLog(web, links[|links| - 1], depth), depth, MaxDepth + 1);
    }
  }

  /**
   * The guards hold for every fetch of the whole tree: only URLs with an
   * http or https scheme, at depths from the starting one up to 5, whose
   * recency check answered false, are ever fetched, and each with an agent
   * its step uses.
   */
  lemma FetchesAreGuarded(web: Web, url: string, depth: int, k: nat)
    requires k < |CrawlLog(web, url, depth)| && CrawlLog(web, url, depth)[k].Fetched?
    ensures var e := CrawlLog(web, url, depth)[k];
            && !web.parseRaises(e.url) && SchemeOk(e.url) && depth <= e.depth <= MaxDepth && web.dedup(e.url) == NotRecent
            && e.agent in Step(web, e.url, e.depth).fetches
  {
    var log := CrawlLog(web, url, depth);
    if depth <= MaxDepth + 1 {
      CrawlLogSound(web, url, depth);
      assert EventSound(web, log[k]) && depth <= log[k].depth;
    } else {
      TooDeepFetchesNothing(web, url, depth);
    }
  }

  /** Every store call of the tree is for a page that expanded, with exactly that page's links. */
  lemma StoresAreExpansions(web: Web, url: string, depth: int, k: nat)
    requires k < |CrawlLog(web, url, depth)| && CrawlLog(web, url, depth)[k].Stored?
    ensures var e := CrawlLog(web, url, depth)[k];
            Step(web, e.url, e.depth) == Expanded(Step(web, e.url, e.depth).fetches, e.links)
  {
    var log := CrawlLog(web, url, depth);
    if depth <= MaxDepth + 1 {
      CrawlLogSound(web, url, depth);
      assert EventSound(web, log[k]);
    } else {
      TooDeepFetchesNothing(web, url, depth);
    }
  }

  /** The events of a log that happened at `depth`. */
  function AtDepth(log: seq<Event>, depth: int): (r: seq<Event>)
    ensures forall k :: 0 <= k < |r| ==> r[k].depth == depth
  {
    if log == [] then []
    else (if log[0].depth == depth then [log[0]] else []) + AtDepth(log[1..], depth)
  }

  lemma {:induction false} AtDepthAppend(a: seq<Event>, b: seq<Event>, depth: int)
    ensures AtDepth(a + b, depth) == AtDepth(a, depth) + AtDepth(b, depth)
    decreases |a|
  {
    if a == [] {
      assert a + b == b;
    } else {
      assert (a + b)[1..] == a[1..] + b;
      AtDepthAppend(a[1..], b, depth);
    }
  }

  lemma {:induction false} AtDepthNone(log: seq<Event>, depth: int)
    requires forall k :: 0 <= k < |log| ==> log[k].depth != depth
    ensures AtDepth(log, depth) == []
    decreases |log|
  {
    if log != [] {
      AtDepthNone(log[1..], depth);
    }
  }

  lemma {:induction false} AtDepthAll(log: seq<Event>, depth: int)
    requires forall k :: 0 <= k < |log| ==> log[k].depth == depth
    ensures AtDepth(log, depth) == log
    decreases |log|
  {
    if log != [] {
      AtDepthAll(log[1..], depth);
      assert log == [log[0]] + log[1..];
    }
  }

  /**
   * Everything an invocation records at its own depth is its own call, its
   * fetch attempts and at most one store; what its children do lies deeper.
   */
  lemma OwnLevel(web: Web, url: string, depth: int)
    ensures AtDepth(CrawlLog(web, url, depth), depth) == OwnEvents(url, depth, Step(web, url, depth))
  {
    var s := Step(web, url, depth);
    var own := OwnEvents(url, depth, s);
    var rest := if s.Expanded? then ChildrenLog(web, s.links, depth + 1) else [];
    AtDepthAppend(own, rest, depth);
    AtDepthAll(own, depth);
    if s.Expanded? {
      ChildrenLogSound(web, s.links, depth + 1);
    }
    AtDepthNone(rest, depth);
  }

  /** The invocations started directly by the children's logs: one per link, in link order. */
  function CalledUrls(log: seq<Event>): seq<string> {
    if log == [] then []
    else (if log[0].Called? then [log[0].url] else []) + CalledUrls(log[1..])
  }

  lemma {:induction false} CalledUrlsAppend(a: seq<Event>, b: seq<Event>)
    ensures CalledUrls(a + b) == CalledUrls(a) + CalledUrls(b)
    decreases |a|
  {
    if a == [] {
      assert a + b == b;
    } else {
      assert (a + b)[1..] == a[1..] + b;
      CalledUrlsAppend(a[1..], b);
    }
  }

  lemma {:induction false} ChildrenCalledInOrder(web: Web, links: seq<string>, depth: int)
    requires depth <= MaxDepth + 1
    ensures CalledUrls(AtDepth(ChildrenLog(web, links, depth), depth)) == links
    decreases |links|
  {
    if links != [] {
      var init, last := links[..|links| - 1], links[|links| - 1];
      var before, own := AtDepth(ChildrenLog(web, init, depth), depth), AtDepth(CrawlLog(web, last, depth), depth);
      ChildrenCalledInOrder(web, init, depth);
      ChildrenLevelSplit(web, links, depth);
      CrawlCallsItself(web, last, depth);
      CalledUrlsJoin(before, own, init, last);
      assert links == init + [last];
    }
  }

  lemma CalledUrlsJoin(before: seq<Event>, own: seq<Event>, init: seq<string>, last: string)
    requires CalledUrls(before) == init && CalledUrls(own) == [last]
    ensures CalledUrls(before + own) == init + [last]
  {
    CalledUrlsAppend(before, own);
  }

  lemma ChildrenLevelSplit(web: Web, links: seq<string>, depth: int)
    requires links != [] && depth <= MaxDepth + 1
    ensures AtDepth(ChildrenLog(web, links, depth), depth)
            == AtDepth(ChildrenLog(web, links[..|links| - 1], depth), depth) + AtDepth(CrawlLog(web, links[|links| - 1], depth), depth)
  {
    AtDepthAppend(ChildrenLog(web, links[..|links| - 1], depth), CrawlLog(web, links[|links| - 1], depth), depth);
  }

  /** At its own depth, a crawl starts exactly one invocation: itself. */
  lemma CrawlCallsItself(web: Web, url: string, depth: int)
    ensures CalledUrls(AtDepth(CrawlLog(web, url, depth), depth)) == [url]
  {
    OwnLevel(web, url, depth);
    OwnCallsAndStores(url, depth, Step(web, url, depth));
  }

  /** An invocation's own events hold its one call and, when it expands, its one store. */
  lemma OwnCallsAndStores(url: string, depth: int, s: Outcome)
    ensures CalledUrls(OwnEvents(url, depth, s)) == [url]
    ensures StoresOf(OwnEvents(url, depth, s)) == if s.Expanded? then [(url, s.links)] else []
  {
    var fetches := FetchEvents(url, depth, s.fetches);
    var store: seq<Event> := if s.Expanded? then [Stored(url, depth, s.links)] else [];
    FetchesCallNothing(url, depth, s.fetches);
    FetchesStoreNothing(url, depth, s.fetches);
    CalledUrlsAppend([Called(url, depth)], fetches);
    CalledUrlsAppend([Called(url, depth)] + fetches, store);
    StoresOfAppend([Called(url, depth)], fetches);
    StoresOfAppend([Called(url, depth)] + fetches, store);
    assert CalledUrls([Called(url, depth)]) == [url] + CalledUrls([]);
    assert StoresOf([Called(url, depth)]) == StoresOf([]);
    if s.Expanded? {
      assert CalledUrls(store) == CalledUrls([]);
      assert StoresOf(store) == [(url, s.links)] + StoresOf([]);
    }
  }

  lemma {:induction false} FetchesCallNothing(url: string, depth: int, agents: seq<Agent>)
    ensures CalledUrls(FetchEvents(url, depth, agents)) == []
    decreases |agents|
  {
    if agents != [] {
      assert FetchEvents(url, depth, agents)[1..] == FetchEvents(url, depth, agents[1..]);
      FetchesCallNothing(url, depth, agents[1..]);
    }
  }

  /**
   * A page that expands starts exactly one crawl per link at the next depth,
   * in link order, duplicates included.
   */
  lemma ExpansionSpawnsOnePerLink(web: Web, url: string, depth: int)
    requires Step(web, url, depth).Expanded?
    ensures CalledUrls(AtDepth(CrawlLog(web, url, depth), depth + 1)) == Step(web, url, depth).links
  {
    NextLevelIsChildren(web, url, depth);
    ChildrenCalledInOrder(web, Step(web, url, depth).links, depth + 1);
  }

  lemma NextLevelIsChildren(web: Web, url: string, depth: int)
    requires Step(web, url, depth).Expanded?
    ensures depth + 1 <= MaxDepth + 1
    ensures AtDepth(CrawlLog(web, url, depth), depth + 1)
            == AtDepth(ChildrenLog(web, Step(web, url, depth).links, depth + 1), depth + 1)
  {
    var s := Step(web, url, depth);
    var own := OwnEvents(url, depth, s);
    var rest := ChildrenLog(web, s.links, depth + 1);
    assert CrawlLog(web, url, depth) == own + rest;
    OwnEventsSound(web, url, depth);
    AtDepthAppend(own, rest, depth + 1);
    AtDepthNone(own, depth + 1);
  }

  /** A page that expands makes exactly one store call at its depth, with its URL and its links. */
  lemma ExpansionStoresOnce(web: Web, url: string, depth: int)
    requires Step(web, url, depth).Expanded?
    ensures StoresOf(AtDepth(CrawlLog(web, url, depth), depth)) == [(url, Step(web, url, depth).links)]
  {
    OwnLevel(web, url, depth);
    OwnCallsAndStores(url, depth, Step(web, url, depth));
  }

  /** A page that does not expand records only its call and its fetch attempts: no store, no children. */
  lemma NoExpansionNoStoreNoChildren(web: Web, url: string, depth: int)
    requires !Step(web, url, depth).Expanded?
    ensures CrawlLog(web, url, depth) == OwnEvents(url, depth, Step(web, url, depth))
    ensures StoresOf(CrawlLog(web, url, depth)) == [] && CalledUrls(CrawlLog(web, url, depth)) == [url]
  {
    var s := Step(web, url, depth);
    assert CrawlLog(web, url, depth) == OwnEvents(url, depth, s) + [];
    OwnCallsAndStores(url, depth, s);
  }

  /** The (url, links) pairs of the store calls in a log. */
  function StoresOf(log: seq<Event>): seq<(string, seq<string>)> {
    if log == [] then []
    else (if log[0].Stored? then [(log[0].url, log[0].links)] else []) + StoresOf(log[1..])
  }

  lemma {:induction false} StoresOfAppend(a: seq<Event>, b: seq<Event>)
    ensures StoresOf(a + b) == StoresOf(a) + StoresOf(b)
    decreases |a|
  {
    if a == [] {
      assert a + b == b;
    } else {
      assert (a + b)[0] == a[0] && (a + b)[1..] == a[1..] + b;
      StoresOfAppend(a[1..], b);
    }
  }

  lemma {:induction false} FetchesStoreNothing(url: string, depth: int, agents: seq<Agent>)
    ensures StoresOf(FetchEvents(url, depth, agents)) == []
    decreases |agents|
  {
    if agents != [] {
      assert FetchEvents(url, depth, agents)[1..] == FetchEvents(url, depth, agents[1..]);
      FetchesStoreNothing(url, depth, agents[1..]);
    }
  }

  /** Beyond the depth limit an invocation records its call and nothing else. */
  lemma TooDeepFetchesNothing(web: Web, url: string, depth: int)
    requires depth > MaxDepth
    ensures CrawlLog(web, url, depth) == [Called(url, depth)]
  {
  }

  /**
   * The crawler's own scenario: an HTML 200 page with one anchor, not
   * recently crawled, is fetched once with the default agent, stored once
   * with its URL and that link, and the link is crawled at depth 1.
   */
  lemma SuccessfulFetchExample(web: Web, host: string, url: string, link: string)
    requires url == "http://" + host && link != ""
    requires !web.parseRaises(url) && web.dedup(url) == NotRecent
    requires web.fetch(url, DefaultAgent) == Got(Response(200, "text/html", Anchors([link])))
    ensures CrawlLog(web, url, 0)
            == [Called(url, 0), Fetched(url, 0, DefaultAgent), Stored(url, 0, [link])] + CrawlLog(web, link, 1)
  {
    ExampleStep(web, host, url, link);
    NonEmptySingle(link);
    OneLinkLog(web, url, link);
  }

  lemma OneLinkLog(web: Web, url: string, link: string)
    requires Step(web, url, 0) == Expanded([DefaultAgent], [link])
    ensures CrawlLog(web, url, 0)
            == [Called(url, 0), Fetched(url, 0, DefaultAgent), Stored(url, 0, [link])] + CrawlLog(web, link, 1)
  {
    var s := Step(web, url, 0);
    assert CrawlLog(web, url, 0) == OwnEvents(url, 0, s) + ChildrenLog(web, [link], 1);
    OneFetchOwnEvents(url, link);
    SingleChild(web, link, 1);
  }

  lemma OneFetchOwnEvents(url: string, link: string)
    ensures OwnEvents(url, 0, Expanded([DefaultAgent], [link]))
            == [Called(url, 0), Fetched(url, 0, DefaultAgent), Stored(url, 0, [link])]
  {
    assert FetchEvents(url, 0, [DefaultAgent]) == [Fetched(url, 0, DefaultAgent)];
  }

  lemma NonEmptySingle(h: string)
    requires h != ""
    ensures NonEmptyHrefs([h]) == [h]
  {
    assert [h][..0] == [];
  }

  lemma ExampleStep(web: Web, host: string, url: string, link: string)
    requires url == "http://" + host
    requires !web.parseRaises(url) && web.dedup(url) == NotRecent
    requires web.fetch(url, DefaultAgent) == Got(Response(200, "text/html", Anchors([link])))
    ensures Step(web, url, 0) == Expanded([DefaultAgent], NonEmptyHrefs([link]))
  {
    ExampleGuard(web, host, url);
    var r := Response(200, "text/html", Anchors([link]));
    HtmlResponse(r);
    assert Guard(web, url, 0).None?;
  }

  lemma ExampleGuard(web: Web, host: string, url: string)
    requires url == "http://" + host
    requires !web.parseRaises(url) && web.dedup(url) == NotRecent
    ensures MayFetch(web, url, 0)
  {
    KnownScheme("http", "http://", host);
  }

  lemma HtmlResponse(r: Response)
    requires r.status == 200 && r.contentType == "text/html"
    ensures IsHtml(r)
  {
    assert StartsWith(r.contentType, "text/html");
  }

  lemma SingleChild(web: Web, link: string, depth: int)
    requires depth <= MaxDepth + 1
    ensures ChildrenLog(web, [link], depth) == CrawlLog(web, link, depth)
  {
    assert [link][..0] == [];
  }

  /** The record a successful page hands to the result store: `{"url": url, "links": links}`. */
  function StoredRecord(url: string, links: seq<string>): (d: Data)
    ensures Serializable(d)
    ensures d.Obj? && Get(d.fields, "url") == Some(Str(url))
  {
    var items := seq(|links|, k requires 0 <= k < |links| => Str(links[k]));
    assert UnencodableItems(items).None?;
    Obj([Field("url", Str(url)), Field("links", Arr(items))])
  }

  /**
   * The job id the crawler uses, the UTC time with microseconds, is always
   * accepted by the result store, and the record always encodes; so a
   * store call for a valid time writes its file unless the operating system
   * fails.
   */
  lemma CrawlerStoreCallIsAccepted(now: Instant, url: string, links: seq<string>)
    requires Valid(now)
    ensures ValidJobId(Str(Stamp20(now)))
    ensures Serializable(StoredRecord(url, links))
  {
    var id := Stamp20(now);
    assert IsDigit(id[0]) && !IsSpace(id[0]);
  }
}
