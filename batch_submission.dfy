/**
 * The batch submission route (`POST /submit`): the body must decode to a
 * JSON object whose "urls" is a list of at most 100 entries; the distinct
 * string entries that start with "http://" or "https://" each get a crawl
 * started, and the reply carries a job id made from the current time.
 */
module BatchSubmission {
  import opened Text
  import opened Maybe
  import opened JsonValue
  import opened Timestamps
  import opened Http
  import Crawl

  const MaxUrls := 100

  const InvalidJson := "Invalid JSON object."
  const NotAnObject := "Payload must be a JSON object."
  const MissingUrls := "Missing 'urls' key in payload."
  const UrlsNotList := "'urls' must be a list."
  const TooManyUrls := "Maximum 100 URLs allowed."
  const NoValidUrls := "No valid URLs provided"
  const Initiated := "Crawling jobs initiated"

  /** What `await request.json()` gives: an error, or the decoded value. */
  datatype Body = Malformed | Decoded(value: Data)

  /** The reply `{"job_id": ..., "status": ...}`. */
  datatype Reply = Reply(jobId: string, status: string)

  /** `isinstance(url, str) and (url.startswith("http://") or url.startswith("https://"))`. */
  predicate Crawlable(d: Data) {
    d.Str? && (StartsWith(d.s, "http://") || StartsWith(d.s, "https://"))
  }

  /** The set the route builds from the "urls" list: its crawlable entries, once each. */
  function ValidUrls(urls: seq<Data>): set<string> {
    if urls == [] then {}
    else ValidUrls(urls[..|urls| - 1]) + (if Crawlable(urls[|urls| - 1]) then {urls[|urls| - 1].s} else {})
  }

  /**
   * The set holds exactly the strings that occur in the list and start with
   * "http://" or "https://", so it is never larger than the list.
   */
  lemma {:induction false} ValidUrlsMembers(urls: seq<Data>)
    ensures forall s :: s in ValidUrls(urls) <==> Str(s) in urls && Crawlable(Str(s))
    ensures |ValidUrls(urls)| <= |urls|
  {
    if urls != [] {
      var init, last := urls[..|urls| - 1], urls[|urls| - 1];
      ValidUrlsMembers(init);
      assert urls == init + [last];
      assert forall s :: Str(s) in urls <==> Str(s) in init || Str(s) == last;
    }
  }

  /**
   * The checks the route makes before it starts anything, in order: the
   * distinct crawlable URLs, or the 400 the first failing check raises.
   */
  function Validate(body: Body): (r: Outcome<set<string>>)
    ensures r.Ok? ==> r.value != {} && |r.value| <= MaxUrls
    ensures r.Fail? ==> r.error.status == BadRequest
  {
    if body.Malformed? then Fail(HttpError(BadRequest, InvalidJson))
    else if !body.value.Obj? then Fail(HttpError(BadRequest, NotAnObject))
    else if !HasKey(body.value.fields, "urls") then Fail(HttpError(BadRequest, MissingUrls))
    else
      var urls := Get(body.value.fields, "urls").value;
      if !urls.Arr? then Fail(HttpError(BadRequest, UrlsNotList))
      else if |urls.items| > MaxUrls then Fail(HttpError(BadRequest, TooManyUrls))
      else
        var valid := ValidUrls(urls.items);
        ValidUrlsMembers(urls.items);
        if valid == {} then Fail(HttpError(BadRequest, NoValidUrls))
        else Ok(valid)
  }

  /** The loop that fills `valid_urls`, entry by entry. */
  method CollectValidUrls(urls: seq<Data>) returns (valid: set<string>)
    ensures valid == ValidUrls(urls)
  {
    valid := {};
    for i := 0 to |urls|
      invariant valid == ValidUrls(urls[..i])
    {
      assert urls[..i + 1][..i] == urls[..i];
      if urls[i].Str? && (StartsWith(urls[i].s, "http://") || StartsWith(urls[i].s, "https://")) {
        valid := valid + {urls[i].s};
      }
    }
    assert urls[..|urls|] == urls;
  }

  /**
   * The loop over the set that starts one crawl per URL, in the set's
   * iteration order (which Python leaves unspecified); starting a crawl for
   * a URL in `startFails` raises, is logged, and the loop goes on.
   */
  method StartCrawls(valid: set<string>, startFails: set<string>) returns (started: seq<string>)
    ensures forall u :: u in started <==> u in valid && u !in startFails
    ensures forall i, j :: 0 <= i < j < |started| ==> started[i] != started[j]
    ensures |started| == |valid - startFails|
  {
    started := [];
    var pending := valid;
    while pending != {}
      invariant pending <= valid
      invariant forall u :: u in started <==> u in valid - pending && u !in startFails
      invariant forall i, j :: 0 <= i < j < |started| ==> started[i] != started[j]
      invariant forall i :: 0 <= i < |started| ==> started[i] !in pending
      decreases |pending|
    {
      var u :| u in pending;
      if u !in startFails {
        started := started + [u];
      }
      pending := pending - {u};
    }
    DistinctCount(started, valid - startFails);
  }

  /** The depth the dispatch loop starts each crawl at: `start_crawling_job(url)` uses its default. */
  const DispatchDepth := 0

  /** What the started crawls do, taken one after the other in the order they were started. */
  function DispatchLog(web: Crawl.Web, started: seq<string>): seq<Crawl.Event> {
    Crawl.ChildrenLog(web, started, DispatchDepth)
  }

  /**
   * The invocations at depth 0 of the dispatched crawls are exactly one per
   * started URL, in the order they were started; every event they record
   * lies between depth 0 and one past the limit.
   */
  lemma DispatchStartsAtDepthZero(web: Crawl.Web, started: seq<string>)
    ensures Crawl.CalledUrls(Crawl.AtDepth(DispatchLog(web, started), DispatchDepth)) == started
    ensures forall k :: 0 <= k < |DispatchLog(web, started)| ==> DispatchDepth <= DispatchLog(web, started)[k].depth <= Crawl.MaxDepth + 1
  {
    Crawl.ChildrenCalledInOrder(web, started, DispatchDepth);
    Crawl.ChildrenLogSound(web, started, DispatchDepth);
  }

  /** A sequence without repetitions is as long as the set of its elements. */
  lemma {:induction false} DistinctCount(s: seq<string>, elements: set<string>)
    requires forall i, j :: 0 <= i < j < |s| ==> s[i] != s[j]
    requires forall u :: u in s <==> u in elements
    ensures |s| == |elements|
    decreases |s|
  {
    if s == [] {
      assert elements == {};
    } else {
      var init, last := s[..|s| - 1], s[|s| - 1];
      assert last !in init;
      assert forall u :: u in init <==> u in elements - {last} by {
        assert s == init + [last];
      }
      DistinctCount(init, elements - {last});
    }
  }

  /**
   * `submit_batch_urls(request)` at UTC time `now`: the reply or the 400,
   * and the URLs whose crawl was started.
   */
  method SubmitBatchUrls(body: Body, now: Instant, startFails: set<string>) returns (r: Outcome<Reply>, started: seq<string>)
    requires Valid(now)
    ensures Validate(body).Fail? ==> r == Fail(Validate(body).error) && started == []
    ensures Validate(body).Ok? ==>
              && r == Ok(Reply(Stamp20(now), Initiated))
              && (forall u :: u in started <==> u in Validate(body).value && u !in startFails)
              && (forall i, j :: 0 <= i < j < |started| ==> started[i] != started[j])
              && |started| == |Validate(body).value - startFails| <= MaxUrls
  {
    started := [];
    if body.Malformed? {
      return Fail(HttpError(BadRequest, InvalidJson)), started;
    }
    var payload := body.value;
    if !payload.Obj? {
      return Fail(HttpError(BadRequest, NotAnObject)), started;
    }
    if !HasKey(payload.fields, "urls") {
      return Fail(HttpError(BadRequest, MissingUrls)), started;
    }
    var urls := Get(payload.fields, "urls").value;
    if !urls.Arr? {
      return Fail(HttpError(BadRequest, UrlsNotList)), started;
    }
    if |urls.items| > MaxUrls {
      return Fail(HttpError(BadRequest, TooManyUrls)), started;
    }
    var valid := CollectValidUrls(urls.items);
    if valid == {} {
      return Fail(HttpError(BadRequest, NoValidUrls)), started;
    }
    var jobId := Stamp20(now);
    started := StartCrawls(valid, startFails);
    r := Ok(Reply(jobId, Initiated));
  }

  /**
   * A body is accepted exactly when it is an object whose "urls" is a list
   * of at most 100 entries with at least one crawlable entry.
   */
  lemma AcceptedExactlyWhen(body: Body)
    ensures Validate(body).Ok? <==>
              && body.Decoded? && body.value.Obj? && HasKey(body.value.fields, "urls")
              && var urls := Get(body.value.fields, "urls").value;
                 urls.Arr? && |urls.items| <= MaxUrls
                 && exists i :: 0 <= i < |urls.items| && Crawlable(urls.items[i])
  {
    if body.Decoded? && body.value.Obj? && HasKey(body.value.fields, "urls") {
      var urls := Get(body.value.fields, "urls").value;
      if urls.Arr? && |urls.items| <= MaxUrls {
        ValidUrlsMembers(urls.items);
        if i :| 0 <= i < |urls.items| && Crawlable(urls.items[i]) {
          assert urls.items[i].s in ValidUrls(urls.items);
        }
      }
    }
  }

  /**
   * The 100-entry cap counts list entries, not distinct or valid URLs: 101
   * copies of one valid URL are refused.
   */
  lemma CapCountsEntries(url: string, fields: seq<Field>)
    requires StartsWith(url, "http://")
    requires fields == [Field("urls", Arr(seq(MaxUrls + 1, _ => Str(url))))]
    ensures ValidUrls(seq(MaxUrls + 1, _ => Str(url))) == {url}
    ensures Validate(Decoded(Obj(fields))) == Fail(HttpError(BadRequest, TooManyUrls))
  {
    var items := seq(MaxUrls + 1, _ => Str(url));
    assert items[0] == Str(url) && Crawlable(items[0]);
    ValidUrlsMembers(items);
    assert ValidUrls(items) == {url};
    assert Get(fields, "urls") == Some(Arr(items));
  }

  /**
   * Repeated entries collapse: three copies of one http URL and one https
   * URL give two URLs to crawl.
   */
  lemma DuplicatesCollapse(a: string, b: string, fields: seq<Field>)
    requires a == "http://example.com/1" && b == "https://example.com/2"
    requires fields == [Field("urls", Arr([Str(a), Str(a), Str(b), Str(a)]))]
    ensures Validate(Decoded(Obj(fields))) == Ok({a, b})
    ensures |{a, b}| == 2
  {
    assert Crawlable(Str(a)) && Crawlable(Str(b));
    assert a[7] != b[7];
    var items := [Str(a), Str(a), Str(b), Str(a)];
    ValidOfFour(items);
    ValidateList(fields, items);
  }

  /** A list without a crawlable entry gives the empty set. */
  lemma NothingCrawlable(items: seq<Data>)
    requires forall i :: 0 <= i < |items| ==> !Crawlable(items[i])
    ensures ValidUrls(items) == {}
  {
    ValidUrlsMembers(items);
  }

  /** A body `{"urls": items}` with at most 100 entries gets past every check but the last. */
  lemma ValidateList(fields: seq<Field>, items: seq<Data>)
    requires fields == [Field("urls", Arr(items))] && |items| <= MaxUrls
    ensures Validate(Decoded(Obj(fields))) == if ValidUrls(items) == {} then Fail(HttpError(BadRequest, NoValidUrls)) else Ok(ValidUrls(items))
  {
    assert Get(fields, "urls") == Some(Arr(items));
    ValidUrlsMembers(items);
  }

  lemma ValidOfFour(items: seq<Data>)
    requires |items| == 4 && items[1] == items[0] && items[3] == items[0]
    requires Crawlable(items[0]) && Crawlable(items[2])
    ensures ValidUrls(items) == {items[0].s, items[2].s}
  {
    var x, y := items[0], items[2];
    calc {
      ValidUrls(items);
      { assert items == [x, x, y] + [x]; ValidSnoc([x, x, y], x); }
      ValidUrls([x, x, y]) + {x.s};
      { assert [x, x] + [y] == [x, x, y]; ValidSnoc([x, x], y); }
      ValidUrls([x, x]) + {y.s} + {x.s};
      { assert [x] + [x] == [x, x]; ValidSnoc([x], x); }
      ValidUrls([x]) + {x.s} + {y.s} + {x.s};
      { assert [] + [x] == [x]; ValidSnoc([], x); }
      ({x.s, y.s});
    }
  }

  /** Appending one entry adds it to the set when it is crawlable. */
  lemma ValidSnoc(urls: seq<Data>, d: Data)
    ensures ValidUrls(urls + [d]) == ValidUrls(urls) + (if Crawlable(d) then {d.s} else {})
  {
    assert (urls + [d])[..|urls|] == urls;
  }

  /** An empty list, and a list with no http or https entry, are refused with "No valid URLs provided". */
  lemma NoCrawlableRefused(bad: string, bare: string, fields: seq<Field>)
    requires bad == "invalid_url" && bare == "www.example.com"
    requires fields == [Field("urls", Arr([Str(bad), Str(bare)]))]
    ensures Validate(Decoded(Obj([Field("urls", Arr([]))]))) == Fail(HttpError(BadRequest, NoValidUrls))
    ensures Validate(Decoded(Obj(fields))) == Fail(HttpError(BadRequest, NoValidUrls))
  {
    var items := [Str(bad), Str(bare)];
    assert !Crawlable(items[0]) by { assert bad[0] != 'h'; }
    assert !Crawlable(items[1]) by { assert bare[0] != 'h'; }
    NothingCrawlable([]);
    NothingCrawlable(items);
    ValidateList([Field("urls", Arr([]))], []);
    ValidateList(fields, items);
  }
}
