/**
 * The results route (`GET /results/{job_id}?page=n`): list the job's
 * directory, keep the `.json` names, sort them newest first by the name
 * without its extension, load each file and keep the records that have the
 * four result keys, and serve them 100 to a page. The file system is a map
 * from directory paths to what listing them gives; reading a file gives its
 * decoded value or fails.
 */
module Results {
  import opened Text
  import opened Maybe
  import opened JsonValue
  import opened Timestamps
  import opened Http
  import Storage
  import Crawl

  const PageSize := 100

  const PageNotPositive := "Input should be greater than 0"
  const JobIdRequired := "job_id must be a non-empty string"
  const JobNotFound := "Job results not found"
  const ReadDirError := "Error reading job directory"
  const PageOutOfRange := "Page number out of range"
  const ResponseInvalid := "Internal Server Error"

  /** What `open` followed by `json.load` gives for one file. */
  datatype FileRead = Unreadable | Parsed(data: Data)

  /** One name `os.listdir` returns, with what reading that path gives. */
  datatype Entry = Entry(name: string, read: FileRead)

  /** An existing directory: `os.listdir` raises, or lists these entries in its own order. */
  datatype DirState = Unlistable | Listing(entries: seq<Entry>)

  /** `PaginatedResults(results, current_page, total_pages)`. */
  datatype Page = Page(results: seq<Data>, currentPage: int, totalPages: int)

  /** `[f for f in os.listdir(directory) if f.endswith('.json')]`. */
  function JsonFiles(entries: seq<Entry>): seq<Entry> {
    if entries == [] then []
    else if EndsWith(entries[0].name, ".json") then [entries[0]] + JsonFiles(entries[1..])
    else JsonFiles(entries[1..])
  }

  /** The listing keeps every `.json` name, as often as it is listed, and nothing else. */
  lemma {:induction false} JsonFilesKeepsJson(entries: seq<Entry>)
    ensures forall i :: 0 <= i < |JsonFiles(entries)| ==> EndsWith(JsonFiles(entries)[i].name, ".json")
    ensures forall e: Entry :: EndsWith(e.name, ".json") ==> multiset(JsonFiles(entries))[e] == multiset(entries)[e]
  {
    if entries != [] {
      JsonFilesKeepsJson(entries[1..]);
      assert entries == [entries[0]] + entries[1..];
    }
  }

  /** The characters `x.rstrip('.json')` removes: a set, not a suffix. */
  const StripChars: set<char> := {'.', 'j', 's', 'o', 'n'}

  /** The sort key of a listed name. */
  function Key(e: Entry): string {
    RStrip(e.name, StripChars)
  }

  /** Keys never increase along `s`. */
  predicate Descending(s: seq<Entry>) {
    forall i, j :: 0 <= i < j < |s| ==> LexLe(Key(s[j]), Key(s[i]))
  }

  /**
   * Places `x` into a descending list after every entry whose key is at
   * least its own, so entries with equal keys stay in arrival order.
   */
  function InsertDesc(sorted: seq<Entry>, x: Entry): seq<Entry> {
    if sorted == [] then [x]
    else if !LexLe(Key(x), Key(sorted[0])) then [x] + sorted
    else [sorted[0]] + InsertDesc(sorted[1..], x)
  }

  /** `files.sort(key=lambda x: x.rstrip('.json'), reverse=True)`: stable, descending. */
  function SortDesc(s: seq<Entry>): seq<Entry> {
    if s == [] then [] else InsertDesc(SortDesc(s[..|s| - 1]), s[|s| - 1])
  }

  /** Inserting adds the one entry and loses none. */
  lemma {:induction false} InsertDescPermutes(sorted: seq<Entry>, x: Entry)
    ensures multiset(InsertDesc(sorted, x)) == multiset(sorted) + multiset{x}
    decreases |sorted|
  {
    if sorted != [] {
      assert sorted == [sorted[0]] + sorted[1..];
      if LexLe(Key(x), Key(sorted[0])) {
        InsertDescPermutes(sorted[1..], x);
      }
    }
  }

  lemma {:induction false} InsertDescSorted(sorted: seq<Entry>, x: Entry)
    requires Descending(sorted)
    ensures Descending(InsertDesc(sorted, x))
    decreases |sorted|
  {
    if sorted != [] {
      if !LexLe(Key(x), Key(sorted[0])) {
        InsertInFront(sorted, x);
      } else {
        InsertDescSorted(sorted[1..], x);
        InsertBehind(sorted, x);
      }
    }
  }

  lemma InsertInFront(sorted: seq<Entry>, x: Entry)
    requires Descending(sorted) && sorted != [] && !LexLe(Key(x), Key(sorted[0]))
    ensures Descending([x] + sorted)
  {
    var head := sorted[0];
    var r := [x] + sorted;
    LexLeTotal(Key(x), Key(head));
    forall j | 1 <= j < |r|
      ensures LexLe(Key(r[j]), Key(x))
    {
      if j > 1 {
        LexLeTransitive(Key(sorted[j - 1]), Key(head), Key(x));
      }
    }
  }

  lemma InsertBehind(sorted: seq<Entry>, x: Entry)
    requires Descending(sorted) && sorted != [] && LexLe(Key(x), Key(sorted[0]))
    requires Descending(InsertDesc(sorted[1..], x))
    ensures Descending(InsertDesc(sorted, x))
  {
    var head, tail := sorted[0], sorted[1..];
    assert forall i :: 0 <= i < |tail| ==> tail[i] == sorted[i + 1];
    InsertDescBounded(tail, x, Key(head));
    DescendingCons(head, InsertDesc(tail, x));
  }

  /** An entry whose key bounds a descending list's keys can go in front of it. */
  lemma DescendingCons(head: Entry, rest: seq<Entry>)
    requires Descending(rest)
    requires forall j :: 0 <= j < |rest| ==> LexLe(Key(rest[j]), Key(head))
    ensures Descending([head] + rest)
  {
    var r := [head] + rest;
    forall i, j | 0 <= i < j < |r|
      ensures LexLe(Key(r[j]), Key(r[i]))
    {
      assert r[j] == rest[j - 1];
      if i > 0 {
        assert r[i] == rest[i - 1];
      }
    }
  }

  /** Inserting keeps every key at most `bound` when the list and the new entry keep it. */
  lemma {:induction false} InsertDescBounded(sorted: seq<Entry>, x: Entry, bound: string)
    requires forall i :: 0 <= i < |sorted| ==> LexLe(Key(sorted[i]), bound)
    requires LexLe(Key(x), bound)
    ensures forall j :: 0 <= j < |InsertDesc(sorted, x)| ==> LexLe(Key(InsertDesc(sorted, x)[j]), bound)
    decreases |sorted|
  {
    if sorted != [] && LexLe(Key(x), Key(sorted[0])) {
      var tail := sorted[1..];
      assert forall i :: 0 <= i < |tail| ==> tail[i] == sorted[i + 1];
      InsertDescBounded(tail, x, bound);
      assert InsertDesc(sorted, x) == [sorted[0]] + InsertDesc(tail, x);
    }
  }

  /** The sort leaves the names in descending key order. */
  lemma {:induction false} SortDescSorted(s: seq<Entry>)
    ensures Descending(SortDesc(s))
  {
    if s != [] {
      var init, x := s[..|s| - 1], s[|s| - 1];
      SortDescSorted(init);
      InsertDescSorted(SortDesc(init), x);
    }
  }

  /** The sort keeps every name, as often as it occurs: its output is a permutation of its input. */
  lemma {:induction false} SortDescPermutes(s: seq<Entry>)
    ensures multiset(SortDesc(s)) == multiset(s)
  {
    if s != [] {
      var init, x := s[..|s| - 1], s[|s| - 1];
      SortDescPermutes(init);
      InsertDescPermutes(SortDesc(init), x);
      assert s == init + [x];
      assert multiset(s) == multiset(init) + multiset{x};
    }
  }

  /** `all(k in data for k in ("url", "title", "metadata", "content"))`, with no TypeError raised. */
  predicate Kept(d: Data) {
    && PyIn("url", d) == Some(true)
    && PyIn("title", d) == Some(true)
    && PyIn("metadata", d) == Some(true)
    && PyIn("content", d) == Some(true)
  }

  /** The record a file contributes: none when it cannot be read or lacks a key. */
  function RecordOf(e: Entry): seq<Data> {
    if e.read.Parsed? && Kept(e.read.data) then [e.read.data] else []
  }

  /** The records the loop over the sorted names collects, in that order. */
  function Records(files: seq<Entry>): seq<Data> {
    if files == [] then [] else RecordOf(files[0]) + Records(files[1..])
  }

  /**
   * The collected records are exactly the complete ones: each has all four
   * keys, and every file that parses to a complete record contributes it.
   */
  lemma {:induction false} RecordsAreComplete(files: seq<Entry>)
    ensures |Records(files)| <= |files|
    ensures forall i :: 0 <= i < |Records(files)| ==> Kept(Records(files)[i])
    ensures forall i :: 0 <= i < |files| && files[i].read.Parsed? && Kept(files[i].read.data) ==> files[i].read.data in Records(files)
  {
    if files != [] {
      RecordsAreComplete(files[1..]);
      assert forall i :: 1 <= i < |files| ==> files[i] == files[1..][i - 1];
    }
  }

  lemma {:induction false} RecordsAppend(a: seq<Entry>, b: seq<Entry>)
    ensures Records(a + b) == Records(a) + Records(b)
    decreases |a|
  {
    if a == [] {
      assert a + b == b;
    } else {
      assert (a + b)[0] == a[0] && (a + b)[1..] == a[1..] + b;
      RecordsAppend(a[1..], b);
    }
  }

  /** The loop that reads every sorted file and appends the records it keeps. */
  method CollectRecords(files: seq<Entry>) returns (results: seq<Data>)
    ensures results == Records(files)
  {
    results := [];
    for i := 0 to |files|
      invariant results == Records(files[..i])
    {
      RecordsAppend(files[..i], [files[i]]);
      assert files[..i + 1] == files[..i] + [files[i]];
      var file := files[i];
      if file.read.Parsed? {
        var data := file.read.data;
        if PyIn("url", data) == Some(true) && PyIn("title", data) == Some(true)
           && PyIn("metadata", data) == Some(true) && PyIn("content", data) == Some(true) {
          results := results + [data];
        }
      }
    }
    assert files[..|files|] == files;
  }

  lemma {:induction false} RecordsInsert(sorted: seq<Entry>, x: Entry)
    ensures multiset(Records(InsertDesc(sorted, x))) == multiset(Records(sorted)) + multiset(RecordOf(x))
    decreases |sorted|
  {
    if sorted != [] && LexLe(Key(x), Key(sorted[0])) {
      RecordsInsert(sorted[1..], x);
    }
  }

  /**
   * Sorting changes only the order of the served records: the records of
   * the sorted listing are those of the listing as `os.listdir` gave it.
   */
  lemma {:induction false} SortKeepsRecords(s: seq<Entry>)
    ensures multiset(Records(SortDesc(s))) == multiset(Records(s))
  {
    if s != [] {
      var init, last := s[..|s| - 1], s[|s| - 1];
      SortKeepsRecords(init);
      RecordsInsert(SortDesc(init), last);
      LastRecord(s);
    }
  }

  /** The records of `s` are those of all but its last entry, then the last entry's. */
  lemma LastRecord(s: seq<Entry>)
    requires s != []
    ensures Records(s) == Records(s[..|s| - 1]) + RecordOf(s[|s| - 1])
  {
    var init, last := s[..|s| - 1], s[|s| - 1];
    assert s == init + [last];
    RecordsAppend(init, [last]);
    assert [last][1..] == [];
  }

  /**
   * Which records are served does not depend on the order `os.listdir`
   * returns the names in: listings with the same entries give the same
   * records, counted with repetition.
   */
  lemma {:induction false} RecordsDependOnContents(s: seq<Entry>, t: seq<Entry>)
    requires multiset(s) == multiset(t)
    ensures multiset(Records(s)) == multiset(Records(t))
    decreases |s|
  {
    if s == [] {
      assert |t| == |multiset(t)| == 0;
    } else {
      var x := s[0];
      assert x in multiset(t);
      var k :| 0 <= k < |t| && t[k] == x;
      var before, after := t[..k], t[k + 1..];
      Split(t, k);
      assert s == [x] + s[1..];
      assert multiset(s[1..]) == multiset(s) - multiset{x};
      RecordsDependOnContents(s[1..], before + after);
      RecordsAround(before, x, after);
      assert Records(s) == RecordOf(x) + Records(s[1..]);
    }
  }

  lemma Split(t: seq<Entry>, k: int)
    requires 0 <= k < |t|
    ensures t == t[..k] + ([t[k]] + t[k + 1..])
    ensures multiset(t[..k] + t[k + 1..]) == multiset(t) - multiset{t[k]}
  {
    var before, x, after := t[..k], t[k], t[k + 1..];
    assert t == before + ([x] + after);
    assert multiset([x] + after) == multiset{x} + multiset(after);
  }

  /** Taking one entry out of a listing takes its record out of the records. */
  lemma RecordsAround(before: seq<Entry>, x: Entry, after: seq<Entry>)
    ensures multiset(Records(before + ([x] + after))) == multiset(RecordOf(x)) + multiset(Records(before + after))
  {
    RecordsAppend(before, [x] + after);
    RecordsAppend(before, after);
    assert ([x] + after)[0] == x && ([x] + after)[1..] == after;
    assert Records([x] + after) == RecordOf(x) + Records(after);
  }

  /** `(n + 99) // 100` pages for n records, and one page when there are none. */
  function TotalPages(n: nat): (t: int)
    ensures t >= 1
    ensures n == 0 ==> t == 1
    ensures n > 0 ==> (t - 1) * PageSize < n <= t * PageSize
  {
    if n > 0 then (n + PageSize - 1) / PageSize else 1
  }

  /** `results[(page - 1) * 100 : (page - 1) * 100 + 100]`, clipped as Python slices are. */
  function PageOf(records: seq<Data>, page: int): (r: seq<Data>)
    requires page >= 1
    ensures |r| <= PageSize
    ensures r != [] ==> (page - 1) * PageSize + |r| <= |records|
    ensures forall k :: 0 <= k < |r| ==> r[k] == records[(page - 1) * PageSize + k]
    ensures (page - 1) * PageSize < |records| ==> |r| == if page * PageSize <= |records| then PageSize else |records| - (page - 1) * PageSize
  {
    var start := (page - 1) * PageSize;
    if start >= |records| then []
    else if start + PageSize <= |records| then records[start..start + PageSize]
    else records[start..]
  }

  /**
   * What the response model accepts as a `CrawlResult`: an object whose
   * "url", "title" and "content" are strings ("metadata" may be anything).
   */
  predicate WellShaped(d: Data) {
    && d.Obj?
    && HasKey(d.fields, "metadata")
    && Get(d.fields, "url").Some? && Get(d.fields, "url").value.Str?
    && Get(d.fields, "title").Some? && Get(d.fields, "title").value.Str?
    && Get(d.fields, "content").Some? && Get(d.fields, "content").value.Str?
  }

  /** `get_crawl_results(job_id, page)` against the directories `fs`. */
  function Respond(jobId: string, page: int, fs: map<string, DirState>): Outcome<Page> {
    if page <= 0 then Fail(HttpError(Unprocessable, PageNotPositive))
    else if jobId == "" then Fail(HttpError(BadRequest, JobIdRequired))
    else
      var directory := Storage.Join(Storage.StorageDir, jobId);
      if directory !in fs then Fail(HttpError(NotFound, JobNotFound))
      else match fs[directory]
        case Unlistable => Fail(HttpError(ServerError, ReadDirError))
        case Listing(entries) => Serve(Records(SortDesc(JsonFiles(entries))), page)
  }

  /**
   * The end of the handler, once the records are collected: the range check
   * and the page, which the response model must accept.
   */
  function Serve(records: seq<Data>, page: int): Outcome<Page>
    requires page >= 1
  {
    var total := TotalPages(|records|);
    if page > total then Fail(HttpError(BadRequest, PageOutOfRange))
    else
      var items := PageOf(records, page);
      if exists k :: 0 <= k < |items| && !WellShaped(items[k]) then Fail(HttpError(ServerError, ResponseInvalid))
      else Ok(Page(items, page, total))
  }

  /** The handler, with its loop over the sorted files. */
  method GetCrawlResults(jobId: string, page: int, fs: map<string, DirState>) returns (r: Outcome<Page>)
    ensures r == Respond(jobId, page, fs)
  {
    if page <= 0 {
      return Fail(HttpError(Unprocessable, PageNotPositive));
    }
    if jobId == "" {
      return Fail(HttpError(BadRequest, JobIdRequired));
    }
    var directory := Storage.Join(Storage.StorageDir, jobId);
    if directory !in fs {
      return Fail(HttpError(NotFound, JobNotFound));
    }
    match fs[directory]
    case Unlistable =>
      return Fail(HttpError(ServerError, ReadDirError));
    case Listing(entries) =>
      var files := SortDesc(JsonFiles(entries));
      var results := CollectRecords(files);
      var total := TotalPages(|results|);
      if page > total {
        return Fail(HttpError(BadRequest, PageOutOfRange));
      }
      var items := PageOf(results, page);
      if exists k :: 0 <= k < |items| && !WellShaped(items[k]) {
        return Fail(HttpError(ServerError, ResponseInvalid));
      }
      r := Ok(Page(items, page, total));
  }

  /** Pages 1 to k laid end to end. */
  function Pages(records: seq<Data>, k: nat): seq<Data> {
    if k == 0 then [] else Pages(records, k - 1) + PageOf(records, k)
  }

  function Min(a: int, b: int): int {
    if a <= b then a else b
  }

  /** Page p is the slice of the records between the page's two bounds, both clipped to the end. */
  lemma PageIsSlice(records: seq<Data>, p: int)
    requires p >= 1
    ensures Min((p - 1) * PageSize, |records|) <= Min(p * PageSize, |records|)
    ensures PageOf(records, p) == records[Min((p - 1) * PageSize, |records|)..Min(p * PageSize, |records|)]
  {
    assert p * PageSize == (p - 1) * PageSize + PageSize;
  }

  lemma {:induction false} PagesArePrefix(records: seq<Data>, k: nat)
    ensures Pages(records, k) == records[..Min(k * PageSize, |records|)]
  {
    if k > 0 {
      PagesArePrefix(records, k - 1);
      PageIsSlice(records, k);
      var lo, hi := Min((k - 1) * PageSize, |records|), Min(k * PageSize, |records|);
      assert records[..hi] == records[..lo] + records[lo..hi];
    }
  }

  /**
   * Every record is served on exactly one page: pages 1 to `TotalPages`
   * laid end to end are the record list, each page but the last is full,
   * and the last is non-empty unless there are no records.
   */
  lemma PagesCoverRecords(records: seq<Data>)
    ensures Pages(records, TotalPages(|records|)) == records
    ensures forall p :: 1 <= p < TotalPages(|records|) ==> |PageOf(records, p)| == PageSize
    ensures records != [] ==> PageOf(records, TotalPages(|records|)) != []
  {
    var t := TotalPages(|records|);
    PagesArePrefix(records, t);
    assert records[..|records|] == records;
  }

  /**
   * A listable job directory always serves page 1: with no records it is an
   * empty page of one; otherwise it is the first hundred records, unless one
   * of them does not fit the response model.
   */
  lemma FirstPageServed(jobId: string, fs: map<string, DirState>)
    requires jobId != ""
    requires Storage.Join(Storage.StorageDir, jobId) in fs
    requires fs[Storage.Join(Storage.StorageDir, jobId)].Listing?
    ensures Respond(jobId, 1, fs) != Fail(HttpError(BadRequest, PageOutOfRange))
    ensures var records := Records(SortDesc(JsonFiles(fs[Storage.Join(Storage.StorageDir, jobId)].entries)));
            records == [] ==> Respond(jobId, 1, fs) == Ok(Page([], 1, 1))
  {
  }

  /** A page number below 1 is refused with 422 before anything else is looked at. */
  lemma NonPositivePageRejected(jobId: string, page: int, fs: map<string, DirState>)
    requires page <= 0
    ensures Respond(jobId, page, fs).Fail? && Respond(jobId, page, fs).error.status == Unprocessable
  {
  }

  /** A served page is within range and holds well-shaped records that have all four keys. */
  lemma ServedPageIsValid(jobId: string, page: int, fs: map<string, DirState>)
    requires Respond(jobId, page, fs).Ok?
    ensures var p := Respond(jobId, page, fs).value;
            && 1 <= p.currentPage == page <= p.totalPages
            && |p.results| <= PageSize
            && forall k :: 0 <= k < |p.results| ==> Kept(p.results[k]) && WellShaped(p.results[k])
  {
    var directory := Storage.Join(Storage.StorageDir, jobId);
    RecordsAreComplete(SortDesc(JsonFiles(fs[directory].entries)));
  }

  /** The stored file name's sort key is its 14-digit time stamp. */
  lemma StoredNameKey(t: Instant, e: Entry)
    requires Valid(t) && e.name == Storage.FileName(t)
    ensures Key(e) == Stamp14(t)
  {
    var s := e.name;
    var r := Key(e);
    assert s[13] == Stamp14(t)[13];
    assert IsDigit(s[13]) && s[13] !in StripChars;
    assert s[14..] == ".json";
    assert |r| == 14;
    assert r == s[..14];
  }

  /**
   * Files the result store wrote are served newest first: of two sorted
   * names made by the store at instants a and b, the earlier position has
   * the later (or the same) second.
   */
  lemma NewestFirst(entries: seq<Entry>, i: int, j: int, a: Instant, b: Instant)
    requires 0 <= i < j < |SortDesc(JsonFiles(entries))|
    requires Valid(a) && SortDesc(JsonFiles(entries))[i].name == Storage.FileName(a)
    requires Valid(b) && SortDesc(JsonFiles(entries))[j].name == Storage.FileName(b)
    ensures SecondKey(b) <= SecondKey(a)
  {
    var r := SortDesc(JsonFiles(entries));
    SortDescSorted(JsonFiles(entries));
    assert LexLe(Key(r[j]), Key(r[i]));
    StoredNameKey(a, r[i]);
    StoredNameKey(b, r[j]);
    StampOrder(b, a);
  }

  /**
   * The records the crawler stores, `{"url": ..., "links": [...]}`, lack
   * "title", "metadata" and "content", so this route never serves them.
   */
  lemma CrawlerRecordsNeverServed(url: string, links: seq<string>)
    ensures !Kept(Crawl.StoredRecord(url, links))
  {
    var d := Crawl.StoredRecord(url, links);
    assert d.fields[0].key == "url" && d.fields[1].key == "links";
    assert !HasKey(d.fields, "title");
  }

  /**
   * The route's own scenario: a job directory holding three complete
   * records and one `.json` file that does not parse, listed in any order.
   * Page 1 serves the three records as one page, and page 2 is out of range.
   */
  lemma ServedScenario(jobId: string, good: Data, entries: seq<Entry>, fs: map<string, DirState>)
    requires jobId != "" && Kept(good) && WellShaped(good)
    requires |entries| == 4 && forall i :: 0 <= i < 4 ==> EndsWith(entries[i].name, ".json")
    requires entries[0].read == entries[1].read == entries[2].read == Parsed(good)
    requires entries[3].read == Unreadable
    requires fs == map[Storage.JobDirectory(jobId) := Listing(entries)]
    ensures Respond(jobId, 1, fs) == Ok(Page([good, good, good], 1, 1))
    ensures Respond(jobId, 2, fs) == Fail(HttpError(BadRequest, PageOutOfRange))
  {
    ScenarioSorted(good, entries);
    var r := Records(SortDesc(JsonFiles(entries)));
    assert Respond(jobId, 1, fs) == Serve(r, 1);
    assert Respond(jobId, 2, fs) == Serve(r, 2);
    ServeThree(good, r);
  }

  lemma ServeThree(good: Data, r: seq<Data>)
    requires WellShaped(good) && r == [good, good, good]
    ensures Serve(r, 1) == Ok(Page(r, 1, 1))
    ensures Serve(r, 2) == Fail(HttpError(BadRequest, PageOutOfRange))
  {
    assert TotalPages(3) == 1;
    assert PageOf(r, 1) == r;
  }

  lemma ScenarioSorted(good: Data, entries: seq<Entry>)
    requires Kept(good)
    requires |entries| == 4 && forall i :: 0 <= i < 4 ==> EndsWith(entries[i].name, ".json")
    requires entries[0].read == entries[1].read == entries[2].read == Parsed(good)
    requires entries[3].read == Unreadable
    ensures Records(SortDesc(JsonFiles(entries))) == [good, good, good]
  {
    ScenarioRecords(good, entries);
    assert multiset([good, good, good]) == multiset{good, good, good};
    SortKeepsRecords(JsonFiles(entries));
    ThreeCopies(Records(SortDesc(JsonFiles(entries))), good);
  }

  lemma ThreeCopies(r: seq<Data>, good: Data)
    requires multiset(r) == multiset{good, good, good}
    ensures r == [good, good, good]
  {
    assert |r| == |multiset(r)| == 3;
    forall k | 0 <= k < 3
      ensures r[k] == good
    {
      assert r[k] in multiset(r);
    }
  }

  lemma ScenarioRecords(good: Data, entries: seq<Entry>)
    requires Kept(good)
    requires |entries| == 4 && forall i :: 0 <= i < 4 ==> EndsWith(entries[i].name, ".json")
    requires entries[0].read == entries[1].read == entries[2].read == Parsed(good)
    requires entries[3].read == Unreadable
    ensures Records(JsonFiles(entries)) == [good, good, good]
  {
    AllJson(entries);
    var e0, e1, e2 := entries[0], entries[1..], entries[2..];
    assert e2[1..] == entries[3..] && e1[1..] == e2;
    assert Records(entries[3..]) == [] by {
      assert entries[3..][1..] == [];
    }
    assert Records(e2) == [good];
    assert Records(e1) == [good, good];
    assert Records(entries) == RecordOf(e0) + Records(e1);
  }

  /** A listing of `.json` names only is kept whole. */
  lemma {:induction false} AllJson(entries: seq<Entry>)
    requires forall i :: 0 <= i < |entries| ==> EndsWith(entries[i].name, ".json")
    ensures JsonFiles(entries) == entries
  {
    if entries != [] {
      AllJson(entries[1..]);
      assert entries == [entries[0]] + entries[1..];
    }
  }
}
