/**
 * The retention sweep over the result store (`cleanup_with_custom_threshold`):
 * an age pass deletes every file last modified more than 30 days ago, then a
 * size pass, when the files still total more than the threshold, deletes
 * files oldest first until the running total is at or below it. A file whose
 * stat or removal fails is logged and skipped.
 *
 * The tree is a map from path to (modification time, size); times are whole
 * seconds. `os.walk`'s order is left open: each pass picks the next path from
 * those not yet visited.
 */
module Retention {

  /** Thirty days, in seconds. */
  const RetentionPeriod := 30 * 24 * 3600

  /** The size threshold of the sweep: 100 MiB. */
  const MiB := 1024 * 1024

  const SizeThreshold := 100 * MiB

  datatype FileStat = FileStat(mtime: int, size: nat)

  /** The paths whose `os.stat` raises and those whose `os.remove` raises. */
  datatype Faults = Faults(statFails: set<string>, removeFails: set<string>)

  /** The age pass removes `path`: its stat works, it is older than the period and its removal works. */
  predicate AgeRemoves(files: map<string, FileStat>, path: string, now: int, faults: Faults)
    requires path in files
  {
    && path !in faults.statFails
    && now - files[path].mtime > RetentionPeriod
    && path !in faults.removeFails
  }

  /** The tree after the age pass. */
  function AgePass(files: map<string, FileStat>, now: int, faults: Faults): (r: map<string, FileStat>)
    ensures forall p :: p in r ==> p in files && r[p] == files[p]
    ensures forall p :: p in files ==>
              (p !in r <==> p !in faults.statFails && now - files[p].mtime > RetentionPeriod && p !in faults.removeFails)
  {
    map p | p in files && !AgeRemoves(files, p, now, faults) :: files[p]
  }

  /**
   * The age test is strict: a file exactly thirty days old is kept, one a
   * second older is removed (when its stat and removal work).
   */
  lemma ThirtyDaysExactlyIsKept(files: map<string, FileStat>, path: string, now: int, faults: Faults)
    requires path in files && path !in faults.statFails && path !in faults.removeFails
    ensures files[path].mtime == now - RetentionPeriod ==> path in AgePass(files, now, faults)
    ensures files[path].mtime == now - RetentionPeriod - 1 ==> path !in AgePass(files, now, faults)
  {
  }

  /** One entry of `file_info_list`. */
  datatype Info = Info(path: string, mtime: int, size: nat)

  function SumSizes(infos: seq<Info>): nat {
    if infos == [] then 0 else infos[0].size + SumSizes(infos[1..])
  }

  predicate SortedByMtime(infos: seq<Info>) {
    forall i, j :: 0 <= i < j < |infos| ==> infos[i].mtime <= infos[j].mtime
  }

  /** Inserts `x` before the first entry that is not older than it. */
  function InsertByMtime(x: Info, infos: seq<Info>): seq<Info> {
    if infos == [] || x.mtime <= infos[0].mtime then [x] + infos
    else [infos[0]] + InsertByMtime(x, infos[1..])
  }

  /** Insertion keeps the list in order, adds `x` once and adds its size to the total. */
  lemma InsertByMtimeFacts(x: Info, infos: seq<Info>)
    requires SortedByMtime(infos)
    ensures SortedByMtime(InsertByMtime(x, infos))
    ensures multiset(InsertByMtime(x, infos)) == multiset(infos) + multiset{x}
    ensures SumSizes(InsertByMtime(x, infos)) == x.size + SumSizes(infos)
  {
    InsertKeepsOrder(x, infos);
    InsertAddsOne(x, infos);
  }

  lemma {:induction false} InsertKeepsOrder(x: Info, infos: seq<Info>)
    requires SortedByMtime(infos)
    ensures SortedByMtime(InsertByMtime(x, infos))
    decreases |infos|
  {
    if infos != [] && x.mtime > infos[0].mtime {
      var head, tail := infos[0], infos[1..];
      InsertKeepsOrder(x, tail);
      assert forall i :: 0 <= i < |tail| ==> tail[i] == infos[i + 1];
      InsertNotBefore(x, tail, head.mtime);
      SortedCons(head, InsertByMtime(x, tail));
    }
  }

  /** Every entry of the insertion's result is at least as new as `bound` when `x` and `infos` are. */
  lemma {:induction false} InsertNotBefore(x: Info, infos: seq<Info>, bound: int)
    requires forall i :: 0 <= i < |infos| ==> bound <= infos[i].mtime
    requires bound <= x.mtime
    ensures forall j :: 0 <= j < |InsertByMtime(x, infos)| ==> bound <= InsertByMtime(x, infos)[j].mtime
    decreases |infos|
  {
    if infos != [] && x.mtime > infos[0].mtime {
      var tail := infos[1..];
      assert forall i :: 0 <= i < |tail| ==> tail[i] == infos[i + 1];
      InsertNotBefore(x, tail, bound);
      assert InsertByMtime(x, infos) == [infos[0]] + InsertByMtime(x, tail);
    }
  }

  lemma SortedCons(head: Info, rest: seq<Info>)
    requires SortedByMtime(rest)
    requires forall j :: 0 <= j < |rest| ==> head.mtime <= rest[j].mtime
    ensures SortedByMtime([head] + rest)
  {
    var r := [head] + rest;
    forall i, j | 0 <= i < j < |r|
      ensures r[i].mtime <= r[j].mtime
    {
      assert r[j] == rest[j - 1];
      if i > 0 {
        assert r[i] == rest[i - 1];
      }
    }
  }

  lemma {:induction false} InsertAddsOne(x: Info, infos: seq<Info>)
    ensures multiset(InsertByMtime(x, infos)) == multiset(infos) + multiset{x}
    ensures SumSizes(InsertByMtime(x, infos)) == x.size + SumSizes(infos)
    decreases |infos|
  {
    if infos == [] || x.mtime <= infos[0].mtime {
      assert ([x] + infos)[1..] == infos;
    } else {
      var rest := InsertByMtime(x, infos[1..]);
      InsertAddsOne(x, infos[1..]);
      assert infos == [infos[0]] + infos[1..];
      assert ([infos[0]] + rest)[1..] == rest;
    }
  }

  /** `file_info_list.sort(key=lambda x: x['mtime'])`: ascending modification time. */
  function SortByMtime(infos: seq<Info>): (r: seq<Info>)
    ensures SortedByMtime(r)
    ensures multiset(r) == multiset(infos)
    ensures SumSizes(r) == SumSizes(infos)
  {
    if infos == [] then []
    else
      assert infos == [infos[0]] + infos[1..];
      InsertByMtimeFacts(infos[0], SortByMtime(infos[1..]));
      InsertByMtime(infos[0], SortByMtime(infos[1..]))
  }

  /** The entries of `infos` whose removal succeeds, in order. */
  function Removable(infos: seq<Info>, removeFails: set<string>): seq<Info> {
    if infos == [] then []
    else if infos[0].path in removeFails then Removable(infos[1..], removeFails)
    else [infos[0]] + Removable(infos[1..], removeFails)
  }

  function Paths(infos: seq<Info>): seq<string> {
    if infos == [] then [] else [infos[0].path] + Paths(infos[1..])
  }

  /** What the eviction loop did: how many entries it visited before it stopped, what it removed, its last total. */
  datatype Eviction = Eviction(visited: nat, removed: seq<string>, finalTotal: int)

  /**
   * The eviction loop over `infos` starting from the running total `total`:
   * stop once the total is at or below the threshold; a removal that fails
   * leaves the total as it was.
   */
  function Evict(infos: seq<Info>, total: int, threshold: int, removeFails: set<string>): (e: Eviction)
    ensures e.visited <= |infos|
  {
    if infos == [] || total <= threshold then Eviction(0, [], total)
    else
      var ok := infos[0].path !in removeFails;
      var rest := Evict(infos[1..], if ok then total - infos[0].size else total, threshold, removeFails);
      Eviction(rest.visited + 1, if ok then [infos[0].path] + rest.removed else rest.removed, rest.finalTotal)
  }

  /** The running total after the first `j` entries were visited. */
  function RunningTotal(infos: seq<Info>, total: int, removeFails: set<string>, j: nat): int
    requires j <= |infos|
  {
    total - SumSizes(Removable(infos[..j], removeFails))
  }

  lemma {:induction false} RemovablePrefixStep(infos: seq<Info>, removeFails: set<string>, j: nat)
    requires 0 < j <= |infos|
    ensures Removable(infos[..j], removeFails)
            == (if infos[0].path in removeFails then [] else [infos[0]]) + Removable(infos[1..][..j - 1], removeFails)
  {
    assert infos[..j][1..] == infos[1..][..j - 1];
  }

  /**
   * The eviction removes exactly the removable entries of a prefix of `infos`
   * (the oldest ones, once sorted), and it stops as soon as the running total
   * is at or below the threshold: before every visited entry the total was
   * still above it, and it only stops early once the total is at or below it.
   */
  lemma {:induction false} EvictionRemovesOldestPrefix(infos: seq<Info>, total: int, threshold: int, removeFails: set<string>)
    ensures var e := Evict(infos, total, threshold, removeFails);
            && e.removed == Paths(Removable(infos[..e.visited], removeFails))
            && e.finalTotal == RunningTotal(infos, total, removeFails, e.visited)
            && (forall j :: 0 <= j < e.visited ==> RunningTotal(infos, total, removeFails, j) > threshold)
            && (e.visited < |infos| ==> e.finalTotal <= threshold)
    decreases |infos|
  {
    var e := Evict(infos, total, threshold, removeFails);
    assert infos[..0] == [];
    if infos != [] && total > threshold {
      var ok := infos[0].path !in removeFails;
      var total' := if ok then total - infos[0].size else total;
      var rest := Evict(infos[1..], total', threshold, removeFails);
      EvictionRemovesOldestPrefix(infos[1..], total', threshold, removeFails);
      RemovablePrefixStep(infos, removeFails, e.visited);
      var tail := Removable(infos[1..][..e.visited - 1], removeFails);
      assert e.visited == rest.visited + 1;
      if ok {
        ConsFacts(infos[0], tail);
        assert e.removed == [infos[0].path] + rest.removed;
      } else {
        assert [] + tail == tail;
        assert e.removed == rest.removed;
      }
      forall j | 0 <= j < e.visited
        ensures RunningTotal(infos, total, removeFails, j) > threshold
      {
        if j > 0 {
          RemovablePrefixStep(infos, removeFails, j);
          var tailJ := Removable(infos[1..][..j - 1], removeFails);
          if ok {
            ConsFacts(infos[0], tailJ);
          } else {
            assert [] + tailJ == tailJ;
          }
          assert RunningTotal(infos, total, removeFails, j) == RunningTotal(infos[1..], total', removeFails, j - 1);
        }
      }
    }
  }

  /**
   * Without removal failures, and when the running total starts at no more
   * than the listed sizes plus the threshold (in particular when it is their
   * sum and the threshold is not negative), the eviction ends at or below the
   * threshold.
   */
  lemma {:induction false} EvictionMeetsThreshold(infos: seq<Info>, total: int, threshold: int, removeFails: set<string>)
    requires forall i :: 0 <= i < |infos| ==> infos[i].path !in removeFails
    requires total - SumSizes(infos) <= threshold
    ensures Evict(infos, total, threshold, removeFails).finalTotal <= threshold
    decreases |infos|
  {
    if infos != [] && total > threshold {
      EvictionMeetsThreshold(infos[1..], total - infos[0].size, threshold, removeFails);
    }
  }

  /** Nothing is evicted while the total is at or below the threshold; above it, the oldest entry goes first. */
  lemma EvictionStartsWithOldest(infos: seq<Info>, total: int, threshold: int, removeFails: set<string>)
    ensures total <= threshold ==> Evict(infos, total, threshold, removeFails).removed == []
    ensures total > threshold && infos != [] && infos[0].path !in removeFails ==>
              Evict(infos, total, threshold, removeFails).removed[0] == infos[0].path
  {
  }

  /** The test's age scenario: a 31-day-old file is removed and a 5-day-old one is kept. */
  lemma AgePassExample(now: int)
    ensures AgePass(map["old_file.txt" := FileStat(now - 31 * 24 * 3600, 7),
                        "recent_file.txt" := FileStat(now - 5 * 24 * 3600, 7)],
                    now, Faults({}, {}))
            == map["recent_file.txt" := FileStat(now - 5 * 24 * 3600, 7)]
  {
    var files := map["old_file.txt" := FileStat(now - 31 * 24 * 3600, 7),
                     "recent_file.txt" := FileStat(now - 5 * 24 * 3600, 7)];
    assert "old_file.txt" != "recent_file.txt";
    assert AgePass(files, now, Faults({}, {})).Keys == {"recent_file.txt"};
  }

  /**
   * The test's size scenario: two 60 MiB files against the 100 MiB threshold;
   * whatever order the walk lists them in, only the older file2 is removed.
   */
  lemma SizePassExample(now: int, walk: seq<Info>)
    requires var f1 := Info("file1.txt", now - 1 * 24 * 3600, 60 * MiB);
             var f2 := Info("file2.txt", now - 2 * 24 * 3600, 60 * MiB);
             walk == [f1, f2] || walk == [f2, f1]
    ensures var e := Evict(SortByMtime(walk), SumSizes(walk), SizeThreshold, {});
            e.removed == ["file2.txt"] && e.finalTotal == 60 * MiB
  {
    var f1 := Info("file1.txt", now - 1 * 24 * 3600, 60 * MiB);
    var f2 := Info("file2.txt", now - 2 * 24 * 3600, 60 * MiB);
    SortTwo(walk[0], walk[1]);
    assert walk == [walk[0], walk[1]];
    assert SortByMtime(walk) == [f2, f1];
    SumTwo(walk[0], walk[1]);
    EvictTwo(f2, f1);
  }

  lemma SumTwo(a: Info, b: Info)
    ensures SumSizes([a, b]) == a.size + b.size
  {
    assert [a, b][1..] == [b];
    assert [b][1..] == [];
    assert SumSizes([b]) == b.size + SumSizes([]);
  }

  lemma EvictTwo(older: Info, newer: Info)
    requires older.size == newer.size == 60 * MiB
    ensures Evict([older, newer], 120 * MiB, SizeThreshold, {}) == Eviction(1, [older.path], 60 * MiB)
  {
    assert [older, newer][1..] == [newer];
    assert Evict([newer], 60 * MiB, SizeThreshold, {}) == Eviction(0, [], 60 * MiB);
  }

  lemma SortTwo(a: Info, b: Info)
    ensures SortByMtime([a, b]) == if a.mtime <= b.mtime then [a, b] else [b, a]
  {
    assert [a, b][1..] == [b];
    assert [b][1..] == [];
    assert SortByMtime([b]) == InsertByMtime(b, []) == [b];
  }

  /** Which entries of a walk listing are `path`. */
  predicate Listed(walk: seq<Info>, path: string) {
    exists i :: 0 <= i < |walk| && walk[i].path == path
  }

  /** The storage tree the sweep runs over. */
  class StorageTree {
    var files: map<string, FileStat>

    constructor (files: map<string, FileStat>)
      ensures this.files == files
    {
      this.files := files;
    }

    /**
     * The sweep at time `now` against `threshold`. Each walk calls `os.stat`
     * and `os.remove` afresh, so the age pass fails as `ageFaults` says and
     * the listing and the size pass as `sizeFaults` says. `walk` is
     * `file_info_list` as the second walk built it, before sorting, and
     * `eviction` what the size pass did (nothing when the total is within
     * the threshold).
     */
    method Cleanup(now: int, threshold: int, ageFaults: Faults, sizeFaults: Faults) returns (walk: seq<Info>, eviction: Eviction)
      modifies this
      ensures var aged := AgePass(old(files), now, ageFaults);
              && IsWalkListing(walk, aged, sizeFaults)
              && eviction == Evict(SortByMtime(walk), SumSizes(walk), threshold, sizeFaults.removeFails)
              && files == aged - (set p | p in eviction.removed)
    {
      RemoveExpired(now, ageFaults);
      var total;
      walk, total := ListFiles(sizeFaults);
      var sorted := SortByMtime(walk);
      if total > threshold {
        eviction := EvictOldest(sorted, total, threshold, sizeFaults.removeFails);
      } else {
        eviction := Eviction(0, [], total);
      }
    }

    /** The age pass: walks every file once and removes those `AgeRemoves` picks. */
    method RemoveExpired(now: int, faults: Faults)
      modifies this
      ensures files == AgePass(old(files), now, faults)
    {
      ghost var original := files;
      var pending := files.Keys;
      while pending != {}
        invariant pending <= original.Keys
        invariant files == map p | p in original && !(p !in pending && AgeRemoves(original, p, now, faults)) :: original[p]
        decreases pending
      {
        var path :| path in pending;
        if path !in faults.statFails {
          var stat := files[path];
          if now - stat.mtime > RetentionPeriod {
            if path !in faults.removeFails {
              files := files - {path};
            }
          }
        }
        pending := pending - {path};
      }
    }

    /** The second walk: lists every file whose stat works, with its time and size, and sums the sizes. */
    method ListFiles(faults: Faults) returns (walk: seq<Info>, total: int)
      ensures IsWalkListing(walk, files, faults)
      ensures total == SumSizes(walk)
    {
      total := 0;
      walk := [];
      var pending := files.Keys;
      while pending != {}
        invariant pending <= files.Keys
        invariant total == SumSizes(walk)
        invariant forall i :: 0 <= i < |walk| ==> Describes(walk[i], files, faults) && walk[i].path !in pending
        invariant forall p :: p in files && p !in pending && p !in faults.statFails ==> Listed(walk, p)
        invariant forall i, j :: 0 <= i < j < |walk| ==> walk[i].path != walk[j].path
        decreases pending
      {
        var path :| path in pending;
        if path !in faults.statFails {
          var stat := files[path];
          var info := Info(path, stat.mtime, stat.size);
          SumSizesAppend(walk, info);
          ghost var before := walk;
          total := total + stat.size;
          walk := walk + [info];
          forall q | Listed(before, q)
            ensures Listed(walk, q)
          {
            var i :| 0 <= i < |before| && before[i].path == q;
            assert walk[i] == before[i];
          }
          assert walk[|walk| - 1].path == path;
        }
        pending := pending - {path};
      }
    }

    /** The size pass's loop over the sorted listing, starting from the running total `total`. */
    method EvictOldest(sorted: seq<Info>, total: int, threshold: int, removeFails: set<string>) returns (eviction: Eviction)
      modifies this
      ensures eviction == Evict(sorted, total, threshold, removeFails)
      ensures files == old(files) - (set p | p in eviction.removed)
    {
      var running := total;
      var removed: seq<string> := [];
      var i := 0;
      while i < |sorted|
        invariant 0 <= i <= |sorted|
        invariant Evict(sorted, total, threshold, removeFails)
                  == var rest := Evict(sorted[i..], running, threshold, removeFails);
                     Eviction(i + rest.visited, removed + rest.removed, rest.finalTotal)
        invariant files == old(files) - (set p | p in removed)
      {
        if running <= threshold {
          break;
        }
        var info := sorted[i];
        assert sorted[i..][1..] == sorted[i + 1..];
        if info.path !in removeFails {
          files := files - {info.path};
          running := running - info.size;
          removed := removed + [info.path];
        }
        i := i + 1;
      }
      eviction := Eviction(i, removed, running);
    }
  }

  /** `info` is what a working `os.stat` reports for its path. */
  predicate Describes(info: Info, files: map<string, FileStat>, faults: Faults) {
    && info.path in files && info.path !in faults.statFails
    && info.mtime == files[info.path].mtime && info.size == files[info.path].size
  }

  /** `walk` lists each file of `files` whose stat works exactly once, with its time and size. */
  predicate IsWalkListing(walk: seq<Info>, files: map<string, FileStat>, faults: Faults) {
    AllDescribe(walk, files, faults) && AllListed(walk, files, faults) && DistinctPaths(walk)
  }

  predicate AllDescribe(walk: seq<Info>, files: map<string, FileStat>, faults: Faults) {
    forall i :: 0 <= i < |walk| ==> Describes(walk[i], files, faults)
  }

  predicate AllListed(walk: seq<Info>, files: map<string, FileStat>, faults: Faults) {
    forall p :: p in files && p !in faults.statFails ==> Listed(walk, p)
  }

  predicate DistinctPaths(infos: seq<Info>) {
    forall i, j :: 0 <= i < j < |infos| ==> infos[i].path != infos[j].path
  }

  lemma ConsFacts(x: Info, infos: seq<Info>)
    ensures Paths([x] + infos) == [x.path] + Paths(infos)
    ensures SumSizes([x] + infos) == x.size + SumSizes(infos)
  {
    assert ([x] + infos)[1..] == infos;
  }

  lemma {:induction false} SumSizesAppend(infos: seq<Info>, x: Info)
    ensures SumSizes(infos + [x]) == SumSizes(infos) + x.size
    decreases |infos|
  {
    if infos == [] {
      assert [] + [x] == [x];
    } else {
      assert (infos + [x])[1..] == infos[1..] + [x];
      SumSizesAppend(infos[1..], x);
    }
  }

  // ---------------------------------------------------------------------
  // A second sweep with no new writes removes nothing.
  // ---------------------------------------------------------------------

  /**
   * The sweep is idempotent: run again at the same time, against the same
   * failures and on the tree a first run left, its age pass removes nothing
   * and its size pass removes nothing, whatever order either walk of either
   * run visits the files in.
   */
  lemma {:induction false} CleanupIdempotent(files: map<string, FileStat>, now: int, threshold: int, ageFaults: Faults, sizeFaults: Faults,
                          walk: seq<Info>, walk': seq<Info>)
    requires IsWalkListing(walk, AgePass(files, now, ageFaults), sizeFaults)
    requires var e := Evict(SortByMtime(walk), SumSizes(walk), threshold, sizeFaults.removeFails);
             IsWalkListing(walk', AgePass(files, now, ageFaults) - (set p | p in e.removed), sizeFaults)
    ensures var e := Evict(SortByMtime(walk), SumSizes(walk), threshold, sizeFaults.removeFails);
            var after := AgePass(files, now, ageFaults) - (set p | p in e.removed);
            && AgePass(after, now, ageFaults) == after
            && Evict(SortByMtime(walk'), SumSizes(walk'), threshold, sizeFaults.removeFails).removed == []
  {
    var aged := AgePass(files, now, ageFaults);
    var rf := sizeFaults.removeFails;
    var e := Evict(SortByMtime(walk), SumSizes(walk), threshold, rf);
    AgePassAgain(files, now, ageFaults, (set p | p in e.removed));
    SecondListing(walk, aged, sizeFaults, threshold, walk');
    var sorted' := SortByMtime(walk');
    if e.finalTotal <= threshold {
      EvictionStartsWithOldest(sorted', SumSizes(walk'), threshold, rf);
    } else {
      forall i | 0 <= i < |sorted'|
        ensures sorted'[i].path in rf
      {
        assert sorted'[i] in multiset(walk');
      }
      NothingRemovable(sorted', SumSizes(walk'), threshold, rf);
    }
  }

  /**
   * What the second walk lists after a first size pass: files totalling the
   * pass's final total and, when that is still above the threshold, only
   * files whose removal fails.
   */
  lemma {:induction false} SecondListing(walk: seq<Info>, aged: map<string, FileStat>, faults: Faults, threshold: int, walk': seq<Info>)
    requires IsWalkListing(walk, aged, faults)
    requires var e := Evict(SortByMtime(walk), SumSizes(walk), threshold, faults.removeFails);
             IsWalkListing(walk', aged - (set p | p in e.removed), faults)
    ensures var e := Evict(SortByMtime(walk), SumSizes(walk), threshold, faults.removeFails);
            && SumSizes(walk') == e.finalTotal
            && (e.finalTotal > threshold ==> forall i :: 0 <= i < |walk'| ==> walk'[i].path in faults.removeFails)
  {
    SecondListingTotal(walk, aged, faults, threshold, walk');
    SecondListingStuck(walk, aged, faults, threshold, walk');
  }

  lemma {:induction false} SecondListingTotal(walk: seq<Info>, aged: map<string, FileStat>, faults: Faults, threshold: int, walk': seq<Info>)
    requires IsWalkListing(walk, aged, faults)
    requires var e := Evict(SortByMtime(walk), SumSizes(walk), threshold, faults.removeFails);
             IsWalkListing(walk', aged - (set p | p in e.removed), faults)
    ensures SumSizes(walk') == Evict(SortByMtime(walk), SumSizes(walk), threshold, faults.removeFails).finalTotal
  {
    var rf := faults.removeFails;
    var sorted := SortByMtime(walk);
    var e := Evict(sorted, SumSizes(walk), threshold, rf);
    EvictionRemovesOldestPrefix(sorted, SumSizes(walk), threshold, rf);
    var taken := Removable(sorted[..e.visited], rf);
    assert e.removed == Paths(taken);
    SortedListing(walk, aged, faults);
    TakenListing(sorted, aged, faults, e.visited);
    ListingSplit(walk, taken, walk', aged, (set p | p in e.removed), faults);
  }

  lemma {:induction false} SecondListingStuck(walk: seq<Info>, aged: map<string, FileStat>, faults: Faults, threshold: int, walk': seq<Info>)
    requires IsWalkListing(walk, aged, faults)
    requires var e := Evict(SortByMtime(walk), SumSizes(walk), threshold, faults.removeFails);
             IsWalkListing(walk', aged - (set p | p in e.removed), faults)
    ensures Evict(SortByMtime(walk), SumSizes(walk), threshold, faults.removeFails).finalTotal > threshold ==>
              forall i :: 0 <= i < |walk'| ==> walk'[i].path in faults.removeFails
  {
    var rf := faults.removeFails;
    var sorted := SortByMtime(walk);
    var e := Evict(sorted, SumSizes(walk), threshold, rf);
    if e.finalTotal > threshold {
      EvictionRemovesOldestPrefix(sorted, SumSizes(walk), threshold, rf);
      assert sorted[..e.visited] == sorted;
      SortedListing(walk, aged, faults);
      LeftoversAreStuck(sorted, aged, faults, walk', (set p | p in e.removed));
    }
  }

  /** The age pass keeps everything that survived an earlier age pass at the same time. */
  lemma {:induction false} AgePassAgain(files: map<string, FileStat>, now: int, faults: Faults, gone: set<string>)
    ensures AgePass(AgePass(files, now, faults) - gone, now, faults) == AgePass(files, now, faults) - gone
  {
  }

  /** The eviction removes nothing from a list none of whose entries can be removed. */
  lemma {:induction false} NothingRemovable(infos: seq<Info>, total: int, threshold: int, removeFails: set<string>)
    requires forall i :: 0 <= i < |infos| ==> infos[i].path in removeFails
    ensures Evict(infos, total, threshold, removeFails).removed == []
    decreases |infos|
  {
    if infos != [] && total > threshold {
      NothingRemovable(infos[1..], total, threshold, removeFails);
    }
  }

  /**
   * When the first size pass went through the whole sorted listing, every
   * file the second walk lists is one whose removal fails.
   */
  lemma {:induction false} LeftoversAreStuck(sorted: seq<Info>, aged: map<string, FileStat>, faults: Faults, walk': seq<Info>, gone: set<string>)
    requires IsWalkListing(sorted, aged, faults)
    requires gone == set p | p in Paths(Removable(sorted, faults.removeFails))
    requires IsWalkListing(walk', aged - gone, faults)
    ensures forall i :: 0 <= i < |walk'| ==> walk'[i].path in faults.removeFails
  {
    var taken := Removable(sorted, faults.removeFails);
    RemovableFacts(sorted, faults.removeFails);
    PathsListed(taken);
    forall i | 0 <= i < |walk'|
      ensures walk'[i].path in faults.removeFails
    {
      var q := walk'[i].path;
      assert Describes(walk'[i], aged - gone, faults);
      assert Listed(sorted, q);
      var m :| 0 <= m < |sorted| && sorted[m].path == q;
      assert q !in gone;
      assert !Listed(taken, q);
      assert sorted[m] !in taken;
    }
  }

  /** Sorting a listing gives a listing of the same tree. */
  lemma {:induction false} SortedListing(walk: seq<Info>, files: map<string, FileStat>, faults: Faults)
    requires IsWalkListing(walk, files, faults)
    ensures IsWalkListing(SortByMtime(walk), files, faults)
  {
    var sorted := SortByMtime(walk);
    SortKeepsDistinct(walk);
    forall i | 0 <= i < |sorted|
      ensures Describes(sorted[i], files, faults)
    {
      assert sorted[i] in multiset(walk);
    }
    forall q | q in files && q !in faults.statFails
      ensures Listed(sorted, q)
    {
      var m :| 0 <= m < |walk| && walk[m].path == q;
      assert walk[m] in multiset(sorted);
      var k :| 0 <= k < |sorted| && sorted[k] == walk[m];
    }
  }

  /** What the size pass removed from a prefix of the sorted listing is a listing of the removed files. */
  lemma {:induction false} TakenListing(sorted: seq<Info>, files: map<string, FileStat>, faults: Faults, v: nat)
    requires IsWalkListing(sorted, files, faults) && v <= |sorted|
    ensures var taken := Removable(sorted[..v], faults.removeFails);
            IsWalkListing(taken, Restrict(files, set p | p in Paths(taken)), faults)
  {
    var prefix := sorted[..v];
    var taken := Removable(prefix, faults.removeFails);
    var part := set p | p in Paths(taken);
    assert DistinctPaths(prefix);
    RemovableFacts(prefix, faults.removeFails);
    PathsListed(taken);
    forall i | 0 <= i < |taken|
      ensures Describes(taken[i], Restrict(files, part), faults)
    {
      assert taken[i] in prefix;
      assert Listed(taken, taken[i].path);
    }
  }

  /** The files of `files` whose path is in `part`. */
  function Restrict(files: map<string, FileStat>, part: set<string>): map<string, FileStat> {
    map p | p in files && p in part :: files[p]
  }

  /** A listing of a tree splits into a listing of any part of it and one of the rest. */
  lemma {:induction false} ListingSplit(walk: seq<Info>, inside: seq<Info>, outside: seq<Info>, files: map<string, FileStat>,
                     part: set<string>, faults: Faults)
    requires IsWalkListing(walk, files, faults)
    requires IsWalkListing(inside, Restrict(files, part), faults)
    requires IsWalkListing(outside, files - part, faults)
    ensures SumSizes(walk) == SumSizes(inside) + SumSizes(outside)
  {
    JoinDescribes(inside, outside, files, part, faults);
    JoinListed(inside, outside, files, part, faults);
    JoinDistinct(inside, outside, files, part, faults);
    ListingsSameSum(inside + outside, walk, files, faults);
    SumSizesConcat(inside, outside);
  }

  lemma {:induction false} JoinDescribes(inside: seq<Info>, outside: seq<Info>, files: map<string, FileStat>, part: set<string>, faults: Faults)
    requires AllDescribe(inside, Restrict(files, part), faults)
    requires AllDescribe(outside, files - part, faults)
    ensures AllDescribe(inside + outside, files, faults)
  {
    var both := inside + outside;
    forall i | 0 <= i < |both|
      ensures Describes(both[i], files, faults)
    {
      if i < |inside| {
        assert both[i] == inside[i];
        assert Describes(inside[i], Restrict(files, part), faults);
      } else {
        assert both[i] == outside[i - |inside|];
        assert Describes(outside[i - |inside|], files - part, faults);
      }
    }
  }

  lemma {:induction false} JoinListed(inside: seq<Info>, outside: seq<Info>, files: map<string, FileStat>, part: set<string>, faults: Faults)
    requires AllListed(inside, Restrict(files, part), faults)
    requires AllListed(outside, files - part, faults)
    ensures AllListed(inside + outside, files, faults)
  {
    var both := inside + outside;
    forall q | q in files && q !in faults.statFails
      ensures Listed(both, q)
    {
      if q in part {
        assert q in Restrict(files, part);
        var i :| 0 <= i < |inside| && inside[i].path == q;
        assert both[i] == inside[i];
      } else {
        assert q in files - part;
        var i :| 0 <= i < |outside| && outside[i].path == q;
        assert both[|inside| + i] == outside[i];
      }
    }
  }

  lemma {:induction false} JoinDistinct(inside: seq<Info>, outside: seq<Info>, files: map<string, FileStat>, part: set<string>, faults: Faults)
    requires AllDescribe(inside, Restrict(files, part), faults) && DistinctPaths(inside)
    requires AllDescribe(outside, files - part, faults) && DistinctPaths(outside)
    ensures DistinctPaths(inside + outside)
  {
    var both := inside + outside;
    forall i, j | 0 <= i < j < |both|
      ensures both[i].path != both[j].path
    {
      if j < |inside| {
        assert both[i] == inside[i] && both[j] == inside[j];
      } else if i >= |inside| {
        assert both[i] == outside[i - |inside|] && both[j] == outside[j - |inside|];
      } else {
        assert both[i] == inside[i] && both[j] == outside[j - |inside|];
        assert Describes(inside[i], Restrict(files, part), faults);
        assert Describes(outside[j - |inside|], files - part, faults);
      }
    }
  }

  /** Any two listings of the same tree have the same total size. */
  lemma {:induction false} ListingsSameSum(w1: seq<Info>, w2: seq<Info>, files: map<string, FileStat>, faults: Faults)
    requires IsWalkListing(w1, files, faults) && IsWalkListing(w2, files, faults)
    ensures SumSizes(w1) == SumSizes(w2)
    decreases |w1|
  {
    if w1 == [] {
      ListingEmpty(w1, files, faults);
      ListingEmpty(w2, files, faults);
    } else {
      var x := w1[0];
      var k := SameEntry(x, w1, w2, files, faults);
      DropListed(w1, files, faults, 0);
      DropListed(w2, files, faults, k);
      assert w1[..0] + w1[1..] == w1[1..];
      ListingsSameSum(w1[1..], w2[..k] + w2[k + 1..], files - {x.path}, faults);
      SumWithout(w2, k);
    }
  }

  /** The entry a listing has for a listed file is the one every listing of the tree has. */
  lemma {:induction false} SameEntry(x: Info, w1: seq<Info>, w2: seq<Info>, files: map<string, FileStat>, faults: Faults) returns (k: nat)
    requires IsWalkListing(w1, files, faults) && IsWalkListing(w2, files, faults)
    requires w1 != [] && x == w1[0]
    ensures k < |w2| && w2[k] == x
  {
    assert Describes(x, files, faults);
    k :| 0 <= k < |w2| && w2[k].path == x.path;
    assert Describes(w2[k], files, faults);
  }

  /** Leaving out one entry takes its size off the total. */
  lemma {:induction false} SumWithout(w: seq<Info>, k: nat)
    requires k < |w|
    ensures SumSizes(w) == SumSizes(w[..k] + w[k + 1..]) + w[k].size
  {
    var front, back := w[..k], w[k + 1..];
    var middle := [w[k]] + back;
    assert w == front + middle;
    SumSizesConcat(front, middle);
    ConsFacts(w[k], back);
    SumSizesConcat(front, back);
  }

  /** A listing is empty exactly when no file's stat works. */
  lemma {:induction false} ListingEmpty(walk: seq<Info>, files: map<string, FileStat>, faults: Faults)
    requires IsWalkListing(walk, files, faults)
    ensures walk == [] <==> forall p :: p in files ==> p in faults.statFails
  {
    if walk != [] {
      assert Describes(walk[0], files, faults);
    }
  }

  /** Dropping one entry from a listing gives a listing of the tree without that file. */
  lemma {:induction false} DropListed(walk: seq<Info>, files: map<string, FileStat>, faults: Faults, k: nat)
    requires IsWalkListing(walk, files, faults) && k < |walk|
    ensures IsWalkListing(walk[..k] + walk[k + 1..], files - {walk[k].path}, faults)
  {
    DropDescribes(walk, files, faults, k);
    DropKeepsListed(walk, files, faults, k);
    DropDistinct(walk, k);
  }

  lemma {:induction false} DropDescribes(walk: seq<Info>, files: map<string, FileStat>, faults: Faults, k: nat)
    requires AllDescribe(walk, files, faults) && DistinctPaths(walk) && k < |walk|
    ensures AllDescribe(walk[..k] + walk[k + 1..], files - {walk[k].path}, faults)
  {
    var r := walk[..k] + walk[k + 1..];
    forall i | 0 <= i < |r|
      ensures Describes(r[i], files - {walk[k].path}, faults)
    {
      var j := if i < k then i else i + 1;
      assert r[i] == walk[j];
      assert walk[j].path != walk[k].path;
      assert Describes(walk[j], files, faults);
    }
  }

  lemma {:induction false} DropKeepsListed(walk: seq<Info>, files: map<string, FileStat>, faults: Faults, k: nat)
    requires AllListed(walk, files, faults) && k < |walk|
    ensures AllListed(walk[..k] + walk[k + 1..], files - {walk[k].path}, faults)
  {
    var r := walk[..k] + walk[k + 1..];
    forall q | q in files - {walk[k].path} && q !in faults.statFails
      ensures Listed(r, q)
    {
      assert Listed(walk, q);
      var j :| 0 <= j < |walk| && walk[j].path == q;
      var i := if j < k then j else j - 1;
      assert r[i] == walk[j];
    }
  }

  lemma {:induction false} DropDistinct(walk: seq<Info>, k: nat)
    requires DistinctPaths(walk) && k < |walk|
    ensures DistinctPaths(walk[..k] + walk[k + 1..])
  {
    var r := walk[..k] + walk[k + 1..];
    forall i, j | 0 <= i < j < |r|
      ensures r[i].path != r[j].path
    {
      var i', j' := if i < k then i else i + 1, if j < k then j else j + 1;
      assert r[i] == walk[i'] && r[j] == walk[j'];
    }
  }

  lemma {:induction false} SumSizesConcat(a: seq<Info>, b: seq<Info>)
    ensures SumSizes(a + b) == SumSizes(a) + SumSizes(b)
    decreases |a|
  {
    if a == [] {
      assert a + b == b;
    } else {
      assert (a + b)[1..] == a[1..] + b;
      SumSizesConcat(a[1..], b);
    }
  }

  /** `q` is the path of some entry exactly when it is among the entries' paths. */
  lemma {:induction false} PathsListed(infos: seq<Info>)
    ensures forall q :: q in Paths(infos) <==> Listed(infos, q)
    decreases |infos|
  {
    if infos != [] {
      var rest := infos[1..];
      PathsListed(rest);
      forall q
        ensures q in Paths(infos) <==> Listed(infos, q)
      {
        if Listed(infos, q) {
          var i :| 0 <= i < |infos| && infos[i].path == q;
          if i > 0 {
            assert rest[i - 1] == infos[i];
          }
        }
        if Listed(rest, q) {
          var i :| 0 <= i < |rest| && rest[i].path == q;
          assert infos[i + 1] == rest[i];
        }
      }
    }
  }

  /** The removable entries are the entries whose removal works, and distinct paths stay distinct. */
  lemma {:induction false} RemovableFacts(infos: seq<Info>, removeFails: set<string>)
    ensures forall x :: x in Removable(infos, removeFails) <==> x in infos && x.path !in removeFails
    ensures DistinctPaths(infos) ==> DistinctPaths(Removable(infos, removeFails))
    decreases |infos|
  {
    if infos != [] {
      var head, tail := infos[0], infos[1..];
      var rest := Removable(tail, removeFails);
      RemovableFacts(tail, removeFails);
      assert infos == [head] + tail;
      if DistinctPaths(infos) && head.path !in removeFails {
        assert DistinctPaths(tail) by {
          forall i, j | 0 <= i < j < |tail|
            ensures tail[i].path != tail[j].path
          {
            assert tail[i] == infos[i + 1] && tail[j] == infos[j + 1];
          }
        }
        var r := [head] + rest;
        forall i, j | 0 <= i < j < |r|
          ensures r[i].path != r[j].path
        {
          assert r[j] == rest[j - 1];
          if i > 0 {
            assert r[i] == rest[i - 1];
          } else {
            assert rest[j - 1] in tail;
            var m :| 0 <= m < |tail| && tail[m] == rest[j - 1];
            assert infos[m + 1] == tail[m];
          }
        }
      }
    }
  }

  /** Sorting keeps distinct paths distinct. */
  lemma {:induction false} SortKeepsDistinct(infos: seq<Info>)
    requires DistinctPaths(infos)
    ensures DistinctPaths(SortByMtime(infos))
    decreases |infos|
  {
    if infos != [] {
      var x, rest := infos[0], infos[1..];
      assert DistinctPaths(rest) by {
        forall i, j | 0 <= i < j < |rest|
          ensures rest[i].path != rest[j].path
        {
          assert rest[i] == infos[i + 1] && rest[j] == infos[j + 1];
        }
      }
      SortKeepsDistinct(rest);
      var sorted := SortByMtime(rest);
      forall i | 0 <= i < |sorted|
        ensures sorted[i].path != x.path
      {
        assert sorted[i] in multiset(rest);
        var m :| 0 <= m < |rest| && rest[m] == sorted[i];
        assert infos[m + 1] == rest[m];
      }
      InsertDistinct(x, sorted);
    }
  }

  lemma {:induction false} InsertDistinct(x: Info, infos: seq<Info>)
    requires DistinctPaths(infos)
    requires forall i :: 0 <= i < |infos| ==> infos[i].path != x.path
    ensures DistinctPaths(InsertByMtime(x, infos))
    decreases |infos|
  {
    if infos == [] || x.mtime <= infos[0].mtime {
      ConsDistinct(x, infos);
    } else {
      var head, tail := infos[0], infos[1..];
      assert DistinctPaths(tail) && forall i :: 0 <= i < |tail| ==> tail[i].path != x.path by {
        assert forall i :: 0 <= i < |tail| ==> tail[i] == infos[i + 1];
      }
      InsertDistinct(x, tail);
      var rest := InsertByMtime(x, tail);
      InsertMembers(x, tail);
      forall j | 0 <= j < |rest|
        ensures rest[j].path != head.path
      {
        assert rest[j] in rest;
        if rest[j] != x {
          var m :| 0 <= m < |tail| && tail[m] == rest[j];
          assert infos[m + 1] == tail[m];
        }
      }
      ConsDistinct(head, rest);
    }
  }

  /** The insertion's entries are `x` and the entries of `infos`. */
  lemma {:induction false} InsertMembers(x: Info, infos: seq<Info>)
    ensures forall y :: y in InsertByMtime(x, infos) <==> y == x || y in infos
  {
    InsertAddsOne(x, infos);
    forall y
      ensures y in InsertByMtime(x, infos) <==> y == x || y in infos
    {
      assert y in InsertByMtime(x, infos) <==> y in multiset(InsertByMtime(x, infos));
      assert y in infos <==> y in multiset(infos);
    }
  }

  lemma {:induction false} ConsDistinct(head: Info, rest: seq<Info>)
    requires DistinctPaths(rest)
    requires forall j :: 0 <= j < |rest| ==> rest[j].path != head.path
    ensures DistinctPaths([head] + rest)
  {
    var r := [head] + rest;
    forall i, j | 0 <= i < j < |r|
      ensures r[i].path != r[j].path
    {
      assert r[j] == rest[j - 1];
      if i > 0 {
        assert r[i] == rest[i - 1];
      }
    }
  }
}
