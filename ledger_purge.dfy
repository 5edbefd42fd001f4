/**
 * The periodic purge of the deduplication ledger (`cleanup_old_urls`): one
 * bulk delete of every row crawled before the seven-day cutoff, then commit;
 * on any error the transaction is rolled back.
 */
module LedgerPurge {
  import opened Dedup

  /** The ledger after deleting every entry whose crawl time is before the cutoff. */
  function Purged(ledger: Ledger, now: int): (r: Ledger)
    ensures forall url :: url in r ==> url in ledger && r[url] == ledger[url]
    ensures forall url :: url in ledger ==> (url in r <==> !(ledger[url] < Cutoff(now)))
  {
    map url | url in ledger && !(ledger[url] < Cutoff(now)) :: ledger[url]
  }

  /** The `recently_crawled_urls` table, one row per URL. */
  class CrawledUrlTable {
    var rows: Ledger

    constructor (rows: Ledger)
      ensures this.rows == rows
    {
      this.rows := rows;
    }

    /**
     * `cleanup_old_urls` at time `now`; `fails` stands for an exception from
     * the delete or the commit, after which the session is rolled back.
     */
    method CleanupOldUrls(now: int, fails: bool)
      modifies this
      ensures rows == if fails then old(rows) else Purged(old(rows), now)
    {
      if !fails {
        rows := map url | url in rows && !(rows[url] < Cutoff(now)) :: rows[url];
      }
    }
  }

  /** After a purge no entry is older than the cutoff, and every newer entry is kept unchanged. */
  lemma PurgeKeepsExactlyTheWindow(ledger: Ledger, now: int)
    ensures forall url :: url in Purged(ledger, now) ==> Purged(ledger, now)[url] >= Cutoff(now)
    ensures forall url :: url in ledger && ledger[url] >= Cutoff(now) ==>
              url in Purged(ledger, now) && Purged(ledger, now)[url] == ledger[url]
  {
  }

  /** Purging twice at the same time removes nothing the second time. */
  lemma PurgeIdempotent(ledger: Ledger, now: int)
    ensures Purged(Purged(ledger, now), now) == Purged(ledger, now)
  {
  }

  /**
   * The purge's `<` and the lookup's `>=` are complementary: at the same time,
   * purging changes no URL's answer.
   */
  lemma PurgeKeepsRecencyAnswers(ledger: Ledger, now: int, url: string, lookupFails: bool)
    ensures IsRecentlyCrawled(Purged(ledger, now), url, now, lookupFails)
            == IsRecentlyCrawled(ledger, url, now, lookupFails)
  {
  }

  /** An entry eight days old is removed and one crawled just now is kept. */
  lemma PurgeExample(now: int)
    ensures Purged(map["http://example.com/old" := now - 8 * 24 * 3600,
                       "http://example.com/new" := now], now)
            == map["http://example.com/new" := now]
  {
    var ledger := map["http://example.com/old" := now - 8 * 24 * 3600, "http://example.com/new" := now];
    assert "http://example.com/old" != "http://example.com/new";
    assert Purged(ledger, now).Keys == {"http://example.com/new"};
  }
}
