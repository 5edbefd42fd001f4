/**
 * The deduplication ledger's query: was a URL crawled within the last seven
 * days? The ledger is the `recently_crawled_urls` table, whose `url` column is
 * unique, so it is a map from URL to crawl time (seconds). The clock is a
 * parameter, and so is whether the database query raises.
 */
module Dedup {

  type Ledger = map<string, int>

  /** Seven days, in seconds. */
  const RecencyWindow := 7 * 24 * 3600

  /** The oldest crawl time that still counts as recent at `now`. */
  function Cutoff(now: int): int {
    now - RecencyWindow
  }

  /**
   * `is_recently_crawled`: an entry for `url` at or after the cutoff answers
   * true; a query that raises answers false (fail-open).
   */
  function IsRecentlyCrawled(ledger: Ledger, url: string, now: int, lookupFails: bool): bool {
    if lookupFails then false
    else url in ledger && ledger[url] >= Cutoff(now)
  }

  /** A successful lookup answers true exactly for an entry crawled at most seven days ago. */
  lemma RecentMeansWithinSevenDays(ledger: Ledger, url: string, now: int)
    ensures IsRecentlyCrawled(ledger, url, now, false)
            <==> (url in ledger && now - ledger[url] <= 7 * 24 * 3600)
  {
  }

  /** An entry exactly seven days old still counts, because the comparison is `>=`. */
  lemma SevenDaysExactlyIsRecent(ledger: Ledger, url: string, now: int)
    requires url in ledger && ledger[url] == now - 7 * 24 * 3600
    ensures IsRecentlyCrawled(ledger, url, now, false)
    ensures !IsRecentlyCrawled(ledger[url := ledger[url] - 1], url, now, false)
  {
  }

  /** Fail-open: a lookup that raises never blocks a crawl, whatever the ledger holds. */
  lemma LookupErrorFailsOpen(ledger: Ledger, url: string, now: int)
    ensures !IsRecentlyCrawled(ledger, url, now, true)
  {
  }

  /** The answer depends on the ledger only through the single entry for `url`. */
  lemma OnlyOwnEntryMatters(a: Ledger, b: Ledger, url: string, now: int, lookupFails: bool)
    requires (url in a) == (url in b)
    requires url in a ==> a[url] == b[url]
    ensures IsRecentlyCrawled(a, url, now, lookupFails) == IsRecentlyCrawled(b, url, now, lookupFails)
  {
  }
}
