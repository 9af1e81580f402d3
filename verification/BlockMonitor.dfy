/** monitor/monitor.go: which height is polled next, and saving a block with the challenges it announces. */
module BlockMonitor {
  import opened Types
  import opened Store
  import opened Dao
  import opened Pipeline

  class Monitor {
    const db: Database
    const c: Config

    constructor (db: Database, c: Config)
      ensures this.db == db && this.c == c
    {
      this.db, this.c := db, c;
    }

    /** On a fresh database a failed height query falls back to the cached height; otherwise it is an error, although
        the answer would not be used. */
    method CalNextHeight(readFault: bool, latest: Option<nat>, cached: Option<nat>) returns (next: Option<nat>)
      ensures next.Some? ==>
        var reported := if latest.Some? then latest else cached;
        next.value == NextHeight(db.blocks, if reported.Some? then reported.value else 0)
      ensures next.Some? && LatestHeight(db.blocks) == 0 ==> next == if latest.Some? then latest else cached
      ensures next.Some? && LatestHeight(db.blocks) > 0 ==> next.value == LatestHeight(db.blocks) + 1
      ensures next.None? <==> readFault || (latest.None? && (LatestHeight(db.blocks) > 0 || cached.None?))
    {
      var latestPolledBlock := db.GetLatestBlock(readFault);
      if latestPolledBlock.None? {
        return None;
      }
      if latestPolledBlock.value == 0 {
        if latest.None? {
          return cached;
        }
        return latest;
      }
      var nextHeight := latestPolledBlock.value + 1;
      if latest.None? {
        return None;
      }
      return Some(nextHeight);
    }

    /** A poll that fails anywhere changes nothing; one that succeeds saves the next block with all its
        announcements. */
    method Poll(readFault: bool, latest: Option<nat>, cached: Option<nat>, blockFound: bool, parsed: bool,
        storeFault: bool)
      returns (saved: Option<nat>)
      requires db.Valid()
      modifies db
      ensures db.Valid()
      ensures saved.None? ==> db.State() == old(db.State())
      ensures saved.Some? ==>
        && (latest.Some? || (cached.Some? && LatestHeight(old(db.blocks)) == 0))
        && saved.value == NextHeight(old(db.blocks), if latest.Some? then latest.value else cached.value)
        && Insertable(old(db.State()), saved.value, c.chain(saved.value))
        && db.State() == InsertBlock(old(db.State()), saved.value, c.chain(saved.value))
      ensures saved.None? && !readFault && latest.Some? && blockFound && parsed && !storeFault ==>
        var next := NextHeight(old(db.blocks), latest.value); !Insertable(old(db.State()), next, c.chain(next))
    {
      var nextHeight := CalNextHeight(readFault, latest, cached);
      if nextHeight.None? || !blockFound || !parsed {
        return None;
      }
      var ok := db.SaveBlockAndEvents(nextHeight.value, c.chain(nextHeight.value), storeFault);
      return if ok then nextHeight else None;
    }
  }
}
