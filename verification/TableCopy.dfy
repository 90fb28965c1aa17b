/** copyTableData of pkg/schema: page through a source table and put every item into the
    target, in batches with retries and then one by one. */
module TableCopy {
  import opened BatchGet

  /** The source, static while it is copied: its keys in scan order, and their items. */
  datatype Source = Source(keys: seq<Key>, items: map<Key, Item>)

  predicate SourceOk(src: Source) {
    forall i :: 0 <= i < |src.keys| ==> src.keys[i] in src.items
  }

  function Elems(ks: seq<Key>): set<Key> {
    set k | k in ks
  }

  /** base, overridden by the source's items for the keys in s. */
  function Overlay(base: map<Key, Item>, src: Source, s: set<Key>): map<Key, Item> {
    base + map k | k in s && k in src.items :: src.items[k]
  }

  lemma OverlayTwice(t: map<Key, Item>, src: Source, a: set<Key>, b: set<Key>)
    ensures Overlay(Overlay(t, src, a), src, b) == Overlay(t, src, a + b)
    ensures Overlay(t, src, {}) == t
  {
  }

  // ----- the services

  /** written: what this call put into the target, even if it then failed. */
  datatype WriteReply = WriteReply(failed: bool, written: set<Key>, unprocessed: seq<Key>)

  datatype PutReply = PutReply(failed: bool, written: bool)

  datatype Page = Page(failed: bool, next: nat, more: bool)

  /** Answers by call number; canceled tells whether the context ends a backoff. */
  datatype Services = Services(
    write: (nat, seq<Key>) -> WriteReply, put: (nat, Key) -> PutReply, scan: (nat, nat) -> Page, canceled: nat -> bool)

  ghost predicate HonestWrite(ks: seq<Key>, r: WriteReply) {
    && r.written <= Elems(ks) && Elems(r.unprocessed) <= Elems(ks) && |r.unprocessed| <= |ks|
    && (!r.failed ==> Elems(ks) <= r.written + Elems(r.unprocessed))
  }

  /** A page ends further on, or at the end: the last evaluated key strictly advances. */
  ghost predicate HonestScan(n: nat, at: nat, p: Page) {
    !p.failed ==> at <= p.next <= n && (if p.more then at < p.next else p.next == n)
  }

  ghost predicate HonestServices(src: Source, svc: Services) {
    && (forall n, ks :: HonestWrite(ks, svc.write(n, ks)))
    && (forall n, k :: !svc.put(n, k).failed ==> svc.put(n, k).written)
    && (forall n: nat, at: nat :: at <= |src.keys| ==> HonestScan(|src.keys|, at, svc.scan(n, at)))
  }

  /** A call of this run and how it went; a backoff goes wrong when the context is canceled. */
  datatype Report = Wrote(ks: seq<Key>, bad: bool) | PutOne(k: Key, bad: bool) | Scanned(at: nat, bad: bool) | Waited(bad: bool)

  /** More calls were made, none with more than n items; the run failed exactly when one of
      them went wrong, the last. */
  ghost predicate Reported(before: seq<Report>, after: seq<Report>, failed: bool, n: int) {
    && |before| <= |after| && after[..|before|] == before
    && (forall i :: |before| <= i < |after| ==> (after[i].bad <==> failed && i == |after| - 1))
    && (failed ==> |before| < |after|)
    && (forall i :: |before| <= i < |after| && after[i].Wrote? ==> |after[i].ks| <= n)
  }

  lemma ReportedThen(a: seq<Report>, b: seq<Report>, c: seq<Report>, failed: bool, m: int, n: int)
    requires Reported(a, b, false, n) && Reported(b, c, failed, m) && m <= n
    ensures Reported(a, c, failed, n)
  {
    assert forall i :: 0 <= i < |b| ==> c[i] == c[..|b|][i];
    assert c[..|a|] == b[..|a|];
  }

  lemma ReportedOne(a: seq<Report>, r: Report, n: int)
    ensures Reported(a, a, false, n) && ((r.Wrote? ==> |r.ks| <= n) ==> Reported(a, a + [r], r.bad, n))
  {
  }

  class Copier {
    const src: Source
    const svc: Services
    var target: map<Key, Item>
    var calls: nat
    ghost var log: seq<Report>

    constructor (src: Source, svc: Services, target: map<Key, Item>)
      ensures this.src == src && this.svc == svc && this.target == target
    {
      this.src, this.svc, this.target, this.calls := src, svc, target, 0;
      log := [];
    }

    /** batchWriteWithRetries: done collects what was written; without an error the rest is
        returned. */
    method BatchWriteWithRetries(ks: seq<Key>, maxRetries: int) returns (failed: bool, remaining: seq<Key>, ghost done: set<Key>)
      requires HonestServices(src, svc)
      modifies this
      ensures done <= Elems(ks) && target == Overlay(old(target), src, done)
      ensures !failed ==> Elems(remaining) <= Elems(ks) <= done + Elems(remaining)
      ensures maxRetries >= 0 ==> calls <= old(calls) + maxRetries
      // what is left was left by every retry there is
      ensures !failed && maxRetries > 0 && ks != [] && remaining != [] ==> calls == old(calls) + maxRetries
      ensures |remaining| <= |ks|
      ensures Reported(old(log), log, failed, |ks|)
    {
      done := {};
      OverlayTwice(target, src, {}, {});
      ReportedOne(log, Waited(false), |ks|);
      remaining := ks;
      if ks == [] || maxRetries <= 0 {
        return false, ks, {};
      }
      var attempt := 1;
      while attempt <= maxRetries
        invariant 1 <= attempt <= maxRetries + 1 && calls == old(calls) + attempt - 1
        invariant done <= Elems(ks) && target == Overlay(old(target), src, done)
        invariant Elems(remaining) <= Elems(ks) <= done + Elems(remaining) && |remaining| <= |ks|
        invariant Reported(old(log), log, false, |ks|)
      {
        var result := svc.write(calls, remaining);
        assert HonestWrite(remaining, result);
        calls := calls + 1;
        Log(Wrote(remaining, result.failed), old(log), |ks|);
        OverlayTwice(old(target), src, done, result.written);
        target := Overlay(target, src, result.written);
        done := done + result.written;
        if result.failed {
          return true, [], done;
        }
        remaining := result.unprocessed;
        if remaining == [] || attempt == maxRetries {
          return false, remaining, done;
        }
        Log(Waited(svc.canceled(calls)), old(log), |ks|);
        if svc.canceled(calls) {
          return true, [], done;
        }
        attempt := attempt + 1;
      }
      return false, remaining, done;
    }

    /** Bookkeeping: one more call of the run that began at `since`. */
    ghost method Log(r: Report, since: seq<Report>, n: int)
      requires Reported(since, log, false, n) && (r.Wrote? ==> |r.ks| <= n)
      modifies this`log
      ensures log == old(log) + [r] && Reported(since, log, r.bad, n)
    {
      ReportedOne(log, r, n);
      ReportedThen(since, log, log + [r], r.bad, n, n);
      log := log + [r];
    }

    method PutIndividually(ks: seq<Key>) returns (failed: bool, ghost done: set<Key>)
      requires HonestServices(src, svc)
      modifies this
      ensures done <= Elems(ks) && target == Overlay(old(target), src, done)
      ensures !failed ==> done == Elems(ks)
      ensures Reported(old(log), log, failed, 0)
    {
      done := {};
      OverlayTwice(target, src, {}, {});
      ReportedOne(log, Waited(false), 0);
      for i := 0 to |ks|
        invariant done == Elems(ks[..i]) && target == Overlay(old(target), src, done)
        invariant Reported(old(log), log, false, 0)
      {
        assert ks[..i + 1] == ks[..i] + [ks[i]];
        assert Elems(ks[..i + 1]) == Elems(ks[..i]) + {ks[i]};
        var reply := svc.put(calls, ks[i]);
        calls := calls + 1;
        Log(PutOne(ks[i], reply.failed), old(log), 0);
        if reply.written {
          OverlayTwice(old(target), src, done, {ks[i]});
          target := Overlay(target, src, {ks[i]});
          done := done + {ks[i]};
        }
        if reply.failed {
          return true, done;
        }
      }
      assert ks[..|ks|] == ks;
      return false, done;
    }

    /** writeRequestsBatched */
    method WriteBatched(ks: seq<Key>, batchSize: int, maxRetries: int) returns (failed: bool, ghost done: set<Key>)
      requires HonestServices(src, svc)
      modifies this
      ensures done <= Elems(ks) && target == Overlay(old(target), src, done)
      ensures !failed ==> done == Elems(ks)
      ensures Reported(old(log), log, failed, if batchSize <= 0 then |ks| else batchSize)
    {
      done := {};
      OverlayTwice(target, src, {}, {});
      var size := if batchSize <= 0 then |ks| else batchSize;
      ReportedOne(log, Waited(false), size);
      if ks == [] {
        return false, {};
      }
      var i := 0;
      while i < |ks|
        invariant 0 <= i <= |ks| && done == Elems(ks[..i]) && target == Overlay(old(target), src, done)
        invariant Reported(old(log), log, false, size)
      {
        ghost var before := log;
        var end := if i + size > |ks| then |ks| else i + size;
        var batch := ks[i..end];
        assert ks[..i] + batch == ks[..end];
        assert Elems(ks[..end]) == Elems(ks[..i]) + Elems(batch);
        ghost var d1, d2 := {}, {};
        var remaining;
        failed, remaining, d1 := BatchWriteWithRetries(batch, maxRetries);
        ReportedThen(old(log), before, log, failed, |batch|, size);
        before := log;
        OverlayTwice(old(target), src, done, d1);
        done := done + d1;
        if failed {
          return true, done;
        }
        failed, d2 := PutIndividually(remaining);
        ReportedThen(old(log), before, log, failed, 0, size);
        OverlayTwice(old(target), src, done, d2);
        done := done + d2;
        if failed {
          return true, done;
        }
        i := end;
      }
      assert ks[..|ks|] == ks;
      return false, done;
    }

    /** copyTableData: nil means the target is its old contents overridden by every source
        item; an error, overridden by some of them only, and then the last call of the run failed
        and no other.  The loop ends because each page but the last starts strictly further on. */
    method CopyTableData(batchSize: int) returns (failed: bool, ghost done: set<Key>)
      requires HonestServices(src, svc)
      modifies this
      ensures done <= Elems(src.keys) && target == Overlay(old(target), src, done)
      ensures !failed ==> done == Elems(src.keys)
      ensures Reported(old(log), log, failed, if 1 <= batchSize <= 10 then batchSize else 10)
    {
      done := {};
      OverlayTwice(target, src, {}, {});
      var maxBatchSize := ResolveBatchSize(batchSize);
      ReportedOne(log, Waited(false), maxBatchSize);
      var at := 0;
      while true
        invariant 0 <= at <= |src.keys| && done == Elems(src.keys[..at]) && target == Overlay(old(target), src, done)
        invariant Reported(old(log), log, false, maxBatchSize)
        decreases |src.keys| - at
      {
        var page := svc.scan(calls, at);
        assert HonestScan(|src.keys|, at, page);
        calls := calls + 1;
        Log(Scanned(at, page.failed), old(log), maxBatchSize);
        if page.failed {
          return true, done;
        }
        ghost var d: set<Key>;
        ghost var before := log;
        failed, d := WriteBatched(src.keys[at..page.next], maxBatchSize, 5);
        ReportedThen(old(log), before, log, failed, maxBatchSize, maxBatchSize);
        OverlayTwice(old(target), src, done, d);
        done := done + d;
        assert src.keys[..at] + src.keys[at..page.next] == src.keys[..page.next];
        assert Elems(src.keys[..page.next]) == Elems(src.keys[..at]) + Elems(src.keys[at..page.next]);
        if failed {
          return true, done;
        }
        if !page.more {
          assert src.keys[..|src.keys|] == src.keys;
          return false, done;
        }
        at := page.next;
      }
    }
  }

  /** At most 10, and never zero; a size in that range is kept. */
  function ResolveBatchSize(batchSize: int): (n: int)
    ensures 1 <= n <= 10 && (1 <= batchSize <= 10 ==> n == batchSize) && (batchSize < 1 || batchSize > 10 ==> n == 10)
  {
    if batchSize <= 0 then 10 else if batchSize < 10 then batchSize else 10
  }

  /** What a finished copy is worth: every source item is in the target, and nothing else of
      the target changed. */
  lemma FinishedCopy(t: map<Key, Item>, src: Source, k: Key)
    requires SourceOk(src)
    ensures var t' := Overlay(t, src, Elems(src.keys));
            && (k in src.keys ==> k in t' && t'[k] == src.items[k])
            && (k !in src.keys ==> (k in t' <==> k in t) && (k in t ==> t'[k] == t[k]))
  {
  }
}
