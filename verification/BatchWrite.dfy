/** Batch writes of pkg/query: a table that takes some of the requests of each call and hands
    back the others, and loops that must not lose one. */
module BatchWrite {
  import opened BatchGet

  datatype Request = Put(key: Key, item: Item) | Delete(key: Key)

  // ----- splitting

  function Concat<T>(xss: seq<seq<T>>): seq<T> {
    if xss == [] then [] else xss[0] + Concat(xss[1..])
  }

  lemma {:induction false} ConcatAppend<T>(xss: seq<seq<T>>, xs: seq<T>)
    ensures Concat(xss + [xs]) == Concat(xss) + xs
    decreases |xss|
  {
    if xss == [] {
      assert xss + [xs] == [xs] && [xs][1..] == [];
      assert xs + [] == xs && [] + xs == xs;
    } else {
      assert (xss + [xs])[0] == xss[0] && (xss + [xs])[1..] == xss[1..] + [xs];
      ConcatAppend(xss[1..], xs);
      assert xss[0] + (Concat(xss[1..]) + xs) == (xss[0] + Concat(xss[1..])) + xs;
    }
  }

  /** At most the 25 requests the service takes in one call; a size that is not allowed means 25. */
  function BatchSize(size: int): (n: nat)
    ensures 1 <= n <= 25 && (1 <= size <= 25 <==> n == size)
    ensures n != size ==> n == 25
  {
    if size <= 0 || size > 25 then 25 else size
  }

  /** splitWriteRequests and the key and item batches of the other operations: full batches
      of the effective size, at most 25, then one shorter one. */
  method SplitRequests<T>(xs: seq<T>, size: int) returns (batches: seq<seq<T>>)
    ensures Concat(batches) == xs
    ensures forall i :: 0 <= i < |batches| ==> 1 <= |batches[i]| <= BatchSize(size)
    ensures forall i :: 0 <= i < |batches| - 1 ==> |batches[i]| == BatchSize(size)
  {
    var n := BatchSize(size);
    batches := [];
    var i := 0;
    while i < |xs|
      invariant 0 <= i <= |xs| && Concat(batches) == xs[..i]
      invariant forall j :: 0 <= j < |batches| ==> 1 <= |batches[j]| <= n
      invariant forall j :: 0 <= j < |batches| - 1 ==> |batches[j]| == n
      invariant batches != [] && i < |xs| ==> |batches[|batches| - 1]| == n
    {
      var end := if i + n > |xs| then |xs| else i + n;
      ConcatAppend(batches, xs[i..end]);
      assert xs[..i] + xs[i..end] == xs[..end];
      batches := batches + [xs[i..end]];
      i := end;
    }
    assert xs[..|xs|] == xs;
  }

  // ----- what requests do to a table

  predicate Applied(r: Request, t: Table) {
    match r
    case Put(k, item) => k in t && t[k] == item
    case Delete(k) => k !in t
  }

  predicate SameAt(t: Table, t': Table, k: Key) {
    (k in t <==> k in t') && (k in t ==> t[k] == t'[k])
  }

  predicate Names(m: multiset<Request>, k: Key) {
    exists r :: r in m && r.key == k
  }

  /** Every put is stored, every deleted key is absent, and nothing else changed. */
  ghost predicate Reflects(t: Table, m: multiset<Request>, t': Table) {
    (forall r :: r in m ==> Applied(r, t')) && (forall k :: !Names(m, k) ==> SameAt(t, t', k))
  }

  /** No key occurs twice. */
  ghost predicate KeyedOnce(m: multiset<Request>) {
    (forall r :: r in m ==> m[r] == 1) && (forall r, s :: r in m && s in m && r.key == s.key ==> r == s)
  }

  /** What two groups of requests without a common key do one after the other, they do together. */
  lemma ReflectsThen(t: Table, a: multiset<Request>, t1: Table, b: multiset<Request>, t2: Table)
    requires KeyedOnce(a + b) && Reflects(t, a, t1) && Reflects(t1, b, t2)
    ensures Reflects(t, a + b, t2)
  {
    forall r | r in a + b ensures Applied(r, t2) {
      if r !in b {
        forall s | s in b ensures s.key != r.key { assert s in a + b; }
        assert SameAt(t1, t2, r.key);
      }
    }
    forall k | !Names(a + b, k) ensures SameAt(t, t2, k) {
      forall r | r in a ensures r.key != k { assert r in a + b; }
      forall r | r in b ensures r.key != k { assert r in a + b; }
      assert SameAt(t, t1, k) && SameAt(t1, t2, k);
    }
  }

  lemma NothingReflected(t: Table)
    ensures Reflects(t, multiset{}, t)
  {
  }

  lemma KeyedOnceFewer(a: multiset<Request>, b: multiset<Request>)
    requires a <= b && KeyedOnce(b)
    ensures KeyedOnce(a)
  {
    forall r | r in a ensures a[r] == 1 { assert r in b; }
    forall r, s | r in a && s in a && r.key == s.key ensures r == s { assert r in b && s in b; }
  }

  // ----- retrying one batch

  /** A call's answer, and the table after it. */
  datatype WriteReply = Failed(table: Table) | Wrote(unprocessed: seq<Request>, table: Table)

  /** The service's answer to the n-th call for a batch, on the table as it is. */
  type Writer = (nat, nat, seq<Request>, Table) -> WriteReply

  /** A call writes what it was given and does not hand back; a failed one may have written
      some of it. */
  ghost predicate HonestReply(rs: seq<Request>, t: Table, reply: WriteReply) {
    match reply
    case Wrote(us, t') => multiset(us) <= multiset(rs) && Reflects(t, multiset(rs) - multiset(us), t')
    case Failed(t') => exists m :: m <= multiset(rs) && Reflects(t, m, t')
  }

  ghost predicate HonestWriter(svc: Writer) {
    forall b, n, rs, t :: KeyedOnce(multiset(rs)) ==> HonestReply(rs, t, svc(b, n, rs, t))
  }

  /** The last call failed, or it was the fifth and handed some requests back. */
  ghost predicate Stuck(before: seq<WriteReply>, after: seq<WriteReply>) {
    |after| > |before| &&
    match after[|after| - 1]
    case Failed(_) => true
    case Wrote(unprocessed, _) => |after| >= |before| + 5 && |unprocessed| > 0
  }

  datatype Outcome = Done | Error | FailedToProcess(count: nat, attempts: nat)

  /** Written so far: everything but what is pending. */
  lemma CallConserves(t: Table, rs: seq<Request>, ps: seq<Request>, t1: Table, us: seq<Request>, t2: Table)
    requires KeyedOnce(multiset(rs)) && multiset(us) <= multiset(ps) <= multiset(rs)
    requires Reflects(t, multiset(rs) - multiset(ps), t1) && Reflects(t1, multiset(ps) - multiset(us), t2)
    ensures Reflects(t, multiset(rs) - multiset(us), t2) && |multiset(rs) - multiset(us)| == |rs| - |us|
  {
    var a, b := multiset(rs) - multiset(ps), multiset(ps) - multiset(us);
    Conserved(multiset(rs), multiset(ps), multiset(us));
    KeyedOnceFewer(a + b, multiset(rs));
    hide KeyedOnce, Reflects;
    ReflectsThen(t, a, t1, b, t2);
    assert |multiset(rs) - multiset(us)| == |multiset(rs)| - |multiset(us)|;
  }

  lemma Conserved(all: multiset<Request>, pending: multiset<Request>, left: multiset<Request>)
    requires left <= pending <= all
    ensures (all - pending) + (pending - left) == all - left <= all
  {
  }

  class BatchWriter {
    const svc: Writer
    var table: Table
    ghost var replies: seq<WriteReply>

    constructor (svc: Writer, table: Table)
      ensures this.svc == svc && this.table == table && replies == []
    {
      this.svc, this.table := svc, table;
      replies := [];
    }

    /** executeBatchWriteWithRetries: done means every put is stored and every deleted key
        absent; "failed to process k" that this holds of all but exactly k requests, after
        five calls; an error, of some of them, and the last call failed. */
    method ExecuteBatchWriteWithRetries(b: nat, rs: seq<Request>) returns (r: Outcome, calls: nat, ghost left: multiset<Request>)
      requires HonestWriter(svc) && KeyedOnce(multiset(rs))
      modifies this
      ensures calls <= 5 && |replies| == |old(replies)| + calls && replies[..|old(replies)|] == old(replies)
      ensures left <= multiset(rs) && Reflects(old(table), multiset(rs) - left, table)
      ensures r.Done? ==> left == multiset{}
      ensures r.FailedToProcess? ==> calls == r.attempts == 5 && |left| == r.count > 0
      ensures r.Error? ==> calls > 0 && replies[|replies| - 1].Failed?
      ensures !r.Done? ==> Stuck(old(replies), replies)
    {
      calls := 0;
      var remaining := rs;
      NothingReflected(table);
      assert multiset(rs) - multiset(remaining) == multiset{};
      hide KeyedOnce, Reflects, HonestWriter;
      while |remaining| > 0 && calls < 5
        invariant 0 <= calls <= 5 && |replies| == |old(replies)| + calls && replies[..|old(replies)|] == old(replies)
        invariant multiset(remaining) <= multiset(rs) && Reflects(old(table), multiset(rs) - multiset(remaining), table)
        invariant calls > 0 ==> replies[|replies| - 1].Wrote? && replies[|replies| - 1].unprocessed == remaining
        decreases 5 - calls
      {
        var failed, us;
        failed, us, left := OneCall(b, calls, rs, remaining, old(table));
        calls := calls + 1;
        if failed {
          return Error, calls, left;
        }
        if |us| == 0 {
          assert multiset(us) == multiset{};
          return Done, calls, multiset{};
        }
        remaining := us;
      }
      left := multiset(remaining);
      if |remaining| > 0 {
        assert |multiset(remaining)| == |remaining|;
        return FailedToProcess(|remaining|, calls), calls, left;
      }
      return Done, calls, left;
    }

    /** One BatchWriteItem call for what is still pending. */
    method OneCall(b: nat, n: nat, ghost rs: seq<Request>, pending: seq<Request>, ghost start: Table)
      returns (failed: bool, unprocessed: seq<Request>, ghost left: multiset<Request>)
      requires HonestWriter(svc) && KeyedOnce(multiset(rs)) && multiset(pending) <= multiset(rs)
      requires Reflects(start, multiset(rs) - multiset(pending), table)
      modifies this
      ensures replies == old(replies) + [svc(b, n, pending, old(table))] && failed == svc(b, n, pending, old(table)).Failed?
      ensures left <= multiset(rs) && Reflects(start, multiset(rs) - left, table)
      ensures !failed ==> left == multiset(unprocessed) && svc(b, n, pending, old(table)).unprocessed == unprocessed
    {
      var reply := svc(b, n, pending, table);
      KeyedOnceFewer(multiset(pending), multiset(rs));
      assert HonestReply(pending, table, reply);
      replies := replies + [reply];
      if reply.Failed? {
        ghost var m :| m <= multiset(pending) && Reflects(table, m, reply.table);
        Partly(start, multiset(rs), multiset(pending), table, m, reply.table);
        table := reply.table;
        return true, [], multiset(pending) - m;
      }
      CallConserves(start, rs, pending, table, reply.unprocessed, reply.table);
      table := reply.table;
      return false, reply.unprocessed, multiset(reply.unprocessed);
    }

    /** One more batch, after those that were written. */
    method NextBatch(b: nat, batch: seq<Request>, ghost start: Table, ghost written: multiset<Request>) returns (ok: bool, ghost now: multiset<Request>)
      requires HonestWriter(svc) && KeyedOnce(written + multiset(batch)) && Reflects(start, written, table)
      modifies this
      ensures |replies| <= |old(replies)| + 5 && Reflects(start, now, table) && written <= now <= written + multiset(batch)
      ensures ok ==> now == written + multiset(batch)
      ensures |replies| >= |old(replies)| && (!ok ==> Stuck(old(replies), replies))
    {
      hide KeyedOnce, Reflects, HonestWriter;
      KeyedOnceFewer(multiset(batch), written + multiset(batch));
      ghost var before := table;
      var r, calls;
      ghost var left;
      r, calls, left := ExecuteBatchWriteWithRetries(b, batch);
      ghost var part := multiset(batch) - left;
      assert written + part <= written + multiset(batch);
      KeyedOnceFewer(written + part, written + multiset(batch));
      ReflectsThen(start, written, before, part, table);
      assert r.Done? ==> part == multiset(batch);
      return r.Done?, written + part;
    }

    /** BatchWriteWithOptions without an error handler: success means every put is stored and
        every deleted key absent; otherwise every batch before the one that got stuck was
        written, and of that one some requests. */
    method BatchWriteAll(rs: seq<Request>, size: int) returns (ok: bool, batches: seq<seq<Request>>, done: nat, ghost written: multiset<Request>)
      requires HonestWriter(svc) && KeyedOnce(multiset(rs))
      modifies this
      ensures Concat(batches) == rs && forall i :: 0 <= i < |batches| ==> 1 <= |batches[i]| <= BatchSize(size)
      ensures done <= |batches| && (ok <==> done == |batches|) && |replies| <= |old(replies)| + 5 * |batches|
      ensures Reflects(old(table), written, table) && multiset(Concat(batches[..done])) <= written <= multiset(rs)
      ensures ok ==> written == multiset(rs)
      ensures !ok ==> Stuck(old(replies), replies)
    {
      batches := SplitRequests(rs, size);
      written := multiset{};
      done := 0;
      NothingReflected(table);
      assert batches[..0] == [] && multiset(Concat(batches[..0])) == multiset{};
      hide KeyedOnce, Reflects, HonestWriter, Concat;
      while done < |batches|
        invariant 0 <= done <= |batches| && |old(replies)| <= |replies| <= |old(replies)| + 5 * done
        invariant written == multiset(Concat(batches[..done])) && Reflects(old(table), written, table)
      {
        PrefixOfAll(batches, done);
        KeyedOnceFewer(written + multiset(batches[done]), multiset(rs));
        var next;
        next, written := NextBatch(done, batches[done], old(table), written);
        if !next {
          return false, batches, done, written;
        }
        done := done + 1;
      }
      assert batches[..|batches|] == batches;
      return true, batches, done, written;
    }
  }

  lemma Partly(t: Table, all: multiset<Request>, pending: multiset<Request>, t1: Table, m: multiset<Request>, t2: Table)
    requires KeyedOnce(all) && m <= pending <= all && Reflects(t, all - pending, t1) && Reflects(t1, m, t2)
    ensures Reflects(t, all - (pending - m), t2)
  {
    assert (all - pending) + m == all - (pending - m);
    KeyedOnceFewer((all - pending) + m, all);
    hide KeyedOnce, Reflects;
    ReflectsThen(t, all - pending, t1, m, t2);
  }

  /** The batches so far and the next one are part of the whole. */
  lemma PrefixOfAll(batches: seq<seq<Request>>, n: nat)
    requires n < |batches|
    ensures multiset(Concat(batches[..n + 1])) == multiset(Concat(batches[..n])) + multiset(batches[n])
    ensures multiset(Concat(batches[..n])) + multiset(batches[n]) <= multiset(Concat(batches))
  {
    hide Concat;
    assert batches[..n + 1] == batches[..n] + [batches[n]];
    assert batches == (batches[..n] + [batches[n]]) + batches[n + 1..];
    PartsOfAll(batches[..n], batches[n], batches[n + 1..]);
  }

  lemma PartsOfAll(front: seq<seq<Request>>, next: seq<Request>, rest: seq<seq<Request>>)
    ensures multiset(Concat(front + [next])) == multiset(Concat(front)) + multiset(next)
    ensures multiset(Concat(front)) + multiset(next) <= multiset(Concat((front + [next]) + rest))
  {
    hide Concat;
    ConcatAppend(front, next);
    ConcatBoth(front + [next], rest);
    var a, b := Concat(front), Concat(rest);
    BagOfSum(a, next);
    BagOfSum(a + next, b);
  }

  lemma BagOfSum<T>(a: seq<T>, b: seq<T>)
    ensures multiset(a + b) == multiset(a) + multiset(b)
  {
  }

  lemma {:induction false} ConcatBoth<T>(a: seq<seq<T>>, b: seq<seq<T>>)
    ensures Concat(a + b) == Concat(a) + Concat(b)
    decreases |a|
  {
    if a == [] {
      assert a + b == b;
    } else {
      assert (a + b)[0] == a[0] && (a + b)[1..] == a[1..] + b;
      ConcatBoth(a[1..], b);
    }
  }
}
