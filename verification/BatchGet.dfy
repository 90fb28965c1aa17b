/** BatchGet of pkg/query: chunks of keys, a service that may leave any of them
    unprocessed, bounded retries, and results put back in request order. */
module BatchGet {
  import opened Wrappers
  import opened AttributeValues

  datatype Key = Key(attrs: map<string, AV>)

  datatype Item = Item(attrs: map<string, AV>)

  /** What the table returns for each key it holds (already projected). */
  type Table = map<Key, Item>

  predicate Matches(key: Key, item: Item) {
    forall a :: a in key.attrs ==> a in item.attrs && item.attrs[a] == key.attrs[a]
  }

  /** Keys share the schema's attributes, and what is returned carries them. */
  predicate Keyed(schema: set<string>, table: Table) {
    forall k :: k in table ==> k.attrs.Keys == schema && Matches(k, table[k])
  }

  lemma MatchIsUnique(schema: set<string>, table: Table, k: Key, k': Key)
    requires Keyed(schema, table) && k in table && k'.attrs.Keys == schema && Matches(k', table[k])
    ensures k' == k
  {
    assert forall a :: a in schema ==> k.attrs[a] == k'.attrs[a];
    assert k.attrs == k'.attrs;
  }

  function Lookup(table: Table, k: Key): Option<Item> {
    if k in table then Some(table[k]) else None
  }

  function Present(xs: seq<Option<Item>>): seq<Item> {
    if xs == [] then [] else (if xs[0].Some? then [xs[0].value] else []) + Present(xs[1..])
  }

  function Lookups(table: Table, ks: seq<Key>): (r: seq<Option<Item>>)
    ensures |r| == |ks| && forall i :: 0 <= i < |ks| ==> r[i] == Lookup(table, ks[i])
  {
    seq(|ks|, i requires 0 <= i < |ks| => Lookup(table, ks[i]))
  }

  /** The existing items, in the order of the keys. */
  function Found(table: Table, ks: seq<Key>): seq<Item> {
    Present(Lookups(table, ks))
  }

  // ----- what retries collect

  function FoundBag(table: Table, ks: seq<Key>): multiset<Item> {
    if ks == [] then multiset{} else One(table, ks[0]) + FoundBag(table, ks[1..])
  }

  function One(table: Table, k: Key): multiset<Item> {
    if k in table then multiset{table[k]} else multiset{}
  }

  lemma BagOfCons(table: Table, k: Key, ks: seq<Key>)
    ensures FoundBag(table, [k] + ks) == One(table, k) + FoundBag(table, ks)
  {
    assert ([k] + ks)[1..] == ks;
  }

  lemma {:induction false} FoundIsBag(table: Table, ks: seq<Key>)
    ensures multiset(Found(table, ks)) == FoundBag(table, ks)
    decreases |ks|
  {
    if ks != [] {
      assert Lookups(table, ks)[1..] == Lookups(table, ks[1..]);
      FoundIsBag(table, ks[1..]);
    }
  }

  lemma BagWithout(table: Table, ks: seq<Key>, i: nat)
    requires i < |ks|
    ensures FoundBag(table, ks) == One(table, ks[i]) + FoundBag(table, ks[..i] + ks[i + 1..])
  {
    hide FoundBag, One;
    var before, k, after := ks[..i], ks[i], ks[i + 1..];
    assert ks == before + ([k] + after);
    BagConcat(table, before, [k] + after);
    BagOfCons(table, k, after);
    BagConcat(table, before, after);
    BagSwap(FoundBag(table, before), One(table, k), FoundBag(table, after));
  }

  lemma BagSwap(a: multiset<Item>, b: multiset<Item>, c: multiset<Item>)
    ensures a + (b + c) == b + (a + c)
  {
  }

  lemma BagSum(a: seq<Key>, b: seq<Key>)
    ensures multiset(a + b) == multiset(a) + multiset(b)
  {
  }

  lemma DropBoth(a: seq<Key>, b: seq<Key>, i: nat)
    requires a != [] && i < |b| && b[i] == a[0] && multiset(a) == multiset(b)
    ensures multiset(a[1..]) == multiset(b[..i] + b[i + 1..])
  {
    var k, rest, left, right := a[0], a[1..], b[..i], b[i + 1..];
    assert a == [k] + rest;
    assert b == left + ([k] + right);
    BagSum([k], rest);
    BagSum([k], right);
    BagSum(left, [k] + right);
    BagSum(left, right);
    assert multiset(rest) == multiset(a) - multiset([k]) == multiset(left + right);
  }

  /** What is found depends on which keys are asked for, not on their order. */
  lemma {:induction false} BagOfBag(table: Table, a: seq<Key>, b: seq<Key>)
    requires multiset(a) == multiset(b)
    ensures FoundBag(table, a) == FoundBag(table, b)
    decreases |a|
  {
    if a == [] {
      assert |multiset(b)| == 0;
      assert b == [];
    } else {
      assert a[0] in multiset(b);
      var i :| 0 <= i < |b| && b[i] == a[0];
      var b' := b[..i] + b[i + 1..];
      DropBoth(a, b, i);
      BagOfBag(table, a[1..], b');
      BagWithout(table, b, i);
    }
  }

  lemma {:induction false} BagConcat(table: Table, a: seq<Key>, b: seq<Key>)
    ensures FoundBag(table, a + b) == FoundBag(table, a) + FoundBag(table, b)
    decreases |a|
  {
    if a == [] {
      assert a + b == b;
    } else {
      assert (a + b)[0] == a[0] && (a + b)[1..] == a[1..] + b;
      BagConcat(table, a[1..], b);
    }
  }

  // ----- the service

  datatype Reply = Failed | Reply(items: seq<Item>, unprocessed: seq<Key>)

  /** Some of the keys were processed, giving the items that exist; the others come back. */
  ghost predicate Honest(table: Table, asked: seq<Key>, r: Reply) {
    r.Reply? ==> exists done: seq<Key> ::
      multiset(done) + multiset(r.unprocessed) == multiset(asked) && multiset(r.items) == FoundBag(table, done)
  }

  /** The service's answer to a call, as a function of the chunk, the attempt and the keys. */
  type Service = (nat, nat, seq<Key>) -> Reply

  ghost predicate HonestService(table: Table, svc: Service) {
    forall c, n, ks :: Honest(table, ks, svc(c, n, ks))
  }

  /** An honest reply neither loses nor invents anything. */
  lemma ReplyConserves(table: Table, asked: seq<Key>, r: Reply)
    requires Honest(table, asked, r) && r.Reply?
    ensures multiset(r.items) + FoundBag(table, r.unprocessed) == FoundBag(table, asked) && |r.unprocessed| <= |asked|
  {
    var done: seq<Key> :| multiset(done) + multiset(r.unprocessed) == multiset(asked) && multiset(r.items) == FoundBag(table, done);
    BagOfBag(table, done + r.unprocessed, asked);
    BagConcat(table, done, r.unprocessed);
    assert |multiset(asked)| == |multiset(done)| + |multiset(r.unprocessed)|;
  }

  datatype Outcome = Ok(items: seq<Item>) | ServiceError | Exhausted(remaining: nat)

  /** What was collected, and what the pending keys will bring, is what was asked for. */
  ghost predicate Gathered(table: Table, collected: seq<Item>, pending: seq<Key>, keys: seq<Key>) {
    multiset(collected) + FoundBag(table, pending) == FoundBag(table, keys)
  }

  /** One BatchGetItem call. */
  method Attempt(ghost table: Table, svc: Service, chunk: nat, n: nat, pending: seq<Key>) returns (reply: Reply)
    requires HonestService(table, svc)
    ensures reply == svc(chunk, n, pending)
    ensures reply.Reply? ==> |reply.unprocessed| <= |pending| && Gathered(table, reply.items, reply.unprocessed, pending)
  {
    reply := svc(chunk, n, pending);
    assert Honest(table, pending, reply);
    if reply.Reply? {
      ReplyConserves(table, pending, reply);
    }
  }

  function Budget(maxRetries: Option<nat>): nat {
    if maxRetries.Some? then maxRetries.value else 0
  }

  /** The keys the n-th call of the chunk asks for, if no call before it failed. */
  function Left(svc: Service, chunk: nat, keys: seq<Key>, n: nat): Option<seq<Key>> {
    if n == 0 then Some(keys)
    else match Left(svc, chunk, keys, n - 1)
      case None => None
      case Some(ks) => match svc(chunk, n - 1, ks)
        case Failed => None
        case Reply(_, unprocessed) => Some(unprocessed)
  }

  /** The last of the calls made for these keys failed, or used up the budget and left k keys. */
  predicate GaveUp(svc: Service, chunk: nat, keys: seq<Key>, calls: nat, budget: nat, k: nat) {
    calls > 0 &&
    match Left(svc, chunk, keys, calls - 1)
    case None => false
    case Some(asked) => match svc(chunk, calls - 1, asked)
      case Failed => k == 0
      case Reply(_, unprocessed) => calls == budget + 1 && |unprocessed| == k > 0
  }

  /** Every call made asked for keys that were still left. */
  ghost predicate AllNeeded(svc: Service, chunk: nat, keys: seq<Key>, calls: nat) {
    forall n: nat :: n < calls ==> Left(svc, chunk, keys, n).Some? && |Left(svc, chunk, keys, n).value| > 0
  }

  /** These calls served every key. */
  predicate NoneLeft(svc: Service, chunk: nat, keys: seq<Key>, calls: nat) {
    Left(svc, chunk, keys, calls).Some? && |Left(svc, chunk, keys, calls).value| == 0
  }

  lemma LeftNext(svc: Service, chunk: nat, keys: seq<Key>, n: nat, pending: seq<Key>, budget: nat)
    requires Left(svc, chunk, keys, n) == Some(pending) && |pending| > 0 && AllNeeded(svc, chunk, keys, n)
    ensures AllNeeded(svc, chunk, keys, n + 1)
    ensures match svc(chunk, n, pending)
            case Failed => !NoneLeft(svc, chunk, keys, n + 1) && GaveUp(svc, chunk, keys, n + 1, budget, 0)
            case Reply(_, us) => Left(svc, chunk, keys, n + 1) == Some(us) && (NoneLeft(svc, chunk, keys, n + 1) <==> |us| == 0) && (n == budget && |us| > 0 ==> GaveUp(svc, chunk, keys, n + 1, budget, |us|))
  {
  }

  /** Exactly the items stored under the keys, in some order. */
  ghost predicate AllFound(table: Table, items: seq<Item>, keys: seq<Key>) {
    multiset(items) == FoundBag(table, keys)
  }

  lemma NothingAsked(table: Table, keys: seq<Key>)
    ensures (|keys| == 0 ==> AllFound(table, [], keys)) && Gathered(table, [], keys, keys)
  {
    assert FoundBag(table, []) == multiset{};
    hide FoundBag;
  }

  lemma Sums<T>(x: seq<T>, a: multiset<T>, y: seq<T>, b: multiset<T>, all: multiset<T>)
    requires multiset(x) + a == all && multiset(y) + b == a
    ensures multiset(x + y) + b == all
  {
    assert multiset(x + y) == multiset(x) + multiset(y);
    assert (multiset(x) + multiset(y)) + b == multiset(x) + (multiset(y) + b);
  }

  lemma Collected(table: Table, collected: seq<Item>, items: seq<Item>, pending: seq<Key>, left: seq<Key>, keys: seq<Key>)
    requires Gathered(table, collected, pending, keys) && Gathered(table, items, left, pending)
    ensures Gathered(table, collected + items, left, keys)
    ensures |left| == 0 ==> AllFound(table, collected + items, keys)
  {
    assert FoundBag(table, []) == multiset{};
    hide FoundBag;
    Sums(collected, FoundBag(table, pending), items, FoundBag(table, left), FoundBag(table, keys));
  }

  /** ExecuteBatchGet.  maxRetries is None when no retry policy is set. */
  method ExecuteBatchGet(ghost table: Table, svc: Service, chunk: nat, keys: seq<Key>, maxRetries: Option<nat>) returns (r: Outcome, calls: nat)
    requires HonestService(table, svc)
    ensures r.Ok? ==> AllFound(table, r.items, keys)
    ensures calls <= 1 + if maxRetries.Some? then maxRetries.value else 0
    ensures r.Exhausted? ==> 0 < r.remaining <= |keys| && calls == 1 + if maxRetries.Some? then maxRetries.value else 0
    // the calls go on until one leaves nothing, fails, or is the last one allowed
    ensures AllNeeded(svc, chunk, keys, calls)
    ensures r.Ok? <==> NoneLeft(svc, chunk, keys, calls)
    ensures !r.Ok? ==> GaveUp(svc, chunk, keys, calls, Budget(maxRetries), if r.Exhausted? then r.remaining else 0)
  {
    calls := 0;
    NothingAsked(table, keys);
    assert Left(svc, chunk, keys, 0) == Some(keys);
    if |keys| == 0 {
      return Ok([]), 0;
    }
    hide NoneLeft, AllFound, HonestService, FoundBag, Left, GaveUp, Gathered, AllNeeded;
    var budget := Budget(maxRetries);
    var pending := keys;
    var collected: seq<Item> := [];
    var retryAttempt := 0;
    while true
      invariant |pending| <= |keys| && calls == retryAttempt <= budget && Left(svc, chunk, keys, retryAttempt) == Some(pending)
      invariant Gathered(table, collected, pending, keys)
      invariant |pending| > 0 && AllNeeded(svc, chunk, keys, retryAttempt)
      decreases budget - retryAttempt
    {
      var reply := Attempt(table, svc, chunk, retryAttempt, pending);
      LeftNext(svc, chunk, keys, retryAttempt, pending, budget);
      calls := calls + 1;
      if reply.Failed? {
        return ServiceError, calls;
      }
      Collected(table, collected, reply.items, pending, reply.unprocessed, keys);
      collected := collected + reply.items;
      if |reply.unprocessed| == 0 {
        return Ok(collected), calls;
      }
      if retryAttempt >= budget {
        return Exhausted(|reply.unprocessed|), calls;
      }
      retryAttempt := retryAttempt + 1;
      pending := reply.unprocessed;
    }
  }

  // ----- putting the results back in order

  method FindMatchingItem(key: Key, items: seq<Item>, used: array<bool>) returns (idx: int)
    requires used.Length == |items|
    ensures -1 <= idx < |items|
    ensures idx >= 0 ==> !used[idx] && Matches(key, items[idx]) && forall j :: 0 <= j < idx ==> used[j] || !Matches(key, items[j])
    ensures idx < 0 ==> forall j :: 0 <= j < |items| ==> used[j] || !Matches(key, items[j])
  {
    for i := 0 to |items|
      invariant forall j :: 0 <= j < i ==> used[j] || !Matches(key, items[j])
    {
      if !used[i] && Matches(key, items[i]) {
        return i;
      }
    }
    return -1;
  }

  predicate Distinct(ks: seq<Key>) {
    forall i, j :: 0 <= i < j < |ks| ==> ks[i] != ks[j]
  }

  /** Everything returned belongs to some key asked for, and nothing is missing. */
  ghost predicate Answers(table: Table, ks: seq<Key>, items: seq<Item>) {
    && (forall i :: 0 <= i < |items| ==> exists j :: 0 <= j < |ks| && ks[j] in table && items[i] == table[ks[j]])
    && (forall j :: 0 <= j < |ks| && ks[j] in table ==> table[ks[j]] in items)
  }

  lemma {:induction false} BagMembers(table: Table, ks: seq<Key>, x: Item)
    ensures x in FoundBag(table, ks) <==> exists j :: 0 <= j < |ks| && ks[j] in table && table[ks[j]] == x
    decreases |ks|
  {
    if ks != [] {
      BagMembers(table, ks[1..], x);
      if j :| 0 <= j < |ks| && ks[j] in table && table[ks[j]] == x {
        if j > 0 { assert ks[1..][j - 1] == ks[j]; }
      }
    }
  }

  lemma BagAnswers(table: Table, ks: seq<Key>, items: seq<Item>)
    requires AllFound(table, items, ks)
    ensures Answers(table, ks, items)
  {
    assert multiset(items) == FoundBag(table, ks);
    forall i | 0 <= i < |items| ensures exists j :: 0 <= j < |ks| && ks[j] in table && items[i] == table[ks[j]] {
      assert items[i] in multiset(items);
      BagMembers(table, ks, items[i]);
    }
    forall j | 0 <= j < |ks| && ks[j] in table ensures table[ks[j]] in items {
      BagMembers(table, ks, table[ks[j]]);
      assert table[ks[j]] in multiset(items);
    }
  }

  /** One of the first n keys took the item. */
  ghost predicate Claimed(ks: seq<Key>, n: nat, item: Item)
    requires n <= |ks|
  {
    exists j :: 0 <= j < n && Matches(ks[j], item)
  }

  lemma ClaimedGrows(ks: seq<Key>, n: nat)
    requires n < |ks|
    ensures forall item :: Claimed(ks, n, item) || Matches(ks[n], item) ==> Claimed(ks, n + 1, item)
  {
  }

  ghost predicate Answered(schema: set<string>, table: Table, ks: seq<Key>, items: seq<Item>) {
    Keyed(schema, table) && Distinct(ks) && (forall j :: 0 <= j < |ks| ==> ks[j].attrs.Keys == schema) && Answers(table, ks, items)
  }

  /** The item of the n-th key, marked as used: the one the table holds for it, if any. */
  method TakeItem(ghost schema: set<string>, ghost table: Table, ks: seq<Key>, n: nat, items: seq<Item>, used: array<bool>) returns (item: Option<Item>)
    requires used.Length == |items| && n < |ks| && Answered(schema, table, ks, items)
    requires forall i :: 0 <= i < |items| && used[i] ==> Claimed(ks, n, items[i])
    modifies used
    ensures forall i :: 0 <= i < |items| && used[i] ==> Claimed(ks, n + 1, items[i])
    ensures item == Lookup(table, ks[n])
  {
    ClaimedGrows(ks, n);
    var idx := FindMatchingItem(ks[n], items, used);
    if idx < 0 {
      NoMatchMeansAbsent(schema, table, ks, items, n, used[..]);
      return None;
    }
    MatchIsTheItem(schema, table, ks, items, n, idx);
    used[idx] := true;
    return Some(items[idx]);
  }

  /** alignChunkResults on the window [low, low + |ks|) of the result slots. */
  method AlignChunkResults(ghost schema: set<string>, ghost table: Table, ks: seq<Key>, low: nat, items: seq<Item>, ordered: array<Option<Item>>)
    requires low + |ks| <= ordered.Length && Answered(schema, table, ks, items)
    requires forall p :: low <= p < low + |ks| ==> ordered[p] == None
    modifies ordered
    ensures forall p :: low <= p < low + |ks| ==> ordered[p] == Lookup(table, ks[p - low])
    ensures forall p :: 0 <= p < ordered.Length && !(low <= p < low + |ks|) ==> ordered[p] == old(ordered[p])
  {
    if items == [] {
      return;
    }
    hide Answered, Claimed, Lookup;
    ghost var before := ordered[..];
    var used := new bool[|items|](_ => false);
    for n := 0 to |ks|
      invariant forall i :: 0 <= i < |items| && used[i] ==> Claimed(ks, n, items[i])
      invariant Filled(table, ks, low, n, before, ordered[..])
    {
      ghost var now := ordered[..];
      var item := TakeItem(schema, table, ks, n, items, used);
      FilledMore(table, ks, low, n, before, now, item);
      hide Filled;
      if item.Some? {
        ordered[low + n] := item;
      }
      assert ordered[..] == if item.Some? then now[low + n := item] else now;
    }
  }

  /** The first n slots of the window hold their keys' items; the others are as before. */
  ghost predicate Filled(table: Table, ks: seq<Key>, low: nat, n: nat, before: seq<Option<Item>>, now: seq<Option<Item>>)
    requires n <= |ks|
  {
    |now| == |before| && forall p :: 0 <= p < |before| ==> now[p] == if low <= p < low + n then Lookup(table, ks[p - low]) else before[p]
  }

  lemma FilledMore(table: Table, ks: seq<Key>, low: nat, n: nat, before: seq<Option<Item>>, now: seq<Option<Item>>, item: Option<Item>)
    requires n < |ks| && low + |ks| <= |before| && before[low + n] == None
    requires Filled(table, ks, low, n, before, now) && item == Lookup(table, ks[n])
    ensures Filled(table, ks, low, n + 1, before, if item.Some? then now[low + n := item] else now)
  {
    hide Lookup;
  }

  lemma MatchIsTheItem(schema: set<string>, table: Table, ks: seq<Key>, items: seq<Item>, n: nat, idx: nat)
    requires Keyed(schema, table) && n < |ks| && ks[n].attrs.Keys == schema && Answers(table, ks, items)
    requires idx < |items| && Matches(ks[n], items[idx])
    ensures Lookup(table, ks[n]) == Some(items[idx])
  {
    var j :| 0 <= j < |ks| && ks[j] in table && items[idx] == table[ks[j]];
    MatchIsUnique(schema, table, ks[j], ks[n]);
  }

  lemma NoMatchMeansAbsent(schema: set<string>, table: Table, ks: seq<Key>, items: seq<Item>, n: nat, used: seq<bool>)
    requires Keyed(schema, table) && n < |ks| && Distinct(ks) && (forall j :: 0 <= j < |ks| ==> ks[j].attrs.Keys == schema) && Answers(table, ks, items)
    requires |used| == |items| && forall i :: 0 <= i < |items| && used[i] ==> Claimed(ks, n, items[i])
    requires forall i :: 0 <= i < |items| ==> used[i] || !Matches(ks[n], items[i])
    ensures Lookup(table, ks[n]) == None
  {
    if ks[n] in table {
      var i :| 0 <= i < |items| && items[i] == table[ks[n]];
      assert used[i];
      var j :| 0 <= j < n && Matches(ks[j], items[i]);
      MatchIsUnique(schema, table, ks[n], ks[j]);
      assert false;
    }
  }

  // ----- all chunks, in any order of completion

  /** At most the 100 keys the service takes in one call; a size that is not allowed means 100. */
  function ChunkSize(size: int): (n: nat)
    ensures 1 <= n <= 100 && (1 <= size <= 100 <==> n == size)
    ensures n != size ==> n == 100
  {
    if size <= 0 || size > 100 then 100 else size
  }

  function ChunkCount(n: nat, size: nat): nat
    requires size > 0
  {
    (n + size - 1) / size
  }

  function Low(n: nat, size: nat, c: nat): nat {
    if c * size < n then c * size else n
  }

  function Window(keys: seq<Key>, size: nat, c: nat): seq<Key>
    requires size > 0
  {
    LowGrows(|keys|, size, c);
    keys[Low(|keys|, size, c)..Low(|keys|, size, c + 1)]
  }

  lemma LowGrows(n: nat, size: nat, c: nat)
    requires size > 0
    ensures Low(n, size, c) <= Low(n, size, c + 1) <= n
    ensures Low(n, size, c + 1) - Low(n, size, c) <= size
  {
    assert (c + 1) * size == c * size + size;
  }

  lemma {:induction false} LowMono(n: nat, size: nat, c: nat, c': nat)
    requires size > 0 && c <= c'
    ensures Low(n, size, c) <= Low(n, size, c')
    decreases c' - c
  {
    if c < c' {
      LowGrows(n, size, c);
      LowMono(n, size, c + 1, c');
    }
  }

  lemma LowEnds(n: nat, size: nat)
    requires size > 0
    ensures Low(n, size, 0) == 0 && Low(n, size, ChunkCount(n, size)) == n
  {
    var q := (n + size - 1) / size;
    assert q * size + (n + size - 1) % size == n + size - 1;
  }

  /** The windows of different chunks do not overlap. */
  lemma WindowsApart(n: nat, size: nat, c: nat, c': nat)
    requires size > 0 && c != c'
    ensures Low(n, size, c + 1) <= Low(n, size, c') || Low(n, size, c' + 1) <= Low(n, size, c)
  {
    if c < c' { LowMono(n, size, c + 1, c'); } else { LowMono(n, size, c' + 1, c); }
  }

  ghost predicate Settled(table: Table, keys: seq<Key>, slots: seq<Option<Item>>, size: nat, c: nat)
    requires size > 0 && |slots| == |keys|
  {
    LowGrows(|keys|, size, c);
    forall p :: Low(|keys|, size, c) <= p < Low(|keys|, size, c + 1) ==> slots[p] == Lookup(table, keys[p])
  }

  ghost predicate Untouched(keys: seq<Key>, slots: seq<Option<Item>>, size: nat, c: nat)
    requires size > 0 && |slots| == |keys|
  {
    LowGrows(|keys|, size, c);
    forall p :: Low(|keys|, size, c) <= p < Low(|keys|, size, c + 1) ==> slots[p] == None
  }

  /** One chunk: fetch, then align; the other slots keep their contents. */
  method ProcessChunk(ghost schema: set<string>, ghost table: Table, svc: Service, keys: seq<Key>, size: nat, c: nat, maxRetries: Option<nat>,
                      ordered: array<Option<Item>>) returns (ok: bool)
    requires size > 0 && ordered.Length == |keys| && HonestService(table, svc) && Keyed(schema, table)
    requires Distinct(keys) && (forall j :: 0 <= j < |keys| ==> keys[j].attrs.Keys == schema) && Untouched(keys, ordered[..], size, c)
    modifies ordered
    ensures ok ==> Settled(table, keys, ordered[..], size, c)
    ensures !ok ==> exists calls, k :: GaveUp(svc, c, Window(keys, size, c), calls, Budget(maxRetries), k)
    ensures forall p :: 0 <= p < |keys| && !(Low(|keys|, size, c) <= p < Low(|keys|, size, c + 1)) ==> ordered[p] == old(ordered[p])
  {
    LowGrows(|keys|, size, c);
    var low := Low(|keys|, size, c);
    var ks := Window(keys, size, c);
    assert forall j :: 0 <= j < |ks| ==> ks[j] == keys[low + j];
    assert forall p :: low <= p < low + |ks| ==> ordered[..][p] == None;
    var r, _ := ExecuteBatchGet(table, svc, c, ks, maxRetries);
    if !r.Ok? {
      return false;
    }
    BagAnswers(table, ks, r.items);
    AlignChunkResults(schema, table, ks, low, r.items, ordered);
    forall p | low <= p < Low(|keys|, size, c + 1) ensures ordered[..][p] == Lookup(table, keys[p]) {
      assert keys[p] == ks[p - low] && ordered[p] == Lookup(table, ks[p - low]);
    }
    return true;
  }

  predicate Schedule(order: seq<nat>, count: nat) {
    && (forall c :: 0 <= c < count ==> c in order)
    && (forall i, j :: 0 <= i < j < |order| ==> order[i] != order[j])
  }

  /** executeBatchGetChunks: whichever order the chunks finish in, for every chunk size and
      every pattern of unprocessed keys, success gives the existing items in request order. */
  method ExecuteBatchGetChunks(ghost schema: set<string>, ghost table: Table, svc: Service, keys: seq<Key>, chunkSize: int, order: seq<nat>, maxRetries: Option<nat>)
    returns (r: Option<seq<Item>>)
    requires HonestService(table, svc) && Keyed(schema, table)
    requires Distinct(keys) && forall j :: 0 <= j < |keys| ==> keys[j].attrs.Keys == schema
    requires Schedule(order, ChunkCount(|keys|, ChunkSize(chunkSize)))
    ensures r.Some? ==> r.value == Found(table, keys)
    ensures r.None? ==> exists c, calls, k :: c in order && GaveUp(svc, c, Window(keys, ChunkSize(chunkSize), c), calls, Budget(maxRetries), k)
  {
    var size := ChunkSize(chunkSize);
    var ordered := new Option<Item>[|keys|](_ => None);
    for i := 0 to |order|
      invariant forall j :: 0 <= j < i ==> Settled(table, keys, ordered[..], size, order[j])
      invariant forall j :: i <= j < |order| ==> Untouched(keys, ordered[..], size, order[j])
    {
      ghost var before := ordered[..];
      var ok := ProcessChunk(schema, table, svc, keys, size, order[i], maxRetries, ordered);
      if !ok {
        return None;
      }
      OthersKept(table, keys, before, ordered[..], size, order, i);
    }
    AllSettled(table, keys, ordered[..], size, order);
    var flattened := Flatten(ordered[..]);
    return Some(flattened);
  }

  lemma OthersKept(table: Table, keys: seq<Key>, before: seq<Option<Item>>, after: seq<Option<Item>>, size: nat, order: seq<nat>, i: nat)
    requires size > 0 && |before| == |keys| == |after| && i < |order| && (forall j, k :: 0 <= j < k < |order| ==> order[j] != order[k])
    requires forall p :: 0 <= p < |keys| && !(Low(|keys|, size, order[i]) <= p < Low(|keys|, size, order[i] + 1)) ==> after[p] == before[p]
    requires forall j :: 0 <= j < i ==> Settled(table, keys, before, size, order[j])
    requires forall j :: i <= j < |order| ==> Untouched(keys, before, size, order[j])
    ensures forall j :: 0 <= j < i ==> Settled(table, keys, after, size, order[j])
    ensures forall j :: i < j < |order| ==> Untouched(keys, after, size, order[j])
  {
    forall j | 0 <= j < |order| && j != i
      ensures forall p :: Low(|keys|, size, order[j]) <= p < Low(|keys|, size, order[j] + 1) ==> 0 <= p < |keys| && after[p] == before[p]
    {
      LowGrows(|keys|, size, order[j]);
      WindowsApart(|keys|, size, order[i], order[j]);
    }
    forall j | 0 <= j < i ensures Settled(table, keys, after, size, order[j]) { assert Settled(table, keys, before, size, order[j]); }
    forall j | i < j < |order| ensures Untouched(keys, after, size, order[j]) { assert Untouched(keys, before, size, order[j]); }
  }

  lemma {:induction false} ChunkOf(n: nat, size: nat, p: nat, c: nat) returns (d: nat)
    requires size > 0 && p < Low(n, size, c)
    ensures d < c && Low(n, size, d) <= p < Low(n, size, d + 1)
    decreases c
  {
    assert c > 0;
    if Low(n, size, c - 1) <= p {
      d := c - 1;
    } else {
      d := ChunkOf(n, size, p, c - 1);
    }
  }

  lemma AllSettled(table: Table, keys: seq<Key>, slots: seq<Option<Item>>, size: nat, order: seq<nat>)
    requires size > 0 && |slots| == |keys| && Schedule(order, ChunkCount(|keys|, size))
    requires forall j :: 0 <= j < |order| ==> Settled(table, keys, slots, size, order[j])
    ensures slots == Lookups(table, keys)
  {
    LowEnds(|keys|, size);
    forall p | 0 <= p < |keys| ensures slots[p] == Lookup(table, keys[p]) {
      var c := ChunkOf(|keys|, size, p, ChunkCount(|keys|, size));
      assert c in order;
      var j :| 0 <= j < |order| && order[j] == c;
      assert Settled(table, keys, slots, size, order[j]);
    }
  }

  lemma {:induction false} PresentAppend(xs: seq<Option<Item>>, x: Option<Item>)
    ensures Present(xs + [x]) == Present(xs) + if x.Some? then [x.value] else []
    decreases |xs|
  {
    if xs == [] {
      assert xs + [x] == [x] && [x][1..] == [];
    } else {
      assert (xs + [x])[0] == xs[0] && (xs + [x])[1..] == xs[1..] + [x];
      PresentAppend(xs[1..], x);
    }
  }

  method Flatten(ordered: seq<Option<Item>>) returns (r: seq<Item>)
    ensures r == Present(ordered)
  {
    r := [];
    for i := 0 to |ordered|
      invariant r == Present(ordered[..i])
    {
      assert ordered[..i + 1] == ordered[..i] + [ordered[i]];
      PresentAppend(ordered[..i], ordered[i]);
      if ordered[i].Some? {
        r := r + [ordered[i].value];
      }
    }
    assert ordered[..|ordered|] == ordered;
  }
}
