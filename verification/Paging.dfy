/** Paging: the cursor walk of pkg/query over a fixed table, and the page collector of
    internal/theorydb. */
module Paging {
  import opened Wrappers
  import opened AttributeValues
  import opened Codecs

  type Key = map<string, AV>

  datatype Row = Row(key: Key, fields: map<string, AV>, matches: bool)

  /** The rows in the order the table evaluates them. */
  predicate TableOk(rows: seq<Row>) {
    && (forall i :: 0 <= i < |rows| ==> rows[i].key != map[])
    && (forall i, j :: 0 <= i < j < |rows| ==> rows[i].key != rows[j].key)
  }

  /** The rows a filter lets through. */
  function Matching(rows: seq<Row>): seq<Row> {
    if rows == [] then [] else (if rows[0].matches then [rows[0]] else []) + Matching(rows[1..])
  }

  lemma {:induction false} MatchingConcat(a: seq<Row>, b: seq<Row>)
    ensures Matching(a + b) == Matching(a) + Matching(b)
    decreases |a|
  {
    if a == [] {
      assert a + b == b;
    } else {
      assert (a + b)[0] == a[0] && (a + b)[1..] == a[1..] + b;
      MatchingConcat(a[1..], b);
    }
  }

  /** How many rows come before or at a key, whether or not a row has it. */
  type Place = Key -> nat

  ghost predicate HonestPlace(rows: seq<Row>, place: Place) {
    && (forall key :: place(key) <= |rows|)
    && (forall i :: 0 <= i < |rows| ==> place(rows[i].key) == i + 1)
  }

  /** Where a page starts: after the exclusive start key. */
  function StartAfter(place: Place, exclusive: Option<Key>): nat {
    if exclusive.None? then 0 else place(exclusive.value)
  }

  /** How far a page that starts at a position reaches, and whether the table says there is
      more; a page may be empty after filtering, and may stop exactly at the end. */
  type Reach = (int, nat) -> (nat, bool)

  ghost predicate HonestReach(rows: seq<Row>, reach: Reach) {
    forall limit: int, at: nat :: at <= |rows| ==>
      var (next, more) := reach(limit, at);
      at <= next <= |rows| && (if more then at < next else next == |rows|)
  }

  /** The query's paging state: the limit and the exclusive start key it sends. */
  class Pager {
    const rows: seq<Row>
    const place: Place
    const reach: Reach
    var limit: int
    var exclusive: Option<Key>

    ghost predicate Honest()
    {
      TableOk(rows) && HonestPlace(rows, place) && HonestReach(rows, reach)
    }

    constructor (rows: seq<Row>, place: Place, reach: Reach, limit: int)
      ensures this.rows == rows && this.place == place && this.reach == reach && this.limit == limit && exclusive == None
    {
      this.rows, this.place, this.reach, this.limit, this.exclusive := rows, place, reach, limit, None;
    }

    /** AllPaginated: one page, its matching rows, and the cursor of its last evaluated key.
        HasMore is cursor.Some?. */
    method AllPaginated() returns (items: seq<Row>, cursor: Option<map<string, Go>>, ghost next: nat)
      requires Honest()
      modifies this`limit
      ensures var at := StartAfter(place, exclusive);
              && at <= next <= |rows| && items == Matching(rows[at..next])
              && (if cursor.Some? then at < next && cursor.value == CursorKey(rows[next - 1].key) else next == |rows|)
      ensures limit == if old(limit) == 0 then 100 else old(limit)
    {
      if limit == 0 {
        limit := 100;
      }
      var at := StartAfter(place, exclusive);
      var (stop, more) := reach(limit, at);
      next := stop;
      items := Matching(rows[at..stop]);
      cursor := if more then Some(CursorKey(rows[stop - 1].key)) else None;
    }

    /** SetCursor: no cursor changes nothing; a cursor with an empty key starts over; any other
        is decoded and remembered as exclusive start key; a bad one changes nothing. */
    method SetCursor(cursor: Option<map<string, Go>>) returns (ok: bool)
      modifies this`exclusive
      ensures ok <==> cursor.None? || KeyOfCursor(cursor.value).Some?
      ensures exclusive == if cursor.None? || !ok then old(exclusive)
                           else if cursor.value == map[] then None else Some(KeyOfCursor(cursor.value).value)
    {
      if cursor.None? {
        return true;
      }
      var key := KeyOfCursor(cursor.value);
      if key.None? {
        return false;
      }
      exclusive := if cursor.value == map[] then None else Some(key.value);
      return true;
    }

    /** One page, and if there is more, the cursor taken over for the next. */
    method Turn() returns (items: seq<Row>, more: bool, ghost next: nat)
      requires Honest()
      modifies this
      ensures var at := old(StartAfter(place, exclusive));
              && at <= next <= |rows| && items == Matching(rows[at..next])
              && if more then at < next && StartAfter(place, exclusive) == next else next == |rows|
    {
      var cursor;
      items, cursor, next := AllPaginated();
      if cursor.None? {
        return items, false, next;
      }
      CursorResumes(rows, place, next);
      hide Matching, CursorKey, KeyOfCursor, TableOk, HonestReach, HonestPlace;
      var ok := SetCursor(cursor);
      more := true;
    }

    /** Paging is exactly-once: following NextCursor until HasMore is false yields every
        matching row once, in order, through empty pages, and terminates. */
    method Walk() returns (all: seq<Row>)
      requires Honest() && exclusive == None
      modifies this
      ensures all == Matching(rows)
    {
      assert StartAfter(place, exclusive) == 0;
      all := [];
      ghost var at := 0;
      assert rows[..0] == [] && Matching(rows[..0]) == [];
      hide Matching, StartAfter, TableOk, HonestReach, HonestPlace;
      var more := true;
      while more
        invariant 0 <= at <= |rows| && all == Matching(rows[..at])
        invariant if more then StartAfter(place, exclusive) == at else at == |rows|
        decreases more, |rows| - at
      {
        ghost var from := at;
        var items;
        items, more, at := Turn();
        assert rows[..from] + rows[from..at] == rows[..at];
        MatchingConcat(rows[..from], rows[from..at]);
        all := all + items;
      }
      assert rows[..|rows|] == rows;
    }
  }

  /** The cursor of a row's key leads to the row after it. */
  lemma CursorResumes(rows: seq<Row>, place: Place, next: nat)
    requires TableOk(rows) && HonestPlace(rows, place) && 0 < next <= |rows|
    ensures var cursor := CursorKey(rows[next - 1].key);
            var key := KeyOfCursor(cursor);
            cursor != map[] && key.Some? && StartAfter(place, Some(key.value)) == next
  {
    var key := rows[next - 1].key;
    CursorKeyRoundTrip(key);
    assert CursorKey(key).Keys == key.Keys;
  }

  /** No row twice: the walk's result lists distinct keys. */
  lemma {:induction false} MatchingDistinct(rows: seq<Row>)
    requires TableOk(rows)
    ensures forall i, j :: 0 <= i < j < |Matching(rows)| ==> Matching(rows)[i].key != Matching(rows)[j].key
    ensures forall i :: 0 <= i < |Matching(rows)| ==> Matching(rows)[i] in rows && Matching(rows)[i].matches
    ensures forall r :: r in rows && r.matches ==> r in Matching(rows)
    decreases |rows|
  {
    if rows != [] {
      assert TableOk(rows[1..]) by { assert forall j :: 0 <= j < |rows[1..]| ==> rows[1..][j] == rows[j + 1]; }
      MatchingDistinct(rows[1..]);
      var rest := Matching(rows[1..]);
      forall i | 0 <= i < |rest| ensures rest[i].key != rows[0].key && rest[i] in rows {
        var j :| 0 <= j < |rows[1..]| && rows[1..][j] == rest[i];
        assert rows[j + 1] == rest[i];
      }
    }
  }

  // ----- collecting pages up to a limit

  function Min(a: nat, b: nat): nat {
    if a < b then a else b
  }

  /** collectPaginatedItems over pages that may fail (None): with trimming, the prefix of all
      pages of length min(limit, total); without, whole pages up to the first that reaches
      the limit. */
  method CollectPaginatedItems<T>(pages: seq<Option<seq<T>>>, limit: nat, hasLimit: bool, trim: bool) returns (r: Option<seq<T>>, fetched: nat)
    ensures fetched <= |pages|
    ensures r.None? ==> exists i :: 0 <= i < |pages| && pages[i].None?
    ensures r.Some? ==> forall i :: 0 <= i < fetched ==> pages[i].Some?
    ensures r.Some? && !hasLimit ==> fetched == |pages| && r.value == Contents(pages, fetched)
    ensures r.Some? && hasLimit && trim ==>
              r.value == Contents(pages, fetched)[..Min(limit, |Contents(pages, fetched)|)] && (fetched < |pages| ==> |r.value| == limit)
    ensures r.Some? && hasLimit && !trim ==>
              r.value == Contents(pages, fetched) && (fetched < |pages| ==> |r.value| >= limit)
    ensures r.Some? && hasLimit ==> forall k :: 0 < k < fetched ==> |Contents(pages, k)| < limit
  {
    var items: seq<T> := [];
    fetched := 0;
    while fetched < |pages|
      invariant 0 <= fetched <= |pages| && (forall i :: 0 <= i < fetched ==> pages[i].Some?)
      invariant items == Contents(pages, fetched)
      invariant hasLimit ==> forall k :: 0 < k <= fetched ==> |Contents(pages, k)| < limit
    {
      if pages[fetched].None? {
        return None, fetched;
      }
      items := items + pages[fetched].value;
      fetched := fetched + 1;
      if hasLimit && |items| >= limit {
        if trim {
          return Some(items[..limit]), fetched;
        }
        return Some(items), fetched;
      }
    }
    assert hasLimit && fetched > 0 ==> |Contents(pages, fetched)| < limit;
    return Some(items), fetched;
  }

  /** The items of the first n pages, one after another. */
  function Contents<T>(pages: seq<Option<seq<T>>>, n: nat): seq<T>
    requires n <= |pages|
  {
    if n == 0 then [] else Contents(pages, n - 1) + if pages[n - 1].Some? then pages[n - 1].value else []
  }

  lemma {:induction false} ContentsGrow<T>(pages: seq<Option<seq<T>>>, m: nat, n: nat)
    requires m <= n <= |pages|
    ensures Contents(pages, m) <= Contents(pages, n)
    decreases n - m
  {
    if m < n {
      ContentsGrow(pages, m, n - 1);
    }
  }

  /** So a trimmed collection is the prefix, of length min(limit, total), of everything the
      pages hold: the pages it never fetched would not have changed it. */
  lemma TrimmedIsPrefix<T>(pages: seq<Option<seq<T>>>, fetched: nat, limit: nat)
    requires fetched <= |pages| && (fetched < |pages| ==> limit <= |Contents(pages, fetched)|)
    ensures var all := Contents(pages, |pages|);
            Contents(pages, fetched)[..Min(limit, |Contents(pages, fetched)|)] == all[..Min(limit, |all|)]
  {
    ContentsGrow(pages, fetched, |pages|);
  }
}
