/**
 Paging through the session history: sessions newest first, a session's events in order, and bounded
 search. A cursor names the last item seen.
 */
module HistoryPaging {
  import opened Basics
  import opened LineLog
  import opened EventLogs

  // ------------------------------------------------------------------ newest first

  datatype Record = Record(id: nat, started: int)

  predicate Before(a: Record, b: Record) {
    a.started > b.started || (a.started == b.started && a.id < b.id)
  }

  predicate NewestFirst(s: seq<Record>) {
    |s| < 2 || (Before(s[0], s[1]) && NewestFirst(s[1..]))
  }

  function Inserted(s: seq<Record>, r: Record): seq<Record> {
    if s == [] then [r] else if Before(r, s[0]) then [r] + s else [s[0]] + Inserted(s[1..], r)
  }

  /** `#allRecordsNewestFirst` */
  function Sorted(records: seq<Record>): seq<Record> {
    if records == [] then [] else Inserted(Sorted(records[..|records| - 1]), records[|records| - 1])
  }

  ghost predicate DistinctIds(records: seq<Record>) {
    forall i, j :: 0 <= i < j < |records| ==> records[i].id != records[j].id
  }

  lemma {:induction false} OrderedPairs(s: seq<Record>, i: nat, j: nat)
    requires NewestFirst(s) && i < j < |s|
    ensures Before(s[i], s[j])
  {
    if i > 0 {
      OrderedPairs(s[1..], i - 1, j - 1);
    } else if j > 1 {
      OrderedPairs(s[1..], 0, j - 1);
    }
  }

  lemma {:induction false} InsertedOrdered(s: seq<Record>, r: Record)
    requires NewestFirst(s) && forall i :: 0 <= i < |s| ==> s[i].id != r.id
    ensures NewestFirst(Inserted(s, r)) && Inserted(s, r)[0] == if s == [] || Before(r, s[0]) then r else s[0]
  {
    if s != [] && !Before(r, s[0]) {
      InsertedOrdered(s[1..], r);
      assert Inserted(s, r)[1..] == Inserted(s[1..], r);
    } else if s != [] {
      assert Inserted(s, r)[1..] == s;
    }
  }

  lemma {:induction false} InsertedHolds(s: seq<Record>, r: Record)
    ensures multiset(Inserted(s, r)) == multiset(s) + multiset([r])
  {
    if s != [] {
      assert s == [s[0]] + s[1..];
      if !Before(r, s[0]) { InsertedHolds(s[1..], r); }
    }
  }

  lemma {:induction false} SortedHolds(records: seq<Record>)
    ensures multiset(Sorted(records)) == multiset(records)
  {
    if records != [] {
      var init, last := records[..|records| - 1], records[|records| - 1];
      SortedHolds(init);
      InsertedHolds(Sorted(init), last);
      assert records == init + [last];
    }
  }

  lemma FromRecords(s: seq<Record>, records: seq<Record>, i: nat) returns (k: nat)
    requires multiset(s) == multiset(records) && i < |s|
    ensures k < |records| && records[k] == s[i]
  {
    assert s[i] in multiset(records);
    k :| k < |records| && records[k] == s[i];
  }

  lemma {:induction false} SortedIs(records: seq<Record>)
    requires DistinctIds(records)
    ensures NewestFirst(Sorted(records)) && multiset(Sorted(records)) == multiset(records)
  {
    SortedHolds(records);
    if records != [] {
      var init, last := records[..|records| - 1], records[|records| - 1];
      SortedIs(init);
      var s := Sorted(init);
      forall i | 0 <= i < |s| ensures s[i].id != last.id {
        var k := FromRecords(s, init, i);
        assert records[k] == s[i];
      }
      InsertedOrdered(s, last);
    }
  }

  lemma FirstIsSame(s: seq<Record>, t: seq<Record>)
    requires NewestFirst(s) && NewestFirst(t) && multiset(s) == multiset(t) && s != [] && t != []
    ensures s[0] == t[0]
  {
    var i := FromRecords(s, t, 0);
    var j := FromRecords(t, s, 0);
    if i > 0 { OrderedPairs(t, 0, i); }
    if j > 0 { OrderedPairs(s, 0, j); }
  }

  /** The order is total: the same records in any arrangement sort to the same list. */
  lemma {:induction false} SortIsUnique(s: seq<Record>, t: seq<Record>)
    requires NewestFirst(s) && NewestFirst(t) && multiset(s) == multiset(t)
    ensures s == t
  {
    assert |s| == |multiset(s)| == |multiset(t)| == |t|;
    if s != [] {
      FirstIsSame(s, t);
      assert s == [s[0]] + s[1..] && t == [t[0]] + t[1..];
      assert multiset(s[1..]) == multiset(s) - multiset([s[0]]);
      assert multiset(t[1..]) == multiset(t) - multiset([t[0]]);
      SortIsUnique(s[1..], t[1..]);
    }
  }

  /** The listing has exactly the records there are, the later started first and the smaller id first among equals, however they were stored. */
  lemma ListingIsStable(a: seq<Record>, b: seq<Record>)
    requires DistinctIds(a) && DistinctIds(b) && multiset(a) == multiset(b)
    ensures Sorted(a) == Sorted(b) && multiset(Sorted(a)) == multiset(a)
    ensures forall i, j :: 0 <= i < j < |Sorted(a)| ==>
              var r, s := Sorted(a)[i], Sorted(a)[j];
              r.started > s.started || (r.started == s.started && r.id < s.id)
  {
    SortedIs(a);
    SortedIs(b);
    SortIsUnique(Sorted(a), Sorted(b));
    forall i, j | 0 <= i < j < |Sorted(a)| ensures Before(Sorted(a)[i], Sorted(a)[j]) { OrderedPairs(Sorted(a), i, j); }
  }

  // ------------------------------------------------------------------ pages

  datatype Page<T> = InvalidCursor | Page(items: seq<T>, next: Option<nat>)

  function IndexOf<T>(all: seq<T>, key: T -> nat, k: nat): (i: nat)
    ensures i <= |all| && (i < |all| ==> key(all[i]) == k)
    ensures forall j :: 0 <= j < i ==> key(all[j]) != k
  {
    if all == [] then 0 else if key(all[0]) == k then 0 else
      var i := IndexOf(all[1..], key, k);
      assert forall j :: 0 < j < i + 1 ==> all[j] == all[1..][j - 1];
      1 + i
  }

  /** Where a page begins: at the front, or behind the item the cursor names. */
  function StartOf<T>(all: seq<T>, key: T -> nat, cursor: Option<nat>): Option<nat> {
    if cursor.None? then Some(0)
    else if IndexOf(all, key, cursor.value) == |all| then None
    else Some(IndexOf(all, key, cursor.value) + 1)
  }

  /** `listSessions` and `listEvents`, over the list each of them reads. */
  function PageOf<T>(all: seq<T>, key: T -> nat, cursor: Option<nat>, limit: nat): Page<T> {
    var start := StartOf(all, key, cursor);
    if start.None? then InvalidCursor else
      var page := all[start.value..Min(|all|, start.value + limit)];
      Page(page, if start.value + limit < |all| && page != [] then Some(key(page[|page| - 1])) else None)
  }

  ghost predicate DistinctKeys<T(!new)>(all: seq<T>, key: T -> nat) {
    forall i, j :: 0 <= i < j < |all| ==> key(all[i]) != key(all[j])
  }

  lemma IndexOfAt<T(!new)>(all: seq<T>, key: T -> nat, i: nat)
    requires DistinctKeys(all, key) && i < |all|
    ensures IndexOf(all, key, key(all[i])) == i
  {
  }

  /** The next page begins where this one ended. */
  lemma NextPageFollows<T(!new)>(all: seq<T>, key: T -> nat, cursor: Option<nat>, limit: nat)
    requires DistinctKeys(all, key) && limit >= 1 && StartOf(all, key, cursor).Some?
    ensures var start, page := StartOf(all, key, cursor).value, PageOf(all, key, cursor, limit);
            && start <= |all|
            && page.Page? && page.items == all[start..Min(|all|, start + limit)]
            && (page.next.Some? <==> start + limit < |all|)
            && (page.next.Some? ==> StartOf(all, key, page.next) == Some(start + limit))
  {
    var start := StartOf(all, key, cursor).value;
    if start + limit < |all| { IndexOfAt(all, key, start + limit - 1); }
  }

  /** All items a client collects by following cursors: everything from where it starts. */
  function Collected<T(!new)>(all: seq<T>, key: T -> nat, cursor: Option<nat>, limit: nat): (items: seq<T>)
    requires DistinctKeys(all, key) && limit >= 1 && StartOf(all, key, cursor).Some?
    ensures StartOf(all, key, cursor).value <= |all| && items == all[StartOf(all, key, cursor).value..]
    decreases |all| - StartOf(all, key, cursor).value
  {
    NextPageFollows(all, key, cursor, limit);
    var start, page := StartOf(all, key, cursor).value, PageOf(all, key, cursor, limit);
    SlicesJoin(all, start, Min(|all|, start + limit));
    if page.next.None? then page.items else page.items + Collected(all, key, page.next, limit)
  }

  lemma SlicesJoin<T>(all: seq<T>, start: nat, end: nat)
    requires start <= end <= |all|
    ensures all[start..end] + all[end..] == all[start..] && (end == |all| ==> all[start..end] == all[start..])
  {
  }

  /**
   Following cursors from the front yields every item exactly once, in order, whatever the page size;
   a cursor no item bears is refused, and no other.
   */
  lemma PagesYieldAll<T(!new)>(all: seq<T>, key: T -> nat, limit: nat)
    requires DistinctKeys(all, key) && limit >= 1
    ensures Collected(all, key, None, limit) == all
    ensures forall k :: PageOf(all, key, Some(k), limit).InvalidCursor? <==> forall i :: 0 <= i < |all| ==> key(all[i]) != k
  {
    assert all[0..] == all;
  }

  function IdOf(r: Record): nat { r.id }

  lemma SessionPagesYieldAll(records: seq<Record>, limit: nat)
    requires DistinctIds(records) && limit >= 1
    ensures DistinctKeys(Sorted(records), IdOf) && Collected(Sorted(records), IdOf, None, limit) == Sorted(records)
  {
    SortedIs(records);
    var s := Sorted(records);
    forall i, j | 0 <= i < j < |s| ensures IdOf(s[i]) != IdOf(s[j]) { SortedKeepsDistinct(records, i, j); }
    PagesYieldAll(s, IdOf, limit);
  }

  lemma SortedKeepsDistinct(records: seq<Record>, i: nat, j: nat)
    requires DistinctIds(records) && i < j < |Sorted(records)|
    ensures Sorted(records)[i].id != Sorted(records)[j].id
  {
    SortedIs(records);
    var s := Sorted(records);
    var a := FromRecords(s, records, i);
    var b := FromRecords(s, records, j);
    OrderedPairs(s, i, j);
  }

  // ------------------------------------------------------------------ a session's events

  /** `#readEventLog`: up to the first line that does not parse. */
  function ReadEvents(lines: seq<Line<Event>>): seq<Event> {
    if lines == [] || lines[0].Garbage? then [] else [lines[0].item] + ReadEvents(lines[1..])
  }

  lemma {:induction false} ReadsAll(lines: seq<Line<Event>>)
    requires forall i :: 0 <= i < |lines| ==> lines[i].Whole?
    ensures |ReadEvents(lines)| == |lines| && forall i :: 0 <= i < |lines| ==> ReadEvents(lines)[i] == lines[i].item
  {
    if lines != [] { ReadsAll(lines[1..]); }
  }

  function SequenceOf(e: Event): nat { e.sequence }

  /** Every event of a repaired log is paged exactly once. */
  lemma EventPagesYieldAll(log: Log<Event>, limit: nat)
    requires limit >= 1
    ensures var lines, events := Repaired(log).lines, ReadEvents(Repaired(log).lines);
            && |events| == |lines| && (forall i :: 0 <= i < |lines| ==> lines[i] == Whole(events[i]))
            && DistinctKeys(events, SequenceOf) && Collected(events, SequenceOf, None, limit) == events
  {
    var lines := Repaired(log).lines;
    RepairKeepsLongestPrefix(log);
    forall i | 0 <= i < |lines| ensures lines[i].Whole? {
      if i + 1 < |lines| { RisingOrders(lines, i, i + 1); } else if i > 0 { RisingOrders(lines, i - 1, i); }
    }
    ReadsAll(lines);
    var events := ReadEvents(lines);
    forall i, j | 0 <= i < j < |events| ensures SequenceOf(events[i]) != SequenceOf(events[j]) { RisingOrders(lines, i, j); }
    PagesYieldAll(events, SequenceOf, limit);
  }

  // ------------------------------------------------------------------ search

  const MAX_SEARCH_MATCHES := 50
  const MAX_SESSIONS_SCANNED := 200

  datatype Match = Match(session: nat, sequence: nat, field: nat)

  /** What is searched for: which of an event's fields hold the needle, and each session's events. */
  datatype Query = Query(hits: Event -> seq<bool>, events: nat -> seq<Event>)

  function FirstHit(hits: seq<bool>): Option<nat> {
    if hits == [] then None
    else if FirstHit(hits[..|hits| - 1]).Some? then FirstHit(hits[..|hits| - 1])
    else if hits[|hits| - 1] then Some(|hits| - 1) else None
  }

  /** At most one match per event. */
  function MatchesIn(session: nat, events: seq<Event>, q: Query): seq<Match> {
    if events == [] then []
    else
      var e := events[|events| - 1];
      var hit := FirstHit(q.hits(e));
      MatchesIn(session, events[..|events| - 1], q) + (if hit.Some? then [Match(session, e.sequence, hit.value)] else [])
  }

  function SessionMatches(r: Record, q: Query): seq<Match> {
    MatchesIn(r.id, q.events(r.id), q)
  }

  /** One full scan, without any bound. */
  function FullScan(all: seq<Record>, q: Query): seq<Match> {
    if all == [] then [] else FullScan(all[..|all| - 1], q) + SessionMatches(all[|all| - 1], q)
  }

  lemma {:induction false} ScanSplits(all: seq<Record>, i: nat, q: Query)
    requires i <= |all|
    ensures FullScan(all, q) == FullScan(all[..i], q) + FullScan(all[i..], q)
  {
    if i == |all| {
      assert all[..i] == all && all[i..] == [];
    } else {
      var init := all[..|all| - 1];
      ScanSplits(init, i, q);
      assert init[..i] == all[..i] && init[i..] == all[i..][..|all| - i - 1];
    }
  }

  /** The field a match names is the first that holds the needle; there is no match exactly when none does. */
  lemma {:induction false} FirstHitExactly(hits: seq<bool>)
    ensures FirstHit(hits) == None <==> forall k :: 0 <= k < |hits| ==> !hits[k]
    ensures FirstHit(hits).Some? ==>
              var k := FirstHit(hits).value; k < |hits| && hits[k] && forall j :: 0 <= j < k ==> !hits[j]
  {
    if hits != [] { FirstHitExactly(hits[..|hits| - 1]); }
  }

  /** The event has this match: its own number, and the first of its fields that holds the needle. */
  ghost predicate Matches(e: Event, q: Query, m: Match) {
    && e.sequence == m.sequence && m.field < |q.hits(e)| && q.hits(e)[m.field]
    && forall j :: 0 <= j < m.field ==> !q.hits(e)[j]
  }

  lemma {:induction false} MatchesExactly(session: nat, events: seq<Event>, q: Query, m: Match)
    ensures m in MatchesIn(session, events, q) <==> m.session == session && exists i :: 0 <= i < |events| && Matches(events[i], q, m)
  {
    if events != [] {
      var init, last := events[..|events| - 1], events[|events| - 1];
      MatchesExactly(session, init, q, m);
      FirstHitExactly(q.hits(last));
      if i :| 0 <= i < |init| && Matches(init[i], q, m) { assert Matches(events[i], q, m); }
      if i :| 0 <= i < |events| && Matches(events[i], q, m) && i < |init| { assert Matches(init[i], q, m); }
    }
  }

  /** A scan finds exactly the matches of the events of the sessions it covers. */
  lemma {:induction false} ScanFindsExactly(all: seq<Record>, q: Query, m: Match)
    ensures m in FullScan(all, q) <==>
            exists p, i :: 0 <= p < |all| && 0 <= i < |q.events(all[p].id)| && m.session == all[p].id && Matches(q.events(all[p].id)[i], q, m)
  {
    if all != [] {
      var init, last := all[..|all| - 1], all[|all| - 1];
      ScanFindsExactly(init, q, m);
      MatchesExactly(last.id, q.events(last.id), q, m);
      forall p | 0 <= p < |init| ensures init[p] == all[p] {}
    }
  }

  lemma ScansJoin(all: seq<Record>, start: nat, end: nat, q: Query)
    requires start <= end <= |all|
    ensures FullScan(all[..start], q) + FullScan(all[start..end], q) == FullScan(all[..end], q)
    ensures end == |all| ==> FullScan(all[..end], q) == FullScan(all, q)
  {
    ScanSplits(all[..end], start, q);
    assert all[..end][..start] == all[..start] && all[..end][start..] == all[start..end];
    assert end == |all| ==> all[..end] == all;
  }

  method FindHit(hits: seq<bool>) returns (hit: Option<nat>)
    ensures hit == FirstHit(hits)
  {
    for i := 0 to |hits|
      invariant FirstHit(hits[..i]).None?
    {
      assert hits[..i + 1][..i] == hits[..i];
      if hits[i] {
        HitStays(hits, i + 1);
        return Some(i);
      }
    }
    assert hits[..|hits|] == hits;
    return None;
  }

  lemma {:induction false} HitStays(hits: seq<bool>, i: nat)
    requires i <= |hits| && FirstHit(hits[..i]).Some?
    ensures FirstHit(hits) == FirstHit(hits[..i])
    decreases |hits| - i
  {
    if i == |hits| {
      assert hits[..i] == hits;
    } else {
      assert hits[..i + 1][..i] == hits[..i];
      HitStays(hits, i + 1);
    }
  }

  /** A page of whole sessions: it stops at the first one that brings enough matches, or at the scan bound. */
  ghost predicate WholeSessions(all: seq<Record>, start: nat, end: nat, limit: int, matches: seq<Match>, q: Query) {
    && start <= end <= |all| && end - start <= 200 && (start < |all| ==> start < end)
    && matches == FullScan(all[start..end], q)
    && (end < |all| && end - start < 200 ==> |matches| >= Min(limit, 50))
    && NotBefore(all, start, end, Min(limit, 50), q)
  }

  /** No earlier session would have brought enough matches. */
  ghost predicate NotBefore(all: seq<Record>, start: nat, end: nat, bound: int, q: Query)
    requires end <= |all|
  {
    forall k :: start < k < end ==> |FullScan(all[start..k], q)| < bound
  }

  lemma NotBeforeOneMore(all: seq<Record>, start: nat, end: nat, bound: int, q: Query)
    requires start <= end < |all| && NotBefore(all, start, end, bound, q)
    requires end > start ==> |FullScan(all[start..end], q)| < bound
    ensures NotBefore(all, start, end + 1, bound, q)
  {
  }

  /** The loop over one session's events. */
  method ScanEvents(r: Record, q: Query) returns (matches: seq<Match>)
    ensures matches == SessionMatches(r, q)
  {
    var events := q.events(r.id);
    matches := [];
    for j := 0 to |events|
      invariant matches == MatchesIn(r.id, events[..j], q)
    {
      assert events[..j + 1][..j] == events[..j];
      var hit := FindHit(q.hits(events[j]));
      if hit.Some? { matches := matches + [Match(r.id, events[j].sequence, hit.value)]; }
    }
    assert events[..|events|] == events;
  }

  lemma ScanOneMore(all: seq<Record>, start: nat, end: nat, q: Query)
    requires start <= end < |all|
    ensures FullScan(all[start..end + 1], q) == FullScan(all[start..end], q) + SessionMatches(all[end], q)
  {
    assert all[start..end + 1][..end - start] == all[start..end];
  }

  /** The scanning loop. */
  method ScanSessions(all: seq<Record>, start: nat, limit: int, q: Query) returns (matches: seq<Match>, end: nat)
    requires start <= |all|
    ensures WholeSessions(all, start, end, limit, matches, q)
  {
    var bound := Min(limit, MAX_SEARCH_MATCHES);
    var last := Min(|all|, start + MAX_SESSIONS_SCANNED);
    matches, end := [], start;
    while end < last
      invariant start <= end <= last
      invariant matches == FullScan(all[start..end], q)
      invariant end > start ==> |matches| < bound
      invariant NotBefore(all, start, end, bound, q)
      decreases last - end
    {
      var found := ScanEvents(all[end], q);
      ScanOneMore(all, start, end, q);
      NotBeforeOneMore(all, start, end, bound, q);
      matches := matches + found;
      end := end + 1;
      if |matches| >= bound { break; }
    }
  }

  datatype SearchPage = RefusedCursor | Found(matches: seq<Match>, next: Option<nat>)

  /**
   `searchEvents`: an unknown cursor is refused; otherwise the page is the full scan of the whole
   sessions from behind the cursor up to `end`, and its cursor names the last of them.
   */
  method SearchEvents(all: seq<Record>, cursor: Option<nat>, limit: int, q: Query) returns (page: SearchPage, end: nat)
    ensures page.RefusedCursor? <==> cursor.Some? && forall i :: 0 <= i < |all| ==> all[i].id != cursor.value
    ensures page.Found? ==>
              && StartOf(all, IdOf, cursor).Some? && WholeSessions(all, StartOf(all, IdOf, cursor).value, end, limit, page.matches, q)
              && page.next == if end < |all| then Some(all[end - 1].id) else None
  {
    var start := StartOf(all, IdOf, cursor);
    if start.None? {
      assert forall i :: 0 <= i < |all| ==> IdOf(all[i]) == all[i].id;
      return RefusedCursor, 0;
    }
    assert cursor.Some? ==> IdOf(all[start.value - 1]) == all[start.value - 1].id;
    var matches;
    matches, end := ScanSessions(all, start.value, limit, q);
    page := Found(matches, if end < |all| then Some(all[end - 1].id) else None);
  }

  lemma ResolvedMeansKnown(all: seq<Record>, cursor: Option<nat>)
    requires StartOf(all, IdOf, cursor).Some?
    ensures cursor.Some? ==> exists i :: 0 <= i < |all| && all[i].id == cursor.value
  {
    if cursor.Some? {
      var i := IndexOf(all, IdOf, cursor.value);
      assert all[i].id == IdOf(all[i]);
    }
  }

  /** The whole search as a client makes it: call, follow the cursor, until there is none. */
  method SearchAll(all: seq<Record>, limit: int, q: Query) returns (matches: seq<Match>)
    requires DistinctKeys(all, IdOf)
    ensures matches == FullScan(all, q)
  {
    matches := [];
    var cursor: Option<nat> := None;
    ghost var start := 0;
    while true
      invariant start <= |all| && StartOf(all, IdOf, cursor) == Some(start) && matches == FullScan(all[..start], q)
      decreases |all| - start
    {
      var page, end := SearchEvents(all, cursor, limit, q);
      ResolvedMeansKnown(all, cursor);
      ScansJoin(all, start, end, q);
      matches := matches + page.matches;
      if page.next.None? { return; }
      IndexOfAt(all, IdOf, end - 1);
      cursor, start := page.next, end;
    }
  }
}
