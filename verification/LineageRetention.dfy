/**
 Retention: lineages past their age go first, then the oldest ones until both quotas hold. Active and
 excluded lineages are never touched.
 */
module LineageRetention {
  import opened Basics
  import opened LineageStore

  datatype Policy = Policy(maxAge: int, maxRecords: int, maxBytes: int)

  /** `#isActive` */
  predicate Active(l: Lineage) {
    exists k :: 0 <= k < |l.entries| && l.entries[k].open
  }

  function Newest(entries: seq<Entry>): int {
    if entries == [] then 0 else Max(Newest(entries[..|entries| - 1]), entries[|entries| - 1].stamp)
  }

  /** `#lineageRecency` */
  function Recency(l: Lineage): int {
    Newest(l.entries)
  }

  function RecordCount(ls: seq<Lineage>): nat {
    if ls == [] then 0 else RecordCount(ls[..|ls| - 1]) + |ls[|ls| - 1].entries|
  }

  function TotalBytes(ls: seq<Lineage>): nat {
    if ls == [] then 0 else TotalBytes(ls[..|ls| - 1]) + ls[|ls| - 1].bytes
  }

  predicate Candidate(l: Lineage, excluded: Option<nat>) {
    Some(l.root) != excluded && !Active(l)
  }

  /** Old enough to go: its newest moment is known and longer ago than the age allowed. */
  predicate Expired(l: Lineage, now: int, maxAge: int) {
    Recency(l) > 0 && now - Recency(l) > maxAge
  }

  /** Which lineages a pass may take: any candidate, or only those past their age. */
  datatype Filter = Filter(excluded: Option<nat>, agedOnly: bool, now: int, maxAge: int)

  predicate Eligible(l: Lineage, f: Filter) {
    Candidate(l, f.excluded) && (f.agedOnly ==> Expired(l, f.now, f.maxAge))
  }

  ghost predicate NoneEligible(ls: seq<Lineage>, f: Filter) {
    forall i :: 0 <= i < |ls| ==> !Eligible(ls[i], f)
  }

  /** No eligible lineage is older, and none before it is as old. */
  ghost predicate OldestFirst(ls: seq<Lineage>, f: Filter, v: nat)
    requires v < |ls|
  {
    && Eligible(ls[v], f)
    && forall i :: 0 <= i < |ls| && Eligible(ls[i], f) ==>
         Recency(ls[v]) <= Recency(ls[i]) && (i < v ==> Recency(ls[v]) < Recency(ls[i]))
  }

  /** The first of `#evictionCandidates`: a stable sort by recency puts the earliest of the oldest in front. */
  method PickVictim(ls: seq<Lineage>, f: Filter) returns (v: Option<nat>)
    ensures v.None? ==> NoneEligible(ls, f)
    ensures v.Some? ==> v.value < |ls| && OldestFirst(ls, f, v.value)
  {
    v := None;
    for i := 0 to |ls|
      invariant v.None? ==> NoneEligible(ls[..i], f)
      invariant v.Some? ==> v.value < i && OldestFirst(ls[..i], f, v.value)
    {
      assert ls[..i + 1] == ls[..i] + [ls[i]];
      if Eligible(ls[i], f) && (v.None? || Recency(ls[i]) < Recency(ls[v.value])) {
        v := Some(i);
      }
    }
    assert ls[..|ls|] == ls;
  }

  // ------------------------------------------------------------------ what a pass has done

  ghost predicate NoneOlder(gone: seq<Lineage>, ls: seq<Lineage>, f: Filter) {
    forall i, j :: 0 <= i < |gone| && 0 <= j < |ls| && Eligible(ls[j], f) ==> Recency(gone[i]) <= Recency(ls[j])
  }

  ghost predicate OldestWentFirst(gone: seq<Lineage>) {
    forall i, j :: 0 <= i < j < |gone| ==> Recency(gone[i]) <= Recency(gone[j])
  }

  ghost predicate AllEligible(gone: seq<Lineage>, f: Filter) {
    forall i :: 0 <= i < |gone| ==> Eligible(gone[i], f)
  }

  /** The store after a pass: exact, the gone were eligible and no younger than what is left, nothing else went. */
  ghost predicate Pruned(was: Store, st: Store, gone: seq<Lineage>, f: Filter) {
    && Exact(st)
    && AllEligible(gone, f) && NoneOlder(gone, st.lineages, f) && OldestWentFirst(gone)
    && multiset(st.lineages) + multiset(gone) == multiset(was.lineages)
  }

  lemma WithoutCounts(ls: seq<Lineage>, v: nat)
    requires v < |ls|
    ensures multiset(Without(ls, v)) + multiset([ls[v]]) == multiset(ls)
  {
    assert ls == ls[..v] + [ls[v]] + ls[v + 1..];
  }

  /** With the last victim back, a quota would be exceeded again. */
  predicate LastWasNeeded(ls: seq<Lineage>, gone: seq<Lineage>, maxRecords: int, byteLimit: int) {
    gone != [] ==>
      var last := gone[|gone| - 1];
      RecordCount(ls) + |last.entries| > maxRecords || TotalBytes(ls) + last.bytes > byteLimit
  }

  lemma EvictPrunes(was: Store, st: Store, gone: seq<Lineage>, f: Filter, v: nat)
    requires Pruned(was, st, gone, f) && v < |st.lineages| && OldestFirst(st.lineages, f, v)
    ensures Aligned(st) && Pruned(was, Evicted(st, v), gone + [st.lineages[v]], f)
  {
    var ls := st.lineages;
    var after, more := Without(ls, v), gone + [ls[v]];
    EvictKeepsExact(st, v);
    WithoutCounts(ls, v);
    assert multiset(more) == multiset(gone) + multiset([ls[v]]);
    forall i, j | 0 <= i < |more| && 0 <= j < |after| && Eligible(after[j], f) ensures Recency(more[i]) <= Recency(after[j]) {
      WithoutAt(ls, v, j);
      assert after[j] == ls[if j < v then j else j + 1];
    }
  }

  lemma NothingPruned(st: Store, f: Filter)
    requires Exact(st)
    ensures Pruned(st, st, [], f)
  {
    assert multiset(st.lineages) + multiset([]) == multiset(st.lineages);
  }

  lemma EvictNeeded(was: Store, st: Store, gone: seq<Lineage>, f: Filter, v: nat, maxRecords: int, byteLimit: int)
    requires Pruned(was, st, gone, f) && v < |st.lineages| && OldestFirst(st.lineages, f, v)
    ensures Aligned(st) && Pruned(was, Evicted(st, v), gone + [st.lineages[v]], f)
    ensures RecordCount(Evicted(st, v).lineages) <= RecordCount(st.lineages) && Evicted(st, v).lineages == Without(st.lineages, v)
    ensures RecordCount(st.lineages) > maxRecords || TotalBytes(st.lineages) > byteLimit ==>
              LastWasNeeded(Evicted(st, v).lineages, gone + [st.lineages[v]], maxRecords, byteLimit)
  {
    EvictPrunes(was, st, gone, f, v);
    CountWithout(st.lineages, v);
  }

  // ------------------------------------------------------------------ the passes

  /** The age pass: oldest first, until no candidate is past its age. */
  method EvictExpired(st: Store, f: Filter) returns (after: Store, gone: seq<Lineage>)
    requires Exact(st) && f.agedOnly
    ensures Pruned(st, after, gone, f) && NoneEligible(after.lineages, f)
  {
    after, gone := st, [];
    NothingPruned(st, f);
    while true
      invariant Pruned(st, after, gone, f)
      decreases |after.lineages|
    {
      var v := PickVictim(after.lineages, f);
      if v.None? { return; }
      EvictPrunes(st, after, gone, f, v.value);
      gone := gone + [after.lineages[v.value]];
      after := Evicted(after, v.value);
    }
  }

  /** The two quota passes, records before bytes; each stops when its quota holds or no candidate is left. */
  method EvictOverQuota(st: Store, f: Filter, maxRecords: int, byteLimit: int)
    returns (after: Store, gone: seq<Lineage>, fits: bool)
    requires Exact(st) && !f.agedOnly
    ensures Pruned(st, after, gone, f)
    ensures fits <==> RecordCount(after.lineages) <= maxRecords && TotalBytes(after.lineages) <= byteLimit
    ensures !fits ==> NoneEligible(after.lineages, f)
    ensures LastWasNeeded(after.lineages, gone, maxRecords, byteLimit) && (gone == [] ==> after == st)
  {
    after, gone, fits := st, [], true;
    NothingPruned(st, f);
    while RecordCount(after.lineages) > maxRecords
      invariant Pruned(st, after, gone, f) && LastWasNeeded(after.lineages, gone, maxRecords, byteLimit)
      invariant gone == [] ==> after == st
      decreases |after.lineages|
    {
      var v := PickVictim(after.lineages, f);
      if v.None? { return after, gone, false; }
      EvictNeeded(st, after, gone, f, v.value, maxRecords, byteLimit);
      gone := gone + [after.lineages[v.value]];
      after := Evicted(after, v.value);
    }
    while TotalBytes(after.lineages) > byteLimit
      invariant Pruned(st, after, gone, f) && RecordCount(after.lineages) <= maxRecords
      invariant LastWasNeeded(after.lineages, gone, maxRecords, byteLimit)
      invariant gone == [] ==> after == st
      decreases |after.lineages|
    {
      var v := PickVictim(after.lineages, f);
      if v.None? { return after, gone, false; }
      EvictNeeded(st, after, gone, f, v.value, maxRecords, byteLimit);
      gone := gone + [after.lineages[v.value]];
      after := Evicted(after, v.value);
    }
  }

  lemma {:induction false} CountWithout(ls: seq<Lineage>, v: nat)
    requires v < |ls|
    ensures RecordCount(Without(ls, v)) + |ls[v].entries| == RecordCount(ls)
    ensures TotalBytes(Without(ls, v)) + ls[v].bytes == TotalBytes(ls)
  {
    var init, last := ls[..|ls| - 1], ls[|ls| - 1];
    if v == |init| {
      assert Without(ls, v) == init;
    } else {
      CountWithout(init, v);
      assert Without(ls, v) == Without(init, v) + [last];
      assert Without(ls, v)[..|ls| - 2] == Without(init, v);
    }
  }

  /** Passes one after the other lose nothing: what is left and what went are what there was. */
  lemma PassesAddUp(a: Store, b: Store, c: Store, first: seq<Lineage>, second: seq<Lineage>, f: Filter, g: Filter)
    requires Pruned(a, b, first, f) && Pruned(b, c, second, g)
    ensures multiset(c.lineages) + multiset(first + second) == multiset(a.lineages)
  {
    assert multiset(first + second) == multiset(first) + multiset(second);
  }

  lemma {:induction false} SurvivorsWere(a: seq<Lineage>, b: seq<Lineage>, gone: seq<Lineage>, f: Filter)
    requires multiset(a) + multiset(gone) == multiset(b) && NoneEligible(b, f)
    ensures NoneEligible(a, f)
  {
    forall i | 0 <= i < |a| ensures !Eligible(a[i], f) {
      assert a[i] in multiset(b);
      assert a[i] in b;
    }
  }

  /** What retention promises. */
  ghost predicate Retained(was: Store, st: Store, aged: seq<Lineage>, pressed: seq<Lineage>, p: Policy, excluded: Option<nat>, now: int) {
    && Exact(st)
    && AllEligible(aged, Filter(excluded, true, now, p.maxAge))
    && AllEligible(pressed, Filter(excluded, false, now, p.maxAge))
    && NoneOlder(pressed, st.lineages, Filter(excluded, false, now, p.maxAge))
    && NoneEligible(st.lineages, Filter(excluded, true, now, p.maxAge))
    && multiset(st.lineages) + multiset(aged + pressed) == multiset(was.lineages)
  }

  /**
   `#enforceRetention`: only inactive, unexcluded lineages go; none past its age is left among the
   candidates; every quota victim is no newer than any candidate that stays; and both quotas hold
   unless no candidate is left.
   */
  method EnforceRetention(st: Store, p: Policy, excluded: Option<nat>, now: int)
    returns (after: Store, aged: seq<Lineage>, pressed: seq<Lineage>)
    requires Exact(st)
    ensures Retained(st, after, aged, pressed, p, excluded, now)
    ensures (RecordCount(after.lineages) <= p.maxRecords && TotalBytes(after.lineages) <= p.maxBytes)
            || NoneEligible(after.lineages, Filter(excluded, false, now, p.maxAge))
    ensures LastWasNeeded(after.lineages, pressed, p.maxRecords, p.maxBytes)
  {
    var byAge, any := Filter(excluded, true, now, p.maxAge), Filter(excluded, false, now, p.maxAge);
    var young, fits;
    young, aged := EvictExpired(st, byAge);
    after, pressed, fits := EvictOverQuota(young, any, p.maxRecords, p.maxBytes);
    PassesAddUp(st, young, after, aged, pressed, byAge, any);
    SurvivorsWere(after.lineages, young.lineages, pressed, byAge);
  }

  /** A second quota pass behind the first keeps what the first promised. */
  lemma PressedFurther(was: Store, kept: Store, after: Store, aged: seq<Lineage>, pressed: seq<Lineage>, more: seq<Lineage>,
                       p: Policy, excluded: Option<nat>, now: int)
    requires Retained(was, kept, aged, pressed, p, excluded, now)
    requires Pruned(kept, after, more, Filter(excluded, false, now, p.maxAge))
    ensures Retained(was, after, aged, pressed + more, p, excluded, now)
  {
    var any := Filter(excluded, false, now, p.maxAge);
    SurvivorsWere(after.lineages, kept.lineages, more, Filter(excluded, true, now, p.maxAge));
    assert multiset(aged + (pressed + more)) == multiset(aged + pressed) + multiset(more);
    forall i, j | 0 <= i < |pressed + more| && 0 <= j < |after.lineages| && Eligible(after.lineages[j], any)
      ensures Recency((pressed + more)[i]) <= Recency(after.lineages[j])
    {
      assert after.lineages[j] in multiset(kept.lineages);
      assert after.lineages[j] in kept.lineages;
    }
  }

  lemma StillNeeded(kept: seq<Lineage>, after: seq<Lineage>, pressed: seq<Lineage>, more: seq<Lineage>, p: Policy)
    requires LastWasNeeded(kept, pressed, p.maxRecords, p.maxBytes) && LastWasNeeded(after, more, p.maxRecords - 1, p.maxBytes - 1)
    requires more == [] ==> after == kept
    ensures LastWasNeeded(after, pressed + more, p.maxRecords - 1, p.maxBytes - 1)
  {
    if more == [] { assert pressed + more == pressed; }
  }

  /**
   `#makeRoomForOneMore`: either there is room for one more record and the bytes are below the budget,
   or storage is full and no candidate is left to evict.
   */
  method MakeRoomForOneMore(st: Store, p: Policy, excluded: nat, now: int)
    returns (after: Store, aged: seq<Lineage>, pressed: seq<Lineage>, full: bool)
    requires Exact(st)
    ensures Retained(st, after, aged, pressed, p, Some(excluded), now)
    ensures !full <==> RecordCount(after.lineages) + 1 <= p.maxRecords && TotalBytes(after.lineages) < p.maxBytes
    ensures full ==> NoneEligible(after.lineages, Filter(Some(excluded), false, now, p.maxAge))
    ensures LastWasNeeded(after.lineages, pressed, p.maxRecords - 1, p.maxBytes - 1)
  {
    var any := Filter(Some(excluded), false, now, p.maxAge);
    var kept, more, fits;
    kept, aged, pressed := EnforceRetention(st, p, Some(excluded), now);
    after, more, fits := EvictOverQuota(kept, any, p.maxRecords - 1, p.maxBytes - 1);
    PressedFurther(st, kept, after, aged, pressed, more, p, Some(excluded), now);
    StillNeeded(kept.lineages, after.lineages, pressed, more, p);
    pressed := pressed + more;
    full := !fits;
  }

  // ------------------------------------------------------------------ what the measures mean

  /** A lineage's recency: no session is newer, and it is some session's moment unless none is after zero. */
  lemma {:induction false} RecencyExactly(entries: seq<Entry>)
    ensures Newest(entries) >= 0
    ensures forall k :: 0 <= k < |entries| ==> entries[k].stamp <= Newest(entries)
    ensures Newest(entries) > 0 ==> exists k :: 0 <= k < |entries| && entries[k].stamp == Newest(entries)
  {
    if entries != [] {
      var init := entries[..|entries| - 1];
      RecencyExactly(init);
      if Newest(entries) > 0 && Newest(entries) != entries[|entries| - 1].stamp {
        var k :| 0 <= k < |init| && init[k].stamp == Newest(init);
        assert entries[k].stamp == Newest(entries);
      }
    }
  }

  /** Every session is longer ago than the age allowed, and some session's moment is known. */
  ghost predicate AllLongAgo(l: Lineage, now: int, maxAge: int) {
    && (forall k :: 0 <= k < |l.entries| ==> now - l.entries[k].stamp > maxAge)
    && (exists k :: 0 <= k < |l.entries| && l.entries[k].stamp > 0)
  }

  lemma ExpiredExactly(l: Lineage, now: int, maxAge: int)
    ensures Expired(l, now, maxAge) <==> AllLongAgo(l, now, maxAge)
  {
    RecencyExactly(l.entries);
  }

  ghost predicate AllClosed(l: Lineage) {
    forall k :: 0 <= k < |l.entries| ==> !l.entries[k].open
  }

  /** What retention promises, read off the sessions: who can go, who cannot be left, and that nothing else changes. */
  lemma RetainedMeans(was: Store, st: Store, aged: seq<Lineage>, pressed: seq<Lineage>, p: Policy, excluded: Option<nat>, now: int)
    requires Retained(was, st, aged, pressed, p, excluded, now)
    ensures forall l :: l in aged ==> AllClosed(l) && excluded != Some(l.root) && AllLongAgo(l, now, p.maxAge)
    ensures forall l :: l in pressed ==> AllClosed(l) && excluded != Some(l.root)
    ensures forall l :: l in st.lineages && AllClosed(l) && excluded != Some(l.root) ==> !AllLongAgo(l, now, p.maxAge)
    ensures multiset(was.lineages) == multiset(st.lineages) + multiset(aged) + multiset(pressed)
  {
    forall l ensures Expired(l, now, p.maxAge) <==> AllLongAgo(l, now, p.maxAge) { ExpiredExactly(l, now, p.maxAge); }
    assert multiset(aged + pressed) == multiset(aged) + multiset(pressed);
  }

  function AllIds(ls: seq<Lineage>): set<nat> {
    if ls == [] then {} else AllIds(ls[..|ls| - 1]) + Ids(ls[|ls| - 1].entries)
  }

  lemma {:induction false} AllIdsAre(ls: seq<Lineage>, id: nat)
    ensures id in AllIds(ls) <==> exists p :: 0 <= p < |ls| && Has(ls[p], id)
  {
    if ls != [] {
      var init, last := ls[..|ls| - 1], ls[|ls| - 1];
      AllIdsAre(init, id);
      IdsAre(last.entries, id);
      if p :| 0 <= p < |init| && Has(init[p], id) { assert Has(ls[p], id); }
      if p :| 0 <= p < |ls| && Has(ls[p], id) && p < |init| { assert Has(init[p], id); }
    }
  }

  lemma {:induction false} IdsCount(es: seq<Entry>)
    requires LineageStore.DistinctIds(es)
    ensures |Ids(es)| == |es|
  {
    if es != [] {
      var init, last := es[..|es| - 1], es[|es| - 1];
      IdsCount(init);
      assert Ids(es) == Ids(init) + {last.id};
    }
  }

  /** Each indexed session is in the one lineage the index names. */
  ghost predicate Placed(ls: seq<Lineage>, index: map<nat, nat>) {
    forall p, id :: 0 <= p < |ls| && Has(ls[p], id) ==> id in index && index[id] == ls[p].root
  }

  lemma {:induction false} CountIsIds(ls: seq<Lineage>, index: map<nat, nat>)
    requires DistinctRoots(ls) && IdsDistinct(ls) && Placed(ls, index)
    ensures RecordCount(ls) == |AllIds(ls)|
  {
    if ls != [] {
      var init, last := ls[..|ls| - 1], ls[|ls| - 1];
      PlacedBefore(ls, index);
      CountIsIds(init, index);
      IdsCount(last.entries);
      forall id | id in AllIds(init) ensures id !in Ids(last.entries) { LastIsApart(ls, index, id); }
      DisjointCount(AllIds(init), Ids(last.entries));
    }
  }

  lemma PlacedBefore(ls: seq<Lineage>, index: map<nat, nat>)
    requires ls != [] && DistinctRoots(ls) && IdsDistinct(ls) && Placed(ls, index)
    ensures var init := ls[..|ls| - 1]; DistinctRoots(init) && IdsDistinct(init) && Placed(init, index)
  {
    var init := ls[..|ls| - 1];
    forall p, id | 0 <= p < |init| && Has(init[p], id) ensures id in index && index[id] == init[p].root {
      assert Has(ls[p], id);
    }
  }

  lemma LastIsApart(ls: seq<Lineage>, index: map<nat, nat>, id: nat)
    requires ls != [] && DistinctRoots(ls) && Placed(ls, index) && id in AllIds(ls[..|ls| - 1])
    ensures id !in Ids(ls[|ls| - 1].entries)
  {
    var init := ls[..|ls| - 1];
    AllIdsAre(init, id);
    IdsAre(ls[|ls| - 1].entries, id);
    var p :| 0 <= p < |init| && Has(init[p], id);
    OneHasIt(ls, index, p, |ls| - 1, id);
  }

  lemma OneHasIt(ls: seq<Lineage>, index: map<nat, nat>, p: nat, q: nat, id: nat)
    requires DistinctRoots(ls) && p < q < |ls| && Has(ls[p], id)
    requires Placed(ls, index)
    ensures !Has(ls[q], id)
  {
    var root := ls[p].root;
    assert index[id] == root && ls[q].root != root;
  }

  lemma DisjointCount(a: set<nat>, b: set<nat>)
    requires a !! b
    ensures |a + b| == |a| + |b|
  {
  }

  /** The quota's record count is the number of sessions the index names, and its bytes are those of the files on disk. */
  lemma QuotaCountsSessions(st: Store)
    requires Exact(st)
    ensures RecordCount(st.lineages) == |st.index|
    ensures TotalBytes(st.lineages) == DiskBytes(st.disk)
  {
    CountIsIds(st.lineages, st.index);
    IdsAreIndexed(st.lineages, st.index);
    BytesOnDisk(st.disk);
  }

  lemma IdsAreIndexed(ls: seq<Lineage>, index: map<nat, nat>)
    requires IndexAgrees(ls, index)
    ensures AllIds(ls) == index.Keys && |AllIds(ls)| == |index|
  {
    forall id ensures id in AllIds(ls) <==> id in index { IdIsIndexed(ls, index, id); }
    assert AllIds(ls) == index.Keys;
    assert |index| == |index.Keys|;
  }

  lemma IdIsIndexed(ls: seq<Lineage>, index: map<nat, nat>, id: nat)
    requires IndexAgrees(ls, index)
    ensures id in AllIds(ls) <==> id in index
  {
    AllIdsAre(ls, id);
    if id in index {
      var p :| 0 <= p < |ls| && ls[p].root == index[id] && Has(ls[p], id);
    } else if id in AllIds(ls) {
      var p :| 0 <= p < |ls| && Has(ls[p], id);
    }
  }

  /** Every file of every session on disk. */
  function DiskBytes(disk: seq<Directory>): nat {
    if disk == [] then 0 else DiskBytes(disk[..|disk| - 1]) + Measure(disk[|disk| - 1].files)
  }

  lemma {:induction false} BytesOnDisk(disk: seq<Directory>)
    ensures TotalBytes(Fresh(disk)) == DiskBytes(disk)
  {
    if disk != [] {
      BytesOnDisk(disk[..|disk| - 1]);
      assert Fresh(disk)[..|disk| - 1] == Fresh(disk[..|disk| - 1]);
    }
  }

  // ------------------------------------------------------------------ the store object

  lemma {:induction false} CountReplaced(ls: seq<Lineage>, p: nat, l: Lineage)
    requires p < |ls|
    ensures RecordCount(ls[p := l]) + |ls[p].entries| == RecordCount(ls) + |l.entries|
  {
    var init := ls[..|ls| - 1];
    if p == |init| {
      assert ls[p := l][..|init|] == init;
    } else {
      CountReplaced(init, p, l);
      assert ls[p := l][..|init|] == init[p := l];
    }
  }

  lemma CountAdded(st: Store, id: nat, root: nat, size: nat, stamp: int)
    requires Aligned(st)
    ensures RecordCount(AddedSession(st, id, root, size, stamp).lineages) == RecordCount(st.lineages) + 1
  {
    var p, e := RootAt(st.lineages, root), Entry(id, true, stamp, 0);
    if p == |st.lineages| {
      var l := Lineage(root, [e], size);
      assert (st.lineages + [l])[..|st.lineages|] == st.lineages;
    } else {
      var l := st.lineages[p];
      CountReplaced(st.lineages, p, Lineage(l.root, l.entries + [e], l.bytes + size));
    }
  }

  /** An active or excluded lineage comes through retention untouched. */
  lemma ProtectedSurvives(was: Store, st: Store, aged: seq<Lineage>, pressed: seq<Lineage>, p: Policy, excluded: Option<nat>, now: int, l: Lineage)
    requires Retained(was, st, aged, pressed, p, excluded, now)
    requires l in was.lineages && (Active(l) || Some(l.root) == excluded)
    ensures l in st.lineages
  {
    assert l in multiset(was.lineages);
    assert multiset(aged + pressed) == multiset(aged) + multiset(pressed);
    assert l in multiset(aged) ==> l in aged;
    assert l in multiset(pressed) ==> l in pressed;
  }

  /** Nothing new appears in the index when lineages go. */
  lemma StillFresh(was: Store, st: Store, gone: seq<Lineage>, id: nat)
    requires Exact(was) && Exact(st) && multiset(st.lineages) + multiset(gone) == multiset(was.lineages) && id !in was.index
    ensures id !in st.index
  {
    forall p | 0 <= p < |st.lineages| ensures !Has(st.lineages[p], id) {
      NotIndexed(was.lineages, was.index, st.lineages[p], id);
    }
  }

  lemma NotIndexed(ls: seq<Lineage>, index: map<nat, nat>, l: Lineage, id: nat)
    requires IndexAgrees(ls, index) && l in multiset(ls) && id !in index
    ensures !Has(l, id)
  {
    var q :| 0 <= q < |ls| && ls[q] == l;
    assert Has(ls[q], id) ==> id in index;
  }

  class SessionLineageStore {
    var lineages: seq<Lineage>
    var index: map<nat, nat>
    var disk: seq<Directory>
    const policy: Policy

    function Current(): Store
      reads this
    {
      Store(lineages, index, disk)
    }

    ghost predicate Valid()
      reads this
    {
      Exact(Current())
    }

    constructor (policy: Policy)
      ensures Valid() && Current() == Store([], map[], []) && this.policy == policy
    {
      lineages, index, disk, this.policy := [], map[], [], policy;
      new;
      EmptyIsExact();
    }

    /** `create`: a new session joins its parent's lineage or starts one, unless storage is full. */
    method Create(id: nat, root: nat, size: nat, stamp: int, now: int) returns (full: bool)
      requires Valid() && id !in index
      modifies this
      ensures Valid()
      ensures full ==> id !in index && (RecordCount(lineages) + 1 > policy.maxRecords || TotalBytes(lineages) >= policy.maxBytes)
      ensures full ==> NoneEligible(lineages, Filter(Some(root), false, now, policy.maxAge))
      ensures full ==> exists aged, pressed :: Retained(old(Current()), Current(), aged, pressed, policy, Some(root), now)
      ensures !full ==> RecordCount(lineages) <= policy.maxRecords
      ensures !full ==> exists st, aged, pressed :: Retained(old(Current()), st, aged, pressed, policy, Some(root), now)
                                                    && Current() == AddedSession(st, id, root, size, stamp)
    {
      var st, aged, pressed;
      ghost var was := Current();
      st, aged, pressed, full := MakeRoomForOneMore(Current(), policy, root, now);
      StillFresh(was, st, aged + pressed, id);
      lineages, index, disk := st.lineages, st.index, st.disk;
      assert Current() == st;
      if !full {
        AddKeepsExact(st, id, root, size, stamp);
        CountAdded(st, id, root, size, stamp);
        var added := AddedSession(st, id, root, size, stamp);
        lineages, index, disk := added.lineages, added.index, added.disk;
      }
    }

    /** `#writeRecord`: every metadata change goes through here. */
    method WriteRecord(id: nat, size: nat, open: bool, stamp: int)
      requires Valid()
      modifies this
      ensures Valid() && old(Aligned(Current())) && Current() == WroteRecord(old(Current()), id, size, open, stamp)
    {
      WriteKeepsExact(Current(), id, size, open, stamp);
      var st := WroteRecord(Current(), id, size, open, stamp);
      lineages, index, disk := st.lineages, st.index, st.disk;
    }

    /** `#appendLine` */
    method AppendLine(id: nat, size: nat)
      requires Valid()
      modifies this
      ensures Valid() && old(Aligned(Current())) && Current() == AppendedLine(old(Current()), id, size)
    {
      AppendKeepsExact(Current(), id, size);
      var st := AppendedLine(Current(), id, size);
      lineages, index, disk := st.lineages, st.index, st.disk;
    }

    /** The retention pass at the end of startup. */
    method Enforce(now: int)
      requires Valid()
      modifies this
      ensures Valid()
      ensures (RecordCount(lineages) <= policy.maxRecords && TotalBytes(lineages) <= policy.maxBytes)
              || NoneEligible(lineages, Filter(None, false, now, policy.maxAge))
      ensures exists aged, pressed :: Retained(old(Current()), Current(), aged, pressed, policy, None, now)
    {
      var st, aged, pressed := EnforceRetention(Current(), policy, None, now);
      lineages, index, disk := st.lineages, st.index, st.disk;
      assert Current() == st;
    }
  }
}
