/**
 The lineage store's running totals. Memory keeps, per lineage, byte and line counts
 that every write adjusts, and an index of sessions; the disk is what a fresh load would measure.

 Directories and files are listed in the order they were made; nothing below depends on that order.
 */
module LineageStore {
  import opened Basics

  /** One session's files: the record's size and what retention reads in it, and the size of each log line. */
  datatype Files = Files(id: nat, size: nat, open: bool, stamp: int, log: seq<nat>)
  datatype Directory = Directory(root: nat, files: seq<Files>)

  datatype Entry = Entry(id: nat, open: bool, stamp: int, lines: nat)
  datatype Lineage = Lineage(root: nat, entries: seq<Entry>, bytes: nat)

  datatype Store = Store(lineages: seq<Lineage>, index: map<nat, nat>, disk: seq<Directory>)

  // ------------------------------------------------------------------ a fresh measurement

  function Sum(sizes: seq<nat>): nat {
    if sizes == [] then 0 else Sum(sizes[..|sizes| - 1]) + sizes[|sizes| - 1]
  }

  function SizeOf(f: Files): nat {
    f.size + Sum(f.log)
  }

  /** `#measureLineage` */
  function Measure(files: seq<Files>): nat {
    if files == [] then 0 else Measure(files[..|files| - 1]) + SizeOf(files[|files| - 1])
  }

  function EntryOf(f: Files): Entry {
    Entry(f.id, f.open, f.stamp, |f.log|)
  }

  function Entries(files: seq<Files>): seq<Entry> {
    seq(|files|, i requires 0 <= i < |files| => EntryOf(files[i]))
  }

  function FreshOf(d: Directory): Lineage {
    Lineage(d.root, Entries(d.files), Measure(d.files))
  }

  function Fresh(disk: seq<Directory>): seq<Lineage> {
    seq(|disk|, i requires 0 <= i < |disk| => FreshOf(disk[i]))
  }

  ghost predicate DistinctRoots(ls: seq<Lineage>) {
    forall i, j :: 0 <= i < j < |ls| ==> ls[i].root != ls[j].root
  }

  ghost predicate HasId(es: seq<Entry>, id: nat) {
    exists k :: 0 <= k < |es| && es[k].id == id
  }

  ghost predicate Has(l: Lineage, id: nat) {
    HasId(l.entries, id)
  }

  ghost predicate DistinctIds(entries: seq<Entry>) {
    forall i, j :: 0 <= i < j < |entries| ==> entries[i].id != entries[j].id
  }

  ghost predicate IdsDistinct(ls: seq<Lineage>) {
    forall p :: 0 <= p < |ls| ==> DistinctIds(ls[p].entries)
  }

  /** The index names exactly the sessions there are, each with its own lineage. */
  ghost predicate IndexAgrees(ls: seq<Lineage>, index: map<nat, nat>) {
    && (forall p, id :: 0 <= p < |ls| && Has(ls[p], id) ==> id in index && index[id] == ls[p].root)
    && (forall id :: id in index ==> exists p :: 0 <= p < |ls| && ls[p].root == index[id] && Has(ls[p], id))
  }

  ghost predicate Exact(st: Store) {
    && st.lineages == Fresh(st.disk)
    && DistinctRoots(st.lineages)
    && IdsDistinct(st.lineages)
    && IndexAgrees(st.lineages, st.index)
  }

  // ------------------------------------------------------------------ finding a session

  function RootAt(ls: seq<Lineage>, root: nat): (p: nat)
    ensures p <= |ls| && (p < |ls| ==> ls[p].root == root)
    ensures p == |ls| ==> forall q :: 0 <= q < |ls| ==> ls[q].root != root
  {
    if ls == [] then 0 else if ls[0].root == root then 0 else
      assert forall q :: 0 < q < |ls| ==> ls[q] == ls[1..][q - 1];
      1 + RootAt(ls[1..], root)
  }

  function EntryAt(es: seq<Entry>, id: nat): (k: nat)
    ensures k <= |es| && (k < |es| ==> es[k].id == id)
    ensures k == |es| ==> forall q :: 0 <= q < |es| ==> es[q].id != id
  {
    if es == [] then 0 else if es[0].id == id then 0 else
      assert forall q :: 0 < q < |es| ==> es[q] == es[1..][q - 1];
      1 + EntryAt(es[1..], id)
  }

  datatype Place = Nowhere | At(p: nat, k: nat)

  /** `#locate` */
  function Locate(ls: seq<Lineage>, index: map<nat, nat>, id: nat): (w: Place)
    ensures w.At? ==> w.p < |ls| && w.k < |ls[w.p].entries| && ls[w.p].entries[w.k].id == id
  {
    if id !in index then Nowhere else
      var p := RootAt(ls, index[id]);
      if p == |ls| then Nowhere else
        var k := EntryAt(ls[p].entries, id);
        if k == |ls[p].entries| then Nowhere else At(p, k)
  }

  lemma LocateFinds(st: Store, id: nat)
    requires Exact(st)
    ensures Locate(st.lineages, st.index, id).At? <==> id in st.index
  {
    if id in st.index {
      var p :| 0 <= p < |st.lineages| && st.lineages[p].root == st.index[id] && Has(st.lineages[p], id);
      var q := RootAt(st.lineages, st.index[id]);
      assert p == q;
    }
  }

  // ------------------------------------------------------------------ writes

  /** Memory and disk each take the new entry; the byte count is adjusted, not measured. */
  function Replaced(st: Store, p: nat, k: nat, e: Entry, f: Files, bytes: nat): Store
    requires p < |st.lineages| == |st.disk| && k < |st.lineages[p].entries| && k < |st.disk[p].files|
  {
    var l, d := st.lineages[p], st.disk[p];
    Store(
      st.lineages[p := Lineage(l.root, l.entries[k := e], bytes)],
      st.index,
      st.disk[p := Directory(d.root, d.files[k := f])])
  }

  predicate Aligned(st: Store) {
    && |st.lineages| == |st.disk|
    && (forall p :: 0 <= p < |st.disk| ==> |st.lineages[p].entries| == |st.disk[p].files|)
  }

  /** `#writeRecord`: the byte count moves by the difference in file size. */
  function WroteRecord(st: Store, id: nat, size: nat, open: bool, stamp: int): Store
    requires Aligned(st)
  {
    var w := Locate(st.lineages, st.index, id);
    if w.Nowhere? then st else
      var e, f := st.lineages[w.p].entries[w.k], st.disk[w.p].files[w.k];
      Replaced(st, w.p, w.k, e.(open := open, stamp := stamp), f.(size := size, open := open, stamp := stamp),
               Max(0, st.lineages[w.p].bytes + size - f.size))
  }

  /** `#appendLine`: one more line, its bytes and its newline. */
  function AppendedLine(st: Store, id: nat, size: nat): Store
    requires Aligned(st)
  {
    var w := Locate(st.lineages, st.index, id);
    if w.Nowhere? then st else
      var e, f := st.lineages[w.p].entries[w.k], st.disk[w.p].files[w.k];
      Replaced(st, w.p, w.k, e.(lines := e.lines + 1), f.(log := f.log + [size + 1]), st.lineages[w.p].bytes + size + 1)
  }

  /** `create`, once there is room: a new session in its parent's lineage or in one of its own. */
  function AddedSession(st: Store, id: nat, root: nat, size: nat, stamp: int): Store
    requires Aligned(st)
  {
    var e, f := Entry(id, true, stamp, 0), Files(id, size, true, stamp, []);
    var p := RootAt(st.lineages, root);
    if p == |st.lineages| then
      Store(st.lineages + [Lineage(root, [e], size)], st.index[id := root], st.disk + [Directory(root, [f])])
    else
      var l, d := st.lineages[p], st.disk[p];
      Store(st.lineages[p := Lineage(l.root, l.entries + [e], l.bytes + size)], st.index[id := root],
            st.disk[p := Directory(d.root, d.files + [f])])
  }

  function Without<A>(s: seq<A>, p: nat): seq<A>
    requires p < |s|
  {
    s[..p] + s[p + 1..]
  }

  function Ids(entries: seq<Entry>): set<nat> {
    set k | 0 <= k < |entries| :: entries[k].id
  }

  /** `#evictLineage`, seen from memory and from the lineages on disk. */
  function Evicted(st: Store, p: nat): Store
    requires Aligned(st) && p < |st.lineages|
  {
    Store(Without(st.lineages, p), st.index - Ids(st.lineages[p].entries), Without(st.disk, p))
  }

  // ------------------------------------------------------------------ writes keep the totals exact

  lemma SumOneMore(sizes: seq<nat>, n: nat)
    ensures Sum(sizes + [n]) == Sum(sizes) + n
  {
    assert (sizes + [n])[..|sizes|] == sizes;
  }

  lemma MeasureOneMore(files: seq<Files>, f: Files)
    ensures Measure(files + [f]) == Measure(files) + SizeOf(f)
  {
    assert (files + [f])[..|files|] == files;
  }

  lemma {:induction false} MeasureReplaced(files: seq<Files>, k: nat, f: Files)
    requires k < |files|
    ensures Measure(files[k := f]) + SizeOf(files[k]) == Measure(files) + SizeOf(f)
  {
    var init := files[..|files| - 1];
    if k == |init| {
      assert files[k := f][..|init|] == init;
    } else {
      MeasureReplaced(init, k, f);
      assert files[k := f][..|init|] == init[k := f];
    }
  }

  lemma EntriesReplaced(files: seq<Files>, k: nat, f: Files)
    requires k < |files|
    ensures Entries(files[k := f]) == Entries(files)[k := EntryOf(f)]
  {
  }

  lemma FreshReplaced(disk: seq<Directory>, p: nat, d: Directory)
    requires p < |disk|
    ensures Fresh(disk[p := d]) == Fresh(disk)[p := FreshOf(d)]
  {
  }

  /** An entry that keeps its id leaves the index right. */
  lemma ReplacedKeepsIndex(ls: seq<Lineage>, index: map<nat, nat>, p: nat, k: nat, e: Entry, bytes: nat)
    requires IndexAgrees(ls, index) && p < |ls| && k < |ls[p].entries| && e.id == ls[p].entries[k].id
    ensures IndexAgrees(ls[p := Lineage(ls[p].root, ls[p].entries[k := e], bytes)], index)
  {
    var l := Lineage(ls[p].root, ls[p].entries[k := e], bytes);
    var after := ls[p := l];
    forall id ensures Has(l, id) <==> Has(ls[p], id) { SameIds(ls[p].entries, k, e, id); }
    forall q, id | 0 <= q < |after| && Has(after[q], id) ensures id in index && index[id] == after[q].root {
      assert Has(ls[q], id);
    }
    forall id | id in index ensures exists q :: 0 <= q < |after| && after[q].root == index[id] && Has(after[q], id) {
      var q :| 0 <= q < |ls| && ls[q].root == index[id] && Has(ls[q], id);
      assert Has(after[q], id);
    }
  }

  lemma SameIds(es: seq<Entry>, k: nat, e: Entry, id: nat)
    requires k < |es| && es[k].id == e.id
    ensures HasId(es[k := e], id) <==> HasId(es, id)
  {
    var after := es[k := e];
    if q :| 0 <= q < |es| && es[q].id == id { assert after[q].id == id; }
    if q :| 0 <= q < |after| && after[q].id == id { assert es[q].id == id; }
  }

  lemma ReplacedExact(st: Store, p: nat, k: nat, f: Files, bytes: nat)
    requires Exact(st) && p < |st.disk| && k < |st.disk[p].files| && f.id == st.disk[p].files[k].id
    requires bytes + SizeOf(st.disk[p].files[k]) == Measure(st.disk[p].files) + SizeOf(f)
    ensures Aligned(st) && Exact(Replaced(st, p, k, EntryOf(f), f, bytes))
  {
    var d, l := st.disk[p], st.lineages[p];
    var files := d.files[k := f];
    MeasureReplaced(d.files, k, f);
    EntriesReplaced(d.files, k, f);
    FreshReplaced(st.disk, p, Directory(d.root, files));
    ReplacedKeepsIndex(st.lineages, st.index, p, k, EntryOf(f), bytes);
    assert DistinctIds(l.entries);
    assert DistinctIds(l.entries[k := EntryOf(f)]);
  }

  lemma WriteKeepsExact(st: Store, id: nat, size: nat, open: bool, stamp: int)
    requires Exact(st)
    ensures Aligned(st) && Exact(WroteRecord(st, id, size, open, stamp))
  {
    var w := Locate(st.lineages, st.index, id);
    if w.At? {
      var f := st.disk[w.p].files[w.k];
      var g, bytes := f.(size := size, open := open, stamp := stamp), st.lineages[w.p].bytes;
      MeasureReplaced(st.disk[w.p].files, w.k, f.(size := 0, log := []));
      FreshAt(st, w.p, w.k);
      assert WroteRecord(st, id, size, open, stamp) == Replaced(st, w.p, w.k, EntryOf(g), g, bytes + size - f.size);
      ReplacedExact(st, w.p, w.k, g, bytes + size - f.size);
    }
  }

  lemma GrownLog(f: Files, g: Files, size: nat)
    requires g == f.(log := f.log + [size + 1])
    ensures SizeOf(g) == SizeOf(f) + size + 1 && EntryOf(g) == EntryOf(f).(lines := |f.log| + 1)
  {
    SumOneMore(f.log, size + 1);
  }

  lemma FreshAt(st: Store, p: nat, k: nat)
    requires Exact(st) && p < |st.disk| && k < |st.disk[p].files|
    ensures Aligned(st) && st.lineages[p].bytes == Measure(st.disk[p].files)
    ensures st.lineages[p].entries[k] == EntryOf(st.disk[p].files[k])
  {
  }

  lemma AppendKeepsExact(st: Store, id: nat, size: nat)
    requires Exact(st)
    ensures Aligned(st) && Exact(AppendedLine(st, id, size))
  {
    ExactIsAligned(st);
    var w := Locate(st.lineages, st.index, id);
    if w.At? { AppendAtExact(st, id, size, w.p, w.k, st.disk[w.p].files[w.k]); }
  }

  lemma AppendAtExact(st: Store, id: nat, size: nat, p: nat, k: nat, f: Files)
    requires Exact(st) && Aligned(st) && Locate(st.lineages, st.index, id) == At(p, k) && f == st.disk[p].files[k]
    ensures Exact(AppendedLine(st, id, size))
  {
    var g := f.(log := f.log + [size + 1]);
    GrownExact(st, p, k, g, size);
    AppendedIsReplaced(st, id, size, p, k, g);
  }

  lemma ExactIsAligned(st: Store)
    requires Exact(st)
    ensures Aligned(st)
  {
  }

  lemma GrownExact(st: Store, p: nat, k: nat, g: Files, size: nat)
    requires Exact(st) && Aligned(st) && p < |st.disk| && k < |st.disk[p].files|
    requires g == st.disk[p].files[k].(log := st.disk[p].files[k].log + [size + 1])
    ensures Exact(Replaced(st, p, k, EntryOf(g), g, st.lineages[p].bytes + size + 1))
    ensures EntryOf(g) == st.lineages[p].entries[k].(lines := st.lineages[p].entries[k].lines + 1)
  {
    GrownFresh(st, p, k, g, size);
    ReplacedExact(st, p, k, g, st.lineages[p].bytes + size + 1);
  }

  lemma GrownFresh(st: Store, p: nat, k: nat, g: Files, size: nat)
    requires Exact(st) && p < |st.disk| && k < |st.disk[p].files|
    requires g == st.disk[p].files[k].(log := st.disk[p].files[k].log + [size + 1])
    ensures Aligned(st) && st.lineages[p].bytes == Measure(st.disk[p].files)
    ensures EntryOf(g) == st.lineages[p].entries[k].(lines := st.lineages[p].entries[k].lines + 1)
    ensures SizeOf(g) == SizeOf(st.disk[p].files[k]) + size + 1
  {
    GrownLog(st.disk[p].files[k], g, size);
    FreshAt(st, p, k);
  }

  lemma AppendedIsReplaced(st: Store, id: nat, size: nat, p: nat, k: nat, g: Files)
    requires Aligned(st) && Locate(st.lineages, st.index, id) == At(p, k)
    requires g == st.disk[p].files[k].(log := st.disk[p].files[k].log + [size + 1])
    requires EntryOf(g) == st.lineages[p].entries[k].(lines := st.lineages[p].entries[k].lines + 1)
    ensures AppendedLine(st, id, size) == Replaced(st, p, k, EntryOf(g), g, st.lineages[p].bytes + size + 1)
  {
  }

  lemma FreshOneMore(disk: seq<Directory>, d: Directory)
    ensures Fresh(disk + [d]) == Fresh(disk) + [FreshOf(d)]
  {
  }

  lemma EntriesOneMore(files: seq<Files>, f: Files)
    ensures Entries(files + [f]) == Entries(files) + [EntryOf(f)]
  {
  }

  lemma HasOneMore(es: seq<Entry>, e: Entry, id: nat)
    ensures HasId(es + [e], id) <==> HasId(es, id) || id == e.id
  {
    var after := es + [e];
    assert after[|es|] == e;
    if k :| 0 <= k < |es| && es[k].id == id { assert after[k] == es[k]; }
  }

  lemma NewLineageIndexed(ls: seq<Lineage>, index: map<nat, nat>, l: Lineage, e: Entry)
    requires IndexAgrees(ls, index) && e.id !in index && l.entries == [e]
    ensures IndexAgrees(ls + [l], index[e.id := l.root])
  {
    var after := ls + [l];
    assert after[|ls|] == l;
    forall id ensures Has(l, id) <==> id == e.id { HasOneMore([], e, id); assert [] + [e] == [e]; }
    forall id | id in index ensures exists p :: 0 <= p < |after| && after[p].root == index[id] && Has(after[p], id) {
      var p :| 0 <= p < |ls| && ls[p].root == index[id] && Has(ls[p], id);
      assert after[p] == ls[p];
    }
  }

  lemma GrownLineageIndexed(ls: seq<Lineage>, index: map<nat, nat>, p: nat, l: Lineage, e: Entry)
    requires IndexAgrees(ls, index) && e.id !in index && p < |ls| && l.root == ls[p].root && l.entries == ls[p].entries + [e]
    ensures IndexAgrees(ls[p := l], index[e.id := l.root])
  {
    var after := ls[p := l];
    forall id ensures Has(l, id) <==> Has(ls[p], id) || id == e.id { HasOneMore(ls[p].entries, e, id); }
    forall q, id | 0 <= q < |after| && Has(after[q], id)
      ensures id in index[e.id := l.root] && index[e.id := l.root][id] == after[q].root
    {
      if id != e.id { assert Has(ls[q], id); }
    }
    forall id | id in index ensures exists q :: 0 <= q < |after| && after[q].root == index[id] && Has(after[q], id) {
      var q :| 0 <= q < |ls| && ls[q].root == index[id] && Has(ls[q], id);
      assert Has(after[q], id);
    }
    assert Has(after[p], e.id);
  }

  lemma NewLineageExact(st: Store, id: nat, root: nat, size: nat, stamp: int)
    requires Exact(st) && id !in st.index && RootAt(st.lineages, root) == |st.lineages|
    ensures Aligned(st) && Exact(AddedSession(st, id, root, size, stamp))
  {
    var f, e := Files(id, size, true, stamp, []), Entry(id, true, stamp, 0);
    var d, l := Directory(root, [f]), Lineage(root, [e], size);
    FreshOfOne(f, root);
    FreshOneMore(st.disk, d);
    NewLineageIndexed(st.lineages, st.index, l, e);
    NewLineageDistinct(st.lineages, l);
    assert AddedSession(st, id, root, size, stamp) == Store(st.lineages + [l], st.index[id := root], st.disk + [d]);
  }

  lemma FreshOfOne(f: Files, root: nat)
    requires f.log == []
    ensures FreshOf(Directory(root, [f])) == Lineage(root, [EntryOf(f)], f.size)
  {
    MeasureOneMore([], f);
    assert [] + [f] == [f];
    assert Entries([f]) == [EntryOf(f)];
  }

  lemma NewLineageDistinct(ls: seq<Lineage>, l: Lineage)
    requires DistinctRoots(ls) && RootAt(ls, l.root) == |ls| && |l.entries| == 1
    requires IdsDistinct(ls)
    ensures DistinctRoots(ls + [l]) && IdsDistinct(ls + [l])
  {
  }

  lemma GrownLineageExact(st: Store, id: nat, root: nat, size: nat, stamp: int)
    requires Exact(st) && id !in st.index && RootAt(st.lineages, root) < |st.lineages|
    ensures Aligned(st) && Exact(AddedSession(st, id, root, size, stamp))
  {
    var p := RootAt(st.lineages, root);
    var f, e, prior := Files(id, size, true, stamp, []), Entry(id, true, stamp, 0), st.lineages[p];
    var dir := st.disk[p];
    var d, l := Directory(dir.root, dir.files + [f]), Lineage(prior.root, prior.entries + [e], prior.bytes + size);
    FreshIndex(st.disk, p);
    FreshOfGrown(dir.files, f, dir.root);
    GrownStoreExact(st, p, d, l, e);
    AddedToLineage(st, id, root, size, stamp, p, d, l);
  }

  lemma AddedToLineage(st: Store, id: nat, root: nat, size: nat, stamp: int, p: nat, d: Directory, l: Lineage)
    requires Aligned(st) && p == RootAt(st.lineages, root) < |st.lineages|
    requires d == Directory(st.disk[p].root, st.disk[p].files + [Files(id, size, true, stamp, [])])
    requires l == Lineage(st.lineages[p].root, st.lineages[p].entries + [Entry(id, true, stamp, 0)], st.lineages[p].bytes + size)
    ensures AddedSession(st, id, root, size, stamp) == Store(st.lineages[p := l], st.index[id := l.root], st.disk[p := d])
  {
  }

  lemma GrownStoreExact(st: Store, p: nat, d: Directory, l: Lineage, e: Entry)
    requires Exact(st) && e.id !in st.index && p < |st.lineages| && p < |st.disk|
    requires l == FreshOf(d) && l.root == st.lineages[p].root && l.entries == st.lineages[p].entries + [e]
    ensures Exact(Store(st.lineages[p := l], st.index[e.id := l.root], st.disk[p := d]))
  {
    FreshReplaced(st.disk, p, d);
    GrownLineageIndexed(st.lineages, st.index, p, l, e);
    GrownIdsDistinct(st.lineages[p].entries, e, st, p);
    GrownDistinct(st.lineages, p, l);
  }

  lemma FreshIndex(disk: seq<Directory>, p: nat)
    requires p < |disk|
    ensures Fresh(disk)[p] == FreshOf(disk[p]) && |Fresh(disk)| == |disk|
  {
  }

  lemma FreshOfGrown(files: seq<Files>, f: Files, root: nat)
    requires f.log == []
    ensures FreshOf(Directory(root, files + [f])) == Lineage(root, Entries(files) + [EntryOf(f)], Measure(files) + f.size)
  {
    MeasureOneMore(files, f);
    EntriesOneMore(files, f);
  }

  lemma GrownDistinct(ls: seq<Lineage>, p: nat, l: Lineage)
    requires DistinctRoots(ls) && p < |ls| && l.root == ls[p].root && DistinctIds(l.entries)
    requires IdsDistinct(ls)
    ensures DistinctRoots(ls[p := l]) && IdsDistinct(ls[p := l])
  {
  }

  lemma GrownIdsDistinct(es: seq<Entry>, e: Entry, st: Store, p: nat)
    requires Exact(st) && p < |st.lineages| && es == st.lineages[p].entries && e.id !in st.index
    ensures DistinctIds(es + [e])
  {
    forall k | 0 <= k < |es| ensures es[k].id != e.id { assert Has(st.lineages[p], es[k].id); }
  }

  lemma AddKeepsExact(st: Store, id: nat, root: nat, size: nat, stamp: int)
    requires Exact(st) && id !in st.index
    ensures Aligned(st) && Exact(AddedSession(st, id, root, size, stamp))
  {
    if RootAt(st.lineages, root) == |st.lineages| {
      NewLineageExact(st, id, root, size, stamp);
    } else {
      GrownLineageExact(st, id, root, size, stamp);
    }
  }

  // ------------------------------------------------------------------ eviction keeps the totals exact

  lemma WithoutAt<A>(s: seq<A>, p: nat, i: nat)
    requires p < |s| && i < |s| - 1
    ensures Without(s, p)[i] == if i < p then s[i] else s[i + 1]
  {
  }

  lemma FreshWithout(disk: seq<Directory>, p: nat)
    requires p < |disk|
    ensures Fresh(Without(disk, p)) == Without(Fresh(disk), p)
  {
  }

  lemma IdsAre(es: seq<Entry>, id: nat)
    ensures id in Ids(es) <==> HasId(es, id)
  {
  }

  lemma SurvivorIndexed(ls: seq<Lineage>, index: map<nat, nat>, p: nat, r: nat, id: nat)
    requires IndexAgrees(ls, index) && DistinctRoots(ls) && p < |ls| && r < |ls| && r != p && Has(ls[r], id)
    ensures id in index && id !in Ids(ls[p].entries) && index[id] == ls[r].root
  {
    IdsAre(ls[p].entries, id);
  }

  lemma IndexedSurvives(ls: seq<Lineage>, index: map<nat, nat>, p: nat, id: nat) returns (q: nat)
    requires IndexAgrees(ls, index) && p < |ls| && id in index && id !in Ids(ls[p].entries)
    ensures q < |Without(ls, p)| && Without(ls, p)[q].root == index[id] && Has(Without(ls, p)[q], id)
  {
    var r :| 0 <= r < |ls| && ls[r].root == index[id] && Has(ls[r], id);
    IdsAre(ls[p].entries, id);
    q := if r < p then r else r - 1;
    WithoutAt(ls, p, q);
  }

  lemma EvictedIndexed(ls: seq<Lineage>, index: map<nat, nat>, p: nat)
    requires IndexAgrees(ls, index) && DistinctRoots(ls) && p < |ls|
    ensures IndexAgrees(Without(ls, p), index - Ids(ls[p].entries))
  {
    var after, gone := Without(ls, p), Ids(ls[p].entries);
    forall q, id | 0 <= q < |after| && Has(after[q], id) ensures id in index - gone && index[id] == after[q].root {
      WithoutAt(ls, p, q);
      SurvivorIndexed(ls, index, p, if q < p then q else q + 1, id);
    }
    forall id | id in index - gone ensures exists q :: 0 <= q < |after| && after[q].root == index[id] && Has(after[q], id) {
      var q := IndexedSurvives(ls, index, p, id);
    }
  }

  lemma EvictKeepsExact(st: Store, p: nat)
    requires Exact(st) && p < |st.lineages|
    ensures Aligned(st) && Exact(Evicted(st, p))
  {
    FreshWithout(st.disk, p);
    EvictedIndexed(st.lineages, st.index, p);
    var after := Without(st.lineages, p);
    forall i | 0 <= i < |after| ensures DistinctIds(after[i].entries) { WithoutAt(st.lineages, p, i); }
    forall i, j | 0 <= i < j < |after| ensures after[i].root != after[j].root {
      WithoutAt(st.lineages, p, i);
      WithoutAt(st.lineages, p, j);
    }
  }

  // ------------------------------------------------------------------ what each operation does

  /** Only this session's entry, this session's files and its lineage's byte count are new. */
  ghost predicate OnlySession(was: Store, st: Store, p: nat, k: nat, e: Entry, f: Files, bytes: int) {
    && p < |was.lineages| == |was.disk| && k < |was.lineages[p].entries| == |was.disk[p].files| && bytes >= 0
    && st.lineages == was.lineages[p := Lineage(was.lineages[p].root, was.lineages[p].entries[k := e], bytes)]
    && st.disk == was.disk[p := Directory(was.disk[p].root, was.disk[p].files[k := f])]
    && st.index == was.index
  }

  lemma LocatedAt(st: Store, p: nat, k: nat)
    requires Exact(st) && p < |st.lineages| && k < |st.lineages[p].entries|
    ensures Locate(st.lineages, st.index, st.lineages[p].entries[k].id) == At(p, k)
  {
    var id := st.lineages[p].entries[k].id;
    assert Has(st.lineages[p], id);
    assert RootAt(st.lineages, st.index[id]) == p;
  }

  /** A written record replaces the session's record and moves the byte count by the difference in size; its log stays. */
  lemma WriteTakesEffect(st: Store, p: nat, k: nat, size: nat, open: bool, stamp: int)
    requires Exact(st) && p < |st.lineages| && k < |st.lineages[p].entries|
    ensures Aligned(st)
    ensures var id, log := st.lineages[p].entries[k].id, st.disk[p].files[k].log;
            OnlySession(st, WroteRecord(st, id, size, open, stamp), p, k, Entry(id, open, stamp, |log|), Files(id, size, open, stamp, log),
                        st.lineages[p].bytes + size - st.disk[p].files[k].size)
  {
    LocatedAt(st, p, k);
    FreshAt(st, p, k);
    BytesCover(st.disk[p].files, k);
  }

  lemma {:induction false} BytesCover(files: seq<Files>, k: nat)
    requires k < |files|
    ensures Measure(files) >= files[k].size
  {
    if k < |files| - 1 { BytesCover(files[..|files| - 1], k); }
  }

  /** An appended line is one more line of the session, counted with its newline; its record stays. */
  lemma AppendTakesEffect(st: Store, p: nat, k: nat, size: nat)
    requires Exact(st) && p < |st.lineages| && k < |st.lineages[p].entries|
    ensures Aligned(st)
    ensures var id, f := st.lineages[p].entries[k].id, st.disk[p].files[k];
            OnlySession(st, AppendedLine(st, id, size), p, k, Entry(id, f.open, f.stamp, |f.log| + 1),
                        Files(id, f.size, f.open, f.stamp, f.log + [size + 1]), st.lineages[p].bytes + size + 1)
  {
    LocatedAt(st, p, k);
    FreshAt(st, p, k);
  }

  /** Writes and appends for a session the index does not name do nothing. */
  lemma UnknownSessionIgnored(st: Store, id: nat, size: nat, open: bool, stamp: int)
    requires Exact(st) && id !in st.index
    ensures Aligned(st) && WroteRecord(st, id, size, open, stamp) == st && AppendedLine(st, id, size) == st
  {
  }

  /** A new session is open, has no lines and is indexed; it is the last of its root's lineage, or alone in a new last one. */
  lemma AddTakesEffect(st: Store, id: nat, root: nat, size: nat, stamp: int)
    requires Exact(st) && id !in st.index
    ensures Aligned(st) && AddedSession(st, id, root, size, stamp).index == st.index[id := root]
    ensures var st' := AddedSession(st, id, root, size, stamp);
            var e, f := Entry(id, true, stamp, 0), Files(id, size, true, stamp, []);
            && ((forall p :: 0 <= p < |st.lineages| ==> st.lineages[p].root != root) ==>
                  st'.lineages == st.lineages + [Lineage(root, [e], size)] && st'.disk == st.disk + [Directory(root, [f])])
            && (forall p :: 0 <= p < |st.lineages| && st.lineages[p].root == root ==>
                  && st'.lineages == st.lineages[p := Lineage(root, st.lineages[p].entries + [e], st.lineages[p].bytes + size)]
                  && st'.disk == st.disk[p := Directory(root, st.disk[p].files + [f])])
  {
  }

  /** An eviction takes one lineage, its directory and its sessions' places in the index, and nothing else. */
  lemma EvictTakesEffect(st: Store, p: nat)
    requires Exact(st) && p < |st.lineages|
    ensures Aligned(st)
    ensures var st' := Evicted(st, p);
            && st'.lineages == st.lineages[..p] + st.lineages[p + 1..] && st'.disk == st.disk[..p] + st.disk[p + 1..]
            && (forall id :: id in st'.index <==> id in st.index && !Has(st.lineages[p], id))
            && (forall id :: id in st'.index ==> st'.index[id] == st.index[id])
  {
    forall id ensures id in Ids(st.lineages[p].entries) <==> Has(st.lineages[p], id) { IdsAre(st.lineages[p].entries, id); }
  }

  // ------------------------------------------------------------------ every run

  datatype Op =
    | Add(id: nat, root: nat, size: nat, stamp: int)
    | Write(id: nat, size: nat, open: bool, stamp: int)
    | Line(id: nat, size: nat)
    | Evict(p: nat)

  function Applied(st: Store, op: Op): Store
    requires Exact(st)
  {
    match op
    case Add(id, root, size, stamp) => if id in st.index then st else AddedSession(st, id, root, size, stamp)
    case Write(id, size, open, stamp) => WroteRecord(st, id, size, open, stamp)
    case Line(id, size) => AppendedLine(st, id, size)
    case Evict(p) => if p < |st.lineages| then Evicted(st, p) else st
  }

  /** The running byte and line counts and the session index equal a fresh measurement of the disk after every operation. */
  lemma TotalsStayExact(st: Store, op: Op)
    requires Exact(st)
    ensures Exact(Applied(st, op))
  {
    match op
    case Add(id, root, size, stamp) => if id !in st.index { AddKeepsExact(st, id, root, size, stamp); }
    case Write(id, size, open, stamp) => WriteKeepsExact(st, id, size, open, stamp);
    case Line(id, size) => AppendKeepsExact(st, id, size);
    case Evict(p) => if p < |st.lineages| { EvictKeepsExact(st, p); }
  }

  /** The store after any operations, from the empty one: exact after every one of them. */
  function After(ops: seq<Op>): (st: Store)
    ensures Exact(st)
  {
    if ops == [] then
      EmptyIsExact();
      Store([], map[], [])
    else
      TotalsStayExact(After(ops[..|ops| - 1]), ops[|ops| - 1]);
      Applied(After(ops[..|ops| - 1]), ops[|ops| - 1])
  }

  lemma EmptyIsExact()
    ensures Exact(Store([], map[], []))
  {
  }
}
