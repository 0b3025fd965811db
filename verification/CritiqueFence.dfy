/**
 The input fence: hashes of what a review was made against, and the rule that a finding is shown as
 current while none of the inputs it depends on has changed.
 */
module CritiqueFence {
  import opened Basics
  import opened Critique
  import opened CompanyFacts

  const CRITIQUE_VERSION := 2

  datatype DraftFence = DraftFence(kind: DraftKind, version: nat, contentHash: nat, artifactHash: nat)

  datatype Fence = Fence(
    v: nat, jdHash: nat, sourceCvHash: nat, reviewedCvHash: nat, cvId: nat, companyHash: nat, drafts: seq<DraftFence>)

  /** The first fence of a kind, as `find` has it. */
  function FenceFor(drafts: seq<DraftFence>, kind: DraftKind): Option<DraftFence> {
    if drafts == [] then None else if drafts[0].kind == kind then Some(drafts[0]) else FenceFor(drafts[1..], kind)
  }

  predicate DraftChanged(stored: Fence, current: Fence, kind: DraftKind) {
    var before, after := FenceFor(stored.drafts, kind), FenceFor(current.drafts, kind);
    if before.None? && after.None? then false
    else
      || before.None? || after.None?
      || before.value.version != after.value.version
      || before.value.contentHash != after.value.contentHash
      || before.value.artifactHash != after.value.artifactHash
  }

  /** Whether an input counts as changed between two fences. */
  predicate Changed(stored: Fence, current: Fence, key: InputKey) {
    || stored.v != current.v
    || match key
       case Jd => stored.jdHash != current.jdHash
       case CvSource =>
         stored.sourceCvHash != current.sourceCvHash || stored.reviewedCvHash != current.reviewedCvHash || stored.cvId != current.cvId
       case Company => stored.companyHash != current.companyHash
       case DraftOf(kind) => DraftChanged(stored, current, kind)
  }

  /** `changedInputs`: the set holds exactly the changed inputs. */
  method ChangedInputs(stored: Fence, current: Fence) returns (changed: set<InputKey>)
    ensures forall key :: key in changed <==> Changed(stored, current, key)
    ensures stored.v != current.v ==> forall key :: key in changed
  {
    changed := {};
    if stored.v != current.v {
      changed := {Jd, CvSource, Company};
      for i := 0 to |DRAFT_KINDS|
        invariant forall key :: key in changed <==> !key.DraftOf? || key.kind in DRAFT_KINDS[..i]
      {
        changed := changed + {DraftOf(DRAFT_KINDS[i])};
      }
      AllKinds();
      return;
    }
    if stored.jdHash != current.jdHash { changed := changed + {Jd}; }
    if stored.sourceCvHash != current.sourceCvHash || stored.reviewedCvHash != current.reviewedCvHash || stored.cvId != current.cvId {
      changed := changed + {CvSource};
    }
    if stored.companyHash != current.companyHash { changed := changed + {Company}; }
    for i := 0 to |DRAFT_KINDS|
      invariant forall key :: key in changed <==> Changed(stored, current, key) && (!key.DraftOf? || key.kind in DRAFT_KINDS[..i])
    {
      var kind := DRAFT_KINDS[i];
      var before, after := FenceFor(stored.drafts, kind), FenceFor(current.drafts, kind);
      if before.None? && after.None? { continue; }
      if || before.None? || after.None?
         || before.value.version != after.value.version
         || before.value.contentHash != after.value.contentHash
         || before.value.artifactHash != after.value.artifactHash
      {
        changed := changed + {DraftOf(kind)};
      }
    }
    AllKinds();
  }

  lemma AllKinds()
    ensures DRAFT_KINDS[..|DRAFT_KINDS|] == DRAFT_KINDS && forall k: DraftKind :: k in DRAFT_KINDS
  {
    forall k: DraftKind ensures k in DRAFT_KINDS {
      assert k == DRAFT_KINDS[0] || k == DRAFT_KINDS[1] || k == DRAFT_KINDS[2];
    }
  }

  // ------------------------------------------------------------------ inputs behind a fence

  datatype DraftInput = DraftInput(kind: DraftKind, version: nat, content: nat, artifactHash: nat)

  /** What a review reads; contents the model does not look into are named by numbers. */
  datatype Inputs = Inputs(jd: string, cvText: string, reviewed: nat, cvId: nat, company: seq<CompanyRecord>, drafts: seq<DraftInput>)

  /** The hash functions, one for each thing that is hashed; company facts are hashed sorted by id. */
  datatype Hashes = Hashes(text: string -> nat, reviewed: nat -> nat, company: seq<CompanyRecord> -> nat, content: nat -> nat)

  ghost predicate CollisionFree(h: Hashes) {
    && (forall a, b :: h.text(a) == h.text(b) ==> a == b)
    && (forall a, b :: h.reviewed(a) == h.reviewed(b) ==> a == b)
    && (forall a, b :: h.company(a) == h.company(b) ==> a == b)
    && (forall a, b :: h.content(a) == h.content(b) ==> a == b)
  }

  /** How the texts the verifier sees are made from the inputs. */
  datatype Rendering = Rendering(
    clamp: string -> string, facts: nat -> seq<Fact>, cvPlain: nat -> string, companySentence: string -> string, draft: nat -> string)

  function FencesOf(drafts: seq<DraftInput>, h: Hashes): seq<DraftFence> {
    if drafts == [] then []
    else [DraftFence(drafts[0].kind, drafts[0].version, h.content(drafts[0].content), drafts[0].artifactHash)] + FencesOf(drafts[1..], h)
  }

  function FenceOf(x: Inputs, h: Hashes): Fence {
    Fence(CRITIQUE_VERSION, h.text(x.jd), h.text(x.cvText), h.reviewed(x.reviewed), x.cvId, h.company(SortedById(x.company)), FencesOf(x.drafts, h))
  }

  function Drafts(drafts: seq<DraftInput>, r: Rendering): (ds: seq<Draft>)
    ensures |ds| == |drafts| && forall i :: 0 <= i < |ds| ==> ds[i] == Draft(drafts[i].kind, r.draft(drafts[i].content))
  {
    if drafts == [] then [] else [Draft(drafts[0].kind, r.draft(drafts[0].content))] + Drafts(drafts[1..], r)
  }

  function ContextOf(x: Inputs, r: Rendering): Context {
    Context(r.clamp(x.jd), Drafts(x.drafts, r), r.facts(x.reviewed), FactsOf(x.company, r.companySentence), r.cvPlain(x.reviewed))
  }

  /** At most one draft of a kind. */
  ghost predicate OnePerKind(drafts: seq<DraftInput>) {
    forall i, j :: 0 <= i < j < |drafts| ==> drafts[i].kind != drafts[j].kind
  }

  function FirstOf(drafts: seq<DraftInput>, kind: DraftKind): Option<DraftInput> {
    if drafts == [] then None else if drafts[0].kind == kind then Some(drafts[0]) else FirstOf(drafts[1..], kind)
  }

  lemma {:induction false} FenceOfFirst(drafts: seq<DraftInput>, h: Hashes, kind: DraftKind)
    ensures var d := FirstOf(drafts, kind);
            FenceFor(FencesOf(drafts, h), kind)
            == if d.None? then None else Some(DraftFence(kind, d.value.version, h.content(d.value.content), d.value.artifactHash))
  {
    if drafts != [] { FenceOfFirst(drafts[1..], h, kind); }
  }

  lemma {:induction false} DraftTextAt(drafts: seq<Draft>, kind: DraftKind, i: nat)
    requires i < |drafts| && drafts[i].kind == kind && forall j :: i < j < |drafts| ==> drafts[j].kind != kind
    ensures DraftText(drafts, kind) == Some(drafts[i].text)
  {
    if i < |drafts| - 1 { DraftTextAt(drafts[..|drafts| - 1], kind, i); }
  }

  lemma {:induction false} NoDraftText(drafts: seq<Draft>, kind: DraftKind)
    requires forall j :: 0 <= j < |drafts| ==> drafts[j].kind != kind
    ensures DraftText(drafts, kind) == None
  {
    if drafts != [] { NoDraftText(drafts[..|drafts| - 1], kind); }
  }

  lemma {:induction false} FirstIndex(drafts: seq<DraftInput>, kind: DraftKind) returns (i: nat)
    ensures i <= |drafts| && forall j :: 0 <= j < i ==> drafts[j].kind != kind
    ensures FirstOf(drafts, kind) == if i < |drafts| then Some(drafts[i]) else None
    ensures i < |drafts| ==> drafts[i].kind == kind
  {
    if drafts == [] || drafts[0].kind == kind {
      i := 0;
    } else {
      var k := FirstIndex(drafts[1..], kind);
      i := k + 1;
      forall j | 0 <= j < i ensures drafts[j].kind != kind {
        if j > 0 { assert drafts[j] == drafts[1..][j - 1]; }
      }
    }
  }

  /** The draft the fence is made from, the first of its kind, reads as the one quotes are checked against, the last. */
  ghost predicate Watched(drafts: seq<DraftInput>, r: Rendering, kind: DraftKind) {
    var d := FirstOf(drafts, kind);
    DraftText(Drafts(drafts, r), kind) == if d.None? then None else Some(r.draft(d.value.content))
  }

  /** So it is with at most one draft per kind. */
  lemma OneIsWatched(drafts: seq<DraftInput>, r: Rendering, kind: DraftKind)
    requires OnePerKind(drafts)
    ensures Watched(drafts, r, kind)
  {
    var i := FirstIndex(drafts, kind);
    if i < |drafts| { DraftTextAt(Drafts(drafts, r), kind, i); } else { NoDraftText(Drafts(drafts, r), kind); }
  }

  /** An input that does not count as changed reads the same. */
  ghost predicate SameReading(key: InputKey, a: Context, b: Context) {
    match key
    case Jd => a.jdShown == b.jdShown
    case CvSource => a.facts == b.facts && a.cvText == b.cvText
    case Company => a.companyFacts == b.companyFacts
    case DraftOf(kind) => DraftText(a.drafts, kind) == DraftText(b.drafts, kind)
  }

  /**
   A posting or CV that does not count as changed reads the same. A draft that was watched does so
   exactly when it still is. Company facts do so exactly when the first two come in the same order,
   given claims that tell them apart.
   */
  lemma UnchangedReadsSame(x: Inputs, y: Inputs, h: Hashes, r: Rendering, key: InputKey)
    requires CollisionFree(h) && !Changed(FenceOf(x, h), FenceOf(y, h), key)
    ensures key.Jd? || key.CvSource? ==> SameReading(key, ContextOf(x, r), ContextOf(y, r))
    ensures key.Company? && DistinctIds(x.company) ==>
              && (SameLead(x.company, y.company) ==> SameReading(key, ContextOf(x, r), ContextOf(y, r)))
              && (DistinctClaims(x.company) ==>
                    (SameReading(key, ContextOf(x, r), ContextOf(y, r)) <==> SameLead(x.company, y.company)))
    ensures key.DraftOf? && Watched(x.drafts, r, key.kind) ==>
              (SameReading(key, ContextOf(x, r), ContextOf(y, r)) <==> Watched(y.drafts, r, key.kind))
  {
    SameTexts(h, x, y);
    if key.DraftOf? { DraftReadsSame(x, y, h, r, key.kind); }
    if key.Company? && DistinctIds(x.company) { CompanyReadsSame(x.company, y.company, r); }
  }

  lemma CompanyReadsSame(x: seq<CompanyRecord>, y: seq<CompanyRecord>, r: Rendering)
    requires DistinctIds(x) && SortedById(x) == SortedById(y)
    ensures SameLead(x, y) ==> FactsOf(x, r.companySentence) == FactsOf(y, r.companySentence)
    ensures DistinctClaims(x) ==> (FactsOf(x, r.companySentence) == FactsOf(y, r.companySentence) <==> SameLead(x, y))
  {
    if SameLead(x, y) { SameLeadShowsSame(x, y, r.companySentence); }
    if DistinctClaims(x) { ShownSameExactly(x, y, r.companySentence); }
  }

  lemma DraftReadsSame(x: Inputs, y: Inputs, h: Hashes, r: Rendering, kind: DraftKind)
    requires CollisionFree(h) && !DraftChanged(FenceOf(x, h), FenceOf(y, h), kind)
    ensures Watched(x.drafts, r, kind) ==>
              (DraftText(ContextOf(x, r).drafts, kind) == DraftText(ContextOf(y, r).drafts, kind) <==> Watched(y.drafts, r, kind))
  {
    FenceOfFirst(x.drafts, h, kind);
    FenceOfFirst(y.drafts, h, kind);
    var d, e := FirstOf(x.drafts, kind), FirstOf(y.drafts, kind);
    if d.Some? && e.Some? { SameContent(h, d.value.content, e.value.content); }
  }

  lemma SameContent(h: Hashes, a: nat, b: nat)
    requires CollisionFree(h)
    ensures h.content(a) == h.content(b) ==> a == b
  {
  }

  lemma SameTexts(h: Hashes, x: Inputs, y: Inputs)
    requires CollisionFree(h)
    ensures h.text(x.jd) == h.text(y.jd) ==> x.jd == y.jd
    ensures h.reviewed(x.reviewed) == h.reviewed(y.reviewed) ==> x.reviewed == y.reviewed
    ensures h.company(SortedById(x.company)) == h.company(SortedById(y.company)) ==> SortedById(x.company) == SortedById(y.company)
  {
  }

  /**
   With hashes that do not collide an input counts as changed exactly when it differs: the posting, the
   CV with its review, the company facts as a sorted list, or the first draft of the kind.
   */
  lemma ChangedExactly(x: Inputs, y: Inputs, h: Hashes, key: InputKey)
    requires CollisionFree(h)
    ensures Changed(FenceOf(x, h), FenceOf(y, h), key) <==>
            match key
            case Jd => x.jd != y.jd
            case CvSource => x.cvText != y.cvText || x.reviewed != y.reviewed || x.cvId != y.cvId
            case Company => SortedById(x.company) != SortedById(y.company)
            case DraftOf(kind) => FirstOf(x.drafts, kind) != FirstOf(y.drafts, kind)
  {
    SameTexts(h, x, y);
    assert h.text(x.cvText) == h.text(y.cvText) ==> x.cvText == y.cvText;
    if key.DraftOf? { DraftChangedExactly(x, y, h, key.kind); }
  }

  lemma DraftChangedExactly(x: Inputs, y: Inputs, h: Hashes, kind: DraftKind)
    requires CollisionFree(h)
    ensures DraftChanged(FenceOf(x, h), FenceOf(y, h), kind) <==> FirstOf(x.drafts, kind) != FirstOf(y.drafts, kind)
  {
    FenceOfFirst(x.drafts, h, kind);
    FenceOfFirst(y.drafts, h, kind);
    var i := FirstIndex(x.drafts, kind);
    var j := FirstIndex(y.drafts, kind);
    var d, e := FirstOf(x.drafts, kind), FirstOf(y.drafts, kind);
    if d.Some? && e.Some? { SameContent(h, d.value.content, e.value.content); }
  }

  // ------------------------------------------------------------------ findings that stay true

  /** None of the finding's dependencies reads differently. */
  ghost predicate Undisturbed(f: Finding, a: Context, b: Context, tx: Texts) {
    forall key :: key in Dependencies(f, a, tx) ==> SameReading(key, a, b)
  }

  lemma ItemStillGrounded(f: Finding, a: Context, b: Context, tx: Texts, i: nat)
    requires Deserved(f, a, tx) && i < |f.items|
    requires KeyFor(f.items[i]).Some? ==> SameReading(KeyFor(f.items[i]).value, a, b)
    ensures ItemProblem(f.items[i], b, tx).None?
    ensures EvidenceOf(f.items[i], b, tx) == EvidenceOf(f.items[i], a, tx)
  {
    assert ItemProblem(f.items[i], a, tx).None?;
  }

  lemma CorpusKept(f: Finding, a: Context, b: Context, tx: Texts)
    requires f.kind == UnsupportedClaim && Undisturbed(f, a, b, tx)
    ensures Corpus(a, tx) == Corpus(b, tx)
  {
    assert CvSource in Dependencies(f, a, tx) && Company in Dependencies(f, a, tx);
    assert SameReading(CvSource, a, b) && SameReading(Company, a, b);
  }

  lemma PackageKept(f: Finding, a: Context, b: Context, tx: Texts)
    requires f.kind == OmittedRequirement && Deserved(f, a, tx) && Undisturbed(f, a, b, tx)
    ensures NamesDocInPackage(f.documents, b)
  {
    var k :| k in f.documents && DraftText(a.drafts, k).Some?;
    DocumentsExact(f, a, tx, k);
    assert DraftOf(k) in Dependencies(f, a, tx);
    assert SameReading(DraftOf(k), a, b);
  }

  /**
   A kept finding none of whose dependencies changed would be kept again, with the same evidence,
   exactly when it is not an omission whose cited fact some current draft now says. The check for that
   reads every draft, but only the named documents are dependencies.
   */
  lemma StillDeserved(f: Finding, a: Context, b: Context, tx: Texts)
    requires Deserved(f, a, tx) && Undisturbed(f, a, b, tx)
    ensures AllEvidence(f.items, b, tx) == AllEvidence(f.items, a, tx)
    ensures Deserved(f, b, tx) <==> (f.kind == OmittedRequirement ==> CitedFactsAbsent(f.items, b, tx))
  {
    forall i | 0 <= i < |f.items|
      ensures ItemProblem(f.items[i], b, tx).None? && EvidenceOf(f.items[i], b, tx) == EvidenceOf(f.items[i], a, tx)
    {
      if KeyFor(f.items[i]).Some? { EveryCitationCovered(f, a, tx, i); }
      ItemStillGrounded(f, a, b, tx, i);
    }
    if f.kind == UnsupportedClaim { CorpusKept(f, a, b, tx); }
    if f.kind == OmittedRequirement { PackageKept(f, a, b, tx); }
  }

  /** A quote, read against a context. */
  ghost predicate QuoteStands(e: Evidence, ctx: Context, tx: Texts) {
    match e
    case JdEvidence(q) => QuoteIn(q, ctx.jdShown, tx)
    case DraftEvidence(doc, q) => DraftText(ctx.drafts, doc).Some? && QuoteIn(q, DraftText(ctx.drafts, doc).value, tx)
    case FactEvidence(id, text) => FactText(ctx.facts, id) == Some(text)
    case CompanyEvidence(id, text) => FactText(ctx.companyFacts, id) == Some(text)
    case GapEvidence(_) => true
  }

  lemma GroundedStands(item: Item, ctx: Context, tx: Texts)
    requires ItemProblem(item, ctx, tx).None?
    ensures QuoteStands(EvidenceOf(item, ctx, tx), ctx, tx)
  {
  }

  /** What a piece of evidence needs beyond an unchanged fence. */
  ghost predicate Steady(e: Evidence, x: Inputs, y: Inputs, r: Rendering) {
    match e
    case DraftEvidence(doc, _) => Watched(x.drafts, r, doc) && Watched(y.drafts, r, doc)
    case CompanyEvidence(_, _) => DistinctIds(x.company) && SameLead(x.company, y.company)
    case _ => true
  }

  /**
   Whatever the critic sent: an accepted finding shown as current quotes and cites only text that is
   in the current posting, drafts, reviewed CV and company facts, as long as the drafts it quotes are
   watched and the company facts come in the same order.
   */
  lemma CurrentFindingsStand(raws: seq<Raw>, x: Inputs, y: Inputs, h: Hashes, r: Rendering, tx: Texts, j: nat, e: nat)
    requires CollisionFree(h)
    requires j < |Reviewed(raws, ContextOf(x, r), tx).accepted|
    requires e < |Reviewed(raws, ContextOf(x, r), tx).accepted[j].evidence|
    requires forall key :: key in Reviewed(raws, ContextOf(x, r), tx).accepted[j].dependsOn ==> !Changed(FenceOf(x, h), FenceOf(y, h), key)
    ensures var evidence := Reviewed(raws, ContextOf(x, r), tx).accepted[j].evidence[e];
            Steady(evidence, x, y, r) ==> QuoteStands(evidence, ContextOf(y, r), tx)
  {
    var a, b := ContextOf(x, r), ContextOf(y, r);
    var f := KeptFinding(raws, a, tx, j);
    var key, evidence := KeyFor(f.items[e]), EvidenceOf(f.items[e], a, tx);
    if Steady(evidence, x, y, r) {
      if key.Some? {
        EveryCitationCovered(f, a, tx, e);
        UnchangedReadsSame(x, y, h, r, key.value);
      }
      ItemStillGrounded(f, a, b, tx, e);
      GroundedStands(f.items[e], b, tx);
    }
  }

  /**
   As the inputs are loaded, with one draft per kind and company facts in a fixed order, there is no
   condition left: every quote and citation of a current finding stands.
   */
  lemma LoadedFindingsStand(raws: seq<Raw>, x: Inputs, y: Inputs, h: Hashes, r: Rendering, tx: Texts, rank: nat -> int, j: nat, e: nat)
    requires CollisionFree(h) && OnePerKind(x.drafts) && OnePerKind(y.drafts)
    requires DistinctIds(x.company) && Ranked(x.company, rank) && Ranked(y.company, rank)
    requires j < |Reviewed(raws, ContextOf(x, r), tx).accepted|
    requires e < |Reviewed(raws, ContextOf(x, r), tx).accepted[j].evidence|
    requires forall key :: key in Reviewed(raws, ContextOf(x, r), tx).accepted[j].dependsOn ==> !Changed(FenceOf(x, h), FenceOf(y, h), key)
    ensures QuoteStands(Reviewed(raws, ContextOf(x, r), tx).accepted[j].evidence[e], ContextOf(y, r), tx)
  {
    CurrentFindingsStand(raws, x, y, h, r, tx, j, e);
    CompanyIsDependency(raws, ContextOf(x, r), tx, j, e);
    LoadedIsSteady(Reviewed(raws, ContextOf(x, r), tx).accepted[j].evidence[e], x, y, h, r, rank);
  }

  lemma CompanyIsDependency(raws: seq<Raw>, ctx: Context, tx: Texts, j: nat, e: nat)
    requires j < |Reviewed(raws, ctx, tx).accepted| && e < |Reviewed(raws, ctx, tx).accepted[j].evidence|
    ensures Reviewed(raws, ctx, tx).accepted[j].evidence[e].CompanyEvidence? ==> Company in Reviewed(raws, ctx, tx).accepted[j].dependsOn
  {
    var f := KeptFinding(raws, ctx, tx, j);
    StoredCompany(j + 1, f, ctx, tx, e);
  }

  lemma StoredCompany(id: nat, f: Finding, ctx: Context, tx: Texts, e: nat)
    requires Deserved(f, ctx, tx) && e < |f.items|
    ensures StoredAs(id, f, ctx, tx).evidence[e].CompanyEvidence? ==> Company in StoredAs(id, f, ctx, tx).dependsOn
  {
    if f.items[e].CompanyFact? { EveryCitationCovered(f, ctx, tx, e); }
  }

  lemma LoadedIsSteady(e: Evidence, x: Inputs, y: Inputs, h: Hashes, r: Rendering, rank: nat -> int)
    requires CollisionFree(h) && OnePerKind(x.drafts) && OnePerKind(y.drafts)
    requires DistinctIds(x.company) && Ranked(x.company, rank) && Ranked(y.company, rank)
    requires e.CompanyEvidence? ==> !Changed(FenceOf(x, h), FenceOf(y, h), Company)
    ensures Steady(e, x, y, r)
  {
    if e.DraftEvidence? {
      OneIsWatched(x.drafts, r, e.doc);
      OneIsWatched(y.drafts, r, e.doc);
    } else if e.CompanyEvidence? {
      SameTexts(h, x, y);
      FixedOrderIsSame(x.company, y.company, rank);
    }
  }

  lemma KeptFinding(raws: seq<Raw>, ctx: Context, tx: Texts, j: nat) returns (f: Finding)
    requires j < |Reviewed(raws, ctx, tx).accepted|
    ensures Deserved(f, ctx, tx) && Reviewed(raws, ctx, tx).accepted[j] == StoredAs(j + 1, f, ctx, tx)
  {
    KeptIs(raws, ctx, tx);
    var i := Kept(raws, ctx, tx)[j];
    f := raws[i].parsed.value;
    KeptExactly(raws, i, ctx, tx);
  }

  // ------------------------------------------------------------------ where the two conditions bite

  /** Two drafts of one kind: the fence watches the first, the quotes were checked against the last. */
  lemma SecondDraftIsNotFenced(h: Hashes, r: Rendering)
    requires r.draft(1) != r.draft(2)
    ensures var first := DraftInput(Cv, 1, 0, 0);
            var x := Inputs("", "", 0, 0, [], [first, DraftInput(Cv, 1, 1, 0)]);
            var y := x.(drafts := [first, DraftInput(Cv, 2, 2, 0)]);
            !Changed(FenceOf(x, h), FenceOf(y, h), DraftOf(Cv)) && !SameReading(DraftOf(Cv), ContextOf(x, r), ContextOf(y, r))
  {
    var first := DraftInput(Cv, 1, 0, 0);
    var x := Inputs("", "", 0, 0, [], [first, DraftInput(Cv, 1, 1, 0)]);
    var y := x.(drafts := [first, DraftInput(Cv, 2, 2, 0)]);
    FenceOfFirst(x.drafts, h, Cv);
    FenceOfFirst(y.drafts, h, Cv);
    DraftTextAt(Drafts(x.drafts, r), Cv, 1);
    DraftTextAt(Drafts(y.drafts, r), Cv, 1);
  }

  /** Two company facts change places: the fence sees nothing, and "company-1" is another fact. */
  lemma ReorderedFactsAreNotFenced(h: Hashes, r: Rendering)
    ensures var a, b := CompanyRecord(1, "a", 0), CompanyRecord(2, "b", 0);
            var x := Inputs("", "", 0, 0, [a, b], []);
            var y := x.(company := [b, a]);
            && !Changed(FenceOf(x, h), FenceOf(y, h), Company)
            && FactText(ContextOf(x, r).companyFacts, "company-1") == Some("a")
            && FactText(ContextOf(y, r).companyFacts, "company-1") == Some("b")
  {
    var a, b := CompanyRecord(1, "a", 0), CompanyRecord(2, "b", 0);
    SortedPair(a, b);
    FirstOfPair(a, b, r.companySentence);
    FirstOfPair(b, a, r.companySentence);
  }

  lemma SortedPair(a: CompanyRecord, b: CompanyRecord)
    requires a.id < b.id
    ensures SortedById([a, b]) == SortedById([b, a])
  {
    assert [a, b][..1] == [a] && [b, a][..1] == [b];
    SortedOne(a);
    SortedOne(b);
    assert [b][..0] == [] && Inserted([], a) == [a];
    assert Inserted([b], a) == [a] + [b] == [a, b] && Inserted([a], b) == [a] + [b];
  }

  lemma SortedOne(a: CompanyRecord)
    ensures SortedById([a]) == [a]
  {
    assert [a][..0] == [] && [] + [a] == [a];
  }

  lemma FirstOfPair(a: CompanyRecord, b: CompanyRecord, sentence: string -> string)
    ensures FactText(FactsOf([a, b], sentence), "company-1") == Some(a.claim)
  {
    var facts := FactsOf([a, b], sentence);
    assert LeadLength([a, b]) == 2 && |facts| == 2;
    assert facts[1] == Fact(FactId(1), b.claim, sentence(b.claim)) && facts[0] == Fact(FactId(0), a.claim, sentence(a.claim));
    assert "company-1"[8] != "company-2"[8];
    assert facts[..1][0] == facts[0];
  }

  function SampleContext(letter: string): Context {
    Context("kubernetes", [Draft(Cv, ""), Draft(CoverLetter, letter)], [Fact("f1", "kubernetes", "")], [], "")
  }

  function SampleOmission(): Finding {
    Finding(OmittedRequirement, "s", [Cv], [JdQuote("kubernetes"), CvFact("f1")], None)
  }

  function PlainTexts(): Texts {
    Texts(s => s, s => s, s => [s], c => true)
  }

  lemma SampleDrafts(letter: string)
    ensures DraftText(SampleContext(letter).drafts, Cv) == Some("")
  {
    DraftTextAt(SampleContext(letter).drafts, Cv, 0);
  }

  lemma SampleGrounded(letter: string)
    ensures Grounded(SampleOmission().items, SampleContext(letter), PlainTexts())
    ensures EvidenceOf(CvFact("f1"), SampleContext(letter), PlainTexts()) == FactEvidence("f1", "kubernetes")
  {
    assert OccursAt("kubernetes", "kubernetes", 0);
  }

  lemma SampleDeserved()
    ensures Deserved(SampleOmission(), SampleContext(""), PlainTexts())
  {
    var f, ctx := SampleOmission(), SampleContext("");
    SampleDrafts("");
    SampleGrounded("");
    assert f.items[0].JdQuote? && f.items[1].CvFact?;
    assert Cv == f.documents[0];
    assert !SomeDraftSays(ctx.drafts, "kubernetes", PlainTexts());
  }

  /** An omission reported for the CV stays current although the cover letter now says the fact. */
  lemma OmissionOutlivesRepair()
    ensures Deserved(SampleOmission(), SampleContext(""), PlainTexts())
    ensures Undisturbed(SampleOmission(), SampleContext(""), SampleContext("kubernetes"), PlainTexts())
    ensures !Deserved(SampleOmission(), SampleContext("kubernetes"), PlainTexts())
  {
    SampleDeserved();
    SampleUndisturbed();
    SampleSaid();
    SampleGrounded("kubernetes");
    assert SampleOmission().items[1] == CvFact("f1");
  }

  lemma SampleUndisturbed()
    ensures Undisturbed(SampleOmission(), SampleContext(""), SampleContext("kubernetes"), PlainTexts())
  {
    var f, a, b, tx := SampleOmission(), SampleContext(""), SampleContext("kubernetes"), PlainTexts();
    SampleDrafts("");
    SampleDrafts("kubernetes");
    forall key | key in Dependencies(f, a, tx) ensures SameReading(key, a, b) {
      if key.DraftOf? { SampleNamesCv(key.kind); }
    }
  }

  lemma SampleNamesCv(kind: DraftKind)
    requires DraftOf(kind) in Dependencies(SampleOmission(), SampleContext(""), PlainTexts())
    ensures kind == Cv
  {
    DocumentsExact(SampleOmission(), SampleContext(""), PlainTexts(), kind);
  }

  lemma SampleSaid()
    ensures SomeDraftSays(SampleContext("kubernetes").drafts, "kubernetes", PlainTexts())
  {
    var drafts, tx := SampleContext("kubernetes").drafts, PlainTexts();
    assert WholeWordAt("kubernetes", "kubernetes", 0, tx.wordChar);
    assert ContainsPhrase(drafts[1].text, "kubernetes", tx);
  }
}
