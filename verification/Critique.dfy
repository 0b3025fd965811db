/**
 The critique verifier: each raw finding of an untrusted critic is kept or refused, and a kept one
 names the inputs it is only true for. Text functions the model cannot see (normalising, trimming,
 splitting, hashing, rendering) are given functions.
 */
module Critique {
  import opened Basics

  const MAX_FINDINGS := 12
  const MIN_QUOTE_CHARS := 6
  const WHOLE_WORD_BELOW := 14

  // ------------------------------------------------------------------ data

  datatype DraftKind = Cv | CoverLetter | MotivationLetter

  const DRAFT_KINDS := [Cv, CoverLetter, MotivationLetter]

  datatype FindingKind = UnsupportedClaim | OmittedRequirement | CrossDocument | UnclearWording | UnnecessaryDetail

  datatype Item =
    | JdQuote(quote: string)
    | DraftQuote(doc: DraftKind, quote: string)
    | CvFact(id: string)
    | CompanyFact(id: string)
    | Gap(note: string)

  datatype Evidence =
    | JdEvidence(quote: string)
    | DraftEvidence(doc: DraftKind, quote: string)
    | FactEvidence(id: string, text: string)
    | CompanyEvidence(id: string, text: string)
    | GapEvidence(note: string)

  datatype Finding = Finding(kind: FindingKind, summary: string, documents: seq<DraftKind>, items: seq<Item>, suggestion: Option<string>)

  /** A raw finding and what the schema makes of it. */
  datatype Raw = Raw(text: string, parsed: Option<Finding>)

  datatype InputKey = Jd | CvSource | Company | DraftOf(kind: DraftKind)

  datatype Stored = Stored(
    id: nat, kind: FindingKind, summary: string, documents: seq<DraftKind>, evidence: seq<Evidence>,
    suggestion: Option<string>, dependsOn: set<InputKey>)

  datatype Code =
    | Malformed | EvidenceNotFound | UnknownReference | InsufficientEvidence | SupportedByReviewed
    | AlreadyInDraft | DocumentNotInPackage | Duplicate | OverLimit

  datatype Refusal = Refusal(raw: Raw, code: Code)

  datatype Fact = Fact(id: string, sourceText: string, sentence: string)
  datatype Draft = Draft(kind: DraftKind, text: string)
  datatype Context = Context(jdShown: string, drafts: seq<Draft>, facts: seq<Fact>, companyFacts: seq<Fact>, cvText: string)

  datatype Texts = Texts(norm: string -> string, trim: string -> string, unbulleted: string -> seq<string>, wordChar: char -> bool)

  // ------------------------------------------------------------------ matching

  predicate OccursAt(h: string, n: string, i: nat) {
    i + |n| <= |h| && h[i..i + |n|] == n
  }

  predicate Includes(h: string, n: string) {
    exists i: nat :: i <= |h| && OccursAt(h, n, i)
  }

  predicate WholeWordAt(h: string, n: string, i: nat, wordChar: char -> bool) {
    && OccursAt(h, n, i)
    && (i == 0 || !wordChar(h[i - 1]))
    && (i + |n| == |h| || !wordChar(h[i + |n|]))
  }

  /** `containsPhrase` */
  predicate ContainsPhrase(haystack: string, needle: string, tx: Texts) {
    var h, n := tx.norm(haystack), tx.norm(needle);
    if |n| == 0 then false
    else if |n| >= WHOLE_WORD_BELOW then Includes(h, n)
    else exists i: nat :: i <= |h| && WholeWordAt(h, n, i, tx.wordChar)
  }

  /** `quoteIsSupported` */
  predicate QuoteIsSupported(quote: string, corpus: string, tx: Texts) {
    var lines := tx.unbulleted(quote);
    && (exists i :: 0 <= i < |lines| && |tx.norm(lines[i])| > 0)
    && (forall i :: 0 <= i < |lines| && |tx.norm(lines[i])| > 0 ==> Includes(corpus, tx.norm(lines[i])))
  }

  function FactLines(facts: seq<Fact>): string {
    if facts == [] then "" else FactLines(facts[..|facts| - 1]) + "\n" + facts[|facts| - 1].sourceText + "\n" + facts[|facts| - 1].sentence
  }

  /** `supportCorpus` */
  function Corpus(ctx: Context, tx: Texts): string {
    tx.norm(ctx.cvText + FactLines(ctx.facts) + FactLines(ctx.companyFacts))
  }

  /** A map built from a list keeps the last entry of a key. */
  function DraftText(drafts: seq<Draft>, kind: DraftKind): Option<string> {
    if drafts == [] then None
    else if drafts[|drafts| - 1].kind == kind then Some(drafts[|drafts| - 1].text)
    else DraftText(drafts[..|drafts| - 1], kind)
  }

  function FactText(facts: seq<Fact>, id: string): Option<string> {
    if facts == [] then None
    else if facts[|facts| - 1].id == id then Some(facts[|facts| - 1].sourceText)
    else FactText(facts[..|facts| - 1], id)
  }

  predicate QuoteIn(quote: string, haystack: string, tx: Texts) {
    |tx.norm(quote)| >= MIN_QUOTE_CHARS && Includes(tx.norm(haystack), tx.norm(quote))
  }

  // ------------------------------------------------------------------ one item of evidence

  function ItemProblem(item: Item, ctx: Context, tx: Texts): Option<Code> {
    match item
    case JdQuote(q) => if QuoteIn(tx.trim(q), ctx.jdShown, tx) then None else Some(EvidenceNotFound)
    case DraftQuote(doc, q) =>
      var text := DraftText(ctx.drafts, doc);
      if text.None? then Some(DocumentNotInPackage)
      else if QuoteIn(tx.trim(q), text.value, tx) then None else Some(EvidenceNotFound)
    case CvFact(id) => if FactText(ctx.facts, id).None? then Some(UnknownReference) else None
    case CompanyFact(id) => if FactText(ctx.companyFacts, id).None? then Some(UnknownReference) else None
    case Gap(_) => None
  }

  function EvidenceOf(item: Item, ctx: Context, tx: Texts): Evidence {
    match item
    case JdQuote(q) => JdEvidence(tx.trim(q))
    case DraftQuote(doc, q) => DraftEvidence(doc, tx.trim(q))
    case CvFact(id) => FactEvidence(id, UnwrapOr(FactText(ctx.facts, id), ""))
    case CompanyFact(id) => CompanyEvidence(id, UnwrapOr(FactText(ctx.companyFacts, id), ""))
    case Gap(note) => GapEvidence(note)
  }

  /** Problem of the first item that has one. */
  function FirstProblem(items: seq<Item>, ctx: Context, tx: Texts): Option<Code> {
    if items == [] then None
    else if FirstProblem(items[..|items| - 1], ctx, tx).Some? then FirstProblem(items[..|items| - 1], ctx, tx)
    else ItemProblem(items[|items| - 1], ctx, tx)
  }

  function AllEvidence(items: seq<Item>, ctx: Context, tx: Texts): (es: seq<Evidence>)
    ensures |es| == |items| && forall i :: 0 <= i < |items| ==> es[i] == EvidenceOf(items[i], ctx, tx)
  {
    if items == [] then [] else AllEvidence(items[..|items| - 1], ctx, tx) + [EvidenceOf(items[|items| - 1], ctx, tx)]
  }

  /** What the loop over the evidence counts. */
  datatype Tally = Tally(jd: nat, facts: nat, gaps: nat, company: nat, quotes: seq<(DraftKind, string)>)

  function Counted(t: Tally, item: Item, tx: Texts): Tally {
    match item
    case JdQuote(_) => t.(jd := t.jd + 1)
    case DraftQuote(doc, q) => t.(quotes := t.quotes + [(doc, tx.trim(q))])
    case CvFact(_) => t.(facts := t.facts + 1)
    case CompanyFact(_) => t.(company := t.company + 1)
    case Gap(_) => t.(gaps := t.gaps + 1)
  }

  function TallyOf(items: seq<Item>, tx: Texts): Tally {
    if items == [] then Tally(0, 0, 0, 0, []) else Counted(TallyOf(items[..|items| - 1], tx), items[|items| - 1], tx)
  }

  function QuotedDocs(t: Tally): set<DraftKind> {
    set i | 0 <= i < |t.quotes| :: t.quotes[i].0
  }

  /** The loop over one finding's evidence. */
  method ScanEvidence(items: seq<Item>, ctx: Context, tx: Texts) returns (problem: Option<Code>, evidence: seq<Evidence>, tally: Tally)
    ensures problem == FirstProblem(items, ctx, tx)
    ensures problem.None? ==> evidence == AllEvidence(items, ctx, tx) && tally == TallyOf(items, tx)
  {
    problem, evidence, tally := None, [], Tally(0, 0, 0, 0, []);
    for i := 0 to |items|
      invariant problem.None? && FirstProblem(items[..i], ctx, tx).None?
      invariant evidence == AllEvidence(items[..i], ctx, tx) && tally == TallyOf(items[..i], tx)
    {
      assert items[..i + 1][..i] == items[..i];
      problem := ItemProblem(items[i], ctx, tx);
      if problem.Some? {
        ProblemStays(items, i + 1, ctx, tx);
        return;
      }
      evidence := evidence + [EvidenceOf(items[i], ctx, tx)];
      tally := Counted(tally, items[i], tx);
    }
    assert items[..|items|] == items;
  }

  lemma {:induction false} ProblemStays(items: seq<Item>, i: nat, ctx: Context, tx: Texts)
    requires i <= |items| && FirstProblem(items[..i], ctx, tx).Some?
    ensures FirstProblem(items, ctx, tx) == FirstProblem(items[..i], ctx, tx)
    decreases |items| - i
  {
    if i == |items| {
      assert items[..i] == items;
    } else {
      assert items[..i + 1][..i] == items[..i];
      ProblemStays(items, i + 1, ctx, tx);
    }
  }

  // ------------------------------------------------------------------ one finding

  predicate SomeDraftSays(drafts: seq<Draft>, text: string, tx: Texts) {
    exists i :: 0 <= i < |drafts| && ContainsPhrase(drafts[i].text, text, tx)
  }

  predicate CitesFactInDraft(evidence: seq<Evidence>, ctx: Context, tx: Texts) {
    exists i :: 0 <= i < |evidence| && evidence[i].FactEvidence? && SomeDraftSays(ctx.drafts, evidence[i].text, tx)
  }

  predicate AllQuotesSupported(quotes: seq<(DraftKind, string)>, corpus: string, tx: Texts) {
    forall i :: 0 <= i < |quotes| ==> QuoteIsSupported(quotes[i].1, corpus, tx)
  }

  /** The minimum of evidence each kind needs. */
  function KindProblem(kind: FindingKind, t: Tally, evidence: seq<Evidence>, ctx: Context, tx: Texts): Option<Code> {
    match kind
    case UnsupportedClaim =>
      if |t.quotes| == 0 || t.gaps > 0 then Some(InsufficientEvidence)
      else if AllQuotesSupported(t.quotes, Corpus(ctx, tx), tx) then Some(SupportedByReviewed)
      else None
    case OmittedRequirement =>
      if t.jd == 0 then Some(InsufficientEvidence)
      else if (t.facts == 0) == (t.gaps == 0) then Some(InsufficientEvidence)
      else if |t.quotes| > 0 then Some(InsufficientEvidence)
      else if t.facts > 0 && CitesFactInDraft(evidence, ctx, tx) then Some(AlreadyInDraft)
      else None
    case CrossDocument => if |QuotedDocs(t)| < 2 || t.gaps > 0 then Some(InsufficientEvidence) else None
    case UnclearWording => if |t.quotes| == 0 || t.gaps > 0 then Some(InsufficientEvidence) else None
    case UnnecessaryDetail => if |t.quotes| == 0 || t.gaps > 0 then Some(InsufficientEvidence) else None
  }

  function Deduped(kinds: seq<DraftKind>): seq<DraftKind> {
    if kinds == [] then []
    else
      var rest := Deduped(kinds[..|kinds| - 1]);
      if kinds[|kinds| - 1] in rest then rest else rest + [kinds[|kinds| - 1]]
  }

  function InPackage(kinds: seq<DraftKind>, drafts: seq<Draft>): seq<DraftKind> {
    if kinds == [] then []
    else InPackage(kinds[..|kinds| - 1], drafts) + (if DraftText(drafts, kinds[|kinds| - 1]).Some? then [kinds[|kinds| - 1]] else [])
  }

  function Among(kinds: seq<DraftKind>, docs: set<DraftKind>): seq<DraftKind> {
    if kinds == [] then []
    else Among(kinds[..|kinds| - 1], docs) + (if kinds[|kinds| - 1] in docs then [kinds[|kinds| - 1]] else [])
  }

  function DocumentsOf(f: Finding, t: Tally, ctx: Context): seq<DraftKind> {
    if f.kind == OmittedRequirement then InPackage(Deduped(f.documents), ctx.drafts) else Among(DRAFT_KINDS, QuotedDocs(t))
  }

  /** Everything about one finding that does not depend on the others. */
  function Problem(f: Finding, ctx: Context, tx: Texts): Option<Code> {
    var first, t, evidence := FirstProblem(f.items, ctx, tx), TallyOf(f.items, tx), AllEvidence(f.items, ctx, tx);
    if first.Some? then first
    else if KindProblem(f.kind, t, evidence, ctx, tx).Some? then KindProblem(f.kind, t, evidence, ctx, tx)
    else if f.kind == OmittedRequirement && DocumentsOf(f, t, ctx) == [] then Some(DocumentNotInPackage)
    else None
  }

  function DependsOn(f: Finding, t: Tally, documents: seq<DraftKind>): set<InputKey> {
    (set k | k in documents :: DraftOf(k))
    + (if t.jd > 0 || f.kind == OmittedRequirement then {Jd} else {})
    + (if t.facts > 0 || f.kind == UnsupportedClaim || f.kind == OmittedRequirement then {CvSource} else {})
    + (if t.company > 0 || f.kind == UnsupportedClaim then {Company} else {})
  }

  function StoredAs(id: nat, f: Finding, ctx: Context, tx: Texts): Stored {
    var t := TallyOf(f.items, tx);
    var documents := DocumentsOf(f, t, ctx);
    Stored(id, f.kind, f.summary, documents, AllEvidence(f.items, ctx, tx), Suggested(f.suggestion), DependsOn(f, t, documents))
  }

  function Suggested(s: Option<string>): Option<string> {
    if s.Some? && |s.value| > 0 then s else None
  }

  // ------------------------------------------------------------------ the list of findings

  /** Kind and normalised summary. */
  type Key = (FindingKind, string)

  function KeyOf(kind: FindingKind, summary: string, tx: Texts): Key {
    (kind, tx.norm(summary))
  }

  predicate Taken(accepted: seq<Stored>, key: Key, tx: Texts) {
    exists i :: 0 <= i < |accepted| && KeyOf(accepted[i].kind, accepted[i].summary, tx) == key
  }

  function Judged(raw: Raw, accepted: seq<Stored>, ctx: Context, tx: Texts): Option<Code> {
    if raw.parsed.None? then Some(Malformed)
    else if |accepted| >= MAX_FINDINGS then Some(OverLimit)
    else if Taken(accepted, KeyOf(raw.parsed.value.kind, raw.parsed.value.summary, tx), tx) then Some(Duplicate)
    else Problem(raw.parsed.value, ctx, tx)
  }

  datatype Review = Review(accepted: seq<Stored>, refused: seq<Refusal>)

  function Reviewed(raws: seq<Raw>, ctx: Context, tx: Texts): Review {
    if raws == [] then Review([], [])
    else WithVerdict(Reviewed(raws[..|raws| - 1], ctx, tx), raws[|raws| - 1], ctx, tx)
  }

  function WithVerdict(r: Review, raw: Raw, ctx: Context, tx: Texts): Review {
    var verdict := Judged(raw, r.accepted, ctx, tx);
    if verdict.Some? then r.(refused := r.refused + [Refusal(raw, verdict.value)])
    else r.(accepted := r.accepted + [StoredAs(|r.accepted| + 1, raw.parsed.value, ctx, tx)])
  }

  /** The verdict on the i-th raw finding, given those before it. */
  function VerdictAt(raws: seq<Raw>, i: nat, ctx: Context, tx: Texts): Option<Code>
    requires i < |raws|
  {
    Judged(raws[i], Reviewed(raws[..i], ctx, tx).accepted, ctx, tx)
  }

  ghost predicate KeysAre(seen: set<Key>, accepted: seq<Stored>, tx: Texts) {
    forall key :: key in seen <==> Taken(accepted, key, tx)
  }

  lemma KeysAfter(seen: set<Key>, accepted: seq<Stored>, s: Stored, tx: Texts)
    requires KeysAre(seen, accepted, tx)
    ensures KeysAre(seen + {KeyOf(s.kind, s.summary, tx)}, accepted + [s], tx)
  {
    var longer := accepted + [s];
    forall key ensures key in seen + {KeyOf(s.kind, s.summary, tx)} <==> Taken(longer, key, tx) {
      if key == KeyOf(s.kind, s.summary, tx) {
        assert longer[|accepted|] == s;
      } else if key in seen {
        var i :| 0 <= i < |accepted| && KeyOf(accepted[i].kind, accepted[i].summary, tx) == key;
        assert longer[i] == accepted[i];
      }
    }
  }

  /** The documents of one finding, and whether they leave it a problem. */
  method JudgeOne(f: Finding, ctx: Context, tx: Texts, id: nat) returns (problem: Option<Code>, stored: Stored)
    ensures problem == Problem(f, ctx, tx)
    ensures problem.None? ==> stored == StoredAs(id, f, ctx, tx)
  {
    var evidence, tally;
    problem, evidence, tally := ScanEvidence(f.items, ctx, tx);
    stored := Stored(id, f.kind, f.summary, [], [], None, {});
    if problem.None? {
      problem := KindProblem(f.kind, tally, evidence, ctx, tx);
    }
    if problem.None? {
      var documents := DocumentsOf(f, tally, ctx);
      if f.kind == OmittedRequirement && documents == [] {
        problem := Some(DocumentNotInPackage);
      } else {
        stored := Stored(id, f.kind, f.summary, documents, evidence, Suggested(f.suggestion), DependsOn(f, tally, documents));
      }
    }
  }

  lemma ReviewedOneMore(raws: seq<Raw>, i: nat, ctx: Context, tx: Texts)
    requires i < |raws|
    ensures Reviewed(raws[..i + 1], ctx, tx) == WithVerdict(Reviewed(raws[..i], ctx, tx), raws[i], ctx, tx)
  {
    assert raws[..i + 1][..i] == raws[..i];
  }

  /** `verifyFindings` */
  method VerifyFindings(raws: seq<Raw>, ctx: Context, tx: Texts) returns (accepted: seq<Stored>, refused: seq<Refusal>)
    ensures Review(accepted, refused) == Reviewed(raws, ctx, tx)
  {
    accepted, refused := [], [];
    var seen: set<Key> := {};
    for i := 0 to |raws|
      invariant Review(accepted, refused) == Reviewed(raws[..i], ctx, tx)
      invariant KeysAre(seen, accepted, tx)
    {
      ReviewedOneMore(raws, i, ctx, tx);
      var raw := raws[i];
      if raw.parsed.None? {
        refused := refused + [Refusal(raw, Malformed)];
        continue;
      }
      var f := raw.parsed.value;
      if |accepted| >= MAX_FINDINGS {
        refused := refused + [Refusal(raw, OverLimit)];
        continue;
      }
      var key := KeyOf(f.kind, f.summary, tx);
      if key in seen {
        refused := refused + [Refusal(raw, Duplicate)];
        continue;
      }
      var problem, stored := JudgeOne(f, ctx, tx, |accepted| + 1);
      if problem.Some? {
        refused := refused + [Refusal(raw, problem.value)];
        continue;
      }
      KeysAfter(seen, accepted, stored, tx);
      seen := seen + {key};
      accepted := accepted + [stored];
    }
    assert raws[..|raws|] == raws;
  }

  // ------------------------------------------------------------------ every raw finding once

  function Kept(raws: seq<Raw>, ctx: Context, tx: Texts): seq<nat> {
    if raws == [] then []
    else Kept(raws[..|raws| - 1], ctx, tx) + (if VerdictAt(raws, |raws| - 1, ctx, tx).None? then [|raws| - 1] else [])
  }

  function Dropped(raws: seq<Raw>, ctx: Context, tx: Texts): seq<nat> {
    if raws == [] then []
    else Dropped(raws[..|raws| - 1], ctx, tx) + (if VerdictAt(raws, |raws| - 1, ctx, tx).Some? then [|raws| - 1] else [])
  }

  ghost predicate Increasing(at: seq<nat>, n: nat) {
    (forall j :: 0 <= j < |at| ==> at[j] < n) && (forall j, k :: 0 <= j < k < |at| ==> at[j] < at[k])
  }

  /** Each accepted finding is the stored form of the raw finding it came from, numbered in order. */
  ghost predicate KeptAre(at: seq<nat>, raws: seq<Raw>, accepted: seq<Stored>, ctx: Context, tx: Texts) {
    && |at| == |accepted|
    && forall j :: 0 <= j < |at| ==>
         at[j] < |raws| && raws[at[j]].parsed.Some? && accepted[j] == StoredAs(j + 1, raws[at[j]].parsed.value, ctx, tx)
  }

  ghost predicate DroppedAre(at: seq<nat>, raws: seq<Raw>, refused: seq<Refusal>) {
    && |at| == |refused|
    && forall j :: 0 <= j < |at| ==> at[j] < |raws| && refused[j].raw == raws[at[j]]
  }

  lemma PrefixKept(at: seq<nat>, raws: seq<Raw>, raw: Raw, accepted: seq<Stored>, ctx: Context, tx: Texts)
    requires KeptAre(at, raws, accepted, ctx, tx)
    ensures KeptAre(at, raws + [raw], accepted, ctx, tx)
  {
    forall j | 0 <= j < |at| ensures (raws + [raw])[at[j]] == raws[at[j]] {}
  }

  lemma {:induction false} KeptIs(raws: seq<Raw>, ctx: Context, tx: Texts)
    ensures KeptAre(Kept(raws, ctx, tx), raws, Reviewed(raws, ctx, tx).accepted, ctx, tx)
  {
    if raws != [] {
      var init, last := raws[..|raws| - 1], raws[|raws| - 1];
      KeptIs(init, ctx, tx);
      assert raws == init + [last];
      PrefixKept(Kept(init, ctx, tx), init, last, Reviewed(init, ctx, tx).accepted, ctx, tx);
    }
  }

  lemma {:induction false} DroppedIs(raws: seq<Raw>, ctx: Context, tx: Texts)
    ensures DroppedAre(Dropped(raws, ctx, tx), raws, Reviewed(raws, ctx, tx).refused)
  {
    if raws != [] {
      DroppedIs(raws[..|raws| - 1], ctx, tx);
    }
  }

  lemma {:induction false} KeptInOrder(raws: seq<Raw>, ctx: Context, tx: Texts)
    ensures Increasing(Kept(raws, ctx, tx), |raws|) && Increasing(Dropped(raws, ctx, tx), |raws|)
  {
    if raws != [] { KeptInOrder(raws[..|raws| - 1], ctx, tx); }
  }

  lemma {:induction false} KeptOrDropped(raws: seq<Raw>, i: nat, ctx: Context, tx: Texts)
    requires i < |raws|
    ensures i in Kept(raws, ctx, tx) <==> VerdictAt(raws, i, ctx, tx).None?
    ensures i in Dropped(raws, ctx, tx) <==> VerdictAt(raws, i, ctx, tx).Some?
  {
    var init := raws[..|raws| - 1];
    KeptInOrder(init, ctx, tx);
    if i < |init| {
      assert init[..i] == raws[..i];
      KeptOrDropped(init, i, ctx, tx);
    }
  }

  /**
   Every raw finding is in exactly one of the two lists, both lists keep the order, and an accepted
   entry is the stored form of its own raw finding.
   */
  lemma EveryFindingOnce(raws: seq<Raw>, ctx: Context, tx: Texts)
    ensures var kept, dropped := Kept(raws, ctx, tx), Dropped(raws, ctx, tx);
            && KeptAre(kept, raws, Reviewed(raws, ctx, tx).accepted, ctx, tx)
            && DroppedAre(dropped, raws, Reviewed(raws, ctx, tx).refused)
            && Increasing(kept, |raws|) && Increasing(dropped, |raws|)
            && forall i :: 0 <= i < |raws| ==> (i in kept <==> i !in dropped)
  {
    KeptIs(raws, ctx, tx);
    DroppedIs(raws, ctx, tx);
    KeptInOrder(raws, ctx, tx);
    forall i | 0 <= i < |raws| ensures i in Kept(raws, ctx, tx) <==> i !in Dropped(raws, ctx, tx) {
      KeptOrDropped(raws, i, ctx, tx);
    }
  }

  ghost predicate DistinctKeys(accepted: seq<Stored>, tx: Texts) {
    forall i, j :: 0 <= i < j < |accepted| ==>
      KeyOf(accepted[i].kind, accepted[i].summary, tx) != KeyOf(accepted[j].kind, accepted[j].summary, tx)
  }

  /** At most twelve are accepted, and no two share kind and normalised summary. */
  lemma {:induction false} AtMostTwelveDistinct(raws: seq<Raw>, ctx: Context, tx: Texts)
    ensures |Reviewed(raws, ctx, tx).accepted| <= 12 && DistinctKeys(Reviewed(raws, ctx, tx).accepted, tx)
  {
    if raws != [] { AtMostTwelveDistinct(raws[..|raws| - 1], ctx, tx); }
  }

  // ------------------------------------------------------------------ what a kept finding deserves

  ghost predicate HasJd(items: seq<Item>) { exists i :: 0 <= i < |items| && items[i].JdQuote? }
  ghost predicate HasQuote(items: seq<Item>) { exists i :: 0 <= i < |items| && items[i].DraftQuote? }
  ghost predicate HasFact(items: seq<Item>) { exists i :: 0 <= i < |items| && items[i].CvFact? }
  ghost predicate HasCompany(items: seq<Item>) { exists i :: 0 <= i < |items| && items[i].CompanyFact? }
  ghost predicate HasGap(items: seq<Item>) { exists i :: 0 <= i < |items| && items[i].Gap? }

  ghost predicate QuotesDoc(items: seq<Item>, doc: DraftKind) {
    exists i :: 0 <= i < |items| && items[i].DraftQuote? && items[i].doc == doc
  }

  ghost predicate Grounded(items: seq<Item>, ctx: Context, tx: Texts) {
    forall i :: 0 <= i < |items| ==> ItemProblem(items[i], ctx, tx).None?
  }

  ghost predicate QuotesUnsupported(items: seq<Item>, corpus: string, tx: Texts) {
    exists i :: 0 <= i < |items| && items[i].DraftQuote? && !QuoteIsSupported(tx.trim(items[i].quote), corpus, tx)
  }

  ghost predicate CitedFactsAbsent(items: seq<Item>, ctx: Context, tx: Texts) {
    forall i :: 0 <= i < |items| && items[i].CvFact? ==> !SomeDraftSays(ctx.drafts, EvidenceOf(items[i], ctx, tx).text, tx)
  }

  ghost predicate NamesDocInPackage(documents: seq<DraftKind>, ctx: Context) {
    exists k :: k in documents && DraftText(ctx.drafts, k).Some?
  }

  /** What each kind of finding must show, said about its own evidence. */
  ghost predicate Deserved(f: Finding, ctx: Context, tx: Texts) {
    && Grounded(f.items, ctx, tx)
    && match f.kind
       case UnsupportedClaim => !HasGap(f.items) && QuotesUnsupported(f.items, Corpus(ctx, tx), tx)
       case OmittedRequirement =>
         && HasJd(f.items) && (HasFact(f.items) <==> !HasGap(f.items)) && !HasQuote(f.items)
         && CitedFactsAbsent(f.items, ctx, tx) && NamesDocInPackage(f.documents, ctx)
       case CrossDocument =>
         !HasGap(f.items) && exists a, b :: a != b && QuotesDoc(f.items, a) && QuotesDoc(f.items, b)
       case UnclearWording => !HasGap(f.items) && HasQuote(f.items)
       case UnnecessaryDetail => !HasGap(f.items) && HasQuote(f.items)
  }

  lemma {:induction false} FirstProblemMeans(items: seq<Item>, ctx: Context, tx: Texts)
    ensures FirstProblem(items, ctx, tx).None? <==> Grounded(items, ctx, tx)
  {
    if items != [] {
      var init := items[..|items| - 1];
      FirstProblemMeans(init, ctx, tx);
      assert forall i :: 0 <= i < |init| ==> init[i] == items[i];
    }
  }

  ghost predicate CountsAgree(items: seq<Item>, t: Tally) {
    && (t.jd > 0 <==> HasJd(items)) && (t.facts > 0 <==> HasFact(items))
    && (t.gaps > 0 <==> HasGap(items)) && (t.company > 0 <==> HasCompany(items))
  }

  lemma {:induction false} CountsMean(items: seq<Item>, tx: Texts)
    ensures CountsAgree(items, TallyOf(items, tx))
  {
    if items != [] {
      var init := items[..|items| - 1];
      CountsMean(init, tx);
      assert forall i :: 0 <= i < |init| ==> init[i] == items[i];
      assert forall i :: 0 <= i < |items| - 1 ==> items[i] == init[i];
    }
  }

  ghost predicate FromItem(items: seq<Item>, q: (DraftKind, string), tx: Texts) {
    exists i :: 0 <= i < |items| && items[i].DraftQuote? && (items[i].doc, tx.trim(items[i].quote)) == q
  }

  lemma {:induction false} QuotesMean(items: seq<Item>, tx: Texts, q: (DraftKind, string))
    ensures q in TallyOf(items, tx).quotes <==> FromItem(items, q, tx)
  {
    if items != [] {
      var init := items[..|items| - 1];
      QuotesMean(init, tx, q);
      assert forall i :: 0 <= i < |init| ==> init[i] == items[i];
      assert forall i :: 0 <= i < |items| - 1 ==> items[i] == init[i];
    }
  }

  lemma DocsMean(items: seq<Item>, tx: Texts, doc: DraftKind)
    ensures doc in QuotedDocs(TallyOf(items, tx)) <==> QuotesDoc(items, doc)
  {
    var quotes := TallyOf(items, tx).quotes;
    if doc in QuotedDocs(TallyOf(items, tx)) {
      var j :| 0 <= j < |quotes| && quotes[j].0 == doc;
      QuotesMean(items, tx, quotes[j]);
    }
    if QuotesDoc(items, doc) {
      var i :| 0 <= i < |items| && items[i].DraftQuote? && items[i].doc == doc;
      QuotesMean(items, tx, (doc, tx.trim(items[i].quote)));
    }
  }

  lemma HasQuoteMeans(items: seq<Item>, tx: Texts)
    ensures |TallyOf(items, tx).quotes| > 0 <==> HasQuote(items)
  {
    var quotes := TallyOf(items, tx).quotes;
    if |quotes| > 0 { QuotesMean(items, tx, quotes[0]); }
    if HasQuote(items) {
      var i :| 0 <= i < |items| && items[i].DraftQuote?;
      QuotesMean(items, tx, (items[i].doc, tx.trim(items[i].quote)));
    }
  }

  lemma UnsupportedMeans(items: seq<Item>, corpus: string, tx: Texts)
    ensures !AllQuotesSupported(TallyOf(items, tx).quotes, corpus, tx) <==> QuotesUnsupported(items, corpus, tx)
  {
    var quotes := TallyOf(items, tx).quotes;
    if !AllQuotesSupported(quotes, corpus, tx) {
      var j :| 0 <= j < |quotes| && !QuoteIsSupported(quotes[j].1, corpus, tx);
      QuotesMean(items, tx, quotes[j]);
    }
    if QuotesUnsupported(items, corpus, tx) {
      var i :| 0 <= i < |items| && items[i].DraftQuote? && !QuoteIsSupported(tx.trim(items[i].quote), corpus, tx);
      QuotesMean(items, tx, (items[i].doc, tx.trim(items[i].quote)));
    }
  }

  lemma FactsAbsentMeans(items: seq<Item>, ctx: Context, tx: Texts)
    ensures !CitesFactInDraft(AllEvidence(items, ctx, tx), ctx, tx) <==> CitedFactsAbsent(items, ctx, tx)
  {
    var es := AllEvidence(items, ctx, tx);
    forall i | 0 <= i < |items| ensures es[i].FactEvidence? <==> items[i].CvFact? {}
  }

  lemma TwoDocs(docs: set<DraftKind>)
    ensures |docs| >= 2 <==> exists a, b :: a != b && a in docs && b in docs
  {
    if |docs| >= 2 {
      var a :| a in docs;
      assert |docs - {a}| >= 1;
      var b :| b in docs - {a};
      assert a != b && a in docs && b in docs;
    }
    if a, b :| a != b && a in docs && b in docs {
      assert {a, b} <= docs;
      SubsetIsSmaller({a, b}, docs);
    }
  }

  lemma SubsetIsSmaller(a: set<DraftKind>, b: set<DraftKind>)
    requires a <= b
    ensures |a| <= |b|
  {
    assert b == a + (b - a);
  }

  lemma CrossMeans(items: seq<Item>, tx: Texts)
    ensures |QuotedDocs(TallyOf(items, tx))| >= 2 <==> exists a, b :: a != b && QuotesDoc(items, a) && QuotesDoc(items, b)
  {
    TwoDocs(QuotedDocs(TallyOf(items, tx)));
    forall doc ensures doc in QuotedDocs(TallyOf(items, tx)) <==> QuotesDoc(items, doc) { DocsMean(items, tx, doc); }
  }

  lemma {:induction false} DedupedMembers(kinds: seq<DraftKind>, k: DraftKind)
    ensures k in Deduped(kinds) <==> k in kinds
  {
    if kinds != [] {
      DedupedMembers(kinds[..|kinds| - 1], k);
      DedupedMembers(kinds[..|kinds| - 1], kinds[|kinds| - 1]);
      assert kinds == kinds[..|kinds| - 1] + [kinds[|kinds| - 1]];
    }
  }

  lemma {:induction false} InPackageMembers(kinds: seq<DraftKind>, drafts: seq<Draft>, k: DraftKind)
    ensures k in InPackage(kinds, drafts) <==> k in kinds && DraftText(drafts, k).Some?
  {
    if kinds != [] {
      InPackageMembers(kinds[..|kinds| - 1], drafts, k);
      assert kinds == kinds[..|kinds| - 1] + [kinds[|kinds| - 1]];
    }
  }

  lemma {:induction false} AmongMembers(kinds: seq<DraftKind>, docs: set<DraftKind>, k: DraftKind)
    ensures k in Among(kinds, docs) <==> k in kinds && k in docs
  {
    if kinds != [] {
      AmongMembers(kinds[..|kinds| - 1], docs, k);
      assert kinds == kinds[..|kinds| - 1] + [kinds[|kinds| - 1]];
    }
  }

  /** The documents of a finding: those it quotes, or for an omission those it names that exist. */
  lemma DocumentsExact(f: Finding, ctx: Context, tx: Texts, k: DraftKind)
    ensures k in DocumentsOf(f, TallyOf(f.items, tx), ctx) <==>
            if f.kind == OmittedRequirement then k in f.documents && DraftText(ctx.drafts, k).Some? else QuotesDoc(f.items, k)
  {
    if f.kind == OmittedRequirement {
      DedupedMembers(f.documents, k);
      InPackageMembers(Deduped(f.documents), ctx.drafts, k);
    } else {
      AmongMembers(DRAFT_KINDS, QuotedDocs(TallyOf(f.items, tx)), k);
      DocsMean(f.items, tx, k);
      assert k == DRAFT_KINDS[0] || k == DRAFT_KINDS[1] || k == DRAFT_KINDS[2];
    }
  }

  lemma OmissionDocuments(f: Finding, ctx: Context, tx: Texts)
    requires f.kind == OmittedRequirement
    ensures DocumentsOf(f, TallyOf(f.items, tx), ctx) != [] <==> NamesDocInPackage(f.documents, ctx)
  {
    var docs := DocumentsOf(f, TallyOf(f.items, tx), ctx);
    if docs != [] { DocumentsExact(f, ctx, tx, docs[0]); }
    if k :| k in f.documents && DraftText(ctx.drafts, k).Some? { DocumentsExact(f, ctx, tx, k); }
  }

  /** The checks find no problem exactly with the findings that deserve to be kept. */
  lemma NoProblemMeansDeserved(f: Finding, ctx: Context, tx: Texts)
    ensures Problem(f, ctx, tx).None? <==> Deserved(f, ctx, tx)
  {
    FirstProblemMeans(f.items, ctx, tx);
    CountsMean(f.items, tx);
    HasQuoteMeans(f.items, tx);
    match f.kind
    case UnsupportedClaim => UnsupportedMeans(f.items, Corpus(ctx, tx), tx);
    case OmittedRequirement => OmissionMeans(f, ctx, tx);
    case CrossDocument => CrossMeans(f.items, tx);
    case UnclearWording =>
    case UnnecessaryDetail =>
  }

  lemma OmissionMeans(f: Finding, ctx: Context, tx: Texts)
    requires f.kind == OmittedRequirement
    ensures Problem(f, ctx, tx).None? <==> Deserved(f, ctx, tx)
  {
    FirstProblemMeans(f.items, ctx, tx);
    CountsMean(f.items, tx);
    HasQuoteMeans(f.items, tx);
    FactsAbsentMeans(f.items, ctx, tx);
    OmissionDocuments(f, ctx, tx);
  }

  /** The i-th finding is kept exactly when it parses, fits, repeats no kept one and deserves it. */
  lemma KeptExactly(raws: seq<Raw>, i: nat, ctx: Context, tx: Texts)
    requires i < |raws|
    ensures i in Kept(raws, ctx, tx) <==>
            var before, f := Reviewed(raws[..i], ctx, tx).accepted, raws[i].parsed;
            f.Some? && |before| < MAX_FINDINGS && !Taken(before, KeyOf(f.value.kind, f.value.summary, tx), tx) && Deserved(f.value, ctx, tx)
  {
    KeptOrDropped(raws, i, ctx, tx);
    if raws[i].parsed.Some? { NoProblemMeansDeserved(raws[i].parsed.value, ctx, tx); }
  }

  // ------------------------------------------------------------------ what it depends on

  /** The input an item's text was read from. */
  function KeyFor(item: Item): Option<InputKey> {
    match item
    case JdQuote(_) => Some(Jd)
    case DraftQuote(doc, _) => Some(DraftOf(doc))
    case CvFact(_) => Some(CvSource)
    case CompanyFact(_) => Some(Company)
    case Gap(_) => None
  }

  function Dependencies(f: Finding, ctx: Context, tx: Texts): set<InputKey> {
    StoredAs(0, f, ctx, tx).dependsOn
  }

  /** A kept finding depends on every input it cites. */
  lemma EveryCitationCovered(f: Finding, ctx: Context, tx: Texts, i: nat)
    requires Deserved(f, ctx, tx) && i < |f.items| && KeyFor(f.items[i]).Some?
    ensures KeyFor(f.items[i]).value in Dependencies(f, ctx, tx)
  {
    CountsMean(f.items, tx);
    if f.items[i].DraftQuote? {
      DocumentsExact(f, ctx, tx, f.items[i].doc);
    }
  }
}
