/**
 What the critique verifier's checks mean for the texts themselves: when a phrase is found, which
 draft or fact a reference reads, why a finding is refused, and what a kept one stores.
 */
module CritiqueMeaning {
  import opened Basics
  import opened Critique

  // ------------------------------------------------------------------ phrases in texts

  ghost predicate Splits(h: string, before: string, n: string, after: string) {
    h == before + n + after
  }

  /** The phrase is in the text. */
  ghost predicate Found(h: string, n: string) {
    exists before, after :: Splits(h, before, n, after)
  }

  /** Neither side of a phrase touches it with a letter or digit. */
  predicate StandsFree(before: string, after: string, wordChar: char -> bool) {
    (before != "" ==> !wordChar(before[|before| - 1])) && (after != "" ==> !wordChar(after[0]))
  }

  /** The phrase is in the text with no letter or digit next to it. */
  ghost predicate FoundAsWords(h: string, n: string, wordChar: char -> bool) {
    exists before, after :: Splits(h, before, n, after) && StandsFree(before, after, wordChar)
  }

  lemma OccursSplits(h: string, n: string, i: nat)
    requires OccursAt(h, n, i)
    ensures Splits(h, h[..i], n, h[i + |n|..])
  {
    assert h == h[..i] + h[i..i + |n|] + h[i + |n|..];
  }

  lemma SplitsOccurs(h: string, before: string, n: string, after: string)
    requires Splits(h, before, n, after)
    ensures OccursAt(h, n, |before|) && h[..|before|] == before && h[|before| + |n|..] == after
  {
    assert h[|before|..] == n + after;
  }

  lemma IncludesMeans(h: string, n: string)
    ensures Includes(h, n) <==> Found(h, n)
  {
    if i: nat :| i <= |h| && OccursAt(h, n, i) { OccursSplits(h, n, i); }
    if before, after :| Splits(h, before, n, after) { SplitsOccurs(h, before, n, after); }
  }

  lemma WholeWordSplits(h: string, n: string, i: nat, wordChar: char -> bool)
    requires WholeWordAt(h, n, i, wordChar)
    ensures Splits(h, h[..i], n, h[i + |n|..]) && StandsFree(h[..i], h[i + |n|..], wordChar)
  {
    OccursSplits(h, n, i);
  }

  lemma FreeIsWholeWord(h: string, before: string, n: string, after: string, wordChar: char -> bool)
    requires Splits(h, before, n, after) && StandsFree(before, after, wordChar)
    ensures WholeWordAt(h, n, |before|, wordChar)
  {
    SplitsOccurs(h, before, n, after);
    if before != "" { assert h[|before| - 1] == h[..|before|][|before| - 1]; }
    if after != "" { assert h[|before| + |n|] == h[|before| + |n|..][0]; }
  }

  lemma WholeWordMeans(h: string, n: string, wordChar: char -> bool)
    ensures (exists i: nat :: i <= |h| && WholeWordAt(h, n, i, wordChar)) <==> FoundAsWords(h, n, wordChar)
  {
    if i: nat :| i <= |h| && WholeWordAt(h, n, i, wordChar) { WholeWordSplits(h, n, i, wordChar); }
    if before, after :| Splits(h, before, n, after) && StandsFree(before, after, wordChar) {
      FreeIsWholeWord(h, before, n, after, wordChar);
    }
  }

  /** A phrase of 14 characters or more may stand anywhere in the text, a shorter one only as whole words, an empty one nowhere. */
  lemma PhraseExactly(haystack: string, needle: string, tx: Texts)
    ensures ContainsPhrase(haystack, needle, tx) <==>
            && tx.norm(needle) != ""
            && if |tx.norm(needle)| < 14 then FoundAsWords(tx.norm(haystack), tx.norm(needle), tx.wordChar)
               else Found(tx.norm(haystack), tx.norm(needle))
  {
    IncludesMeans(tx.norm(haystack), tx.norm(needle));
    WholeWordMeans(tx.norm(haystack), tx.norm(needle), tx.wordChar);
  }

  /** A draft quote is supported when every line of it that has any text is in the reviewed evidence, and there is one. */
  lemma SupportedExactly(quote: string, corpus: string, tx: Texts)
    ensures QuoteIsSupported(quote, corpus, tx) <==>
            && (exists line :: line in tx.unbulleted(quote) && tx.norm(line) != "")
            && forall line :: line in tx.unbulleted(quote) && tx.norm(line) != "" ==> Found(corpus, tx.norm(line))
  {
    var lines := tx.unbulleted(quote);
    forall i | 0 <= i < |lines| ensures Includes(corpus, tx.norm(lines[i])) <==> Found(corpus, tx.norm(lines[i])) {
      IncludesMeans(corpus, tx.norm(lines[i]));
    }
  }

  // ------------------------------------------------------------------ the reviewed evidence

  function TextOf(f: Fact): string {
    "\n" + f.sourceText + "\n" + f.sentence
  }

  lemma {:induction false} FactLinesHold(facts: seq<Fact>, i: nat)
    requires i < |facts|
    ensures Found(FactLines(facts), TextOf(facts[i]))
  {
    var init, last := facts[..|facts| - 1], facts[|facts| - 1];
    if i == |init| {
      assert Splits(FactLines(facts), FactLines(init), TextOf(last), "");
    } else {
      FactLinesHold(init, i);
      var before, after :| Splits(FactLines(init), before, TextOf(init[i]), after);
      assert Splits(FactLines(facts), before, TextOf(facts[i]), after + TextOf(last));
    }
  }

  lemma FoundInside(a: string, h: string, b: string, n: string)
    requires Found(h, n)
    ensures Found(a + h + b, n)
  {
    var before, after :| Splits(h, before, n, after);
    assert Splits(a + h + b, a + before, n, after + b);
  }

  /** What a claim is checked against: the CV, then each reviewed fact and each company fact, both as cited and as a sentence. */
  lemma CorpusHolds(ctx: Context, tx: Texts) returns (text: string)
    ensures Corpus(ctx, tx) == tx.norm(text) && ctx.cvText <= text
    ensures forall i :: 0 <= i < |ctx.facts| ==> Found(text, TextOf(ctx.facts[i]))
    ensures forall i :: 0 <= i < |ctx.companyFacts| ==> Found(text, TextOf(ctx.companyFacts[i]))
  {
    var cv, company := FactLines(ctx.facts), FactLines(ctx.companyFacts);
    text := ctx.cvText + cv + company;
    forall i | 0 <= i < |ctx.facts| ensures Found(text, TextOf(ctx.facts[i])) {
      FactLinesHold(ctx.facts, i);
      FoundInside(ctx.cvText, cv, company, TextOf(ctx.facts[i]));
    }
    forall i | 0 <= i < |ctx.companyFacts| ensures Found(text, TextOf(ctx.companyFacts[i])) {
      FactLinesHold(ctx.companyFacts, i);
      FoundInside(ctx.cvText + cv, company, "", TextOf(ctx.companyFacts[i]));
      assert ctx.cvText + cv + company + "" == text;
    }
  }

  // ------------------------------------------------------------------ what a reference reads

  ghost predicate LastWith<T(!new)>(s: seq<T>, p: T -> bool, i: nat) {
    i < |s| && p(s[i]) && forall k :: i < k < |s| ==> !p(s[k])
  }

  lemma {:induction false} LastFactIsRead(facts: seq<Fact>, id: string)
    ensures (forall k :: 0 <= k < |facts| ==> facts[k].id != id) ==> FactText(facts, id) == None
    ensures forall i: nat :: LastWith(facts, (f: Fact) => f.id == id, i) ==> FactText(facts, id) == Some(facts[i].sourceText)
  {
    if facts != [] && facts[|facts| - 1].id != id { LastFactIsRead(facts[..|facts| - 1], id); }
  }

  lemma {:induction false} LastDraftIsRead(drafts: seq<Draft>, kind: DraftKind)
    ensures (forall k :: 0 <= k < |drafts| ==> drafts[k].kind != kind) ==> DraftText(drafts, kind) == None
    ensures forall i: nat :: LastWith(drafts, (d: Draft) => d.kind == kind, i) ==> DraftText(drafts, kind) == Some(drafts[i].text)
  {
    if drafts != [] && drafts[|drafts| - 1].kind != kind { LastDraftIsRead(drafts[..|drafts| - 1], kind); }
  }

  // ------------------------------------------------------------------ why one item is refused

  /** A quote of at least six characters that is in the text it names. */
  ghost predicate Quoted(quote: string, text: string, tx: Texts) {
    |tx.norm(tx.trim(quote))| >= 6 && Found(tx.norm(text), tx.norm(tx.trim(quote)))
  }

  lemma ItemProblemExactly(item: Item, ctx: Context, tx: Texts)
    ensures ItemProblem(item, ctx, tx) ==
            match item
            case JdQuote(q) => if Quoted(q, ctx.jdShown, tx) then None else Some(EvidenceNotFound)
            case DraftQuote(doc, q) =>
              (match DraftText(ctx.drafts, doc)
               case None => Some(DocumentNotInPackage)
               case Some(text) => if Quoted(q, text, tx) then None else Some(EvidenceNotFound))
            case CvFact(id) => if FactText(ctx.facts, id) == None then Some(UnknownReference) else None
            case CompanyFact(id) => if FactText(ctx.companyFacts, id) == None then Some(UnknownReference) else None
            case Gap(_) => None
  {
    match item
    case JdQuote(q) => IncludesMeans(tx.norm(ctx.jdShown), tx.norm(tx.trim(q)));
    case DraftQuote(doc, q) =>
      if DraftText(ctx.drafts, doc).Some? { IncludesMeans(tx.norm(DraftText(ctx.drafts, doc).value), tx.norm(tx.trim(q))); }
    case CvFact(_) =>
    case CompanyFact(_) =>
    case Gap(_) =>
  }

  ghost predicate FirstFaulty(items: seq<Item>, ctx: Context, tx: Texts, i: nat) {
    i < |items| && ItemProblem(items[i], ctx, tx).Some? && forall k :: 0 <= k < i ==> ItemProblem(items[k], ctx, tx).None?
  }

  /** The first item with a fault decides the refusal. */
  lemma {:induction false} FirstFaultDecides(items: seq<Item>, ctx: Context, tx: Texts, i: nat)
    requires FirstFaulty(items, ctx, tx, i)
    ensures FirstProblem(items, ctx, tx) == ItemProblem(items[i], ctx, tx)
  {
    var init := items[..|items| - 1];
    if i < |init| {
      FirstFaultDecides(init, ctx, tx, i);
    } else {
      FirstProblemMeans(init, ctx, tx);
    }
  }

  // ------------------------------------------------------------------ why a finding is refused

  /** The kind's own evidence is there. */
  ghost predicate Sufficient(f: Finding) {
    match f.kind
    case UnsupportedClaim => HasQuote(f.items) && !HasGap(f.items)
    case OmittedRequirement => HasJd(f.items) && HasFact(f.items) != HasGap(f.items) && !HasQuote(f.items)
    case CrossDocument => !HasGap(f.items) && exists a, b :: a != b && QuotesDoc(f.items, a) && QuotesDoc(f.items, b)
    case UnclearWording => HasQuote(f.items) && !HasGap(f.items)
    case UnnecessaryDetail => HasQuote(f.items) && !HasGap(f.items)
  }

  ghost predicate AllSupported(f: Finding, ctx: Context, tx: Texts) {
    forall i :: 0 <= i < |f.items| && f.items[i].DraftQuote? ==> QuoteIsSupported(tx.trim(f.items[i].quote), Corpus(ctx, tx), tx)
  }

  /** Some draft of the package contains the text of a reviewed fact the finding cites. */
  ghost predicate AlreadySaid(f: Finding, ctx: Context, tx: Texts) {
    exists i, d :: 0 <= i < |f.items| && 0 <= d < |ctx.drafts| && f.items[i].CvFact?
                   && ContainsPhrase(ctx.drafts[d].text, UnwrapOr(FactText(ctx.facts, f.items[i].id), ""), tx)
  }

  lemma AlreadySaidMeans(f: Finding, ctx: Context, tx: Texts)
    ensures AlreadySaid(f, ctx, tx) <==> !CitedFactsAbsent(f.items, ctx, tx)
  {
    if !CitedFactsAbsent(f.items, ctx, tx) {
      var i :| 0 <= i < |f.items| && f.items[i].CvFact? && SomeDraftSays(ctx.drafts, EvidenceOf(f.items[i], ctx, tx).text, tx);
      var d :| 0 <= d < |ctx.drafts| && ContainsPhrase(ctx.drafts[d].text, EvidenceOf(f.items[i], ctx, tx).text, tx);
      assert f.items[i].CvFact?;
    }
    if i, d :| 0 <= i < |f.items| && 0 <= d < |ctx.drafts| && f.items[i].CvFact?
               && ContainsPhrase(ctx.drafts[d].text, UnwrapOr(FactText(ctx.facts, f.items[i].id), ""), tx) {
      assert EvidenceOf(f.items[i], ctx, tx).text == UnwrapOr(FactText(ctx.facts, f.items[i].id), "");
      assert SomeDraftSays(ctx.drafts, EvidenceOf(f.items[i], ctx, tx).text, tx);
    }
  }

  /** Which of the further reasons refuses a finding whose every reference is right. */
  lemma ReasonExactly(f: Finding, ctx: Context, tx: Texts)
    requires Grounded(f.items, ctx, tx)
    ensures Problem(f, ctx, tx) ==
            if !Sufficient(f) then Some(InsufficientEvidence)
            else if f.kind == UnsupportedClaim && AllSupported(f, ctx, tx) then Some(SupportedByReviewed)
            else if f.kind == OmittedRequirement && AlreadySaid(f, ctx, tx) then Some(AlreadyInDraft)
            else if f.kind == OmittedRequirement && !(exists k :: k in f.documents && DraftText(ctx.drafts, k).Some?)
            then Some(DocumentNotInPackage)
            else None
  {
    FirstProblemMeans(f.items, ctx, tx);
    match f.kind
    case UnsupportedClaim => UnsupportedReason(f, ctx, tx);
    case OmittedRequirement => OmissionReason(f, ctx, tx);
    case CrossDocument => CountsMean(f.items, tx); CrossMeans(f.items, tx);
    case UnclearWording => CountsMean(f.items, tx); HasQuoteMeans(f.items, tx);
    case UnnecessaryDetail => CountsMean(f.items, tx); HasQuoteMeans(f.items, tx);
  }

  lemma UnsupportedReason(f: Finding, ctx: Context, tx: Texts)
    requires f.kind == UnsupportedClaim && FirstProblem(f.items, ctx, tx).None?
    ensures Problem(f, ctx, tx) ==
            if !HasQuote(f.items) || HasGap(f.items) then Some(InsufficientEvidence)
            else if AllSupported(f, ctx, tx) then Some(SupportedByReviewed) else None
  {
    CountsMean(f.items, tx);
    HasQuoteMeans(f.items, tx);
    UnsupportedMeans(f.items, Corpus(ctx, tx), tx);
  }

  lemma OmissionReason(f: Finding, ctx: Context, tx: Texts)
    requires f.kind == OmittedRequirement && FirstProblem(f.items, ctx, tx).None?
    ensures Problem(f, ctx, tx) ==
            if !HasJd(f.items) || HasFact(f.items) == HasGap(f.items) || HasQuote(f.items) then Some(InsufficientEvidence)
            else if AlreadySaid(f, ctx, tx) then Some(AlreadyInDraft)
            else if !NamesDocInPackage(f.documents, ctx) then Some(DocumentNotInPackage) else None
  {
    CountsMean(f.items, tx);
    HasQuoteMeans(f.items, tx);
    FactsAbsentMeans(f.items, ctx, tx);
    AlreadySaidMeans(f, ctx, tx);
    OmissionDocuments(f, ctx, tx);
  }

  /** Why the i-th raw finding is refused: its shape, twelve kept before it, a repetition, or its own fault. */
  lemma RefusedExactly(raws: seq<Raw>, i: nat, ctx: Context, tx: Texts)
    requires i < |raws|
    ensures var before := Reviewed(raws[..i], ctx, tx).accepted;
            VerdictAt(raws, i, ctx, tx) ==
            match raws[i].parsed
            case None => Some(Malformed)
            case Some(f) =>
              if |before| >= 12 then Some(OverLimit)
              else if exists j :: 0 <= j < |before| && before[j].kind == f.kind && tx.norm(before[j].summary) == tx.norm(f.summary)
              then Some(Duplicate)
              else Problem(f, ctx, tx)
  {
    var before := Reviewed(raws[..i], ctx, tx).accepted;
    if raws[i].parsed.Some? {
      var f := raws[i].parsed.value;
      if Taken(before, KeyOf(f.kind, f.summary, tx), tx) {
        var j :| 0 <= j < |before| && KeyOf(before[j].kind, before[j].summary, tx) == KeyOf(f.kind, f.summary, tx);
        assert before[j].kind == f.kind && tx.norm(before[j].summary) == tx.norm(f.summary);
      }
      if j :| 0 <= j < |before| && before[j].kind == f.kind && tx.norm(before[j].summary) == tx.norm(f.summary) {
        assert KeyOf(before[j].kind, before[j].summary, tx) == KeyOf(f.kind, f.summary, tx);
      }
    }
  }

  /** The refusal list gives the i-th raw finding's own reason. */
  lemma {:induction false} RefusalGivesReason(raws: seq<Raw>, j: nat, ctx: Context, tx: Texts)
    requires j < |Reviewed(raws, ctx, tx).refused|
    ensures |Dropped(raws, ctx, tx)| == |Reviewed(raws, ctx, tx).refused| && Dropped(raws, ctx, tx)[j] < |raws|
    ensures var i := Dropped(raws, ctx, tx)[j];
            Some(Reviewed(raws, ctx, tx).refused[j].code) == VerdictAt(raws, i, ctx, tx) && Reviewed(raws, ctx, tx).refused[j].raw == raws[i]
  {
    DroppedIs(raws, ctx, tx);
    var init, last := raws[..|raws| - 1], raws[|raws| - 1];
    DroppedIs(init, ctx, tx);
    if j < |Reviewed(init, ctx, tx).refused| {
      RefusalGivesReason(init, j, ctx, tx);
      assert init[..Dropped(init, ctx, tx)[j]] == raws[..Dropped(init, ctx, tx)[j]];
    }
  }

  // ------------------------------------------------------------------ what a kept finding stores

  ghost predicate Shows(e: Evidence, item: Item, ctx: Context, tx: Texts) {
    match item
    case JdQuote(q) => e == JdEvidence(tx.trim(q))
    case DraftQuote(doc, q) => e == DraftEvidence(doc, tx.trim(q))
    case CvFact(id) => e.FactEvidence? && e.id == id && FactText(ctx.facts, id) == Some(e.text)
    case CompanyFact(id) => e.CompanyEvidence? && e.id == id && FactText(ctx.companyFacts, id) == Some(e.text)
    case Gap(note) => e == GapEvidence(note)
  }

  /** What is stored of a finding: its number, its words, and one piece of evidence for each item, in order. */
  ghost predicate StoredFrom(s: Stored, id: nat, f: Finding, ctx: Context, tx: Texts) {
    && s.id == id && s.kind == f.kind && s.summary == f.summary
    && s.suggestion == (if f.suggestion == Some("") then None else f.suggestion)
    && |s.evidence| == |f.items|
    && forall i :: 0 <= i < |f.items| ==> Shows(s.evidence[i], f.items[i], ctx, tx)
  }

  /** The j-th kept finding is stored from its own raw finding, under the number j + 1. */
  lemma KeptStores(raws: seq<Raw>, j: nat, ctx: Context, tx: Texts) returns (i: nat)
    requires j < |Reviewed(raws, ctx, tx).accepted|
    ensures |Kept(raws, ctx, tx)| == |Reviewed(raws, ctx, tx).accepted| && Kept(raws, ctx, tx)[j] == i < |raws| && raws[i].parsed.Some?
    ensures StoredFrom(Reviewed(raws, ctx, tx).accepted[j], j + 1, raws[i].parsed.value, ctx, tx)
  {
    KeptIs(raws, ctx, tx);
    i := Kept(raws, ctx, tx)[j];
    KeptHasNoProblem(raws, i, ctx, tx);
    StoredIsFrom(j + 1, raws[i].parsed.value, ctx, tx);
  }

  lemma KeptHasNoProblem(raws: seq<Raw>, i: nat, ctx: Context, tx: Texts)
    requires i < |raws| && i in Kept(raws, ctx, tx)
    ensures raws[i].parsed.Some? && Problem(raws[i].parsed.value, ctx, tx).None?
  {
    KeptOrDropped(raws, i, ctx, tx);
  }

  lemma StoredIsFrom(id: nat, f: Finding, ctx: Context, tx: Texts)
    requires Problem(f, ctx, tx).None?
    ensures StoredFrom(StoredAs(id, f, ctx, tx), id, f, ctx, tx)
  {
    FirstProblemMeans(f.items, ctx, tx);
    EvidenceShows(f.items, ctx, tx);
  }

  lemma EvidenceShows(items: seq<Item>, ctx: Context, tx: Texts)
    requires Grounded(items, ctx, tx)
    ensures |AllEvidence(items, ctx, tx)| == |items|
    ensures forall i :: 0 <= i < |items| ==> Shows(AllEvidence(items, ctx, tx)[i], items[i], ctx, tx)
  {
  }

  /** The inputs a finding of each kind depends on, and no others. */
  lemma DependsExactly(f: Finding, ctx: Context, tx: Texts)
    ensures Jd in Dependencies(f, ctx, tx) <==> HasJd(f.items) || f.kind == OmittedRequirement
    ensures CvSource in Dependencies(f, ctx, tx) <==> HasFact(f.items) || f.kind == OmittedRequirement || f.kind == UnsupportedClaim
    ensures Company in Dependencies(f, ctx, tx) <==> HasCompany(f.items) || f.kind == UnsupportedClaim
    ensures forall k :: DraftOf(k) in Dependencies(f, ctx, tx) <==>
              if f.kind == OmittedRequirement then k in f.documents && DraftText(ctx.drafts, k).Some? else QuotesDoc(f.items, k)
  {
    CountsMean(f.items, tx);
    forall k ensures k in DocumentsOf(f, TallyOf(f.items, tx), ctx) <==>
              if f.kind == OmittedRequirement then k in f.documents && DraftText(ctx.drafts, k).Some? else QuotesDoc(f.items, k)
    {
      DocumentsExact(f, ctx, tx, k);
    }
  }
}
