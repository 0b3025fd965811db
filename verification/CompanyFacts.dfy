/**
 The company facts a critique is shown, and what the fence makes of them. The fence hashes the list
 sorted by id; the critic is shown the first two of the list as it comes, named by their position.
 */
module CompanyFacts {
  import opened Basics
  import opened Critique

  const MAX_LETTER_COMPANY_FACTS := 2

  /** An approved company fact; `rest` stands for its source, scope, verification and expiry. */
  datatype CompanyRecord = CompanyRecord(id: nat, claim: string, rest: nat)

  // ------------------------------------------------------------------ what is hashed

  function Inserted(s: seq<CompanyRecord>, r: CompanyRecord): seq<CompanyRecord> {
    if s == [] || s[|s| - 1].id <= r.id then s + [r] else Inserted(s[..|s| - 1], r) + [s[|s| - 1]]
  }

  function SortedById(s: seq<CompanyRecord>): seq<CompanyRecord> {
    if s == [] then [] else Inserted(SortedById(s[..|s| - 1]), s[|s| - 1])
  }

  lemma {:induction false} InsertedHolds(s: seq<CompanyRecord>, r: CompanyRecord)
    ensures multiset(Inserted(s, r)) == multiset(s) + multiset([r])
  {
    if s != [] && s[|s| - 1].id > r.id {
      InsertedHolds(s[..|s| - 1], r);
      assert s == s[..|s| - 1] + [s[|s| - 1]];
    }
  }

  lemma {:induction false} SortedHolds(s: seq<CompanyRecord>)
    ensures multiset(SortedById(s)) == multiset(s)
  {
    if s != [] {
      SortedHolds(s[..|s| - 1]);
      InsertedHolds(SortedById(s[..|s| - 1]), s[|s| - 1]);
      assert s == s[..|s| - 1] + [s[|s| - 1]];
    }
  }

  /** Equal hashed lists hold the same records. */
  lemma SameRecords(x: seq<CompanyRecord>, y: seq<CompanyRecord>)
    requires SortedById(x) == SortedById(y)
    ensures multiset(x) == multiset(y) && |x| == |y|
  {
    SortedHolds(x);
    SortedHolds(y);
    assert |x| == |multiset(x)| && |y| == |multiset(y)|;
  }

  ghost predicate DistinctIds(s: seq<CompanyRecord>) {
    forall i, j :: 0 <= i < j < |s| ==> s[i].id != s[j].id
  }

  /** Among the same records an id names one of them. */
  lemma IdNamesRecord(x: seq<CompanyRecord>, y: seq<CompanyRecord>, i: nat, j: nat)
    requires DistinctIds(x) && multiset(x) == multiset(y) && i < |x| && j < |y| && x[i].id == y[j].id
    ensures x[i] == y[j]
  {
    assert y[j] in multiset(x);
    var k :| 0 <= k < |x| && x[k] == y[j];
  }

  // ------------------------------------------------------------------ what is shown

  function LeadLength(s: seq<CompanyRecord>): nat {
    Min(MAX_LETTER_COMPANY_FACTS, |s|)
  }

  function FactId(i: nat): string {
    if i == 0 then "company-1" else "company-2"
  }

  /** `buildCompanyEvidenceSourceFacts`; `sentence` is the app's own wording around a claim. */
  function FactsOf(s: seq<CompanyRecord>, sentence: string -> string): seq<Fact> {
    seq(LeadLength(s), i requires 0 <= i < LeadLength(s) => Fact(FactId(i), s[i].claim, sentence(s[i].claim)))
  }

  /** A letter is offered the first two company facts, named by their place, each with its own claim and sentence. */
  lemma FactsAreLead(s: seq<CompanyRecord>, sentence: string -> string)
    ensures var facts := FactsOf(s, sentence);
            && |facts| == (if |s| < 2 then |s| else 2)
            && (|s| >= 1 ==> facts[0] == Fact("company-1", s[0].claim, sentence(s[0].claim)))
            && (|s| >= 2 ==> facts[1] == Fact("company-2", s[1].claim, sentence(s[1].claim)))
  {
  }

  /** The first two are the same ones in the same order. */
  predicate SameLead(x: seq<CompanyRecord>, y: seq<CompanyRecord>) {
    |x| == |y| && forall i :: 0 <= i < LeadLength(x) ==> x[i].id == y[i].id
  }

  ghost predicate DistinctClaims(s: seq<CompanyRecord>) {
    forall i, j :: 0 <= i < |s| && 0 <= j < |s| && s[i].claim == s[j].claim ==> s[i].id == s[j].id
  }

  lemma SameLeadShowsSame(x: seq<CompanyRecord>, y: seq<CompanyRecord>, sentence: string -> string)
    requires DistinctIds(x) && SortedById(x) == SortedById(y) && SameLead(x, y)
    ensures FactsOf(x, sentence) == FactsOf(y, sentence)
  {
    SameRecords(x, y);
    forall i | 0 <= i < LeadLength(x) ensures x[i] == y[i] { IdNamesRecord(x, y, i, i); }
  }

  lemma ShownClaims(x: seq<CompanyRecord>, y: seq<CompanyRecord>, sentence: string -> string, i: nat)
    requires FactsOf(x, sentence) == FactsOf(y, sentence) && i < LeadLength(x)
    ensures i < LeadLength(y) && x[i].claim == y[i].claim
  {
    assert |FactsOf(x, sentence)| == |FactsOf(y, sentence)|;
    assert FactsOf(x, sentence)[i] == FactsOf(y, sentence)[i];
  }

  lemma ClaimNamesRecord(x: seq<CompanyRecord>, y: seq<CompanyRecord>, i: nat)
    requires DistinctClaims(x) && multiset(x) == multiset(y) && i < |x| && i < |y| && x[i].claim == y[i].claim
    ensures x[i].id == y[i].id
  {
    assert y[i] in multiset(x);
    var k :| 0 <= k < |x| && x[k] == y[i];
  }

  /** With an unchanged hash, and claims that tell records apart, the same facts are shown exactly when the first two come in the same order. */
  lemma ShownSameExactly(x: seq<CompanyRecord>, y: seq<CompanyRecord>, sentence: string -> string)
    requires DistinctIds(x) && DistinctClaims(x) && SortedById(x) == SortedById(y)
    ensures FactsOf(x, sentence) == FactsOf(y, sentence) <==> SameLead(x, y)
  {
    SameRecords(x, y);
    if SameLead(x, y) {
      SameLeadShowsSame(x, y, sentence);
    } else if FactsOf(x, sentence) == FactsOf(y, sentence) {
      forall i | 0 <= i < LeadLength(x) ensures x[i].id == y[i].id {
        ShownClaims(x, y, sentence, i);
        ClaimNamesRecord(x, y, i);
      }
    }
  }

  // ------------------------------------------------------------------ a fixed order

  /** The list comes in the order of a rank that belongs to the id. */
  predicate Ranked(s: seq<CompanyRecord>, rank: nat -> int) {
    |s| < 2 || (rank(s[0].id) < rank(s[1].id) && Ranked(s[1..], rank))
  }

  lemma {:induction false} FirstIsLeast(s: seq<CompanyRecord>, rank: nat -> int, i: nat)
    requires Ranked(s, rank) && 0 < i < |s|
    ensures rank(s[0].id) < rank(s[i].id)
  {
    if i > 1 { FirstIsLeast(s[1..], rank, i - 1); }
  }

  lemma FindIn(x: seq<CompanyRecord>, y: seq<CompanyRecord>) returns (k: nat)
    requires multiset(x) == multiset(y) && x != []
    ensures k < |y| && y[k] == x[0]
  {
    assert x[0] in multiset(y);
    k :| k < |y| && y[k] == x[0];
  }

  lemma {:induction false} RankedIsUnique(x: seq<CompanyRecord>, y: seq<CompanyRecord>, rank: nat -> int)
    requires Ranked(x, rank) && Ranked(y, rank) && multiset(x) == multiset(y)
    ensures x == y
  {
    assert |x| == |multiset(x)| == |multiset(y)| == |y|;
    if x != [] {
      FirstIsSame(x, y, rank);
      WithoutFirst(x);
      WithoutFirst(y);
      RankedIsUnique(x[1..], y[1..], rank);
    }
  }

  lemma FirstIsSame(x: seq<CompanyRecord>, y: seq<CompanyRecord>, rank: nat -> int)
    requires Ranked(x, rank) && Ranked(y, rank) && multiset(x) == multiset(y) && x != [] && y != []
    ensures x[0] == y[0]
  {
    var k := FindIn(x, y);
    var j := FindIn(y, x);
    if k > 0 { FirstIsLeast(y, rank, k); }
    if j > 0 { FirstIsLeast(x, rank, j); }
  }

  lemma WithoutFirst(x: seq<CompanyRecord>)
    requires x != []
    ensures x == [x[0]] + x[1..] && multiset(x[1..]) == multiset(x) - multiset([x[0]])
  {
    assert x == [x[0]] + x[1..];
  }

  /** A loader with a fixed order gives, with an unchanged hash, the very same list. */
  lemma FixedOrderIsSame(x: seq<CompanyRecord>, y: seq<CompanyRecord>, rank: nat -> int)
    requires Ranked(x, rank) && Ranked(y, rank) && SortedById(x) == SortedById(y)
    ensures x == y
  {
    SameRecords(x, y);
    RankedIsUnique(x, y, rank);
  }
}
