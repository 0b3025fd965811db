/**
 Due dates against a time zone with gaps and folds. A zone is the offset, in whole minutes, that its
 clock shows at every instant; all that is asked of it is what a theorem names.
 */
module DueDates {
  import opened Basics
  import opened CalendarDates

  const DAY_MS := 86400000
  const MINUTE_MS := 60000

  type Zone = int -> int

  /** What the zone's clock shows at instant t, written as if it were UTC. */
  function Local(z: Zone, t: int): int {
    t + z(t) * MINUTE_MS
  }

  ghost predicate Bounded(z: Zone) {
    forall t :: -1440 < z(t) < 1440
  }

  /** Within a day either side of w the offset changes at most once, at c. */
  ghost predicate ChangesOnceAt(z: Zone, w: int, c: int) {
    && (forall t :: w - DAY_MS <= t < c && t <= w + DAY_MS ==> z(t) == z(w - DAY_MS))
    && (forall t :: c <= t <= w + DAY_MS && w - DAY_MS <= t ==> z(t) == z(w + DAY_MS))
  }

  // ------------------------------------------------------------------ the clock's parts

  datatype Parts = Parts(date: Date, hour: int, minute: int, second: int)

  /** `wallPartsAt` */
  function WallPartsAt(t: int, z: Zone): Parts {
    var shown := Local(z, t);
    var rest := shown % DAY_MS;
    Parts(Civil(shown / DAY_MS), rest / 3600000, rest / MINUTE_MS % 60, rest / 1000 % 60)
  }

  function PartsAsUtc(p: Parts): int {
    DayNumber(p.date) * DAY_MS + p.hour * 3600000 + p.minute * MINUTE_MS + p.second * 1000
  }

  /** `offsetMinutesAt`: the offset worked out from the shown parts, rounded to a minute. */
  function OffsetMinutesAt(t: int, z: Zone): int {
    (PartsAsUtc(WallPartsAt(t, z)) - t / 1000 * 1000 + MINUTE_MS / 2) / MINUTE_MS
  }

  lemma DayParts(rest: int)
    requires 0 <= rest < DAY_MS
    ensures rest / 3600000 * 3600000 + rest / MINUTE_MS % 60 * MINUTE_MS + rest / 1000 % 60 * 1000 == rest / 1000 * 1000
  {
    var s := rest / 1000;
    assert rest / MINUTE_MS == s / 60 && rest / 3600000 == s / 3600;
    assert s / 3600 == s / 60 / 60;
    assert s == s / 60 * 60 + s % 60 && s / 60 == s / 3600 * 60 + s / 60 % 60;
  }

  /** The shown parts are the shown instant, seconds and up. */
  lemma PartsAreExact(t: int, z: Zone)
    ensures PartsAsUtc(WallPartsAt(t, z)) == Local(z, t) / 1000 * 1000
  {
    var shown := Local(z, t);
    DayNumberOfCivil(shown / DAY_MS);
    DayParts(shown % DAY_MS);
    assert shown / 1000 == shown / DAY_MS * 86400 + shown % DAY_MS / 1000;
  }

  /**
   Reading the parts and rounding gives the zone's offset back, at every instant; from here on
   `offsetMinutesAt` is written as the zone itself.
   */
  lemma OffsetRecovered(t: int, z: Zone)
    ensures OffsetMinutesAt(t, z) == z(t)
  {
    PartsAreExact(t, z);
    assert (t + z(t) * 60000) / 1000 == t / 1000 + z(t) * 60;
  }

  // ------------------------------------------------------------------ wall times to instants

  datatype Choice = Only | Earlier | Later
  datatype Candidate = Candidate(choice: Choice, instant: int, offset: int)

  function DateAsUtc(d: Date): int {
    DayNumber(d) * DAY_MS
  }

  function WallAsUtc(w: WallTime): int {
    DateAsUtc(w.date) + w.hour * 3600000 + w.minute * MINUTE_MS
  }

  function Offered(w: int, z: Zone, offsets: seq<int>): seq<Candidate> {
    if offsets == [] then []
    else
      var t := w - offsets[0] * MINUTE_MS;
      (if z(t) == offsets[0] then [Candidate(Only, t, offsets[0])] else []) + Offered(w, z, offsets[1..])
  }

  function SortedPair(found: seq<Candidate>): seq<Candidate> {
    if |found| == 2 && found[1].instant < found[0].instant then [found[1], found[0]] else found
  }

  function Labelled(found: seq<Candidate>): seq<Candidate> {
    if |found| == 2 then [found[0].(choice := Earlier), found[1].(choice := Later)] else found
  }

  /** `wallCandidates`, for a wall time written as if it were UTC. */
  function WallCandidates(w: int, z: Zone): seq<Candidate> {
    var a, b := z(w - DAY_MS), z(w + DAY_MS);
    Labelled(SortedPair(Offered(w, z, if a == b then [a] else [a, b])))
  }

  predicate Lists(cs: seq<Candidate>, t: int) {
    exists i :: 0 <= i < |cs| && cs[i].instant == t
  }

  /** The clock jumps from before w to beyond it: c + a is the first skipped minute, c + b the first shown. */
  predicate InGap(w: int, a: int, b: int, c: int) {
    c + a * MINUTE_MS <= w < c + b * MINUTE_MS
  }

  /** The clock goes back over w. */
  predicate InFold(w: int, a: int, b: int, c: int) {
    c + b * MINUTE_MS <= w < c + a * MINUTE_MS
  }

  /** An offset read at w's own distance is genuine exactly on its side of the change. */
  lemma GenuineOffset(w: int, z: Zone, c: int, o: int)
    requires Bounded(z) && ChangesOnceAt(z, w, c) && -1440 < o < 1440
    ensures var t := w - o * MINUTE_MS;
            z(t) == o <==> o == (if t < c then z(w - DAY_MS) else z(w + DAY_MS))
  {
    var t := w - o * MINUTE_MS;
    assert w - DAY_MS <= t <= w + DAY_MS;
  }

  /** What the list holds, case by case. */
  function Expected(w: int, a: int, b: int, c: int): seq<Candidate> {
    var before, after := w - a * MINUTE_MS, w - b * MINUTE_MS;
    if InGap(w, a, b, c) then []
    else if InFold(w, a, b, c) then [Candidate(Earlier, before, a), Candidate(Later, after, b)]
    else if before < c then [Candidate(Only, before, a)]
    else [Candidate(Only, after, b)]
  }

  lemma OfferedTwo(w: int, z: Zone, a: int, b: int)
    ensures Offered(w, z, [a, b]) == Offered(w, z, [a]) + Offered(w, z, [b])
  {
    assert [a, b][1..] == [b];
    assert [a][1..] == [];
  }

  lemma CandidatesAre(w: int, z: Zone, c: int)
    requires Bounded(z) && ChangesOnceAt(z, w, c)
    ensures WallCandidates(w, z) == Expected(w, z(w - DAY_MS), z(w + DAY_MS), c)
  {
    var a, b := z(w - DAY_MS), z(w + DAY_MS);
    GenuineOffset(w, z, c, a);
    GenuineOffset(w, z, c, b);
    OfferedTwo(w, z, a, b);
  }

  /** An instant that shows w lies within a day of it and carries one of the two offsets. */
  lemma ShownWithin(w: int, z: Zone, c: int, t: int)
    requires Bounded(z) && ChangesOnceAt(z, w, c)
    ensures Local(z, t) == w ==> w - DAY_MS < t < w + DAY_MS && z(t) == (if t < c then z(w - DAY_MS) else z(w + DAY_MS))
  {
  }

  lemma ExpectedLists(w: int, a: int, b: int, c: int, t: int)
    ensures Lists(Expected(w, a, b, c), t) <==> t + (if t < c then a else b) * MINUTE_MS == w
  {
    var e := Expected(w, a, b, c);
    if |e| >= 1 { assert Lists(e, e[0].instant); }
    if |e| == 2 { assert Lists(e, e[1].instant); }
  }

  /** Sound and complete: exactly the instants at which the clock shows w. */
  lemma CandidatesExact(w: int, z: Zone, c: int, t: int)
    requires Bounded(z) && ChangesOnceAt(z, w, c)
    ensures Lists(WallCandidates(w, z), t) <==> Local(z, t) == w
  {
    CandidatesAre(w, z, c);
    ShownWithin(w, z, c, t);
    ExpectedLists(w, z(w - DAY_MS), z(w + DAY_MS), c, t);
    if -DAY_MS < t - w < DAY_MS { assert z(t) == if t < c then z(w - DAY_MS) else z(w + DAY_MS); }
  }

  /** None exactly in a gap, two exactly in a fold, the earlier first and with the offset from before the change. */
  lemma CandidatesCounted(w: int, z: Zone, c: int)
    requires Bounded(z) && ChangesOnceAt(z, w, c)
    ensures var a, b, cs := z(w - DAY_MS), z(w + DAY_MS), WallCandidates(w, z);
            && |cs| <= 2
            && (|cs| == 0 <==> InGap(w, a, b, c))
            && (|cs| == 2 <==> InFold(w, a, b, c))
            && (|cs| == 1 ==> cs[0].choice == Only && cs[0].offset == z(cs[0].instant))
            && (|cs| == 2 ==> cs[0].instant < c <= cs[1].instant && cs[0].choice == Earlier && cs[1].choice == Later
                              && cs[0].offset == a == z(cs[0].instant) && cs[1].offset == b == z(cs[1].instant))
  {
    CandidatesAre(w, z, c);
    assert w - DAY_MS <= w - z(w - DAY_MS) * MINUTE_MS <= w + DAY_MS;
    assert w - DAY_MS <= w - z(w + DAY_MS) * MINUTE_MS <= w + DAY_MS;
  }

  // ------------------------------------------------------------------ the start of a local day

  /** `startOfLocalDay`, for midnight written as if it were UTC. */
  function StartOfLocalDay(w: int, z: Zone): int {
    var cs := WallCandidates(w, z);
    if |cs| > 0 then cs[0].instant else w - z(w - DAY_MS) * MINUTE_MS
  }

  predicate OnDay(z: Zone, w: int, t: int) {
    w <= Local(z, t) < w + DAY_MS
  }

  /** The clock shows the day that begins at midnight w at t, and at no earlier instant. */
  ghost predicate FirstInstant(z: Zone, w: int, t: int) {
    OnDay(z, w, t) && forall u :: u < t ==> !OnDay(z, w, u)
  }

  lemma OffsetNear(z: Zone, w: int, c: int, t: int)
    requires ChangesOnceAt(z, w, c) && w - DAY_MS <= t <= w + DAY_MS
    ensures z(t) == if t < c then z(w - DAY_MS) else z(w + DAY_MS)
  {
  }

  lemma StartFromCandidate(w: int, z: Zone, c: int)
    requires Bounded(z) && ChangesOnceAt(z, w, c) && WallCandidates(w, z) != []
    ensures FirstInstant(z, w, StartOfLocalDay(w, z))
  {
    var t := StartOfLocalDay(w, z);
    CandidatesAre(w, z, c);
    OffsetNear(z, w, c, t);
    forall u | u < t ensures !OnDay(z, w, u) {
      if w - DAY_MS <= u { OffsetNear(z, w, c, u); }
    }
  }

  lemma StartFromGap(w: int, z: Zone, c: int)
    requires Bounded(z) && ChangesOnceAt(z, w, c) && WallCandidates(w, z) == []
    ensures var a, b := z(w - DAY_MS), z(w + DAY_MS);
            FirstInstant(z, w, StartOfLocalDay(w, z)) <==> w == c + a * MINUTE_MS && (b - a) * MINUTE_MS < DAY_MS
  {
    var a, b, t := z(w - DAY_MS), z(w + DAY_MS), StartOfLocalDay(w, z);
    CandidatesAre(w, z, c);
    OffsetNear(z, w, c, t);
    assert t == w - a * MINUTE_MS >= c;
    if t == c {
      forall u | u < t ensures !OnDay(z, w, u) {
        if w - DAY_MS <= u { OffsetNear(z, w, c, u); }
      }
    } else if w - DAY_MS <= c {
      OffsetNear(z, w, c, c);
      assert OnDay(z, w, t) ==> OnDay(z, w, c);
    }
  }

  /**
   The start of a local day is that day's first instant exactly when midnight is shown, or when the
   gap that swallows midnight begins at midnight and is shorter than a day.
   */
  lemma StartIsFirstInstant(w: int, z: Zone, c: int)
    requires Bounded(z) && ChangesOnceAt(z, w, c)
    ensures var a, b := z(w - DAY_MS), z(w + DAY_MS);
            FirstInstant(z, w, StartOfLocalDay(w, z)) <==>
            !InGap(w, a, b, c) || (w == c + a * MINUTE_MS && (b - a) * MINUTE_MS < DAY_MS)
  {
    CandidatesCounted(w, z, c);
    if WallCandidates(w, z) == [] { StartFromGap(w, z, c); } else { StartFromCandidate(w, z, c); }
  }

  /** A zone whose clock jumps from 23:30 to 00:30 half an hour before midnight w. */
  function EarlyGap(w: int): Zone {
    t => if t < w - 30 * MINUTE_MS then 0 else 60
  }

  lemma EarlyGapMissed(w: int)
    ensures StartOfLocalDay(w, EarlyGap(w)) == w && OnDay(EarlyGap(w), w, w - 30 * MINUTE_MS)
    ensures !FirstInstant(EarlyGap(w), w, w)
  {
    var z := EarlyGap(w);
    CandidatesAre(w, z, w - 30 * MINUTE_MS);
    assert OnDay(z, w, w - 30 * MINUTE_MS);
  }

  /** On 31 March 2024 in such a zone, the day is half an hour old at its computed start. */
  lemma StartMissesEarlyGap()
    ensures var d := Date(2024, 3, 31);
            var w := DateAsUtc(d);
            && Supported(d) && StartOfLocalDay(w, EarlyGap(w)) == w
            && OnDay(EarlyGap(w), w, w - 30 * MINUTE_MS) && !FirstInstant(EarlyGap(w), w, w)
  {
    EarlyGapMissed(DateAsUtc(Date(2024, 3, 31)));
  }

  // ------------------------------------------------------------------ due input

  datatype Input =
    | DateInput(date: string, zone: string)
    | TimeInput(local: string, zone: string, ambiguity: Option<Choice>)

  datatype Due =
    | DateDue(date: string, zone: string, at: int)
    | TimeDue(local: string, zone: string, offset: int, resolution: Choice, at: int)

  datatype Issue = InvalidDate | InvalidTime | InvalidZone | Nonexistent | Ambiguous(options: seq<Candidate>)

  datatype DueResult = Resolved(due: Due) | Refused(issue: Issue)

  /** The foreign zone library: the canonical name of a zone, and the offsets behind a canonical name. */
  datatype Library = Library(canonical: string -> Option<string>, zone: string -> Zone)

  ghost predicate NamesAreStable(lib: Library) {
    forall n :: lib.canonical(n).Some? ==> lib.canonical(lib.canonical(n).value) == lib.canonical(n)
  }

  function DayAfter(d: Date): int {
    DateAsUtc(NextDay(d))
  }

  function ResolveDate(d: Date, zone: string, z: Zone): Due
    requires Supported(d)
  {
    DateDue(FormatDate(d), zone, StartOfLocalDay(DayAfter(d), z))
  }

  /** Which of the candidates a time resolves to. */
  function Pick(local: string, zone: string, cs: seq<Candidate>, ambiguity: Option<Choice>): DueResult {
    if |cs| == 0 then Refused(Nonexistent)
    else if |cs| == 1 then Resolved(TimeDue(local, zone, cs[0].offset, Only, cs[0].instant))
    else if ambiguity != Some(Earlier) && ambiguity != Some(Later) then Refused(Ambiguous(cs))
    else
      var chosen := cs[if ambiguity == Some(Earlier) then 0 else 1];
      Resolved(TimeDue(local, zone, chosen.offset, ambiguity.value, chosen.instant))
  }

  function ResolveTime(w: WallTime, zone: string, z: Zone, ambiguity: Option<Choice>): DueResult
    requires SupportedWall(w)
  {
    Pick(FormatWall(w), zone, WallCandidates(WallAsUtc(w), z), ambiguity)
  }

  /** `resolveDue` */
  function ResolveDue(input: Input, lib: Library): DueResult {
    var zone := lib.canonical(input.zone);
    if zone.None? then Refused(InvalidZone)
    else match input
      case DateInput(date, _) =>
        var d := ParseDate(date);
        if d.None? then Refused(InvalidDate)
        else FormatOfParse(date); Resolved(ResolveDate(d.value, zone.value, lib.zone(zone.value)))
      case TimeInput(local, _, ambiguity) =>
        var w := ParseWall(local);
        if w.None? then Refused(InvalidTime)
        else FormatOfParseWall(local); ResolveTime(w.value, zone.value, lib.zone(zone.value), ambiguity)
  }

  /** The stored fields, asked for again. */
  function AskAgain(due: Due): Input {
    match due
    case DateDue(date, zone, _) => DateInput(date, zone)
    case TimeDue(local, zone, _, resolution, _) => TimeInput(local, zone, if resolution == Only then None else Some(resolution))
  }

  lemma CandidatesAtMostTwo(w: int, z: Zone)
    ensures |WallCandidates(w, z)| <= 2
  {
    var a, b := z(w - DAY_MS), z(w + DAY_MS);
    OfferedTwo(w, z, a, b);
    assert [a][1..] == [] && [b][1..] == [];
  }

  /** The stored fields keep the person's own text. */
  lemma StoredTextIsInput(input: Input, lib: Library)
    requires ResolveDue(input, lib).Resolved?
    ensures match ResolveDue(input, lib).due
            case DateDue(date, zone, _) => input.DateInput? && date == input.date && lib.canonical(input.zone) == Some(zone)
            case TimeDue(local, zone, _, _, _) => input.TimeInput? && local == input.local && lib.canonical(input.zone) == Some(zone)
  {
    match input
    case DateInput(date, _) => FormatOfParse(date);
    case TimeInput(local, zone, pick) =>
      FormatOfParseWall(local);
      StoredLocal(ParseWall(local).value, lib.canonical(zone).value, lib.zone(lib.canonical(zone).value), pick);
  }

  lemma StoredLocal(w: WallTime, zone: string, z: Zone, pick: Option<Choice>)
    requires SupportedWall(w) && ResolveTime(w, zone, z, pick).Resolved?
    ensures var due := ResolveTime(w, zone, z, pick).due; due.TimeDue? && due.local == FormatWall(w) && due.zone == zone
  {
  }

  /** Resolving the stored fields again gives the same due, whatever the zone does. */
  lemma ResolveAgain(input: Input, lib: Library)
    requires NamesAreStable(lib)
    ensures ResolveDue(input, lib).Resolved? ==> ResolveDue(AskAgain(ResolveDue(input, lib).due), lib) == ResolveDue(input, lib)
  {
    if ResolveDue(input, lib).Resolved? {
      StoredTextIsInput(input, lib);
      if input.DateInput? { ResolveDateAgain(input, lib); } else { ResolveTimeAgain(input, lib); }
    }
  }

  lemma ResolveDateAgain(input: Input, lib: Library)
    requires NamesAreStable(lib) && input.DateInput? && ResolveDue(input, lib).Resolved?
    requires ResolveDue(input, lib).due.DateDue? && ResolveDue(input, lib).due.date == input.date
    requires lib.canonical(input.zone) == Some(ResolveDue(input, lib).due.zone)
    ensures ResolveDue(AskAgain(ResolveDue(input, lib).due), lib) == ResolveDue(input, lib)
  {
  }

  lemma PickAgain(local: string, zone: string, cs: seq<Candidate>, pick: Option<Choice>)
    requires |cs| <= 2 && Pick(local, zone, cs, pick).Resolved?
    ensures Pick(local, zone, cs, AskAgain(Pick(local, zone, cs, pick).due).ambiguity) == Pick(local, zone, cs, pick)
  {
  }

  lemma ResolveTimeAgain(input: Input, lib: Library)
    requires NamesAreStable(lib) && input.TimeInput? && ResolveDue(input, lib).Resolved?
    requires ResolveDue(input, lib).due.TimeDue? && ResolveDue(input, lib).due.local == input.local
    requires lib.canonical(input.zone) == Some(ResolveDue(input, lib).due.zone)
    ensures ResolveDue(AskAgain(ResolveDue(input, lib).due), lib) == ResolveDue(input, lib)
  {
    FormatOfParseWall(input.local);
    var w, zone := ParseWall(input.local).value, lib.canonical(input.zone).value;
    var cs := WallCandidates(WallAsUtc(w), lib.zone(zone));
    CandidatesAtMostTwo(WallAsUtc(w), lib.zone(zone));
    PickAgain(FormatWall(w), zone, cs, input.ambiguity);
  }

  ghost predicate ListsExactly(cs: seq<Candidate>, z: Zone, at: int) {
    forall t :: Lists(cs, t) <==> Local(z, t) == at
  }

  /** What a resolution of the wall time `at` has to do with the instants that show it. */
  ghost predicate Exactly(r: DueResult, z: Zone, at: int, pick: Option<Choice>) {
    && (r == Refused(Nonexistent) <==> forall t :: Local(z, t) != at)
    && (r.Resolved? ==> r.due.TimeDue? && Local(z, r.due.at) == at && z(r.due.at) == r.due.offset)
    && (r.Resolved? && r.due.resolution == Only ==> forall t :: Local(z, t) == at ==> t == r.due.at)
    && (r.Resolved? && r.due.resolution == Earlier ==> forall t :: Local(z, t) == at ==> r.due.at <= t)
    && (r.Resolved? && r.due.resolution == Later ==> forall t :: Local(z, t) == at ==> t <= r.due.at)
    && (r.Resolved? && r.due.resolution != Only ==> pick == Some(r.due.resolution))
    && (r.Refused? && r.issue != Nonexistent ==>
          r.issue.Ambiguous? && |r.issue.options| == 2 && pick != Some(Earlier) && pick != Some(Later)
          && ListsExactly(r.issue.options, z, at))
  }

  lemma PickNone(local: string, zone: string, cs: seq<Candidate>, z: Zone, at: int, pick: Option<Choice>)
    requires |cs| == 0 && ListsExactly(cs, z, at)
    ensures Exactly(Pick(local, zone, cs, pick), z, at, pick)
  {
    forall t ensures Local(z, t) != at { assert !Lists(cs, t); }
  }

  lemma PickOnly(local: string, zone: string, cs: seq<Candidate>, z: Zone, at: int, pick: Option<Choice>)
    requires |cs| == 1 && ListsExactly(cs, z, at) && cs[0].offset == z(cs[0].instant)
    ensures Exactly(Pick(local, zone, cs, pick), z, at, pick)
  {
    assert Lists(cs, cs[0].instant);
    forall t | Local(z, t) == at ensures t == cs[0].instant { assert Lists(cs, t); }
  }

  lemma PickOfTwo(local: string, zone: string, cs: seq<Candidate>, z: Zone, at: int, pick: Option<Choice>)
    requires |cs| == 2 && ListsExactly(cs, z, at) && cs[0].instant < cs[1].instant
    requires cs[0].offset == z(cs[0].instant) && cs[1].offset == z(cs[1].instant)
    ensures Exactly(Pick(local, zone, cs, pick), z, at, pick)
  {
    assert Lists(cs, cs[0].instant) && Lists(cs, cs[1].instant);
    forall t | Local(z, t) == at ensures t == cs[0].instant || t == cs[1].instant { assert Lists(cs, t); }
  }

  /**
   A time resolves to an instant that shows it; it is refused as nonexistent exactly when no instant
   shows it, and as ambiguous exactly when two do and none was picked, both being offered; picking
   gives the earlier or the later of the two.
   */
  lemma ResolveTimeExact(w: WallTime, zone: string, z: Zone, pick: Option<Choice>, c: int)
    requires SupportedWall(w) && Bounded(z) && ChangesOnceAt(z, WallAsUtc(w), c)
    ensures Exactly(ResolveTime(w, zone, z, pick), z, WallAsUtc(w), pick)
  {
    var at, local := WallAsUtc(w), FormatWall(w);
    var cs := WallCandidates(at, z);
    CandidatesCounted(at, z, c);
    forall t ensures Lists(cs, t) <==> Local(z, t) == at { CandidatesExact(at, z, c, t); }
    if |cs| == 0 {
      PickNone(local, zone, cs, z, at, pick);
    } else if |cs| == 1 {
      PickOnly(local, zone, cs, z, at, pick);
    } else {
      PickOfTwo(local, zone, cs, z, at, pick);
    }
  }

  lemma DayAfterIsSuccessor(d: Date)
    requires Valid(d)
    ensures Valid(Successor(d)) && DayAfter(d) == DateAsUtc(Successor(d)) == DateAsUtc(d) + DAY_MS
  {
    NextDayIsSuccessor(d);
    SuccessorIsNextNumber(d);
    DayScaled(DayNumber(d));
  }

  lemma DayScaled(n: int)
    ensures (n + 1) * DAY_MS == n * DAY_MS + DAY_MS
  {
  }

  lemma DateDueAt(d: Date, zone: string, z: Zone, w: int)
    requires Supported(d) && w == DayAfter(d)
    ensures ResolveDate(d, zone, z).at == StartOfLocalDay(w, z)
    ensures ResolveDate(d, zone, z).DateDue? && ResolveDate(d, zone, z).date == FormatDate(d)
  {
  }

  /** A date falls due at the first instant of the next calendar day, exactly under the condition of `StartIsFirstInstant`. */
  lemma DateDueAtNextDay(d: Date, zone: string, z: Zone, c: int, w: int)
    requires Supported(d) && w == DateAsUtc(Successor(d))
    requires Bounded(z) && ChangesOnceAt(z, w, c)
    ensures FirstInstant(z, w, ResolveDate(d, zone, z).at) <==>
            !InGap(w, z(w - DAY_MS), z(w + DAY_MS), c)
            || (w == c + z(w - DAY_MS) * MINUTE_MS && (z(w + DAY_MS) - z(w - DAY_MS)) * MINUTE_MS < DAY_MS)
  {
    DayAfterIsSuccessor(d);
    DateDueAt(d, zone, z, w);
    StartIsFirstInstant(w, z, c);
  }

  // ------------------------------------------------------------------ due input, end to end

  lemma ResolveDueOfDate(input: Input, lib: Library, zone: string, d: Date)
    requires input.DateInput? && lib.canonical(input.zone) == Some(zone) && ParseDate(input.date) == Some(d)
    ensures Supported(d) && ResolveDue(input, lib) == Resolved(ResolveDate(d, zone, lib.zone(zone)))
  {
    FormatOfParse(input.date);
  }

  lemma ResolveDueOfTime(input: Input, lib: Library, zone: string, w: WallTime)
    requires input.TimeInput? && lib.canonical(input.zone) == Some(zone) && ParseWall(input.local) == Some(w)
    ensures SupportedWall(w) && ResolveDue(input, lib) == ResolveTime(w, zone, lib.zone(zone), input.ambiguity)
  {
    FormatOfParseWall(input.local);
  }

  /** A readable date is due at the first instant of its successor, in the zone it names, under the condition of `DateDueAtNextDay`. */
  lemma DateIsDueInItsZone(input: Input, lib: Library, zone: string, d: Date, c: int, w: int)
    requires input.DateInput? && lib.canonical(input.zone) == Some(zone) && ParseDate(input.date) == Some(d)
    requires Valid(d) && w == DateAsUtc(Successor(d)) && Bounded(lib.zone(zone)) && ChangesOnceAt(lib.zone(zone), w, c)
    ensures var z, r := lib.zone(zone), ResolveDue(input, lib);
            && r.Resolved? && r.due.DateDue? && r.due.date == input.date && r.due.zone == zone
            && (FirstInstant(z, w, r.due.at) <==>
                !InGap(w, z(w - DAY_MS), z(w + DAY_MS), c)
                || (w == c + z(w - DAY_MS) * MINUTE_MS && (z(w + DAY_MS) - z(w - DAY_MS)) * MINUTE_MS < DAY_MS))
  {
    ResolveDueOfDate(input, lib, zone, d);
    FormatOfParse(input.date);
    DateDueAt(d, zone, lib.zone(zone), DayAfter(d));
    DateDueAtNextDay(d, zone, lib.zone(zone), c, w);
  }

  /** A readable time is resolved among the instants that show it in the zone it names, by the input's own choice. */
  lemma TimeIsDueInItsZone(input: Input, lib: Library, zone: string, w: WallTime, c: int)
    requires input.TimeInput? && lib.canonical(input.zone) == Some(zone) && ParseWall(input.local) == Some(w)
    requires Bounded(lib.zone(zone)) && ChangesOnceAt(lib.zone(zone), WallAsUtc(w), c)
    ensures var r := ResolveDue(input, lib);
            && Exactly(r, lib.zone(zone), WallAsUtc(w), input.ambiguity)
            && (r.Resolved? ==> r.due.TimeDue? && r.due.local == input.local && r.due.zone == zone)
  {
    ResolveDueOfTime(input, lib, zone, w);
    ResolveTimeExact(w, zone, lib.zone(zone), input.ambiguity, c);
    FormatOfParseWall(input.local);
  }

  /** The three refusals of the input itself: the zone first, then the date or the time. */
  lemma RefusedExactly(input: Input, lib: Library)
    ensures ResolveDue(input, lib) == Refused(InvalidZone) <==> lib.canonical(input.zone) == None
    ensures ResolveDue(input, lib) == Refused(InvalidDate) <==>
              lib.canonical(input.zone).Some? && input.DateInput? && ParseDate(input.date) == None
    ensures ResolveDue(input, lib) == Refused(InvalidTime) <==>
              lib.canonical(input.zone).Some? && input.TimeInput? && ParseWall(input.local) == None
  {
    var zone := lib.canonical(input.zone);
    if zone.Some? && input.DateInput? && ParseDate(input.date).Some? {
      ResolveDueOfDate(input, lib, zone.value, ParseDate(input.date).value);
    }
    if zone.Some? && input.TimeInput? && ParseWall(input.local).Some? {
      ResolveDueOfTime(input, lib, zone.value, ParseWall(input.local).value);
    }
  }

  // ------------------------------------------------------------------ due state

  datatype DueState = Overdue | DueToday | Upcoming | Closed

  function LocalDateAt(t: int, z: Zone): string
    requires WallPartsAt(t, z).date.year >= 0
  {
    DayNumberOfCivil(Local(z, t) / DAY_MS);
    FormatDate(WallPartsAt(t, z).date)
  }

  function DueDay(due: Due): string {
    match due
    case DateDue(date, _, _) => date
    case TimeDue(local, _, _, _, _) => if |local| <= 10 then local else local[..10]
  }

  /** `dueStateOf` */
  function DueStateOf(open: bool, due: Due, now: int, z: Zone): DueState
    requires WallPartsAt(now, z).date.year >= 0
  {
    if !open then Closed
    else if now >= due.at then Overdue
    else if LocalDateAt(now, z) == DueDay(due) then DueToday
    else Upcoming
  }

  lemma CivilIs(n: int, d: Date)
    requires Valid(d)
    ensures Civil(n) == d <==> n == DayNumber(d)
  {
    DayNumberOfCivil(n);
    CivilOfDayNumber(d);
  }

  lemma DayHolds(shown: int, k: int)
    ensures k * DAY_MS <= shown < k * DAY_MS + DAY_MS <==> shown / DAY_MS == k
  {
  }

  /** The clock shows date d at an instant exactly when its local time lies in d's 24 hours. */
  lemma OnDayIsDate(d: Date, z: Zone, t: int)
    requires Valid(d)
    ensures OnDay(z, DateAsUtc(d), t) <==> WallPartsAt(t, z).date == d
  {
    CivilIs(Local(z, t) / DAY_MS, d);
    DayHolds(Local(z, t), DayNumber(d));
  }

  lemma OverdueInstant(z: Zone, w: int, c: int, t: int)
    requires Bounded(z) && ChangesOnceAt(z, w, c) && OnDay(z, w - DAY_MS, t)
    ensures t >= StartOfLocalDay(w, z) <==> c <= t && w - z(w - DAY_MS) * MINUTE_MS < c
  {
    CandidatesAre(w, z, c);
    assert t <= w + DAY_MS;
    if w - DAY_MS <= t { OffsetNear(z, w, c, t); }
  }

  lemma StateOfDate(d: Date, due: Due, now: int, z: Zone)
    requires Supported(d) && due.DateDue? && due.date == FormatDate(d) && WallPartsAt(now, z).date == d
    ensures DueStateOf(true, due, now, z) == if now >= due.at then Overdue else DueToday
  {
  }

  /**
   While the clock still shows its due date an open action reads "due today", except after the clock
   was set back over a midnight it had already shown: then, and only then, it is overdue on its own day.
   */
  lemma DueTodayExact(d: Date, zone: string, z: Zone, c: int, now: int, w: int)
    requires Supported(d) && w == DateAsUtc(Successor(d))
    requires Bounded(z) && ChangesOnceAt(z, w, c) && WallPartsAt(now, z).date == d
    ensures DueStateOf(true, ResolveDate(d, zone, z), now, z)
            == if c <= now && w - z(w - DAY_MS) * MINUTE_MS < c then Overdue else DueToday
  {
    DayAfterIsSuccessor(d);
    DateDueAt(d, zone, z, w);
    OnDayIsDate(d, z, now);
    OverdueInstant(z, w, c, now);
    StateOfDate(d, ResolveDate(d, zone, z), now, z);
  }

  /** The date a due falls on: a date's own, or the one its wall time names. */
  predicate FallsOn(due: Due, d: Date) {
    match due
    case DateDue(date, _, _) => ParseDate(date) == Some(d)
    case TimeDue(local, _, _, _, _) => ParseWall(local).Some? && ParseWall(local).value.date == d
  }

  lemma DueDayIs(due: Due, d: Date)
    requires FallsOn(due, d)
    ensures Supported(d) && DueDay(due) == FormatDate(d)
  {
    match due
    case DateDue(date, _, _) => FormatOfParse(date);
    case TimeDue(local, _, _, _, _) => FormatOfParse(local[..10]);
  }

  lemma LocalDateIs(now: int, z: Zone, d: Date)
    requires Supported(d) && WallPartsAt(now, z).date.year >= 0
    ensures LocalDateAt(now, z) == FormatDate(d) <==> WallPartsAt(now, z).date == d
  {
    DayNumberOfCivil(Local(z, now) / DAY_MS);
    SameTextSameDate(WallPartsAt(now, z).date, d);
  }

  /** The four states of an action, for dates and times: closed, past its instant, on its day before that, or earlier. */
  lemma DueStateExact(open: bool, due: Due, d: Date, now: int, z: Zone)
    requires FallsOn(due, d) && WallPartsAt(now, z).date.year >= 0
    ensures var state := DueStateOf(open, due, now, z);
            && (state == Closed <==> !open)
            && (state == Overdue <==> open && now >= due.at)
            && (state == DueToday <==> open && now < due.at && WallPartsAt(now, z).date == d)
            && (state == Upcoming <==> open && now < due.at && WallPartsAt(now, z).date != d)
  {
    DueDayIs(due, d);
    LocalDateIs(now, z, d);
  }
}
