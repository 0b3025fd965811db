/**
 An append-only file of one record per line, as a crash can leave it.

 A line parses to a record or does not. Appending writes the record and a newline; an append that a
 crash cut off leaves part of a line, or a whole line that lacks only its newline. What is appended
 behind such a line is glued to it: the text of the record is in the file, but the line does not parse.
 */
module LineLog {

  /** A line that does not parse still holds the whole text of some records. */
  datatype Line<T> = Whole(item: T) | Garbage(parts: seq<T>)

  /** What follows the last newline: nothing, a line that only lacks its newline, or anything else. */
  datatype Tail<T> = Terminated | CutShort(item: T) | Fragment(parts: seq<T>)

  datatype Log<T> = Log(lines: seq<Line<T>>, tail: Tail<T>)

  /** The records whose whole text follows the last newline. */
  function TailParts<T>(tail: Tail<T>): seq<T> {
    match tail
    case Terminated => []
    case CutShort(item) => [item]
    case Fragment(parts) => parts
  }

  /** Appending behind an unterminated line glues the two together. */
  function Appended<T>(log: Log<T>, item: T): Log<T> {
    Log(log.lines + [if log.tail.Terminated? then Whole(item) else Garbage(TailParts(log.tail) + [item])], Terminated)
  }

  /** An append that a crash cut off. */
  function TornAppend<T>(log: Log<T>, item: T, onlyNewlineMissing: bool): Log<T> {
    log.(tail := if log.tail.Terminated? && onlyNewlineMissing then CutShort(item)
                 else Fragment(TailParts(log.tail) + (if onlyNewlineMissing then [item] else [])))
  }

  function LineParts<T>(line: Line<T>): seq<T> {
    if line.Whole? then [line.item] else line.parts
  }

  function LinesHeld<T>(lines: seq<Line<T>>): seq<T> {
    if lines == [] then [] else LinesHeld(lines[..|lines| - 1]) + LineParts(lines[|lines| - 1])
  }

  /** Every record whose whole text is in the file, in order, readable or not. */
  function Held<T>(log: Log<T>): seq<T> {
    LinesHeld(log.lines) + TailParts(log.tail)
  }

  lemma HeldOfAppended<T>(log: Log<T>, item: T)
    ensures Held(Appended(log, item)) == Held(log) + [item]
  {
    assert Appended(log, item).lines[..|log.lines|] == log.lines;
  }

  lemma HeldOfTorn<T>(log: Log<T>, item: T, only: bool)
    ensures Held(TornAppend(log, item, only)) == Held(log) + (if only then [item] else [])
  {
  }

  lemma {:induction false} LinesHeldOfWhole<T>(lines: seq<Line<T>>)
    requires forall i :: 0 <= i < |lines| ==> lines[i].Whole?
    ensures LinesHeld(lines) == LineItems(lines)
  {
    if lines != [] { LinesHeldOfWhole(lines[..|lines| - 1]); }
  }

  /** A readable file holds exactly the records that can be read off it. */
  lemma HeldOfReadable<T>(log: Log<T>)
    requires Readable(log)
    ensures Held(log) == Items(log)
  {
    LinesHeldOfWhole(log.lines);
  }

  function LineItems<T>(lines: seq<Line<T>>): seq<T> {
    if lines == [] then [] else
      var last := lines[|lines| - 1];
      LineItems(lines[..|lines| - 1]) + (if last.Whole? then [last.item] else [])
  }

  /** Every record that can be read off the file, in order. */
  function Items<T>(log: Log<T>): seq<T> {
    LineItems(log.lines) + (if log.tail.CutShort? then [log.tail.item] else [])
  }

  /** Every line parses. */
  predicate Readable<T>(log: Log<T>) {
    !log.tail.Fragment? && forall i :: 0 <= i < |log.lines| ==> log.lines[i].Whole?
  }

  /** A file that was only ever appended to without interruption. */
  function Written<T>(items: seq<T>): Log<T> {
    Log(seq(|items|, i requires 0 <= i < |items| => Whole(items[i])), Terminated)
  }

  lemma ItemsOfAppended<T>(log: Log<T>, item: T)
    ensures Items(Appended(log, item)) == LineItems(log.lines) + (if log.tail.Terminated? then [item] else [])
    ensures log.tail.Terminated? ==> Items(Appended(log, item)) == Items(log) + [item]
  {
    var lines := Appended(log, item).lines;
    assert lines[..|log.lines|] == log.lines;
  }

  lemma {:induction false} ItemsOfWritten<T>(items: seq<T>)
    ensures Items(Written(items)) == items && Readable(Written(items))
  {
    if items != [] {
      var init, last := items[..|items| - 1], items[|items| - 1];
      ItemsOfWritten(init);
      assert Written(items).lines[..|items| - 1] == Written(init).lines;
      assert items == init + [last];
    }
  }

  /** Only a file that was readable and ended in a newline is readable after an append. */
  lemma ReadableAfterAppend<T>(log: Log<T>, item: T)
    ensures Readable(Appended(log, item)) <==> Readable(log) && log.tail.Terminated?
  {
    var lines := Appended(log, item).lines;
    if Readable(Appended(log, item)) {
      assert lines[|log.lines|].Whole?;
      forall i | 0 <= i < |log.lines|
        ensures log.lines[i].Whole?
      {
        assert lines[i].Whole?;
      }
    }
  }
}
