/** The names of trash entries, and how recovery reads the root id back out of one. */
module TrashNames {
  import opened Basics

  const TRASH_PREFIX := "evict--"

  function TrashNameFor(root: string, tag: string): string {
    TRASH_PREFIX + root + "--" + tag
  }

  predicate DoubleAt(s: string, i: int) {
    0 <= i && i + 1 < |s| && s[i] == '-' && s[i + 1] == '-'
  }

  predicate HasDouble(s: string) {
    exists i :: 0 <= i < |s| && DoubleAt(s, i)
  }

  /** Where the first double hyphen starts; the end when there is none. */
  function FirstDouble(s: string): nat {
    if s == [] then 0 else if DoubleAt(s, 0) then 0 else 1 + FirstDouble(s[1..])
  }

  /** The part of a name after the prefix and before the next double hyphen. */
  function RootOf(name: string): Option<string> {
    if |name| < |TRASH_PREFIX| || name[..|TRASH_PREFIX|] != TRASH_PREFIX then None
    else FirstDoubleIs(name[|TRASH_PREFIX|..]); Some(name[|TRASH_PREFIX|..][..FirstDouble(name[|TRASH_PREFIX|..])])
  }

  lemma {:induction false} FirstDoubleIs(s: string)
    ensures FirstDouble(s) <= |s| && (FirstDouble(s) < |s| ==> DoubleAt(s, FirstDouble(s)))
    ensures forall i :: 0 <= i < FirstDouble(s) ==> !DoubleAt(s, i)
  {
    if s != [] && !DoubleAt(s, 0) {
      FirstDoubleIs(s[1..]);
      forall i | 0 <= i < FirstDouble(s) ensures !DoubleAt(s, i) {
        if i > 0 { assert DoubleAt(s, i) <==> DoubleAt(s[1..], i - 1); }
      }
    }
  }

  /** The only double hyphens before the tag are those of the root with one hyphen behind it, and the separator. */
  lemma DoublesBeforeTag(root: string, tag: string, i: nat)
    requires i < |root|
    ensures DoubleAt(root + "--" + tag, i) <==> DoubleAt(root + "-", i)
  {
    var s := root + "--" + tag;
    assert s[i] == root[i];
    assert i + 1 < |root| ==> s[i + 1] == root[i + 1];
    assert i + 1 == |root| ==> s[i + 1] == '-';
  }

  /** Two evicted roots that would be read back as another one. */
  lemma RootMisread(tag: string)
    ensures RootOf(TrashNameFor("a--b", tag)) == Some("a") && RootOf(TrashNameFor("a-", tag)) == Some("a")
  {
    MisreadAt("a--b", tag);
    MisreadAt("a-", tag);
  }

  lemma MisreadAt(root: string, tag: string)
    requires |root| >= 2 && root[0] == 'a' && DoubleAt(root + "-", 1)
    ensures RootOf(TrashNameFor(root, tag)) == Some("a")
  {
    var name, s := TrashNameFor(root, tag), root + "--" + tag;
    assert name[..|TRASH_PREFIX|] == TRASH_PREFIX && name[|TRASH_PREFIX|..] == s;
    DoublesBeforeTag(root, tag, 1);
    FirstDoubleIs(s);
    assert s[0] == 'a' && FirstDouble(s) == 1;
    assert s[..1] == "a";
  }

  /** Recovery reads the right root exactly when the root neither holds a double hyphen nor ends in a hyphen. */
  lemma RootOfTrashName(root: string, tag: string)
    ensures RootOf(TrashNameFor(root, tag)) == Some(root) <==> !HasDouble(root + "-")
  {
    var name, s := TrashNameFor(root, tag), root + "--" + tag;
    assert name[..|TRASH_PREFIX|] == TRASH_PREFIX && name[|TRASH_PREFIX|..] == s;
    var k := FirstDouble(s);
    FirstDoubleIs(s);
    assert DoubleAt(s, |root|);
    assert k <= |root|;
    assert RootOf(name) == Some(s[..k]);
    assert s[..k] == root <==> k == |root| by {
      if k == |root| { assert s[..k] == root; }
    }
    if k < |root| {
      DoublesBeforeTag(root, tag, k);
      assert DoubleAt(root + "-", k);
    } else {
      forall i | 0 <= i < |root + "-"| ensures !DoubleAt(root + "-", i) {
        if i < |root| { DoublesBeforeTag(root, tag, i); }
      }
    }
  }
}
