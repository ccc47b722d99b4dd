// The archive's text: its heading, assembled blocks and the insertion point
// (tools/changelog/main.go).
module ChangelogText {
  import opened Basics

  const Heading := "## Unreleased\n"

  // A fragment that parsed: its file name, category and trimmed body.
  datatype Category = Added | Changed | Deprecated | Removed | Fixed | Security
  datatype Fragment = Fragment(name: string, category: Category, body: string)

  function Word(c: Category): string {
    match c
    case Added => "added"
    case Changed => "changed"
    case Deprecated => "deprecated"
    case Removed => "removed"
    case Fixed => "fixed"
    case Security => "security"
  }

  function Title(c: Category): string {
    match c
    case Added => "Added"
    case Changed => "Changed"
    case Deprecated => "Deprecated"
    case Removed => "Removed"
    case Fixed => "Fixed"
    case Security => "Security"
  }

  function Marker(f: Fragment): string { "<!-- changelog: " + f.name + " -->\n" }

  function Block(f: Fragment): string { Marker(f) + f.body + "\n<!-- /changelog -->\n" }

  // ---- Occurrences ----

  // strings.Index, with the length for "absent".
  function IndexFrom(s: string, t: string, from: nat): (i: nat)
    requires from <= |s|
    ensures from <= i <= |s| && (i < |s| ==> OccursAt(s, t, i))
    ensures forall j :: from <= j < i ==> !OccursAt(s, t, j)
    decreases |s| - from
  {
    if from == |s| || OccursAt(s, t, from) then from else IndexFrom(s, t, from + 1)
  }

  // strings.Count of a non-empty text: occurrences that do not overlap.
  function CountFrom(s: string, t: string, from: nat): nat
    requires from <= |s| && t != ""
    decreases |s| - from
  {
    var i := IndexFrom(s, t, from);
    if i == |s| then 0 else 1 + CountFrom(s, t, i + |t|)
  }

  // The heading is at i and nowhere else.
  ghost predicate OnlyHeading(s: string, i: nat) {
    forall j :: OccursAt(s, Heading, j) <==> j == i
  }

  ghost predicate HasHeading(s: string) { exists i :: OccursAt(s, Heading, i) }

  ghost predicate NoNewline(s: string) { '\n' !in s }

  // Empty, or ending a line.
  ghost predicate Lines(s: string) { s == "" || s[|s| - 1] == '\n' }

  lemma HeadingShape()
    ensures |Heading| == 14 && Heading[13] == '\n' && Heading[12] == 'd' && Heading[3] == 'U'
    ensures forall k :: 0 <= k < 13 ==> Heading[k] != '\n'
    ensures forall k :: 0 <= k < 14 ==> Heading[k] != '<'
  {
    assert Heading == ['#', '#', ' ', 'U', 'n', 'r', 'e', 'l', 'e', 'a', 's', 'e', 'd', '\n'];
  }

  lemma OccursIn(s: string, t: string, i: nat, k: nat)
    requires OccursAt(s, t, i) && k < |t|
    ensures s[i + k] == t[k]
  {
    assert s[i..i + |t|][k] == t[k];
  }

  // Two occurrences of the heading never overlap.
  lemma HeadingsApart(s: string, i: nat, j: nat)
    requires OccursAt(s, Heading, i) && OccursAt(s, Heading, j) && i < j
    ensures i + |Heading| <= j
  {
    hide OccursAt;
    HeadingShape();
    if j < i + 14 {
      OccursIn(s, Heading, i, 13);
      OccursIn(s, Heading, j, i + 13 - j);
    }
  }

  lemma CountZero(s: string, from: nat)
    requires from <= |s|
    ensures CountFrom(s, Heading, from) == 0 <==> forall j :: from <= j ==> !OccursAt(s, Heading, j)
  {
    HeadingShape();
  }

  // Counting non-overlapping occurrences to one says where the only one is.
  lemma CountOne(s: string)
    ensures var i := IndexFrom(s, Heading, 0);
            CountFrom(s, Heading, 0) == 1 <==> OnlyHeading(s, i)
    ensures CountFrom(s, Heading, 0) != 1 ==> forall i: nat :: !OnlyHeading(s, i)
  {
    HeadingShape();
    var i := IndexFrom(s, Heading, 0);
    if i < |s| {
      CountZero(s, i + |Heading|);
      forall j | OccursAt(s, Heading, j) && j != i ensures i + |Heading| <= j {
        HeadingsApart(s, i, j);
      }
    }
    if k: nat :| OnlyHeading(s, k) {
      assert OccursAt(s, Heading, k);
    }
  }

  // ---- Occurrences across a line boundary ----

  lemma Within(a: string, b: string, t: string, i: nat)
    ensures i + |t| <= |a| ==> (OccursAt(a + b, t, i) <==> OccursAt(a, t, i))
    ensures i >= |a| ==> (OccursAt(a + b, t, i) <==> OccursAt(b, t, i - |a|))
  {
    if i + |t| <= |a| { assert (a + b)[i..i + |t|] == a[i..i + |t|]; }
    if |a| <= i && i + |t| <= |a + b| { assert (a + b)[i..i + |t|] == b[i - |a|..i - |a| + |t|]; }
  }

  lemma HeadingOnOneSide(a: string, b: string, i: nat)
    requires Lines(a) && OccursAt(a + b, Heading, i)
    ensures i + |Heading| <= |a| || i >= |a|
  {
    HeadingShape();
    if i < |a| < i + 14 {
      OccursIn(a + b, Heading, i, |a| - 1 - i);
    }
  }

  lemma HeadingSplits(a: string, b: string)
    requires Lines(a)
    ensures HasHeading(a + b) <==> HasHeading(a) || HasHeading(b)
  {
    if i :| OccursAt(a + b, Heading, i) {
      HeadingOnOneSide(a, b, i);
      Within(a, b, Heading, i);
    }
    if i :| OccursAt(a, Heading, i) { Within(a, b, Heading, i); }
    if i :| OccursAt(b, Heading, i) { Within(a, b, Heading, |a| + i); }
  }
}
