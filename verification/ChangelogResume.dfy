// The resume law of assembly, and runs that crash between the archive's write
// and the removal of its fragments.
module ChangelogResume {
  import opened Basics
  import opened ChangelogText
  import opened Changelog
  import opened ChangelogLaws

  // ---- The addition ----

  predicate Unassembled(text: string, f: Fragment) { !Includes(text, Marker(f)) }

  lemma {:induction false} MissingMembers(text: string, fragments: seq<Fragment>, c: Category)
    ensures forall f :: f in Missing(text, fragments, c) <==> f in fragments && f.category == c && Unassembled(text, f)
  {
    hide Includes, Marker;
    if fragments != [] {
      MissingMembers(text, fragments[1..], c);
      assert fragments == [fragments[0]] + fragments[1..];
    }
  }

  // A fragment of these categories that is yet to be assembled is misleading.
  ghost predicate MisleadingLeft(text: string, fragments: seq<Fragment>, categories: seq<Category>) {
    exists f :: f in fragments && f.category in categories && Unassembled(text, f) && Misleading(f)
  }

  lemma MisleadingSplits(text: string, fragments: seq<Fragment>, c: Category, rest: seq<Category>)
    ensures MisleadingLeft(text, fragments, [c] + rest) <==>
            SomeMisleading(Missing(text, fragments, c)) || MisleadingLeft(text, fragments, rest)
  {
    MissingMembers(text, fragments, c);
    hide Missing, Misleading, Unassembled;
  }

  lemma {:induction false} SectionsHeading(text: string, fragments: seq<Fragment>, categories: seq<Category>)
    requires AllWellFormed(fragments)
    ensures Lines(Sections(text, fragments, categories))
    ensures HasHeading(Sections(text, fragments, categories)) <==> MisleadingLeft(text, fragments, categories)
    decreases |categories|
  {
    NewlinePlain();
    if categories != [] {
      var c, rest := categories[0], categories[1..];
      var missing := Missing(text, fragments, c);
      assert AllWellFormed(missing) by { MissingMembers(text, fragments, c); }
      SectionHeading(c, missing);
      SectionsHeading(text, fragments, rest);
      hide HasHeading, Section, Missing, MisleadingLeft, SomeMisleading, WellFormed;
      HeadingSplits(Section(c, missing), Sections(text, fragments, rest));
      assert categories == [c] + rest;
      MisleadingSplits(text, fragments, c, rest);
    }
  }

  lemma IncludesBetween(a: string, s: string, b: string, t: string)
    requires Includes(s, t)
    ensures Includes(a + s + b, t) && Includes(s + b, t) && Includes(a + s, t)
  {
    var i :| 0 <= i <= |s| && OccursAt(s, t, i);
    assert (a + s + b)[|a| + i..|a| + i + |t|] == s[i..i + |t|];
    assert OccursAt(a + s + b, t, |a| + i);
    assert (s + b)[i..i + |t|] == s[i..i + |t|];
    assert OccursAt(s + b, t, i);
    assert (a + s)[|a| + i..|a| + i + |t|] == s[i..i + |t|];
    assert OccursAt(a + s, t, |a| + i);
  }

  lemma IncludesItself(s: string)
    ensures Includes(s, s)
  {
    assert s[0..|s|] == s;
    assert OccursAt(s, s, 0);
  }

  lemma {:induction false} BlocksInclude(fragments: seq<Fragment>, f: Fragment)
    requires f in fragments
    ensures Includes(Blocks(fragments), Block(f))
  {
    var first, rest := fragments[0], fragments[1..];
    hide Block, Includes;
    IncludesItself(Block(f));
    if f == first {
      IncludesBetween("", Block(f), "\n", Block(f));
      IncludesBetween("", Block(f) + "\n", Blocks(rest), Block(f));
    } else {
      assert f in rest by { assert fragments == [first] + rest; }
      BlocksInclude(rest, f);
      IncludesBetween(Block(first) + "\n", Blocks(rest), "", Block(f));
    }
  }

  lemma {:induction false} SectionsInclude(text: string, fragments: seq<Fragment>, categories: seq<Category>,
                                           f: Fragment)
    requires f in fragments && f.category in categories && Unassembled(text, f)
    ensures Includes(Sections(text, fragments, categories), Block(f))
    decreases |categories|
  {
    var c, rest := categories[0], categories[1..];
    var missing := Missing(text, fragments, c);
    hide Block, Includes, Unassembled, Missing;
    var head, tail := Section(c, missing), Sections(text, fragments, rest);
    if f.category == c {
      MissingMembers(text, fragments, c);
      BlocksInclude(missing, f);
      IncludesBetween(SectionTitle(c), Blocks(missing), tail, Block(f));
    } else {
      assert f.category in rest by { assert categories == [c] + rest; }
      SectionsInclude(text, fragments, rest, f);
      IncludesBetween(head, tail, "", Block(f));
    }
  }

  lemma {:induction false} SectionsEmpty(text: string, fragments: seq<Fragment>, categories: seq<Category>)
    requires forall f :: f in fragments ==> !Unassembled(text, f)
    ensures Sections(text, fragments, categories) == ""
    decreases |categories|
  {
    if categories != [] {
      MissingMembers(text, fragments, categories[0]);
      var missing := Missing(text, fragments, categories[0]);
      assert forall f :: f !in missing;
      SectionsEmpty(text, fragments, categories[1..]);
    }
  }

  lemma {:induction false} SectionsStart(text: string, fragments: seq<Fragment>, categories: seq<Category>)
    ensures var s := Sections(text, fragments, categories); s == "" || (|s| > 2 && s[0] == '#')
    decreases |categories|
  {
    if categories != [] {
      SectionsStart(text, fragments, categories[1..]);
      var head := Section(categories[0], Missing(text, fragments, categories[0]));
      if head != "" { assert head[0] == "### "[0] && |head| > 2; }
    }
  }

  // ---- The insertion ----

  // The archive before and after: everything up to the end of the heading, an
  // empty line, what is added, and everything below the empty line.
  lemma InsertedShape(text: string, addition: string, i: nat)
    requires OnlyHeading(text, i)
    ensures i + 14 <= |text| && |Heading| == 14
    ensures var p := InsertionPoint(text);
            && i + 14 <= p <= i + 15 && (p == i + 15 ==> text[i + 14] == '\n')
            && Inserted(text, addition) == text[..i + 14] + ("\n" + addition) + text[p..]
  {
    HeadingShape();
    assert OccursAt(text, Heading, i);
    var p := InsertionPoint(text);
    var prefix := text[..p];
    assert IndexFrom(text, Heading, 0) == i;
    OccursIn(text, Heading, i, 13);
    OccursIn(text, Heading, i, 12);
    if p == i + 15 {
      assert text[i + 14..][0] == '\n';
      assert prefix == text[..i + 14] + "\n";
      assert prefix[p - 2..] == "\n\n";
    } else {
      assert prefix[p - 2..][0] == 'd';
    }
  }

  // The heading stays the only one exactly when the addition has none.
  lemma HeadingStaysOnly(text: string, addition: string, i: nat)
    requires OnlyHeading(text, i) && Lines(addition) && !HasHeading(addition)
    ensures OnlyHeading(Inserted(text, addition), i)
  {
    InsertedShape(text, addition, i);
    NewlinePlain();
    var r, p := Inserted(text, addition), InsertionPoint(text);
    var head, middle, tail := text[..i + 14], "\n" + addition, text[p..];
    assert OccursAt(text, Heading, i);
    assert Lines(head) by { HeadingShape(); OccursIn(text, Heading, i, 13); }
    assert Lines(middle);
    HeadingSplits("\n", addition);
    assert r == head + (middle + tail) && text == head + text[i + 14..];
    Within(head, middle + tail, Heading, i);
    Within(head, text[i + 14..], Heading, i);
    forall j | OccursAt(r, Heading, j) ensures j == i {
      HeadingOnOneSide(head, middle + tail, j);
      Within(head, middle + tail, Heading, j);
      Within(head, text[i + 14..], Heading, j);
      if j >= |head| { NoHeadingBelow(text, i, p, middle, j - |head|); }
    }
  }

  lemma NoHeadingBelow(text: string, i: nat, p: nat, middle: string, k: nat)
    requires OnlyHeading(text, i) && i < p <= |text| && Lines(middle) && !HasHeading(middle)
    ensures !OccursAt(middle + text[p..], Heading, k)
  {
    if OccursAt(middle + text[p..], Heading, k) {
      HeadingOnOneSide(middle, text[p..], k);
      Within(middle, text[p..], Heading, k);
      assert text == text[..p] + text[p..];
      if k >= |middle| { Within(text[..p], text[p..], Heading, p + k - |middle|); }
    }
  }

  lemma HeadingDoubles(text: string, addition: string, i: nat)
    requires OnlyHeading(text, i) && HasHeading(addition)
    ensures CountFrom(Inserted(text, addition), Heading, 0) != 1
  {
    hide OccursAt, Inserted, InsertionPoint, CountFrom;
    InsertedShape(text, addition, i);
    var r, p := Inserted(text, addition), InsertionPoint(text);
    var head, tail := text[..i + 14], text[p..];
    var k :| OccursAt(addition, Heading, k);
    assert OccursAt(text, Heading, i);
    HeadingAtCut(text, i, ("\n" + addition) + tail);
    Join(head, "\n" + addition, tail);
    HeadingInMiddle(head, addition, tail, k);
    hide OnlyHeading, HasHeading;
    TwoHeadings(r, i, |head| + 1 + k);
  }

  lemma Join(a: string, b: string, c: string)
    ensures a + (b + c) == a + b + c
  {
  }

  lemma HeadingInMiddle(head: string, addition: string, tail: string, k: int)
    requires OccursAt(addition, Heading, k)
    ensures 0 <= k && OccursAt(head + ("\n" + addition) + tail, Heading, |head| + 1 + k)
  {
    Within(addition, tail, Heading, k);
    Within(head + "\n", addition + tail, Heading, |head| + 1 + k);
    assert head + ("\n" + addition) + tail == (head + "\n") + (addition + tail);
  }

  lemma TwoHeadings(s: string, i: nat, j: nat)
    requires OccursAt(s, Heading, i) && OccursAt(s, Heading, j) && i != j
    ensures CountFrom(s, Heading, 0) != 1
  {
    CountOne(s);
  }

  lemma HeadingAtCut(text: string, i: nat, below: string)
    requires OccursAt(text, Heading, i) && i + 14 <= |text|
    ensures OccursAt(text[..i + 14] + below, Heading, i)
  {
    HeadingShape();
    assert text == text[..i + 14] + text[i + 14..];
    Within(text[..i + 14], text[i + 14..], Heading, i);
    Within(text[..i + 14], below, Heading, i);
  }

  // ---- Blocks around the insertion ----

  lemma OccursThrough(s: string, t: string, u: string, q: nat, h: nat)
    requires OccursAt(s, t, q) && OccursAt(t, u, h)
    ensures OccursAt(s, u, q + h)
  {
    forall k | 0 <= k < |u| ensures s[q + h + k] == u[k] {
      OccursIn(s, t, q, h + k);
      OccursIn(t, u, h, k);
    }
    assert s[q + h..q + h + |u|] == u;
  }

  lemma OccursInside(s: string, t: string, u: string, q: nat, i: nat)
    requires OccursAt(s, t, q) && OccursAt(s, u, i) && q <= i && i + |u| <= q + |t|
    ensures OccursAt(t, u, i - q)
  {
    forall k | 0 <= k < |u| ensures t[i - q + k] == u[k] {
      OccursIn(s, t, q, i - q + k);
      OccursIn(s, u, i, k);
    }
    assert t[i - q..i - q + |u|] == u;
  }

  lemma OccursInPart(s: string, t: string, q: nat, n: nat)
    requires OccursAt(s, t, q) && n <= |s|
    ensures q + |t| <= n ==> Includes(s[..n], t)
    ensures n <= q ==> Includes(s[n..], t)
  {
    assert s == s[..n] + s[n..];
    Within(s[..n], s[n..], t, q);
    if q + |t| <= n { assert OccursAt(s[..n], t, q); }
    if n <= q { assert OccursAt(s[n..], t, q - n); }
  }

  lemma NotAcross(text: string, i: nat, p: nat, block: string, q: nat)
    requires OccursAt(text, Heading, i) && i + 14 <= p <= i + 15 && p <= |text|
    requires p == i + 15 ==> text[i + 14] == '\n'
    requires OccursAt(text, block, q) && block != "" && block[0] == '<' && !HasHeading(block)
    ensures q + |block| <= i + 14 || p <= q
  {
    HeadingShape();
    if q < p && i + 14 < q + |block| {
      OccursIn(text, block, q, 0);
      if q <= i {
        OccursInside(text, block, Heading, q, i);
      } else if q < i + 14 {
        OccursIn(text, Heading, i, q - i);
        assert false;
      }
    }
  }

  // A block without a heading of its own is on one side of the insertion.
  lemma BlockSurvives(text: string, addition: string, i: nat, f: Fragment)
    requires OnlyHeading(text, i) && Includes(text, Block(f)) && WellFormed(f) && !Misleading(f)
    ensures Includes(Inserted(text, addition), Block(f))
  {
    InsertedShape(text, addition, i);
    BlockHeading(f);
    var p, block := InsertionPoint(text), Block(f);
    assert OccursAt(text, Heading, i);
    var q :| 0 <= q <= |text| && OccursAt(text, block, q);
    hide Block, Inserted, InsertionPoint, Includes, OccursAt, HasHeading, WellFormed, Misleading;
    NotAcross(text, i, p, block, q);
    OccursInPart(text, block, q, i + 14);
    OccursInPart(text, block, q, p);
    if q + |block| <= i + 14 {
      IncludesBetween("", text[..i + 14], "\n" + addition, block);
      IncludesBetween("", text[..i + 14] + ("\n" + addition), text[p..], block);
    } else {
      IncludesBetween(text[..i + 14] + ("\n" + addition), text[p..], "", block);
    }
  }

  // What is at the insertion point of the new archive.
  lemma InsertedAt(text: string, addition: string, i: nat)
    requires OnlyHeading(text, i) && addition != ""
    ensures i + 14 <= |text|
    ensures var r := Inserted(text, addition);
            i + 15 < |r| && r[i + 14] == '\n' && r[i + 15] == addition[0]
    ensures forall t :: Includes(text[..i + 14], t) ==> Includes(Inserted(text, addition), t)
  {
    InsertedShape(text, addition, i);
    var r, p := Inserted(text, addition), InsertionPoint(text);
    hide Inserted, Includes, OnlyHeading;
    forall t | Includes(text[..i + 14], t) ensures Includes(r, t) {
      IncludesBetween("", text[..i + 14], "\n" + addition, t);
      IncludesBetween("", text[..i + 14] + ("\n" + addition), text[p..], t);
    }
  }

  // A misleading block already in the archive holds its only heading, so an
  // insertion cuts it: its marker stays and the block is gone.
  lemma BlockCut(text: string, addition: string, i: nat, f: Fragment)
    requires OnlyHeading(text, i) && OnlyHeading(Inserted(text, addition), i)
    requires addition != "" && addition[0] == '#'
    requires Includes(text, Block(f)) && WellFormed(f) && Misleading(f)
    ensures Conflicts(Inserted(text, addition), f)
  {
    var r, block := Inserted(text, addition), Block(f);
    InsertedAt(text, addition, i);
    BlockHeading(f);
    var h :| OccursAt(block, Heading, h);
    var q :| 0 <= q <= |text| && OccursAt(text, block, q);
    assert OccursAt(text, Heading, q + h) by { OccursThrough(text, block, Heading, q, h); }
    assert Includes(r, Marker(f)) by { MarkerKept(text, f, i, q, h); }
    hide Includes, OccursAt, Block, Marker, Inserted;
    BlockGone(r, f, i, h);
  }

  lemma BlockGone(r: string, f: Fragment, i: nat, h: nat)
    requires OnlyHeading(r, i) && i + 15 < |r| && r[i + 14] == '\n' && r[i + 15] == '#'
    requires WellFormed(f) && OccursAt(Block(f), Heading, h)
    ensures !Includes(r, Block(f))
  {
    hide OccursAt, Block;
    BlockAfterHeading(f, h);
    if s :| 0 <= s <= |r| && OccursAt(r, Block(f), s) { NotAt(r, Block(f), i, h, s); }
  }

  lemma NotAt(r: string, block: string, i: nat, h: nat, s: nat)
    requires OnlyHeading(r, i) && i + 15 < |r| && r[i + 14] == '\n' && r[i + 15] == '#'
    requires OccursAt(block, Heading, h)
    requires h + 15 < |block| && !(block[h + 14] == '\n' && block[h + 15] == '#')
    ensures !OccursAt(r, block, s)
  {
    hide OccursAt;
    if OccursAt(r, block, s) {
      OccursThrough(r, block, Heading, s, h);
      OccursIn(r, block, s, h + 14);
      OccursIn(r, block, s, h + 15);
    }
  }

  lemma MarkerKept(text: string, f: Fragment, i: nat, q: nat, h: nat)
    requires WellFormed(f) && OccursAt(text, Block(f), q) && OccursAt(Block(f), Heading, h)
    requires q + h == i && i + 14 <= |text|
    ensures Includes(text[..i + 14], Marker(f))
  {
    MarkerBeforeHeading(f, h);
    assert OccursAt(Block(f), Marker(f), 0) by { BlockHeading(f); }
    OccursThrough(text, Block(f), Marker(f), q, 0);
    OccursInPart(text, Marker(f), q, i + 14);
  }

  lemma MarkerBeforeHeading(f: Fragment, h: nat)
    requires WellFormed(f) && OccursAt(Block(f), Heading, h)
    ensures |Marker(f)| <= h
  {
    MarkerPlain(f);
    BlockParts(f);
    var rest := (f.body + "\n") + Closing;
    HeadingOnOneSide(Marker(f), rest, h);
    Within(Marker(f), rest, Heading, h);
  }

  // Below a heading in a block comes no empty line followed by a hash.
  lemma BlockAfterHeading(f: Fragment, h: nat)
    requires WellFormed(f) && OccursAt(Block(f), Heading, h)
    ensures h + 15 < |Block(f)| && !(Block(f)[h + 14] == '\n' && Block(f)[h + 15] == '#')
  {
    HeadingShape();
    MarkerBeforeHeading(f, h);
    BlockParts(f);
    var m, b := |Marker(f)|, f.body;
    var rest := (b + "\n") + Closing;
    Within(Marker(f), rest, Heading, h);
    var k := h - m;
    HeadingOnOneSide(b + "\n", Closing, k);
    Within(b + "\n", Closing, Heading, k);
    assert Closing == "<!-- /changelog -->" + "\n";
    LineHasNoHeading("<!-- /changelog -->");
    assert k + 14 <= |b| + 1;
    assert Block(f)[h + 14] == rest[k + 14] && Block(f)[h + 15] == rest[k + 15];
    assert Closing[0] == '<';
  }

  // ---- The resume law ----

  lemma AssembledHeading(text: string, fragments: seq<Fragment>) returns (i: nat)
    requires Assemble(text, fragments).Ok?
    ensures OnlyHeading(text, i) && i == IndexFrom(text, Heading, 0)
  {
    CountOne(text);
    i := IndexFrom(text, Heading, 0);
  }

  // After the heading and, if there is one, the empty line below it.
  ghost predicate BelowHeading(text: string, p: nat) {
    exists h: nat :: OccursAt(text, "## Unreleased\n", h)
                     && p == h + 14 + if h + 14 < |text| && text[h + 14] == '\n' then 1 else 0
  }

  lemma InsertedBelow(text: string)
    requires CountFrom(text, Heading, 0) == 1
    ensures BelowHeading(text, InsertionPoint(text))
  {
    HeadingShape();
    var h := IndexFrom(text, Heading, 0);
    assert h < |text| && OccursAt(text, Heading, h);
    assert h + 14 < |text| ==> text[h + 14..][..1] == [text[h + 14]];
  }

  // A section: its title and its blocks, or nothing.
  function Titled(title: string, missing: seq<Fragment>): string {
    if missing == [] then "" else "### " + title + "\n\n" + Bullets(missing)
  }

  function Bullets(missing: seq<Fragment>): string {
    if missing == [] then ""
    else "<!-- changelog: " + missing[0].name + " -->\n" + missing[0].body + "\n<!-- /changelog -->\n" + "\n"
         + Bullets(missing[1..])
  }

  lemma {:induction false} BlocksAreBullets(missing: seq<Fragment>)
    ensures Blocks(missing) == Bullets(missing)
  {
    if missing != [] { BlocksAreBullets(missing[1..]); }
  }

  lemma SectionIsTitled(c: Category, title: string, missing: seq<Fragment>)
    requires Title(c) == title
    ensures Section(c, missing) == Titled(title, missing)
  {
    BlocksAreBullets(missing);
    assert "### " + title + "\n\n" == SectionTitle(c);
  }

  // What is added, spelled out: the sections in this order, each with its
  // fragments in file order.
  lemma AdditionSpelledOut(text: string, fragments: seq<Fragment>)
    ensures Addition(text, fragments)
         == Titled("Added", Missing(text, fragments, Added)) + Titled("Changed", Missing(text, fragments, Changed))
            + Titled("Deprecated", Missing(text, fragments, Deprecated))
            + Titled("Removed", Missing(text, fragments, Removed)) + Titled("Fixed", Missing(text, fragments, Fixed))
            + Titled("Security", Missing(text, fragments, Security))
  {
    SectionIsTitled(Added, "Added", Missing(text, fragments, Added));
    SectionIsTitled(Changed, "Changed", Missing(text, fragments, Changed));
    SectionIsTitled(Deprecated, "Deprecated", Missing(text, fragments, Deprecated));
    SectionIsTitled(Removed, "Removed", Missing(text, fragments, Removed));
    SectionIsTitled(Fixed, "Fixed", Missing(text, fragments, Fixed));
    SectionIsTitled(Security, "Security", Missing(text, fragments, Security));
    hide Section, Titled, Missing;
    SectionsOfSix(text, fragments, Categories);
  }

  lemma SectionsOfSix(text: string, fragments: seq<Fragment>, s: seq<Category>)
    requires |s| == 6
    ensures Sections(text, fragments, s)
         == Part(text, fragments, s[0]) + Part(text, fragments, s[1]) + Part(text, fragments, s[2])
            + Part(text, fragments, s[3]) + Part(text, fragments, s[4]) + Part(text, fragments, s[5])
  {
    hide Section, Missing;
    SectionsFrom(text, fragments, s, 0);
    SectionsFrom(text, fragments, s, 1);
    SectionsFrom(text, fragments, s, 2);
    SectionsFrom(text, fragments, s, 3);
    SectionsFrom(text, fragments, s, 4);
    SectionsFrom(text, fragments, s, 5);
    assert s[0..] == s && Sections(text, fragments, s[6..]) == "";
  }

  function Part(text: string, fragments: seq<Fragment>, c: Category): string {
    Section(c, Missing(text, fragments, c))
  }

  lemma SectionsFrom(text: string, fragments: seq<Fragment>, s: seq<Category>, i: nat)
    requires i < |s|
    ensures Sections(text, fragments, s[i..])
         == Part(text, fragments, s[i]) + Sections(text, fragments, s[i + 1..])
  {
    assert s[i..][1..] == s[i + 1..];
  }

  // The old archive is a prefix and a suffix around one insertion, with at
  // most one newline beside what was added.
  lemma ArchiveSurvives(text: string, fragments: seq<Fragment>)
    requires Assemble(text, fragments).Ok?
    ensures var r, p := Assemble(text, fragments).value, InsertionPoint(text);
            && (r == text || exists gap :: gap in ["", "\n"]
                                          && r == text[..p] + gap + Addition(text, fragments) + text[p..])
            && BelowHeading(text, p)
  {
    InsertedBelow(text);
    InsertedAround(text, Addition(text, fragments));
    hide Addition, InsertionPoint, CountFrom, Conflicts, Inserted, BelowHeading;
  }

  lemma InsertedAround(text: string, addition: string)
    ensures var r, p := Inserted(text, addition), InsertionPoint(text);
            exists gap :: gap in ["", "\n"] && r == text[..p] + gap + addition + text[p..]
  {
    var r, p := Inserted(text, addition), InsertionPoint(text);
    hide InsertionPoint;
    if |text[..p]| >= 2 && text[..p][p - 2..] == "\n\n" {
      assert r == text[..p] + "" + addition + text[p..] && "" in ["", "\n"];
    } else {
      assert r == text[..p] + "\n" + addition + text[p..] && "\n" in ["", "\n"];
    }
  }

  // Without misleading lines, the new archive has one heading and every block.
  lemma AssembledHolds(text: string, fragments: seq<Fragment>)
    requires AllWellFormed(fragments) && !SomeMisleading(fragments) && Assemble(text, fragments).Ok?
    ensures var r := Assemble(text, fragments).value;
            && CountFrom(r, Heading, 0) == 1
            && forall f :: f in fragments ==> Includes(r, Block(f))
  {
    var i := AssembledHeading(text, fragments);
    var addition, r := Addition(text, fragments), Assemble(text, fragments).value;
    SectionsHeading(text, fragments, Categories);
    hide Sections, Block, CountFrom, HasHeading, Includes, WellFormed, Misleading;
    if addition != "" {
      HeadingStaysOnly(text, addition, i);
      CountOne(r);
      OnlyHeadingUnique(r, i, IndexFrom(r, Heading, 0));
    }
    forall f | f in fragments ensures Includes(r, Block(f)) {
      EveryCategory(f.category);
      if Unassembled(text, f) {
        SectionsInclude(text, fragments, Categories, f);
        BlockNonEmpty(addition, f);
        AdditionIncluded(text, addition, i, Block(f));
      } else {
        assert !Conflicts(text, f) && !Misleading(f);
        if addition != "" { BlockSurvives(text, addition, i, f); }
      }
    }
  }

  lemma OnlyHeadingUnique(s: string, i: nat, j: nat)
    requires OnlyHeading(s, i)
    ensures OnlyHeading(s, j) <==> i == j
  {
    assert OccursAt(s, Heading, i);
  }

  lemma BlockNonEmpty(addition: string, f: Fragment)
    requires Includes(addition, Block(f))
    ensures addition != ""
  {
  }

  lemma AdditionIncluded(text: string, addition: string, i: nat, t: string)
    requires OnlyHeading(text, i) && Includes(addition, t)
    ensures Includes(Inserted(text, addition), t)
  {
    InsertedShape(text, addition, i);
    var p := InsertionPoint(text);
    hide Includes, Inserted, InsertionPoint, OnlyHeading;
    IncludesBetween("\n", addition, "", t);
    IncludesBetween(text[..i + 14], "\n" + addition, text[p..], t);
  }

  ghost predicate Subset(some: seq<Fragment>, all: seq<Fragment>) {
    forall f :: f in some ==> f in all
  }

  lemma MarkerInBlock(text: string, f: Fragment)
    requires Includes(text, Block(f))
    ensures Includes(text, Marker(f))
  {
    var q :| 0 <= q <= |text| && OccursAt(text, Block(f), q);
    assert Block(f)[..|Marker(f)|] == Marker(f);
    assert OccursAt(Block(f), Marker(f), 0);
    OccursThrough(text, Block(f), Marker(f), q, 0);
    OccursInPart(text, Marker(f), q, 0);
    assert text[0..] == text;
  }

  // Fragments whose blocks are all in the archive change nothing.
  lemma NothingLeft(text: string, some: seq<Fragment>)
    requires CountFrom(text, Heading, 0) == 1 && forall f :: f in some ==> Includes(text, Block(f))
    ensures Assemble(text, some) == Ok(text)
  {
    forall f | f in some ensures !Unassembled(text, f) && !Conflicts(text, f) { MarkerInBlock(text, f); }
    SectionsEmpty(text, some, Categories);
  }

  lemma Resumes(text: string, fragments: seq<Fragment>, left: seq<Fragment>)
    requires AllWellFormed(fragments) && !SomeMisleading(fragments) && Subset(left, fragments)
    requires Assemble(text, fragments).Ok?
    ensures var r := Assemble(text, fragments).value; Assemble(r, left) == Ok(r)
  {
    AssembledHolds(text, fragments);
    NothingLeft(Assemble(text, fragments).value, left);
  }

  // Assembling any of the fragments again is a success that changes nothing,
  // exactly when nothing was added or no body line ends like the heading.
  lemma ResumesExactly(text: string, fragments: seq<Fragment>)
    requires AllWellFormed(fragments) && Assemble(text, fragments).Ok?
    ensures var r := Assemble(text, fragments).value;
            (forall left :: Subset(left, fragments) ==> Assemble(r, left) == Ok(r)) <==>
            (Addition(text, fragments) == "" || !SomeMisleading(fragments))
  {
    var r := Assemble(text, fragments).value;
    if Addition(text, fragments) == "" {
      forall left | Subset(left, fragments) ensures Assemble(r, left) == Ok(r) { NothingAdded(text, fragments, left); }
    } else if !SomeMisleading(fragments) {
      forall left | Subset(left, fragments) ensures Assemble(r, left) == Ok(r) { Resumes(text, fragments, left); }
    } else {
      var left := CannotResume(text, fragments);
      assert Subset(left, fragments) && Assemble(r, left) != Ok(r);
    }
  }

  lemma NothingAdded(text: string, fragments: seq<Fragment>, left: seq<Fragment>)
    requires Assemble(text, fragments).Ok? && Addition(text, fragments) == "" && Subset(left, fragments)
    ensures Assemble(text, left) == Ok(text)
  {
    hide Block, Marker, Includes, CountFrom;
    forall f | f in left ensures !Unassembled(text, f) {
      EveryCategory(f.category);
      if Unassembled(text, f) {
        SectionsInclude(text, fragments, Categories, f);
        BlockNonEmpty("", f);
      }
    }
    SectionsEmpty(text, left, Categories);
    assert forall f :: f in left ==> !Conflicts(text, f);
  }

  lemma CannotResume(text: string, fragments: seq<Fragment>) returns (left: seq<Fragment>)
    requires AllWellFormed(fragments) && Assemble(text, fragments).Ok?
    requires Addition(text, fragments) != "" && SomeMisleading(fragments)
    ensures Subset(left, fragments) && Assemble(Assemble(text, fragments).value, left) == Err
  {
    var i := AssembledHeading(text, fragments);
    var addition, r := Addition(text, fragments), Assemble(text, fragments).value;
    SectionsHeading(text, fragments, Categories);
    if HasHeading(addition) {
      HeadingDoubles(text, addition, i);
      left := [];
    } else {
      var f :| f in fragments && Misleading(f);
      left := [f];
      EveryCategory(f.category);
      assert !Unassembled(text, f) && !Conflicts(text, f);
      HeadingStaysOnly(text, addition, i);
      SectionsStart(text, fragments, Categories);
      BlockCut(text, addition, i, f);
      assert f in left;
    }
  }

  // ---- Runs ----

  datatype Files = Files(archive: string, pending: seq<Fragment>)

  // A run that stopped after so many file operations: the archive's write, then
  // the removals in order. A refused run touches nothing.
  function Stopped(s: Files, operations: nat): Files {
    match Assemble(s.archive, s.pending)
    case Err => s
    case Ok(r) =>
      if operations == 0 then s
      else if operations > |s.pending| then Files(r, [])
      else Files(r, s.pending[operations - 1..])
  }

  function Finished(s: Files): Files { Stopped(s, |s.pending| + 1) }

  function AfterCrashes(s: Files, crashes: seq<nat>): Files
    decreases |crashes|
  {
    if crashes == [] then s else AfterCrashes(Stopped(s, crashes[0]), crashes[1..])
  }

  // However often runs are cut short, the one that finishes leaves what a
  // single undisturbed run would have left.
  lemma {:induction false} CrashesDoNotShow(s: Files, crashes: seq<nat>)
    requires AllWellFormed(s.pending) && !SomeMisleading(s.pending)
    ensures Finished(AfterCrashes(s, crashes)) == Finished(s)
    decreases |crashes|
  {
    if crashes != [] {
      var stopped := Stopped(s, crashes[0]);
      hide Assemble;
      if Assemble(s.archive, s.pending).Ok? { Resumes(s.archive, s.pending, stopped.pending); }
      CrashesDoNotShow(stopped, crashes[1..]);
    }
  }

  class Workspace {
    var archive: string
    var pending: seq<Fragment>

    constructor (files: Files)
      ensures State() == files
    {
      archive, pending := files.archive, files.pending;
    }

    ghost function State(): Files
      reads this
    {
      Files(archive, pending)
    }

    // Assembles, writes the archive if it changed, then removes the fragments
    // one by one; the process may die after any number of these operations.
    method Assembly(operations: nat) returns (ok: bool)
      modifies this
      ensures State() == Stopped(old(State()), operations)
      ensures ok <==> Assemble(old(archive), old(pending)).Ok? && operations > |old(pending)|
    {
      hide Assemble;
      var assembled := AssembleArchive(archive, pending);
      if assembled.Err? || operations == 0 { return false; }
      if assembled.value != archive { archive := assembled.value; }
      var entries := pending;
      var removed := 0;
      while removed < |entries|
        invariant 0 <= removed <= |entries| && removed < operations
        invariant archive == assembled.value && pending == entries[removed..]
      {
        if removed + 1 == operations { return false; }
        pending := pending[1..];
        removed := removed + 1;
      }
      return true;
    }
  }
}
