// Assembly resumes after a crash: what is assembled stays assembled, and
// running again on what is left changes nothing.
module ChangelogLaws {
  import opened Basics
  import opened ChangelogText
  import opened Changelog

  // ---- What parsing guarantees ----

  // The name is one line and no body line starts with a hash.
  ghost predicate WellFormed(f: Fragment) {
    && NoNewline(f.name)
    && forall i, j :: 0 <= i < j < |f.body| && j == i + 1 && f.body[i] == '\n' ==> f.body[j] != '#'
  }


  lemma {:induction false} LaterLine(s: string, i: nat)
    requires 0 < i < |s| && s[i] != '\n' && s[i - 1] == '\n'
    ensures exists k :: 0 < k < |SplitLines(s)| && SplitLines(s)[k] != "" && SplitLines(s)[k][0] == s[i]
  {
    var rest := SplitLines(s[1..]);
    if i == 1 {
      FirstLine(s[1..]);
      assert SplitLines(s) == [""] + rest;
      assert SplitLines(s)[1] == rest[0];
    } else {
      LaterLine(s[1..], i - 1);
      var k :| 0 < k < |rest| && rest[k] != "" && rest[k][0] == s[i];
      if s[0] == '\n' {
        assert SplitLines(s)[k + 1] == rest[k];
      } else {
        assert SplitLines(s)[k] == rest[k];
      }
    }
  }

  lemma FirstLine(s: string)
    requires s != "" && s[0] != '\n'
    ensures SplitLines(s)[0] != "" && SplitLines(s)[0][0] == s[0]
  {
  }

  lemma {:induction false} TrimRightKeeps(s: string)
    requires s != "" && !IsSpace(s[0])
    ensures TrimRight(s) != "" && TrimRight(s)[0] == s[0]
    decreases |s|
  {
    if IsSpace(s[|s| - 1]) { TrimRightKeeps(s[..|s| - 1]); }
  }

  lemma NameOnOneLine(name: string, c: Category)
    requires NameHas(name, c)
    ensures NoNewline(name)
  {
    var suffix := "." + Word(c) + ".md";
    assert NoNewline(suffix);
    var slug := name[..|name| - |suffix|];
    assert name == slug + suffix;
    forall i | 0 <= i < |slug| ensures slug[i] != '\n' { assert SlugChar(name[i]); }
  }

  lemma SpaceIsNoHash()
    ensures !IsSpace('#')
  {
  }

  lemma HashLineRefused(body: string, j: nat)
    requires 0 < j < |body| && body[j - 1] == '\n' && body[j] == '#'
    ensures exists line :: line in SplitLines(body) && !LineAllowed(line)
  {
    hide IsSpace;
    assert !IsSpace('#') by { SpaceIsNoHash(); }
    LaterLine(body, j);
    var k :| 0 < k < |SplitLines(body)| && SplitLines(body)[k] != "" && SplitLines(body)[k][0] == '#';
    var line := SplitLines(body)[k];
    TrimRightKeeps(line);
    assert line in SplitLines(body) && !LineAllowed(line);
  }

  lemma ParsedParts(name: string, content: string)
    requires ParseFragment(name, content).Ok?
    ensures var f := ParseFragment(name, content).value;
            && f.name == name && NameHas(name, f.category)
            && forall line :: line in SplitLines(f.body) ==> LineAllowed(line)
  {
    hide NameHas, LineAllowed, SplitLines, TrimSpace;
  }

  lemma ParsedWellFormed(name: string, content: string)
    requires ParseFragment(name, content).Ok?
    ensures WellFormed(ParseFragment(name, content).value)
  {
    var f := ParseFragment(name, content).value;
    ParsedParts(name, content);
    NameOnOneLine(name, f.category);
    hide LineAllowed, SplitLines, NameHas, ParseFragment;
    forall i, j | 0 <= i < j < |f.body| && j == i + 1 && f.body[i] == '\n' ensures f.body[j] != '#' {
      if f.body[j] == '#' { HashLineRefused(f.body, j); }
    }
  }

  // ---- Exactly what parses ----

  predicate Slug(s: string) {
    s != "" && s[0] != '-' && forall i :: 0 <= i < |s| ==> 'a' <= s[i] <= 'z' || '0' <= s[i] <= '9' || s[i] == '-'
  }

  ghost predicate Named(name: string, word: string) {
    exists slug :: Slug(slug) && name == slug + "." + word + ".md"
  }

  ghost predicate NamedAs(name: string, c: Category) {
    match c
    case Added => Named(name, "added")
    case Changed => Named(name, "changed")
    case Deprecated => Named(name, "deprecated")
    case Removed => Named(name, "removed")
    case Fixed => Named(name, "fixed")
    case Security => Named(name, "security")
  }

  lemma SlugAndSuffix(name: string, suffix: string)
    requires suffix != ""
    ensures (&& |name| > |suffix| && name[|name| - |suffix|..] == suffix && name[0] != '-'
             && forall i :: 0 <= i < |name| - |suffix| ==> SlugChar(name[i])) <==>
            exists slug :: Slug(slug) && name == slug + suffix
  {
    if |name| > |suffix| && name[|name| - |suffix|..] == suffix {
      var slug := name[..|name| - |suffix|];
      assert name == slug + suffix;
      assert forall i :: 0 <= i < |slug| ==> slug[i] == name[i];
    }
    if slug :| Slug(slug) && name == slug + suffix {
      assert forall i :: 0 <= i < |slug| ==> name[i] == slug[i];
      assert name[|name| - |suffix|..] == suffix;
    }
  }

  lemma NameSplits(name: string, c: Category)
    ensures NameHas(name, c) <==> Named(name, Word(c))
  {
    hide Word, Slug, SlugChar;
    var suffix := "." + Word(c) + ".md";
    SlugAndSuffix(name, suffix);
    assert forall slug: string :: slug + "." + Word(c) + ".md" == slug + suffix;
  }

  lemma NameHasMeans(name: string, c: Category)
    ensures NameHas(name, c) <==> NamedAs(name, c)
  {
    hide Named, NameHas;
    NameSplits(name, c);
  }

  // A name belongs to one category at most.
  lemma OneCategory(name: string, c: Category, d: Category)
    requires NameHas(name, c) && NameHas(name, d)
    ensures c == d
  {
    DotInName(name, c, d);
    DotInName(name, d, c);
    WordInName(name, c);
    WordInName(name, d);
    hide NameHas, Word;
    if c != d { WordsDiffer(c, d); }
  }

  lemma WordsDiffer(c: Category, d: Category)
    requires c != d
    ensures Word(c) != Word(d)
  {
    assert Word(Added)[0] == 'a' && Word(Changed)[0] == 'c' && Word(Deprecated)[0] == 'd';
    assert Word(Removed)[0] == 'r' && Word(Fixed)[0] == 'f' && Word(Security)[0] == 's';
  }

  lemma WordInName(name: string, c: Category)
    requires NameHas(name, c)
    ensures |name| > |Word(c)| + 4
    ensures name[|name| - |Word(c)| - 4] == '.' && name[|name| - |Word(c)| - 3..|name| - 3] == Word(c)
  {
    var suffix := "." + Word(c) + ".md";
    assert |suffix| == |Word(c)| + 4 && suffix[0] == '.' && suffix[1..|suffix| - 3] == Word(c);
    var tail := name[|name| - |suffix|..];
    assert tail == suffix && tail[0] == '.' && tail[1..|tail| - 3] == Word(c);
  }

  // The dot before a shorter word would stand within the longer one.
  lemma DotClashes(name: string, n: nat, word: string)
    requires |word| + 4 < |name| && n + 4 < |name| && name[|name| - n - 4] == '.'
    requires name[|name| - |word| - 3..|name| - 3] == word
    ensures n < |word| ==> '.' in word
  {
    if n < |word| { assert word[|word| - n - 1] == name[|name| - n - 4]; }
  }

  lemma Dotless(c: Category)
    ensures '.' !in Word(c)
  {
  }

  lemma DotInName(name: string, c: Category, d: Category)
    requires NameHas(name, c) && NameHas(name, d)
    ensures |Word(c)| >= |Word(d)|
  {
    WordInName(name, c);
    WordInName(name, d);
    hide Word, NameHas;
    DotClashes(name, |Word(c)|, Word(d));
    Dotless(d);
  }

  lemma CategoryFound(name: string, c: Category)
    ensures CategoryOf(name) == Some(c) <==> NameHas(name, c)
  {
    hide NameHas;
    if NameHas(name, c) && CategoryOf(name) != Some(c) {
      OneCategory(name, c, CategoryOf(name).value);
    }
  }

  // No heading, assembly marker or merge conflict marker.
  ghost predicate PlainLine(line: string) {
    var t := TrimSpace(line);
    && !("#" <= t) && !("<<<<<<<" <= t) && !("=======" <= t) && !(">>>>>>>" <= t)
    && !Includes(t, "<!-- changelog:") && !Includes(t, "<!-- /changelog")
  }

  lemma PrefixIs(s: string, t: string)
    ensures StartsWith(s, t) <==> t <= s
  {
    if StartsWith(s, t) { assert s == t + s[|t|..]; }
  }

  lemma PlainLineAllowed(line: string)
    ensures LineAllowed(line) <==> PlainLine(line)
  {
    var t := TrimSpace(line);
    PrefixIs(t, "#");
    PrefixIs(t, "<<<<<<<");
    PrefixIs(t, "=======");
    PrefixIs(t, ">>>>>>>");
    hide StartsWith, TrimSpace, Includes;
  }

  // A fragment parses exactly with a slug and a category in its name, a bullet
  // that says something, and plain lines only; its body is the trimmed text.
  lemma ParsesExactly(name: string, content: string, c: Category)
    ensures var body := TrimSpace(content);
            ParseFragment(name, content) == Ok(Fragment(name, c, body)) <==>
              && NamedAs(name, c) && "- " <= body && TrimSpace(body[2..]) != ""
              && forall line :: line in SplitLines(body) ==> PlainLine(line)
  {
    var body := TrimSpace(content);
    CategoryFound(name, c);
    NameHasMeans(name, c);
    PrefixIs(body, "- ");
    forall line ensures LineAllowed(line) <==> PlainLine(line) { PlainLineAllowed(line); }
    hide NameHas, NamedAs, LineAllowed, PlainLine, TrimSpace, SplitLines, StartsWith;
  }

  // ---- Where headings can be ----

  // A body line ends like the heading.
  ghost predicate Misleading(f: Fragment) { HasHeading(f.body + "\n") }

  lemma LineHasNoHeading(line: string)
    requires NoNewline(line) && line != "" && line[|line| - 1] != 'd'
    ensures Lines(line + "\n") && !HasHeading(line + "\n")
  {
    HeadingShape();
    if i :| OccursAt(line + "\n", Heading, i) {
      OccursIn(line + "\n", Heading, i, 13);
      OccursIn(line + "\n", Heading, i, 12);
    }
  }

  lemma MarkerPlain(f: Fragment)
    requires NoNewline(f.name)
    ensures Lines(Marker(f)) && !HasHeading(Marker(f)) && Marker(f)[0] == '<'
  {
    var line := "<!-- changelog: " + f.name + " -->";
    assert Marker(f) == line + "\n";
    LineHasNoHeading(line);
  }

  const Closing := "<!-- /changelog -->\n"

  lemma BlockParts(f: Fragment)
    ensures Block(f) == Marker(f) + ((f.body + "\n") + Closing)
  {
    assert "\n<!-- /changelog -->\n" == "\n" + Closing;
  }

  lemma BlockHeading(f: Fragment)
    requires NoNewline(f.name)
    ensures Lines(Block(f)) && (HasHeading(Block(f)) <==> Misleading(f))
    ensures Block(f)[0] == '<' && Block(f)[..|Marker(f)|] == Marker(f)
  {
    MarkerPlain(f);
    BlockParts(f);
    assert Closing == "<!-- /changelog -->" + "\n";
    LineHasNoHeading("<!-- /changelog -->");
    hide HasHeading, Marker;
    HeadingSplits(f.body + "\n", Closing);
    HeadingSplits(Marker(f), (f.body + "\n") + Closing);
    assert Block(f)[|Block(f)| - 1] == Closing[|Closing| - 1];
  }

  lemma NewlinePlain()
    ensures Lines("\n") && !HasHeading("\n") && !HasHeading("")
  {
    HeadingShape();
  }

  ghost predicate SomeMisleading(fragments: seq<Fragment>) {
    exists f :: f in fragments && Misleading(f)
  }

  ghost predicate AllWellFormed(fragments: seq<Fragment>) {
    forall f :: f in fragments ==> WellFormed(f)
  }

  lemma {:induction false} BlocksHeading(fragments: seq<Fragment>)
    requires AllWellFormed(fragments)
    ensures Lines(Blocks(fragments)) && (HasHeading(Blocks(fragments)) <==> SomeMisleading(fragments))
  {
    NewlinePlain();
    if fragments != [] {
      var f, rest := fragments[0], fragments[1..];
      assert WellFormed(f) by { assert f in fragments; }
      BlockHeading(f);
      BlocksHeading(rest);
      hide HasHeading, Misleading, Block;
      HeadingSplits(Block(f), "\n");
      HeadingSplits(Block(f) + "\n", Blocks(rest));
      assert fragments == [f] + rest;
      assert Lines(Block(f) + "\n" + Blocks(rest));
    }
  }

  // The longest title line is as long as the heading's, with another letter
  // where the heading has its capital.
  lemma TitleUnlike(c: Category)
    ensures var line := "### " + Title(c);
            NoNewline(line) && (|line| < 13 || (|line| == 14 && line[4] == 'D'))
  {
    match c
    case Added => assert "### " + Title(c) == "### Added";
    case Changed => assert "### " + Title(c) == "### Changed";
    case Deprecated => assert "### " + Title(c) == "### Deprecated";
    case Removed => assert "### " + Title(c) == "### Removed";
    case Fixed => assert "### " + Title(c) == "### Fixed";
    case Security => assert "### " + Title(c) == "### Security";
  }

  lemma SectionTitlePlain(c: Category)
    ensures Lines(SectionTitle(c)) && !HasHeading(SectionTitle(c))
  {
    var line := "### " + Title(c);
    NewlinePlain();
    TitleUnlike(c);
    HeadingShape();
    hide Title;
    if i :| OccursAt(line + "\n", Heading, i) {
      OccursIn(line + "\n", Heading, i, 13);
      OccursIn(line + "\n", Heading, i, 3);
    }
    assert !HasHeading(line + "\n");
    HeadingSplits(line + "\n", "\n");
    assert line + "\n" + "\n" == line + "\n\n";
  }

  lemma SectionHeading(c: Category, missing: seq<Fragment>)
    requires AllWellFormed(missing)
    ensures Lines(Section(c, missing)) && (HasHeading(Section(c, missing)) <==> SomeMisleading(missing))
  {
    NewlinePlain();
    SectionTitlePlain(c);
    BlocksHeading(missing);
    hide HasHeading, SectionTitle, Blocks;
    HeadingSplits(SectionTitle(c), Blocks(missing));
    if missing != [] {
      var s := Section(c, missing);
      assert Blocks(missing) != "" ==> s[|s| - 1] == Blocks(missing)[|Blocks(missing)| - 1];
      assert Blocks(missing) == "" ==> s == SectionTitle(c);
    }
  }

  // ---- Parsing does not rule such a line out ----

  lemma {:induction false} OneLine(s: string)
    requires NoNewline(s)
    ensures SplitLines(s) == [s]
  {
    if s != "" {
      OneLine(s[1..]);
      assert [s[0]] + s[1..] == s;
    }
  }

  lemma PlainEnds(s: string)
    requires s != "" && !IsSpace(s[0]) && !IsSpace(s[|s| - 1])
    ensures TrimSpace(s) == s
  {
  }

  lemma NotIncluded(s: string, t: string)
    requires t != "" && t[0] !in s
    ensures !Includes(s, t)
  {
    if i :| 0 <= i <= |s| && OccursAt(s, t, i) { OccursIn(s, t, i, 0); }
  }

  lemma PlainBulletParses(text: string)
    requires NoNewline(text) && '<' !in text && text != "" && !IsSpace(text[0]) && !IsSpace(text[|text| - 1])
    ensures ParseFragment("a.added.md", "- " + text) == Ok(Fragment("a.added.md", Added, "- " + text))
  {
    var body := "- " + text;
    assert NameHas("a.added.md", Added) by {
      assert "." + Word(Added) + ".md" == ".added.md";
      assert "a.added.md"[1..] == ".added.md";
    }
    PlainEnds(body);
    PlainEnds(text);
    assert body[2..] == text && StartsWith(body, "- ");
    OneLine(body);
    NotIncluded(body, "<!-- changelog:");
    NotIncluded(body, "<!-- /changelog");
    assert body[0] == '-';
    assert LineAllowed(body);
  }

  // A bullet that ends like the heading is accepted, and is misleading.
  const HeadingLike := "see ## Unreleased"

  lemma HeadingLikeEnds()
    ensures HasHeading("- " + HeadingLike + "\n")
  {
    assert "- " + HeadingLike + "\n" == "- see ## Unreleased\n" == "- see " + Heading;
    assert Heading[0..|Heading|] == Heading && OccursAt(Heading, Heading, 0);
    Within("- see ", Heading, Heading, 6);
  }

  lemma MisleadingParses()
    ensures var parsed := ParseFragment("a.added.md", "- " + HeadingLike); parsed.Ok? && Misleading(parsed.value)
  {
    PlainBulletParses(HeadingLike);
    HeadingLikeEnds();
    hide ParseFragment, HasHeading;
  }
}
