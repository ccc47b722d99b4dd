// Parsing fragments and assembling them into the archive
// (tools/changelog/main.go).
module Changelog {
  import opened Basics
  import opened ChangelogText

  // ---- parseFragment ----

  predicate StartsWith(s: string, t: string) { |t| <= |s| && s[..|t|] == t }

  // unicode.IsSpace
  predicate IsSpace(c: char) {
    || '\t' <= c <= '\r' || c == ' ' || c == '\U{85}' || c == '\U{A0}' || c == '\U{1680}'
    || '\U{2000}' <= c <= '\U{200A}' || c == '\U{2028}' || c == '\U{2029}' || c == '\U{202F}'
    || c == '\U{205F}' || c == '\U{3000}'
  }

  function TrimLeft(s: string): string { if s != "" && IsSpace(s[0]) then TrimLeft(s[1..]) else s }

  function TrimRight(s: string): string
    decreases |s|
  {
    if s != "" && IsSpace(s[|s| - 1]) then TrimRight(s[..|s| - 1]) else s
  }

  function TrimSpace(s: string): string { TrimRight(TrimLeft(s)) }

  // strings.Split at newlines.
  function SplitLines(s: string): (r: seq<string>)
    ensures r != []
  {
    if s == "" then [""]
    else
      var rest := SplitLines(s[1..]);
      if s[0] == '\n' then [""] + rest else [[s[0]] + rest[0]] + rest[1..]
  }

  predicate SlugChar(c: char) { 'a' <= c <= 'z' || '0' <= c <= '9' || c == '-' }

  // The name is a slug, the category's word and the extension.
  predicate NameHas(name: string, c: Category) {
    var suffix := "." + Word(c) + ".md";
    && |name| > |suffix| && name[|name| - |suffix|..] == suffix && name[0] != '-'
    && forall i :: 0 <= i < |name| - |suffix| ==> SlugChar(name[i])
  }

  function CategoryOf(name: string): Option<Category> {
    if NameHas(name, Added) then Some(Added)
    else if NameHas(name, Changed) then Some(Changed)
    else if NameHas(name, Fixed) then Some(Fixed)
    else if NameHas(name, Deprecated) then Some(Deprecated)
    else if NameHas(name, Removed) then Some(Removed)
    else if NameHas(name, Security) then Some(Security)
    else None
  }

  predicate LineAllowed(line: string) {
    var t := TrimSpace(line);
    !(StartsWith(t, "#") || Includes(t, "<!-- changelog:") || Includes(t, "<!-- /changelog")
      || StartsWith(t, "<<<<<<<") || StartsWith(t, "=======") || StartsWith(t, ">>>>>>>"))
  }

  function ParseFragment(name: string, content: string): Result<Fragment> {
    match CategoryOf(name)
    case None => Err
    case Some(category) =>
      var body := TrimSpace(content);
      if !StartsWith(body, "- ") || TrimSpace(body[2..]) == "" then Err
      else if exists line :: line in SplitLines(body) && !LineAllowed(line) then Err
      else Ok(Fragment(name, category, body))
  }

  // ---- assemble ----

  const Categories: seq<Category> := [Added, Changed, Deprecated, Removed, Fixed, Security]

  // The fragment's marker is in the archive, but not its whole block.
  predicate Conflicts(text: string, f: Fragment) {
    Includes(text, Marker(f)) && !Includes(text, Block(f))
  }

  // The fragments of a category still to be assembled, in file order.
  function Missing(text: string, fragments: seq<Fragment>, c: Category): seq<Fragment> {
    if fragments == [] then []
    else
      var f := fragments[0];
      (if f.category == c && !Includes(text, Marker(f)) then [f] else []) + Missing(text, fragments[1..], c)
  }

  function Blocks(fragments: seq<Fragment>): string {
    if fragments == [] then "" else Block(fragments[0]) + "\n" + Blocks(fragments[1..])
  }

  function SectionTitle(c: Category): string { "### " + Title(c) + "\n\n" }

  function Section(c: Category, missing: seq<Fragment>): string {
    if missing == [] then "" else SectionTitle(c) + Blocks(missing)
  }

  function Sections(text: string, fragments: seq<Fragment>, categories: seq<Category>): string {
    if categories == [] then ""
    else Section(categories[0], Missing(text, fragments, categories[0])) + Sections(text, fragments, categories[1..])
  }

  function Addition(text: string, fragments: seq<Fragment>): string { Sections(text, fragments, Categories) }

  // Where the addition goes: after the heading, and the empty line below it.
  function InsertionPoint(text: string): (p: nat)
    ensures p <= |text|
  {
    var i := IndexFrom(text, Heading, 0);
    if i + |Heading| > |text| then |text|
    else if StartsWith(text[i + |Heading|..], "\n") then i + |Heading| + 1
    else i + |Heading|
  }

  function Inserted(text: string, addition: string): string {
    var prefix := text[..InsertionPoint(text)];
    var spaced := if |prefix| >= 2 && prefix[|prefix| - 2..] == "\n\n" then prefix else prefix + "\n";
    spaced + addition + text[InsertionPoint(text)..]
  }

  function Assemble(text: string, fragments: seq<Fragment>): Result<string> {
    if CountFrom(text, Heading, 0) != 1 then Err
    else if exists f :: f in fragments && Conflicts(text, f) then Err
    else if Addition(text, fragments) == "" then Ok(text)
    else Ok(Inserted(text, Addition(text, fragments)))
  }

  // ---- The loops of assemble ----

  lemma {:induction false} MissingEnds(text: string, fragments: seq<Fragment>, f: Fragment, c: Category)
    ensures Missing(text, fragments + [f], c)
            == if f.category == c && !Includes(text, Marker(f)) then Missing(text, fragments, c) + [f]
               else Missing(text, fragments, c)
    decreases |fragments|
  {
    hide Includes, Marker;
    if fragments == [] {
      assert fragments + [f] == [f] && [f][1..] == [];
    } else {
      assert (fragments + [f])[1..] == fragments[1..] + [f];
      MissingEnds(text, fragments[1..], f, c);
    }
  }

  lemma {:induction false} BlocksEnd(fragments: seq<Fragment>, f: Fragment)
    ensures Blocks(fragments + [f]) == Blocks(fragments) + Block(f) + "\n"
    decreases |fragments|
  {
    hide Block;
    if fragments == [] {
      assert fragments + [f] == [f] && [f][1..] == [];
    } else {
      assert (fragments + [f])[1..] == fragments[1..] + [f];
      BlocksEnd(fragments[1..], f);
    }
  }

  lemma {:induction false} SectionsEnd(text: string, fragments: seq<Fragment>, categories: seq<Category>, c: Category)
    ensures Sections(text, fragments, categories + [c])
            == Sections(text, fragments, categories) + Section(c, Missing(text, fragments, c))
    decreases |categories|
  {
    hide Section, Missing;
    if categories == [] {
      assert categories + [c] == [c] && [c][1..] == [];
      assert Sections(text, fragments, [c]) == Section(c, Missing(text, fragments, c)) + Sections(text, fragments, []);
    } else {
      assert (categories + [c])[1..] == categories[1..] + [c];
      SectionsEnd(text, fragments, categories[1..], c);
    }
  }

  lemma SectionEnds(c: Category, missing: seq<Fragment>, f: Fragment)
    ensures Section(c, missing + [f])
            == (if missing == [] then SectionTitle(c) else Section(c, missing)) + Block(f) + "\n"
  {
    BlocksEnd(missing, f);
    assert Section(c, missing + [f]) == SectionTitle(c) + (Blocks(missing) + Block(f) + "\n");
    assert missing == [] ==> Blocks(missing) == "";
    hide Block, SectionTitle, Blocks;
    Regroup(SectionTitle(c), Blocks(missing), Block(f), "\n");
  }

  lemma Regroup(a: string, b: string, c: string, d: string)
    ensures a + (b + c + d) == a + b + c + d
  {
  }

  lemma EveryCategory(c: Category)
    ensures c in Categories
  {
    assert Categories[0] == Added && Categories[1] == Changed && Categories[2] == Deprecated;
    assert Categories[3] == Removed && Categories[4] == Fixed && Categories[5] == Security;
  }

  // The part of the addition for one category, or a conflict.
  method AssembleCategory(text: string, fragments: seq<Fragment>, c: Category) returns (r: Result<string>)
    ensures r.Ok? ==> r.value == Section(c, Missing(text, fragments, c))
    ensures r.Err? <==> exists f :: f in fragments && f.category == c && Conflicts(text, f)
  {
    hide Block, Marker, Includes, SectionTitle;
    var addition := "";
    var wroteHeading := false;
    for n := 0 to |fragments|
      invariant addition == Section(c, Missing(text, fragments[..n], c))
      invariant wroteHeading <==> Missing(text, fragments[..n], c) != []
      invariant forall f :: f in fragments[..n] && f.category == c ==> !Conflicts(text, f)
    {
      var entry := fragments[n];
      assert fragments[..n + 1] == fragments[..n] + [entry];
      MissingEnds(text, fragments[..n], entry, c);
      SectionEnds(c, Missing(text, fragments[..n], c), entry);
      hide Section, Missing;
      if entry.category != c { continue; }
      if Includes(text, Marker(entry)) {
        if !Includes(text, Block(entry)) {
          assert entry in fragments && Conflicts(text, entry);
          return Err;
        }
        continue;
      }
      if !wroteHeading {
        addition := addition + SectionTitle(c);
        wroteHeading := true;
      }
      addition := addition + Block(entry) + "\n";
    }
    assert fragments[..|fragments|] == fragments;
    return Ok(addition);
  }

  method AssembleArchive(text: string, fragments: seq<Fragment>) returns (r: Result<string>)
    ensures r == Assemble(text, fragments)
  {
    hide Conflicts, Section, Missing, CountFrom;
    if CountFrom(text, Heading, 0) != 1 { return Err; }
    var addition := "";
    for k := 0 to |Categories|
      invariant addition == Sections(text, fragments, Categories[..k])
      invariant forall f :: f in fragments && f.category in Categories[..k] ==> !Conflicts(text, f)
    {
      var section := AssembleCategory(text, fragments, Categories[k]);
      if section.Err? { return Err; }
      assert Categories[..k + 1] == Categories[..k] + [Categories[k]];
      SectionsEnd(text, fragments, Categories[..k], Categories[k]);
      addition := addition + section.value;
    }
    assert Categories[..|Categories|] == Categories;
    forall f | f in fragments ensures !Conflicts(text, f) { EveryCategory(f.category); }
    if addition == "" { return Ok(text); }
    return Ok(Inserted(text, addition));
  }
}
