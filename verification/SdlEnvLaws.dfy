// The environment half of the round trip: a list of distinctly named entries
// is, up to normal form, the map it denotes.
module SdlEnvLaws {
  import opened Basics
  import opened SdlDocument
  import opened SdlApply
  import opened SdlApplyLaws
  import opened SdlDiff

  // --------------------------------------------------- duplicate-free lists

  ghost predicate NoDup<T>(s: seq<T>) {
    forall i, j :: 0 <= i < j < |s| ==> s[i] != s[j]
  }

  lemma {:induction false} NoDupCount<T>(s: seq<T>, x: T)
    requires NoDup(s)
    ensures multiset(s)[x] == if x in s then 1 else 0
  {
    if s != [] {
      NoDupCount(s[1..], x);
      assert s == [s[0]] + s[1..];
    }
  }

  lemma SameMembers<T>(a: seq<T>, b: seq<T>)
    requires NoDup(a) && NoDup(b) && forall x :: x in a <==> x in b
    ensures multiset(a) == multiset(b)
  {
    forall x ensures multiset(a)[x] == multiset(b)[x] {
      NoDupCount(a, x);
      NoDupCount(b, x);
    }
  }

  lemma RepeatCounts<T>(s: seq<T>, i: nat, j: nat)
    requires i < j < |s| && s[i] == s[j]
    ensures multiset(s)[s[i]] >= 2
  {
    assert s == s[..j] + s[j..];
    assert s[..j][i] == s[i] && s[j..][0] == s[i];
  }

  lemma NoDupTransfers<T>(a: seq<T>, b: seq<T>)
    requires NoDup(a) && multiset(a) == multiset(b)
    ensures NoDup(b) && forall x :: x in a <==> x in b
  {
    forall i, j | 0 <= i < j < |b| ensures b[i] != b[j] {
      if b[i] == b[j] {
        RepeatCounts(b, i, j);
        NoDupCount(a, b[i]);
      }
    }
    forall x ensures x in a <==> x in b {
      assert x in a <==> x in multiset(a);
    }
  }

  // ------------------------------------------------ entries and their names

  lemma SameNameSameEntry(items: seq<Value>, e: Value, f: Value)
    requires EnvStrings(items) && EnvDistinct(items) && e in items && f in items && EnvName(e.s) == EnvName(f.s)
    ensures e == f
  {
  }

  lemma DistinctNoDup(items: seq<Value>)
    requires EnvStrings(items) && EnvDistinct(items)
    ensures NoDup(Texts(items))
  {
  }

  lemma TextsMembers(items: seq<Value>, x: string)
    requires EnvStrings(items)
    ensures x in Texts(items) <==> Str(x) in items
  {
    if Str(x) in items {
      var i :| 0 <= i < |items| && items[i] == Str(x);
      assert Texts(items)[i] == x;
    }
  }

  // A map of entries determines the set of entries.
  lemma SameMapMembers(a: seq<Value>, b: seq<Value>)
    requires EnvStrings(a) && EnvDistinct(a) && EnvStrings(b) && EnvDistinct(b)
    requires EnvMap(a) == EnvMap(b)
    ensures forall e :: e in a ==> e in b
  {
    forall e | e in a ensures e in b {
      assert EnvName(e.s) in EnvMap(a) && EnvMap(a)[EnvName(e.s)] == EnvContent(e.s);
      var f :| f in b && EnvName(f.s) == EnvName(e.s);
      assert EnvMap(b)[EnvName(f.s)] == EnvContent(f.s);
      EnvEntrySplits(e.s);
      EnvEntrySplits(f.s);
    }
  }

  lemma SameMapSameNormal(a: Value, b: Value)
    requires EnvListed(a) && EnvListed(b)
    requires EnvMap(ArrOf(a)) == EnvMap(ArrOf(b))
    ensures NormalEnv(a) == NormalEnv(b)
  {
    var x, y := ArrOf(a), ArrOf(b);
    SameMapMembers(x, y);
    SameMapMembers(y, x);
    DistinctNoDup(x);
    DistinctNoDup(y);
    forall t ensures t in Texts(x) <==> t in Texts(y) {
      TextsMembers(x, t);
      TextsMembers(y, t);
    }
    SameMembers(Texts(x), Texts(y));
    SortCanonical(Texts(x), Texts(y));
    assert |multiset(Texts(x))| == |x| && |multiset(Texts(y))| == |y|;
  }

  lemma TextsOfStrings(s: seq<string>)
    ensures Strings(s).Arr? && EnvStrings(Strings(s).items) && Texts(Strings(s).items) == s
  {
  }

  // The converse: equal normal forms denote the same map.
  lemma SameNormalSameMap(a: Value, b: Value)
    requires EnvListed(a) && NormalEnv(a) == NormalEnv(b)
    ensures EnvListed(b) && EnvMap(ArrOf(a)) == EnvMap(ArrOf(b))
  {
    var x, y := ArrOf(a), ArrOf(b);
    if x == [] {
      assert NormalEnv(b).Null?;
      assert y == [];
    } else {
      TextsOfStrings(Sort(Texts(x)));
      assert |Sort(Texts(x))| == |multiset(Sort(Texts(x)))| == |multiset(Texts(x))|;
      assert NormalEnv(a).Arr?;
      assert b.Arr? && EnvStrings(y) && y != [];
      TextsOfStrings(Sort(Texts(y)));
      assert Sort(Texts(x)) == Sort(Texts(y));
      SortCanonical(Texts(x), Texts(y));
      DistinctNoDup(x);
      NoDupTransfers(Texts(x), Texts(y));
      SameEntriesSameMap(x, y);
    }
  }

  lemma SameEntriesSameMap(x: seq<Value>, y: seq<Value>)
    requires EnvStrings(x) && EnvDistinct(x) && EnvStrings(y)
    requires NoDup(Texts(y)) && forall t :: t in Texts(x) <==> t in Texts(y)
    ensures EnvDistinct(y) && EnvMap(x) == EnvMap(y)
  {
    forall e ensures e in x <==> e in y {
      if e.Str? {
        TextsMembers(x, e.s);
        TextsMembers(y, e.s);
      }
    }
    forall i, j | 0 <= i < j < |y| ensures EnvName(y[i].s) != EnvName(y[j].s) {
      assert y[i] in y && y[j] in y;
      assert Texts(y)[i] != Texts(y)[j];
      if EnvName(y[i].s) == EnvName(y[j].s) { SameNameSameEntry(x, y[i], y[j]); }
    }
    assert EnvMap(x).Keys == EnvMap(y).Keys;
  }

  // ------------------------------------------- an edit overrides the old map

  function Override(before: map<string, Option<string>>, patch: map<string, Option<string>>): map<string,
                    Option<string>> {
    map name | name in before.Keys + patch.Keys && (name in patch ==> patch[name].Some?) ::
      if name in patch then patch[name] else before[name]
  }

  lemma {:induction false} KeptDistinct(items: seq<Value>, patch: map<string, Option<string>>)
    requires EnvStrings(items) && EnvDistinct(items)
    ensures EnvStrings(KeptEnv(items, patch)) && EnvDistinct(KeptEnv(items, patch))
  {
    if items != [] {
      var rest := KeptEnv(items[1..], patch);
      KeptDistinct(items[1..], patch);
      KeptEnvMembers(items[1..], patch);
      if EnvUntouched(items[0], patch) {
        DistinctConcat([items[0]], rest);
      } else {
        assert [] + rest == rest;
      }
    }
  }

  lemma DistinctConcat(a: seq<Value>, b: seq<Value>)
    requires EnvStrings(a) && EnvDistinct(a) && EnvStrings(b) && EnvDistinct(b)
    requires forall e, f :: e in a && f in b ==> EnvName(e.s) != EnvName(f.s)
    ensures EnvStrings(a + b) && EnvDistinct(a + b)
  {
    var c := a + b;
    forall i | 0 <= i < |c| ensures c[i].Str? {
      if i < |a| { assert c[i] == a[i]; } else { assert c[i] == b[i - |a|]; }
    }
    forall i, j | 0 <= i < j < |c| ensures EnvName(c[i].s) != EnvName(c[j].s) {
      if j < |a| {
      } else if i < |a| {
        assert c[i] in a && c[j] in b;
      } else {
        assert c[i] == b[i - |a|] && c[j] == b[j - |a|];
      }
    }
  }

  lemma {:induction false} AddedDistinct(keys: seq<string>, patch: map<string, Option<string>>)
    requires NoDup(keys) && forall k :: k in keys ==> k in patch && '=' !in k
    ensures EnvStrings(AddedEnv(keys, patch)) && EnvDistinct(AddedEnv(keys, patch))
    ensures forall e :: e in AddedEnv(keys, patch) ==> EnvName(e.s) in keys
  {
    if keys != [] {
      AddedDistinct(keys[1..], patch);
      AddedEnvMembers(keys[1..], patch);
      var rest := AddedEnv(keys[1..], patch);
      if patch[keys[0]].Some? {
        EnvEntryJoins(keys[0], patch[keys[0]].value);
        assert forall k :: k in keys[1..] ==> k != keys[0];
        DistinctConcat([Str(EnvEntry(keys[0], patch[keys[0]]))], rest);
      } else {
        assert [] + rest == rest;
      }
    }
  }

  lemma KeysNoDup(keys: set<string>)
    ensures NoDup(SortedKeys(keys))
  {
    var s := SortedKeys(keys);
    forall i, j | 0 <= i < j < |s| ensures s[i] != s[j] {
      if s[i] == s[j] { RepeatCounts(s, i, j); }
    }
  }

  lemma EditedEnvOverrides(items: seq<Value>, patch: map<string, Option<string>>)
    requires EnvStrings(items) && EnvDistinct(items)
    requires forall name :: name in patch ==> ValidEnvName(name)
    ensures EnvStrings(EditedEnv(items, patch)) && EnvDistinct(EditedEnv(items, patch))
    ensures EnvMap(EditedEnv(items, patch)) == Override(EnvMap(items), patch)
  {
    var keys := SortedKeys(patch.Keys);
    SortedKeysMembers(patch.Keys);
    KeysNoDup(patch.Keys);
    forall k | k in patch ensures '=' !in k { ValidEnvNameHasNoSeparator(k); }
    KeptDistinct(items, patch);
    KeptEnvMembers(items, patch);
    AddedDistinct(keys, patch);
    DistinctConcat(KeptEnv(items, patch), AddedEnv(keys, patch));
    EditedMap(items, patch, EditedEnv(items, patch));
  }

  lemma EditedEntryOverrides(items: seq<Value>, patch: map<string, Option<string>>, e: Value)
    requires EnvStrings(items) && EnvDistinct(items) && e in EditedEnv(items, patch)
    requires forall name :: name in patch ==> ValidEnvName(name)
    ensures var o := Override(EnvMap(items), patch);
            e.Str? && EnvName(e.s) in o && o[EnvName(e.s)] == EnvContent(e.s)
  {
    var keys := SortedKeys(patch.Keys);
    SortedKeysMembers(patch.Keys);
    KeptEnvMembers(items, patch);
    AddedEnvMembers(keys, patch);
    if e in KeptEnv(items, patch) {
      assert EnvName(e.s) in EnvMap(items);
    } else {
      var k :| k in keys && patch[k].Some? && e == Str(EnvEntry(k, patch[k]));
      ValidEnvNameHasNoSeparator(k);
      EnvEntryJoins(k, patch[k].value);
    }
  }

  lemma OverriddenNameListed(items: seq<Value>, patch: map<string, Option<string>>, name: string)
    requires EnvStrings(items) && EnvDistinct(items) && name in Override(EnvMap(items), patch)
    requires forall k :: k in patch ==> ValidEnvName(k)
    ensures Declares(EditedEnv(items, patch), name)
  {
    var keys := SortedKeys(patch.Keys);
    SortedKeysMembers(patch.Keys);
    if name in patch {
      AddedEnvMembers(keys, patch);
      ValidEnvNameHasNoSeparator(name);
      EnvEntryJoins(name, patch[name].value);
      assert Str(EnvEntry(name, patch[name])) in EditedEnv(items, patch);
    } else {
      KeptEnvMembers(items, patch);
      var e :| e in items && EnvName(e.s) == name;
      assert e in EditedEnv(items, patch);
    }
  }

  ghost predicate Declares(items: seq<Value>, name: string) {
    exists e :: e in items && e.Str? && EnvName(e.s) == name
  }

  lemma MapIs(items: seq<Value>, m: map<string, Option<string>>)
    requires EnvStrings(items) && EnvDistinct(items)
    requires forall e :: e in items ==> EnvName(e.s) in m && m[EnvName(e.s)] == EnvContent(e.s)
    requires forall name :: name in m ==> Declares(items, name)
    ensures EnvMap(items) == m
  {
  }

  lemma EditedMap(items: seq<Value>, patch: map<string, Option<string>>, edited: seq<Value>)
    requires EnvStrings(items) && EnvDistinct(items)
    requires forall name :: name in patch ==> ValidEnvName(name)
    requires edited == EditedEnv(items, patch) && EnvStrings(edited) && EnvDistinct(edited)
    ensures EnvMap(edited) == Override(EnvMap(items), patch)
  {
    var o := Override(EnvMap(items), patch);
    forall e | e in edited ensures EnvName(e.s) in o && o[EnvName(e.s)] == EnvContent(e.s) {
      EditedEntryOverrides(items, patch, e);
    }
    forall name | name in o ensures Declares(edited, name) {
      OverriddenNameListed(items, patch, name);
    }
    MapIs(edited, o);
  }

  // Diffing against an override needs only names the override assigns.
  lemma OverrideEdits(was: map<string, Option<string>>, patch: map<string, Option<string>>)
    ensures var now := Override(was, patch);
            && EnvEdits(was, now).Keys <= patch.Keys
            && (forall name :: name in now && EnvNameChanged(name, was, now) ==> now[name].Some?)
            && Override(was, EnvEdits(was, now)) == now
  {
  }

  // --------------------------------------------------------- the round trip

  ghost function EnvResult(raw: Value, patch: map<string, Option<string>>): Value {
    if patch == map[] then raw
    else if EditedEnv(ArrOf(raw), patch) == [] then Null
    else Arr(EditedEnv(ArrOf(raw), patch))
  }

  lemma EnvResultMap(raw: Value, patch: map<string, Option<string>>)
    requires EnvListed(raw) && forall name :: name in patch ==> ValidEnvName(name)
    ensures EnvListed(EnvResult(raw, patch))
    ensures EnvMap(ArrOf(EnvResult(raw, patch))) == Override(EnvMap(ArrOf(raw)), patch)
  {
    EditedEnvOverrides(ArrOf(raw), patch);
    if patch == map[] { assert Override(EnvMap(ArrOf(raw)), patch) == EnvMap(ArrOf(raw)); }
  }

  lemma DiffOfListed(before: Value, after: Value)
    requires EnvListed(before) && EnvListed(after) && before != after
    requires var was, now := EnvMap(ArrOf(before)), EnvMap(ArrOf(after));
             forall name :: name in now && EnvNameChanged(name, was, now) ==> now[name].Some?
    ensures DiffEnv(before, after) == Ok(EnvEdits(EnvMap(ArrOf(before)), EnvMap(ArrOf(after))))
  {
  }

  // Whatever a valid patch makes of a listed environment, in whatever order it
  // is written down, diffEnv finds edits with the same normal form.
  lemma EnvRoundTrip(before: Value, patch: map<string, Option<string>>, after: Value)
    requires EnvListed(before) && forall name :: name in patch ==> ValidEnvName(name)
    requires NormalEnv(after) == NormalEnv(EnvResult(before, patch))
    ensures DiffEnv(before, after).Ok?
    ensures forall name :: name in DiffEnv(before, after).value ==> ValidEnvName(name)
    ensures NormalEnv(EnvResult(before, DiffEnv(before, after).value)) == NormalEnv(after)
  {
    EnvResultMap(before, patch);
    SameNormalSameMap(EnvResult(before, patch), after);
    if before != after {
      var was, now := EnvMap(ArrOf(before)), EnvMap(ArrOf(after));
      var edits := EnvEdits(was, now);
      OverrideEdits(was, patch);
      DiffOfListed(before, after);
      EnvResultMap(before, edits);
      SameMapSameNormal(EnvResult(before, edits), after);
    }
  }
}
