// Shared vocabulary: optional values, results without a diagnostic, decimal
// text of natural numbers, and the byte order of strings with its sort.
module Basics {
  datatype Option<+T> = None | Some(value: T)

  // An operation either produces a value or is refused. Diagnostics carry no
  // information that a caller branches on, so they are not represented.
  datatype Result<+T> = Ok(value: T) | Err

  // ---------------------------------------------------------------- decimals

  function Digit(d: nat): char
    requires d < 10
  {
    "0123456789"[d]
  }

  // strconv.FormatUint(n, 10)
  function Decimal(n: nat): (text: string)
    ensures text != []
    ensures forall i :: 0 <= i < |text| ==> '0' <= text[i] <= '9'
  {
    if n < 10 then [Digit(n)] else Decimal(n / 10) + [Digit(n % 10)]
  }

  lemma DigitValue(d: nat)
    requires d < 10
    ensures Digit(d) as int - '0' as int == d
  {
  }

  function ParseDigits(text: string): nat
    requires forall i :: 0 <= i < |text| ==> '0' <= text[i] <= '9'
  {
    if text == [] then 0
    else 10 * ParseDigits(text[..|text| - 1]) + (text[|text| - 1] as int - '0' as int)
  }

  lemma {:induction false} ParseDecimal(n: nat)
    ensures ParseDigits(Decimal(n)) == n
  {
    var t := Decimal(n);
    DigitValue(n % 10);
    if n < 10 {
      assert t == [Digit(n)] && t[..|t| - 1] == [];
    } else {
      ParseDecimal(n / 10);
      assert t[..|t| - 1] == Decimal(n / 10) && t[|t| - 1] == Digit(n % 10);
    }
  }

  lemma DecimalInjective(a: nat, b: nat)
    requires Decimal(a) == Decimal(b)
    ensures a == b
  {
    ParseDecimal(a);
    ParseDecimal(b);
  }

  // --------------------------------------------------------------- substrings

  predicate OccursAt(s: string, t: string, i: int) {
    0 <= i <= |s| - |t| && s[i..i + |t|] == t
  }

  // strings.Contains
  predicate Includes(s: string, t: string) {
    exists i :: 0 <= i <= |s| && OccursAt(s, t, i)
  }

  // -------------------------------------------------------- order on strings

  // Go compares strings byte by byte; on UTF-8 that is code point order.
  predicate StrLeq(a: string, b: string) {
    a == [] || (b != [] && (a[0] < b[0] || (a[0] == b[0] && StrLeq(a[1..], b[1..]))))
  }

  lemma {:induction false} StrLeqTotal(a: string, b: string)
    ensures StrLeq(a, b) || StrLeq(b, a)
  {
    if a != [] && b != [] && a[0] == b[0] { StrLeqTotal(a[1..], b[1..]); }
  }

  lemma {:induction false} StrLeqAntisymmetric(a: string, b: string)
    requires StrLeq(a, b) && StrLeq(b, a)
    ensures a == b
  {
    if a != [] && b != [] {
      StrLeqAntisymmetric(a[1..], b[1..]);
      assert a == [a[0]] + a[1..] && b == [b[0]] + b[1..];
    }
  }

  lemma {:induction false} StrLeqTransitive(a: string, b: string, c: string)
    requires StrLeq(a, b) && StrLeq(b, c)
    ensures StrLeq(a, c)
  {
    if a != [] && b != [] && c != [] && a[0] == b[0] == c[0] { StrLeqTransitive(a[1..], b[1..], c[1..]); }
  }

  ghost predicate Sorted(s: seq<string>) {
    forall i, j :: 0 <= i < j < |s| ==> StrLeq(s[i], s[j])
  }

  function Insert(x: string, s: seq<string>): (r: seq<string>)
    ensures multiset(r) == multiset{x} + multiset(s)
  {
    if s == [] then [x]
    else if StrLeq(x, s[0]) then [x] + s
    else
      assert s == [s[0]] + s[1..];
      [s[0]] + Insert(x, s[1..])
  }

  // sort.Strings
  function Sort(s: seq<string>): (r: seq<string>)
    ensures multiset(r) == multiset(s)
  {
    if s == [] then []
    else
      assert s == [s[0]] + s[1..];
      Insert(s[0], Sort(s[1..]))
  }

  lemma {:induction false} InsertSorted(x: string, s: seq<string>)
    requires Sorted(s)
    ensures Sorted(Insert(x, s))
  {
    if s == [] {
    } else if StrLeq(x, s[0]) {
      forall j | 0 <= j < |s| ensures StrLeq(x, s[j]) {
        if j > 0 { StrLeqTransitive(x, s[0], s[j]); }
      }
    } else {
      StrLeqTotal(x, s[0]);
      InsertSorted(x, s[1..]);
      var r := Insert(x, s[1..]);
      forall j | 0 <= j < |r| ensures StrLeq(s[0], r[j]) {
        assert r[j] in multiset(r);
        assert r[j] == x || r[j] in s[1..];
      }
    }
  }

  lemma {:induction false} SortSorted(s: seq<string>)
    ensures Sorted(Sort(s))
  {
    if s != [] {
      SortSorted(s[1..]);
      InsertSorted(s[0], Sort(s[1..]));
    }
  }

  lemma HeadIsLeast(a: seq<string>, x: string)
    requires Sorted(a) && x in a
    ensures StrLeq(a[0], x)
  {
    StrLeqReflexive(x);
  }

  lemma SameHead(a: seq<string>, b: seq<string>)
    requires Sorted(a) && Sorted(b) && multiset(a) == multiset(b) && a != [] && b != []
    ensures a[0] == b[0]
  {
    assert a[0] in multiset(b) && b[0] in multiset(a);
    HeadIsLeast(a, b[0]);
    HeadIsLeast(b, a[0]);
    StrLeqAntisymmetric(a[0], b[0]);
  }

  lemma TailMultiset<T>(a: seq<T>)
    requires a != []
    ensures multiset(a[1..]) == multiset(a) - multiset{a[0]}
  {
    assert a == [a[0]] + a[1..];
  }

  lemma {:induction false} SortedUnique(a: seq<string>, b: seq<string>)
    requires Sorted(a) && Sorted(b) && multiset(a) == multiset(b)
    ensures a == b
  {
    assert |a| == |multiset(a)| && |b| == |multiset(b)|;
    if a != [] {
      SameHead(a, b);
      TailMultiset(a);
      TailMultiset(b);
      SortedUnique(a[1..], b[1..]);
      assert a == [a[0]] + a[1..] && b == [b[0]] + b[1..];
    }
  }

  lemma StrLeqReflexive(a: string)
    ensures StrLeq(a, a)
  {
    StrLeqTotal(a, a);
  }

  // Sorting depends only on which strings occur and how often.
  lemma SortCanonical(a: seq<string>, b: seq<string>)
    ensures Sort(a) == Sort(b) <==> multiset(a) == multiset(b)
  {
    SortSorted(a);
    SortSorted(b);
    if multiset(a) == multiset(b) { SortedUnique(Sort(a), Sort(b)); }
  }

  // The keys of a map in sorted order, whatever order a loop visits them in.
  ghost function SortedKeys(keys: set<string>): (r: seq<string>)
    ensures multiset(r) == multiset(keys)
  {
    if keys == {} then []
    else
      var x :| x in keys;
      assert multiset(keys) == multiset{x} + multiset(keys - {x});
      Insert(x, SortedKeys(keys - {x}))
  }

  lemma {:induction false} SortedKeysSorted(keys: set<string>)
    ensures Sorted(SortedKeys(keys))
  {
    if keys != {} {
      var x :| x in keys && SortedKeys(keys) == Insert(x, SortedKeys(keys - {x}));
      SortedKeysSorted(keys - {x});
      InsertSorted(x, SortedKeys(keys - {x}));
    }
  }

  lemma SortOfKeys(listed: seq<string>, keys: set<string>)
    requires multiset(listed) == multiset(keys)
    ensures Sort(listed) == SortedKeys(keys)
  {
    SortSorted(listed);
    SortedKeysSorted(keys);
    SortedUnique(Sort(listed), SortedKeys(keys));
  }
}
