/**
 utils.EqualStringSlice: two lists hold the same strings, compared by sorting copies.
 */
module StringSlices {

  predicate StringLessEq(a: string, b: string) {
    a == "" || (b != "" && (a[0] < b[0] || (a[0] == b[0] && StringLessEq(a[1..], b[1..]))))
  }

  lemma {:induction false} StringLessEqTotal(a: string, b: string)
    ensures StringLessEq(a, b) || StringLessEq(b, a)
    ensures StringLessEq(a, b) && StringLessEq(b, a) ==> a == b
  {
    if a != "" && b != "" {
      StringLessEqTotal(a[1..], b[1..]);
      assert a == [a[0]] + a[1..] && b == [b[0]] + b[1..];
    }
  }

  lemma {:induction false} StringLessEqTransitive(a: string, b: string, c: string)
    requires StringLessEq(a, b) && StringLessEq(b, c)
    ensures StringLessEq(a, c)
  {
    if a != "" && a[0] == b[0] == c[0] { StringLessEqTransitive(a[1..], b[1..], c[1..]); }
  }

  predicate Sorted(s: seq<string>) {
    forall i, j :: 0 <= i <= j < |s| ==> StringLessEq(s[i], s[j])
  }

  /** Inserts x into a sorted list. */
  function Insert(x: string, s: seq<string>): (r: seq<string>)
    ensures multiset(r) == multiset(s) + multiset{x}
  {
    if s == [] then [x]
    else
      assert s == [s[0]] + s[1..];
      if StringLessEq(x, s[0]) then [x] + s
      else [s[0]] + Insert(x, s[1..])
  }

  lemma SortedFront(first: string, rest: seq<string>)
    requires Sorted(rest) && forall j :: 0 <= j < |rest| ==> StringLessEq(first, rest[j])
    ensures Sorted([first] + rest)
  {
    StringLessEqTotal(first, first);
  }

  lemma BelowAll(x: string, s: seq<string>)
    requires Sorted(s) && s != [] && StringLessEq(x, s[0])
    ensures forall j :: 0 <= j < |s| ==> StringLessEq(x, s[j])
  {
    forall j | 0 <= j < |s|
      ensures StringLessEq(x, s[j])
    {
      StringLessEqTransitive(x, s[0], s[j]);
    }
  }

  lemma BelowInserted(first: string, x: string, s: seq<string>)
    requires StringLessEq(first, x) && forall j :: 0 <= j < |s| ==> StringLessEq(first, s[j])
    ensures forall j :: 0 <= j < |Insert(x, s)| ==> StringLessEq(first, Insert(x, s)[j])
  {
    forall j | 0 <= j < |Insert(x, s)|
      ensures StringLessEq(first, Insert(x, s)[j])
    {
      var y := Insert(x, s)[j];
      assert y in multiset(Insert(x, s));
      assert y == x || y in s;
    }
  }

  lemma {:induction false} InsertSorted(x: string, s: seq<string>)
    requires Sorted(s)
    ensures Sorted(Insert(x, s))
  {
    if s == [] {
      StringLessEqTotal(x, x);
    } else if StringLessEq(x, s[0]) {
      BelowAll(x, s);
      SortedFront(x, s);
    } else {
      StringLessEqTotal(x, s[0]);
      InsertSorted(x, s[1..]);
      BelowInserted(s[0], x, s[1..]);
      SortedFront(s[0], Insert(x, s[1..]));
    }
  }

  /** sort.Strings, by insertion. */
  function SortStrings(s: seq<string>): (r: seq<string>)
    ensures multiset(r) == multiset(s)
  {
    if s == [] then []
    else
      assert s == [s[0]] + s[1..];
      Insert(s[0], SortStrings(s[1..]))
  }

  lemma {:induction false} SortStringsSorted(s: seq<string>)
    ensures Sorted(SortStrings(s))
  {
    if s != [] {
      SortStringsSorted(s[1..]);
      InsertSorted(s[0], SortStrings(s[1..]));
    }
  }

  lemma SameFirst(s: seq<string>, t: seq<string>)
    requires Sorted(s) && Sorted(t) && multiset(s) == multiset(t) && s != [] && t != []
    ensures s[0] == t[0]
  {
    assert s[0] in multiset(t) && t[0] in multiset(s);
    StringLessEqTotal(s[0], t[0]);
  }

  lemma SameRest(s: seq<string>, t: seq<string>)
    requires s != [] && t != [] && s[0] == t[0] && multiset(s) == multiset(t)
    ensures multiset(s[1..]) == multiset(t[1..])
  {
    assert s == [s[0]] + s[1..] && t == [t[0]] + t[1..];
    assert multiset(s[1..]) == multiset(s) - multiset{s[0]};
    assert multiset(t[1..]) == multiset(t) - multiset{t[0]};
  }

  /** A sorted list is determined by its elements. */
  lemma {:induction false} SortedUnique(s: seq<string>, t: seq<string>)
    requires Sorted(s) && Sorted(t) && multiset(s) == multiset(t)
    ensures s == t
  {
    assert |s| == |multiset(s)| == |multiset(t)| == |t|;
    if s != [] {
      SameFirst(s, t);
      SameRest(s, t);
      SortedUnique(s[1..], t[1..]);
      assert s == [s[0]] + s[1..] && t == [t[0]] + t[1..];
    }
  }

  lemma SameSorted(list1: seq<string>, list2: seq<string>)
    ensures multiset(list1) == multiset(list2) <==> SortStrings(list1) == SortStrings(list2)
  {
    if multiset(list1) == multiset(list2) {
      SortStringsSorted(list1);
      SortStringsSorted(list2);
      SortedUnique(SortStrings(list1), SortStrings(list2));
    }
  }

  lemma SortedLength(list: seq<string>)
    ensures |SortStrings(list)| == |list|
  {
    assert |list| == |multiset(list)| && |SortStrings(list)| == |multiset(SortStrings(list))|;
  }

  /** The loop over both sorted copies. */
  method EqualAtAll(s1: seq<string>, s2: seq<string>) returns (same: bool)
    requires |s1| == |s2|
    ensures same <==> s1 == s2
  {
    for i := 0 to |s1|
      invariant forall j :: 0 <= j < i ==> s1[j] == s2[j]
    {
      if s1[i] != s2[i] {
        return false;
      }
    }
    same := true;
  }

  method EqualStringSlice(list1: seq<string>, list2: seq<string>) returns (same: bool)
    ensures same <==> multiset(list1) == multiset(list2)
  {
    SameSorted(list1, list2);
    SortedLength(list1);
    SortedLength(list2);
    if |list1| != |list2| {
      return false;
    }
    same := EqualAtAll(SortStrings(list1), SortStrings(list2));
  }
}
