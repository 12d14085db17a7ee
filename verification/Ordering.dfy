/** Byte-wise string order, sorting, and the facts about sorted sequences used by the printers
    and the resolvers. */
module Ordering {
  import opened Prelude

  type Order<!T> = (T, T) -> bool

  ghost predicate TotalPreorder<T(!new)>(le: Order<T>) {
    && (forall x, y :: le(x, y) || le(y, x))
    && (forall x, y, z :: le(x, y) && le(y, z) ==> le(x, z))
  }

  ghost predicate Sorted<T>(s: seq<T>, le: Order<T>) {
    forall i, j :: 0 <= i < j < |s| ==> le(s[i], s[j])
  }

  function Insert<T>(x: T, s: seq<T>, le: Order<T>): seq<T> {
    if s == [] then [x]
    else if le(x, s[0]) then [x] + s
    else [s[0]] + Insert(x, s[1..], le)
  }

  function SortBy<T>(s: seq<T>, le: Order<T>): seq<T> {
    if s == [] then [] else Insert(s[0], SortBy(s[1..], le), le)
  }

  lemma {:induction false} InsertPermutes<T>(x: T, s: seq<T>, le: Order<T>)
    ensures multiset(Insert(x, s, le)) == multiset(s) + multiset{x}
  {
    if s != [] && !le(x, s[0]) {
      InsertPermutes(x, s[1..], le);
      assert s == [s[0]] + s[1..];
    }
  }

  lemma {:induction false} InsertSorts<T(!new)>(x: T, s: seq<T>, le: Order<T>)
    requires TotalPreorder(le) && Sorted(s, le)
    ensures Sorted(Insert(x, s, le), le)
  {
    if s != [] && !le(x, s[0]) {
      var t := Insert(x, s[1..], le);
      InsertSorts(x, s[1..], le);
      InsertPermutes(x, s[1..], le);
      forall i | 0 <= i < |t|
        ensures le(s[0], t[i])
      {
        assert t[i] in multiset(t);
        assert t[i] == x || t[i] in s[1..];
      }
    }
  }

  lemma {:induction false} SortPermutes<T>(s: seq<T>, le: Order<T>)
    ensures multiset(SortBy(s, le)) == multiset(s)
    ensures |SortBy(s, le)| == |s|
    ensures forall x :: x in SortBy(s, le) <==> x in s
  {
    if s != [] {
      SortPermutes(s[1..], le);
      InsertPermutes(s[0], SortBy(s[1..], le), le);
      assert s == [s[0]] + s[1..];
    }
    SameMultiset(SortBy(s, le), s);
  }

  lemma SameMultiset<T>(a: seq<T>, b: seq<T>)
    requires multiset(a) == multiset(b)
    ensures |a| == |b|
    ensures forall x :: x in a <==> x in b
  {
    assert |multiset(a)| == |a| && |multiset(b)| == |b|;
    forall x
      ensures x in a <==> x in b
    {
      assert x in a <==> x in multiset(a);
      assert x in b <==> x in multiset(b);
    }
  }

  lemma {:induction false} SortSorts<T(!new)>(s: seq<T>, le: Order<T>)
    requires TotalPreorder(le)
    ensures Sorted(SortBy(s, le), le)
  {
    if s != [] {
      SortSorts(s[1..], le);
      InsertSorts(s[0], SortBy(s[1..], le), le);
    }
  }

  lemma SortedHead<T>(a: seq<T>, x: T, le: Order<T>)
    requires Sorted(a, le) && x in a && le(x, x)
    ensures le(a[0], x)
  {
    var i :| 0 <= i < |a| && a[i] == x;
  }

  ghost predicate TiesAreEqual<T>(a: seq<T>, le: Order<T>) {
    forall x {:trigger TiesAt(a, le, x)} :: x in a ==> TiesAt(a, le, x)
  }

  ghost predicate TiesAt<T>(a: seq<T>, le: Order<T>, x: T) {
    le(x, x) && forall y :: y in a && le(x, y) && le(y, x) ==> x == y
  }

  lemma TailKeepsOrder<T>(a: seq<T>, le: Order<T>)
    requires a != [] && Sorted(a, le)
    ensures Sorted(a[1..], le)
    ensures TiesAreEqual(a, le) ==> TiesAreEqual(a[1..], le)
  {
    if TiesAreEqual(a, le) {
      forall x | x in a[1..] ensures TiesAt(a[1..], le, x) {
        assert TiesAt(a, le, x);
      }
    }
  }

  lemma HeadsAgree<T>(a: seq<T>, b: seq<T>, le: Order<T>)
    requires Sorted(a, le) && Sorted(b, le) && a != [] && b != []
    requires TiesAreEqual(a, le)
    requires forall x :: x in a <==> x in b
    ensures a[0] == b[0]
  {
    assert b[0] in a && a[0] in b;
    assert TiesAt(a, le, a[0]) && TiesAt(a, le, b[0]);
    SortedHead(a, b[0], le);
    SortedHead(b, a[0], le);
  }

  lemma TailMultiset<T>(a: seq<T>)
    requires a != []
    ensures multiset(a[1..]) == multiset(a) - multiset{a[0]}
  {
    assert a == [a[0]] + a[1..];
  }

  lemma SameTails<T>(a: seq<T>, b: seq<T>)
    requires a != [] && b != [] && a[0] == b[0] && multiset(a) == multiset(b)
    ensures multiset(a[1..]) == multiset(b[1..])
  {
    TailMultiset(a);
    TailMultiset(b);
  }

  lemma SameHeads<T>(a: seq<T>, b: seq<T>, le: Order<T>)
    requires Sorted(a, le) && Sorted(b, le) && TiesAreEqual(a, le) && multiset(a) == multiset(b) && a != []
    ensures b != [] && a[0] == b[0]
  {
    SameMultiset(a, b);
    HeadsAgree(a, b, le);
  }

  /** Sorted sequences with the same elements are equal when ties mean equality. */
  lemma {:induction false} SortedUnique<T>(a: seq<T>, b: seq<T>, le: Order<T>)
    requires Sorted(a, le) && Sorted(b, le)
    requires TiesAreEqual(a, le)
    requires multiset(a) == multiset(b)
    ensures a == b
  {
    if a == [] {
      assert |multiset(b)| == 0;
    } else {
      SameHeads(a, b, le);
      SameTails(a, b);
      TailKeepsOrder(a, le);
      TailKeepsOrder(b, le);
      SortedUnique(a[1..], b[1..], le);
      assert a == [a[0]] + a[1..] && b == [b[0]] + b[1..];
    }
  }

  // ---------------------------------------------------------------- strings

  predicate StrLe(a: string, b: string) {
    if a == [] then true
    else if b == [] then false
    else a[0] < b[0] || (a[0] == b[0] && StrLe(a[1..], b[1..]))
  }

  function ByText(): Order<string> { (a: string, b: string) => StrLe(a, b) }

  lemma {:induction false} StrLeTotal(a: string, b: string)
    ensures StrLe(a, b) || StrLe(b, a)
  {
    if a != [] && b != [] && a[0] == b[0] {
      StrLeTotal(a[1..], b[1..]);
    }
  }

  lemma {:induction false} StrLeAntisymmetric(a: string, b: string)
    requires StrLe(a, b) && StrLe(b, a)
    ensures a == b
  {
    if a != [] {
      StrLeAntisymmetric(a[1..], b[1..]);
      assert a == [a[0]] + a[1..] && b == [b[0]] + b[1..];
    }
  }

  lemma {:induction false} StrLeTransitive(a: string, b: string, c: string)
    requires StrLe(a, b) && StrLe(b, c)
    ensures StrLe(a, c)
  {
    if a != [] && a[0] == b[0] == c[0] {
      StrLeTransitive(a[1..], b[1..], c[1..]);
    }
  }

  lemma StrLeOrder()
    ensures TotalPreorder(ByText())
    ensures forall a, b :: ByText()(a, b) && ByText()(b, a) ==> a == b
  {
    forall a: string, b: string
      ensures ByText()(a, b) || ByText()(b, a)
      ensures ByText()(a, b) && ByText()(b, a) ==> a == b
    {
      StrLeTotal(a, b);
      if StrLe(a, b) && StrLe(b, a) {
        StrLeAntisymmetric(a, b);
      }
    }
    forall a: string, b: string, c: string | ByText()(a, b) && ByText()(b, c)
      ensures ByText()(a, c)
    {
      StrLeTransitive(a, b, c);
    }
  }

  function SortText(s: seq<string>): (r: seq<string>)
    ensures multiset(r) == multiset(s) && |r| == |s|
    ensures forall x :: x in r <==> x in s
    ensures Sorted(r, ByText())
  {
    SortPermutes(s, ByText());
    StrLeOrder();
    SortSorts(s, ByText());
    SortBy(s, ByText())
  }

  /** Two lists of strings sort to the same list exactly when they are permutations. */
  lemma SortTextCanonical(a: seq<string>, b: seq<string>)
    ensures SortText(a) == SortText(b) <==> multiset(a) == multiset(b)
  {
    if multiset(a) == multiset(b) {
      StrLeOrder();
      forall x | x in SortText(a) ensures TiesAt(SortText(a), ByText(), x) {
        StrLeTotal(x, x);
      }
      SortedUnique(SortText(a), SortText(b), ByText());
    }
  }

  // ---------------------------------------------------------------- adjacent duplicates

  ghost predicate NoDuplicates<T>(s: seq<T>) {
    forall i, j :: 0 <= i < j < |s| ==> s[i] != s[j]
  }

  /** Keeps the first of every run of equal neighbours. */
  function DropRepeats<T(==)>(s: seq<T>): seq<T> {
    if |s| <= 1 then s
    else if s[0] == s[1] then DropRepeats(s[1..])
    else [s[0]] + DropRepeats(s[1..])
  }

  lemma {:induction false} DropRepeatsKeeps<T>(s: seq<T>)
    ensures forall x :: x in DropRepeats(s) <==> x in s
  {
    if |s| > 1 {
      DropRepeatsKeeps(s[1..]);
      assert s == [s[0]] + s[1..];
    }
  }

  lemma {:induction false} DropRepeatsSorted(s: seq<string>)
    requires Sorted(s, ByText())
    ensures Sorted(DropRepeats(s), ByText()) && NoDuplicates(DropRepeats(s))
  {
    if |s| > 1 {
      DropRepeatsSorted(s[1..]);
      var t := DropRepeats(s[1..]);
      DropRepeatsKeeps(s[1..]);
      if s[0] != s[1] {
        forall i | 0 <= i < |t|
          ensures StrLe(s[0], t[i]) && s[0] != t[i]
        {
          assert t[i] in s[1..];
          var k :| 1 <= k < |s| && s[k] == t[i];
          assert ByText()(s[0], s[k]) && ByText()(s[0], s[1]);
          if k > 1 {
            assert ByText()(s[1], s[k]);
          }
          if s[0] == s[k] {
            StrLeTotal(s[1], s[k]);
            StrLeAntisymmetric(s[0], s[1]);
          }
        }
      }
    }
  }

  lemma {:induction false} NoDuplicatesMultiset<T>(s: seq<T>)
    requires NoDuplicates(s)
    ensures forall x :: multiset(s)[x] == if x in s then 1 else 0
  {
    if s != [] {
      NoDuplicatesMultiset(s[1..]);
      assert s == [s[0]] + s[1..];
    }
  }

  lemma TwiceInMultiset<T>(s: seq<T>, i: nat, j: nat)
    requires i < j < |s| && s[i] == s[j]
    ensures multiset(s)[s[i]] >= 2
  {
    assert s == s[..j] + [s[j]] + s[j + 1..];
    assert s[..j][i] == s[i];
    assert s[i] in multiset(s[..j]);
  }

  lemma PermutationNoDuplicates<T>(a: seq<T>, b: seq<T>)
    requires NoDuplicates(a) && multiset(a) == multiset(b)
    ensures NoDuplicates(b)
  {
    NoDuplicatesMultiset(a);
    forall i, j | 0 <= i < j < |b|
      ensures b[i] != b[j]
    {
      if b[i] == b[j] {
        TwiceInMultiset(b, i, j);
      }
    }
  }

  // ---------------------------------------------------------------- counting and adding in any order

  lemma WithoutLast<T>(a: seq<T>, b: seq<T>) returns (j: nat)
    requires multiset(a) == multiset(b) && a != []
    ensures j < |b| && b[j] == a[|a| - 1] && multiset(a[..|a| - 1]) == multiset(b[..j] + b[j + 1..])
  {
    var n := |a| - 1;
    assert a == a[..n] + [a[n]];
    assert a[n] in multiset(b);
    j :| 0 <= j < |b| && b[j] == a[n];
    assert b == b[..j] + [b[j]] + b[j + 1..];
    assert multiset(b[..j] + b[j + 1..]) == multiset(b) - multiset{b[j]};
  }

  lemma EmptyAlike<T>(b: seq<T>)
    requires multiset(b) == multiset{}
    ensures b == []
  {
    assert |b| == |multiset(b)|;
  }

  lemma {:induction false} CountPermuted<T>(a: seq<T>, b: seq<T>, p: T -> bool)
    requires multiset(a) == multiset(b)
    ensures Count(a, p) == Count(b, p)
  {
    if a == [] {
      EmptyAlike(b);
    } else {
      var j := WithoutLast(a, b);
      CountPermuted(a[..|a| - 1], b[..j] + b[j + 1..], p);
      CountRemove(b, j, p);
    }
  }

  lemma {:induction false} SumPermuted<T>(a: seq<T>, b: seq<T>, f: T -> int)
    requires multiset(a) == multiset(b)
    ensures SumBy(a, f) == SumBy(b, f)
  {
    if a == [] {
      EmptyAlike(b);
    } else {
      var j := WithoutLast(a, b);
      SumPermuted(a[..|a| - 1], b[..j] + b[j + 1..], f);
      SumRemove(b, j, f);
    }
  }
}
