/** The stable sort of Python's `sorted` / `list.sort`, and its string order. */
module Sorting {

  ghost predicate TotalPreorder<T(!new)>(le: (T, T) -> bool) {
    && (forall x :: le(x, x))
    && (forall x, y :: le(x, y) || le(y, x))
    && (forall x, y, z :: le(x, y) && le(y, z) ==> le(x, z))
  }

  ghost predicate SortedBy<T>(le: (T, T) -> bool, s: seq<T>) {
    forall i, j | 0 <= i < j < |s| :: le(s[i], s[j])
  }

  /** Puts `x` before the first element it is at or below: earlier equals stay in front. */
  function Insert<T>(le: (T, T) -> bool, x: T, s: seq<T>): (r: seq<T>) {
    if s == [] || le(x, s[0]) then [x] + s else [s[0]] + Insert(le, x, s[1..])
  }

  function Sort<T>(le: (T, T) -> bool, s: seq<T>): (r: seq<T>) {
    if s == [] then [] else Insert(le, s[0], Sort(le, s[1..]))
  }

  lemma HeadAndTail<T>(s: seq<T>)
    requires s != []
    ensures multiset(s) == multiset{s[0]} + multiset(s[1..])
  {
    assert s == [s[0]] + s[1..];
  }

  lemma {:induction false} InsertPermutes<T>(le: (T, T) -> bool, x: T, s: seq<T>)
    ensures multiset(Insert(le, x, s)) == multiset(s) + multiset{x}
  {
    if s != [] && !le(x, s[0]) {
      InsertPermutes(le, x, s[1..]);
      HeadAndTail(s);
    }
  }

  lemma {:induction false} SortPermutes<T>(le: (T, T) -> bool, s: seq<T>)
    ensures multiset(Sort(le, s)) == multiset(s)
  {
    if s != [] {
      SortPermutes(le, s[1..]);
      InsertPermutes(le, s[0], Sort(le, s[1..]));
      assert s == [s[0]] + s[1..];
    }
  }

  lemma SameMembers<T>(s: seq<T>, t: seq<T>)
    requires multiset(s) == multiset(t)
    ensures |s| == |t|
    ensures forall x :: x in s <==> x in t
  {
    assert |s| == |multiset(s)| == |multiset(t)| == |t|;
    forall x ensures x in s <==> x in t {
      assert x in s <==> x in multiset(s);
      assert x in t <==> x in multiset(t);
    }
  }

  lemma {:induction false} InsertedMembers<T>(le: (T, T) -> bool, x: T, s: seq<T>, y: T)
    ensures y in Insert(le, x, s) ==> y == x || y in s
  {
    if s != [] && !le(x, s[0]) {
      InsertedMembers(le, x, s[1..], y);
    }
  }

  lemma InTail<T>(s: seq<T>, y: T)
    requires s != [] && y in s[1..]
    ensures exists j :: 0 < j < |s| && s[j] == y
  {
    var k :| 0 <= k < |s| - 1 && s[1..][k] == y;
    assert s[k + 1] == y;
  }

  lemma {:induction false} InsertSorted<T(!new)>(le: (T, T) -> bool, x: T, s: seq<T>)
    requires TotalPreorder(le) && SortedBy(le, s)
    ensures SortedBy(le, Insert(le, x, s))
  {
    if s == [] || le(x, s[0]) {
    } else {
      InsertSorted(le, x, s[1..]);
      var rest := Insert(le, x, s[1..]);
      forall j | 0 <= j < |rest| ensures le(s[0], rest[j]) {
        InsertedMembers(le, x, s[1..], rest[j]);
        if rest[j] != x { InTail(s, rest[j]); }
      }
    }
  }

  lemma {:induction false} SortSorted<T(!new)>(le: (T, T) -> bool, s: seq<T>)
    requires TotalPreorder(le)
    ensures SortedBy(le, Sort(le, s))
  {
    if s != [] {
      SortSorted(le, s[1..]);
      InsertSorted(le, s[0], Sort(le, s[1..]));
    }
  }

  lemma {:induction false} SortOfSorted<T(!new)>(le: (T, T) -> bool, s: seq<T>)
    requires SortedBy(le, s)
    ensures Sort(le, s) == s
  {
    if s != [] {
      SortOfSorted(le, s[1..]);
    }
  }

  /** Puts `x` after the leading elements at or below it. */
  function InsertAfter<T>(le: (T, T) -> bool, s: seq<T>, x: T): (r: seq<T>) {
    if s == [] || !le(s[0], x) then [x] + s else [s[0]] + InsertAfter(le, s[1..], x)
  }

  lemma {:induction false} InsertCons<T>(le: (T, T) -> bool, y: T, x: T, s: seq<T>)
    ensures Insert(le, y, [x] + s) == if le(y, x) then [y, x] + s else [x] + Insert(le, y, s)
    ensures InsertAfter(le, [x] + s, y) ==
            if le(x, y) then [x] + InsertAfter(le, s, y) else [y, x] + s
  {
    assert ([x] + s)[1..] == s;
    assert [y] + ([x] + s) == [y, x] + s;
  }

  lemma {:induction false} InsertCommutes<T(!new)>(le: (T, T) -> bool, y: T, s: seq<T>, x: T)
    requires TotalPreorder(le)
    ensures Insert(le, y, InsertAfter(le, s, x)) == InsertAfter(le, Insert(le, y, s), x)
  {
    if s == [] {
      InsertCons(le, y, x, []);
      InsertCons(le, x, y, []);
    } else {
      var h, t := s[0], s[1..];
      assert s == [h] + t;
      assert le(y, h) && le(h, x) ==> le(y, x);
      assert le(y, x) && !le(h, x) ==> le(y, h);
      InsertCons(le, y, h, t);
      InsertCons(le, x, h, t);
      InsertCons(le, y, x, s);
      InsertCons(le, x, y, s);
      InsertCons(le, y, h, InsertAfter(le, t, x));
      InsertCons(le, x, h, Insert(le, y, t));
      InsertCommutes(le, y, t, x);
      if le(h, x) && le(y, h) {
        assert [y, h] + t == [y] + s;
        assert [y, h] + InsertAfter(le, t, x) == [y] + InsertAfter(le, s, x);
      } else if !le(h, x) && le(y, x) {
        assert [y, x] + s == [y] + ([x] + s);
      } else if !le(h, x) {
        assert [x, h] + t == [x] + s;
        if le(y, h) {
          assert Insert(le, y, s) == [y] + s;
          assert [x] + ([y] + s) == [x, y] + s;
        } else {
          assert Insert(le, y, s) == [h] + Insert(le, y, t);
          assert [x] + ([h] + Insert(le, y, t)) == [x, h] + Insert(le, y, t);
        }
      }
    }
  }

  /** Appending an element to the input puts it after everything at or below it. */
  lemma {:induction false} SortSnoc<T(!new)>(le: (T, T) -> bool, s: seq<T>, x: T)
    requires TotalPreorder(le)
    ensures Sort(le, s + [x]) == InsertAfter(le, Sort(le, s), x)
  {
    if s == [] {
      assert s + [x] == [x] && [x][1..] == [];
    } else {
      assert (s + [x])[0] == s[0] && (s + [x])[1..] == s[1..] + [x];
      SortSnoc(le, s[1..], x);
      InsertCommutes(le, s[0], Sort(le, s[1..]), x);
    }
  }

  /** In a sorted sequence that place separates the elements at or below from those above. */
  lemma {:induction false} InsertAfterSplits<T(!new)>(le: (T, T) -> bool, s: seq<T>, x: T, n: nat)
    requires n <= |s| && forall i | 0 <= i < n :: le(s[i], x)
    requires n < |s| ==> !le(s[n], x)
    ensures InsertAfter(le, s, x) == s[..n] + [x] + s[n..]
  {
    if n > 0 {
      InsertAfterSplits(le, s[1..], x, n - 1);
      assert s[..n] == [s[0]] + s[1..][..n - 1];
    }
  }

  /** Two sorted arrangements of the same values under an antisymmetric order are one. */
  lemma {:induction false} SortedIsCanonical<T(!new)>(le: (T, T) -> bool, s: seq<T>, t: seq<T>)
    requires forall x :: le(x, x)
    requires forall x, y :: le(x, y) && le(y, x) ==> x == y
    requires SortedBy(le, s) && SortedBy(le, t) && multiset(s) == multiset(t)
    ensures s == t
  {
    SameMembers(s, t);
    if s != [] {
      assert s[0] in t && t[0] in s;
      assert s[0] == t[0] by {
        assert le(s[0], t[0]) && le(t[0], s[0]);
      }
      SameTails(s, t);
      SortedIsCanonical(le, s[1..], t[1..]);
    }
  }

  lemma SameTails<T>(s: seq<T>, t: seq<T>)
    requires s != [] && t != [] && s[0] == t[0] && multiset(s) == multiset(t)
    ensures multiset(s[1..]) == multiset(t[1..])
  {
    assert s == [s[0]] + s[1..] && t == [t[0]] + t[1..];
    assert multiset(s[1..]) == multiset(s) - multiset{s[0]};
    assert multiset(t[1..]) == multiset(t) - multiset{t[0]};
  }

  // Code-point order on strings

  predicate StringLe(a: string, b: string) {
    if a == [] then true
    else if b == [] then false
    else if a[0] != b[0] then a[0] < b[0]
    else StringLe(a[1..], b[1..])
  }

  lemma {:induction false} StringLeTotal(a: string, b: string)
    ensures StringLe(a, b) || StringLe(b, a)
    ensures StringLe(a, b) && StringLe(b, a) ==> a == b
  {
    if a != [] && b != [] && a[0] == b[0] {
      StringLeTotal(a[1..], b[1..]);
      assert a == [a[0]] + a[1..] && b == [b[0]] + b[1..];
    }
  }

  lemma {:induction false} StringLeTransitive(a: string, b: string, c: string)
    requires StringLe(a, b) && StringLe(b, c)
    ensures StringLe(a, c)
  {
    if a != [] && a[0] == b[0] && b[0] == c[0] {
      StringLeTransitive(a[1..], b[1..], c[1..]);
    }
  }

  lemma StringOrder()
    ensures TotalPreorder(StringLe)
    ensures forall a, b :: StringLe(a, b) && StringLe(b, a) ==> a == b
  {
    forall a, b, c ensures StringLe(a, b) && StringLe(b, c) ==> StringLe(a, c) {
      if StringLe(a, b) && StringLe(b, c) { StringLeTransitive(a, b, c); }
    }
    forall a, b
      ensures (StringLe(a, b) || StringLe(b, a)) && (StringLe(a, b) && StringLe(b, a) ==> a == b)
    {
      StringLeTotal(a, b);
    }
    forall a ensures StringLe(a, a) { StringLeTotal(a, a); }
  }
}
