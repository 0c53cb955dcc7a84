/** Lexicographic order, and sorting by a key: Python's order on bytes objects and
    JavaScript's on strings, and the sorts both programs rely on. */
module Ordering {
  type Key = seq<int>

  predicate LexLess(a: Key, b: Key) {
    b != [] && (a == [] || a[0] < b[0] || (a[0] == b[0] && LexLess(a[1..], b[1..])))
  }

  lemma {:induction false} LexTotal(a: Key, b: Key)
    ensures a == b || LexLess(a, b) || LexLess(b, a)
  {
    if a != [] && b != [] && a[0] == b[0] {
      LexTotal(a[1..], b[1..]);
      assert a == [a[0]] + a[1..] && b == [b[0]] + b[1..];
    }
  }

  lemma {:induction false} LexTransitive(a: Key, b: Key, c: Key)
    requires LexLess(a, b) && LexLess(b, c)
    ensures LexLess(a, c)
  {
    if a != [] && a[0] == b[0] == c[0] {
      LexTransitive(a[1..], b[1..], c[1..]);
    }
  }

  lemma {:induction false} LexIrreflexive(a: Key)
    ensures !LexLess(a, a)
  {
    if a != [] {
      LexIrreflexive(a[1..]);
    }
  }

  lemma LexOrdered(a: Key, b: Key)
    ensures !LexLess(a, a) && (a == b || LexLess(a, b) || LexLess(b, a)) && !(LexLess(a, b) && LexLess(b, a))
  {
    LexIrreflexive(a);
    LexTotal(a, b);
    if LexLess(a, b) && LexLess(b, a) {
      LexTransitive(a, b, a);
    }
  }

  /** The character codes of a text, the key texts are sorted by. */
  function Codes(t: string): (r: Key)
    ensures |r| == |t| && forall i :: 0 <= i < |t| ==> r[i] == t[i] as int
  {
    seq(|t|, i requires 0 <= i < |t| => t[i] as int)
  }

  lemma CodesInjective(a: string, b: string)
    ensures Codes(a) == Codes(b) <==> a == b
  {
    if Codes(a) == Codes(b) {
      forall i | 0 <= i < |a| ensures a[i] == b[i] {
        assert Codes(a)[i] == Codes(b)[i];
      }
    }
  }

  predicate NoRepeats(s: seq<string>) {
    forall i, j :: 0 <= i < j < |s| ==> s[i] != s[j]
  }

  // ---------- sorting ----------

  function InsertBy<T(!new)>(key: T -> Key, x: T, s: seq<T>): (r: seq<T>)
    ensures |r| == |s| + 1 && forall y :: y in r <==> y == x || y in s
  {
    if s == [] || !LexLess(key(s[0]), key(x)) then [x] + s
    else
      assert forall y :: y in s <==> y == s[0] || y in s[1..];
      [s[0]] + InsertBy(key, x, s[1..])
  }

  /** The stable sort by key. */
  function SortBy<T(!new)>(key: T -> Key, s: seq<T>): (r: seq<T>)
    ensures |r| == |s| && forall y :: y in r <==> y in s
  {
    if s == [] then []
    else
      assert forall y :: y in s <==> y == s[0] || y in s[1..];
      InsertBy(key, s[0], SortBy(key, s[1..]))
  }

  predicate Ascending<T>(key: T -> Key, s: seq<T>) {
    forall i, j :: 0 <= i < j < |s| ==> LexLess(key(s[i]), key(s[j]))
  }

  predicate DistinctBy<T>(key: T -> Key, s: seq<T>) {
    forall i, j :: 0 <= i < j < |s| ==> key(s[i]) != key(s[j])
  }

  lemma CodesDistinct(s: seq<string>)
    requires NoRepeats(s)
    ensures DistinctBy(Codes, s)
  {
    forall i, j | 0 <= i < j < |s| ensures Codes(s[i]) != Codes(s[j]) {
      CodesInjective(s[i], s[j]);
    }
  }

  lemma {:induction false} InsertAscends<T(!new)>(key: T -> Key, x: T, s: seq<T>)
    requires Ascending(key, s) && forall y <- s :: key(y) != key(x)
    ensures Ascending(key, InsertBy(key, x, s))
  {
    if s != [] {
      LexOrdered(key(s[0]), key(x));
      if LexLess(key(s[0]), key(x)) {
        InsertAscends(key, x, s[1..]);
        var rest := InsertBy(key, x, s[1..]);
        forall j | 0 <= j < |rest| ensures LexLess(key(s[0]), key(rest[j])) {
          assert rest[j] == x || rest[j] in s[1..];
        }
      } else {
        forall j | 0 <= j < |s| ensures LexLess(key(x), key(s[j])) {
          if j > 0 {
            LexTransitive(key(x), key(s[0]), key(s[j]));
          }
        }
      }
    }
  }

  lemma {:induction false} SortAscends<T(!new)>(key: T -> Key, s: seq<T>)
    requires DistinctBy(key, s)
    ensures Ascending(key, SortBy(key, s))
  {
    if s != [] {
      SortAscends(key, s[1..]);
      InsertAscends(key, s[0], SortBy(key, s[1..]));
    }
  }

  lemma FirstLeast<T>(key: T -> Key, s: seq<T>, x: T)
    requires Ascending(key, s) && x in s
    ensures x == s[0] || LexLess(key(s[0]), key(x))
  {
  }

  lemma AscendingTail<T>(key: T -> Key, s: seq<T>)
    requires Ascending(key, s) && s != []
    ensures Ascending(key, s[1..]) && s[0] !in s[1..]
  {
    LexIrreflexive(key(s[0]));
  }

  /** Ascending lists with the same members are equal. */
  lemma {:induction false} OneOrder<T(!new)>(key: T -> Key, a: seq<T>, b: seq<T>)
    requires Ascending(key, a) && Ascending(key, b) && forall x :: x in a <==> x in b
    ensures a == b
  {
    assert a != [] ==> a[0] in b;
    assert b != [] ==> b[0] in a;
    if a != [] {
      FirstLeast(key, a, b[0]);
      FirstLeast(key, b, a[0]);
      LexOrdered(key(a[0]), key(b[0]));
      AscendingTail(key, a);
      AscendingTail(key, b);
      forall x ensures x in a[1..] <==> x in b[1..] {
        assert x in a <==> x == a[0] || x in a[1..];
        assert x in b <==> x == b[0] || x in b[1..];
      }
      OneOrder(key, a[1..], b[1..]);
    }
  }

  /** Lists without repeated keys sort alike exactly if they have the same members. */
  lemma SortExactly<T(!new)>(key: T -> Key, a: seq<T>, b: seq<T>)
    requires DistinctBy(key, a) && DistinctBy(key, b)
    ensures SortBy(key, a) == SortBy(key, b) <==> forall x :: x in a <==> x in b
  {
    SortAscends(key, a);
    SortAscends(key, b);
    if forall x :: x in a <==> x in b {
      OneOrder(key, SortBy(key, a), SortBy(key, b));
    }
    if SortBy(key, a) == SortBy(key, b) {
      forall x ensures x in a <==> x in b {
        assert x in a <==> x in SortBy(key, a);
      }
    }
  }
}
