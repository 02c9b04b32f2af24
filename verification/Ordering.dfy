/** The default JavaScript sort of strings: lexicographic on code units, and what sorting determines. */
module Ordering {

  /** `a` comes before `b` or is equal to it. */
  predicate AtMost(a: string, b: string) {
    a == "" || (b != "" && (a[0] < b[0] || (a[0] == b[0] && AtMost(a[1..], b[1..]))))
  }

  lemma {:induction false} Total(a: string, b: string)
    ensures AtMost(a, b) || AtMost(b, a)
  {
    if a != "" && b != "" && a[0] == b[0] {
      Total(a[1..], b[1..]);
    }
  }

  lemma {:induction false} Antisymmetric(a: string, b: string)
    requires AtMost(a, b) && AtMost(b, a)
    ensures a == b
  {
    if a != "" && b != "" {
      Antisymmetric(a[1..], b[1..]);
      assert a == [a[0]] + a[1..] && b == [b[0]] + b[1..];
    }
  }

  lemma {:induction false} Transitive(a: string, b: string, c: string)
    requires AtMost(a, b) && AtMost(b, c)
    ensures AtMost(a, c)
  {
    if a != "" && b != "" && a[0] == b[0] == c[0] {
      Transitive(a[1..], b[1..], c[1..]);
    }
  }

  predicate Sorted(list: seq<string>) {
    forall i, j {:trigger AtMost(list[i], list[j])} | 0 <= i < j < |list| :: AtMost(list[i], list[j])
  }

  lemma TailSorted(list: seq<string>)
    requires Sorted(list) && list != []
    ensures Sorted(list[1..])
  {
    forall i, j | 0 <= i < j < |list[1..]| ensures AtMost(list[1..][i], list[1..][j]) {
      assert AtMost(list[i + 1], list[j + 1]);
    }
  }

  function Insert(x: string, list: seq<string>): (r: seq<string>)
    ensures multiset(r) == multiset{x} + multiset(list)
  {
    if list == [] then [x]
    else
      assert list == [list[0]] + list[1..];
      if AtMost(x, list[0]) then [x] + list else [list[0]] + Insert(x, list[1..])
  }

  function Sort(list: seq<string>): (r: seq<string>)
    ensures multiset(r) == multiset(list)
  {
    if list == [] then []
    else
      assert list == [list[0]] + list[1..];
      Insert(list[0], Sort(list[1..]))
  }

  lemma MemberOfEqual<T>(a: seq<T>, b: seq<T>)
    requires multiset(a) == multiset(b)
    ensures |a| == |b| && forall x :: x in a <==> x in b
  {
    assert |multiset(a)| == |multiset(b)|;
    assert forall x :: x in a <==> x in multiset(a);
    assert forall x :: x in b <==> x in multiset(b);
  }

  lemma {:induction false} InsertSorted(x: string, list: seq<string>)
    requires Sorted(list)
    ensures Sorted(Insert(x, list))
  {
    if list != [] {
      var head, rest := list[0], list[1..];
      TailSorted(list);
      if AtMost(x, head) {
        forall j | 0 <= j < |list| ensures AtMost(x, list[j]) {
          if j > 0 {
            assert AtMost(head, list[j]);
            Transitive(x, head, list[j]);
          }
        }
        ConsSorted(x, list);
      } else {
        Total(x, head);
        InsertSorted(x, rest);
        var r := Insert(x, rest);
        forall j | 0 <= j < |r| ensures AtMost(head, r[j]) {
          assert r[j] in multiset(r);
          if r[j] != x {
            var k :| 0 <= k < |rest| && rest[k] == r[j];
            assert AtMost(list[0], list[k + 1]);
          }
        }
        ConsSorted(head, r);
      }
    }
  }

  lemma ConsSorted(x: string, list: seq<string>)
    requires Sorted(list) && forall j | 0 <= j < |list| :: AtMost(x, list[j])
    ensures Sorted([x] + list)
  {
    forall i, j | 0 <= i < j < |[x] + list| ensures AtMost(([x] + list)[i], ([x] + list)[j]) {
      if i > 0 {
        assert AtMost(list[i - 1], list[j - 1]);
      }
    }
  }

  lemma {:induction false} SortSorted(list: seq<string>)
    ensures Sorted(Sort(list))
  {
    if list != [] {
      SortSorted(list[1..]);
      InsertSorted(list[0], Sort(list[1..]));
    }
  }

  lemma TailOf<T>(a: seq<T>)
    requires a != []
    ensures multiset(a[1..]) == multiset(a) - multiset{a[0]}
  {
    assert a == [a[0]] + a[1..];
  }

  lemma SortedHead(a: seq<string>, x: string)
    requires Sorted(a) && x in a
    ensures AtMost(a[0], x)
  {
    var i :| 0 <= i < |a| && a[i] == x;
    if i == 0 {
      Total(x, x);
    } else {
      assert AtMost(a[0], a[i]);
    }
  }

  /** A sorted list is determined by what it holds. */
  lemma {:induction false} SortedUnique(a: seq<string>, b: seq<string>)
    requires Sorted(a) && Sorted(b) && multiset(a) == multiset(b)
    ensures a == b
    decreases |a|
  {
    MemberOfEqual(a, b);
    if a != [] {
      assert a[0] in a && b[0] in b;
      SortedHead(a, b[0]);
      SortedHead(b, a[0]);
      Antisymmetric(a[0], b[0]);
      TailOf(a);
      TailOf(b);
      TailSorted(a);
      TailSorted(b);
      SortedUnique(a[1..], b[1..]);
      assert a == [a[0]] + a[1..] && b == [b[0]] + b[1..];
    }
  }

  /** Sorting forgets the order and nothing else. */
  lemma SortedAlikeIffPermuted(a: seq<string>, b: seq<string>)
    ensures Sort(a) == Sort(b) <==> multiset(a) == multiset(b)
  {
    if multiset(a) == multiset(b) {
      SortSorted(a);
      SortSorted(b);
      SortedUnique(Sort(a), Sort(b));
    } else {
      assert multiset(Sort(a)) != multiset(Sort(b));
    }
  }

  function Mapped<T>(f: T -> string, list: seq<T>): seq<string> {
    seq(|list|, i requires 0 <= i < |list| => f(list[i]))
  }

  lemma {:induction false} MappedCount<T>(f: T -> string, list: seq<T>, x: T)
    requires forall y | y in list && f(y) == f(x) :: y == x
    ensures multiset(Mapped(f, list))[f(x)] == multiset(list)[x]
  {
    if list == [] {
      assert Mapped(f, list) == [];
    } else {
      MappedCount(f, list[1..], x);
      assert list == [list[0]] + list[1..];
      assert Mapped(f, list) == [f(list[0])] + Mapped(f, list[1..]);
      assert list[0] in list;
    }
  }

  /** Distinct values rendered distinctly: the renderings are permuted exactly when the values are. */
  lemma MappedAlikeIffPermuted<T(!new)>(f: T -> string, a: seq<T>, b: seq<T>)
    requires forall x, y :: f(x) == f(y) ==> x == y
    ensures multiset(Mapped(f, a)) == multiset(Mapped(f, b)) <==> multiset(a) == multiset(b)
  {
    if multiset(Mapped(f, a)) == multiset(Mapped(f, b)) {
      forall x ensures multiset(a)[x] == multiset(b)[x] {
        MappedCount(f, a, x);
        MappedCount(f, b, x);
      }
    }
    if multiset(a) == multiset(b) {
      forall t ensures multiset(Mapped(f, a))[t] == multiset(Mapped(f, b))[t] {
        if x :| f(x) == t {
          MappedCount(f, a, x);
          MappedCount(f, b, x);
        } else {
          assert t !in Mapped(f, a) && t !in Mapped(f, b);
        }
      }
    }
  }
}
