/** Fixed-width integers, optional values and the sequence helpers shared by the other modules. */
module Prelude {

  type Byte = x: int | 0 <= x < 0x100
  type Uint8 = x: int | 0 <= x < 0x100
  type Uint16 = x: int | 0 <= x < 0x1_0000
  type Uint32 = x: int | 0 <= x < 0x1_0000_0000
  type Uint64 = x: int | 0 <= x < 0x1_0000_0000_0000_0000

  /** An instant, in nanoseconds; instants are compared exactly as time.Time.Before does. */
  type Time = int

  datatype Option<+T> = None | Some(value: T)

  predicate Distinct<T(==)>(s: seq<T>) {
    forall i, j :: 0 <= i < j < |s| ==> s[i] != s[j]
  }

  function Elements<T(==)>(s: seq<T>): set<T> {
    set x | x in s
  }

  lemma Associate<T>(a: seq<T>, b: seq<T>, c: seq<T>)
    ensures a + (b + c) == (a + b) + c
  {
  }

  /** What is in one part of a sequence without repetitions is not in another. */
  lemma DistinctParts<T>(s: seq<T>, n: nat, m: nat)
    requires Distinct(s) && n <= m <= |s|
    ensures Distinct(s[..n]) && Distinct(s[n..m])
    ensures forall x :: x in s[..n] ==> x !in s[n..m]
  {
    forall i, j | 0 <= i < n && 0 <= j < m - n ensures s[..n][i] != s[n..m][j] {
      assert s[..n][i] == s[i] && s[n..m][j] == s[n + j];
    }
  }

  lemma MultipleBounds(d: int, c: nat)
    ensures d >= 2 ==> d * c >= 2 * c
    ensures d >= 1 ==> d * c >= c
    ensures d <= 0 ==> d * c <= 0
    ensures d <= -1 ==> d * c <= 0 - c
  {
    if d >= 2 {
      assert d * c == 2 * c + (d - 2) * c;
    } else if d <= -1 {
      assert d * c == (d + 1) * c - c;
    }
  }

  /** A sequence without repetitions has as many elements as its set of elements. */
  lemma {:induction false} DistinctCardinality<T>(s: seq<T>)
    requires Distinct(s)
    ensures |Elements(s)| == |s|
  {
    if s == [] {
    } else {
      DistinctCardinality(s[1..]);
      assert Elements(s) == {s[0]} + Elements(s[1..]);
      assert s[0] !in Elements(s[1..]);
    }
  }

  /** The numbers below n. */
  function Below(n: nat): set<int> {
    if n == 0 then {} else Below(n - 1) + {n - 1}
  }

  lemma {:induction false} BelowFacts(n: nat)
    ensures |Below(n)| == n && forall o :: o in Below(n) <==> 0 <= o < n
  {
    if n == 0 {
    } else {
      BelowFacts(n - 1);
    }
  }

  /** Numbers below n are all of them exactly when there are n. */
  lemma AllBelow(s: set<int>, n: nat)
    requires forall o :: o in s ==> 0 <= o < n
    ensures (forall o :: 0 <= o < n ==> o in s) <==> |s| >= n
    ensures |s| <= n
  {
    BelowFacts(n);
    forall o | o in s ensures o in Below(n) {
      assert 0 <= o < n;
    }
    SubsetSize(s, Below(n));
    if |s| >= n {
      SubsetOfSameSize(s, Below(n));
    }
    if forall o :: 0 <= o < n ==> o in s {
      SubsetSize(Below(n), s);
    }
  }

  lemma SubsetSize<T>(s: set<T>, t: set<T>)
    requires s <= t
    ensures |s| <= |t|
  {
    assert t == s + (t - s);
  }

  lemma SubsetOfSameSize<T>(s: set<T>, t: set<T>)
    requires s <= t && |s| >= |t|
    ensures s == t
  {
    assert t == s + (t - s);
  }

  /** A sequence without repetitions is counted once everywhere by its multiset. */
  lemma {:induction false} DistinctMultiset<T>(s: seq<T>)
    ensures Distinct(s) <==> forall x :: x in s ==> multiset(s)[x] == 1
  {
    if s == [] {
    } else {
      var rest := s[1..];
      assert s == [s[0]] + rest;
      DistinctMultiset(rest);
      assert forall x :: x in rest ==> x in s;
      assert forall x :: x in s ==> x == s[0] || x in rest;
      assert multiset(s)[s[0]] == 1 + multiset(rest)[s[0]];
      assert Distinct(s) <==> s[0] !in rest && Distinct(rest) by {
        if s[0] !in rest && Distinct(rest) {
          forall i, j | 0 <= i < j < |s| ensures s[i] != s[j] {
            assert s[j] == rest[j - 1];
          }
        }
        if Distinct(s) {
          forall i, j | 0 <= i < j < |rest| ensures rest[i] != rest[j] {
            assert rest[i] == s[i + 1] && rest[j] == s[j + 1];
          }
        }
      }
    }
  }

  lemma NoElements<T>(s: seq<T>)
    ensures Elements(s) == {} <==> s == []
  {
    if s != [] {
      assert s[0] in Elements(s);
    }
  }

  lemma OnlyOne<T>(s: seq<T>, x: T)
    requires Distinct(s) && forall y :: y in s <==> y == x
    ensures s == [x]
  {
    DistinctCardinality(s);
    assert Elements(s) == {x};
    assert s[0] in s;
  }

  /** Distinctness depends on the multiset alone. */
  lemma PermutationDistinct<T>(s: seq<T>, t: seq<T>)
    requires multiset(s) == multiset(t) && Distinct(s)
    ensures Distinct(t) && Elements(s) == Elements(t) && |s| == |t|
  {
    DistinctMultiset(s);
    DistinctMultiset(t);
    assert forall x :: x in s <==> x in multiset(s);
    assert forall x :: x in t <==> x in multiset(t);
    assert |multiset(s)| == |multiset(t)|;
  }
}

/** sort.Slice and sort.Strings: what a sorted permutation is, and that one exists. */
module Sorting {
  ghost predicate TotalPreorder<T(!new)>(leq: (T, T) -> bool) {
    && (forall x, y :: leq(x, y) || leq(y, x))
    && (forall x, y, z :: leq(x, y) && leq(y, z) ==> leq(x, z))
  }

  ghost predicate SortedBy<T>(s: seq<T>, leq: (T, T) -> bool) {
    forall i, j :: 0 <= i < j < |s| ==> leq(s[i], s[j])
  }

  function InsertBy<T>(s: seq<T>, x: T, leq: (T, T) -> bool): seq<T> {
    if s == [] || leq(x, s[0]) then [x] + s else [s[0]] + InsertBy(s[1..], x, leq)
  }

  function SortBy<T>(s: seq<T>, leq: (T, T) -> bool): seq<T> {
    if s == [] then [] else InsertBy(SortBy(s[1..], leq), s[0], leq)
  }

  lemma {:induction false} InsertByCorrect<T(!new)>(s: seq<T>, x: T, leq: (T, T) -> bool)
    requires TotalPreorder(leq) && SortedBy(s, leq)
    ensures SortedBy(InsertBy(s, x, leq), leq)
    ensures multiset(InsertBy(s, x, leq)) == multiset(s) + multiset{x}
  {
    if s == [] {
    } else if leq(x, s[0]) {
      forall j | 0 <= j < |s| ensures leq(x, s[j]) {
        assert leq(s[0], s[j]);
      }
    } else {
      var r := InsertBy(s[1..], x, leq);
      InsertByCorrect(s[1..], x, leq);
      assert s == [s[0]] + s[1..];
      forall j | 0 <= j < |r| ensures leq(s[0], r[j]) {
        assert r[j] in multiset(r);
        assert r[j] == x || r[j] in s[1..];
      }
    }
  }

  lemma {:induction false} SortByCorrect<T(!new)>(s: seq<T>, leq: (T, T) -> bool)
    requires TotalPreorder(leq)
    ensures SortedBy(SortBy(s, leq), leq)
    ensures multiset(SortBy(s, leq)) == multiset(s)
  {
    if s == [] {
    } else {
      SortByCorrect(s[1..], leq);
      InsertByCorrect(SortBy(s[1..], leq), s[0], leq);
      assert s == [s[0]] + s[1..];
    }
  }

  ghost predicate AntisymmetricOn<T(!new)>(m: multiset<T>, leq: (T, T) -> bool) {
    forall x, y :: x in m && y in m && leq(x, y) && leq(y, x) ==> x == y
  }

  /** With an antisymmetric order, or distinct sort keys, there is one sorted permutation. */
  lemma {:induction false} SortedUnique<T(!new)>(s: seq<T>, t: seq<T>, leq: (T, T) -> bool)
    requires SortedBy(s, leq) && SortedBy(t, leq) && multiset(s) == multiset(t)
    requires AntisymmetricOn(multiset(s), leq)
    ensures s == t
  {
    assert |multiset(s)| == |s| && |multiset(t)| == |t|;
    if s == [] {
    } else {
      SameHead(s, t, leq);
      SortedTail(s, leq);
      SortedTail(t, leq);
      assert multiset(s[1..]) == multiset(t[1..]) && AntisymmetricOn(multiset(s[1..]), leq) by {
        assert s == [s[0]] + s[1..] && t == [t[0]] + t[1..];
        assert multiset(s) == multiset{s[0]} + multiset(s[1..]);
        assert multiset(t) == multiset{t[0]} + multiset(t[1..]);
        assert multiset(s[1..]) == multiset(s) - multiset{s[0]};
        assert multiset(t[1..]) == multiset(t) - multiset{s[0]};
      }
      SortedUnique(s[1..], t[1..], leq);
      assert s == [s[0]] + s[1..] && t == [t[0]] + t[1..];
    }
  }

  lemma SameHead<T(!new)>(s: seq<T>, t: seq<T>, leq: (T, T) -> bool)
    requires SortedBy(s, leq) && SortedBy(t, leq) && multiset(s) == multiset(t) && s != []
    requires AntisymmetricOn(multiset(s), leq)
    ensures t != [] && s[0] == t[0]
  {
    SortedHead(s, t, leq);
    SortedHead(t, s, leq);
    assert s[0] in multiset(s) && t[0] in multiset(t);
  }

  lemma SortedTail<T>(s: seq<T>, leq: (T, T) -> bool)
    requires s != [] && SortedBy(s, leq)
    ensures SortedBy(s[1..], leq)
  {
    forall i, j | 0 <= i < j < |s[1..]| ensures leq(s[1..][i], s[1..][j]) {
      assert s[1..][i] == s[i + 1] && s[1..][j] == s[j + 1];
    }
  }

  /** The head of one sorted permutation is the head of the other or below it. */
  lemma SortedHead<T>(s: seq<T>, t: seq<T>, leq: (T, T) -> bool)
    requires SortedBy(s, leq) && multiset(s) == multiset(t) && s != []
    ensures t != [] && (s[0] == t[0] || leq(s[0], t[0]))
  {
    assert s[0] in multiset(t);
    assert t[0] in multiset(s);
    var i :| 0 <= i < |s| && s[i] == t[0];
    assert i == 0 || leq(s[0], s[i]);
  }

  predicate IntLeq(x: int, y: int) { x <= y }

  /** Lexicographic order by code point, the order sort.Strings uses. */
  predicate StringLeq(s: string, t: string) {
    s == [] || (t != [] && (s[0] < t[0] || (s[0] == t[0] && StringLeq(s[1..], t[1..]))))
  }

  /** A text comes no later than its extensions, and than any with a greater character where they first differ. */
  lemma {:induction false} StringLeqExactly(s: string, t: string)
    ensures StringLeq(s, t) <==> s <= t || exists k: nat :: k < |s| && k < |t| && s[..k] == t[..k] && s[k] < t[k]
  {
    if s != [] && t != [] && s[0] == t[0] {
      StringLeqExactly(s[1..], t[1..]);
      assert s == [s[0]] + s[1..] && t == [t[0]] + t[1..];
      if k: nat :| k < |s| && k < |t| && s[..k] == t[..k] && s[k] < t[k] {
        assert s[1..][..k - 1] == s[1..k] == t[1..k] == t[1..][..k - 1];
        assert s[1..][k - 1] < t[1..][k - 1];
      }
      if k: nat :| k < |s| - 1 && k < |t| - 1 && s[1..][..k] == t[1..][..k] && s[1..][k] < t[1..][k] {
        assert s[..k + 1] == [s[0]] + s[1..][..k] && t[..k + 1] == [t[0]] + t[1..][..k];
        assert s[k + 1] < t[k + 1];
      }
    } else if s != [] && t != [] && s[0] < t[0] {
      assert s[..0] == t[..0];
    }
  }

  lemma StringLeqTotal(s: string, t: string)
    ensures StringLeq(s, t) || StringLeq(t, s)
    ensures StringLeq(s, t) && StringLeq(t, s) ==> s == t
  {
    if s != [] && t != [] && s[0] == t[0] {
      StringLeqTotal(s[1..], t[1..]);
      assert s == [s[0]] + s[1..] && t == [t[0]] + t[1..];
    }
  }

  lemma {:induction false} StringLeqTransitive(s: string, t: string, u: string)
    requires StringLeq(s, t) && StringLeq(t, u)
    ensures StringLeq(s, u)
  {
    if s != [] && s[0] == t[0] == u[0] {
      StringLeqTransitive(s[1..], t[1..], u[1..]);
    }
  }

  lemma StringOrder()
    ensures TotalPreorder(StringLeq)
    ensures forall s, t :: StringLeq(s, t) && StringLeq(t, s) ==> s == t
  {
    forall s, t ensures (StringLeq(s, t) || StringLeq(t, s)) && (StringLeq(s, t) && StringLeq(t, s) ==> s == t) {
      StringLeqTotal(s, t);
    }
    forall s, t, u | StringLeq(s, t) && StringLeq(t, u) ensures StringLeq(s, u) {
      StringLeqTransitive(s, t, u);
    }
  }

  /** sort.Strings: string order is antisymmetric, so its result is determined. */
  function SortStrings(s: seq<string>): seq<string> {
    SortBy(s, StringLeq)
  }

  lemma SortStringsCorrect(s: seq<string>)
    ensures SortedBy(SortStrings(s), StringLeq) && multiset(SortStrings(s)) == multiset(s)
  {
    StringOrder();
    SortByCorrect(s, StringLeq);
  }

  /** Any permutation of a list of strings sorts to the same list. */
  lemma SortStringsPermutation(s: seq<string>, t: seq<string>)
    requires multiset(s) == multiset(t)
    ensures SortStrings(s) == SortStrings(t)
  {
    StringOrder();
    SortStringsCorrect(s);
    SortStringsCorrect(t);
    assert AntisymmetricOn(multiset(SortStrings(s)), StringLeq);
    SortedUnique(SortStrings(s), SortStrings(t), StringLeq);
  }
}
