// Sorting that keeps equal elements in their old order, as the platform's sort
// does. Elements are compared by a rank: a major key, then a minor one.
module StableSort {

  datatype Rank = Rank(major: int, minor: int)

  predicate Le(a: Rank, b: Rank) {
    a.major < b.major || (a.major == b.major && a.minor <= b.minor)
  }

  predicate Sorted<T>(s: seq<T>, rank: T -> Rank) {
    forall i, j :: 0 <= i < j < |s| ==> Le(rank(s[i]), rank(s[j]))
  }

  // The elements of one rank, in order.
  function AtRank<T>(s: seq<T>, rank: T -> Rank, r: Rank): seq<T> {
    if s == [] then []
    else if rank(s[0]) == r then [s[0]] + AtRank(s[1..], rank, r)
    else AtRank(s[1..], rank, r)
  }

  // Put x, which stood before every element of s, where it belongs.
  function Insert<T>(x: T, s: seq<T>, rank: T -> Rank): seq<T> {
    if s == [] || Le(rank(x), rank(s[0])) then [x] + s
    else [s[0]] + Insert(x, s[1..], rank)
  }

  function SortBy<T>(s: seq<T>, rank: T -> Rank): seq<T> {
    if s == [] then [] else Insert(s[0], SortBy(s[1..], rank), rank)
  }

  lemma {:induction false} InsertPermutes<T>(x: T, s: seq<T>, rank: T -> Rank)
    ensures multiset(Insert(x, s, rank)) == multiset{x} + multiset(s)
    decreases |s|
  {
    if !(s == [] || Le(rank(x), rank(s[0]))) {
      InsertPermutes(x, s[1..], rank);
      assert s == [s[0]] + s[1..];
    }
  }

  lemma {:induction false} SortPermutes<T>(s: seq<T>, rank: T -> Rank)
    ensures multiset(SortBy(s, rank)) == multiset(s)
    decreases |s|
  {
    if s != [] {
      SortPermutes(s[1..], rank);
      InsertPermutes(s[0], SortBy(s[1..], rank), rank);
      assert s == [s[0]] + s[1..];
    }
  }

  lemma {:induction false} InsertKeepsSorted<T>(x: T, s: seq<T>, rank: T -> Rank)
    requires Sorted(s, rank)
    ensures Sorted(Insert(x, s, rank), rank)
    decreases |s|
  {
    if !(s == [] || Le(rank(x), rank(s[0]))) {
      InsertKeepsSorted(x, s[1..], rank);
      var rest := Insert(x, s[1..], rank);
      InsertPermutes(x, s[1..], rank);
      forall k | 0 <= k < |rest| ensures Le(rank(s[0]), rank(rest[k])) {
        assert rest[k] in multiset(rest);
        assert rest[k] == x || rest[k] in s[1..];
      }
    }
  }

  lemma {:induction false} SortSorts<T>(s: seq<T>, rank: T -> Rank)
    ensures Sorted(SortBy(s, rank), rank)
    decreases |s|
  {
    if s != [] {
      SortSorts(s[1..], rank);
      InsertKeepsSorted(s[0], SortBy(s[1..], rank), rank);
    }
  }

  lemma {:induction false} InsertIsStable<T>(x: T, s: seq<T>, rank: T -> Rank, r: Rank)
    ensures AtRank(Insert(x, s, rank), rank, r) == (if rank(x) == r then [x] else []) + AtRank(s, rank, r)
    decreases |s|
  {
    if s == [] || Le(rank(x), rank(s[0])) {
      assert ([x] + s)[1..] == s;
    } else {
      InsertIsStable(x, s[1..], rank, r);
      assert ([s[0]] + Insert(x, s[1..], rank))[1..] == Insert(x, s[1..], rank);
    }
  }

  lemma {:induction false} SortIsStable<T>(s: seq<T>, rank: T -> Rank, r: Rank)
    ensures AtRank(SortBy(s, rank), rank, r) == AtRank(s, rank, r)
    decreases |s|
  {
    if s != [] {
      SortIsStable(s[1..], rank, r);
      InsertIsStable(s[0], SortBy(s[1..], rank), rank, r);
    }
  }

  // Whatever algorithm the platform uses: a sorted list that keeps the elements
  // of every rank in their old order can only be this one.
  lemma {:induction false} StableSortIsUnique<T>(s: seq<T>, t: seq<T>, rank: T -> Rank)
    requires Sorted(s, rank) && Sorted(t, rank)
    requires forall r :: AtRank(s, rank, r) == AtRank(t, rank, r)
    ensures s == t
    decreases |s|
  {
    if s == [] {
      if t != [] {
        LeastRank(t, s, rank);
      }
    } else {
      LeastRank(s, t, rank);
      LeastRank(t, s, rank);
      assert AtRank(s, rank, rank(s[0]))[0] == s[0];
      assert AtRank(t, rank, rank(s[0]))[0] == t[0];
      forall r ensures AtRank(s[1..], rank, r) == AtRank(t[1..], rank, r) {
        assert AtRank(s, rank, r)[if rank(s[0]) == r then 1 else 0..] == AtRank(s[1..], rank, r);
        assert AtRank(t, rank, r)[if rank(s[0]) == r then 1 else 0..] == AtRank(t[1..], rank, r);
      }
      StableSortIsUnique(s[1..], t[1..], rank);
    }
  }

  lemma LeastRank<T>(s: seq<T>, t: seq<T>, rank: T -> Rank)
    requires Sorted(t, rank) && s != []
    requires forall r :: AtRank(s, rank, r) == AtRank(t, rank, r)
    ensures t != [] && Le(rank(t[0]), rank(s[0]))
  {
    assert AtRank(s, rank, rank(s[0])) != [];
    RankOccurs(t, rank, rank(s[0]));
  }

  lemma {:induction false} RankOccurs<T>(t: seq<T>, rank: T -> Rank, r: Rank)
    requires AtRank(t, rank, r) != []
    ensures exists k :: 0 <= k < |t| && rank(t[k]) == r
    decreases |t|
  {
    if rank(t[0]) != r {
      RankOccurs(t[1..], rank, r);
      var k :| 0 <= k < |t[1..]| && rank(t[1..][k]) == r;
      assert rank(t[k + 1]) == r;
    }
  }
}
