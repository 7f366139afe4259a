/** Facts about sequences that the array filters of the application rely on. */
module SeqUtil {

  /** Number of occurrences of `x` in `s`. */
  function Count<T(==)>(s: seq<T>, x: T): nat
  {
    if s == [] then 0 else (if s[0] == x then 1 else 0) + Count(s[1..], x)
  }

  /** No element occurs twice. */
  predicate Distinct<T(==)>(s: seq<T>)
  {
    forall i, j :: 0 <= i < j < |s| ==> s[i] != s[j]
  }

  /** `r` is `s` with some elements deleted and the others kept in their order. */
  predicate Subsequence<T(==)>(r: seq<T>, s: seq<T>)
    decreases |s|
  {
    if r == [] then true
    else if s == [] then false
    else (r[0] == s[0] && Subsequence(r[1..], s[1..])) || Subsequence(r, s[1..])
  }

  /** The set of elements of `s`. */
  function Elements<T>(s: seq<T>): set<T>
  {
    set x | x in s
  }

  lemma {:induction false} CountIn<T>(s: seq<T>, x: T)
    ensures Count(s, x) > 0 <==> x in s
  {
    if s != [] {
      CountIn(s[1..], x);
      assert s == [s[0]] + s[1..];
    }
  }

  lemma {:induction false} CountAppend<T>(a: seq<T>, b: seq<T>, x: T)
    ensures Count(a + b, x) == Count(a, x) + Count(b, x)
  {
    if a != [] {
      assert (a + b)[1..] == a[1..] + b;
      CountAppend(a[1..], b, x);
    } else {
      assert a + b == b;
    }
  }

  /** Appending the same element to both sides keeps a subsequence a subsequence, as does appending to the right only. */
  lemma {:induction false} SubsequenceSnoc<T>(r: seq<T>, s: seq<T>, x: T)
    requires Subsequence(r, s)
    ensures Subsequence(r + [x], s + [x])
    ensures Subsequence(r, s + [x])
    decreases |s|
  {
    if r == [] {
      assert r + [x] == [x];
      SingletonSubsequence(s, x);
    } else {
      assert (r + [x])[1..] == r[1..] + [x];
      assert (s + [x])[1..] == s[1..] + [x];
      if r[0] == s[0] && Subsequence(r[1..], s[1..]) {
        SubsequenceSnoc(r[1..], s[1..], x);
      } else {
        SubsequenceSnoc(r, s[1..], x);
      }
    }
  }

  lemma {:induction false} SingletonSubsequence<T>(s: seq<T>, x: T)
    ensures Subsequence([x], s + [x])
    ensures Subsequence([], s + [x])
    decreases |s|
  {
    if s != [] {
      assert (s + [x])[1..] == s[1..] + [x];
      SingletonSubsequence(s[1..], x);
    } else {
      assert [x][1..] == [];
    }
  }

  lemma DistinctCons<T>(a: T, t: seq<T>)
    ensures Distinct([a] + t) <==> a !in t && Distinct(t)
  {
    var s := [a] + t;
    if a !in t && Distinct(t) {
      forall i, j | 0 <= i < j < |s| ensures s[i] != s[j] {
        if i == 0 {
          assert s[j] == t[j - 1];
        } else {
          assert s[i] == t[i - 1] && s[j] == t[j - 1];
        }
      }
    }
    if a in t {
      var k :| 0 <= k < |t| && t[k] == a;
      assert s[0] == s[k + 1];
    }
    if Distinct(s) {
      forall i, j | 0 <= i < j < |t| ensures t[i] != t[j] {
        assert t[i] == s[i + 1] && t[j] == s[j + 1];
      }
    }
  }

  /** A sequence has at least as many positions as distinct elements, and exactly as many when it is duplicate-free. */
  lemma {:induction false} ElementsCard<T>(s: seq<T>)
    ensures |Elements(s)| <= |s|
    ensures Distinct(s) ==> |Elements(s)| == |s|
  {
    if s != [] {
      var t := s[1..];
      assert s == [s[0]] + t;
      ElementsCard(t);
      assert Elements(s) == {s[0]} + Elements(t);
      DistinctCons(s[0], t);
      if Distinct(s) {
        assert s[0] !in Elements(t);
      }
    } else {
      assert Elements(s) == {};
    }
  }

  /** A duplicate-free sequence whose elements all occur in `ys` is no longer than `ys`. */
  lemma DistinctLengthBound<T>(r: seq<T>, ys: seq<T>)
    requires Distinct(r)
    requires forall x :: x in r ==> x in ys
    ensures |r| <= |ys|
  {
    ElementsCard(r);
    ElementsCard(ys);
    SubsetCard(Elements(r), Elements(ys));
  }

  lemma SubsetCard<T>(a: set<T>, b: set<T>)
    requires a <= b
    ensures |a| <= |b|
  {
    assert b == a + (b - a);
    assert a * (b - a) == {};
  }
}
