/** Sequences, maps and options shared by every module. */
module Base {

  datatype Option<+T> = None | Some(value: T)

  const U64_MAX: nat := 0xFFFF_FFFF_FFFF_FFFF

  /** The elements of `s` that satisfy `p`, in order. */
  function Filter<T>(s: seq<T>, p: T -> bool): (r: seq<T>)
    ensures |r| <= |s|
  {
    if s == [] then []
    else if p(s[0]) then [s[0]] + Filter(s[1..], p)
    else Filter(s[1..], p)
  }

  function Negate<T>(p: T -> bool): T -> bool {
    x => !p(x)
  }

  lemma {:induction false} FilterConcat<T>(a: seq<T>, b: seq<T>, p: T -> bool)
    ensures Filter(a + b, p) == Filter(a, p) + Filter(b, p)
  {
    if a == [] {
      assert a + b == b;
    } else {
      assert (a + b)[1..] == a[1..] + b;
      FilterConcat(a[1..], b, p);
    }
  }

  lemma {:induction false} FilterMember<T>(s: seq<T>, p: T -> bool, x: T)
    ensures x in Filter(s, p) <==> x in s && p(x)
  {
    if s != [] {
      assert s == [s[0]] + s[1..];
      FilterMember(s[1..], p, x);
    }
  }

  lemma {:induction false} FilterKeepsAll<T>(s: seq<T>, p: T -> bool)
    requires forall x :: x in s ==> p(x)
    ensures Filter(s, p) == s
  {
    if s != [] {
      assert s[0] in s;
      FilterKeepsAll(s[1..], p);
    }
  }

  lemma {:induction false} FilterKeepsNone<T>(s: seq<T>, p: T -> bool)
    requires forall x :: x in s ==> !p(x)
    ensures Filter(s, p) == []
  {
    if s != [] {
      assert s[0] in s;
      FilterKeepsNone(s[1..], p);
    }
  }

  /** Filtering twice is filtering once by the conjunction. */
  lemma {:induction false} FilterTwice<T>(s: seq<T>, p: T -> bool, q: T -> bool, both: T -> bool)
    requires forall x :: x in s ==> (both(x) <==> p(x) && q(x))
    ensures Filter(Filter(s, p), q) == Filter(s, both)
  {
    if s != [] {
      assert s[0] in s;
      FilterTwice(s[1..], p, q, both);
    }
  }

  lemma {:induction false} FilterSwap<T>(s: seq<T>, p: T -> bool, q: T -> bool)
    ensures Filter(Filter(s, p), q) == Filter(Filter(s, q), p)
  {
    if s != [] {
      FilterSwap(s[1..], p, q);
    }
  }

  lemma {:induction false} FilterSplitsLength<T>(s: seq<T>, p: T -> bool)
    ensures |Filter(s, p)| + |Filter(s, Negate(p))| == |s|
  {
    if s != [] {
      FilterSplitsLength(s[1..], p);
    }
  }

  lemma {:induction false} FilterOfFullLength<T>(s: seq<T>, p: T -> bool)
    requires |Filter(s, p)| == |s|
    ensures forall i :: 0 <= i < |s| ==> p(s[i])
  {
    if s != [] {
      FilterOfFullLength(s[1..], p);
    }
  }

  ghost predicate StandsInFront<T>(s: seq<T>, p: T -> bool) {
    forall i, j :: 0 <= i < j < |s| && p(s[j]) ==> p(s[i])
  }

  lemma InFrontTail<T>(s: seq<T>, p: T -> bool)
    requires s != [] && StandsInFront(s, p)
    ensures StandsInFront(s[1..], p)
    ensures !p(s[0]) ==> forall x :: x in s ==> !p(x)
  {
    var rest := s[1..];
    forall i, j | 0 <= i < j < |rest| && p(rest[j])
      ensures p(rest[i])
    {
      assert rest[j] == s[j + 1] && rest[i] == s[i + 1];
    }
    forall x | x in s && p(x)
      ensures p(s[0])
    {
      var j :| 0 <= j < |s| && s[j] == x;
      assert j > 0 ==> p(s[0]);
    }
  }

  lemma SplitCons<T>(s: seq<T>, p: T -> bool)
    requires s != [] && p(s[0]) && s[1..] == Filter(s[1..], p) + Filter(s[1..], Negate(p))
    ensures s == Filter(s, p) + Filter(s, Negate(p))
  {
    var a, b := Filter(s[1..], p), Filter(s[1..], Negate(p));
    assert s == [s[0]] + (a + b) == ([s[0]] + a) + b;
  }

  lemma {:induction false} SplitInFront<T>(s: seq<T>, p: T -> bool)
    requires StandsInFront(s, p)
    ensures s == Filter(s, p) + Filter(s, Negate(p))
  {
    if s != [] {
      InFrontTail(s, p);
      if p(s[0]) {
        SplitInFront(s[1..], p);
        SplitCons(s, p);
      } else {
        FilterKeepsNone(s, p);
        FilterKeepsAll(s, Negate(p));
      }
    }
  }

  lemma DropIfInFront<T>(s: seq<T>, p: T -> bool)
    requires StandsInFront(s, p)
    ensures s[|Filter(s, p)|..] == Filter(s, Negate(p))
  {
    SplitInFront(s, p);
  }

  lemma InFrontIfDrop<T>(s: seq<T>, p: T -> bool)
    requires s[|Filter(s, p)|..] == Filter(s, Negate(p))
    ensures StandsInFront(s, p)
  {
    var n := |Filter(s, p)|;
    TailFails(s, p, n);
    HeadHolds(s, p, n);
  }

  lemma TailFails<T>(s: seq<T>, p: T -> bool, n: nat)
    requires n <= |s| && s[n..] == Filter(s, Negate(p))
    ensures forall i :: n <= i < |s| ==> !p(s[i])
  {
    forall i | n <= i < |s|
      ensures !p(s[i])
    {
      assert s[n..][i - n] == s[i];
      FilterMember(s, Negate(p), s[i]);
    }
  }

  lemma HeadHolds<T>(s: seq<T>, p: T -> bool, n: nat)
    requires n <= |s| && |Filter(s, p)| == n && forall i :: n <= i < |s| ==> !p(s[i])
    ensures forall i :: 0 <= i < n ==> p(s[i])
  {
    var head, tail := s[..n], s[n..];
    FilterKeepsNone(tail, p);
    assert s == head + tail;
    FilterConcat(head, tail, p);
    FilterOfFullLength(head, p);
    forall i | 0 <= i < n
      ensures p(s[i])
    {
      assert head[i] == s[i];
    }
  }

  function SumBy<T>(s: seq<T>, f: T -> nat): nat {
    if s == [] then 0 else f(s[0]) + SumBy(s[1..], f)
  }

  lemma {:induction false} SumConcat<T>(a: seq<T>, b: seq<T>, f: T -> nat)
    ensures SumBy(a + b, f) == SumBy(a, f) + SumBy(b, f)
  {
    if a == [] {
      assert a + b == b;
    } else {
      assert (a + b)[1..] == a[1..] + b;
      SumConcat(a[1..], b, f);
    }
  }

  lemma {:induction false} SumSplits<T>(s: seq<T>, f: T -> nat, p: T -> bool)
    ensures SumBy(s, f) == SumBy(Filter(s, p), f) + SumBy(Filter(s, Negate(p)), f)
  {
    if s != [] {
      SumSplits(s[1..], f, p);
    }
  }

  /** The total of `f` over the values of `m`. */
  ghost function SumMap<K, V>(m: map<K, V>, f: V -> nat): nat
    decreases |m|
  {
    if m == map[] then 0
    else
      var k :| k in m;
      f(m[k]) + SumMap(m - {k}, f)
  }

  /** Any key may be taken out first. */
  lemma {:induction false} SumMapAt<K, V>(m: map<K, V>, f: V -> nat, k: K)
    requires k in m
    ensures SumMap(m, f) == f(m[k]) + SumMap(m - {k}, f)
    decreases |m|
  {
    var j :| j in m && SumMap(m, f) == f(m[j]) + SumMap(m - {j}, f);
    if j != k {
      SumMapAt(m - {j}, f, k);
      assert m - {j} - {k} == m - {k} - {j};
      SumMapAt(m - {k}, f, j);
    }
  }

  lemma SumMapPut<K, V>(m: map<K, V>, f: V -> nat, k: K, v: V)
    ensures SumMap(m[k := v], f) + (if k in m then f(m[k]) else 0) == SumMap(m, f) + f(v)
  {
    SumMapAt(m[k := v], f, k);
    assert m[k := v] - {k} == m - {k};
    if k in m {
      SumMapAt(m, f, k);
    } else {
      assert m - {k} == m;
    }
  }

  /** Removing a set of keys removes exactly their share of the total. */
  lemma {:induction false} SumMapRemove<K, V>(m: map<K, V>, f: V -> nat, gone: set<K>)
    requires gone <= m.Keys
    ensures SumMap(m, f) == SumMap(m - gone, f) + SumMap(map k | k in gone :: m[k], f)
    decreases gone
  {
    var part := map k | k in gone :: m[k];
    if gone == {} {
      assert m - gone == m && part == map[];
    } else {
      var k :| k in gone;
      SumMapAt(m, f, k);
      SumMapRemove(m - {k}, f, gone - {k});
      assert m - {k} - (gone - {k}) == m - gone;
      assert (map j | j in gone - {k} :: (m - {k})[j]) == part - {k};
      SumMapAt(part, f, k);
    }
  }
}
