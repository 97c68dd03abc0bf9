/** Generic facts about sequences that the table and list operations share:
    order-preserving filtering, subsequences, duplicate-free lists and the
    last-write-wins map that a Python dict assignment loop builds. */
module Seqs {

  /** Keeps the elements satisfying `p`, in order (a list comprehension with an
      `if`, or a boolean-mask selection of DataFrame rows). */
  function Filter<T>(s: seq<T>, p: T -> bool): (r: seq<T>)
    ensures |r| <= |s|
  {
    if s == [] then [] else Filter(s[..|s| - 1], p) + (if p(s[|s| - 1]) then [s[|s| - 1]] else [])
  }

  /** The filtered sequence holds exactly the elements that pass. */
  lemma {:induction false} FilterMembers<T>(s: seq<T>, p: T -> bool)
    ensures forall x :: x in Filter(s, p) <==> x in s && p(x)
  {
    if s != [] {
      FilterMembers(s[..|s| - 1], p);
      Snoc(s);
    }
  }

  lemma FilterAppend<T>(s: seq<T>, x: T, p: T -> bool)
    ensures Filter(s + [x], p) == Filter(s, p) + (if p(x) then [x] else [])
  {
    assert (s + [x])[..|s|] == s;
  }

  /** One more element of `s` taken into the filtered prefix. */
  lemma FilterPrefixStep<T>(s: seq<T>, i: nat, p: T -> bool)
    requires i < |s|
    ensures Filter(s[..i + 1], p) == Filter(s[..i], p) + (if p(s[i]) then [s[i]] else [])
  {
    assert s[..i + 1] == s[..i] + [s[i]];
    FilterAppend(s[..i], s[i], p);
  }

  lemma {:induction false} FilterConcat<T>(a: seq<T>, b: seq<T>, p: T -> bool)
    ensures Filter(a + b, p) == Filter(a, p) + Filter(b, p)
    decreases |b|
  {
    if b == [] {
      assert a + b == a;
    } else {
      var b', x := b[..|b| - 1], b[|b| - 1];
      Snoc(b);
      AppendSnoc(a, b', x);
      FilterAppend(a + b', x, p);
      FilterConcat(a, b', p);
      FilterAppend(b', x, p);
    }
  }

  lemma Snoc<T>(s: seq<T>)
    requires s != []
    ensures s == s[..|s| - 1] + [s[|s| - 1]]
  {
  }

  /** The prefix of full length is the whole sequence. */
  lemma TakeAll<T>(s: seq<T>, n: nat)
    requires n == |s|
    ensures s[..n] == s
  {
  }

  /** Dropping nothing keeps the whole sequence, taking nothing leaves none. */
  lemma DropNone<T>(s: seq<T>)
    ensures s[0..] == s && s[..0] == []
  {
  }

  /** A prefix one longer is the shorter one and the next element. */
  lemma TakeSnoc<T>(s: seq<T>, i: nat)
    requires i < |s|
    ensures s[..i + 1] == s[..i] + [s[i]]
  {
  }

  lemma AppendSnoc<T>(a: seq<T>, b: seq<T>, x: T)
    ensures a + (b + [x]) == (a + b) + [x]
  {
  }

  /** Filtering everything that passes changes nothing. */
  lemma {:induction false} FilterAll<T>(s: seq<T>, p: T -> bool)
    requires forall x :: x in s ==> p(x)
    ensures Filter(s, p) == s
  {
    if s != [] {
      var s' := s[..|s| - 1];
      Snoc(s);
      FilterAll(s', p);
    }
  }

  /** The conjunction of two tests. */
  function Both<T>(p: T -> bool, q: T -> bool): T -> bool
  {
    x => p(x) && q(x)
  }

  /** Two successive filters are one filter by the conjunction. */
  lemma {:induction false} FilterFilter<T>(s: seq<T>, p: T -> bool, q: T -> bool)
    ensures Filter(Filter(s, p), q) == Filter(s, Both(p, q))
  {
    if s != [] {
      var s' := s[..|s| - 1];
      var x := s[|s| - 1];
      FilterFilter(s', p, q);
      FilterConcat(Filter(s', p), if p(x) then [x] else [], q);
      if p(x) {
        assert Filter([x], q) == (if q(x) then [x] else []) by { assert [x][..0] == []; }
      }
    }
  }

  /** Number of elements satisfying `p`. */
  function CountIf<T>(s: seq<T>, p: T -> bool): (n: nat)
    ensures n <= |s|
  {
    if s == [] then 0 else CountIf(s[..|s| - 1], p) + (if p(s[|s| - 1]) then 1 else 0)
  }

  lemma {:induction false} FilterLength<T>(s: seq<T>, p: T -> bool)
    ensures |Filter(s, p)| == CountIf(s, p)
  {
    if s != [] {
      FilterLength(s[..|s| - 1], p);
    }
  }

  /** `a` is obtained from `b` by deleting elements (matched from the end). */
  predicate IsSubseq<T(==)>(a: seq<T>, b: seq<T>)
    decreases |b|
  {
    if a == [] then true
    else if b == [] then false
    else if a[|a| - 1] == b[|b| - 1] then IsSubseq(a[..|a| - 1], b[..|b| - 1])
    else IsSubseq(a, b[..|b| - 1])
  }

  lemma {:induction false} SubseqDrop<T>(a: seq<T>, b: seq<T>)
    requires IsSubseq(a, b)
    ensures a == [] || IsSubseq(a[..|a| - 1], b)
    decreases |b|, 1
  {
    if a != [] && b != [] {
      if a[|a| - 1] != b[|b| - 1] {
        SubseqDrop(a, b[..|b| - 1]);
      }
      SubseqPrefix(a[..|a| - 1], b);
    }
  }

  /** A subsequence of a prefix is a subsequence of the whole. */
  lemma {:induction false} SubseqPrefix<T>(a: seq<T>, b: seq<T>)
    requires b != [] && IsSubseq(a, b[..|b| - 1])
    ensures IsSubseq(a, b)
    decreases |b|, 0
  {
    if a != [] && a[|a| - 1] == b[|b| - 1] {
      SubseqDrop(a, b[..|b| - 1]);
    }
  }

  /** What a filter keeps is a subsequence of its input. */
  lemma {:induction false} FilterIsSubseq<T>(s: seq<T>, p: T -> bool)
    ensures IsSubseq(Filter(s, p), s)
  {
    if s != [] {
      var s' := s[..|s| - 1];
      var f := Filter(s', p);
      FilterIsSubseq(s', p);
      if p(s[|s| - 1]) {
        var a := f + [s[|s| - 1]];
        assert Filter(s, p) == a;
        assert a[..|a| - 1] == f && a[|a| - 1] == s[|s| - 1];
        assert IsSubseq(f, s');
        assert IsSubseq(a, s);
      } else {
        assert Filter(s, p) == f + [];
        assert f + [] == f;
        SubseqPrefix(f, s);
      }
    }
  }

  predicate NoDup<T(==)>(s: seq<T>)
  {
    forall i, j :: 0 <= i < j < |s| ==> s[i] != s[j]
  }

  /** The map a dict-assignment loop `for k, v in kvs: m[k] = v` leaves behind. */
  function Assign<K, V>(m: map<K, V>, kvs: seq<(K, V)>): map<K, V>
  {
    if kvs == [] then m
    else Assign(m, kvs[..|kvs| - 1])[kvs[|kvs| - 1].0 := kvs[|kvs| - 1].1]
  }

  /** Index of the last pair with key `k`. */
  function LastIndexOf<K(==), V>(kvs: seq<(K, V)>, k: K): (i: int)
    ensures -1 <= i < |kvs|
    ensures i >= 0 ==> kvs[i].0 == k
    ensures forall j :: i < j < |kvs| ==> kvs[j].0 != k
  {
    if kvs == [] then -1
    else if kvs[|kvs| - 1].0 == k then |kvs| - 1
    else LastIndexOf(kvs[..|kvs| - 1], k)
  }

  /** Last write wins: a key assigned in the loop holds its last value, any
      other key keeps the value it had. */
  lemma {:induction false} AssignLookup<K, V>(m: map<K, V>, kvs: seq<(K, V)>, k: K)
    ensures LastIndexOf(kvs, k) >= 0 ==> k in Assign(m, kvs) && Assign(m, kvs)[k] == kvs[LastIndexOf(kvs, k)].1
    ensures LastIndexOf(kvs, k) < 0 ==> (k in Assign(m, kvs) <==> k in m)
    ensures LastIndexOf(kvs, k) < 0 && k in m ==> Assign(m, kvs)[k] == m[k]
  {
    if kvs != [] && kvs[|kvs| - 1].0 != k {
      AssignLookup(m, kvs[..|kvs| - 1], k);
    }
  }

  /** Assigning two batches is assigning their concatenation. */
  lemma {:induction false} AssignConcat<K, V>(m: map<K, V>, a: seq<(K, V)>, b: seq<(K, V)>)
    ensures Assign(m, a + b) == Assign(Assign(m, a), b)
    decreases |b|
  {
    if b == [] {
      assert a + b == a;
    } else {
      assert (a + b)[..|a + b| - 1] == a + b[..|b| - 1];
      AssignConcat(m, a, b[..|b| - 1]);
    }
  }

  /** A property of every entry survives assigning entries that have it. */
  lemma {:induction false} AssignKeeps<K, V>(m: map<K, V>, kvs: seq<(K, V)>, ok: (K, V) -> bool)
    requires forall k :: k in m ==> ok(k, m[k])
    requires forall p :: p in kvs ==> ok(p.0, p.1)
    ensures forall k :: k in Assign(m, kvs) ==> ok(k, Assign(m, kvs)[k])
  {
    if kvs != [] {
      var front := kvs[..|kvs| - 1];
      assert forall p :: p in front ==> p in kvs;
      AssignKeeps(m, front, ok);
      assert kvs[|kvs| - 1] in kvs;
    }
  }

  lemma CountIfSnoc<T>(s: seq<T>, i: nat, p: T -> bool)
    requires i < |s|
    ensures CountIf(s[..i + 1], p) == CountIf(s[..i], p) + (if p(s[i]) then 1 else 0)
  {
    assert s[..i + 1][..i] == s[..i];
  }

  /** Filters by predicates that agree on the elements give the same result. */
  lemma {:induction false} FilterExt<T>(s: seq<T>, p: T -> bool, q: T -> bool)
    requires forall x :: x in s ==> p(x) == q(x)
    ensures Filter(s, p) == Filter(s, q)
  {
    if s != [] {
      assert forall x :: x in s[..|s| - 1] ==> x in s;
      FilterExt(s[..|s| - 1], p, q);
    }
  }

  /** A prefix of a subsequence is a subsequence. */
  lemma {:induction false} SubseqTake<T>(a: seq<T>, b: seq<T>, n: nat)
    requires IsSubseq(a, b) && n <= |a|
    ensures IsSubseq(a[..n], b)
    decreases |a| - n
  {
    if n < |a| {
      SubseqDrop(a, b);
      assert a[..|a| - 1][..n] == a[..n];
      SubseqTake(a[..|a| - 1], b, n);
    } else {
      assert a[..n] == a;
    }
  }

  lemma {:induction false} SubseqRefl<T>(s: seq<T>)
    ensures IsSubseq(s, s)
  {
    if s != [] {
      SubseqRefl(s[..|s| - 1]);
    }
  }

  lemma {:induction false} SubsetCard<T>(a: set<T>, b: set<T>)
    requires a <= b
    ensures |a| <= |b|
    decreases |a|
  {
    if a != {} {
      var x :| x in a;
      SubsetCard(a - {x}, b - {x});
    }
  }

  /** The values f(lo), ..., f(hi - 1). */
  function Image<T>(f: nat -> T, lo: nat, hi: nat): set<T>
    decreases hi
  {
    if hi <= lo then {} else Image(f, lo, hi - 1) + {f(hi - 1)}
  }

  lemma {:induction false} ImageCount<T>(f: nat -> T, lo: nat, hi: nat, used: set<T>)
    requires lo <= hi
    requires forall i, j :: lo <= i < j < hi ==> f(i) != f(j)
    requires forall k :: lo <= k < hi ==> f(k) in used
    ensures |Image(f, lo, hi)| == hi - lo && Image(f, lo, hi) <= used
    ensures forall k :: hi <= k ==> (forall i :: lo <= i < hi ==> f(i) != f(k)) ==> f(k) !in Image(f, lo, hi)
    decreases hi
  {
    if lo < hi {
      ImageCount(f, lo, hi - 1, used);
    }
  }

  /** A counter loop that tries f(lo), f(lo + 1), ... against a finite set
      of taken values, with f injective, finds a free one within |used| + 1
      tries. */
  lemma ManyTaken<T>(f: nat -> T, lo: nat, hi: nat, used: set<T>)
    requires lo <= hi
    requires forall i, j :: lo <= i < j < hi ==> f(i) != f(j)
    requires forall k :: lo <= k < hi ==> f(k) in used
    ensures hi - lo <= |used|
  {
    ImageCount(f, lo, hi, used);
    SubsetCard(Image(f, lo, hi), used);
  }

  /** Filtering keeps every copy of an element that passes and no copy of
      one that does not. */
  lemma {:induction false} FilterCount<T>(s: seq<T>, p: T -> bool)
    ensures forall x :: multiset(Filter(s, p))[x] == if p(x) then multiset(s)[x] else 0
  {
    if s != [] {
      var s', y := s[..|s| - 1], s[|s| - 1];
      FilterCount(s', p);
      Snoc(s);
      assert multiset(s) == multiset(s') + multiset{y};
      assert multiset(Filter(s, p)) == multiset(Filter(s', p)) + multiset(if p(y) then [y] else []);
    }
  }

  /** `[f(x) for x in s]`. */
  function MapSeq<T, U>(s: seq<T>, f: T -> U): (r: seq<U>)
    ensures |r| == |s|
  {
    if s == [] then [] else MapSeq(s[..|s| - 1], f) + [f(s[|s| - 1])]
  }

  lemma {:induction false} MapSeqAt<T, U>(s: seq<T>, f: T -> U)
    ensures forall i :: 0 <= i < |s| ==> MapSeq(s, f)[i] == f(s[i])
  {
    if s != [] {
      MapSeqAt(s[..|s| - 1], f);
    }
  }

  lemma {:induction false} MapSeqId<T>(s: seq<T>, f: T -> T)
    requires forall x :: f(x) == x
    ensures MapSeq(s, f) == s
  {
    if s != [] {
      MapSeqId(s[..|s| - 1], f);
      Snoc(s);
    }
  }

  lemma {:induction false} MapConcat<T, U>(a: seq<T>, b: seq<T>, f: T -> U)
    ensures MapSeq(a + b, f) == MapSeq(a, f) + MapSeq(b, f)
    decreases |b|
  {
    if b == [] {
      assert a + b == a;
    } else {
      var b', x := b[..|b| - 1], b[|b| - 1];
      Snoc(b);
      AppendSnoc(a, b', x);
      assert (a + b)[..|a + b| - 1] == a + b';
      MapConcat(a, b', f);
    }
  }

  /** The test `q` read through `f`. */
  function Compose<T, U>(f: T -> U, q: U -> bool): T -> bool
  {
    x => q(f(x))
  }

  /** Filtering the images is mapping the elements whose image passes. */
  lemma {:induction false} FilterMap<T, U>(s: seq<T>, f: T -> U, q: U -> bool)
    ensures Filter(MapSeq(s, f), q) == MapSeq(Filter(s, Compose(f, q)), f)
  {
    if s != [] {
      var s', x := s[..|s| - 1], s[|s| - 1];
      FilterMap(s', f, q);
      var m := MapSeq(s, f);
      assert m[..|m| - 1] == MapSeq(s', f) && m[|m| - 1] == f(x);
      var kept := if q(f(x)) then [x] else [];
      MapConcat(Filter(s', Compose(f, q)), kept, f);
      assert MapSeq(kept, f) == if q(f(x)) then [f(x)] else [] by {
        if q(f(x)) { assert [x][..0] == []; }
      }
    }
  }

  /** Position of the first occurrence of `x` in `s`. */
  function FirstIndex<T(==)>(s: seq<T>, x: T): (i: nat)
    requires x in s
    ensures i < |s| && s[i] == x && x !in s[..i]
  {
    if x in s[..|s| - 1] then
      var i := FirstIndex(s[..|s| - 1], x);
      assert s[..|s| - 1][..i] == s[..i];
      i
    else |s| - 1
  }

  /** The entries a loop appends element by element: `[e for x in s for e in f(x)]`. */
  function FlatMap<T, U>(s: seq<T>, f: T -> seq<U>): seq<U>
  {
    if s == [] then [] else FlatMap(s[..|s| - 1], f) + f(s[|s| - 1])
  }

  /** One more element's entries appended. */
  lemma FlatMapSnoc<T, U>(s: seq<T>, f: T -> seq<U>, i: nat)
    requires i < |s|
    ensures FlatMap(s[..i + 1], f) == FlatMap(s[..i], f) + f(s[i])
  {
    assert s[..i + 1][..i] == s[..i];
  }
}
