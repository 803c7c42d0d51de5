/** Facts about concatenation that the other modules use. */
module Sequences {

  lemma Cat2<T>(a: seq<T>, b: seq<T>, c: seq<T>)
    ensures (a + b) + c == a + (b + c)
  {
  }

  lemma Cat3<T>(a: seq<T>, b: seq<T>, c: seq<T>, d: seq<T>)
    ensures (a + (b + c)) + d == a + (b + (c + d))
  {
  }

  lemma Cat4<T>(a: seq<T>, b: seq<T>, c: seq<T>, d: seq<T>, e: seq<T>)
    ensures (a + (b + (c + d))) + e == a + (b + (c + (d + e)))
  {
    Cat3(b, c, d, e);
    Cat2(a, b + (c + d), e);
  }

  lemma SplitLast<T>(a: seq<T>)
    requires a != []
    ensures a == a[..|a| - 1] + [a[|a| - 1]]
  {
  }

  lemma SamePrefix<T>(a: seq<T>, s: seq<T>, t: seq<T>)
    requires a + s == a + t
    ensures s == t
  {
    assert s == (a + s)[|a|..] == (a + t)[|a|..] == t;
  }

  lemma SameLength<T>(a: seq<T>, b: seq<T>, s: seq<T>, t: seq<T>)
    requires a + s == b + t && |a| == |b|
    ensures a == b && s == t
  {
    assert a == (a + s)[..|a|] == (b + t)[..|b|] == b;
    assert s == (a + s)[|a|..] == (b + t)[|b|..] == t;
  }

  lemma TakeCat<T>(a: seq<T>, b: seq<T>, k: nat)
    requires k <= |a| + |b|
    ensures (a + b)[..k] == if k <= |a| then a[..k] else a + b[..k - |a|]
  {
  }

  lemma TakeGrown<T>(a: seq<T>, b: seq<T>, k: nat)
    requires k <= |b|
    ensures (a + b)[..|a| + k] == a + b[..k]
  {
  }

  lemma TakeOld<T>(a: seq<T>, b: seq<T>, k: nat)
    requires k <= |a|
    ensures (a + b)[..k] == a[..k]
  {
  }

  /** The first none and all of a sequence, after another. */
  lemma TakeEnds<T>(before: seq<T>, s: seq<T>)
    ensures before + s[..0] == before && before + s[..|s|] == before + s
  {
  }

  lemma DropOld<T>(a: seq<T>, b: seq<T>, k: nat)
    requires k <= |a|
    ensures (a + b)[k..] == a[k..] + b
  {
  }

  /** How many leading elements of `s` satisfy `p`. */
  function Span<T>(p: T -> bool, s: seq<T>): (n: nat)
    ensures n <= |s|
  {
    if s == [] || !p(s[0]) then 0 else 1 + Span(p, s[1..])
  }

  lemma {:induction false} SpanOfRun<T>(p: T -> bool, a: seq<T>, s: seq<T>)
    requires forall i :: 0 <= i < |a| ==> p(a[i])
    requires s != [] ==> !p(s[0])
    ensures Span(p, a + s) == |a|
  {
    if a == [] {
      assert a + s == s;
    } else {
      assert (a + s)[1..] == a[1..] + s;
      SpanOfRun(p, a[1..], s);
    }
  }

  /** A maximal run of `p`-elements is cut off a sequence in one way only. */
  lemma UniqueRun<T>(p: T -> bool, a: seq<T>, b: seq<T>, s: seq<T>, t: seq<T>)
    requires a + s == b + t
    requires forall i :: 0 <= i < |a| ==> p(a[i])
    requires forall i :: 0 <= i < |b| ==> p(b[i])
    requires (s != [] ==> !p(s[0])) && (t != [] ==> !p(t[0]))
    ensures a == b && s == t
  {
    SpanOfRun(p, a, s);
    SpanOfRun(p, b, t);
    SameLength(a, b, s, t);
  }

  /** Without its first element, a sequence is a permutation of the other without that element. */
  lemma RemoveFirst<T>(a: seq<T>, b: seq<T>) returns (j: nat)
    requires multiset(a) == multiset(b) && a != []
    ensures j < |b| && b[j] == a[0] && multiset(a[1..]) == multiset(b[..j] + b[j + 1..])
  {
    assert a[0] in multiset(b);
    j :| 0 <= j < |b| && b[j] == a[0];
    var before, after := b[..j], b[j + 1..];
    assert a == [a[0]] + a[1..] && b == before + ([b[j]] + after);
    assert multiset(a) == multiset([a[0]]) + multiset(a[1..]);
    assert multiset(b) == multiset(before) + (multiset([b[j]]) + multiset(after));
    assert [a[0]] == [b[j]] && before + after == b[..j] + b[j + 1..];
    forall x
      ensures multiset(a[1..])[x] == multiset(before + after)[x]
    {
      assert multiset(a)[x] == multiset([a[0]])[x] + multiset(a[1..])[x];
      assert multiset(b)[x] == multiset([b[j]])[x] + multiset(before + after)[x];
    }
  }

  lemma PermutedLength<T>(a: seq<T>, b: seq<T>)
    requires multiset(a) == multiset(b)
    ensures |a| == |b|
  {
    assert |multiset(a)| == |a| && |multiset(b)| == |b|;
  }
}
