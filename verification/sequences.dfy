/** Generic sequence helpers shared by the validators and the renderer. */
module Sequences {

  /** `a` can be obtained from `b` by deleting elements: same elements, same relative order. */
  predicate IsSubseq<T(==)>(a: seq<T>, b: seq<T>)
    decreases |b|
  {
    a == [] ||
    (b != [] &&
     ((a[|a| - 1] == b[|b| - 1] && IsSubseq(a[..|a| - 1], b[..|b| - 1])) ||
      IsSubseq(a, b[..|b| - 1])))
  }

  /** Concatenation of all pieces, in order (JavaScript's `join('')`). */
  function Flatten<T>(pieces: seq<seq<T>>): (r: seq<T>)
    decreases |pieces|
  {
    if pieces == [] then [] else Flatten(pieces[..|pieces| - 1]) + pieces[|pieces| - 1]
  }

  lemma FlattenAppend<T>(pieces: seq<seq<T>>, last: seq<T>)
    ensures Flatten(pieces + [last]) == Flatten(pieces) + last
  {
    assert (pieces + [last])[..|pieces|] == pieces;
  }

  /** Number of occurrences of `x` in `s`. */
  function CountOf<T(==)>(s: seq<T>, x: T): (n: nat)
    ensures n <= |s|
    ensures n == 0 <==> x !in s
    decreases |s|
  {
    if s == [] then 0
    else CountOf(s[..|s| - 1], x) + (if s[|s| - 1] == x then 1 else 0)
  }

  lemma {:induction false} CountOfAppend<T>(a: seq<T>, b: seq<T>, x: T)
    ensures CountOf(a + b, x) == CountOf(a, x) + CountOf(b, x)
    decreases |b|
  {
    if b != [] {
      assert (a + b)[..|a + b| - 1] == a + b[..|b| - 1];
      CountOfAppend(a, b[..|b| - 1], x);
    } else {
      assert a + b == a;
    }
  }

  /** An element found at exactly one position occurs once. */
  lemma CountOfSingle<T>(s: seq<T>, x: T, a: nat)
    requires a < |s| && s[a] == x
    requires forall k :: 0 <= k < |s| && k != a ==> s[k] != x
    ensures CountOf(s, x) == 1
  {
    var p, r := s[..a], s[a + 1..];
    assert s == p + [x] + r;
    assert x !in p by {
      forall k | 0 <= k < |p| ensures p[k] != x { assert p[k] == s[k]; }
    }
    assert x !in r by {
      forall k | 0 <= k < |r| ensures r[k] != x { assert r[k] == s[a + 1 + k]; }
    }
    CountOfAppend(p + [x], r, x);
    CountOfAppend(p, [x], x);
    assert CountOf([x], x) == CountOf([], x) + 1;
  }

  /** `s.filter(keep)`: the kept elements in their original order; every kept element
      occurs as often as in `s`, every other one not at all. */
  function Filter<T(==,!new)>(s: seq<T>, keep: T -> bool): (r: seq<T>)
    ensures IsSubseq(r, s)
    ensures forall x :: multiset(r)[x] == if keep(x) then multiset(s)[x] else 0
    decreases |s|
  {
    if s == [] then []
    else
      var front, last := s[..|s| - 1], s[|s| - 1];
      assert s == front + [last];
      var rest := Filter(front, keep);
      var r := rest + (if keep(last) then [last] else []);
      assert s[..|s| - 1] == front;
      if keep(last) then
        assert r[..|r| - 1] == rest && r[|r| - 1] == last;
        r
      else
        assert r == rest && (rest == [] || IsSubseq(rest, s[..|s| - 1]));
        r
  }
}
