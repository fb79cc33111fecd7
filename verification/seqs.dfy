/** Sequence helpers shared by the achievement engine: an optional value,
    order-preserving selection (the model of JavaScript's `filter`),
    prefix-taking (a query `limit`) and the minimum of two timestamps. */
module Seqs {

  datatype Option<T> = None | Some(value: T)

  /** `r` can be obtained from `s` by deleting elements, keeping the order. */
  ghost predicate IsSubsequence<T>(r: seq<T>, s: seq<T>)
    decreases |s|
  {
    r == [] ||
    (s != [] &&
     ((r[|r| - 1] == s[|s| - 1] && IsSubsequence(r[..|r| - 1], s[..|s| - 1])) ||
      IsSubsequence(r, s[..|s| - 1])))
  }

  /** The elements of `s` for which `keep` holds, in their original order;
      `SelectExact` says that nothing else is dropped. */
  function Select<T>(s: seq<T>, keep: T -> bool): (r: seq<T>)
    ensures |r| <= |s|
    ensures forall x | x in r :: x in s && keep(x)
  {
    if s == [] then []
    else
      var r' := Select(s[..|s| - 1], keep);
      if keep(s[|s| - 1]) then r' + [s[|s| - 1]] else r'
  }

  /** `Select` keeps the order of `s` and every occurrence of each kept
      element. */
  lemma {:induction false} SelectExact<T>(s: seq<T>, keep: T -> bool)
    ensures IsSubsequence(Select(s, keep), s)
    ensures forall x | x in s :: multiset(Select(s, keep))[x] == if keep(x) then multiset(s)[x] else 0
  {
    if s != [] {
      var init, last := s[..|s| - 1], s[|s| - 1];
      assert s == init + [last];
      SelectExact(init, keep);
      var r' := Select(init, keep);
      if keep(last) {
        assert (r' + [last])[..|r'|] == r';
      }
    }
  }

  /** Selecting with a predicate that holds everywhere keeps everything. */
  lemma {:induction false} SelectAll<T>(s: seq<T>, keep: T -> bool)
    requires forall x | x in s :: keep(x)
    ensures Select(s, keep) == s
  {
    if s != [] {
      var init, last := s[..|s| - 1], s[|s| - 1];
      assert s == init + [last];
      SelectAll(init, keep);
      assert Select(s, keep) == Select(init, keep) + [last] by {
        assert keep(last);
      }
    }
  }

  /** Every element for which `keep` holds is kept. */
  lemma SelectKeeps<T>(s: seq<T>, keep: T -> bool)
    ensures forall x | x in s && keep(x) :: x in Select(s, keep)
  {
    SelectExact(s, keep);
  }

  /** Selecting with a predicate that holds nowhere keeps nothing. */
  lemma SelectNone<T>(s: seq<T>, keep: T -> bool)
    requires forall x | x in s :: !keep(x)
    ensures Select(s, keep) == []
  {
  }

  /** Selection distributes over concatenation. */
  lemma {:induction false} SelectAppend<T>(a: seq<T>, b: seq<T>, keep: T -> bool)
    ensures Select(a + b, keep) == Select(a, keep) + Select(b, keep)
    decreases |b|
  {
    if b != [] {
      var init, last := b[..|b| - 1], b[|b| - 1];
      var ab := a + b;
      assert ab[..|ab| - 1] == a + init && ab[|ab| - 1] == last;
      SelectAppend(a, init, keep);
      if keep(last) {
        assert Select(ab, keep) == Select(a + init, keep) + [last];
        assert Select(b, keep) == Select(init, keep) + [last];
      } else {
        assert Select(ab, keep) == Select(a + init, keep);
        assert Select(b, keep) == Select(init, keep);
      }
    } else {
      assert a + b == a;
    }
  }

  /** Selecting from a selection by a stronger predicate is selecting by
      that predicate alone. */
  lemma {:induction false} SelectSelect<T>(s: seq<T>, first: T -> bool, second: T -> bool)
    requires forall x | x in s && second(x) :: first(x)
    ensures Select(Select(s, first), second) == Select(s, second)
  {
    if s != [] {
      var init, last := s[..|s| - 1], s[|s| - 1];
      assert s == init + [last];
      SelectSelect(init, first, second);
      if first(last) {
        SelectAppend(Select(init, first), [last], second);
      }
    }
  }

  /** The parts one after the other. */
  function Flatten<T>(parts: seq<seq<T>>): seq<T>
  {
    if parts == [] then [] else Flatten(parts[..|parts| - 1]) + parts[|parts| - 1]
  }

  /** One more part is appended at the end. */
  lemma FlattenSnoc<T>(parts: seq<seq<T>>, p: seq<T>)
    ensures Flatten(parts + [p]) == Flatten(parts) + p
  {
    assert (parts + [p])[..|parts|] == parts;
  }

  /** An element of a part is an element of the whole. */
  lemma {:induction false} FlattenIn<T>(parts: seq<seq<T>>, k: nat, x: T)
    requires k < |parts| && x in parts[k]
    ensures x in Flatten(parts)
  {
    var init := parts[..|parts| - 1];
    if k < |parts| - 1 {
      assert init[k] == parts[k];
      FlattenIn(init, k, x);
    }
  }

  /** An element of the whole is an element of some part. */
  lemma {:induction false} FlattenMember<T>(parts: seq<seq<T>>, x: T)
    requires x in Flatten(parts)
    ensures exists k | 0 <= k < |parts| :: x in parts[k]
  {
    var init := parts[..|parts| - 1];
    if x in Flatten(init) {
      FlattenMember(init, x);
      var k :| 0 <= k < |init| && x in init[k];
      assert parts[k] == init[k];
    }
  }

  /** The first `n` elements of `s` (all of them if there are fewer). */
  function Take<T>(s: seq<T>, n: nat): (r: seq<T>)
    ensures |r| == if |s| < n then |s| else n
    ensures forall i | 0 <= i < |r| :: r[i] == s[i]
  {
    if |s| < n then s else s[..n]
  }

  function Min(a: int, b: int): (m: int)
    ensures m <= a && m <= b && (m == a || m == b)
  {
    if a <= b then a else b
  }
}
