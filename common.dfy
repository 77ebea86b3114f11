/** Generic values and sequence operations shared by the task store, the filter
    pipeline and the user-interface helpers. */
module Common {

  /** A value that may be absent (`null` in the original program). */
  datatype Option<T> = None | Some(value: T) {
    /** The value, or `default` when there is none. */
    function GetOr(default: T): T {
      if Some? then value else default
    }
  }

  /** `a` is obtained from `b` by deleting some elements and keeping the order of the rest. */
  ghost predicate IsSubseq<T>(a: seq<T>, b: seq<T>)
    decreases |b|
  {
    if b == [] then a == []
    else (a != [] && a[0] == b[0] && IsSubseq(a[1..], b[1..])) || IsSubseq(a, b[1..])
  }

  lemma {:induction false} SubseqRefl<T>(s: seq<T>)
    ensures IsSubseq(s, s)
    decreases |s|
  {
    if s != [] {
      SubseqRefl(s[1..]);
    }
  }

  lemma {:induction false} EmptySubseq<T>(s: seq<T>)
    ensures IsSubseq([], s)
    decreases |s|
  {
    if s != [] {
      EmptySubseq(s[1..]);
    }
  }

  lemma {:induction false} SubseqTrans<T>(a: seq<T>, b: seq<T>, c: seq<T>)
    requires IsSubseq(a, b) && IsSubseq(b, c)
    ensures IsSubseq(a, c)
    decreases |c|
  {
    if c == [] {
    } else if b != [] && b[0] == c[0] && IsSubseq(b[1..], c[1..]) {
      if a != [] && a[0] == b[0] && IsSubseq(a[1..], b[1..]) {
        SubseqTrans(a[1..], b[1..], c[1..]);
      } else {
        SubseqTrans(a, b[1..], c[1..]);
      }
    } else {
      SubseqTrans(a, b, c[1..]);
    }
  }

  /** The elements of `s` that satisfy `p`, in their original order
      (JavaScript's `Array.prototype.filter`). */
  function Filter<T(!new)>(s: seq<T>, p: T -> bool): (r: seq<T>)
    ensures IsSubseq(r, s)
    ensures forall x :: x in r <==> x in s && p(x)
    ensures |r| <= |s|
    ensures |r| == |s| <==> forall i :: 0 <= i < |s| ==> p(s[i])
    ensures (forall i :: 0 <= i < |s| ==> p(s[i])) ==> r == s
    decreases |s|
  {
    if s == [] then []
    else
      var rest := Filter(s[1..], p);
      assert s == [s[0]] + s[1..];
      if p(s[0]) then
        assert ([s[0]] + rest)[1..] == rest;
        [s[0]] + rest
      else
        rest
  }

  /** Filter keeps every occurrence of an element that passes and none of one that fails. */
  lemma {:induction false} FilterMultiset<T(!new)>(s: seq<T>, p: T -> bool)
    ensures forall x :: multiset(Filter(s, p))[x] == if p(x) then multiset(s)[x] else 0
    decreases |s|
  {
    if s != [] {
      FilterMultiset(s[1..], p);
      assert s == [s[0]] + s[1..];
    }
  }

  /** A sequence is empty exactly when nothing is a member of it. */
  lemma EmptyIffNoMembers<T>(r: seq<T>)
    ensures r == [] <==> forall x :: x !in r
  {
    if r != [] {
      assert r[0] in r;
    }
  }

  /** No element occurs twice. */
  ghost predicate Distinct<T>(s: seq<T>) {
    forall i, j :: 0 <= i < j < |s| ==> s[i] != s[j]
  }

  /** The index of the first occurrence of `x` in `s`. */
  function FirstIndex<T(==)>(s: seq<T>, x: T): (k: nat)
    requires x in s
    ensures k < |s| && s[k] == x
    ensures forall j :: 0 <= j < k ==> s[j] != x
    decreases |s|
  {
    if s[0] == x then 0
    else
      assert s == [s[0]] + s[1..];
      1 + FirstIndex(s[1..], x)
  }

  /** Extending a sequence at its end does not move the first occurrence of an element it already had. */
  lemma FirstIndexOfPrefix<T>(s: seq<T>, y: T)
    ensures forall x :: x in s ==> x in s + [y] && FirstIndex(s + [y], x) == FirstIndex(s, x)
  {
    forall x | x in s
      ensures x in s + [y] && FirstIndex(s + [y], x) == FirstIndex(s, x)
    {
      var k := FirstIndex(s, x);
      assert (s + [y])[k] == x;
      assert forall j :: 0 <= j < |s| ==> (s + [y])[j] == s[j];
    }
  }

  /** The elements of `s` with later repetitions removed, in first-occurrence
      order (JavaScript's `[...new Set(s)]`). */
  function Dedup<T(==,!new)>(s: seq<T>): (r: seq<T>)
    ensures Distinct(r)
    ensures forall x :: x in r <==> x in s
    ensures |r| <= |s|
    decreases |s|
  {
    if s == [] then []
    else
      var init, last := s[..|s| - 1], s[|s| - 1];
      assert s == init + [last];
      var r := Dedup(init);
      if last in r then r else r + [last]
  }

  /** Dedup lists the distinct elements in the order of their first occurrence. */
  lemma {:induction false} DedupFirstOccurrenceOrder<T(!new)>(s: seq<T>)
    ensures forall i, j :: 0 <= i < j < |Dedup(s)| ==> FirstIndex(s, Dedup(s)[i]) < FirstIndex(s, Dedup(s)[j])
    decreases |s|
  {
    if s != [] {
      var init, last := s[..|s| - 1], s[|s| - 1];
      assert s == init + [last];
      var r := Dedup(init);
      DedupFirstOccurrenceOrder(init);
      FirstIndexOfPrefix(init, last);
      var d := Dedup(s);
      if last !in r {
        assert d == r + [last];
        assert last !in init;
        assert forall j :: 0 <= j < |init| ==> s[j] == init[j];
        assert FirstIndex(s, last) == |init|;
        forall i, j | 0 <= i < j < |d|
          ensures FirstIndex(s, d[i]) < FirstIndex(s, d[j])
        {
          assert d[i] == r[i] && r[i] in init;
          if j < |r| {
            assert d[j] == r[j] && r[j] in init;
          }
        }
      } else {
        assert d == r;
        forall i, j | 0 <= i < j < |d|
          ensures FirstIndex(s, d[i]) < FirstIndex(s, d[j])
        {
          assert d[i] in init && d[j] in init;
        }
      }
    }
  }
}
