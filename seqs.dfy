/** Small sequence vocabulary shared by the ledger and the catalog:
    an optional value, the array `filter` of JavaScript, and the
    first-appearance de-duplication that spreading a `Set` performs. */
module Wrappers {

  datatype Option<+T> = None | Some(value: T)
}

module Seqs {

  /** `s` can be obtained from `t` by deleting elements: it keeps `t`'s order. */
  predicate IsSubseq<T(==)>(s: seq<T>, t: seq<T>)
    decreases |t|
  {
    s == [] || (t != [] && ((s[0] == t[0] && IsSubseq(s[1..], t[1..])) || IsSubseq(s, t[1..])))
  }

  predicate NoDuplicates<T(==)>(s: seq<T>)
  {
    forall i, j :: 0 <= i < j < |s| ==> s[i] != s[j]
  }

  /** `Array.prototype.filter`: the elements satisfying `keep`, in their original order. */
  function Filter<T>(s: seq<T>, keep: T -> bool): (r: seq<T>)
  {
    if s == [] then []
    else if keep(s[0]) then [s[0]] + Filter(s[1..], keep)
    else Filter(s[1..], keep)
  }

  /** What `Filter` promises: an order-preserving selection of `s` holding
      exactly the occurrences that satisfy `keep`. */
  lemma {:induction false} FilterSpec<T(!new)>(s: seq<T>, keep: T -> bool)
    ensures IsSubseq(Filter(s, keep), s)
    ensures forall x :: x in Filter(s, keep) <==> x in s && keep(x)
    ensures forall x :: multiset(Filter(s, keep))[x] == if keep(x) then multiset(s)[x] else 0
  {
    if s != [] {
      assert s == [s[0]] + s[1..];
      FilterSpec(s[1..], keep);
    }
  }

  lemma {:induction false} FilterKeepsAll<T(!new)>(s: seq<T>, keep: T -> bool)
    requires forall i :: 0 <= i < |s| ==> keep(s[i])
    ensures Filter(s, keep) == s
  {
    if s != [] {
      FilterKeepsAll(s[1..], keep);
    }
  }

  lemma {:induction false} FilterDropsAll<T(!new)>(s: seq<T>, keep: T -> bool)
    requires forall i :: 0 <= i < |s| ==> !keep(s[i])
    ensures Filter(s, keep) == []
  {
    if s != [] {
      FilterDropsAll(s[1..], keep);
    }
  }

  lemma {:induction false} FilterAppend<T(!new)>(a: seq<T>, b: seq<T>, keep: T -> bool)
    ensures Filter(a + b, keep) == Filter(a, keep) + Filter(b, keep)
  {
    if a == [] {
      assert a + b == b;
    } else {
      var ab := a + b;
      assert ab[0] == a[0] && ab[1..] == a[1..] + b;
      FilterAppend(a[1..], b, keep);
      if keep(a[0]) {
        assert Filter(ab, keep) == [a[0]] + Filter(ab[1..], keep);
        assert Filter(a, keep) == [a[0]] + Filter(a[1..], keep);
      } else {
        assert Filter(ab, keep) == Filter(ab[1..], keep);
        assert Filter(a, keep) == Filter(a[1..], keep);
      }
    }
  }

  /** Index of the first occurrence of `x` in `s`. */
  function FirstIndex<T(==)>(s: seq<T>, x: T): (i: nat)
    requires x in s
    ensures i < |s| && s[i] == x && x !in s[..i]
  {
    if s[0] == x then 0
    else
      var j := FirstIndex(s[1..], x);
      assert s[..j + 1] == [s[0]] + s[1..][..j];
      1 + j
  }

  /** An occurrence inside a prefix is the first occurrence in the whole sequence too. */
  lemma FirstIndexInPrefix<T>(s: seq<T>, k: nat, x: T)
    requires k <= |s| && x in s[..k]
    ensures FirstIndex(s, x) == FirstIndex(s[..k], x)
  {
    var i, j := FirstIndex(s[..k], x), FirstIndex(s, x);
    assert forall m :: 0 <= m < j ==> s[..j][m] == s[m];
    assert forall m :: 0 <= m < i ==> s[..k][..i][m] == s[m];
  }

  /** `[...new Set(s)]`: a `Set` remembers insertion order and ignores
      repeats, so each element appears once, where it first occurs. */
  function Distinct<T(==)>(s: seq<T>): (r: seq<T>)
  {
    if s == [] then []
    else
      var d := Distinct(s[..|s| - 1]);
      if s[|s| - 1] in d then d else d + [s[|s| - 1]]
  }

  /** What `Distinct` promises: no repeats, the same elements, ordered by first occurrence. */
  lemma DistinctSpec<T(!new)>(s: seq<T>)
    ensures NoDuplicates(Distinct(s))
    ensures forall x :: x in Distinct(s) <==> x in s
    ensures forall i, j :: 0 <= i < j < |Distinct(s)| ==>
      FirstIndex(s, Distinct(s)[i]) < FirstIndex(s, Distinct(s)[j])
  {
    DistinctElements(s);
    DistinctOrder(s);
  }

  lemma {:induction false} DistinctElements<T(!new)>(s: seq<T>)
    ensures NoDuplicates(Distinct(s))
    ensures forall x :: x in Distinct(s) <==> x in s
  {
    if s != [] {
      var init, x := s[..|s| - 1], s[|s| - 1];
      assert s == init + [x];
      DistinctElements(init);
    }
  }

  lemma {:induction false} DistinctOrder<T(!new)>(s: seq<T>)
    ensures forall x :: x in Distinct(s) ==> x in s
    ensures forall i, j :: 0 <= i < j < |Distinct(s)| ==>
      FirstIndex(s, Distinct(s)[i]) < FirstIndex(s, Distinct(s)[j])
  {
    if s != [] {
      var init, x := s[..|s| - 1], s[|s| - 1];
      assert s == init + [x];
      DistinctOrder(init);
      var d, r := Distinct(init), Distinct(s);
      assert forall y :: y in d ==> FirstIndex(s, y) == FirstIndex(init, y) < |s| - 1 by {
        forall y | y in d { FirstIndexInPrefix(s, |s| - 1, y); }
      }
      if x !in d {
        DistinctElements(init);
        assert x !in s[..|s| - 1];
        assert FirstIndex(s, x) == |s| - 1;
        assert r == d + [x];
        forall i, j | 0 <= i < j < |r| ensures FirstIndex(s, r[i]) < FirstIndex(s, r[j]) {
          assert r[i] in d;
        }
      } else {
        assert r == d;
      }
    }
  }

  /** One step of `Distinct`: a later element is appended unless already seen. */
  lemma DistinctSnoc<T>(s: seq<T>, x: T)
    ensures Distinct(s + [x]) == if x in Distinct(s) then Distinct(s) else Distinct(s) + [x]
  {
    assert (s + [x])[..|s|] == s;
  }

  /** Three distinct values, repeated as in `[e, e, f, h, f, h]`, de-duplicate to `[e, f, h]`. */
  lemma DistinctOfPattern<T>(e: T, f: T, h: T)
    requires e != f && e != h && f != h
    ensures Distinct([e, e, f, h, f, h]) == [e, f, h]
  {
    DistinctOfPatternHead(e, f, h);
    DistinctSnoc([e, e, f, h], f);
    assert [e, e, f, h, f] == [e, e, f, h] + [f];
    DistinctSnoc([e, e, f, h, f], h);
    assert [e, e, f, h, f, h] == [e, e, f, h, f] + [h];
  }

  lemma DistinctOfPatternHead<T>(e: T, f: T, h: T)
    requires e != f && e != h && f != h
    ensures Distinct([e, e, f, h]) == [e, f, h]
  {
    DistinctOfPair(e);
    DistinctSnoc([e, e], f);
    assert [e, e, f] == [e, e] + [f];
    DistinctSnoc([e, e, f], h);
    assert [e, e, f, h] == [e, e, f] + [h];
  }

  lemma DistinctOfPair<T>(e: T)
    ensures Distinct([e, e]) == [e]
  {
    DistinctSnoc([], e);
    assert [e] == [] + [e];
    DistinctSnoc([e], e);
    assert [e, e] == [e] + [e];
  }
}
