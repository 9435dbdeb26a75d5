/**
 * Order-preserving sequence combinators shared by the scanner and the
 * user-interface helpers: JavaScript's `Array.prototype.filter` and the
 * concatenation of a list of lists (`push(...xs)` in a loop).
 */
module Seqs {

  /** The elements of `s` satisfying `p`, in their original order. */
  function Filter<T(!new)>(s: seq<T>, p: T -> bool): (r: seq<T>)
    ensures |r| <= |s|
    ensures forall x :: x in r <==> x in s && p(x)
  {
    if |s| == 0 then []
    else if p(s[0]) then [s[0]] + Filter(s[1..], p)
    else Filter(s[1..], p)
  }

  /** Filtering distributes over concatenation: survivors keep their relative order. */
  lemma {:induction false} FilterAppend<T(!new)>(a: seq<T>, b: seq<T>, p: T -> bool)
    ensures Filter(a + b, p) == Filter(a, p) + Filter(b, p)
  {
    if |a| == 0 {
      assert a + b == b;
    } else {
      assert (a + b)[1..] == a[1..] + b;
      FilterAppend(a[1..], b, p);
    }
  }

  /** A filter and its complement split the input: the counts add up, as multisets too. */
  lemma {:induction false} FilterSplits<T(!new)>(s: seq<T>, p: T -> bool, q: T -> bool)
    requires forall x :: q(x) == !p(x)
    ensures |Filter(s, p)| + |Filter(s, q)| == |s|
    ensures multiset(Filter(s, p)) + multiset(Filter(s, q)) == multiset(s)
  {
    if |s| > 0 {
      FilterSplits(s[1..], p, q);
      assert s == [s[0]] + s[1..];
    }
  }

  /** The concatenation of `parts`, in order. */
  function Flatten<T(!new)>(parts: seq<seq<T>>): seq<T> {
    if |parts| == 0 then [] else parts[0] + Flatten(parts[1..])
  }

  /** An element is in the concatenation exactly when it is in one of the parts. */
  lemma {:induction false} FlattenMembership<T(!new)>(parts: seq<seq<T>>, x: T)
    ensures x in Flatten(parts) <==> exists i :: 0 <= i < |parts| && x in parts[i]
  {
    if |parts| > 0 {
      FlattenMembership(parts[1..], x);
      if x in Flatten(parts[1..]) {
        var j :| 0 <= j < |parts[1..]| && x in parts[1..][j];
        assert x in parts[j + 1];
      }
      if exists i :: 1 <= i < |parts| && x in parts[i] {
        var i :| 1 <= i < |parts| && x in parts[i];
        assert x in parts[1..][i - 1];
      }
    }
  }

  /** Flattening distributes over concatenation of the list of parts. */
  lemma {:induction false} FlattenAppend<T(!new)>(a: seq<seq<T>>, b: seq<seq<T>>)
    ensures Flatten(a + b) == Flatten(a) + Flatten(b)
  {
    if |a| == 0 {
      assert a + b == b;
    } else {
      assert (a + b)[1..] == a[1..] + b;
      FlattenAppend(a[1..], b);
    }
  }

  /** Part `j` sits between the parts before it and the parts after it. */
  lemma {:induction false} FlattenAround<T(!new)>(parts: seq<seq<T>>, j: nat)
    requires j < |parts|
    ensures Flatten(parts) == Flatten(parts[..j]) + parts[j] + Flatten(parts[j + 1..])
  {
    if j == 0 {
      assert parts[..0] == [];
    } else {
      var tail := parts[1..];
      FlattenAround(tail, j - 1);
      assert tail[..j - 1] == parts[..j][1..];
      assert tail[j - 1] == parts[j];
      assert tail[j..] == parts[j + 1..];
    }
  }

  /** Parts that are all empty flatten to nothing. */
  lemma {:induction false} FlattenOfEmpties<T(!new)>(parts: seq<seq<T>>)
    requires forall i :: 0 <= i < |parts| ==> parts[i] == []
    ensures Flatten(parts) == []
  {
    if |parts| > 0 {
      FlattenOfEmpties(parts[1..]);
    }
  }
}
