/**
 * The `java.util.List` operations the model classes use, on `seq`:
 * `contains` is `in`, `indexOf`, `remove(Object)`, "add unless present" and `retainAll`.
 * Equality is Dafny's `==`, which for class references is identity, as for
 * a Java class that does not override `equals`.
 */
module Seqs {

  /** No element occurs twice. */
  predicate NoDup<T(==)>(s: seq<T>)
  {
    forall i, j :: 0 <= i < j < |s| ==> s[i] != s[j]
  }

  /** `List.indexOf`, with `|s|` standing for -1: the first position holding `x`. */
  function IndexOf<T(==)>(s: seq<T>, x: T): (i: nat)
    ensures i <= |s|
    ensures i < |s| ==> s[i] == x
    ensures x !in s[..i]
    ensures i == |s| <==> x !in s
  {
    if s == [] then 0
    else if s[0] == x then 0
    else
      var i := 1 + IndexOf(s[1..], x);
      assert s[..i] == [s[0]] + s[1..][..i - 1];
      i
  }

  /** `List.remove(Object)`: drops the first occurrence of `x`, if any. */
  function RemoveFirst<T(==)>(s: seq<T>, x: T): (r: seq<T>)
    ensures x !in s ==> r == s
    ensures x in s ==> |r| == |s| - 1
  {
    if s == [] then []
    else if s[0] == x then s[1..]
    else [s[0]] + RemoveFirst(s[1..], x)
  }

  /** What `remove` leaves when `x` is present: everything before its first occurrence, then everything after. */
  lemma {:induction false} RemoveFirstSlices<T>(s: seq<T>, x: T)
    requires x in s
    ensures RemoveFirst(s, x) == s[..IndexOf(s, x)] + s[IndexOf(s, x) + 1..]
  {
    if s[0] != x {
      var t := s[1..];
      assert s == [s[0]] + t;
      RemoveFirstSlices(t, x);
      var k := IndexOf(t, x);
      assert IndexOf(s, x) == 1 + k;
      assert s[..1 + k] == [s[0]] + t[..k];
      assert s[1 + k + 1..] == t[k + 1..];
    }
  }

  /** `if (!list.contains(x)) list.add(x)`. */
  function AppendIfAbsent<T(==)>(s: seq<T>, x: T): seq<T>
  {
    if x in s then s else s + [x]
  }

  /** Removing from a duplicate-free list leaves it duplicate-free, without `x`, and with every other element. */
  lemma {:induction false} RemoveFirstNoDup<T>(s: seq<T>, x: T)
    requires NoDup(s)
    ensures NoDup(RemoveFirst(s, x))
    ensures x !in RemoveFirst(s, x)
    ensures forall y :: y in RemoveFirst(s, x) <==> y in s && y != x
  {
    if s != [] {
      var tail := s[1..];
      assert NoDup(tail) by {
        forall i, j | 0 <= i < j < |tail| ensures tail[i] != tail[j] {
          assert tail[i] == s[i + 1] && tail[j] == s[j + 1];
        }
      }
      assert s[0] !in tail by {
        forall i | 0 <= i < |tail| ensures tail[i] != s[0] {
          assert tail[i] == s[i + 1];
        }
      }
      assert s == [s[0]] + tail;
      if s[0] != x {
        RemoveFirstNoDup(tail, x);
        var t := RemoveFirst(tail, x);
        assert RemoveFirst(s, x) == [s[0]] + t;
        ConsNoDup(s[0], t);
      }
    }
  }

  lemma ConsNoDup<T>(h: T, t: seq<T>)
    requires NoDup(t) && h !in t
    ensures NoDup([h] + t)
  {
    var r := [h] + t;
    forall i, j | 0 <= i < j < |r| ensures r[i] != r[j] {
      assert r[j] == t[j - 1];
      if i > 0 { assert r[i] == t[i - 1]; }
    }
  }

  /** Adding unless present keeps a list duplicate-free and leaves `x` in it. */
  lemma AppendIfAbsentNoDup<T>(s: seq<T>, x: T)
    requires NoDup(s)
    ensures NoDup(AppendIfAbsent(s, x))
    ensures x in AppendIfAbsent(s, x)
    ensures forall y :: y in AppendIfAbsent(s, x) <==> y in s || y == x
  {
  }

  /** `r` is `s` with some elements dropped, the rest in their order. */
  predicate IsSubsequence<T(==)>(r: seq<T>, s: seq<T>)
  {
    r == [] || (s != [] && ((r[0] == s[0] && IsSubsequence(r[1..], s[1..])) || IsSubsequence(r, s[1..])))
  }

  /** Extending both sides by the same element, or only the larger one, keeps a subsequence. */
  lemma {:induction false} SubsequenceExtend<T>(r: seq<T>, s: seq<T>, x: T)
    requires IsSubsequence(r, s)
    ensures IsSubsequence(r, s + [x])
    ensures IsSubsequence(r + [x], s + [x])
  {
    if r == [] {
      if s != [] {
        SubsequenceExtend(r, s[1..], x);
        assert (s + [x])[1..] == s[1..] + [x];
      } else {
        assert ([] + [x])[1..] == [];
      }
    } else if r[0] == s[0] && IsSubsequence(r[1..], s[1..]) {
      SubsequenceExtend(r[1..], s[1..], x);
      assert (s + [x])[1..] == s[1..] + [x];
      assert (r + [x])[1..] == r[1..] + [x];
    } else {
      SubsequenceExtend(r, s[1..], x);
      assert (s + [x])[1..] == s[1..] + [x];
    }
  }

  /** `first.retainAll(second)`: the elements of `first` that `second` contains, in their order. */
  function Retain<T(==)>(first: seq<T>, second: seq<T>): (r: seq<T>)
    ensures forall i :: 0 <= i < |r| ==> r[i] in first && r[i] in second
    ensures forall i :: 0 <= i < |first| && first[i] in second ==> first[i] in r
    ensures NoDup(first) ==> NoDup(r)
    ensures IsSubsequence(r, first)
  {
    if first == [] then []
    else
      var rest := Retain(first[1..], second);
      assert forall i :: 0 < i < |first| ==> first[i] == first[1..][i - 1];
      if first[0] in second then
        var r := [first[0]] + rest;
        assert r[1..] == rest;
        r
      else rest
  }

  /** `retainAll` keeps every copy of an element the second list has, and no copy of any other. */
  lemma {:induction false} RetainCounts<T>(first: seq<T>, second: seq<T>)
    ensures forall x :: x in first ==> multiset(Retain(first, second))[x] == if x in second then multiset(first)[x] else 0
  {
    if first != [] {
      var rest := first[1..];
      RetainCounts(rest, second);
      assert first == [first[0]] + rest;
      assert multiset(first) == multiset{first[0]} + multiset(rest);
      var r := Retain(first, second);
      assert r == if first[0] in second then [first[0]] + Retain(rest, second) else Retain(rest, second);
      forall x | x in first
        ensures multiset(r)[x] == if x in second then multiset(first)[x] else 0
      {
        if x !in rest {
          assert multiset(rest)[x] == 0;
          assert x !in Retain(rest, second);
        }
      }
    }
  }

  /** Appending `x` moves no earlier first occurrence; a new `x` lands at the old length. */
  lemma {:induction false} IndexOfAppend<T>(s: seq<T>, x: T, y: T)
    ensures y in s ==> IndexOf(s + [x], y) == IndexOf(s, y)
    ensures x !in s ==> IndexOf(s + [x], x) == |s|
  {
    if s != [] {
      assert (s + [x])[1..] == s[1..] + [x];
      IndexOfAppend(s[1..], x, y);
    }
  }

  /** The elements of `a`, then those of `b` not yet present, each once (the contents of a `HashSet` of both). */
  function Union<T(==)>(a: seq<T>, b: seq<T>): (r: seq<T>)
    ensures |a| <= |r| && r[..|a|] == a
  {
    if b == [] then a else AppendIfAbsent(Union(a, b[..|b| - 1]), b[|b| - 1])
  }

  lemma {:induction false} UnionSpec<T>(a: seq<T>, b: seq<T>)
    requires NoDup(a)
    ensures forall x :: x in Union(a, b) <==> x in a || x in b
    ensures NoDup(Union(a, b))
  {
    if b != [] {
      var init := b[..|b| - 1];
      UnionSpec(a, init);
      AppendIfAbsentNoDup(Union(a, init), b[|b| - 1]);
      assert b == init + [b[|b| - 1]];
    }
  }
}
