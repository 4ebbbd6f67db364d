/**
 * The string operations the app relies on, modelled over `seq<char>`:
 * case folding (ASCII), `String.trim`, `String.startsWith`, the last path
 * component of a file name, `String.hashCode` and `String.CASE_INSENSITIVE_ORDER`.
 */
module Text {

  /** `Character.toLowerCase`, restricted to ASCII letters. */
  function Lower(c: char): (r: char)
    ensures 'A' <= c <= 'Z' ==> 'a' <= r <= 'z'
    ensures !('A' <= c <= 'Z') ==> r == c
  {
    if 'A' <= c <= 'Z' then (c as int + 32) as char else c
  }

  /** `String.toLowerCase`: folds every character. */
  function LowerStr(s: string): string
  {
    seq(|s|, i requires 0 <= i < |s| => Lower(s[i]))
  }

  /** `String.equalsIgnoreCase` for non-null arguments. */
  predicate EqualsIgnoreCase(a: string, b: string)
  {
    LowerStr(a) == LowerStr(b)
  }

  /** `String.startsWith`. */
  predicate StartsWith(s: string, prefix: string)
  {
    |prefix| <= |s| && s[..|prefix|] == prefix
  }

  /** The characters `String.trim` strips: code points up to and including the space. */
  predicate IsTrimmable(c: char)
  {
    c <= ' '
  }

  /** How many strippable characters `s` starts with. */
  function Lead(s: string): (i: nat)
    ensures i <= |s|
    ensures forall k :: 0 <= k < i ==> IsTrimmable(s[k])
    ensures i < |s| ==> !IsTrimmable(s[i])
  {
    if s == [] || !IsTrimmable(s[0]) then 0
    else
      var i := 1 + Lead(s[1..]);
      assert forall k :: 0 < k < |s| ==> s[k] == s[1..][k - 1];
      i
  }

  /** The length of `s` once its strippable tail is cut off. */
  function Trail(s: string): (j: nat)
    ensures j <= |s|
    ensures forall k :: j <= k < |s| ==> IsTrimmable(s[k])
    ensures 0 < j ==> !IsTrimmable(s[j - 1])
  {
    if s == [] || !IsTrimmable(s[|s| - 1]) then |s|
    else Trail(s[..|s| - 1])
  }

  /**
   * `String.trim`: skips the strippable characters at the front, then cuts
   * those at the back, leaving a contiguous piece of `s` with no strippable
   * character at either end.
   */
  function Trim(s: string): (r: string)
    ensures exists i, j :: 0 <= i <= j <= |s| && r == s[i..j]
    ensures r == [] || (!IsTrimmable(r[0]) && !IsTrimmable(r[|r| - 1]))
    ensures r == [] <==> forall k :: 0 <= k < |s| ==> IsTrimmable(s[k])
  {
    var i := Lead(s);
    var t := s[i..];
    var j := Trail(t);
    assert t[..j] == s[i..i + j];
    assert j == 0 ==> forall k :: 0 <= k < |s| ==> IsTrimmable(s[k]) by {
      assert forall k :: i <= k < |s| ==> s[k] == t[k - i];
    }
    t[..j]
  }

  /**
   * What `Trim` removes: only strippable characters, and only at the two
   * ends; what it keeps starts and ends with a character that stays.
   */
  lemma TrimStripsOnlyEnds(s: string)
    ensures exists i, j :: 0 <= i <= j <= |s| && Trim(s) == s[i..j]
                           && (forall k :: 0 <= k < i ==> IsTrimmable(s[k]))
                           && (forall k :: j <= k < |s| ==> IsTrimmable(s[k]))
  {
    var i := Lead(s);
    var t := s[i..];
    var j := Trail(t);
    assert Trim(s) == s[i..i + j];
    assert forall k :: i + j <= k < |s| ==> IsTrimmable(s[k]) by {
      assert forall k :: i + j <= k < |s| ==> s[k] == t[k - i];
    }
  }

  /** `s.trim().isEmpty()`. */
  predicate IsBlank(s: string)
  {
    Trim(s) == []
  }

  /** Trimming a trimmed string changes nothing. */
  lemma TrimIdempotent(s: string)
    ensures Trim(Trim(s)) == Trim(s)
  {
    var t := Trim(s);
    if t != [] {
      assert Lead(t) == 0;
      assert Trail(t[0..]) == |t|;
    }
  }

  /**
   * `new File(path).getName()`: the part of the path after its last '/',
   * the whole path when it has none.
   */
  function BaseName(path: string): (r: string)
    ensures '/' !in r
    ensures |r| <= |path| && forall k :: 0 <= k < |r| ==> r[k] == path[|path| - |r| + k]
    ensures |r| < |path| ==> path[|path| - |r| - 1] == '/'
  {
    if path == [] then []
    else if path[|path| - 1] == '/' then []
    else
      var p := path[..|path| - 1];
      var r := BaseName(p) + [path[|path| - 1]];
      assert path == p + [path[|path| - 1]];
      r
  }

  /** Java's `int` is 32 bits wide; hashes are kept as their unsigned 32-bit pattern. */
  const HashModulus: nat := 0x1_0000_0000

  /** `String.hashCode`: s[0]*31^(n-1) + ... + s[n-1], wrapping at 32 bits. */
  function StringHash(s: string): (h: nat)
    ensures h < HashModulus
  {
    if s == [] then 0 else (31 * StringHash(s[..|s| - 1]) + s[|s| - 1] as int) % HashModulus
  }

  /** Lexicographic order on character codes, a proper prefix first. */
  predicate LexLeq(a: string, b: string)
  {
    a == [] || (b != [] && (a[0] < b[0] || (a[0] == b[0] && LexLeq(a[1..], b[1..]))))
  }

  /** `String.CASE_INSENSITIVE_ORDER` as "less than or equal": compare the folded strings. */
  predicate CiLeq(a: string, b: string)
  {
    LexLeq(LowerStr(a), LowerStr(b))
  }

  lemma {:induction false} LexLeqTotal(a: string, b: string)
    ensures LexLeq(a, b) || LexLeq(b, a)
  {
    if a != [] && b != [] && a[0] == b[0] {
      LexLeqTotal(a[1..], b[1..]);
    }
  }

  lemma {:induction false} LexLeqTransitive(a: string, b: string, c: string)
    requires LexLeq(a, b) && LexLeq(b, c)
    ensures LexLeq(a, c)
  {
    if a != [] && a[0] == b[0] && b[0] == c[0] {
      LexLeqTransitive(a[1..], b[1..], c[1..]);
    }
  }

  /** The case-insensitive order is a total preorder: any two strings compare. */
  lemma CiLeqTotal(a: string, b: string)
    ensures CiLeq(a, b) || CiLeq(b, a)
  {
    LexLeqTotal(LowerStr(a), LowerStr(b));
  }

  /** The case-insensitive order is transitive. */
  lemma CiLeqTransitive(a: string, b: string, c: string)
    requires CiLeq(a, b) && CiLeq(b, c)
    ensures CiLeq(a, c)
  {
    LexLeqTransitive(LowerStr(a), LowerStr(b), LowerStr(c));
  }
}
