/**
 The string primitives the answer pipeline is built from: lower-casing,
 substring containment (Python's `k in s`), `sep.join(xs)` and the bullet
 prefix put in front of every guidance point.
 */
module Text {

  /** The separator of every join in the pipeline. The source writes the
      Python literal "\\n", which is a backslash followed by the letter n;
      it is kept exactly as written. */
  const Sep: string := "\\n"

  /** The prefix of every bullet line: a bullet sign and a space. */
  const BulletMark: string := "\U{2022} "

  predicate IsUpperAscii(c: char) {
    'A' <= c <= 'Z'
  }

  /** No character of `s` is an upper-case ASCII letter. */
  ghost predicate NoUpper(s: string) {
    forall i :: 0 <= i < |s| ==> !IsUpperAscii(s[i])
  }

  /** Lower-casing of one character, restricted to ASCII letters. */
  function LowerChar(c: char): (d: char)
    ensures !IsUpperAscii(d)
    ensures IsUpperAscii(c) ==> 'a' <= d <= 'z' && d as int - c as int == 32
    ensures !IsUpperAscii(c) ==> d == c
  {
    if IsUpperAscii(c) then (c as int + 32) as char else c
  }

  /** Lower-casing of a string (Python's `str.lower`, restricted to ASCII). */
  function Lower(s: string): (r: string)
    ensures |r| == |s|
    ensures NoUpper(r)
    ensures forall i :: 0 <= i < |s| && !IsUpperAscii(s[i]) ==> r[i] == s[i]
    ensures forall i :: 0 <= i < |s| && IsUpperAscii(s[i]) ==> r[i] as int == s[i] as int + 32
  {
    seq(|s|, i requires 0 <= i < |s| => LowerChar(s[i]))
  }

  /** Lower-casing a second time changes nothing. */
  lemma LowerIdempotent(s: string)
    ensures Lower(Lower(s)) == Lower(s)
  {
  }

  /** A string is its own lower-case form exactly when it has no upper-case letter. */
  lemma LowerFixedIff(s: string)
    ensures Lower(s) == s <==> NoUpper(s)
  {
    if NoUpper(s) {
      assert forall i :: 0 <= i < |s| ==> Lower(s)[i] == s[i];
    }
  }

  /** `k` occurs in `s` starting at index `i`. */
  predicate OccursAt(s: string, k: string, i: int) {
    0 <= i && i + |k| <= |s| && s[i..i + |k|] == k
  }

  /** Python's `k in s` on strings, decided by scanning `s` from the left. */
  function Contains(s: string, k: string): bool
    decreases |s|
  {
    if |k| > |s| then false
    else if s[..|k|] == k then true
    else Contains(s[1..], k)
  }

  /** The scan answers true exactly when `k` occurs somewhere in `s`. */
  lemma {:induction false} ContainsIff(s: string, k: string)
    ensures Contains(s, k) <==> exists i :: OccursAt(s, k, i)
    decreases |s|
  {
    if |k| > |s| {
    } else if s[..|k|] == k {
      assert OccursAt(s, k, 0);
    } else {
      ContainsIff(s[1..], k);
      if exists i :: OccursAt(s[1..], k, i) {
        var i :| OccursAt(s[1..], k, i);
        assert s[1..][i..i + |k|] == s[i + 1..i + 1 + |k|];
        assert OccursAt(s, k, i + 1);
      }
      if exists i :: OccursAt(s, k, i) {
        var i :| OccursAt(s, k, i);
        assert i != 0;
        assert s[1..][i - 1..i - 1 + |k|] == s[i..i + |k|];
        assert OccursAt(s[1..], k, i - 1);
      }
    }
  }

  /** An occurrence at a known position makes the scan succeed. */
  lemma ContainsAt(s: string, k: string, i: int)
    requires OccursAt(s, k, i)
    ensures Contains(s, k)
  {
    ContainsIff(s, k);
  }

  /** Python's `sep.join(xs)`: the empty list joins to the empty string. */
  function Join(sep: string, xs: seq<string>): (r: string)
    ensures |xs| == 0 ==> r == ""
    decreases |xs|
  {
    if |xs| == 0 then ""
    else if |xs| == 1 then xs[0]
    else xs[0] + sep + Join(sep, xs[1..])
  }

  /** Joining one more piece adds the separator and the piece at the end. */
  lemma {:induction false} JoinAppend(sep: string, xs: seq<string>, y: string)
    requires |xs| > 0
    ensures Join(sep, xs + [y]) == Join(sep, xs) + sep + y
    decreases |xs|
  {
    if |xs| == 1 {
      assert xs + [y] == [xs[0], y];
      assert [xs[0], y][1..] == [y];
    } else {
      assert (xs + [y])[1..] == xs[1..] + [y];
      JoinAppend(sep, xs[1..], y);
    }
  }

  /** A join of non-empty pieces begins with its first piece. */
  lemma JoinStartsWith(sep: string, xs: seq<string>)
    requires |xs| > 0
    ensures xs[0] <= Join(sep, xs)
  {
  }

  /** A non-empty sequence is its front followed by its last element. */
  lemma SplitLast<T>(xs: seq<T>)
    requires |xs| > 0
    ensures xs == xs[..|xs| - 1] + [xs[|xs| - 1]]
  {
  }

  /** Appending three elements at once is appending them one by one. */
  lemma AppendThree<T>(p: seq<T>, a: T, b: T, c: T)
    ensures p + [a, b, c] == p + [a] + [b] + [c]
  {
  }

  /** `s.endswith(t)`. */
  predicate EndsWith(s: string, t: string) {
    |t| <= |s| && s[|s| - |t|..] == t
  }

  /** A string ends with whatever was appended to it last. */
  lemma EndsWithSuffix(s: string, t: string)
    ensures EndsWith(s + t, t)
  {
    assert (s + t)[|s|..] == t;
  }

  /** Appending to both sides keeps a suffix a suffix. */
  lemma EndsWithAppend(s: string, t: string, x: string)
    requires EndsWith(s, t)
    ensures EndsWith(s + x, t + x)
  {
    var k := |s| - |t|;
    assert (s + x)[k..] == s[k..] + x;
  }

  /** The join of several pieces whose last one is empty ends with the separator. */
  lemma JoinEndsWithSep(sep: string, xs: seq<string>)
    requires |xs| >= 2 && xs[|xs| - 1] == ""
    ensures EndsWith(Join(sep, xs), sep)
  {
    var n := |xs|;
    assert xs == xs[..n - 1] + [""];
    JoinAppend(sep, xs[..n - 1], "");
    EndsWithSuffix(Join(sep, xs[..n - 1]), sep);
    assert Join(sep, xs[..n - 1]) + sep + "" == Join(sep, xs[..n - 1]) + sep;
  }

  /** `[f"• {x}" for x in xs]`: every item carries the bullet prefix. */
  function Bullets(xs: seq<string>): (r: seq<string>)
    ensures |r| == |xs|
    ensures forall i :: 0 <= i < |xs| ==> BulletMark <= r[i] && r[i][|BulletMark|..] == xs[i]
  {
    seq(|xs|, i requires 0 <= i < |xs| => BulletMark + xs[i])
  }

  /** The body of a bullet-list section: the bulleted items joined by the separator. */
  function BulletBody(xs: seq<string>): string {
    Join(Sep, Bullets(xs))
  }
}
