/**
 * The JavaScript string built-ins the normaliser calls: `trim`,
 * `toLowerCase`, `includes`, and `replace` with a global literal pattern and
 * an empty replacement.
 */
module JsString {

  /** The ECMAScript WhiteSpace and LineTerminator code points, which `trim` removes. */
  predicate IsWhitespace(c: char)
  {
    var n := c as int;
    n == 0x09 || n == 0x0A || n == 0x0B || n == 0x0C || n == 0x0D || n == 0x20 ||
    n == 0xA0 || n == 0x1680 || (0x2000 <= n <= 0x200A) || n == 0x2028 || n == 0x2029 ||
    n == 0x202F || n == 0x205F || n == 0x3000 || n == 0xFEFF
  }

  predicate AllWhitespace(s: string)
  {
    forall k :: 0 <= k < |s| ==> IsWhitespace(s[k])
  }

  /** No whitespace at either end. */
  predicate IsTrimmed(s: string)
  {
    |s| == 0 || (!IsWhitespace(s[0]) && !IsWhitespace(s[|s| - 1]))
  }

  /** The length of the longest all-whitespace prefix. */
  function LeadingWhitespace(s: string): (n: nat)
    ensures n <= |s|
    ensures forall k :: 0 <= k < n ==> IsWhitespace(s[k])
    ensures n == |s| || !IsWhitespace(s[n])
    decreases |s|
  {
    if |s| > 0 && IsWhitespace(s[0]) then 1 + LeadingWhitespace(s[1..]) else 0
  }

  /** The start of the longest all-whitespace run ending at `hi`, not going below `lo`. */
  function TrailingWhitespaceStart(s: string, lo: nat, hi: nat): (m: nat)
    requires lo <= hi <= |s|
    ensures lo <= m <= hi
    ensures forall k :: m <= k < hi ==> IsWhitespace(s[k])
    ensures m == lo || !IsWhitespace(s[m - 1])
    decreases hi
  {
    if hi > lo && IsWhitespace(s[hi - 1]) then TrailingWhitespaceStart(s, lo, hi - 1) else hi
  }

  /** `s.trim()`: the slice left after removing whitespace at both ends. */
  function Trim(s: string): (r: string)
    ensures IsTrimmed(r)
    ensures exists i, j :: 0 <= i <= j <= |s| && r == s[i..j] && AllWhitespace(s[..i]) && AllWhitespace(s[j..])
  {
    var i := LeadingWhitespace(s);
    var j := TrailingWhitespaceStart(s, i, |s|);
    assert AllWhitespace(s[..i]) && AllWhitespace(s[j..]);
    s[i..j]
  }

  /** A string already trimmed is returned unchanged. */
  lemma TrimKeepsTrimmed(s: string)
    requires IsTrimmed(s)
    ensures Trim(s) == s
  {
  }

  /** Whitespace added on each side of a trimmed string is exactly what `trim` removes. */
  lemma {:induction false} TrimRemovesPadding(w1: string, s: string, w2: string)
    requires AllWhitespace(w1) && AllWhitespace(w2) && IsTrimmed(s)
    ensures Trim(w1 + s + w2) == s
  {
    var t := w1 + s + w2;
    LeadingOfPadded(w1, s + w2);
    assert t == w1 + (s + w2);
    var i := LeadingWhitespace(t);
    if s == [] {
      assert AllWhitespace(s + w2) by {
        assert s + w2 == w2;
      }
      assert i == |t|;
    } else {
      assert i == |w1|;
      TrailingOfPadded(t, i, |w1| + |s|);
    }
  }

  lemma {:induction false} LeadingOfPadded(w: string, u: string)
    requires AllWhitespace(w)
    ensures LeadingWhitespace(w + u) == |w| + LeadingWhitespace(u)
    decreases |w|
  {
    if w != [] {
      assert (w + u)[1..] == w[1..] + u;
      LeadingOfPadded(w[1..], u);
    } else {
      assert w + u == u;
    }
  }

  lemma {:induction false} TrailingOfPadded(t: string, lo: nat, e: nat)
    requires lo < e <= |t|
    requires !IsWhitespace(t[e - 1])
    requires forall k :: e <= k < |t| ==> IsWhitespace(t[k])
    ensures TrailingWhitespaceStart(t, lo, |t|) == e
  {
    var hi := |t|;
    while hi > e
      invariant e <= hi <= |t|
      invariant TrailingWhitespaceStart(t, lo, |t|) == TrailingWhitespaceStart(t, lo, hi)
    {
      hi := hi - 1;
    }
  }

  /** ASCII case mapping; every keyword the classifier looks for is ASCII. */
  function LowerChar(c: char): char
  {
    if 'A' <= c <= 'Z' then (c as int + 32) as char else c
  }

  /** `s.toLowerCase()` on the ASCII letters. */
  function ToLower(s: string): string
  {
    seq(|s|, i requires 0 <= i < |s| => LowerChar(s[i]))
  }

  predicate HasNoUpper(s: string)
  {
    forall k :: 0 <= k < |s| ==> !('A' <= s[k] <= 'Z')
  }

  /** Lowering yields no upper-case letter and leaves lower-case text alone, so it is idempotent. */
  lemma ToLowerProperties(s: string)
    ensures |ToLower(s)| == |s| && HasNoUpper(ToLower(s))
    ensures HasNoUpper(s) ==> ToLower(s) == s
    ensures ToLower(ToLower(s)) == ToLower(s)
  {
  }

  /** `p` occurs in `s` starting at index `i`. */
  predicate OccursAt(s: string, p: string, i: int)
  {
    0 <= i <= |s| - |p| && s[i..i + |p|] == p
  }

  /** `s.includes(p)`: `p` occurs in `s` at some index. */
  predicate Contains(s: string, p: string)
  {
    exists i | 0 <= i <= |s| - |p| :: OccursAt(s, p, i)
  }

  /** `includes` read as a scan from the left: a match at the head, or one further on. */
  lemma ContainsStep(s: string, p: string)
    ensures Contains(s, p) <==> |p| <= |s| && (s[..|p|] == p || (|s| > 0 && Contains(s[1..], p)))
  {
    if Contains(s, p) {
      var i :| 0 <= i <= |s| - |p| && OccursAt(s, p, i);
      if i > 0 {
        assert s[1..][i - 1..i - 1 + |p|] == s[i..i + |p|];
        assert OccursAt(s[1..], p, i - 1);
      }
    }
    if |p| <= |s| && s[..|p|] == p {
      assert OccursAt(s, p, 0);
    }
    if |p| <= |s| && |s| > 0 && Contains(s[1..], p) {
      var i :| 0 <= i <= |s[1..]| - |p| && OccursAt(s[1..], p, i);
      assert s[i + 1..i + 1 + |p|] == s[1..][i..i + |p|];
      assert OccursAt(s, p, i + 1);
    }
  }

  /** A string that lacks one of the characters of `p` cannot contain `p`. */
  lemma MissingCharExcludes(s: string, p: string, c: char)
    requires c in p && c !in s
    ensures !Contains(s, p)
  {
    forall i | 0 <= i <= |s| - |p|
      ensures !OccursAt(s, p, i)
    {
      var k :| 0 <= k < |p| && p[k] == c;
      assert s[i + k] == s[i..i + |p|][k];
    }
  }

  /** An occurrence inside a slice is an occurrence in the whole string. */
  lemma ContainsInSlice(s: string, i: nat, j: nat, p: string)
    requires i <= j <= |s|
    requires Contains(s[i..j], p)
    ensures Contains(s, p)
  {
    var k :| 0 <= k <= |s[i..j]| - |p| && OccursAt(s[i..j], p, k);
    forall m | 0 <= m < |p|
      ensures s[i + k..i + k + |p|][m] == p[m]
    {
      assert s[i..j][k..k + |p|][m] == s[i + k + m];
    }
    assert OccursAt(s, p, i + k);
  }

  /**
   * `s.replace(/p/g, '')` for a literal, non-empty `p`: occurrences are
   * found from the left and removed without overlapping.
   */
  function RemoveAll(s: string, p: string): (r: string)
    requires |p| > 0
    ensures |r| <= |s|
    decreases |s|
  {
    if |s| < |p| then s
    else if s[..|p|] == p then RemoveAll(s[|p|..], p)
    else [s[0]] + RemoveAll(s[1..], p)
  }

  /** Removing a pattern that does not occur changes nothing. */
  lemma {:induction false} RemoveAllAbsent(s: string, p: string)
    requires |p| > 0 && !Contains(s, p)
    ensures RemoveAll(s, p) == s
    decreases |s|
  {
    if |s| >= |p| {
      ContainsStep(s, p);
      RemoveAllAbsent(s[1..], p);
      assert [s[0]] + s[1..] == s;
    }
  }

  /** A prefix in which the pattern's first character never appears is kept as it is. */
  lemma {:induction false} RemoveAllKeepsPrefix(u: string, v: string, p: string)
    requires |p| > 0 && p[0] !in u
    ensures RemoveAll(u + v, p) == u + RemoveAll(v, p)
    decreases |u|
  {
    if u != [] {
      var t := u + v;
      assert t[0] == u[0];
      assert t[1..] == u[1..] + v;
      RemoveAllKeepsPrefix(u[1..], v, p);
      if |t| < |p| {
        RemoveAllShort(v, p);
        assert u + RemoveAll(v, p) == u + v;
      } else {
        assert t[..|p|][0] == u[0];
        assert t[..|p|] != p;
        assert RemoveAll(t, p) == [u[0]] + (u[1..] + RemoveAll(v, p));
        assert [u[0]] + (u[1..] + RemoveAll(v, p)) == u + RemoveAll(v, p);
      }
    } else {
      assert u + v == v;
    }
  }

  lemma RemoveAllShort(v: string, p: string)
    requires 0 < |p| && |v| < |p|
    ensures RemoveAll(v, p) == v
  {
  }

  const Fence: string := "```"

  /** Where no fence starts at the head, the first character is kept. */
  lemma FenceRemovalKeepsHead(s: string)
    requires |s| > 0 && (|s| < 3 || s[..3] != Fence)
    ensures RemoveAll(s, Fence) == [s[0]] + RemoveAll(s[1..], Fence)
  {
    if |s| < 3 {
      assert [s[0]] + s[1..] == s;
    }
  }

  /** After every "```" has been removed, none is left, even where removals brought backticks together. */
  lemma {:induction false} FenceRemovalLeavesNoFence(s: string)
    ensures !Contains(RemoveAll(s, Fence), Fence)
    decreases |s|
  {
    var r := RemoveAll(s, Fence);
    ContainsStep(r, Fence);
    if |s| < 3 {
      assert |r| < 3;
    } else if s[..3] == Fence {
      FenceRemovalLeavesNoFence(s[3..]);
    } else {
      var rest := RemoveAll(s[1..], Fence);
      FenceRemovalLeavesNoFence(s[1..]);
      assert r == [s[0]] + rest;
      assert r[1..] == rest;
      if |r| >= 3 {
        if s[0] == '`' {
          assert s[..3] != Fence;
          if s[1] != '`' {
            if |s[1..]| >= 3 {
              assert s[1..][..3][0] == s[1];
            }
            FenceRemovalKeepsHead(s[1..]);
            assert rest[0] == s[1];
          } else {
            assert s[2] != '`' by {
              assert s[..3][1] == s[1] && s[..3][2] == s[2];
            }
            if |s[1..]| >= 3 {
              assert s[1..][..3][1] == s[2];
            }
            FenceRemovalKeepsHead(s[1..]);
            assert s[1..][1..] == s[2..];
            if |s[2..]| >= 3 {
              assert s[2..][..3][0] == s[2];
            }
            FenceRemovalKeepsHead(s[2..]);
            assert r[2] == s[2];
          }
          assert r[..3] != Fence;
        } else {
          assert r[..3][0] == s[0];
        }
      }
    }
  }
}
