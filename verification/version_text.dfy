/**
 * The text of a `version.txt` marker as the service compares it: the file's bytes read
 * as characters, then trimmed of surrounding whitespace the way Kotlin's `String.trim()`
 * does (`Char.isWhitespace`).
 */
module VersionText {
  import opened Basics

  /** Kotlin's `Char.isWhitespace` on the JVM: `Character.isWhitespace || Character.isSpaceChar`. */
  predicate IsWhitespace(c: char)
  {
    var u := c as int;
    || 0x09 <= u <= 0x0D || 0x1C <= u <= 0x20 || u == 0xA0 || u == 0x1680
    || 0x2000 <= u <= 0x200A || u == 0x2028 || u == 0x2029 || u == 0x202F
    || u == 0x205F || u == 0x3000
  }

  predicate AllWhitespace(s: string)
  {
    forall k :: 0 <= k < |s| ==> IsWhitespace(s[k])
  }

  /** The bytes of a file as characters, one per byte (see README on decoding). */
  function Text(d: Bytes): (t: string)
    ensures |t| == |d|
    ensures forall k :: 0 <= k < |d| ==> t[k] as int == d[k] as int
  {
    seq(|d|, k requires 0 <= k < |d| => (d[k] as int) as char)
  }

  /** `s` without its leading whitespace. */
  function TrimStart(s: string): (r: string)
    ensures |r| <= |s| && r == s[|s| - |r|..]
    ensures AllWhitespace(s[..|s| - |r|])
    ensures |r| > 0 ==> !IsWhitespace(r[0])
  {
    if |s| > 0 && IsWhitespace(s[0]) then TrimStart(s[1..]) else s
  }

  /** `s` without its trailing whitespace. */
  function TrimEnd(s: string): (r: string)
    ensures |r| <= |s| && r == s[..|r|]
    ensures AllWhitespace(s[|r|..])
    ensures |r| > 0 ==> !IsWhitespace(r[|r| - 1])
  {
    if |s| > 0 && IsWhitespace(s[|s| - 1]) then TrimEnd(s[..|s| - 1]) else s
  }

  /**
   * Kotlin's `trim()`: the longest infix of `s` that neither starts nor ends with
   * whitespace, everything cut off on both sides being whitespace.
   */
  function Trim(s: string): (r: string)
    ensures exists a, b :: 0 <= a <= b <= |s| && r == s[a..b] && AllWhitespace(s[..a]) && AllWhitespace(s[b..])
    ensures |r| > 0 ==> !IsWhitespace(r[0]) && !IsWhitespace(r[|r| - 1])
  {
    var t := TrimStart(s);
    var r := TrimEnd(t);
    var a := |s| - |t|;
    assert r == s[a..a + |r|];
    assert s[a + |r|..] == t[|r|..];
    assert AllWhitespace(s[..a]) && AllWhitespace(s[a + |r|..]);
    r
  }

  /** Trimming a string that is already trimmed changes nothing. */
  lemma TrimmedIsFixed(s: string)
    requires |s| > 0 ==> !IsWhitespace(s[0]) && !IsWhitespace(s[|s| - 1])
    ensures Trim(s) == s
  {
  }

  lemma TrimIdempotent(s: string)
    ensures Trim(Trim(s)) == Trim(s)
  {
  }

  /** Whitespace padding on either side never changes the trimmed version token. */
  lemma {:induction false} TrimIgnoresPadding(pre: string, x: string, post: string)
    requires AllWhitespace(pre) && AllWhitespace(post)
    ensures Trim(pre + x + post) == Trim(x)
  {
    TrimStartPadding(pre, x + post);
    assert pre + x + post == pre + (x + post);
    TrimEndPadding(TrimStart(x + post), post);
    TrimStartKeepsTail(x, post);
  }

  lemma {:induction false} TrimStartPadding(pre: string, s: string)
    requires AllWhitespace(pre)
    ensures TrimStart(pre + s) == TrimStart(s)
    decreases |pre|
  {
    if |pre| > 0 {
      assert (pre + s)[0] == pre[0];
      assert (pre + s)[1..] == pre[1..] + s;
      assert AllWhitespace(pre[1..]) by {
        forall k | 0 <= k < |pre[1..]| ensures IsWhitespace(pre[1..][k]) {
          assert pre[1..][k] == pre[k + 1];
        }
      }
      TrimStartPadding(pre[1..], s);
    } else {
      assert pre + s == s;
    }
  }

  /** Trailing whitespace padding survives the leading trim and is then cut off. */
  lemma {:induction false} TrimStartKeepsTail(x: string, post: string)
    requires AllWhitespace(post)
    ensures TrimEnd(TrimStart(x + post)) == TrimEnd(TrimStart(x))
    decreases |x|
  {
    if |x| > 0 && IsWhitespace(x[0]) {
      assert (x + post)[1..] == x[1..] + post;
      TrimStartKeepsTail(x[1..], post);
    } else if |x| == 0 {
      assert x + post == post;
      AllWhitespaceTrimsAway(post);
    } else {
      TrimEndPadding(x, post);
    }
  }

  lemma {:induction false} AllWhitespaceTrimsAway(s: string)
    requires AllWhitespace(s)
    ensures TrimStart(s) == []
    decreases |s|
  {
  }

  lemma {:induction false} TrimEndPadding(s: string, post: string)
    requires AllWhitespace(post)
    ensures TrimEnd(s + post) == TrimEnd(s)
    decreases |post|
  {
    if |post| > 0 {
      var s' := s + post;
      assert s'[..|s'| - 1] == s + post[..|post| - 1];
      TrimEndPadding(s, post[..|post| - 1]);
    } else {
      assert s + post == s;
    }
  }
}
