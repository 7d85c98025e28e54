/**
 * The JavaScript string operations the components rely on, over Dafny strings
 * of Unicode scalar values: `String.prototype.trim`, `.length` (which counts
 * UTF-16 code units) and `.includes`.
 */
module Text {

  /** The WhiteSpace and LineTerminator code points of ECMAScript, which `trim` removes. */
  predicate IsJsWhitespace(c: char) {
    c == '\t' || c == '\n' || c == '\U{000B}' || c == '\U{000C}' || c == '\r' || c == ' '
    || c == '\U{00A0}' || c == '\U{1680}' || ('\U{2000}' <= c <= '\U{200A}')
    || c == '\U{2028}' || c == '\U{2029}' || c == '\U{202F}' || c == '\U{205F}'
    || c == '\U{3000}' || c == '\U{FEFF}'
  }

  ghost predicate AllWhitespace(s: string) {
    forall i :: 0 <= i < |s| ==> IsJsWhitespace(s[i])
  }

  /** `trimStart`: drops the longest all-whitespace prefix. */
  function TrimStart(s: string): string {
    if |s| > 0 && IsJsWhitespace(s[0]) then TrimStart(s[1..]) else s
  }

  /** `trimEnd`: drops the longest all-whitespace suffix. */
  function TrimEnd(s: string): string {
    if |s| > 0 && IsJsWhitespace(s[|s| - 1]) then TrimEnd(s[..|s| - 1]) else s
  }

  /** `trimStart` leaves a suffix of `s`, cuts only whitespace, and leaves no whitespace in front. */
  lemma {:induction false} TrimStartSpec(s: string)
    ensures var r := TrimStart(s);
            |r| <= |s| && r == s[|s| - |r|..] && AllWhitespace(s[..|s| - |r|])
            && (r == [] || !IsJsWhitespace(r[0]))
  {
    if |s| > 0 && IsJsWhitespace(s[0]) {
      TrimStartSpec(s[1..]);
      PrefixStep(s, TrimStart(s[1..]));
    }
  }

  /** `trimEnd` leaves a prefix of `s`, cuts only whitespace, and leaves no whitespace at the end. */
  lemma {:induction false} TrimEndSpec(s: string)
    ensures var r := TrimEnd(s);
            |r| <= |s| && r == s[..|r|] && AllWhitespace(s[|r|..])
            && (r == [] || !IsJsWhitespace(r[|r| - 1]))
  {
    if |s| > 0 && IsJsWhitespace(s[|s| - 1]) {
      TrimEndSpec(s[..|s| - 1]);
      SuffixStep(s, TrimEnd(s[..|s| - 1]));
    }
  }

  /** One more leading whitespace character in front of what `TrimStart` cut. */
  lemma PrefixStep(s: string, r: string)
    requires |s| > 0 && IsJsWhitespace(s[0])
    requires |r| <= |s| - 1 && r == s[1..][|s| - 1 - |r|..] && AllWhitespace(s[1..][..|s| - 1 - |r|])
    ensures r == s[|s| - |r|..] && AllWhitespace(s[..|s| - |r|])
  {
    forall k | 0 <= k < |s| - |r| ensures IsJsWhitespace(s[k]) {
      if k > 0 {
        assert s[k] == s[1..][..|s| - 1 - |r|][k - 1];
      }
    }
  }

  /** One more trailing whitespace character after what `TrimEnd` cut. */
  lemma SuffixStep(s: string, r: string)
    requires |s| > 0 && IsJsWhitespace(s[|s| - 1])
    requires |r| <= |s| - 1 && r == s[..|s| - 1][..|r|] && AllWhitespace(s[..|s| - 1][|r|..])
    ensures r == s[..|r|] && AllWhitespace(s[|r|..])
  {
    forall k | 0 <= k < |s| - |r| ensures IsJsWhitespace(s[|r|..][k]) {
      if |r| + k < |s| - 1 {
        assert s[|r|..][k] == s[..|s| - 1][|r|..][k];
      }
    }
  }

  /** `r` is what is left of `s` at offset `i` once whitespace is cut from both ends. */
  ghost predicate TrimmedAt(s: string, r: string, i: int) {
    0 <= i <= |s| - |r| && s[i..i + |r|] == r && AllWhitespace(s[..i]) && AllWhitespace(s[i + |r|..])
  }

  /** `trim`: whitespace removed at both ends. */
  function Trim(s: string): string {
    TrimEnd(TrimStart(s))
  }

  /**
   * What `trim` leaves: nothing exactly when `s` is all whitespace; otherwise
   * a stretch of `s` that neither starts nor ends with whitespace, with only
   * whitespace before and after it.
   */
  lemma TrimSpec(s: string)
    ensures |Trim(s)| <= |s|
    ensures Trim(s) == [] <==> AllWhitespace(s)
    ensures Trim(s) != [] ==> !IsJsWhitespace(Trim(s)[0]) && !IsJsWhitespace(Trim(s)[|Trim(s)| - 1])
    ensures exists i :: TrimmedAt(s, Trim(s), i)
  {
    var t := TrimStart(s);
    TrimStartSpec(s);
    TrimEndSpec(t);
    CutBothEnds(s, t, TrimEnd(t));
  }

  /** Cutting a whitespace prefix off `s` (giving `t`) and then a whitespace suffix off `t` (giving `r`). */
  lemma CutBothEnds(s: string, t: string, r: string)
    requires |t| <= |s| && t == s[|s| - |t|..] && AllWhitespace(s[..|s| - |t|])
    requires t == [] || !IsJsWhitespace(t[0])
    requires |r| <= |t| && r == t[..|r|] && AllWhitespace(t[|r|..])
    ensures TrimmedAt(s, r, |s| - |t|)
    ensures r == [] <==> AllWhitespace(s)
    ensures r != [] ==> !IsJsWhitespace(r[0])
  {
    var i := |s| - |t|;
    assert s[i..i + |r|] == r;
    assert s[i + |r|..] == t[|r|..];
    if r == [] {
      WhitespaceJoin(s[..i], t);
      assert s == s[..i] + t;
    } else {
      assert r[0] == t[0] == s[i];
    }
  }

  /** A concatenation is all whitespace exactly when both parts are. */
  lemma WhitespaceJoin(a: string, b: string)
    ensures AllWhitespace(a + b) <==> AllWhitespace(a) && AllWhitespace(b)
  {
    if AllWhitespace(a + b) {
      forall k | 0 <= k < |a| ensures IsJsWhitespace(a[k]) {
        assert a[k] == (a + b)[k];
      }
      forall k | 0 <= k < |b| ensures IsJsWhitespace(b[k]) {
        assert b[k] == (a + b)[|a| + k];
      }
    }
    if AllWhitespace(a) && AllWhitespace(b) {
      forall k | 0 <= k < |a + b| ensures IsJsWhitespace((a + b)[k]) {
        if k >= |a| { assert (a + b)[k] == b[k - |a|]; }
      }
    }
  }

  /** `trim` of a stretch whose ends are not whitespace, padded with whitespace on both sides, is that stretch. */
  lemma TrimOf(pre: string, core: string, post: string)
    requires AllWhitespace(pre) && AllWhitespace(post)
    requires core == [] || (!IsJsWhitespace(core[0]) && !IsJsWhitespace(core[|core| - 1]))
    ensures Trim(pre + core + post) == core
  {
    var s := pre + core + post;
    var p, q := |pre|, |pre| + |core|;
    assert s[..p] == pre && s[p..q] == core && s[q..] == post;
    if core == [] {
      WhitespaceJoin(pre, post);
      assert s == pre + post;
      TrimSpec(s);
    } else {
      TrimBetween(s, p, q);
    }
  }

  /** The same, stated by offsets into one string. */
  lemma TrimBetween(s: string, p: int, q: int)
    requires 0 <= p < q <= |s| && AllWhitespace(s[..p]) && AllWhitespace(s[q..])
    requires !IsJsWhitespace(s[p]) && !IsJsWhitespace(s[q - 1])
    ensures Trim(s) == s[p..q]
  {
    TrimSpec(s);
    assert !AllWhitespace(s) by {
      assert !IsJsWhitespace(s[p]);
    }
    var i :| TrimmedAt(s, Trim(s), i);
    SameStretch(s, Trim(s), i, p, q);
  }

  /** Two ways of cutting whitespace from both ends of `s` that keep a non-whitespace character at each end agree. */
  lemma SameStretch(s: string, r: string, i: int, p: int, q: int)
    requires TrimmedAt(s, r, i) && r != [] && !IsJsWhitespace(r[0]) && !IsJsWhitespace(r[|r| - 1])
    requires 0 <= p < q <= |s| && AllWhitespace(s[..p]) && AllWhitespace(s[q..])
    requires !IsJsWhitespace(s[p]) && !IsJsWhitespace(s[q - 1])
    ensures r == s[p..q]
  {
    var e := i + |r|;
    assert r[0] == s[i] && r[|r| - 1] == s[e - 1];
    Inside(s, i, e, p);
    Inside(s, i, e, q - 1);
    Inside(s, p, q, i);
    Inside(s, p, q, e - 1);
  }

  /** A character that is not whitespace lies between a whitespace prefix and a whitespace suffix. */
  lemma Inside(s: string, i: int, j: int, k: int)
    requires 0 <= i <= j <= |s| && AllWhitespace(s[..i]) && AllWhitespace(s[j..])
    requires 0 <= k < |s| && !IsJsWhitespace(s[k])
    ensures i <= k < j
  {
    WhitespaceOutside(s, i, j);
  }

  /** Whitespace before offset `i` and from offset `j` on, stated character by character. */
  lemma WhitespaceOutside(s: string, i: int, j: int)
    requires 0 <= i <= j <= |s| && AllWhitespace(s[..i]) && AllWhitespace(s[j..])
    ensures forall k :: 0 <= k < |s| && (k < i || j <= k) ==> IsJsWhitespace(s[k])
  {
    forall k | 0 <= k < |s| && (k < i || j <= k) ensures IsJsWhitespace(s[k]) {
      if k < i {
        assert s[k] == s[..i][k];
      } else {
        assert s[k] == s[j..][k - j];
      }
    }
  }

  /** Number of UTF-16 code units of one code point. */
  function Utf16Units(c: char): nat {
    if c as int > 0xFFFF then 2 else 1
  }

  /** JavaScript's `.length`: UTF-16 code units, so a code point outside the BMP counts twice. */
  function Utf16Length(s: string): (n: nat)
    ensures |s| <= n <= 2 * |s|
    ensures (forall i :: 0 <= i < |s| ==> s[i] as int <= 0xFFFF) ==> n == |s|
  {
    if s == [] then 0 else Utf16Units(s[0]) + Utf16Length(s[1..])
  }

  /** `p` occurs in `s` starting at offset `i`. */
  ghost predicate OccursAt(s: string, p: string, i: int) {
    0 <= i <= |s| - |p| && s[i..i + |p|] == p
  }

  /** JavaScript's `s.includes(p)`, by scanning from the left. */
  function Contains(s: string, p: string): (r: bool)
    ensures r <==> exists i :: OccursAt(s, p, i)
    decreases |s|
  {
    if |p| > |s| then false
    else if s[..|p|] == p then (assert OccursAt(s, p, 0); true)
    else (OccursAfterFirst(s, p); Contains(s[1..], p))
  }

  /** When `p` does not start `s`, its occurrences are those in `s[1..]`, shifted by one. */
  lemma OccursAfterFirst(s: string, p: string)
    requires |p| <= |s| && s[..|p|] != p
    ensures (exists i :: OccursAt(s, p, i)) <==> (exists j :: OccursAt(s[1..], p, j))
  {
    forall j | OccursAt(s[1..], p, j) ensures OccursAt(s, p, j + 1) {
      ShiftedSlice(s, j + 1, |p|);
    }
    assert !OccursAt(s, p, 0) by {
      assert s[0..|p|] == s[..|p|];
    }
    forall i | OccursAt(s, p, i) ensures OccursAt(s[1..], p, i - 1) {
      assert i != 0;
      ShiftedSlice(s, i, |p|);
    }
  }

  lemma ShiftedSlice(s: string, i: int, n: int)
    requires 1 <= i && 0 <= n && i + n <= |s|
    ensures s[i..i + n] == s[1..][i - 1..i - 1 + n]
  {
    var a, b := s[i..i + n], s[1..][i - 1..i - 1 + n];
    forall k | 0 <= k < n ensures a[k] == b[k] {
      assert s[1..][i - 1 + k] == s[i + k];
    }
  }

  /** A pattern holding a character that the text lacks does not occur in it. */
  lemma MissingCharacter(s: string, p: string, c: char)
    requires c in p && c !in s
    ensures !Contains(s, p)
  {
    var k :| 0 <= k < |p| && p[k] == c;
    forall i ensures !OccursAt(s, p, i) {
      if 0 <= i <= |s| - |p| {
        assert s[i..i + |p|][k] == s[i + k];
      }
    }
  }
}
