/**
 * Character classes and string operations of JavaScript that the screens use:
 * the `\d` and `\s` regular-expression classes, `String.prototype.trim`,
 * `toLowerCase` (ASCII letters only), `includes`, and the
 * `replace(/[^...]/g, '')` idiom that keeps only the characters of a class.
 */
module Text {

  /** JavaScript `\d`: the ASCII digits, whatever the regular-expression flags. */
  predicate IsDigit(c: char) {
    '0' <= c <= '9'
  }

  /**
   * JavaScript `\s`, which is also the set `String.prototype.trim` strips:
   * the WhiteSpace and LineTerminator code points of ECMAScript.
   */
  predicate IsWhitespace(c: char) {
    || c == '\t' || c == '\n' || c == '\U{0B}' || c == '\U{0C}' || c == '\r' || c == ' '
    || c == '\U{A0}' || c == '\U{1680}' || ('\U{2000}' <= c <= '\U{200A}')
    || c == '\U{2028}' || c == '\U{2029}' || c == '\U{202F}' || c == '\U{205F}'
    || c == '\U{3000}' || c == '\U{FEFF}'
  }

  /** True when every character of `s` is whitespace (in particular for ""). */
  predicate IsBlank(s: string) {
    forall i | 0 <= i < |s| :: IsWhitespace(s[i])
  }

  /** True when no character of `s` is whitespace. */
  predicate HasNoWhitespace(s: string) {
    forall i | 0 <= i < |s| :: !IsWhitespace(s[i])
  }

  /** `r` is `s` with some characters deleted and the rest kept in order. */
  predicate IsSubsequence<T(==)>(r: seq<T>, s: seq<T>)
    decreases |s|
  {
    if r == [] then true
    else if s == [] then false
    else if r[0] == s[0] then IsSubsequence(r[1..], s[1..])
    else IsSubsequence(r, s[1..])
  }

  /**
   * `s.replace(/[^class]/g, '')`: the characters of `s` that satisfy `p`,
   * in their original order, and no others.
   */
  function Keep(s: string, p: char -> bool): (r: string)
    ensures |r| <= |s|
    ensures forall i | 0 <= i < |r| :: p(r[i])
    ensures IsSubsequence(r, s)
    ensures forall c :: multiset(r)[c] == if p(c) then multiset(s)[c] else 0
  {
    if s == [] then []
    else
      var rest := Keep(s[1..], p);
      assert s == [s[0]] + s[1..];
      if p(s[0]) then [s[0]] + rest else rest
  }

  /** A string whose characters all satisfy `p` is left as it is. */
  lemma {:induction false} KeepAllSatisfy(s: string, p: char -> bool)
    requires forall i | 0 <= i < |s| :: p(s[i])
    ensures Keep(s, p) == s
  {
    if s != [] {
      KeepAllSatisfy(s[1..], p);
    }
  }

  /** Applying the same filter twice is the same as applying it once. */
  lemma KeepIdempotent(s: string, p: char -> bool)
    ensures Keep(Keep(s, p), p) == Keep(s, p)
  {
    KeepAllSatisfy(Keep(s, p), p);
  }

  /** The filter keeps a string unchanged exactly when all its characters pass. */
  lemma KeepFixedPoint(s: string, p: char -> bool)
    ensures Keep(s, p) == s <==> forall i | 0 <= i < |s| :: p(s[i])
  {
    if forall i | 0 <= i < |s| :: p(s[i]) {
      KeepAllSatisfy(s, p);
    }
  }

  /** `String.prototype.trimStart`. */
  function TrimStart(s: string): string
  {
    if s != [] && IsWhitespace(s[0]) then TrimStart(s[1..]) else s
  }

  /** `String.prototype.trimEnd`. */
  function TrimEnd(s: string): string
  {
    if s != [] && IsWhitespace(s[|s| - 1]) then TrimEnd(s[..|s| - 1]) else s
  }

  /** `String.prototype.trim`. */
  function Trim(s: string): string
  {
    TrimEnd(TrimStart(s))
  }

  lemma {:induction false} TrimStartBlank(s: string)
    ensures TrimStart(s) == "" <==> IsBlank(s)
    ensures TrimStart(s) != "" ==> !IsWhitespace(TrimStart(s)[0])
  {
    if s != [] && IsWhitespace(s[0]) {
      TrimStartBlank(s[1..]);
      assert IsBlank(s) <==> IsBlank(s[1..]) by {
        if IsBlank(s[1..]) {
          forall i | 0 <= i < |s| ensures IsWhitespace(s[i]) {
            if i > 0 { assert s[i] == s[1..][i - 1]; }
          }
        }
      }
    }
  }

  lemma {:induction false} TrimEndKeepsHead(s: string)
    requires s != [] && !IsWhitespace(s[0])
    ensures TrimEnd(s) != "" && TrimEnd(s)[0] == s[0]
  {
    if IsWhitespace(s[|s| - 1]) {
      TrimEndKeepsHead(s[..|s| - 1]);
    }
  }

  /** `!s.trim()` in JavaScript: trimming leaves nothing exactly for blank strings. */
  lemma TrimEmptyIffBlank(s: string)
    ensures Trim(s) == "" <==> IsBlank(s)
  {
    TrimStartBlank(s);
    if TrimStart(s) != "" {
      TrimEndKeepsHead(TrimStart(s));
    }
  }

  /**
   * What `trimStart` leaves: a suffix of `s`, after a blank prefix, that does
   * not start with whitespace.
   */
  lemma {:induction false} TrimStartShape(s: string)
    ensures |TrimStart(s)| <= |s|
    ensures TrimStart(s) == s[|s| - |TrimStart(s)|..]
    ensures IsBlank(s[..|s| - |TrimStart(s)|])
    ensures TrimStart(s) != "" ==> !IsWhitespace(TrimStart(s)[0])
  {
    if s != [] && IsWhitespace(s[0]) {
      var tail := s[1..];
      TrimStartShape(tail);
      var t := TrimStart(tail);
      var d := |tail| - |t|;
      assert tail[d..] == s[d + 1..];
      var pre := s[..d + 1];
      forall i | 0 <= i < |pre| ensures IsWhitespace(pre[i]) {
        if i > 0 {
          assert pre[i] == tail[..d][i - 1];
        }
      }
    }
  }

  /**
   * What `trimEnd` leaves: a prefix of `s`, before a blank suffix, that does
   * not end with whitespace.
   */
  lemma {:induction false} TrimEndShape(s: string)
    ensures |TrimEnd(s)| <= |s|
    ensures TrimEnd(s) == s[..|TrimEnd(s)|]
    ensures IsBlank(s[|TrimEnd(s)|..])
    ensures TrimEnd(s) != "" ==> !IsWhitespace(TrimEnd(s)[|TrimEnd(s)| - 1])
  {
    if s != [] && IsWhitespace(s[|s| - 1]) {
      var init := s[..|s| - 1];
      TrimEndShape(init);
      var t := TrimEnd(init);
      assert init[..|t|] == s[..|t|];
      forall i | |t| <= i < |s| ensures IsWhitespace(s[i]) {
        if i < |s| - 1 {
          assert s[i] == init[|t|..][i - |t|];
        }
      }
      assert forall i | 0 <= i < |s[|t|..]| :: s[|t|..][i] == s[|t| + i];
    }
  }

  /**
   * `trim` is fully determined: it is the part of `s` between a blank prefix
   * and a blank suffix, and it neither starts nor ends with whitespace.
   */
  lemma TrimShape(s: string)
    ensures exists k | 0 <= k <= |s| - |Trim(s)| ::
      && OccursAt(s, Trim(s), k)
      && IsBlank(s[..k])
      && IsBlank(s[k + |Trim(s)|..])
    ensures Trim(s) != "" ==>
      !IsWhitespace(Trim(s)[0]) && !IsWhitespace(Trim(s)[|Trim(s)| - 1])
  {
    var t := TrimStart(s);
    var r := Trim(s);
    TrimStartShape(s);
    TrimEndShape(t);
    var k := |s| - |t|;
    assert r == s[k..k + |r|];
    assert s[k + |r|..] == t[|r|..];
    assert OccursAt(s, r, k);
    if r != "" {
      assert r[0] == t[0];
    }
  }

  /** `toLowerCase` on one character, for the ASCII letters. */
  function LowerChar(c: char): char
  {
    if 'A' <= c <= 'Z' then (c as int + 32) as char else c
  }

  /**
   * `toLowerCase`, character by character, for the ASCII letters: no capital
   * A-Z is left, and every other character stays where it was.
   */
  function Lower(s: string): (r: string)
    ensures |r| == |s|
    ensures forall i | 0 <= i < |s| :: r[i] == LowerChar(s[i])
    ensures forall i | 0 <= i < |r| :: !('A' <= r[i] <= 'Z')
    ensures forall i | 0 <= i < |s| && !('A' <= s[i] <= 'Z') :: r[i] == s[i]
  {
    seq(|s|, i requires 0 <= i < |s| => LowerChar(s[i]))
  }

  /** `sub` occurs in `s` starting at position `i`. */
  predicate OccursAt(s: string, sub: string, i: int)
  {
    0 <= i <= |s| - |sub| && s[i..i + |sub|] == sub
  }

  /** `s.includes(sub)`: `sub` occurs in `s` at some position. */
  predicate Includes(s: string, sub: string)
  {
    exists i | 0 <= i <= |s| - |sub| :: OccursAt(s, sub, i)
  }

  /** Every string includes the empty string. */
  lemma IncludesEmpty(s: string)
    ensures Includes(s, "")
  {
    assert OccursAt(s, "", 0);
  }

  /** Occurrence is transitive: a part of a part of `s` is a part of `s`. */
  lemma IncludesTransitive(s: string, mid: string, sub: string)
    requires Includes(s, mid) && Includes(mid, sub)
    ensures Includes(s, sub)
  {
    var i: int :| 0 <= i <= |s| - |mid| && OccursAt(s, mid, i);
    var j: int :| 0 <= j <= |mid| - |sub| && OccursAt(mid, sub, j);
    assert 0 <= i <= |s| - |mid| && s[i..i + |mid|] == mid;
    assert 0 <= j <= |mid| - |sub| && mid[j..j + |sub|] == sub;
    forall k | 0 <= k < |sub| ensures s[i + j + k] == sub[k] {
      assert mid[j + k] == mid[j..j + |sub|][k];
      assert s[i + (j + k)] == s[i..i + |mid|][j + k];
    }
    assert s[i + j..i + j + |sub|] == sub;
    assert OccursAt(s, sub, i + j);
  }

  /** Lower-casing both sides keeps an occurrence an occurrence. */
  lemma LowerIncludes(s: string, sub: string)
    requires Includes(s, sub)
    ensures Includes(Lower(s), Lower(sub))
  {
    var i: int :| 0 <= i <= |s| - |sub| && OccursAt(s, sub, i);
    assert 0 <= i <= |s| - |sub| && s[i..i + |sub|] == sub;
    forall k | 0 <= k < |sub| ensures Lower(s)[i + k] == Lower(sub)[k] {
      assert s[i + k] == s[i..i + |sub|][k];
    }
    assert Lower(s)[i..i + |sub|] == Lower(sub);
    assert OccursAt(Lower(s), Lower(sub), i);
  }
}
