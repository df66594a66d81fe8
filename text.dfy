/** The JavaScript string built-ins the page relies on: trim, toLowerCase and includes. */
module Text {

  /** ECMAScript WhiteSpace and LineTerminator code points: what String.prototype.trim strips. */
  predicate IsSpace(c: char)
  {
    || c == '\t' || c == '\n' || c == '\U{000B}' || c == '\U{000C}' || c == '\r' || c == ' '
    || c == '\U{00A0}' || c == '\U{1680}' || ('\U{2000}' <= c <= '\U{200A}')
    || c == '\U{2028}' || c == '\U{2029}' || c == '\U{202F}' || c == '\U{205F}'
    || c == '\U{3000}' || c == '\U{FEFF}'
  }

  /** Every character is white space (the empty string included). */
  predicate IsBlank(s: string)
  {
    forall i :: 0 <= i < |s| ==> IsSpace(s[i])
  }

  /** The first position at or after `i` that holds a non-space character (`|s|` when none does). */
  function SkipSpace(s: string, i: nat): (k: nat)
    requires i <= |s|
    ensures i <= k <= |s|
    ensures k < |s| ==> !IsSpace(s[k])
    decreases |s| - i
  {
    if i < |s| && IsSpace(s[i]) then SkipSpace(s, i + 1) else i
  }

  /** The end of the last non-space character at or before `e` (0 when there is none). */
  function SkipSpaceBack(s: string, e: nat): (k: nat)
    requires e <= |s|
    ensures k <= e
    ensures 0 < k ==> !IsSpace(s[k - 1])
    decreases e
  {
    if 0 < e && IsSpace(s[e - 1]) then SkipSpaceBack(s, e - 1) else e
  }

  /** String.prototype.trim: `s` without its leading and trailing white space, so a slice of `s`
      between two blank ends that starts and ends with a non-space character. */
  function Trim(s: string): (r: string)
    ensures |r| <= |s|
    ensures r != [] ==> !IsSpace(r[0]) && !IsSpace(r[|r| - 1])
    ensures exists k, e :: 0 <= k <= e <= |s| && r == s[k..e] && IsBlank(s[..k]) && IsBlank(s[e..])
  {
    var k := SkipSpace(s, 0);
    var e := SkipSpaceBack(s, |s|);
    TrimmedEndsAreBlank(s);
    if k < e then s[k..e]
    else assert s[0..0] == [] && s[..0] == [] && s[0..] == s; []
  }

  /** What the two skips pass over is white space, and when they meet or cross the whole text is. */
  lemma {:induction false} TrimmedEndsAreBlank(s: string)
    ensures IsBlank(s[..SkipSpace(s, 0)]) && IsBlank(s[SkipSpaceBack(s, |s|)..])
    ensures SkipSpaceBack(s, |s|) <= SkipSpace(s, 0) ==> IsBlank(s)
  {
    var k := SkipSpace(s, 0);
    var e := SkipSpaceBack(s, |s|);
    SkipSpaceSkipsOnlySpace(s, 0);
    SkipSpaceBackSkipsOnlySpace(s, |s|);
    if e <= k {
      forall j | 0 <= j < |s| ensures IsSpace(s[j]) {
        assert j < k || e <= j;
      }
    }
  }

  /** Only white space is skipped going forward. */
  lemma {:induction false} SkipSpaceSkipsOnlySpace(s: string, i: nat)
    requires i <= |s|
    ensures forall j :: i <= j < SkipSpace(s, i) ==> IsSpace(s[j])
    decreases |s| - i
  {
    if i < |s| && IsSpace(s[i]) {
      SkipSpaceSkipsOnlySpace(s, i + 1);
    }
  }

  /** Only white space is skipped going backward. */
  lemma {:induction false} SkipSpaceBackSkipsOnlySpace(s: string, e: nat)
    requires e <= |s|
    ensures forall j :: SkipSpaceBack(s, e) <= j < e ==> IsSpace(s[j])
    decreases e
  {
    if 0 < e && IsSpace(s[e - 1]) {
      SkipSpaceBackSkipsOnlySpace(s, e - 1);
    }
  }

  /** Trimming leaves nothing exactly when the text is all white space. */
  lemma {:induction false} TrimEmptyIffBlank(s: string)
    ensures Trim(s) == [] <==> IsBlank(s)
  {
    var k := SkipSpace(s, 0);
    var e := SkipSpaceBack(s, |s|);
    if k < e {
      assert !IsSpace(s[k]);
    } else {
      SkipSpaceSkipsOnlySpace(s, 0);
      SkipSpaceBackSkipsOnlySpace(s, |s|);
      forall j | 0 <= j < |s| ensures IsSpace(s[j]) {
        assert j < k || e <= j;
      }
    }
  }

  /** The case mapping of String.prototype.toLowerCase for ASCII, Latin-1 and full-width Latin letters. */
  function LowerChar(c: char): char
  {
    if 'A' <= c <= 'Z' then (c as int + 32) as char
    else if '\U{FF21}' <= c <= '\U{FF3A}' then (c as int + 32) as char
    else if '\U{00C0}' <= c <= '\U{00DE}' && c != '\U{00D7}' then (c as int + 32) as char
    else c
  }

  /** String.prototype.toLowerCase, character by character. */
  function ToLower(s: string): (r: string)
    ensures |r| == |s| && forall i :: 0 <= i < |s| ==> r[i] == LowerChar(s[i])
  {
    seq(|s|, i requires 0 <= i < |s| => LowerChar(s[i]))
  }

  /** String.prototype.includes: `t` occurs in `s` at some position (the empty string occurs everywhere). */
  predicate Contains(s: string, t: string)
    decreases |s|
  {
    (|t| <= |s| && s[..|t|] == t) || (s != [] && Contains(s[1..], t))
  }

  /** An occurrence at a known position is found by `Contains`. */
  lemma {:induction false} ContainsAt(s: string, t: string, i: nat)
    requires i + |t| <= |s| && s[i..i + |t|] == t
    ensures Contains(s, t)
  {
    if i > 0 {
      assert s[1..][i - 1..i - 1 + |t|] == t;
      ContainsAt(s[1..], t, i - 1);
    }
  }

  /** Every character of a contained string is a character of the containing one. */
  lemma {:induction false} ContainedCharOccurs(s: string, t: string, j: nat)
    requires j < |t|
    ensures Contains(s, t) ==> t[j] in s
    decreases |s|
  {
    if Contains(s, t) {
      if |t| <= |s| && s[..|t|] == t {
        assert s[j] == t[j];
      } else {
        ContainedCharOccurs(s[1..], t, j);
        assert s == [s[0]] + s[1..];
      }
    }
  }

  /** Lower-casing leaves no ASCII capital letter. */
  lemma {:induction false} LowerCharIsNotCapital(c: char)
    ensures !('A' <= LowerChar(c) <= 'Z')
  {
  }

  /** Lower-casing maps white space to itself. */
  lemma {:induction false} LowerCharKeepsSpace(c: char)
    ensures IsSpace(c) ==> LowerChar(c) == c
  {
  }

  /** Trimming keeps a subsequence of the original characters. */
  lemma {:induction false} TrimmedCharOccurs(s: string, i: nat)
    requires i < |Trim(s)|
    ensures Trim(s)[i] in s
  {
    var k, e :| 0 <= k <= e <= |s| && Trim(s) == s[k..e] && IsBlank(s[..k]) && IsBlank(s[e..]);
    assert Trim(s)[i] == s[k + i];
  }

  /** Trimming keeps a word that starts and ends with non-space characters, shifted by the leading space. */
  lemma {:induction false} TrimKeepsAt(s: string, i: nat, m: string) returns (j: nat)
    requires i + |m| <= |s| && s[i..i + |m|] == m
    requires m != [] && !IsSpace(m[0]) && !IsSpace(m[|m| - 1])
    ensures j + |m| <= |Trim(s)| && Trim(s)[j..j + |m|] == m
  {
    var k := SkipSpace(s, 0);
    var e := SkipSpaceBack(s, |s|);
    var last := i + |m| - 1;
    assert s[i] == m[0] && s[last] == m[|m| - 1] by {
      assert s[i..i + |m|][0] == s[i];
      assert s[i..i + |m|][|m| - 1] == s[last];
    }
    assert k <= i by {
      SkipSpaceSkipsOnlySpace(s, 0);
    }
    assert last < e by {
      SkipSpaceBackSkipsOnlySpace(s, |s|);
    }
    j := i - k;
    var r := s[k..e];
    forall t | 0 <= t < |m| ensures r[j + t] == m[t] {
      assert s[i..i + |m|][t] == s[i + t];
    }
    assert r[j..j + |m|] == m;
    assert Trim(s) == r;
  }

  /** A word that starts and ends with non-space characters survives trimming of the text around it. */
  lemma {:induction false} TrimKeepsInnerWord(s: string, i: nat, m: string)
    requires i + |m| <= |s| && s[i..i + |m|] == m
    requires m != [] && !IsSpace(m[0]) && !IsSpace(m[|m| - 1])
    ensures Contains(Trim(s), m)
  {
    var j := TrimKeepsAt(s, i, m);
    ContainsAt(Trim(s), m, j);
  }
}
