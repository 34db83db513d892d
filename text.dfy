/**
 * The ECMAScript string built-ins the core relies on: ASCII case folding
 * (`toLowerCase` on the characters that matter here, and the `/i` flag of a
 * regular expression without `/u`), the `\w` and `\s` character classes, and
 * `String.prototype.trim`.
 */
module Text {

  /** Lower-case an ASCII letter; every other character is left as it is. */
  function LowerChar(c: char): char
  {
    if 'A' <= c <= 'Z' then (c as int + 32) as char else c
  }

  function LowerAscii(s: string): (r: string)
    ensures |r| == |s|
    ensures forall i :: 0 <= i < |s| ==> r[i] == LowerChar(s[i])
  {
    seq(|s|, i requires 0 <= i < |s| => LowerChar(s[i]))
  }

  /** `\w` of a regular expression without the `u` flag: [A-Za-z0-9_]. */
  predicate IsWordChar(c: char)
  {
    ('a' <= c <= 'z') || ('A' <= c <= 'Z') || ('0' <= c <= '9') || c == '_'
  }

  /**
   * `\s`, and what `trim` removes: the ECMAScript WhiteSpace code points
   * (tab, vertical tab, form feed, space, no-break space, the byte order mark
   * and the other Unicode space separators) and the LineTerminator code
   * points (line feed, carriage return, line and paragraph separators).
   */
  predicate IsSpace(c: char)
  {
    var n := c as int;
    n == 0x09 || n == 0x0A || n == 0x0B || n == 0x0C || n == 0x0D || n == 0x20
    || n == 0xA0 || n == 0x1680 || (0x2000 <= n <= 0x200A) || n == 0x2028
    || n == 0x2029 || n == 0x202F || n == 0x205F || n == 0x3000 || n == 0xFEFF
  }

  /** The length of the longest prefix of `s` whose characters all satisfy `p`:
      what a greedy `p+` or `p*` consumes. */
  function Span(s: string, p: char -> bool): (n: nat)
    ensures n <= |s|
    ensures forall i :: 0 <= i < n ==> p(s[i])
    ensures n < |s| ==> !p(s[n])
  {
    if |s| > 0 && p(s[0]) then 1 + Span(s[1..], p) else 0
  }

  ghost predicate AllSpace(s: string)
  {
    forall i :: 0 <= i < |s| ==> IsSpace(s[i])
  }

  /** `s` with its leading whitespace removed. */
  function TrimStart(s: string): (r: string)
    ensures |r| <= |s| && r == s[|s| - |r|..]
    ensures AllSpace(s[..|s| - |r|])
    ensures r == [] || !IsSpace(r[0])
  {
    s[Span(s, IsSpace)..]
  }

  /** `s` with its trailing whitespace removed. */
  function TrimEnd(s: string): (r: string)
    ensures |r| <= |s| && r == s[..|r|]
    ensures AllSpace(s[|r|..])
    ensures r == [] || !IsSpace(r[|r| - 1])
  {
    if |s| > 0 && IsSpace(s[|s| - 1]) then
      var r := TrimEnd(s[..|s| - 1]);
      assert s[|r|..] == s[..|s| - 1][|r|..] + [s[|s| - 1]];
      r
    else
      s
  }

  /** `r` is what is left of `s` once a run of whitespace is cut from each end,
      and `r` itself neither starts nor ends with whitespace. */
  ghost predicate TrimmedFrom(s: string, r: string, i: nat)
  {
    && i + |r| <= |s|
    && r == s[i..i + |r|]
    && AllSpace(s[..i])
    && AllSpace(s[i + |r|..])
    && Trimmed(r)
  }

  /** Neither end of `s` is whitespace. */
  predicate Trimmed(s: string)
  {
    s == [] || (!IsSpace(s[0]) && !IsSpace(s[|s| - 1]))
  }

  /** `String.prototype.trim`: a run of whitespace cut from each end. */
  function Trim(s: string): (r: string)
    ensures |r| <= |s|
    ensures Trimmed(r)
    ensures forall c :: c !in s ==> c !in r
  {
    var t := TrimStart(s);
    var r := TrimEnd(t);
    assert s == s[..|s| - |t|] + r + t[|r|..];
    r
  }

  lemma TrimIsTrimmedFrom(s: string)
    ensures TrimmedFrom(s, Trim(s), |s| - |TrimStart(s)|)
  {
    var t := TrimStart(s);
    var r := TrimEnd(t);
    var k := |s| - |t|;
    assert Trim(s) == r;
    assert t == s[k..] && r == t[..|r|];
    assert s[k..][..|r|] == s[k..k + |r|];
    assert s[k..][|r|..] == s[k + |r|..];
  }

  /** However the whitespace is cut off, the result is the one `Trim` gives:
      `TrimmedFrom` determines the trimmed string. */
  lemma TrimmedFromIsTrim(s: string, r: string, i: nat)
    requires TrimmedFrom(s, r, i)
    ensures r == Trim(s)
  {
    var t := Trim(s);
    var k := |s| - |TrimStart(s)|;
    TrimIsTrimmedFrom(s);
    assert forall j :: 0 <= j < i ==> s[..i][j] == s[j];
    assert forall j :: i + |r| <= j < |s| ==> s[i + |r|..][j - i - |r|] == s[j];
    assert forall j :: 0 <= j < k ==> s[..k][j] == s[j];
    assert forall j :: k + |t| <= j < |s| ==> s[k + |t|..][j - k - |t|] == s[j];
    if r == [] {
      assert forall j :: 0 <= j < |s| ==> IsSpace(s[j]);
    } else {
      assert s[i] == r[0] && s[i + |r| - 1] == r[|r| - 1];
      if t != [] {
        assert s[k] == t[0] && s[k + |t| - 1] == t[|t| - 1];
      }
    }
  }

  /** Trimming a string that is already trimmed changes nothing. */
  lemma TrimKeepsTrimmed(s: string)
    requires Trimmed(s)
    ensures Trim(s) == s
  {
    assert Span(s, IsSpace) == 0 by {
      if s != [] { assert !IsSpace(s[0]); }
    }
  }
}
