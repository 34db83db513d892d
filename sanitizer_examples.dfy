/**
 * What the sanitiser does to the kinds of input it targets: a
 * `javascript:` link, a script tag, an inline event handler, and the nested
 * `javascript:` that a single pass does not remove. Each is stated for an
 * arbitrary benign tail `t`.
 */
module SanitizerExamples {
  import opened Text
  import opened Sanitizer

  /** Text none of the stages touches: no bracket, no `j` or `o` in either
      case (so no `javascript:` and no `on...=`), no whitespace at the ends. */
  predicate Benign(s: string)
  {
    && NoAngles(s)
    && 'j' !in s && 'J' !in s && 'o' !in s && 'O' !in s
    && Trimmed(s)
  }

  /** Chains the four stages of SanitizeString. */
  lemma SanitizeStages(s: string, a: string, j: string, h: string, r: string)
    requires StripAngles(s) == a && StripJavascript(a) == j
    requires StripHandlers(j) == h && Trim(h) == r
    ensures SanitizeString(s) == r
  {
  }

  /** Benign text comes out of the sanitiser as it went in. */
  lemma BenignUnchanged(s: string)
    requires Benign(s)
    ensures StripAngles(s) == s && StripJavascript(s) == s
    ensures StripHandlers(s) == s && Trim(s) == s
    ensures SanitizeString(s) == s
  {
    StripAnglesKeepsClean(s);
    NoJavascriptWithoutJ(s);
    NoHandlerWithoutO(s);
    TrimKeepsTrimmed(s);
  }

  /** A `javascript:` scheme in front of benign text is removed. */
  lemma JavascriptSchemeRemoved(t: string)
    requires Benign(t)
    ensures SanitizeString(Javascript + t) == t
  {
    var s := Javascript + t;
    StripAnglesKeepsClean(s);
    assert s[..|Javascript|] == Javascript;
    JavascriptIsLowerCase();
    assert JavascriptAt(s) && s[|Javascript|..] == t;
    BenignUnchanged(t);
    SanitizeStages(s, s, t, t, t);
  }

  /** Angle brackets are removed and the text between them stays:
      `<a>b</a>` becomes `ab/a`. */
  lemma ScriptTagDefused(a: string, b: string)
    requires Benign(a) && Benign(b) && a != []
    ensures SanitizeString("<" + a + ">" + b + "</" + a + ">") == a + b + "/" + a
  {
    var s := "<" + a + ">" + b + "</" + a + ">";
    var r := a + b + "/" + a;
    TagBracketsRemoved(a, b);
    assert Benign(r) by {
      assert r[0] == a[0] && r[|r| - 1] == a[|a| - 1];
    }
    BenignUnchanged(r);
    SanitizeStages(s, r, r, r, r);
  }

  lemma TagBracketsRemoved(a: string, b: string)
    requires NoAngles(a) && NoAngles(b)
    ensures StripAngles("<" + a + ">" + b + "</" + a + ">") == a + b + "/" + a
  {
    StripAnglesKeepsClean(a);
    StripAnglesKeepsClean(b);
    assert StripAngles("<") == [] by { assert "<"[1..] == []; }
    assert StripAngles(">") == [] by { assert ">"[1..] == []; }
    assert StripAngles("</") == "/" by { assert "</"[1..] == "/"; assert "/"[1..] == []; }
    var p1 := "<" + a;
    StripAnglesAppend("<", a);
    assert StripAngles(p1) == a;
    var p2 := p1 + ">";
    StripAnglesAppend(p1, ">");
    assert StripAngles(p2) == a;
    var p3 := p2 + b;
    StripAnglesAppend(p2, b);
    assert StripAngles(p3) == a + b;
    var p4 := p3 + "</";
    StripAnglesAppend(p3, "</");
    assert StripAngles(p4) == a + b + "/";
    var p5 := p4 + a;
    StripAnglesAppend(p4, a);
    assert StripAngles(p5) == a + b + "/" + a;
    StripAnglesAppend(p5, ">");
    assert StripAngles(p5 + ">") == a + b + "/" + a + [];
    assert p5 + ">" == "<" + a + ">" + b + "</" + a + ">";
  }

  /** An inline handler assignment `on<name><spaces>=` is cut, `=` included. */
  lemma HandlerAssignmentRemoved(name: string, spaces: string, t: string)
    requires name != [] && forall i :: 0 <= i < |name| ==> IsWordChar(name[i])
    requires 'j' !in name && 'J' !in name
    requires AllSpace(spaces) && Benign(t)
    ensures SanitizeString("on" + name + spaces + "=" + t) == t
  {
    var s := "on" + name + spaces + "=" + t;
    HandlerPrefixFacts(name, spaces, t);
    StripAnglesKeepsClean(s);
    NoJavascriptWithoutJ(s);
    HandlerMatchIsTheMatch(s, |name|, |spaces|);
    StripHandlersCut(s);
    BenignUnchanged(t);
    SanitizeStages(s, s, s, t, t);
  }

  /** What the first two stages and the handler pattern see in
      `on<name><spaces>=` followed by `t`. */
  lemma HandlerPrefixFacts(name: string, spaces: string, t: string)
    requires name != [] && forall i :: 0 <= i < |name| ==> IsWordChar(name[i])
    requires 'j' !in name && 'J' !in name
    requires AllSpace(spaces) && NoAngles(t) && 'j' !in t && 'J' !in t
    ensures var s := "on" + name + spaces + "=" + t;
      NoAngles(s) && 'j' !in s && 'J' !in s &&
      HandlerShape(s, |name|, |spaces|) && s[3 + |name| + |spaces|..] == t
  {
    var s := "on" + name + spaces + "=" + t;
    assert forall i :: 0 <= i < |name| ==> name[i] != '<' && name[i] != '>';
    assert forall i :: 0 <= i < |spaces| ==> IsSpace(spaces[i]);
    assert forall i :: 2 <= i < 2 + |name| ==> s[i] == name[i - 2];
    assert forall i :: 2 + |name| <= i < 2 + |name| + |spaces| ==> s[i] == spaces[i - 2 - |name|];
  }

  lemma StripHandlersCut(s: string)
    requires HandlerMatch(s) > 0
    ensures StripHandlers(s) == StripHandlers(s[HandlerMatch(s)..])
  {
  }

  /** The deletion of `javascript:` is a single pass: cutting the one
      occurrence out of `ja` + `javascript:` + `vascript:` joins the two
      halves into a new one, which stays in the output. The sanitiser is
      therefore not idempotent, and its output can still hold `javascript:`. */
  lemma JavascriptSurvivesOnePass(t: string)
    requires Benign(t)
    ensures SanitizeString(Javascript[..2] + Javascript + Javascript[2..] + t) == Javascript + t
    ensures SanitizeString(SanitizeString(Javascript[..2] + Javascript + Javascript[2..] + t)) == t
  {
    var s := Javascript[..2] + Javascript + Javascript[2..] + t;
    var r := Javascript + t;
    NestedInputFacts(t);
    StripAnglesKeepsClean(s);
    NestedSchemeJoined(t);
    NoHandlerWithoutO(r);
    TrimKeepsTrimmed(r);
    SanitizeStages(s, s, r, r, r);
    JavascriptSchemeRemoved(t);
  }

  /** The nested input has no bracket, and `javascript:` followed by benign
      text has no `o` and is trimmed. */
  lemma NestedInputFacts(t: string)
    requires Benign(t)
    ensures NoAngles(Javascript[..2] + Javascript + Javascript[2..] + t)
    ensures 'o' !in Javascript + t && 'O' !in Javascript + t
    ensures Trimmed(Javascript + t)
  {
    JavascriptLetters();
    var r := Javascript + t;
    assert r[0] == 'j' && r[|r| - 1] == if t == [] then ':' else t[|t| - 1];
  }

  lemma JavascriptLetters()
    ensures NoAngles(Javascript) && 'o' !in Javascript && 'O' !in Javascript
    ensures Javascript[0] == 'j' && Javascript[1] == 'a' && Javascript[2] == 'v'
  {
  }

  lemma NestedSchemeJoined(t: string)
    requires 'j' !in t && 'J' !in t
    ensures StripJavascript(Javascript[..2] + Javascript + Javascript[2..] + t) == Javascript + t
  {
    var a, b := Javascript[..2], Javascript[2..];
    assert Javascript == a + b;
    Regroup(a, b, t);
    NoSchemeAtJa(Javascript + (b + t));
    SchemeAtFront(t);
  }

  /** The sequence algebra of the nested input, for any split `a` + `b`. */
  lemma Regroup(a: string, b: string, t: string)
    ensures a + (a + b) + b + t == a + ((a + b) + (b + t))
    ensures a + (b + t) == (a + b) + t
    ensures ((a + b) + (b + t))[..|a + b|] == a + b
  {
  }

  /** No `javascript:` starts at the `j` or the `a` of a leading `ja` that is
      followed by another `javascript:`. */
  lemma NoSchemeAtJa(v: string)
    requires |v| >= |Javascript| && v[..|Javascript|] == Javascript
    ensures StripJavascript(Javascript[..2] + v) == Javascript[..2] + StripJavascript(v)
  {
    JaIsNoScheme(v);
    KeepsTwo(Javascript[..2], v);
  }

  lemma JaIsNoScheme(v: string)
    requires |v| >= |Javascript| && v[..|Javascript|] == Javascript
    ensures !JavascriptAt(Javascript[..2] + v) && !JavascriptAt((Javascript[..2] + v)[1..])
  {
    JavascriptLetters();
    var s := Javascript[..2] + v;
    assert v[0] == 'j';
    assert s[2] == v[0] && s[1..][1] == v[0];
    SchemeMismatch(s, 2);
    SchemeMismatch(s[1..], 1);
  }

  /** Two characters at neither of which `javascript:` starts pass through. */
  lemma KeepsTwo(p: string, v: string)
    requires |p| == 2 && !JavascriptAt(p + v) && !JavascriptAt((p + v)[1..])
    ensures StripJavascript(p + v) == p + StripJavascript(v)
  {
    var s := p + v;
    assert s[1..][1..] == v;
    assert [s[0]] + ([s[1]] + StripJavascript(v)) == p + StripJavascript(v);
  }

  /** A string whose i-th character differs from that of `javascript:`, in
      any letter case, does not start with it. */
  lemma SchemeMismatch(s: string, i: nat)
    requires i < |s| && i < |Javascript| && LowerChar(s[i]) != Javascript[i]
    ensures !JavascriptAt(s)
  {
  }

  /** A `javascript:` at the front is dropped, and the rest, holding no `j`
      after its leading `vascript:`, is kept. */
  lemma SchemeAtFront(t: string)
    requires 'j' !in t && 'J' !in t
    ensures StripJavascript(Javascript + (Javascript[2..] + t)) == Javascript[2..] + t
  {
    var rest := Javascript[2..] + t;
    var v := Javascript + rest;
    assert JavascriptAt(v) by {
      assert v[..|Javascript|] == Javascript;
      JavascriptIsLowerCase();
    }
    assert v[|Javascript|..] == rest;
    assert 'j' !in Javascript[2..] && 'J' !in Javascript[2..];
    NoJavascriptWithoutJ(rest);
  }

  lemma JavascriptIsLowerCase()
    ensures forall i :: 0 <= i < |Javascript| ==> LowerChar(Javascript[i]) == Javascript[i]
  {
  }
}
