/**
 * The input-validation middleware's sanitiser (src/middlewares/security.ts):
 * a pure transform of a JSON-like request body or query object in which every
 * string, and every object key, goes through three global regular-expression
 * deletions and a trim.
 *
 * Each `replace(/re/g, "")` is modelled as a left-to-right scan: at each
 * position either a match starts there (it is deleted and the scan resumes
 * after it) or the character is kept and the scan moves on by one. None of
 * the three patterns can match the empty string, and each has at most one
 * match at a given start, so this is exactly what the regular-expression
 * engine does.
 */
module Sanitizer {
  import opened Wrappers
  import opened Text

  /** A value as the middleware receives it. Numbers are integers; an
      object is its own entries in enumeration order. */
  datatype Json =
    | JNull
    | JBool(b: bool)
    | JNum(n: int)
    | JStr(s: string)
    | JArr(items: seq<Json>)
    | JObj(members: seq<Member>)

  datatype Member = Member(key: string, value: Json)

  predicate NoAngles(s: string)
  {
    '<' !in s && '>' !in s
  }

  // ---------------------------------------------------------------------
  // Stage 1: .replace(/[<>]/g, "")

  function StripAngles(s: string): (r: string)
    ensures NoAngles(r)
    ensures |r| <= |s|
  {
    if s == [] then []
    else (if s[0] == '<' || s[0] == '>' then [] else [s[0]]) + StripAngles(s[1..])
  }

  // ---------------------------------------------------------------------
  // Stage 2: .replace(/javascript:/gi, "")

  const Javascript: string := "javascript:"

  /** A case-insensitive `javascript:` starts at the front of `s`. */
  predicate JavascriptAt(s: string)
  {
    |s| >= |Javascript| && forall i :: 0 <= i < |Javascript| ==> LowerChar(s[i]) == Javascript[i]
  }

  function StripJavascript(s: string): (r: string)
    ensures |r| <= |s|
    ensures NoAngles(s) ==> NoAngles(r)
    decreases |s|
  {
    if s == [] then []
    else if JavascriptAt(s) then
      assert NoAngles(s) ==> NoAngles(s[|Javascript|..]) by {
        assert s == s[..|Javascript|] + s[|Javascript|..];
      }
      StripJavascript(s[|Javascript|..])
    else
      assert NoAngles(s) ==> NoAngles(s[1..]) by { assert s == [s[0]] + s[1..]; }
      [s[0]] + StripJavascript(s[1..])
  }

  // ---------------------------------------------------------------------
  // Stage 3: .replace(/on\w+\s*=/gi, "")

  /** The length of the `on\w+\s*=` match that starts at the front of `s`, or
      0 when none does. The word run and the space run are taken greedily;
      since `\w`, `\s` and `=` are disjoint, the greedy choice is the only one
      that can be followed by `=` (see HandlerMatchIsTheMatch). */
  function HandlerMatch(s: string): (n: nat)
    ensures n == 0 || 4 <= n <= |s|
  {
    if |s| >= 2 && LowerChar(s[0]) == 'o' && LowerChar(s[1]) == 'n' then
      var w := Span(s[2..], IsWordChar);
      var sp := Span(s[2 + w..], IsSpace);
      if w >= 1 && 2 + w + sp < |s| && s[2 + w + sp] == '=' then 3 + w + sp else 0
    else 0
  }

  /** `s` begins with "on", `w` word characters, `sp` whitespace characters
      and "=": one way the pattern can match at the front of `s`. */
  ghost predicate HandlerShape(s: string, w: nat, sp: nat)
  {
    && 3 + w + sp <= |s|
    && LowerChar(s[0]) == 'o' && LowerChar(s[1]) == 'n'
    && w >= 1
    && (forall i :: 2 <= i < 2 + w ==> IsWordChar(s[i]))
    && (forall i :: 2 + w <= i < 2 + w + sp ==> IsSpace(s[i]))
    && s[2 + w + sp] == '='
  }

  function StripHandlers(s: string): (r: string)
    ensures |r| <= |s|
    ensures NoAngles(s) ==> NoAngles(r)
    decreases |s|
  {
    if s == [] then []
    else
      var n := HandlerMatch(s);
      if n > 0 then
        assert NoAngles(s) ==> NoAngles(s[n..]) by { assert s == s[..n] + s[n..]; }
        StripHandlers(s[n..])
      else
        assert NoAngles(s) ==> NoAngles(s[1..]) by { assert s == [s[0]] + s[1..]; }
        [s[0]] + StripHandlers(s[1..])
  }

  // ---------------------------------------------------------------------
  // sanitizeString and sanitizeObject

  /** `sanitizeString` on a string. */
  function SanitizeString(s: string): (r: string)
    ensures NoAngles(r)
    ensures Trimmed(r)
    ensures |r| <= |s|
  {
    var a := StripAngles(s);
    var j := StripJavascript(a);
    var h := StripHandlers(j);
    Trim(h)
  }

  /** `sanitized[key] = value` on an object that starts as `{}`: an existing
      own property keeps its place and takes the new value, a new one is
      appended. While the output's prototype chain still reaches
      Object.prototype, the key "__proto__" goes to its inherited setter
      instead of becoming an own property: an object, array or null value
      becomes the output's prototype, any other value is ignored. Once an
      earlier entry has made the chain end without that setter (a null
      prototype, or an object whose own chain ends in null), a later
      "__proto__" key becomes an ordinary own property. Neither the
      prototype nor that late own property is modelled: every "__proto__"
      entry is dropped here. */
  function Assign(ms: seq<Member>, key: string, value: Json): seq<Member>
  {
    if key == "__proto__" then ms else Put(ms, key, value)
  }

  function Put(ms: seq<Member>, key: string, value: Json): seq<Member>
  {
    if ms == [] then [Member(key, value)]
    else if ms[0].key == key then [Member(key, value)] + ms[1..]
    else [ms[0]] + Put(ms[1..], key, value)
  }

  /** The object the loop of `sanitizeObject` builds by assigning the
      entries `es`, in order, to a fresh `{}`. */
  function AssignAll(es: seq<Member>): seq<Member>
  {
    if es == [] then []
    else Assign(AssignAll(es[..|es| - 1]), es[|es| - 1].key, es[|es| - 1].value)
  }

  /** `sanitizeObject`. */
  function SanitizeValue(v: Json): Json
    decreases v, 1
  {
    match v
    case JStr(s) => JStr(SanitizeString(s))
    case JArr(items) => JArr(seq(|items|, i requires 0 <= i < |items| => SanitizeValue(items[i])))
    case JObj(_) => JObj(AssignAll(SanitizeEntries(v)))
    case _ => v
  }

  /** The entries of the object `v`, in enumeration order, each with its key
      and its value sanitised: what the loop assigns. */
  function SanitizeEntries(v: Json): (es: seq<Member>)
    requires v.JObj?
    ensures |es| == |v.members|
    ensures forall i :: 0 <= i < |es| ==> es[i].key == SanitizeString(v.members[i].key)
    decreases v, 0
  {
    seq(|v.members|, i requires 0 <= i < |v.members| =>
      var m := v.members[i];
      assert m.value < v;
      Member(SanitizeString(m.key), SanitizeValue(m.value)))
  }

  // ---------------------------------------------------------------------
  // The event-handler pattern: the greedy match is the only match

  /** Whenever `on\w+\s*=` matches at the front of `s` with some split into a
      word run and a space run, HandlerMatch returns that match's length: the
      match is unique and the greedy scan finds it. */
  lemma HandlerMatchIsTheMatch(s: string, w: nat, sp: nat)
    requires HandlerShape(s, w, sp)
    ensures HandlerMatch(s) == 3 + w + sp
  {
    var t := s[2..];
    // The greedy word run stops exactly where the pattern's word run does:
    // s[2 + w] is a space or "=", neither of which is a word character.
    assert forall i :: 0 <= i < w ==> IsWordChar(t[i]) by {
      forall i | 0 <= i < w ensures IsWordChar(t[i]) { assert t[i] == s[2 + i]; }
    }
    assert t[w] == s[2 + w];
    assert Span(t, IsWordChar) == w;
    var u := s[2 + w..];
    assert forall i :: 0 <= i < sp ==> IsSpace(u[i]) by {
      forall i | 0 <= i < sp ensures IsSpace(u[i]) { assert u[i] == s[2 + w + i]; }
    }
    assert u[sp] == s[2 + w + sp];
    assert Span(u, IsSpace) == sp;
  }

  /** Conversely, a match HandlerMatch reports is a match of the pattern. */
  lemma HandlerMatchIsAMatch(s: string)
    requires HandlerMatch(s) > 0
    ensures HandlerShape(s, Span(s[2..], IsWordChar), Span(s[2 + Span(s[2..], IsWordChar)..], IsSpace))
  {
    var t := s[2..];
    var w := Span(t, IsWordChar);
    var u := s[2 + w..];
    var sp := Span(u, IsSpace);
    assert forall i :: 2 <= i < 2 + w ==> IsWordChar(s[i]) by {
      forall i | 2 <= i < 2 + w ensures IsWordChar(s[i]) { assert t[i - 2] == s[i]; }
    }
    assert forall i :: 2 + w <= i < 2 + w + sp ==> IsSpace(s[i]) by {
      forall i | 2 + w <= i < 2 + w + sp ensures IsSpace(s[i]) { assert u[i - 2 - w] == s[i]; }
    }
  }

  // ---------------------------------------------------------------------
  // Each deletion leaves a string without a match unchanged

  lemma {:induction false} StripAnglesKeepsClean(s: string)
    requires NoAngles(s)
    ensures StripAngles(s) == s
  {
    if s != [] {
      assert s[0] in s;
      assert NoAngles(s[1..]) by { assert forall c :: c in s[1..] ==> c in s; }
      StripAnglesKeepsClean(s[1..]);
      assert s == [s[0]] + s[1..];
    }
  }

  /** The bracket filter works piece by piece. */
  lemma {:induction false} StripAnglesAppend(a: string, b: string)
    ensures StripAngles(a + b) == StripAngles(a) + StripAngles(b)
  {
    if a != [] {
      assert (a + b)[1..] == a[1..] + b;
      StripAnglesAppend(a[1..], b);
    } else {
      assert a + b == b;
    }
  }

  lemma {:induction false} StripJavascriptKeepsClean(s: string)
    requires forall i :: 0 <= i < |s| ==> !JavascriptAt(s[i..])
    ensures StripJavascript(s) == s
  {
    if s != [] {
      assert s[0..] == s;
      assert forall i :: 0 <= i < |s| - 1 ==> s[1..][i..] == s[i + 1..];
      StripJavascriptKeepsClean(s[1..]);
      assert s == [s[0]] + s[1..];
    }
  }

  /** No `javascript:` can start without a `j` or `J`. */
  lemma NoJavascriptWithoutJ(s: string)
    requires 'j' !in s && 'J' !in s
    ensures StripJavascript(s) == s
  {
    forall i | 0 <= i < |s| ensures !JavascriptAt(s[i..]) {
      assert s[i..][0] == s[i];
    }
    StripJavascriptKeepsClean(s);
  }

  lemma {:induction false} StripHandlersKeepsClean(s: string)
    requires forall i :: 0 <= i < |s| ==> HandlerMatch(s[i..]) == 0
    ensures StripHandlers(s) == s
  {
    if s != [] {
      assert s[0..] == s;
      assert forall i :: 0 <= i < |s| - 1 ==> s[1..][i..] == s[i + 1..];
      StripHandlersKeepsClean(s[1..]);
      assert s == [s[0]] + s[1..];
    }
  }

  /** No handler assignment can start without an `o` or `O`. */
  lemma NoHandlerWithoutO(s: string)
    requires 'o' !in s && 'O' !in s
    ensures StripHandlers(s) == s
  {
    forall i | 0 <= i < |s| ensures HandlerMatch(s[i..]) == 0 {
      assert s[i..][0] == s[i];
    }
    StripHandlersKeepsClean(s);
  }

  // ---------------------------------------------------------------------
  // What sanitizeObject builds

  /** The value of the own property `key`, if there is one. */
  function Lookup(ms: seq<Member>, key: string): Option<Json>
  {
    if ms == [] then None
    else if ms[0].key == key then Some(ms[0].value)
    else Lookup(ms[1..], key)
  }

  /** No key occurs twice, as in any JavaScript object. */
  predicate UniqueKeys(ms: seq<Member>)
  {
    ms == [] || (Lookup(ms[1..], ms[0].key) == None && UniqueKeys(ms[1..]))
  }

  /** Reference for the object the loop builds: `key` holds the value of
      the LAST entry of `es` with that key, and nothing when there is none or
      `key` is "__proto__". */
  function LastEntry(es: seq<Member>, key: string): Option<Json>
  {
    if es == [] || key == "__proto__" then None
    else if es[|es| - 1].key == key then Some(es[|es| - 1].value)
    else LastEntry(es[..|es| - 1], key)
  }

  lemma {:induction false} PutLookup(ms: seq<Member>, key: string, value: Json, k: string)
    ensures Lookup(Put(ms, key, value), k) == if k == key then Some(value) else Lookup(ms, k)
  {
    if ms != [] && ms[0].key != key {
      PutLookup(ms[1..], key, value, k);
    }
  }

  lemma {:induction false} PutKeepsUnique(ms: seq<Member>, key: string, value: Json)
    requires UniqueKeys(ms)
    ensures UniqueKeys(Put(ms, key, value))
  {
    if ms != [] && ms[0].key != key {
      PutKeepsUnique(ms[1..], key, value);
      PutLookup(ms[1..], key, value, ms[0].key);
      assert Put(ms, key, value)[1..] == Put(ms[1..], key, value);
    } else if ms != [] {
      assert Put(ms, key, value)[1..] == ms[1..];
    }
  }

  lemma {:induction false} PutMembers(ms: seq<Member>, key: string, value: Json)
    ensures forall m :: m in Put(ms, key, value) ==> m in ms || m == Member(key, value)
  {
    if ms != [] && ms[0].key != key {
      PutMembers(ms[1..], key, value);
      assert forall m :: m in ms[1..] ==> m in ms;
    } else if ms != [] {
      assert forall m :: m in ms[1..] ==> m in ms;
    }
  }

  /** One assignment, seen through Lookup: "__proto__" changes nothing, any
      other key takes the new value. */
  lemma AssignLookup(ms: seq<Member>, key: string, value: Json, k: string)
    ensures Lookup(Assign(ms, key, value), k)
         == if key != "__proto__" && k == key then Some(value) else Lookup(ms, k)
  {
    if key != "__proto__" {
      PutLookup(ms, key, value, k);
    }
  }

  /** The loop builds an object with unique keys, holding under each key
      what LastEntry says. */
  lemma {:induction false} AssignAllIsLastEntry(es: seq<Member>)
    ensures UniqueKeys(AssignAll(es))
    ensures forall k :: Lookup(AssignAll(es), k) == LastEntry(es, k)
  {
    if es != [] {
      var init := es[..|es| - 1];
      var e := es[|es| - 1];
      AssignAllIsLastEntry(init);
      if e.key != "__proto__" {
        PutKeepsUnique(AssignAll(init), e.key, e.value);
      }
      forall k ensures Lookup(AssignAll(es), k) == LastEntry(es, k) {
        AssignLookup(AssignAll(init), e.key, e.value, k);
      }
    }
  }

  /** The loop only ever stores entries it was given. */
  lemma {:induction false} AssignAllMembers(es: seq<Member>)
    ensures forall m :: m in AssignAll(es) ==> m in es
  {
    if es != [] {
      var init := es[..|es| - 1];
      var e := es[|es| - 1];
      AssignAllMembers(init);
      if e.key != "__proto__" {
        PutMembers(AssignAll(init), e.key, e.value);
      }
      assert forall m :: m in init ==> m in es;
    }
  }

  /** LastEntry, stated outright: a key other than "__proto__" gets a value
      exactly when some entry has that key, and the value is that of an
      entry with the key that no later entry shares. */
  lemma {:induction false} LastEntryIsLast(es: seq<Member>, key: string)
    ensures LastEntry(es, key).Some? <==> key != "__proto__" && exists i :: 0 <= i < |es| && es[i].key == key
    ensures LastEntry(es, key).Some? ==>
      exists i :: 0 <= i < |es| && es[i] == Member(key, LastEntry(es, key).value) &&
        forall j :: i < j < |es| ==> es[j].key != key
  {
    if es != [] && key != "__proto__" {
      var n := |es|;
      var init := es[..n - 1];
      LastEntryIsLast(init, key);
      assert forall i :: 0 <= i < n - 1 ==> init[i] == es[i];
      if es[n - 1].key != key && LastEntry(es, key).Some? {
        var i :| 0 <= i < n - 1 && init[i] == Member(key, LastEntry(init, key).value) &&
          forall j :: i < j < n - 1 ==> init[j].key != key;
        assert es[i] == Member(key, LastEntry(es, key).value);
      }
    }
  }

  /** `sanitizeObject` keeps the shape of its input: a string is sanitised, a
      scalar is returned as it is, an array keeps its length and has each
      element sanitised, and an object is built from its entries with key and
      value sanitised: it has unique keys, each holding the value of the last
      entry whose sanitised key it is (none for "__proto__"), and every key
      it holds is the sanitised form of an input key. */
  lemma SanitizeValueShape(v: Json)
    ensures v.JStr? ==> SanitizeValue(v) == JStr(SanitizeString(v.s))
    ensures v.JNull? || v.JBool? || v.JNum? ==> SanitizeValue(v) == v
    ensures v.JArr? ==> SanitizeValue(v).JArr? && |SanitizeValue(v).items| == |v.items|
    ensures v.JArr? ==> forall i :: 0 <= i < |v.items| ==> SanitizeValue(v).items[i] == SanitizeValue(v.items[i])
    ensures v.JObj? ==> forall i :: 0 <= i < |v.members| ==>
      SanitizeEntries(v)[i] == Member(SanitizeString(v.members[i].key), SanitizeValue(v.members[i].value))
    ensures v.JObj? ==> SanitizeValue(v).JObj? && UniqueKeys(SanitizeValue(v).members)
    ensures v.JObj? ==> forall k :: Lookup(SanitizeValue(v).members, k) == LastEntry(SanitizeEntries(v), k)
    ensures v.JObj? ==> forall m :: m in SanitizeValue(v).members ==>
      exists j :: 0 <= j < |v.members| && SanitizeString(v.members[j].key) == m.key
  {
    if v.JObj? {
      ObjectShape(v);
    }
  }

  lemma ObjectShape(v: Json)
    requires v.JObj?
    ensures SanitizeValue(v) == JObj(AssignAll(SanitizeEntries(v)))
    ensures UniqueKeys(SanitizeValue(v).members)
    ensures forall k :: Lookup(SanitizeValue(v).members, k) == LastEntry(SanitizeEntries(v), k)
    ensures forall m :: m in SanitizeValue(v).members ==>
      exists j :: 0 <= j < |v.members| && SanitizeString(v.members[j].key) == m.key
  {
    AssignAllIsLastEntry(SanitizeEntries(v));
    ObjectKeySources(v);
  }

  lemma ObjectKeySources(v: Json)
    requires v.JObj?
    ensures forall m :: m in AssignAll(SanitizeEntries(v)) ==>
      exists j :: 0 <= j < |v.members| && SanitizeString(v.members[j].key) == m.key
  {
    var es := SanitizeEntries(v);
    AssignAllMembers(es);
    forall m | m in AssignAll(es)
      ensures exists j :: 0 <= j < |v.members| && SanitizeString(v.members[j].key) == m.key
    {
      EntryHasSource(v, es, m);
    }
  }

  lemma EntryHasSource(v: Json, es: seq<Member>, m: Member)
    requires v.JObj? && es == SanitizeEntries(v) && m in es
    ensures exists j :: 0 <= j < |v.members| && SanitizeString(v.members[j].key) == m.key
  {
    var j :| 0 <= j < |es| && es[j] == m;
    assert SanitizeString(v.members[j].key) == m.key;
  }

  // ---------------------------------------------------------------------
  // No angle bracket survives anywhere

  /** No string and no key anywhere in `v` holds '<' or '>'. */
  predicate AngleFree(v: Json)
  {
    match v
    case JStr(s) => NoAngles(s)
    case JArr(items) => forall i :: 0 <= i < |items| ==> AngleFree(items[i])
    case JObj(ms) => forall i :: 0 <= i < |ms| ==> NoAngles(ms[i].key) && AngleFree(ms[i].value)
    case _ => true
  }

  /** Whatever the request holds, after sanitising no string and no key in
      it, at any depth, contains '<' or '>'. */
  lemma {:induction false} SanitizedIsAngleFree(v: Json)
    ensures AngleFree(SanitizeValue(v))
  {
    match v
    case JArr(items) =>
      forall i | 0 <= i < |items| ensures AngleFree(SanitizeValue(items[i])) {
        SanitizedIsAngleFree(items[i]);
      }
    case JObj(ms) =>
      var es := SanitizeEntries(v);
      forall i | 0 <= i < |es| ensures NoAngles(es[i].key) && AngleFree(es[i].value) {
        SanitizedIsAngleFree(ms[i].value);
      }
      AssignAllMembers(es);
      var out := SanitizeValue(v).members;
      assert forall i :: 0 <= i < |out| ==> out[i] in es;
    case _ =>
  }
}
