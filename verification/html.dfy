/**
 * `escapeHtml` of the map popup: five chained global replacements, `&` first.
 * The chain is shown equal to escaping each character on its own, which gives
 * the safety facts and the inverse.
 */
module Html {
  import opened JsValues

  /** `s.replace(/c/g, rep)` for a single-character pattern. */
  function ReplaceAll(s: string, c: char, rep: string): (r: string)
    ensures c !in s ==> r == s
  {
    if |s| == 0 then ""
    else (if s[0] == c then rep else [s[0]]) + ReplaceAll(s[1..], c, rep)
  }

  lemma {:induction false} ReplaceAllAppend(a: string, b: string, c: char, rep: string)
    ensures ReplaceAll(a + b, c, rep) == ReplaceAll(a, c, rep) + ReplaceAll(b, c, rep)
    decreases |a|
  {
    if |a| > 0 {
      assert (a + b)[1..] == a[1..] + b;
      ReplaceAllAppend(a[1..], b, c, rep);
    } else {
      assert a + b == b;
    }
  }

  /** The source's chain of replacements, in its order. */
  function EscapeChain(s: string): string {
    AfterAmp(ReplaceAll(s, '&', "&amp;"))
  }

  /** The four replacements that follow the one for `&`. */
  function AfterAmp(s: string): string {
    ReplaceAll(ReplaceAll(ReplaceAll(ReplaceAll(s, '<', "&lt;"), '>', "&gt;"), '"', "&quot;"), '\'', "&#39;")
  }

  /** Text without the four unsafe characters passes the last four replacements unchanged. */
  lemma AfterAmpOfSafe(s: string)
    requires SafeText(s)
    ensures AfterAmp(s) == s
  {
    assert '<' !in s && '>' !in s && '"' !in s && '\'' !in s;
  }

  predicate Special(c: char) {
    c == '&' || c == '<' || c == '>' || c == '"' || c == '\''
  }

  /** No character of `r` opens a tag or ends an attribute value. */
  predicate SafeText(r: string) {
    forall i :: 0 <= i < |r| ==> !Unsafe(r[i])
  }

  /** Every `&` in `r` opens one of the five entities. */
  predicate AmpsOpenEntities(r: string) {
    forall i :: 0 <= i < |r| && r[i] == '&' ==> EntityAt(r, i)
  }

  /** A character that may not appear in escaped text: it would open a tag or end an attribute. */
  predicate Unsafe(c: char) {
    c == '<' || c == '>' || c == '"' || c == '\''
  }

  /** The entity each special character becomes; every other character stays. */
  function EscapeChar(c: char): string {
    if c == '&' then "&amp;"
    else if c == '<' then "&lt;"
    else if c == '>' then "&gt;"
    else if c == '"' then "&quot;"
    else if c == '\'' then "&#39;"
    else [c]
  }

  function EscapeEach(s: string): string {
    if |s| == 0 then "" else EscapeChar(s[0]) + EscapeEach(s[1..])
  }

  /** `escapeHtml(str)`: `String(str)` with the five special characters replaced by entities. */
  function EscapeHtml(v: Value): (r: string)
    ensures SafeText(r)
    ensures AmpsOpenEntities(r)
    ensures Unescape(r) == ToStr(v)
  {
    var s := ToStr(v);
    ChainIsPerChar(s);
    EscapedIsSafe(s);
    UnescapeEscaped(s);
    EscapeChain(s)
  }

  /** Only the replacement for `c` changes a string without the other four special characters. */
  lemma ChainOfPlain(c: char)
    requires !Special(c)
    ensures EscapeChain([c]) == [c]
  {
  }

  lemma ChainOfAmp()
    ensures EscapeChain("&") == "&amp;"
  {
    assert ReplaceAll("&", '&', "&amp;") == "&amp;";
    assert SafeText("&amp;");
    AfterAmpOfSafe("&amp;");
  }

  lemma ChainOfLt()
    ensures EscapeChain("<") == "&lt;"
  {
    assert ReplaceAll("<", '&', "&amp;") == "<";
    assert ReplaceAll("<", '<', "&lt;") == "&lt;";
    assert "&lt;" == ['&', 'l', 't', ';'];
  }

  lemma ChainOfGt()
    ensures EscapeChain(">") == "&gt;"
  {
    assert ReplaceAll(">", '<', "&lt;") == ">";
    assert ReplaceAll(">", '>', "&gt;") == "&gt;";
    assert "&gt;" == ['&', 'g', 't', ';'];
  }

  lemma ChainOfQuot()
    ensures EscapeChain("\"") == "&quot;"
  {
    assert ReplaceAll("\"", '>', "&gt;") == "\"";
    assert ReplaceAll("\"", '"', "&quot;") == "&quot;";
    assert "&quot;" == ['&', 'q', 'u', 'o', 't', ';'];
  }

  lemma ChainOfApos()
    ensures EscapeChain("'") == "&#39;"
  {
    assert ReplaceAll("'", '"', "&quot;") == "'";
    assert ReplaceAll("'", '\'', "&#39;") == "&#39;";
  }

  lemma ChainOfChar(c: char)
    ensures EscapeChain([c]) == EscapeChar(c)
  {
    if c == '&' {
      ChainOfAmp();
    } else if c == '<' {
      ChainOfLt();
    } else if c == '>' {
      ChainOfGt();
    } else if c == '"' {
      ChainOfQuot();
    } else if c == '\'' {
      ChainOfApos();
    } else {
      ChainOfPlain(c);
    }
  }

  lemma ChainAppend(a: string, b: string)
    ensures EscapeChain(a + b) == EscapeChain(a) + EscapeChain(b)
  {
    var a1, b1 := ReplaceAll(a, '&', "&amp;"), ReplaceAll(b, '&', "&amp;");
    ReplaceAllAppend(a, b, '&', "&amp;");
    var a2, b2 := ReplaceAll(a1, '<', "&lt;"), ReplaceAll(b1, '<', "&lt;");
    ReplaceAllAppend(a1, b1, '<', "&lt;");
    var a3, b3 := ReplaceAll(a2, '>', "&gt;"), ReplaceAll(b2, '>', "&gt;");
    ReplaceAllAppend(a2, b2, '>', "&gt;");
    var a4, b4 := ReplaceAll(a3, '"', "&quot;"), ReplaceAll(b3, '"', "&quot;");
    ReplaceAllAppend(a3, b3, '"', "&quot;");
    ReplaceAllAppend(a4, b4, '\'', "&#39;");
  }

  /** Replacing `&` first means no later replacement's `&` is escaped again: the chain escapes each character once. */
  lemma {:induction false} ChainIsPerChar(s: string)
    ensures EscapeChain(s) == EscapeEach(s)
    decreases |s|
  {
    if |s| == 0 {
      assert EscapeChain(s) == "";
    } else {
      assert s == [s[0]] + s[1..];
      ChainAppend([s[0]], s[1..]);
      ChainOfChar(s[0]);
      ChainIsPerChar(s[1..]);
    }
  }

  const Entities: seq<string> := ["&amp;", "&lt;", "&gt;", "&quot;", "&#39;"]

  /** One of the five entities starts at position `i`. */
  predicate EntityAt(r: string, i: nat)
    requires i <= |r|
  {
    exists e :: e in Entities && e <= r[i..]
  }

  /** Each piece is safe, and its only `&` is the one opening its entity. */
  lemma EscapeCharSafe(c: char)
    ensures var e := EscapeChar(c);
      && (forall i :: 0 <= i < |e| ==> !Unsafe(e[i]))
      && (forall i :: 0 <= i < |e| && e[i] == '&' ==> i == 0 && e in Entities)
  {
  }

  lemma {:induction false} EscapedIsSafe(s: string)
    ensures SafeText(EscapeEach(s)) && AmpsOpenEntities(EscapeEach(s))
    decreases |s|
  {
    if |s| > 0 {
      EscapedIsSafe(s[1..]);
      EscapeCharSafe(s[0]);
      var e := EscapeChar(s[0]);
      var rest := EscapeEach(s[1..]);
      var r := e + rest;
      assert r == EscapeEach(s);
      assert SafeText(rest) && AmpsOpenEntities(rest);
      forall i | 0 <= i < |r|
        ensures !Unsafe(r[i])
        ensures r[i] == '&' ==> EntityAt(r, i)
      {
        if i < |e| {
          assert r[i] == e[i];
          if r[i] == '&' {
            assert e <= r[i..];
          }
        } else {
          var j := i - |e|;
          assert r[i] == rest[j];
          if r[i] == '&' {
            assert EntityAt(rest, j);
            var x :| x in Entities && x <= rest[j..];
            assert r[i..] == rest[j..];
            assert x <= r[i..];
          }
        }
      }
    }
  }

  /** The inverse: each entity decodes to its character, scanning left to right. */
  function Unescape(r: string): string
    decreases |r|
  {
    if |r| == 0 then ""
    else if "&amp;" <= r then "&" + Unescape(r[5..])
    else if "&lt;" <= r then "<" + Unescape(r[4..])
    else if "&gt;" <= r then ">" + Unescape(r[4..])
    else if "&quot;" <= r then "\"" + Unescape(r[6..])
    else if "&#39;" <= r then "'" + Unescape(r[5..])
    else [r[0]] + Unescape(r[1..])
  }

  lemma UnescapeChar(c: char, rest: string)
    ensures Unescape(EscapeChar(c) + rest) == [c] + Unescape(rest)
  {
    var r := EscapeChar(c) + rest;
    if c == '&' {
      assert r[..5] == "&amp;" && r[5..] == rest;
    } else if c == '<' {
      assert r[1] == 'l' && r[..4] == "&lt;" && r[4..] == rest;
    } else if c == '>' {
      assert r[1] == 'g' && r[..4] == "&gt;" && r[4..] == rest;
    } else if c == '"' {
      assert r[1] == 'q' && r[..6] == "&quot;" && r[6..] == rest;
    } else if c == '\'' {
      assert r[1] == '#' && r[..5] == "&#39;" && r[5..] == rest;
    } else {
      assert r[0] == c && r[1..] == rest;
    }
  }

  lemma {:induction false} UnescapeEscaped(s: string)
    ensures Unescape(EscapeEach(s)) == s
    decreases |s|
  {
    if |s| > 0 {
      UnescapeChar(s[0], EscapeEach(s[1..]));
      UnescapeEscaped(s[1..]);
    }
  }
}
