/**
 * The alias string a reference resolves to: `{Collection['seg1']['seg2']...}`.
 * Each segment is wrapped in `['` and `']` after every double quote in it has
 * been escaped as `\"`; the single quote that delimits segments is not escaped.
 */
module Alias {
  import opened Wrappers
  import Names

  /** `item.replace(/"/g, '\\"')`: a backslash before every double quote. */
  function Escape(s: string): (r: string)
    ensures |r| >= |s|
    ensures '\'' in r <==> '\'' in s
    decreases |s|
  {
    if s == [] then []
    else (if s[0] == '"' then "\\\"" else [s[0]]) + Escape(s[1..])
  }

  /**
   * Every double quote in the escaped form has a backslash just before it, and
   * the escaped form is longer by exactly one character per double quote.
   */
  lemma {:induction false} EscapeQuotes(s: string)
    ensures var r := Escape(s);
      && (forall i :: 0 <= i < |r| && r[i] == '"' ==> 0 < i && r[i - 1] == '\\')
      && |r| == |s| + multiset(s)['"']
    decreases |s|
  {
    if s != [] {
      EscapeQuotes(s[1..]);
      assert s == [s[0]] + s[1..];
      assert multiset(s) == multiset{s[0]} + multiset(s[1..]);
      var head := if s[0] == '"' then "\\\"" else [s[0]];
      var t := Escape(s[1..]);
      var r := Escape(s);
      assert r == head + t;
      forall i | 0 <= i < |r| && r[i] == '"'
        ensures 0 < i && r[i - 1] == '\\'
      {
        if i > |head| {
          assert r[i] == t[i - |head|] && r[i - 1] == t[i - 1 - |head|];
        }
      }
    }
  }

  /** Turns every `\"` back into `"`, leaving any other character alone. */
  function Unescape(s: string): string
    decreases |s|
  {
    if s == [] then []
    else if |s| >= 2 && s[0] == '\\' && s[1] == '"' then "\"" + Unescape(s[2..])
    else [s[0]] + Unescape(s[1..])
  }

  /** The bracketed, quoted form of one segment. */
  function Bracket(seg: string): string
  {
    "['" + Escape(seg) + "']"
  }

  /** `.map(item => ...).join("")` over the segments. */
  function AliasPath(segs: seq<string>): (r: string)
    ensures |r| >= 4 * |segs|
    ensures segs == [] <==> r == ""
    ensures segs != [] ==> r[0] == '[' && r[1] == '\'' && r[|r| - 2] == '\'' && r[|r| - 1] == ']'
    decreases |segs|
  {
    if segs == [] then "" else Bracket(segs[0]) + AliasPath(segs[1..])
  }

  /** The alias for a variable named `varName` in the collection `collName`. */
  function AliasString(collName: string, varName: string): (r: string)
    ensures |r| >= 6 + |collName|
    ensures r[..1 + |collName|] == "{" + collName
    ensures r[1 + |collName|] == '[' && r[2 + |collName|] == '\''
    ensures r[|r| - 3] == '\'' && r[|r| - 2] == ']' && r[|r| - 1] == '}'
  {
    "{" + collName + AliasPath(Names.Split(varName)) + "}"
  }

  /** The first position at or after `from` that holds a single quote, or |s|. */
  function NextQuote(s: string, from: nat): (j: nat)
    requires from <= |s|
    ensures from <= j <= |s|
    ensures j < |s| ==> s[j] == '\''
    ensures forall k :: from <= k < j ==> s[k] != '\''
    decreases |s| - from
  {
    if from == |s| || s[from] == '\'' then from else NextQuote(s, from + 1)
  }

  /**
   * Reads a sequence of `['...']` groups back into segments; None when the
   * text is not of that form.
   */
  function ParseAliasPath(s: string): Option<seq<string>>
    decreases |s|
  {
    if s == [] then Some([])
    else if |s| < 2 || s[..2] != "['" then None
    else
      var j := NextQuote(s, 2);
      if j + 1 < |s| && s[j + 1] == ']' then
        match ParseAliasPath(s[j + 2..])
        case Some(rest) => Some([Unescape(s[2..j])] + rest)
        case None => None
      else None
  }

  /** A segment with no double quote is left as it is. */
  lemma {:induction false} EscapePlain(s: string)
    requires '"' !in s
    ensures Escape(s) == s
    decreases |s|
  {
    if s != [] {
      assert '"' !in s[1..] by {
        forall c | c in s[1..] ensures c in s { }
      }
      EscapePlain(s[1..]);
      assert s == [s[0]] + s[1..];
    }
  }

  /** An escaped text never starts with a double quote. */
  lemma EscapeHead(s: string)
    requires Escape(s) != []
    ensures Escape(s)[0] != '"'
  {
  }

  /** Unescaping undoes Escape: no information is lost in a segment. */
  lemma {:induction false} UnescapeEscape(s: string)
    ensures Unescape(Escape(s)) == s
    decreases |s|
  {
    if s != [] {
      var rest := Escape(s[1..]);
      UnescapeEscape(s[1..]);
      if s[0] == '"' {
        var e := "\\\"" + rest;
        assert Escape(s) == e;
        assert e[2..] == rest;
      } else {
        var e := [s[0]] + rest;
        assert Escape(s) == e;
        assert e[1..] == rest;
        if s[0] == '\\' && |e| >= 2 {
          EscapeHead(s[1..]);
          assert e[1] == rest[0];
        }
      }
      assert s == [s[0]] + s[1..];
    }
  }

  /** One group `['e']` with no single quote in `e`, in front of `tail`, is read off first. */
  lemma ParseGroup(e: string, tail: string)
    requires '\'' !in e
    ensures var p := ParseAliasPath(tail);
      ParseAliasPath("['" + e + "']" + tail) == if p.Some? then Some([Unescape(e)] + p.value) else None
  {
    var s := "['" + e + "']" + tail;
    assert s[..2] == "['";
    var j := NextQuote(s, 2);
    assert s[2 + |e|] == '\'';
    forall k | 2 <= k < 2 + |e| ensures s[k] != '\'' {
      assert s[k] == e[k - 2];
    }
    assert j == 2 + |e|;
    assert s[j + 1] == ']';
    assert s[2..j] == e;
    assert s[j + 2..] == tail;
  }

  /** Parsing an alias path gives back the segments, if none holds a single quote. */
  lemma {:induction false} ParseAliasPathRoundTrip(segs: seq<string>)
    requires forall i :: 0 <= i < |segs| ==> '\'' !in segs[i]
    ensures ParseAliasPath(AliasPath(segs)) == Some(segs)
    decreases |segs|
  {
    if segs != [] {
      var e := Escape(segs[0]);
      var tail := AliasPath(segs[1..]);
      assert AliasPath(segs) == "['" + e + "']" + tail;
      ParseGroup(e, tail);
      ParseAliasPathRoundTrip(segs[1..]);
      UnescapeEscape(segs[0]);
      assert [segs[0]] + segs[1..] == segs;
    }
  }

  /**
   * For names with no single quote, the alias determines the variable name:
   * two such variables in one collection never get the same alias.
   */
  lemma AliasStringInjective(collName: string, n1: string, n2: string)
    requires '\'' !in n1 && '\'' !in n2
    requires AliasString(collName, n1) == AliasString(collName, n2)
    ensures n1 == n2
  {
    var s1, s2 := Names.Split(n1), Names.Split(n2);
    SegmentsQuoteFree(n1);
    SegmentsQuoteFree(n2);
    var a1, a2 := AliasPath(s1), AliasPath(s2);
    var k := 1 + |collName|;
    assert AliasString(collName, n1)[k..|AliasString(collName, n1)| - 1] == a1;
    assert AliasString(collName, n2)[k..|AliasString(collName, n2)| - 1] == a2;
    ParseAliasPathRoundTrip(s1);
    ParseAliasPathRoundTrip(s2);
    Names.JoinSplit(n1);
    Names.JoinSplit(n2);
  }

  /** The segments of a name with no single quote hold none either. */
  lemma {:induction false} SegmentsQuoteFree(s: string)
    requires '\'' !in s
    ensures forall i :: 0 <= i < |Names.Split(s)| ==> '\'' !in Names.Split(s)[i]
    decreases |s|
  {
    if s != [] {
      assert '\'' !in s[1..] by {
        forall c | c in s[1..] ensures c in s { }
      }
      SegmentsQuoteFree(s[1..]);
    }
  }

  /**
   * Since the single quote is not escaped, a segment holding `']['` reads
   * like a segment boundary: for plain segments `a` and `b`, the names
   * `a']['b` and `a/b` get the same alias (so do "x']['y" and "x/y").
   */
  lemma AliasQuoteCollision(collName: string, a: string, b: string)
    requires '/' !in a && '/' !in b && '"' !in a && '"' !in b
    ensures a + "']['" + b != a + "/" + b
    ensures AliasString(collName, a + "']['" + b) == AliasString(collName, a + "/" + b)
  {
    var odd := a + "']['" + b;
    assert odd[|a|] == '\'' != (a + "/" + b)[|a|];
    OddSegmentPlain(a, b);
    Names.SplitSlashFree(odd);
    EscapePlain(odd);
    assert AliasPath([odd]) == "['" + odd + "']";
    OddBracket(a, b);
    AliasExampleTwo(a, b);
  }

  /** The name `a']['b` has neither a slash nor a double quote. */
  lemma OddSegmentPlain(a: string, b: string)
    requires '/' !in a && '/' !in b && '"' !in a && '"' !in b
    ensures var odd := a + "']['" + b; '/' !in odd && '"' !in odd
  {
  }

  /** Bracketing `a']['b` reads as bracketing `a` and `b` one after the other. */
  lemma OddBracket(a: string, b: string)
    ensures "['" + (a + "']['" + b) + "']" == "['" + a + "']['" + b + "']"
  {
  }

  /** The alias path of a two-segment name made of plain characters. */
  lemma AliasExampleTwo(a: string, b: string)
    requires '/' !in a && '/' !in b && '"' !in a && '"' !in b
    ensures Names.Split(a + "/" + b) == [a, b]
    ensures AliasPath([a, b]) == "['" + a + "']['" + b + "']"
  {
    Names.SplitJoin([a, b]);
    assert Names.Join([a, b]) == a + "/" + b;
    EscapePlain(a);
    EscapePlain(b);
    assert AliasPath([b]) == "['" + b + "']" + AliasPath([]);
    assert AliasPath([a, b]) == "['" + a + "']" + AliasPath([b]);
  }

  /** A reference to "a/b" in the collection "Core" reads `{Core['a']['b']}`. */
  lemma AliasExample()
    ensures AliasString("Core", "a/b") == "{Core['a']['b']}"
  {
    AliasExampleTwo("a", "b");
    CoreText();
  }

  /** The pieces of the example put together. */
  lemma CoreText()
    ensures "{" + "Core" + ("['" + "a" + "']['" + "b" + "']") + "}" == "{Core['a']['b']}"
  {
  }
}
