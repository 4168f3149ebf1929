/** The placeholder literal `"<Instantiate T>"` that stands in for a rewritten
    instantiation, how the local-variable path cleans up the type text that goes
    into it, and when the IDE accepts the placeholder as a string literal. */
module Placeholder {
  import opened Syntax
  import opened Strings

  const Prefix := "<Instantiate "

  /** The content of the placeholder literal for a type text (without the quotes). */
  function InstantiateBody(typeText: string): string
  {
    Prefix + typeText + ">"
  }

  /** Reads the type text back out of a placeholder literal's content. */
  function TypeTextOf(body: string): (r: Option<string>)
    ensures r.Some? ==> |r.value| < |body|
  {
    if |body| > |Prefix| && StartsWith(body, Prefix) && body[|body| - 1] == '>'
    then Some(body[|Prefix|..|body| - 1])
    else None
  }

  /** The placeholder loses nothing: the type text is recovered exactly. */
  lemma PlaceholderRoundTrip(typeText: string)
    ensures TypeTextOf(InstantiateBody(typeText)) == Some(typeText)
  {
    var b := InstantiateBody(typeText);
    assert b[..|Prefix|] == Prefix;
    assert b[|Prefix|..|b| - 1] == typeText;
  }

  /** The characters `[a-zA-Z0-9_.]` that survive the local-variable clean-up. */
  predicate IsTypeNameChar(c: char)
  {
    ('a' <= c <= 'z') || ('A' <= c <= 'Z') || ('0' <= c <= '9') || c == '_' || c == '.'
  }

  predicate AllTypeNameChars(s: string)
  {
    forall i :: 0 <= i < |s| ==> IsTypeNameChar(s[i])
  }

  /** `replaceAll("[^a-zA-Z0-9_.]", "")`: every other character is dropped,
      the kept ones stay in order. */
  function Sanitize(s: string): (r: string)
    ensures AllTypeNameChars(r)
    ensures |r| <= |s|
    ensures AllTypeNameChars(s) ==> r == s
  {
    if s == [] then []
    else (if IsTypeNameChar(s[0]) then [s[0]] else []) + Sanitize(s[1..])
  }

  /** One character is kept exactly when it is a type-name character. */
  lemma SanitizeChar(c: char)
    ensures Sanitize([c]) == if IsTypeNameChar(c) then [c] else []
  {
    assert [c][1..] == [];
  }

  /** The clean-up works character by character: it distributes over
      concatenation, so the kept characters stay in their order. */
  lemma {:induction false} SanitizeConcat(a: string, b: string)
    ensures Sanitize(a + b) == Sanitize(a) + Sanitize(b)
    decreases |a|
  {
    if a == [] {
      assert a + b == b;
    } else {
      assert (a + b)[0] == a[0];
      assert (a + b)[1..] == a[1..] + b;
      SanitizeConcat(a[1..], b);
      var h := if IsTypeNameChar(a[0]) then [a[0]] else [];
      assert Sanitize(a + b) == h + (Sanitize(a[1..]) + Sanitize(b));
      assert Sanitize(a) == h + Sanitize(a[1..]);
    }
  }

  /** Java's `String.trim`: strips characters up to U+0020 from both ends. */
  function Trim(s: string): string
  {
    TrimEnd(TrimStart(s))
  }

  function TrimStart(s: string): (r: string)
    ensures |r| <= |s|
  {
    if s != [] && s[0] <= ' ' then TrimStart(s[1..]) else s
  }

  function TrimEnd(s: string): (r: string)
    ensures |r| <= |s|
  {
    if s != [] && s[|s| - 1] <= ' ' then TrimEnd(s[..|s| - 1]) else s
  }

  /** After the clean-up no character is trimmable, so `trim()` changes nothing. */
  lemma TrimSanitizedIsIdentity(s: string)
    ensures Trim(Sanitize(s)) == Sanitize(s)
  {
  }

  /** The type text the local-variable path puts in its placeholder. */
  function SanitizedTypeText(presentable: string): (r: string)
    ensures AllTypeNameChars(r)
  {
    Trim(Sanitize(presentable))
  }

  /** Whether a literal's content lexes as the inside of a Java string literal,
      so that `"` + content + `"` is a single string-literal expression: no bare
      double quote, no line terminator, and every backslash escapes a following
      character on the same line. The IDE's element factory fails on any other. */
  predicate LexesAsLiteralBody(s: string)
  {
    if s == [] then true
    else if s[0] == '"' || s[0] == '\n' || s[0] == '\r' then false
    else if s[0] == '\\' then |s| >= 2 && s[1] != '\n' && s[1] != '\r' && LexesAsLiteralBody(s[2..])
    else LexesAsLiteralBody(s[1..])
  }

  predicate NoLiteralBreakers(s: string)
  {
    forall i :: 0 <= i < |s| ==> s[i] != '"' && s[i] != '\\' && s[i] != '\n' && s[i] != '\r'
  }

  lemma {:induction false} PlainTextLexes(s: string)
    requires NoLiteralBreakers(s)
    ensures LexesAsLiteralBody(s)
  {
    if s != [] {
      assert NoLiteralBreakers(s[1..]) by {
        forall i | 0 <= i < |s[1..]| ensures s[1..][i] == s[i + 1] { }
      }
      PlainTextLexes(s[1..]);
    }
  }

  /** A placeholder built from cleaned-up type text is always accepted, so the
      local-variable replacement never takes its failure branch. */
  lemma SanitizedPlaceholderLexes(presentable: string)
    ensures LexesAsLiteralBody(InstantiateBody(SanitizedTypeText(presentable)))
  {
    var t := SanitizedTypeText(presentable);
    var b := InstantiateBody(t);
    forall i | 0 <= i < |b|
      ensures b[i] != '"' && b[i] != '\\' && b[i] != '\n' && b[i] != '\r'
    {
      if |Prefix| <= i < |Prefix| + |t| {
        assert b[i] == t[i - |Prefix|];
        assert IsTypeNameChar(t[i - |Prefix|]);
      }
    }
    PlainTextLexes(b);
  }

  /** A double quote that no backslash can escape ends the literal early, so
      the factory rejects the placeholder. */
  lemma {:induction false} BareQuoteBreaksLiteral(s: string, k: nat)
    requires k < |s| && s[k] == '"'
    requires forall i :: 0 <= i < |s| ==> s[i] != '\\'
    ensures !LexesAsLiteralBody(s)
  {
    if k > 0 {
      BareQuoteBreaksLiteral(s[1..], k - 1);
    }
  }

  /** So a type text holding such a quote makes the replacement fail. */
  lemma QuoteBreaksPlaceholder(typeText: string, k: nat)
    requires k < |typeText| && typeText[k] == '"'
    requires forall i :: 0 <= i < |typeText| ==> typeText[i] != '\\'
    ensures !LexesAsLiteralBody(InstantiateBody(typeText))
  {
    var b := InstantiateBody(typeText);
    assert b[|Prefix| + k] == '"';
    forall i | 0 <= i < |b| ensures b[i] != '\\' {
      if |Prefix| <= i < |Prefix| + |typeText| {
        assert b[i] == typeText[i - |Prefix|];
      }
    }
    BareQuoteBreaksLiteral(b, |Prefix| + k);
  }
}
