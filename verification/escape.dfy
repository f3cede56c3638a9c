/** Escaping of search-engine URLs (`search_escape` and the `%s`
    substitution applied to every search bookmark's href). */
module Escape {
  import opened Strings

  /** `search_escape`: double every brace so that a later `str.format`
      reads user braces literally. */
  function SearchEscape(url: string): string
  {
    Replace(Replace(url, "{", "{{"), "}", "}}")
  }

  /** The href stored for a search bookmark: braces doubled first, then each
      `%s` replaced by the single placeholder `{}`. */
  function SearchHref(href: string): string
  {
    Replace(SearchEscape(href), "%s", "{}")
  }

  /** The escape of one character on its own. */
  function EscapeChar(c: char): string
  {
    if c == '{' then "{{" else if c == '}' then "}}" else [c]
  }

  /** Reference definition of brace doubling, character by character. */
  function DoubleBraces(s: string): string
    decreases |s|
  {
    if s == "" then "" else EscapeChar(s[0]) + DoubleBraces(s[1..])
  }

  /** Number of brace characters in `s`. */
  function BraceCount(s: string): nat
  {
    multiset(s)['{'] + multiset(s)['}']
  }

  /** Reference definition of the whole search-href transform: a `%s` at the
      front becomes one undoubled `{}`, a brace is doubled, anything else is
      kept. */
  function SearchHrefSpec(s: string): string
    decreases |s|
  {
    if s == "" then ""
    else if |s| >= 2 && s[0] == '%' && s[1] == 's' then "{}" + SearchHrefSpec(s[2..])
    else EscapeChar(s[0]) + SearchHrefSpec(s[1..])
  }

  /** Inverse of brace doubling: `{{` and `}}` become single braces. */
  function UnescapeBraces(s: string): string
    decreases |s|
  {
    if s == "" then ""
    else if |s| >= 2 && s[0] == s[1] && (s[0] == '{' || s[0] == '}') then [s[0]] + UnescapeBraces(s[2..])
    else [s[0]] + UnescapeBraces(s[1..])
  }

  lemma {:induction false} MapLeftBraceThenRightBrace(s: string)
    ensures MapChar(MapChar(s, '{', "{{"), '}', "}}") == DoubleBraces(s)
    decreases |s|
  {
    if s != "" {
      var head := if s[0] == '{' then "{{" else [s[0]];
      assert MapChar(s, '{', "{{") == head + MapChar(s[1..], '{', "{{");
      MapCharAppend(head, MapChar(s[1..], '{', "{{"), '}', "}}");
      MapLeftBraceThenRightBrace(s[1..]);
      if s[0] == '{' {
        assert MapChar(head, '}', "}}") == "{{";
      } else {
        assert MapChar(head, '}', "}}") == EscapeChar(s[0]);
      }
    }
  }

  /** `search_escape` turns every `{` into `{{` and every `}` into `}}` and
      leaves every other character as it is. */
  lemma SearchEscapeDoublesBraces(url: string)
    ensures SearchEscape(url) == DoubleBraces(url)
  {
    ReplaceCharIsMap(url, '{', "{{");
    ReplaceCharIsMap(MapChar(url, '{', "{{"), '}', "}}");
    MapLeftBraceThenRightBrace(url);
  }

  lemma {:induction false} DoubleBracesLength(s: string)
    ensures |DoubleBraces(s)| == |s| + BraceCount(s)
    decreases |s|
  {
    if s != "" {
      DoubleBracesLength(s[1..]);
      assert s == [s[0]] + s[1..];
      assert multiset(s) == multiset{s[0]} + multiset(s[1..]);
    }
  }

  /** Escaping grows a URL by exactly the number of braces it holds. */
  lemma SearchEscapeLength(url: string)
    ensures |SearchEscape(url)| == |url| + BraceCount(url)
  {
    SearchEscapeDoublesBraces(url);
    DoubleBracesLength(url);
  }

  /** Escaping loses nothing: undoubling the braces gives the URL back. */
  lemma {:induction false} SearchEscapeRoundTrip(url: string)
    ensures UnescapeBraces(SearchEscape(url)) == url
  {
    SearchEscapeDoublesBraces(url);
    UnescapeDoubleBraces(url);
  }

  lemma {:induction false} UnescapeDoubleBraces(s: string)
    ensures UnescapeBraces(DoubleBraces(s)) == s
    decreases |s|
  {
    if s != "" {
      var e := EscapeChar(s[0]);
      var rest := DoubleBraces(s[1..]);
      assert DoubleBraces(s) == e + rest;
      UnescapeDoubleBraces(s[1..]);
      if s[0] == '{' || s[0] == '}' {
        assert (e + rest)[2..] == rest;
      } else {
        assert (e + rest)[1..] == rest;
      }
      assert s == [s[0]] + s[1..];
    }
  }

  /** A doubled string begins with the first character of the original. */
  lemma DoubleBracesHead(s: string)
    requires s != ""
    ensures DoubleBraces(s) != "" && DoubleBraces(s)[0] == s[0]
  {
  }

  /** Replacing `%s` in a brace-doubled string: brace doubling never creates
      or destroys a `%s`, so each `%s` of the input becomes one `{}`. */
  lemma {:induction false} ReplaceAfterDoubling(s: string)
    ensures Replace(DoubleBraces(s), "%s", "{}") == SearchHrefSpec(s)
    decreases |s|
  {
    if s != "" {
      var d := DoubleBraces(s);
      if |s| >= 2 && s[0] == '%' && s[1] == 's' {
        assert s[1..][1..] == s[2..];
        assert DoubleBraces(s[1..]) == "s" + DoubleBraces(s[2..]);
        assert d == "%s" + DoubleBraces(s[2..]);
        assert d[..2] == "%s";
        assert d[2..] == DoubleBraces(s[2..]);
        ReplaceAfterDoubling(s[2..]);
      } else if s[0] == '{' || s[0] == '}' {
        var rest := DoubleBraces(s[1..]);
        assert d == [s[0], s[0]] + rest;
        assert d[..2] != "%s";
        assert d[1..] == [s[0]] + rest;
        if |d[1..]| >= 2 {
          assert d[1..][..2] != "%s";
        }
        assert d[1..][1..] == rest;
        ReplaceAfterDoubling(s[1..]);
      } else {
        var rest := DoubleBraces(s[1..]);
        assert d == [s[0]] + rest;
        assert d[1..] == rest;
        if |d| >= 2 {
          if s[0] == '%' {
            DoubleBracesHead(s[1..]);
            assert d[1] == s[1];
          }
          assert d[..2] != "%s";
        }
        ReplaceAfterDoubling(s[1..]);
      }
    }
  }

  /** The search href transform agrees with its reference definition: braces
      doubled, and each `%s` turned into a single undoubled `{}`. */
  lemma SearchHrefMeaning(href: string)
    ensures SearchHref(href) == SearchHrefSpec(href)
  {
    SearchEscapeDoublesBraces(href);
    ReplaceAfterDoubling(href);
  }

  /** One unfolding step of the reference transform for an ordinary
      character. */
  lemma SearchHrefSpecCons(c: char, rest: string)
    requires c != '%'
    ensures SearchHrefSpec([c] + rest) == EscapeChar(c) + SearchHrefSpec(rest)
  {
    assert ([c] + rest)[1..] == rest;
  }

  /** One unfolding step of the reference transform for a `%s`. */
  lemma SearchHrefSpecPercent(rest: string)
    ensures SearchHrefSpec("%s" + rest) == "{}" + SearchHrefSpec(rest)
  {
    assert ("%s" + rest)[2..] == rest;
  }

  /** Worked example: a search URL with a plain `%s` placeholder. */
  lemma SearchHrefPlaceholderExample()
    ensures SearchHref("x/%s") == "x/{}"
  {
    SearchHrefMeaning("x/%s");
    SearchHrefSpecPercent("");
    SearchHrefSpecCons('/', "%s");
    SearchHrefSpecCons('x', "/%s");
  }

  /** Worked example: user braces are doubled, the placeholder is not. */
  lemma SearchHrefBracesExample()
    ensures SearchHref("a{b}%s") == "a{{b}}{}"
  {
    var spec := SearchHrefSpec("a{b}%s");
    SearchHrefSpecPercent("");
    SearchHrefSpecCons('}', "%s");
    assert SearchHrefSpec("}%s") == "}}{}";
    SearchHrefSpecCons('b', "}%s");
    assert SearchHrefSpec("b}%s") == "b}}{}";
    SearchHrefSpecCons('{', "b}%s");
    assert SearchHrefSpec("{b}%s") == "{{b}}{}";
    SearchHrefSpecCons('a', "{b}%s");
    assert spec == "a{{b}}{}";
    SearchHrefMeaning("a{b}%s");
  }

  /** Whether a two-character `%s` starts inside a one-character prefix. */
  lemma ContainsPlaceholderCons(c: char, x: string)
    ensures Contains([c] + x, "%s") <==> (c == '%' && x != "" && x[0] == 's') || Contains(x, "%s")
  {
    assert ([c] + x)[1..] == x;
    if x != "" {
      assert ([c] + x)[..2] == [c, x[0]];
    }
  }

  lemma {:induction false} SearchHrefSpecHasNoPlaceholder(s: string)
    ensures !Contains(SearchHrefSpec(s), "%s")
    ensures SearchHrefSpec(s) != "" <==> s != ""
    ensures s != "" ==> (SearchHrefSpec(s)[0] == 's' <==> s[0] == 's')
    decreases |s|
  {
    if s != "" {
      if |s| >= 2 && s[0] == '%' && s[1] == 's' {
        var rest := SearchHrefSpec(s[2..]);
        SearchHrefSpecHasNoPlaceholder(s[2..]);
        ContainsPlaceholderCons('}', rest);
        ContainsPlaceholderCons('{', "}" + rest);
        assert "{}" + rest == ['{'] + (['}'] + rest);
      } else {
        var rest := SearchHrefSpec(s[1..]);
        SearchHrefSpecHasNoPlaceholder(s[1..]);
        if s[0] == '{' || s[0] == '}' {
          ContainsPlaceholderCons(s[0], rest);
          ContainsPlaceholderCons(s[0], [s[0]] + rest);
          assert EscapeChar(s[0]) + rest == [s[0]] + ([s[0]] + rest);
        } else {
          ContainsPlaceholderCons(s[0], rest);
          assert EscapeChar(s[0]) + rest == [s[0]] + rest;
        }
      }
    }
  }

  /** A transformed search href holds no `%s` any more. */
  lemma SearchHrefLeavesNoPlaceholder(href: string)
    ensures !Contains(SearchHref(href), "%s")
  {
    SearchHrefMeaning(href);
    SearchHrefSpecHasNoPlaceholder(href);
  }

  /** A prefix without braces or `%` passes through the transform as it is. */
  lemma {:induction false} SearchHrefSpecPlain(s: string, rest: string)
    requires forall i :: 0 <= i < |s| ==> s[i] != '{' && s[i] != '}' && s[i] != '%'
    ensures SearchHrefSpec(s + rest) == s + SearchHrefSpec(rest)
    decreases |s|
  {
    if s != "" {
      assert s + rest == [s[0]] + (s[1..] + rest);
      SearchHrefSpecCons(s[0], s[1..] + rest);
      SearchHrefSpecPlain(s[1..], rest);
      assert s == [s[0]] + s[1..];
    } else {
      assert s + rest == rest;
    }
  }

  /** A URL without braces or `%` ending in `%s` keeps its text and gets
      the placeholder in place of the `%s`. */
  lemma SearchHrefTrailingPlaceholder(s: string)
    requires forall i :: 0 <= i < |s| ==> s[i] != '{' && s[i] != '}' && s[i] != '%'
    ensures SearchHref(s + "%s") == s + "{}"
  {
    SearchHrefMeaning(s + "%s");
    SearchHrefSpecPlain(s, "%s");
    SearchHrefSpecPercent("");
    assert "%s" + "" == "%s" && "{}" + "" == "{}";
  }
}
