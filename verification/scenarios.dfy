/** A small bookmark document: a plain bookmark, a search engine and a
    keyword, and how the three queries classify them. */
module SampleDocument {
  import opened Wrappers
  import opened Strings
  import opened Bookmarks

  /** `<a href="a.com">Site A</a>` */
  const SiteA := Anchor("a", map["href" := "a.com"], Some("Site A"))
  /** `<a href="b.com/%s" shortcuturl="b">B</a>` */
  const EngineB := Anchor("a", map["href" := "b.com/%s", "shortcuturl" := "b"], Some("B"))
  /** `<a href="c.com" shortcuturl="c">C</a>` */
  const KeywordC := Anchor("a", map["href" := "c.com", "shortcuturl" := "c"], Some("C"))

  const Sample := [SiteA, EngineB, KeywordC]

  lemma EngineQueries()
    ensures Query(Search, EngineB) == Success(true) && Query(Keyword, EngineB) == Success(false)
    ensures Query(Bookmark, EngineB) == Success(false)
  {
    OccursImpliesContains("b.com/%s", "%s", 6);
  }

  lemma KeywordQueries()
    ensures Query(Search, KeywordC) == Success(false) && Query(Keyword, KeywordC) == Success(true)
    ensures Query(Bookmark, KeywordC) == Success(false)
  {
    assert !Contains(KeywordC.attrs["href"], "%s") by {
      AbsentFirstChar("c.com", "%s");
    }
  }

  lemma SiteQueries()
    ensures Query(Search, SiteA) == Success(false) && Query(Keyword, SiteA) == Success(false)
    ensures Query(Bookmark, SiteA) == Success(true)
  {
  }
}

/** Whole runs on the small document: the documented end-to-end scenarios
    and the input that shows the duplicate check comparing hrefs with
    rendered lines. */
module Scenarios {
  import opened Wrappers
  import opened Escape
  import opened Bookmarks
  import opened Templates
  import opened Importer
  import opened Dedup
  import opened SampleDocument

  /** The filter over three elements whose queries answer `mx`, `my`, `mz`. */
  lemma SelectionOfThree(x: Anchor, y: Anchor, z: Anchor, t: BookmarkType, mx: bool, my: bool, mz: bool)
    requires Matches(t, x) == mx && Matches(t, y) == my && Matches(t, z) == mz
    ensures Selection([x, y, z], t)
            == (if mx then [x] else []) + (if my then [y] else []) + (if mz then [z] else [])
  {
    var s := [x, y, z];
    assert s[1..] == [y, z] && s[1..][1..] == [z] && s[1..][1..][1..] == [];
    var sx: seq<Anchor>, sy: seq<Anchor>, sz: seq<Anchor> :=
      if mx then [x] else [], if my then [y] else [], if mz then [z] else [];
    assert Selection([z], t) == sz + [] == sz;
    assert Selection([y, z], t) == sy + sz;
    assert Selection(s, t) == sx + (sy + sz) == sx + sy + sz;
  }

  /** `findAll` over three elements whose queries all answer. */
  lemma FindAllOfThree(x: Anchor, y: Anchor, z: Anchor, t: BookmarkType, mx: bool, my: bool, mz: bool)
    requires Query(t, x) == Success(mx) && Query(t, y) == Success(my) && Query(t, z) == Success(mz)
    ensures FindAll([x, y, z], t)
            == Success((if mx then [x] else []) + (if my then [y] else []) + (if mz then [z] else []))
  {
    SelectionOfThree(x, y, z, t, mx, my, mz);
    var s := [x, y, z];
    assert s[0] == x && s[1] == y && s[2] == z;
    FindAllIsSelection(s, t);
  }

  /** The three queries on the sample: each anchor is selected by its own
      type only. */
  lemma SampleQueries(t: BookmarkType)
    ensures Query(t, SiteA) == Success(t == Bookmark)
    ensures Query(t, EngineB) == Success(t == Search)
    ensures Query(t, KeywordC) == Success(t == Keyword)
  {
    SiteQueries();
    EngineQueries();
    KeywordQueries();
  }

  lemma SampleBookmarks()
    ensures FindAll(Sample, Bookmark) == Success([SiteA])
  {
    SampleQueries(Bookmark);
    FindAllOfThree(SiteA, EngineB, KeywordC, Bookmark, true, false, false);
    var one: seq<Anchor>, none: seq<Anchor> := [SiteA], [];
    assert one + none + none == one;
  }

  lemma SampleKeywords()
    ensures FindAll(Sample, Keyword) == Success([KeywordC])
  {
    SampleQueries(Keyword);
    FindAllOfThree(SiteA, EngineB, KeywordC, Keyword, false, false, true);
    var one: seq<Anchor>, none: seq<Anchor> := [KeywordC], [];
    assert none + none + one == one;
  }

  lemma SampleSearches()
    ensures FindAll(Sample, Search) == Success([EngineB])
  {
    SampleQueries(Search);
    FindAllOfThree(SiteA, EngineB, KeywordC, Search, false, true, false);
    var one: seq<Anchor>, none: seq<Anchor> := [EngineB], [];
    assert none + one + none == one;
  }

  lemma EmitOne(lines: seq<string>, e: Entry, fmt: OutputFormat, line: string)
    requires "href" in e.tag.attrs && e.tag.attrs["href"] !in lines
    requires RenderEntry(fmt, e) == Success(line)
    ensures Emit(lines, [e], fmt) == Success(lines + [line])
  {
    assert [e][1..] == [];
  }

  /** A quickmark line, given the text that the anchor's fields make up. */
  lemma QuickmarkLine(e: Entry, line: string)
    requires "href" in e.tag.attrs
    requires e.typ == Bookmark ==> StringText(e.tag.str) + " " + e.tag.attrs["href"] == line
    requires e.typ == Keyword ==> "shortcuturl" in e.tag.attrs && e.tag.attrs["shortcuturl"] + " " + e.tag.attrs["href"] == line
    requires e.typ != Search
    ensures RenderEntry(Quickmark, e) == Success(line)
  {
    QuickmarkLines(e.tag);
  }

  lemma SiteALine()
    ensures RenderEntry(Quickmark, Entry(Bookmark, SiteA)) == Success("Site A a.com")
  {
    assert "Site A" + " " + "a.com" == "Site A a.com";
    QuickmarkLine(Entry(Bookmark, SiteA), "Site A a.com");
  }

  lemma KeywordCLine()
    ensures RenderEntry(Quickmark, Entry(Keyword, KeywordC)) == Success("c c.com")
  {
    assert "c" + " " + "c.com" == "c c.com";
    QuickmarkLine(Entry(Keyword, KeywordC), "c c.com");
  }

  /** Plain bookmarks and keywords in quickmark format: the search engine
      is left out, and the lines are `text href` and `shortcut href`. */
  lemma QuickmarkScenario()
    ensures ImportNetscapeBookmarks(Sample, [Bookmark, Keyword], Quickmark)
            == Success(["Site A a.com", "c c.com"])
  {
    SampleBookmarks();
    SampleKeywords();
    SiteALine();
    KeywordCLine();
    var first := ["Site A a.com"];
    var both := first + ["c c.com"];
    assert Pass(Sample, Bookmark) == Success(([SiteA], Sample));
    assert Pass(Sample, Keyword) == Success(([KeywordC], Sample));
    assert Tagged(Bookmark, [SiteA]) == [Entry(Bookmark, SiteA)];
    EmitOne([], Entry(Bookmark, SiteA), Quickmark, "Site A a.com");
    assert [] + first == first;
    assert Tagged(Keyword, [KeywordC]) == [Entry(Keyword, KeywordC)];
    EmitOne(first, Entry(Keyword, KeywordC), Quickmark, "c c.com");
    assert [Keyword][1..] == [];
    assert Run(Sample, [], Quickmark, both) == Success(both);
    assert Run(Sample, [Keyword], Quickmark, first) == Success(both);
    assert [Bookmark, Keyword][1..] == [Keyword];
    assert both == ["Site A a.com", "c c.com"];
  }

  /** The search engine's href after escaping. */
  lemma EngineHref()
    ensures SearchHref("b.com/%s") == "b.com/{}"
  {
    var u := "b.com/";
    assert forall i :: 0 <= i < |u| ==> u[i] != '{' && u[i] != '}' && u[i] != '%';
    SearchHrefTrailingPlaceholder(u);
    assert u + "%s" == "b.com/%s";
    assert u + "{}" == "b.com/{}";
  }

  lemma EscapedEngine()
    ensures EscapeHref(EngineB).attrs["href"] == "b.com/{}"
    ensures EscapeHref(EngineB).attrs["shortcuturl"] == "b"
    ensures StringText(EscapeHref(EngineB).str) == "B"
  {
    EngineHref();
  }

  lemma EngineLine(escaped: Anchor)
    requires "href" in escaped.attrs && escaped.attrs["href"] == "b.com/{}"
    requires "shortcuturl" in escaped.attrs && escaped.attrs["shortcuturl"] == "b"
    requires StringText(escaped.str) == "B"
    ensures RenderEntry(SearchFormat, Entry(Search, escaped))
            == Success("c.url.searchengines['b'] = 'b.com/{}' #B")
  {
    SearchLines(escaped);
    EngineLineText();
  }

  lemma EngineLineText()
    ensures "c.url.searchengines['" + "b" + "'] = '" + "b.com/{}" + "' #" + "B"
            == "c.url.searchengines['b'] = 'b.com/{}' #B"
  {
  }

  /** A run of one type is its one pass. */
  lemma RunOfOne(doc: seq<Anchor>, t: BookmarkType, fmt: OutputFormat, tags: seq<Anchor>, after: seq<Anchor>,
                 out: seq<string>)
    requires Pass(doc, t) == Success((tags, after))
    requires Emit([], Tagged(t, tags), fmt) == Success(out)
    ensures ImportNetscapeBookmarks(doc, [t], fmt) == Success(out)
  {
    assert [t][1..] == [];
    assert Run(after, [], fmt, out) == Success(out);
    assert Run(doc, [t], fmt, []) == Run(after, [], fmt, out);
  }

  /** Search engines in the config.py format: one line, with the `%s`
      replaced by `{}`. */
  lemma SearchScenario()
    ensures ImportNetscapeBookmarks(Sample, [Search], SearchFormat)
            == Success(["c.url.searchengines['b'] = 'b.com/{}' #B"])
  {
    var line := "c.url.searchengines['b'] = 'b.com/{}' #B";
    SampleSearches();
    var escaped := EscapeHref(EngineB);
    EscapedEngine();
    EngineLine(escaped);
    assert EscapeAll([EngineB]) == [escaped];
    assert Pass(Sample, Search) == Success(([escaped], MarkSearch(Sample)));
    assert Tagged(Search, [escaped]) == [Entry(Search, escaped)];
    EmitOne([], Entry(Search, escaped), SearchFormat, line);
    assert [] + [line] == [line];
    RunOfOne(Sample, Search, SearchFormat, [escaped], MarkSearch(Sample), [line]);
  }

  /** The same bookmark listed twice. */
  const Twice := [SiteA, SiteA]

  lemma TwiceCandidates()
    ensures Pass(Twice, Bookmark) == Success(([SiteA, SiteA], Twice))
    ensures Tagged(Bookmark, [SiteA, SiteA]) == [Entry(Bookmark, SiteA), Entry(Bookmark, SiteA)]
    ensures Candidates(Twice, [Bookmark]) == Success([Entry(Bookmark, SiteA), Entry(Bookmark, SiteA)])
  {
    SiteQueries();
    assert Twice[1..] == [SiteA] && Twice[1..][1..] == [];
    assert Selection([SiteA], Bookmark) == [SiteA] + [] == [SiteA];
    assert Selection(Twice, Bookmark) == [SiteA] + [SiteA] == Twice;
    FindAllIsSelection(Twice, Bookmark);
    var entries := [Entry(Bookmark, SiteA), Entry(Bookmark, SiteA)];
    assert Tagged(Bookmark, [SiteA, SiteA]) == entries;
    assert Candidates(Twice, []) == Success([]);
    assert entries + [] == entries;
  }

  /** As written, an entry repeated after itself is printed again as long
      as its href differs from its own line. */
  lemma EmitTwins(e: Entry, fmt: OutputFormat, line: string)
    requires "href" in e.tag.attrs && e.tag.attrs["href"] != line
    requires RenderEntry(fmt, e) == Success(line)
    ensures Emit([], [e, e], fmt) == Success([line, line])
  {
    assert e.tag.attrs["href"] !in [line];
    EmitKeepStep([], [e, e], fmt);
    assert [] + [line] == [line];
    assert [e, e][1..] == [e];
    EmitOne([line], e, fmt, line);
    assert [line] + [line] == [line, line];
  }

  /** With the dedup by href, the repeat is skipped. */
  lemma EmitByHrefTwins(e: Entry, fmt: OutputFormat, line: string)
    requires "href" in e.tag.attrs
    requires RenderEntry(fmt, e) == Success(line)
    ensures EmitByHref({}, [], [e, e], fmt) == Success([line])
  {
    var h := e.tag.attrs["href"];
    assert [e, e][1..] == [e];
    assert [e][1..] == [];
    assert {} + {h} == {h};
    assert [] + [line] == [line];
    assert EmitByHref({h}, [line], [], fmt) == Success([line]);
    assert EmitByHref({h}, [line], [e], fmt) == Success([line]);
  }

  /** As written, both copies are printed: the href `a.com` is
      compared with the line `Site A a.com`, not with the href
      printed before. */
  lemma DuplicatePrintedTwice()
    ensures ImportNetscapeBookmarks(Twice, [Bookmark], Quickmark)
            == Success(["Site A a.com", "Site A a.com"])
  {
    TwiceCandidates();
    SiteALine();
    var e := Entry(Bookmark, SiteA);
    var line := "Site A a.com";
    assert SiteA.attrs["href"] == "a.com";
    assert |"a.com"| != |line|;
    EmitTwins(e, Quickmark, line);
    assert [Bookmark][1..] == [];
    assert Run(Twice, [], Quickmark, [line, line]) == Success([line, line]);
  }

  /** With the intended dedup the second copy is skipped. */
  lemma DuplicatePrintedOnce()
    ensures ImportDedupByHref(Twice, [Bookmark], Quickmark) == Success(["Site A a.com"])
  {
    TwiceCandidates();
    SiteALine();
    EmitByHrefTwins(Entry(Bookmark, SiteA), Quickmark, "Site A a.com");
  }
}
