/** The output formats and the `output_template` table, with templates held
    as data: a sequence of literal text and the three fields a template can
    substitute. */
module Templates {
  import opened Wrappers
  import opened Bookmarks

  /** The output formats. */
  datatype OutputFormat = SearchFormat | OldSearch | BookmarkFormat | Quickmark

  /** One piece of a format string: literal text, `{tag[href]}`,
      `{tag[shortcuturl]}` or `{tag.string}`. */
  datatype Piece = Lit(text: string) | HrefField | ShortcutField | StringField

  type Template = seq<Piece>

  /** `output_template[fmt][t]`, None where the table has no entry. */
  function OutputTemplate(fmt: OutputFormat, t: BookmarkType): Option<Template>
  {
    match (fmt, t)
    case (SearchFormat, Search) =>
      Some([Lit("c.url.searchengines['"), ShortcutField, Lit("'] = '"), HrefField, Lit("' #"), StringField])
    case (OldSearch, Search) =>
      Some([ShortcutField, Lit(" = "), HrefField, Lit(" #"), StringField])
    case (BookmarkFormat, Bookmark) => Some([HrefField, Lit(" "), StringField])
    case (BookmarkFormat, Keyword) => Some([HrefField, Lit(" "), StringField])
    case (Quickmark, Bookmark) => Some([StringField, Lit(" "), HrefField])
    case (Quickmark, Keyword) => Some([ShortcutField, Lit(" "), HrefField])
    case _ => None
  }

  /** `str(tag.string)`: the content, or the text `None` when it is absent. */
  function StringText(s: Option<string>): string
  {
    match s
    case Some(v) => v
    case None => "None"
  }

  /** The text one piece contributes, or the KeyError of its lookup. */
  function PieceText(p: Piece, a: Anchor): Result<string, KeyError>
  {
    match p
    case Lit(text) => Success(text)
    case HrefField => Attr(a, "href")
    case ShortcutField => Attr(a, "shortcuturl")
    case StringField => Success(StringText(a.str))
  }

  /** The attributes a template looks up. */
  predicate Needs(tpl: Template, key: string)
  {
    (key == "href" && HrefField in tpl) || (key == "shortcuturl" && ShortcutField in tpl)
  }

  /** `tpl.format(tag=a)`. */
  function Render(tpl: Template, a: Anchor): (r: Result<string, KeyError>)
    ensures r.Failure? <==> exists key :: Needs(tpl, key) && key !in a.attrs
    decreases |tpl|
  {
    if tpl == [] then Success("")
    else
      match PieceText(tpl[0], a)
      case Failure(e) => Failure(e)
      case Success(head) =>
        match Render(tpl[1..], a)
        case Failure(e) =>
          assert forall key :: Needs(tpl[1..], key) ==> Needs(tpl, key);
          Failure(e)
        case Success(tail) =>
          assert forall key :: Needs(tpl, key) ==> tpl[0] == HrefField || tpl[0] == ShortcutField || Needs(tpl[1..], key);
          Success(head + tail)
  }

  /** The table holds a template exactly for the pairs the importer is meant
      to produce: search types with the two search formats, plain bookmarks
      and keywords with the bookmark and quickmark formats. */
  lemma TemplateDomain(fmt: OutputFormat, t: BookmarkType)
    ensures OutputTemplate(fmt, t).Some? <==>
              (t == Search <==> (fmt == SearchFormat || fmt == OldSearch))
  {
  }

  /** Rendering a piece followed by the rest of a template. */
  lemma RenderCons(p: Piece, rest: Template, a: Anchor, x: string, y: string)
    requires PieceText(p, a) == Success(x) && Render(rest, a) == Success(y)
    ensures Render([p] + rest, a) == Success(x + y)
  {
    assert ([p] + rest)[0] == p;
    assert ([p] + rest)[1..] == rest;
  }

  /** Rendering a template of three pieces that all succeed. */
  lemma RenderThree(p: Piece, q: Piece, u: Piece, a: Anchor, x: string, y: string, z: string)
    requires PieceText(p, a) == Success(x) && PieceText(q, a) == Success(y) && PieceText(u, a) == Success(z)
    ensures Render([p, q, u], a) == Success(x + y + z)
  {
    RenderCons(u, [], a, z, "");
    assert [u] + [] == [u];
    assert z + "" == z;
    RenderCons(q, [u], a, y, z);
    assert [q] + [u] == [q, u];
    RenderCons(p, [q, u], a, x, y + z);
    assert [p] + [q, u] == [p, q, u];
    assert x + (y + z) == x + y + z;
  }

  /** The quickmark lines: `text href` for a bookmark, `shortcut href`
      for a keyword. */
  lemma QuickmarkLines(a: Anchor)
    requires "href" in a.attrs
    ensures Render(OutputTemplate(Quickmark, Bookmark).value, a) == Success(StringText(a.str) + " " + a.attrs["href"])
    ensures "shortcuturl" in a.attrs ==>
              Render(OutputTemplate(Quickmark, Keyword).value, a) == Success(a.attrs["shortcuturl"] + " " + a.attrs["href"])
  {
    RenderThree(StringField, Lit(" "), HrefField, a, StringText(a.str), " ", a.attrs["href"]);
    if "shortcuturl" in a.attrs {
      RenderThree(ShortcutField, Lit(" "), HrefField, a, a.attrs["shortcuturl"], " ", a.attrs["href"]);
    }
  }

  /** The bookmark-format lines: `href text` for both types. */
  lemma BookmarkLines(a: Anchor)
    requires "href" in a.attrs
    ensures Render(OutputTemplate(BookmarkFormat, Bookmark).value, a) == Success(a.attrs["href"] + " " + StringText(a.str))
    ensures Render(OutputTemplate(BookmarkFormat, Keyword).value, a) == Success(a.attrs["href"] + " " + StringText(a.str))
  {
    RenderThree(HrefField, Lit(" "), StringField, a, a.attrs["href"], " ", StringText(a.str));
  }

  /** The two search-engine lines. */
  lemma SearchLines(a: Anchor)
    requires "href" in a.attrs && "shortcuturl" in a.attrs
    ensures var h, s, text := a.attrs["href"], a.attrs["shortcuturl"], StringText(a.str);
            && Render(OutputTemplate(SearchFormat, Search).value, a)
               == Success("c.url.searchengines['" + s + "'] = '" + h + "' #" + text)
            && Render(OutputTemplate(OldSearch, Search).value, a) == Success(s + " = " + h + " #" + text)
  {
    SearchFormatLine(a);
    OldSearchLine(a);
  }

  lemma SearchFormatLine(a: Anchor)
    requires "href" in a.attrs && "shortcuturl" in a.attrs
    ensures var h, s, text := a.attrs["href"], a.attrs["shortcuturl"], StringText(a.str);
            Render(OutputTemplate(SearchFormat, Search).value, a)
            == Success("c.url.searchengines['" + s + "'] = '" + h + "' #" + text)
  {
    var h, s, text := a.attrs["href"], a.attrs["shortcuturl"], StringText(a.str);
    RenderThree(HrefField, Lit("' #"), StringField, a, h, "' #", text);
    var tail := [HrefField, Lit("' #"), StringField];
    var t1 := h + "' #" + text;
    RenderCons(Lit("'] = '"), tail, a, "'] = '", t1);
    var t2 := "'] = '" + t1;
    RenderCons(ShortcutField, [Lit("'] = '")] + tail, a, s, t2);
    var t3 := s + t2;
    RenderCons(Lit("c.url.searchengines['"), [ShortcutField] + ([Lit("'] = '")] + tail), a,
               "c.url.searchengines['", t3);
    assert "c.url.searchengines['" + t3 == "c.url.searchengines['" + s + "'] = '" + h + "' #" + text;
    assert [Lit("c.url.searchengines['")] + ([ShortcutField] + ([Lit("'] = '")] + tail))
        == OutputTemplate(SearchFormat, Search).value;
  }

  lemma OldSearchLine(a: Anchor)
    requires "href" in a.attrs && "shortcuturl" in a.attrs
    ensures var h, s, text := a.attrs["href"], a.attrs["shortcuturl"], StringText(a.str);
            Render(OutputTemplate(OldSearch, Search).value, a) == Success(s + " = " + h + " #" + text)
  {
    var h, s, text := a.attrs["href"], a.attrs["shortcuturl"], StringText(a.str);
    RenderThree(HrefField, Lit(" #"), StringField, a, h, " #", text);
    var tail := [HrefField, Lit(" #"), StringField];
    var t1 := h + " #" + text;
    RenderCons(Lit(" = "), tail, a, " = ", t1);
    var t2 := " = " + t1;
    RenderCons(ShortcutField, [Lit(" = ")] + tail, a, s, t2);
    assert s + t2 == s + " = " + h + " #" + text;
    assert [ShortcutField] + ([Lit(" = ")] + tail) == OutputTemplate(OldSearch, Search).value;
  }

  /** Every entry of the table renders as the documented line. */
  lemma RenderedLines(a: Anchor)
    requires "href" in a.attrs
    ensures var h, text := a.attrs["href"], StringText(a.str);
            && Render(OutputTemplate(Quickmark, Bookmark).value, a) == Success(text + " " + h)
            && Render(OutputTemplate(BookmarkFormat, Bookmark).value, a) == Success(h + " " + text)
            && Render(OutputTemplate(BookmarkFormat, Keyword).value, a) == Success(h + " " + text)
    ensures "shortcuturl" in a.attrs ==>
              var h, s, text := a.attrs["href"], a.attrs["shortcuturl"], StringText(a.str);
              && Render(OutputTemplate(Quickmark, Keyword).value, a) == Success(s + " " + h)
              && Render(OutputTemplate(SearchFormat, Search).value, a)
                 == Success("c.url.searchengines['" + s + "'] = '" + h + "' #" + text)
              && Render(OutputTemplate(OldSearch, Search).value, a) == Success(s + " = " + h + " #" + text)
  {
    QuickmarkLines(a);
    BookmarkLines(a);
    if "shortcuturl" in a.attrs {
      SearchLines(a);
    }
  }
}
