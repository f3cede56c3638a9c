/** `import_netscape_bookmarks`: for each requested bookmark type, select the
    matching elements of the document, escape search hrefs in place, skip an
    element whose href is already one of the output lines, and render the
    rest through the output template. */
module Importer {
  import opened Wrappers
  import opened Strings
  import opened Escape
  import opened Bookmarks
  import opened Templates

  /** `xs` is `ys` with some elements left out, order kept. */
  predicate Subsequence<T(==)>(xs: seq<T>, ys: seq<T>)
    decreases |ys|
  {
    xs == [] || (ys != [] && ((xs[0] == ys[0] && Subsequence(xs[1..], ys[1..])) || Subsequence(xs, ys[1..])))
  }

  /** `soup.findAll(bookmark_query[t])`: the selected elements in document
      order; the first element whose query raises aborts the search. */
  function FindAll(doc: seq<Anchor>, t: BookmarkType): (r: Result<seq<Anchor>, KeyError>)
    ensures r.Success? <==> forall i :: 0 <= i < |doc| ==> Query(t, doc[i]).Success?
    ensures r.Success? ==> Subsequence(r.value, doc)
    ensures r.Success? ==> forall a :: a in r.value <==> a in doc && Matches(t, a)
    decreases |doc|
  {
    if doc == [] then Success([])
    else
      match Query(t, doc[0])
      case Failure(e) => Failure(e)
      case Success(m) =>
        match FindAll(doc[1..], t)
        case Failure(e) =>
          assert forall i :: 1 <= i < |doc| ==> doc[1..][i - 1] == doc[i];
          Failure(e)
        case Success(rest) =>
          assert forall i :: 1 <= i < |doc| ==> doc[1..][i - 1] == doc[i];
          assert forall a :: a in doc <==> a == doc[0] || a in doc[1..];
          if m then
            assert ([doc[0]] + rest)[1..] == rest;
            Success([doc[0]] + rest)
          else Success(rest)
  }

  /** The elements of `doc` that the query for `t` selects, in order: a
      filter that ignores query failures. */
  function Selection(doc: seq<Anchor>, t: BookmarkType): seq<Anchor>
    decreases |doc|
  {
    if doc == [] then []
    else (if Matches(t, doc[0]) then [doc[0]] else []) + Selection(doc[1..], t)
  }

  /** When no query fails, `findAll` is exactly the filter. */
  lemma {:induction false} FindAllIsSelection(doc: seq<Anchor>, t: BookmarkType)
    ensures FindAll(doc, t).Success? ==> FindAll(doc, t).value == Selection(doc, t)
    decreases |doc|
  {
    if doc != [] && FindAll(doc, t).Success? {
      FindAllIsSelection(doc[1..], t);
      assert [] + Selection(doc[1..], t) == Selection(doc[1..], t);
    }
  }

  /** The element after `tag['href'] = search_escape(tag['href']).replace('%s', '{}')`. */
  function EscapeHref(a: Anchor): (r: Anchor)
    requires "href" in a.attrs
    ensures r.name == a.name && r.str == a.str && r.attrs.Keys == a.attrs.Keys
    ensures forall key :: key in a.attrs && key != "href" ==> r.attrs[key] == a.attrs[key]
    ensures r.attrs["href"] == SearchHref(a.attrs["href"])
  {
    a.(attrs := a.attrs["href" := SearchHref(a.attrs["href"])])
  }

  /** The document after a search pass: every selected search element has had
      its href escaped in place, every other element is untouched. */
  function MarkSearch(doc: seq<Anchor>): (r: seq<Anchor>)
    ensures |r| == |doc|
  {
    seq(|doc|, i requires 0 <= i < |doc| => if Matches(Search, doc[i]) then EscapeHref(doc[i]) else doc[i])
  }

  /** The selected search elements as rendered, hrefs escaped. */
  function EscapeAll(tags: seq<Anchor>): (r: seq<Anchor>)
    requires forall i :: 0 <= i < |tags| ==> "href" in tags[i].attrs
    ensures |r| == |tags|
  {
    seq(|tags|, i requires 0 <= i < |tags| => EscapeHref(tags[i]))
  }

  /** One iteration of the outer loop up to rendering: the elements to
      render, as they are when rendered, and the document as the iteration
      leaves it. */
  function Pass(doc: seq<Anchor>, t: BookmarkType): Result<(seq<Anchor>, seq<Anchor>), KeyError>
  {
    match FindAll(doc, t)
    case Failure(e) => Failure(e)
    case Success(tags) =>
      if t == Search then
        assert forall i :: 0 <= i < |tags| ==> tags[i] in tags;
        Success((EscapeAll(tags), MarkSearch(doc)))
      else Success((tags, doc))
  }

  /** An element to be rendered together with the type it was selected for. */
  datatype Entry = Entry(typ: BookmarkType, tag: Anchor)

  function Tagged(t: BookmarkType, tags: seq<Anchor>): (r: seq<Entry>)
    ensures |r| == |tags|
  {
    seq(|tags|, i requires 0 <= i < |tags| => Entry(t, tags[i]))
  }

  /** `output_template[fmt][typ].format(tag=tag)`; a missing table entry is a
      KeyError naming the type. */
  function RenderEntry(fmt: OutputFormat, e: Entry): Result<string, KeyError>
  {
    match OutputTemplate(fmt, e.typ)
    case None => Failure(KeyError(TypeKey(e.typ)))
    case Some(tpl) => Render(tpl, e.tag)
  }

  /** The inner loop's dedup and rendering over `entries`, starting from the
      output lines `lines`. As in the code, an entry is skipped when its href
      equals one of the lines already produced. */
  function Emit(lines: seq<string>, entries: seq<Entry>, fmt: OutputFormat): (r: Result<seq<string>, KeyError>)
    ensures r.Success? ==> |lines| <= |r.value| <= |lines| + |entries| && r.value[..|lines|] == lines
    decreases |entries|
  {
    if entries == [] then Success(lines)
    else
      match Attr(entries[0].tag, "href")
      case Failure(e) => Failure(e)
      case Success(href) =>
        if href in lines then Emit(lines, entries[1..], fmt)
        else
          match RenderEntry(fmt, entries[0])
          case Failure(e) => Failure(e)
          case Success(line) =>
            var r := Emit(lines + [line], entries[1..], fmt);
            assert r.Success? ==> r.value[..|lines|] == r.value[..|lines| + 1][..|lines|];
            r
  }

  /** The outer loop over the requested types, from the document `doc` and
      the lines `lines` produced so far. */
  function Run(doc: seq<Anchor>, types: seq<BookmarkType>, fmt: OutputFormat, lines: seq<string>): Result<seq<string>, KeyError>
    decreases |types|
  {
    if types == [] then Success(lines)
    else
      match Pass(doc, types[0])
      case Failure(e) => Failure(e)
      case Success((tags, doc')) =>
        match Emit(lines, Tagged(types[0], tags), fmt)
        case Failure(e) => Failure(e)
        case Success(lines') => Run(doc', types[1..], fmt, lines')
  }

  /** `import_netscape_bookmarks(doc, types, fmt)`: the lines it prints, or
      the KeyError that aborts it. */
  function ImportNetscapeBookmarks(doc: seq<Anchor>, types: seq<BookmarkType>, fmt: OutputFormat): Result<seq<string>, KeyError>
  {
    Run(doc, types, fmt, [])
  }

  /** The importer's two nested loops, written as loops: the outer loop over
      the requested types, here; the inner one over the selected elements in
      `EmitLoop`. */
  method ImportLoop(doc0: seq<Anchor>, types: seq<BookmarkType>, fmt: OutputFormat)
    returns (r: Result<seq<string>, KeyError>)
    ensures r == ImportNetscapeBookmarks(doc0, types, fmt)
  {
    var doc := doc0;
    var bookmarks: seq<string> := [];
    var k := 0;
    while k < |types|
      invariant 0 <= k <= |types|
      invariant Run(doc0, types, fmt, []) == Run(doc, types[k..], fmt, bookmarks)
    {
      var typ := types[k];
      assert types[k..][1..] == types[k + 1..];
      var found := FindAll(doc, typ);
      if found.Failure? {
        return Failure(found.error);
      }
      var tags := found.value;
      assert forall i :: 0 <= i < |tags| ==> tags[i] in tags;
      var emitted := EmitLoop(bookmarks, typ, tags, fmt);
      if emitted.Failure? {
        return Failure(emitted.error);
      }
      bookmarks := emitted.value;
      if typ == Search {
        doc := MarkSearch(doc);
      }
      k := k + 1;
    }
    return Success(bookmarks);
  }

  /** The inner loop over the elements `tags` selected for `typ`: escape a
      search element's href in place, skip it when its href is already an
      output line, render it otherwise. */
  method EmitLoop(start: seq<string>, typ: BookmarkType, tags: seq<Anchor>, fmt: OutputFormat)
    returns (r: Result<seq<string>, KeyError>)
    requires typ == Search ==> forall i :: 0 <= i < |tags| ==> "href" in tags[i].attrs
    ensures r == Emit(start, Tagged(typ, if typ == Search then EscapeAll(tags) else tags), fmt)
  {
    var entries := Tagged(typ, if typ == Search then EscapeAll(tags) else tags);
    var bookmarks := start;
    var j := 0;
    while j < |tags|
      invariant 0 <= j <= |tags|
      invariant Emit(start, entries, fmt) == Emit(bookmarks, entries[j..], fmt)
    {
      var tag := tags[j];
      if typ == Search {
        tag := EscapeHref(tag);
      }
      assert entries[j] == Entry(typ, tag);
      assert entries[j..][1..] == entries[j + 1..];
      var href := Attr(tag, "href");
      if href.Failure? {
        return Failure(href.error);
      }
      if href.value !in bookmarks {
        var line := RenderEntry(fmt, Entry(typ, tag));
        if line.Failure? {
          return Failure(line.error);
        }
        bookmarks := bookmarks + [line.value];
      }
      j := j + 1;
    }
    return Success(bookmarks);
  }

  /** Everything the run would render if nothing were skipped: for each
      requested type in order, the elements selected for it in document
      order, each tagged with the type. It does not depend on the output
      format. */
  function Candidates(doc: seq<Anchor>, types: seq<BookmarkType>): Result<seq<Entry>, KeyError>
    decreases |types|
  {
    if types == [] then Success([])
    else
      match Pass(doc, types[0])
      case Failure(e) => Failure(e)
      case Success((tags, doc')) =>
        match Candidates(doc', types[1..])
        case Failure(e) => Failure(e)
        case Success(rest) => Success(Tagged(types[0], tags) + rest)
  }

  /** Emitting two runs of entries one after the other. */
  lemma {:induction false} EmitAppend(lines: seq<string>, xs: seq<Entry>, ys: seq<Entry>, fmt: OutputFormat)
    ensures Emit(lines, xs + ys, fmt) ==
              match Emit(lines, xs, fmt)
              case Failure(e) => Failure(e)
              case Success(mid) => Emit(mid, ys, fmt)
    decreases |xs|
  {
    if xs == [] {
      assert xs + ys == ys;
    } else {
      assert (xs + ys)[0] == xs[0];
      assert (xs + ys)[1..] == xs[1..] + ys;
      match Attr(xs[0].tag, "href")
      case Failure(_) =>
      case Success(href) =>
        if href in lines {
          EmitAppend(lines, xs[1..], ys, fmt);
        } else if RenderEntry(fmt, xs[0]).Success? {
          EmitAppend(lines + [RenderEntry(fmt, xs[0]).value], xs[1..], ys, fmt);
        }
    }
  }

  /** The run's output is the dedup-and-render of its candidates, grouped by
      type in the requested order and in document order within a type. The
      run succeeds exactly when selecting the candidates and rendering them
      both succeed. */
  lemma {:induction false} RunIsEmitOfCandidates(doc: seq<Anchor>, types: seq<BookmarkType>, fmt: OutputFormat, lines: seq<string>)
    ensures Run(doc, types, fmt, lines).Success? <==>
              Candidates(doc, types).Success? && Emit(lines, Candidates(doc, types).value, fmt).Success?
    ensures Run(doc, types, fmt, lines).Success? ==>
              Run(doc, types, fmt, lines) == Emit(lines, Candidates(doc, types).value, fmt)
    decreases |types|
  {
    if types != [] {
      match Pass(doc, types[0])
      case Failure(_) =>
      case Success((tags, doc')) =>
        var here := Tagged(types[0], tags);
        match Emit(lines, here, fmt)
        case Failure(_) =>
          if Candidates(doc', types[1..]).Success? {
            EmitAppend(lines, here, Candidates(doc', types[1..]).value, fmt);
          }
        case Success(mid) =>
          RunIsEmitOfCandidates(doc', types[1..], fmt, mid);
          if Candidates(doc', types[1..]).Success? {
            EmitAppend(lines, here, Candidates(doc', types[1..]).value, fmt);
          }
    }
  }

  /** An entry kept by the dedup: it has an href, that href is none of the
      lines produced `before` it, and it renders as `line`. */
  predicate Kept(e: Entry, before: seq<string>, line: string, fmt: OutputFormat)
  {
    "href" in e.tag.attrs && e.tag.attrs["href"] !in before && RenderEntry(fmt, e) == Success(line)
  }

  /** `kept` pairs off, one by one, with the output lines that follow
      `lines` in `out`. */
  predicate KeptLines(kept: seq<Entry>, lines: seq<string>, out: seq<string>, fmt: OutputFormat)
  {
    |lines| + |kept| == |out| &&
    forall k :: 0 <= k < |kept| ==> Kept(kept[k], out[..|lines| + k], out[|lines| + k], fmt)
  }

  lemma KeptLinesCons(e: Entry, rest: seq<Entry>, lines: seq<string>, line: string, out: seq<string>, fmt: OutputFormat)
    requires Kept(e, lines, line, fmt)
    requires |lines| < |out| && out[..|lines| + 1] == lines + [line]
    requires KeptLines(rest, lines + [line], out, fmt)
    ensures KeptLines([e] + rest, lines, out, fmt)
  {
    var n := |lines|;
    KeptLinesHead(e, lines, line, out, fmt);
    assert |lines + [line]| == n + 1;
    KeptLinesShift(e, rest, n, out, fmt);
    assert ([e] + rest)[0] == e;
  }

  lemma KeptLinesHead(e: Entry, lines: seq<string>, line: string, out: seq<string>, fmt: OutputFormat)
    requires Kept(e, lines, line, fmt)
    requires |lines| < |out| && out[..|lines| + 1] == lines + [line]
    ensures Kept(e, out[..|lines|], out[|lines|], fmt)
  {
    var n := |lines|;
    var pre := out[..n + 1];
    assert out[..n] == pre[..n] == lines;
  }

  /** The facts about `rest` carry over to `[e] + rest`, one position on. */
  lemma KeptLinesShift(e: Entry, rest: seq<Entry>, n: nat, out: seq<string>, fmt: OutputFormat)
    requires n + 1 + |rest| == |out|
    requires forall j :: 0 <= j < |rest| ==> Kept(rest[j], out[..n + 1 + j], out[n + 1 + j], fmt)
    ensures forall k :: 1 <= k < |[e] + rest| ==> Kept(([e] + rest)[k], out[..n + k], out[n + k], fmt)
  {
    forall k | 1 <= k < |[e] + rest|
      ensures ([e] + rest)[k] == rest[k - 1]
    {
    }
  }

  /** One step of the inner loop at entry `e`, reached when the first `m`
      lines of `out` are in place: the entry is skipped, adding no line,
      exactly when its href is one of those lines; otherwise its rendering
      is line `m` and the step ends with `m + 1` lines. */
  predicate EmitStep(e: Entry, out: seq<string>, m: nat, m': nat, fmt: OutputFormat)
  {
    && m <= |out|
    && "href" in e.tag.attrs
    && if e.tag.attrs["href"] in out[..m] then m' == m
       else m' == m + 1 <= |out| && RenderEntry(fmt, e) == Success(out[m])
  }

  /** `marks[i]` is the number of lines of `out` in place when the inner
      loop reaches entry `i`: it starts after `lines`, ends with all of
      `out`, and every entry takes one `EmitStep`. */
  predicate EmitTrace(lines: seq<string>, entries: seq<Entry>, out: seq<string>, fmt: OutputFormat, marks: seq<nat>)
  {
    && |marks| == |entries| + 1
    && marks[0] == |lines|
    && marks[|entries|] == |out|
    && forall i :: 0 <= i < |entries| ==> EmitStep(entries[i], out, marks[i], marks[i + 1], fmt)
  }

  /** A trace of the entries after the first extends to all of them. */
  lemma EmitTraceCons(lines: seq<string>, lines': seq<string>, entries: seq<Entry>, out: seq<string>,
                      fmt: OutputFormat, marks': seq<nat>)
    returns (marks: seq<nat>)
    requires entries != []
    requires EmitStep(entries[0], out, |lines|, |lines'|, fmt)
    requires EmitTrace(lines', entries[1..], out, fmt, marks')
    ensures EmitTrace(lines, entries, out, fmt, marks)
  {
    marks := [|lines|] + marks';
    forall i | 1 <= i < |entries|
      ensures entries[i] == entries[1..][i - 1] && marks[i] == marks'[i - 1] && marks[i + 1] == marks'[i]
    {
    }
  }

  /** Each new output line is the rendering of a candidate, the rendered
      candidates keep their order, and a candidate is only rendered when its
      href differs from every line produced before it. `marks` traces the
      loop: every candidate has an href, and it is skipped exactly when that
      href is among the lines produced before it. */
  lemma {:induction false} EmitSelects(lines: seq<string>, entries: seq<Entry>, fmt: OutputFormat)
    returns (kept: seq<Entry>, marks: seq<nat>)
    requires Emit(lines, entries, fmt).Success?
    ensures Subsequence(kept, entries)
    ensures KeptLines(kept, lines, Emit(lines, entries, fmt).value, fmt)
    ensures EmitTrace(lines, entries, Emit(lines, entries, fmt).value, fmt, marks)
    decreases |entries|
  {
    var out := Emit(lines, entries, fmt).value;
    if entries == [] {
      kept, marks := [], [|lines|];
    } else {
      var href := entries[0].tag.attrs["href"];
      assert out[..|lines|] == lines;
      if href in lines {
        var marks';
        kept, marks' := EmitSelects(lines, entries[1..], fmt);
        marks := EmitTraceCons(lines, lines, entries, out, fmt, marks');
      } else {
        var line := RenderEntry(fmt, entries[0]).value;
        var rest, marks' := EmitSelects(lines + [line], entries[1..], fmt);
        kept := [entries[0]] + rest;
        assert kept[1..] == rest;
        KeptLinesCons(entries[0], rest, lines, line, out, fmt);
        assert out[|lines|] == out[..|lines| + 1][|lines|];
        marks := EmitTraceCons(lines, lines + [line], entries, out, fmt, marks');
      }
    }
  }

  /** Once its href has been rewritten, a search element is no longer
      selected by the search query but by the keyword query: a later pass in
      the same run sees it as a keyword. */
  lemma EscapedSearchIsKeyword(a: Anchor)
    requires Matches(Search, a)
    ensures !Matches(Search, EscapeHref(a)) && Matches(Keyword, EscapeHref(a))
  {
    SearchHrefLeavesNoPlaceholder(a.attrs["href"]);
  }

  /** `a` would be selected for, or rendered as, type `t` but has no href,
      so the run raises KeyError('href') on it. */
  predicate LacksHref(a: Anchor, t: BookmarkType)
  {
    && a.name == "a"
    && "href" !in a.attrs
    && (if t == Bookmark then "shortcuturl" !in a.attrs && Truthy(a.str) else "shortcuturl" in a.attrs)
  }

  /** No element of `doc` lacks an href needed for type `t`. */
  predicate HrefsPresent(doc: seq<Anchor>, t: BookmarkType)
  {
    forall j :: 0 <= j < |doc| ==> !LacksHref(doc[j], t)
  }

  /** An entry whose rendering needs nothing but its href. */
  predicate RenderableWithHref(fmt: OutputFormat, e: Entry)
  {
    && OutputTemplate(fmt, e.typ).Some?
    && (e.typ != Bookmark ==> "shortcuturl" in e.tag.attrs)
  }

  lemma RenderEntrySucceeds(fmt: OutputFormat, e: Entry)
    requires RenderableWithHref(fmt, e) && "href" in e.tag.attrs
    ensures RenderEntry(fmt, e).Success?
  {
    var tpl := OutputTemplate(fmt, e.typ).value;
    if ShortcutField in tpl {
      assert e.typ != Bookmark;
    }
  }

  /** With every template available, emitting fails exactly when some entry
      has no href, and then with KeyError('href'). */
  lemma {:induction false} EmitSucceedsIff(lines: seq<string>, entries: seq<Entry>, fmt: OutputFormat)
    requires forall i :: 0 <= i < |entries| ==> RenderableWithHref(fmt, entries[i])
    ensures Emit(lines, entries, fmt).Success? <==> forall i :: 0 <= i < |entries| ==> "href" in entries[i].tag.attrs
    ensures Emit(lines, entries, fmt).Failure? ==> Emit(lines, entries, fmt).error == KeyError("href")
    decreases |entries|
  {
    if entries != [] {
      var rest := entries[1..];
      assert forall i :: 1 <= i < |entries| ==> rest[i - 1] == entries[i];
      if "href" in entries[0].tag.attrs {
        if entries[0].tag.attrs["href"] in lines {
          EmitSucceedsIff(lines, rest, fmt);
        } else {
          RenderEntrySucceeds(fmt, entries[0]);
          var line := RenderEntry(fmt, entries[0]).value;
          EmitSucceedsIff(lines + [line], rest, fmt);
        }
      }
    }
  }

  /** Rewriting search hrefs keeps every element's need for an href. */
  lemma MarkSearchKeepsHrefNeeds(doc: seq<Anchor>, t: BookmarkType)
    ensures HrefsPresent(MarkSearch(doc), t) <==> HrefsPresent(doc, t)
  {
    assert forall j :: 0 <= j < |doc| ==> LacksHref(MarkSearch(doc)[j], t) == LacksHref(doc[j], t);
  }

  /** One pass succeeds, rendering included, exactly when no element lacks
      an href the pass needs; its entries then all render. */
  lemma PassSucceedsIff(doc: seq<Anchor>, t: BookmarkType, fmt: OutputFormat, lines: seq<string>)
    requires OutputTemplate(fmt, t).Some?
    ensures (Pass(doc, t).Success? && Emit(lines, Tagged(t, Pass(doc, t).value.0), fmt).Success?)
            <==> HrefsPresent(doc, t)
    ensures Pass(doc, t).Failure? ==> Pass(doc, t).error == KeyError("href")
    ensures Pass(doc, t).Success? && Emit(lines, Tagged(t, Pass(doc, t).value.0), fmt).Failure? ==>
              Emit(lines, Tagged(t, Pass(doc, t).value.0), fmt).error == KeyError("href")
  {
    forall j | 0 <= j < |doc|
      ensures Query(t, doc[j]).Success? <==> (t == Bookmark || !LacksHref(doc[j], t))
    {
      QueryFailure(doc[j], t);
    }
    if !FindAll(doc, t).Success? {
      var j :| 0 <= j < |doc| && Query(t, doc[j]).Failure?;
      QueryFailure(doc[j], t);
      FindAllFirstFailure(doc, t);
    } else {
      var tags := FindAll(doc, t).value;
      var shown := Pass(doc, t).value.0;
      var entries := Tagged(t, shown);
      forall i | 0 <= i < |entries|
        ensures RenderableWithHref(fmt, entries[i])
        ensures "href" in entries[i].tag.attrs <==> "href" in tags[i].attrs
      {
        assert tags[i] in tags;
      }
      EmitSucceedsIff(lines, entries, fmt);
      if t == Bookmark {
        if HrefsPresent(doc, t) {
          forall i | 0 <= i < |tags|
            ensures "href" in tags[i].attrs
          {
            assert tags[i] in tags;
            var j :| 0 <= j < |doc| && doc[j] == tags[i];
          }
        } else {
          var j :| 0 <= j < |doc| && LacksHref(doc[j], t);
          assert doc[j] in tags;
          var i :| 0 <= i < |tags| && tags[i] == doc[j];
        }
      } else {
        forall i | 0 <= i < |tags|
          ensures "href" in tags[i].attrs
        {
          assert tags[i] in tags;
        }
      }
    }
  }

  /** The search aborts with the error of the first element whose query
      fails, and every query failure is KeyError('href'). */
  lemma {:induction false} FindAllFirstFailure(doc: seq<Anchor>, t: BookmarkType)
    ensures FindAll(doc, t).Failure? ==>
              exists i :: && 0 <= i < |doc|
                          && Query(t, doc[i]) == Failure(FindAll(doc, t).error)
                          && forall j :: 0 <= j < i ==> Query(t, doc[j]).Success?
    ensures FindAll(doc, t).Failure? ==> FindAll(doc, t).error == KeyError("href")
    decreases |doc|
  {
    if doc != [] {
      QueryFailure(doc[0], t);
      FindAllFirstFailure(doc[1..], t);
      if FindAll(doc, t).Failure? && Query(t, doc[0]).Success? {
        var i :| && 0 <= i < |doc[1..]|
                 && Query(t, doc[1..][i]) == Failure(FindAll(doc[1..], t).error)
                 && forall j :: 0 <= j < i ==> Query(t, doc[1..][j]).Success?;
        assert forall j :: 1 <= j <= i ==> doc[j] == doc[1..][j - 1];
        assert Query(t, doc[i + 1]) == Failure(FindAll(doc, t).error);
      }
    }
  }

  /** With a template for every requested type, the run fails exactly when
      some element lacks an href that a requested type needs, and the
      failure is then KeyError('href'). */
  lemma {:induction false} RunSucceedsIff(doc: seq<Anchor>, types: seq<BookmarkType>, fmt: OutputFormat, lines: seq<string>)
    requires forall i :: 0 <= i < |types| ==> OutputTemplate(fmt, types[i]).Some?
    ensures Run(doc, types, fmt, lines).Success? <==> forall i :: 0 <= i < |types| ==> HrefsPresent(doc, types[i])
    ensures Run(doc, types, fmt, lines).Failure? ==> Run(doc, types, fmt, lines).error == KeyError("href")
    decreases |types|
  {
    if types != [] {
      var t := types[0];
      assert forall i :: 1 <= i < |types| ==> types[1..][i - 1] == types[i];
      PassSucceedsIff(doc, t, fmt, lines);
      match Pass(doc, t)
      case Failure(_) =>
      case Success((tags, doc')) =>
        match Emit(lines, Tagged(t, tags), fmt)
        case Failure(_) =>
        case Success(lines') =>
          RunSucceedsIff(doc', types[1..], fmt, lines');
          forall i | 0 <= i < |types|
            ensures HrefsPresent(doc', types[i]) <==> HrefsPresent(doc, types[i])
          {
            MarkSearchKeepsHrefNeeds(doc, types[i]);
          }
    }
  }
}
