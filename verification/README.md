# qutebrowser bookmark importer, modelled in Dafny

`scripts/importer.py` converts a Netscape bookmark file, the format that
Chromium, Firefox, IE, SeaMonkey and Pale Moon export, into lines for
qutebrowser. There are three kinds of line:

- quickmarks: `name url`;
- bookmarks: `url title`;
- search engines: `c.url.searchengines['k'] = 'url' #title`, or `k = url #title` in the old config format.

This project models the decision logic of that script as pure Dafny
functions over a parsed document, and proves what it does.

- **Command line** (`Config`): `main` resolves the flags into three values. These are the ordered bookmark types to extract, the output format and the input format. The run is then handed to the importer for that input format.
- **Classification** (`Bookmarks`): the three `bookmark_query` predicates sort each element into search engine, keyword or plain bookmark. A query can raise KeyError('href').
- **Escaping** (`Escape`, `Strings`): `search_escape` doubles braces, and then `%s` becomes the `{}` placeholder in a search engine's href. Python's `in` test on strings and `str.replace` are modelled in `Strings`.
- **Rendering** (`Templates`): the `output_template` table is held as data. A template is a sequence of literal text and the fields `tag[href]`, `tag[shortcuturl]` and `tag.string`. A missing attribute is a KeyError. An absent `tag.string` renders as the text `None`.
- **The import loop** (`Importer`):
  - for each requested type, `findAll` selects the matching elements in document order;
  - search hrefs are escaped in place, and a later type of the same run sees the escaped href;
  - an element is skipped when its href equals one of the output lines produced so far;
  - the remaining elements are rendered.

  This is written both as a recursive fold (`Run`) and as the two nested loops of the code (`ImportLoop`, `EmitLoop`).
- **The duplicate check** (`Dedup`): the check at `scripts/importer.py:200` compares an href with rendered lines, so it practically never fires. `Dedup` proves what that check actually does, and defines the evidently intended check by href (see Findings).
- **Worked runs** (`SampleDocument`, `Scenarios`): runs on a three-element document in the quickmark and search formats, and the duplicate-bookmark input.

The document is a `seq<Anchor>` in document order. Each anchor has a tag name, an attribute map and an optional string content (`tag.string`). Errors are values: every operation that can raise KeyError in the code returns a `Result`. The one requirement on an input is that the escape at line 199 (`Importer.EscapeHref`, `Importer.EscapeAll`, `Importer.EmitLoop`) is given anchors that have an href. The code only escapes elements that the search query has selected, and that query has already read the href, so the requirement always holds where the code reaches line 199. `Dedup.HrefOf` likewise reads an href only where one is known to be present.

## Model

| member | source | states |
|---|---|---|
| Strings.ContainsIffOccurs | scripts/importer.py:166 | Python's `'%s' in href` holds exactly when the pattern occurs at some index of the href |
| Strings.ReplaceCharIsMap | scripts/importer.py:147 | replacing a one-character pattern rewrites each occurrence of that character on its own and keeps every other character |
| Escape.SearchEscapeDoublesBraces | scripts/importer.py:142-147 | `search_escape` turns every `{` into `{{` and every `}` into `}}` and keeps every other character, in order |
| Escape.SearchEscapeLength | scripts/importer.py:142-147 | escaping grows a URL by exactly the number of braces it contains |
| Escape.SearchEscapeRoundTrip | scripts/importer.py:142-147 | undoing the doubling gives back the original URL, so the escape loses nothing |
| Escape.SearchHrefMeaning | scripts/importer.py:199 | doubling braces and then replacing `%s` is the character-wise transform in which each `%s` becomes one undoubled `{}` and only user braces are doubled |
| Escape.SearchHrefBracesExample | scripts/importer.py:199 | `a{b}%s` becomes `a{{b}}{}` |
| Escape.SearchHrefPlaceholderExample | scripts/importer.py:199 | `x/%s` becomes `x/{}` |
| Escape.SearchHrefLeavesNoPlaceholder | scripts/importer.py:199 | no `%s` is left in an escaped search href |
| Escape.SearchHrefTrailingPlaceholder | scripts/importer.py:199 | a URL without braces or `%` that ends in `%s` keeps its text and ends in `{}` |
| Bookmarks.QueriesExclusive | scripts/importer.py:162-175 | no element is selected by two different queries |
| Bookmarks.ShortcutSplit | scripts/importer.py:163-170 | an anchor with a shortcut and an href is a search engine or a keyword, never both and never a plain bookmark; it is a search engine exactly when `%s` occurs in its href |
| Bookmarks.BookmarkMatch | scripts/importer.py:171-174 | a plain bookmark is exactly an anchor without a shortcut whose string content is present and non-empty |
| Bookmarks.UnselectedElements | scripts/importer.py:162-175 | a non-anchor element, or an anchor with neither a shortcut nor content, is selected by no query and raises nothing |
| Bookmarks.QueryFailure | scripts/importer.py:163-170 | a query raises exactly when it is a search or keyword query on an anchor with a shortcut and no href, and then raises KeyError('href') |
| Templates.TemplateDomain | scripts/importer.py:176-193 | the table has a template exactly for search types in the two search formats and for bookmarks and keywords in the bookmark and quickmark formats |
| Templates.Render | scripts/importer.py:202 | formatting fails exactly when the template uses an attribute that the element lacks |
| Templates.QuickmarkLines | scripts/importer.py:189-192 | quickmark lines are `text href` for a bookmark and `shortcut href` for a keyword |
| Templates.BookmarkLines | scripts/importer.py:185-188 | bookmark-format lines are `href text` for both bookmarks and keywords |
| Templates.SearchFormatLine | scripts/importer.py:177-181 | search lines are `c.url.searchengines['S'] = 'H' #T` |
| Templates.OldSearchLine | scripts/importer.py:182-184 | old-config search lines are `S = H #T` |
| Templates.RenderedLines | scripts/importer.py:176-193 | every entry of the table renders as its documented line, with an absent string shown as `None` |
| Importer.FindAll | scripts/importer.py:196 | the search succeeds exactly when no query raises; it then returns a subsequence of the document holding exactly the selected elements |
| Importer.FindAllIsSelection | scripts/importer.py:196 | when no query raises, `findAll` equals the plain order-keeping filter over the document |
| Importer.FindAllFirstFailure | scripts/importer.py:196 | a failed search fails with the error of the first element whose query raises, every query before it having succeeded, and that error is KeyError('href') |
| Importer.EscapeHref | scripts/importer.py:199 | the new href is the escaped old href, with braces doubled and `%s` turned into `{}`; no other attribute, the tag name and the content do not change |
| Importer.EscapedSearchIsKeyword | scripts/importer.py:198-199 | once its href is rewritten, a search element is no longer a search engine but a keyword for any later pass |
| Importer.MarkSearchKeepsHrefNeeds | scripts/importer.py:199 | rewriting search hrefs in place changes no element's need for an href |
| Importer.Emit | scripts/importer.py:197-202 | the inner loop keeps the lines already produced as a prefix and adds at most one line per selected element |
| Importer.EmitSelects | scripts/importer.py:200-202 | each new line renders one selected element, in order; every element has an href, and an element is skipped exactly when its href equals one of the lines produced before it, otherwise its rendering is the next line |
| Importer.EmitAppend | scripts/importer.py:195-202 | running the inner loop over two runs of elements is running it over the first and continuing over the second |
| Importer.EmitSucceedsIff | scripts/importer.py:200-202 | with a template for every type, the inner loop fails exactly when an element has no href, with KeyError('href') |
| Importer.RenderEntrySucceeds | scripts/importer.py:202 | an element whose type has a template renders when it has the href, and also a shortcut where the template needs one |
| Importer.PassSucceedsIff | scripts/importer.py:196-202 | one type's pass succeeds exactly when no element lacks an href that the type needs, and otherwise fails with KeyError('href') |
| Importer.RunIsEmitOfCandidates | scripts/importer.py:195-202 | the output is the inner loop over all selected elements, grouped by type in the requested order and in document order within a type |
| Importer.RunSucceedsIff | scripts/importer.py:195-202 | with a template for every requested type, the run fails exactly when some element lacks an href that a requested type needs, and then with KeyError('href') |
| Importer.ImportLoop | scripts/importer.py:194-202 | the two nested loops compute exactly the fold `ImportNetscapeBookmarks` |
| Importer.EmitLoop | scripts/importer.py:197-202 | the inner loop, with escaping done per element, computes exactly `Emit` over the escaped elements |
| Dedup.EmitKeepStep | scripts/importer.py:200-202 | an element whose href is not yet an output line is rendered and appended |
| Dedup.EmitKeepsAllWithoutCollision | scripts/importer.py:200-202 | as written, when no href equals any rendered line, every selected element is printed, duplicates included |
| Dedup.EmitByHref | scripts/importer.py:200-202 | the corrected check keeps the lines already produced as a prefix and adds at most one line per element |
| Dedup.EmitByHrefSelects | scripts/importer.py:200-202 | the corrected check prints the kept elements in order, their hrefs are pairwise different and were not already seen, and every element's href ends up seen or printed; an element is printed exactly when it is the first occurrence of an href not already seen, and its rendering is then the next line |
| Dedup.KeepsFirstOccurrences | scripts/importer.py:200-202 | with the corrected check, hrefs `A, B, A, C` give the lines of the first `A`, of `B` and of `C` |
| Config.Resolve | scripts/importer.py:42-71 | the search flag gives exactly `[search]`, in the old format with `--oldconfig`; otherwise `-b` wins over `-q` and the format defaults to quickmark, and `-B`/`-K` choose the types, both when neither is given; the types are never empty, never repeat, and list bookmarks before keywords; the input format is the explicit one, else the browser's, else Netscape |
| Config.RequestedTypes | scripts/importer.py:57-60 | `-B` and `-K` ask for exactly bookmarks and keywords, in that order |
| Config.SearchOverridesFlags | scripts/importer.py:46-51 | with the search flag, `-b`, `-q`, `-B` and `-K` change nothing |
| Config.ResolvedTemplatesExist | scripts/importer.py:46-65 | every resolved (format, type) pair has a template, so the table lookup never fails |
| Config.ExecuteSucceedsIff | scripts/importer.py:73-75 | a run from the command line fails only with KeyError('href'), and exactly when an element lacks an href that a resolved type needs |
| Config.ExecuteOutputBound | scripts/importer.py:73-75 | a run prints no more lines than there are selected elements |
| Scenarios.QuickmarkScenario | scripts/importer.py:194-202 | bookmarks and keywords of the sample in quickmark format give `Site A a.com` and `c c.com`, and the search engine is left out |
| Scenarios.SearchScenario | scripts/importer.py:194-202 | the sample in search format gives `c.url.searchengines['b'] = 'b.com/{}' #B` |
| Scenarios.DuplicatePrintedTwice | scripts/importer.py:200 | as written, a bookmark listed twice is printed twice |
| Scenarios.DuplicatePrintedOnce | scripts/importer.py:200 | with the corrected check, the same input prints it once |

## Left out

- `get_args` and argparse (scripts/importer.py:78-139) are library code. The model's input is their result, the record `Config.Args`. Because of argparse's `choices`, browsers and input formats are enumerations, so the lookup at line 68 cannot fail.
- Opening the file, UTF-8 decoding and BeautifulSoup parsing (scripts/importer.py:159-161) are I/O and a foreign library. They are replaced by a parsed document, a `seq<Anchor>` in document order, and parse errors are not modelled. Folder structure is flattened: `findAll` visits every element.
- The `print` loop (scripts/importer.py:203-204) is output. The model returns the list of lines.
- `str.format` is modelled only for the fields the table uses. BeautifulSoup's `tag.string` is modelled as an optional string.
- The in-place write `tag['href'] = …` at line 199 is modelled in two parts:
  - the pass renders the escaped elements;
  - the document is rewritten for later passes (`MarkSearch`).

  `ImportLoop` rewrites the document after the inner loop rather than element by element. `findAll` has already run by then, so only later passes could see the difference, and they see the same document.
- The search line is modelled as the code at scripts/importer.py:179-180 writes it, beginning `c.url.searchengines[`.
- Strings.Replace: its own contract states only that nothing changes when the pattern does not occur. Its behaviour on the two patterns the code uses is proved separately (`Strings.ReplaceCharIsMap`, and `Escape.SearchHrefMeaning` for `%s`).
- Importer.Emit: its own contract gives only the length and prefix facts. Which elements it keeps and which it skips is stated by `Importer.EmitSelects`, and when it fails by `Importer.EmitSucceedsIff`.

## Findings

| source | as written | input that shows it | evidently intended | confidence | as-written member | corrected member |
|---|---|---|---|---|---|---|
| scripts/importer.py:200 | the duplicate check tests whether the href is among the rendered output lines, which an ordinary href never equals | a document with `<a href="a.com">Site A</a>` twice, imported as bookmarks in quickmark format: both copies are printed | skip an element whose href was already printed | not executed | `Importer.Emit` with `Dedup.EmitKeepsAllWithoutCollision` and `Scenarios.DuplicatePrintedTwice` | `Dedup.EmitByHref` / `Dedup.ImportDedupByHref` with `Dedup.EmitByHrefSelects`, `Dedup.KeepsFirstOccurrences` and `Scenarios.DuplicatePrintedOnce` |

`Importer.ImportNetscapeBookmarks` keeps the check as written. It is the behaviour of the code, and every other lemma about the importer refers to it. `Dedup.ImportDedupByHref` is the same run with the check by href.
