/** `main`: resolving the command-line flags into the bookmark types to
    extract, the output format and the input format, then running the
    importer for that input format. */
module Config {
  import opened Wrappers
  import opened Bookmarks
  import opened Templates
  import opened Importer

  /** The browsers the command line accepts. */
  datatype Browser = Chromium | IE | Firefox | SeaMonkey | PaleMoon

  /** The input formats; Netscape bookmark files are the only one. */
  datatype InputFormat = Netscape

  /** `browser_default_input_format`. */
  function BrowserDefaultInputFormat(b: Browser): InputFormat
  {
    match b
    case Chromium => Netscape
    case IE => Netscape
    case Firefox => Netscape
    case SeaMonkey => Netscape
    case PaleMoon => Netscape
  }

  /** The parsed command line: the optional browser and input format, and
      the boolean flags. The argument parser only admits browsers and input
      formats of the enumerations above. */
  datatype Args = Args(
    browser: Option<Browser>,
    inputFormat: Option<InputFormat>,
    bookmarkOutput: bool,
    quickmarkOutput: bool,
    searchOutput: bool,
    oldconfig: bool,
    importBookmarks: bool,
    importKeywords: bool)

  /** What `main` hands to the importer. */
  datatype Resolved = Resolved(types: seq<BookmarkType>, output: OutputFormat, input: InputFormat)

  /** `main`'s flag handling, in the code's order: the search flag or the
      output and import flags first, then the defaults for whatever is
      still unset. */
  function Resolve(args: Args): (c: Resolved)
    // the search flag fixes types and format and ignores -b, -q, -B and -K
    ensures args.searchOutput ==>
              c.types == [Search] && c.output == (if args.oldconfig then OldSearch else SearchFormat)
    // otherwise -b wins over -q, and the default format is quickmark
    ensures !args.searchOutput ==> c.output == (if args.bookmarkOutput then BookmarkFormat else Quickmark)
    // otherwise a type is extracted when asked for, or when neither was asked for
    ensures !args.searchOutput ==>
              && Search !in c.types
              && (Bookmark in c.types <==> args.importBookmarks || !args.importKeywords)
              && (Keyword in c.types <==> args.importKeywords || !args.importBookmarks)
    // never empty, no type twice, plain bookmarks before keywords
    ensures c.types != []
    ensures forall i, j :: 0 <= i < j < |c.types| ==> c.types[i] != c.types[j]
    ensures forall i, j :: 0 <= i < |c.types| && 0 <= j < |c.types| && c.types[i] == Bookmark && c.types[j] == Keyword ==> i < j
    // an explicit input format wins over the browser's, and Netscape is the fallback
    ensures args.inputFormat.Some? ==> c.input == args.inputFormat.value
    ensures args.inputFormat.None? && args.browser.Some? ==> c.input == BrowserDefaultInputFormat(args.browser.value)
    ensures args.inputFormat.None? && args.browser.None? ==> c.input == Netscape
  {
    var (types, output) :=
      if args.searchOutput then
        ([Search], Some(if args.oldconfig then OldSearch else SearchFormat))
      else
        (RequestedTypes(args.importBookmarks, args.importKeywords),
         if args.bookmarkOutput then Some(BookmarkFormat)
         else if args.quickmarkOutput then Some(Quickmark)
         else None);
    var input :=
      match args.inputFormat
      case Some(f) => f
      case None =>
        match args.browser
        case Some(b) => BrowserDefaultInputFormat(b)
        case None => Netscape;
    Resolved(
      if types == [] then [Bookmark, Keyword] else types,
      match output case Some(f) => f case None => Quickmark,
      input)
  }

  /** The types `-B` and `-K` ask for, plain bookmarks first. */
  function RequestedTypes(bookmarks: bool, keywords: bool): (types: seq<BookmarkType>)
    ensures Search !in types
    ensures Bookmark in types <==> bookmarks
    ensures Keyword in types <==> keywords
    ensures types == [] || types == [Bookmark] || types == [Keyword] || types == [Bookmark, Keyword]
  {
    (if bookmarks then [Bookmark] else []) + (if keywords then [Keyword] else [])
  }

  /** The search flag makes the other output and import flags irrelevant. */
  lemma SearchOverridesFlags(args: Args, b: bool, q: bool, bb: bool, k: bool)
    requires args.searchOutput
    ensures Resolve(args) == Resolve(args.(bookmarkOutput := b, quickmarkOutput := q, importBookmarks := bb, importKeywords := k))
  {
  }

  /** Every (format, type) pair the resolution produces has a template, so
      the template lookup never fails for a resolved configuration. */
  lemma ResolvedTemplatesExist(args: Args)
    ensures forall i :: 0 <= i < |Resolve(args).types| ==> OutputTemplate(Resolve(args).output, Resolve(args).types[i]).Some?
  {
    var c := Resolve(args);
    forall i | 0 <= i < |c.types|
      ensures OutputTemplate(c.output, c.types[i]).Some?
    {
      TemplateDomain(c.output, c.types[i]);
    }
  }

  /** A whole run: resolve the flags and call the importer for the resolved
      input format on the parsed document. */
  function Execute(args: Args, doc: seq<Anchor>): Result<seq<string>, KeyError>
  {
    var c := Resolve(args);
    match c.input
    case Netscape => ImportNetscapeBookmarks(doc, c.types, c.output)
  }

  /** A run from the command line fails only with KeyError('href'), and
      exactly when an element a resolved type needs has no href. */
  lemma ExecuteSucceedsIff(args: Args, doc: seq<Anchor>)
    ensures Execute(args, doc).Success? <==>
              forall i :: 0 <= i < |Resolve(args).types| ==> HrefsPresent(doc, Resolve(args).types[i])
    ensures Execute(args, doc).Failure? ==> Execute(args, doc).error == KeyError("href")
  {
    ResolvedTemplatesExist(args);
    RunSucceedsIff(doc, Resolve(args).types, Resolve(args).output, []);
  }

  /** A run prints at most one line per candidate of the resolved types. */
  lemma ExecuteOutputBound(args: Args, doc: seq<Anchor>)
    requires Execute(args, doc).Success?
    ensures Candidates(doc, Resolve(args).types).Success?
    ensures |Execute(args, doc).value| <= |Candidates(doc, Resolve(args).types).value|
  {
    RunIsEmitOfCandidates(doc, Resolve(args).types, Resolve(args).output, []);
  }
}
