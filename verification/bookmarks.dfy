/** The parsed bookmark document and the three bookmark queries
    (`bookmark_query`) that classify its anchors. */
module Bookmarks {
  import opened Wrappers
  import opened Strings

  /** One element of the parsed document: its tag name, its attribute map and
      its `.string` content (None when the element has no single string). */
  datatype Anchor = Anchor(name: string, attrs: map<string, string>, str: Option<string>)

  /** The kinds of bookmark the importer extracts. */
  datatype BookmarkType = Search | Keyword | Bookmark

  /** Python's KeyError, raised by a dictionary or attribute lookup. */
  datatype KeyError = KeyError(key: string)

  /** The name a bookmark type goes by as a dictionary key. */
  function TypeKey(t: BookmarkType): string
  {
    match t
    case Search => "search"
    case Keyword => "keyword"
    case Bookmark => "bookmark"
  }

  /** `tag[key]`: the attribute value, or a KeyError. */
  function Attr(a: Anchor, key: string): (r: Result<string, KeyError>)
    ensures r.Success? <==> key in a.attrs
    ensures r.Success? ==> r.value == a.attrs[key]
    ensures r.Failure? ==> r.error == KeyError(key)
  {
    if key in a.attrs then Success(a.attrs[key]) else Failure(KeyError(key))
  }

  /** Python truthiness of `tag.string`. */
  predicate Truthy(s: Option<string>)
  {
    s.Some? && s.value != ""
  }

  /** `bookmark_query[t](tag)`: whether `findAll` selects the element for
      bookmark type `t`. The search and keyword queries read `tag['href']`
      once the element is an anchor with a `shortcuturl`, so they fail with
      a KeyError on such an anchor without an href. */
  function Query(t: BookmarkType, a: Anchor): Result<bool, KeyError>
  {
    match t
    case Search =>
      if a.name == "a" && "shortcuturl" in a.attrs then
        (match Attr(a, "href")
         case Failure(e) => Failure(e)
         case Success(href) => Success(Contains(href, "%s")))
      else Success(false)
    case Keyword =>
      if a.name == "a" && "shortcuturl" in a.attrs then
        (match Attr(a, "href")
         case Failure(e) => Failure(e)
         case Success(href) => Success(!Contains(href, "%s")))
      else Success(false)
    case Bookmark =>
      Success(a.name == "a" && "shortcuturl" !in a.attrs && Truthy(a.str))
  }

  /** `findAll` selects `a` for type `t`. */
  predicate Matches(t: BookmarkType, a: Anchor)
  {
    Query(t, a) == Success(true)
  }

  /** No element is selected by two different queries. */
  lemma QueriesExclusive(a: Anchor, t1: BookmarkType, t2: BookmarkType)
    requires t1 != t2
    ensures !(Matches(t1, a) && Matches(t2, a))
  {
  }

  /** An anchor with a shortcut and an href is exactly one of search or
      keyword, and which one is decided by `%s` occurring in its href. */
  lemma ShortcutSplit(a: Anchor)
    requires a.name == "a" && "shortcuturl" in a.attrs && "href" in a.attrs
    ensures Matches(Search, a) != Matches(Keyword, a)
    ensures Matches(Search, a) <==> Contains(a.attrs["href"], "%s")
    ensures !Matches(Bookmark, a)
  {
  }

  /** A plain bookmark is an anchor without a shortcut whose content is a
      non-empty string. */
  lemma BookmarkMatch(a: Anchor)
    ensures Matches(Bookmark, a) <==>
              a.name == "a" && "shortcuturl" !in a.attrs && a.str.Some? && a.str.value != ""
  {
  }

  /** An anchor with neither a shortcut nor content is selected by no query,
      and neither is any element that is not an anchor. */
  lemma UnselectedElements(a: Anchor, t: BookmarkType)
    requires a.name != "a" || ("shortcuturl" !in a.attrs && !Truthy(a.str))
    ensures Query(t, a) == Success(false)
  {
  }

  /** The only failure of a query is the href lookup of a shortcut anchor. */
  lemma QueryFailure(a: Anchor, t: BookmarkType)
    ensures Query(t, a).Failure? <==>
              t != Bookmark && a.name == "a" && "shortcuturl" in a.attrs && "href" !in a.attrs
    ensures Query(t, a).Failure? ==> Query(t, a).error == KeyError("href")
  {
  }
}
