/**
 * `useSearchLinks`: nothing for a blank query, otherwise (in browser mode) the
 * source links whose lower-cased title, url or tags contain the lower-cased query.
 * Lower-casing here is JavaScript's `toLowerCase` (`JsLower`), not the ASCII
 * folding of SQLite's `LIKE`.
 */
module SearchLinks {
  import opened Wrappers
  import opened Text
  import opened Seqs
  import opened Records
  import opened SqlLike
  import LinkTable

  /** The filter callback: `tags` counts only when it is a non-empty string. */
  predicate BrowserMatches(l: Link, lowerQuery: string) {
    || Contains(JsLower(l.title), lowerQuery)
    || Contains(JsLower(l.url), lowerQuery)
    || (Truthy(l.tags) && Contains(JsLower(l.tags.value), lowerQuery))
  }

  function BrowserSearch(query: string, source: seq<Link>): seq<Link> {
    if Trim(query) == [] then []
    else Filter(source, (l: Link) => BrowserMatches(l, JsLower(query)))
  }

  /** An empty or all-whitespace query yields no results. */
  lemma BlankQueryFindsNothing(query: string, source: seq<Link>)
    requires IsBlank(query)
    ensures BrowserSearch(query, source) == []
  {
    TrimShape(query);
  }

  /** The results are the matching source links, each where it was, in the original order. */
  lemma BrowserSearchResults(query: string, source: seq<Link>)
    requires !IsBlank(query)
    ensures IsSubsequence(BrowserSearch(query, source), source)
    ensures forall i :: 0 <= i < |BrowserSearch(query, source)| ==>
      BrowserMatches(BrowserSearch(query, source)[i], JsLower(query))
    ensures forall i :: 0 <= i < |source| && !(source[i] in BrowserSearch(query, source)) ==>
      !BrowserMatches(source[i], JsLower(query))
  {
    TrimShape(query);
    FilterIsSubsequence(source, (l: Link) => BrowserMatches(l, JsLower(query)));
  }

  /** A link without tags is found only through its title or url. */
  lemma UntaggedFoundByTitleOrUrl(l: Link, lowerQuery: string)
    requires !Truthy(l.tags) && BrowserMatches(l, lowerQuery)
    ensures Contains(JsLower(l.title), lowerQuery) || Contains(JsLower(l.url), lowerQuery)
  {
  }

  lemma {:induction false} NothingInEmpty(sub: string)
    requires sub != []
    ensures !Contains([], sub)
  {
  }

  /** No field of the link holds a character `toLowerCase` turns into ASCII from outside it. */
  predicate LowersSafely(l: Link) {
    NoLoweringIntoAscii(l.title) && NoLoweringIntoAscii(l.url)
    && (l.tags.Some? ==> NoLoweringIntoAscii(l.tags.value))
  }

  /**
   * For a non-blank ASCII query without `%` or `_`, the browser filter and the
   * store's `searchLinks` (without a tag) accept the same links, unless a link
   * holds `İ` or the Kelvin sign.
   */
  lemma BrowserAgreesWithStore(l: Link, query: string)
    requires !IsBlank(query) && NoWildcards(query) && IsAscii(query)
    requires LowersSafely(l)
    ensures BrowserMatches(l, JsLower(query)) <==> LinkTable.RowMatches(l, query, None)
  {
    LinkTable.SearchSemantics(l, query, None);
    FoldsAgreeOnAscii(query);
    AsciiTermContainsAgrees(l.title, Lower(query));
    AsciiTermContainsAgrees(l.url, Lower(query));
    if l.tags.Some? {
      AsciiTermContainsAgrees(l.tags.value, Lower(query));
    }
    if l.tags == Some([]) {
      assert Lower([]) == [];
      NothingInEmpty(Lower(query));
    }
  }

  /**
   * Outside ASCII the two part: `toLowerCase` turns "É" into "é", so the
   * browser finds the title "É" by the query "é", while `LIKE` folds only
   * ASCII letters and the store does not.
   */
  lemma AccentedQueryDiverges()
    ensures var l := Link(1, "\U{00C9}", "x", None, None, 0, 0, 0);
      BrowserMatches(l, JsLower("\U{00E9}")) && !LinkTable.RowMatches(l, "\U{00E9}", None)
  {
    var l := Link(1, "\U{00C9}", "x", None, None, 0, 0, 0);
    assert JsLower("\U{00E9}") == "\U{00E9}";
    assert JsLower(l.title) == "\U{00E9}";
    assert IsPrefix("\U{00E9}", JsLower(l.title));
    LinkTable.SearchSemantics(l, "\U{00E9}", None);
    assert Lower(l.title) == "\U{00C9}" && Lower(l.url) == "x" && Lower("\U{00E9}") == "\U{00E9}";
    assert !Contains([], "\U{00E9}");
    assert !Contains(Lower(l.title), Lower("\U{00E9}"));
    assert !Contains(Lower(l.url), Lower("\U{00E9}"));
  }

  /**
   * Even an ASCII query can part the two: `toLowerCase` turns the Kelvin sign
   * into "k", so the browser finds the title "\U{212A}" by the query "k",
   * while `LIKE` leaves the sign as it is and the store does not.
   */
  lemma KelvinSignDiverges()
    ensures var l := Link(1, "\U{212A}", "x", None, None, 0, 0, 0);
      !LowersSafely(l) && BrowserMatches(l, JsLower("k")) && !LinkTable.RowMatches(l, "k", None)
  {
    var l := Link(1, "\U{212A}", "x", None, None, 0, 0, 0);
    assert LowersIntoAscii(l.title[0]);
    assert JsLower("k") == "k";
    assert JsLower(l.title) == "k";
    assert IsPrefix("k", JsLower(l.title));
    LinkTable.SearchSemantics(l, "k", None);
    assert Lower(l.title) == "\U{212A}" && Lower(l.url) == "x" && Lower("k") == "k";
    assert !Contains([], "k");
    assert !Contains(Lower(l.title), Lower("k"));
    assert !Contains(Lower(l.url), Lower("k"));
  }

  /** The hook's state: the links it last found and whether a search is running. */
  class SearchHook {
    var links: seq<Link>
    var loading: bool

    constructor ()
      ensures links == [] && !loading
    {
      links := [];
      loading := false;
    }

    /**
     * One run of the search effect in browser mode. A blank query clears the
     * results and leaves `loading` alone; otherwise loading is raised, the
     * results are filtered, and loading is lowered again.
     */
    method RunBrowserSearch(query: string, source: seq<Link>)
      modifies this
      ensures links == BrowserSearch(query, source)
      ensures loading == (if IsBlank(query) then old(loading) else false)
    {
      TrimShape(query);
      if Trim(query) == [] {
        links := [];
        return;
      }
      loading := true;
      links := Filter(source, (l: Link) => BrowserMatches(l, JsLower(query)));
      loading := false;
    }
  }
}
