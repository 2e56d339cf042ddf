/**
 * The main window (`App`): keyboard navigation over the shown links, and the
 * handlers that delete, open, edit and create links and react to Escape. The
 * handlers act on the links store; the window's own state is the settings
 * dialog flag, the quick-create fields and the link being edited.
 */
module App {
  import opened Wrappers
  import opened Text
  import opened Records
  import opened LinkTable
  import opened UrlLauncher
  import opened LinkStoreState
  import Database

  /** `Math.max(0, i - 1)`. */
  function NavigateUp(i: int): (j: int)
    ensures j >= 0 && j >= i - 1
    ensures j == 0 || j == i - 1
  {
    if i - 1 > 0 then i - 1 else 0
  }

  /** `Math.min(len - 1, i + 1)`. */
  function NavigateDown(len: int, i: int): (j: int)
    ensures j <= len - 1 && j <= i + 1
    ensures j == len - 1 || j == i + 1
  {
    if len - 1 < i + 1 then len - 1 else i + 1
  }

  /** From a valid row, moving up or down lands on a valid row, one step away at most. */
  lemma NavigationStaysInRange(len: int, i: int)
    requires 0 <= i < len
    ensures 0 <= NavigateUp(i) <= i
    ensures i <= NavigateDown(len, i) < len
    ensures i - NavigateUp(i) <= 1 && NavigateDown(len, i) - i <= 1
  {
  }

  /** Moving down in an empty list sets the highlight to -1, which selects nothing. */
  lemma NavigateDownInEmptyList(i: int)
    requires i >= 0
    ensures NavigateDown(0, i) == -1
  {
  }

  /** `searchQuery ? searchResults : links`. */
  function DisplayLinks(query: string, results: seq<Link>, links: seq<Link>): (shown: seq<Link>)
    ensures query == [] ==> shown == links
    ensures query != [] ==> shown == results
  {
    if query != [] then results else links
  }

  /** `tags && tags.trim() ? tags.trim() : undefined`. */
  function ProcessedTags(tags: Option<string>): Option<string> {
    if tags.Some? && tags.value != [] && Trim(tags.value) != [] then Some(Trim(tags.value)) else None
  }

  /**
   * Tags are kept exactly when they hold something other than whitespace, and
   * then as a non-empty string without surrounding whitespace that trimming
   * no longer changes.
   */
  lemma ProcessedTagsShape(tags: Option<string>)
    ensures ProcessedTags(tags).Some? <==> tags.Some? && !IsBlank(tags.value)
    ensures ProcessedTags(tags).Some? ==>
      var t := ProcessedTags(tags).value;
      t == Trim(tags.value) && t != [] && !IsJsWhitespace(t[0]) && !IsJsWhitespace(t[|t| - 1]) && Trim(t) == t
  {
    if tags.Some? {
      TrimShape(tags.value);
      TrimIdempotent(tags.value);
    }
  }

  /** `links.map(l => l.id === id ? { ...l, visit_count: l.visit_count + 1 } : l)`. */
  function BumpVisit(links: seq<Link>, id: int): (r: seq<Link>)
    ensures |r| == |links|
  {
    seq(|links|, i requires 0 <= i < |links| =>
      if links[i].id == id then links[i].(visitCount := links[i].visitCount + 1) else links[i])
  }

  /**
   * The local bump mirrors the store's `incrementVisitCount` row by row, except
   * that the window keeps the old `updated_at`.
   */
  lemma BumpMirrorsStore(links: seq<Link>, id: int, now: Time)
    ensures forall i :: 0 <= i < |links| ==>
      BumpVisit(links, id)[i] == WithVisit(links, id, now)[i].(updatedAt := links[i].updatedAt)
  {
  }

  /** The sum of the visit counts. */
  function TotalVisits(links: seq<Link>): nat {
    if links == [] then 0 else links[0].visitCount + TotalVisits(links[1..])
  }

  /** The number of links carrying an id. */
  function CountId(links: seq<Link>, id: int): nat {
    if links == [] then 0 else (if links[0].id == id then 1 else 0) + CountId(links[1..], id)
  }

  /**
   * A click adds one visit to every link with the clicked id and to no other,
   * so the total rises by exactly the number of such links.
   */
  lemma {:induction false} BumpAddsOneVisitPerMatch(links: seq<Link>, id: int)
    ensures TotalVisits(BumpVisit(links, id)) == TotalVisits(links) + CountId(links, id)
    ensures forall i :: 0 <= i < |links| && links[i].id != id ==> BumpVisit(links, id)[i] == links[i]
  {
    if links != [] {
      assert BumpVisit(links, id)[1..] == BumpVisit(links[1..], id);
      BumpAddsOneVisitPerMatch(links[1..], id);
    }
  }

  /** `/^https?:\/\//i.test(url) ? url : 'https://' + url`, the browser-mode prefixing. */
  function BrowserTargetUrl(url: string): (r: string)
    ensures IsPrefix("http://", Lower(url)) || IsPrefix("https://", Lower(url)) ==> r == url
    ensures !(IsPrefix("http://", Lower(url)) || IsPrefix("https://", Lower(url))) ==> r == "https://" + url
  {
    if IsPrefix("http://", Lower(url)) || IsPrefix("https://", Lower(url)) then url else "https://" + url
  }

  /**
   * For a url without a web scheme, or with one written in lower case, the
   * browser prefixing and the desktop `openUrl` give the same address.
   */
  lemma BrowserAgreesWithLauncher(url: string)
    requires HasWebScheme(url) || !(IsPrefix("http://", Lower(url)) || IsPrefix("https://", Lower(url)))
    ensures BrowserTargetUrl(url) == NormalizeUrl(url)
  {
  }

  /** The browser test ignores case where the desktop one does not. */
  lemma UpperCaseSchemeDiverges()
    ensures BrowserTargetUrl("HTTP://x") == "HTTP://x"
    ensures NormalizeUrl("HTTP://x") == "https://HTTP://x"
  {
    assert Lower("HTTP://x")[..7] == "http://";
    UpperCaseSchemeIsPrefixed();
  }

  /** The link a browser-mode create builds: no favicon, no visits, both timestamps `now`. */
  function NewBrowserLink(id: int, title: string, url: string, tags: Option<string>, now: Time): (l: Link)
    ensures l.id == id && l.title == title && l.url == url
    ensures l.favicon == None && l.tags == ProcessedTags(tags) && l.visitCount == 0
    ensures l.createdAt == now && l.updatedAt == now
  {
    Link(id, title, url, None, ProcessedTags(tags), 0, now, now)
  }

  /** The window's own state beside the links store. */
  class AppView {
    const store: LinkStore
    var isSettingsOpen: bool
    var quickCreateUrl: string
    var quickCreateTitle: string
    var editing: Option<Link>

    constructor (linkStore: LinkStore)
      ensures store == linkStore
      ensures !isSettingsOpen && quickCreateUrl == [] && quickCreateTitle == [] && editing == None
    {
      store := linkStore;
      isSettingsOpen := false;
      quickCreateUrl := [];
      quickCreateTitle := [];
      editing := None;
    }

    /** `handleNavigateUp`: one row up, never above the first. */
    method HandleNavigateUp()
      modifies store
      ensures store.selectedIndex == NavigateUp(old(store.selectedIndex))
      ensures store.links == old(store.links) && store.searchQuery == old(store.searchQuery)
      ensures store.isCreating == old(store.isCreating) && store.selectedCategory == old(store.selectedCategory)
    {
      store.SetSelectedIndex(NavigateUp(store.selectedIndex));
    }

    /** `handleNavigateDown`: one row down, never past the last shown link. */
    method HandleNavigateDown(searchResults: seq<Link>)
      modifies store
      ensures store.selectedIndex ==
        NavigateDown(|DisplayLinks(old(store.searchQuery), searchResults, old(store.links))|, old(store.selectedIndex))
      ensures store.links == old(store.links) && store.searchQuery == old(store.searchQuery)
      ensures store.isCreating == old(store.isCreating) && store.selectedCategory == old(store.selectedCategory)
    {
      var shown := DisplayLinks(store.searchQuery, searchResults, store.links);
      store.SetSelectedIndex(NavigateDown(|shown|, store.selectedIndex));
    }

    /** `handleDeleteLink`: the links without that id, the others in order. */
    method HandleDeleteLink(id: int)
      modifies store
      ensures store.links == WithoutId(old(store.links), id)
      ensures store.searchQuery == old(store.searchQuery) && store.selectedIndex == old(store.selectedIndex)
      ensures store.isCreating == old(store.isCreating) && store.selectedCategory == old(store.selectedCategory)
    {
      store.SetLinks(WithoutId(store.links, id));
    }

    /**
     * `handleLinkClick`: opens the link (through `openUrl` on the desktop, with
     * the case-insensitive browser test otherwise) and adds one visit locally.
     */
    method HandleLinkClick(link: Link, desktop: bool) returns (target: string)
      modifies store
      ensures target == if desktop then NormalizeUrl(link.url) else BrowserTargetUrl(link.url)
      ensures store.links == BumpVisit(old(store.links), link.id)
      ensures store.searchQuery == old(store.searchQuery) && store.selectedIndex == old(store.selectedIndex)
      ensures store.isCreating == old(store.isCreating) && store.selectedCategory == old(store.selectedCategory)
    {
      if desktop {
        target := NormalizeUrl(link.url);
      } else {
        target := BrowserTargetUrl(link.url);
      }
      store.SetLinks(BumpVisit(store.links, link.id));
    }

    /**
     * `handleSelect`: Enter opens the highlighted link as a click would; with
     * no link at the highlight nothing happens.
     */
    method HandleSelect(searchResults: seq<Link>, desktop: bool) returns (target: Option<string>)
      modifies store
      ensures var shown := DisplayLinks(old(store.searchQuery), searchResults, old(store.links));
        var i := old(store.selectedIndex);
        if 0 <= i < |shown| then
          target == Some(if desktop then NormalizeUrl(shown[i].url) else BrowserTargetUrl(shown[i].url))
          && store.links == BumpVisit(old(store.links), shown[i].id)
        else
          target == None && store.links == old(store.links)
      ensures store.searchQuery == old(store.searchQuery) && store.selectedIndex == old(store.selectedIndex)
      ensures store.isCreating == old(store.isCreating) && store.selectedCategory == old(store.selectedCategory)
    {
      var shown := DisplayLinks(store.searchQuery, searchResults, store.links);
      if 0 <= store.selectedIndex < |shown| {
        var address := HandleLinkClick(shown[store.selectedIndex], desktop);
        target := Some(address);
      } else {
        target := None;
      }
    }

    /**
     * `handleDeleteSelected`: the highlighted link is deleted when the user
     * confirms the dialog; `confirmed` stands for the dialog's answer.
     */
    method HandleDeleteSelected(searchResults: seq<Link>, confirmed: bool)
      modifies store
      ensures var shown := DisplayLinks(old(store.searchQuery), searchResults, old(store.links));
        var i := old(store.selectedIndex);
        store.links == if 0 <= i < |shown| && confirmed then WithoutId(old(store.links), shown[i].id) else old(store.links)
      ensures store.searchQuery == old(store.searchQuery) && store.selectedIndex == old(store.selectedIndex)
      ensures store.isCreating == old(store.isCreating) && store.selectedCategory == old(store.selectedCategory)
    {
      var shown := DisplayLinks(store.searchQuery, searchResults, store.links);
      if 0 <= store.selectedIndex < |shown| && confirmed {
        HandleDeleteLink(shown[store.selectedIndex].id);
      }
    }

    /**
     * `handleUpdateLink`: the local update. On the desktop the `update-link`
     * channel has no handler, so the call fails and the same local update runs.
     */
    method HandleUpdateLink(id: int, title: string, url: string, tags: Option<string>, now: Time)
      modifies this, store
      ensures store.links == WithEdit(old(store.links), id, title, url, ProcessedTags(tags), now)
      ensures editing == None
      ensures isSettingsOpen == old(isSettingsOpen)
      ensures quickCreateUrl == old(quickCreateUrl) && quickCreateTitle == old(quickCreateTitle)
      ensures store.searchQuery == old(store.searchQuery) && store.selectedIndex == old(store.selectedIndex)
      ensures store.isCreating == old(store.isCreating) && store.selectedCategory == old(store.selectedCategory)
    {
      store.SetLinks(WithEdit(store.links, id, title, url, ProcessedTags(tags), now));
      editing := None;
    }

    /** Browser-mode `handleCreateLink`: the new link goes first, and the form closes and clears. */
    method HandleCreateLink(id: int, title: string, url: string, tags: Option<string>, now: Time)
      modifies this, store
      ensures store.links == [NewBrowserLink(id, title, url, tags, now)] + old(store.links)
      ensures !store.isCreating && quickCreateUrl == [] && quickCreateTitle == []
      ensures isSettingsOpen == old(isSettingsOpen) && editing == old(editing)
      ensures store.searchQuery == old(store.searchQuery) && store.selectedIndex == old(store.selectedIndex)
      ensures store.selectedCategory == old(store.selectedCategory)
    {
      store.SetLinks([NewBrowserLink(id, title, url, tags, now)] + store.links);
      store.SetIsCreating(false);
      quickCreateUrl := [];
      quickCreateTitle := [];
    }

    /**
     * Desktop `handleCreateLink`, given the store's reply: a created link goes
     * first and the form closes and clears; a rejected one (a duplicate url)
     * changes nothing.
     */
    method HandleCreatedLink(reply: Result<Link, Database.DbError>)
      modifies this, store
      ensures reply.Success? ==> store.links == [reply.value] + old(store.links)
      ensures reply.Success? ==> !store.isCreating && quickCreateUrl == [] && quickCreateTitle == []
      ensures reply.Failure? ==> store.links == old(store.links) && store.isCreating == old(store.isCreating)
      ensures reply.Failure? ==> quickCreateUrl == old(quickCreateUrl) && quickCreateTitle == old(quickCreateTitle)
      ensures isSettingsOpen == old(isSettingsOpen) && editing == old(editing)
      ensures store.searchQuery == old(store.searchQuery) && store.selectedIndex == old(store.selectedIndex)
      ensures store.selectedCategory == old(store.selectedCategory)
    {
      if reply.Failure? {
        return;
      }
      store.SetLinks([reply.value] + store.links);
      store.SetIsCreating(false);
      quickCreateUrl := [];
      quickCreateTitle := [];
    }

    /** `handleEscape`: close the create form, else the settings dialog, else clear the search. */
    method HandleEscape()
      modifies this, store
      ensures old(store.isCreating) ==>
        !store.isCreating && isSettingsOpen == old(isSettingsOpen)
        && store.searchQuery == old(store.searchQuery) && store.selectedIndex == old(store.selectedIndex)
      ensures !old(store.isCreating) && old(isSettingsOpen) ==>
        !isSettingsOpen && !store.isCreating
        && store.searchQuery == old(store.searchQuery) && store.selectedIndex == old(store.selectedIndex)
      ensures !old(store.isCreating) && !old(isSettingsOpen) ==>
        !isSettingsOpen && !store.isCreating && store.searchQuery == [] && store.selectedIndex == 0
      ensures store.links == old(store.links) && store.selectedCategory == old(store.selectedCategory)
      ensures quickCreateUrl == old(quickCreateUrl) && quickCreateTitle == old(quickCreateTitle)
      ensures editing == old(editing)
    {
      if store.isCreating {
        store.SetIsCreating(false);
      } else if isSettingsOpen {
        isSettingsOpen := false;
      } else {
        store.SetSearchQuery([]);
        store.SetSelectedIndex(0);
      }
    }
  }
}
