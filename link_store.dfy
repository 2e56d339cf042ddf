/**
 * The links store (`useLinkStore`): the loaded links, the search query, the
 * highlighted row, whether the create form is open and the chosen category.
 * Every setter overwrites its own field; setting the query also moves the
 * highlight back to the first row.
 */
module LinkStoreState {
  import opened Records

  class LinkStore {
    var links: seq<Link>
    var searchQuery: string
    var selectedIndex: int
    var isCreating: bool
    var selectedCategory: string

    /** The store's initial state. */
    constructor ()
      ensures links == [] && searchQuery == [] && selectedIndex == 0
      ensures !isCreating && selectedCategory == "all"
    {
      links := [];
      searchQuery := [];
      selectedIndex := 0;
      isCreating := false;
      selectedCategory := "all";
    }

    method SetLinks(newLinks: seq<Link>)
      modifies this
      ensures links == newLinks
      ensures searchQuery == old(searchQuery) && selectedIndex == old(selectedIndex)
      ensures isCreating == old(isCreating) && selectedCategory == old(selectedCategory)
    {
      links := newLinks;
    }

    /** A new query always starts again from the first row. */
    method SetSearchQuery(query: string)
      modifies this
      ensures searchQuery == query && selectedIndex == 0
      ensures links == old(links)
      ensures isCreating == old(isCreating) && selectedCategory == old(selectedCategory)
    {
      searchQuery := query;
      selectedIndex := 0;
    }

    method SetSelectedIndex(index: int)
      modifies this
      ensures selectedIndex == index
      ensures links == old(links) && searchQuery == old(searchQuery)
      ensures isCreating == old(isCreating) && selectedCategory == old(selectedCategory)
    {
      selectedIndex := index;
    }

    method SetIsCreating(creating: bool)
      modifies this
      ensures isCreating == creating
      ensures links == old(links) && searchQuery == old(searchQuery)
      ensures selectedIndex == old(selectedIndex) && selectedCategory == old(selectedCategory)
    {
      isCreating := creating;
    }

    method SetSelectedCategory(category: string)
      modifies this
      ensures selectedCategory == category
      ensures links == old(links) && searchQuery == old(searchQuery)
      ensures selectedIndex == old(selectedIndex) && isCreating == old(isCreating)
    {
      selectedCategory := category;
    }
  }
}
