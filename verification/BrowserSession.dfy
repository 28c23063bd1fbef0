/** The file tree of web/app.js over a whole session: a connection, any run of edits, and what a change notice then does. */
module BrowserSession {
  import opened Sequences
  import opened Registry
  import opened Reconciliation
  import opened Expansion
  import opened BrowserTree

  /** What can happen to the tree after a connection: clicks, the three buttons, and refreshes. */
  datatype Edit =
    | Toggle(rel: string, fetch: Option<seq<Entry>>)
    | Expand(fs: Files)
    | Collapse
    | RefreshOpen(fs: Files)
    | Refresh(rel: string, fetch: Option<seq<Entry>>)

  /** What is fetched are listings. */
  ghost predicate Fetchable(e: Edit) {
    match e
    case Toggle(_, fetch) => fetch.Some? ==> Listing(fetch.value)
    case Expand(fs) => Listings(fs)
    case Collapse => true
    case RefreshOpen(fs) => Listings(fs)
    case Refresh(_, fetch) => fetch.Some? ==> Listing(fetch.value)
  }

  /** One edit; a click can only hit a row that is there, and the root has none. */
  method Perform(page: Page, e: Edit)
    requires Agrees(page.nodes) && RootOpen(page.nodes) && Fetchable(e)
    modifies page
    ensures Agrees(page.nodes) && RootOpen(page.nodes)
  {
    ghost var before := page.nodes;
    match e {
      case Toggle(rel, fetch) =>
        if rel in page.nodes && rel != "" {
          page.ToggleDir(rel, fetch);
          ToggledExactly(before, rel, fetch, page.nodes);
        }
      case Expand(fs) =>
        var toggled, full := page.ExpandAll(fs);
      case Collapse =>
        page.CollapseAll();
        CollapsedExactly(before);
      case RefreshOpen(fs) =>
        page.RefreshAllExpanded(fs);
      case Refresh(rel, fetch) =>
        page.RefreshDir(rel, fetch);
        if rel in before && before[rel].expanded && before[rel].kids.Some? && fetch.Some? {
          ReconciledKeepsRoot(before, rel, fetch.value, page.nodes);
        }
    }
  }

  /**
   After a connection to a directory and any run of edits, a change notice for that directory brings the root's list
   up to date: one row per entry, in order.
   */
  method NoticeAtRoot(info: string, fs: Files, edits: seq<Edit>, entries: seq<Entry>) returns (page: Page)
    requires info != "" && Listings(fs) && Listing(entries)
    requires forall i :: 0 <= i < |edits| ==> Fetchable(edits[i])
    ensures "" in page.nodes && page.nodes[""].kids.Some?
    ensures var ul := page.nodes[""].kids.value;
            |ul| == |entries| && forall i :: 0 <= i < |ul| ==> ul[i].name == entries[i].name
  {
    page := new Page();
    page.OnConnect(Some(info), fs);
    for i := 0 to |edits|
      invariant Agrees(page.nodes) && RootOpen(page.nodes) && fresh(page)
    {
      Perform(page, edits[i]);
    }
    ghost var before := page.nodes;
    page.RefreshDir("", Some(entries));
    ReconciledRows(before, "", entries, page.nodes);
  }
}
