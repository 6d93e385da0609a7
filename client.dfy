/**
 * The gallery listing request both browser pages send: `GET /api/pigs?page=P&limit=20`,
 * with `&search=S` only when the (already trimmed) keyword is non-empty and without
 * `sort`. The lemmas say what the server makes of it: exactly page `P` of 20 rows,
 * newest first, filtered by `S`.
 */
module Requests {
  import opened Wrappers
  import Text
  import Numbers
  import Ordering
  import Queries
  import Schema

  /** `PAGE_SIZE` of the gallery and `state.limit` of the admin page. */
  const PageLimit: nat := 20

  /**
   * The query string, as the server's `req.query` sees it: the page and the page size
   * always, the keyword only when it is non-empty, and no sort order.
   */
  function ListRequest(page: nat, search: string): (q: Queries.ListQuery)
    ensures q.paging.page.Some? && q.paging.limit.Some?
    ensures q.search.Some? <==> search != ""
    ensures q.search.Some? ==> q.search.value == search
    ensures q.sort.None?
  {
    Queries.ListQuery(
      Queries.Paging(Some(Numbers.Decimal(page)), Some(Numbers.Decimal(PageLimit))),
      if search != "" then Some(search) else None,
      None)
  }

  /** The server reads back the client's page, its page size and its keyword, and sorts by time. */
  lemma RequestReadsPage(page: nat, search: string)
    requires Text.Trimmed(search)
    ensures var q := ListRequest(page, search);
      && Queries.PageOf(q.paging) == page
      && Queries.LimitOf(q.paging) == PageLimit
      && Queries.OffsetOf(q.paging) == page * PageLimit
      && Queries.SearchTerm(q.search) == search
      && Queries.SortOf(q.sort) == Queries.ByCreatedAt
  {
    Numbers.ParseDecimal(page);
    Numbers.ParseDecimal(PageLimit);
    if search != "" {
      Text.TrimFixed(search);
    }
  }

  /** Page `P` of the listing is the window of 20 rows at `20 * P` of the matching pigs, newest first. */
  lemma RequestedWindow(pigs: seq<Schema.Pig>, comments: seq<Schema.Comment>, page: nat, search: string)
    requires Text.Trimmed(search)
    ensures Queries.ListPigs(pigs, comments, ListRequest(page, search)).pigs ==
            Ordering.Window(Ordering.SortDesc(Queries.Annotate(Queries.Matching(pigs, search), comments),
                                              Queries.CreatedKey),
                            PageLimit, page * PageLimit)
  {
    var q := ListRequest(page, search);
    Queries.ListPigsRows(pigs, comments, q);
    RequestReadsPage(page, search);
    assert Queries.KeyOf(Queries.SortOf(q.sort)) == Queries.CreatedKey;
  }
}
