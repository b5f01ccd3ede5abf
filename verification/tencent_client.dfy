/** The TencentDB gateway client's paginated query. A server is the sequence of pages it answers, one
    per request; past its end it answers an empty page. */
module TencentClient {
  import opened Wrappers

  const QUERY_PAGE_LIMIT: nat := 100

  // Stored versions are integers; an id may be empty, a version absent.
  datatype Row = Row(id: string, version: Option<int>)

  // `total` is None when the answer carries no usable one.
  datatype Page = Page(items: seq<Row>, total: Option<int>)

  function PageOf(server: seq<Page>, round: nat): Page {
    if round < |server| then server[round] else Page([], None)
  }

  // Where the walk asks next: offsets step by the length of each page.
  function Offset(server: seq<Page>, round: nat): nat {
    if round == 0 then 0 else Offset(server, round - 1) + |PageOf(server, round - 1).items|
  }

  // The page an honest server gives at an offset of a fixed list: the next rows, at least one while
  // any are left, and either the true total or a full page.
  ghost predicate HonestPage(page: Page, rows: seq<Row>, offset: nat) {
    && offset + |page.items| <= |rows| && page.items == rows[offset..offset + |page.items|]
    && |page.items| <= QUERY_PAGE_LIMIT && (offset < |rows| ==> page.items != [])
    && (page.total.Some? ==> page.total.value == |rows|)
    && (page.total.None? ==> |page.items| == QUERY_PAGE_LIMIT || offset + |page.items| == |rows|)
  }

  ghost predicate HonestServer(server: seq<Page>, rows: seq<Row>) {
    forall round: nat :: Offset(server, round) <= |rows| ==> HonestPage(PageOf(server, round), rows, Offset(server, round))
  }

  function Min(a: int, b: int): int {
    if a < b then a else b
  }

  // The list as far as the walk has collected it.
  ghost predicate Collected(server: seq<Page>, list: seq<Row>, rows: seq<Row>) {
    HonestServer(server, list) ==> |rows| <= |list| && rows == list[..|rows|]
  }

  lemma CollectOneMore(server: seq<Page>, list: seq<Row>, rows: seq<Row>, round: nat)
    requires |rows| == Offset(server, round) && Collected(server, list, rows)
    ensures Collected(server, list, rows + PageOf(server, round).items)
    ensures HonestServer(server, list) ==> HonestPage(PageOf(server, round), list, |rows|)
  {
  }

  // `list` stands for the rows behind an honest server; the walk never sees it.
  method AtomicQuery(server: seq<Page>, pageLimit: nat, ghost list: seq<Row>) returns (rows: seq<Row>, rounds: nat)
    // any server at all: the walk ends, with at most one request per row it may collect
    ensures rounds <= pageLimit && |rows| == Offset(server, rounds)
    // an honest server: the rows are the list's, in order, and all of them when the list fits
    ensures Collected(server, list, rows)
    ensures HonestServer(server, list) && |list| <= pageLimit ==> rows == list
    ensures HonestServer(server, list) && |list| > pageLimit ==> pageLimit <= |rows|
  {
    rows, rounds := [], 0;
    while |rows| < pageLimit
      invariant |rows| == Offset(server, rounds)
      invariant rounds <= |rows| && rounds <= pageLimit
      invariant Collected(server, list, rows)
      decreases pageLimit - |rows|
    {
      var page := PageOf(server, rounds);
      CollectOneMore(server, list, rows, rounds);
      rows := rows + page.items;
      rounds := rounds + 1;
      if page.items == [] {
        return;
      }
      if page.total.Some? {
        if |rows| >= Min(page.total.value, pageLimit) {
          return;
        }
      } else if |page.items| < QUERY_PAGE_LIMIT {
        return;
      }
    }
  }
}
