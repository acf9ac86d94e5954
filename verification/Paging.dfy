/** Pages of a result list (src/common/utils/pagination.util.ts:4-25). */
module Paging {
  datatype Page<T> = Page(
    items: seq<T>, total: nat, page: nat, limit: nat, totalPages: nat, hasNextPage: bool, hasPreviousPage: bool)

  function CeilDiv(total: nat, limit: nat): nat
    requires limit > 0
  {
    (total + limit - 1) / limit
  }

  function TotalPages(total: nat, limit: nat): nat
    requires limit > 0
  {
    var pages := CeilDiv(total, limit);
    if pages < 1 then 1 else pages
  }

  function BuildResult<T>(items: seq<T>, total: nat, page: nat, limit: nat): Page<T>
    requires limit > 0
  {
    var totalPages := TotalPages(total, limit);
    Page(items, total, page, limit, totalPages, page < totalPages, page > 1)
  }

  function GetSkip(page: nat, limit: nat): nat
    requires page >= 1
  {
    (page - 1) * limit
  }

  /** What the store returns for a skip and a limit. */
  function Fetch<T>(list: seq<T>, skip: nat, limit: nat): seq<T> {
    var from := if skip < |list| then skip else |list|;
    var to := if skip + limit < |list| then skip + limit else |list|;
    list[from..to]
  }

  function GetPage<T>(list: seq<T>, page: nat, limit: nat): Page<T>
    requires page >= 1 && limit > 0
  {
    BuildResult(Fetch(list, GetSkip(page, limit), limit), |list|, page, limit)
  }

  /** The items a client sees who starts at a page and follows hasNextPage to the end. */
  function Follow<T>(list: seq<T>, page: nat, limit: nat): seq<T>
    requires page >= 1 && limit > 0
    decreases TotalPages(|list|, limit) - page
  {
    var p := GetPage(list, page, limit);
    p.items + if p.hasNextPage then Follow(list, page + 1, limit) else []
  }

  lemma TimesAtMost(a: int, b: int, limit: nat)
    requires limit > 0
    ensures a <= b <==> a * limit <= b * limit
  {
    if a <= b {
      assert (b - a) * limit >= 0;
    } else {
      var d := a - b - 1;
      assert d * limit >= 0;
      assert a * limit == b * limit + d * limit + limit;
    }
  }

  lemma CeilDivBounds(total: nat, limit: nat)
    requires limit > 0
    ensures (CeilDiv(total, limit) - 1) * limit < total <= CeilDiv(total, limit) * limit
      || (total == 0 && CeilDiv(total, limit) == 0)
  {
    var q := (total + limit - 1) / limit;
    assert total + limit - 1 == q * limit + (total + limit - 1) % limit;
    assert (q - 1) * limit == q * limit - limit;
  }

  /** The number of pages is the least one, from one on, that covers all items. */
  lemma TotalPagesIsLeast(total: nat, limit: nat, pages: nat)
    requires limit > 0 && pages >= 1
    ensures TotalPages(total, limit) >= 1 && TotalPages(total, limit) * limit >= total
    ensures pages * limit >= total <==> pages >= TotalPages(total, limit)
  {
    CeilDivBounds(total, limit);
    var q := TotalPages(total, limit);
    TimesAtMost(q, pages, limit);
    TimesAtMost(pages, q - 1, limit);
  }

  /** A page says which one it is and how many items there are; there is a page before it exactly if items are. */
  lemma PageSays<T>(list: seq<T>, page: nat, limit: nat)
    requires limit > 0 && page >= 1
    ensures var p := GetPage(list, page, limit);
      && p.page == page && p.limit == limit && p.total == |list|
      && (p.hasPreviousPage <==> GetSkip(page, limit) > 0)
      && |p.items| <= limit && (p.hasNextPage ==> |p.items| == limit)
  {
    if page > 1 { TimesAtMost(1, page - 1, limit); }
    if page < TotalPages(|list|, limit) { PageBounds(|list|, page, limit); }
  }

  /** A page within the list starts within it, and ends within it exactly when another page follows. */
  lemma PageBounds(total: nat, page: nat, limit: nat)
    requires limit > 0 && 1 <= page <= TotalPages(total, limit)
    ensures GetSkip(page, limit) <= total
    ensures GetSkip(page + 1, limit) == GetSkip(page, limit) + limit
    ensures page < TotalPages(total, limit) <==> GetSkip(page + 1, limit) < total
  {
    if page > 1 { TotalPagesIsLeast(total, limit, page - 1); }
    TotalPagesIsLeast(total, limit, page);
    assert page * limit == (page - 1) * limit + limit;
  }

  /** From any page within the list on, following the pages yields everything from that page's first item on. */
  lemma {:induction false} FollowYieldsRest<T>(list: seq<T>, page: nat, limit: nat)
    requires limit > 0 && 1 <= page <= TotalPages(|list|, limit)
    ensures GetSkip(page, limit) <= |list|
    ensures Follow(list, page, limit) == list[GetSkip(page, limit)..]
    decreases TotalPages(|list|, limit) - page
  {
    var skip := GetSkip(page, limit);
    PageBounds(|list|, page, limit);
    if page < TotalPages(|list|, limit) {
      FollowYieldsRest(list, page + 1, limit);
      assert list[skip..] == list[skip..skip + limit] + list[skip + limit..];
    } else {
      assert Fetch(list, skip, limit) == list[skip..];
    }
  }

  /** Following the pages from the first yields the whole list, nothing lost and nothing repeated. */
  lemma PagesTileTheList<T>(list: seq<T>, limit: nat)
    requires limit > 0
    ensures Follow(list, 1, limit) == list
  {
    TotalPagesIsLeast(|list|, limit, 1);
    FollowYieldsRest(list, 1, limit);
    assert GetSkip(1, limit) == 0;
  }

  /** The items a client sees who starts at a page and follows hasPreviousPage back to the beginning. */
  function Rewind<T>(list: seq<T>, page: nat, limit: nat): seq<T>
    requires page >= 1 && limit > 0
  {
    var p := GetPage(list, page, limit);
    (if p.hasPreviousPage then Rewind(list, page - 1, limit) else []) + p.items
  }

  lemma FetchContinues<T>(list: seq<T>, skip: nat, limit: nat)
    requires skip <= |list|
    ensures list[..skip] + Fetch(list, skip, limit) == if skip + limit < |list| then list[..skip + limit] else list
  {
  }

  /** From any page within the list, going back yields everything up to that page's last item. */
  lemma {:induction false} RewindYieldsStart<T>(list: seq<T>, page: nat, limit: nat)
    requires limit > 0 && 1 <= page <= TotalPages(|list|, limit)
    ensures var end := GetSkip(page, limit) + limit;
      Rewind(list, page, limit) == if end < |list| then list[..end] else list
    decreases page
  {
    PageBounds(|list|, page, limit);
    PageSays(list, page, limit);
    FetchContinues(list, GetSkip(page, limit), limit);
    if page > 1 {
      PageBounds(|list|, page - 1, limit);
      RewindYieldsStart(list, page - 1, limit);
    }
  }
}
