/** The products page's bookkeeping of its URL query parameters: the
    defaults it reads them with, the updates its handlers write, and the
    pagination controls. */
module ProductsPage {
  import opened Optional
  import opened JsText

  /** The query parameters, as a key-value map. */
  type Params = map<string, string>

  /** One entry of an `updates` object: a key and its new value, `None` for
      `null`. */
  type Update = (string, Option<string>)

  /** The entries of an object have distinct keys. */
  predicate DistinctKeys(updates: seq<Update>)
  {
    forall i, j :: 0 <= i < j < |updates| ==> updates[i].0 != updates[j].0
  }

  function UpdatedKeys(updates: seq<Update>): set<string>
  {
    set u | u in updates :: u.0
  }

  /** The parameters after applying the updates in order: a value sets its
      key, `None` deletes it. */
  function Applied(params: Params, updates: seq<Update>): Params
  {
    if updates == [] then params
    else
      var before := Applied(params, updates[..|updates| - 1]);
      var (key, value) := updates[|updates| - 1];
      if value.Some? then before[key := value.value] else before - {key}
  }

  /** What applying distinct-keyed updates does, key by key: each key with a
      value holds it, each key with `None` is gone, and every key not
      mentioned is as it was. */
  lemma {:induction false} AppliedPerKey(params: Params, updates: seq<Update>)
    requires DistinctKeys(updates)
    ensures forall i :: 0 <= i < |updates| && updates[i].1.Some? ==>
              updates[i].0 in Applied(params, updates) && Applied(params, updates)[updates[i].0] == updates[i].1.value
    ensures forall i :: 0 <= i < |updates| && updates[i].1.None? ==> updates[i].0 !in Applied(params, updates)
    ensures forall key :: key !in UpdatedKeys(updates) ==>
              (key in Applied(params, updates) <==> key in params)
              && (key in params ==> Applied(params, updates)[key] == params[key])
  {
    if updates != [] {
      var init := updates[..|updates| - 1];
      var last := updates[|updates| - 1];
      AppliedPerKey(params, init);
      var before := Applied(params, init);
      var after := Applied(params, updates);
      assert after == if last.1.Some? then before[last.0 := last.1.value] else before - {last.0};
      forall i | 0 <= i < |updates| - 1
        ensures updates[i] == init[i] && init[i].0 != last.0
      {
      }
      forall key | key !in UpdatedKeys(updates)
        ensures key != last.0 && key !in UpdatedKeys(init)
      {
        assert last in updates;
      }
    }
  }

  /** `updateParams(updates)`: the callback handed to `setSearchParams`,
      which sets or deletes each entry's key in turn and returns the
      parameters. */
  method UpdateParams(params: Params, updates: seq<Update>) returns (r: Params)
    requires DistinctKeys(updates)
    ensures r == Applied(params, updates)
    ensures forall i :: 0 <= i < |updates| && updates[i].1.Some? ==>
              updates[i].0 in r && r[updates[i].0] == updates[i].1.value
    ensures forall i :: 0 <= i < |updates| && updates[i].1.None? ==> updates[i].0 !in r
    ensures forall key :: key !in UpdatedKeys(updates) ==>
              (key in r <==> key in params) && (key in params ==> r[key] == params[key])
  {
    r := params;
    var i := 0;
    while i < |updates|
      invariant 0 <= i <= |updates|
      invariant r == Applied(params, updates[..i])
    {
      var (key, value) := updates[i];
      if value.Some? {
        r := r[key := value.value];
      } else {
        r := r - {key};
      }
      assert updates[..i + 1][..i] == updates[..i];
      i := i + 1;
    }
    assert updates[..i] == updates;
    AppliedPerKey(params, updates);
  }

  /** `value || null` for a string. */
  function OrNull(value: string): Option<string>
  {
    if value == "" then None else Some(value)
  }

  /** `searchParams.get(key) || fallback`: an absent or empty parameter
      reads as the fallback. */
  function ParamOr(params: Params, key: string, fallback: string): string
  {
    if key in params && params[key] != "" then params[key] else fallback
  }

  function SearchFromParams(params: Params): (search: string)
    ensures search == "" <==> "search" !in params || params["search"] == ""
    ensures search != "" ==> search == params["search"]
  {
    ParamOr(params, "search", "")
  }

  function CategoryFromParams(params: Params): (category: string)
    ensures category == "" <==> "category" !in params || params["category"] == ""
    ensures category != "" ==> category == params["category"]
  {
    ParamOr(params, "category", "")
  }

  function SortByFromParams(params: Params): (sortBy: string)
    ensures sortBy != ""
    ensures "sortBy" in params && params["sortBy"] != "" ==> sortBy == params["sortBy"]
    ensures "sortBy" !in params || params["sortBy"] == "" ==> sortBy == "title"
  {
    ParamOr(params, "sortBy", "title")
  }

  function SortOrderFromParams(params: Params): (sortOrder: string)
    ensures sortOrder != ""
    ensures "sortOrder" in params && params["sortOrder"] != "" ==> sortOrder == params["sortOrder"]
    ensures "sortOrder" !in params || params["sortOrder"] == "" ==> sortOrder == "asc"
  {
    ParamOr(params, "sortOrder", "asc")
  }

  /** `parseInt(searchParams.get("page")) || 1`: the page is the parsed
      integer unless that is NaN or zero, and 1 then. */
  function PageFromParams(params: Params): (page: int)
    ensures page != 0
    ensures page == 1 || ("page" in params && ParseInt(params["page"]) == Some(page))
    ensures "page" !in params ==> page == 1
    ensures "page" in params && ParseInt(params["page"]).Some? && ParseInt(params["page"]).value != 0
            ==> page == ParseInt(params["page"]).value
  {
    if "page" !in params then 1
    else match ParseInt(params["page"])
      case None => 1
      case Some(n) => if n != 0 then n else 1
  }

  /** A page typed into the address bar is read as `parseInt` reads it. */
  lemma TypedPages(params: Params)
    ensures PageFromParams(params["page" := " 3"]) == 3
    ensures PageFromParams(params["page" := "7abc"]) == 7
    ensures PageFromParams(params["page" := "0"]) == 1
  {
    ParseIntTypedPages();
    ParseIntOfDecimal(0);
    assert IntToDecimal(0) == "0";
  }

  /** Absent parameters take their defaults. */
  lemma Defaults()
    ensures SearchFromParams(map[]) == "" && CategoryFromParams(map[]) == ""
    ensures SortByFromParams(map[]) == "title" && SortOrderFromParams(map[]) == "asc"
    ensures PageFromParams(map[]) == 1
  {
  }

  /** The updates of `handleSearchChange`. */
  function SearchChange(value: string): (updates: seq<Update>)
    ensures DistinctKeys(updates) && UpdatedKeys(updates) == {"search"}
    ensures updates[0].1.None? <==> value == ""
  {
    [("search", OrNull(value))]
  }

  /** The updates of `handleCategoryChange`. */
  function CategoryChange(value: string): (updates: seq<Update>)
    ensures DistinctKeys(updates) && UpdatedKeys(updates) == {"category"}
    ensures updates[0].1.None? <==> value == ""
  {
    [("category", OrNull(value))]
  }

  /** The updates of `handleSortChange`: the first two pieces of the value
      split at `-` become sortBy and sortOrder; an empty or missing piece
      deletes its key. */
  function SortChange(value: string): (updates: seq<Update>)
    ensures |updates| == 2 && updates[0].0 == "sortBy" && updates[1].0 == "sortOrder"
    ensures DistinctKeys(updates) && UpdatedKeys(updates) == {"sortBy", "sortOrder"}
    ensures forall i :: 0 <= i < |updates| && updates[i].1.Some? ==>
              updates[i].1.value != "" && '-' !in updates[i].1.value
    ensures '-' !in value ==> updates[1].1 == None && updates[0].1 == OrNull(value)
    ensures forall x, y :: '-' !in x && '-' !in y && value == x + "-" + y ==>
              updates == [("sortBy", OrNull(x)), ("sortOrder", OrNull(y))]
  {
    var parts := Split(value, '-');
    var updates := [("sortBy", OrNull(parts[0])),
                    ("sortOrder", if |parts| > 1 then OrNull(parts[1]) else None)];
    assert updates[0] in updates && updates[1] in updates;
    SplitAtOneDash(value);
    if '-' in value then updates
    else SplitWithoutSeparator(value, '-'); updates
  }

  /** A value `x-y` whose two parts hold no `-` splits into exactly those
      parts. */
  lemma SplitAtOneDash(value: string)
    ensures forall x, y :: '-' !in x && '-' !in y && value == x + "-" + y ==>
              Split(value, '-') == [x, y]
  {
    forall x, y | '-' !in x && '-' !in y && value == x + "-" + y
      ensures Split(value, '-') == [x, y]
    {
      assert x + "-" + y == x + ['-'] + y;
      SplitTwo(x, y, '-');
    }
  }

  /** The updates of `handlePageChange`. */
  function PageChange(newPage: int): (updates: seq<Update>)
    ensures DistinctKeys(updates) && UpdatedKeys(updates) == {"page"}
    ensures updates[0].1.Some? && ParseInt(updates[0].1.value) == Some(newPage)
  {
    var text := IntToDecimal(newPage);
    ParseIntOfDecimal(newPage);
    var updates := [("page", Some(text))];
    assert updates[0] in updates;
    updates
  }

  /** Typing into the search box is what the page then reads as the search;
      nothing else changes. */
  lemma SearchRoundTrip(params: Params, value: string)
    ensures SearchFromParams(Applied(params, SearchChange(value))) == value
    ensures forall key :: key != "search" ==>
              (key in Applied(params, SearchChange(value)) <==> key in params)
  {
  }

  /** Choosing a category is what the page then reads as the category. */
  lemma CategoryRoundTrip(params: Params, value: string)
    ensures CategoryFromParams(Applied(params, CategoryChange(value))) == value
  {
  }

  /** Choosing the sort option `sortBy-sortOrder` (neither part containing
      `-`) is read back as those two parts, each falling back to its default
      when empty. */
  lemma SortRoundTrip(params: Params, sortBy: string, sortOrder: string)
    requires '-' !in sortBy && '-' !in sortOrder
    ensures SortByFromParams(Applied(params, SortChange(sortBy + "-" + sortOrder))) == if sortBy == "" then "title" else sortBy
    ensures SortOrderFromParams(Applied(params, SortChange(sortBy + "-" + sortOrder))) == if sortOrder == "" then "asc" else sortOrder
  {
    SplitTwo(sortBy, sortOrder, '-');
    assert sortBy + "-" + sortOrder == sortBy + ['-'] + sortOrder;
  }

  /** A sort value without `-` deletes sortOrder, which then reads as
      "asc". */
  lemma SortWithoutDash(params: Params, value: string)
    requires '-' !in value
    ensures SortOrderFromParams(Applied(params, SortChange(value))) == "asc"
  {
  }

  /** Moving to a page is read back as that page (a zero as page 1). */
  lemma PageRoundTrip(params: Params, newPage: int)
    ensures PageFromParams(Applied(params, PageChange(newPage))) == if newPage == 0 then 1 else newPage
  {
    ParseIntOfDecimal(newPage);
  }

  /** The target of "Previous": `Math.max(1, page - 1)`. */
  function PreviousPage(page: int): (r: int)
    ensures r >= 1 && r >= page - 1
    ensures r == 1 || r == page - 1
  {
    if page - 1 > 1 then page - 1 else 1
  }

  /** The target of "Next": `Math.min(totalPages, page + 1)`. */
  function NextPage(page: int, totalPages: int): (r: int)
    ensures r <= totalPages && r <= page + 1
    ensures r == totalPages || r == page + 1
  {
    if page + 1 < totalPages then page + 1 else totalPages
  }

  /** The controls are shown only once the service has said there is more
      than one page. */
  predicate ShowsPagination(totalPages: Option<int>): (shown: bool)
    ensures shown ==> totalPages.Some? && totalPages.value >= 0 && |PageButtons(totalPages.value)| >= 2
  {
    totalPages.Some? && totalPages.value > 1
  }

  /** The numbered page buttons. */
  function PageButtons(totalPages: nat): seq<int>
  {
    seq(totalPages, i => i + 1)
  }

  /** The buttons are 1 to totalPages, each once, in increasing order. */
  lemma PageButtonsAreTheRange(totalPages: nat)
    ensures |PageButtons(totalPages)| == totalPages
    ensures forall k :: k in PageButtons(totalPages) <==> 1 <= k <= totalPages
    ensures forall i, j :: 0 <= i < j < totalPages ==> PageButtons(totalPages)[i] < PageButtons(totalPages)[j]
  {
    var b := PageButtons(totalPages);
    forall k | 1 <= k <= totalPages ensures k in b {
      assert b[k - 1] == k;
    }
  }

  /** From a page within range, "Previous" and "Next" lead to a page within
      range; when their button is enabled they move by exactly one. */
  lemma NavigationStaysInRange(page: int, totalPages: int)
    requires 1 <= page <= totalPages
    ensures 1 <= PreviousPage(page) <= totalPages && 1 <= NextPage(page, totalPages) <= totalPages
    ensures page != 1 ==> PreviousPage(page) == page - 1
    ensures page != totalPages ==> NextPage(page, totalPages) == page + 1
  {
  }

  /** The page read from the address can lie outside 1 to totalPages (for
      `?page=-3`, say); then "Next" below the range, or "Previous" above it,
      is enabled and leads to a page that is no numbered button. */
  lemma NavigationFromPageOutOfRange(page: int, totalPages: nat)
    requires totalPages >= 1
    ensures page < 0 ==> page != totalPages && NextPage(page, totalPages) == page + 1
                         && NextPage(page, totalPages) !in PageButtons(totalPages)
    ensures page > totalPages + 1 ==> page != 1 && PreviousPage(page) == page - 1
                                      && PreviousPage(page) !in PageButtons(totalPages)
  {
    PageButtonsAreTheRange(totalPages);
  }

  /** While the controls are shown, every target of "Previous" and "Next"
      from a page in range is one of the numbered buttons. */
  lemma NavigationTargetsAreButtons(totalPages: Option<int>, page: int)
    requires ShowsPagination(totalPages) && 1 <= page <= totalPages.value
    ensures PreviousPage(page) in PageButtons(totalPages.value)
    ensures NextPage(page, totalPages.value) in PageButtons(totalPages.value)
  {
    PageButtonsAreTheRange(totalPages.value);
    NavigationStaysInRange(page, totalPages.value);
  }
}
