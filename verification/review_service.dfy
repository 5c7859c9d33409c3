/**
 * The client's review service, reduced to the decisions it takes before
 * and after its requests: which per-category ranking list it saves, the
 * numbering of a reordered list, and the inputs for which it answers
 * without contacting the server. A request's outcome is a parameter
 * (`None` when the response is not ok).
 */
module ReviewService {
  import opened Wrappers
  import opened Arrays
  import opened RankingEngine
  import ShopController

  /** One entry of `GET /rankings/:email`. */
  datatype CategoryRanking = CategoryRanking(category: string, rankings: seq<RankingItem>)

  function CategoryIs(category: string): CategoryRanking -> bool {
    (c: CategoryRanking) => c.category == category
  }

  function ItemNamed(name: string): RankingItem -> bool {
    (r: RankingItem) => r.establishmentName == name
  }

  /** `getRankings`: a failed response reads as no rankings at all. */
  function GetRankings(response: Option<seq<CategoryRanking>>): (r: seq<CategoryRanking>)
    ensures response.None? ==> r == []
    ensures response.Some? ==> r == response.value
  {
    response.GetOr([])
  }

  /**
   * `updateRankings(email, category, name)`: the list it saves for the
   * category, or `None` when it saves nothing. A category without a list
   * gets `[{name, 1}]`; a list without the name gets the name appended with
   * rank length + 1; a list that already names it is left alone.
   */
  function UpdateRankings(response: Option<seq<CategoryRanking>>, category: string, name: string): (saved: Option<seq<RankingItem>>)
    ensures var lists := GetRankings(response);
      (forall i :: 0 <= i < |lists| ==> lists[i].category != category) ==> saved == Some([RankingItem(name, 1)])
  {
    match Find(GetRankings(response), CategoryIs(category))
    case None => Some([RankingItem(name, 1)])
    case Some(list) =>
      if Find(list.rankings, ItemNamed(name)).Some? then None
      else Some(list.rankings + [RankingItem(name, |list.rankings| + 1)])
  }

  /**
   * When the category has a list (the first one with that category is the
   * one found), a list naming the establishment is left alone and any
   * other gets it appended with rank length + 1.
   */
  lemma UpdateRankingsExistingCategory(response: Option<seq<CategoryRanking>>, category: string, name: string, i: nat)
    requires var lists := GetRankings(response);
      && i < |lists| && lists[i].category == category
      && forall j :: 0 <= j < i ==> lists[j].category != category
    ensures var existing := GetRankings(response)[i].rankings;
      var saved := UpdateRankings(response, category, name);
      && ((exists k :: 0 <= k < |existing| && existing[k].establishmentName == name) ==> saved == None)
      && ((forall k :: 0 <= k < |existing| ==> existing[k].establishmentName != name) ==>
            saved == Some(existing + [RankingItem(name, |existing| + 1)]))
  {
    var lists := GetRankings(response);
    assert Find(lists, CategoryIs(category)) == Some(lists[i]) by {
      var found := FindIndex(lists, CategoryIs(category));
      assert found.Some? && found.value <= i;
    }
  }

  /** The lists as the server returns them after `items` was saved for `category`. */
  function AfterSave(lists: seq<CategoryRanking>, category: string, items: seq<RankingItem>): seq<CategoryRanking> {
    if lists == [] then [CategoryRanking(category, items)]
    else if lists[0].category == category then [CategoryRanking(category, items)] + lists[1..]
    else [lists[0]] + AfterSave(lists[1..], category, items)
  }

  lemma {:induction false} AfterSaveFinds(lists: seq<CategoryRanking>, category: string, items: seq<RankingItem>)
    ensures Find(AfterSave(lists, category, items), CategoryIs(category)) == Some(CategoryRanking(category, items))
  {
    if lists != [] && lists[0].category != category {
      AfterSaveFinds(lists[1..], category, items);
      var rest := AfterSave(lists[1..], category, items);
      assert AfterSave(lists, category, items) == [lists[0]] + rest;
      assert ([lists[0]] + rest)[1..] == rest;
    }
  }

  /**
   * Adding the same establishment twice saves once: after the first save
   * has reached the server, a second call finds the name and saves nothing.
   */
  lemma UpdateRankingsSettles(response: Option<seq<CategoryRanking>>, category: string, name: string)
    ensures var saved := UpdateRankings(response, category, name);
      saved.Some? ==>
        UpdateRankings(Some(AfterSave(GetRankings(response), category, saved.value)), category, name) == None
  {
    var saved := UpdateRankings(response, category, name);
    if saved.Some? {
      var lists := AfterSave(GetRankings(response), category, saved.value);
      AfterSaveFinds(GetRankings(response), category, saved.value);
      assert saved.value[|saved.value| - 1].establishmentName == name;
    }
  }

  /**
   * Appending keeps a numbered list numbered: if the existing list ranks its
   * names 1..n in order, the saved list ranks them 1..n+1.
   */
  lemma UpdateRankingsKeepsNumbering(lists: seq<CategoryRanking>, category: string, name: string, names: seq<string>)
    requires Find(lists, CategoryIs(category)) == Some(CategoryRanking(category, Number(names)))
    requires name !in names
    ensures UpdateRankings(Some(lists), category, name) == Some(Number(names + [name]))
  {
    NumberSnoc(names, name);
  }

  /** `updateCategoryOrder`: the name at index i gets rank i + 1. */
  function UpdateCategoryOrder(newOrder: seq<string>): (r: seq<RankingItem>)
    ensures |r| == |newOrder|
    ensures forall i :: 0 <= i < |r| ==> r[i].rank == i + 1
    ensures ItemNames(r) == newOrder
  {
    Number(newOrder)
  }

  /** Reading the names back off a reordered list gives the order that was set. */
  lemma CategoryOrderRoundTrip(items: seq<RankingItem>)
    requires forall i :: 0 <= i < |items| ==> items[i].rank == i + 1
    ensures UpdateCategoryOrder(ItemNames(items)) == items
  {
  }

  /** A call that may answer without a request: `sent` says whether one was made. */
  datatype Call<T> = Call(sent: bool, result: Result<T, string>)

  /** `uploadImages`: no files means no request and no URLs; a failed upload throws. */
  function UploadImages(files: seq<string>, response: Option<seq<string>>): (r: Call<seq<string>>)
    ensures r.sent <==> files != []
    ensures files == [] ==> r.result == Success([])
    ensures files != [] && response.None? ==> r.result.Failure?
    ensures files != [] && response.Some? ==> r.result == Success(response.value)
  {
    if files == [] then Call(false, Success([]))
    else match response
      case None => Call(true, Failure("Failed to upload images"))
      case Some(urls) => Call(true, Success(urls))
  }

  /** `searchShops`: an empty query means no request and no shops; a failed response also gives none. */
  function SearchShops<S>(query: string, response: Option<seq<S>>): (r: Call<seq<S>>)
    ensures r.sent <==> query != ""
    ensures r.result.Success?
    ensures (query == "" || response.None?) ==> r.result.value == []
    ensures query != "" && response.Some? ==> r.result.value == response.value
  {
    if query == "" then Call(false, Success([]))
    else Call(true, Success(response.GetOr([])))
  }

  /**
   * The client's search and the endpoint agree: a non-empty query asks the
   * server, which reads the table, and the client shows exactly the rows it
   * answers with; an empty query asks nobody and shows nothing.
   */
  lemma SearchShowsServerRows<X>(shops: seq<ShopController.Shop<X>>, query: string)
    ensures var server := ShopController.SearchShops(shops, Some(query));
      var client := SearchShops(query, Some(server.0));
      && client.sent == server.1
      && client.result == Success(server.0)
  {
  }
}
